/** Where slots and the log stand after a run, event by event: laws that say what every step does,
    not only what it keeps. */
module WalsenderPositions {
  import opened Wrappers
  import opened Walsender
  import opened WalsenderDelivery

  // ----- slot positions -----

  /** The position that an event confirms for the slot; a negative one counts as zero. */
  function Flushed(s: State, e: Event, name: string): nat {
    if e.Feedback? && e.id in s.sessions && s.sessions[e.id].slot == name && e.flushed > 0 then e.flushed else 0
  }

  /** The position up to which an event marks the slot as sent. */
  function Marked(s: State, e: Event, name: string): nat {
    if e.Mark? && e.id in s.sessions && s.sessions[e.id].slot == name then s.sessions[e.id].next else 0
  }

  /** The highest position that the sessions of the slot reported as flushed over a run. */
  function HighestFlushed(s: State, events: seq<Event>, name: string): nat
    decreases |events|
  {
    if events == [] then 0
    else Max(Flushed(s, events[0], name), HighestFlushed(Step(s, events[0]), events[1..], name))
  }

  function HighestMarked(s: State, events: seq<Event>, name: string): nat
    decreases |events|
  {
    if events == [] then 0
    else Max(Marked(s, events[0], name), HighestMarked(Step(s, events[0]), events[1..], name))
  }

  lemma PositionStep(s: State, e: Event, name: string)
    requires Inv(s) && name in s.slots && e != Drop(name)
    ensures var s' := Step(s, e);
      && name in s'.slots
      && s'.slots[name].confirmedLsn == Max(s.slots[name].confirmedLsn, Flushed(s, e, name))
      && s'.slots[name].restartLsn == Max(s.slots[name].restartLsn, Max(Flushed(s, e, name), Marked(s, e, name)))
  {
    hide SessionOk, LogOk, PollSession, ValidSlotName;
    assert SlotOk(s.slots[name]);
  }

  /** Positions exactly: over a run that does not drop it, the slot is confirmed up to the highest
      position its sessions reported, or where it was, and restarts at the highest position that
      was reported or marked as sent, or where it was. */
  lemma {:induction false} PositionsExactly(s: State, events: seq<Event>, name: string)
    requires Inv(s) && name in s.slots
    requires forall i | 0 <= i < |events| :: events[i] != Drop(name)
    ensures var s' := Run(s, events);
      && name in s'.slots
      && s'.slots[name].confirmedLsn == Max(s.slots[name].confirmedLsn, HighestFlushed(s, events, name))
      && s'.slots[name].restartLsn
         == Max(s.slots[name].restartLsn, Max(HighestFlushed(s, events, name), HighestMarked(s, events, name)))
    decreases |events|
  {
    hide Inv, Step, Flushed, Marked;
    if events != [] {
      StepKeepsInv(s, events[0]);
      PositionStep(s, events[0], name);
      PositionsExactly(Step(s, events[0]), events[1..], name);
    }
  }

  /** From its creation on: the maximum of the end of the log then and the reported positions. */
  lemma ConfirmedSinceCreation(s: State, name: string, slotType: string, plugin: string, events: seq<Event>)
    requires Inv(s) && CreateCheck(s, name, slotType, plugin).None?
    requires forall i | 0 <= i < |events| :: events[i] != Drop(name)
    ensures var s1 := Step(s, Create(name, slotType, plugin)); var s' := Run(s1, events);
      && name in s'.slots
      && s'.slots[name].confirmedLsn == Max(s.end, HighestFlushed(s1, events, name))
      && s'.slots[name].restartLsn == Max(s.end, Max(HighestFlushed(s1, events, name), HighestMarked(s1, events, name)))
  {
    hide Inv, ValidSlotName, HighestFlushed, HighestMarked, Run;
    StepKeepsInv(s, Create(name, slotType, plugin));
    PositionsExactly(Step(s, Create(name, slotType, plugin)), events, name);
  }

  // ----- a confirmed change is not sent again -----

  lemma SentFromStart(s: State, id: nat)
    requires Inv(s) && id in s.sessions
    ensures forall m | m in s.sessions[id].sent :: s.sessions[id].start <= m.lsn
  {
    hide Lines, Window;
    var x := s.sessions[id];
    assert SessionOk(s, x);
    WindowMembers(s.history, x.start, x.next, x.skipped);
    LinesMembers(x.frames);
    forall m | m in x.sent
      ensures x.start <= m.lsn
    {
      var i :| 0 <= i < |x.sent| && x.sent[i] == m;
      assert Unstamped(x.sent)[i] == Lines(x.frames)[i];
      assert Lines(x.frames)[i] in Lines(x.frames);
    }
  }

  lemma {:induction false} StartStays(s: State, events: seq<Event>, id: nat)
    requires Keeps(s, events, id)
    ensures id in Run(s, events).sessions && Run(s, events).sessions[id].start == s.sessions[id].start
    decreases |events|
  {
    hide Step;
    if events != [] {
      StartStep1(s, events[0], id);
      StartStays(Step(s, events[0]), events[1..], id);
    }
  }

  lemma StartStep1(s: State, e: Event, id: nat)
    requires id in s.sessions && id in Step(s, e).sessions
    ensures Step(s, e).sessions[id].start == s.sessions[id].start
  {
    hide FramesSince, NextAfter, AllMessages, Unread, ValidSlotName;
  }

  /** Once a session of the slot has confirmed f, a session started later on the slot sends no
      frame below f, whatever position it asks for and however the run goes on. */
  lemma ConfirmedNotResent(s: State, id: nat, f: nat, name: string, between: seq<Event>, id': nat, lsn: nat, after: seq<Event>)
    requires Inv(s) && id in s.sessions && s.sessions[id].slot == name
    requires forall i | 0 <= i < |between| :: between[i] != Drop(name)
    requires var s2 := Run(Step(s, Feedback(id, f)), between);
      id' !in s2.sessions && Keeps(Step(s2, Start(id', name, lsn)), after, id')
    ensures var s2 := Run(Step(s, Feedback(id, f)), between); var s' := Run(Step(s2, Start(id', name, lsn)), after);
      id' in s'.sessions && forall m | m in s'.sessions[id'].sent :: f <= m.lsn
  {
    hide Inv, Run, Keeps, HighestFlushed, HighestMarked;
    var s1 := Step(s, Feedback(id, f));
    SessionSlots(s) by { assert Inv(s); }
    StepKeepsInv(s, Feedback(id, f));
    PositionStep(s, Feedback(id, f), name);
    PositionsExactly(s1, between, name);
    RunKeepsInv(s1, between);
    var s2 := Run(s1, between);
    var s3 := Step(s2, Start(id', name, lsn));
    StepKeepsInv(s2, Start(id', name, lsn));
    KeepsNow(s3, after, id');
    ResumesConfirmed(s2, id', name, lsn);
    StartStays(s3, after, id');
    RunKeepsInv(s3, after);
    SentFromStart(Run(s3, after), id');
  }

  lemma KeepsNow(s: State, events: seq<Event>, id: nat)
    requires Keeps(s, events, id)
    ensures id in s.sessions
  {
  }

  /** A round stamps every message with the end of the log at that moment. */
  lemma RoundStamps(s: State, id: nat)
    requires id in s.sessions
    ensures var x, y := s.sessions[id], Step(s, Poll(id)).sessions[id];
      x.sent <= y.sent && forall m | m in y.sent[|x.sent|..] :: m.walEnd == s.end
  {
    hide FramesSince, NextAfter, Unread;
    AllStamped(FramesSince(s.history, Max(s.sessions[id].next, s.base)), s.end);
  }

  lemma {:induction false} AllStamped(frames: seq<Frame>, walEnd: nat)
    ensures forall m | m in AllMessages(frames, walEnd) :: m.walEnd == walEnd
  {
    if frames != [] {
      AllStamped(frames[1..], walEnd);
    }
  }

  // ----- slot commands -----

  /** A slot is created exactly for a name of 1 to 63 lower-case letters, digits and underscores
      that is not taken, as physical, or as logical with the one plugin; it is idle and stands at
      the end of the log. */
  lemma CreatesExactly(s: State, name: string, slotType: string, plugin: string)
    ensures var s' := Step(s, Create(name, slotType, plugin));
      if 1 <= |name| <= 63 && (forall c | c in name :: 'a' <= c <= 'z' || '0' <= c <= '9' || c == '_')
         && (slotType == "physical" || (slotType == "logical" && plugin == "rustgres_decoding")) && name !in s.slots
      then s' == s.(slots := s.slots[name :=
             Slot(if slotType == "logical" then plugin else "", slotType, s.end, s.end, false)])
      else s' == s
  {
    if forall c | c in name :: 'a' <= c <= 'z' || '0' <= c <= '9' || c == '_' {
      assert forall i | 0 <= i < |name| :: name[i] in name;
    }
  }

  /** Exactly an existing idle slot is dropped. */
  lemma DropsExactly(s: State, name: string)
    ensures var s' := Step(s, Drop(name));
      && s'.sessions == s.sessions && s'.history == s.history
      && (forall other | other != name :: (other in s'.slots <==> other in s.slots)
            && (other in s.slots ==> s'.slots[other] == s.slots[other]))
      && (name in s'.slots <==> name in s.slots && s.slots[name].active)
      && (name in s'.slots ==> s'.slots[name] == s.slots[name])
  {
  }

  /** A session starts exactly on an existing idle logical slot, at the later of the position asked
      for and the confirmed one, with nothing sent; the slot is then active. */
  lemma StartsExactly(s: State, id: nat, name: string, lsn: nat)
    requires id !in s.sessions
    ensures var s' := Step(s, Start(id, name, lsn));
      if name in s.slots && !s.slots[name].active && s.slots[name].slotType == "logical"
      then
        && id in s'.sessions && name in s'.slots && s'.slots[name].active
        && s'.sessions[id].slot == name && s'.sessions[id].sent == []
        && s'.sessions[id].start == s'.sessions[id].next
        && s'.sessions[id].next >= lsn && s'.sessions[id].next >= s.slots[name].confirmedLsn
        && (s'.sessions[id].next == lsn || s'.sessions[id].next == s.slots[name].confirmedLsn)
      else s' == s
  {
  }

  /** After its session has ended the slot is idle at the same positions, and can be started and
      dropped. */
  lemma EndReleases(s: State, id: nat)
    requires Inv(s) && id in s.sessions
    ensures var name := s.sessions[id].slot; var s' := Step(s, End(id));
      && id !in s'.sessions && name in s.slots && name in s'.slots && !s'.slots[name].active
      && s'.slots[name].confirmedLsn == s.slots[name].confirmedLsn && s'.slots[name].restartLsn == s.slots[name].restartLsn
      && StartCheck(s', name).None? && DropCheck(s', name).None?
      && (forall k | k in s.sessions && k != id :: k in s'.sessions && s'.sessions[k] == s.sessions[k])
  {
    hide SessionOk, LogOk;
    SessionSlots(s);
  }

  // ----- the log -----

  /** The frames that the commits of a run write, the first at the given position. */
  function Committed(events: seq<Event>, at: nat): seq<Frame>
    decreases |events|
  {
    if events == [] then []
    else if events[0].Commit? && events[0].size > 0 then
      [Frame(at, events[0].lines)] + Committed(events[1..], at + events[0].size)
    else Committed(events[1..], at)
  }

  function CommittedSize(events: seq<Event>): nat {
    if events == [] then 0 else (if events[0].Commit? then events[0].size else 0) + CommittedSize(events[1..])
  }

  /** The log is what was committed, in order, each frame behind the one before; nothing else
      writes or removes frames. */
  lemma {:induction false} LogIsCommitted(s: State, events: seq<Event>)
    ensures Run(s, events).history == s.history + Committed(events, s.end)
    ensures Run(s, events).end == s.end + CommittedSize(events)
    decreases |events|
  {
    hide Step;
    if events == [] {
      assert s.history + [] == s.history;
    } else {
      LogStep(s, events[0]);
      LogIsCommitted(Step(s, events[0]), events[1..]);
    }
  }

  lemma LogStep(s: State, e: Event)
    ensures var s' := Step(s, e); var more := e.Commit? && e.size > 0;
      && s'.history == s.history + (if more then [Frame(s.end, e.lines)] else [])
      && s'.end == s.end + (if e.Commit? then e.size else 0)
      && s'.base == if e.Checkpoint? then s.end else s.base
  {
    hide PollSession, ValidSlotName;
  }
}

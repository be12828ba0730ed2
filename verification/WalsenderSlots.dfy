/** What the clients of one slot receive over successive sessions. */
module WalsenderSlots {
  import opened Walsender
  import opened WalsenderDelivery

  /** The messages an event adds for the clients of a slot. */
  function NewMessages(s: State, e: Event, name: string): seq<Message> {
    if e.Poll? && e.id in s.sessions && s.sessions[e.id].slot == name then
      AllMessages(FramesSince(s.history, Max(s.sessions[e.id].next, s.base)), s.end)
    else []
  }

  /** All messages sent for a slot over a run, to whichever session it had. */
  function SlotSent(s: State, events: seq<Event>, name: string): seq<Message>
    decreases |events|
  {
    if events == [] then [] else NewMessages(s, events[0], name) + SlotSent(Step(s, events[0]), events[1..], name)
  }

  lemma NewMessagesAreSent(s: State, id: nat)
    requires id in s.sessions
    ensures Step(s, Poll(id)).sessions[id].sent == s.sessions[id].sent + NewMessages(s, Poll(id), s.sessions[id].slot)
  {
    hide FramesSince, NextAfter, Unread;
    assert AllMessages([], s.end) == [];
  }

  /** The clients of the slot confirm no more than was sent to them and ask for no more than was
      confirmed; the slot is not dropped; a checkpoint waits until everything is confirmed. */
  ghost predicate HonestStep(s: State, e: Event, name: string) {
    match e
    case Feedback(id, flushed) =>
      id in s.sessions && s.sessions[id].slot == name ==> flushed <= s.sessions[id].next
    case Start(id, other, lsn) => other == name && name in s.slots ==> lsn <= s.slots[name].confirmedLsn
    case Drop(other) => other != name
    case Checkpoint => name in s.slots ==> forall f | f in s.history :: f.lsn < s.slots[name].confirmedLsn
    case _ => true
  }

  ghost predicate HonestRun(s: State, events: seq<Event>, name: string)
    decreases |events|
  {
    events == [] || (HonestStep(s, events[0], name) && HonestRun(Step(s, events[0]), events[1..], name))
  }

  /** What the slot has not confirmed is retained, and its session reads on from there, within
      the log. */
  ghost predicate Retained(s: State, name: string) {
    && name in s.slots && s.slots[name].confirmedLsn <= s.end
    && (forall f | f in s.history && s.slots[name].confirmedLsn <= f.lsn :: s.base <= f.lsn)
    && (forall id | id in s.sessions && s.sessions[id].slot == name :: s.slots[name].confirmedLsn <= s.sessions[id].next <= s.end)
  }

  /** A position is behind the slot: confirmed, or passed by its session. */
  ghost predicate Reached(s: State, name: string, lsn: nat)
    requires name in s.slots
  {
    lsn < s.slots[name].confirmedLsn
    || exists id :: id in s.sessions && s.sessions[id].slot == name && lsn < s.sessions[id].next
  }

  ghost predicate Has(ms: seq<Message>, f: Frame) {
    forall line | line in f.lines :: exists m: Message :: m in ms && m.lsn == f.lsn && m.line == line
  }

  /** Every frame from a position on that the slot has reached is among the messages. */
  ghost predicate Covered(s: State, name: string, from: nat, ms: seq<Message>)
    requires name in s.slots
  {
    forall f | f in s.history && from <= f.lsn && Reached(s, name, f.lsn) :: Has(ms, f)
  }

  // ----- one step -----

  lemma RetainedStep(s: State, e: Event, name: string)
    requires Inv(s) && Retained(s, name) && HonestStep(s, e, name)
    ensures Retained(Step(s, e), name)
  {
    hide SessionOk, ValidSlotName, PollSession, SlotOk;
    EndBeyond(s);
    SessionSlots(s);
    if e.Poll? && e.id in s.sessions {
      NextGrows(s, s.sessions[e.id]);
      NextInLog(s, s.sessions[e.id]);
    }
  }

  /** A round leaves the session at the end of the log, or where it was. */
  lemma NextInLog(s: State, x: Session)
    requires Inv(s)
    ensures var y := PollSession(s, x); y.next == x.next || y.next == Max(s.end, x.next)
  {
    hide SessionOk, AllMessages, Unread, NextAfter;
    var frames := FramesSince(s.history, Max(x.next, s.base));
    if frames != [] {
      EndBeyond(s);
      NextAfterIs(frames, s.end, x.next);
    }
  }

  lemma HasMore(a: seq<Message>, b: seq<Message>, f: Frame)
    requires Has(a, f)
    ensures Has(a + b, f)
  {
  }

  lemma {:induction false} HasFrame(frames: seq<Frame>, walEnd: nat, f: Frame)
    requires f in frames
    ensures Has(AllMessages(frames, walEnd), f)
  {
    var head, rest := FrameMessages(frames[0], walEnd), AllMessages(frames[1..], walEnd);
    if f == frames[0] {
      forall line | line in f.lines
        ensures exists m: Message :: m in head + rest && m.lsn == f.lsn && m.line == line
      {
        var i :| 0 <= i < |f.lines| && f.lines[i] == line;
        assert head[i] == (head + rest)[i];
      }
    } else {
      HasFrame(frames[1..], walEnd, f);
      forall line | line in f.lines
        ensures exists m: Message :: m in head + rest && m.lsn == f.lsn && m.line == line
      {
        var m: Message :| m in rest && m.lsn == f.lsn && m.line == line;
        assert m in head + rest;
      }
    }
  }

  lemma HasNow(a: seq<Message>, b: seq<Message>, f: Frame)
    requires Has(b, f)
    ensures Has(a + b, f)
  {
  }

  /** What a round passes over, it sends. */
  lemma PollSends(s: State, id: nat, name: string, f: Frame)
    requires Inv(s) && Retained(s, name) && id in s.sessions && s.sessions[id].slot == name
    requires f in s.history && s.sessions[id].next <= f.lsn
    ensures Has(NewMessages(s, Poll(id), name), f)
  {
    hide SessionOk, Has, AllMessages;
    var x := s.sessions[id];
    HasFrame(FramesSince(s.history, Max(x.next, s.base)), s.end, f);
  }

  /** A position reached by an event other than a round was reached before. */
  lemma ReachedBefore(s: State, e: Event, name: string, lsn: nat)
    requires Inv(s) && Retained(s, name) && HonestStep(s, e, name) && !e.Poll?
    requires name in Step(s, e).slots && Reached(Step(s, e), name, lsn)
    ensures Reached(s, name, lsn)
  {
    hide SessionOk, ValidSlotName, SlotOk;
    var s' := Step(s, e);
    if lsn >= s'.slots[name].confirmedLsn {
      var id :| id in s'.sessions && s'.sessions[id].slot == name && lsn < s'.sessions[id].next;
      if id in s.sessions {
        assert s.sessions[id].slot == name && lsn < s.sessions[id].next;
      }
    } else if e.Feedback? && e.id in s.sessions && s.sessions[e.id].slot == name && lsn >= s.slots[name].confirmedLsn {
      assert lsn < s.sessions[e.id].next;
    }
  }

  /** A frame that is new was committed just now, beyond everything that was reached. */
  lemma NewFrameBeyond(s: State, e: Event, name: string, f: Frame)
    requires Inv(s) && Retained(s, name) && f in Step(s, e).history && f !in s.history
    ensures e.Commit? && f.lsn == s.end && name in Step(s, e).slots && !Reached(Step(s, e), name, f.lsn)
  {
    hide SessionOk, ValidSlotName, SlotOk, PollSession;
  }

  lemma PollReaches(s: State, id: nat, name: string, f: Frame)
    requires Inv(s) && Retained(s, name) && id in s.sessions && f in s.history
    requires name in Step(s, Poll(id)).slots && Reached(Step(s, Poll(id)), name, f.lsn) && !Reached(s, name, f.lsn)
    ensures s.sessions[id].slot == name && s.sessions[id].next <= f.lsn
  {
    hide SessionOk, PollSession, SlotOk;
    NextGrows(s, s.sessions[id]);
    var s' := Step(s, Poll(id));
    assert forall k | k in s.sessions && k != id :: s'.sessions[k] == s.sessions[k];
  }

  lemma CoveredStep(s: State, e: Event, name: string, from: nat, ms: seq<Message>)
    requires Inv(s) && Retained(s, name) && HonestStep(s, e, name) && Covered(s, name, from, ms)
    requires name in Step(s, e).slots
    ensures Covered(Step(s, e), name, from, ms + NewMessages(s, e, name))
  {
    hide Inv, Retained, HonestStep, Reached, Has, NewMessages, Step;
    var s' := Step(s, e);
    forall f | f in s'.history && from <= f.lsn && Reached(s', name, f.lsn)
      ensures Has(ms + NewMessages(s, e, name), f)
    {
      if f !in s.history {
        NewFrameBeyond(s, e, name, f);
      }
      SlotNamed(s, name);
      if Reached(s, name, f.lsn) {
        HasMore(ms, NewMessages(s, e, name), f);
      } else if e.Poll? && e.id in s.sessions {
        PollReaches(s, e.id, name, f);
        PollSends(s, e.id, name, f);
        HasNow(ms, NewMessages(s, e, name), f);
      } else if e.Poll? {
        IdlePoll(s, e);
      } else {
        ReachedBefore(s, e, name, f.lsn);
      }
    }
  }

  lemma SlotNamed(s: State, name: string)
    requires Retained(s, name)
    ensures name in s.slots
  {
  }

  lemma IdlePoll(s: State, e: Event)
    requires e.Poll? && e.id !in s.sessions
    ensures Step(s, e) == s
  {
  }

  // ----- whole runs -----

  lemma {:induction false} RetainedRun(s: State, events: seq<Event>, name: string)
    requires Inv(s) && Retained(s, name) && HonestRun(s, events, name)
    ensures Inv(Run(s, events)) && Retained(Run(s, events), name)
    decreases |events|
  {
    hide Inv, Retained, HonestStep, Step;
    if events != [] {
      StepKeepsInv(s, events[0]);
      RetainedStep(s, events[0], name);
      RetainedRun(Step(s, events[0]), events[1..], name);
    }
  }

  lemma {:induction false} CoveredRun(s: State, events: seq<Event>, name: string, from: nat, ms: seq<Message>)
    requires Inv(s) && Retained(s, name) && HonestRun(s, events, name)
    requires name in s.slots && Covered(s, name, from, ms)
    ensures name in Run(s, events).slots && Covered(Run(s, events), name, from, ms + SlotSent(s, events, name))
    decreases |events|
  {
    hide Inv, Retained, HonestStep, Step, Covered, NewMessages;
    if events == [] {
      assert ms + [] == ms;
    } else {
      var s', new_ := Step(s, events[0]), NewMessages(s, events[0], name);
      StepKeepsInv(s, events[0]);
      RetainedStep(s, events[0], name);
      SlotNamed(s', name);
      CoveredStep(s, events[0], name, from, ms);
      CoveredRun(s', events[1..], name, from, ms + new_);
      assert ms + new_ + SlotSent(s', events[1..], name) == ms + SlotSent(s, events, name);
    }
  }

  /** Delivery to a slot over successive sessions: from an idle slot on, whatever sessions come
      and go, every frame behind the slot that was not confirmed at the beginning has been sent
      whole to one of its clients. */
  lemma SlotReceivesAll(s: State, events: seq<Event>, name: string)
    requires Inv(s) && name in s.slots && !s.slots[name].active && Retained(s, name)
    requires HonestRun(s, events, name)
    ensures name in Run(s, events).slots
    ensures Covered(Run(s, events), name, s.slots[name].confirmedLsn, SlotSent(s, events, name))
  {
    hide Run, HonestRun, SlotSent, Has;
    assert Covered(s, name, s.slots[name].confirmedLsn, []) by {
      hide Retained, SessionOk, SlotOk;
      SessionSlots(s);
    }
    hide Covered, Retained, Inv;
    CoveredRun(s, events, name, s.slots[name].confirmedLsn, []);
    assert [] + SlotSent(s, events, name) == SlotSent(s, events, name);
  }

  /** After a round of the slot's session nothing is outstanding: every frame of the log that was
      not confirmed at the beginning has been sent to the clients of the slot. */
  lemma RoundCatchesUp(s: State, events: seq<Event>, name: string, id: nat)
    requires Inv(s) && name in s.slots && !s.slots[name].active && Retained(s, name)
    requires HonestRun(s, events, name)
    requires id in Run(s, events).sessions && Run(s, events).sessions[id].slot == name
    ensures forall f | f in Run(s, events).history && s.slots[name].confirmedLsn <= f.lsn ::
      Has(SlotSent(s, events + [Poll(id)], name), f)
  {
    hide Run, HonestRun, Has, HonestStep, Covered, Retained, Inv, Step, NewMessages;
    var s' := Run(s, events);
    RetainedRun(s, events, name);
    SlotReceivesAll(s, events, name);
    PollHonest(s', id, name);
    RetainedStep(s', Poll(id), name);
    SlotNamed(Step(s', Poll(id)), name);
    CoveredStep(s', Poll(id), name, s.slots[name].confirmedLsn, SlotSent(s, events, name));
    SentConcat(s, events, Poll(id), name);
    hide SlotSent;
    var from, ms := s.slots[name].confirmedLsn, SlotSent(s, events + [Poll(id)], name);
    forall f | f in s'.history && from <= f.lsn
      ensures Has(ms, f)
    {
      RoundReaches(s', id, name, f);
      CoveredMeans(Step(s', Poll(id)), name, from, ms, f);
    }
  }

  /** After a round the session stands behind every frame of the log. */
  lemma RoundReaches(s: State, id: nat, name: string, f: Frame)
    requires Inv(s) && Retained(s, name) && id in s.sessions && s.sessions[id].slot == name && f in s.history
    ensures var s' := Step(s, Poll(id)); f in s'.history && name in s'.slots && Reached(s', name, f.lsn)
  {
    hide SessionOk, AllMessages, Unread, NextAfter;
    var x, s' := s.sessions[id], Step(s, Poll(id));
    EndBeyond(s);
    var frames := FramesSince(s.history, Max(x.next, s.base));
    if x.next <= f.lsn {
      assert f in frames;
      NextAfterIs(frames, s.end, x.next);
    } else {
      NextGrows(s, x);
    }
    assert id in s'.sessions && s'.sessions[id].slot == name && f.lsn < s'.sessions[id].next;
  }

  lemma CoveredMeans(s: State, name: string, from: nat, ms: seq<Message>, f: Frame)
    requires name in s.slots && Covered(s, name, from, ms)
    requires f in s.history && from <= f.lsn && Reached(s, name, f.lsn)
    ensures Has(ms, f)
  {
  }

  lemma PollHonest(s: State, id: nat, name: string)
    ensures HonestStep(s, Poll(id), name)
  {
  }

  lemma {:induction false} SentConcat(s: State, events: seq<Event>, e: Event, name: string)
    ensures SlotSent(s, events + [e], name) == SlotSent(s, events, name) + NewMessages(Run(s, events), e, name)
    decreases |events|
  {
    hide Step, NewMessages;
    if events == [] {
      assert [] + [e] == [e] && [e][1..] == [];
      assert SlotSent(Step(s, e), [], name) == [];
    } else {
      assert (events + [e])[0] == events[0] && (events + [e])[1..] == events[1..] + [e];
      SentConcat(Step(s, events[0]), events[1..], e, name);
    }
  }

  /** A slot just created meets the premises, so its clients receive every frame committed since. */
  lemma NewSlotRetained(s: State, name: string, slotType: string, plugin: string)
    requires Inv(s) && CreateCheck(s, name, slotType, plugin).None?
    ensures var s' := CreateStep(s, name, slotType, plugin);
      && Inv(s') && Retained(s', name) && !s'.slots[name].active
      && forall f | f in s.history :: f.lsn < s'.slots[name].confirmedLsn == s.end
  {
    hide SessionOk, ValidSlotName;
    StepKeepsInv(s, Create(name, slotType, plugin));
    EndBeyond(s);
    SessionSlots(s);
  }
}

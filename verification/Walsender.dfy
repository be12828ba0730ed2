/** Replication slots and the walsender loop (src/repl.rs) as atomic steps over a growing
    log. Locks make each step atomic; any interleaving of steps is a run. */
module Walsender {
  import opened Wrappers

  // ----- state -----

  /** A committed log frame: where it starts, and the lines it decodes to. */
  datatype Frame = Frame(lsn: nat, lines: seq<string>)

  datatype Slot = Slot(plugin: string, slotType: string, restartLsn: nat, confirmedLsn: nat, active: bool)

  /** One line sent to the client. */
  datatype Message = Message(lsn: nat, walEnd: nat, line: string)

  /** A streaming session. `sent` are its messages; `frames` and `skipped` are bookkeeping of
      the model: the frames they came from, and unread frames lost to a checkpoint. */
  datatype Session = Session(slot: string, start: nat, next: nat, sent: seq<Message>,
                             frames: seq<Frame>, skipped: set<nat>)

  /** `history` is every frame ever committed; those before `base` have been truncated. */
  datatype State = State(history: seq<Frame>, base: nat, end: nat,
                         slots: map<string, Slot>, sessions: map<nat, Session>)

  datatype SlotError = InvalidName | InvalidType | UnknownPlugin | AlreadyExists
                     | DoesNotExist | IsActive | NotLogical

  const PLUGIN := "rustgres_decoding"

  predicate SlotNameChar(c: char) {
    'a' <= c <= 'z' || '0' <= c <= '9' || c == '_'
  }

  predicate ValidSlotName(name: string) {
    name != "" && |name| <= 63 && forall i :: 0 <= i < |name| ==> SlotNameChar(name[i])
  }

  // ----- steps -----

  /** The frames at or after an LSN, in log order. */
  function FramesSince(history: seq<Frame>, lsn: nat): (r: seq<Frame>)
    ensures forall f | f in r :: f in history && lsn <= f.lsn
    ensures forall f | f in history && lsn <= f.lsn :: f in r
  {
    if history == [] then []
    else (if lsn <= history[0].lsn then [history[0]] else []) + FramesSince(history[1..], lsn)
  }

  function Max(a: nat, b: nat): nat {
    if a < b then b else a
  }

  function FrameMessages(f: Frame, walEnd: nat): (ms: seq<Message>)
    ensures |ms| == |f.lines|
    ensures forall i | 0 <= i < |ms| :: ms[i] == Message(f.lsn, walEnd, f.lines[i])
  {
    seq(|f.lines|, i requires 0 <= i < |f.lines| => Message(f.lsn, walEnd, f.lines[i]))
  }

  function AllMessages(frames: seq<Frame>, walEnd: nat): seq<Message> {
    if frames == [] then [] else FrameMessages(frames[0], walEnd) + AllMessages(frames[1..], walEnd)
  }

  /** Where the session stands after sending frames: past the last one. */
  function NextAfter(frames: seq<Frame>, walEnd: nat, next: nat): nat {
    if frames == [] then next
    else NextAfter(frames[1..], walEnd, Max(if |frames| > 1 then frames[1].lsn else walEnd, next))
  }

  function CommitStep(s: State, lines: seq<string>, size: nat): State {
    s.(history := s.history + [Frame(s.end, lines)], end := s.end + size)
  }

  /** Truncate the log: the image replaces every frame so far. */
  function CheckpointStep(s: State): State {
    s.(base := s.end)
  }

  function CreateCheck(s: State, name: string, slotType: string, plugin: string): Option<SlotError> {
    if !ValidSlotName(name) then Some(InvalidName)
    else if slotType != "logical" && slotType != "physical" then Some(InvalidType)
    else if slotType == "logical" && plugin != PLUGIN then Some(UnknownPlugin)
    else if name in s.slots then Some(AlreadyExists)
    else None
  }

  function CreateStep(s: State, name: string, slotType: string, plugin: string): State {
    if CreateCheck(s, name, slotType, plugin).Some? then s
    else
      var p := if slotType == "logical" then plugin else "";
      s.(slots := s.slots[name := Slot(p, slotType, s.end, s.end, false)])
  }

  function DropCheck(s: State, name: string): Option<SlotError> {
    if name !in s.slots then Some(DoesNotExist)
    else if s.slots[name].active then Some(IsActive)
    else None
  }

  function DropStep(s: State, name: string): State {
    if DropCheck(s, name).Some? then s else s.(slots := s.slots - {name})
  }

  function StartCheck(s: State, name: string): Option<SlotError> {
    if name !in s.slots then Some(DoesNotExist)
    else if s.slots[name].active then Some(IsActive)
    else if s.slots[name].slotType != "logical" then Some(NotLogical)
    else None
  }

  function StartStep(s: State, id: nat, name: string, startLsn: nat): State {
    if StartCheck(s, name).Some? || id in s.sessions then s
    else
      var from := Max(startLsn, s.slots[name].confirmedLsn);
      s.(slots := s.slots[name := s.slots[name].(active := true)],
         sessions := s.sessions[id := Session(name, from, from, [], [], {})])
  }

  /** Read the log and send what is new; the log is read from the truncation point on. */
  function PollSession(s: State, x: Session): Session {
    var frames := FramesSince(s.history, Max(x.next, s.base));
    if frames == [] then x
    else x.(next := NextAfter(frames, s.end, x.next),
            sent := x.sent + AllMessages(frames, s.end),
            frames := x.frames + frames,
            skipped := x.skipped + Unread(s.history, x.next, s.base))
  }

  function PollStep(s: State, id: nat): State {
    if id !in s.sessions then s
    else s.(sessions := s.sessions[id := PollSession(s, s.sessions[id])])
  }

  /** The restart floor follows what was sent. */
  function MarkStep(s: State, id: nat): State {
    if id !in s.sessions || s.sessions[id].slot !in s.slots then s
    else
      var x := s.sessions[id];
      var slot := s.slots[x.slot];
      s.(slots := s.slots[x.slot := slot.(restartLsn := Max(slot.restartLsn, x.next))])
  }

  /** Standby status: the client has flushed up to an LSN. */
  function FeedbackStep(s: State, id: nat, flushed: int): State {
    if id !in s.sessions || s.sessions[id].slot !in s.slots then s
    else
      var x := s.sessions[id];
      var slot := s.slots[x.slot];
      var f := if flushed < 0 then 0 else flushed;
      if f <= slot.confirmedLsn then s
      else s.(slots := s.slots[x.slot := slot.(confirmedLsn := f, restartLsn := Max(slot.restartLsn, f))])
  }

  /** The stream ended, for whatever reason: the slot is released. */
  function EndStep(s: State, id: nat): State {
    if id !in s.sessions || s.sessions[id].slot !in s.slots then s
    else
      var x := s.sessions[id];
      s.(slots := s.slots[x.slot := s.slots[x.slot].(active := false)], sessions := s.sessions - {id})
  }

  // ----- invariant -----

  ghost predicate LogOk(s: State) {
    && s.base <= s.end
    && (forall i | 0 <= i < |s.history| :: s.history[i].lsn < s.end)
    && forall i, j | 0 <= i < j < |s.history| :: s.history[i].lsn < s.history[j].lsn
  }

  /** The frames with start <= lsn < next, in log order, but for some. */
  function Window(history: seq<Frame>, start: nat, next: nat, but: set<nat>): seq<Frame> {
    if history == [] then [] else Inside(history[0], start, next, but) + Window(history[1..], start, next, but)
  }

  function Inside(f: Frame, start: nat, next: nat, but: set<nat>): seq<Frame> {
    if start <= f.lsn < next && f.lsn !in but then [f] else []
  }

  /** Without the log position they were sent at, messages are the lines of the frames. */
  function Lines(frames: seq<Frame>): seq<(nat, string)> {
    if frames == [] then []
    else seq(|frames[0].lines|, i requires 0 <= i < |frames[0].lines| => (frames[0].lsn, frames[0].lines[i]))
         + Lines(frames[1..])
  }

  function Unstamped(ms: seq<Message>): seq<(nat, string)> {
    seq(|ms|, i requires 0 <= i < |ms| => (ms[i].lsn, ms[i].line))
  }

  ghost predicate SessionOk(s: State, x: Session) {
    && x.slot in s.slots && s.slots[x.slot].active && s.slots[x.slot].slotType == "logical"
    && x.start <= x.next && (x.next == x.start || x.next <= s.end)
    && x.frames == Window(s.history, x.start, x.next, x.skipped)
    && Unstamped(x.sent) == Lines(x.frames)
    && (forall lsn | lsn in x.skipped :: x.start <= lsn < x.next && exists f | f in s.history :: f.lsn == lsn)
  }

  ghost predicate SlotOk(slot: Slot) {
    slot.confirmedLsn <= slot.restartLsn
  }

  ghost predicate Inv(s: State) {
    && LogOk(s)
    && (forall name | name in s.slots :: SlotOk(s.slots[name]))
    && (forall id | id in s.sessions :: SessionOk(s, s.sessions[id]))
    && (forall i, j | i in s.sessions && j in s.sessions && i != j :: s.sessions[i].slot != s.sessions[j].slot)
    && (forall name | name in s.slots && s.slots[name].active ::
          exists id :: id in s.sessions && s.sessions[id].slot == name)
  }

  datatype Event =
    | Commit(lines: seq<string>, size: nat)
    | Checkpoint
    | Create(name: string, slotType: string, plugin: string)
    | Drop(name: string)
    | Start(id: nat, name: string, lsn: nat)
    | Poll(id: nat)
    | Mark(id: nat)
    | Feedback(id: nat, flushed: int)
    | End(id: nat)

  function Step(s: State, e: Event): State {
    match e
    case Commit(lines, size) => if size == 0 then s else CommitStep(s, lines, size)
    case Checkpoint => CheckpointStep(s)
    case Create(name, slotType, plugin) => CreateStep(s, name, slotType, plugin)
    case Drop(name) => DropStep(s, name)
    case Start(id, name, lsn) => StartStep(s, id, name, lsn)
    case Poll(id) => PollStep(s, id)
    case Mark(id) => MarkStep(s, id)
    case Feedback(id, flushed) => FeedbackStep(s, id, flushed)
    case End(id) => EndStep(s, id)
  }

  function Run(s: State, events: seq<Event>): State
    decreases |events|
  {
    if events == [] then s else Run(Step(s, events[0]), events[1..])
  }

  lemma RunNil(s: State)
    ensures Run(s, []) == s
  {
  }

  lemma RunUnfold(s: State, events: seq<Event>, i: nat)
    requires i < |events|
    ensures Run(s, events[i..]) == Run(Step(s, events[i]), events[i + 1..])
  {
    assert events[i..][0] == events[i] && events[i..][1..] == events[i + 1..];
  }

  lemma {:induction false} RunConcat(s: State, a: seq<Event>, b: seq<Event>)
    ensures Run(s, a + b) == Run(Run(s, a), b)
    decreases |a|
  {
    if a == [] {
      assert a + b == b;
    } else {
      assert (a + b)[0] == a[0] && (a + b)[1..] == a[1..] + b;
      RunConcat(Step(s, a[0]), a[1..], b);
    }
  }

  const EMPTY := State([], 0, 0, map[], map[])

  // ----- facts about the log -----

  lemma {:induction false} FramesSinceAppend(a: seq<Frame>, b: seq<Frame>, lsn: nat)
    ensures FramesSince(a + b, lsn) == FramesSince(a, lsn) + FramesSince(b, lsn)
  {
    if a == [] {
      assert a + b == b;
    } else {
      assert (a + b)[1..] == a[1..] + b;
      FramesSinceAppend(a[1..], b, lsn);
    }
  }

  ghost predicate Increasing(history: seq<Frame>) {
    forall i, j | 0 <= i < j < |history| :: history[i].lsn < history[j].lsn
  }

  /** The reads from max(next, base) extend the window to the end of the log. */
  lemma {:induction false} WindowGrows(history: seq<Frame>, start: nat, next: nat, base: nat, end: nat,
                                      old_: set<nat>, skipped: set<nat>)
    requires Increasing(history) && start <= next <= end
    requires forall f | f in history :: f.lsn < end
    requires forall lsn | lsn in old_ :: lsn < next
    requires forall f | f in history :: f.lsn in skipped <==> f.lsn in old_ || next <= f.lsn < base
    ensures Window(history, start, end, skipped)
         == Window(history, start, next, old_) + FramesSince(history, Max(next, base))
  {
    if history != [] {
      var rest, f := history[1..], history[0];
      assert f in history && forall x | x in rest :: x in history;
      RestIncreasing(history);
      WindowGrows(rest, start, next, base, end, old_, skipped);
      assert f.lsn < end && (f.lsn in skipped <==> f.lsn in old_ || next <= f.lsn < base);
      hide Inside, Increasing;
      var p, q := Inside(f, start, next, old_), if Max(next, base) <= f.lsn then [f] else [];
      InsideGrows(f, start, next, base, end, old_, skipped);
      if q != [] {
        WindowEmpty(rest, start, next, old_);
      }
      Rearrange(p, q, Window(rest, start, next, old_), FramesSince(rest, Max(next, base)));
    }
  }

  lemma InsideGrows(f: Frame, start: nat, next: nat, base: nat, end: nat, old_: set<nat>, skipped: set<nat>)
    requires start <= next <= end && f.lsn < end && (f.lsn in old_ ==> f.lsn < next)
    requires f.lsn in skipped <==> f.lsn in old_ || next <= f.lsn < base
    ensures var q := if Max(next, base) <= f.lsn then [f] else [];
      Inside(f, start, end, skipped) == Inside(f, start, next, old_) + q
  {
  }

  lemma Rearrange(p: seq<Frame>, q: seq<Frame>, a: seq<Frame>, b: seq<Frame>)
    requires q == [] || a == []
    ensures (p + q) + (a + b) == (p + a) + (q + b)
  {
  }

  lemma RestIncreasing(history: seq<Frame>)
    requires history != [] && Increasing(history)
    ensures Increasing(history[1..]) && forall f | f in history[1..] :: history[0].lsn < f.lsn
  {
  }

  lemma {:induction false} WindowEmpty(history: seq<Frame>, start: nat, next: nat, but: set<nat>)
    requires forall f | f in history :: next <= f.lsn
    ensures Window(history, start, next, but) == []
  {
    if history != [] {
      assert history[0] in history && forall f | f in history[1..] :: f in history;
      WindowEmpty(history[1..], start, next, but);
    }
  }

  /** A frame committed at or after `next`, or any frame when nothing was read, is outside. */
  lemma {:induction false} WindowCommit(history: seq<Frame>, f: Frame, start: nat, next: nat, but: set<nat>)
    requires next <= f.lsn || next <= start
    ensures Window(history + [f], start, next, but) == Window(history, start, next, but)
  {
    if history == [] {
      assert history + [f] == [f];
    } else {
      assert (history + [f])[1..] == history[1..] + [f];
      WindowCommit(history[1..], f, start, next, but);
    }
  }

  lemma {:induction false} NextAfterIs(frames: seq<Frame>, walEnd: nat, next: nat)
    requires frames != [] && forall f | f in frames :: f.lsn <= walEnd
    ensures NextAfter(frames, walEnd, next) == Max(walEnd, next)
  {
    if |frames| > 1 {
      NextAfterIs(frames[1..], walEnd, Max(frames[1].lsn, next));
    }
  }

  lemma {:induction false} LinesConcat(a: seq<Frame>, b: seq<Frame>)
    ensures Lines(a + b) == Lines(a) + Lines(b)
  {
    if a == [] {
      assert a + b == b;
    } else {
      assert (a + b)[1..] == a[1..] + b;
      LinesConcat(a[1..], b);
    }
  }

  lemma {:induction false} MessagesAreLines(frames: seq<Frame>, walEnd: nat)
    ensures Unstamped(AllMessages(frames, walEnd)) == Lines(frames)
  {
    if frames != [] {
      MessagesAreLines(frames[1..], walEnd);
      var a, b := FrameMessages(frames[0], walEnd), AllMessages(frames[1..], walEnd);
      assert Unstamped(a + b) == Unstamped(a) + Unstamped(b);
    }
  }

  // ----- every step keeps the invariant -----

  /** Unread frames that the truncation point has passed. */
  function Unread(history: seq<Frame>, next: nat, base: nat): set<nat> {
    set f | f in history && next <= f.lsn < base :: f.lsn
  }

  lemma UnreadIs(history: seq<Frame>, next: nat, base: nat)
    ensures forall f | f in history :: f.lsn in Unread(history, next, base) <==> next <= f.lsn < base
    ensures forall lsn | lsn in Unread(history, next, base) :: next <= lsn < base && exists f | f in history :: f.lsn == lsn
  {
  }

  lemma PollKeepsSession(s: State, x: Session)
    requires LogOk(s) && SessionOk(s, x)
    ensures SessionOk(s, PollSession(s, x))
  {
    var frames := FramesSince(s.history, Max(x.next, s.base));
    if frames != [] {
      hide Window, FramesSince, Lines, Unread, AllMessages, NextAfter, Unstamped;
      assert frames[0] in frames && frames[0].lsn < s.end;
      NextAfterIs(frames, s.end, x.next);
      UnreadIs(s.history, x.next, s.base);
      var skipped := x.skipped + Unread(s.history, x.next, s.base);
      WindowGrows(s.history, x.start, x.next, s.base, s.end, x.skipped, skipped);
      MessagesAreLines(frames, s.end);
      LinesConcat(x.frames, frames);
      UnstampedConcat(x.sent, AllMessages(frames, s.end));
    }
  }

  lemma UnstampedConcat(a: seq<Message>, b: seq<Message>)
    ensures Unstamped(a + b) == Unstamped(a) + Unstamped(b)
  {
  }

  lemma CommitKeepsInv(s: State, lines: seq<string>, size: nat)
    requires Inv(s) && size > 0
    ensures Inv(CommitStep(s, lines, size))
  {
    var s' := CommitStep(s, lines, size);
    forall id | id in s.sessions
      ensures SessionOk(s', s.sessions[id])
    {
      var x := s.sessions[id];
      assert SessionOk(s, x);
      WindowCommit(s.history, Frame(s.end, lines), x.start, x.next, x.skipped);
      forall lsn | lsn in x.skipped
        ensures exists f | f in s'.history :: f.lsn == lsn
      {
        var f :| f in s.history && f.lsn == lsn;
        assert f in s'.history;
      }
    }
  }

  lemma PollKeepsInv(s: State, id: nat)
    requires Inv(s)
    ensures Inv(PollStep(s, id))
  {
    hide SessionOk, LogOk, PollSession;
    if id in s.sessions {
      var s' := PollStep(s, id);
      var x, y := s.sessions[id], PollSession(s, s.sessions[id]);
      PollKeepsSession(s, x);
      PollKeepsSlot(s, x);
      SessionSlots(s);
      BaseBelowEnd(s);
      LogSame(s, s');
      forall k | k in s'.sessions
        ensures SessionOk(s', s'.sessions[k])
      {
        SameLog(s, s', s'.sessions[k]);
      }
      forall name | name in s'.slots && s'.slots[name].active
        ensures exists k :: k in s'.sessions && s'.sessions[k].slot == name
      {
        var k :| k in s.sessions && s.sessions[k].slot == name;
        assert k in s'.sessions && s'.sessions[k].slot == name;
      }
    }
  }

  lemma PollKeepsSlot(s: State, x: Session)
    ensures PollSession(s, x).slot == x.slot && PollSession(s, x).start == x.start
  {
  }

  /** What a session needs of the state: the log, and its slot active. */
  lemma SameLog(s: State, s': State, x: Session)
    requires SessionOk(s, x) && s'.history == s.history && s'.end == s.end
    requires x.slot in s'.slots && s'.slots[x.slot].active && s'.slots[x.slot].slotType == "logical"
    ensures SessionOk(s', x)
  {
  }

  lemma LogSame(s: State, s': State)
    requires LogOk(s) && s'.history == s.history && s'.end == s.end && s.base <= s'.base <= s.end
    ensures LogOk(s')
  {
  }

  /** Steps that only change slots or sessions. */
  lemma SlotStepsKeepInv(s: State, e: Event)
    requires Inv(s) && !e.Commit? && !e.Poll?
    ensures Inv(Step(s, e))
  {
    hide SessionOk, LogOk, ValidSlotName;
    BaseBelowEnd(s);
    LogSame(s, Step(s, e));
    SessionsStayOk(s, e);
    ActiveHasSession(s, e);
    SlotsStayOk(s, e);
    SessionsApart(s, e);
  }

  lemma SlotsStayOk(s: State, e: Event)
    requires Inv(s) && !e.Commit? && !e.Poll?
    ensures var s' := Step(s, e); forall name | name in s'.slots :: SlotOk(s'.slots[name])
  {
    hide SessionOk, LogOk, ValidSlotName;
    SessionSlots(s);
  }

  lemma SessionsApart(s: State, e: Event)
    requires Inv(s) && !e.Commit? && !e.Poll?
    ensures var s' := Step(s, e);
      forall i, j | i in s'.sessions && j in s'.sessions && i != j :: s'.sessions[i].slot != s'.sessions[j].slot
  {
    hide SessionOk, LogOk, ValidSlotName, SlotOk;
    SessionSlots(s);
  }

  lemma SessionsStayOk(s: State, e: Event)
    requires Inv(s) && !e.Commit? && !e.Poll?
    ensures var s' := Step(s, e); forall k | k in s'.sessions :: SessionOk(s', s'.sessions[k])
  {
    hide SessionOk, LogOk, ValidSlotName, SlotOk;
    var s' := Step(s, e);
    SessionSlots(s);
    forall k | k in s'.sessions
      ensures SessionOk(s', s'.sessions[k])
    {
      if k in s.sessions && s'.sessions[k] == s.sessions[k] {
        SameLog(s, s', s.sessions[k]);
      } else {
        FreshSession(s', s'.sessions[k]);
      }
    }
  }

  lemma ActiveHasSession(s: State, e: Event)
    requires Inv(s) && !e.Commit? && !e.Poll?
    ensures var s' := Step(s, e);
      forall name | name in s'.slots && s'.slots[name].active ::
        exists k :: k in s'.sessions && s'.sessions[k].slot == name
  {
    hide SessionOk, LogOk, ValidSlotName;
    var s' := Step(s, e);
    forall name | name in s'.slots && s'.slots[name].active
      ensures exists k :: k in s'.sessions && s'.sessions[k].slot == name
    {
      if name in s.slots && s.slots[name].active {
        var k :| k in s.sessions && s.sessions[k].slot == name;
        assert k in s'.sessions && s'.sessions[k].slot == name;
      } else {
        assert e.id in s'.sessions && s'.sessions[e.id].slot == name;
      }
    }
  }

  lemma BaseBelowEnd(s: State)
    requires LogOk(s)
    ensures s.base <= s.end
  {
  }

  lemma SessionSlots(s: State)
    requires Inv(s)
    ensures forall id | id in s.sessions ::
      var x := s.sessions[id];
      x.slot in s.slots && s.slots[x.slot].active && s.slots[x.slot].slotType == "logical"
  {
  }

  lemma FreshSession(s: State, x: Session)
    requires x.start == x.next && x.frames == [] && x.sent == [] && x.skipped == {}
    requires x.slot in s.slots && s.slots[x.slot].active && s.slots[x.slot].slotType == "logical"
    ensures SessionOk(s, x)
  {
    EmptyWindow(s.history, x.start);
  }

  lemma {:induction false} EmptyWindow(history: seq<Frame>, start: nat)
    ensures Window(history, start, start, {}) == []
  {
    if history != [] { EmptyWindow(history[1..], start); }
  }

  lemma StepKeepsInv(s: State, e: Event)
    requires Inv(s)
    ensures Inv(Step(s, e))
  {
    hide Inv;
    match e
    case Commit(lines, size) => if size > 0 { CommitKeepsInv(s, lines, size); }
    case Poll(id) => PollKeepsInv(s, id);
    case _ => SlotStepsKeepInv(s, e);
  }

  /** Safety over whole runs: whatever the interleaving, the invariant holds at the end. */
  lemma {:induction false} RunKeepsInv(s: State, events: seq<Event>)
    requires Inv(s)
    ensures Inv(Run(s, events))
    decreases |events|
  {
    hide Inv, Step;
    if events != [] {
      StepKeepsInv(s, events[0]);
      RunKeepsInv(Step(s, events[0]), events[1..]);
    }
  }

  // ----- what the invariant means -----

  lemma {:induction false} WindowMembers(history: seq<Frame>, start: nat, next: nat, but: set<nat>)
    ensures forall f | f in Window(history, start, next, but) :: start <= f.lsn < next && f.lsn !in but
  {
    if history != [] { WindowMembers(history[1..], start, next, but); }
  }

  /** Positions never move back while a slot lives, and a slot that vanishes was idle. */
  lemma SlotsOnlyAdvance(s: State, e: Event, name: string)
    requires Inv(s) && name in s.slots
    ensures var s' := Step(s, e); var a := s.slots[name];
      if name in s'.slots then
        var b := s'.slots[name];
        a.confirmedLsn <= b.confirmedLsn && a.restartLsn <= b.restartLsn && b.confirmedLsn <= b.restartLsn
      else e == Drop(name) && !a.active
  {
    hide SessionOk, LogOk;
    StepKeepsInv(s, e);
  }

  /** Over a run that keeps the slot, its positions never move back. */
  lemma {:induction false} SlotsAdvanceOverRuns(s: State, events: seq<Event>, name: string)
    requires Inv(s) && name in s.slots
    requires forall i | 0 <= i < |events| :: events[i] != Drop(name)
    ensures var s' := Run(s, events);
      && name in s'.slots
      && s.slots[name].confirmedLsn <= s'.slots[name].confirmedLsn
      && s.slots[name].restartLsn <= s'.slots[name].restartLsn
    decreases |events|
  {
    hide Inv, Step;
    if events != [] {
      SlotsOnlyAdvance(s, events[0], name);
      StepKeepsInv(s, events[0]);
      SlotsAdvanceOverRuns(Step(s, events[0]), events[1..], name);
    }
  }

  /** A slot has at most one session, a slot with a session is never dropped, and a second
      start on it is refused. */
  lemma OneSessionPerSlot(events: seq<Event>, id: nat, other: nat, lsn: nat)
    requires id in Run(EMPTY, events).sessions
    ensures var s := Run(EMPTY, events); var name := s.sessions[id].slot;
      && name in s.slots && DropStep(s, name) == s
      && StartCheck(s, name) == Some(IsActive) && StartStep(s, other, name, lsn) == s
      && (other in s.sessions && s.sessions[other].slot == name ==> other == id)
  {
    hide Run, Window;
    RunKeepsInv(EMPTY, events);
    SessionSlots(Run(EMPTY, events));
  }

  /** A new session resumes where its slot was confirmed, or later. */
  lemma ResumesConfirmed(s: State, id: nat, name: string, lsn: nat)
    requires id !in s.sessions && id in StartStep(s, id, name, lsn).sessions
    ensures var x := StartStep(s, id, name, lsn).sessions[id];
      name in s.slots && x.start == x.next && x.next >= s.slots[name].confirmedLsn && x.next >= lsn
  {
  }
}

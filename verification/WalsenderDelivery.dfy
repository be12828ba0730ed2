/** What a walsender session delivers over whole runs, and which checkpoints lose changes. */
module WalsenderDelivery {
  import opened Walsender

  /** The session has sent the lines of exactly the frames with start <= lsn < next, in order
      and once each. */
  ghost predicate Delivered(s: State, x: Session) {
    Unstamped(x.sent) == Lines(Window(s.history, x.start, x.next, {}))
  }

  /** Polling the session now finds something to send, and passes over a frame with changes
      that it has not read and that a checkpoint has truncated. */
  ghost predicate LosesAt(s: State, x: Session) {
    && (exists g :: g in s.history && Max(x.next, s.base) <= g.lsn)
    && (exists f :: f in s.history && x.next <= f.lsn < s.base && f.lines != [])
  }

  // ----- one round -----

  /** Only frames without changes were skipped. */
  ghost predicate Intact(s: State, x: Session) {
    forall f | f in s.history && f.lsn in x.skipped :: f.lines == []
  }

  function FrameLines(f: Frame): seq<(nat, string)> {
    seq(|f.lines|, i requires 0 <= i < |f.lines| => (f.lsn, f.lines[i]))
  }

  lemma LinesUnfold(f: Frame, frames: seq<Frame>)
    ensures Lines([f] + frames) == FrameLines(f) + Lines(frames)
  {
    assert ([f] + frames)[1..] == frames;
    assert FrameLines(f) == seq(|f.lines|, i requires 0 <= i < |f.lines| => (f.lsn, f.lines[i]));
  }

  /** Leaving frames out of a window changes its lines only if one of them has lines. */
  lemma {:induction false} LinesLost(history: seq<Frame>, start: nat, next: nat, but: set<nat>)
    ensures var a, b := Lines(Window(history, start, next, but)), Lines(Window(history, start, next, {}));
      && |a| <= |b|
      && (a == b <==> forall f | f in history && start <= f.lsn < next && f.lsn in but :: f.lines == [])
  {
    if history != [] {
      var f, rest := history[0], history[1..];
      LinesLost(rest, start, next, but);
      MembersUnfold(history);
      var a, b := Window(rest, start, next, but), Window(rest, start, next, {});
      WindowLines(history, start, next, but);
      WindowLines(history, start, next, {});
      hide Lines, FrameLines, Window;
      LinesLostHead(f, Lines(a), Lines(b));
    }
  }

  lemma MembersUnfold(history: seq<Frame>)
    requires history != []
    ensures forall g :: g in history <==> g == history[0] || g in history[1..]
  {
  }

  lemma WindowLines(history: seq<Frame>, start: nat, next: nat, but: set<nat>)
    requires history != []
    ensures var f, rest := history[0], Lines(Window(history[1..], start, next, but));
      Lines(Window(history, start, next, but))
      == if start <= f.lsn < next && f.lsn !in but then FrameLines(f) + rest else rest
  {
    var a := Window(history[1..], start, next, but);
    LinesUnfold(history[0], a);
    assert [] + a == a;
  }

  lemma LinesLostHead(f: Frame, a: seq<(nat, string)>, b: seq<(nat, string)>)
    requires |a| <= |b|
    ensures var p := FrameLines(f);
      && (p + a == p + b <==> a == b)
      && (a == p + b <==> f.lines == [] && a == b)
      && |FrameLines(f)| == |f.lines|
  {
    var p := FrameLines(f);
    if p + a == p + b {
      assert a == (p + a)[|p|..] == (p + b)[|p|..] == b;
    }
    if f.lines == [] {
      assert p + b == b;
    }
  }

  lemma IntactIs(s: State, x: Session)
    requires SessionOk(s, x)
    ensures Delivered(s, x) <==> Intact(s, x)
  {
    hide Window, Lines, Unstamped;
    LinesLost(s.history, x.start, x.next, x.skipped);
  }

  lemma PollIntact(s: State, x: Session)
    requires SessionOk(s, x)
    ensures Intact(s, PollSession(s, x)) <==> Intact(s, x) && !LosesAt(s, x)
  {
    hide Window, Lines, Unstamped, AllMessages, NextAfter, Unread;
    UnreadIs(s.history, x.next, s.base);
    var frames := FramesSince(s.history, Max(x.next, s.base));
    if frames != [] {
      assert frames[0] in frames;
    }
  }

  /** A round of a session breaks its delivery exactly when it meets the guard. */
  lemma PollDelivers(s: State, id: nat)
    requires Inv(s) && id in s.sessions
    ensures var s' := Step(s, Poll(id));
      id in s'.sessions && (Delivered(s', s'.sessions[id]) <==> Delivered(s, s.sessions[id]) && !LosesAt(s, s.sessions[id]))
  {
    hide Window, Lines, Unstamped, PollSession, LosesAt, Delivered;
    StepKeepsInv(s, Poll(id));
    var x, s' := s.sessions[id], Step(s, Poll(id));
    assert SessionOk(s', s'.sessions[id]);
    IntactIs(s, x);
    PollIntact(s, x);
    SameHistory(s, s', s'.sessions[id]);
    IntactIs(s', s'.sessions[id]);
  }

  lemma SameHistory(s: State, s': State, x: Session)
    requires s'.history == s.history
    ensures (Intact(s', x) <==> Intact(s, x)) && (Delivered(s', x) <==> Delivered(s, x))
  {
  }

  /** No other event changes what a session has delivered. */
  lemma OthersKeepDelivery(s: State, e: Event, id: nat)
    requires Inv(s) && id in s.sessions && e != Poll(id) && id in Step(s, e).sessions
    ensures Step(s, e).sessions[id] == s.sessions[id]
    ensures Delivered(Step(s, e), s.sessions[id]) <==> Delivered(s, s.sessions[id])
  {
    hide Window, Lines, Unstamped, PollSession, Delivered, FramesSince, AllMessages;
    var s', x := Step(s, e), s.sessions[id];
    if e.Commit? && e.size > 0 {
      StepKeepsInv(s, e);
      assert SessionOk(s, x) && SessionOk(s', x);
      IntactIs(s, x);
      IntactIs(s', x);
      CommitIntact(s, x, e.lines, e.size);
    } else {
      SameHistory(s, s', x);
    }
  }

  lemma CommitIntact(s: State, x: Session, lines: seq<string>, size: nat)
    requires LogOk(s) && SessionOk(s, x)
    ensures Intact(CommitStep(s, lines, size), x) <==> Intact(s, x)
  {
    hide Window, Lines, Unstamped;
    var f' := Frame(s.end, lines);
    assert f'.lsn !in x.skipped;
    assert forall f :: f in s.history + [f'] <==> f in s.history || f == f';
  }

  // ----- whole runs -----

  /** The state after the first i events. */
  function At(events: seq<Event>, i: nat): State
    requires i <= |events|
  {
    Run(EMPTY, events[..i])
  }

  /** The session that is live at the end has been live since event i. */
  ghost predicate LiveSince(events: seq<Event>, id: nat, i: nat) {
    forall j | i <= j <= |events| :: id in At(events, j).sessions
  }

  /** Event i is a round of the session live at the end, and meets the guard. */
  ghost predicate LossyPoll(events: seq<Event>, id: nat, i: nat) {
    && i < |events| && events[i] == Poll(id) && LiveSince(events, id, i)
    && id in At(events, i).sessions && LosesAt(At(events, i), At(events, i).sessions[id])
  }

  lemma RunOne(s: State, e: Event)
    ensures Run(s, [e]) == Step(s, e)
  {
    assert [e][1..] == [];
  }

  lemma AtEnd(events: seq<Event>)
    ensures At(events, |events|) == Run(EMPTY, events)
  {
    assert events[..|events|] == events;
  }

  lemma EmptyInv()
    ensures Inv(EMPTY)
  {
  }

  lemma AtInv(events: seq<Event>, i: nat)
    requires i <= |events|
    ensures Inv(At(events, i))
  {
    hide Inv, Run;
    EmptyInv();
    RunKeepsInv(EMPTY, events[..i]);
  }

  /** Delivery over every interleaving: the session has sent the lines of exactly the frames with
      start <= lsn < next, in order and once each, if and only if no round of it met the guard. */
  lemma {:induction false} DeliveryExactly(events: seq<Event>, id: nat)
    requires id in Run(EMPTY, events).sessions
    ensures Delivered(Run(EMPTY, events), Run(EMPTY, events).sessions[id])
       <==> !exists i :: LossyPoll(events, id, i)
    decreases |events|
  {
    hide At, Run, Delivered, LossyPoll, Step, Inv;
    AtEnd(events);
    if events == [] {
      NoSessionAtStart();
    } else {
      var before, e := events[..|events| - 1], events[|events| - 1];
      assert events == before + [e];
      AtEnd(before);
      AtLast(before, e);
      var s := Run(EMPTY, before);
      AtInv(before, |before|);
      if id in s.sessions {
        DeliveryExactly(before, id);
        LossyExtends(before, e, events, id);
        if e == Poll(id) {
          PollDelivers(s, id);
        } else {
          OthersKeepDelivery(s, e, id);
        }
      } else {
        StartDelivers(s, e, id);
        NotLossyBefore(before, e, events, id);
      }
    }
  }

  lemma NoSessionAtStart()
    ensures Run(EMPTY, []).sessions == map[]
  {
  }

  lemma AtLast(before: seq<Event>, e: Event)
    ensures Run(EMPTY, before + [e]) == Step(Run(EMPTY, before), e)
  {
    hide Run, Step;
    RunConcat(EMPTY, before, [e]);
    RunOne(Run(EMPTY, before), e);
  }

  lemma AtBefore(before: seq<Event>, e: Event, events: seq<Event>)
    requires events == before + [e]
    ensures forall i | 0 <= i <= |before| :: At(events, i) == At(before, i)
  {
    forall i | 0 <= i <= |before|
      ensures At(events, i) == At(before, i)
    {
      assert events[..i] == before[..i];
    }
  }

  /** The lossy rounds are those before the last event, and perhaps the last. */
  lemma LossyExtends(before: seq<Event>, e: Event, events: seq<Event>, id: nat)
    requires events == before + [e] && id in At(events, |events|).sessions && id in At(before, |before|).sessions
    ensures (exists i :: LossyPoll(events, id, i))
       <==> ((exists i :: LossyPoll(before, id, i))
             || (e == Poll(id) && LosesAt(At(before, |before|), At(before, |before|).sessions[id])))
  {
    hide At, LosesAt;
    AtBefore(before, e, events);
    forall i: nat | i < |before|
      ensures LossyPoll(events, id, i) <==> LossyPoll(before, id, i)
    {
      LiveExtends(before, e, events, id, i);
    }
    LastLossy(before, e, events, id);
    hide LossyPoll;
    NotLossyAfter(before, id);
    NotLossyAfter(events, id);
  }

  lemma NotLossyAfter(events: seq<Event>, id: nat)
    ensures forall i: nat | LossyPoll(events, id, i) :: i < |events|
  {
  }

  lemma LastLossy(before: seq<Event>, e: Event, events: seq<Event>, id: nat)
    requires events == before + [e] && id in At(events, |events|).sessions && id in At(before, |before|).sessions
    ensures LossyPoll(events, id, |before|)
       <==> e == Poll(id) && LosesAt(At(before, |before|), At(before, |before|).sessions[id])
  {
    hide At, LosesAt;
    AtBefore(before, e, events);
    assert LiveSince(events, id, |before|);
  }

  lemma LiveExtends(before: seq<Event>, e: Event, events: seq<Event>, id: nat, i: nat)
    requires events == before + [e] && id in At(events, |events|).sessions
    ensures LiveSince(events, id, i) <==> LiveSince(before, id, i)
  {
    hide At;
    AtBefore(before, e, events);
  }

  /** A session that has just started has nothing behind it. */
  lemma NotLossyBefore(before: seq<Event>, e: Event, events: seq<Event>, id: nat)
    requires events == before + [e] && id !in At(before, |before|).sessions
    ensures !exists i :: LossyPoll(events, id, i)
  {
    hide At, LosesAt;
    AtBefore(before, e, events);
    forall i: nat
      ensures !LossyPoll(events, id, i)
    {
      assert id !in At(events, |before|).sessions;
    }
  }

  lemma StartDelivers(s: State, e: Event, id: nat)
    requires id !in s.sessions && id in Step(s, e).sessions
    ensures Delivered(Step(s, e), Step(s, e).sessions[id])
  {
    hide Lines, Unstamped, Window, PollSession;
    var x := Step(s, e).sessions[id];
    assert e.Start? && x.start == x.next && x.sent == [];
    EmptyWindow(Step(s, e).history, x.start);
    NothingSent();
  }

  lemma NothingSent()
    ensures Unstamped([]) == [] && Lines([]) == []
  {
  }

  // ----- losing and keeping frames -----

  /** The events of a session that loses a frame to a checkpoint. */
  const LOSING: seq<Event> := [Create("a", "logical", PLUGIN), Start(0, "a", 0), Commit(["x"], 10), Checkpoint,
                               Commit(["y"], 10), Poll(0)]

  /** A concrete run in which a change committed after the session began is never sent. */
  lemma CheckpointLosesFrame()
    ensures var s := Run(EMPTY, LOSING);
      && 0 in s.sessions && s.history == [Frame(0, ["x"]), Frame(10, ["y"])]
      && var x := s.sessions[0]; x.start == 0 && x.next == 20 && x.sent == [Message(10, 20, "y")] && !Delivered(s, x)
  {
    var slot := Slot(PLUGIN, "logical", 0, 0, true);
    var f, g := Frame(0, ["x"]), Frame(10, ["y"]);
    var x := Session("a", 0, 0, [], [], {});
    var s1 := State([], 0, 0, map["a" := slot], map[0 := x]);
    assert Run(EMPTY, LOSING) == Run(s1, LOSING[2..]) by { LosingBegins(); }
    var s2 := State([f, g], 10, 20, map["a" := slot], map[0 := x]);
    assert Run(s1, LOSING[2..]) == PollStep(s2, 0) by { LosingCommits(s1, s2); }
    LosingPoll(s2, x);
  }

  lemma LosingBegins()
    ensures var slot := Slot(PLUGIN, "logical", 0, 0, true);
      Run(EMPTY, LOSING) == Run(State([], 0, 0, map["a" := slot], map[0 := Session("a", 0, 0, [], [], {})]), LOSING[2..])
  {
    assert ValidSlotName("a");
    var slot := Slot(PLUGIN, "logical", 0, 0, false);
    var s := State([], 0, 0, map["a" := slot], map[]);
    assert Step(EMPTY, LOSING[0]) == s;
    assert Step(s, LOSING[1]) == State([], 0, 0, map["a" := slot.(active := true)], map[0 := Session("a", 0, 0, [], [], {})]);
    assert LOSING[1..][0] == LOSING[1] && LOSING[1..][1..] == LOSING[2..];
  }

  lemma LosingCommits(s: State, s': State)
    requires s.history == [] && s.base == 0 && s.end == 0
    requires s' == s.(history := [Frame(0, ["x"]), Frame(10, ["y"])], base := 10, end := 20)
    ensures Run(s, LOSING[2..]) == PollStep(s', 0)
  {
    var a := s.(history := [Frame(0, ["x"])], end := 10);
    var b := a.(base := 10);
    hide PollStep;
    assert Step(s, LOSING[2]) == a && Step(a, LOSING[3]) == b && Step(b, LOSING[4]) == s';
    hide Step;
    assert LOSING[5..] == [Poll(0)];
    RunUnfold(s, LOSING, 2);
    RunUnfold(a, LOSING, 3);
    RunUnfold(b, LOSING, 4);
    RunOne(s', Poll(0));
    assert Step(s', Poll(0)) == PollStep(s', 0) by { StepPoll(s', 0); }
  }

  lemma StepPoll(s: State, id: nat)
    ensures Step(s, Poll(id)) == PollStep(s, id)
  {
  }

  lemma LosingPoll(s: State, x: Session)
    requires s.history == [Frame(0, ["x"]), Frame(10, ["y"])] && s.base == 10 && s.end == 20
    requires x == Session("a", 0, 0, [], [], {}) && s.sessions == map[0 := x]
    ensures var y := PollStep(s, 0).sessions[0];
      y.start == 0 && y.next == 20 && y.sent == [Message(10, 20, "y")] && !Delivered(PollStep(s, 0), y)
  {
    var f, g := Frame(0, ["x"]), Frame(10, ["y"]);
    assert s.history[1..] == [g] && [g][1..] == [];
    assert FramesSince([g], 10) == [g];
    assert FramesSince(s.history, 10) == [g];
    assert AllMessages([g], 20) == [Message(10, 20, "y")];
    var y := PollStep(s, 0).sessions[0];
    assert Window(s.history, 0, 20, {}) == [f, g] by {
      assert Window([g], 0, 20, {}) == [g];
    }
    TwoLines();
  }

  lemma TwoLines()
    ensures |Lines([Frame(0, ["x"]), Frame(10, ["y"])])| == 2
  {
    var f, g := Frame(0, ["x"]), Frame(10, ["y"]);
    assert [g][1..] == [];
    assert |Lines([g])| == 1;
    assert [f, g][1..] == [g];
  }

  /** The run never ends the session. */
  ghost predicate Keeps(s: State, events: seq<Event>, id: nat)
    decreases |events|
  {
    id in s.sessions && (events != [] ==> Keeps(Step(s, events[0]), events[1..], id))
  }

  ghost predicate Missing(s: State, x: Session, f: Frame) {
    f in s.history && (x.next <= f.lsn < s.base || f.lsn in x.skipped)
  }

  /** An unread frame that was truncated is never sent to the session, however the run goes on. */
  lemma {:induction false} TruncatedIsGone(s: State, events: seq<Event>, id: nat, f: Frame)
    requires Inv(s) && Keeps(s, events, id)
    requires f in s.history && s.sessions[id].next <= f.lsn < s.base
    ensures id in Run(s, events).sessions
    ensures forall m | m in Run(s, events).sessions[id].sent :: m.lsn != f.lsn
  {
    hide Inv, Keeps, Run;
    KeepsMissing(s, events, id, f);
    RunKeepsInv(s, events);
    NoMessageOfMissing(Run(s, events), id, f);
  }

  lemma {:induction false} KeepsMissing(s: State, events: seq<Event>, id: nat, f: Frame)
    requires Inv(s) && Keeps(s, events, id) && Missing(s, s.sessions[id], f)
    ensures var s' := Run(s, events); id in s'.sessions && Missing(s', s'.sessions[id], f)
    decreases |events|
  {
    hide Inv, Step, Missing;
    if events != [] {
      var s' := Step(s, events[0]);
      StepKeepsInv(s, events[0]);
      assert Keeps(s', events[1..], id);
      MissingStep(s, events[0], id, f);
      KeepsMissing(s', events[1..], id, f);
    }
  }

  lemma MissingStep(s: State, e: Event, id: nat, f: Frame)
    requires Inv(s) && id in s.sessions && id in Step(s, e).sessions && Missing(s, s.sessions[id], f)
    ensures Missing(Step(s, e), Step(s, e).sessions[id], f)
  {
    hide Window, Lines, Unstamped, FramesSince, AllMessages, NextAfter, Delivered, Unread;
    UnreadIs(s.history, s.sessions[id].next, s.base);
    if e != Poll(id) {
      OthersKeepDelivery(s, e, id);
    }
  }

  lemma NoMessageOfMissing(s: State, id: nat, f: Frame)
    requires Inv(s) && id in s.sessions && Missing(s, s.sessions[id], f)
    ensures forall m | m in s.sessions[id].sent :: m.lsn != f.lsn
  {
    hide Lines, Window;
    var x := s.sessions[id];
    assert SessionOk(s, x);
    WindowMembers(s.history, x.start, x.next, x.skipped);
    LinesMembers(x.frames);
    forall m | m in x.sent
      ensures m.lsn != f.lsn
    {
      var i :| 0 <= i < |x.sent| && x.sent[i] == m;
      assert Unstamped(x.sent)[i] == Lines(x.frames)[i];
      assert Lines(x.frames)[i] in Lines(x.frames);
    }
  }

  lemma {:induction false} LinesMembers(frames: seq<Frame>)
    ensures forall l | l in Lines(frames) :: exists f :: f in frames && f.lsn == l.0
  {
    if frames != [] {
      var f, rest := frames[0], frames[1..];
      LinesMembers(rest);
      assert frames == [f] + rest;
      LinesUnfold(f, rest);
      assert forall l | l in FrameLines(f) :: l.0 == f.lsn;
      assert forall g | g in rest :: g in frames;
      assert f in frames;
    }
  }

  /** Once such a frame has changes in it, the next commit and round break the delivery. */
  lemma TruncatedBreaks(s: State, id: nat, f: Frame)
    requires Inv(s) && id in s.sessions
    requires f in s.history && s.sessions[id].next <= f.lsn < s.base && f.lines != []
    ensures var s' := Run(s, [Commit(["y"], 1), Poll(id)]); id in s'.sessions && !Delivered(s', s'.sessions[id])
  {
    hide Window, Lines, Unstamped, Inv, Delivered, PollSession, Run;
    var s1 := Step(s, Commit(["y"], 1));
    var g := Frame(s.end, ["y"]);
    StepKeepsInv(s, Commit(["y"], 1));
    assert f in s1.history && g in s1.history;
    EndBeyond(s);
    assert LosesAt(s1, s1.sessions[id]);
    PollDelivers(s1, id);
    TwoSteps(s, Commit(["y"], 1), Poll(id));
  }

  lemma EndBeyond(s: State)
    requires Inv(s)
    ensures s.base <= s.end && forall f | f in s.history :: f.lsn < s.end
  {
  }

  lemma TwoSteps(s: State, a: Event, b: Event)
    ensures Run(s, [a, b]) == Step(Step(s, a), b)
  {
    assert [a, b] == [a] + [b];
    RunConcat(s, [a], [b]);
    RunOne(s, a);
    RunOne(Step(s, a), b);
  }

  /** No live session has an unread frame that was truncated. */
  ghost predicate Safe(s: State) {
    forall id, f | id in s.sessions && f in s.history :: f.lsn < s.sessions[id].next || s.base <= f.lsn
  }

  /** A checkpoint waits until every live session has read everything, and a session does not
      start before a truncated frame. */
  ghost predicate CarefulStep(s: State, e: Event) {
    match e
    case Checkpoint => forall id, f | id in s.sessions && f in s.history :: f.lsn < s.sessions[id].next
    case Start(id, name, lsn) =>
      name in s.slots ==> forall f | f in s.history && Max(lsn, s.slots[name].confirmedLsn) <= f.lsn :: s.base <= f.lsn
    case _ => true
  }

  ghost predicate CarefulRun(s: State, events: seq<Event>)
    decreases |events|
  {
    events == [] || (CarefulStep(s, events[0]) && CarefulRun(Step(s, events[0]), events[1..]))
  }

  ghost predicate AllDelivered(s: State) {
    forall id | id in s.sessions :: Delivered(s, s.sessions[id])
  }

  /** The operator's form: over a careful run no session loses anything. */
  lemma {:induction false} CarefulLosesNothing(s: State, events: seq<Event>)
    requires Inv(s) && Safe(s) && AllDelivered(s) && CarefulRun(s, events)
    ensures Safe(Run(s, events)) && AllDelivered(Run(s, events))
    decreases |events|
  {
    hide Inv, Step, Safe, AllDelivered, CarefulStep;
    if events != [] {
      StepKeepsInv(s, events[0]);
      CarefulKeepsSafe(s, events[0]);
      CarefulDelivers(s, events[0]);
      CarefulLosesNothing(Step(s, events[0]), events[1..]);
    }
  }

  lemma CarefulKeepsSafe(s: State, e: Event)
    requires Inv(s) && Safe(s) && CarefulStep(s, e)
    ensures Safe(Step(s, e))
  {
    hide SessionOk, ValidSlotName, PollSession, SlotOk;
    EndBeyond(s);
    if e.Poll? && e.id in s.sessions {
      NextGrows(s, s.sessions[e.id]);
    }
  }

  lemma NextGrows(s: State, x: Session)
    ensures x.next <= PollSession(s, x).next && PollSession(s, x).slot == x.slot
  {
    hide AllMessages, FramesSince, Unread;
    NextAtLeast(FramesSince(s.history, Max(x.next, s.base)), s.end, x.next);
  }

  lemma {:induction false} NextAtLeast(frames: seq<Frame>, walEnd: nat, next: nat)
    ensures next <= NextAfter(frames, walEnd, next)
  {
    if frames != [] {
      NextAtLeast(frames[1..], walEnd, Max(if |frames| > 1 then frames[1].lsn else walEnd, next));
    }
  }

  lemma CarefulDelivers(s: State, e: Event)
    requires Inv(s) && Safe(s) && AllDelivered(s) && CarefulStep(s, e)
    ensures AllDelivered(Step(s, e))
  {
    hide Inv, Delivered, Step, CarefulStep;
    var s' := Step(s, e);
    forall id | id in s'.sessions
      ensures Delivered(s', s'.sessions[id])
    {
      if id !in s.sessions {
        StartDelivers(s, e, id);
      } else if e == Poll(id) {
        assert !LosesAt(s, s.sessions[id]);
        PollDelivers(s, id);
      } else {
        OthersKeepDelivery(s, e, id);
      }
    }
  }

  /** While nothing is ever truncated, nothing is lost. */
  lemma {:induction false} NoCheckpointNoGap(s: State, events: seq<Event>)
    requires Inv(s) && s.base == 0 && AllDelivered(s)
    requires forall i | 0 <= i < |events| :: !events[i].Checkpoint?
    ensures AllDelivered(Run(s, events))
  {
    hide Inv, AllDelivered, Run, Step;
    NoCheckpointCareful(s, events);
    CarefulLosesNothing(s, events);
  }

  lemma {:induction false} NoCheckpointCareful(s: State, events: seq<Event>)
    requires s.base == 0 && forall i | 0 <= i < |events| :: !events[i].Checkpoint?
    ensures CarefulRun(s, events)
    decreases |events|
  {
    hide Step;
    if events != [] {
      BaseStays(s, events[0]);
      NoCheckpointCareful(Step(s, events[0]), events[1..]);
    }
  }

  lemma BaseStays(s: State, e: Event)
    requires !e.Checkpoint?
    ensures Step(s, e).base == s.base
  {
    hide PollSession, ValidSlotName;
  }
}

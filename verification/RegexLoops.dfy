/** Which unbounded repetitions come to an end, whatever the subject, and which use up every
    step budget. */
module RegexLoops {
  import opened Wrappers
  import opened RegexSyntax
  import opened RegexCompiler
  import opened RegexSemantics
  import opened RegexMachine
  import opened RegexCorrectness

  // ----- patterns without empty loops -----

  /** A syntactic check that the pattern consumes at least one character. */
  predicate MustConsume(a: Ast) {
    match a
    case Lit(_) => true
    case Dot => true
    case Class(_) => true
    case Sequence(items) => SomeMustConsume(items)
    case Alt(alts) => |alts| > 0 && AllMustConsume(alts)
    case Repeat(body, min, _, _) => min > 0 && MustConsume(body)
    case Group(body, _) => MustConsume(body)
    case _ => false
  }

  predicate SomeMustConsume(items: seq<Ast>) {
    items != [] && (MustConsume(items[0]) || SomeMustConsume(items[1..]))
  }

  predicate AllMustConsume(items: seq<Ast>) {
    items == [] || (MustConsume(items[0]) && AllMustConsume(items[1..]))
  }

  /** No unbounded repeat has a body that passes for empty. */
  predicate NoEmptyLoop(a: Ast) {
    match a
    case Sequence(items) => NoEmptyLoops(items)
    case Alt(alts) => NoEmptyLoops(alts)
    case Repeat(body, _, max, _) => NoEmptyLoop(body) && (max.None? ==> MustConsume(body))
    case Group(body, _) => NoEmptyLoop(body)
    case _ => true
  }

  predicate NoEmptyLoops(items: seq<Ast>) {
    items == [] || (NoEmptyLoop(items[0]) && NoEmptyLoops(items[1..]))
  }

  /** Matching moves forward, strictly where the syntax says so. */
  lemma {:induction false} MatchMoves(m: Mode, s: string, a: Ast, o: Config, x: Config)
    requires Sound(s, o) && Matches(m, s, a, o, x)
    ensures o.si <= x.si && Sound(s, x) && (MustConsume(a) ==> o.si < x.si)
    decreases a, 0
  {
    hide Iterates, MatchesSeq, MatchesSome, SomeMustConsume, AllMustConsume;
    match a
    case Sequence(items) => MatchMovesSeq(m, s, items, o, x);
    case Alt(alts) => MatchMovesSome(m, s, alts, o, x);
    case Repeat(body, min, max, _) =>
      var k: nat :| min <= k && (max.Some? ==> k <= max.value) && Iterates(m, s, body, k, o, x);
      MatchMovesTimes(m, s, body, k, o, x);
    case Group(body, g) =>
      var inner :| Matches(m, s, body, OpenGroup(o, g), inner) && x == CloseGroup(inner, g);
      MatchMoves(m, s, body, OpenGroup(o, g), inner);
    case _ =>
  }

  lemma {:induction false} MatchMovesSeq(m: Mode, s: string, items: seq<Ast>, o: Config, x: Config)
    requires Sound(s, o) && MatchesSeq(m, s, items, o, x)
    ensures o.si <= x.si && Sound(s, x) && (SomeMustConsume(items) ==> o.si < x.si)
    decreases items, 0
  {
    hide Matches, MustConsume, Sound;
    if items != [] {
      var mid :| Sound(s, mid) && Matches(m, s, items[0], o, mid) && MatchesSeq(m, s, items[1..], mid, x);
      MatchMoves(m, s, items[0], o, mid);
      MatchMovesSeq(m, s, items[1..], mid, x);
    }
  }

  lemma {:induction false} MatchMovesSome(m: Mode, s: string, alts: seq<Ast>, o: Config, x: Config)
    requires Sound(s, o) && MatchesSome(m, s, alts, o, x)
    ensures o.si <= x.si && Sound(s, x) && (AllMustConsume(alts) ==> o.si < x.si)
    decreases alts, 0
  {
    hide Matches, MustConsume, Sound;
    if Matches(m, s, alts[0], o, x) {
      MatchMoves(m, s, alts[0], o, x);
    } else {
      MatchMovesSome(m, s, alts[1..], o, x);
    }
  }

  lemma {:induction false} MatchMovesTimes(m: Mode, s: string, body: Ast, k: nat, o: Config, x: Config)
    requires Sound(s, o) && Iterates(m, s, body, k, o, x)
    ensures o.si <= x.si && Sound(s, x) && (k > 0 && MustConsume(body) ==> o.si < x.si)
    decreases body, 1, k
  {
    hide Matches, MustConsume, Sound;
    if k != 0 {
      var mid :| Sound(s, mid) && Matches(m, s, body, o, mid) && Iterates(m, s, body, k - 1, mid, x);
      MatchMoves(m, s, body, o, mid);
      MatchMovesTimes(m, s, body, k - 1, mid, x);
    }
  }

  /** A syntactic condition for the compiler-correctness theorem, on every subject. */
  lemma {:induction false} NoEmptyLoopIsProductive(m: Mode, s: string, a: Ast)
    requires NoEmptyLoop(a)
    ensures Productive(m, s, a)
    decreases a, 0
  {
    hide Matches, MustConsume, Sound;
    match a
    case Sequence(items) => NoEmptyLoopsAreProductive(m, s, items);
    case Alt(alts) => NoEmptyLoopsAreProductive(m, s, alts);
    case Repeat(body, _, max, _) =>
      NoEmptyLoopIsProductive(m, s, body);
      if max.None? {
        forall o, x | Sound(s, o) && Matches(m, s, body, o, x)
          ensures o.si < x.si
        {
          MatchMoves(m, s, body, o, x);
        }
      }
    case Group(body, _) => NoEmptyLoopIsProductive(m, s, body);
    case _ =>
  }

  lemma {:induction false} NoEmptyLoopsAreProductive(m: Mode, s: string, items: seq<Ast>)
    requires NoEmptyLoops(items)
    ensures AllProductive(m, s, items)
    decreases items, 0
  {
    if items != [] {
      NoEmptyLoopIsProductive(m, s, items[0]);
      NoEmptyLoopsAreProductive(m, s, items[1..]);
    }
  }

  // ----- patterns that never come to an end -----

  /** A syntactic check that the pattern can match empty at every position. */
  predicate Nullable(a: Ast) {
    match a
    case Empty => true
    case Sequence(items) => AllNullable(items)
    case Alt(alts) => SomeNullable(alts)
    case Repeat(body, min, _, _) => min == 0 || Nullable(body)
    case Group(body, _) => Nullable(body)
    case _ => false
  }

  predicate AllNullable(items: seq<Ast>) {
    items == [] || (Nullable(items[0]) && AllNullable(items[1..]))
  }

  predicate SomeNullable(items: seq<Ast>) {
    items != [] && (Nullable(items[0]) || SomeNullable(items[1..]))
  }

  /** Whatever the subject, matching meets a greedy loop over a nullable body. `lazy` is the
      laziness of an enclosing repetition. */
  predicate Doomed(a: Ast, lazy: bool) {
    match a
    case Sequence(items) => DoomedSeq(items, lazy)
    case Alt(alts) => alts != [] && Doomed(alts[0], lazy)
    case Repeat(body, min, max, lz) =>
      || (max.None? && !(lz || lazy) && Nullable(body))
      || ((min > 0 || (!(lz || lazy) && max != Some(0))) && Doomed(body, lz || lazy))
    case Group(body, _) => Doomed(body, lazy)
    case _ => false
  }

  predicate DoomedSeq(items: seq<Ast>, lazy: bool) {
    items != [] && (Doomed(items[0], lazy) || (Nullable(items[0]) && DoomedSeq(items[1..], lazy)))
  }

  // ----- threads that never come to an end -----

  ghost predicate Spends(e: Env, ts: seq<Thread>, b: nat) {
    AllThreads(e.s, ts) && Exec(e, ts, b).Exhausted?
  }

  lemma SpendsLess(e: Env, ts: seq<Thread>, b: nat, c: nat)
    requires Spends(e, ts, b) && c <= b
    ensures Spends(e, ts, c)
  {
    if !Exec(e, ts, c).Exhausted? { ExecMonotone(e, ts, c, b); }
  }

  /** A thread at `pc` never decides the run: it ends in failure, or is still going after b steps. */
  ghost predicate Passive(e: Env, pc: nat, b: nat) {
    forall c: nat, o, rest | c <= b && Sound(e.s, o) && Spends(e, rest, c) :: Spends(e, [Thread(pc, o)] + rest, c)
  }

  /** A thread at `pc` is still going after b steps, whatever waits behind it. */
  ghost predicate Fatal(e: Env, pc: nat, b: nat) {
    forall c: nat, o, rest | c <= b && Sound(e.s, o) && AllThreads(e.s, rest) :: Spends(e, [Thread(pc, o)] + rest, c)
  }

  lemma FatalPassive(e: Env, pc: nat, b: nat)
    requires Fatal(e, pc, b)
    ensures Passive(e, pc, b)
  {
  }

  lemma PassiveLess(e: Env, pc: nat, b: nat, c: nat)
    requires Passive(e, pc, b) && c <= b
    ensures Passive(e, pc, c)
  {
  }

  lemma FatalLess(e: Env, pc: nat, b: nat, c: nat)
    requires Fatal(e, pc, b) && c <= b
    ensures Fatal(e, pc, c)
  {
  }

  /** A step from `pc` leads to threads at `x` and `y`, if any. */
  ghost predicate StepsTo(e: Env, pc: nat, x: nat, y: nat) {
    forall o | Sound(e.s, o) ::
      var r := Step(e, Thread(pc, o));
      r.Next? && |r.ts| <= 2 && forall t | t in r.ts :: t.pc == x || t.pc == y
  }

  lemma SpendsStep(e: Env, t: Thread, rest: seq<Thread>, b: nat)
    requires Sound(e.s, t.o) && AllThreads(e.s, rest)
    requires b > 0 ==> Step(e, t).Next? && Spends(e, Step(e, t).ts + rest, b - 1)
    ensures Spends(e, [t] + rest, b)
  {
    ExecUnfold(e, t, rest, b);
  }

  lemma SpendsTwo(e: Env, ts: seq<Thread>, x: nat, y: nat, rest: seq<Thread>, b: nat)
    requires AllThreads(e.s, ts) && |ts| <= 2 && forall t | t in ts :: t.pc == x || t.pc == y
    requires Passive(e, x, b) && Passive(e, y, b) && Spends(e, rest, b)
    ensures Spends(e, ts + rest, b)
  {
    hide Spends;
    if ts == [] {
      assert ts + rest == rest;
    } else if |ts| == 1 {
      assert ts == [Thread(ts[0].pc, ts[0].o)];
    } else {
      var t, u := ts[0], ts[1];
      assert ts + rest == [t] + ([u] + rest);
      assert t == Thread(t.pc, t.o) && u == Thread(u.pc, u.o);
      assert Spends(e, [u] + rest, b);
    }
  }

  lemma PassiveStep(e: Env, pc: nat, x: nat, y: nat, b: nat)
    requires StepsTo(e, pc, x, y)
    requires b > 0 ==> Passive(e, x, b - 1) && Passive(e, y, b - 1)
    ensures Passive(e, pc, b)
  {
    hide Step, Sound;
    forall c: nat, o, rest | c <= b && Sound(e.s, o) && Spends(e, rest, c)
      ensures Spends(e, [Thread(pc, o)] + rest, c)
    {
      if c > 0 {
        PassiveLess(e, x, b - 1, c - 1);
        PassiveLess(e, y, b - 1, c - 1);
        SpendsLess(e, rest, c, c - 1);
        SpendsTwo(e, Step(e, Thread(pc, o)).ts, x, y, rest, c - 1);
      }
      SpendsStep(e, Thread(pc, o), rest, c);
    }
  }

  lemma StepsOne(e: Env, pc: nat, insn: Insn)
    requires At(e.prog, pc, [insn])
    requires IsTest(insn) || insn.ISaveStart? || insn.ISaveEnd?
    ensures StepsTo(e, pc, pc + 1, pc + 1)
  {
    hide Advance;
    AtOne(e.prog, pc, insn);
  }

  lemma StepsJump(e: Env, pc: nat, to: nat)
    requires At(e.prog, pc, [IJump(to)])
    ensures StepsTo(e, pc, to, to)
  {
    AtOne(e.prog, pc, IJump(to));
  }

  lemma StepsSplit(e: Env, pc: nat, x: nat, y: nat)
    requires At(e.prog, pc, [ISplit(x, y)])
    ensures StepsTo(e, pc, x, y)
  {
    AtOne(e.prog, pc, ISplit(x, y));
  }

  // ----- code in front of a passive thread is passive -----

  lemma {:induction false} CodePassive(e: Env, a: Ast, lazy: bool, base: nat, b: nat)
    requires WellFormed(a) && At(e.prog, base, Code(e.m, a, lazy, base))
    requires Passive(e, base + Size(a), b)
    ensures Passive(e, base, b)
    decreases a, 0, b
  {
    hide CodeSeq, CodeAlt, CodeRepeat, SizeAll, SizeAlt, SizeRepeat, Passive, At;
    match a
    case Empty =>
    case Sequence(items) => SeqPassive(e, items, lazy, base, b);
    case Alt(alts) => AltPassive(e, alts, lazy, base, base + Size(a), b);
    case Repeat(body, min, max, lz) => RepeatPassive(e, body, min, max, lz || lazy, base, b);
    case Group(body, g) => GroupPassive(e, body, g, lazy, base, b);
    case _ =>
      StepsOne(e, base, Leaf(e.m, a));
      OnePassive(e, base, base + 1, base + 1, b);
  }

  lemma OnePassive(e: Env, pc: nat, x: nat, y: nat, b: nat)
    requires StepsTo(e, pc, x, y) && Passive(e, x, b) && Passive(e, y, b)
    ensures Passive(e, pc, b)
  {
    hide StepsTo, Passive;
    if b > 0 {
      PassiveLess(e, x, b, b - 1);
      PassiveLess(e, y, b, b - 1);
    }
    PassiveStep(e, pc, x, y, b);
  }

  lemma {:induction false} SeqPassive(e: Env, items: seq<Ast>, lazy: bool, base: nat, b: nat)
    requires AllWellFormed(items) && At(e.prog, base, CodeSeq(e.m, items, lazy, base))
    requires Passive(e, base + SizeAll(items), b)
    ensures Passive(e, base, b)
    decreases items, 0, b
  {
    hide Code, Size, Passive, At, WellFormed;
    if items != [] {
      var mid := base + Size(items[0]);
      AtSplit(e.prog, base, Code(e.m, items[0], lazy, base), CodeSeq(e.m, items[1..], lazy, mid));
      SeqPassive(e, items[1..], lazy, mid, b);
      CodePassive(e, items[0], lazy, base, b);
    }
  }

  /** Where the parts of an alternation stand. */
  lemma AltParts(e: Env, alts: seq<Ast>, lazy: bool, base: nat, end: nat)
    requires |alts| > 1 && AllWellFormed(alts) && At(e.prog, base, CodeAlt(e.m, alts, lazy, base, end))
    ensures var n := Size(alts[0]);
      && WellFormed(alts[0]) && AllWellFormed(alts[1..])
      && At(e.prog, base, [ISplit(base + 1, base + 2 + n)])
      && At(e.prog, base + 1, Code(e.m, alts[0], lazy, base + 1))
      && At(e.prog, base + 1 + n, [IJump(end)])
      && At(e.prog, base + 2 + n, CodeAlt(e.m, alts[1..], lazy, base + 2 + n, end))
  {
    hide Code, Size, At, WellFormed;
    var next := base + 2 + Size(alts[0]);
    var split, code := [ISplit(base + 1, next)], Code(e.m, alts[0], lazy, base + 1);
    AtSplit(e.prog, base, split + code + [IJump(end)], CodeAlt(e.m, alts[1..], lazy, next, end));
    AtSplit(e.prog, base, split + code, [IJump(end)]);
    AtSplit(e.prog, base, split, code);
  }

  lemma {:induction false} AltPassive(e: Env, alts: seq<Ast>, lazy: bool, base: nat, end: nat, b: nat)
    requires |alts| > 0 && AllWellFormed(alts) && At(e.prog, base, CodeAlt(e.m, alts, lazy, base, end))
    requires Passive(e, end, b)
    ensures Passive(e, base, b)
    decreases alts, 0, b
  {
    hide Code, Size, Passive, At, WellFormed, StepsTo;
    var n := Size(alts[0]);
    if |alts| == 1 {
      AtSplit(e.prog, base, Code(e.m, alts[0], lazy, base), [IJump(end)]);
      StepsJump(e, base + n, end);
      OnePassive(e, base + n, end, end, b);
      CodePassive(e, alts[0], lazy, base, b);
    } else {
      AltParts(e, alts, lazy, base, end);
      hide CodeAlt;
      AltPassive(e, alts[1..], lazy, base + 2 + n, end, b);
      StepsJump(e, base + 1 + n, end);
      OnePassive(e, base + 1 + n, end, end, b);
      CodePassive(e, alts[0], lazy, base + 1, b);
      StepsSplit(e, base, base + 1, base + 2 + n);
      OnePassive(e, base, base + 1, base + 2 + n, b);
    }
  }

  lemma GroupParts(e: Env, body: Ast, g: nat, lazy: bool, base: nat)
    requires WellFormed(body) && At(e.prog, base, [ISaveStart(g)] + Code(e.m, body, lazy, base + 1) + [ISaveEnd(g)])
    ensures At(e.prog, base, [ISaveStart(g)]) && At(e.prog, base + 1, Code(e.m, body, lazy, base + 1))
    ensures At(e.prog, base + 1 + Size(body), [ISaveEnd(g)])
  {
    hide Code, Size, At, WellFormed;
    var code := Code(e.m, body, lazy, base + 1);
    AtSplit(e.prog, base, [ISaveStart(g)] + code, [ISaveEnd(g)]);
    AtSplit(e.prog, base, [ISaveStart(g)], code);
  }

  lemma {:induction false} GroupPassive(e: Env, body: Ast, g: nat, lazy: bool, base: nat, b: nat)
    requires WellFormed(body) && At(e.prog, base, [ISaveStart(g)] + Code(e.m, body, lazy, base + 1) + [ISaveEnd(g)])
    requires Passive(e, base + 2 + Size(body), b)
    ensures Passive(e, base, b)
    decreases body, 1, b
  {
    hide Code, Size, Passive, At, WellFormed, StepsTo;
    GroupParts(e, body, g, lazy, base);
    var close := base + 1 + Size(body);
    StepsOne(e, close, ISaveEnd(g));
    OnePassive(e, close, close + 1, close + 1, b);
    CodePassive(e, body, lazy, base + 1, b);
    StepsOne(e, base, ISaveStart(g));
    OnePassive(e, base, base + 1, base + 1, b);
  }

  lemma {:induction false} RepeatPassive(
    e: Env, body: Ast, min: nat, max: Option<nat>, lazy: bool, base: nat, b: nat)
    requires WellFormed(body) && (max.Some? ==> min <= max.value)
    requires At(e.prog, base, CodeRepeat(e.m, body, min, max, lazy, base))
    requires Passive(e, base + SizeRepeat(body, min, max), b)
    ensures Passive(e, base, b)
    decreases body, 3, b
  {
    hide Size, Code, CodeTimes, CodeOptional, CodeStar, WellFormed, Passive, At;
    var code := CodeTimes(e.m, body, min, lazy, base);
    var mid := base + |code|;
    if max.Some? {
      AtSplit(e.prog, base, code, CodeOptional(e.m, body, max.value - min, lazy, mid));
      OptionalPassive(e, body, max.value - min, lazy, mid, b);
    } else {
      AtSplit(e.prog, base, code, CodeStar(e.m, body, lazy, mid));
      StarPassive(e, body, lazy, mid, b);
    }
    TimesPassive(e, body, min, lazy, base, b);
  }

  lemma {:induction false} TimesPassive(e: Env, body: Ast, k: nat, lazy: bool, base: nat, b: nat)
    requires WellFormed(body) && At(e.prog, base, CodeTimes(e.m, body, k, lazy, base))
    requires Passive(e, base + Copies(k, Size(body)), b)
    ensures Passive(e, base, b)
    decreases body, 2, k
  {
    hide Code, Size, WellFormed, Passive, At;
    if k != 0 {
      var mid := base + Size(body);
      AtSplit(e.prog, base, Code(e.m, body, lazy, base), CodeTimes(e.m, body, k - 1, lazy, mid));
      TimesPassive(e, body, k - 1, lazy, mid, b);
      CodePassive(e, body, lazy, base, b);
    }
  }

  lemma StepsFork(e: Env, lazy: bool, base: nat, enter: nat, skip: nat)
    requires At(e.prog, base, [Fork(lazy, enter, skip)])
    ensures StepsTo(e, base, enter, skip)
  {
    AtOne(e.prog, base, Fork(lazy, enter, skip));
  }

  /** Where the parts of some optionals stand. */
  lemma OptionalParts(e: Env, body: Ast, k: nat, lazy: bool, base: nat)
    requires k > 0 && WellFormed(body) && At(e.prog, base, CodeOptional(e.m, body, k, lazy, base))
    ensures var mid := base + 1 + Size(body);
      && At(e.prog, base, [Fork(lazy, base + 1, mid)]) && At(e.prog, base + 1, Code(e.m, body, lazy, base + 1))
      && At(e.prog, mid, CodeOptional(e.m, body, k - 1, lazy, mid))
  {
    hide Code, Size, WellFormed, At;
    var mid := base + 1 + Size(body);
    AtSplit(e.prog, base, OneOptional(e.m, body, lazy, base), CodeOptional(e.m, body, k - 1, lazy, mid));
    AtSplit(e.prog, base, [Fork(lazy, base + 1, mid)], Code(e.m, body, lazy, base + 1));
  }

  lemma {:induction false} OptionalPassive(e: Env, body: Ast, k: nat, lazy: bool, base: nat, b: nat)
    requires WellFormed(body) && At(e.prog, base, CodeOptional(e.m, body, k, lazy, base))
    requires Passive(e, base + Copies(k, 1 + Size(body)), b)
    ensures Passive(e, base, b)
    decreases body, 2, k
  {
    hide Code, Size, CodeOptional, WellFormed, Passive, At, StepsTo, Fork;
    if k != 0 {
      var mid := base + 1 + Size(body);
      OptionalParts(e, body, k, lazy, base);
      OptionalPassive(e, body, k - 1, lazy, mid, b);
      CodePassive(e, body, lazy, base + 1, b);
      StepsFork(e, lazy, base, base + 1, mid);
      OnePassive(e, base, base + 1, mid, b);
    }
  }

  lemma {:induction false} StarPassive(e: Env, body: Ast, lazy: bool, base: nat, b: nat)
    requires WellFormed(body) && At(e.prog, base, CodeStar(e.m, body, lazy, base))
    requires Passive(e, base + 2 + Size(body), b)
    ensures Passive(e, base, b)
    decreases body, 1, b
  {
    hide Code, Size, CodeStar, WellFormed, Passive, At, StepsTo, Fork;
    StarCode(e, body, lazy, base);
    var end := base + 2 + Size(body);
    if b > 0 {
      PassiveLess(e, end, b, b - 1);
      StarPassive(e, body, lazy, base, b - 1);
      StepsJump(e, end - 1, base);
      OnePassive(e, end - 1, base, base, b - 1);
      CodePassive(e, body, lazy, base + 1, b - 1);
    }
    StepsFork(e, lazy, base, base + 1, end);
    PassiveStep(e, base, base + 1, end, b);
  }

  // ----- fatal code -----

  /** Every step from `pc` has a thread at `x` first, and perhaps one at `y` behind it. */
  ghost predicate StepsFirst(e: Env, pc: nat, x: nat, y: nat) {
    forall o | Sound(e.s, o) ::
      var r := Step(e, Thread(pc, o));
      r.Next? && 1 <= |r.ts| <= 2 && r.ts[0].pc == x && (|r.ts| == 2 ==> r.ts[1].pc == y)
  }

  lemma FatalStep(e: Env, pc: nat, x: nat, y: nat, b: nat)
    requires StepsFirst(e, pc, x, y) && (b > 0 ==> Fatal(e, x, b - 1))
    ensures Fatal(e, pc, b)
  {
    hide Step, Sound;
    forall c: nat, o, rest | c <= b && Sound(e.s, o) && AllThreads(e.s, rest)
      ensures Spends(e, [Thread(pc, o)] + rest, c)
    {
      if c > 0 {
        var ts := Step(e, Thread(pc, o)).ts;
        assert ts[0] == Thread(x, ts[0].o) && ts[0] in ts;
        assert ts + rest == [Thread(x, ts[0].o)] + (ts[1..] + rest);
        assert forall t | t in ts[1..] + rest :: t in ts || t in rest;
      }
      SpendsStep(e, Thread(pc, o), rest, c);
    }
  }

  ghost predicate StepsBoth(e: Env, pc: nat, x: nat, y: nat) {
    forall o | Sound(e.s, o) :: Step(e, Thread(pc, o)) == Next([Thread(x, o), Thread(y, o)])
  }

  /** A fork whose second branch is fatal and whose first is passive. */
  lemma FatalSecond(e: Env, pc: nat, x: nat, y: nat, b: nat)
    requires StepsBoth(e, pc, x, y) && Passive(e, x, b) && Fatal(e, y, b)
    ensures Fatal(e, pc, b)
  {
    hide Step, Sound;
    forall c: nat, o, rest | c <= b && Sound(e.s, o) && AllThreads(e.s, rest)
      ensures Spends(e, [Thread(pc, o)] + rest, c)
    {
      if c > 0 {
        assert Spends(e, [Thread(y, o)] + rest, c - 1);
        assert Spends(e, [Thread(x, o)] + ([Thread(y, o)] + rest), c - 1);
        assert [Thread(x, o), Thread(y, o)] + rest == [Thread(x, o)] + ([Thread(y, o)] + rest);
      }
      SpendsStep(e, Thread(pc, o), rest, c);
    }
  }

  lemma FatalFirst(e: Env, pc: nat, x: nat, y: nat, b: nat)
    requires StepsFirst(e, pc, x, y) && Fatal(e, x, b)
    ensures Fatal(e, pc, b)
  {
    hide StepsFirst, Fatal;
    if b > 0 { FatalLess(e, x, b, b - 1); }
    FatalStep(e, pc, x, y, b);
  }

  lemma FirstFork(e: Env, lazy: bool, base: nat, enter: nat, skip: nat)
    requires At(e.prog, base, [Fork(lazy, enter, skip)])
    ensures if lazy then StepsFirst(e, base, skip, enter) && StepsBoth(e, base, skip, enter)
            else StepsFirst(e, base, enter, skip) && StepsBoth(e, base, enter, skip)
  {
    AtOne(e.prog, base, Fork(lazy, enter, skip));
  }

  lemma FirstJump(e: Env, pc: nat, to: nat)
    requires At(e.prog, pc, [IJump(to)])
    ensures StepsFirst(e, pc, to, to)
  {
    AtOne(e.prog, pc, IJump(to));
  }

  lemma FirstSave(e: Env, pc: nat, insn: Insn)
    requires At(e.prog, pc, [insn]) && (insn.ISaveStart? || insn.ISaveEnd?)
    ensures StepsFirst(e, pc, pc + 1, pc + 1)
  {
    AtOne(e.prog, pc, insn);
  }

  /** Nullable code in front of a fatal thread is fatal: its failing branches come back to it. */
  lemma {:induction false} NullableFatal(e: Env, a: Ast, lazy: bool, base: nat, b: nat)
    requires WellFormed(a) && At(e.prog, base, Code(e.m, a, lazy, base))
    requires Nullable(a) && Fatal(e, base + Size(a), b)
    ensures Fatal(e, base, b)
    decreases a, 0
  {
    hide CodeSeq, CodeAlt, CodeRepeat, SizeAll, SizeAlt, SizeRepeat, AllNullable, SomeNullable, Fatal, At;
    match a
    case Empty =>
    case Sequence(items) => NullableSeqFatal(e, items, lazy, base, b);
    case Alt(alts) => NullableAltFatal(e, alts, lazy, base, base + Size(a), b);
    case Repeat(body, min, max, lz) => NullableRepeatFatal(e, body, min, max, lz || lazy, base, b);
    case Group(body, g) =>
      GroupParts(e, body, g, lazy, base);
      hide Size, Code;
      var close := base + 1 + Size(body);
      FirstSave(e, close, ISaveEnd(g));
      FatalFirst(e, close, close + 1, close + 1, b);
      NullableFatal(e, body, lazy, base + 1, b);
      FirstSave(e, base, ISaveStart(g));
      FatalFirst(e, base, base + 1, base + 1, b);
  }

  lemma {:induction false} NullableSeqFatal(e: Env, items: seq<Ast>, lazy: bool, base: nat, b: nat)
    requires AllWellFormed(items) && At(e.prog, base, CodeSeq(e.m, items, lazy, base))
    requires AllNullable(items) && Fatal(e, base + SizeAll(items), b)
    ensures Fatal(e, base, b)
    decreases items, 0
  {
    hide Code, Size, Fatal, At, WellFormed, Nullable;
    if items != [] {
      var mid := base + Size(items[0]);
      AtSplit(e.prog, base, Code(e.m, items[0], lazy, base), CodeSeq(e.m, items[1..], lazy, mid));
      NullableSeqFatal(e, items[1..], lazy, mid, b);
      NullableFatal(e, items[0], lazy, base, b);
    }
  }

  lemma {:induction false} NullableAltFatal(e: Env, alts: seq<Ast>, lazy: bool, base: nat, end: nat, b: nat)
    requires |alts| > 0 && AllWellFormed(alts) && At(e.prog, base, CodeAlt(e.m, alts, lazy, base, end))
    requires SomeNullable(alts) && Fatal(e, end, b)
    ensures Fatal(e, base, b)
    decreases alts, 0
  {
    hide Code, Size, Fatal, Passive, At, WellFormed, StepsFirst, StepsBoth, StepsTo, Nullable;
    var n := Size(alts[0]);
    if |alts| == 1 {
      AtSplit(e.prog, base, Code(e.m, alts[0], lazy, base), [IJump(end)]);
      FirstJump(e, base + n, end);
      FatalFirst(e, base + n, end, end, b);
      assert Nullable(alts[0]) by { assert !SomeNullable(alts[1..]); }
      NullableFatal(e, alts[0], lazy, base, b);
    } else {
      AltParts(e, alts, lazy, base, end);
      hide CodeAlt;
      FirstJump(e, base + 1 + n, end);
      FatalFirst(e, base + 1 + n, end, end, b);
      FirstSplit(e, base, base + 1, base + 2 + n);
      if Nullable(alts[0]) {
        NullableFatal(e, alts[0], lazy, base + 1, b);
        FatalFirst(e, base, base + 1, base + 2 + n, b);
      } else {
        NullableAltFatal(e, alts[1..], lazy, base + 2 + n, end, b);
        FatalPassive(e, base + 1 + n, b);
        CodePassive(e, alts[0], lazy, base + 1, b);
        FatalSecond(e, base, base + 1, base + 2 + n, b);
      }
    }
  }

  lemma FirstSplit(e: Env, pc: nat, x: nat, y: nat)
    requires At(e.prog, pc, [ISplit(x, y)])
    ensures StepsFirst(e, pc, x, y) && StepsBoth(e, pc, x, y)
  {
    AtOne(e.prog, pc, ISplit(x, y));
  }

  lemma {:induction false} NullableRepeatFatal(
    e: Env, body: Ast, min: nat, max: Option<nat>, lazy: bool, base: nat, b: nat)
    requires WellFormed(body) && (max.Some? ==> min <= max.value)
    requires At(e.prog, base, CodeRepeat(e.m, body, min, max, lazy, base))
    requires (min == 0 || Nullable(body)) && Fatal(e, base + SizeRepeat(body, min, max), b)
    ensures Fatal(e, base, b)
    decreases body, 3
  {
    hide Size, Code, CodeTimes, CodeOptional, CodeStar, WellFormed, Fatal, At, Nullable;
    var code := CodeTimes(e.m, body, min, lazy, base);
    var mid := base + |code|;
    if max.Some? {
      AtSplit(e.prog, base, code, CodeOptional(e.m, body, max.value - min, lazy, mid));
      OptionalFatal(e, body, max.value - min, lazy, mid, b);
    } else {
      AtSplit(e.prog, base, code, CodeStar(e.m, body, lazy, mid));
      StarFatal(e, body, lazy, mid, b);
    }
    TimesFatal(e, body, min, lazy, base, b);
  }

  lemma {:induction false} TimesFatal(e: Env, body: Ast, k: nat, lazy: bool, base: nat, b: nat)
    requires WellFormed(body) && At(e.prog, base, CodeTimes(e.m, body, k, lazy, base))
    requires (k == 0 || Nullable(body)) && Fatal(e, base + Copies(k, Size(body)), b)
    ensures Fatal(e, base, b)
    decreases body, 2, k
  {
    hide Code, Size, WellFormed, Fatal, At, Nullable;
    if k != 0 {
      var mid := base + Size(body);
      AtSplit(e.prog, base, Code(e.m, body, lazy, base), CodeTimes(e.m, body, k - 1, lazy, mid));
      TimesFatal(e, body, k - 1, lazy, mid, b);
      NullableFatal(e, body, lazy, base, b);
    }
  }

  /** Optionals may all be skipped. */
  lemma {:induction false} OptionalFatal(e: Env, body: Ast, k: nat, lazy: bool, base: nat, b: nat)
    requires WellFormed(body) && At(e.prog, base, CodeOptional(e.m, body, k, lazy, base))
    requires Fatal(e, base + Copies(k, 1 + Size(body)), b)
    ensures Fatal(e, base, b)
    decreases body, 2, k
  {
    hide Code, Size, CodeOptional, WellFormed, Fatal, Passive, At, StepsFirst, StepsBoth, Fork;
    if k != 0 {
      var mid := base + 1 + Size(body);
      OptionalParts(e, body, k, lazy, base);
      OptionalFatal(e, body, k - 1, lazy, mid, b);
      FirstFork(e, lazy, base, base + 1, mid);
      if lazy {
        FatalFirst(e, base, mid, base + 1, b);
      } else {
        FatalPassive(e, mid, b);
        CodePassive(e, body, lazy, base + 1, b);
        FatalSecond(e, base, base + 1, mid, b);
      }
    }
  }

  /** A loop may be skipped. */
  lemma StarFatal(e: Env, body: Ast, lazy: bool, base: nat, b: nat)
    requires WellFormed(body) && At(e.prog, base, CodeStar(e.m, body, lazy, base))
    requires Fatal(e, base + 2 + Size(body), b)
    ensures Fatal(e, base, b)
  {
    hide Code, Size, CodeStar, WellFormed, Fatal, Passive, At, StepsFirst, StepsBoth, StepsTo, Fork;
    StarCode(e, body, lazy, base);
    var end := base + 2 + Size(body);
    FirstFork(e, lazy, base, base + 1, end);
    if lazy {
      FatalFirst(e, base, end, base + 1, b);
    } else {
      FatalPassive(e, end, b);
      StarPassive(e, body, lazy, base, b);
      StepsJump(e, end - 1, base);
      OnePassive(e, end - 1, base, base, b);
      CodePassive(e, body, lazy, base + 1, b);
      FatalSecond(e, base, base + 1, end, b);
    }
  }

  /** A greedy loop over a nullable body never comes to an end, whatever follows it. */
  lemma {:induction false} EmptyLoopFatal(e: Env, body: Ast, base: nat, b: nat)
    requires WellFormed(body) && At(e.prog, base, CodeStar(e.m, body, false, base)) && Nullable(body)
    ensures Fatal(e, base, b)
    decreases b
  {
    hide Code, Size, CodeStar, WellFormed, Fatal, At, StepsFirst, StepsBoth, Fork, Nullable;
    StarCode(e, body, false, base);
    var back := base + 1 + Size(body);
    if b > 0 {
      EmptyLoopFatal(e, body, base, b - 1);
      FirstJump(e, back, base);
      FatalFirst(e, back, base, base, b - 1);
      NullableFatal(e, body, false, base + 1, b - 1);
    }
    FirstFork(e, false, base, base + 1, back + 1);
    FatalStep(e, base, base + 1, back + 1, b);
  }

  lemma {:induction false} DoomedFatal(e: Env, a: Ast, lazy: bool, base: nat, b: nat)
    requires WellFormed(a) && At(e.prog, base, Code(e.m, a, lazy, base)) && Doomed(a, lazy)
    ensures Fatal(e, base, b)
    decreases a, 0
  {
    hide CodeSeq, CodeAlt, CodeRepeat, SizeAll, SizeAlt, SizeRepeat, DoomedSeq, Fatal, At, Nullable;
    match a
    case Sequence(items) => DoomedSeqFatal(e, items, lazy, base, b);
    case Alt(alts) => DoomedAltFatal(e, alts, lazy, base, base + Size(a), b);
    case Repeat(body, min, max, lz) => DoomedRepeatFatal(e, body, min, max, lz || lazy, base, b);
    case Group(body, g) =>
      GroupParts(e, body, g, lazy, base);
      hide Size, Code;
      DoomedFatal(e, body, lazy, base + 1, b);
      FirstSave(e, base, ISaveStart(g));
      FatalFirst(e, base, base + 1, base + 1, b);
  }

  lemma {:induction false} DoomedSeqFatal(e: Env, items: seq<Ast>, lazy: bool, base: nat, b: nat)
    requires AllWellFormed(items) && At(e.prog, base, CodeSeq(e.m, items, lazy, base)) && DoomedSeq(items, lazy)
    ensures Fatal(e, base, b)
    decreases items, 0
  {
    hide Code, Size, Fatal, At, WellFormed, Nullable, Doomed;
    var mid := base + Size(items[0]);
    AtSplit(e.prog, base, Code(e.m, items[0], lazy, base), CodeSeq(e.m, items[1..], lazy, mid));
    if Doomed(items[0], lazy) {
      DoomedFatal(e, items[0], lazy, base, b);
    } else {
      DoomedSeqFatal(e, items[1..], lazy, mid, b);
      NullableFatal(e, items[0], lazy, base, b);
    }
  }

  lemma {:induction false} DoomedAltFatal(e: Env, alts: seq<Ast>, lazy: bool, base: nat, end: nat, b: nat)
    requires |alts| > 0 && AllWellFormed(alts) && At(e.prog, base, CodeAlt(e.m, alts, lazy, base, end))
    requires Doomed(alts[0], lazy)
    ensures Fatal(e, base, b)
    decreases alts, 0
  {
    hide Code, Size, Fatal, At, WellFormed, StepsFirst, StepsBoth, Doomed;
    var n := Size(alts[0]);
    if |alts| == 1 {
      AtSplit(e.prog, base, Code(e.m, alts[0], lazy, base), [IJump(end)]);
      DoomedFatal(e, alts[0], lazy, base, b);
    } else {
      AltParts(e, alts, lazy, base, end);
      hide CodeAlt;
      DoomedFatal(e, alts[0], lazy, base + 1, b);
      FirstSplit(e, base, base + 1, base + 2 + n);
      FatalFirst(e, base, base + 1, base + 2 + n, b);
    }
  }

  lemma {:induction false} DoomedRepeatFatal(
    e: Env, body: Ast, min: nat, max: Option<nat>, lazy: bool, base: nat, b: nat)
    requires WellFormed(body) && (max.Some? ==> min <= max.value)
    requires At(e.prog, base, CodeRepeat(e.m, body, min, max, lazy, base))
    requires (max.None? && !lazy && Nullable(body)) || ((min > 0 || (!lazy && max != Some(0))) && Doomed(body, lazy))
    ensures Fatal(e, base, b)
    decreases body, 3
  {
    hide Size, Code, CodeTimes, CodeOptional, CodeStar, WellFormed, Fatal, At, Nullable, Doomed;
    var code := CodeTimes(e.m, body, min, lazy, base);
    var mid := base + |code|;
    if max.None? && !lazy && Nullable(body) {
      AtSplit(e.prog, base, code, CodeStar(e.m, body, lazy, mid));
      EmptyLoopFatal(e, body, mid, b);
      TimesFatal(e, body, min, lazy, base, b);
    } else if min > 0 {
      DoomedTimesFatal(e, body, min, max, lazy, base, b);
    } else if max.Some? {
      NoTimes(e, body, lazy, base);
      AtSplit(e.prog, base, code, CodeOptional(e.m, body, max.value, lazy, mid));
      DoomedOptionalFatal(e, body, max.value, base, b);
    } else {
      NoTimes(e, body, lazy, base);
      AtSplit(e.prog, base, code, CodeStar(e.m, body, lazy, mid));
      DoomedStarFatal(e, body, base, b);
    }
  }

  lemma NoTimes(e: Env, body: Ast, lazy: bool, base: nat)
    requires WellFormed(body)
    ensures |CodeTimes(e.m, body, 0, lazy, base)| == 0
  {
  }

  lemma DoomedTimesFatal(
    e: Env, body: Ast, min: nat, max: Option<nat>, lazy: bool, base: nat, b: nat)
    requires WellFormed(body) && min > 0 && (max.Some? ==> min <= max.value)
    requires At(e.prog, base, CodeRepeat(e.m, body, min, max, lazy, base)) && Doomed(body, lazy)
    ensures Fatal(e, base, b)
    decreases body, 2
  {
    hide Size, Code, CodeOptional, CodeStar, WellFormed, Fatal, At, Doomed;
    var code := CodeTimes(e.m, body, min, lazy, base);
    var mid := base + |code|;
    if max.Some? {
      AtSplit(e.prog, base, code, CodeOptional(e.m, body, max.value - min, lazy, mid));
    } else {
      AtSplit(e.prog, base, code, CodeStar(e.m, body, lazy, mid));
    }
    AtSplit(e.prog, base, Code(e.m, body, lazy, base), CodeTimes(e.m, body, min - 1, lazy, base + Size(body)));
    DoomedFatal(e, body, lazy, base, b);
  }

  lemma DoomedOptionalFatal(e: Env, body: Ast, k: nat, base: nat, b: nat)
    requires WellFormed(body) && k > 0 && At(e.prog, base, CodeOptional(e.m, body, k, false, base))
    requires Doomed(body, false)
    ensures Fatal(e, base, b)
    decreases body, 2
  {
    hide Code, Size, CodeOptional, WellFormed, Fatal, At, StepsFirst, StepsBoth, Fork, Doomed;
    var mid := base + 1 + Size(body);
    OptionalParts(e, body, k, false, base);
    DoomedFatal(e, body, false, base + 1, b);
    FirstFork(e, false, base, base + 1, mid);
    FatalFirst(e, base, base + 1, mid, b);
  }

  lemma DoomedStarFatal(e: Env, body: Ast, base: nat, b: nat)
    requires WellFormed(body) && At(e.prog, base, CodeStar(e.m, body, false, base)) && Doomed(body, false)
    ensures Fatal(e, base, b)
    decreases body, 2
  {
    hide Code, Size, CodeStar, WellFormed, Fatal, At, StepsFirst, StepsBoth, Fork, Doomed;
    StarCode(e, body, false, base);
    var end := base + 2 + Size(body);
    DoomedFatal(e, body, false, base + 1, b);
    FirstFork(e, false, base, base + 1, end);
    FatalFirst(e, base, base + 1, end, b);
  }

  // ----- main results -----

  /** A doomed pattern exhausts every budget, on every subject, from every position and captures,
      whatever waits behind it. */
  lemma DoomedExhausts(m: Mode, s: string, a: Ast, o: Config, rest: seq<Thread>, budget: nat)
    requires WellFormed(a) && Doomed(a, false) && Sound(s, o) && AllThreads(s, rest)
    ensures Exec(Env(Program(m, a), m, s), [Thread(0, o)] + rest, budget) == Exhausted
  {
    hide Code, Size, Doomed, WellFormed;
    var e := Env(Program(m, a), m, s);
    assert At(e.prog, 0, Code(m, a, false, 0) + [IMatch]);
    AtSplit(e.prog, 0, Code(m, a, false, 0), [IMatch]);
    DoomedFatal(e, a, false, 0, budget);
    assert Spends(e, [Thread(0, o)] + rest, budget);
  }

  /** No anchors and no back-references. */
  predicate Plain(a: Ast) {
    match a
    case AnchorStart => false
    case AnchorEnd => false
    case BackRef(_) => false
    case Sequence(items) => AllPlain(items)
    case Alt(alts) => AllPlain(alts)
    case Repeat(body, _, _, _) => Plain(body)
    case Group(body, _) => Plain(body)
    case _ => true
  }

  predicate AllPlain(items: seq<Ast>) {
    items == [] || (Plain(items[0]) && AllPlain(items[1..]))
  }

  /** Without tests of the context, a pattern either consumes or can match empty anywhere. */
  lemma {:induction false} PlainDichotomy(a: Ast)
    requires Plain(a) && WellFormed(a)
    ensures Nullable(a) <==> !MustConsume(a)
    decreases a, 0
  {
    match a
    case Sequence(items) => PlainDichotomies(items);
    case Alt(alts) => PlainDichotomies(alts);
    case Repeat(body, _, _, _) => PlainDichotomy(body);
    case Group(body, _) => PlainDichotomy(body);
    case _ =>
  }

  lemma {:induction false} PlainDichotomies(items: seq<Ast>)
    requires AllPlain(items) && AllWellFormed(items)
    ensures AllNullable(items) <==> !SomeMustConsume(items)
    ensures SomeNullable(items) <==> !AllMustConsume(items)
    decreases items, 0
  {
    if items != [] {
      PlainDichotomy(items[0]);
      PlainDichotomies(items[1..]);
    }
  }

  /** Greedy loops one after the other, also in groups, whose bodies have no empty loop inside. */
  predicate LoopChain(a: Ast) {
    match a
    case Sequence(items) => LoopChains(items)
    case Repeat(body, min, max, lazy) => min == 0 && max.None? && !lazy && Plain(body) && NoEmptyLoop(body)
    case Group(body, _) => LoopChain(body)
    case _ => false
  }

  predicate LoopChains(items: seq<Ast>) {
    items == [] || (LoopChain(items[0]) && LoopChains(items[1..]))
  }

  lemma {:induction false} ChainDichotomy(a: Ast)
    requires LoopChain(a) && WellFormed(a)
    ensures Nullable(a) && (Doomed(a, false) <==> !NoEmptyLoop(a))
    decreases a, 0
  {
    match a
    case Sequence(items) => ChainDichotomies(items);
    case Repeat(body, _, _, _) =>
      PlainDichotomy(body);
      SoundBodies(body);
    case Group(body, _) => ChainDichotomy(body);
    case _ =>
  }

  lemma {:induction false} ChainDichotomies(items: seq<Ast>)
    requires LoopChains(items) && AllWellFormed(items)
    ensures AllNullable(items) && (DoomedSeq(items, false) <==> !NoEmptyLoops(items))
    decreases items, 0
  {
    if items != [] {
      ChainDichotomy(items[0]);
      ChainDichotomies(items[1..]);
    }
  }

  /** A pattern without empty loops is not doomed. */
  lemma {:induction false} SoundBodies(a: Ast)
    requires NoEmptyLoop(a) && Plain(a) && WellFormed(a)
    ensures forall lazy :: !Doomed(a, lazy)
    decreases a, 0
  {
    match a
    case Sequence(items) => SoundSeq(items);
    case Alt(alts) => if alts != [] { SoundBodies(alts[0]); }
    case Repeat(body, _, _, _) =>
      PlainDichotomy(body);
      SoundBodies(body);
    case Group(body, _) => SoundBodies(body);
    case _ =>
  }

  lemma {:induction false} SoundSeq(items: seq<Ast>)
    requires NoEmptyLoops(items) && AllPlain(items) && AllWellFormed(items)
    ensures forall lazy :: !DoomedSeq(items, lazy)
    decreases items, 0
  {
    if items != [] {
      SoundBodies(items[0]);
      SoundSeq(items[1..]);
    }
  }

  /** Some budget suffices. */
  ghost predicate Stops(m: Mode, s: string, a: Ast, o: Config)
    requires WellFormed(a) && Sound(s, o)
  {
    exists budget: nat :: !Exec(Env(Program(m, a), m, s), [Thread(0, o)], budget).Exhausted?
  }

  /** A chain of loops comes to an end within some budget exactly when every loop body consumes;
      this does not depend on the subject, the position or the captures. */
  lemma ChainStopsExactly(m: Mode, s: string, a: Ast, o: Config)
    requires WellFormed(a) && LoopChain(a) && Sound(s, o)
    ensures Stops(m, s, a, o) <==> NoEmptyLoop(a)
  {
    hide NoEmptyLoop, LoopChain, Doomed, WellFormed, Outcomes, Productive;
    ChainDichotomy(a);
    if NoEmptyLoop(a) {
      NoEmptyLoopIsProductive(m, s, a);
      ProductiveStops(m, s, a, o);
    } else if Stops(m, s, a, o) {
      var budget: nat :| !Exec(Env(Program(m, a), m, s), [Thread(0, o)], budget).Exhausted?;
      assert [Thread(0, o)] + [] == [Thread(0, o)];
      DoomedExhausts(m, s, a, o, [], budget);
    }
  }

  lemma ProductiveStops(m: Mode, s: string, a: Ast, o: Config)
    requires WellFormed(a) && Sound(s, o) && Productive(m, s, a)
    ensures Stops(m, s, a, o)
  {
    hide WellFormed, Outcomes, Productive;
    CompiledRunsFirstOutcome(m, s, a, o);
    var v := FirstOutcome(Outcomes(m, s, a, false, o));
    assert Reaches(Env(Program(m, a), m, s), [Thread(0, o)], v);
    var n: nat :| Exec(Env(Program(m, a), m, s), [Thread(0, o)], n) == v;
    assert !Exec(Env(Program(m, a), m, s), [Thread(0, o)], n).Exhausted?;
  }

  /** A nullable pattern matches at every position without moving: a doomed one is not refused
      for lack of a match. */
  lemma {:induction false} NullableMatches(m: Mode, s: string, a: Ast, o: Config) returns (x: Config)
    requires Nullable(a) && WellFormed(a) && Sound(s, o)
    ensures Sound(s, x) && x.si == o.si && Matches(m, s, a, o, x)
    decreases a, 0
  {
    hide Iterates, MatchesSeq, MatchesSome, AllNullable, SomeNullable, AllWellFormed;
    match a
    case Empty => x := o;
    case Sequence(items) => x := NullableMatchesSeq(m, s, items, o);
    case Alt(alts) => x := NullableMatchesSome(m, s, alts, o);
    case Repeat(body, min, _, _) => x := NullableMatchesTimes(m, s, body, min, o);
    case Group(body, g) =>
      var inner := NullableMatches(m, s, body, OpenGroup(o, g));
      x := CloseGroup(inner, g);
  }

  lemma {:induction false} NullableMatchesSeq(m: Mode, s: string, items: seq<Ast>, o: Config) returns (x: Config)
    requires AllNullable(items) && AllWellFormed(items) && Sound(s, o)
    ensures Sound(s, x) && x.si == o.si && MatchesSeq(m, s, items, o, x)
    decreases items, 0
  {
    hide Matches, Sound, Nullable, WellFormed;
    if items == [] {
      x := o;
    } else {
      var mid := NullableMatches(m, s, items[0], o);
      x := NullableMatchesSeq(m, s, items[1..], mid);
    }
  }

  lemma {:induction false} NullableMatchesSome(m: Mode, s: string, alts: seq<Ast>, o: Config) returns (x: Config)
    requires SomeNullable(alts) && AllWellFormed(alts) && Sound(s, o)
    ensures Sound(s, x) && x.si == o.si && MatchesSome(m, s, alts, o, x)
    decreases alts, 0
  {
    hide Matches, Sound, Nullable, WellFormed;
    if Nullable(alts[0]) {
      x := NullableMatches(m, s, alts[0], o);
    } else {
      x := NullableMatchesSome(m, s, alts[1..], o);
    }
  }

  lemma {:induction false} NullableMatchesTimes(m: Mode, s: string, body: Ast, k: nat, o: Config) returns (x: Config)
    requires (k == 0 || Nullable(body)) && WellFormed(body) && Sound(s, o)
    ensures Sound(s, x) && x.si == o.si && Iterates(m, s, body, k, o, x)
    decreases body, 1, k
  {
    hide Matches, Sound, Nullable, WellFormed;
    if k == 0 {
      x := o;
    } else {
      var mid := NullableMatches(m, s, body, o);
      x := NullableMatchesTimes(m, s, body, k - 1, mid);
    }
  }
}

/** Compiler correctness: running the code of an AST is running its outcomes in order. */
module RegexCorrectness {
  import opened Wrappers
  import opened RegexSyntax
  import opened RegexCompiler
  import opened RegexSemantics
  import opened RegexMachine

  ghost predicate At(prog: seq<Insn>, base: nat, code: seq<Insn>) {
    base + |code| <= |prog| && prog[base..base + |code|] == code
  }

  lemma AtSplit(prog: seq<Insn>, base: nat, a: seq<Insn>, b: seq<Insn>)
    requires At(prog, base, a + b)
    ensures At(prog, base, a) && At(prog, base + |a|, b)
  {
    assert prog[base..base + |a|] == (a + b)[..|a|] == a;
    assert prog[base + |a|..base + |a| + |b|] == (a + b)[|a|..] == b;
  }

  lemma AtOne(prog: seq<Insn>, base: nat, insn: Insn)
    requires At(prog, base, [insn])
    ensures base < |prog| && prog[base] == insn
  {
    assert prog[base..base + 1][0] == insn;
  }

  /** One thread per configuration, all at `pc`. */
  function Threads(pc: nat, os: seq<Config>): (ts: seq<Thread>)
    ensures |ts| == |os| && forall i | 0 <= i < |os| :: ts[i] == Thread(pc, os[i])
  {
    if os == [] then [] else [Thread(pc, os[0])] + Threads(pc, os[1..])
  }

  lemma ThreadsConcat(pc: nat, a: seq<Config>, b: seq<Config>, rest: seq<Thread>)
    ensures Threads(pc, a + b) + rest == Threads(pc, a) + (Threads(pc, b) + rest)
  {
  }

  lemma ThreadsNil(pc: nat, rest: seq<Thread>)
    ensures Threads(pc, []) + rest == rest
  {
  }

  lemma ThreadsOne(pc: nat, o: Config, rest: seq<Thread>)
    ensures Threads(pc, [o]) + rest == [Thread(pc, o)] + rest
  {
  }

  lemma ThreadsSound(s: string, pc: nat, os: seq<Config>, rest: seq<Thread>)
    requires AllSound(s, os) && AllThreads(s, rest)
    ensures AllThreads(s, Threads(pc, os)) && AllThreads(s, Threads(pc, os) + rest)
  {
  }

  /** The threads are in order and reach the verdict. */
  ghost predicate Goes(e: Env, ts: seq<Thread>, v: Verdict) {
    AllThreads(e.s, ts) && Reaches(e, ts, v)
  }

  /** Take one step: the new threads reach the verdict, so the old ones do. */
  lemma GoesStep(e: Env, t: Thread, rest: seq<Thread>, v: Verdict)
    requires Sound(e.s, t.o) && AllThreads(e.s, rest)
    requires Step(e, t).Next? && Goes(e, Step(e, t).ts + rest, v)
    ensures Goes(e, [t] + rest, v)
  {
    ReachesStep(e, t, rest, v);
  }

  /** If every thread of `os` at `from` may be replaced by the outcomes in `outs[i]` at `to`,
      whatever follows, then so may the whole list. Stated for one more element in front. */
  lemma GoesCons(e: Env, from: nat, to: nat, o: Config, first: seq<Config>,
    tail: seq<Config>, others: seq<Config>, rest: seq<Thread>, v: Verdict)
    requires Sound(e.s, o) && AllSound(e.s, first) && AllSound(e.s, tail) && AllSound(e.s, others)
    requires AllThreads(e.s, rest)
    requires Goes(e, Threads(to, first + others) + rest, v)
    requires Goes(e, Threads(to, others) + rest, v) ==> Goes(e, Threads(from, tail) + rest, v)
    ensures Goes(e, Threads(to, first) + (Threads(from, tail) + rest), v)
  {
    ThreadsConcat(to, first, others, rest);
    ThreadsSound(e.s, to, first, []);
    ThreadsSound(e.s, to, others, rest);
    ThreadsSound(e.s, from, tail, rest);
    ThreadsSound(e.s, to, first, Threads(from, tail) + rest);
    assert Threads(to, first) + [] == Threads(to, first);
    ReachesReplaceTail(e, Threads(to, first), Threads(to, others) + rest, Threads(from, tail) + rest, v);
  }

  // ----- simulation, one construct at a time -----

  lemma {:induction false} Simulates(e: Env, a: Ast, lazy: bool, base: nat, o: Config, rest: seq<Thread>, v: Verdict)
    requires WellFormed(a) && Sound(e.s, o) && AllThreads(e.s, rest) && Productive(e.m, e.s, a)
    requires At(e.prog, base, Code(e.m, a, lazy, base))
    requires Goes(e, Threads(base + Size(a), Outcomes(e.m, e.s, a, lazy, o)) + rest, v)
    ensures Goes(e, [Thread(base, o)] + rest, v)
    decreases a, 0
  {
    hide CodeSeq, CodeAlt, CodeRepeat, SizeAll, SizeAlt, SizeRepeat, Goes, At, Reaches, Threads, Sound,
         OutcomesSeq, OutcomesAlt, OutcomesRepeat, OutcomesGroup, Consumes;
    match a
    case Empty => ThreadsOne(base, o, rest);
    case Sequence(items) =>
      SimulatesSeq(e, items, lazy, base, [o], rest, v);
      ThreadsOne(base, o, rest);
    case Alt(alts) => SimulatesAlt(e, alts, lazy, base, base + Size(a), o, rest, v);
    case Repeat(body, min, max, lz) => SimulatesRepeat(e, body, min, max, lz || lazy, base, o, rest, v);
    case Group(body, g) => SimulatesGroup(e, body, g, lazy, base, o, rest, v);
    case _ => SimulatesLeaf(e, a, base, o, rest, v);
  }

  lemma SimulatesLeaf(e: Env, a: Ast, base: nat, o: Config, rest: seq<Thread>, v: Verdict)
    requires IsLeaf(a) && Sound(e.s, o) && AllThreads(e.s, rest)
    requires At(e.prog, base, [Leaf(e.m, a)])
    requires var next := Advance(e.m, e.s, Leaf(e.m, a), o);
      Goes(e, Threads(base + 1, if next.Some? then [next.value] else []) + rest, v)
    ensures Goes(e, [Thread(base, o)] + rest, v)
  {
    hide Advance;
    AtOne(e.prog, base, Leaf(e.m, a));
    var next := Advance(e.m, e.s, Leaf(e.m, a), o);
    assert Step(e, Thread(base, o)) == Next(Threads(base + 1, if next.Some? then [next.value] else []));
    GoesStep(e, Thread(base, o), rest, v);
  }

  lemma {:induction false} SimulatesAll(e: Env, a: Ast, lazy: bool, base: nat, os: seq<Config>, rest: seq<Thread>, v: Verdict)
    requires WellFormed(a) && AllSound(e.s, os) && AllThreads(e.s, rest) && Productive(e.m, e.s, a)
    requires At(e.prog, base, Code(e.m, a, lazy, base))
    requires Goes(e, Threads(base + Size(a), OutcomesAll(e.m, e.s, a, lazy, os)) + rest, v)
    ensures Goes(e, Threads(base, os) + rest, v)
    decreases a, 1, |os|
  {
    hide Code, Size, Outcomes, WellFormed, Productive, Goes, At;
    var end := base + Size(a);
    if os == [] {
      ThreadsNil(base, rest);
      ThreadsNil(end, rest);
    } else {
      var first := Outcomes(e.m, e.s, a, lazy, os[0]);
      var others := OutcomesAll(e.m, e.s, a, lazy, os[1..]);
      if Goes(e, Threads(end, others) + rest, v) {
        SimulatesAll(e, a, lazy, base, os[1..], rest, v);
      }
      GoesCons(e, base, end, os[0], first, os[1..], others, rest, v);
      ThreadsSound(e.s, base, os[1..], rest);
      Simulates(e, a, lazy, base, os[0], Threads(base, os[1..]) + rest, v);
      assert Threads(base, os) + rest == [Thread(base, os[0])] + (Threads(base, os[1..]) + rest);
    }
  }

  lemma {:induction false} SimulatesSeq(e: Env, items: seq<Ast>, lazy: bool, base: nat, os: seq<Config>, rest: seq<Thread>, v: Verdict)
    requires AllWellFormed(items) && AllSound(e.s, os) && AllThreads(e.s, rest) && AllProductive(e.m, e.s, items)
    requires At(e.prog, base, CodeSeq(e.m, items, lazy, base))
    requires Goes(e, Threads(base + SizeAll(items), OutcomesSeq(e.m, e.s, items, lazy, os)) + rest, v)
    ensures Goes(e, Threads(base, os) + rest, v)
    decreases items, 0
  {
    hide Code, Size, OutcomesAll, WellFormed, Productive, Goes, At;
    if items != [] {
      var mid := base + Size(items[0]);
      AtSplit(e.prog, base, Code(e.m, items[0], lazy, base), CodeSeq(e.m, items[1..], lazy, mid));
      SimulatesSeq(e, items[1..], lazy, mid, OutcomesAll(e.m, e.s, items[0], lazy, os), rest, v);
      SimulatesAll(e, items[0], lazy, base, os, rest, v);
    }
  }

  /** Threads parked on a jump may be moved to its target. */
  lemma {:induction false} SimulatesJump(e: Env, pc: nat, target: nat, os: seq<Config>, rest: seq<Thread>, v: Verdict)
    requires AllSound(e.s, os) && AllThreads(e.s, rest) && At(e.prog, pc, [IJump(target)])
    requires Goes(e, Threads(target, os) + rest, v)
    ensures Goes(e, Threads(pc, os) + rest, v)
    decreases |os|
  {
    hide Goes, At, Sound;
    if os == [] {
      ThreadsNil(pc, rest);
      ThreadsNil(target, rest);
    } else {
      AtOne(e.prog, pc, IJump(target));
      if Goes(e, Threads(target, os[1..]) + rest, v) {
        SimulatesJump(e, pc, target, os[1..], rest, v);
      }
      assert [os[0]] + os[1..] == os;
      GoesCons(e, pc, target, os[0], [os[0]], os[1..], os[1..], rest, v);
      ThreadsSound(e.s, pc, os[1..], rest);
      assert Step(e, Thread(pc, os[0])) == Next(Threads(target, [os[0]]));
      GoesStep(e, Thread(pc, os[0]), Threads(pc, os[1..]) + rest, v);
      assert Threads(pc, os) + rest == [Thread(pc, os[0])] + (Threads(pc, os[1..]) + rest);
    }
  }

  lemma {:induction false} SimulatesSave(e: Env, pc: nat, g: nat, os: seq<Config>, rest: seq<Thread>, v: Verdict)
    requires AllSound(e.s, os) && AllThreads(e.s, rest) && At(e.prog, pc, [ISaveEnd(g)])
    requires Goes(e, Threads(pc + 1, CloseAll(os, g)) + rest, v)
    ensures Goes(e, Threads(pc, os) + rest, v)
    decreases |os|
  {
    hide Goes, At;
    if os == [] {
      ThreadsNil(pc, rest);
      ThreadsNil(pc + 1, rest);
    } else {
      AtOne(e.prog, pc, ISaveEnd(g));
      var first, others := [CloseGroup(os[0], g)], CloseAll(os[1..], g);
      CloseAllSound(e.s, os[..1], g);
      CloseAllSound(e.s, os[1..], g);
      assert CloseAll(os[..1], g) == first;
      if Goes(e, Threads(pc + 1, others) + rest, v) {
        SimulatesSave(e, pc, g, os[1..], rest, v);
      }
      GoesCons(e, pc, pc + 1, os[0], first, os[1..], others, rest, v);
      ThreadsSound(e.s, pc, os[1..], rest);
      assert Step(e, Thread(pc, os[0])) == Next(Threads(pc + 1, first));
      GoesStep(e, Thread(pc, os[0]), Threads(pc, os[1..]) + rest, v);
      assert Threads(pc, os) + rest == [Thread(pc, os[0])] + (Threads(pc, os[1..]) + rest);
    }
  }

  lemma {:induction false} SimulatesGroup(
    e: Env, body: Ast, g: nat, lazy: bool, base: nat, o: Config, rest: seq<Thread>, v: Verdict)
    requires WellFormed(body) && Sound(e.s, o) && AllThreads(e.s, rest) && Productive(e.m, e.s, body)
    requires At(e.prog, base, [ISaveStart(g)] + Code(e.m, body, lazy, base + 1) + [ISaveEnd(g)])
    requires Goes(e, Threads(base + 2 + Size(body), OutcomesGroup(e.m, e.s, body, g, lazy, o)) + rest, v)
    ensures Goes(e, [Thread(base, o)] + rest, v)
    decreases body, 1
  {
    hide Code, Size, Outcomes, WellFormed, Productive, Goes, At;
    var code := Code(e.m, body, lazy, base + 1);
    AtSplit(e.prog, base, [ISaveStart(g)] + code, [ISaveEnd(g)]);
    AtSplit(e.prog, base, [ISaveStart(g)], code);
    AtOne(e.prog, base, ISaveStart(g));
    var start := OpenGroup(o, g);
    SimulatesSave(e, base + 1 + Size(body), g, Outcomes(e.m, e.s, body, lazy, start), rest, v);
    Simulates(e, body, lazy, base + 1, start, rest, v);
    assert Step(e, Thread(base, o)) == Next([Thread(base + 1, start)]);
    GoesStep(e, Thread(base, o), rest, v);
  }

  lemma GoesReplaceTail(e: Env, front: seq<Thread>, old_: seq<Thread>, new_: seq<Thread>, v: Verdict)
    requires AllThreads(e.s, front) && AllThreads(e.s, old_) && AllThreads(e.s, new_)
    requires Goes(e, front + old_, v)
    requires Goes(e, old_, v) ==> Goes(e, new_, v)
    ensures Goes(e, front + new_, v)
  {
    ReachesReplaceTail(e, front, old_, new_, v);
  }

  /** What waits behind the entered branch of a fork. */
  function Behind(lazy: bool, skip: nat, o: Config, rest: seq<Thread>): seq<Thread> {
    if lazy then rest else [Thread(skip, o)] + rest
  }

  /** A fork tries its preferred branch with the other branch waiting behind it. */
  lemma SimulatesFork(e: Env, lazy: bool, base: nat, enter: nat, skip: nat, o: Config,
    entered: seq<Config>, rest: seq<Thread>, v: Verdict)
    requires Sound(e.s, o) && AllSound(e.s, entered) && AllThreads(e.s, rest)
    requires At(e.prog, base, [Fork(lazy, enter, skip)])
    requires Goes(e, Threads(skip, Choice(lazy, entered, o)) + rest, v)
    requires var r := Behind(lazy, skip, o, rest);
      Goes(e, Threads(skip, entered) + r, v) ==> Goes(e, [Thread(enter, o)] + r, v)
    ensures Goes(e, [Thread(base, o)] + rest, v)
  {
    hide Goes, At;
    AtOne(e.prog, base, Fork(lazy, enter, skip));
    var skipper, enterer := [Thread(skip, o)], [Thread(enter, o)];
    assert Threads(skip, [o]) == skipper;
    if lazy {
      ThreadsConcat(skip, [o], entered, rest);
      ThreadsSound(e.s, skip, entered, rest);
      GoesReplaceTail(e, skipper, Threads(skip, entered) + rest, enterer + rest, v);
      assert skipper + (enterer + rest) == Step(e, Thread(base, o)).ts + rest;
    } else {
      ThreadsConcat(skip, entered, [o], rest);
      assert enterer + (skipper + rest) == Step(e, Thread(base, o)).ts + rest;
    }
    GoesStep(e, Thread(base, o), rest, v);
  }

  lemma {:induction false} SimulatesAlt(
    e: Env, alts: seq<Ast>, lazy: bool, base: nat, end: nat, o: Config, rest: seq<Thread>, v: Verdict)
    requires |alts| > 0 && AllWellFormed(alts) && Sound(e.s, o) && AllThreads(e.s, rest)
    requires AllProductive(e.m, e.s, alts) && At(e.prog, base, CodeAlt(e.m, alts, lazy, base, end))
    requires Goes(e, Threads(end, OutcomesAlt(e.m, e.s, alts, lazy, o)) + rest, v)
    ensures Goes(e, [Thread(base, o)] + rest, v)
    decreases alts, 0
  {
    hide Code, Size, Outcomes, WellFormed, Productive, Goes, At;
    var first := Outcomes(e.m, e.s, alts[0], lazy, o);
    var others := OutcomesAlt(e.m, e.s, alts[1..], lazy, o);
    if |alts| == 1 {
      AtSplit(e.prog, base, Code(e.m, alts[0], lazy, base), [IJump(end)]);
      assert first + others == first;
      SimulatesJump(e, base + Size(alts[0]), end, first, rest, v);
      Simulates(e, alts[0], lazy, base, o, rest, v);
    } else {
      var next := base + 2 + Size(alts[0]);
      var split, code := [ISplit(base + 1, next)], Code(e.m, alts[0], lazy, base + 1);
      AtSplit(e.prog, base, split + code + [IJump(end)], CodeAlt(e.m, alts[1..], lazy, next, end));
      AtSplit(e.prog, base, split + code, [IJump(end)]);
      AtSplit(e.prog, base, split, code);
      if Goes(e, Threads(end, others) + rest, v) {
        SimulatesAlt(e, alts[1..], lazy, next, end, o, rest, v);
      }
      GoesBranch(e, end, next, o, first, others, rest, v);
      var waiting := [Thread(next, o)] + rest;
      SimulatesJump(e, base + 1 + Size(alts[0]), end, first, waiting, v);
      Simulates(e, alts[0], lazy, base + 1, o, waiting, v);
      GoesSplit(e, base, next, o, rest, v);
    }
  }

  /** The later branches of an alternation wait behind the outcomes of the first. */
  lemma GoesBranch(e: Env, end: nat, next: nat, o: Config, first: seq<Config>, others: seq<Config>,
    rest: seq<Thread>, v: Verdict)
    requires Sound(e.s, o) && AllSound(e.s, first) && AllSound(e.s, others) && AllThreads(e.s, rest)
    requires Goes(e, Threads(end, first + others) + rest, v)
    requires Goes(e, Threads(end, others) + rest, v) ==> Goes(e, [Thread(next, o)] + rest, v)
    ensures Goes(e, Threads(end, first) + ([Thread(next, o)] + rest), v)
  {
    hide Goes;
    ThreadsConcat(end, first, others, rest);
    ThreadsSound(e.s, end, first, []);
    ThreadsSound(e.s, end, others, rest);
    GoesReplaceTail(e, Threads(end, first), Threads(end, others) + rest, [Thread(next, o)] + rest, v);
  }

  lemma GoesSplit(e: Env, base: nat, next: nat, o: Config, rest: seq<Thread>, v: Verdict)
    requires Sound(e.s, o) && AllThreads(e.s, rest) && At(e.prog, base, [ISplit(base + 1, next)])
    requires Goes(e, [Thread(base + 1, o)] + ([Thread(next, o)] + rest), v)
    ensures Goes(e, [Thread(base, o)] + rest, v)
  {
    hide Goes;
    AtOne(e.prog, base, ISplit(base + 1, next));
    assert Step(e, Thread(base, o)).ts + rest == [Thread(base + 1, o)] + ([Thread(next, o)] + rest);
    GoesStep(e, Thread(base, o), rest, v);
  }

  lemma {:induction false} SimulatesRepeat(
    e: Env, body: Ast, min: nat, max: Option<nat>, lazy: bool, base: nat, o: Config, rest: seq<Thread>, v: Verdict)
    requires WellFormed(body) && (max.Some? ==> min <= max.value) && Sound(e.s, o) && AllThreads(e.s, rest)
    requires Productive(e.m, e.s, body) && (max.None? ==> Consumes(e.m, e.s, body))
    requires At(e.prog, base, CodeRepeat(e.m, body, min, max, lazy, base))
    requires Goes(e, Threads(base + SizeRepeat(body, min, max), OutcomesRepeat(e.m, e.s, body, min, max, lazy, o)) + rest, v)
    ensures Goes(e, [Thread(base, o)] + rest, v)
    decreases body, 5
  {
    hide Size, Code, CodeTimes, CodeOptional, CodeStar, Outcomes, OutcomesTimes, OutcomesOptional, OutcomesStarAll,
         WellFormed, Productive, Consumes, Goes, At;
    var code := CodeTimes(e.m, body, min, lazy, base);
    var mid := base + |code|;
    var head := OutcomesTimes(e.m, e.s, body, min, lazy, [o]);
    if max.Some? {
      AtSplit(e.prog, base, code, CodeOptional(e.m, body, max.value - min, lazy, mid));
      SimulatesOptional(e, body, max.value - min, lazy, mid, head, rest, v);
    } else {
      AtSplit(e.prog, base, code, CodeStar(e.m, body, lazy, mid));
      SimulatesStarAll(e, body, lazy, mid, 0, head, rest, v);
    }
    SimulatesTimes(e, body, min, lazy, base, [o], rest, v);
    ThreadsOne(base, o, rest);
  }

  lemma {:induction false} SimulatesTimes(
    e: Env, body: Ast, k: nat, lazy: bool, base: nat, os: seq<Config>, rest: seq<Thread>, v: Verdict)
    requires WellFormed(body) && AllSound(e.s, os) && AllThreads(e.s, rest) && Productive(e.m, e.s, body)
    requires At(e.prog, base, CodeTimes(e.m, body, k, lazy, base))
    requires Goes(e, Threads(base + Copies(k, Size(body)), OutcomesTimes(e.m, e.s, body, k, lazy, os)) + rest, v)
    ensures Goes(e, Threads(base, os) + rest, v)
    decreases body, 2, k
  {
    hide Code, Size, OutcomesAll, WellFormed, Productive, Goes, At;
    if k != 0 {
      var mid := base + Size(body);
      AtSplit(e.prog, base, Code(e.m, body, lazy, base), CodeTimes(e.m, body, k - 1, lazy, mid));
      SimulatesTimes(e, body, k - 1, lazy, mid, OutcomesAll(e.m, e.s, body, lazy, os), rest, v);
      SimulatesAll(e, body, lazy, base, os, rest, v);
    }
  }

  lemma {:induction false} SimulatesOptional(
    e: Env, body: Ast, k: nat, lazy: bool, base: nat, os: seq<Config>, rest: seq<Thread>, v: Verdict)
    requires WellFormed(body) && AllSound(e.s, os) && AllThreads(e.s, rest) && Productive(e.m, e.s, body)
    requires At(e.prog, base, CodeOptional(e.m, body, k, lazy, base))
    requires Goes(e, Threads(base + Copies(k, 1 + Size(body)), OutcomesOptional(e.m, e.s, body, k, lazy, os)) + rest, v)
    ensures Goes(e, Threads(base, os) + rest, v)
    decreases body, 3, k
  {
    hide Code, Size, OneOptional, OutcomesMaybe, WellFormed, Productive, Goes, At;
    if k != 0 {
      var mid := base + 1 + Size(body);
      AtSplit(e.prog, base, OneOptional(e.m, body, lazy, base), CodeOptional(e.m, body, k - 1, lazy, mid));
      SimulatesOptional(e, body, k - 1, lazy, mid, OutcomesMaybe(e.m, e.s, body, lazy, os), rest, v);
      SimulatesMaybe(e, body, lazy, base, os, rest, v);
    }
  }

  lemma {:induction false} SimulatesMaybe(
    e: Env, body: Ast, lazy: bool, base: nat, os: seq<Config>, rest: seq<Thread>, v: Verdict)
    requires WellFormed(body) && AllSound(e.s, os) && AllThreads(e.s, rest) && Productive(e.m, e.s, body)
    requires At(e.prog, base, OneOptional(e.m, body, lazy, base))
    requires Goes(e, Threads(base + 1 + Size(body), OutcomesMaybe(e.m, e.s, body, lazy, os)) + rest, v)
    ensures Goes(e, Threads(base, os) + rest, v)
    decreases body, 2, |os|
  {
    hide Code, Size, Outcomes, Choice, WellFormed, Productive, Goes, At;
    var end := base + 1 + Size(body);
    if os == [] {
      ThreadsNil(base, rest);
      ThreadsNil(end, rest);
    } else {
      var o := os[0];
      var entered := Outcomes(e.m, e.s, body, lazy, o);
      var others := OutcomesMaybe(e.m, e.s, body, lazy, os[1..]);
      if Goes(e, Threads(end, others) + rest, v) {
        SimulatesMaybe(e, body, lazy, base, os[1..], rest, v);
      }
      ChoiceSound(e.s, lazy, entered, o);
      GoesCons(e, base, end, o, Choice(lazy, entered, o), os[1..], others, rest, v);
      var waiting := Threads(base, os[1..]) + rest;
      ThreadsSound(e.s, base, os[1..], rest);
      AtSplit(e.prog, base, [Fork(lazy, base + 1, end)], Code(e.m, body, lazy, base + 1));
      var r := Behind(lazy, end, o, waiting);
      if Goes(e, Threads(end, entered) + r, v) {
        Simulates(e, body, lazy, base + 1, o, r, v);
      }
      SimulatesFork(e, lazy, base, base + 1, end, o, entered, waiting, v);
      assert Threads(base, os) + rest == [Thread(base, o)] + waiting;
    }
  }

  lemma ChoiceSound(s: string, lazy: bool, entered: seq<Config>, o: Config)
    requires Sound(s, o) && AllSound(s, entered)
    ensures AllSound(s, Choice(lazy, entered, o))
  {
  }

  lemma StarCode(e: Env, body: Ast, lazy: bool, base: nat)
    requires WellFormed(body) && At(e.prog, base, CodeStar(e.m, body, lazy, base))
    ensures At(e.prog, base, [Fork(lazy, base + 1, base + 2 + Size(body))])
    ensures At(e.prog, base + 1, Code(e.m, body, lazy, base + 1))
    ensures At(e.prog, base + 1 + Size(body), [IJump(base)])
  {
    hide Code, Size, At;
    var fork, code := [Fork(lazy, base + 1, base + 2 + Size(body))], Code(e.m, body, lazy, base + 1);
    AtSplit(e.prog, base, fork + code, [IJump(base)]);
    AtSplit(e.prog, base, fork, code);
  }

  /** Every iteration of a consuming body makes progress, so none is dropped. */
  lemma StarUnfold(e: Env, body: Ast, lazy: bool, o: Config)
    requires WellFormed(body) && Sound(e.s, o) && Consumes(e.m, e.s, body)
    ensures var once := Outcomes(e.m, e.s, body, lazy, o);
      && o.si <= |e.s| && (forall x | x in once :: o.si + 1 <= x.si)
      && OutcomesStar(e.m, e.s, body, lazy, o)
         == Choice(lazy, OutcomesStarAll(e.m, e.s, body, lazy, o.si + 1, once), o)
  {
    hide Outcomes, Matches, OutcomesStarAll;
    forall x | x in Outcomes(e.m, e.s, body, lazy, o)
      ensures o.si < x.si
    {
      OutcomeMatches(e.m, e.s, body, lazy, o, x);
    }
  }

  lemma {:induction false} SimulatesStar(
    e: Env, body: Ast, lazy: bool, base: nat, o: Config, rest: seq<Thread>, v: Verdict)
    requires WellFormed(body) && Sound(e.s, o) && AllThreads(e.s, rest)
    requires Productive(e.m, e.s, body) && Consumes(e.m, e.s, body)
    requires At(e.prog, base, CodeStar(e.m, body, lazy, base))
    requires Goes(e, Threads(base + 2 + Size(body), OutcomesStar(e.m, e.s, body, lazy, o)) + rest, v)
    ensures Goes(e, [Thread(base, o)] + rest, v)
    decreases body, 3, |e.s| + 1 - o.si, 1
  {
    hide Code, CodeStar, Size, Outcomes, OutcomesStar, OutcomesStarAll, Choice, WellFormed, Productive, Consumes,
         Goes, At, Fork, Threads, Sound;
    StarUnfold(e, body, lazy, o);
    StarCode(e, body, lazy, base);
    var end := base + 2 + Size(body);
    var entered := OutcomesStarAll(e.m, e.s, body, lazy, o.si + 1, Outcomes(e.m, e.s, body, lazy, o));
    var r := Behind(lazy, end, o, rest);
    if Goes(e, Threads(end, entered) + r, v) {
      SimulatesLoop(e, body, lazy, base, o, r, v);
    }
    SimulatesFork(e, lazy, base, base + 1, end, o, entered, rest, v);
  }

  /** One turn of the loop and everything after it. */
  lemma {:induction false} SimulatesLoop(
    e: Env, body: Ast, lazy: bool, base: nat, o: Config, rest: seq<Thread>, v: Verdict)
    requires WellFormed(body) && Sound(e.s, o) && AllThreads(e.s, rest)
    requires Productive(e.m, e.s, body) && Consumes(e.m, e.s, body)
    requires At(e.prog, base, CodeStar(e.m, body, lazy, base))
    requires var once := Outcomes(e.m, e.s, body, lazy, o);
      && (forall x | x in once :: o.si + 1 <= x.si) && o.si <= |e.s|
      && Goes(e, Threads(base + 2 + Size(body), OutcomesStarAll(e.m, e.s, body, lazy, o.si + 1, once)) + rest, v)
    ensures Goes(e, [Thread(base + 1, o)] + rest, v)
    decreases body, 3, |e.s| + 1 - o.si, 0
  {
    hide Code, CodeStar, Size, Outcomes, OutcomesStarAll, WellFormed, Productive, Consumes, Goes, At, Threads, Sound;
    StarCode(e, body, lazy, base);
    var once := Outcomes(e.m, e.s, body, lazy, o);
    SimulatesStarAll(e, body, lazy, base, o.si + 1, once, rest, v);
    SimulatesJump(e, base + 1 + Size(body), base, once, rest, v);
    Simulates(e, body, lazy, base + 1, o, rest, v);
  }

  lemma {:induction false} SimulatesStarAll(
    e: Env, body: Ast, lazy: bool, base: nat, lo: nat, os: seq<Config>, rest: seq<Thread>, v: Verdict)
    requires WellFormed(body) && AllSound(e.s, os) && AllThreads(e.s, rest) && lo <= |e.s| + 1
    requires forall o | o in os :: lo <= o.si
    requires Productive(e.m, e.s, body) && Consumes(e.m, e.s, body)
    requires At(e.prog, base, CodeStar(e.m, body, lazy, base))
    requires Goes(e, Threads(base + 2 + Size(body), OutcomesStarAll(e.m, e.s, body, lazy, lo, os)) + rest, v)
    ensures Goes(e, Threads(base, os) + rest, v)
    decreases body, 3, |e.s| + 1 - lo, 2, |os|
  {
    hide Size, CodeStar, OutcomesStar, WellFormed, Productive, Consumes, Goes, At;
    var end := base + 2 + Size(body);
    if os == [] {
      ThreadsNil(base, rest);
      ThreadsNil(end, rest);
    } else {
      var first := OutcomesStar(e.m, e.s, body, lazy, os[0]);
      var others := OutcomesStarAll(e.m, e.s, body, lazy, lo, os[1..]);
      if Goes(e, Threads(end, others) + rest, v) {
        SimulatesStarAll(e, body, lazy, base, lo, os[1..], rest, v);
      }
      GoesCons(e, base, end, os[0], first, os[1..], others, rest, v);
      ThreadsSound(e.s, base, os[1..], rest);
      SimulatesStar(e, body, lazy, base, os[0], Threads(base, os[1..]) + rest, v);
      assert Threads(base, os) + rest == [Thread(base, os[0])] + (Threads(base, os[1..]) + rest);
    }
  }

  // ----- main results -----

  /** The verdict the ordered semantics asks for: the first outcome, with the whole match
      recorded as capture 0. */
  function FirstOutcome(os: seq<Config>): Verdict {
    if os == [] then Failed else Matched(CloseGroup(os[0], 0))
  }

  /** Compiler correctness with priority: from any configuration the compiled pattern stops,
      and its verdict is the first outcome of the ordered semantics. */
  lemma CompiledRunsFirstOutcome(m: Mode, s: string, a: Ast, o: Config)
    requires WellFormed(a) && Sound(s, o) && Productive(m, s, a)
    ensures Reaches(Env(Program(m, a), m, s), [Thread(0, o)], FirstOutcome(Outcomes(m, s, a, false, o)))
  {
    hide Outcomes, Code, Size, Productive, WellFormed, Matches;
    var e := Env(Program(m, a), m, s);
    var os := Outcomes(m, s, a, false, o);
    var v := FirstOutcome(os);
    assert At(e.prog, 0, Code(m, a, false, 0) + [IMatch]);
    AtSplit(e.prog, 0, Code(m, a, false, 0), [IMatch]);
    AtOne(e.prog, Size(a), IMatch);
    ThreadsSound(s, Size(a), os, []);
    assert Exec(e, Threads(Size(a), os) + [], 1) == v;
    Simulates(e, a, false, 0, o, [], v);
    assert [Thread(0, o)] + [] == [Thread(0, o)];
  }
}

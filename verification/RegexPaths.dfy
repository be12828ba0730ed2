/** Search soundness and completeness for every pattern, loops over empty bodies included.
    A path follows one thread through the program and ignores all others. */
module RegexPaths {
  import opened Wrappers
  import opened RegexSyntax
  import opened RegexCompiler
  import opened RegexSemantics
  import opened RegexMachine
  import opened RegexCorrectness

  ghost predicate Succ(e: Env, t: Thread, u: Thread)
    requires Sound(e.s, t.o)
  {
    Step(e, t).Next? && u in Step(e, t).ts
  }

  ghost predicate Path(e: Env, t: Thread, n: nat, u: Thread)
    requires Sound(e.s, t.o)
    decreases n
  {
    if n == 0 then t == u
    else exists mid :: Succ(e, t, mid) && Path(e, mid, n - 1, u)
  }

  ghost predicate Leads(e: Env, t: Thread, u: Thread)
    requires Sound(e.s, t.o)
  {
    exists n: nat :: Path(e, t, n, u)
  }

  lemma {:induction false} PathAppend(e: Env, t: Thread, j: nat, u: Thread, k: nat, w: Thread)
    requires Sound(e.s, t.o) && Sound(e.s, u.o) && Path(e, t, j, u) && Path(e, u, k, w)
    ensures Path(e, t, j + k, w)
    decreases j
  {
    hide Step, Sound;
    if j != 0 {
      var mid :| Succ(e, t, mid) && Path(e, mid, j - 1, u);
      PathAppend(e, mid, j - 1, u, k, w);
    }
  }

  lemma LeadsTrans(e: Env, t: Thread, u: Thread, w: Thread)
    requires Sound(e.s, t.o) && Sound(e.s, u.o) && Leads(e, t, u) && Leads(e, u, w)
    ensures Leads(e, t, w)
  {
    var j: nat :| Path(e, t, j, u);
    var k: nat :| Path(e, u, k, w);
    PathAppend(e, t, j, u, k, w);
  }

  lemma LeadsStep(e: Env, t: Thread, u: Thread, w: Thread)
    requires Sound(e.s, t.o) && Succ(e, t, u) && Leads(e, u, w)
    ensures Leads(e, t, w)
  {
    var k: nat :| Path(e, u, k, w);
    assert Path(e, t, k + 1, w);
  }

  lemma LeadsSelf(e: Env, t: Thread)
    requires Sound(e.s, t.o)
    ensures Leads(e, t, t)
  {
    assert Path(e, t, 0, t);
  }

  // ----- the machine explores paths, and all of them -----

  lemma {:induction false} MatchedHasPath(e: Env, ts: seq<Thread>, budget: nat, c: Config)
    returns (t: Thread, u: Thread)
    requires AllThreads(e.s, ts) && Exec(e, ts, budget) == Matched(c)
    ensures t in ts && Sound(e.s, u.o) && Leads(e, t, u) && Step(e, u) == Accept(c)
    decreases budget
  {
    hide Step;
    match Step(e, ts[0])
    case Halt =>
    case Accept(_) =>
      t, u := ts[0], ts[0];
      LeadsSelf(e, t);
    case Next(more) =>
      var v;
      v, u := MatchedHasPath(e, more + ts[1..], budget - 1, c);
      if v in more {
        t := ts[0];
        LeadsStep(e, t, v, u);
      } else {
        t := v;
      }
  }

  /** The last instruction is the only one that accepts, and no instruction leads out. */
  ghost predicate Closed(prog: seq<Insn>) {
    |prog| > 0 && prog[|prog| - 1] == IMatch && Contained(prog[..|prog| - 1], 0, |prog| - 1)
  }

  ghost predicate InProgram(prog: seq<Insn>, ts: seq<Thread>) {
    forall t | t in ts :: t.pc < |prog|
  }

  /** What one step of a closed program can and cannot do. */
  lemma StepInside(e: Env, t: Thread)
    requires Closed(e.prog) && Sound(e.s, t.o) && t.pc < |e.prog|
    ensures !Step(e, t).Halt?
    ensures Step(e, t).Accept? ==> t.pc == |e.prog| - 1
    ensures Step(e, t).Next? ==>
      && InProgram(e.prog, Step(e, t).ts)
      && forall u | u in Step(e, t).ts :: KeepsZero(t.o, u.o)
  {
    hide Advance, Sound;
    var n := |e.prog| - 1;
    if t.pc < n {
      assert e.prog[t.pc] == e.prog[..n][t.pc];
    }
  }

  ghost predicate KeepsZero(o: Config, x: Config) {
    |x.caps| == |o.caps| && (|o.caps| > 0 ==> x.caps[0] == o.caps[0])
  }

  /** The program counter never leaves the program. */
  lemma {:induction false} FailedHasNoPath(e: Env, ts: seq<Thread>, budget: nat, t: Thread, n: nat, u: Thread)
    requires AllThreads(e.s, ts) && Closed(e.prog) && InProgram(e.prog, ts)
    requires Exec(e, ts, budget) == Failed && t in ts && Path(e, t, n, u) && Sound(e.s, u.o)
    ensures !Step(e, u).Accept?
    decreases budget
  {
    hide Step, Closed, Sound;
    StepInside(e, ts[0]);
    var more := Step(e, ts[0]).ts;
    if t != ts[0] {
      FailedHasNoPath(e, more + ts[1..], budget - 1, t, n, u);
    } else if n != 0 {
      var mid :| Succ(e, t, mid) && Path(e, mid, n - 1, u);
      FailedHasNoPath(e, more + ts[1..], budget - 1, mid, n - 1, u);
    }
  }

  // ----- every match is a path through the code -----

  lemma {:induction false} MatchLeads(e: Env, a: Ast, lazy: bool, base: nat, o: Config, x: Config)
    requires WellFormed(a) && Sound(e.s, o) && At(e.prog, base, Code(e.m, a, lazy, base))
    requires Matches(e.m, e.s, a, o, x)
    ensures Sound(e.s, x) && Leads(e, Thread(base, o), Thread(base + Size(a), x))
    decreases a, 0
  {
    hide CodeSeq, CodeAlt, CodeRepeat, SizeAll, SizeAlt, SizeRepeat, At, Leads, Sound,
         MatchesSeq, MatchesSome, MatchesGroup;
    match a
    case Empty => LeadsSelf(e, Thread(base, o));
    case Sequence(items) => MatchLeadsSeq(e, items, lazy, base, o, x);
    case Alt(alts) => MatchLeadsAlt(e, alts, lazy, base, base + Size(a), o, x);
    case Repeat(body, min, max, lz) =>
      var k: nat :| min <= k && (max.Some? ==> k <= max.value) && Iterates(e.m, e.s, body, k, o, x);
      MatchLeadsRepeat(e, body, min, max, lz || lazy, base, k, o, x);
    case Group(body, g) => MatchLeadsGroup(e, body, g, lazy, base, o, x);
    case _ => MatchLeadsLeaf(e, a, base, o, x);
  }

  lemma LeafMatch(m: Mode, s: string, a: Ast, o: Config, x: Config)
    requires IsLeaf(a) && Sound(s, o)
    ensures Matches(m, s, a, o, x) <==> Advance(m, s, Leaf(m, a), o) == Some(x)
    ensures Matches(m, s, a, o, x) ==> Sound(s, x)
  {
  }

  lemma MatchLeadsLeaf(e: Env, a: Ast, base: nat, o: Config, x: Config)
    requires IsLeaf(a) && Sound(e.s, o) && At(e.prog, base, [Leaf(e.m, a)]) && Matches(e.m, e.s, a, o, x)
    ensures Sound(e.s, x) && Leads(e, Thread(base, o), Thread(base + 1, x))
  {
    hide Advance, Matches, Sound, At;
    AtOne(e.prog, base, Leaf(e.m, a));
    LeafMatch(e.m, e.s, a, o, x);
    LeadsSelf(e, Thread(base + 1, x));
    LeadsStep(e, Thread(base, o), Thread(base + 1, x), Thread(base + 1, x));
  }

  lemma {:induction false} MatchLeadsSeq(e: Env, items: seq<Ast>, lazy: bool, base: nat, o: Config, x: Config)
    requires AllWellFormed(items) && Sound(e.s, o) && At(e.prog, base, CodeSeq(e.m, items, lazy, base))
    requires MatchesSeq(e.m, e.s, items, o, x)
    ensures Sound(e.s, x) && Leads(e, Thread(base, o), Thread(base + SizeAll(items), x))
    decreases items, 0
  {
    hide Code, Size, Matches, WellFormed, At, Leads, Sound;
    if items == [] {
      LeadsSelf(e, Thread(base, o));
    } else {
      var mid := base + Size(items[0]);
      AtSplit(e.prog, base, Code(e.m, items[0], lazy, base), CodeSeq(e.m, items[1..], lazy, mid));
      var y :| Sound(e.s, y) && Matches(e.m, e.s, items[0], o, y) && MatchesSeq(e.m, e.s, items[1..], y, x);
      MatchLeads(e, items[0], lazy, base, o, y);
      MatchLeadsSeq(e, items[1..], lazy, mid, y, x);
      LeadsTrans(e, Thread(base, o), Thread(mid, y), Thread(base + SizeAll(items), x));
    }
  }

  /** A jump to `to` at `pc` extends a path. */
  lemma LeadsJump(e: Env, t: Thread, pc: nat, to: nat, x: Config)
    requires Sound(e.s, t.o) && Sound(e.s, x) && At(e.prog, pc, [IJump(to)]) && Leads(e, t, Thread(pc, x))
    ensures Leads(e, t, Thread(to, x))
  {
    hide At, Leads, Sound;
    AtOne(e.prog, pc, IJump(to));
    LeadsSelf(e, Thread(to, x));
    LeadsStep(e, Thread(pc, x), Thread(to, x), Thread(to, x));
    LeadsTrans(e, t, Thread(pc, x), Thread(to, x));
  }

  lemma {:induction false} MatchLeadsAlt(e: Env, alts: seq<Ast>, lazy: bool, base: nat, end: nat, o: Config, x: Config)
    requires AllWellFormed(alts) && Sound(e.s, o) && At(e.prog, base, CodeAlt(e.m, alts, lazy, base, end))
    requires MatchesSome(e.m, e.s, alts, o, x)
    ensures Sound(e.s, x) && Leads(e, Thread(base, o), Thread(end, x))
    decreases alts, 0
  {
    hide Code, Size, Matches, WellFormed, At, Leads, Sound;
    if |alts| == 1 {
      AtSplit(e.prog, base, Code(e.m, alts[0], lazy, base), [IJump(end)]);
      MatchLeads(e, alts[0], lazy, base, o, x);
      LeadsJump(e, Thread(base, o), base + Size(alts[0]), end, x);
    } else {
      var next := base + 2 + Size(alts[0]);
      var split, code := [ISplit(base + 1, next)], Code(e.m, alts[0], lazy, base + 1);
      AtSplit(e.prog, base, split + code + [IJump(end)], CodeAlt(e.m, alts[1..], lazy, next, end));
      AtSplit(e.prog, base, split + code, [IJump(end)]);
      AtSplit(e.prog, base, split, code);
      AtOne(e.prog, base, split[0]);
      if Matches(e.m, e.s, alts[0], o, x) {
        MatchLeads(e, alts[0], lazy, base + 1, o, x);
        LeadsJump(e, Thread(base + 1, o), base + 1 + Size(alts[0]), end, x);
        LeadsStep(e, Thread(base, o), Thread(base + 1, o), Thread(end, x));
      } else {
        MatchLeadsAlt(e, alts[1..], lazy, next, end, o, x);
        LeadsStep(e, Thread(base, o), Thread(next, o), Thread(end, x));
      }
    }
  }

  lemma {:induction false} MatchLeadsGroup(e: Env, body: Ast, g: nat, lazy: bool, base: nat, o: Config, x: Config)
    requires WellFormed(body) && Sound(e.s, o) && MatchesGroup(e.m, e.s, body, g, o, x)
    requires At(e.prog, base, [ISaveStart(g)] + Code(e.m, body, lazy, base + 1) + [ISaveEnd(g)])
    ensures Sound(e.s, x) && Leads(e, Thread(base, o), Thread(base + 2 + Size(body), x))
    decreases body, 1
  {
    hide Code, Size, Matches, WellFormed, At, Leads;
    var code := Code(e.m, body, lazy, base + 1);
    AtSplit(e.prog, base, [ISaveStart(g)] + code, [ISaveEnd(g)]);
    AtSplit(e.prog, base, [ISaveStart(g)], code);
    AtOne(e.prog, base, ISaveStart(g));
    AtOne(e.prog, base + 1 + Size(body), ISaveEnd(g));
    var start := OpenGroup(o, g);
    var inner :| Matches(e.m, e.s, body, start, inner) && x == CloseGroup(inner, g);
    MatchLeads(e, body, lazy, base + 1, start, inner);
    var t, u, w := Thread(base + 1, start), Thread(base + 1 + Size(body), inner), Thread(base + 2 + Size(body), x);
    LeadsSelf(e, w);
    LeadsStep(e, u, w, w);
    LeadsTrans(e, t, u, w);
    LeadsStep(e, Thread(base, o), t, w);
  }

  lemma {:induction false} MatchLeadsRepeat(
    e: Env, body: Ast, min: nat, max: Option<nat>, lazy: bool, base: nat, k: nat, o: Config, x: Config)
    requires WellFormed(body) && (max.Some? ==> min <= max.value) && Sound(e.s, o)
    requires min <= k && (max.Some? ==> k <= max.value) && Iterates(e.m, e.s, body, k, o, x)
    requires At(e.prog, base, CodeRepeat(e.m, body, min, max, lazy, base))
    ensures Sound(e.s, x) && Leads(e, Thread(base, o), Thread(base + SizeRepeat(body, min, max), x))
    decreases body, 4
  {
    hide Size, Code, CodeTimes, CodeOptional, CodeStar, Matches, Iterates, WellFormed, At, Leads, Sound;
    var code := CodeTimes(e.m, body, min, lazy, base);
    var mid := base + |code|;
    var y := IteratesSplit(e.m, e.s, body, min, k - min, o, x);
    if max.Some? {
      AtSplit(e.prog, base, code, CodeOptional(e.m, body, max.value - min, lazy, mid));
      MatchLeadsOptional(e, body, max.value - min, lazy, mid, k - min, y, x);
    } else {
      AtSplit(e.prog, base, code, CodeStar(e.m, body, lazy, mid));
      MatchLeadsStar(e, body, lazy, mid, k - min, y, x);
    }
    MatchLeadsTimes(e, body, min, lazy, base, o, y);
    LeadsTrans(e, Thread(base, o), Thread(mid, y), Thread(base + SizeRepeat(body, min, max), x));
  }

  lemma {:induction false} MatchLeadsTimes(e: Env, body: Ast, k: nat, lazy: bool, base: nat, o: Config, x: Config)
    requires WellFormed(body) && Sound(e.s, o) && Iterates(e.m, e.s, body, k, o, x)
    requires At(e.prog, base, CodeTimes(e.m, body, k, lazy, base))
    ensures Sound(e.s, x) && Leads(e, Thread(base, o), Thread(base + Copies(k, Size(body)), x))
    decreases body, 3, k
  {
    hide Code, Size, Matches, WellFormed, At, Leads, Sound;
    if k == 0 {
      LeadsSelf(e, Thread(base, o));
    } else {
      var mid := base + Size(body);
      AtSplit(e.prog, base, Code(e.m, body, lazy, base), CodeTimes(e.m, body, k - 1, lazy, mid));
      var y :| Sound(e.s, y) && Matches(e.m, e.s, body, o, y) && Iterates(e.m, e.s, body, k - 1, y, x);
      MatchLeads(e, body, lazy, base, o, y);
      MatchLeadsTimes(e, body, k - 1, lazy, mid, y, x);
      LeadsTrans(e, Thread(base, o), Thread(mid, y), Thread(base + Copies(k, Size(body)), x));
    }
  }

  lemma {:induction false} MatchLeadsOptional(
    e: Env, body: Ast, k: nat, lazy: bool, base: nat, j: nat, o: Config, x: Config)
    requires WellFormed(body) && Sound(e.s, o) && j <= k && Iterates(e.m, e.s, body, j, o, x)
    requires At(e.prog, base, CodeOptional(e.m, body, k, lazy, base))
    ensures Sound(e.s, x) && Leads(e, Thread(base, o), Thread(base + Copies(k, 1 + Size(body)), x))
    decreases body, 3, k
  {
    hide Code, Size, OneOptional, Matches, WellFormed, At, Leads, Sound, Step;
    var end := Thread(base + Copies(k, 1 + Size(body)), x);
    if k == 0 {
      LeadsSelf(e, end);
    } else {
      var mid := base + 1 + Size(body);
      AtSplit(e.prog, base, OneOptional(e.m, body, lazy, base), CodeOptional(e.m, body, k - 1, lazy, mid));
      OneOptionalParts(e, body, lazy, base);
      ForkSucc(e, lazy, base, base + 1, mid, o);
      if j == 0 {
        MatchLeadsOptional(e, body, k - 1, lazy, mid, 0, o, x);
        LeadsStep(e, Thread(base, o), Thread(mid, o), end);
      } else {
        var y :| Sound(e.s, y) && Matches(e.m, e.s, body, o, y) && Iterates(e.m, e.s, body, j - 1, y, x);
        MatchLeads(e, body, lazy, base + 1, o, y);
        MatchLeadsOptional(e, body, k - 1, lazy, mid, j - 1, y, x);
        LeadsTrans(e, Thread(base + 1, o), Thread(mid, y), end);
        LeadsStep(e, Thread(base, o), Thread(base + 1, o), end);
      }
    }
  }

  lemma ForkSucc(e: Env, lazy: bool, base: nat, enter: nat, skip: nat, o: Config)
    requires Sound(e.s, o) && At(e.prog, base, [Fork(lazy, enter, skip)])
    ensures Succ(e, Thread(base, o), Thread(enter, o)) && Succ(e, Thread(base, o), Thread(skip, o))
  {
    AtOne(e.prog, base, Fork(lazy, enter, skip));
  }

  lemma OneOptionalParts(e: Env, body: Ast, lazy: bool, base: nat)
    requires WellFormed(body) && At(e.prog, base, OneOptional(e.m, body, lazy, base))
    ensures At(e.prog, base, [Fork(lazy, base + 1, base + 1 + Size(body))])
    ensures At(e.prog, base + 1, Code(e.m, body, lazy, base + 1))
  {
    hide Code, Size, At;
    AtSplit(e.prog, base, [Fork(lazy, base + 1, base + 1 + Size(body))], Code(e.m, body, lazy, base + 1));
  }

  lemma {:induction false} MatchLeadsStar(e: Env, body: Ast, lazy: bool, base: nat, k: nat, o: Config, x: Config)
    requires WellFormed(body) && Sound(e.s, o) && Iterates(e.m, e.s, body, k, o, x)
    requires At(e.prog, base, CodeStar(e.m, body, lazy, base))
    ensures Sound(e.s, x) && Leads(e, Thread(base, o), Thread(base + 2 + Size(body), x))
    decreases body, 3, k
  {
    hide Code, CodeStar, Size, Matches, WellFormed, At, Leads, Sound;
    StarCode(e, body, lazy, base);
    var end := base + 2 + Size(body);
    AtOne(e.prog, base, Fork(lazy, base + 1, end));
    if k == 0 {
      LeadsSelf(e, Thread(end, x));
      LeadsStep(e, Thread(base, o), Thread(end, x), Thread(end, x));
    } else {
      var y :| Sound(e.s, y) && Matches(e.m, e.s, body, o, y) && Iterates(e.m, e.s, body, k - 1, y, x);
      MatchLeads(e, body, lazy, base + 1, o, y);
      LeadsJump(e, Thread(base + 1, o), base + 1 + Size(body), base, y);
      MatchLeadsStar(e, body, lazy, base, k - 1, y, x);
      LeadsTrans(e, Thread(base + 1, o), Thread(base, y), Thread(end, x));
      LeadsStep(e, Thread(base, o), Thread(base + 1, o), Thread(end, x));
    }
  }

  // ----- every path through the code is a match -----

  ghost predicate Outside(pc: nat, lo: nat, hi: nat) {
    pc < lo || hi <= pc
  }

  /** A path that starts at the code of `a` and ends outside it leaves through its end,
      after a match of `a`. */
  lemma {:induction false} PathMatches(e: Env, a: Ast, lazy: bool, base: nat, o: Config, n: nat, u: Thread)
    returns (x: Config, k: nat)
    requires WellFormed(a) && Sound(e.s, o) && At(e.prog, base, Code(e.m, a, lazy, base))
    requires Path(e, Thread(base, o), n, u) && Outside(u.pc, base, base + Size(a))
    ensures k <= n && Sound(e.s, x) && Matches(e.m, e.s, a, o, x)
    ensures Path(e, Thread(base + Size(a), x), n - k, u)
    decreases a, 0
  {
    hide CodeSeq, CodeAlt, CodeRepeat, SizeAll, SizeAlt, SizeRepeat, At, Sound, Path, Iterates,
         MatchesSeq, MatchesSome, MatchesGroup;
    match a
    case Empty => x, k := o, 0;
    case Sequence(items) => x, k := PathMatchesSeq(e, items, lazy, base, o, n, u);
    case Alt(alts) => x, k := PathMatchesAlt(e, alts, lazy, base, base + Size(a), o, n, u);
    case Repeat(body, min, max, lz) =>
      var j;
      x, k, j := PathMatchesRepeat(e, body, min, max, lz || lazy, base, o, n, u);
    case Group(body, g) => x, k := PathMatchesGroup(e, body, g, lazy, base, o, n, u);
    case _ => x, k := PathMatchesLeaf(e, a, base, o, n, u);
  }

  /** The first step of a path whose end is elsewhere. */
  lemma FirstStep(e: Env, t: Thread, n: nat, u: Thread) returns (mid: Thread)
    requires Sound(e.s, t.o) && Path(e, t, n, u) && t.pc != u.pc
    ensures n > 0 && Succ(e, t, mid) && Path(e, mid, n - 1, u)
  {
    mid :| Succ(e, t, mid) && Path(e, mid, n - 1, u);
  }

  lemma PathMatchesLeaf(e: Env, a: Ast, base: nat, o: Config, n: nat, u: Thread)
    returns (x: Config, k: nat)
    requires IsLeaf(a) && Sound(e.s, o) && At(e.prog, base, [Leaf(e.m, a)])
    requires Path(e, Thread(base, o), n, u) && Outside(u.pc, base, base + 1)
    ensures k <= n && Sound(e.s, x) && Matches(e.m, e.s, a, o, x)
    ensures Path(e, Thread(base + 1, x), n - k, u)
  {
    hide Advance, Matches, Sound, At, Path;
    AtOne(e.prog, base, Leaf(e.m, a));
    var mid := FirstStep(e, Thread(base, o), n, u);
    x, k := mid.o, 1;
    LeafMatch(e.m, e.s, a, o, x);
  }

  lemma {:induction false} PathMatchesSeq(e: Env, items: seq<Ast>, lazy: bool, base: nat, o: Config, n: nat, u: Thread)
    returns (x: Config, k: nat)
    requires AllWellFormed(items) && Sound(e.s, o) && At(e.prog, base, CodeSeq(e.m, items, lazy, base))
    requires Path(e, Thread(base, o), n, u) && Outside(u.pc, base, base + SizeAll(items))
    ensures k <= n && Sound(e.s, x) && MatchesSeq(e.m, e.s, items, o, x)
    ensures Path(e, Thread(base + SizeAll(items), x), n - k, u)
    decreases items, 0
  {
    hide Code, Size, Matches, WellFormed, At, Path, Sound;
    if items == [] {
      x, k := o, 0;
    } else {
      var mid := base + Size(items[0]);
      AtSplit(e.prog, base, Code(e.m, items[0], lazy, base), CodeSeq(e.m, items[1..], lazy, mid));
      var y, i := PathMatches(e, items[0], lazy, base, o, n, u);
      var j;
      x, j := PathMatchesSeq(e, items[1..], lazy, mid, y, n - i, u);
      k := i + j;
    }
  }

  /** The code of a branch followed by its jump. */
  lemma {:induction false} PathMatchesJump(e: Env, a: Ast, lazy: bool, base: nat, to: nat, o: Config, n: nat, u: Thread)
    returns (x: Config, k: nat)
    requires WellFormed(a) && Sound(e.s, o)
    requires At(e.prog, base, Code(e.m, a, lazy, base)) && At(e.prog, base + Size(a), [IJump(to)])
    requires Path(e, Thread(base, o), n, u) && Outside(u.pc, base, base + Size(a) + 1)
    ensures 0 < k <= n && Sound(e.s, x) && Matches(e.m, e.s, a, o, x)
    ensures Path(e, Thread(to, x), n - k, u)
    decreases a, 1
  {
    hide Code, Size, Matches, WellFormed, At, Path, Sound;
    var i;
    x, i := PathMatches(e, a, lazy, base, o, n, u);
    AtOne(e.prog, base + Size(a), IJump(to));
    var mid := FirstStep(e, Thread(base + Size(a), x), n - i, u);
    k := i + 1;
  }

  lemma {:induction false} PathMatchesAlt(
    e: Env, alts: seq<Ast>, lazy: bool, base: nat, end: nat, o: Config, n: nat, u: Thread)
    returns (x: Config, k: nat)
    requires |alts| > 0 && AllWellFormed(alts) && Sound(e.s, o)
    requires At(e.prog, base, CodeAlt(e.m, alts, lazy, base, end))
    requires Path(e, Thread(base, o), n, u) && Outside(u.pc, base, base + SizeAlt(alts))
    ensures k <= n && Sound(e.s, x) && MatchesSome(e.m, e.s, alts, o, x)
    ensures Path(e, Thread(end, x), n - k, u)
    decreases alts, 2
  {
    hide Code, Size, Matches, WellFormed, At, Path, Sound;
    if |alts| == 1 {
      AtSplit(e.prog, base, Code(e.m, alts[0], lazy, base), [IJump(end)]);
      x, k := PathMatchesJump(e, alts[0], lazy, base, end, o, n, u);
    } else {
      var next := base + 2 + Size(alts[0]);
      var split, code := [ISplit(base + 1, next)], Code(e.m, alts[0], lazy, base + 1);
      AtSplit(e.prog, base, split + code + [IJump(end)], CodeAlt(e.m, alts[1..], lazy, next, end));
      AtSplit(e.prog, base, split + code, [IJump(end)]);
      AtSplit(e.prog, base, split, code);
      AtOne(e.prog, base, split[0]);
      var t := FirstStep(e, Thread(base, o), n, u);
      var j;
      if t.pc == base + 1 {
        x, j := PathMatchesJump(e, alts[0], lazy, base + 1, end, o, n - 1, u);
      } else {
        x, j := PathMatchesAlt(e, alts[1..], lazy, next, end, o, n - 1, u);
      }
      k := j + 1;
    }
  }

  lemma {:induction false} PathMatchesGroup(e: Env, body: Ast, g: nat, lazy: bool, base: nat, o: Config, n: nat, u: Thread)
    returns (x: Config, k: nat)
    requires WellFormed(body) && Sound(e.s, o)
    requires At(e.prog, base, [ISaveStart(g)] + Code(e.m, body, lazy, base + 1) + [ISaveEnd(g)])
    requires Path(e, Thread(base, o), n, u) && Outside(u.pc, base, base + 2 + Size(body))
    ensures k <= n && Sound(e.s, x) && MatchesGroup(e.m, e.s, body, g, o, x)
    ensures Path(e, Thread(base + 2 + Size(body), x), n - k, u)
    decreases body, 1
  {
    hide Code, Size, Matches, WellFormed, At, Path;
    var code := Code(e.m, body, lazy, base + 1);
    AtSplit(e.prog, base, [ISaveStart(g)] + code, [ISaveEnd(g)]);
    AtSplit(e.prog, base, [ISaveStart(g)], code);
    AtOne(e.prog, base, ISaveStart(g));
    AtOne(e.prog, base + 1 + Size(body), ISaveEnd(g));
    var start := FirstStep(e, Thread(base, o), n, u);
    var inner, i := PathMatches(e, body, lazy, base + 1, start.o, n - 1, u);
    var last := FirstStep(e, Thread(base + 1 + Size(body), inner), n - 1 - i, u);
    x, k := CloseGroup(inner, g), i + 2;
  }

  lemma {:induction false} PathMatchesRepeat(
    e: Env, body: Ast, min: nat, max: Option<nat>, lazy: bool, base: nat, o: Config, n: nat, u: Thread)
    returns (x: Config, k: nat, j: nat)
    requires WellFormed(body) && (max.Some? ==> min <= max.value) && Sound(e.s, o)
    requires At(e.prog, base, CodeRepeat(e.m, body, min, max, lazy, base))
    requires Path(e, Thread(base, o), n, u) && Outside(u.pc, base, base + SizeRepeat(body, min, max))
    ensures k <= n && Sound(e.s, x)
    ensures min <= j && (max.Some? ==> j <= max.value) && Iterates(e.m, e.s, body, j, o, x)
    ensures Path(e, Thread(base + SizeRepeat(body, min, max), x), n - k, u)
    decreases body, 4
  {
    hide Size, Code, CodeTimes, CodeOptional, CodeStar, Matches, Iterates, WellFormed, At, Path, Sound;
    var code := CodeTimes(e.m, body, min, lazy, base);
    var mid := base + |code|;
    var y: Config, i: nat, c: nat, d: nat;
    if max.Some? {
      AtSplit(e.prog, base, code, CodeOptional(e.m, body, max.value - min, lazy, mid));
      y, i := PathMatchesTimes(e, body, min, lazy, base, o, n, u);
      x, d, c := PathMatchesOptional(e, body, max.value - min, lazy, mid, y, n - i, u);
    } else {
      AtSplit(e.prog, base, code, CodeStar(e.m, body, lazy, mid));
      y, i := PathMatchesTimes(e, body, min, lazy, base, o, n, u);
      x, d, c := PathMatchesStar(e, body, lazy, mid, y, n - i, u);
    }
    IteratesAppend(e.m, e.s, body, min, c, o, y, x);
    k, j := i + d, min + c;
  }

  lemma {:induction false} PathMatchesTimes(e: Env, body: Ast, j: nat, lazy: bool, base: nat, o: Config, n: nat, u: Thread)
    returns (x: Config, k: nat)
    requires WellFormed(body) && Sound(e.s, o) && At(e.prog, base, CodeTimes(e.m, body, j, lazy, base))
    requires Path(e, Thread(base, o), n, u) && Outside(u.pc, base, base + Copies(j, Size(body)))
    ensures k <= n && Sound(e.s, x) && Iterates(e.m, e.s, body, j, o, x)
    ensures Path(e, Thread(base + Copies(j, Size(body)), x), n - k, u)
    decreases body, 3, j
  {
    hide Code, Size, Matches, WellFormed, At, Path, Sound;
    if j == 0 {
      x, k := o, 0;
    } else {
      var mid := base + Size(body);
      AtSplit(e.prog, base, Code(e.m, body, lazy, base), CodeTimes(e.m, body, j - 1, lazy, mid));
      var y, i := PathMatches(e, body, lazy, base, o, n, u);
      var d;
      x, d := PathMatchesTimes(e, body, j - 1, lazy, mid, y, n - i, u);
      k := i + d;
    }
  }

  lemma {:induction false} PathMatchesOptional(
    e: Env, body: Ast, c: nat, lazy: bool, base: nat, o: Config, n: nat, u: Thread)
    returns (x: Config, k: nat, j: nat)
    requires WellFormed(body) && Sound(e.s, o) && At(e.prog, base, CodeOptional(e.m, body, c, lazy, base))
    requires Path(e, Thread(base, o), n, u) && Outside(u.pc, base, base + Copies(c, 1 + Size(body)))
    ensures k <= n && Sound(e.s, x) && j <= c && Iterates(e.m, e.s, body, j, o, x)
    ensures Path(e, Thread(base + Copies(c, 1 + Size(body)), x), n - k, u)
    decreases body, 3, c
  {
    hide Code, Size, OneOptional, Matches, WellFormed, At, Path, Sound;
    if c == 0 {
      x, k, j := o, 0, 0;
    } else {
      var mid := base + 1 + Size(body);
      AtSplit(e.prog, base, OneOptional(e.m, body, lazy, base), CodeOptional(e.m, body, c - 1, lazy, mid));
      OneOptionalParts(e, body, lazy, base);
      AtOne(e.prog, base, Fork(lazy, base + 1, mid));
      var t := FirstStep(e, Thread(base, o), n, u);
      var d, i;
      if t == Thread(mid, o) {
        x, d, j := PathMatchesOptional(e, body, c - 1, lazy, mid, o, n - 1, u);
        k := d + 1;
      } else {
        var y: Config, f: nat;
        y, f := PathMatches(e, body, lazy, base + 1, o, n - 1, u);
        x, d, i := PathMatchesOptional(e, body, c - 1, lazy, mid, y, n - 1 - f, u);
        k, j := 1 + f + d, i + 1;
      }
    }
  }

  lemma {:induction false} PathMatchesStar(e: Env, body: Ast, lazy: bool, base: nat, o: Config, n: nat, u: Thread)
    returns (x: Config, k: nat, j: nat)
    requires WellFormed(body) && Sound(e.s, o) && At(e.prog, base, CodeStar(e.m, body, lazy, base))
    requires Path(e, Thread(base, o), n, u) && Outside(u.pc, base, base + 2 + Size(body))
    ensures k <= n && Sound(e.s, x) && Iterates(e.m, e.s, body, j, o, x)
    ensures Path(e, Thread(base + 2 + Size(body), x), n - k, u)
    decreases body, 3, n
  {
    hide Code, CodeStar, Size, Matches, WellFormed, At, Path, Sound;
    StarCode(e, body, lazy, base);
    var end := base + 2 + Size(body);
    AtOne(e.prog, base, Fork(lazy, base + 1, end));
    var t := FirstStep(e, Thread(base, o), n, u);
    if t == Thread(end, o) {
      x, k, j := o, 1, 0;
    } else {
      var y, f := PathMatchesJump(e, body, lazy, base + 1, base, o, n - 1, u);
      var d, i;
      x, d, i := PathMatchesStar(e, body, lazy, base, y, n - 1 - f, u);
      k, j := 1 + f + d, i + 1;
    }
  }

  // ----- main results -----

  lemma ProgramClosed(m: Mode, a: Ast)
    requires WellFormed(a)
    ensures Closed(Program(m, a)) && At(Program(m, a), 0, Code(m, a, false, 0))
    ensures At(Program(m, a), Size(a), [IMatch])
  {
    hide Code, Size, WellFormed;
    CodeContained(m, a, false, 0);
    assert Program(m, a)[..Size(a)] == Code(m, a, false, 0);
    assert At(Program(m, a), 0, Code(m, a, false, 0) + [IMatch]);
    AtSplit(Program(m, a), 0, Code(m, a, false, 0), [IMatch]);
  }

  /** A path inside a closed program stays inside and keeps capture 0. */
  lemma {:induction false} PathInside(e: Env, t: Thread, n: nat, u: Thread)
    requires Closed(e.prog) && Sound(e.s, t.o) && t.pc < |e.prog| && Path(e, t, n, u)
    ensures u.pc < |e.prog| && KeepsZero(t.o, u.o)
    decreases n
  {
    hide Closed, Sound, Step;
    if n != 0 {
      var mid :| Succ(e, t, mid) && Path(e, mid, n - 1, u);
      StepInside(e, t);
      PathInside(e, mid, n - 1, u);
    }
  }

  /** A path to acceptance is a match. */
  lemma PathToMatch(m: Mode, s: string, a: Ast, o: Config, u: Thread)
    requires WellFormed(a) && Sound(s, o)
    requires var e := Env(Program(m, a), m, s); Leads(e, Thread(0, o), u) && Sound(s, u.o) && Step(e, u).Accept?
    ensures Matches(m, s, a, o, u.o)
  {
    hide Code, Size, WellFormed, Matches, Sound, Path, Closed;
    var e := Env(Program(m, a), m, s);
    ProgramClosed(m, a);
    var n: nat :| Path(e, Thread(0, o), n, u);
    PathInside(e, Thread(0, o), n, u);
    StepInside(e, u);
    var x, k := PathMatches(e, a, false, 0, o, n, u);
    AtOne(e.prog, Size(a), IMatch);
    OnlySelf(e, Thread(Size(a), x), n - k, u);
  }

  /** Nothing follows an accepting thread. */
  lemma OnlySelf(e: Env, t: Thread, n: nat, u: Thread)
    requires Sound(e.s, t.o) && Path(e, t, n, u) && Step(e, t).Accept?
    ensures t == u
  {
  }

  /** Search soundness and completeness, for every pattern and every budget: what the
      machine accepts is a match, and when it gives up with budget left there is none. */
  lemma RunDecidesMatching(m: Mode, s: string, a: Ast, o: Config, budget: nat)
    requires WellFormed(a) && Sound(s, o)
    ensures match Exec(Env(Program(m, a), m, s), [Thread(0, o)], budget)
      case Matched(c) => exists x :: Matches(m, s, a, o, x) && c == CloseGroup(x, 0)
      case Failed => forall x :: !Matches(m, s, a, o, x)
      case Exhausted => true
  {
    hide Code, Size, WellFormed, Matches, Sound, Path, Closed, Advance;
    var e := Env(Program(m, a), m, s);
    match Exec(e, [Thread(0, o)], budget)
    case Matched(c) =>
      var t, u := MatchedHasPath(e, [Thread(0, o)], budget, c);
      PathToMatch(m, s, a, o, u);
    case Failed =>
      forall x
        ensures !Matches(m, s, a, o, x)
      {
        if Matches(m, s, a, o, x) {
          NoneMissed(m, s, a, o, x, budget);
        }
      }
    case Exhausted =>
  }

  /** A match is never reported as a failure. */
  lemma NoneMissed(m: Mode, s: string, a: Ast, o: Config, x: Config, budget: nat)
    requires WellFormed(a) && Sound(s, o) && Matches(m, s, a, o, x)
    ensures Exec(Env(Program(m, a), m, s), [Thread(0, o)], budget) != Failed
  {
    hide Code, Size, WellFormed, Matches, Sound, Path, Closed, Advance;
    var e := Env(Program(m, a), m, s);
    ProgramClosed(m, a);
    MatchLeads(e, a, false, 0, o, x);
    AtOne(e.prog, Size(a), IMatch);
    if Exec(e, [Thread(0, o)], budget) == Failed {
      var n: nat :| Path(e, Thread(0, o), n, Thread(Size(a), x));
      FailedHasNoPath(e, [Thread(0, o)], budget, Thread(0, o), n, Thread(Size(a), x));
    }
  }

  /** Matching never touches capture 0, where the search keeps its start. */
  lemma MatchKeepsZero(m: Mode, s: string, a: Ast, o: Config, x: Config)
    requires WellFormed(a) && Sound(s, o) && Matches(m, s, a, o, x)
    ensures KeepsZero(o, x)
  {
    hide Code, Size, WellFormed, Sound, Matches, Path, KeepsZero, Closed;
    var e := Env(Program(m, a), m, s);
    ProgramClosed(m, a);
    MatchLeads(e, a, false, 0, o, x);
    var n: nat :| Path(e, Thread(0, o), n, Thread(Size(a), x));
    PathInside(e, Thread(0, o), n, Thread(Size(a), x));
  }
}

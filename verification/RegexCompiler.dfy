/** The pattern compiler: `Code` says what code an AST has at a given address; the class
    emits that code one instruction at a time and patches forward targets in place. */
module RegexCompiler {
  import opened Wrappers
  import opened RegexSyntax

  // ----- the code of an AST -----

  /** k copies of n instructions. */
  function Copies(k: nat, n: nat): nat {
    if k == 0 then 0 else n + Copies(k - 1, n)
  }

  /** Number of instructions compiled for an AST, independent of address and laziness. */
  function Size(a: Ast): nat
    decreases a, 0
  {
    match a
    case Empty => 0
    case Sequence(items) => SizeAll(items)
    case Alt(alts) => SizeAlt(alts)
    case Repeat(body, min, max, _) => SizeRepeat(body, min, max)
    case Group(body, _) => 2 + Size(body)
    case _ => 1
  }

  function SizeRepeat(body: Ast, min: nat, max: Option<nat>): nat
    decreases body, 1
  {
    Copies(min, Size(body)) +
    (match max
     case Some(mx) => Copies(if mx < min then 0 else mx - min, 1 + Size(body))
     case None => 2 + Size(body))
  }

  function SizeAll(items: seq<Ast>): nat
    decreases items, 0
  {
    if items == [] then 0 else Size(items[0]) + SizeAll(items[1..])
  }

  function SizeAlt(alts: seq<Ast>): nat
    decreases alts, 0
  {
    if alts == [] then 0
    else if |alts| == 1 then Size(alts[0]) + 1
    else Size(alts[0]) + 2 + SizeAlt(alts[1..])
  }

  function Code(m: Mode, a: Ast, lazy: bool, base: nat): (c: seq<Insn>)
    requires WellFormed(a)
    ensures |c| == Size(a)
    decreases a, 0
  {
    match a
    case Empty => []
    case Sequence(items) => CodeSeq(m, items, lazy, base)
    case Alt(alts) => CodeAlt(m, alts, lazy, base, base + Size(a))
    case Repeat(body, min, max, lz) => CodeRepeat(m, body, min, max, lz || lazy, base)
    case Group(body, g) => [ISaveStart(g)] + Code(m, body, lazy, base + 1) + [ISaveEnd(g)]
    case _ => [Leaf(m, a)]
  }

  /** `{min,max}` is min copies followed by max - min optionals, or by a loop. */
  function CodeRepeat(m: Mode, body: Ast, min: nat, max: Option<nat>, lazy: bool, base: nat): (c: seq<Insn>)
    requires WellFormed(body) && (max.Some? ==> min <= max.value)
    ensures |c| == SizeRepeat(body, min, max)
    decreases body, 3
  {
    var head := CodeTimes(m, body, min, lazy, base);
    match max
    case Some(mx) => head + CodeOptional(m, body, mx - min, lazy, base + |head|)
    case None => head + CodeStar(m, body, lazy, base + |head|)
  }

  function CodeSeq(m: Mode, items: seq<Ast>, lazy: bool, base: nat): (c: seq<Insn>)
    requires AllWellFormed(items)
    ensures |c| == SizeAll(items)
    decreases items, 0
  {
    if items == [] then []
    else Code(m, items[0], lazy, base) + CodeSeq(m, items[1..], lazy, base + Size(items[0]))
  }

  /** A split between two targets; a lazy split prefers to skip. */
  function Fork(lazy: bool, enter: nat, skip: nat): Insn {
    if lazy then ISplit(skip, enter) else ISplit(enter, skip)
  }

  /** All branches but the last are guarded by a split; every branch ends in a jump to `end`. */
  function CodeAlt(m: Mode, alts: seq<Ast>, lazy: bool, base: nat, end: nat): (c: seq<Insn>)
    requires AllWellFormed(alts)
    ensures |c| == SizeAlt(alts)
    decreases alts, 0
  {
    if alts == [] then []
    else if |alts| == 1 then Code(m, alts[0], lazy, base) + [IJump(end)]
    else
      var next := base + 2 + Size(alts[0]);
      [ISplit(base + 1, next)] + Code(m, alts[0], lazy, base + 1) + [IJump(end)]
      + CodeAlt(m, alts[1..], lazy, next, end)
  }

  function CodeTimes(m: Mode, body: Ast, k: nat, lazy: bool, base: nat): (c: seq<Insn>)
    requires WellFormed(body)
    ensures |c| == Copies(k, Size(body))
    decreases body, 1, k
  {
    if k == 0 then []
    else Code(m, body, lazy, base) + CodeTimes(m, body, k - 1, lazy, base + Size(body))
  }

  function CodeOptional(m: Mode, body: Ast, k: nat, lazy: bool, base: nat): (c: seq<Insn>)
    requires WellFormed(body)
    ensures |c| == Copies(k, 1 + Size(body))
    decreases body, 2, k
  {
    if k == 0 then []
    else
      OneOptional(m, body, lazy, base) + CodeOptional(m, body, k - 1, lazy, base + 1 + Size(body))
  }

  function OneOptional(m: Mode, body: Ast, lazy: bool, base: nat): (c: seq<Insn>)
    requires WellFormed(body)
    ensures |c| == 1 + Size(body)
    decreases body, 1
  {
    [Fork(lazy, base + 1, base + 1 + Size(body))] + Code(m, body, lazy, base + 1)
  }

  function CodeStar(m: Mode, body: Ast, lazy: bool, base: nat): (c: seq<Insn>)
    requires WellFormed(body)
    ensures |c| == 2 + Size(body)
    decreases body, 1
  {
    [Fork(lazy, base + 1, base + 2 + Size(body))] + Code(m, body, lazy, base + 1) + [IJump(base)]
  }

  /** The whole program of a pattern. */
  function Program(m: Mode, a: Ast): seq<Insn>
    requires WellFormed(a)
  {
    Code(m, a, false, 0) + [IMatch]
  }

  // ----- compiled code is self-contained -----

  /** The instruction goes nowhere outside lo..hi, does not accept, and leaves capture 0 alone. */
  ghost predicate Tame(insn: Insn, lo: nat, hi: nat) {
    match insn
    case IJump(t) => lo <= t <= hi
    case ISplit(x, y) => lo <= x <= hi && lo <= y <= hi
    case ISaveStart(g) => g > 0
    case ISaveEnd(g) => g > 0
    case IMatch => false
    case _ => true
  }

  ghost predicate Contained(c: seq<Insn>, lo: nat, hi: nat) {
    forall i | 0 <= i < |c| :: Tame(c[i], lo, hi)
  }

  lemma ContainedJoin(a: seq<Insn>, b: seq<Insn>, lo: nat, x: nat, y: nat, hi: nat)
    requires lo <= y && x <= hi
    requires Contained(a, lo, x) && Contained(b, y, hi)
    ensures Contained(a + b, lo, hi)
  {
  }

  lemma ContainedWiden(c: seq<Insn>, lo: nat, x: nat, hi: nat)
    requires x <= hi && Contained(c, lo, x)
    ensures Contained(c, lo, hi)
  {
  }

  lemma ContainedOne(insn: Insn, lo: nat, hi: nat)
    requires Tame(insn, lo, hi)
    ensures Contained([insn], lo, hi)
  {
  }

  lemma ContainedNil(lo: nat, hi: nat)
    ensures Contained([], lo, hi)
  {
  }

  lemma {:induction false} CodeContained(m: Mode, a: Ast, lazy: bool, base: nat)
    requires WellFormed(a)
    ensures Contained(Code(m, a, lazy, base), base, base + Size(a))
    decreases a, 0
  {
    hide CodeSeq, CodeAlt, CodeRepeat, SizeAll, SizeAlt, SizeRepeat;
    match a
    case Sequence(items) => CodeContainedSeq(m, items, lazy, base);
    case Alt(alts) => CodeContainedAlt(m, alts, lazy, base, base + Size(a));
    case Repeat(body, min, max, lz) => CodeContainedRepeat(m, body, min, max, lz || lazy, base);
    case Group(body, g) =>
      hide Contained;
      CodeContained(m, body, lazy, base + 1);
      CodeContainedGroup(g, Code(m, body, lazy, base + 1), base);
    case _ =>
  }

  lemma CodeContainedGroup(g: nat, code: seq<Insn>, base: nat)
    requires g > 0 && Contained(code, base + 1, base + 1 + |code|)
    ensures Contained([ISaveStart(g)] + code + [ISaveEnd(g)], base, base + 2 + |code|)
  {
  }

  lemma {:induction false} CodeContainedRepeat(
    m: Mode, body: Ast, min: nat, max: Option<nat>, lazy: bool, base: nat)
    requires WellFormed(body) && (max.Some? ==> min <= max.value)
    ensures Contained(CodeRepeat(m, body, min, max, lazy, base), base, base + SizeRepeat(body, min, max))
    decreases body, 3
  {
    hide Contained, Code, Size, CodeTimes, CodeOptional, CodeStar;
    var n := Copies(min, Size(body));
    var end := base + SizeRepeat(body, min, max);
    var head := CodeTimes(m, body, min, lazy, base);
    CodeContainedTimes(m, body, min, lazy, base);
    if max.Some? {
      CodeContainedOptional(m, body, max.value - min, lazy, base + n);
      ContainedJoin(head, CodeOptional(m, body, max.value - min, lazy, base + n), base, base + n, base + n, end);
    } else {
      CodeContainedStar(m, body, lazy, base + n);
      ContainedJoin(head, CodeStar(m, body, lazy, base + n), base, base + n, base + n, end);
    }
  }

  lemma {:induction false} CodeContainedStar(m: Mode, body: Ast, lazy: bool, base: nat)
    requires WellFormed(body)
    ensures Contained(CodeStar(m, body, lazy, base), base, base + 2 + Size(body))
    decreases body, 1
  {
    hide Contained, Code, Size;
    var end := base + 2 + Size(body);
    var fork, code := Fork(lazy, base + 1, end), Code(m, body, lazy, base + 1);
    ContainedOne(fork, base, end);
    ContainedOne(IJump(base), base, end);
    CodeContained(m, body, lazy, base + 1);
    ContainedWiden(code, base + 1, base + 1 + Size(body), end);
    ContainedJoin([fork], code, base, end, base + 1, end);
    ContainedJoin([fork] + code, [IJump(base)], base, end, base, end);
  }

  lemma {:induction false} CodeContainedSeq(m: Mode, items: seq<Ast>, lazy: bool, base: nat)
    requires AllWellFormed(items)
    ensures Contained(CodeSeq(m, items, lazy, base), base, base + SizeAll(items))
    decreases items, 0
  {
    hide Contained, Code, Size;
    if items == [] {
      ContainedNil(base, base);
    } else {
      var mid := base + Size(items[0]);
      CodeContained(m, items[0], lazy, base);
      CodeContainedSeq(m, items[1..], lazy, mid);
      ContainedJoin(Code(m, items[0], lazy, base), CodeSeq(m, items[1..], lazy, mid),
                  base, mid, mid, base + SizeAll(items));
    }
  }

  lemma {:induction false} CodeContainedAlt(m: Mode, alts: seq<Ast>, lazy: bool, base: nat, end: nat)
    requires AllWellFormed(alts)
    requires base + SizeAlt(alts) <= end
    ensures Contained(CodeAlt(m, alts, lazy, base, end), base, end)
    decreases alts, 0
  {
    hide Contained, Code, Size;
    if |alts| == 1 {
      ContainedOne(IJump(end), base, end);
      CodeContained(m, alts[0], lazy, base);
      ContainedJoin(Code(m, alts[0], lazy, base), [IJump(end)], base, base + Size(alts[0]), base, end);
    } else if alts == [] {
      ContainedNil(base, end);
    } else {
      var next := base + 2 + Size(alts[0]);
      ContainedOne(IJump(end), base, end);
      ContainedOne(ISplit(base + 1, next), base, end);
      var head, code := ISplit(base + 1, next), Code(m, alts[0], lazy, base + 1);
      CodeContained(m, alts[0], lazy, base + 1);
      ContainedWiden(code, base + 1, base + 1 + Size(alts[0]), end);
      CodeContainedAlt(m, alts[1..], lazy, next, end);
      ContainedJoin([head], code, base, end, base + 1, end);
      ContainedJoin([head] + code, [IJump(end)], base, end, base, end);
      ContainedJoin([head] + code + [IJump(end)], CodeAlt(m, alts[1..], lazy, next, end), base, end, next, end);
    }
  }

  lemma {:induction false} CodeContainedTimes(m: Mode, body: Ast, k: nat, lazy: bool, base: nat)
    requires WellFormed(body)
    ensures Contained(CodeTimes(m, body, k, lazy, base), base, base + Copies(k, Size(body)))
    decreases body, 1, k
  {
    hide Contained, Code, Size;
    if k == 0 {
      ContainedNil(base, base);
    } else {
      var mid := base + Size(body);
      CodeContained(m, body, lazy, base);
      CodeContainedTimes(m, body, k - 1, lazy, mid);
      ContainedJoin(Code(m, body, lazy, base), CodeTimes(m, body, k - 1, lazy, mid),
                  base, mid, mid, base + Copies(k, Size(body)));
    }
  }

  lemma {:induction false} CodeContainedOptional(m: Mode, body: Ast, k: nat, lazy: bool, base: nat)
    requires WellFormed(body)
    ensures Contained(CodeOptional(m, body, k, lazy, base), base, base + Copies(k, 1 + Size(body)))
    decreases body, 2, k
  {
    hide Contained, Code, Size, OneOptional;
    if k == 0 {
      ContainedNil(base, base);
    } else {
      var next := base + 1 + Size(body);
      var end := base + Copies(k, 1 + Size(body));
      CodeContainedOne(m, body, lazy, base);
      CodeContainedOptional(m, body, k - 1, lazy, next);
      ContainedJoin(OneOptional(m, body, lazy, base), CodeOptional(m, body, k - 1, lazy, next), base, next, next, end);
    }
  }

  lemma {:induction false} CodeContainedOne(m: Mode, body: Ast, lazy: bool, base: nat)
    requires WellFormed(body)
    ensures Contained(OneOptional(m, body, lazy, base), base, base + 1 + Size(body))
    decreases body, 1
  {
    hide Contained, Code, Size;
    var next := base + 1 + Size(body);
    var fork, code := Fork(lazy, base + 1, next), Code(m, body, lazy, base + 1);
    ContainedOne(fork, base, next);
    CodeContained(m, body, lazy, base + 1);
    ContainedJoin([fork], code, base, next, base + 1, next);
  }

  // ----- back-patching -----

  /** Where the jumps of an alternation compiled at `base` are. */
  function JumpPositions(alts: seq<Ast>, base: nat): seq<nat> {
    if alts == [] then []
    else if |alts| == 1 then [base + Size(alts[0])]
    else [base + 1 + Size(alts[0])] + JumpPositions(alts[1..], base + 2 + Size(alts[0]))
  }

  function PatchJump(code: seq<Insn>, at: nat, end: nat): seq<Insn> {
    if at < |code| && code[at].IJump? then code[at := IJump(end)] else code
  }

  function PatchJumps(code: seq<Insn>, jumps: seq<nat>, end: nat): seq<Insn>
    decreases jumps
  {
    if |jumps| == 0 then code else PatchJumps(PatchJump(code, jumps[0], end), jumps[1..], end)
  }

  lemma PatchOne(pre: seq<Insn>, head: seq<Insn>, rest: seq<Insn>, jumps: seq<nat>, end: nat)
    ensures PatchJumps(pre + (head + [IJump(0)] + rest), [|pre| + |head|] + jumps, end)
         == PatchJumps((pre + head + [IJump(end)]) + rest, jumps, end)
  {
    var all := pre + (head + [IJump(0)] + rest);
    var at := |pre| + |head|;
    assert all[at] == IJump(0);
    assert all[at := IJump(end)] == (pre + head + [IJump(end)]) + rest;
    assert ([at] + jumps)[1..] == jumps;
  }

  /** One branch of an alternation and the rest of it. */
  function Branch(m: Mode, alts: seq<Ast>, lazy: bool, base: nat): (c: seq<Insn>)
    requires |alts| > 0 && AllWellFormed(alts)
    ensures |c| == Size(alts[0]) + (if |alts| == 1 then 0 else 1)
  {
    if |alts| == 1 then Code(m, alts[0], lazy, base)
    else [ISplit(base + 1, base + 2 + Size(alts[0]))] + Code(m, alts[0], lazy, base + 1)
  }

  lemma AltUnfold(m: Mode, alts: seq<Ast>, lazy: bool, base: nat, end: nat)
    requires |alts| > 0 && AllWellFormed(alts)
    ensures var head := Branch(m, alts, lazy, base);
      var next := base + |head| + 1;
      && CodeAlt(m, alts, lazy, base, end)
         == head + [IJump(end)] + CodeAlt(m, alts[1..], lazy, next, end)
      && JumpPositions(alts, base) == [base + |head|] + JumpPositions(alts[1..], next)
    ensures AllWellFormed(alts[1..])
  {
    hide Code, Size;
  }

  lemma NoBranches(m: Mode, lazy: bool, pre: seq<Insn>, end: nat)
    ensures CodeAlt(m, [], lazy, |pre|, end) == [] && JumpPositions([], |pre|) == []
    ensures PatchJumps(pre + CodeAlt(m, [], lazy, |pre|, 0), JumpPositions([], |pre|), end)
         == pre + CodeAlt(m, [], lazy, |pre|, end)
  {
  }

  /** Filling in the jumps of an alternation emitted with placeholder target 0 gives the
      alternation with its real target. */
  lemma {:induction false} PatchedAlt(m: Mode, alts: seq<Ast>, lazy: bool, pre: seq<Insn>, end: nat)
    requires AllWellFormed(alts)
    ensures PatchJumps(pre + CodeAlt(m, alts, lazy, |pre|, 0), JumpPositions(alts, |pre|), end)
         == pre + CodeAlt(m, alts, lazy, |pre|, end)
    decreases alts
  {
    hide *;
    if alts == [] {
      NoBranches(m, lazy, pre, end);
    } else {
      var head := Branch(m, alts, lazy, |pre|);
      var pre' := pre + head + [IJump(end)];
      AltUnfold(m, alts, lazy, |pre|, 0);
      AltUnfold(m, alts, lazy, |pre|, end);
      PatchOne(pre, head, CodeAlt(m, alts[1..], lazy, |pre'|, 0), JumpPositions(alts[1..], |pre'|), end);
      PatchedAlt(m, alts[1..], lazy, pre', end);
      assert pre' + CodeAlt(m, alts[1..], lazy, |pre'|, end)
          == pre + (head + [IJump(end)] + CodeAlt(m, alts[1..], lazy, |pre'|, end));
    }
  }

  lemma Assoc(a: seq<Insn>, b: seq<Insn>, c: seq<Insn>)
    ensures a + (b + c) == (a + b) + c
  {
  }

  // ----- the compiler -----

  class Compiler {
    var insns: seq<Insn>
    var lazyCtx: bool
    const mode: Mode

    constructor (mode: Mode)
      ensures this.mode == mode && insns == [] && !lazyCtx
    {
      this.mode := mode;
      insns, lazyCtx := [], false;
    }

    method Emit(insn: Insn) returns (at: nat)
      modifies this`insns
      ensures insns == old(insns) + [insn] && at == |old(insns)|
    {
      insns := insns + [insn];
      at := |insns| - 1;
    }

    /** Fill in a split emitted as a placeholder. */
    method PatchSplit(split: nat, insn: Insn)
      requires split < |insns|
      modifies this`insns
      ensures insns == if old(insns)[split].ISplit? then old(insns)[split := insn] else old(insns)
    {
      if insns[split].ISplit? {
        insns := insns[split := insn];
      }
    }

    /** Append the code of `a`; the ambient laziness is restored on exit. */
    method CompileAst(a: Ast)
      requires WellFormed(a)
      modifies this
      ensures insns == old(insns) + Code(mode, a, old(lazyCtx), |old(insns)|)
      ensures lazyCtx == old(lazyCtx)
      decreases a, 0
    {
      hide CodeSeq, CodeAlt, CodeRepeat, SizeAll, SizeAlt, SizeRepeat;
      match a
      case Empty =>
      case Sequence(items) => CompileSeq(items);
      case Alt(alts) => CompileAlt(alts);
      case Repeat(body, min, max, lazy) => CompileRepeat(body, min, max, lazy);
      case Group(body, g) =>
        var _ := Emit(ISaveStart(g));
        CompileAst(body);
        var _ := Emit(ISaveEnd(g));
      case _ =>
        var _ := Emit(Leaf(mode, a));
    }

    method CompileSeq(items: seq<Ast>)
      requires AllWellFormed(items)
      modifies this
      ensures insns == old(insns) + CodeSeq(mode, items, old(lazyCtx), |old(insns)|)
      ensures lazyCtx == old(lazyCtx)
      decreases items, 1
    {
      hide Code, Size, WellFormed;
      var i := 0;
      while i < |items|
        invariant 0 <= i <= |items| && lazyCtx == old(lazyCtx)
        invariant AllWellFormed(items[i..])
        invariant insns + CodeSeq(mode, items[i..], lazyCtx, |insns|)
               == old(insns) + CodeSeq(mode, items, lazyCtx, |old(insns)|)
      {
        ghost var rest := items[i..];
        CompileAst(items[i]);
        assert rest[1..] == items[i + 1..];
        i := i + 1;
      }
    }

    method CompileAlt(alts: seq<Ast>)
      requires |alts| > 0 && AllWellFormed(alts)
      modifies this
      ensures insns == old(insns)
        + CodeAlt(mode, alts, old(lazyCtx), |old(insns)|, |old(insns)| + Size(Alt(alts)))
      ensures lazyCtx == old(lazyCtx)
      decreases alts, 1
    {
      hide Code, CodeAlt, JumpPositions, Branch, PatchJumps;
      var jumps: seq<nat> := [];
      ghost var start := |insns|;
      var i := 0;
      while i < |alts|
        invariant 0 <= i <= |alts| && lazyCtx == old(lazyCtx)
        invariant AllWellFormed(alts[i..])
        invariant insns + CodeAlt(mode, alts[i..], lazyCtx, |insns|, 0)
               == old(insns) + CodeAlt(mode, alts, lazyCtx, start, 0)
        invariant jumps + JumpPositions(alts[i..], |insns|) == JumpPositions(alts, start)
      {
        ghost var rest := alts[i..];
        assert rest[0] == alts[i] && rest[1..] == alts[i + 1..];
        AltUnfold(mode, rest, lazyCtx, |insns|, 0);
        var jump := CompileBranch(rest, alts[i], i + 1 == |alts|);
        jumps := jumps + [jump];
        i := i + 1;
      }
      NoBranches(mode, lazyCtx, insns, 0);
      assert alts[i..] == [];
      assert insns == old(insns) + CodeAlt(mode, alts, lazyCtx, start, 0);
      assert jumps == JumpPositions(alts, start);
      PatchedAlt(mode, alts, lazyCtx, old(insns), |insns|);
      PatchAll(jumps, |insns|);
    }

    /** Emit one branch and its jump, whose target is filled in later. */
    method CompileBranch(ghost rest: seq<Ast>, a: Ast, last: bool) returns (jump: nat)
      requires |rest| > 0 && AllWellFormed(rest) && a == rest[0] && last == (|rest| == 1)
      modifies this
      ensures lazyCtx == old(lazyCtx)
      ensures insns == old(insns) + Branch(mode, rest, lazyCtx, |old(insns)|) + [IJump(0)]
      ensures jump == |insns| - 1
      decreases a, 1
    {
      hide Code, Size, WellFormed;
      if !last {
        var split := Emit(ISplit(0, 0));
        CompileAst(a);
        jump := Emit(IJump(0));
        PatchSplit(split, ISplit(split + 1, |insns|));
      } else {
        CompileAst(a);
        jump := Emit(IJump(0));
      }
    }

    method PatchAll(jumps: seq<nat>, end: nat)
      modifies this`insns
      ensures insns == PatchJumps(old(insns), jumps, end)
    {
      var j := 0;
      while j < |jumps|
        invariant 0 <= j <= |jumps|
        invariant PatchJumps(insns, jumps[j..], end) == PatchJumps(old(insns), jumps, end)
      {
        assert jumps[j..][1..] == jumps[j + 1..];
        if jumps[j] < |insns| && insns[jumps[j]].IJump? {
          insns := insns[jumps[j] := IJump(end)];
        }
        j := j + 1;
      }
    }

    method CompileRepeat(body: Ast, min: nat, max: Option<nat>, lazy: bool)
      requires WellFormed(body) && (max.Some? ==> min <= max.value)
      modifies this
      ensures insns == old(insns)
        + CodeRepeat(mode, body, min, max, lazy || old(lazyCtx), |old(insns)|)
      ensures lazyCtx == old(lazyCtx)
      decreases body, 3
    {
      hide Code, CodeTimes, CodeOptional, CodeStar, SizeRepeat, Size, WellFormed;
      ghost var before := insns;
      var saveLazy := lazyCtx;
      lazyCtx := lazy || lazyCtx;
      CompileTimes(body, min);
      ghost var head, mid := CodeTimes(mode, body, min, lazyCtx, |before|), |insns|;
      match max {
        case Some(mx) =>
          CompileOptional(body, mx - min);
          Assoc(before, head, CodeOptional(mode, body, mx - min, lazyCtx, mid));
        case None =>
          CompileStar(body);
          Assoc(before, head, CodeStar(mode, body, lazyCtx, mid));
      }
      lazyCtx := saveLazy;
    }

    method CompileTimes(body: Ast, k: nat)
      requires WellFormed(body)
      modifies this
      ensures insns == old(insns) + CodeTimes(mode, body, k, lazyCtx, |old(insns)|)
      ensures lazyCtx == old(lazyCtx)
      decreases body, 1
    {
      hide Code, Size;
      for i := 0 to k
        invariant lazyCtx == old(lazyCtx)
        invariant insns + CodeTimes(mode, body, k - i, lazyCtx, |insns|)
               == old(insns) + CodeTimes(mode, body, k, lazyCtx, |old(insns)|)
      {
        CompileAst(body);
      }
    }

    method CompileOptional(body: Ast, k: nat)
      requires WellFormed(body)
      modifies this
      ensures insns == old(insns) + CodeOptional(mode, body, k, lazyCtx, |old(insns)|)
      ensures lazyCtx == old(lazyCtx)
      decreases body, 2
    {
      hide Code, OneOptional, Size, WellFormed;
      for i := 0 to k
        invariant lazyCtx == old(lazyCtx)
        invariant insns + CodeOptional(mode, body, k - i, lazyCtx, |insns|)
               == old(insns) + CodeOptional(mode, body, k, lazyCtx, |old(insns)|)
      {
        ghost var before := insns;
        CompileOne(body);
        Assoc(before, OneOptional(mode, body, lazyCtx, |before|),
              CodeOptional(mode, body, k - i - 1, lazyCtx, |insns|));
      }
    }

    method CompileOne(body: Ast)
      requires WellFormed(body)
      modifies this
      ensures insns == old(insns) + OneOptional(mode, body, lazyCtx, |old(insns)|)
      ensures lazyCtx == old(lazyCtx)
      decreases body, 1
    {
      hide Code, Size;
      var split := Emit(ISplit(0, 0));
      CompileAst(body);
      PatchSplit(split, if lazyCtx then ISplit(|insns|, split + 1) else ISplit(split + 1, |insns|));
    }

    method CompileStar(body: Ast)
      requires WellFormed(body)
      modifies this
      ensures insns == old(insns) + CodeStar(mode, body, lazyCtx, |old(insns)|)
      ensures lazyCtx == old(lazyCtx)
      decreases body, 1
    {
      hide Code, Size;
      var split := Emit(ISplit(0, 0));
      CompileAst(body);
      var _ := Emit(IJump(split));
      PatchSplit(split, if lazyCtx then ISplit(|insns|, split + 1) else ISplit(split + 1, |insns|));
    }
  }

  /** Compile a whole pattern. */
  method Compile(mode: Mode, a: Ast) returns (insns: seq<Insn>)
    requires WellFormed(a)
    ensures insns == Program(mode, a)
  {
    hide Code, Size, WellFormed;
    var c := new Compiler(mode);
    c.CompileAst(a);
    var _ := c.Emit(IMatch);
    insns := c.insns;
  }
}

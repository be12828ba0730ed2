/** The matcher: the budgeted backtracking loop over reused scratch buffers, and the
    leftmost search built on it. */
module RegexVm {
  import opened Integers
  import opened Wrappers
  import opened RegexSyntax
  import opened RegexGrammar
  import opened RegexParser
  import opened RegexCompiler
  import opened RegexSemantics
  import opened RegexMachine
  import opened RegexCorrectness
  import opened RegexPaths


  function SaturatingMul(a: nat, b: nat): nat {
    if a * b > U64_MAX then U64_MAX else a * b
  }

  function SaturatingAdd(a: nat, b: nat): nat {
    if a + b > U64_MAX then U64_MAX else a + b
  }

  /** The step budget of one attempt. */
  function StepBudget(subject: nat, program: nat): nat {
    SaturatingAdd(SaturatingMul(SaturatingMul(subject, program), 100), 100_000)
  }

  /** The captures an attempt starts with. */
  function FreshCaps(groups: nat, st: nat): seq<Capture> {
    [Some((st, st))] + seq(groups, _ => None)
  }

  function StartAt(groups: nat, st: nat): Config {
    Config(st, FreshCaps(groups, st))
  }

  /** The backtrack stack, whose top is at the end, as pending threads. */
  function TopFirst(stack: seq<Thread>): (ts: seq<Thread>)
    ensures forall t :: t in ts <==> t in stack
  {
    if stack == [] then [] else
      var n := |stack| - 1;
      assert stack == stack[..n] + [stack[n]];
      [stack[n]] + TopFirst(stack[..n])
  }

  lemma TopFirstPush(stack: seq<Thread>, t: Thread)
    ensures TopFirst(stack + [t]) == [t] + TopFirst(stack)
  {
    assert (stack + [t])[..|stack|] == stack;
  }

  /** The buffers that an attempt works in; `FindAt` allocates them once. */
  class Scratch {
    var caps: seq<Capture>
    var stack: seq<Thread>
    var budget: nat

    constructor (groups: nat)
      ensures |caps| == groups + 1 && stack == []
    {
      caps := seq(groups + 1, _ => None);
      stack := [];
      budget := 0;
    }

    /** Resume the most recent alternative, if there is one. */
    method Backtrack(pc: nat, si: nat) returns (ok: bool, pc': nat, si': nat)
      modifies this
      ensures budget == old(budget)
      ensures ok <==> old(stack) != []
      ensures ok ==> TopFirst(old(stack)) == [Thread(pc', Config(si', caps))] + TopFirst(stack)
      ensures !ok ==> TopFirst(old(stack)) == []
    {
      if stack == [] {
        return false, pc, si;
      }
      var top := stack[|stack| - 1];
      stack := stack[..|stack| - 1];
      caps := top.o.caps;
      return true, top.pc, top.o.si;
    }
  }

  class Compiled {
    ghost const pattern: Ast
    const insns: seq<Insn>
    const groups: nat
    const mode: Mode

    ghost predicate Valid() {
      WellFormed(pattern) && insns == Program(mode, pattern)
    }

    ghost function Machine(s: string): Env {
      Env(insns, mode, s)
    }

    constructor (mode: Mode, pattern: Ast, groups: nat)
      requires WellFormed(pattern)
      ensures Valid() && this.mode == mode && this.pattern == pattern && this.groups == groups
    {
      var code := Compile(mode, pattern);
      this.mode, this.pattern, this.groups, this.insns := mode, pattern, groups, code;
    }

    /** One attempt from position `start`. It returns true exactly when the machine accepts
        within the budget, and then leaves the accepted captures behind. */
    method Run(s: string, start: nat, sc: Scratch) returns (ok: bool)
      requires Sound(s, Config(start, sc.caps)) && AllThreads(s, TopFirst(sc.stack))
      modifies sc
      ensures var v := Exec(Machine(s), [Thread(0, Config(start, old(sc.caps)))] + TopFirst(old(sc.stack)), old(sc.budget));
        && ok == v.Matched?
        && (ok ==> sc.caps == v.o.caps)
    {
      hide Exec, TopFirst;
      var si: nat, pc: nat := start, 0;
      ghost var e := Machine(s);
      ghost var v := Exec(e, [Thread(0, Config(start, sc.caps))] + TopFirst(sc.stack), sc.budget);
      while true
        invariant Sound(s, Config(si, sc.caps)) && AllThreads(s, TopFirst(sc.stack))
        invariant Exec(e, [Thread(pc, Config(si, sc.caps))] + TopFirst(sc.stack), sc.budget) == v
        decreases sc.budget
      {
        ghost var t, rest, budget := Thread(pc, Config(si, sc.caps)), TopFirst(sc.stack), sc.budget;
        ExecUnfold(e, t, rest, budget);
        if sc.budget == 0 {
          return false;
        }
        sc.budget := sc.budget - 1;
        if pc >= |insns| {
          return false;
        }
        var insn := insns[pc];
        if insn.IMatch? {
          if sc.caps != [] && sc.caps[0].Some? {
            sc.caps := sc.caps[0 := Some((sc.caps[0].value.0, si))];
          }
          return true;
        }
        if insn.IJump? {
          pc := insn.target;
        } else if insn.ISplit? {
          sc.stack := sc.stack + [Thread(insn.second, Config(si, sc.caps))];
          TopFirstPush(sc.stack[..|sc.stack| - 1], Thread(insn.second, Config(si, sc.caps)));
          assert sc.stack[..|sc.stack| - 1] + [Thread(insn.second, Config(si, sc.caps))] == sc.stack;
          pc := insn.first;
          assert [Thread(insn.first, t.o), Thread(insn.second, t.o)] + rest
              == [Thread(pc, t.o)] + TopFirst(sc.stack);
        } else if insn.ISaveStart? {
          if insn.g < |sc.caps| {
            sc.caps := sc.caps[insn.g := Some((si, si))];
          }
          pc := pc + 1;
        } else if insn.ISaveEnd? {
          if insn.g < |sc.caps| && sc.caps[insn.g].Some? {
            sc.caps := sc.caps[insn.g := Some((sc.caps[insn.g].value.0, si))];
          }
          pc := pc + 1;
        } else {
          var matched;
          matched, si := Test(s, insn, si, sc);
          if matched {
            pc := pc + 1;
          } else {
            assert [] + rest == rest;
            var more;
            more, pc, si := sc.Backtrack(pc, si);
            ExecNil(e, budget - 1);
            if !more {
              return false;
            }
            assert Thread(pc, Config(si, sc.caps)) in rest;
          }
        }
      }
    }

    /** A test instruction: does it accept at `si`, and where does it leave the position? */
    method Test(s: string, insn: Insn, si: nat, sc: Scratch) returns (matched: bool, si': nat)
      requires IsTest(insn) && Sound(s, Config(si, sc.caps))
      ensures var next := Advance(mode, s, insn, Config(si, sc.caps));
        && matched == next.Some?
        && si' == if matched then next.value.si else si
    {
      si' := si;
      if insn.IAnchorStart? {
        matched := si == 0 || (mode.newlineSensitive && si > 0 && s[si - 1] == '\n');
      } else if insn.IAnchorEnd? {
        matched := si == |s| || (mode.newlineSensitive && si < |s| && s[si] == '\n');
      } else if insn.IBackRef? {
        matched := false;
        if insn.g < |sc.caps| && sc.caps[insn.g].Some? {
          var (gs, ge) := sc.caps[insn.g].value;
          var len := ge - gs;
          if si + len <= |s| && SameText(mode, s[gs..ge], s[si..si + len]) {
            matched, si' := true, si + len;
          }
        }
      } else {
        matched := si < |s| && Accepts(mode, insn, s[si]);
        if matched { si' := si + 1; }
      }
    }

    /** The attempt at `st` ran out of steps. */
    ghost predicate Exhausts(s: string, st: nat)
      requires st <= |s|
    {
      Attempt(s, st).Exhausted?
    }

    ghost function Attempt(s: string, st: nat): Verdict
      requires st <= |s|
    {
      Exec(Machine(s), [Thread(0, StartAt(groups, st))], StepBudget(|s|, |insns|))
    }

    /** The pattern matches at `st`. */
    ghost predicate MatchesAt(s: string, st: nat)
      requires st <= |s|
    {
      exists x :: Matches(mode, s, pattern, StartAt(groups, st), x)
    }

    /** What a reported match is: a match of the pattern, and for a pattern without empty
        loops the preferred one. */
    ghost predicate Reported(s: string, st: nat, x: Config, end: nat, caps: seq<Capture>)
      requires st <= |s| && WellFormed(pattern)
    {
      && Matches(mode, s, pattern, StartAt(groups, st), x)
      && end == x.si && caps == CloseGroup(x, 0).caps && |caps| == groups + 1
      && (Productive(mode, s, pattern) ==>
            Matched(CloseGroup(x, 0)) == FirstOutcome(Outcomes(mode, s, pattern, false, StartAt(groups, st))))
    }

    /** Leftmost search. Every position before the reported one either has no match or used
        up its step budget; likewise every position when nothing is reported. */
    method FindAt(s: string, start: nat) returns (r: Option<(nat, nat, seq<Capture>)>)
      requires Valid()
      ensures r.Some? ==>
        && start <= r.value.0 <= |s|
        && exists x :: Reported(s, r.value.0, x, r.value.1, r.value.2)
      ensures var upto := if r.Some? then r.value.0 else |s| + 1;
        forall st | start <= st < upto :: Exhausts(s, st) || !MatchesAt(s, st)
    {
      hide StartAt, Matches, Outcomes, Productive, FirstOutcome, WellFormed, Program, Exec, StepBudget, CloseGroup;
      var sc := new Scratch(groups);
      var st := start;
      while st <= |s|
        invariant start <= st && (start <= |s| ==> st <= |s| + 1) && fresh(sc)
        invariant forall p | start <= p < st && p <= |s| :: Exhausts(s, p) || !MatchesAt(s, p)
        decreases |s| + 1 - st
      {
        sc.caps := FreshCaps(groups, st);
        sc.stack := [];
        sc.budget := StepBudget(|s|, |insns|);
        StartSound(s, st);
        assert [Thread(0, Config(st, sc.caps))] + TopFirst(sc.stack) == [Thread(0, Config(st, sc.caps))];
        var ok := Run(s, st, sc);
        if ok {
          Accepted(s, st);
          var (ms, me) := sc.caps[0].value;
          return Some((ms, me, sc.caps));
        }
        Rejected(s, st);
        st := st + 1;
      }
      r := None;
    }

    lemma StartSound(s: string, st: nat)
      requires st <= |s|
      ensures Sound(s, Config(st, FreshCaps(groups, st))) && StartAt(groups, st) == Config(st, FreshCaps(groups, st))
    {
    }

    lemma Rejected(s: string, st: nat)
      requires Valid() && st <= |s| && !Attempt(s, st).Matched?
      ensures Exhausts(s, st) || !MatchesAt(s, st)
    {
      hide Matches, Exec, WellFormed, StepBudget;
      StartSound(s, st);
      RunDecidesMatching(mode, s, pattern, StartAt(groups, st), StepBudget(|s|, |insns|));
    }

    lemma Accepted(s: string, st: nat)
      requires Valid() && st <= |s| && Attempt(s, st).Matched?
      ensures var caps := Attempt(s, st).o.caps;
        && caps != [] && caps[0].Some? && caps[0].value.0 == st
        && exists x :: Reported(s, st, x, caps[0].value.1, caps)
    {
      hide Matches, Exec, WellFormed, StepBudget, Outcomes, Productive, FirstOutcome, Program;
      StartSound(s, st);
      var o, budget := StartAt(groups, st), StepBudget(|s|, |insns|);
      RunDecidesMatching(mode, s, pattern, o, budget);
      var c := Attempt(s, st).o;
      var x :| Matches(mode, s, pattern, o, x) && c == CloseGroup(x, 0);
      MatchKeepsZero(mode, s, pattern, o, x);
      if Productive(mode, s, pattern) {
        CompiledRunsFirstOutcome(mode, s, pattern, o);
        ReachesUnique(Machine(s), [Thread(0, o)], FirstOutcome(Outcomes(mode, s, pattern, false, o)), budget);
      }
      assert Reported(s, st, x, c.caps[0].value.1, c.caps);
    }
  }

  lemma ExecNil(e: Env, budget: nat)
    ensures Exec(e, [], budget) == Failed
  {
  }

  /** `compile_opts` without its cache: parse, then compile. What it returns is the program of the
      tree that the pattern spells, with as many groups as the pattern has. */
  method CompileOpts(pattern: string, mode: Mode, reader: ClassReader) returns (r: Result<Compiled, ParseError>)
    requires Sane(reader)
    ensures match ReadPattern(reader, pattern)
            case Err(e) => r == Err(e)
            case Ok(p) => r.Ok? && (r.value.pattern, r.value.groups) == p
    ensures r.Ok? ==> fresh(r.value) && r.value.Valid() && r.value.mode == mode
    ensures r.Ok? ==> GroupIds(r.value.pattern) == Numbered(0, r.value.groups)
  {
    hide WellFormed, GroupIds, Program, ReadPattern;
    var parsed := ParsePattern(pattern, reader);
    if parsed.Err? { return Err(parsed.error); }
    var c := new Compiled(mode, parsed.value.0, parsed.value.1);
    return Ok(c);
  }
}

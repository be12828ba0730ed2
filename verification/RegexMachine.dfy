/** The backtracking machine: one instruction at a time over a list of pending threads,
    first the running one, then the saved ones from the most recent to the oldest. */
module RegexMachine {
  import opened Wrappers
  import opened RegexSyntax

  datatype Thread = Thread(pc: nat, o: Config)

  ghost predicate AllThreads(s: string, ts: seq<Thread>) {
    forall t | t in ts :: Sound(s, t.o)
  }

  /** A program, its match options, and the subject. */
  datatype Env = Env(prog: seq<Insn>, m: Mode, s: string)

  datatype StepResult =
    | Next(ts: seq<Thread>)   // replace the running thread by these
    | Accept(o: Config)
    | Halt                    // the program counter left the program

  datatype Verdict = Matched(o: Config) | Failed | Exhausted

  function Step(e: Env, t: Thread): (r: StepResult)
    requires Sound(e.s, t.o)
    ensures r.Next? ==> AllThreads(e.s, r.ts)
  {
    if t.pc >= |e.prog| then Halt else
    match e.prog[t.pc]
    case IJump(target) => Next([Thread(target, t.o)])
    case ISplit(first, second) => Next([Thread(first, t.o), Thread(second, t.o)])
    case ISaveStart(g) => Next([Thread(t.pc + 1, OpenGroup(t.o, g))])
    case ISaveEnd(g) => Next([Thread(t.pc + 1, CloseGroup(t.o, g))])
    case IMatch => Accept(CloseGroup(t.o, 0))
    case insn =>
      var next := Advance(e.m, e.s, insn, t.o);
      if next.Some? then Next([Thread(t.pc + 1, next.value)]) else Next([])
  }

  /** The verdict within a step budget. */
  function Exec(e: Env, ts: seq<Thread>, budget: nat): Verdict
    requires AllThreads(e.s, ts)
    decreases budget
  {
    if ts == [] then Failed
    else if budget == 0 then Exhausted
    else
      match Step(e, ts[0])
      case Halt => Failed
      case Accept(o) => Matched(o)
      case Next(more) => Exec(e, more + ts[1..], budget - 1)
  }

  lemma ExecUnfold(e: Env, t: Thread, rest: seq<Thread>, budget: nat)
    requires Sound(e.s, t.o) && AllThreads(e.s, rest)
    ensures var v := Exec(e, [t] + rest, budget);
      if budget == 0 then v == Exhausted
      else match Step(e, t)
        case Halt => v == Failed
        case Accept(o) => v == Matched(o)
        case Next(more) => v == Exec(e, more + rest, budget - 1)
  {
    assert ([t] + rest)[1..] == rest;
  }

  /** More budget never changes a verdict that was reached. */
  lemma {:induction false} ExecMonotone(e: Env, ts: seq<Thread>, b: nat, c: nat)
    requires AllThreads(e.s, ts) && b <= c
    requires !Exec(e, ts, b).Exhausted?
    ensures Exec(e, ts, c) == Exec(e, ts, b)
    decreases b
  {
    if ts != [] {
      match Step(e, ts[0])
      case Next(more) => ExecMonotone(e, more + ts[1..], b - 1, c - 1);
      case _ =>
    }
  }

  /** With enough budget the verdict is `v`. */
  ghost predicate Reaches(e: Env, ts: seq<Thread>, v: Verdict)
    requires AllThreads(e.s, ts)
  {
    !v.Exhausted? && exists n: nat :: Exec(e, ts, n) == v
  }

  lemma ReachesUnique(e: Env, ts: seq<Thread>, v: Verdict, b: nat)
    requires AllThreads(e.s, ts) && Reaches(e, ts, v)
    requires !Exec(e, ts, b).Exhausted?
    ensures Exec(e, ts, b) == v
  {
    var n: nat :| Exec(e, ts, n) == v;
    if n <= b { ExecMonotone(e, ts, n, b); } else { ExecMonotone(e, ts, b, n); }
  }

  /** A step taken backwards. */
  lemma ReachesStep(e: Env, t: Thread, rest: seq<Thread>, v: Verdict)
    requires Sound(e.s, t.o) && AllThreads(e.s, rest)
    requires Step(e, t).Next?
    requires Reaches(e, Step(e, t).ts + rest, v)
    ensures AllThreads(e.s, [t] + rest) && Reaches(e, [t] + rest, v)
  {
    var more := Step(e, t).ts;
    var n: nat :| Exec(e, more + rest, n) == v;
    assert ([t] + rest)[1..] == rest;
    assert Exec(e, [t] + rest, n + 1) == v;
  }

  /** Threads behind a common prefix may be replaced by others that reach the same verdict. */
  lemma {:induction false} ReplaceTail(e: Env,
    front: seq<Thread>, old_: seq<Thread>, new_: seq<Thread>, v: Verdict, n: nat)
    requires AllThreads(e.s, front) && AllThreads(e.s, old_) && AllThreads(e.s, new_)
    requires !v.Exhausted? && Exec(e, front + old_, n) == v
    requires Reaches(e, old_, v) ==> Reaches(e, new_, v)
    ensures Reaches(e, front + new_, v)
    decreases n
  {
    if front == [] {
      assert front + old_ == old_ && front + new_ == new_;
    } else {
      var t := front[0];
      assert (front + old_)[0] == t && (front + new_)[0] == t;
      assert (front + old_)[1..] == front[1..] + old_;
      assert front + new_ == [t] + (front[1..] + new_);
      assert forall x | x in front[1..] :: x in front;
      match Step(e, t)
      case Halt => assert Exec(e, front + new_, 1) == v;
      case Accept(_) => assert Exec(e, front + new_, 1) == v;
      case Next(more) =>
        assert more + (front[1..] + old_) == (more + front[1..]) + old_;
        assert more + (front[1..] + new_) == (more + front[1..]) + new_;
        ReplaceTail(e, more + front[1..], old_, new_, v, n - 1);
        ReachesStep(e, t, front[1..] + new_, v);
    }
  }

  lemma ReachesReplaceTail(e: Env,
    front: seq<Thread>, old_: seq<Thread>, new_: seq<Thread>, v: Verdict)
    requires AllThreads(e.s, front) && AllThreads(e.s, old_) && AllThreads(e.s, new_)
    requires Reaches(e, front + old_, v)
    requires Reaches(e, old_, v) ==> Reaches(e, new_, v)
    ensures Reaches(e, front + new_, v)
  {
    var n: nat :| Exec(e, front + old_, n) == v;
    ReplaceTail(e, front, old_, new_, v, n);
  }
}

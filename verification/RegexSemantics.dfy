/** What a pattern means. `Outcomes` lists every way an AST can match from a configuration,
    most preferred first; `Matches` is the unordered meaning, written without any notion of
    preference, program or backtracking. */
module RegexSemantics {
  import opened Wrappers
  import opened RegexSyntax

  ghost predicate AllSound(s: string, os: seq<Config>) {
    forall o | o in os :: Sound(s, o)
  }

  // ----- ordered semantics -----

  /** Outcomes that consumed something. */
  function Progress(os: seq<Config>, si: nat): (r: seq<Config>)
    ensures forall o | o in r :: o in os && si < o.si
    ensures forall o | o in os && si < o.si :: o in r
    ensures (forall o | o in os :: si < o.si) ==> r == os
  {
    if os == [] then []
    else
      assert forall o | o in os[1..] :: o in os;
      (if si < os[0].si then [os[0]] else []) + Progress(os[1..], si)
  }

  function CloseAll(os: seq<Config>, g: nat): seq<Config> {
    if os == [] then [] else [CloseGroup(os[0], g)] + CloseAll(os[1..], g)
  }

  /** Entering is preferred, unless the choice is lazy. */
  function Choice(lazy: bool, enter: seq<Config>, skip: Config): seq<Config> {
    if lazy then [skip] + enter else enter + [skip]
  }

  function Outcomes(m: Mode, s: string, a: Ast, lazy: bool, o: Config): (r: seq<Config>)
    requires WellFormed(a) && Sound(s, o)
    ensures AllSound(s, r)
    decreases a, 0
  {
    match a
    case Empty => [o]
    case Sequence(items) => OutcomesSeq(m, s, items, lazy, [o])
    case Alt(alts) => OutcomesAlt(m, s, alts, lazy, o)
    case Repeat(body, min, max, lz) => OutcomesRepeat(m, s, body, min, max, lz || lazy, o)
    case Group(body, g) => OutcomesGroup(m, s, body, g, lazy, o)
    case _ =>
      var next := Advance(m, s, Leaf(m, a), o);
      if next.Some? then [next.value] else []
  }

  /** The outcomes from each configuration of a list, in list order. */
  function OutcomesAll(m: Mode, s: string, a: Ast, lazy: bool, os: seq<Config>): (r: seq<Config>)
    requires WellFormed(a) && AllSound(s, os)
    ensures AllSound(s, r)
    decreases a, 1, |os|
  {
    if os == [] then []
    else Outcomes(m, s, a, lazy, os[0]) + OutcomesAll(m, s, a, lazy, os[1..])
  }

  function OutcomesSeq(m: Mode, s: string, items: seq<Ast>, lazy: bool, os: seq<Config>): (r: seq<Config>)
    requires AllWellFormed(items) && AllSound(s, os)
    ensures AllSound(s, r)
    decreases items, 0
  {
    if items == [] then os
    else OutcomesSeq(m, s, items[1..], lazy, OutcomesAll(m, s, items[0], lazy, os))
  }

  /** Branches are tried left to right. */
  function OutcomesAlt(m: Mode, s: string, alts: seq<Ast>, lazy: bool, o: Config): (r: seq<Config>)
    requires AllWellFormed(alts) && Sound(s, o)
    ensures AllSound(s, r)
    decreases alts, 0
  {
    if alts == [] then []
    else Outcomes(m, s, alts[0], lazy, o) + OutcomesAlt(m, s, alts[1..], lazy, o)
  }

  function OutcomesGroup(m: Mode, s: string, body: Ast, g: nat, lazy: bool, o: Config): (r: seq<Config>)
    requires WellFormed(body) && Sound(s, o)
    ensures AllSound(s, r)
    decreases body, 1
  {
    var inner := Outcomes(m, s, body, lazy, OpenGroup(o, g));
    CloseAllSound(s, inner, g);
    CloseAll(inner, g)
  }

  lemma {:induction false} CloseAllSound(s: string, os: seq<Config>, g: nat)
    requires AllSound(s, os)
    ensures AllSound(s, CloseAll(os, g))
  {
    if os != [] {
      assert os[0] in os && forall o | o in os[1..] :: o in os;
      assert Sound(s, CloseGroup(os[0], g));
      CloseAllSound(s, os[1..], g);
    }
  }

  /** min copies, then max - min optionals one after the other, or a loop. */
  function OutcomesRepeat(m: Mode, s: string, body: Ast, min: nat, max: Option<nat>, lazy: bool, o: Config): (r: seq<Config>)
    requires WellFormed(body) && (max.Some? ==> min <= max.value) && Sound(s, o)
    ensures AllSound(s, r)
    decreases body, 4
  {
    var head := OutcomesTimes(m, s, body, min, lazy, [o]);
    match max
    case Some(mx) => OutcomesOptional(m, s, body, mx - min, lazy, head)
    case None => OutcomesStarAll(m, s, body, lazy, 0, head)
  }

  function OutcomesTimes(m: Mode, s: string, body: Ast, k: nat, lazy: bool, os: seq<Config>): (r: seq<Config>)
    requires WellFormed(body) && AllSound(s, os)
    ensures AllSound(s, r)
    decreases body, 2, k
  {
    if k == 0 then os
    else OutcomesTimes(m, s, body, k - 1, lazy, OutcomesAll(m, s, body, lazy, os))
  }

  function OutcomesOptional(m: Mode, s: string, body: Ast, k: nat, lazy: bool, os: seq<Config>): (r: seq<Config>)
    requires WellFormed(body) && AllSound(s, os)
    ensures AllSound(s, r)
    decreases body, 3, k
  {
    if k == 0 then os
    else OutcomesOptional(m, s, body, k - 1, lazy, OutcomesMaybe(m, s, body, lazy, os))
  }

  function OutcomesMaybe(m: Mode, s: string, body: Ast, lazy: bool, os: seq<Config>): (r: seq<Config>)
    requires WellFormed(body) && AllSound(s, os)
    ensures AllSound(s, r)
    decreases body, 2, |os|
  {
    if os == [] then []
    else Choice(lazy, Outcomes(m, s, body, lazy, os[0]), os[0]) + OutcomesMaybe(m, s, body, lazy, os[1..])
  }

  /** The loop: repeat after every iteration that consumed something, or stop. */
  function OutcomesStar(m: Mode, s: string, body: Ast, lazy: bool, o: Config): (r: seq<Config>)
    requires WellFormed(body) && Sound(s, o)
    ensures AllSound(s, r)
    decreases body, 3, |s| + 1 - o.si, 0
  {
    var once := Progress(Outcomes(m, s, body, lazy, o), o.si);
    Choice(lazy, OutcomesStarAll(m, s, body, lazy, o.si + 1, once), o)
  }

  function OutcomesStarAll(m: Mode, s: string, body: Ast, lazy: bool, lo: nat, os: seq<Config>): (r: seq<Config>)
    requires WellFormed(body) && AllSound(s, os) && lo <= |s| + 1
    requires forall o | o in os :: lo <= o.si
    ensures AllSound(s, r)
    decreases body, 3, |s| + 1 - lo, 1, |os|
  {
    if os == [] then []
    else
      OutcomesStar(m, s, body, lazy, os[0]) + OutcomesStarAll(m, s, body, lazy, lo, os[1..])
  }

  // ----- unordered semantics -----

  ghost predicate Matches(m: Mode, s: string, a: Ast, o: Config, x: Config)
    requires Sound(s, o)
    decreases a, 0
  {
    match a
    case Empty => x == o
    case Lit(c) => o.si < |s| && CharsEq(m, s[o.si], FoldLit(m, c)) && x == o.(si := o.si + 1)
    case Dot => o.si < |s| && (m.newlineSensitive ==> s[o.si] != '\n') && x == o.(si := o.si + 1)
    case Class(cc) =>
      && o.si < |s| && ClassMatches(cc, s[o.si])
      && (m.newlineSensitive && cc.neg ==> s[o.si] != '\n') && x == o.(si := o.si + 1)
    case AnchorStart => AtStart(m, s, o.si) && x == o
    case AnchorEnd => AtEnd(m, s, o.si) && x == o
    case Sequence(items) => MatchesSeq(m, s, items, o, x)
    case Alt(alts) => MatchesSome(m, s, alts, o, x)
    case Repeat(body, min, max, _) =>
      exists k: nat :: min <= k && (max.Some? ==> k <= max.value) && Iterates(m, s, body, k, o, x)
    case Group(body, g) => MatchesGroup(m, s, body, g, o, x)
    case BackRef(g) =>
      var len := BackRefLength(m, s, o, g);
      len.Some? && x == o.(si := o.si + len.value)
  }

  ghost predicate MatchesSeq(m: Mode, s: string, items: seq<Ast>, o: Config, x: Config)
    requires Sound(s, o)
    decreases items, 0
  {
    if items == [] then x == o
    else exists mid | Sound(s, mid) ::
      Matches(m, s, items[0], o, mid) && MatchesSeq(m, s, items[1..], mid, x)
  }

  ghost predicate MatchesSome(m: Mode, s: string, alts: seq<Ast>, o: Config, x: Config)
    requires Sound(s, o)
    decreases alts, 0
  {
    alts != [] && (Matches(m, s, alts[0], o, x) || MatchesSome(m, s, alts[1..], o, x))
  }

  ghost predicate MatchesGroup(m: Mode, s: string, body: Ast, g: nat, o: Config, x: Config)
    requires Sound(s, o)
    decreases body, 1
  {
    exists inner :: Matches(m, s, body, OpenGroup(o, g), inner) && x == CloseGroup(inner, g)
  }

  /** Exactly k matches of the body, one after the other. */
  ghost predicate Iterates(m: Mode, s: string, body: Ast, k: nat, o: Config, x: Config)
    requires Sound(s, o)
    decreases body, 1, k
  {
    if k == 0 then x == o
    else exists mid | Sound(s, mid) ::
      Matches(m, s, body, o, mid) && Iterates(m, s, body, k - 1, mid, x)
  }

  /** The body never matches the empty string anywhere in the subject. */
  ghost predicate Consumes(m: Mode, s: string, body: Ast) {
    forall o, x | Sound(s, o) && Matches(m, s, body, o, x) :: o.si < x.si
  }

  /** No unbounded repeat has a body that can match the empty string. */
  ghost predicate Productive(m: Mode, s: string, a: Ast)
    decreases a, 0
  {
    match a
    case Sequence(items) => AllProductive(m, s, items)
    case Alt(alts) => AllProductive(m, s, alts)
    case Repeat(body, _, max, _) => Productive(m, s, body) && (max.None? ==> Consumes(m, s, body))
    case Group(body, _) => Productive(m, s, body)
    case _ => true
  }

  ghost predicate AllProductive(m: Mode, s: string, items: seq<Ast>)
    decreases items, 0
  {
    items == [] || (Productive(m, s, items[0]) && AllProductive(m, s, items[1..]))
  }

  // ----- iterations compose -----

  lemma {:induction false} IteratesAppend(m: Mode, s: string, body: Ast, j: nat, k: nat, o: Config, mid: Config, x: Config)
    requires Sound(s, o) && Sound(s, mid)
    requires Iterates(m, s, body, j, o, mid) && Iterates(m, s, body, k, mid, x)
    ensures Iterates(m, s, body, j + k, o, x)
    decreases j
  {
    if j != 0 {
      var first :| Sound(s, first) && Matches(m, s, body, o, first) && Iterates(m, s, body, j - 1, first, mid);
      IteratesAppend(m, s, body, j - 1, k, first, mid, x);
    }
  }

  lemma {:induction false} IteratesSplit(m: Mode, s: string, body: Ast, j: nat, k: nat, o: Config, x: Config)
    returns (mid: Config)
    requires Sound(s, o) && Iterates(m, s, body, j + k, o, x)
    ensures Sound(s, mid) && Iterates(m, s, body, j, o, mid) && Iterates(m, s, body, k, mid, x)
    decreases j
  {
    if j == 0 {
      mid := o;
    } else {
      var first :| Sound(s, first) && Matches(m, s, body, o, first) && Iterates(m, s, body, j + k - 1, first, x);
      mid := IteratesSplit(m, s, body, j - 1, k, first, x);
    }
  }

  // ----- every outcome is a match -----

  lemma {:induction false} OutcomeMatches(m: Mode, s: string, a: Ast, lazy: bool, o: Config, x: Config)
    requires WellFormed(a) && Sound(s, o) && x in Outcomes(m, s, a, lazy, o)
    ensures Matches(m, s, a, o, x)
    decreases a, 0
  {
    match a
    case Sequence(items) =>
      var _ := SeqOutcomeMatches(m, s, items, lazy, [o], x);
    case Alt(alts) => AltOutcomeMatches(m, s, alts, lazy, o, x);
    case Repeat(body, min, max, lz) => RepeatOutcomeMatches(m, s, body, min, max, lz, lazy, o, x);
    case Group(body, g) => GroupOutcomeMatches(m, s, body, g, lazy, o, x);
    case _ =>
  }

  lemma {:induction false} AllOutcomeMatches(m: Mode, s: string, a: Ast, lazy: bool, os: seq<Config>, x: Config)
    returns (o: Config)
    requires WellFormed(a) && AllSound(s, os) && x in OutcomesAll(m, s, a, lazy, os)
    ensures o in os && Matches(m, s, a, o, x)
    decreases a, 1, |os|
  {
    hide Outcomes, Matches, WellFormed;
    if x in Outcomes(m, s, a, lazy, os[0]) {
      o := os[0];
      OutcomeMatches(m, s, a, lazy, o, x);
    } else {
      o := AllOutcomeMatches(m, s, a, lazy, os[1..], x);
    }
  }

  lemma {:induction false} SeqOutcomeMatches(m: Mode, s: string, items: seq<Ast>, lazy: bool, os: seq<Config>, x: Config)
    returns (o: Config)
    requires AllWellFormed(items) && AllSound(s, os) && x in OutcomesSeq(m, s, items, lazy, os)
    ensures o in os && MatchesSeq(m, s, items, o, x)
    decreases items, 0
  {
    hide OutcomesAll, Matches, WellFormed;
    if items == [] {
      o := x;
    } else {
      var mid := SeqOutcomeMatches(m, s, items[1..], lazy, OutcomesAll(m, s, items[0], lazy, os), x);
      o := AllOutcomeMatches(m, s, items[0], lazy, os, mid);
    }
  }

  lemma {:induction false} AltOutcomeMatches(m: Mode, s: string, alts: seq<Ast>, lazy: bool, o: Config, x: Config)
    requires AllWellFormed(alts) && Sound(s, o) && x in OutcomesAlt(m, s, alts, lazy, o)
    ensures MatchesSome(m, s, alts, o, x)
    decreases alts, 0
  {
    hide Outcomes, Matches, WellFormed;
    if x in Outcomes(m, s, alts[0], lazy, o) {
      OutcomeMatches(m, s, alts[0], lazy, o, x);
    } else {
      AltOutcomeMatches(m, s, alts[1..], lazy, o, x);
    }
  }

  lemma {:induction false} ClosedFrom(os: seq<Config>, g: nat, x: Config) returns (inner: Config)
    requires x in CloseAll(os, g)
    ensures inner in os && x == CloseGroup(inner, g)
  {
    if x == CloseGroup(os[0], g) { inner := os[0]; } else { inner := ClosedFrom(os[1..], g, x); }
  }

  lemma {:induction false} ClosedInto(os: seq<Config>, g: nat, inner: Config)
    requires inner in os
    ensures CloseGroup(inner, g) in CloseAll(os, g)
  {
    if inner != os[0] { ClosedInto(os[1..], g, inner); }
  }

  lemma {:induction false} GroupOutcomeMatches(m: Mode, s: string, body: Ast, g: nat, lazy: bool, o: Config, x: Config)
    requires WellFormed(body) && Sound(s, o) && x in OutcomesGroup(m, s, body, g, lazy, o)
    ensures MatchesGroup(m, s, body, g, o, x)
    decreases body, 1
  {
    hide Outcomes, Matches, WellFormed;
    var start := OpenGroup(o, g);
    var inner := ClosedFrom(Outcomes(m, s, body, lazy, start), g, x);
    OutcomeMatches(m, s, body, lazy, start, inner);
  }

  lemma {:induction false} RepeatOutcomeMatches(
    m: Mode, s: string, body: Ast, min: nat, max: Option<nat>, lz: bool, lazy: bool, o: Config, x: Config)
    requires WellFormed(Repeat(body, min, max, lz)) && Sound(s, o)
    requires x in OutcomesRepeat(m, s, body, min, max, lz || lazy, o)
    ensures Matches(m, s, Repeat(body, min, max, lz), o, x)
    decreases body, 5
  {
    hide Outcomes, OutcomesTimes, OutcomesOptional, OutcomesStarAll, Iterates;
    var eff := lz || lazy;
    var head := OutcomesTimes(m, s, body, min, eff, [o]);
    var mid, k: nat;
    match max {
      case Some(mx) => mid, k := OptionalOutcomeMatches(m, s, body, mx - min, eff, head, x);
      case None => mid, k := StarAllOutcomeMatches(m, s, body, eff, 0, head, x);
    }
    var start := TimesOutcomeMatches(m, s, body, min, eff, [o], mid);
    IteratesAppend(m, s, body, min, k, o, mid, x);
  }

  lemma {:induction false} TimesOutcomeMatches(m: Mode, s: string, body: Ast, k: nat, lazy: bool, os: seq<Config>, x: Config)
    returns (o: Config)
    requires WellFormed(body) && AllSound(s, os) && x in OutcomesTimes(m, s, body, k, lazy, os)
    ensures o in os && Iterates(m, s, body, k, o, x)
    decreases body, 2, k
  {
    hide OutcomesAll, Matches, WellFormed;
    if k == 0 {
      o := x;
    } else {
      var mid := TimesOutcomeMatches(m, s, body, k - 1, lazy, OutcomesAll(m, s, body, lazy, os), x);
      o := AllOutcomeMatches(m, s, body, lazy, os, mid);
    }
  }

  lemma {:induction false} MaybeOutcomeMatches(m: Mode, s: string, body: Ast, lazy: bool, os: seq<Config>, x: Config)
    returns (o: Config)
    requires WellFormed(body) && AllSound(s, os) && x in OutcomesMaybe(m, s, body, lazy, os)
    ensures o in os && (x == o || Matches(m, s, body, o, x))
    decreases body, 2, |os|
  {
    hide Outcomes, Matches, WellFormed;
    o := os[0];
    if x in Outcomes(m, s, body, lazy, o) {
      OutcomeMatches(m, s, body, lazy, o, x);
    } else if x != o {
      o := MaybeOutcomeMatches(m, s, body, lazy, os[1..], x);
    }
  }

  lemma {:induction false} OptionalOutcomeMatches(m: Mode, s: string, body: Ast, k: nat, lazy: bool, os: seq<Config>, x: Config)
    returns (o: Config, j: nat)
    requires WellFormed(body) && AllSound(s, os) && x in OutcomesOptional(m, s, body, k, lazy, os)
    ensures o in os && j <= k && Iterates(m, s, body, j, o, x)
    decreases body, 3, k
  {
    hide OutcomesMaybe, Matches, WellFormed;
    if k == 0 {
      o, j := x, 0;
    } else {
      var mid, i := OptionalOutcomeMatches(m, s, body, k - 1, lazy, OutcomesMaybe(m, s, body, lazy, os), x);
      o := MaybeOutcomeMatches(m, s, body, lazy, os, mid);
      j := if mid == o then i else i + 1;
    }
  }

  lemma {:induction false} StarOutcomeMatches(m: Mode, s: string, body: Ast, lazy: bool, o: Config, x: Config)
    returns (k: nat)
    requires WellFormed(body) && Sound(s, o) && x in OutcomesStar(m, s, body, lazy, o)
    ensures Iterates(m, s, body, k, o, x)
    decreases body, 3, |s| + 1 - o.si, 0
  {
    hide Outcomes, OutcomesStarAll, Matches, WellFormed;
    if x == o {
      k := 0;
    } else {
      var once := Progress(Outcomes(m, s, body, lazy, o), o.si);
      var mid, j := StarAllOutcomeMatches(m, s, body, lazy, o.si + 1, once, x);
      OutcomeMatches(m, s, body, lazy, o, mid);
      k := j + 1;
    }
  }

  lemma {:induction false} StarAllOutcomeMatches(
    m: Mode, s: string, body: Ast, lazy: bool, lo: nat, os: seq<Config>, x: Config)
    returns (o: Config, k: nat)
    requires WellFormed(body) && AllSound(s, os) && lo <= |s| + 1
    requires forall o | o in os :: lo <= o.si
    requires x in OutcomesStarAll(m, s, body, lazy, lo, os)
    ensures o in os && Iterates(m, s, body, k, o, x)
    decreases body, 3, |s| + 1 - lo, 1, |os|
  {
    hide OutcomesStar, Matches, WellFormed, Iterates;
    if x in OutcomesStar(m, s, body, lazy, os[0]) {
      o := os[0];
      k := StarOutcomeMatches(m, s, body, lazy, o, x);
    } else {
      o, k := StarAllOutcomeMatches(m, s, body, lazy, lo, os[1..], x);
    }
  }

  // ----- every match is an outcome -----

  lemma {:induction false} MatchIsOutcome(m: Mode, s: string, a: Ast, lazy: bool, o: Config, x: Config)
    requires WellFormed(a) && Sound(s, o) && Productive(m, s, a) && Matches(m, s, a, o, x)
    ensures x in Outcomes(m, s, a, lazy, o)
    decreases a, 0
  {
    match a
    case Sequence(items) => MatchInSeq(m, s, items, lazy, [o], o, x);
    case Alt(alts) => MatchInAlt(m, s, alts, lazy, o, x);
    case Repeat(body, min, max, lz) => MatchInRepeat(m, s, body, min, max, lz, lazy, o, x);
    case Group(body, g) => MatchInGroup(m, s, body, g, lazy, o, x);
    case _ =>
  }

  lemma {:induction false} MatchInAll(m: Mode, s: string, a: Ast, lazy: bool, os: seq<Config>, o: Config, x: Config)
    requires WellFormed(a) && AllSound(s, os) && o in os && Productive(m, s, a) && Matches(m, s, a, o, x)
    ensures x in OutcomesAll(m, s, a, lazy, os)
    decreases a, 1, |os|
  {
    hide Outcomes, Matches, WellFormed, Productive;
    if o == os[0] {
      MatchIsOutcome(m, s, a, lazy, o, x);
    } else {
      MatchInAll(m, s, a, lazy, os[1..], o, x);
    }
  }

  lemma {:induction false} MatchInSeq(m: Mode, s: string, items: seq<Ast>, lazy: bool, os: seq<Config>, o: Config, x: Config)
    requires AllWellFormed(items) && AllSound(s, os) && o in os
    requires AllProductive(m, s, items) && MatchesSeq(m, s, items, o, x)
    ensures x in OutcomesSeq(m, s, items, lazy, os)
    decreases items, 0
  {
    hide OutcomesAll, Matches, WellFormed, Productive;
    if items != [] {
      var mid :| Sound(s, mid) && Matches(m, s, items[0], o, mid) && MatchesSeq(m, s, items[1..], mid, x);
      MatchInAll(m, s, items[0], lazy, os, o, mid);
      MatchInSeq(m, s, items[1..], lazy, OutcomesAll(m, s, items[0], lazy, os), mid, x);
    }
  }

  lemma {:induction false} MatchInAlt(m: Mode, s: string, alts: seq<Ast>, lazy: bool, o: Config, x: Config)
    requires AllWellFormed(alts) && Sound(s, o)
    requires AllProductive(m, s, alts) && MatchesSome(m, s, alts, o, x)
    ensures x in OutcomesAlt(m, s, alts, lazy, o)
    decreases alts, 0
  {
    hide Outcomes, Matches, WellFormed, Productive;
    if Matches(m, s, alts[0], o, x) {
      MatchIsOutcome(m, s, alts[0], lazy, o, x);
    } else {
      MatchInAlt(m, s, alts[1..], lazy, o, x);
    }
  }

  lemma {:induction false} MatchInGroup(m: Mode, s: string, body: Ast, g: nat, lazy: bool, o: Config, x: Config)
    requires WellFormed(body) && Sound(s, o) && Productive(m, s, body) && MatchesGroup(m, s, body, g, o, x)
    ensures x in OutcomesGroup(m, s, body, g, lazy, o)
    decreases body, 1
  {
    hide Outcomes, Matches, WellFormed, Productive;
    var start := OpenGroup(o, g);
    var inner :| Matches(m, s, body, start, inner) && x == CloseGroup(inner, g);
    MatchIsOutcome(m, s, body, lazy, start, inner);
    ClosedInto(Outcomes(m, s, body, lazy, start), g, inner);
  }

  lemma {:induction false} MatchInRepeat(
    m: Mode, s: string, body: Ast, min: nat, max: Option<nat>, lz: bool, lazy: bool, o: Config, x: Config)
    requires WellFormed(Repeat(body, min, max, lz)) && Sound(s, o)
    requires Productive(m, s, Repeat(body, min, max, lz)) && Matches(m, s, Repeat(body, min, max, lz), o, x)
    ensures x in OutcomesRepeat(m, s, body, min, max, lz || lazy, o)
    decreases body, 5
  {
    hide Outcomes, OutcomesTimes, OutcomesOptional, OutcomesStarAll, Iterates, Consumes;
    var eff := lz || lazy;
    var k: nat :| min <= k && (max.Some? ==> k <= max.value) && Iterates(m, s, body, k, o, x);
    var mid := IteratesSplit(m, s, body, min, k - min, o, x);
    var head := OutcomesTimes(m, s, body, min, eff, [o]);
    MatchInTimes(m, s, body, min, eff, [o], o, mid);
    match max {
      case Some(mx) => MatchInOptional(m, s, body, mx - min, eff, head, mid, k - min, x);
      case None => MatchInStarAll(m, s, body, eff, 0, head, mid, k - min, x);
    }
  }

  lemma {:induction false} MatchInTimes(m: Mode, s: string, body: Ast, k: nat, lazy: bool, os: seq<Config>, o: Config, x: Config)
    requires WellFormed(body) && AllSound(s, os) && o in os
    requires Productive(m, s, body) && Iterates(m, s, body, k, o, x)
    ensures x in OutcomesTimes(m, s, body, k, lazy, os)
    decreases body, 2, k
  {
    hide OutcomesAll, Matches, WellFormed, Productive;
    if k != 0 {
      var mid :| Sound(s, mid) && Matches(m, s, body, o, mid) && Iterates(m, s, body, k - 1, mid, x);
      MatchInAll(m, s, body, lazy, os, o, mid);
      MatchInTimes(m, s, body, k - 1, lazy, OutcomesAll(m, s, body, lazy, os), mid, x);
    }
  }

  lemma {:induction false} MatchInMaybe(m: Mode, s: string, body: Ast, lazy: bool, os: seq<Config>, o: Config, x: Config)
    requires WellFormed(body) && AllSound(s, os) && o in os && Productive(m, s, body)
    requires x == o || Matches(m, s, body, o, x)
    ensures x in OutcomesMaybe(m, s, body, lazy, os)
    decreases body, 2, |os|
  {
    hide Outcomes, Matches, WellFormed, Productive;
    if o != os[0] {
      MatchInMaybe(m, s, body, lazy, os[1..], o, x);
    } else if x != o {
      MatchIsOutcome(m, s, body, lazy, o, x);
    }
  }

  lemma {:induction false} MatchInOptional(
    m: Mode, s: string, body: Ast, k: nat, lazy: bool, os: seq<Config>, o: Config, j: nat, x: Config)
    requires WellFormed(body) && AllSound(s, os) && o in os && Productive(m, s, body)
    requires j <= k && Iterates(m, s, body, j, o, x)
    ensures x in OutcomesOptional(m, s, body, k, lazy, os)
    decreases body, 3, k
  {
    hide OutcomesMaybe, Matches, WellFormed, Productive;
    if k != 0 {
      var next := OutcomesMaybe(m, s, body, lazy, os);
      if j == 0 {
        MatchInMaybe(m, s, body, lazy, os, o, o);
        MatchInOptional(m, s, body, k - 1, lazy, next, o, 0, x);
      } else {
        var mid :| Sound(s, mid) && Matches(m, s, body, o, mid) && Iterates(m, s, body, j - 1, mid, x);
        MatchInMaybe(m, s, body, lazy, os, o, mid);
        MatchInOptional(m, s, body, k - 1, lazy, next, mid, j - 1, x);
      }
    }
  }

  lemma {:induction false} MatchInStar(m: Mode, s: string, body: Ast, lazy: bool, o: Config, k: nat, x: Config)
    requires WellFormed(body) && Sound(s, o) && Productive(m, s, body) && Consumes(m, s, body)
    requires Iterates(m, s, body, k, o, x)
    ensures x in OutcomesStar(m, s, body, lazy, o)
    decreases body, 3, |s| + 1 - o.si, 0
  {
    hide Outcomes, OutcomesStarAll, Matches, WellFormed, Productive;
    if k != 0 {
      var mid :| Sound(s, mid) && Matches(m, s, body, o, mid) && Iterates(m, s, body, k - 1, mid, x);
      MatchIsOutcome(m, s, body, lazy, o, mid);
      var once := Progress(Outcomes(m, s, body, lazy, o), o.si);
      MatchInStarAll(m, s, body, lazy, o.si + 1, once, mid, k - 1, x);
    }
  }

  lemma {:induction false} MatchInStarAll(
    m: Mode, s: string, body: Ast, lazy: bool, lo: nat, os: seq<Config>, o: Config, k: nat, x: Config)
    requires WellFormed(body) && AllSound(s, os) && lo <= |s| + 1 && o in os
    requires forall o | o in os :: lo <= o.si
    requires Productive(m, s, body) && Consumes(m, s, body) && Iterates(m, s, body, k, o, x)
    ensures x in OutcomesStarAll(m, s, body, lazy, lo, os)
    decreases body, 3, |s| + 1 - lo, 1, |os|
  {
    hide OutcomesStar, Matches, WellFormed, Productive, Consumes, Iterates;
    if o == os[0] {
      MatchInStar(m, s, body, lazy, o, k, x);
    } else {
      MatchInStarAll(m, s, body, lazy, lo, os[1..], o, k, x);
    }
  }

  /** The ordered list holds exactly the matches, whatever the laziness. */
  lemma OutcomesAreMatches(m: Mode, s: string, a: Ast, lazy: bool, o: Config)
    requires WellFormed(a) && Sound(s, o) && Productive(m, s, a)
    ensures forall x :: x in Outcomes(m, s, a, lazy, o) <==> Matches(m, s, a, o, x)
  {
    forall x
      ensures x in Outcomes(m, s, a, lazy, o) <==> Matches(m, s, a, o, x)
    {
      if x in Outcomes(m, s, a, lazy, o) { OutcomeMatches(m, s, a, lazy, o, x); }
      if Matches(m, s, a, o, x) { MatchIsOutcome(m, s, a, lazy, o, x); }
    }
  }
}

/** What single characters, anchors and back-references match, from the character up to the
    search: laws that name neither the tests of the machine nor those of the semantics. */
module RegexTests {
  import opened Integers
  import opened Wrappers
  import opened RegexSyntax
  import opened RegexGrammar
  import opened RegexCompiler
  import opened RegexSemantics
  import opened RegexMachine
  import opened RegexLoops
  import opened RegexParser
  import opened RegexPaths
  import opened RegexCorrectness
  import opened RegexVm

  /** One character is consumed, and it satisfies p. */
  ghost predicate TakesOne(s: string, o: Config, x: Config, p: char -> bool) {
    o.si < |s| && p(s[o.si]) && x == Config(o.si + 1, o.caps)
  }

  predicate Among(cc: CharClass, c: char) {
    (exists i :: 0 <= i < |cc.singles| && cc.singles[i] == c)
    || exists i :: 0 <= i < |cc.ranges| && cc.ranges[i].0 <= c && c <= cc.ranges[i].1
  }

  /** A class takes a character listed or between the ends of a range, both ends included; a
      negated class takes the others, but no newline where newlines are special. */
  lemma ClassTakes(m: Mode, s: string, cc: CharClass, o: Config, x: Config)
    requires Sound(s, o)
    ensures Matches(m, s, Class(cc), o, x) <==>
      TakesOne(s, o, x, c => if cc.neg then !Among(cc, c) && !(m.newlineSensitive && c == '\n') else Among(cc, c))
  {
  }

  lemma RangeTakes(m: Mode, s: string, lo: char, hi: char, neg: bool, o: Config, x: Config)
    requires Sound(s, o)
    ensures Matches(m, s, Class(CharClass(neg, [(lo, hi)], [])), o, x) <==>
      TakesOne(s, o, x, c => if neg then (c < lo || hi < c) && !(m.newlineSensitive && c == '\n') else lo <= c && c <= hi)
  {
    var cc := CharClass(neg, [(lo, hi)], []);
    assert forall c :: Among(cc, c) <==> cc.ranges[0].0 <= c && c <= cc.ranges[0].1;
    ClassTakes(m, s, cc, o, x);
  }

  predicate Digit(c: char) {
    c in "0123456789"
  }

  predicate Word(c: char) {
    'a' <= c <= 'z' || 'A' <= c <= 'Z' || Digit(c) || c == '_'
  }

  /** Space, tab, line feed, carriage return, form feed and vertical tab. */
  predicate Blank(c: char) {
    c as int in {32, 9, 10, 13, 12, 11}
  }

  /** What the class escapes stand for; None for other characters. */
  function EscapeSet(e: char): Option<char -> bool> {
    if e == 'd' then Some(c => Digit(c)) else if e == 'D' then Some(c => !Digit(c))
    else if e == 'w' then Some(c => Word(c)) else if e == 'W' then Some(c => !Word(c))
    else if e == 's' then Some(c => Blank(c)) else if e == 'S' then Some(c => !Blank(c))
    else None
  }

  lemma DigitsAre(c: char)
    ensures Digit(c) <==> '0' <= c <= '9'
  {
  }

  /** The class of an escape, in its members. */
  lemma EscapeMembers(e: char, c: char)
    requires EscapeSet(e).Some?
    ensures Escaped(e).Class? && Escaped(e).cc.neg == (e in "DWS")
    ensures EscapeSet(e).value(c) == (Among(Escaped(e).cc, c) != Escaped(e).cc.neg)
  {
    hide Digit;
    var cc := Escaped(e).cc;
    DigitsAre(c);
    if e == 'd' || e == 'D' {
      assert Among(cc, c) <==> cc.ranges[0].0 <= c && c <= cc.ranges[0].1;
    } else if e == 'w' || e == 'W' {
      WordClass(cc, c);
    } else {
      BlankClass(cc, c);
    }
  }

  lemma WordClass(cc: CharClass, c: char)
    requires cc.ranges == [('a', 'z'), ('A', 'Z'), ('0', '9')] && cc.singles == ['_']
    ensures Among(cc, c) <==> 'a' <= c <= 'z' || 'A' <= c <= 'Z' || '0' <= c <= '9' || c == '_'
  {
    if 'a' <= c <= 'z' { assert cc.ranges[0].0 <= c && c <= cc.ranges[0].1; }
    if 'A' <= c <= 'Z' { assert cc.ranges[1].0 <= c && c <= cc.ranges[1].1; }
    if '0' <= c <= '9' { assert cc.ranges[2].0 <= c && c <= cc.ranges[2].1; }
    if c == '_' { assert cc.singles[0] == c; }
  }

  lemma BlankClass(cc: CharClass, c: char)
    requires cc.ranges == [] && cc.singles == BLANKS
    ensures Among(cc, c) <==> Blank(c)
  {
    var b := cc.singles;
    assert b[0] as int == 32 && b[1] as int == 9 && b[2] as int == 10 && b[3] as int == 13 && b[4] as int == 12 && b[5] as int == 11;
    if Blank(c) {
      var i := if c as int == 32 then 0 else if c as int == 9 then 1 else if c as int == 10 then 2
               else if c as int == 13 then 3 else if c as int == 12 then 4 else 5;
      assert b[i] == c;
    }
  }

  /** The digits, the ASCII letters with digits and underscore, the six blanks, and their
      complements, which take no newline where newlines are special. */
  lemma EscapeTakes(m: Mode, s: string, e: char, o: Config, x: Config)
    requires Sound(s, o) && EscapeSet(e).Some?
    ensures Matches(m, s, Escaped(e), o, x) <==>
      TakesOne(s, o, x, c => EscapeSet(e).value(c) && !(e in "DWS" && m.newlineSensitive && c == '\n'))
  {
    hide Escaped, EscapeSet, Among, Matches;
    EscapeMembers(e, ' ');
    ClassTakes(m, s, Escaped(e).cc, o, x);
    if o.si < |s| { EscapeMembers(e, s[o.si]); }
  }

  /** Any character, but no newline where newlines are special. */
  lemma DotTakes(m: Mode, s: string, o: Config, x: Config)
    requires Sound(s, o)
    ensures Matches(m, s, Dot, o, x) <==> TakesOne(s, o, x, c => !(m.newlineSensitive && c == '\n'))
  {
  }

  /** Itself, or what has the same lower case, for letters whose lower case is one letter. */
  lemma LitTakes(m: Mode, s: string, l: char, o: Config, x: Config)
    requires Sound(s, o)
    ensures !m.ci ==> (Matches(m, s, Ast.Lit(l), o, x) <==> TakesOne(s, o, x, c => c == l))
    ensures m.ci && |m.lower(l)| == 1 && m.lower(m.lower(l)[0]) == m.lower(l) ==>
      (Matches(m, s, Ast.Lit(l), o, x) <==> TakesOne(s, o, x, c => m.lower(c) == m.lower(l)))
  {
  }

  /** A newline splits the subject after k characters. */
  ghost predicate NewlineAt(s: string, k: nat) {
    exists before, after :: s == before + "\n" + after && |before| == k
  }

  lemma NewlineThere(s: string, k: nat)
    ensures NewlineAt(s, k) <==> k < |s| && s[k] == '\n'
  {
    if NewlineAt(s, k) {
      var before, after :| s == before + "\n" + after && |before| == k;
      assert s[k] == (before + "\n")[k];
    }
    if k < |s| && s[k] == '\n' {
      assert s == s[..k] + "\n" + s[k + 1..];
    }
  }

  /** The beginning and the end of the subject, or of a line where newlines are special. */
  lemma AnchorsTake(m: Mode, s: string, o: Config, x: Config)
    requires Sound(s, o)
    ensures Matches(m, s, AnchorStart, o, x) <==>
      x == o && (o.si == 0 || (m.newlineSensitive && NewlineAt(s, o.si - 1)))
    ensures Matches(m, s, AnchorEnd, o, x) <==>
      x == o && (o.si == |s| || (m.newlineSensitive && NewlineAt(s, o.si)))
  {
    hide NewlineAt;
    NewlineThere(s, o.si);
    if o.si > 0 { NewlineThere(s, o.si - 1); }
  }

  /** A back-reference takes the text its group captured, once more; without a capture, nothing. */
  lemma BackRefTakes(m: Mode, s: string, g: nat, o: Config, x: Config)
    requires Sound(s, o) && !m.ci
    ensures Matches(m, s, BackRef(g), o, x) <==>
      && g < |o.caps| && o.caps[g].Some?
      && var text := s[o.caps[g].value.0..o.caps[g].value.1];
         text <= s[o.si..] && x == Config(o.si + |text|, o.caps)
  {
    if g < |o.caps| && o.caps[g].Some? {
      var (a, b) := o.caps[g].value;
      var text := s[a..b];
      if o.si + |text| <= |s| {
        assert s[o.si..][..|text|] == s[o.si..o.si + |text|];
        assert text <= s[o.si..] <==> text == s[o.si..o.si + |text|];
      }
    }
  }

  // ----- searching for a class -----

  lemma LeafStops(m: Mode, s: string, a: Ast, o: Config, budget: nat)
    requires IsLeaf(a) && WellFormed(a) && Sound(s, o) && budget >= 2
    ensures !Exec(Env(Program(m, a), m, s), [Thread(0, o)], budget).Exhausted?
  {
    var e := Env(Program(m, a), m, s);
    assert Program(m, a) == [Leaf(m, a), IMatch];
    hide Program, Advance, Leaf;
    assert [Thread(0, o)] + [] == [Thread(0, o)];
    ExecUnfold(e, Thread(0, o), [], budget);
    var next := Advance(m, s, Leaf(m, a), o);
    if next.Some? {
      var t := Thread(1, next.value);
      assert [t] + [] == [t];
      ExecUnfold(e, t, [], budget - 1);
    } else {
      ExecNil(e, budget - 1);
    }
  }

  /** What a class takes where newlines may be special. */
  predicate Takes(m: Mode, cc: CharClass, c: char) {
    if cc.neg then !Among(cc, c) && !(m.newlineSensitive && c == '\n') else Among(cc, c)
  }

  lemma ClassAttempt(c: Compiled, cc: CharClass, s: string, st: nat)
    requires c.Valid() && c.pattern == Class(cc) && st <= |s|
    ensures !c.Exhausts(s, st) && (c.MatchesAt(s, st) <==> st < |s| && Takes(c.mode, cc, s[st]))
  {
    hide Exec, Program, Among, Matches;
    c.StartSound(s, st);
    var o := StartAt(c.groups, st);
    LeafStops(c.mode, s, Class(cc), o, StepBudget(|s|, |c.insns|));
    forall x {
      ClassTakes(c.mode, s, cc, o, x);
    }
    if st < |s| && Takes(c.mode, cc, s[st]) {
      assert Matches(c.mode, s, Class(cc), o, Config(st + 1, o.caps));
    }
  }

  /** A search for a class finds the first character that it takes, and only that character. */
  method SearchClass(c: Compiled, cc: CharClass, s: string) returns (r: Option<(nat, nat)>)
    requires c.Valid() && c.pattern == Class(cc)
    ensures r.Some? ==>
      && r.value.0 < |s| && r.value.1 == r.value.0 + 1 && Takes(c.mode, cc, s[r.value.0])
      && forall k | 0 <= k < r.value.0 :: !Takes(c.mode, cc, s[k])
    ensures r.None? ==> forall k | 0 <= k < |s| :: !Takes(c.mode, cc, s[k])
  {
    hide Among, Matches, Exec, Program, Takes;
    var found := c.FindAt(s, 0);
    ghost var upto := if found.Some? then found.value.0 else |s| + 1;
    forall k | 0 <= k < upto && k < |s|
      ensures !Takes(c.mode, cc, s[k])
    {
      ClassAttempt(c, cc, s, k);
    }
    if found.None? { return None; }
    ghost var x :| c.Reported(s, found.value.0, x, found.value.1, found.value.2);
    c.StartSound(s, found.value.0);
    ClassTakes(c.mode, s, cc, StartAt(c.groups, found.value.0), x);
    ClassAttempt(c, cc, s, found.value.0);
    return Some((found.value.0, found.value.1));
  }

  lemma EscapePattern(rd: ClassReader, e: char)
    requires Sane(rd)
    ensures ReadPattern(rd, ['\\', e]) == Ok((Escaped(e), 0))
  {
    hide Escaped, ReadPattern;
    var i := Item(Escape(e), One);
    NoItems("", 0);
    assert ItemsFit(rd, [], "");
    assert ItemText(i) == ['\\', e] + "";
    assert ItemFits(rd, i, "") by { assert ItemsText([]) + "" == ""; }
    MoreItems(rd, i, [], "", 0);
    var items := [i] + [];
    assert items == [i] && ItemMeaning(i, 0) == Escaped(e);
    var bs := [Items(items)];
    BranchesUnfold(bs, "", 0);
    assert BranchesFit(rd, bs, "") && BranchesText(bs) == ['\\', e];
    assert BranchesMeaning(bs, 0) == [Escaped(e)];
    assert Spelled(rd, bs, ['\\', e], Escaped(e), 0);
    AcceptsSpellings(rd, ['\\', e], Escaped(e), 0);
  }

  /** From the text of the pattern: a search for an escape finds the first character of its set. */
  method SearchEscape(rd: ClassReader, m: Mode, e: char, s: string) returns (r: Option<nat>)
    requires Sane(rd) && EscapeSet(e).Some?
    ensures var hit := (c: char) => EscapeSet(e).value(c) && !(e in "DWS" && m.newlineSensitive && c == '\n');
      if r.Some? then r.value < |s| && hit(s[r.value]) && forall k | 0 <= k < r.value :: !hit(s[k])
      else forall k | 0 <= k < |s| :: !hit(s[k])
  {
    hide Escaped, EscapeSet, Among, ReadPattern;
    EscapePattern(rd, e);
    var c := CompileOpts(['\\', e], m, rd);
    EscapeMembers(e, ' ');
    forall k | 0 <= k < |s| { EscapeMembers(e, s[k]); }
    var found := SearchClass(c.value, Escaped(e).cc, s);
    r := if found.Some? then Some(found.value.0) else None;
  }

  // ----- captures -----

  /** Matching changes only the captures of its own groups. */
  ghost predicate KeepsCapture(o: Config, x: Config, g: nat) {
    |x.caps| == |o.caps| && (g < |o.caps| ==> x.caps[g] == o.caps[g])
  }

  lemma {:induction false} OthersKept(m: Mode, s: string, a: Ast, g: nat, o: Config, x: Config)
    requires Sound(s, o) && Matches(m, s, a, o, x) && g !in GroupIds(a)
    ensures Sound(s, x) && KeepsCapture(o, x, g)
    decreases a, 0
  {
    hide Iterates, MatchesSeq, MatchesSome, BackRefLength;
    match a
    case Sequence(items) => OthersKeptSeq(m, s, items, g, o, x);
    case Alt(alts) => OthersKeptSome(m, s, alts, g, o, x);
    case Repeat(body, min, max, _) =>
      var k: nat :| min <= k && (max.Some? ==> k <= max.value) && Iterates(m, s, body, k, o, x);
      OthersKeptTimes(m, s, body, g, k, o, x);
    case Group(body, h) =>
      var inner :| Matches(m, s, body, OpenGroup(o, h), inner) && x == CloseGroup(inner, h);
      OthersKept(m, s, body, g, OpenGroup(o, h), inner);
    case _ => if IsLeaf(a) { LeafMatch(m, s, a, o, x); }
  }

  lemma {:induction false} OthersKeptSeq(m: Mode, s: string, items: seq<Ast>, g: nat, o: Config, x: Config)
    requires Sound(s, o) && MatchesSeq(m, s, items, o, x) && g !in GroupIdsOf(items)
    ensures Sound(s, x) && KeepsCapture(o, x, g)
    decreases items, 0
  {
    hide Matches, Sound;
    if items != [] {
      var mid :| Sound(s, mid) && Matches(m, s, items[0], o, mid) && MatchesSeq(m, s, items[1..], mid, x);
      OthersKept(m, s, items[0], g, o, mid);
      OthersKeptSeq(m, s, items[1..], g, mid, x);
    }
  }

  lemma {:induction false} OthersKeptSome(m: Mode, s: string, alts: seq<Ast>, g: nat, o: Config, x: Config)
    requires Sound(s, o) && MatchesSome(m, s, alts, o, x) && g !in GroupIdsOf(alts)
    ensures Sound(s, x) && KeepsCapture(o, x, g)
    decreases alts, 0
  {
    hide Matches, Sound;
    if Matches(m, s, alts[0], o, x) {
      OthersKept(m, s, alts[0], g, o, x);
    } else {
      OthersKeptSome(m, s, alts[1..], g, o, x);
    }
  }

  lemma {:induction false} OthersKeptTimes(m: Mode, s: string, body: Ast, g: nat, k: nat, o: Config, x: Config)
    requires Sound(s, o) && Iterates(m, s, body, k, o, x) && g !in GroupIds(body)
    ensures Sound(s, x) && KeepsCapture(o, x, g)
    decreases body, 1, k
  {
    hide Matches, Sound;
    if k != 0 {
      var mid :| Sound(s, mid) && Matches(m, s, body, o, mid) && Iterates(m, s, body, k - 1, mid, x);
      OthersKept(m, s, body, g, o, mid);
      OthersKeptTimes(m, s, body, g, k - 1, mid, x);
    }
  }

  /** A group captures exactly the text it matched. */
  lemma GroupCaptures(m: Mode, s: string, body: Ast, g: nat, o: Config, x: Config)
    requires Sound(s, o) && g < |o.caps| && g !in GroupIds(body) && Matches(m, s, Group(body, g), o, x)
    ensures |x.caps| == |o.caps| && x.caps[g] == Some((o.si, x.si)) && o.si <= x.si
  {
    hide Matches;
    var start := OpenGroup(o, g);
    GroupUnfold(m, s, body, g, o, x);
    var inner :| Matches(m, s, body, start, inner) && x == CloseGroup(inner, g);
    OthersKept(m, s, body, g, start, inner);
    MatchMoves(m, s, body, start, inner);
  }

  lemma GroupUnfold(m: Mode, s: string, body: Ast, g: nat, o: Config, x: Config)
    requires Sound(s, o) && Matches(m, s, Group(body, g), o, x)
    ensures MatchesGroup(m, s, body, g, o, x)
  {
  }

  // ----- preference -----

  /** How many characters from i on the class takes. */
  function RunOf(m: Mode, s: string, cc: CharClass, i: nat): (k: nat)
    requires i <= |s|
    ensures i + k <= |s| && (forall j | i <= j < i + k :: Takes(m, cc, s[j]))
    ensures i + k < |s| ==> !Takes(m, cc, s[i + k])
    decreases |s| - i
  {
    if i == |s| || !Takes(m, cc, s[i]) then 0 else 1 + RunOf(m, s, cc, i + 1)
  }

  lemma ClassOutcomes(m: Mode, s: string, cc: CharClass, lazy: bool, o: Config)
    requires Sound(s, o)
    ensures Outcomes(m, s, Class(cc), lazy, o)
         == if o.si < |s| && Takes(m, cc, s[o.si]) then [Config(o.si + 1, o.caps)] else []
  {
  }

  /** A greedy loop over a class prefers the longest run, a lazy one the shortest. */
  lemma {:induction false} StarPrefers(m: Mode, s: string, cc: CharClass, lazy: bool, o: Config)
    requires Sound(s, o)
    ensures var os := OutcomesStar(m, s, Class(cc), lazy, o);
      os != [] && os[0] == Config(if lazy then o.si else o.si + RunOf(m, s, cc, o.si), o.caps)
    decreases |s| - o.si
  {
    hide Outcomes, Takes, OutcomesStar;
    ClassOutcomes(m, s, cc, lazy, o);
    StarStep(m, s, cc, lazy, o);
    if o.si < |s| && Takes(m, cc, s[o.si]) {
      StarPrefers(m, s, cc, lazy, Config(o.si + 1, o.caps));
    }
  }

  lemma StarStep(m: Mode, s: string, cc: CharClass, lazy: bool, o: Config)
    requires Sound(s, o)
    ensures OutcomesStar(m, s, Class(cc), lazy, o) == Choice(lazy,
      if o.si < |s| && Takes(m, cc, s[o.si]) then OutcomesStar(m, s, Class(cc), lazy, Config(o.si + 1, o.caps)) else [], o)
  {
    hide Outcomes, Takes;
    ClassOutcomes(m, s, cc, lazy, o);
    if o.si < |s| && Takes(m, cc, s[o.si]) {
      var next := Config(o.si + 1, o.caps);
      assert [next][1..] == [];
      assert OutcomesStarAll(m, s, Class(cc), lazy, o.si + 1, []) == [];
      var more := OutcomesStar(m, s, Class(cc), lazy, next);
      assert more + [] == more;
    }
  }

  /** The branches of an alternation are preferred from left to right. */
  lemma AltPrefers(m: Mode, s: string, a: Ast, b: Ast, lazy: bool, o: Config)
    requires WellFormed(a) && WellFormed(b) && Sound(s, o)
    ensures WellFormed(Alt([a, b]))
    ensures var first, both := Outcomes(m, s, a, lazy, o), Outcomes(m, s, Alt([a, b]), lazy, o);
      && (first != [] ==> both != [] && both[0] == first[0])
      && (first == [] ==> both == Outcomes(m, s, b, lazy, o))
  {
    hide Outcomes, WellFormed;
    AltTwo(m, s, a, b, lazy, o);
  }

  lemma AltTwo(m: Mode, s: string, a: Ast, b: Ast, lazy: bool, o: Config)
    requires WellFormed(a) && WellFormed(b) && Sound(s, o)
    ensures WellFormed(Alt([a, b]))
    ensures Outcomes(m, s, Alt([a, b]), lazy, o) == Outcomes(m, s, a, lazy, o) + Outcomes(m, s, b, lazy, o)
  {
    assert [a, b][1..] == [b] && [b][1..] == [];
    assert AllWellFormed([b]);
    assert OutcomesAlt(m, s, [], lazy, o) == [];
    assert OutcomesAlt(m, s, [b], lazy, o) == Outcomes(m, s, b, lazy, o) + [];
  }
}

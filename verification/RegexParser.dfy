/** The pattern parser (src/regex.rs) outside expanded mode. Each method reads what the grammar of
    RegexGrammar reads, with the same tree, the same rest and the same errors; the trees are well
    formed and their groups are numbered in the order of their opening parentheses. */
module RegexParser {
  import opened Integers
  import opened Wrappers
  import opened Decimal
  import opened RegexSyntax
  import opened RegexGrammar

  // ----- group numbers -----

  /** The group numbers of a tree, in the order of the opening parentheses. */
  function GroupIds(a: Ast): seq<nat> {
    match a
    case Sequence(items) => GroupIdsOf(items)
    case Alt(alts) => GroupIdsOf(alts)
    case Repeat(body, _, _, _) => GroupIds(body)
    case Group(body, g) => [g] + GroupIds(body)
    case _ => []
  }

  function GroupIdsOf(items: seq<Ast>): seq<nat> {
    if items == [] then [] else GroupIds(items[0]) + GroupIdsOf(items[1..])
  }

  /** from + 1, from + 2, ..., to. */
  function Numbered(from: nat, to: nat): (s: seq<nat>)
    requires from <= to
    ensures |s| == to - from && forall i | 0 <= i < |s| :: s[i] == from + 1 + i
  {
    seq(to - from, i => from + 1 + i)
  }

  lemma NumberedJoin(a: nat, b: nat, c: nat)
    requires a <= b <= c
    ensures Numbered(a, b) + Numbered(b, c) == Numbered(a, c)
  {
  }

  /** A tree parsed between two group counts: well formed, and its groups are the new numbers. */
  ghost predicate Parsed(a: Ast, from: nat, to: nat) {
    from <= to && WellFormed(a) && GroupIds(a) == Numbered(from, to)
  }

  ghost predicate ParsedAll(items: seq<Ast>, from: nat, to: nat) {
    from <= to && AllWellFormed(items) && GroupIdsOf(items) == Numbered(from, to)
  }

  lemma ParsedNone(g: nat)
    ensures ParsedAll([], g, g) && Numbered(g, g) == []
  {
  }

  lemma ParsedTogether(items: seq<Ast>, a: nat, b: nat)
    requires ParsedAll(items, a, b)
    ensures Parsed(Sequence(items), a, b) && (items != [] ==> Parsed(Alt(items), a, b))
    ensures |items| == 1 ==> Parsed(items[0], a, b)
    ensures items == [] ==> Parsed(Empty, a, b)
  {
    if |items| == 1 {
      assert items[1..] == [] && GroupIdsOf(items[1..]) == [];
      assert GroupIdsOf(items) == GroupIds(items[0]) + [] == GroupIds(items[0]);
    }
  }

  lemma ParsedGroup(body: Ast, a: nat, b: nat)
    requires Parsed(body, a + 1, b)
    ensures Parsed(Group(body, a + 1), a, b)
  {
    NumberedJoin(a, a + 1, b);
    assert Numbered(a, a + 1) == [a + 1];
  }

  lemma ParsedRepeat(atom: Ast, min: nat, max: Option<nat>, lazy: bool, a: nat, b: nat)
    requires Parsed(atom, a, b) && (max.Some? ==> min <= max.value)
    ensures Parsed(Repeat(atom, min, max, lazy), a, b)
  {
  }

  lemma ParsedLeaf(a: Ast, g: nat)
    requires IsLeaf(a)
    ensures Parsed(a, g, g)
  {
  }

  // ----- what is read is well formed -----

  lemma {:induction false} AltParsed(rd: ClassReader, t: string, g: nat)
    requires Sane(rd) && ReadAlt(rd, t, g).Good?
    ensures var r := ReadAlt(rd, t, g); Parsed(r.v, g, r.g)
    decreases |t|, 4
  {
    hide Parsed, ParsedAll, ReadBranches;
    BranchesParsed(rd, t, g);
    var r := ReadBranches(rd, t, g);
    ParsedTogether(r.v, g, r.g);
  }

  lemma {:induction false} BranchesParsed(rd: ClassReader, t: string, g: nat)
    requires Sane(rd) && ReadBranches(rd, t, g).Good?
    ensures var r := ReadBranches(rd, t, g); ParsedAll(r.v, g, r.g)
    decreases |t|, 3
  {
    hide Parsed, ParsedAll, ReadItems;
    var r := ReadItems(rd, t, g);
    ItemsParsed(rd, t, g);
    ParsedTogether(r.v, g, r.g);
    var more := ReadMore(rd, r.rest, r.g);
    if Starts(r.rest, '|') {
      BranchesParsed(rd, r.rest[1..], r.g);
    } else {
      ParsedNone(r.g);
    }
    ParsedFirst(OfItems(r.v), more.v, g, r.g, more.g);
  }

  lemma ParsedFirst(x: Ast, items: seq<Ast>, a: nat, b: nat, c: nat)
    requires Parsed(x, a, b) && ParsedAll(items, b, c)
    ensures ParsedAll([x] + items, a, c)
  {
    assert ([x] + items)[1..] == items;
    NumberedJoin(a, b, c);
  }

  lemma {:induction false} ItemsParsed(rd: ClassReader, t: string, g: nat)
    requires Sane(rd) && ReadItems(rd, t, g).Good?
    ensures var r := ReadItems(rd, t, g); ParsedAll(r.v, g, r.g)
    decreases |t|, 2
  {
    hide Parsed, ParsedAll, ReadRepeat;
    if SequenceEnds(t) {
      ParsedNone(g);
    } else {
      RepeatParsed(rd, t, g);
      var r := ReadRepeat(rd, t, g);
      ItemsParsed(rd, r.rest, r.g);
      var more := ReadItems(rd, r.rest, r.g);
      ParsedFirst(r.v, more.v, g, r.g, more.g);
    }
  }

  lemma {:induction false} RepeatParsed(rd: ClassReader, t: string, g: nat)
    requires Sane(rd) && t != "" && ReadRepeat(rd, t, g).Good?
    ensures var r := ReadRepeat(rd, t, g); Parsed(r.v, g, r.g)
    decreases |t|, 1
  {
    hide Parsed, ReadAtom, ReadQuant;
    AtomParsed(rd, t, g);
    var r := ReadAtom(rd, t, g);
    var q := SpellsQuant(r.v, r.rest, r.g);
    QuantParsed(q, r.v, g, r.g);
  }

  lemma QuantParsed(q: Quant, atom: Ast, a: nat, b: nat)
    requires QuantFits(q) && Parsed(atom, a, b)
    ensures Parsed(QuantMeaning(q, atom), a, b)
  {
    hide Parsed, Count, Number;
    var r := QuantMeaning(q, atom);
    if !q.One? {
      ParsedRepeat(atom, r.min, r.max, r.lazy, a, b);
    }
  }

  lemma {:induction false} AtomParsed(rd: ClassReader, t: string, g: nat)
    requires Sane(rd) && t != "" && ReadAtom(rd, t, g).Good?
    ensures var r := ReadAtom(rd, t, g); Parsed(r.v, g, r.g)
    decreases |t|, 0
  {
    hide Parsed, ReadAlt, Escaped;
    var u := t[1..];
    if t[0] == '(' {
      if "?:" <= u {
        AltParsed(rd, u[2..], g);
      } else {
        AltParsed(rd, u, g + 1);
        var r := ReadAlt(rd, u, g + 1);
        ParsedGroup(r.v, g, r.g);
      }
    } else {
      LeafRead(rd, t, g);
      ParsedLeaf(ReadAtom(rd, t, g).v, g);
    }
  }

  lemma LeafRead(rd: ClassReader, t: string, g: nat)
    requires Sane(rd) && t != "" && t[0] != '(' && ReadAtom(rd, t, g).Good?
    ensures IsLeaf(ReadAtom(rd, t, g).v) && ReadAtom(rd, t, g).g == g
  {
    hide ReadAlt;
  }

  // ----- the parser -----

  class Parser {
    const chars: string
    const readClass: ClassReader
    var pos: nat
    var groups: nat

    ghost predicate Valid()
      reads this
    {
      pos <= |chars| && Sane(readClass)
    }

    /** The text that is left. */
    ghost function Left(): string
      reads this
      requires Valid()
    {
      chars[pos..]
    }

    /** The method's result and the parser's state are what the grammar reads. */
    ghost predicate Agrees(r: Result<Ast, ParseError>, s: Read<Ast>)
      reads this
      requires Valid()
    {
      match s
      case Bad(e) => r == Err(e)
      case Good(a, rest, g) => r == Ok(a) && Left() == rest && groups == g
    }

    constructor (pattern: string, reader: ClassReader)
      requires Sane(reader)
      ensures Valid() && chars == pattern && readClass == reader && pos == 0 && groups == 0
    {
      chars, readClass, pos, groups := pattern, reader, 0, 0;
    }

    predicate Sees(c: char)
      reads this
    {
      pos < |chars| && chars[pos] == c
    }

    lemma Next()
      requires Valid() && pos < |chars|
      ensures Left() != "" && Left()[0] == chars[pos] && Left()[1..] == chars[pos + 1..]
    {
    }

    method ParseAlt() returns (r: Result<Ast, ParseError>)
      requires Valid()
      modifies this
      ensures Valid() && old(pos) <= pos
      ensures Agrees(r, ReadAlt(readClass, old(Left()), old(groups)))
      decreases |chars| - pos, 3
    {
      hide ReadItems, ReadBranches, OfItems;
      ghost var want := ReadBranches(readClass, Left(), groups);
      FirstBranch(readClass, Left(), groups);
      var first := ParseSeq();
      if first.Err? { return first; }
      var alts := [first.value];
      while Sees('|')
        invariant Valid() && old(pos) <= pos && alts != []
        invariant want == Behind(alts, ReadMore(readClass, Left(), groups))
        decreases |chars| - pos
      {
        Next();
        pos := pos + 1;
        FirstBranch(readClass, Left(), groups);
        ghost var before := alts;
        var next := ParseSeq();
        if next.Err? { return next; }
        alts := alts + [next.value];
        BehindMore(before, next.value, ReadMore(readClass, Left(), groups));
      }
      if pos < |chars| { Next(); }
      assert alts + [] == alts;
      if |alts| == 1 { return Ok(alts[0]); }
      return Ok(Alt(alts));
    }

    method ParseSeq() returns (r: Result<Ast, ParseError>)
      requires Valid()
      modifies this
      ensures Valid() && old(pos) <= pos
      ensures Agrees(r, AsSequence(ReadItems(readClass, old(Left()), old(groups))))
      decreases |chars| - pos, 2
    {
      hide ReadItems, ReadRepeat;
      ghost var want := ReadItems(readClass, Left(), groups);
      var items: seq<Ast> := [];
      BehindNothing(want);
      while pos < |chars| && chars[pos] != '|' && chars[pos] != ')'
        invariant Valid() && old(pos) <= pos
        invariant want == Behind(items, ReadItems(readClass, Left(), groups))
        decreases |chars| - pos
      {
        Next();
        ItemsUnfold(readClass, Left(), groups);
        ghost var before := items;
        var next := ParseRepeat();
        if next.Err? { return next; }
        items := items + [next.value];
        BehindMore(before, next.value, ReadItems(readClass, Left(), groups));
      }
      if pos < |chars| { Next(); }
      ItemsUnfold(readClass, Left(), groups);
      assert items + [] == items;
      if |items| == 0 { return Ok(Empty); }
      if |items| == 1 { return Ok(items[0]); }
      return Ok(Sequence(items));
    }

    /** An atom and its quantifier. */
    method ParseRepeat() returns (r: Result<Ast, ParseError>)
      requires Valid() && pos < |chars|
      modifies this
      ensures Valid() && old(pos) <= pos && (r.Ok? ==> old(pos) < pos)
      ensures Agrees(r, ReadRepeat(readClass, old(Left()), old(groups)))
      decreases |chars| - pos, 1
    {
      hide ReadAtom, ReadQuant;
      var atom := ParseAtom();
      if atom.Err? { return atom; }
      r := ParseQuantifier(atom.value);
    }

    /** The quantifier after an atom, if there is one. */
    method ParseQuantifier(atom: Ast) returns (r: Result<Ast, ParseError>)
      requires Valid()
      modifies this`pos
      ensures Valid() && old(pos) <= pos
      ensures Agrees(r, ReadQuant(atom, old(Left()), groups))
    {
      hide ReadBounds;
      if pos < |chars| { Next(); }
      if Sees('*') || Sees('+') || Sees('?') {
        var c := chars[pos];
        pos := pos + 1;
        var min := if c == '+' then 1 else 0;
        var max := if c == '?' then Some(1) else None;
        r := FinishRepeat(atom, min, max);
        return;
      }
      if Sees('{') {
        pos := pos + 1;
        r := ParseBounds(atom);
        return;
      }
      return Ok(atom);
    }

    /** The laziness mark ends a repetition. */
    method FinishRepeat(atom: Ast, min: nat, max: Option<nat>) returns (r: Result<Ast, ParseError>)
      requires Valid()
      modifies this`pos
      ensures Valid() && old(pos) <= pos && Agrees(r, Repeated(atom, min, max, old(Left()), groups))
    {
      var lazy := EatLazy();
      return Ok(Repeat(atom, min, max, lazy));
    }

    method EatLazy() returns (lazy: bool)
      requires Valid()
      modifies this`pos
      ensures Valid() && old(pos) <= pos && lazy == Starts(old(Left()), '?')
      ensures Left() == if lazy then old(Left())[1..] else old(Left())
    {
      if pos < |chars| { Next(); }
      if Sees('?') {
        pos := pos + 1;
        return true;
      }
      return false;
    }

    /** {n}, {n,} or {n,m}, after the brace: counts that are not inverted. */
    method ParseBounds(atom: Ast) returns (r: Result<Ast, ParseError>)
      requires Valid()
      modifies this`pos
      ensures Valid() && old(pos) <= pos && Agrees(r, ReadBounds(atom, old(Left()), groups))
    {
      hide ReadNum, ReadUpper, Braced;
      var first := ParseNum();
      if first.Err? { return Err(first.error); }
      var min := first.value;
      if pos < |chars| { Next(); }
      if Sees(',') {
        pos := pos + 1;
        r := ParseUpper(atom, min);
      } else {
        r := CloseBraces(atom, min, Some(min));
      }
    }

    /** The upper bound, after the comma. */
    method ParseUpper(atom: Ast, min: nat) returns (r: Result<Ast, ParseError>)
      requires Valid()
      modifies this`pos
      ensures Valid() && old(pos) <= pos && Agrees(r, ReadUpper(atom, min, old(Left()), groups))
    {
      hide ReadNum, Braced;
      var max := None;
      if pos < |chars| { Next(); }
      if !Sees('}') {
        var second := ParseNum();
        if second.Err? { return Err(second.error); }
        max := Some(second.value);
      }
      r := CloseBraces(atom, min, max);
    }

    method CloseBraces(atom: Ast, min: nat, max: Option<nat>) returns (r: Result<Ast, ParseError>)
      requires Valid()
      modifies this`pos
      ensures Valid() && old(pos) <= pos && Agrees(r, Braced(atom, min, max, old(Left()), groups))
    {
      hide Repeated;
      if pos < |chars| { Next(); }
      if !Sees('}') {
        if pos < |chars| { pos := pos + 1; }
        return Err(ExpectedBrace);
      }
      pos := pos + 1;
      if max.Some? && max.value < min { return Err(InvalidRange); }
      r := FinishRepeat(atom, min, max);
    }

    /** The longest run of digits, if there is one and it fits 32 bits. */
    method ParseNum() returns (r: Result<nat, ParseError>)
      requires Valid()
      modifies this`pos
      ensures Valid() && old(pos) <= pos
      ensures match ReadNum(old(Left()))
              case Bad(e) => r == Err(e)
              case Good(n, rest, _) => r == Ok(n) && Left() == rest
    {
      hide Value, ReadNum;
      var start := pos;
      ghost var t := Left();
      while pos < |chars| && IsDigit(chars[pos])
        invariant Valid() && start <= pos && AllDigits(chars[start..pos])
        decreases |chars| - pos
      {
        assert chars[start..pos + 1] == chars[start..pos] + [chars[pos]];
        pos := pos + 1;
      }
      assert chars[start..pos] == t[..pos - start] && t[pos - start..] == Left();
      NumRead(t, pos - start);
      if pos == start { return Err(ExpectedNumber); }
      var v := Value(chars[start..pos]);
      if v > U32_MAX { return Err(BadNumber); }
      return Ok(v);
    }

    method ParseAtom() returns (r: Result<Ast, ParseError>)
      requires Valid() && pos < |chars|
      modifies this
      ensures Valid() && old(pos) < pos
      ensures Agrees(r, ReadAtom(readClass, old(Left()), old(groups)))
      decreases |chars| - pos, 0
    {
      hide ReadAlt, Escaped;
      Next();
      var c := chars[pos];
      pos := pos + 1;
      if c == '(' {
        r := ParseGroup();
        return;
      }
      if c == ')' { return Err(Unmatched); }
      if c == '^' { return Ok(AnchorStart); }
      if c == '$' { return Ok(AnchorEnd); }
      if c == '.' { return Ok(Dot); }
      if c == '[' {
        var k := readClass(chars[pos..]);
        if k.Err? { return Err(k.error); }
        assert Left()[k.value.1..] == chars[pos + k.value.1..];
        pos := pos + k.value.1;
        return Ok(Class(k.value.0));
      }
      if c == '\\' {
        r := ParseEscape();
        return;
      }
      return Ok(Ast.Lit(c));
    }

    /** A group, after its parenthesis; a capturing one gets its number before its body. */
    method ParseGroup() returns (r: Result<Ast, ParseError>)
      requires Valid()
      modifies this
      ensures Valid() && old(pos) <= pos
      ensures Agrees(r, if "?:" <= old(Left()) then Closed(ReadAlt(readClass, old(Left())[2..], old(groups)))
                        else Captured(Closed(ReadAlt(readClass, old(Left()), old(groups) + 1)), old(groups) + 1))
      decreases |chars| - pos, 4
    {
      hide ReadAlt;
      var capturing := !(Sees('?') && pos + 1 < |chars| && chars[pos + 1] == ':');
      ghost var t := Left();
      assert capturing <==> !("?:" <= t) by { ClusterAhead(t); }
      if capturing {
        groups := groups + 1;
      } else {
        assert t[2..] == chars[pos + 2..];
        pos := pos + 2;
      }
      var idx := groups;
      var inner := ParseAlt();
      if inner.Err? { return inner; }
      if pos < |chars| { Next(); }
      if !Sees(')') { return Err(Unclosed); }
      pos := pos + 1;
      if !capturing { return inner; }
      return Ok(Group(inner.value, idx));
    }

    method ParseEscape() returns (r: Result<Ast, ParseError>)
      requires Valid()
      modifies this`pos
      ensures Valid() && old(pos) <= pos
      ensures old(pos) == |chars| ==> r == Err(TrailingBackslash)
      ensures old(pos) < |chars| ==> pos == old(pos) + 1 && r == Ok(Escaped(chars[old(pos)]))
    {
      if pos == |chars| { return Err(TrailingBackslash); }
      var c := chars[pos];
      pos := pos + 1;
      var blanks := [' ', '\t', '\n', '\r', '\U{c}', '\U{b}'];
      var word := [('a', 'z'), ('A', 'Z'), ('0', '9')];
      if c == 'd' { return Ok(Class(CharClass(false, [('0', '9')], []))); }
      if c == 'D' { return Ok(Class(CharClass(true, [('0', '9')], []))); }
      if c == 's' { return Ok(Class(CharClass(false, [], blanks))); }
      if c == 'S' { return Ok(Class(CharClass(true, [], blanks))); }
      if c == 'w' { return Ok(Class(CharClass(false, word, ['_']))); }
      if c == 'W' { return Ok(Class(CharClass(true, word, ['_']))); }
      if IsDigit(c) && c != '0' { return Ok(BackRef(DigitValue(c))); }
      return Ok(Ast.Lit(c));
    }
  }

  lemma ClusterAhead(t: string)
    ensures "?:" <= t <==> |t| >= 2 && t[0] == '?' && t[1] == ':'
  {
  }

  lemma FirstBranch(rd: ClassReader, t: string, g: nat)
    requires Sane(rd)
    ensures ReadBranches(rd, t, g) ==
      var r := AsSequence(ReadItems(rd, t, g));
      if r.Bad? then Bad(r.error) else Behind([r.v], ReadMore(rd, r.rest, r.g))
  {
    hide ReadItems, OfItems;
  }

  lemma BehindNothing(r: Read<seq<Ast>>)
    ensures Behind([], r) == r
  {
    if r.Good? { assert [] + r.v == r.v; }
  }

  lemma BehindMore(done: seq<Ast>, x: Ast, r: Read<seq<Ast>>)
    ensures Behind(done + [x], r) == Behind(done, Behind([x], r))
  {
    if r.Good? { assert done + [x] + r.v == done + ([x] + r.v); }
  }

  lemma NumRead(t: string, k: nat)
    requires k <= |t| && AllDigits(t[..k]) && (k < |t| ==> !IsDigit(t[k]))
    ensures ReadNum(t) == if k == 0 then Bad(ExpectedNumber)
                          else if Value(t[..k]) > U32_MAX then Bad(BadNumber) else Good(Value(t[..k]), t[k..], 0)
  {
    hide Value, DigitRun;
    RunEnds(t, k);
  }

  lemma {:induction false} RunEnds(t: string, k: nat)
    requires k <= |t| && AllDigits(t[..k]) && (k < |t| ==> !IsDigit(t[k]))
    ensures DigitRun(t) == k
    decreases k
  {
    if k > 0 {
      assert t[..k][0] == t[0] && t[1..][..k - 1] == t[..k][1..];
      RunEnds(t[1..], k - 1);
    }
  }

  /** `compile_opts` up to code generation: the whole pattern is one alternation. Its groups are
      numbered from 1 to the group count. */
  method ParsePattern(pattern: string, reader: ClassReader) returns (r: Result<(Ast, nat), ParseError>)
    requires Sane(reader)
    ensures r == ReadPattern(reader, pattern)
    ensures r.Ok? ==> WellFormed(r.value.0) && GroupIds(r.value.0) == Numbered(0, r.value.1)
  {
    hide WellFormed, GroupIds, ReadAlt;
    var p := new Parser(pattern, reader);
    assert p.Left() == pattern;
    var a := p.ParseAlt();
    if a.Err? { return Err(a.error); }
    if p.pos != |p.chars| { return Err(UnexpectedChar); }
    AltParsed(reader, pattern, 0);
    return Ok((a.value, p.groups));
  }
}

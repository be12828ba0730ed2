/** The language of patterns: what the recursive-descent parser reads (src/regex.rs), and a concrete
    syntax whose texts are exactly what it accepts. Bracket classes are read by a parameter. */
module RegexGrammar {
  import opened Integers
  import opened Wrappers
  import opened Decimal
  import opened RegexSyntax

  datatype ParseError =
    | UnexpectedChar | UnexpectedEnd | Unclosed | Unmatched | ExpectedBrace | InvalidRange | ExpectedNumber | BadNumber
    | TrailingBackslash | BadClass

  /** Reads a bracket class from the text after the '[': the class and the length it takes. */
  type ClassReader = string -> Result<(CharClass, nat), ParseError>

  ghost predicate Sane(reader: ClassReader) {
    forall t :: reader(t).Ok? ==> reader(t).value.1 <= |t|
  }

  // ----- reading -----

  /** What was read, the text left, and the number of groups so far. */
  datatype Read<+T> = Good(v: T, rest: string, g: nat) | Bad(error: ParseError)

  predicate Starts(t: string, c: char) {
    t != "" && t[0] == c
  }

  const BLANKS: string := [' ', '\t', '\n', '\r', '\U{c}', '\U{b}']

  /** The meaning of a backslash escape: an upper-case class letter is the complement of the
      lower-case one. */
  function Escaped(c: char): Ast {
    if c == 'd' || c == 'D' then Class(CharClass(c == 'D', [('0', '9')], []))
    else if c == 's' || c == 'S' then Class(CharClass(c == 'S', [], BLANKS))
    else if c == 'w' || c == 'W' then Class(CharClass(c == 'W', [('a', 'z'), ('A', 'Z'), ('0', '9')], ['_']))
    else if IsDigit(c) && c != '0' then BackRef(DigitValue(c))
    else Ast.Lit(c)
  }

  /** Nothing, one item, or a sequence. */
  function OfItems(items: seq<Ast>): Ast {
    if |items| == 0 then Empty else if |items| == 1 then items[0] else Sequence(items)
  }

  function AsSequence(r: Read<seq<Ast>>): Read<Ast> {
    if r.Bad? then Bad(r.error) else Good(OfItems(r.v), r.rest, r.g)
  }

  function OfBranches(alts: seq<Ast>): Ast {
    if |alts| == 1 then alts[0] else Alt(alts)
  }

  function ReadAlt(rd: ClassReader, t: string, g: nat): (r: Read<Ast>)
    requires Sane(rd)
    ensures r.Good? ==> |r.rest| <= |t|
    decreases |t|, 4
  {
    match ReadBranches(rd, t, g)
    case Bad(e) => Bad(e)
    case Good(alts, rest, g') => Good(OfBranches(alts), rest, g')
  }

  function ReadBranches(rd: ClassReader, t: string, g: nat): (r: Read<seq<Ast>>)
    requires Sane(rd)
    ensures r.Good? ==> |r.rest| <= |t| && r.v != []
    decreases |t|, 3
  {
    match ReadItems(rd, t, g)
    case Bad(e) => Bad(e)
    case Good(items, rest, g1) => Behind([OfItems(items)], ReadMore(rd, rest, g1))
  }

  /** The branches behind bars. */
  function ReadMore(rd: ClassReader, t: string, g: nat): (r: Read<seq<Ast>>)
    requires Sane(rd)
    ensures r.Good? ==> |r.rest| <= |t|
    decreases |t|, 0
  {
    if Starts(t, '|') then ReadBranches(rd, t[1..], g) else Good([], t, g)
  }

  function Behind(done: seq<Ast>, r: Read<seq<Ast>>): Read<seq<Ast>> {
    if r.Bad? then r else Good(done + r.v, r.rest, r.g)
  }

  predicate SequenceEnds(t: string) {
    t == "" || t[0] == '|' || t[0] == ')'
  }

  function ReadItems(rd: ClassReader, t: string, g: nat): (r: Read<seq<Ast>>)
    requires Sane(rd)
    ensures r.Good? ==> |r.rest| <= |t| && SequenceEnds(r.rest)
    decreases |t|, 2
  {
    if SequenceEnds(t) then Good([], t, g)
    else
      match ReadRepeat(rd, t, g)
      case Bad(e) => Bad(e)
      case Good(a, rest, g1) => Behind([a], ReadItems(rd, rest, g1))
  }

  function ReadRepeat(rd: ClassReader, t: string, g: nat): (r: Read<Ast>)
    requires Sane(rd) && t != ""
    ensures r.Good? ==> |r.rest| < |t|
    decreases |t|, 1
  {
    match ReadAtom(rd, t, g)
    case Bad(e) => Bad(e)
    case Good(a, rest, g1) => ReadQuant(a, rest, g1)
  }

  function ReadAtom(rd: ClassReader, t: string, g: nat): (r: Read<Ast>)
    requires Sane(rd) && t != ""
    ensures r.Good? ==> |r.rest| < |t|
    decreases |t|, 0
  {
    var c, u := t[0], t[1..];
    if c == '(' then
      if "?:" <= u then Closed(ReadAlt(rd, u[2..], g))
      else Captured(Closed(ReadAlt(rd, u, g + 1)), g + 1)
    else if c == ')' then Bad(Unmatched)
    else if c == '^' then Good(AnchorStart, u, g)
    else if c == '$' then Good(AnchorEnd, u, g)
    else if c == '.' then Good(Dot, u, g)
    else if c == '[' then ReadClass(rd, u, g)
    else if c == '\\' then (if u == "" then Bad(TrailingBackslash) else Good(Escaped(u[0]), u[1..], g))
    else Good(Ast.Lit(c), u, g)
  }

  function ReadClass(rd: ClassReader, u: string, g: nat): (r: Read<Ast>)
    requires Sane(rd)
    ensures r.Good? ==> |r.rest| <= |u|
  {
    var k := rd(u);
    if k.Err? then Bad(k.error) else Good(Class(k.value.0), u[k.value.1..], g)
  }

  function Closed(r: Read<Ast>): Read<Ast> {
    if r.Bad? then r else if Starts(r.rest, ')') then Good(r.v, r.rest[1..], r.g) else Bad(Unclosed)
  }

  function Captured(r: Read<Ast>, idx: nat): Read<Ast> {
    if r.Bad? then r else Good(Group(r.v, idx), r.rest, r.g)
  }

  // ----- quantifiers -----

  function ReadQuant(atom: Ast, t: string, g: nat): (r: Read<Ast>)
    ensures r.Good? ==> |r.rest| <= |t|
  {
    if Starts(t, '*') then Repeated(atom, 0, None, t[1..], g)
    else if Starts(t, '+') then Repeated(atom, 1, None, t[1..], g)
    else if Starts(t, '?') then Repeated(atom, 0, Some(1), t[1..], g)
    else if Starts(t, '{') then ReadBounds(atom, t[1..], g)
    else Good(atom, t, g)
  }

  /** A question mark behind the quantifier makes it lazy. */
  function Repeated(atom: Ast, min: nat, max: Option<nat>, t: string, g: nat): (r: Read<Ast>)
    ensures r.Good? && |r.rest| <= |t|
  {
    if Starts(t, '?') then Good(Repeat(atom, min, max, true), t[1..], g) else Good(Repeat(atom, min, max, false), t, g)
  }

  function DigitRun(t: string): (k: nat)
    ensures k <= |t| && AllDigits(t[..k]) && (k < |t| ==> !IsDigit(t[k]))
  {
    if t == "" || !IsDigit(t[0]) then 0 else 1 + DigitRun(t[1..])
  }

  function ReadNum(t: string): (r: Read<nat>)
    ensures r.Good? ==> |r.rest| < |t|
  {
    var k := DigitRun(t);
    if k == 0 then Bad(ExpectedNumber)
    else if Value(t[..k]) > U32_MAX then Bad(BadNumber)
    else Good(Value(t[..k]), t[k..], 0)
  }

  function ReadBounds(atom: Ast, t: string, g: nat): (r: Read<Ast>)
    ensures r.Good? ==> |r.rest| <= |t|
  {
    match ReadNum(t)
    case Bad(e) => Bad(e)
    case Good(n, u, _) => if Starts(u, ',') then ReadUpper(atom, n, u[1..], g) else Braced(atom, n, Some(n), u, g)
  }

  function ReadUpper(atom: Ast, n: nat, t: string, g: nat): (r: Read<Ast>)
    ensures r.Good? ==> |r.rest| <= |t|
  {
    if Starts(t, '}') then Braced(atom, n, None, t, g)
    else
      match ReadNum(t)
      case Bad(e) => Bad(e)
      case Good(m, u, _) => Braced(atom, n, Some(m), u, g)
  }

  function Braced(atom: Ast, min: nat, max: Option<nat>, t: string, g: nat): (r: Read<Ast>)
    ensures r.Good? ==> |r.rest| <= |t|
  {
    if !Starts(t, '}') then Bad(ExpectedBrace)
    else if max.Some? && max.value < min then Bad(InvalidRange)
    else Repeated(atom, min, max, t[1..], g)
  }

  /** The whole pattern: its tree and the number of its groups. */
  function ReadPattern(rd: ClassReader, t: string): Result<(Ast, nat), ParseError>
    requires Sane(rd)
  {
    match ReadAlt(rd, t, 0)
    case Bad(e) => Err(e)
    case Good(a, rest, g) => if rest != "" then Err(UnexpectedChar) else Ok((a, g))
  }

  // ----- concrete syntax -----

  datatype Quant =
    | One | Star(lazy: bool) | Plus(lazy: bool) | Maybe(lazy: bool)
    | Exactly(n: string, lazy: bool) | AtLeast(n: string, lazy: bool) | Between(n: string, m: string, lazy: bool)

  datatype Atom =
    | Plain(c: char) | Escape(c: char) | Any | First | Last
    | Bracket(text: string, cc: CharClass) | Capture(body: Alts) | Cluster(body: Alts)

  datatype Item = Item(atom: Atom, quant: Quant)
  datatype Items = Items(items: seq<Item>)
  datatype Alts = Alts(branches: seq<Items>)

  function Mark(lazy: bool): string {
    if lazy then "?" else ""
  }

  function QuantText(q: Quant): string {
    match q
    case One => ""
    case Star(l) => "*" + Mark(l)
    case Plus(l) => "+" + Mark(l)
    case Maybe(l) => "?" + Mark(l)
    case Exactly(n, l) => "{" + (n + ("}" + Mark(l)))
    case AtLeast(n, l) => "{" + (n + (",}" + Mark(l)))
    case Between(n, m, l) => "{" + (n + ("," + (m + ("}" + Mark(l)))))
  }

  function AtomText(a: Atom): string
    decreases a, 0
  {
    match a
    case Plain(c) => [c]
    case Escape(c) => ['\\', c]
    case Any => "."
    case First => "^"
    case Last => "$"
    case Bracket(text, _) => "[" + text
    case Capture(body) => "(" + (BranchesText(body.branches) + ")")
    case Cluster(body) => "(?:" + (BranchesText(body.branches) + ")")
  }

  function ItemText(i: Item): string
    decreases i, 0
  {
    AtomText(i.atom) + QuantText(i.quant)
  }

  function ItemsText(items: seq<Item>): string
    decreases items, 0
  {
    if items == [] then "" else ItemText(items[0]) + ItemsText(items[1..])
  }

  function BranchesText(bs: seq<Items>): string
    decreases bs, 0
  {
    if bs == [] then ""
    else ItemsText(bs[0].items) + (if |bs| == 1 then "" else "|" + BranchesText(bs[1..]))
  }

  // ----- its meaning -----

  function Count(n: string): nat {
    if AllDigits(n) then Value(n) else 0
  }

  function QuantMeaning(q: Quant, a: Ast): Ast {
    match q
    case One => a
    case Star(l) => Repeat(a, 0, None, l)
    case Plus(l) => Repeat(a, 1, None, l)
    case Maybe(l) => Repeat(a, 0, Some(1), l)
    case Exactly(n, l) => Repeat(a, Count(n), Some(Count(n)), l)
    case AtLeast(n, l) => Repeat(a, Count(n), None, l)
    case Between(n, m, l) => Repeat(a, Count(n), Some(Count(m)), l)
  }

  predicate Number(n: string) {
    n != "" && AllDigits(n) && Value(n) <= U32_MAX
  }

  predicate QuantFits(q: Quant) {
    match q
    case Exactly(n, _) => Number(n)
    case AtLeast(n, _) => Number(n)
    case Between(n, m, _) => Number(n) && Number(m) && Count(n) <= Count(m)
    case _ => true
  }

  /** The number of capturing groups. */
  function AtomGroups(a: Atom): nat
    decreases a, 0
  {
    match a
    case Capture(body) => 1 + BranchesGroups(body.branches)
    case Cluster(body) => BranchesGroups(body.branches)
    case _ => 0
  }

  function ItemGroups(i: Item): nat
    decreases i, 0
  {
    AtomGroups(i.atom)
  }

  function ItemsGroups(items: seq<Item>): nat
    decreases items, 0
  {
    if items == [] then 0 else ItemGroups(items[0]) + ItemsGroups(items[1..])
  }

  function BranchesGroups(bs: seq<Items>): nat
    decreases bs, 0
  {
    if bs == [] then 0 else ItemsGroups(bs[0].items) + BranchesGroups(bs[1..])
  }

  /** No text of the syntax is taken for something else where `rest` follows it. */
  ghost predicate AtomFits(rd: ClassReader, a: Atom, rest: string)
    decreases a, 0
  {
    match a
    case Plain(c) => c !in "()^$.[\\|"
    case Bracket(text, cc) => rd(text + rest) == Ok((cc, |text|))
    case Capture(body) => !("?:" <= BranchesText(body.branches) + ")") && BranchesFit(rd, body.branches, ")" + rest)
    case Cluster(body) => BranchesFit(rd, body.branches, ")" + rest)
    case _ => true
  }

  predicate QuantEnds(q: Quant, rest: string) {
    if q.One? then !Starts(rest, '*') && !Starts(rest, '+') && !Starts(rest, '?') && !Starts(rest, '{')
    else q.lazy || !Starts(rest, '?')
  }

  ghost predicate ItemFits(rd: ClassReader, i: Item, rest: string)
    decreases i, 0
  {
    AtomFits(rd, i.atom, QuantText(i.quant) + rest) && QuantFits(i.quant) && QuantEnds(i.quant, rest)
  }

  ghost predicate ItemsFit(rd: ClassReader, items: seq<Item>, rest: string)
    decreases items, 0
  {
    items == [] || (ItemFits(rd, items[0], ItemsText(items[1..]) + rest) && ItemsFit(rd, items[1..], rest))
  }

  ghost predicate BranchesFit(rd: ClassReader, bs: seq<Items>, rest: string)
    decreases bs, 0
  {
    && bs != []
    && ItemsFit(rd, bs[0].items, AfterBranch(bs, rest))
    && (|bs| > 1 ==> BranchesFit(rd, bs[1..], rest))
  }

  /** What follows the first branch. */
  function AfterBranch(bs: seq<Items>, rest: string): string
    requires bs != []
  {
    if |bs| == 1 then rest else "|" + (BranchesText(bs[1..]) + rest)
  }

  /** Groups are numbered by their opening parentheses, from g + 1 on. */
  function AtomMeaning(a: Atom, g: nat): Ast
    decreases a, 0
  {
    match a
    case Plain(c) => Ast.Lit(c)
    case Escape(c) => Escaped(c)
    case Any => Dot
    case First => AnchorStart
    case Last => AnchorEnd
    case Bracket(_, cc) => Class(cc)
    case Capture(body) => Group(OfBranches(BranchesMeaning(body.branches, g + 1)), g + 1)
    case Cluster(body) => OfBranches(BranchesMeaning(body.branches, g))
  }

  function ItemMeaning(i: Item, g: nat): Ast
    decreases i, 0
  {
    QuantMeaning(i.quant, AtomMeaning(i.atom, g))
  }

  function ItemsMeaning(items: seq<Item>, g: nat): seq<Ast>
    decreases items, 0
  {
    if items == [] then []
    else [ItemMeaning(items[0], g)] + ItemsMeaning(items[1..], g + ItemGroups(items[0]))
  }

  function BranchesMeaning(bs: seq<Items>, g: nat): seq<Ast>
    decreases bs, 0
  {
    if bs == [] then []
    else [OfItems(ItemsMeaning(bs[0].items, g))] + BranchesMeaning(bs[1..], g + ItemsGroups(bs[0].items))
  }

  // ----- every spelling is read -----

  lemma {:induction false} ReadsAtom(rd: ClassReader, a: Atom, rest: string, g: nat)
    requires Sane(rd) && AtomFits(rd, a, rest)
    ensures !SequenceEnds(AtomText(a) + rest)
    ensures ReadAtom(rd, AtomText(a) + rest, g) == Good(AtomMeaning(a, g), rest, g + AtomGroups(a))
    decreases a, 0
  {
    hide BranchesText, BranchesMeaning, BranchesGroups, BranchesFit, ReadAlt, OfBranches;
    match a
    case Capture(body) =>
      ReadsAlt(rd, body.branches, ")" + rest, g + 1);
      ReadsCapture(rd, body.branches, rest, g);
    case Cluster(body) =>
      ReadsAlt(rd, body.branches, ")" + rest, g);
      ReadsCluster(rd, body.branches, rest, g);
    case _ => ReadsLeaf(rd, a, rest, g);
  }

  lemma ReadsLeaf(rd: ClassReader, a: Atom, rest: string, g: nat)
    requires Sane(rd) && AtomFits(rd, a, rest) && !a.Capture? && !a.Cluster?
    ensures !SequenceEnds(AtomText(a) + rest)
    ensures ReadAtom(rd, AtomText(a) + rest, g) == Good(AtomMeaning(a, g), rest, g + AtomGroups(a))
  {
    hide Escaped, ReadAlt;
    var t := AtomText(a) + rest;
    if a.Bracket? {
      assert t[1..] == a.text + rest && (a.text + rest)[|a.text|..] == rest;
    } else if a.Escape? {
      assert t[1..] == [a.c] + rest && ([a.c] + rest)[1..] == rest;
    } else {
      assert t[1..] == rest;
    }
  }

  lemma ReadsCapture(rd: ClassReader, bs: seq<Items>, rest: string, g: nat)
    requires Sane(rd) && !("?:" <= BranchesText(bs) + ")")
    requires ReadAlt(rd, BranchesText(bs) + (")" + rest), g + 1)
          == Good(OfBranches(BranchesMeaning(bs, g + 1)), ")" + rest, g + 1 + BranchesGroups(bs))
    ensures ReadAtom(rd, "(" + (BranchesText(bs) + ")") + rest, g)
         == Good(Group(OfBranches(BranchesMeaning(bs, g + 1)), g + 1), rest, g + (1 + BranchesGroups(bs)))
  {
    hide BranchesText, BranchesMeaning, BranchesGroups, ReadAlt, OfBranches;
    var t := "(" + (BranchesText(bs) + ")") + rest;
    assert t[1..] == BranchesText(bs) + (")" + rest);
    ClusterMark(BranchesText(bs), rest);
    assert (")" + rest)[1..] == rest;
  }

  lemma ReadsCluster(rd: ClassReader, bs: seq<Items>, rest: string, g: nat)
    requires Sane(rd)
    requires ReadAlt(rd, BranchesText(bs) + (")" + rest), g)
          == Good(OfBranches(BranchesMeaning(bs, g)), ")" + rest, g + BranchesGroups(bs))
    ensures ReadAtom(rd, "(?:" + (BranchesText(bs) + ")") + rest, g)
         == Good(OfBranches(BranchesMeaning(bs, g)), rest, g + BranchesGroups(bs))
  {
    hide BranchesText, BranchesMeaning, BranchesGroups, ReadAlt, OfBranches;
    var t := "(?:" + (BranchesText(bs) + ")") + rest;
    assert t[1..] == "?:" + (BranchesText(bs) + (")" + rest));
    assert t[1..][2..] == BranchesText(bs) + (")" + rest);
    assert (")" + rest)[1..] == rest;
  }

  /** Whether a parenthesis opens a cluster does not depend on what follows the closing one. */
  lemma ClusterMark(text: string, rest: string)
    ensures "?:" <= text + (")" + rest) <==> "?:" <= text + ")"
  {
    var a, b := text + (")" + rest), text + ")";
    assert forall i | 0 <= i < |b| :: a[i] == b[i];
    assert |b| < 2 ==> text == "" && (a != "" ==> a[0] == ')');
  }

  lemma ReadsAlt(rd: ClassReader, bs: seq<Items>, rest: string, g: nat)
    requires Sane(rd) && BranchesFit(rd, bs, rest) && Starts(rest, ')')
    ensures ReadAlt(rd, BranchesText(bs) + rest, g) == Good(OfBranches(BranchesMeaning(bs, g)), rest, g + BranchesGroups(bs))
    decreases bs, 1
  {
    hide BranchesText, BranchesMeaning, BranchesGroups, BranchesFit, ReadBranches;
    ReadsBranches(rd, bs, rest, g);
  }

  lemma {:induction false} ReadsBranches(rd: ClassReader, bs: seq<Items>, rest: string, g: nat)
    requires Sane(rd) && BranchesFit(rd, bs, rest) && (rest == "" || rest[0] == ')')
    ensures ReadBranches(rd, BranchesText(bs) + rest, g) == Good(BranchesMeaning(bs, g), rest, g + BranchesGroups(bs))
    decreases bs, 0
  {
    hide ItemsText, ItemsMeaning, ItemsGroups, ItemsFit, ReadItems, OfItems, BranchesText, BranchesMeaning,
         BranchesGroups, ReadBranches;
    var after := AfterBranch(bs, rest);
    BranchesUnfold(bs, rest, g);
    ReadsItems(rd, bs[0].items, after, g);
    var g1 := g + ItemsGroups(bs[0].items);
    if |bs| > 1 {
      assert after[1..] == BranchesText(bs[1..]) + rest;
      ReadsBranches(rd, bs[1..], rest, g1);
    }
    BranchesJoin(rd, ItemsText(bs[0].items) + after, g, ItemsMeaning(bs[0].items, g), after, g1);
  }

  lemma BranchesJoin(rd: ClassReader, t: string, g: nat, items: seq<Ast>, after: string, g1: nat)
    requires Sane(rd) && ReadItems(rd, t, g) == Good(items, after, g1)
    ensures ReadBranches(rd, t, g) == Behind([OfItems(items)],
      if Starts(after, '|') then ReadBranches(rd, after[1..], g1) else Good([], after, g1))
  {
    hide ReadItems, OfItems;
  }

  lemma BranchesUnfold(bs: seq<Items>, rest: string, g: nat)
    requires bs != []
    ensures BranchesText(bs) + rest == ItemsText(bs[0].items) + AfterBranch(bs, rest)
    ensures BranchesMeaning(bs, g)
         == [OfItems(ItemsMeaning(bs[0].items, g))] + BranchesMeaning(bs[1..], g + ItemsGroups(bs[0].items))
    ensures BranchesGroups(bs) == ItemsGroups(bs[0].items) + BranchesGroups(bs[1..])
    ensures |bs| == 1 ==> bs[1..] == [] && BranchesMeaning([], g + ItemsGroups(bs[0].items)) == [] && BranchesGroups([]) == 0
  {
    hide ItemsText, ItemsMeaning, ItemsGroups;
    var x := ItemsText(bs[0].items);
    if |bs| == 1 {
      assert x + "" == x;
    } else {
      assert x + ("|" + BranchesText(bs[1..])) + rest == x + ("|" + (BranchesText(bs[1..]) + rest));
    }
  }

  lemma {:induction false} ReadsItems(rd: ClassReader, items: seq<Item>, rest: string, g: nat)
    requires Sane(rd) && ItemsFit(rd, items, rest) && SequenceEnds(rest)
    ensures ReadItems(rd, ItemsText(items) + rest, g) == Good(ItemsMeaning(items, g), rest, g + ItemsGroups(items))
    decreases items, 0
  {
    hide ItemText, ItemMeaning, ItemGroups, ItemFits, ReadRepeat, ReadItems, ItemsFit, ItemsText, ItemsMeaning, ItemsGroups;
    ItemsUnfold(rd, ItemsText(items) + rest, g);
    if items == [] {
      NoItems(rest, g);
    } else {
      var i, more := items[0], items[1..];
      assert items == [i] + more;
      ItemsFitParts(rd, items, rest);
      MoreItems(rd, i, more, rest, g);
      ReadsItem(rd, i, ItemsText(more) + rest, g);
      ReadsItems(rd, more, rest, g + ItemGroups(i));
    }
  }

  lemma NoItems(rest: string, g: nat)
    ensures ItemsText([]) + rest == rest && ItemsMeaning([], g) == [] && ItemsGroups([]) == 0
  {
  }

  lemma ItemsFitParts(rd: ClassReader, items: seq<Item>, rest: string)
    requires items != [] && ItemsFit(rd, items, rest)
    ensures ItemFits(rd, items[0], ItemsText(items[1..]) + rest) && ItemsFit(rd, items[1..], rest)
  {
    hide ItemFits, ItemsText;
  }

  lemma ItemsUnfold(rd: ClassReader, t: string, g: nat)
    requires Sane(rd)
    ensures SequenceEnds(t) ==> ReadItems(rd, t, g) == Good([], t, g)
    ensures !SequenceEnds(t) ==>
      var r := ReadRepeat(rd, t, g);
      ReadItems(rd, t, g) == if r.Bad? then Bad(r.error) else Behind([r.v], ReadItems(rd, r.rest, r.g))
  {
    hide ReadRepeat;
  }

  lemma {:induction false} ReadsItem(rd: ClassReader, i: Item, rest: string, g: nat)
    requires Sane(rd) && ItemFits(rd, i, rest)
    ensures !SequenceEnds(ItemText(i) + rest)
    ensures ReadRepeat(rd, ItemText(i) + rest, g) == Good(ItemMeaning(i, g), rest, g + ItemGroups(i))
    decreases i, 0
  {
    hide AtomText, QuantText, AtomMeaning, QuantMeaning, AtomFits, QuantFits, QuantEnds, ReadAtom, ReadQuant, AtomGroups;
    assert ItemText(i) + rest == AtomText(i.atom) + (QuantText(i.quant) + rest);
    ReadsAtom(rd, i.atom, QuantText(i.quant) + rest, g);
    ReadsQuant(i.quant, AtomMeaning(i.atom, g), rest, g + AtomGroups(i.atom));
  }

  lemma ReadsRepeated(a: Ast, min: nat, max: Option<nat>, lazy: bool, rest: string, g: nat)
    requires lazy || !Starts(rest, '?')
    ensures Repeated(a, min, max, Mark(lazy) + rest, g) == Good(Repeat(a, min, max, lazy), rest, g)
  {
    if lazy { assert ("?" + rest)[1..] == rest; } else { assert "" + rest == rest; }
  }

  lemma ReadsQuant(q: Quant, a: Ast, rest: string, g: nat)
    requires QuantFits(q) && QuantEnds(q, rest)
    ensures ReadQuant(a, QuantText(q) + rest, g) == Good(QuantMeaning(q, a), rest, g)
  {
    hide Value, Repeated, ReadBounds, Number, Count, Mark, Body;
    if q.One? {
      assert QuantText(q) + rest == rest;
    } else if q.Star? || q.Plus? || q.Maybe? {
      SimpleText(q, rest);
      var r := QuantMeaning(q, a);
      ReadsRepeated(a, r.min, r.max, q.lazy, rest, g);
    } else {
      BraceBody(q, rest);
      ReadsBody(q, a, rest, g);
    }
  }

  lemma SimpleText(q: Quant, rest: string)
    requires q.Star? || q.Plus? || q.Maybe?
    ensures var t := QuantText(q) + rest;
      && t != "" && t[1..] == Mark(q.lazy) + rest
      && t[0] == if q.Star? then '*' else if q.Plus? then '+' else '?'
  {
    hide Mark;
  }

  /** The text behind an opening brace. */
  function Body(q: Quant, rest: string): string
    requires q.Exactly? || q.AtLeast? || q.Between?
  {
    match q
    case Exactly(n, l) => n + ("}" + (Mark(l) + rest))
    case AtLeast(n, l) => n + ("," + ("}" + (Mark(l) + rest)))
    case Between(n, m, l) => n + ("," + (m + ("}" + (Mark(l) + rest))))
  }

  lemma BraceBody(q: Quant, rest: string)
    requires q.Exactly? || q.AtLeast? || q.Between?
    ensures var t := QuantText(q) + rest; Starts(t, '{') && t[1..] == Body(q, rest)
  {
    hide Mark;
  }

  lemma ReadsBody(q: Quant, a: Ast, rest: string, g: nat)
    requires q.Exactly? || q.AtLeast? || q.Between?
    requires QuantFits(q) && QuantEnds(q, rest)
    ensures ReadBounds(a, Body(q, rest), g) == Good(QuantMeaning(q, a), rest, g)
  {
    hide Value, ReadBounds, Mark;
    match q
    case Exactly(n, l) => ReadsExactly(a, n, l, rest, g);
    case AtLeast(n, l) => ReadsAtLeast(a, n, l, rest, g);
    case Between(n, m, l) => ReadsBetween(a, n, m, l, rest, g);
  }

  lemma {:induction false} RunOf(n: string, rest: string)
    requires AllDigits(n) && rest != "" && !IsDigit(rest[0])
    ensures DigitRun(n + rest) == |n| && (n + rest)[..|n|] == n && (n + rest)[|n|..] == rest
    decreases |n|
  {
    if n == "" {
      assert n + rest == rest;
    } else {
      assert (n + rest)[1..] == n[1..] + rest && (n + rest)[0] == n[0];
      RunOf(n[1..], rest);
    }
  }

  lemma ReadsNum(n: string, rest: string)
    requires Number(n) && rest != "" && !IsDigit(rest[0])
    ensures ReadNum(n + rest) == Good(Value(n), rest, 0)
  {
    hide Value, DigitRun, AllDigits;
    RunOf(n, rest);
  }

  lemma ReadsBraced(a: Ast, min: nat, max: Option<nat>, l: bool, rest: string, g: nat)
    requires (l || !Starts(rest, '?')) && (max.Some? ==> min <= max.value)
    ensures Braced(a, min, max, "}" + (Mark(l) + rest), g) == Good(Repeat(a, min, max, l), rest, g)
  {
    assert ("}" + (Mark(l) + rest))[1..] == Mark(l) + rest;
    ReadsRepeated(a, min, max, l, rest, g);
  }

  lemma ReadsExactly(a: Ast, n: string, l: bool, rest: string, g: nat)
    requires Number(n) && (l || !Starts(rest, '?'))
    ensures ReadBounds(a, n + ("}" + (Mark(l) + rest)), g) == Good(Repeat(a, Value(n), Some(Value(n)), l), rest, g)
  {
    hide Value, ReadNum, Braced;
    ReadsNum(n, "}" + (Mark(l) + rest));
    ReadsBraced(a, Value(n), Some(Value(n)), l, rest, g);
  }

  lemma ReadsAtLeast(a: Ast, n: string, l: bool, rest: string, g: nat)
    requires Number(n) && (l || !Starts(rest, '?'))
    ensures ReadBounds(a, n + ("," + ("}" + (Mark(l) + rest))), g) == Good(Repeat(a, Value(n), None, l), rest, g)
  {
    hide Value, ReadNum, Braced;
    var u := "}" + (Mark(l) + rest);
    ReadsNum(n, "," + u);
    assert ("," + u)[1..] == u;
    ReadsBraced(a, Value(n), None, l, rest, g);
  }

  lemma ReadsBetween(a: Ast, n: string, m: string, l: bool, rest: string, g: nat)
    requires Number(n) && Number(m) && Value(n) <= Value(m) && (l || !Starts(rest, '?'))
    ensures ReadBounds(a, n + ("," + (m + ("}" + (Mark(l) + rest)))), g)
         == Good(Repeat(a, Value(n), Some(Value(m)), l), rest, g)
  {
    hide Value, ReadNum, Braced;
    var u := "}" + (Mark(l) + rest);
    ReadsNum(n, "," + (m + u));
    assert ("," + (m + u))[1..] == m + u;
    ReadsNum(m, u);
    assert m != "" && IsDigit(m[0]) && (m + u)[0] == m[0];
    ReadsBraced(a, Value(n), Some(Value(m)), l, rest, g);
  }

  // ----- everything that is read has a spelling -----

  lemma {:induction false} SpellsAtom(rd: ClassReader, t: string, g: nat) returns (a: Atom)
    requires Sane(rd) && t != "" && t[0] != '|' && ReadAtom(rd, t, g).Good?
    ensures var r := ReadAtom(rd, t, g);
      AtomFits(rd, a, r.rest) && t == AtomText(a) + r.rest && r.v == AtomMeaning(a, g) && r.g == g + AtomGroups(a)
    decreases |t|, 0
  {
    hide BranchesText, BranchesMeaning, BranchesGroups, BranchesFit, OfBranches, ReadAlt;
    var c, u := t[0], t[1..];
    assert t == [c] + u;
    if c == '(' {
      if "?:" <= u {
        assert u == "?:" + u[2..];
        var bs := SpellsAlt(rd, u[2..], g);
        a := Cluster(Alts(bs));
        ClusterSpelled(rd, t, g, bs);
      } else {
        var bs := SpellsAlt(rd, u, g + 1);
        a := Capture(Alts(bs));
        CaptureSpelled(rd, t, g, bs);
      }
    } else {
      a := SpellsLeaf(rd, t, g);
    }
  }

  lemma SpellsLeaf(rd: ClassReader, t: string, g: nat) returns (a: Atom)
    requires Sane(rd) && t != "" && t[0] != '|' && t[0] != '(' && ReadAtom(rd, t, g).Good?
    ensures var r := ReadAtom(rd, t, g);
      AtomFits(rd, a, r.rest) && t == AtomText(a) + r.rest && r.v == AtomMeaning(a, g) && r.g == g + AtomGroups(a)
  {
    hide Escaped, ReadAlt, Sane, ReadClass, BranchesFit, BranchesText, BranchesMeaning, BranchesGroups;
    var c, u := t[0], t[1..];
    assert t == [c] + u;
    if c == '[' {
      a := SpellsClass(rd, u, g);
      assert "[" + (a.text + ReadClass(rd, u, g).rest) == ("[" + a.text) + ReadClass(rd, u, g).rest;
    } else if c == '\\' {
      a := Escape(u[0]);
      assert u == [u[0]] + u[1..];
    } else {
      a := if c == '^' then First else if c == '$' then Last else if c == '.' then Any else Plain(c);
    }
  }

  lemma SpellsClass(rd: ClassReader, u: string, g: nat) returns (a: Atom)
    requires Sane(rd) && ReadClass(rd, u, g).Good?
    ensures var r := ReadClass(rd, u, g);
      && a.Bracket? && AtomFits(rd, a, r.rest) && u == a.text + r.rest && r.v == AtomMeaning(a, g) && r.g == g
  {
    var k := rd(u).value;
    a := Bracket(u[..k.1], k.0);
    assert u == u[..k.1] + u[k.1..];
  }

  lemma ClusterSpelled(rd: ClassReader, t: string, g: nat, bs: seq<Items>)
    requires Sane(rd) && "(?:" <= t && ReadAtom(rd, t, g).Good?
    requires var r := ReadAlt(rd, t[3..], g);
      BranchesFit(rd, bs, r.rest) && t[3..] == BranchesText(bs) + r.rest
      && r.v == OfBranches(BranchesMeaning(bs, g)) && r.g == g + BranchesGroups(bs)
    ensures var r, a := ReadAtom(rd, t, g), Cluster(Alts(bs));
      AtomFits(rd, a, r.rest) && t == AtomText(a) + r.rest && r.v == AtomMeaning(a, g) && r.g == g + AtomGroups(a)
  {
    hide BranchesText, BranchesMeaning, BranchesGroups, BranchesFit, OfBranches, ReadAlt, ReadAtom;
    ClusterRead(rd, t, g);
    var inner := ReadAlt(rd, t[3..], g);
    var rest := inner.rest[1..];
    assert inner.rest == ")" + rest;
    GroupText(t, "(?:", BranchesText(bs), rest);
  }

  lemma ClusterRead(rd: ClassReader, t: string, g: nat)
    requires Sane(rd) && "(?:" <= t
    ensures ReadAtom(rd, t, g) == Closed(ReadAlt(rd, t[3..], g))
  {
    hide ReadAlt;
    assert t[1..][2..] == t[3..] && "?:" <= t[1..];
  }

  lemma CaptureSpelled(rd: ClassReader, t: string, g: nat, bs: seq<Items>)
    requires Sane(rd) && Starts(t, '(') && !("?:" <= t[1..]) && ReadAtom(rd, t, g).Good?
    requires var r := ReadAlt(rd, t[1..], g + 1);
      BranchesFit(rd, bs, r.rest) && t[1..] == BranchesText(bs) + r.rest
      && r.v == OfBranches(BranchesMeaning(bs, g + 1)) && r.g == g + 1 + BranchesGroups(bs)
    ensures var r, a := ReadAtom(rd, t, g), Capture(Alts(bs));
      AtomFits(rd, a, r.rest) && t == AtomText(a) + r.rest && r.v == AtomMeaning(a, g) && r.g == g + AtomGroups(a)
  {
    hide BranchesText, BranchesMeaning, BranchesGroups, BranchesFit, OfBranches, ReadAlt, ReadAtom;
    CaptureRead(rd, t, g);
    var inner := ReadAlt(rd, t[1..], g + 1);
    var rest := inner.rest[1..];
    assert inner.rest == ")" + rest;
    ClusterMark(BranchesText(bs), rest);
    GroupText(t, "(", BranchesText(bs), rest);
  }

  lemma CaptureRead(rd: ClassReader, t: string, g: nat)
    requires Sane(rd) && Starts(t, '(') && !("?:" <= t[1..])
    ensures ReadAtom(rd, t, g) == Captured(Closed(ReadAlt(rd, t[1..], g + 1)), g + 1)
  {
    hide ReadAlt;
  }

  lemma GroupText(t: string, open: string, body: string, rest: string)
    requires open <= t && t[|open|..] == body + (")" + rest)
    ensures t == (open + (body + ")")) + rest
  {
  }

  lemma SpellsAlt(rd: ClassReader, t: string, g: nat) returns (bs: seq<Items>)
    requires Sane(rd) && ReadAlt(rd, t, g).Good?
    ensures var r := ReadAlt(rd, t, g);
      && (r.rest == "" || r.rest[0] == ')') && BranchesFit(rd, bs, r.rest) && t == BranchesText(bs) + r.rest
      && r.v == OfBranches(BranchesMeaning(bs, g)) && r.g == g + BranchesGroups(bs)
    decreases |t|, 4
  {
    hide BranchesText, BranchesMeaning, BranchesGroups, BranchesFit, OfBranches, ReadBranches;
    bs := SpellsBranches(rd, t, g);
  }

  lemma {:induction false} SpellsBranches(rd: ClassReader, t: string, g: nat) returns (bs: seq<Items>)
    requires Sane(rd) && ReadBranches(rd, t, g).Good?
    ensures var r := ReadBranches(rd, t, g);
      && (r.rest == "" || r.rest[0] == ')') && BranchesFit(rd, bs, r.rest) && t == BranchesText(bs) + r.rest
      && r.v == BranchesMeaning(bs, g) && r.g == g + BranchesGroups(bs)
    decreases |t|, 3
  {
    hide BranchesText, BranchesMeaning, BranchesGroups, BranchesFit, ReadBranches, ReadItems, OfItems, ItemsFit,
         ItemsText, ItemsMeaning, ItemsGroups;
    ItemsRead(rd, t, g);
    var first := ReadItems(rd, t, g);
    BranchesJoin(rd, t, g, first.v, first.rest, first.g);
    var items := SpellsItems(rd, t, g);
    if Starts(first.rest, '|') {
      var more := SpellsBranches(rd, first.rest[1..], first.g);
      bs := [Items(items)] + more;
      assert bs[1..] == more && more != [] by { SomeBranch(rd, more, ReadBranches(rd, t, g).rest); }
      assert first.rest == "|" + first.rest[1..];
    } else {
      bs := [Items(items)];
      assert bs[1..] == [];
    }
    var r := ReadBranches(rd, t, g);
    BranchesUnfold(bs, r.rest, g);
    assert first.rest == AfterBranch(bs, r.rest);
    FitsFirst(rd, bs, r.rest);
  }

  lemma ItemsRead(rd: ClassReader, t: string, g: nat)
    requires Sane(rd) && ReadBranches(rd, t, g).Good?
    ensures ReadItems(rd, t, g).Good? && SequenceEnds(ReadItems(rd, t, g).rest)
  {
    hide ReadItems;
  }

  lemma SomeBranch(rd: ClassReader, bs: seq<Items>, rest: string)
    requires BranchesFit(rd, bs, rest)
    ensures bs != []
  {
  }

  lemma FitsFirst(rd: ClassReader, bs: seq<Items>, rest: string)
    requires bs != [] && ItemsFit(rd, bs[0].items, AfterBranch(bs, rest))
    requires |bs| > 1 ==> BranchesFit(rd, bs[1..], rest)
    ensures BranchesFit(rd, bs, rest)
  {
    hide ItemsFit, AfterBranch;
  }

  lemma {:induction false} SpellsItems(rd: ClassReader, t: string, g: nat) returns (items: seq<Item>)
    requires Sane(rd) && ReadItems(rd, t, g).Good?
    ensures var r := ReadItems(rd, t, g);
      && ItemsFit(rd, items, r.rest) && t == ItemsText(items) + r.rest
      && r.v == ItemsMeaning(items, g) && r.g == g + ItemsGroups(items)
    decreases |t|, 2
  {
    hide ReadRepeat, ItemFits, ItemText, ItemMeaning, ItemGroups;
    if SequenceEnds(t) {
      items := [];
      assert t == "" + t;
    } else {
      var i := SpellsItem(rd, t, g);
      var r := ReadRepeat(rd, t, g);
      hide ItemsFit, ItemsText, ItemsMeaning, ItemsGroups;
      var more := SpellsItems(rd, r.rest, r.g);
      items := [i] + more;
      MoreItems(rd, i, more, ReadItems(rd, r.rest, r.g).rest, g);
    }
  }

  lemma MoreItems(rd: ClassReader, i: Item, more: seq<Item>, rest: string, g: nat)
    requires ItemsFit(rd, more, rest) && ItemFits(rd, i, ItemsText(more) + rest)
    ensures var items := [i] + more;
      && ItemsFit(rd, items, rest) && ItemsText(items) + rest == ItemText(i) + (ItemsText(more) + rest)
      && ItemsMeaning(items, g) == [ItemMeaning(i, g)] + ItemsMeaning(more, g + ItemGroups(i))
      && ItemsGroups(items) == ItemGroups(i) + ItemsGroups(more)
  {
    hide ItemFits, ItemText, ItemMeaning, ItemGroups;
    assert ([i] + more)[1..] == more;
    assert ItemText(i) + (ItemsText(more) + rest) == (ItemText(i) + ItemsText(more)) + rest;
  }

  lemma {:induction false} SpellsItem(rd: ClassReader, t: string, g: nat) returns (i: Item)
    requires Sane(rd) && !SequenceEnds(t) && ReadRepeat(rd, t, g).Good?
    ensures var r := ReadRepeat(rd, t, g);
      && ItemFits(rd, i, r.rest) && t == ItemText(i) + r.rest
      && r.v == ItemMeaning(i, g) && r.g == g + ItemGroups(i)
    decreases |t|, 1
  {
    hide ReadAtom, ReadQuant, AtomFits, AtomText, AtomMeaning, AtomGroups, QuantFits, QuantEnds, QuantText, QuantMeaning;
    var a := SpellsAtom(rd, t, g);
    var r := ReadAtom(rd, t, g);
    var q := SpellsQuant(r.v, r.rest, r.g);
    i := Item(a, q);
    var end := ReadQuant(r.v, r.rest, r.g).rest;
    assert AtomText(a) + (QuantText(q) + end) == (AtomText(a) + QuantText(q)) + end;
  }

  lemma SpellsRepeated(a: Ast, min: nat, max: Option<nat>, t: string, g: nat) returns (l: bool)
    ensures var r := Repeated(a, min, max, t, g);
      t == Mark(l) + r.rest && r.v == Repeat(a, min, max, l) && r.g == g && (l || !Starts(r.rest, '?'))
  {
    l := Starts(t, '?');
    if l { assert t == "?" + t[1..]; } else { assert t == "" + t; }
  }

  lemma SpellsQuant(a: Ast, t: string, g: nat) returns (q: Quant)
    requires ReadQuant(a, t, g).Good?
    ensures var r := ReadQuant(a, t, g);
      QuantFits(q) && QuantEnds(q, r.rest) && t == QuantText(q) + r.rest && r.v == QuantMeaning(q, a) && r.g == g
  {
    hide Repeated, ReadBounds, Value;
    if Starts(t, '{') {
      q := SpellsBounds(a, t[1..], g);
      assert t == "{" + t[1..];
      BraceBody(q, ReadQuant(a, t, g).rest);
    } else if t != "" && (t[0] == '*' || t[0] == '+' || t[0] == '?') {
      q := SpellsSimple(a, t, g);
    } else {
      q := One;
      assert t == "" + t;
    }
  }

  lemma SpellsSimple(a: Ast, t: string, g: nat) returns (q: Quant)
    requires t != "" && (t[0] == '*' || t[0] == '+' || t[0] == '?')
    ensures var r := ReadQuant(a, t, g);
      && r.Good? && QuantFits(q) && QuantEnds(q, r.rest) && t == QuantText(q) + r.rest
      && r.v == QuantMeaning(q, a) && r.g == g
  {
    hide Repeated, ReadBounds, Value;
    assert t == [t[0]] + t[1..];
    if t[0] == '*' {
      var l := SpellsRepeated(a, 0, None, t[1..], g);
      q := Star(l);
    } else if t[0] == '+' {
      var l := SpellsRepeated(a, 1, None, t[1..], g);
      q := Plus(l);
    } else {
      var l := SpellsRepeated(a, 0, Some(1), t[1..], g);
      q := Maybe(l);
    }
  }

  lemma SpellsNum(t: string) returns (n: string)
    requires ReadNum(t).Good?
    ensures Number(n) && ReadNum(t).v == Count(n) && t == n + ReadNum(t).rest
  {
    hide Value;
    var k := DigitRun(t);
    n := t[..k];
    assert t == t[..k] + t[k..];
  }

  lemma SpellsBraced(a: Ast, min: nat, max: Option<nat>, t: string, g: nat) returns (l: bool)
    requires Braced(a, min, max, t, g).Good?
    ensures var r := Braced(a, min, max, t, g);
      && t == "}" + (Mark(l) + r.rest) && r.v == Repeat(a, min, max, l) && r.g == g && (l || !Starts(r.rest, '?'))
      && (max.Some? ==> min <= max.value)
  {
    hide Repeated;
    l := SpellsRepeated(a, min, max, t[1..], g);
    assert t == "}" + t[1..];
  }

  lemma SpellsBounds(a: Ast, t: string, g: nat) returns (q: Quant)
    requires ReadBounds(a, t, g).Good?
    ensures q.Exactly? || q.AtLeast? || q.Between?
    ensures var r := ReadBounds(a, t, g);
      QuantFits(q) && QuantEnds(q, r.rest) && t == Body(q, r.rest) && r.v == QuantMeaning(q, a) && r.g == g
  {
    hide ReadNum, Braced, Value, Number, Count, Mark;
    var n := SpellsNum(t);
    var u := ReadNum(t).rest;
    if Starts(u, ',') {
      assert u == "," + u[1..];
      q := SpellsUpper(a, n, u[1..], g);
    } else {
      var l := SpellsBraced(a, Count(n), Some(Count(n)), u, g);
      q := Exactly(n, l);
    }
  }

  lemma SpellsUpper(a: Ast, n: string, t: string, g: nat) returns (q: Quant)
    requires Number(n) && ReadUpper(a, Count(n), t, g).Good?
    ensures q.AtLeast? || q.Between?
    ensures var r := ReadUpper(a, Count(n), t, g);
      QuantFits(q) && QuantEnds(q, r.rest) && n + ("," + t) == Body(q, r.rest) && r.v == QuantMeaning(q, a) && r.g == g
  {
    hide ReadNum, Braced, Value, Number, Count, Mark;
    if Starts(t, '}') {
      var l := SpellsBraced(a, Count(n), None, t, g);
      q := AtLeast(n, l);
    } else {
      var m := SpellsNum(t);
      var l := SpellsBraced(a, Count(n), Some(Count(m)), ReadNum(t).rest, g);
      q := Between(n, m, l);
    }
  }

  // ----- main results -----

  /** The pattern spells the tree. */
  ghost predicate Spelled(rd: ClassReader, bs: seq<Items>, t: string, a: Ast, groups: nat) {
    BranchesFit(rd, bs, "") && BranchesText(bs) == t && OfBranches(BranchesMeaning(bs, 0)) == a && BranchesGroups(bs) == groups
  }

  /** A pattern is accepted, with this tree and this many groups, exactly when it spells them. */
  lemma AcceptsSpellings(rd: ClassReader, t: string, a: Ast, groups: nat)
    requires Sane(rd)
    ensures ReadPattern(rd, t) == Ok((a, groups)) <==> exists bs :: Spelled(rd, bs, t, a, groups)
  {
    hide BranchesText, BranchesMeaning, BranchesGroups, BranchesFit, OfBranches, ReadBranches;
    if ReadPattern(rd, t) == Ok((a, groups)) {
      var bs := SpellsAlt(rd, t, 0);
      assert BranchesText(bs) + "" == BranchesText(bs);
      assert Spelled(rd, bs, t, a, groups);
    }
    if exists bs :: Spelled(rd, bs, t, a, groups) {
      var bs :| Spelled(rd, bs, t, a, groups);
      assert t + "" == t;
      ReadsBranches(rd, bs, "", 0);
    }
  }
}

/** Numeric format pictures and their parser (src/numfmt.rs). */
module NumPicture {
  import opened Wrappers

  datatype Node =
    | N9 | N0 | Dec | Comma | G | L | C
    | Roman(lower: bool) | Th(lower: bool)
    | MI | PL | SG | S
    | Lit(c: char)

  /** `lsign` is 0 without an S, 1 for one before the point, 2 for one after it. */
  datatype Picture = Picture(
    pre: nat, post: nat, zero: bool, zeroStart: nat, zeroEnd: nat, fillmode: bool, lsign: nat, preLsign: nat,
    minus: bool, plus: bool, bracket: bool, roman: bool, eeee: bool, blank: bool, decimal: bool, multi: nat,
    nodes: seq<Node>)

  const EMPTY := Picture(0, 0, false, 0, 0, false, 0, 0, false, false, false, false, false, false, false, 0, [])

  datatype Problem =
    | NineAfterPr | ZeroAfterPr | ManyPoints | PointAndV | RomanTwice | SignTwice | SignClash | BracketClash
    | ScientificTwice | ScientificClash | RomanClash

  /** The parser's state: the picture so far, and whether the point and the V were seen. */
  datatype Scan = Scan(d: Picture, decimalSeen: bool, multiSeen: bool)

  // ----- keywords -----

  /** Keywords that mark no node of their own. */
  datatype Keyword = Node(n: Node) | EEEE | FM | PR | SP | B | V

  predicate Starts(t: string, kw: string) {
    kw != "" && |kw| <= |t| && t[0] == kw[0] && t[..|kw|] == kw
  }

  /** `match_keyword`: the first keyword of the table that `t` starts with, and its length. */
  function MatchKeyword(t: string): (r: Option<(Keyword, nat)>)
    requires t != ""
    ensures r.Some? ==> 1 <= r.value.1 <= |t|
  {
    if Starts(t, "EEEE") || Starts(t, "eeee") then Some((EEEE, 4))
    else if Starts(t, "FM") || Starts(t, "fm") then Some((FM, 2))
    else if Starts(t, "MI") || Starts(t, "mi") then Some((Node(MI), 2))
    else if Starts(t, "PL") || Starts(t, "pl") then Some((Node(PL), 2))
    else if Starts(t, "PR") || Starts(t, "pr") then Some((PR, 2))
    else if Starts(t, "RN") then Some((Node(Roman(false)), 2))
    else if Starts(t, "rn") then Some((Node(Roman(true)), 2))
    else if Starts(t, "SG") || Starts(t, "sg") then Some((Node(SG), 2))
    else if Starts(t, "SP") || Starts(t, "sp") then Some((SP, 2))
    else if t[0] == 'S' || t[0] == 's' then Some((Node(S), 1))
    else if Starts(t, "TH") then Some((Node(Th(false)), 2))
    else if Starts(t, "th") then Some((Node(Th(true)), 2))
    else SingleKeyword(t[0])
  }

  function SingleKeyword(c: char): (r: Option<(Keyword, nat)>)
    ensures r.Some? ==> r.value.1 == 1
  {
    if c == ',' then Some((Node(Comma), 1))
    else if c == '.' || c == 'D' || c == 'd' then Some((Node(Dec), 1))
    else if c == '0' then Some((Node(N0), 1))
    else if c == '9' then Some((Node(N9), 1))
    else if c == 'B' || c == 'b' then Some((B, 1))
    else if c == 'C' || c == 'c' then Some((Node(C), 1))
    else if c == 'G' || c == 'g' then Some((Node(G), 1))
    else if c == 'L' || c == 'l' then Some((Node(L), 1))
    else if c == 'V' || c == 'v' then Some((V, 1))
    else None
  }

  // ----- one element -----

  function Push(d: Picture, n: Node): Picture {
    d.(nodes := d.nodes + [n])
  }

  function AddNine(s: Scan): Result<Scan, Problem> {
    var d := Push(s.d, N9);
    if d.bracket then Err(NineAfterPr)
    else Ok(s.(d := if s.multiSeen then d.(multi := d.multi + 1)
                    else if s.decimalSeen then d.(post := d.post + 1)
                    else d.(pre := d.pre + 1)))
  }

  function AddZero(s: Scan): Result<Scan, Problem> {
    var d := Push(s.d, N0);
    if d.bracket then Err(ZeroAfterPr)
    else
      var d1 := if !d.zero && !s.decimalSeen then d.(zero := true, zeroStart := d.pre + 1) else d;
      var d2 := if s.decimalSeen then d1.(post := d.post + 1) else d1.(pre := d.pre + 1);
      Ok(s.(d := d2.(zeroEnd := d2.pre + d2.post)))
  }

  function AddNode(s: Scan, n: Node): Result<Scan, Problem> {
    var d := Push(s.d, n);
    match n
    case N9 => AddNine(s)
    case N0 => AddZero(s)
    case Dec =>
      if s.decimalSeen then Err(ManyPoints)
      else if s.multiSeen then Err(PointAndV)
      else Ok(s.(d := d.(decimal := true), decimalSeen := true))
    case Roman(_) => if d.roman then Err(RomanTwice) else Ok(s.(d := d.(roman := true)))
    case S => AddS(s)
    case _ =>
      if IsSign(n) then
        if d.lsign != 0 then Err(SignClash)
        else Ok(s.(d := d.(minus := d.minus || n != PL, plus := d.plus || n != MI)))
      else Ok(s.(d := d))
  }

  predicate IsSign(n: Node) {
    n == MI || n == PL || n == SG
  }

  function AddS(s: Scan): Result<Scan, Problem> {
    var d := Push(s.d, S);
    if d.lsign != 0 then Err(SignTwice)
    else if d.plus || d.minus || d.bracket then Err(SignClash)
    else Ok(s.(d := if s.decimalSeen then d.(lsign := 2) else d.(lsign := 1, preLsign := d.pre)))
  }

  function AddKeyword(s: Scan, k: Keyword): Result<Scan, Problem> {
    var d := s.d;
    match k
    case Node(n) => AddNode(s, n)
    case PR =>
      if d.lsign != 0 || d.plus || d.minus then Err(BracketClash) else Ok(s.(d := d.(bracket := true)))
    case FM => Ok(s.(d := d.(fillmode := true)))
    case EEEE =>
      if d.eeee then Err(ScientificTwice)
      else if d.fillmode || d.lsign != 0 || d.bracket || d.minus || d.plus || d.roman || s.multiSeen || d.blank
      then Err(ScientificClash)
      else Ok(s.(d := d.(eeee := true)))
    case V => if s.decimalSeen then Err(PointAndV) else Ok(s.(multiSeen := true))
    case B => Ok(s.(d := d.(blank := d.blank || (d.pre == 0 && d.post == 0 && !d.zero))))
    case SP => Ok(s)
  }

  // ----- the whole picture -----

  /** The picture text from outside quotes on. */
  function Outside(s: Scan, t: string): Result<Scan, Problem>
    decreases |t|
  {
    if t == "" then Ok(s)
    else if t[0] == '"' then Inside(s, t[1..])
    else
      var k := MatchKeyword(t);
      if k.Some? then
        var s1 := AddKeyword(s, k.value.0);
        if s1.Err? then s1 else Outside(s1.value, t[k.value.1..])
      else if t[0] == '\\' && |t| > 1 && t[1] == '"' then Outside(s.(d := Push(s.d, Lit('"'))), t[2..])
      else Outside(s.(d := Push(s.d, Lit(t[0]))), t[1..])
  }

  /** The picture text from inside quotes on; an open quote swallows the rest. */
  function Inside(s: Scan, t: string): Result<Scan, Problem>
    decreases |t|
  {
    if t == "" then Ok(s)
    else if t[0] == '\\' && |t| > 1 then Inside(s.(d := Push(s.d, Lit(t[1]))), t[2..])
    else if t[0] == '"' then Outside(s, t[1..])
    else Inside(s.(d := Push(s.d, Lit(t[0]))), t[1..])
  }

  function Checked(r: Result<Scan, Problem>): Result<Picture, Problem> {
    match r
    case Err(e) => Err(e)
    case Ok(s) =>
      var d := s.d;
      if d.roman && (d.lsign != 0 || d.minus || d.plus || d.bracket || d.eeee || s.multiSeen || s.decimalSeen
                     || d.zero || d.blank)
      then Err(RomanClash)
      else Ok(d)
  }

  method ParsePicture(fmt: string) returns (r: Result<Picture, Problem>)
    ensures r == Checked(Outside(Scan(EMPTY, false, false), fmt))
  {
    hide MatchKeyword, AddKeyword, Outside, Inside;
    var s := Scan(EMPTY, false, false);
    var pos: nat := 0;
    assert fmt[0..] == fmt;
    while pos < |fmt|
      invariant pos <= |fmt|
      invariant Outside(s, fmt[pos..]) == Outside(Scan(EMPTY, false, false), fmt)
    {
      OutsideStep(s, fmt, pos);
      if fmt[pos] == '"' {
        pos := pos + 1;
        var closed := false;
        while pos < |fmt| && !closed
          invariant pos <= |fmt|
          invariant (if closed then Outside(s, fmt[pos..]) else Inside(s, fmt[pos..]))
                    == Outside(Scan(EMPTY, false, false), fmt)
          decreases |fmt| - pos
        {
          InsideStep(s, fmt, pos);
          var q := fmt[pos];
          if q == '\\' && pos + 1 < |fmt| {
            s := s.(d := Push(s.d, Lit(fmt[pos + 1])));
            pos := pos + 2;
          } else if q == '"' {
            pos := pos + 1;
            closed := true;
          } else {
            s := s.(d := Push(s.d, Lit(q)));
            pos := pos + 1;
          }
        }
        OpenEnd(s, fmt);
        continue;
      }
      var k := MatchKeyword(fmt[pos..]);
      if k.Some? {
        var s1 := AddKeyword(s, k.value.0);
        if s1.Err? { return Err(s1.error); }
        s := s1.value;
        pos := pos + k.value.1;
      } else if fmt[pos] == '\\' && pos + 1 < |fmt| && fmt[pos + 1] == '"' {
        s := s.(d := Push(s.d, Lit('"')));
        pos := pos + 2;
      } else {
        s := s.(d := Push(s.d, Lit(fmt[pos])));
        pos := pos + 1;
      }
    }
    OpenEnd(s, fmt);
    assert fmt[pos..] == fmt[|fmt|..];
    var d := s.d;
    if d.roman && (d.lsign != 0 || d.minus || d.plus || d.bracket || d.eeee || s.multiSeen || s.decimalSeen
                   || d.zero || d.blank) {
      return Err(RomanClash);
    }
    return Ok(d);
  }

  lemma OpenEnd(s: Scan, fmt: string)
    ensures Outside(s, fmt[|fmt|..]) == Ok(s) && Inside(s, fmt[|fmt|..]) == Ok(s)
  {
  }

  lemma OutsideStep(s: Scan, fmt: string, pos: nat)
    requires pos < |fmt|
    ensures var t, k := fmt[pos..], MatchKeyword(fmt[pos..]);
      Outside(s, t) ==
        if t[0] == '"' then Inside(s, fmt[pos + 1..])
        else if k.Some? then
          (var s1 := AddKeyword(s, k.value.0); if s1.Err? then s1 else Outside(s1.value, fmt[pos + k.value.1..]))
        else if t[0] == '\\' && pos + 1 < |fmt| && t[1] == '"' then Outside(s.(d := Push(s.d, Lit('"'))), fmt[pos + 2..])
        else Outside(s.(d := Push(s.d, Lit(t[0]))), fmt[pos + 1..])
  {
    hide MatchKeyword, AddKeyword;
    var t := fmt[pos..];
    assert t[1..] == fmt[pos + 1..];
    if |t| > 1 { assert t[2..] == fmt[pos + 2..]; }
    var k := MatchKeyword(t);
    if k.Some? { assert t[k.value.1..] == fmt[pos + k.value.1..]; }
  }

  lemma InsideStep(s: Scan, fmt: string, pos: nat)
    requires pos < |fmt|
    ensures Inside(s, fmt[pos..]) ==
      if fmt[pos] == '\\' && pos + 1 < |fmt| then Inside(s.(d := Push(s.d, Lit(fmt[pos + 1]))), fmt[pos + 2..])
      else if fmt[pos] == '"' then Outside(s, fmt[pos + 1..])
      else Inside(s.(d := Push(s.d, Lit(fmt[pos]))), fmt[pos + 1..])
  {
    var t := fmt[pos..];
    assert t[1..] == fmt[pos + 1..];
    if |t| > 1 { assert t[2..] == fmt[pos + 2..]; }
  }

  // ----- what every parsed picture keeps -----

  predicate IsSlot(n: Node) {
    n == N9 || n == N0
  }

  function Count(nodes: seq<Node>, n: Node): nat {
    if nodes == [] then 0 else Count(nodes[..|nodes| - 1], n) + (if nodes[|nodes| - 1] == n then 1 else 0)
  }

  lemma CountPush(nodes: seq<Node>, m: Node, n: Node)
    ensures Count(nodes + [m], n) == Count(nodes, n) + (if m == n then 1 else 0)
  {
    assert (nodes + [m])[..|nodes|] == nodes;
  }

  /** Slots are counted once, there is at most one point and it excludes V, the zero mark lies
      among the integer slots, and no sign style is combined with S. */
  ghost predicate Coherent(s: Scan) {
    Counted(s) && Marked(s.d)
  }

  ghost predicate Counted(s: Scan) {
    var d := s.d;
    && d.pre + d.post + d.multi == Count(d.nodes, N9) + Count(d.nodes, N0)
    && d.decimal == s.decimalSeen && Count(d.nodes, Dec) == (if d.decimal then 1 else 0)
    && (s.multiSeen ==> !d.decimal) && (d.multi > 0 ==> s.multiSeen) && (d.post > 0 ==> d.decimal)
  }

  ghost predicate Marked(d: Picture) {
    && (d.zero ==> 1 <= d.zeroStart <= d.pre) && (!d.zero ==> d.zeroStart == 0)
    && d.lsign <= 2 && (d.lsign != 0 ==> !d.plus && !d.minus && !d.bracket) && d.preLsign <= d.pre
    && (d.lsign == 2 ==> d.decimal)
  }

  lemma AddKeepsCoherent(s: Scan, k: Keyword)
    requires Coherent(s) && AddKeyword(s, k).Ok?
    ensures Coherent(AddKeyword(s, k).value)
  {
    hide Count, AddNode, Coherent;
    if k.Node? {
      AddNodeKeepsCoherent(s, k.n);
    } else {
      FlagKeepsCoherent(s, k);
    }
  }

  lemma FlagKeepsCoherent(s: Scan, k: Keyword)
    requires !k.Node? && Coherent(s) && AddKeyword(s, k).Ok?
    ensures Coherent(AddKeyword(s, k).value)
  {
    hide Count;
  }

  lemma AddNodeKeepsCoherent(s: Scan, n: Node)
    requires Coherent(s) && AddNode(s, n).Ok?
    ensures Coherent(AddNode(s, n).value)
  {
    hide Counted, Marked, AddNine, AddZero, AddS;
    if n == N9 {
      NineKeepsCoherent(s);
    } else if n == N0 {
      ZeroKeepsCoherent(s);
    } else if n == S {
      SKeepsCoherent(s);
    } else {
      OtherKeepsCoherent(s, n);
    }
  }

  lemma NineKeepsCoherent(s: Scan)
    requires Coherent(s) && AddNine(s).Ok?
    ensures Coherent(AddNine(s).value)
  {
    hide Counted, Marked;
    NineKeepsCounted(s);
    assert Marked(AddNine(s).value.d) by { NineKeepsMarked(s); }
  }

  lemma NineKeepsMarked(s: Scan)
    requires Marked(s.d) && AddNine(s).Ok?
    ensures Marked(AddNine(s).value.d)
  {
  }

  lemma NineKeepsCounted(s: Scan)
    requires Counted(s) && AddNine(s).Ok?
    ensures Counted(AddNine(s).value)
  {
    hide Count;
    PushCounts(s.d, N9);
  }

  lemma ZeroKeepsCoherent(s: Scan)
    requires Coherent(s) && AddZero(s).Ok?
    ensures Coherent(AddZero(s).value)
  {
    hide Count;
    PushCounts(s.d, N0);
  }

  lemma SKeepsCoherent(s: Scan)
    requires Coherent(s) && AddS(s).Ok?
    ensures Coherent(AddS(s).value)
  {
    hide Count;
    PushCounts(s.d, S);
  }

  lemma OtherKeepsCoherent(s: Scan, n: Node)
    requires !IsSlot(n) && n != S && Coherent(s) && AddNode(s, n).Ok?
    ensures Coherent(AddNode(s, n).value)
  {
    hide Count, AddNine, AddZero, AddS;
    PushCounts(s.d, n);
    if n == Dec {
      PointKeepsCoherent(s);
    }
  }

  lemma PointKeepsCoherent(s: Scan)
    requires Coherent(s) && AddNode(s, Dec).Ok?
    ensures Coherent(AddNode(s, Dec).value)
  {
    hide Count, AddNine, AddZero, AddS;
    PushCounts(s.d, Dec);
  }

  lemma PushCounts(d: Picture, m: Node)
    ensures Count(Push(d, m).nodes, N9) == Count(d.nodes, N9) + (if m == N9 then 1 else 0)
    ensures Count(Push(d, m).nodes, N0) == Count(d.nodes, N0) + (if m == N0 then 1 else 0)
    ensures Count(Push(d, m).nodes, Dec) == Count(d.nodes, Dec) + (if m == Dec then 1 else 0)
  {
    CountPush(d.nodes, m, N9);
    CountPush(d.nodes, m, N0);
    CountPush(d.nodes, m, Dec);
  }

  lemma {:induction false} OutsideKeepsCoherent(s: Scan, t: string)
    requires Coherent(s) && Outside(s, t).Ok?
    ensures Coherent(Outside(s, t).value)
    decreases |t|
  {
    hide Coherent, AddKeyword, MatchKeyword, Push;
    if t != "" {
      if t[0] == '"' {
        InsideKeepsCoherent(s, t[1..]);
      } else if MatchKeyword(t).Some? {
        AddKeepsCoherent(s, MatchKeyword(t).value.0);
        OutsideKeepsCoherent(AddKeyword(s, MatchKeyword(t).value.0).value, t[MatchKeyword(t).value.1..]);
      } else if t[0] == '\\' && |t| > 1 && t[1] == '"' {
        LiteralKeepsCoherent(s, '"');
        OutsideKeepsCoherent(s.(d := Push(s.d, Lit('"'))), t[2..]);
      } else {
        LiteralKeepsCoherent(s, t[0]);
        OutsideKeepsCoherent(s.(d := Push(s.d, Lit(t[0]))), t[1..]);
      }
    }
  }

  lemma {:induction false} InsideKeepsCoherent(s: Scan, t: string)
    requires Coherent(s) && Inside(s, t).Ok?
    ensures Coherent(Inside(s, t).value)
    decreases |t|
  {
    hide Coherent, Push;
    if t != "" {
      if t[0] == '\\' && |t| > 1 {
        LiteralKeepsCoherent(s, t[1]);
        InsideKeepsCoherent(s.(d := Push(s.d, Lit(t[1]))), t[2..]);
      } else if t[0] == '"' {
        OutsideKeepsCoherent(s, t[1..]);
      } else {
        LiteralKeepsCoherent(s, t[0]);
        InsideKeepsCoherent(s.(d := Push(s.d, Lit(t[0]))), t[1..]);
      }
    }
  }

  lemma LiteralKeepsCoherent(s: Scan, c: char)
    requires Coherent(s)
    ensures Coherent(s.(d := Push(s.d, Lit(c))))
  {
    hide Count;
    PushCounts(s.d, Lit(c));
  }

  /** Every picture that parses is coherent, and no Roman picture has a sign, a point or a zero. */
  lemma ParsedCoherent(fmt: string)
    ensures var r := Checked(Outside(Scan(EMPTY, false, false), fmt));
      r.Ok? ==>
        && (exists s: Scan :: s.d == r.value && Coherent(s))
        && (r.value.roman ==> !(r.value.zero || r.value.decimal || r.value.lsign != 0 || r.value.multi > 0))
  {
    var s0 := Scan(EMPTY, false, false);
    hide Outside;
    if Outside(s0, fmt).Ok? {
      OutsideKeepsCoherent(s0, fmt);
    }
  }

  // ----- plain pictures -----

  /** Slots and group commas, each comma between two slots, then maybe a point and more slots. */
  predicate Groups(nodes: seq<Node>, afterSlot: bool) {
    if nodes == [] then afterSlot
    else if IsSlot(nodes[0]) then Groups(nodes[1..], true)
    else if nodes[0] == Comma then afterSlot && |nodes| > 1 && IsSlot(nodes[1]) && Groups(nodes[1..], false)
    else nodes[0] == Dec && afterSlot && |nodes| > 1 && AllSlots(nodes[1..])
  }

  predicate AllSlots(nodes: seq<Node>) {
    forall i :: 0 <= i < |nodes| ==> IsSlot(nodes[i])
  }

  /** Slots before the point. */
  function IntSlots(nodes: seq<Node>): nat {
    if nodes == [] || nodes[0] == Dec then 0 else IntSlots(nodes[1..]) + (if IsSlot(nodes[0]) then 1 else 0)
  }

  /** Slots after the point. */
  function FracSlots(nodes: seq<Node>): nat {
    if nodes == [] then 0 else if nodes[0] == Dec then |nodes| - 1 else FracSlots(nodes[1..])
  }

  /** A picture of digit slots, group commas and at most one point: no flag set. */
  predicate PlainPicture(d: Picture) {
    && Groups(d.nodes, false)
    && d.pre == IntSlots(d.nodes) && d.post == FracSlots(d.nodes) && d.decimal == (Dec in d.nodes)
    && !d.fillmode && d.lsign == 0 && !d.minus && !d.plus && !d.bracket && !d.roman && !d.eeee && !d.blank
    && d.multi == 0
  }

  /** The picture text of a plain node list. */
  predicate PlainText(t: string) {
    forall i :: 0 <= i < |t| ==> t[i] in {'9', '0', ',', '.'}
  }

  function NodeOf(c: char): Node {
    if c == '9' then N9 else if c == '0' then N0 else if c == ',' then Comma else Dec
  }

  function NodesOf(t: string): (r: seq<Node>)
    ensures |r| == |t| && forall i | 0 <= i < |t| :: r[i] == NodeOf(t[i])
  {
    if t == "" then [] else [NodeOf(t[0])] + NodesOf(t[1..])
  }

  lemma PlainKeyword(t: string)
    requires t != "" && t[0] in {'9', '0', ',', '.'}
    ensures MatchKeyword(t) == Some((Keyword.Node(NodeOf(t[0])), 1))
  {
  }

  lemma PlainStep(s: Scan, t: string)
    requires t != "" && t[0] in {'9', '0', ',', '.'}
    ensures var s1 := AddNode(s, NodeOf(t[0]));
      Outside(s, t) == if s1.Err? then s1 else Outside(s1.value, t[1..])
  {
    hide MatchKeyword, AddNode;
    PlainKeyword(t);
  }

  lemma AddPlain(s: Scan, n: Node)
    requires !s.multiSeen && !s.d.bracket && (IsSlot(n) || n == Comma || (n == Dec && !s.decimalSeen))
    ensures AddNode(s, n).Ok?
    ensures var s1 := AddNode(s, n).value;
      && s1.d.nodes == s.d.nodes + [n] && s1.decimalSeen == (s.decimalSeen || n == Dec)
      && s1.d.pre == s.d.pre + (if IsSlot(n) && !s.decimalSeen then 1 else 0)
      && s1.d.post == s.d.post + (if IsSlot(n) && s.decimalSeen then 1 else 0)
      && s1.d.decimal == (s.d.decimal || n == Dec) && SameFlags(s1, s)
  {
  }

  lemma FlagsKept(s: Scan, t: Scan)
    requires SameFlags(s, t)
    ensures s.multiSeen == t.multiSeen && s.d.bracket == t.d.bracket
  {
  }

  lemma SameFlagsTwice(s: Scan, t: Scan, u: Scan)
    requires SameFlags(s, t) && SameFlags(t, u)
    ensures SameFlags(s, u)
  {
  }

  /** After the point there are only slots. */
  lemma {:induction false} PlainFraction(s: Scan, t: string)
    requires PlainText(t) && s.decimalSeen && !s.multiSeen && !s.d.bracket && AllSlots(NodesOf(t))
    ensures Outside(s, t).Ok?
    ensures var s1 := Outside(s, t).value;
      && s1.d.nodes == s.d.nodes + NodesOf(t) && s1.d.pre == s.d.pre && s1.d.post == s.d.post + |t|
      && s1.d.decimal == s.d.decimal && SameFlags(s1, s)
    decreases |t|
  {
    if t != "" {
      hide Outside, AddNode, SameFlags;
      PlainStep(s, t);
      assert IsSlot(NodesOf(t)[0]);
      assert NodesOf(t)[1..] == NodesOf(t[1..]);
      AddPlain(s, NodeOf(t[0]));
      var s1 := AddNode(s, NodeOf(t[0])).value;
      FlagsKept(s1, s);
      PlainFraction(s1, t[1..]);
      SameFlagsTwice(Outside(s, t).value, s1, s);
      Snoc(s.d.nodes, NodesOf(t));
    } else {
      assert s.d.nodes + [] == s.d.nodes;
    }
  }

  lemma Snoc(a: seq<Node>, b: seq<Node>)
    requires b != []
    ensures a + [b[0]] + b[1..] == a + b
  {
  }

  /** What parsing the rest of a plain text adds to the picture. */
  lemma {:induction false} PlainOutside(s: Scan, t: string, afterSlot: bool)
    requires PlainText(t) && !s.decimalSeen && !s.multiSeen && !s.d.bracket && Groups(NodesOf(t), afterSlot)
    ensures Outside(s, t).Ok?
    ensures var s1, nodes := Outside(s, t).value, NodesOf(t);
      && s1.d.nodes == s.d.nodes + nodes && s1.d.pre == s.d.pre + IntSlots(nodes)
      && s1.d.post == s.d.post + FracSlots(nodes) && s1.d.decimal == (s.d.decimal || Dec in nodes)
      && SameFlags(s1, s)
    decreases |t|
  {
    if t != "" {
      hide Outside, AddNode, SameFlags;
      PlainStep(s, t);
      var nodes := NodesOf(t);
      AddPlain(s, nodes[0]);
      var s1 := AddNode(s, nodes[0]).value;
      assert nodes[1..] == NodesOf(t[1..]);
      FlagsKept(s1, s);
      if nodes[0] == Dec {
        PlainFraction(s1, t[1..]);
      } else {
        PlainOutside(s1, t[1..], IsSlot(nodes[0]));
        assert Dec in nodes <==> Dec in nodes[1..];
      }
      SameFlagsTwice(Outside(s, t).value, s1, s);
      Snoc(s.d.nodes, nodes);
    } else {
      assert s.d.nodes + [] == s.d.nodes;
    }
  }

  /** Texts of digits, well placed commas and one point parse to plain pictures. */
  lemma PlainParses(fmt: string)
    requires PlainText(fmt) && Groups(NodesOf(fmt), false)
    ensures var r := Checked(Outside(Scan(EMPTY, false, false), fmt));
      r.Ok? && PlainPicture(r.value) && r.value.nodes == NodesOf(fmt)
  {
    hide Outside, Groups;
    PlainOutside(Scan(EMPTY, false, false), fmt, false);
    assert [] + NodesOf(fmt) == NodesOf(fmt);
  }

  predicate SameFlags(s: Scan, t: Scan) {
    && s.multiSeen == t.multiSeen && s.d.fillmode == t.d.fillmode && s.d.lsign == t.d.lsign && s.d.minus == t.d.minus
    && s.d.plus == t.d.plus && s.d.bracket == t.d.bracket && s.d.roman == t.d.roman && s.d.eeee == t.d.eeee
    && s.d.blank == t.d.blank && s.d.multi == t.d.multi
  }
}

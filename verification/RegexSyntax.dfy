/** The regular-expression AST, the instruction set, and the character tests that both the
    AST semantics and the matcher rely on (src/regex.rs). */
module RegexSyntax {
  import opened Wrappers

  datatype CharClass = CharClass(neg: bool, ranges: seq<(char, char)>, singles: seq<char>)

  datatype Ast =
    | Empty
    | Lit(c: char)
    | Dot
    | Class(cc: CharClass)
    | AnchorStart
    | AnchorEnd
    | Sequence(items: seq<Ast>)
    | Alt(alts: seq<Ast>)
    | Repeat(body: Ast, min: nat, max: Option<nat>, lazy: bool)
    | Group(body: Ast, idx: nat)
    | BackRef(idx: nat)

  datatype Insn =
    | ILit(c: char)
    | IDot
    | IClass(cc: CharClass)
    | IAnchorStart
    | IAnchorEnd
    | IJump(target: nat)
    | ISplit(first: nat, second: nat)
    | ISaveStart(g: nat)
    | ISaveEnd(g: nat)
    | IBackRef(g: nat)
    | IMatch

  /** Compile and match options. `lower` is the lower-case expansion of one character,
      which may have several characters; the model assumes nothing about it. */
  datatype Mode = Mode(ci: bool, newlineSensitive: bool, lower: char -> string)

  /** What the parser guarantees of an AST: alternations have branches, counted
      repetitions are not inverted, capture groups are numbered from 1. */
  predicate WellFormed(a: Ast) {
    match a
    case Sequence(items) => AllWellFormed(items)
    case Alt(alts) => |alts| > 0 && AllWellFormed(alts)
    case Repeat(body, min, max, _) => WellFormed(body) && (max.Some? ==> min <= max.value)
    case Group(body, g) => g > 0 && WellFormed(body)
    case _ => true
  }

  predicate AllWellFormed(items: seq<Ast>) {
    items == [] || (WellFormed(items[0]) && AllWellFormed(items[1..]))
  }

  // ----- captures and matcher configurations -----

  type Capture = Option<(nat, nat)>

  /** A position in the subject together with the captures recorded on the way to it. */
  datatype Config = Config(si: nat, caps: seq<Capture>)

  /** Every recorded capture is a well-ordered range that ends at or before the position,
      and the position is inside the subject. */
  ghost predicate Sound(s: string, o: Config) {
    && o.si <= |s|
    && forall g | 0 <= g < |o.caps| && o.caps[g].Some? ::
         o.caps[g].value.0 <= o.caps[g].value.1 <= o.si
  }

  function OpenGroup(o: Config, g: nat): Config {
    if g < |o.caps| then o.(caps := o.caps[g := Some((o.si, o.si))]) else o
  }

  function CloseGroup(o: Config, g: nat): Config {
    if g < |o.caps| && o.caps[g].Some?
    then o.(caps := o.caps[g := Some((o.caps[g].value.0, o.si))])
    else o
  }

  // ----- character tests -----

  function FoldLit(m: Mode, c: char): char {
    if m.ci && m.lower(c) != "" then m.lower(c)[0] else c
  }

  predicate CharsEq(m: Mode, a: char, b: char) {
    if m.ci then m.lower(a) == m.lower(b) else a == b
  }

  predicate ClassHit(cc: CharClass, c: char) {
    c in cc.singles || exists i :: 0 <= i < |cc.ranges| && cc.ranges[i].0 <= c <= cc.ranges[i].1
  }

  predicate ClassMatches(cc: CharClass, c: char) {
    if cc.neg then !ClassHit(cc, c) else ClassHit(cc, c)
  }

  /** Does the single-character instruction accept `c`? */
  predicate Accepts(m: Mode, insn: Insn, c: char)
    requires insn.ILit? || insn.IDot? || insn.IClass?
  {
    match insn
    case ILit(l) => CharsEq(m, c, l)
    case IDot => !(m.newlineSensitive && c == '\n')
    case IClass(cc) => ClassMatches(cc, c) && !(m.newlineSensitive && cc.neg && c == '\n')
  }

  predicate AtStart(m: Mode, s: string, si: nat)
    requires si <= |s|
  {
    si == 0 || (m.newlineSensitive && s[si - 1] == '\n')
  }

  predicate AtEnd(m: Mode, s: string, si: nat)
    requires si <= |s|
  {
    si == |s| || (m.newlineSensitive && s[si] == '\n')
  }

  predicate SameText(m: Mode, a: string, b: string)
    requires |a| == |b|
  {
    forall i :: 0 <= i < |a| ==> CharsEq(m, a[i], b[i])
  }

  /** The length consumed by a back-reference, if it matches at the current position. */
  function BackRefLength(m: Mode, s: string, o: Config, g: nat): (r: Option<nat>)
    requires Sound(s, o)
    ensures r.Some? ==> o.si + r.value <= |s|
  {
    if g < |o.caps| && o.caps[g].Some? then
      var (gs, ge) := o.caps[g].value;
      var len := ge - gs;
      if o.si + len <= |s| && SameText(m, s[gs..ge], s[o.si..o.si + len]) then Some(len) else None
    else None
  }

  // ----- single instructions that test the subject -----

  predicate IsLeaf(a: Ast) {
    !a.Empty? && !a.Sequence? && !a.Alt? && !a.Repeat? && !a.Group?
  }

  /** The one instruction of a leaf. */
  function Leaf(m: Mode, a: Ast): Insn
    requires IsLeaf(a)
  {
    match a
    case Lit(c) => ILit(FoldLit(m, c))
    case Dot => IDot
    case Class(cc) => IClass(cc)
    case AnchorStart => IAnchorStart
    case AnchorEnd => IAnchorEnd
    case BackRef(g) => IBackRef(g)
  }

  predicate IsTest(insn: Insn) {
    insn.ILit? || insn.IDot? || insn.IClass? || insn.IAnchorStart? || insn.IAnchorEnd? || insn.IBackRef?
  }

  /** The configuration after a test instruction, or None when the test fails. */
  function Advance(m: Mode, s: string, insn: Insn, o: Config): (r: Option<Config>)
    requires IsTest(insn) && Sound(s, o)
    ensures r.Some? ==> Sound(s, r.value) && o.si <= r.value.si && r.value.caps == o.caps
  {
    match insn
    case IAnchorStart => if AtStart(m, s, o.si) then Some(o) else None
    case IAnchorEnd => if AtEnd(m, s, o.si) then Some(o) else None
    case IBackRef(g) =>
      var len := BackRefLength(m, s, o, g);
      if len.Some? then Some(o.(si := o.si + len.value)) else None
    case _ =>
      if o.si < |s| && Accepts(m, insn, s[o.si]) then Some(o.(si := o.si + 1)) else None
  }
}

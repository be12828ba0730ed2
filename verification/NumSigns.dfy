/** The sign styles of `to_char`: whatever the style, the digits and blanks are those of the plain
    picture, and the marks shown are those of the number's sign. */
module NumSigns {
  import opened Wrappers
  import opened Decimal
  import opened NumPicture
  import opened NumToChar

  // ----- pictures with a sign style -----

  /** MI, PL or SG before the digits. */
  function Leading(d: Picture, n: Node): Picture {
    d.(nodes := [n] + d.nodes, minus := n != PL, plus := n != MI)
  }

  /** MI, PL or SG behind the digits. */
  function Trailing(d: Picture, n: Node): Picture {
    d.(nodes := d.nodes + [n], minus := n != PL, plus := n != MI)
  }

  /** S before the digits. */
  function Anchored(d: Picture): Picture {
    d.(nodes := [S] + d.nodes, lsign := 1, preLsign := 0)
  }

  /** S behind the digits. */
  function Closed(d: Picture): Picture {
    d.(nodes := d.nodes + [S], lsign := if d.decimal then 2 else 1, preLsign := if d.decimal then d.preLsign else d.pre)
  }

  /** PR. */
  function Bracketed(d: Picture): Picture {
    d.(bracket := true)
  }

  // ----- the marks -----

  /** A minus, or the place kept for it, which FM drops. */
  function MinusMark(neg: bool, fill: bool): string {
    if neg then "-" else if fill then "" else " "
  }

  function PlusMark(neg: bool, fill: bool): string {
    if !neg then "+" else if fill then "" else " "
  }

  function EitherMark(neg: bool): string {
    if neg then "-" else "+"
  }

  function NodeMark(n: Node, neg: bool, fill: bool): string {
    if n == MI then MinusMark(neg, fill) else if n == PL then PlusMark(neg, fill) else EitherMark(neg)
  }

  // ----- two writers side by side -----

  predicate Stop(n: Node) {
    IsSlot(n) || n == Dec
  }

  function Stops(nodes: seq<Node>): nat {
    if nodes == [] then 0 else (if Stop(nodes[0]) then 1 else 0) + Stops(nodes[1..])
  }

  predicate Simple(nodes: seq<Node>) {
    forall i :: 0 <= i < |nodes| ==> Stop(nodes[i]) || nodes[i] == Comma
  }

  predicate Unsigned(d: Picture) {
    d.lsign == 0 && !d.bracket
  }

  /** A writer without its output and its style of sign. */
  function Core(w: Writer): Writer {
    w.(out := "", signWrote := false, count := 0,
       desc := w.desc.(nodes := [], minus := false, plus := false, lsign := 0, preLsign := 0, bracket := false))
  }

  /** The same place in the same number: the writers differ in the style of the sign, whether it
      was written, and the output. */
  predicate Alike(w: Writer, v: Writer) {
    Core(w) == Core(v) && !w.desc.roman && !v.desc.roman
  }

  /** w writes the plain picture. */
  predicate Shadows(w: Writer, v: Writer) {
    && Alike(w, v) && Unsigned(w.desc)
    && (if v.desc.lsign == 2 then !v.signWrote
        else v.signWrote == w.signWrote || (v.signWrote && Unsigned(v.desc)))
    && (v.desc.bracket ==> v.desc.lsign == 0)
    && (!Unsigned(v.desc) ==> v.last.None?)
  }

  function SignMark(w: Writer): string {
    if w.desc.lsign == 1 then EitherMark(w.neg)
    else if w.desc.lsign == 2 then ""
    else if w.desc.bracket then (if w.neg then "<" else " ")
    else MinusMark(w.neg, w.desc.fillmode)
  }

  /** What a writer in front of its sign writes for it. */
  function Mark(v: Writer): string {
    if v.signWrote then "" else SignMark(v)
  }

  function End(v: Writer): int {
    v.count + (if v.blanks != 0 then 1 else 0) + (if v.desc.decimal then 1 else 0)
  }

  function EndMark(v: Writer): string {
    if v.desc.bracket then (if v.neg then ">" else " ")
    else if v.desc.lsign == 2 then EitherMark(v.neg)
    else ""
  }

  lemma SlotCore(w: Writer, id: Node)
    ensures var (c, more) := WriteSlot(Core(w), id);
      WriteSlot(w, id) == (w.(out := w.out + c.out, inputP := c.inputP, numIn := c.numIn), more)
  {
    hide WriteDigit, LastIsDot, Core, Emit, Advance;
    CoreFields(w);
    DotCore(w);
    if w.curr < w.blanks {
      hide WriteSlot;
      BlankCore(w, id);
    } else if w.inputP < |w.input| && w.input[w.inputP] == '.' {
      hide WriteSlot;
      PointCore(w, id);
    } else {
      DigitCore(w, id);
    }
  }

  lemma CoreFields(w: Writer)
    ensures var c := Core(w);
      && c.out == "" && c.input == w.input && c.inputP == w.inputP && c.blanks == w.blanks && c.curr == w.curr
      && c.last == w.last && c.numIn == w.numIn
      && c.desc.zero == w.desc.zero && c.desc.zeroStart == w.desc.zeroStart && c.desc.fillmode == w.desc.fillmode
  {
  }

  lemma BlankCore(w: Writer, id: Node)
    requires w.curr < w.blanks
    ensures var (c, more) := WriteSlot(Core(w), id);
      WriteSlot(w, id) == (w.(out := w.out + c.out, inputP := c.inputP, numIn := c.numIn), more)
  {
    hide WriteDigit, LastIsDot, Core;
    CoreFields(w);
    assert w.out + "" == w.out && "" + [' '] == [' '] && "" + ['0'] == ['0'];
  }

  lemma PointCore(w: Writer, id: Node)
    requires w.curr >= w.blanks && w.inputP < |w.input| && w.input[w.inputP] == '.'
    ensures var (c, more) := WriteSlot(Core(w), id);
      WriteSlot(w, id) == (w.(out := w.out + c.out, inputP := c.inputP, numIn := c.numIn), more)
  {
    hide WriteDigit, LastIsDot, Core;
    CoreFields(w);
    DotCore(w);
    assert w.out + "" == w.out && "" + ['.'] == ['.'];
  }

  lemma DotCore(w: Writer)
    ensures LastIsDot(Core(w)) == LastIsDot(w) && PredecSpace(Core(w)) == PredecSpace(w)
  {
  }

  lemma DigitCore(w: Writer, id: Node)
    ensures var (c, more) := WriteDigit(Core(w), id);
      WriteDigit(w, id) == (w.(out := w.out + c.out, inputP := c.inputP, numIn := c.numIn), more)
  {
    hide LastIsDot, PredecSpace, Core, Emit, Advance;
    CoreFields(w);
    DotCore(w);
    assert w.out + "" == w.out;
    if w.last.Some? && w.inputP > w.last.value && id != N0 {
      assert Advance(Core(w)) == Core(w).(inputP := Advance(w).inputP) && Advance(w) == w.(inputP := Advance(w).inputP) by {
        AdvanceCore(w);
      }
    } else if PredecSpace(w) {
      hide WriteDigit;
      LeadCore(w, id);
    } else {
      hide WriteDigit;
      TakeCore(w, id);
    }
  }

  lemma AdvanceCore(w: Writer)
    ensures Advance(w) == w.(inputP := Advance(w).inputP) && Advance(Core(w)) == Core(w).(inputP := Advance(w).inputP)
  {
    hide Core;
    CoreFields(w);
  }

  lemma LeadCore(w: Writer, id: Node)
    requires !(w.last.Some? && w.inputP > w.last.value && id != N0) && PredecSpace(w)
    ensures var (c, more) := WriteDigit(Core(w), id);
      WriteDigit(w, id) == (w.(out := w.out + c.out, inputP := c.inputP, numIn := c.numIn), more)
  {
    hide LastIsDot, PredecSpace, Core;
    CoreFields(w);
    DotCore(w);
    assert w.out + "" == w.out && "" + [' '] == [' '] && "" + ['0'] == ['0'];
  }

  lemma TakeCore(w: Writer, id: Node)
    requires !(w.last.Some? && w.inputP > w.last.value && id != N0) && !PredecSpace(w)
    ensures var (c, more) := WriteDigit(Core(w), id);
      WriteDigit(w, id) == (w.(out := w.out + c.out, inputP := c.inputP, numIn := c.numIn), more)
  {
    hide LastIsDot, PredecSpace, Core, Emit, Advance;
    CoreFields(w);
    DotCore(w);
    if w.inputP < |w.input| {
      Taken(w, id);
      Taken(Core(w), id);
      hide WriteDigit;
      assert "" + [w.input[w.inputP]] == [w.input[w.inputP]];
    } else {
      assert w.out + "" == w.out;
    }
  }

  lemma Taken(w: Writer, id: Node)
    requires !(w.last.Some? && w.inputP > w.last.value && id != N0) && !PredecSpace(w) && w.inputP < |w.input|
    ensures WriteDigit(w, id) == (w.(out := w.out + [w.input[w.inputP]], inputP := w.inputP + 1, numIn := true), true)
  {
    hide PredecSpace;
  }

  lemma SignWrites(w: Writer)
    ensures WriteSign(w) ==
      if SignDue(w) then w.(out := w.out + SignMark(w), signWrote := w.desc.lsign != 2) else w
  {
    hide SignDue, EitherMark;
    assert w.out + "" == w.out;
    EitherIs(w.neg);
    assert SignDue(w) ==> !w.signWrote by { DueNotWritten(w); }
  }

  lemma EitherIs(neg: bool)
    ensures EitherMark(neg) == [if neg then '-' else '+']
  {
  }

  lemma DueNotWritten(w: Writer)
    ensures SignDue(w) ==> !w.signWrote
    ensures SignDue(w.(numIn := false)) == SignDue(w)
  {
  }

  lemma DueCore(w: Writer)
    ensures SignDue(w) == (!w.signWrote && SignDue(Core(w)))
  {
    hide LastIsDot, PredecSpace;
    DotCore(w);
  }

  lemma EndWrites(v: Writer)
    requires v.desc.bracket ==> v.desc.lsign == 0
    requires Unsigned(v.desc) || v.last.None?
    ensures WriteEnd(v) == v.(out := v.out + (if v.curr + 1 == End(v) && (v.desc.bracket ==> v.signWrote) then EndMark(v) else ""))
  {
    assert v.out + "" == v.out;
  }

  // ----- one node -----

  predicate Writes(v: Writer) {
    && !v.desc.roman && (v.desc.bracket ==> v.desc.lsign == 0) && (Unsigned(v.desc) || v.last.None?)
  }

  function DueMark(v: Writer): string {
    if SignDue(v) then SignMark(v) else ""
  }

  function WroteNext(v: Writer): bool {
    v.signWrote || (SignDue(v) && v.desc.lsign != 2)
  }

  function CloseMark(v: Writer): string {
    if v.curr + 1 == End(v) && (v.desc.bracket ==> WroteNext(v)) then EndMark(v) else ""
  }

  /** The writer behind a slot or a point. */
  function Stepped(v: Writer, n: Node): Writer {
    var c := WriteSlot(Core(v.(numIn := false)), n).0;
    v.(out := v.out + DueMark(v) + c.out + CloseMark(v), inputP := c.inputP, numIn := c.numIn,
       signWrote := WroteNext(v), curr := v.curr + 1)
  }

  lemma StopStep(v: Writer, n: Node)
    requires Writes(v) && Stop(n) && WriteSlot(Core(v.(numIn := false)), n).1
    ensures Visit(v, n) == (Stepped(v, n), true)
  {
    hide WriteSlot, Core, SignDue, SignMark, EndMark, WriteSign, WriteEnd, End;
    var v0 := v.(numIn := false);
    DueNotWritten(v);
    SignWrites(v0);
    SameMark(v);
    var v1 := WriteSign(v0);
    assert v1 == v0.(out := v.out + DueMark(v), signWrote := WroteNext(v)) by { assert v.out + "" == v.out; }
    assert Core(v1) == Core(v0) by { CoreSame(v0, v.out + DueMark(v), WroteNext(v)); }
    SlotCore(v1, n);
    var v2 := WriteSlot(v1, n).0;
    EndWrites(v2);
    EndSame(v, v2);
  }

  lemma SameMark(v: Writer)
    ensures SignMark(v.(numIn := false)) == SignMark(v)
  {
  }

  lemma CoreSame(v: Writer, out: string, wrote: bool)
    ensures Core(v.(out := out, signWrote := wrote)) == Core(v)
  {
  }

  lemma EndSame(v: Writer, u: Writer)
    requires u.count == v.count && u.blanks == v.blanks && u.desc == v.desc && u.neg == v.neg
    ensures End(u) == End(v) && EndMark(u) == EndMark(v)
  {
  }

  // ----- the digits still to come -----

  /** Blanks or zeros to pad, and characters of the number. */
  function Left(w: Writer): int {
    |w.input| - w.inputP + (if w.curr < w.blanks then w.blanks - w.curr else 0)
  }

  lemma SlotMoves(w: Writer, n: Node)
    requires w.inputP <= |w.input| && Left(w) > 0
    ensures WriteSlot(Core(w.(numIn := false)), n).1
    ensures Stepped(w, n).inputP <= |w.input| && Left(Stepped(w, n)) == Left(w) - 1
    ensures w.inputP <= Stepped(w, n).inputP
  {
    hide DueMark, CloseMark, WroteNext, WriteSlot, Core;
    CoreFields(w.(numIn := false));
    SlotTakes(Core(w.(numIn := false)), n);
  }

  lemma SlotTakes(c: Writer, n: Node)
    requires c.curr < c.blanks || c.inputP < |c.input|
    ensures WriteSlot(c, n).1
    ensures WriteSlot(c, n).0.inputP == if c.curr < c.blanks then c.inputP else c.inputP + 1
  {
    hide LastIsDot, WriteDigit;
    if c.curr >= c.blanks { DigitTakes(c, n); }
  }

  lemma DigitTakes(c: Writer, n: Node)
    requires c.inputP < |c.input|
    ensures WriteDigit(c, n).1 && WriteDigit(c, n).0.inputP == c.inputP + 1
  {
    hide LastIsDot, PredecSpace;
  }

  /** The sign is still to be written and has its place ahead. */
  predicate SignAhead(w: Writer, nodes: seq<Node>) {
    !w.signWrote ==>
      && Stops(nodes) > 0 && w.blanks < w.curr + Stops(nodes)
      && (w.desc.post != 0 ==> Left(w) == Stops(nodes) && |w.input| >= 2)
      && (w.desc.zero ==> w.curr <= w.desc.zeroStart) && !w.numIn
  }

  predicate EndsInStop(nodes: seq<Node>) {
    nodes == [] || Stop(nodes[|nodes| - 1])
  }

  predicate Through(w: Writer, nodes: seq<Node>)
    decreases |nodes|
  {
    nodes == [] || (Visit(w, nodes[0]).1 && Through(Visit(w, nodes[0]).0, nodes[1..]))
  }

  predicate Blank(s: string) {
    forall i :: 0 <= i < |s| ==> s[i] == ' '
  }

  // ----- side by side -----

  lemma ShadowWrites(w: Writer, v: Writer)
    requires Shadows(w, v)
    ensures Writes(w) && Writes(v) && CloseMark(w) == ""
    ensures DueMark(v) == if SignDue(w) then Mark(v) else ""
    ensures DueMark(w) == if SignDue(w) then SignMark(w) else ""
    ensures Core(w.(numIn := false)) == Core(v.(numIn := false)) && w.curr == v.curr
  {
    hide SignDue, EitherMark, MinusMark, Core, WroteNext, End;
    DueCore(w);
    DueCore(v);
    CoreNumIn(w);
    CoreNumIn(v);
    CoreFields(w);
    CoreFields(v);
    CoreLast(w);
    CoreLast(v);
  }

  lemma CoreNumIn(w: Writer)
    ensures Core(w.(numIn := false)) == Core(w).(numIn := false)
  {
  }

  lemma CoreLast(w: Writer)
    ensures Core(w).last == w.last && Core(w).neg == w.neg && Core(w).desc.roman == w.desc.roman
    ensures Core(w).desc.fillmode == w.desc.fillmode && Core(w).desc.post == w.desc.post
  {
  }

  lemma ShadowsStep(w: Writer, v: Writer, n: Node)
    requires Shadows(w, v)
    ensures Shadows(Stepped(w, n), Stepped(v, n))
  {
    hide SignDue, WriteSlot, Core, DueMark, CloseMark;
    ShadowWrites(w, v);
    DueCore(w);
    DueCore(v);
    CoreStepped(w, n);
    CoreStepped(v, n);
  }

  lemma CoreStepped(w: Writer, n: Node)
    ensures var c := WriteSlot(Core(w.(numIn := false)), n).0;
      Core(Stepped(w, n)) == Core(w).(inputP := c.inputP, numIn := c.numIn, curr := w.curr + 1)
  {
    hide WriteSlot, DueMark, CloseMark, WroteNext;
  }

  /** A slot before the sign leaves a blank, or nothing. */
  lemma BlankSlot(w: Writer, n: Node)
    requires !w.signWrote && !SignDue(w) && (w.desc.zero ==> w.curr <= w.desc.zeroStart)
    ensures var c := WriteSlot(Core(w.(numIn := false)), n).0;
      Blank(c.out) && !c.numIn && (w.desc.zero ==> w.curr < w.desc.zeroStart)
    ensures w.curr < w.blanks || (PredecSpace(w) && !LastIsDot(w))
  {
    hide LastIsDot, Core;
    var c := Core(w.(numIn := false));
    CoreFields(w.(numIn := false));
    DotCore(w.(numIn := false));
    SameDot(w);
    if w.curr >= w.blanks {
      LeadBlank(c, n);
    } else {
      assert "" + [' '] == " ";
    }
  }

  lemma SameDot(w: Writer)
    ensures LastIsDot(w.(numIn := false)) == LastIsDot(w) && PredecSpace(w.(numIn := false)) == PredecSpace(w)
  {
  }

  lemma LeadBlank(c: Writer, n: Node)
    requires PredecSpace(c) && !LastIsDot(c) && c.curr >= c.blanks && c.out == "" && !c.numIn
    ensures Blank(WriteSlot(c, n).0.out) && !WriteSlot(c, n).0.numIn
  {
    hide LastIsDot;
    assert "" + [' '] == " ";
  }

  lemma {:induction false} LastStop(nodes: seq<Node>)
    requires nodes != [] && EndsInStop(nodes)
    ensures Stops(nodes) >= 1
  {
    if !Stop(nodes[0]) { LastStop(nodes[1..]); }
  }

  lemma AheadStep(w: Writer, nodes: seq<Node>)
    requires SignAhead(w, nodes) && nodes != [] && Stop(nodes[0]) && w.inputP <= |w.input| && Left(w) >= Stops(nodes)
    requires Unsigned(w.desc)
    ensures !w.signWrote && !SignDue(w) ==> Stops(nodes) > 1
    ensures SignAhead(Stepped(w, nodes[0]), nodes[1..])
  {
    hide WriteSlot, Core, SignDue, DueMark, CloseMark;
    SlotMoves(w, nodes[0]);
    if !w.signWrote && !SignDue(w) {
      BlankSlot(w, nodes[0]);
    } else {
      assert Stepped(w, nodes[0]).signWrote;
    }
  }

  /** Slots, points and commas, as far as a sign that is still due, and a closing mark, need them. */
  ghost predicate Side(w: Writer, v: Writer, nodes: seq<Node>) {
    && Shadows(w, v) && Simple(nodes) && EndsInStop(nodes) && SignAhead(w, nodes)
    && w.inputP <= |w.input| && Left(w) >= Stops(nodes)
    && (!Unsigned(v.desc) ==> v.curr + Stops(nodes) == End(v))
  }

  function Shown(out: string, a: string, mark: string, b: string, close: string): string {
    out + a + mark + b + close
  }

  /** What a slot, a point or a comma writes, apart from signs. */
  function NodeText(w: Writer, n: Node): string {
    if Stop(n) then WriteSlot(Core(w.(numIn := false)), n).0.out
    else if w.numIn then "," else if w.desc.fillmode then "" else " "
  }

  function Next(w: Writer, n: Node): Writer {
    if Stop(n) then Stepped(w, n) else WriteGroup(w)
  }

  predicate SignWaits(w: Writer, n: Node) {
    !w.signWrote && !(Stop(n) && SignDue(w))
  }

  /** The text in front of the sign's place. */
  function Before(w: Writer, nodes: seq<Node>): string
    decreases |nodes|
  {
    if nodes == [] || !SignWaits(w, nodes[0]) then "" else NodeText(w, nodes[0]) + Before(Next(w, nodes[0]), nodes[1..])
  }

  /** The text behind it. */
  function Behind(w: Writer, nodes: seq<Node>): string
    decreases |nodes|
  {
    if nodes == [] then ""
    else (if SignWaits(w, nodes[0]) then "" else NodeText(w, nodes[0])) + Behind(Next(w, nodes[0]), nodes[1..])
  }

  /** What the two writers print: blanks, the mark of each, the same digits, the closing mark. */
  predicate Printed(w: Writer, v: Writer, nodes: seq<Node>) {
    var a, b := Before(w, nodes), Behind(w, nodes);
    && Blank(a) && (w.signWrote ==> a == "")
    && VisitAll(w, nodes).out == Shown(w.out, a, if w.signWrote then "" else SignMark(w), b, "")
    && VisitAll(v, nodes).out ==
       Shown(v.out, a, if w.signWrote then "" else Mark(v), b, if Stops(nodes) > 0 then EndMark(v) else "")
    && Through(v, nodes) && VisitAll(v, nodes).desc == v.desc && VisitAll(v, nodes).neg == v.neg
  }

  lemma VisitPast(w: Writer, nodes: seq<Node>, w1: Writer)
    requires nodes != [] && Visit(w, nodes[0]) == (w1, true)
    ensures VisitAll(w, nodes) == VisitAll(w1, nodes[1..])
    ensures Through(w, nodes) == Through(w1, nodes[1..])
  {
    hide Visit;
  }

  /** One slot or point for both. */
  lemma SideStop(w: Writer, v: Writer, nodes: seq<Node>)
    requires Side(w, v, nodes) && nodes != [] && Stop(nodes[0])
    ensures var n := nodes[0];
      && Visit(w, n) == (Stepped(w, n), true) && Visit(v, n) == (Stepped(v, n), true)
      && Side(Stepped(w, n), Stepped(v, n), nodes[1..])
  {
    hide WriteSlot, Core, SignDue, SignAhead, DueMark, CloseMark, Visit, Left, End, WroteNext;
    var n := nodes[0];
    ShadowWrites(w, v);
    SlotMoves(w, n);
    StopStep(w, n);
    StopStep(v, n);
    ShadowsStep(w, v, n);
    AheadStep(w, nodes);
    EndSame(v, Stepped(v, n));
  }

  lemma StopTexts(w: Writer, v: Writer, nodes: seq<Node>)
    requires Side(w, v, nodes) && nodes != [] && Stop(nodes[0])
    ensures var n := nodes[0];
      var w1, v1, c := Stepped(w, n), Stepped(v, n), WriteSlot(Core(w.(numIn := false)), n).0.out;
      && w1.out == Shown(w.out, "", if SignDue(w) then SignMark(w) else "", c, "")
      && v1.out == Shown(v.out, "", if SignDue(w) then Mark(v) else "", c, if Stops(nodes) == 1 then EndMark(v) else "")
      && w1.signWrote == (w.signWrote || SignDue(w)) && EndMark(v1) == EndMark(v) && v1.desc == v.desc && v1.neg == v.neg
  {
    hide WriteSlot, Core, SignDue, Visit, Left, SignMark, EndMark, Mark, Side, Stops, DueMark, CloseMark;
    var n := nodes[0];
    assert Shadows(w, v) by { SideShadows(w, v, nodes); }
    ShadowWrites(w, v);
    MarksSame(v, Stepped(v, n));
    CloseIs(w, v, nodes);
    assert v.out + "" == v.out && w.out + "" == w.out;
  }

  lemma SideShadows(w: Writer, v: Writer, nodes: seq<Node>)
    requires Side(w, v, nodes)
    ensures Shadows(w, v)
  {
  }

  lemma StopMarks(w: Writer, v: Writer, nodes: seq<Node>)
    requires Side(w, v, nodes) && nodes != [] && Stop(nodes[0])
    ensures var n := nodes[0];
      var w1, v1, c := Stepped(w, n), Stepped(v, n), WriteSlot(Core(w.(numIn := false)), n).0.out;
      && (!w1.signWrote ==> Blank(c) && SignMark(w1) == SignMark(w) && Mark(v1) == Mark(v) && Stops(nodes) > 1)
      && (Stops(nodes) == 1 <==> nodes[1..] == [])
  {
    hide WriteSlot, Core, SignDue, Visit, Left, End, SignMark, EndMark;
    var n := nodes[0];
    ShadowWrites(w, v);
    AheadStep(w, nodes);
    MarksSame(w, Stepped(w, n));
    MarksSame(v, Stepped(v, n));
    if !w.signWrote && !SignDue(w) { BlankSlot(w, n); }
    if nodes[1..] != [] { LastStop(nodes[1..]); }
  }

  lemma MarksSame(v: Writer, u: Writer)
    requires u.desc == v.desc && u.neg == v.neg
    ensures SignMark(u) == SignMark(v) && EndMark(u) == EndMark(v)
  {
  }

  lemma CloseIs(w: Writer, v: Writer, nodes: seq<Node>)
    requires Side(w, v, nodes) && nodes != [] && Stop(nodes[0])
    ensures CloseMark(v) == if Stops(nodes) == 1 then EndMark(v) else ""
  {
    hide SignDue, Core, Left, End;
    AheadStep(w, nodes);
    DueCore(w);
    DueCore(v);
  }

  lemma ShownAfter(out: string, m: string, c: string, b: string, e: string)
    ensures Shown(Shown(out, "", m, c, ""), "", "", b, e) == Shown(out, "", m, c + b, e)
  {
    assert out + "" == out;
    assert (out + m + c + "") + "" + "" + b + e == out + m + (c + b) + e;
  }

  lemma ShownBefore(out: string, c: string, a: string, m: string, b: string, e: string)
    ensures Shown(Shown(out, "", "", c, ""), a, m, b, e) == Shown(out, c + a, m, b, e)
  {
    assert (out + "" + "" + c + "") + a == out + (c + a);
  }

  lemma BeforeBehind(w: Writer, nodes: seq<Node>)
    requires nodes != []
    ensures var c, w1, rest := NodeText(w, nodes[0]), Next(w, nodes[0]), nodes[1..];
      if SignWaits(w, nodes[0]) then Before(w, nodes) == c + Before(w1, rest) && Behind(w, nodes) == Behind(w1, rest)
      else Before(w, nodes) == "" && Behind(w, nodes) == c + Behind(w1, rest)
  {
    hide NodeText, Next, SignWaits;
  }

  lemma {:induction false} Runs(w: Writer, v: Writer, nodes: seq<Node>)
    requires Side(w, v, nodes)
    ensures Printed(w, v, nodes)
    decreases |nodes|, 1
  {
    if nodes == [] {
      assert Shown(w.out, "", "", "", "") == w.out && Shown(v.out, "", "", "", "") == v.out;
    } else if Stop(nodes[0]) {
      RunsStop(w, v, nodes);
    } else {
      RunsComma(w, v, nodes);
    }
  }

  lemma {:induction false} RunsStop(w: Writer, v: Writer, nodes: seq<Node>)
    requires Side(w, v, nodes) && nodes != [] && Stop(nodes[0])
    ensures Printed(w, v, nodes)
    decreases |nodes|, 0
  {
    hide Side, VisitAll, Visit, WriteSlot, Core, SignDue, SignMark, EndMark, Mark, Stepped, Shown, Through, Stops,
         Before, Behind;
    var n, rest := nodes[0], nodes[1..];
    var w1, v1 := Stepped(w, n), Stepped(v, n);
    SideStop(w, v, nodes);
    StopTexts(w, v, nodes);
    StopMarks(w, v, nodes);
    var c := NodeText(w, n);
    VisitPast(w, nodes, w1);
    VisitPast(v, nodes, v1);
    DueNotWritten(w);
    StopsFirst(nodes);
    BeforeBehind(w, nodes);
    if rest == [] {
      VisitDone(w1);
      VisitDone(v1);
      NothingLeft(v1);
      NothingLeft(w1);
      assert c + "" == c;
      return;
    }
    Runs(w1, v1, rest);
    if w1.signWrote {
      ShownAfter(w.out, if SignDue(w) then SignMark(w) else "", c, Behind(w1, rest), "");
      ShownAfter(v.out, if SignDue(w) then Mark(v) else "", c, Behind(w1, rest), EndMark(v));
    } else {
      ShownBefore(w.out, c, Before(w1, rest), SignMark(w), Behind(w1, rest), "");
      ShownBefore(v.out, c, Before(w1, rest), Mark(v), Behind(w1, rest), EndMark(v));
    }
  }

  lemma NothingLeft(w: Writer)
    ensures Through(w, []) && Stops([]) == 0 && Behind(w, []) == ""
  {
  }

  lemma StopsFirst(nodes: seq<Node>)
    requires nodes != []
    ensures Stops(nodes) == (if Stop(nodes[0]) then 1 else 0) + Stops(nodes[1..])
  {
  }

  lemma {:induction false} RunsComma(w: Writer, v: Writer, nodes: seq<Node>)
    requires Side(w, v, nodes) && nodes != [] && !Stop(nodes[0])
    ensures Printed(w, v, nodes)
    decreases |nodes|, 0
  {
    hide Side, VisitAll, Visit, Core, SignMark, EndMark, Mark, Shown, Through, Stops, SignDue, Before, Behind;
    var w1, v1, rest := WriteGroup(w), WriteGroup(v), nodes[1..];
    CommaTexts(w, v, nodes);
    var c := NodeText(w, nodes[0]);
    VisitPast(w, nodes, w1);
    VisitPast(v, nodes, v1);
    Runs(w1, v1, rest);
    StopsFirst(nodes);
    BeforeBehind(w, nodes);
    var e := if Stops(rest) > 0 then EndMark(v) else "";
    if w1.signWrote {
      ShownAfter(w.out, "", c, Behind(w1, rest), "");
      ShownAfter(v.out, "", c, Behind(w1, rest), e);
    } else {
      ShownBefore(w.out, c, Before(w1, rest), SignMark(w), Behind(w1, rest), "");
      ShownBefore(v.out, c, Before(w1, rest), Mark(v), Behind(w1, rest), e);
    }
  }

  lemma CommaTexts(w: Writer, v: Writer, nodes: seq<Node>)
    requires Side(w, v, nodes) && nodes != [] && !Stop(nodes[0])
    ensures var c := if w.numIn then "," else if w.desc.fillmode then "" else " ";
      var w1, v1 := WriteGroup(w), WriteGroup(v);
      && Visit(w, nodes[0]) == (w1, true) && Visit(v, nodes[0]) == (v1, true) && Side(w1, v1, nodes[1..])
      && w1.out == Shown(w.out, "", "", c, "") && v1.out == Shown(v.out, "", "", c, "")
      && w1.signWrote == w.signWrote && (!w.signWrote ==> Blank(c))
      && SignMark(w1) == SignMark(w) && Mark(v1) == Mark(v) && EndMark(v1) == EndMark(v) && v1.desc == v.desc && v1.neg == v.neg
  {
    assert nodes[0] == Comma;
  }

  // ----- the first character behind the sign -----

  lemma DueSlot(w: Writer, n: Node)
    requires !w.signWrote && SignDue(w) && w.last.None? && w.inputP <= |w.input| && Left(w) > 0 && ' ' !in w.input
    ensures var c := WriteSlot(Core(w.(numIn := false)), n).0.out; c != "" && c[0] != ' '
  {
    hide Core, WriteDigit;
    var c := Core(w.(numIn := false));
    CoreFields(w.(numIn := false));
    DotCore(w.(numIn := false));
    SameDot(w);
    if c.curr >= c.blanks && c.input[c.inputP] != '.' { Taken(c, n); }
  }

  lemma {:induction false} NotBlank(w: Writer, nodes: seq<Node>)
    requires !w.signWrote && w.last.None? && Unsigned(w.desc) && ' ' !in w.input
    requires Simple(nodes) && EndsInStop(nodes) && SignAhead(w, nodes) && w.inputP <= |w.input| && Left(w) >= Stops(nodes)
    ensures Behind(w, nodes) != "" && Behind(w, nodes)[0] != ' '
    decreases |nodes|
  {
    var n, rest := nodes[0], nodes[1..];
    BeforeBehind(w, nodes);
    if Stop(n) {
      hide SignDue, Core, WriteSlot, Behind, Before;
      if SignDue(w) {
        DueSlot(w, n);
      } else {
        SlotMoves(w, n);
        AheadStep(w, nodes);
        NotBlank(Stepped(w, n), rest);
      }
    } else {
      hide Behind, Before;
      NotBlank(WriteGroup(w), rest);
    }
  }

  // ----- whole texts -----

  /** The digits that `to_char` lays out. */
  function InputOf(n: Numeric, d: Picture): string {
    var r := Rounded(Magnitude(n), Places(n), 0, d.post);
    if |Digits(DividedBy(r, Pow10(d.post)))| > d.pre then OverflowFill(d.pre, d.post) else Numeral(r, d.post)
  }

  /** The slots kept blank before them. */
  function BlanksOf(n: Numeric, d: Picture): nat {
    var k := |Digits(DividedBy(Rounded(Magnitude(n), Places(n), 0, d.post), Pow10(d.post)))|;
    if k > d.pre then 0 else d.pre - k
  }

  lemma Laid(n: Numeric, d: Picture, u: Picture)
    requires u.pre == d.pre && u.post == d.post && u.multi == 0 && !u.roman && !u.eeee
    ensures ToCharText(n, u) == VisitAll(Prologue(u, InputOf(n, d), n.unscaled < 0, BlanksOf(n, d)), u.nodes).out
  {
    hide Rounded, Magnitude, Digits, DividedBy, Pow10, Numeral, OverflowFill, Prologue, VisitAll;
    assert u.(pre := u.pre + u.multi) == u;
  }

  lemma {:induction false} GroupStops(nodes: seq<Node>, afterSlot: bool)
    requires Groups(nodes, afterSlot)
    ensures Simple(nodes) && EndsInStop(nodes)
    ensures Stops(nodes) == IntSlots(nodes) + FracSlots(nodes) + (if Dec in nodes then 1 else 0)
    ensures Dec in nodes <==> FracSlots(nodes) > 0
  {
    if nodes != [] {
      assert nodes == [nodes[0]] + nodes[1..];
      if nodes[0] == Dec { SlotStops(nodes[1..]); } else { GroupStops(nodes[1..], IsSlot(nodes[0])); }
    }
  }

  lemma {:induction false} SlotStops(nodes: seq<Node>)
    requires AllSlots(nodes)
    ensures Stops(nodes) == |nodes| && Simple(nodes) && EndsInStop(nodes) && Dec !in nodes
  {
    if nodes != [] { SlotStops(nodes[1..]); }
  }

  /** The digits fill the slots behind the blanks. */
  lemma Fits(n: Numeric, d: Picture)
    requires PlainPicture(d)
    ensures Simple(d.nodes) && EndsInStop(d.nodes) && Stops(d.nodes) == d.pre + d.post + (if d.decimal then 1 else 0)
    ensures |InputOf(n, d)| + BlanksOf(n, d) >= Stops(d.nodes) > BlanksOf(n, d) && ' ' !in InputOf(n, d)
    ensures d.post != 0 ==> |InputOf(n, d)| + BlanksOf(n, d) == Stops(d.nodes) && |InputOf(n, d)| >= 2
  {
    hide Rounded, Magnitude, Digits, DividedBy, Remainder, Pow10, Groups, Padded;
    GroupStops(d.nodes, false);
    FirstIsSlot(d.nodes);
  }

  lemma FirstIsSlot(nodes: seq<Node>)
    requires Groups(nodes, false)
    ensures IntSlots(nodes) >= 1
  {
  }

  /** A sign style laid over d, one at a time, and without FM for S and PR. */
  predicate Restyled(u: Picture, d: Picture) {
    && u == d.(nodes := u.nodes, minus := u.minus, plus := u.plus, lsign := u.lsign, preLsign := u.preLsign, bracket := u.bracket)
    && (u.minus || u.plus ==> Unsigned(u)) && (u.bracket ==> u.lsign == 0) && (!Unsigned(u) ==> !d.fillmode)
  }

  lemma Begins(n: Numeric, d: Picture, fm: bool, u: Picture, o: string)
    requires PlainPicture(d) && Restyled(u, d.(fillmode := fm))
    ensures var neg, i, b := n.unscaled < 0, InputOf(n, d), BlanksOf(n, d);
      Side(Prologue(d.(fillmode := fm), i, neg, b), Prologue(u, i, neg, b).(out := o), d.nodes)
  {
    hide InputOf, BlanksOf, Groups, Stops, LastShown, Simple, EndsInStop;
    Fits(n, d);
    var neg, i, b := n.unscaled < 0, InputOf(n, d), BlanksOf(n, d);
    var w, v := Prologue(d.(fillmode := fm), i, neg, b), Prologue(u, i, neg, b).(out := o);
    ShownSame(Styled(u, neg), Styled(d.(fillmode := fm), neg), i, b);
  }

  lemma ShownSame(u: Picture, d: Picture, input: string, blanks: nat)
    requires u.fillmode == d.fillmode && u.decimal == d.decimal && u.zeroEnd == d.zeroEnd
    ensures LastShown(u, input, blanks) == LastShown(d, input, blanks)
    ensures !u.fillmode ==> LastShown(u, input, blanks).None?
  {
  }

  /** A node in front, or behind what was gone through. */
  lemma {:induction false} VisitBehind(w: Writer, nodes: seq<Node>, n: Node)
    requires Through(w, nodes)
    ensures VisitAll(w, nodes + [n]) == Visit(VisitAll(w, nodes), n).0
    decreases |nodes|
  {
    hide Visit;
    if nodes == [] {
      assert nodes + [n] == [n];
      VisitDone(Visit(w, n).0);
    } else {
      assert (nodes + [n])[1..] == nodes[1..] + [n];
      VisitBehind(Visit(w, nodes[0]).0, nodes[1..], n);
    }
  }

  // ----- the styles -----

  function Unstyled(n: Numeric, d: Picture, fm: bool): Writer {
    Prologue(d.(fillmode := fm), InputOf(n, d), n.unscaled < 0, BlanksOf(n, d))
  }

  function FrontOf(n: Numeric, d: Picture, fm: bool): string {
    Before(Unstyled(n, d, fm), d.nodes)
  }

  function BackOf(n: Numeric, d: Picture, fm: bool): string {
    Behind(Unstyled(n, d, fm), d.nodes)
  }

  /** The writer of a style prints the same front and back. */
  lemma StyleRuns(n: Numeric, d: Picture, fm: bool, u: Picture, o: string)
    requires PlainPicture(d) && Restyled(u, d.(fillmode := fm))
    ensures var w := Unstyled(n, d, fm);
      var v := Prologue(u, InputOf(n, d), n.unscaled < 0, BlanksOf(n, d)).(out := o);
      && Printed(w, v, d.nodes) && v.desc == Styled(u, n.unscaled < 0) && v.neg == (n.unscaled < 0) && Stops(d.nodes) > 0
      && v.signWrote == SignWritten(u, n.unscaled < 0)
  {
    hide InputOf, BlanksOf, Groups, Stops, Printed, Side, Restyled, Styled, SignWritten;
    Begins(n, d, fm, u, o);
    Fits(n, d);
    var w := Unstyled(n, d, fm);
    var v := Prologue(u, InputOf(n, d), n.unscaled < 0, BlanksOf(n, d)).(out := o);
    Runs(w, v, d.nodes);
  }

  lemma PlainShows(n: Numeric, d: Picture, fm: bool)
    requires PlainPicture(d)
    ensures var a, b := FrontOf(n, d, fm), BackOf(n, d, fm);
      && Blank(a) && (!fm ==> b != "" && b[0] != ' ')
      && ToCharText(n, d.(fillmode := fm)) == a + MinusMark(n.unscaled < 0, fm) + b
  {
    hide InputOf, BlanksOf, Groups, Stops, VisitAll, ToCharText, Before, Behind, Through, EndMark, Simple, EndsInStop;
    var u := d.(fillmode := fm);
    StyleRuns(n, d, fm, u, "");
    Laid(n, d, u);
    var w := Unstyled(n, d, fm);
    assert w.(out := "") == w;
    var a, b := FrontOf(n, d, fm), BackOf(n, d, fm);
    assert "" + a == a && a + MinusMark(n.unscaled < 0, fm) + b + "" == a + MinusMark(n.unscaled < 0, fm) + b;
    if !fm {
      Begins(n, d, fm, u, "");
      Fits(n, d);
      NotBlank(w, d.nodes);
    }
  }

  lemma NodeMarks(n: Numeric, d: Picture, fm: bool, u: Picture, o: string)
    requires PlainPicture(d) && Restyled(u, d.(fillmode := fm)) && (u.minus || u.plus) && Unsigned(u)
    ensures var neg := n.unscaled < 0;
      var w, v := Unstyled(n, d, fm), Prologue(u, InputOf(n, d), neg, BlanksOf(n, d)).(out := o);
      && (if w.signWrote then "" else Mark(v)) == (if !u.minus && neg then "-" else "")
      && EndMark(v) == "" && v.desc.fillmode == fm && v.out == o
  {
    hide InputOf, BlanksOf, Groups, LastShown;
  }

  /** With MI, PL or SG the slots print no sign, but for PL the minus. */
  lemma NodeRuns(n: Numeric, d: Picture, fm: bool, u: Picture, o: string)
    requires PlainPicture(d) && Restyled(u, d.(fillmode := fm)) && (u.minus || u.plus) && Unsigned(u)
    ensures var a, b, neg := FrontOf(n, d, fm), BackOf(n, d, fm), n.unscaled < 0;
      var v := Prologue(u, InputOf(n, d), neg, BlanksOf(n, d)).(out := o);
      var v1 := VisitAll(v, d.nodes);
      && Through(v, d.nodes) && v1.out == o + a + (if !u.minus && neg then "-" else "") + b
      && v1.neg == neg && v1.desc.fillmode == fm
  {
    hide InputOf, BlanksOf, PlainPicture, Stops, VisitAll, Before, Behind, Through, Prologue, Mark, Blank;
    var neg := n.unscaled < 0;
    var w, v := Unstyled(n, d, fm), Prologue(u, InputOf(n, d), neg, BlanksOf(n, d)).(out := o);
    StyleRuns(n, d, fm, u, o);
    NodeMarks(n, d, fm, u, o);
    assert forall t: string :: t + "" == t;
  }

  lemma LeadingShows(n: Numeric, d: Picture, fm: bool, s: Node)
    requires PlainPicture(d) && IsSign(s)
    ensures var a, b, neg := FrontOf(n, d, fm), BackOf(n, d, fm), n.unscaled < 0;
      ToCharText(n, Leading(d.(fillmode := fm), s)) ==
        NodeMark(s, neg, fm) + a + (if s == PL && neg then "-" else "") + b
  {
    hide InputOf, BlanksOf, VisitAll, ToCharText, Groups, FrontOf, BackOf;
    var u, neg := Leading(d.(fillmode := fm), s), n.unscaled < 0;
    var v := Prologue(u, InputOf(n, d), neg, BlanksOf(n, d));
    NodeRuns(n, d, fm, u, NodeMark(s, neg, fm));
    Laid(n, d, u);
    FirstSign(v, s);
    VisitPast(v, u.nodes, v.(out := NodeMark(s, neg, fm)));
    assert u.nodes[1..] == d.nodes;
  }

  lemma FirstSign(v: Writer, s: Node)
    requires IsSign(s) && v.out == ""
    ensures Visit(v, s) == (v.(out := NodeMark(s, v.neg, v.desc.fillmode)), true)
  {
    assert "" + NodeMark(s, v.neg, v.desc.fillmode) == NodeMark(s, v.neg, v.desc.fillmode);
    assert v.(out := "") == v;
  }

  lemma TrailingShows(n: Numeric, d: Picture, fm: bool, s: Node)
    requires PlainPicture(d) && IsSign(s)
    ensures var a, b, neg := FrontOf(n, d, fm), BackOf(n, d, fm), n.unscaled < 0;
      ToCharText(n, Trailing(d.(fillmode := fm), s)) ==
        a + (if s == PL && neg then "-" else "") + b + NodeMark(s, neg, fm)
  {
    hide InputOf, BlanksOf, Groups, VisitAll, ToCharText, FrontOf, BackOf, Through;
    var u, neg := Trailing(d.(fillmode := fm), s), n.unscaled < 0;
    var v := Prologue(u, InputOf(n, d), neg, BlanksOf(n, d));
    NodeRuns(n, d, fm, u, "");
    assert v.(out := "") == v && "" + FrontOf(n, d, fm) == FrontOf(n, d, fm);
    Laid(n, d, u);
    VisitBehind(v, d.nodes, s);
    SignNode(VisitAll(v, d.nodes), s);
  }

  lemma SignNode(w: Writer, s: Node)
    requires IsSign(s)
    ensures Visit(w, s).0.out == w.out + NodeMark(s, w.neg, w.desc.fillmode)
  {
    assert w.out + "" == w.out;
  }

  lemma StylesShow(n: Numeric, d: Picture)
    requires PlainPicture(d)
    ensures var a, b, neg := FrontOf(n, d, false), BackOf(n, d, false), n.unscaled < 0;
      && ToCharText(n, Anchored(d)) == a + EitherMark(neg) + b
      && ToCharText(n, Closed(d)) == a + b + EitherMark(neg)
      && ToCharText(n, Bracketed(d)) == a + (if neg then "<" else " ") + b + (if neg then ">" else " ")
  {
    hide InputOf, BlanksOf, Groups, ToCharText;
    assert d.(fillmode := false) == d;
    AnchoredShows(n, d);
    ClosedShows(n, d);
    BracketedShows(n, d);
  }

  lemma AnchoredShows(n: Numeric, d: Picture)
    requires PlainPicture(d)
    ensures var a, b, neg := FrontOf(n, d, false), BackOf(n, d, false), n.unscaled < 0;
      ToCharText(n, Anchored(d)) == a + EitherMark(neg) + b
  {
    hide InputOf, BlanksOf, Groups, Stops, VisitAll, ToCharText, Before, Behind, Through, Simple, EndsInStop;
    var u, neg := Anchored(d), n.unscaled < 0;
    assert d.(fillmode := false) == d;
    AnchoredStart(n, d);
    assert d.pre > 0 by { FirstIsSlot(d.nodes); }
    StyleRuns(n, d, false, u, "");
    var v := Prologue(u, InputOf(n, d), neg, BlanksOf(n, d));
    assert v.(out := "") == v;
  }

  lemma AnchoredStart(n: Numeric, d: Picture)
    requires PlainPicture(d)
    ensures ToCharText(n, Anchored(d)) ==
      VisitAll(Prologue(Anchored(d), InputOf(n, d), n.unscaled < 0, BlanksOf(n, d)), d.nodes).out
  {
    hide InputOf, BlanksOf, Groups, VisitAll, ToCharText, Prologue;
    var u := Anchored(d);
    Laid(n, d, u);
    var v := Prologue(u, InputOf(n, d), n.unscaled < 0, BlanksOf(n, d));
    VisitPast(v, u.nodes, v);
    assert u.nodes[1..] == d.nodes;
  }

  lemma ClosedShows(n: Numeric, d: Picture)
    requires PlainPicture(d)
    ensures var a, b, neg := FrontOf(n, d, false), BackOf(n, d, false), n.unscaled < 0;
      ToCharText(n, Closed(d)) == a + b + EitherMark(neg)
  {
    hide InputOf, BlanksOf, Groups, Stops, VisitAll, ToCharText, Before, Behind, Through, Simple, EndsInStop;
    var u, neg := Closed(d), n.unscaled < 0;
    assert d.(fillmode := false) == d;
    StyleRuns(n, d, false, u, "");
    Laid(n, d, u);
    var v := Prologue(u, InputOf(n, d), neg, BlanksOf(n, d));
    assert v.(out := "") == v;
    VisitBehind(v, d.nodes, S);
  }

  lemma BracketedShows(n: Numeric, d: Picture)
    requires PlainPicture(d)
    ensures var a, b, neg := FrontOf(n, d, false), BackOf(n, d, false), n.unscaled < 0;
      ToCharText(n, Bracketed(d)) == a + (if neg then "<" else " ") + b + (if neg then ">" else " ")
  {
    hide InputOf, BlanksOf, Groups, Stops, VisitAll, ToCharText, Before, Behind, Through, Simple, EndsInStop;
    var u, neg := Bracketed(d), n.unscaled < 0;
    assert d.(fillmode := false) == d;
    StyleRuns(n, d, false, u, "");
    Laid(n, d, u);
    var v := Prologue(u, InputOf(n, d), neg, BlanksOf(n, d));
    assert v.(out := "") == v;
  }

  /** What every sign style prints: the same front and back around or between the marks. */
  ghost predicate MarksShow(n: Numeric, d: Picture, fm: bool, a: string, b: string) {
    var neg, f := n.unscaled < 0, d.(fillmode := fm);
    && ToCharText(n, f) == a + MinusMark(neg, fm) + b
    && ToCharText(n, Leading(f, MI)) == MinusMark(neg, fm) + a + b
    && ToCharText(n, Trailing(f, MI)) == a + b + MinusMark(neg, fm)
    && ToCharText(n, Leading(f, SG)) == EitherMark(neg) + a + b
    && ToCharText(n, Trailing(f, SG)) == a + b + EitherMark(neg)
    && ToCharText(n, Leading(f, PL)) == PlusMark(neg, fm) + a + (if neg then "-" else "") + b
    && ToCharText(n, Trailing(f, PL)) == a + (if neg then "-" else "") + b + PlusMark(neg, fm)
    && (!fm ==>
          && ToCharText(n, Anchored(d)) == a + EitherMark(neg) + b
          && ToCharText(n, Closed(d)) == a + b + EitherMark(neg)
          && ToCharText(n, Bracketed(d)) == a + (if neg then "<" else " ") + b + (if neg then ">" else " "))
  }

  /** MI, PL, SG, S and PR show the sign of the number and change nothing else: the sign moves from
      its place behind the leading blanks, in front of the first character shown. */
  lemma SignsShown(n: Numeric, d: Picture, fm: bool)
    requires PlainPicture(d)
    ensures exists a, b :: Blank(a) && (!fm ==> b != "" && b[0] != ' ') && MarksShow(n, d, fm, a, b)
  {
    hide ToCharText, FrontOf, BackOf, PlainPicture, Leading, Trailing, Anchored, Closed, Bracketed;
    var a, b := FrontOf(n, d, fm), BackOf(n, d, fm);
    PlainShows(n, d, fm);
    LeadingShows(n, d, fm, MI);
    LeadingShows(n, d, fm, PL);
    LeadingShows(n, d, fm, SG);
    TrailingShows(n, d, fm, MI);
    TrailingShows(n, d, fm, PL);
    TrailingShows(n, d, fm, SG);
    if !fm { StylesShow(n, d); }
    assert a + "" == a;
    assert MarksShow(n, d, fm, a, b);
  }

  // ----- from the picture text -----

  function Parsed(fmt: string): Result<Picture, Problem> {
    Checked(Outside(Scan(EMPTY, false, false), fmt))
  }

  /** s behind the nodes `pre`, with the sign style and fill mode of f. */
  function Dress(f: Picture, s: Scan, pre: seq<Node>): Scan {
    s.(d := s.d.(nodes := pre + s.d.nodes, fillmode := f.fillmode, minus := f.minus, plus := f.plus,
                 lsign := f.lsign, preLsign := f.preLsign))
  }

  lemma DressedNine(f: Picture, s: Scan, pre: seq<Node>)
    requires AddNine(s).Ok?
    ensures AddNine(Dress(f, s, pre)) == Ok(Dress(f, AddNine(s).value, pre))
  {
    assert pre + s.d.nodes + [N9] == pre + (s.d.nodes + [N9]);
  }

  lemma DressedZero(f: Picture, s: Scan, pre: seq<Node>)
    requires AddZero(s).Ok?
    ensures AddZero(Dress(f, s, pre)) == Ok(Dress(f, AddZero(s).value, pre))
  {
    assert pre + s.d.nodes + [N0] == pre + (s.d.nodes + [N0]);
  }

  lemma DressedNode(f: Picture, s: Scan, pre: seq<Node>, n: Node)
    requires (IsSlot(n) || n == Comma || n == Dec) && AddNode(s, n).Ok?
    ensures AddNode(Dress(f, s, pre), n) == Ok(Dress(f, AddNode(s, n).value, pre))
  {
    hide AddNine, AddZero;
    if n == N9 {
      hide Dress;
      DressedNine(f, s, pre);
    } else if n == N0 {
      hide Dress;
      DressedZero(f, s, pre);
    } else {
      assert pre + s.d.nodes + [n] == pre + (s.d.nodes + [n]);
    }
  }

  lemma {:induction false} DressedText(f: Picture, s: Scan, pre: seq<Node>, t: string, tail: string)
    requires PlainText(t) && Outside(s, t).Ok?
    ensures Outside(Dress(f, s, pre), t + tail) == Outside(Dress(f, Outside(s, t).value, pre), tail)
    decreases |t|
  {
    if t == "" {
      assert "" + tail == tail;
    } else {
      DressedMore(f, s, pre, t, tail);
      DressedText(f, AddNode(s, NodeOf(t[0])).value, pre, t[1..], tail);
    }
  }

  lemma DressedMore(f: Picture, s: Scan, pre: seq<Node>, t: string, tail: string)
    requires t != "" && PlainText(t) && Outside(s, t).Ok?
    ensures var s1 := AddNode(s, NodeOf(t[0]));
      && s1.Ok? && Outside(s, t) == Outside(s1.value, t[1..])
      && Outside(Dress(f, s, pre), t + tail) == Outside(Dress(f, s1.value, pre), t[1..] + tail)
  {
    hide AddNode, Outside, Dress, NodeOf;
    var n := NodeOf(t[0]);
    PlainStep(s, t);
    PlainStep(Dress(f, s, pre), t + tail);
    assert IsSlot(n) || n == Comma || n == Dec by { PlainNode(t[0]); }
    DressedNode(f, s, pre, n);
    assert (t + tail)[1..] == t[1..] + tail;
  }

  lemma PlainNode(c: char)
    ensures IsSlot(NodeOf(c)) || NodeOf(c) == Comma || NodeOf(c) == Dec
  {
  }

  lemma TwoLetters(kw: string, t: string)
    requires kw in ["MI", "PL", "SG", "PR", "FM"]
    ensures (kw + t)[2..] == t
    ensures kw == "MI" ==> MatchKeyword(kw + t) == Some((Keyword.Node(MI), 2))
    ensures kw == "PL" ==> MatchKeyword(kw + t) == Some((Keyword.Node(PL), 2))
    ensures kw == "SG" ==> MatchKeyword(kw + t) == Some((Keyword.Node(SG), 2))
    ensures kw == "PR" ==> MatchKeyword(kw + t) == Some((Keyword.PR, 2))
    ensures kw == "FM" ==> MatchKeyword(kw + t) == Some((Keyword.FM, 2))
  {
    var u := kw + t;
    assert u[0] == kw[0] && u[1] == kw[1] && u[..2] == kw;
  }

  function SignText(n: Node): string {
    if n == MI then "MI" else if n == PL then "PL" else "SG"
  }

  lemma KeywordStep(s: Scan, kw: string, k: Keyword, t: string)
    requires kw != "" && kw[0] != '"' && MatchKeyword(kw + t) == Some((k, |kw|)) && AddKeyword(s, k).Ok?
    ensures Outside(s, kw + t) == Outside(AddKeyword(s, k).value, t)
  {
    hide MatchKeyword, AddKeyword;
    assert (kw + t)[|kw|..] == t && (kw + t)[0] == kw[0];
  }

  const START := Scan(EMPTY, false, false)

  lemma StartDress(pre: seq<Node>)
    ensures Dress(START.d, START, []) == START
    ensures Dress(START.d.(fillmode := true), START, []) == START.(d := START.d.(fillmode := true))
  {
  }

  function FillText(fm: bool): string {
    if fm then "FM" else ""
  }

  /** The scan behind FM. */
  function Fill(fm: bool): Scan {
    Dress(EMPTY.(fillmode := fm), START, [])
  }

  lemma FillStep(fm: bool, t: string)
    ensures Outside(START, FillText(fm) + t) == Outside(Fill(fm), t)
  {
    hide Outside, MatchKeyword;
    if fm {
      TwoLetters("FM", t);
      KeywordStep(START, "FM", Keyword.FM, t);
    } else {
      assert "" + t == t;
    }
    assert [] + START.d.nodes == START.d.nodes;
  }

  /** The picture of a plain text, with a front and a back. */
  lemma TextParses(fmt: string, f: Picture, pre: seq<Node>, tail: string)
    requires PlainText(fmt) && Groups(NodesOf(fmt), false)
    ensures Outside(START, fmt).Ok?
    ensures Outside(Dress(f, START, pre), fmt + tail) == Outside(Dress(f, Outside(START, fmt).value, pre), tail)
    ensures var s1 := Outside(START, fmt).value;
      Parsed(fmt) == Ok(s1.d) && PlainPicture(s1.d) && s1.d.preLsign == 0 && s1.decimalSeen == s1.d.decimal && !s1.multiSeen
  {
    hide Groups, Outside, Dress;
    PlainParses(fmt);
    DressedText(f, START, pre, fmt, tail);
    DressedText(EMPTY, START, [], fmt, "");
    assert Dress(EMPTY, START, []) == START by { StartDress([]); }
    assert fmt + "" == fmt;
    var s1 := Outside(START, fmt).value;
    OutsideEnd(Dress(EMPTY, s1, []));
    SeenKept(fmt, s1);
    DressFields(EMPTY, s1, []);
  }

  lemma OutsideEnd(s: Scan)
    ensures Outside(s, "") == Ok(s)
  {
  }

  lemma DressFields(f: Picture, s: Scan, pre: seq<Node>)
    ensures Dress(f, s, pre).d.preLsign == f.preLsign
  {
  }

  lemma SeenKept(fmt: string, s1: Scan)
    requires Outside(START, fmt) == Ok(s1)
    ensures s1.decimalSeen == s1.d.decimal
    ensures PlainText(fmt) && Groups(NodesOf(fmt), false) ==> !s1.multiSeen
  {
    hide Outside, Count, Groups, Marked;
    assert Coherent(START) by { StartCoherent(); }
    OutsideKeepsCoherent(START, fmt);
    if PlainText(fmt) && Groups(NodesOf(fmt), false) { PlainOutside(START, fmt, false); }
  }

  lemma StartCoherent()
    ensures Coherent(START)
  {
  }

  lemma LeadingParses(fmt: string, fm: bool, s: Node)
    requires PlainText(fmt) && Groups(NodesOf(fmt), false) && IsSign(s)
    ensures Parsed(fmt).Ok? && Parsed(FillText(fm) + (SignText(s) + fmt)) == Ok(Leading(Parsed(fmt).value.(fillmode := fm), s))
  {
    hide Outside, MatchKeyword, Groups;
    var f := EMPTY.(fillmode := fm, minus := s != PL, plus := s != MI);
    FillStep(fm, SignText(s) + fmt);
    TwoLetters(SignText(s), fmt);
    KeywordStep(Fill(fm), SignText(s), Keyword.Node(s), fmt);
    assert Fill(fm).d.nodes + [s] == [s] + START.d.nodes;
    TextParses(fmt, f, [s], "");
    assert fmt + "" == fmt;
    OutsideEnd(Dress(f, Outside(START, fmt).value, [s]));
  }

  lemma TrailingParses(fmt: string, fm: bool, s: Node)
    requires PlainText(fmt) && Groups(NodesOf(fmt), false) && IsSign(s)
    ensures Parsed(fmt).Ok? && Parsed(FillText(fm) + (fmt + SignText(s))) == Ok(Trailing(Parsed(fmt).value.(fillmode := fm), s))
  {
    hide Outside, MatchKeyword, Groups;
    var f := EMPTY.(fillmode := fm);
    FillStep(fm, fmt + SignText(s));
    TextParses(fmt, f, [], SignText(s));
    var s1 := Dress(f, Outside(START, fmt).value, []);
    TwoLetters(SignText(s), "");
    assert SignText(s) + "" == SignText(s);
    KeywordStep(s1, SignText(s), Keyword.Node(s), "");
    OutsideEnd(AddKeyword(s1, Keyword.Node(s)).value);
    assert [] + Outside(START, fmt).value.d.nodes == Outside(START, fmt).value.d.nodes;
  }

  lemma OtherStylesParse(fmt: string)
    requires PlainText(fmt) && Groups(NodesOf(fmt), false)
    ensures Parsed(fmt).Ok?
    ensures var d := Parsed(fmt).value;
      && Parsed("S" + fmt) == Ok(Anchored(d)) && Parsed(fmt + "S") == Ok(Closed(d))
      && Parsed(fmt + "PR") == Ok(Bracketed(d))
  {
    hide Outside, MatchKeyword, Groups;
    TextParses(fmt, EMPTY.(lsign := 1), [S], "");
    var s1 := Outside(START, fmt).value;
    TextParses(fmt, EMPTY, [], "S");
    TextParses(fmt, EMPTY, [], "PR");
    StartDress([]);
    SLetter(fmt);
    assert [] + s1.d.nodes == s1.d.nodes && fmt + "" == fmt && START.d.nodes + [S] == [S] + START.d.nodes;
    KeywordStep(START, "S", Keyword.Node(S), fmt);
    KeywordStep(s1, "S", Keyword.Node(S), "");
    TwoLetters("PR", "");
    KeywordStep(s1, "PR", Keyword.PR, "");
    assert "S" + "" == "S" && "PR" + "" == "PR";
    OutsideEnd(Dress(EMPTY.(lsign := 1), s1, [S]));
    OutsideEnd(AddKeyword(s1, Keyword.Node(S)).value);
    OutsideEnd(AddKeyword(s1, Keyword.PR).value);
  }

  lemma SLetter(fmt: string)
    requires PlainText(fmt)
    ensures MatchKeyword("S" + fmt) == Some((Keyword.Node(S), 1)) && MatchKeyword("S" + "") == Some((Keyword.Node(S), 1))
  {
    var u := "S" + fmt;
    if |u| > 1 { assert u[1] == fmt[0] && u[..2][1] == fmt[0]; }
  }
}

/** For plain pictures - digit slots, group commas, one point - to_char rounds to the places of
    the picture, prints a text of fixed width, and to_number reads back the rounded number. */
module NumRoundTrip {
  import opened Integers
  import opened Text
  import opened Wrappers
  import opened Decimal
  import opened NumPicture
  import opened NumToChar
  import opened NumFromChar

  // ----- picture shapes -----

  /** A part of a plain picture. */
  predicate Shape(nodes: seq<Node>) {
    if nodes == [] then true
    else if nodes[0] == Dec then AllSlots(nodes[1..])
    else (IsSlot(nodes[0]) || nodes[0] == Comma) && Shape(nodes[1..])
  }

  function Slots(nodes: seq<Node>): nat {
    if nodes == [] then 0 else (if IsSlot(nodes[0]) then 1 else 0) + Slots(nodes[1..])
  }

  /** The picture with its slots filled in. */
  function Weave(nodes: seq<Node>, digits: string): (t: string)
    requires |digits| == Slots(nodes)
    ensures |t| == |nodes|
  {
    if nodes == [] then ""
    else if IsSlot(nodes[0]) then [digits[0]] + Weave(nodes[1..], digits[1..])
    else [if nodes[0] == Dec then '.' else ','] + Weave(nodes[1..], digits)
  }

  /** The filled picture without its commas. */
  function Plain(nodes: seq<Node>, digits: string): string
    requires |digits| == Slots(nodes)
  {
    if nodes == [] then ""
    else if IsSlot(nodes[0]) then [digits[0]] + Plain(nodes[1..], digits[1..])
    else (if nodes[0] == Dec then "." else "") + Plain(nodes[1..], digits)
  }

  function Blanks(n: nat): (s: string)
    ensures |s| == n && forall i | 0 <= i < n :: s[i] == ' '
  {
    seq(n, _ => ' ')
  }

  /** Where the s-th slot stands, or the point when there is none. */
  function Cut(nodes: seq<Node>, s: nat): (k: nat)
    ensures k <= |nodes|
  {
    if nodes == [] || nodes[0] == Dec || (s == 0 && IsSlot(nodes[0])) then 0
    else 1 + Cut(nodes[1..], if IsSlot(nodes[0]) then s - 1 else s)
  }

  lemma {:induction false} GroupsShape(nodes: seq<Node>, afterSlot: bool)
    requires Groups(nodes, afterSlot)
    ensures Shape(nodes) && Slots(nodes) == IntSlots(nodes) + FracSlots(nodes)
    ensures Dec in nodes <==> FracSlots(nodes) > 0
  {
    if nodes != [] {
      assert nodes == [nodes[0]] + nodes[1..];
      if nodes[0] == Dec {
        SlotsAll(nodes[1..]);
      } else {
        GroupsShape(nodes[1..], IsSlot(nodes[0]));
      }
    }
  }

  lemma {:induction false} SlotsAll(nodes: seq<Node>)
    requires AllSlots(nodes)
    ensures Slots(nodes) == |nodes| && Shape(nodes) && Dec !in nodes
  {
    if nodes != [] { SlotsAll(nodes[1..]); }
  }

  // ----- to_char: the text -----

  predicate PlainFlags(d: Picture) {
    !d.fillmode && d.lsign == 0 && !d.minus && !d.plus && !d.bracket && !d.roman && !d.eeee && d.multi == 0
  }

  predicate PlainWriter(w: Writer) {
    PlainFlags(w.desc) && w.last == None
  }

  function SignChar(neg: bool): char {
    if neg then '-' else ' '
  }

  /** What a slot or a point does in a plain picture. */
  lemma PlainNumpart(w: Writer, id: Node)
    requires PlainWriter(w)
    ensures var w1 := if SignDue(w) then Emit(w, SignChar(w.neg)).(signWrote := true) else w;
      var (w2, more) := WriteSlot(w1.(numIn := false), id);
      NumpartOf(w, id) == (if more then w2.(curr := w2.curr + 1) else w2, more)
  {
    hide WriteSlot, SignDue;
    var w0 := w.(numIn := false);
    assert SignDue(w0) == SignDue(w) by { SignDueSame(w); }
    var (w2, more) := WriteSlot(WriteSign(w0), id);
    SlotKeeps(WriteSign(w0), id);
  }

  lemma SignDueSame(w: Writer)
    ensures SignDue(w.(numIn := false)) == SignDue(w)
  {
  }

  lemma SlotKeeps(w: Writer, id: Node)
    ensures WriteSlot(w, id).0.desc == w.desc && WriteSlot(w, id).0.neg == w.neg
  {
    hide WriteDigit, LastIsDot;
    DigitKeeps(w, id);
  }

  lemma DigitKeeps(w: Writer, id: Node)
    ensures WriteDigit(w, id).0.desc == w.desc && WriteDigit(w, id).0.neg == w.neg
  {
    hide LastIsDot, PredecSpace;
  }

  /** The sign does not change what the slot does. */
  lemma SignOnce(w: Writer, n: Node)
    requires PlainWriter(w) && SignDue(w) && (IsSlot(n) || n == Dec)
    ensures Visit(w, n) == Visit(Emit(w, SignChar(w.neg)).(signWrote := true), n)
  {
    hide NumpartOf, WriteSlot;
    PlainNumpart(w, n);
    PlainNumpart(Emit(w, SignChar(w.neg)).(signWrote := true), n);
  }

  /** After the point: the places, one to a slot. */
  lemma {:induction false} WriteFraction(w: Writer, nodes: seq<Node>)
    requires PlainWriter(w) && w.signWrote && w.curr >= w.blanks && 0 < w.inputP <= |w.input|
    requires AllSlots(nodes) && |nodes| == |w.input| - w.inputP && '.' !in w.input[w.inputP..]
    ensures Slots(nodes) == |nodes|
    ensures VisitAll(w, nodes).out == w.out + Weave(nodes, w.input[w.inputP..])
    decreases |nodes|
  {
    SlotsAll(nodes);
    if nodes == [] {
      assert w.out + "" == w.out;
    } else {
      hide NumpartOf, Shape;
      var c := w.input[w.inputP];
      assert c == w.input[w.inputP..][0];
      PlainNumpart(w, nodes[0]);
      var w1 := Visit(w, nodes[0]).0;
      assert w1.out == w.out + [c] && w1.inputP == w.inputP + 1 && w1.input == w.input;
      assert w.input[w.inputP..][1..] == w1.input[w1.inputP..];
      SlotsAll(nodes[1..]);
      WriteFraction(w1, nodes[1..]);
      Join(w.out, [c], Weave(nodes[1..], w1.input[w1.inputP..]));
    }
  }

  lemma Join(a: string, b: string, c: string)
    ensures a + b + c == a + (b + c)
  {
  }

  /** Before the point, after the sign: zero padding, then the integer digits. */
  ghost predicate AtInteger(w: Writer, nodes: seq<Node>, i: string, f: string) {
    && PlainWriter(w) && w.signWrote && w.inputP <= |w.input|
    && (w.curr < w.blanks ==> w.desc.zero && w.desc.zeroStart <= w.curr)
    && (w.desc.zero || w.input == "" || w.input[0] != '0' || w.desc.post == 0 || w.inputP > 0)
    && (nodes != [] && nodes[0] == Comma ==> w.numIn)
    && '.' !in i && '.' !in f && |f| == FracSlots(nodes)
    && IntSlots(nodes) == Padding(w) + |i|
    && i <= w.input[w.inputP..]
    && (Dec in nodes ==> w.input[w.inputP..] == i + ("." + f))
  }

  function Padding(w: Writer): nat {
    if w.curr < w.blanks then w.blanks - w.curr else 0
  }

  lemma PadStep(w: Writer, n: Node)
    requires PlainWriter(w) && w.signWrote && w.curr < w.blanks && w.desc.zero && w.desc.zeroStart <= w.curr && IsSlot(n)
    ensures Visit(w, n) == (Emit(w, '0').(numIn := true, curr := w.curr + 1), true)
  {
    hide NumpartOf, WriteDigit;
    PlainNumpart(w, n);
  }

  lemma DigitStep(w: Writer, n: Node)
    requires PlainWriter(w) && w.signWrote && w.curr >= w.blanks && IsSlot(n)
    requires w.inputP < |w.input| && w.input[w.inputP] != '.' && !PredecSpace(w)
    ensures Visit(w, n) == (Emit(w, w.input[w.inputP]).(numIn := true, inputP := w.inputP + 1, curr := w.curr + 1), true)
  {
    hide NumpartOf;
    PlainNumpart(w, n);
  }

  lemma PointStep(w: Writer)
    requires PlainWriter(w) && w.signWrote && w.curr >= w.blanks && w.inputP < |w.input| && w.input[w.inputP] == '.'
    ensures Visit(w, Dec) == (Emit(w, '.').(numIn := false, inputP := w.inputP + 1, curr := w.curr + 1), true)
  {
    hide NumpartOf, WriteDigit;
    PlainNumpart(w, Dec);
  }

  lemma {:induction false} WriteInteger(w: Writer, nodes: seq<Node>, afterSlot: bool, i: string, f: string)
    requires Groups(nodes, afterSlot) && AtInteger(w, nodes, i, f)
    ensures Slots(nodes) == Padding(w) + |i| + |f|
    ensures VisitAll(w, nodes).out == w.out + Weave(nodes, Zeros(Padding(w)) + i + f)
    decreases |nodes|
  {
    GroupsShape(nodes, afterSlot);
    if nodes == [] {
      assert w.out + "" == w.out;
    } else if nodes[0] == Dec {
      WriteFromPoint(w, nodes, i, f);
    } else if nodes[0] == Comma {
      WriteComma(w, nodes, i, f);
    } else if w.curr < w.blanks {
      WritePadding(w, nodes, i, f);
    } else {
      WriteDigits(w, nodes, i, f);
    }
  }

  lemma VisitMore(w: Writer, nodes: seq<Node>)
    requires nodes != []
    ensures var (w1, more) := Visit(w, nodes[0]);
      VisitAll(w, nodes) == if more then VisitAll(w1, nodes[1..]) else w1
  {
    hide Visit;
  }

  lemma WeaveSlot(nodes: seq<Node>, digits: string, rest: string)
    requires nodes != [] && IsSlot(nodes[0]) && |digits| == Slots(nodes) && |digits| > 0 && rest == digits[1..]
    ensures Slots(nodes[1..]) == |rest| && Weave(nodes, digits) == [digits[0]] + Weave(nodes[1..], rest)
    ensures Plain(nodes, digits) == [digits[0]] + Plain(nodes[1..], rest)
  {
  }

  lemma WeaveMark(nodes: seq<Node>, digits: string)
    requires nodes != [] && !IsSlot(nodes[0]) && |digits| == Slots(nodes)
    ensures Slots(nodes[1..]) == |digits|
    ensures Weave(nodes, digits) == [if nodes[0] == Dec then '.' else ','] + Weave(nodes[1..], digits)
    ensures Plain(nodes, digits) == (if nodes[0] == Dec then "." else "") + Plain(nodes[1..], digits)
  {
  }

  lemma WriteFromPoint(w: Writer, nodes: seq<Node>, i: string, f: string)
    requires nodes != [] && nodes[0] == Dec && AllSlots(nodes[1..]) && AtInteger(w, nodes, i, f)
    requires Slots(nodes) == Padding(w) + |i| + |f|
    ensures VisitAll(w, nodes).out == w.out + Weave(nodes, Zeros(Padding(w)) + i + f)
  {
    assert i == "" && Padding(w) == 0 && Zeros(0) + i + f == f;
    assert "" + ("." + f) == "." + f;
    assert w.input[w.inputP..] == "." + f;
    assert w.input[w.inputP] == '.' && w.input[w.inputP + 1..] == w.input[w.inputP..][1..] == f;
    var w1 := Emit(w, '.').(numIn := false, inputP := w.inputP + 1, curr := w.curr + 1);
    hide Weave, VisitAll, Visit;
    PointStep(w);
    VisitMore(w, nodes);
    WriteFraction(w1, nodes[1..]);
    WeaveMark(nodes, f);
    Join(w.out, ".", Weave(nodes[1..], f));
  }

  lemma {:induction false} WriteComma(w: Writer, nodes: seq<Node>, i: string, f: string)
    requires nodes != [] && nodes[0] == Comma && Groups(nodes[1..], false) && AtInteger(w, nodes, i, f)
    requires |nodes| > 1 && IsSlot(nodes[1]) && Slots(nodes) == Padding(w) + |i| + |f|
    ensures VisitAll(w, nodes).out == w.out + Weave(nodes, Zeros(Padding(w)) + i + f)
    decreases |nodes|, 0
  {
    assert nodes == [Comma] + nodes[1..];
    var w1 := Emit(w, ',');
    hide Weave, VisitAll, Groups;
    VisitMore(w, nodes);
    WriteInteger(w1, nodes[1..], false, i, f);
    WeaveMark(nodes, Zeros(Padding(w)) + i + f);
    Join(w.out, ",", Weave(nodes[1..], Zeros(Padding(w)) + i + f));
  }

  lemma {:induction false} WritePadding(w: Writer, nodes: seq<Node>, i: string, f: string)
    requires nodes != [] && IsSlot(nodes[0]) && Groups(nodes[1..], true) && AtInteger(w, nodes, i, f)
    requires w.curr < w.blanks && Slots(nodes) == Padding(w) + |i| + |f|
    ensures VisitAll(w, nodes).out == w.out + Weave(nodes, Zeros(Padding(w)) + i + f)
    decreases |nodes|, 0
  {
    assert nodes == [nodes[0]] + nodes[1..];
    var w1 := Emit(w, '0').(numIn := true, curr := w.curr + 1);
    hide Weave, VisitAll, Groups, Visit;
    PadStep(w, nodes[0]);
    VisitMore(w, nodes);
    WriteInteger(w1, nodes[1..], true, i, f);
    ZerosFirst(Padding(w), i, f);
    WeaveSlot(nodes, Zeros(Padding(w)) + i + f, Zeros(Padding(w1)) + i + f);
    Join(w.out, "0", Weave(nodes[1..], Zeros(Padding(w1)) + i + f));
  }

  lemma ZerosFirst(n: nat, i: string, f: string)
    requires n > 0
    ensures (Zeros(n) + i + f)[0] == '0' && (Zeros(n) + i + f)[1..] == Zeros(n - 1) + i + f
  {
    assert Zeros(n)[1..] == Zeros(n - 1);
  }

  lemma {:induction false} WriteDigits(w: Writer, nodes: seq<Node>, i: string, f: string)
    requires nodes != [] && IsSlot(nodes[0]) && Groups(nodes[1..], true) && AtInteger(w, nodes, i, f)
    requires w.curr >= w.blanks && Slots(nodes) == Padding(w) + |i| + |f|
    ensures VisitAll(w, nodes).out == w.out + Weave(nodes, Zeros(Padding(w)) + i + f)
    decreases |nodes|, 0
  {
    hide Weave, VisitAll, Groups, Visit, AtInteger, PredecSpace, PlainWriter, Slots;
    DigitReady(w, nodes, i, f);
    var c, i1 := w.input[w.inputP], i[1..];
    var w1 := Emit(w, c).(numIn := true, inputP := w.inputP + 1, curr := w.curr + 1);
    AfterDigit(w, nodes, i, f);
    DigitStep(w, nodes[0]);
    VisitMore(w, nodes);
    WriteInteger(w1, nodes[1..], true, i1, f);
    assert Zeros(0) + i + f == i + f && (i + f)[1..] == i1 + f && Zeros(0) + i1 + f == i1 + f;
    WeaveSlot(nodes, i + f, i1 + f);
    Join(w.out, [c], Weave(nodes[1..], i1 + f));
  }

  lemma DigitReady(w: Writer, nodes: seq<Node>, i: string, f: string)
    requires nodes != [] && IsSlot(nodes[0]) && AtInteger(w, nodes, i, f) && w.curr >= w.blanks
    ensures PlainWriter(w) && w.signWrote && Padding(w) == 0 && i != "" && w.inputP < |w.input|
    ensures w.input[w.inputP] == i[0] && i[0] != '.' && !PredecSpace(w)
  {
    assert i[0] == w.input[w.inputP..][0] && i[0] in i;
  }

  lemma AfterDigit(w: Writer, nodes: seq<Node>, i: string, f: string)
    requires nodes != [] && IsSlot(nodes[0]) && Groups(nodes[1..], true) && AtInteger(w, nodes, i, f)
    requires w.curr >= w.blanks && i != "" && w.inputP < |w.input|
    ensures var w1 := Emit(w, w.input[w.inputP]).(numIn := true, inputP := w.inputP + 1, curr := w.curr + 1);
      AtInteger(w1, nodes[1..], i[1..], f)
  {
    assert nodes == [nodes[0]] + nodes[1..];
    assert w.input[w.inputP + 1..] == w.input[w.inputP..][1..];
    if Dec in nodes {
      assert (i + ("." + f))[1..] == i[1..] + ("." + f);
    }
  }

  /** Before the sign: blanks for slots and commas. `first` is the slot of the first digit. */
  ghost predicate AtBlanks(w: Writer, nodes: seq<Node>, first: nat, i: string, f: string) {
    && PlainWriter(w) && !w.signWrote && !w.numIn && w.inputP == 0
    && first == (if w.desc.zero && w.desc.zeroStart < w.blanks then w.desc.zeroStart else w.blanks)
    && w.curr <= first
    && (w.desc.zero || w.input == "" || w.input[0] != '0' || w.desc.post == 0)
    && '.' !in i && '.' !in f && |f| == FracSlots(nodes)
    && i != "" && IntSlots(nodes) == w.blanks - w.curr + |i|
    && i <= w.input && (Dec in nodes ==> w.input == i + ("." + f))
  }

  /** The layout of a printed number: blanks, the sign, the filled part of the picture. */
  function Layout(nodes: seq<Node>, k: nat, neg: bool, digits: string): (t: string)
    requires k <= |nodes| && |digits| == Slots(nodes[k..])
    ensures |t| == |nodes| + 1
  {
    Blanks(k) + ([SignChar(neg)] + Weave(nodes[k..], digits))
  }

  lemma LayoutStep(out: string, nodes: seq<Node>, k: nat, neg: bool, digits: string)
    requires nodes != [] && k < |nodes| && |digits| == Slots(nodes[1..][k..])
    ensures nodes[1..][k..] == nodes[k + 1..]
    ensures out + [' '] + Layout(nodes[1..], k, neg, digits) == out + Layout(nodes, k + 1, neg, digits)
  {
    hide Slots, Weave;
    assert nodes[1..][k..] == nodes[k + 1..];
    assert [' '] + Blanks(k) == Blanks(k + 1);
    var rest := [SignChar(neg)] + Weave(nodes[k + 1..], digits);
    Join(out, [' '], Blanks(k) + rest);
    Join([' '], Blanks(k), rest);
  }

  lemma BlankStep(w: Writer, n: Node)
    requires PlainWriter(w) && !w.numIn && (n == Comma || (IsSlot(n) && w.curr < w.blanks))
    requires IsSlot(n) ==> (w.desc.zero ==> w.desc.zeroStart > w.curr)
    ensures Visit(w, n) == (Emit(w, ' ').(curr := if IsSlot(n) then w.curr + 1 else w.curr), true)
  {
    if IsSlot(n) {
      hide NumpartOf, WriteDigit;
      PlainNumpart(w, n);
    }
  }

  lemma {:induction false} WriteBlanks(w: Writer, nodes: seq<Node>, afterSlot: bool, first: nat, i: string, f: string)
    requires Groups(nodes, afterSlot) && AtBlanks(w, nodes, first, i, f)
    ensures var k := Cut(nodes, first - w.curr);
      && |i| + |f| + (w.blanks - first) == Slots(nodes[k..])
      && VisitAll(w, nodes).out == w.out + Layout(nodes, k, w.neg, Zeros(w.blanks - first) + i + f)
    decreases |nodes|
  {
    hide VisitAll, Visit, Layout, Slots, AtBlanks, Groups, PlainWriter, Cut;
    BlanksFacts(w, nodes, afterSlot, first, i, f);
    CutStep(nodes, first - w.curr);
    if IsSlot(nodes[0]) && w.curr == first {
      WriteSignHere(w, nodes, afterSlot, first, i, f);
    } else {
      BlankStep(w, nodes[0]);
      VisitMore(w, nodes);
      var w1 := Emit(w, ' ').(curr := if IsSlot(nodes[0]) then w.curr + 1 else w.curr);
      BlanksNext(w, nodes, afterSlot, first, i, f);
      WriteBlanks(w1, nodes[1..], IsSlot(nodes[0]), first, i, f);
      var k := Cut(nodes[1..], first - w1.curr);
      LayoutStep(w.out, nodes, k, w.neg, Zeros(w.blanks - first) + i + f);
    }
  }

  lemma CutStep(nodes: seq<Node>, s: nat)
    requires nodes != []
    ensures (IsSlot(nodes[0]) && s == 0) || nodes[0] == Dec ==> Cut(nodes, s) == 0
    ensures IsSlot(nodes[0]) && s > 0 ==> Cut(nodes, s) == 1 + Cut(nodes[1..], s - 1)
    ensures nodes[0] == Comma ==> Cut(nodes, s) == 1 + Cut(nodes[1..], s)
  {
  }

  lemma BlanksFacts(w: Writer, nodes: seq<Node>, afterSlot: bool, first: nat, i: string, f: string)
    requires Groups(nodes, afterSlot) && AtBlanks(w, nodes, first, i, f)
    ensures PlainWriter(w) && !w.numIn && w.curr <= first <= w.blanks
    ensures nodes != [] && (IsSlot(nodes[0]) || nodes[0] == Comma)
    ensures w.curr < first ==> w.curr < w.blanks && (w.desc.zero ==> w.desc.zeroStart > w.curr)
  {
  }

  lemma BlanksNext(w: Writer, nodes: seq<Node>, afterSlot: bool, first: nat, i: string, f: string)
    requires Groups(nodes, afterSlot) && AtBlanks(w, nodes, first, i, f)
    requires nodes != [] && (nodes[0] == Comma || (IsSlot(nodes[0]) && w.curr < first))
    ensures Groups(nodes[1..], IsSlot(nodes[0]))
    ensures AtBlanks(Emit(w, ' ').(curr := if IsSlot(nodes[0]) then w.curr + 1 else w.curr), nodes[1..], first, i, f)
  {
    assert nodes == [nodes[0]] + nodes[1..];
  }

  lemma SignNext(w: Writer, nodes: seq<Node>, afterSlot: bool, first: nat, i: string, f: string)
    requires Groups(nodes, afterSlot) && AtBlanks(w, nodes, first, i, f) && w.curr == first
    requires nodes != [] && IsSlot(nodes[0])
    ensures PlainWriter(w) && SignDue(w)
    ensures AtInteger(Emit(w, SignChar(w.neg)).(signWrote := true), nodes, i, f)
  {
    assert w.input[0..] == w.input;
  }

  lemma WriteSignHere(w: Writer, nodes: seq<Node>, afterSlot: bool, first: nat, i: string, f: string)
    requires Groups(nodes, afterSlot) && AtBlanks(w, nodes, first, i, f) && w.curr == first
    requires nodes != [] && IsSlot(nodes[0])
    ensures Slots(nodes) == |i| + |f| + (w.blanks - first) && nodes[0..] == nodes
    ensures VisitAll(w, nodes).out == w.out + Layout(nodes, 0, w.neg, Zeros(w.blanks - first) + i + f)
  {
    hide VisitAll, Visit, Groups, AtInteger, AtBlanks, SignDue, Weave, Slots, PlainWriter;
    var w1 := Emit(w, SignChar(w.neg)).(signWrote := true);
    BlanksFacts(w, nodes, afterSlot, first, i, f);
    SignNext(w, nodes, afterSlot, first, i, f);
    SignOnce(w, nodes[0]);
    VisitMore(w, nodes);
    VisitMore(w1, nodes);
    WriteInteger(w1, nodes, afterSlot, i, f);
    var t := Weave(nodes, Zeros(w.blanks - first) + i + f);
    Join(w.out, [SignChar(w.neg)], t);
    assert Blanks(0) + ([SignChar(w.neg)] + t) == [SignChar(w.neg)] + t;
    assert nodes[0..] == nodes;
  }

  /** A value below one whose zero is left blank: blanks up to the point. */
  ghost predicate AtLeadingZero(w: Writer, nodes: seq<Node>, f: string) {
    && PlainWriter(w) && !w.signWrote && !w.numIn && !w.desc.zero && w.desc.post != 0
    && '.' !in f && |f| == FracSlots(nodes) && w.input == "0" + ("." + f)
    && w.curr <= w.blanks + 1 && w.inputP == (if w.curr <= w.blanks then 0 else 1)
    && IntSlots(nodes) == w.blanks + 1 - w.curr && Dec in nodes
  }

  lemma LeadingZeroStep(w: Writer, n: Node)
    requires PlainWriter(w) && !w.signWrote && !w.numIn && w.curr >= w.blanks && IsSlot(n)
    requires PredecSpace(w)
    ensures Visit(w, n) == (Emit(w, ' ').(curr := w.curr + 1, inputP := 1), true)
  {
    hide NumpartOf;
    PlainNumpart(w, n);
  }

  lemma {:induction false} WriteToPoint(w: Writer, nodes: seq<Node>, afterSlot: bool, f: string)
    requires Groups(nodes, afterSlot) && AtLeadingZero(w, nodes, f)
    ensures var k := Cut(nodes, IntSlots(nodes));
      && |f| == Slots(nodes[k..])
      && VisitAll(w, nodes).out == w.out + Layout(nodes, k, w.neg, f)
    decreases |nodes|
  {
    hide VisitAll, Visit, Layout, Slots, AtLeadingZero, Groups, PlainWriter, Cut, PredecSpace;
    ZeroFacts(w, nodes, afterSlot, f);
    CutStep(nodes, IntSlots(nodes));
    if nodes[0] == Dec {
      WritePointHere(w, nodes, f);
    } else {
      var w1 := ToPoint(w, nodes[0]);
      if IsSlot(nodes[0]) && w.curr == w.blanks {
        LeadingZeroStep(w, nodes[0]);
      } else {
        BlankStep(w, nodes[0]);
      }
      VisitMore(w, nodes);
      ZeroNext(w, nodes, afterSlot, f);
      WriteToPoint(w1, nodes[1..], IsSlot(nodes[0]), f);
      var k := Cut(nodes[1..], IntSlots(nodes[1..]));
      LayoutStep(w.out, nodes, k, w.neg, f);
    }
  }

  /** The next state on the way to the point. */
  function ToPoint(w: Writer, n: Node): Writer {
    if IsSlot(n) && w.curr == w.blanks then Emit(w, ' ').(curr := w.curr + 1, inputP := 1)
    else Emit(w, ' ').(curr := if IsSlot(n) then w.curr + 1 else w.curr)
  }

  lemma ZeroFacts(w: Writer, nodes: seq<Node>, afterSlot: bool, f: string)
    requires Groups(nodes, afterSlot) && AtLeadingZero(w, nodes, f)
    ensures PlainWriter(w) && !w.signWrote && !w.numIn && !w.desc.zero && w.curr <= w.blanks + 1
    ensures nodes != [] && (IsSlot(nodes[0]) || nodes[0] == Comma || (nodes[0] == Dec && AllSlots(nodes[1..])))
    ensures IsSlot(nodes[0]) ==> w.curr <= w.blanks
    ensures w.curr == w.blanks ==> PredecSpace(w)
    ensures nodes[0] != Dec ==>
      IntSlots(nodes) == IntSlots(nodes[1..]) + (if IsSlot(nodes[0]) then 1 else 0)
  {
  }

  lemma ZeroNext(w: Writer, nodes: seq<Node>, afterSlot: bool, f: string)
    requires Groups(nodes, afterSlot) && AtLeadingZero(w, nodes, f) && nodes != [] && nodes[0] != Dec
    ensures Groups(nodes[1..], IsSlot(nodes[0])) && AtLeadingZero(ToPoint(w, nodes[0]), nodes[1..], f)
  {
    assert nodes == [nodes[0]] + nodes[1..];
  }

  lemma WritePointHere(w: Writer, nodes: seq<Node>, f: string)
    requires nodes != [] && nodes[0] == Dec && AllSlots(nodes[1..]) && AtLeadingZero(w, nodes, f)
    ensures |f| == Slots(nodes) && nodes[0..] == nodes
    ensures VisitAll(w, nodes).out == w.out + Layout(nodes, 0, w.neg, f)
  {
    var w1 := Emit(w, SignChar(w.neg)).(signWrote := true);
    SlotsAll(nodes[1..]);
    assert w.input[1..] == "." + f && w.input[1] == '.' && w.input[2..] == f;
    assert SignDue(w);
    hide VisitAll, Visit, SignDue, Weave, Slots;
    SignOnce(w, Dec);
    VisitMore(w, nodes);
    var w2 := Emit(w1, '.').(numIn := false, inputP := 2, curr := w.curr + 1);
    PointStep(w1);
    WriteFraction(w2, nodes[1..]);
    WeaveMarkPoint(nodes, f);
    var t := Weave(nodes[1..], f);
    Join(w1.out, ".", t);
    Join(w.out, [SignChar(w.neg)], "." + t);
    assert Blanks(0) + ([SignChar(w.neg)] + ("." + t)) == [SignChar(w.neg)] + ("." + t);
    assert nodes[0..] == nodes;
  }

  lemma WeaveMarkPoint(nodes: seq<Node>, f: string)
    requires nodes != [] && nodes[0] == Dec && |f| == Slots(nodes[1..])
    ensures Slots(nodes) == |f| && Weave(nodes, f) == "." + Weave(nodes[1..], f)
  {
  }

  // ----- to_number: reading the layout -----

  predicate PlainReader(r: Reader) {
    PlainFlags(r.desc) && !r.badRoman
  }

  /** Nodes of the picture from which the part `shape` is the end. */
  predicate EndsWith(nodes: seq<Node>, shape: seq<Node>) {
    && |shape| <= |nodes| && nodes[|nodes| - |shape|..] == shape
    && forall n | n in nodes :: IsSlot(n) || n == Comma || n == Dec
  }

  /** The text left is the filled shape, and the places read and to come add up. */
  ghost predicate AtText(r: Reader, nodes: seq<Node>, shape: seq<Node>, digits: string) {
    && PlainReader(r) && EndsWith(nodes, shape) && Shape(shape)
    && |digits| == Slots(shape) && AllDigits(digits)
    && r.inputP <= |r.input| && r.input[r.inputP..] == Weave(shape, digits)
    && PlacesLeft(r, shape)
  }

  predicate PlacesLeft(r: Reader, shape: seq<Node>) {
    if r.readDec then AllSlots(shape) && r.readPost + |shape| == r.desc.post
    else Dec in shape ==> r.desc.decimal && r.readPost == 0 && FracSlots(shape) == r.desc.post
  }

  /** One character of the filled shape is taken. */
  function TakeOne(r: Reader, c: char): Reader {
    if IsDigit(c) then
      (if r.readDec then r.(out := r.out + [c], readPost := r.readPost + 1, inputP := r.inputP + 1)
       else r.(out := r.out + [c], readPre := r.readPre + 1, inputP := r.inputP + 1))
    else if c == '.' then r.(out := r.out + ".", readDec := true, inputP := r.inputP + 1)
    else r.(inputP := r.inputP + 1)
  }

  lemma TakesOne(r: Reader, n: Node)
    requires PlainReader(r) && !Over(r) && (IsSlot(n) || n == Dec)
    requires var c := r.input[r.inputP];
      || (IsDigit(c) && (r.readDec ==> r.readPost < r.desc.post))
      || (c == '.' && r.desc.decimal && !r.readDec)
      || (c == ',')
    ensures ScanNode(r, n) == (TakeOne(r, r.input[r.inputP]), true)
  {
    hide PlainFlags;
    assert r.desc.lsign == 0 && !r.desc.plus && !r.desc.minus && !r.desc.bracket by { NoFlags(r.desc); }
  }

  lemma NoFlags(d: Picture)
    requires PlainFlags(d)
    ensures d.lsign == 0 && !d.plus && !d.minus && !d.bracket && !d.fillmode && !d.roman && !d.eeee && d.multi == 0
  {
  }

  lemma ScanMore(r: Reader, nodes: seq<Node>)
    requires nodes != []
    ensures var (r1, more) := ScanNode(r, nodes[0]);
      ScanAll(r, nodes) == if more then ScanAll(r1, nodes[1..]) else r1
  {
    hide ScanNode;
  }

  lemma {:induction false} ScanOver(r: Reader, nodes: seq<Node>)
    requires Over(r)
    ensures ScanAll(r, nodes) == r
  {
  }

  /** Each node takes one character, or leaves a comma's place alone; nothing is left over. */
  lemma {:induction false} ReadShape(r: Reader, nodes: seq<Node>, shape: seq<Node>, digits: string)
    requires AtText(r, nodes, shape, digits)
    ensures ScanAll(r, nodes).out == r.out + Plain(shape, digits) && !ScanAll(r, nodes).badRoman
    ensures ScanAll(r, nodes).desc == r.desc && Over(ScanAll(r, nodes))
    decreases |nodes|
  {
    if shape == [] {
      assert r.out + "" == r.out;
      ScanOver(r, nodes);
    } else {
      hide ScanAll, ScanNode, AtText, Plain, Weave, EndsWith, PlainFlags, PlainReader, TakeOne;
      TextFacts(r, nodes, shape, digits);
      ScanMore(r, nodes);
      var n, c := nodes[0], r.input[r.inputP];
      if n == Comma && c != ',' {
        CommaWaits(r);
        ShapeWaits(r, nodes, shape, digits);
        ReadShape(r, nodes[1..], shape, digits);
      } else {
        if n == Comma { CommaTakes(r); } else { TakesOne(r, n); }
        ShapeTakes(r, nodes, shape, digits);
        var rest := if IsSlot(shape[0]) then digits[1..] else digits;
        ReadShape(TakeOne(r, c), nodes[1..], shape[1..], rest);
        PlainTakes(r, shape, digits);
      }
    }
  }

  lemma TextFacts(r: Reader, nodes: seq<Node>, shape: seq<Node>, digits: string)
    requires AtText(r, nodes, shape, digits) && shape != []
    ensures PlainReader(r) && !Over(r) && nodes != [] && (IsSlot(nodes[0]) || nodes[0] == Comma || nodes[0] == Dec)
    ensures |digits| == Slots(shape) && (IsSlot(shape[0]) ==> digits != "")
    ensures var c := r.input[r.inputP];
      && c == Weave(shape, digits)[0]
      && (IsSlot(shape[0]) ==> IsDigit(c) && c == digits[0] && (r.readDec ==> r.readPost < r.desc.post))
      && (shape[0] == Dec ==> c == '.' && r.desc.decimal && !r.readDec)
      && (IsSlot(shape[0]) || shape[0] == Dec || (shape[0] == Comma && c == ','))
  {
    assert r.input[r.inputP..][0] == r.input[r.inputP];
    assert nodes[0] in nodes;
  }

  lemma CommaWaits(r: Reader)
    requires PlainReader(r) && !Over(r) && r.input[r.inputP] != ','
    ensures ScanNode(r, Comma) == (r, true)
  {
  }

  lemma CommaTakes(r: Reader)
    requires PlainReader(r) && !Over(r) && r.input[r.inputP] == ','
    ensures ScanNode(r, Comma) == (TakeOne(r, ','), true)
  {
  }

  lemma ShapeWaits(r: Reader, nodes: seq<Node>, shape: seq<Node>, digits: string)
    requires AtText(r, nodes, shape, digits) && shape != [] && nodes != [] && nodes[0] == Comma
    requires !Over(r) && r.input[r.inputP] != ','
    ensures AtText(r, nodes[1..], shape, digits)
  {
    hide Weave, Slots;
    assert shape[0] != Comma by { TextFacts(r, nodes, shape, digits); }
    assert |shape| < |nodes|;
    assert nodes[1..][|nodes[1..]| - |shape|..] == nodes[|nodes| - |shape|..];
  }

  lemma EndsTakes(nodes: seq<Node>, shape: seq<Node>)
    requires EndsWith(nodes, shape) && shape != []
    ensures nodes != [] && EndsWith(nodes[1..], shape[1..])
  {
    assert nodes[1..][|nodes[1..]| - |shape[1..]|..] == nodes[|nodes| - |shape|..][1..];
  }

  lemma ShapeTakes(r: Reader, nodes: seq<Node>, shape: seq<Node>, digits: string)
    requires AtText(r, nodes, shape, digits) && shape != [] && !Over(r)
    ensures var rest := if IsSlot(shape[0]) then digits[1..] else digits;
      nodes != [] && AtText(TakeOne(r, r.input[r.inputP]), nodes[1..], shape[1..], rest)
  {
    hide EndsWith, PlainFlags, PlacesLeft, Weave;
    TextFacts(r, nodes, shape, digits);
    EndsTakes(nodes, shape);
    PlacesTake(r, shape, r.input[r.inputP]);
    if shape[0] == Dec { SlotsAll(shape[1..]); }
    assert r.input[r.inputP + 1..] == r.input[r.inputP..][1..];
    if IsSlot(shape[0]) { WeaveSlot(shape, digits, digits[1..]); } else { WeaveMark(shape, digits); }
  }

  lemma PlacesTake(r: Reader, shape: seq<Node>, c: char)
    requires PlacesLeft(r, shape) && shape != [] && Shape(shape)
    requires if IsSlot(shape[0]) then IsDigit(c) else if shape[0] == Dec then c == '.' else c == ','
    ensures PlacesLeft(TakeOne(r, c), shape[1..])
  {
    assert shape == [shape[0]] + shape[1..];
  }

  lemma PlainTakes(r: Reader, shape: seq<Node>, digits: string)
    requires shape != [] && |digits| == Slots(shape) && AllDigits(digits) && !Over(r)
    requires r.input[r.inputP] == Weave(shape, digits)[0]
    requires IsSlot(shape[0]) || shape[0] == Dec || shape[0] == Comma
    ensures var rest := if IsSlot(shape[0]) then digits[1..] else digits;
      && |rest| == Slots(shape[1..])
      && TakeOne(r, r.input[r.inputP]).out + Plain(shape[1..], rest) == r.out + Plain(shape, digits)
    ensures TakeOne(r, r.input[r.inputP]).desc == r.desc
  {
    var rest := if IsSlot(shape[0]) then digits[1..] else digits;
    var c := r.input[r.inputP];
    if IsSlot(shape[0]) {
      WeaveSlot(shape, digits, rest);
      Join(r.out, [c], Plain(shape[1..], rest));
    } else {
      WeaveMark(shape, digits);
      if shape[0] == Dec { Join(r.out, ".", Plain(shape[1..], rest)); }
      assert "" + Plain(shape[1..], rest) == Plain(shape[1..], rest);
    }
  }

  /** Blanks, maybe a minus, then the filled shape: a slot takes two blanks, a comma none, so
      there must be slots enough before the shape. */
  ghost predicate AtMargin(r: Reader, nodes: seq<Node>, shape: seq<Node>, digits: string, b: nat, minus: bool) {
    && r.out == " " && r.readPre == r.readPost == 0 && !r.readDec && r.inputP <= |r.input|
    && shape != [] && (IsSlot(shape[0]) || shape[0] == Dec)
    && EndsWith(nodes, shape)
    && Dec !in nodes[..|nodes| - |shape|]
    && b + (if minus then 1 else 0) <= 2 * Slots(nodes[..|nodes| - |shape|]) + (if IsSlot(shape[0]) then 1 else 0)
    && |digits| == Slots(shape) && AtText(Past(r, b, minus), nodes, shape, digits)
    && r.inputP + b <= |r.input| && (forall i | r.inputP <= i < r.inputP + b :: r.input[i] == ' ')
    && (minus ==> r.inputP + b < |r.input| && r.input[r.inputP + b] == '-')
  }

  /** The scanner past the blanks and the minus. */
  function Past(r: Reader, b: nat, minus: bool): Reader {
    if minus then r.(inputP := r.inputP + b + 1, out := "-") else r.(inputP := r.inputP + b)
  }

  lemma TwoBlanks(r: Reader, n: Node)
    requires PlainReader(r) && IsSlot(n) && r.out == " " && !r.readDec && r.readPre == r.readPost == 0
    requires r.inputP + 1 < |r.input| && r.input[r.inputP] == ' ' && r.input[r.inputP + 1] == ' '
    ensures ScanNode(r, n) == (r.(inputP := r.inputP + 2), true)
  {
  }

  lemma OneBlank(r: Reader, n: Node)
    requires IsSlot(n) && r.inputP + 1 < |r.input| && r.input[r.inputP] == ' ' && r.input[r.inputP + 1] != ' '
    ensures ScanNode(r, n) == ScanNode(r.(inputP := r.inputP + 1), n)
  {
    hide ReadSign, ReadDigit, ReadTrailing;
  }

  lemma OneMinus(r: Reader, n: Node)
    requires PlainReader(r) && IsSlot(n) && r.out == " " && !r.readDec && r.readPre == r.readPost == 0
    requires r.inputP + 1 < |r.input| && r.input[r.inputP] == '-'
    requires r.input[r.inputP + 1] == '.' || IsDigit(r.input[r.inputP + 1])
    ensures ScanNode(r, n) == ScanNode(r.(inputP := r.inputP + 1, out := "-"), n)
  {
    hide ReadDigit, ReadTrailing;
    assert ['-'] + r.out[1..] == "-";
  }

  lemma SameScan(r: Reader, r1: Reader, nodes: seq<Node>)
    requires nodes != [] && ScanNode(r, nodes[0]) == ScanNode(r1, nodes[0])
    ensures ScanAll(r, nodes) == ScanAll(r1, nodes)
  {
    hide ScanNode;
    ScanMore(r, nodes);
    ScanMore(r1, nodes);
  }

  lemma CommaPasses(r: Reader)
    requires PlainReader(r) && !Over(r) && r.input[r.inputP] != ','
    ensures ScanNode(r, Comma) == (r, true)
  {
  }

  lemma {:induction false} ReadMargin(r: Reader, nodes: seq<Node>, shape: seq<Node>, digits: string, b: nat, minus: bool)
    requires AtMargin(r, nodes, shape, digits, b, minus)
    ensures |digits| == Slots(shape)
    ensures ScanAll(r, nodes).out == [SignChar(minus)] + Plain(shape, digits) && !ScanAll(r, nodes).badRoman
    ensures ScanAll(r, nodes).desc == r.desc && Over(ScanAll(r, nodes))
    decreases |nodes|
  {
    hide ScanAll, ScanNode, AtMargin, AtText, Plain, EndsWith, PlainFlags, Slots;
    MarginFacts(r, nodes, shape, digits, b, minus);
    var past := Past(r, b, minus);
    if b == 0 && !minus {
      ReadShape(r, nodes, shape, digits);
    } else if nodes[0] == Comma {
      CommaPasses(r);
      ScanMore(r, nodes);
      MarginComma(r, nodes, shape, digits, b, minus);
      ReadMargin(r, nodes[1..], shape, digits, b, minus);
    } else if b >= 2 {
      TwoBlanks(r, nodes[0]);
      ScanMore(r, nodes);
      MarginTwo(r, nodes, shape, digits, b, minus);
      ReadMargin(r.(inputP := r.inputP + 2), nodes[1..], shape, digits, b - 2, minus);
    } else {
      var r1 := if b == 1 then r.(inputP := r.inputP + 1) else r;
      if b == 1 {
        OneBlank(r, nodes[0]);
        SameScan(r, r1, nodes);
      }
      if minus {
        OneMinus(r1, nodes[0]);
        SameScan(r1, past, nodes);
      }
      ReadShape(past, nodes, shape, digits);
    }
  }

  lemma MarginFacts(r: Reader, nodes: seq<Node>, shape: seq<Node>, digits: string, b: nat, minus: bool)
    requires AtMargin(r, nodes, shape, digits, b, minus)
    ensures |digits| == Slots(shape) && PlainReader(r) && r.out == " " && r.readPre == r.readPost == 0 && !r.readDec
    ensures AtText(Past(r, b, minus), nodes, shape, digits)
    ensures b > 0 ==> !Over(r) && r.input[r.inputP] == ' '
    ensures b == 0 && minus ==> !Over(r) && r.input[r.inputP] == '-'
    ensures b > 1 ==> r.inputP + 1 < |r.input| && r.input[r.inputP + 1] == ' '
    ensures b == 1 && minus ==> r.inputP + 1 < |r.input| && r.input[r.inputP + 1] == '-'
    ensures !Over(Past(r, b, minus))
    ensures var c := r.input[Past(r, b, minus).inputP]; c == '.' || IsDigit(c)
    ensures b > 0 || minus ==> nodes != [] && (nodes[0] == Comma || IsSlot(nodes[0]))
  {
    hide AtText, PlainFlags, Weave;
    var past := Past(r, b, minus);
    TextFacts(past, nodes, shape, digits);
    MarginHead(nodes, shape, b, minus);
  }

  lemma MarginHead(nodes: seq<Node>, shape: seq<Node>, b: nat, minus: bool)
    requires EndsWith(nodes, shape) && shape != [] && (IsSlot(shape[0]) || shape[0] == Dec)
    requires Dec !in nodes[..|nodes| - |shape|]
    requires b + (if minus then 1 else 0) <= 2 * Slots(nodes[..|nodes| - |shape|]) + (if IsSlot(shape[0]) then 1 else 0)
    ensures b > 0 || minus ==> nodes != [] && (nodes[0] == Comma || IsSlot(nodes[0]))
  {
    var x := nodes[..|nodes| - |shape|];
    assert nodes[0] in nodes;
    if x == [] {
      assert nodes == shape;
    } else {
      assert nodes[0] == x[0] && x[0] in x;
    }
  }

  lemma PrefixTail(nodes: seq<Node>, shape: seq<Node>)
    requires EndsWith(nodes, shape) && |shape| < |nodes|
    ensures EndsWith(nodes[1..], shape)
    ensures var x, y := nodes[..|nodes| - |shape|], nodes[1..][..|nodes| - 1 - |shape|];
      x == [nodes[0]] + y && Slots(x) == Slots(y) + (if IsSlot(nodes[0]) then 1 else 0) && (Dec !in x ==> Dec !in y)
  {
    var x, y := nodes[..|nodes| - |shape|], nodes[1..][..|nodes| - 1 - |shape|];
    assert x == [nodes[0]] + y && x[1..] == y;
    assert nodes[1..][|nodes[1..]| - |shape|..] == nodes[|nodes| - |shape|..];
  }

  lemma MarginComma(r: Reader, nodes: seq<Node>, shape: seq<Node>, digits: string, b: nat, minus: bool)
    requires AtMargin(r, nodes, shape, digits, b, minus) && nodes != [] && nodes[0] == Comma
    ensures AtMargin(r, nodes[1..], shape, digits, b, minus)
  {
    hide PlainReader, Slots, Weave;
    assert |shape| < |nodes|;
    PrefixTail(nodes, shape);
  }

  lemma MarginTwo(r: Reader, nodes: seq<Node>, shape: seq<Node>, digits: string, b: nat, minus: bool)
    requires AtMargin(r, nodes, shape, digits, b, minus) && nodes != [] && IsSlot(nodes[0]) && b >= 2
    ensures AtMargin(r.(inputP := r.inputP + 2), nodes[1..], shape, digits, b - 2, minus)
  {
    hide PlainReader, Weave;
    assert Past(r.(inputP := r.inputP + 2), b - 2, minus) == Past(r, b, minus);
    PrefixTail(nodes, shape);
  }

  // ----- the first digit's place -----

  lemma {:induction false} CutFacts(nodes: seq<Node>, afterSlot: bool, s: nat)
    requires Groups(nodes, afterSlot) && (s < IntSlots(nodes) || (s == IntSlots(nodes) && Dec in nodes))
    ensures var k := Cut(nodes, s);
      && k < |nodes| && (if s < IntSlots(nodes) then IsSlot(nodes[k]) else nodes[k] == Dec)
      && Slots(nodes[..k]) == s && Dec !in nodes[..k]
      && (s < IntSlots(nodes) ==> k <= 2 * s + (if afterSlot then 1 else 0))
      && (s == IntSlots(nodes) ==> k <= 2 * s - 1 + (if afterSlot then 1 else 0))
    decreases |nodes|
  {
    CutStep(nodes, s);
    if Cut(nodes, s) == 0 {
      assert nodes[0..] == nodes && nodes[..0] == [];
    } else {
      var s1 := if IsSlot(nodes[0]) then s - 1 else s;
      assert nodes == [nodes[0]] + nodes[1..];
      CutFacts(nodes[1..], IsSlot(nodes[0]), s1);
      CutTail(nodes, Cut(nodes[1..], s1));
    }
  }

  lemma {:induction false} CutRest(nodes: seq<Node>, afterSlot: bool, s: nat)
    requires Groups(nodes, afterSlot) && (s < IntSlots(nodes) || (s == IntSlots(nodes) && Dec in nodes))
    ensures var k := Cut(nodes, s);
      && Shape(nodes[k..]) && IntSlots(nodes[k..]) == IntSlots(nodes) - s && FracSlots(nodes[k..]) == FracSlots(nodes)
      && (Dec in nodes[k..] <==> Dec in nodes) && Slots(nodes[k..]) == IntSlots(nodes) - s + FracSlots(nodes)
    decreases |nodes|
  {
    CutStep(nodes, s);
    GroupsShape(nodes, afterSlot);
    if Cut(nodes, s) == 0 {
      assert nodes[0..] == nodes;
    } else {
      var s1 := if IsSlot(nodes[0]) then s - 1 else s;
      assert nodes == [nodes[0]] + nodes[1..];
      CutRest(nodes[1..], IsSlot(nodes[0]), s1);
      CutTail(nodes, Cut(nodes[1..], s1));
    }
  }

  lemma CutTail(nodes: seq<Node>, k: nat)
    requires nodes != [] && k < |nodes|
    ensures k <= |nodes[1..]| && nodes[k + 1..] == nodes[1..][k..] && nodes[..k + 1] == [nodes[0]] + nodes[1..][..k]
    ensures nodes[k + 1..] != [] ==> nodes[k + 1] == nodes[1..][k]
    ensures Slots(nodes[..k + 1]) == Slots(nodes[1..][..k]) + (if IsSlot(nodes[0]) then 1 else 0)
    ensures Dec in nodes[..k + 1] <==> nodes[0] == Dec || Dec in nodes[1..][..k]
  {
    assert nodes[..k + 1] == [nodes[0]] + nodes[1..][..k];
    assert nodes[..k + 1][1..] == nodes[1..][..k];
  }

  lemma {:induction false} GroupsNodes(nodes: seq<Node>, afterSlot: bool)
    requires Groups(nodes, afterSlot)
    ensures forall n | n in nodes :: IsSlot(n) || n == Comma || n == Dec
  {
    if nodes != [] {
      assert nodes == [nodes[0]] + nodes[1..];
      if nodes[0] != Dec { GroupsNodes(nodes[1..], IsSlot(nodes[0])); }
    }
  }

  /** Reading back a layout collects the sign and the digits. */
  lemma ReadLayout(d: Picture, s: nat, neg: bool, digits: string)
    requires PlainPicture(d) && (s < d.pre || (s == d.pre && Dec in d.nodes))
    requires AllDigits(digits) && |digits| == Slots(d.nodes[Cut(d.nodes, s)..])
    ensures var k := Cut(d.nodes, s);
      var r := ScanAll(Opening(d, Layout(d.nodes, k, neg, digits)), d.nodes);
      r.out == [SignChar(neg)] + Plain(d.nodes[k..], digits) && !r.badRoman && r.desc == d && Over(r)
  {
    hide Groups, Slots, Cut, ScanAll, Plain, AtMargin, Layout, EndsWith;
    var nodes, k := d.nodes, Cut(d.nodes, s);
    var text := Layout(nodes, k, neg, digits);
    MarginHolds(d, s, neg, digits);
    ReadMargin(Opening(d, text), nodes, nodes[k..], digits, if neg then k else k + 1, neg);
  }

  lemma MarginHolds(d: Picture, s: nat, neg: bool, digits: string)
    requires PlainPicture(d) && (s < d.pre || (s == d.pre && Dec in d.nodes))
    requires AllDigits(digits) && |digits| == Slots(d.nodes[Cut(d.nodes, s)..])
    ensures var k := Cut(d.nodes, s);
      AtMargin(Opening(d, Layout(d.nodes, k, neg, digits)), d.nodes, d.nodes[k..], digits, if neg then k else k + 1, neg)
  {
    hide Groups, Slots, Cut, Weave, Shape;
    var nodes, k := d.nodes, Cut(d.nodes, s);
    CutFacts(nodes, false, s);
    CutRest(nodes, false, s);
    GroupsNodes(nodes, false);
    var r := Opening(d, Layout(nodes, k, neg, digits));
    LayoutText(nodes, k, neg, digits);
    assert |nodes| - |nodes[k..]| == k;
    assert AtText(Past(r, if neg then k else k + 1, neg), nodes, nodes[k..], digits);
  }

  lemma LayoutText(nodes: seq<Node>, k: nat, neg: bool, digits: string)
    requires k <= |nodes| && |digits| == Slots(nodes[k..])
    ensures var t := Layout(nodes, k, neg, digits);
      && t[k] == SignChar(neg) && t[k + 1..] == Weave(nodes[k..], digits)
      && (forall i | 0 <= i < k :: t[i] == ' ')
  {
    hide Slots, Weave;
    assert ([SignChar(neg)] + Weave(nodes[k..], digits))[1..] == Weave(nodes[k..], digits);
  }

  // ----- the number read back -----

  /** The digits collected, without the commas. */
  lemma {:induction false} PlainIs(nodes: seq<Node>, i: string, f: string)
    requires Shape(nodes) && |i| == IntSlots(nodes) && |f| == FracSlots(nodes) && (Dec in nodes <==> f != "")
    ensures |i + f| == Slots(nodes)
    ensures Plain(nodes, i + f) == i + (if f != "" then "." + f else "")
  {
    if nodes == [] {
    } else {
      assert nodes == [nodes[0]] + nodes[1..];
      if nodes[0] == Dec {
        PlainFromPoint(nodes, f);
        assert i + f == f && "" + ("." + f) == "." + f;
      } else {
        hide Plain, Weave;
        if nodes[0] == Comma {
          PlainIs(nodes[1..], i, f);
          WeaveMark(nodes, i + f);
          assert "" + Plain(nodes[1..], i + f) == Plain(nodes[1..], i + f);
        } else {
          PlainIs(nodes[1..], i[1..], f);
          assert (i + f)[1..] == i[1..] + f;
          WeaveSlot(nodes, i + f, i[1..] + f);
          assert i == [i[0]] + i[1..];
          Join([i[0]], i[1..], if f != "" then "." + f else "");
        }
      }
    }
  }

  lemma PlainFromPoint(nodes: seq<Node>, f: string)
    requires nodes != [] && nodes[0] == Dec && AllSlots(nodes[1..]) && |f| == |nodes| - 1
    ensures Slots(nodes) == |f| && Plain(nodes, f) == "." + f
  {
    SlotsAll(nodes[1..]);
    PlainSlots(nodes[1..], f);
  }

  lemma {:induction false} PlainSlots(nodes: seq<Node>, f: string)
    requires AllSlots(nodes) && |f| == |nodes|
    ensures Slots(nodes) == |f| && Plain(nodes, f) == f
  {
    SlotsAll(nodes);
    if nodes != [] {
      SlotsAll(nodes[1..]);
      PlainSlots(nodes[1..], f[1..]);
    }
  }

  /** What a collected sign and digits parse to. */
  lemma FinishPlain(r: Reader, neg: bool, i: string, f: string)
    requires PlainReader(r) && AllDigits(i) && AllDigits(f) && i + f != ""
    requires r.out == [SignChar(neg)] + (i + (if f != "" then "." + f else ""))
    ensures Finished(r) ==
      if Value(i + f) > I128_MAX then Err(OutOfRange) else Ok(Normalized(Signed(neg, Value(i + f)), |f|))
  {
    hide Value, Normalized, DropBlank, DropPoint, ParseStd, AllDigits;
    var t := i + (if f != "" then "." + f else "");
    LastDigit(i, f);
    Trims(r.out, neg, t);
    ParsesTo(neg, i, f);
  }

  lemma LastDigit(i: string, f: string)
    requires AllDigits(i) && AllDigits(f) && i + f != ""
    ensures var t := i + (if f != "" then "." + f else ""); t != "" && t[|t| - 1] != '.' && t[0] != '-' && t[0] != '+'
  {
  }

  lemma ParsesTo(neg: bool, i: string, f: string)
    requires AllDigits(i) && AllDigits(f) && i + f != ""
    ensures var t := i + (if f != "" then "." + f else "");
      ParseStd(if neg then "-" + t else t) ==
        if Value(i + f) > I128_MAX then Err(OutOfRange) else Ok(Normalized(Signed(neg, Value(i + f)), |f|))
  {
    hide Value, Normalized, FirstDot, FirstMark, AllDigits, Trim, ParseMantissa, IsSpace;
    var t := i + (if f != "" then "." + f else "");
    LastDigit(i, f);
    NoBlankNoMark(neg, i, f);
    MantissaOf(neg, i, f);
    if neg { assert ("-" + t)[1..] == t; }
  }

  lemma MantissaOf(neg: bool, i: string, f: string)
    requires AllDigits(i) && AllDigits(f) && i + f != ""
    ensures var t := i + (if f != "" then "." + f else "");
      ParseMantissa(neg, t, 0) ==
        if Value(i + f) > I128_MAX then Err(OutOfRange) else Ok(Normalized(Signed(neg, Value(i + f)), |f|))
  {
    hide Value, Normalized, FirstDot, AllDigits;
    PointAt(i, f);
  }

  /** There is nothing to trim and no exponent. */
  lemma NoBlankNoMark(neg: bool, i: string, f: string)
    requires AllDigits(i) && AllDigits(f) && i + f != ""
    ensures var t := i + (if f != "" then "." + f else "");
      var s := if neg then "-" + t else t;
      Trim(s) == s && FirstMark(t) == |t|
  {
    hide FirstMark, Trim;
    var t := i + (if f != "" then "." + f else "");
    assert forall k | 0 <= k < |t| :: IsDigit(t[k]) || t[k] == '.';
    TrimNothing(if neg then "-" + t else t);
  }

  /** The sign slot and the text after it, once trimmed. */
  lemma Trims(out: string, neg: bool, t: string)
    requires out == [SignChar(neg)] + t && t != "" && t[|t| - 1] != '.'
    ensures DropBlank(DropPoint(out)) == if neg then "-" + t else t
  {
    assert out[|out| - 1] == t[|t| - 1] && out[1..] == t;
  }

  lemma {:induction false} PointAt(i: string, f: string)
    requires AllDigits(i)
    ensures var t := i + (if f != "" then "." + f else "");
      && FirstDot(t) == |i| && t[..|i|] == i && (f != "" ==> |i| < |t| && t[|i| + 1..] == f) && (f == "" ==> |i| == |t|)
    decreases |i|
  {
    var t := i + (if f != "" then "." + f else "");
    if i != "" {
      PointAt(i[1..], f);
      assert t[1..] == i[1..] + (if f != "" then "." + f else "");
    }
    if f != "" { assert t[|i| + 1..] == ("." + f)[1..]; }
  }

  // ----- overflow -----

  predicate NoDigit(t: string) {
    forall i :: 0 <= i < |t| ==> !IsDigit(t[i])
  }

  /** Nothing but a sign and at most one point collected. */
  predicate Barren(r: Reader) {
    && !r.badRoman && NoDigit(r.input) && |r.out| >= 1
    && (r.out[0] == ' ' || r.out[0] == '-' || r.out[0] == '+')
    && r.out[1..] == (if r.readDec then "." else "")
  }

  /** A slot, a point, a comma or a sign. */
  predicate Ordinary(n: Node) {
    IsSlot(n) || n == Comma || n == Dec || IsSign(n) || n == S
  }

  lemma BarrenStep(r: Reader, n: Node)
    requires Barren(r) && Ordinary(n)
    ensures Barren(ScanNode(r, n).0)
  {
    hide ReadSign, ReadDigit, ReadTrailing;
    if !Over(r) {
      if IsSlot(n) || n == Dec {
        hide Barren;
        BarrenPart(r, n);
      } else if IsSign(n) {
        hide NonDataEaten, NoDigit;
        EatMoves(r, 1);
        assert forall c: char :: ([c] + r.out[1..])[1..] == r.out[1..];
      }
    }
  }

  lemma {:induction false} EatMoves(r: Reader, n: nat)
    ensures NonDataEaten(r, n) == r.(inputP := NonDataEaten(r, n).inputP)
    decreases n
  {
    if n > 0 && !Over(r) { EatMoves(Skip(r), n - 1); }
  }

  lemma BarrenPart(r: Reader, n: Node)
    requires Barren(r) && (IsSlot(n) || n == Dec)
    ensures Barren(ReadPart(r, n).0)
  {
    hide ReadSign, ReadDigit, ReadTrailing, Barren;
    if !Over(r) {
      var r1 := if r.input[r.inputP] == ' ' then Skip(r) else r;
      BarrenMoves(r, r1);
      if !Over(r1) {
        BarrenSign(r1, n);
        var r2 := ReadSign(r1, n);
        if !Over(r2) {
          BarrenDigit(r2);
          BarrenTrailing(ReadDigit(r2).0, ReadDigit(r2).1);
        }
      }
    }
  }

  lemma BarrenMoves(r: Reader, r1: Reader)
    requires Barren(r) && r1 == r.(inputP := r1.inputP)
    ensures Barren(r1)
  {
  }

  lemma BarrenSign(r: Reader, n: Node)
    requires Barren(r) && !Over(r)
    ensures Barren(ReadSign(r, n)) && ReadSign(r, n).input == r.input
  {
    hide NoDigit;
    assert forall c: char :: ([c] + r.out[1..])[1..] == r.out[1..];
  }

  lemma BarrenDigit(r: Reader)
    requires Barren(r) && !Over(r)
    ensures Barren(ReadDigit(r).0) && !Over(ReadDigit(r).0)
  {
    assert !IsDigit(r.input[r.inputP]);
    var out := r.out + ['.'];
    assert out[1..] == r.out[1..] + ".";
  }

  lemma BarrenTrailing(r: Reader, isread: bool)
    requires Barren(r) && !Over(r)
    ensures Barren(ReadTrailing(r, isread))
  {
    hide NoDigit;
    assert forall c: char :: ([c] + r.out[1..])[1..] == r.out[1..];
  }

  lemma {:induction false} BarrenScan(r: Reader, nodes: seq<Node>)
    requires Barren(r) && forall n | n in nodes :: Ordinary(n)
    ensures Barren(ScanAll(r, nodes))
    decreases |nodes|
  {
    hide Barren, ScanNode;
    if nodes != [] {
      assert nodes[0] in nodes && forall n | n in nodes[1..] :: n in nodes;
      BarrenStep(r, nodes[0]);
      BarrenScan(ScanNode(r, nodes[0]).0, nodes[1..]);
    }
  }

  lemma BarrenFails(r: Reader)
    requires Barren(r)
    ensures Finished(r).Err?
  {
    hide NoDigit;
    var c := r.out[0];
    assert r.out == [c] + r.out[1..];
    if r.readDec { assert r.out == [c] + "." && r.out[..1] == [c]; } else { assert [c] + "" == [c]; }
    assert DropPoint(r.out) == [c];
    assert [c][1..] == "";
  }

  lemma {:induction false} WeaveNoDigit(nodes: seq<Node>, digits: string)
    requires |digits| == Slots(nodes) && NoDigit(digits)
    ensures NoDigit(Weave(nodes, digits))
  {
    if nodes != [] {
      WeaveNoDigit(nodes[1..], if IsSlot(nodes[0]) then digits[1..] else digits);
    }
  }

  /** A text of #s is not read as a number. */
  lemma ReadOverflow(d: Picture, text: string)
    requires (forall n | n in d.nodes :: Ordinary(n)) && NoDigit(text)
    ensures ReadNumber(text, d).Err?
  {
    hide ScanAll, Finished;
    assert " "[1..] == "";
    BarrenScan(Opening(d, text), d.nodes);
    BarrenFails(ScanAll(Opening(d, text), d.nodes));
  }

  // ----- the theorem -----

  lemma PrologueIs(d: Picture, input: string, neg: bool, blanks: nat)
    requires PlainPicture(d)
    ensures var w := Prologue(d, input, neg, blanks);
      && PlainWriter(w) && !w.signWrote && !w.numIn && w.inputP == 0 && w.curr == 0 && w.out == ""
      && w.input == input && w.blanks == blanks && w.neg == neg
      && w.desc.zero == d.zero && w.desc.post == d.post
  {
  }

  function FirstSlot(d: Picture, blanks: nat): nat {
    var w := Prologue(d, "", false, blanks).desc;
    if w.zero && w.zeroStart < blanks then w.zeroStart else blanks
  }

  lemma FirstSlotIs(d: Picture, input: string, neg: bool, blanks: nat)
    requires PlainPicture(d)
    ensures FirstSlot(d, blanks) <= blanks
    ensures var w := Prologue(d, input, neg, blanks).desc;
      FirstSlot(d, blanks) == if w.zero && w.zeroStart < blanks then w.zeroStart else blanks
  {
  }

  /** Printing with at least one integer digit shown. */
  lemma PrintsDigits(d: Picture, i: string, f: string, tail: string, neg: bool, blanks: nat)
    requires PlainPicture(d) && i != "" && '.' !in i && '.' !in f && blanks + |i| == d.pre && |f| == d.post
    requires d.zero || i[0] != '0' || d.post == 0
    requires Dec in d.nodes ==> tail == "." + f
    ensures var s := FirstSlot(d, blanks);
      && s < d.pre && s <= blanks
      && |Zeros(blanks - s) + i + f| == Slots(d.nodes[Cut(d.nodes, s)..])
      && Processed(d, i + tail, neg, blanks) == Layout(d.nodes, Cut(d.nodes, s), neg, Zeros(blanks - s) + i + f)
  {
    hide Groups, Prologue, VisitAll, Layout, PlainFlags, FirstSlot;
    var w, s := Prologue(d, i + tail, neg, blanks), FirstSlot(d, blanks);
    PrologueIs(d, i + tail, neg, blanks);
    FirstSlotIs(d, i + tail, neg, blanks);
    GroupsShape(d.nodes, false);
    assert (i + tail)[0] == i[0];
    WriteBlanks(w, d.nodes, false, s, i, f);
    var k := Cut(d.nodes, s);
    assert |Zeros(blanks - s) + i + f| == Slots(d.nodes[k..]);
    assert "" + Layout(d.nodes, k, neg, Zeros(blanks - s) + i + f) == Layout(d.nodes, k, neg, Zeros(blanks - s) + i + f);
  }

  /** Printing a value below one, its zero left blank. */
  lemma PrintsFraction(d: Picture, f: string, neg: bool)
    requires PlainPicture(d) && d.post > 0 && |f| == d.post && '.' !in f && !d.zero && d.pre >= 1
    ensures var k := Cut(d.nodes, d.pre);
      && |f| == Slots(d.nodes[k..])
      && Processed(d, "0" + ("." + f), neg, d.pre - 1) == Layout(d.nodes, k, neg, f)
  {
    hide Groups, Prologue, VisitAll, Layout, PlainFlags;
    var input := "0" + ("." + f);
    var w := Prologue(d, input, neg, d.pre - 1);
    PrologueIs(d, input, neg, d.pre - 1);
    GroupsShape(d.nodes, false);
    WriteToPoint(w, d.nodes, false, f);
    var k := Cut(d.nodes, d.pre);
    assert "" + Layout(d.nodes, k, neg, f) == Layout(d.nodes, k, neg, f);
  }

  /** The value to print, in units of the picture's last place. */
  function Units(n: Numeric, d: Picture): nat {
    RoundHalfUp(Magnitude(n), Places(n), d.post)
  }

  lemma DigitsZero(n: nat)
    ensures Digits(n)[0] == '0' <==> n == 0
    ensures n == 0 ==> Digits(n) == "0"
  {
    if n >= 10 { DigitsZero(n / 10); }
  }

  lemma NoPoint(s: string)
    requires AllDigits(s)
    ensures '.' !in s
  {
  }

  /** Integer and fraction digits of a value. */
  lemma ValueParts(r: nat, q: nat)
    ensures var p := Pow10(q);
      var i, f := Digits(DividedBy(r, p)), Padded(Remainder(r, p), q);
      && Value(i + f) == r && AllDigits(i) && AllDigits(f) && |f| == q && (r < p ==> Value(f) == r)
  {
    hide Value, Pow10, Digits, Padded;
    var p := Pow10(q);
    ValueDigits(DividedBy(r, p));
    ValuePadded(Remainder(r, p), q);
    ValueAppend(Digits(DividedBy(r, p)), Padded(Remainder(r, p), q));
    DivisionParts(r, p);
  }

  lemma DivisionParts(r: nat, p: nat)
    requires p >= 1
    ensures DividedBy(r, p) * p + Remainder(r, p) == r
    ensures r < p <==> DividedBy(r, p) == 0
    ensures r < p ==> Remainder(r, p) == r
  {
    if DividedBy(r, p) == 0 { assert r == Remainder(r, p); }
    if r < p { Quotient(0, p, r); }
  }

  lemma FitsPicture(r: nat, pre: nat, q: nat)
    requires pre >= 1
    ensures |Digits(DividedBy(r, Pow10(q)))| <= pre <==> r < Pow10(pre + q)
  {
    hide Digits, Pow10;
    var p := Pow10(q);
    DigitsFit(DividedBy(r, p), pre);
    PowSum(pre, q);
    DivisionBound(r, p, Pow10(pre));
  }

  lemma DivisionBound(r: nat, p: nat, b: nat)
    requires p >= 1
    ensures DividedBy(r, p) < b <==> r < b * p
  {
    DivisionParts(r, p);
    var a := DividedBy(r, p);
    if a < b { MulLess(a + 1, b, p); } else { MulLess(b, a, p); }
  }

  lemma ToCharUnfold(n: Numeric, d: Picture)
    requires PlainPicture(d)
    ensures var r := Units(n, d);
      var i := Digits(DividedBy(r, Pow10(d.post)));
      ToCharText(n, d) ==
        if |i| > d.pre then Processed(d, OverflowFill(d.pre, d.post), n.unscaled < 0, 0)
        else Processed(d, Numeral(r, d.post), n.unscaled < 0, d.pre - |i|)
  {
    hide Digits, Processed, Numeral, RoundHalfUp, Pow10, DividedBy, Groups, Magnitude;
    assert d.(pre := d.pre + d.multi) == d;
  }

  lemma ShowsDigits(d: Picture, r: nat, neg: bool)
    requires PlainPicture(d)
    requires var i := Digits(DividedBy(r, Pow10(d.post))); |i| <= d.pre && (d.zero || i[0] != '0' || d.post == 0)
    ensures var text := Processed(d, Numeral(r, d.post), neg, d.pre - |Digits(DividedBy(r, Pow10(d.post)))|);
      && |text| == |d.nodes| + 1
      && Finished(ScanAll(Opening(d, text), d.nodes)) ==
         if r > I128_MAX then Err(OutOfRange) else Ok(Normalized(Signed(neg, r), d.post))
  {
    hide Value, Digits, Padded, Pow10, Groups, Processed, ScanAll, Finished, Layout, Cut, Plain, FirstSlot,
         Normalized, Slots, Shape;
    ValueParts(r, d.post);
    var i, f := Digits(DividedBy(r, Pow10(d.post))), Padded(Remainder(r, Pow10(d.post)), d.post);
    var tail := if d.post > 0 then "." + f else "";
    var blanks := d.pre - |i|;
    NoPoint(i);
    NoPoint(f);
    GroupsShape(d.nodes, false);
    PrintsDigits(d, i, f, tail, neg, blanks);
    var s := FirstSlot(d, blanks);
    var pad := Zeros(blanks - s) + i;
    ReadLayout(d, s, neg, pad + f);
    CutRest(d.nodes, false, s);
    PlainIs(d.nodes[Cut(d.nodes, s)..], pad, f);
    FinishPlain(ScanAll(Opening(d, Layout(d.nodes, Cut(d.nodes, s), neg, pad + f)), d.nodes), neg, pad, f);
    PaddedValue(blanks - s, i, f);
  }

  lemma PaddedValue(n: nat, i: string, f: string)
    requires AllDigits(i) && AllDigits(f)
    ensures AllDigits(Zeros(n) + i) && Value(Zeros(n) + i + f) == Value(i + f)
  {
    hide Value;
    var t := Zeros(n) + i + f;
    TrimZeros(t, n);
    assert t[n..] == i + f;
  }

  lemma ShowsFraction(d: Picture, r: nat, neg: bool)
    requires PlainPicture(d) && d.post > 0 && !d.zero && r < Pow10(d.post)
    ensures Digits(DividedBy(r, Pow10(d.post))) == "0" && d.pre >= 1
    ensures var text := Processed(d, Numeral(r, d.post), neg, d.pre - 1);
      && |text| == |d.nodes| + 1
      && Finished(ScanAll(Opening(d, text), d.nodes)) ==
         if r > I128_MAX then Err(OutOfRange) else Ok(Normalized(Signed(neg, r), d.post))
  {
    hide Value, Digits, Padded, Pow10, Groups, Processed, ScanAll, Finished, Layout, Cut, Plain, Normalized,
         Slots, Shape;
    ValueParts(r, d.post);
    DivisionParts(r, Pow10(d.post));
    DigitsZero(0);
    var f := Padded(Remainder(r, Pow10(d.post)), d.post);
    NoPoint(f);
    GroupsShape(d.nodes, false);
    OneSlot(d.nodes);
    PrintsFraction(d, f, neg);
    ReadLayout(d, d.pre, neg, f);
    CutRest(d.nodes, false, d.pre);
    assert "" + f == f;
    PlainIs(d.nodes[Cut(d.nodes, d.pre)..], "", f);
    FinishPlain(ScanAll(Opening(d, Layout(d.nodes, Cut(d.nodes, d.pre), neg, f)), d.nodes), neg, "", f);
  }

  lemma OneSlot(nodes: seq<Node>)
    requires Groups(nodes, false)
    ensures IntSlots(nodes) >= 1
  {
  }

  lemma ShowsHashes(d: Picture, neg: bool)
    requires PlainPicture(d)
    ensures var text := Processed(d, OverflowFill(d.pre, d.post), neg, 0);
      |text| == |d.nodes| + 1 && NoDigit(text) && ReadNumber(text, d).Err?
  {
    hide Groups, Processed, ReadNumber, FirstSlot;
    var i, f := Hashes(d.pre), Hashes(d.post);
    OneSlot(d.nodes);
    assert i + ['.'] + f == i + ("." + f);
    PrintsDigits(d, i, f, "." + f, neg, 0);
    var s := FirstSlot(d, 0);
    var k := Cut(d.nodes, s);
    assert Zeros(0) + i + f == i + f;
    WeaveNoDigit(d.nodes[k..], i + f);
    GroupsNodes(d.nodes, false);
    ReadOverflow(d, Layout(d.nodes, k, neg, i + f));
  }

  lemma ToCharShows(n: Numeric, d: Picture)
    requires PlainPicture(d)
    ensures |ToCharText(n, d)| == |d.nodes| + 1
    ensures var r := Units(n, d);
      var back := ReadNumber(ToCharText(n, d), d);
      if r >= Pow10(d.pre + d.post) then back.Err?
      else back == if r > I128_MAX then Err(OutOfRange) else Ok(Normalized(Signed(n.unscaled < 0, r), d.post))
  {
    hide Groups, Processed, ToCharText, Units, Digits, DividedBy, Pow10, Numeral, Normalized, Finished, ScanAll;
    ToCharUnfold(n, d);
    var r, neg := Units(n, d), n.unscaled < 0;
    var i := Digits(DividedBy(r, Pow10(d.post)));
    OneSlot(d.nodes);
    FitsPicture(r, d.pre, d.post);
    if |i| > d.pre {
      ShowsHashes(d, neg);
    } else if d.zero || i[0] != '0' || d.post == 0 {
      ShowsDigits(d, r, neg);
    } else {
      DigitsZero(DividedBy(r, Pow10(d.post)));
      DivisionParts(r, Pow10(d.post));
      ShowsFraction(d, r, neg);
    }
  }

  /** The output width is that of the picture, whatever the number, and however wide its text
      would have to be. */
  lemma ToCharWidth(n: Numeric, m: Numeric, d: Picture)
    requires PlainPicture(d)
    ensures |ToCharText(n, d)| == |ToCharText(m, d)| == |d.nodes| + 1
  {
    hide PlainPicture, ToCharText;
    ToCharShows(n, d);
    ToCharShows(m, d);
  }

  /** Reading back what was printed gives the number rounded half away from zero to the places
      of the picture, exactly when its integer part fits the picture and its digits fit 128 bits. */
  lemma ToCharToNumber(n: Numeric, d: Picture)
    requires PlainPicture(d)
    ensures var r := Units(n, d);
      var back := ReadNumber(ToCharText(n, d), d);
      && (back.Ok? <==> r < Pow10(d.pre + d.post) && r <= I128_MAX)
      && (back.Ok? ==> back.value == Normalized(Signed(n.unscaled < 0, r), d.post))
  {
    hide PlainPicture, ToCharText, ReadNumber, Units, Pow10, Normalized;
    ToCharShows(n, d);
  }

  /** The same from the picture text: one character more than the picture is printed, and what
      was printed reads back rounded, exactly when it fits. */
  lemma PictureRoundTrip(fmt: string, n: Numeric)
    requires PlainText(fmt) && Groups(NodesOf(fmt), false)
    ensures var parsed := Checked(Outside(Scan(EMPTY, false, false), fmt));
      && parsed.Ok?
      && var d := parsed.value;
         var r, back := Units(n, d), ReadNumber(ToCharText(n, d), d);
         && |ToCharText(n, d)| == |fmt| + 1
         && (back.Ok? <==> r < Pow10(d.pre + d.post) && r <= I128_MAX)
         && (back.Ok? ==> back.value == Normalized(Signed(n.unscaled < 0, r), d.post))
  {
    hide PlainPicture, ToCharText, ReadNumber, Units, Pow10, Normalized, Outside, Checked, Groups;
    PlainParses(fmt);
    var d := Checked(Outside(Scan(EMPTY, false, false), fmt)).value;
    ToCharWidth(n, n, d);
    ToCharToNumber(n, d);
  }

  /** A normalized number has the same value, in the fewest places. */
  lemma {:induction false} NormalizedValue(u: int, s: nat)
    ensures var n := Normalized(u, s);
      && 0 <= n.scale <= s && n.unscaled * Pow10(s - n.scale) == u
      && (n.scale > 0 ==> n.unscaled % 10 != 0)
    decreases s
  {
    hide Pow10;
    ValueNothing();
    if u != 0 && s > 0 && u % 10 == 0 {
      NormalizedValue(u / 10, s - 1);
      var n := Normalized(u, s);
      PowStep(s - 1 - n.scale);
      Regroup(10, n.unscaled, Pow10(s - 1 - n.scale));
    }
  }
}

/** Ordinals and Roman numerals through `to_char` and back. */
module NumNodes {
  import opened Integers
  import opened Text
  import opened Wrappers
  import opened Decimal
  import opened NumPicture
  import opened NumToChar
  import opened NumFromChar
  import opened NumRoundTrip
  import opened NumSigns
  import opened NumSignsBack
  import Numerals = Roman

  // ----- ordinals -----

  /** The English ordinal suffix: eleven to nineteen take th in every hundred. */
  function Suffix(v: nat): string {
    if v % 100 / 10 == 1 then "th"
    else if v % 10 == 1 then "st" else if v % 10 == 2 then "nd" else if v % 10 == 3 then "rd" else "th"
  }

  function Capitals(s: string): string {
    if s == "th" then "TH" else if s == "st" then "ST" else if s == "nd" then "ND" else "RD"
  }

  lemma LastDigits(v: nat)
    ensures var s := Digits(v);
      && s[|s| - 1] == DigitChar(v % 10) && (v >= 10 <==> |s| > 1) && (v >= 10 ==> s[|s| - 2] == DigitChar(v / 10 % 10))
  {
    if v >= 10 {
      var t := Digits(v / 10);
      assert t[|t| - 1] == DigitChar(v / 10 % 10);
      assert Digits(v)[|t| - 1] == t[|t| - 1];
    }
  }

  lemma OrdinalIs(v: nat, upper: bool)
    ensures Ordinal(Digits(v), upper) == if upper then Capitals(Suffix(v)) else Suffix(v)
  {
    hide Digits;
    LastDigits(v);
    Halves(v);
  }

  lemma Halves(v: nat)
    ensures v % 100 / 10 == v / 10 % 10 && (v < 10 ==> v / 10 == 0)
  {
  }

  lemma {:induction false} VisitKeeps(w: Writer, nodes: seq<Node>)
    requires Simple(nodes) && !w.desc.roman
    ensures VisitAll(w, nodes).input == w.input && VisitAll(w, nodes).desc == w.desc
    decreases |nodes|
  {
    if nodes != [] {
      hide Visit, VisitAll;
      VisitOne(w, nodes[0]);
      VisitFirst(w, nodes);
      VisitKeeps(Visit(w, nodes[0]).0, nodes[1..]);
    }
  }

  lemma VisitFirst(w: Writer, nodes: seq<Node>)
    requires nodes != []
    ensures VisitAll(w, nodes) == if Visit(w, nodes[0]).1 then VisitAll(Visit(w, nodes[0]).0, nodes[1..]) else Visit(w, nodes[0]).0
  {
    hide Visit;
  }

  lemma VisitOne(w: Writer, n: Node)
    requires (Stop(n) || n == Comma) && !w.desc.roman
    ensures Visit(w, n).0.input == w.input && Visit(w, n).0.desc == w.desc
  {
    if n != Comma {
      hide WriteSign, WriteSlot, WriteEnd;
      SignInput(w.(numIn := false));
      SlotInput(WriteSign(w.(numIn := false)), n);
      EndInput(WriteSlot(WriteSign(w.(numIn := false)), n).0);
    }
  }

  lemma SignInput(w: Writer)
    ensures WriteSign(w).input == w.input && WriteSign(w).desc == w.desc
  {
    hide SignDue;
  }

  lemma SlotInput(w: Writer, n: Node)
    ensures WriteSlot(w, n).0.input == w.input && WriteSlot(w, n).0.desc == w.desc
  {
    hide Core, WriteSlot;
    SlotCore(w, n);
  }

  lemma EndInput(w: Writer)
    ensures WriteEnd(w).input == w.input && WriteEnd(w).desc == w.desc
  {
  }

  /** TH or th behind a plain picture. */
  function Ordered(d: Picture, lower: bool): Picture {
    d.(nodes := d.nodes + [Th(lower)])
  }

  lemma OrderedText(n: Numeric, d: Picture, lower: bool)
    requires PlainPicture(d)
    ensures var v := VisitAll(Prologue(Ordered(d, lower), InputOf(n, d), n.unscaled < 0, BlanksOf(n, d)), d.nodes);
      && ToCharText(n, Ordered(d, lower)) == Visit(v, Th(lower)).0.out
      && v.out == ToCharText(n, d) && v.input == InputOf(n, d) && v.neg == (n.unscaled < 0)
      && v.desc.roman == false && v.desc.decimal == d.decimal
  {
    hide InputOf, BlanksOf, Groups, VisitAll, Visit, ToCharText, Before, Behind, Through;
    var u, neg := Ordered(d, lower), n.unscaled < 0;
    NotFill(d);
    GroupStops(d.nodes, false);
    StyleRuns(n, d, false, u, "");
    StyleRuns(n, d, false, d, "");
    Laid(n, d, u);
    Laid(n, d, d);
    var w, v := Prologue(d, InputOf(n, d), neg, BlanksOf(n, d)), Prologue(u, InputOf(n, d), neg, BlanksOf(n, d));
    assert w.(out := "") == w && v.(out := "") == v;
    VisitBehind(v, d.nodes, Th(lower));
    VisitKeeps(v, d.nodes);
  }

  /** TH adds the ordinal suffix of the rounded number, unless it is negative, has a point in its
      picture, or does not fit. */
  lemma OrdinalShown(n: Numeric, d: Picture, lower: bool)
    requires PlainPicture(d)
    ensures var r := Units(n, d);
      ToCharText(n, Ordered(d, lower)) == ToCharText(n, d) +
        (if n.unscaled < 0 || d.decimal || r >= Pow10(d.pre) then ""
         else if lower then Suffix(r) else Capitals(Suffix(r)))
  {
    hide Groups, VisitAll, ToCharText, Units, Digits, Pow10, Prologue;
    OrderedText(n, d, lower);
    assert ToCharText(n, d) + "" == ToCharText(n, d);
    if !d.decimal && n.unscaled >= 0 {
      InputDigits(n, d);
      if Units(n, d) < Pow10(d.pre) { OrdinalIs(Units(n, d), !lower); }
    }
  }

  lemma InputDigits(n: Numeric, d: Picture)
    requires PlainPicture(d) && !d.decimal
    ensures var r := Units(n, d);
      if r < Pow10(d.pre) then InputOf(n, d) == Digits(r) && InputOf(n, d)[0] != '#'
      else InputOf(n, d) != "" && InputOf(n, d)[0] == '#'
  {
    hide Groups, Digits, Pow10, RoundHalfUp, Magnitude, DividedBy;
    GroupStops(d.nodes, false);
    OneSlot(d.nodes);
    FitsPicture(Units(n, d), d.pre, 0);
    DividedByOne(Units(n, d));
    var i := Digits(Units(n, d));
    assert IsDigit(i[0]) && i + "" == i;
  }

  lemma DividedByOne(r: nat)
    ensures Pow10(0) == 1 && DividedBy(r, 1) == r
  {
    Quotient(r, 1, 0);
  }

  // ----- Roman numerals -----

  /** RN or rn, with or without FM. */
  function RomanPicture(lower: bool, fm: bool): Picture {
    EMPTY.(roman := true, fillmode := fm, nodes := [Roman(lower)])
  }

  function RomanFormat(lower: bool, fm: bool): string {
    FillText(fm) + (if lower then "rn" else "RN")
  }

  lemma RomanParses(lower: bool, fm: bool)
    ensures Parsed(RomanFormat(lower, fm)) == Ok(RomanPicture(lower, fm))
  {
    hide Outside;
    var kw := if lower then "rn" else "RN";
    FillStep(fm, kw);
    assert kw + "" == kw && kw[..2] == kw;
    KeywordStep(Fill(fm), kw, Keyword.Node(Roman(lower)), "");
    assert [] + START.d.nodes + [Roman(lower)] == [Roman(lower)];
    OutsideEnd(AddKeyword(Fill(fm), Keyword.Node(Roman(lower))).value);
  }

  /** The rounded number with its sign. */
  function RoundedInt(n: Numeric): int {
    Signed(n.unscaled < 0, RoundHalfUp(Magnitude(n), Places(n), 0))
  }

  function InCase(s: string, lower: bool): string {
    if lower then Lower(s) else s
  }

  lemma RomanShown(n: Numeric, lower: bool, fm: bool)
    ensures var s := InCase(RomanOrHashes(RoundedInt(n)), lower);
      ToCharText(n, RomanPicture(lower, fm)) == if fm then s else PadLeft(s, 15)
  {
    hide RomanOrHashes, RoundHalfUp, Magnitude, Lower, PadLeft;
    var d := RomanPicture(lower, fm);
    var input := RomanOrHashes(RoundedInt(n));
    var w := Prologue(d, input, false, 0);
    VisitFirst(w, d.nodes);
    var s := InCase(input, lower);
    assert "" + s == s && "" + PadLeft(s, 15) == PadLeft(s, 15);
    VisitDone(Visit(w, Roman(lower)).0);
    assert d.nodes[1..] == [];
  }

  lemma {:induction false} SkipsSpaces(input: string, p: nat)
    requires p <= |input|
    ensures var q := Numerals.SkipSpaces(input, p);
      (forall i :: p <= i < q ==> IsSpace(input[i])) && (q < |input| ==> !IsSpace(input[q]))
    decreases |input| - p
  {
    if p < |input| && IsSpace(input[p]) { SkipsSpaces(input, p + 1); }
  }

  lemma {:induction false} TakesLongest(input: string, p: nat, left: nat)
    requires p <= |input|
    ensures var q := Numerals.TakeNumerals(input, p, left);
      q - p <= left && (q < |input| && q - p < left ==> !Numerals.IsNumeral(Numerals.Upper(input[q])))
    decreases left
  {
    if left > 0 && p < |input| && Numerals.IsNumeral(Numerals.Upper(input[p])) { TakesLongest(input, p + 1, left - 1); }
  }

  /** Blanks and a numeral of either case are read as its value, to the end. */
  lemma NumeralRead(input: string, k: nat, v: nat)
    requires k < |input| && (forall i :: 0 <= i < k ==> input[i] == ' ') && 1 <= v <= 3999
    requires Numerals.UpperText(input[k..]) == Numerals.RomanText(v) && Numerals.Numerals(Numerals.RomanText(v))
    ensures Numerals.RomanIn(input, 0) == Some((v, |input|))
  {
    hide Numerals.RomanText, Numerals.Judge, Numerals.SkipSpaces, Numerals.TakeNumerals;
    SkipsSpaces(input, 0);
    var start := Numerals.SkipSpaces(input, 0);
    TakesLongest(input, start, 15);
    var end := Numerals.TakeNumerals(input, start, 15);
    Numerals.CollectsWhole(input, 0, start, end, k, v);
    assert input[start..end] == input[k..];
    Numerals.AcceptsExactly(Numerals.RomanText(v), v);
  }

  lemma {:induction false} ThousandsInk(d: nat)
    requires d < 4
    ensures Numerals.Numerals(Numerals.Thousands(d))
  {
    if d > 0 { ThousandsInk(d - 1); }
  }

  lemma RomanInk(v: nat)
    requires v < 4000
    ensures Numerals.Numerals(Numerals.RomanText(v))
  {
    hide Numerals.Thousands;
    ThousandsInk(v / 1000);
    DigitsInk(v / 100 % 10, v / 10 % 10, v % 10);
  }

  lemma DigitsInk(b: nat, c: nat, d: nat)
    requires b < 10 && c < 10 && d < 10
    ensures Numerals.Numerals(Numerals.Hundreds(b)) && Numerals.Numerals(Numerals.Tens(c)) && Numerals.Numerals(Numerals.Ones(d))
  {
  }

  /** The printed numeral, in either case, behind its blanks. */
  lemma PrintedNumeral(v: nat, lower: bool, fm: bool)
    requires 1 <= v <= 3999
    ensures var s := InCase(Numerals.RomanText(v), lower);
      var t := if fm then s else PadLeft(s, 15);
      t != "" && Numerals.RomanIn(t, 0) == Some((v, |t|))
  {
    hide Numerals.RomanText, Numerals.RomanIn;
    RomanInk(v);
    Numerals.RomanNonempty(v);
    var s := InCase(Numerals.RomanText(v), lower);
    var k := if fm || |s| >= 15 then 0 else 15 - |s|;
    var t := if fm then s else PadLeft(s, 15);
    assert t[k..] == s;
    assert Numerals.UpperText(s) == Numerals.RomanText(v) by { CaseBack(Numerals.RomanText(v), lower); }
    NumeralRead(t, k, v);
  }

  lemma CaseBack(s: string, lower: bool)
    requires Numerals.Numerals(s)
    ensures Numerals.UpperText(InCase(s, lower)) == s
  {
  }

  /** What RN prints reads back as the rounded number from 1 to 3999; other numbers print hashes,
      which are refused. */
  lemma RomanRoundTrip(n: Numeric, lower: bool, fm: bool)
    ensures var d, v := RomanPicture(lower, fm), RoundedInt(n);
      ReadNumber(ToCharText(n, d), d) == if 1 <= v <= 3999 then Ok(Normalized(v, 0)) else Err(InvalidRoman)
  {
    hide RomanOrHashes, RoundedInt, Numerals.RomanText, ToCharText, Finished, Normalized, Digits, PadLeft, Lower, Value;
    var d, v := RomanPicture(lower, fm), RoundedInt(n);
    RomanShown(n, lower, fm);
    OrHashes(v);
    var text := ToCharText(n, d);
    if 1 <= v <= 3999 {
      PrintedNumeral(v, lower, fm);
      var r := Opening(d, text);
      var r1 := r.(out := " " + Digits(v), inputP := |text|);
      RomanScan(r, r1, lower, Some((v, |text|)));
      assert r1.out == [' '] + (Digits(v) + "") && Digits(v) + "" == Digits(v);
      ValueDigits(v);
      FinishSigned(r1, ' ', Digits(v), "");
      SmallNumber(v);
    } else {
      HashesRefused(lower, text);
      var r := Opening(d, text);
      RomanScan(r, r.(badRoman := true), lower, None);
      RefusedRoman(r.(badRoman := true));
    }
  }

  lemma OrHashes(v: int)
    ensures 1 <= v <= 3999 ==> RomanOrHashes(v) == Numerals.RomanText(v)
    ensures !(1 <= v <= 3999) ==> RomanOrHashes(v) == "###############"
    ensures Lower("###############") == "###############" && PadLeft("###############", 15) == "###############"
  {
    hide Numerals.RomanText;
    assert Hashes(15) == "###############";
  }

  lemma RomanScan(r: Reader, r1: Reader, lower: bool, got: Option<(nat, nat)>)
    requires r.inputP == 0 && r.input != "" && r.out == " " && got == Numerals.RomanIn(r.input, 0)
    requires r1 == if got.None? then r.(badRoman := true) else r.(out := " " + Digits(got.value.0), inputP := got.value.1)
    ensures ScanAll(r, [Roman(lower)]) == r1
  {
    hide Numerals.RomanIn, Digits;
    ScanMore(r, [Roman(lower)]);
    if got.Some? { ScanNone(r1); }
    assert [Roman(lower)][1..] == [];
  }

  lemma HashesRefused(lower: bool, text: string)
    requires text == "###############"
    ensures Numerals.RomanIn(text, 0) == None
  {
  }

  lemma RefusedRoman(r: Reader)
    requires r.badRoman
    ensures Finished(r) == Err(InvalidRoman)
  {
  }

  lemma SmallNumber(v: nat)
    requires v <= 3999
    ensures NumberOf(false, v, 0) == Ok(Normalized(v, 0))
  {
  }
}

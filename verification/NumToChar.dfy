/** `to_char` for numbers: rounding, layout and the picture processor (src/numfmt_tochar.rs). */
module NumToChar {
  import opened Integers
  import opened Text
  import opened Wrappers
  import opened Decimal
  import opened NumPicture
  import Numerals = Roman

  /** A finite number, unscaled * 10^-scale. The source keeps large magnitudes in a second form;
      here both are one unbounded integer. */
  datatype Numeric = Numeric(unscaled: int, scale: int)

  function Abs(n: int): nat {
    if n < 0 then -n else n
  }

  function Hashes(n: nat): (s: string)
    ensures |s| == n && forall i | 0 <= i < n :: s[i] == '#'
  {
    seq(n, _ => '#')
  }

  // ----- digits of a number -----

  /** The magnitude in units of 10^-Places(n). */
  function Magnitude(n: Numeric): nat {
    Abs(n.unscaled) * Pow10(if n.scale < 0 then -n.scale else 0)
  }

  function Places(n: Numeric): nat {
    if n.scale < 0 then 0 else n.scale
  }

  method NumericDigits(n: Numeric) returns (neg: bool, intD: string, fracD: string)
    ensures neg == (n.unscaled < 0) && AllDigits(intD) && AllDigits(fracD) && intD != []
    ensures |fracD| == Places(n) && Value(intD + fracD) == Magnitude(n)
  {
    hide Value, Digits, Pow10;
    neg := n.unscaled < 0;
    var digits := Digits(Abs(n.unscaled));
    ValueDigits(Abs(n.unscaled));
    ValueNothing();
    if n.scale < 0 {
      ValueAppend(digits, Zeros(-n.scale));
      ValueZeros(-n.scale);
      digits := digits + Zeros(-n.scale);
      assert digits + "" == digits;
      return neg, digits, "";
    }
    var scale := n.scale;
    if |digits| > scale {
      var at := |digits| - scale;
      assert digits[..at] + digits[at..] == digits;
      return neg, digits[..at], digits[at..];
    }
    fracD := Zeros(scale - |digits|) + digits;
    TrimZeros("0" + fracD, 1 + scale - |digits|);
    assert ("0" + fracD)[1 + scale - |digits|..] == digits;
    return neg, "0", fracD;
  }

  // ----- rounding -----

  /** `round_digits`: exactly `post` places, rounded half away from zero, carrying left. */
  method RoundDigits(intD: string, fracD: string, post: nat) returns (ri: string, rf: string)
    requires AllDigits(intD) && AllDigits(fracD)
    ensures AllDigits(ri) && AllDigits(rf) && |rf| == post && |ri| >= |intD|
    ensures Value(ri + rf) == RoundHalfUp(Value(intD + fracD), |fracD|, post)
  {
    hide Value, Pow10, RoundHalfUp;
    if |fracD| > post {
      var kept, cut := fracD[..post], fracD[post..];
      var roundUp := fracD[post] >= '5';
      assert intD + fracD == (intD + kept) + cut;
      RoundCut(intD + kept, cut, post);
      if roundUp {
        var frac, carry := AddOne(kept);
        ValueAppend(intD, kept);
        ri := intD;
        if carry {
          var carry1;
          ri, carry1 := AddOne(intD);
          OneMoreTimes(Value(intD), Pow10(post));
          if carry1 {
            ghost var low := ri;
            ri := "1" + ri;
            LeadingOne(low);
          }
        }
        ValueAppend(ri, frac);
        return ri, frac;
      }
      return intD, kept;
    }
    ri, rf := intD, fracD;
    ValueNothing();
    while |rf| < post
      invariant |fracD| <= |rf| <= post && AllDigits(rf)
      invariant Value(intD + rf) == Value(intD + fracD) * Pow10(|rf| - |fracD|)
    {
      assert intD + (rf + "0") == (intD + rf) + "0";
      ValueSnoc(intD + rf, '0');
      PowStep(|rf| - |fracD|);
      Regroup(10, Value(intD + fracD), Pow10(|rf| - |fracD|));
      rf := rf + "0";
    }
    NoCut(Value(intD + fracD), |fracD|, post);
  }

  lemma NoCut(v: nat, f: nat, q: nat)
    requires f <= q
    ensures RoundHalfUp(v, f, q) == v * Pow10(q - f)
  {
  }

  lemma OneMoreTimes(v: nat, p: nat)
    ensures (v + 1) * p == v * p + p
  {
  }

  lemma LeadingOne(s: string)
    requires AllDigits(s)
    ensures Value("1" + s) == Pow10(|s|) + Value(s)
  {
    hide Value, Pow10;
    ValueAppend("1", s);
    ValueOne('1');
  }

  // ----- layout -----

  /** r in units of 10^-post, written with all its places. */
  function Numeral(r: nat, post: nat): string {
    Digits(DividedBy(r, Pow10(post))) + (if post > 0 then "." + Padded(Remainder(r, Pow10(post)), post) else "")
  }

  lemma NumeralOf(i: string, f: string)
    requires AllDigits(i) && AllDigits(f)
    ensures DividedBy(Value(i + f), Pow10(|f|)) == Value(i) && Remainder(Value(i + f), Pow10(|f|)) == Value(f)
    ensures f == Padded(Value(f), |f|)
  {
    hide Value, Pow10, DividedBy, Remainder;
    ValueAppend(i, f);
    ValueBelow(f);
    DivMod(Value(i), Pow10(|f|), Value(f));
    PaddedUnique(f);
  }

  lemma DivMod(a: nat, p: nat, b: nat)
    requires b < p
    ensures DividedBy(a * p + b, p) == a && Remainder(a * p + b, p) == b
  {
    Quotient(a, p, b);
  }

  /** The number shifted left by `multi` places and rounded, in units of 10^-post. */
  function Rounded(v: nat, f: nat, multi: nat, post: nat): nat {
    if multi <= f then RoundHalfUp(v, f - multi, post) else RoundHalfUp(v * Pow10(multi - f), 0, post)
  }

  /** The V shift: `multi` places move before the point, zeros when they run out. */
  method ShiftLeft(intD: string, fracD: string, multi: nat) returns (i: string, f: string)
    requires AllDigits(intD) && AllDigits(fracD) && intD != []
    ensures AllDigits(i) && AllDigits(f) && i != []
    ensures |f| == if multi <= |fracD| then |fracD| - multi else 0
    ensures Value(i + f) == Value(intD + fracD) * Pow10(if multi <= |fracD| then 0 else multi - |fracD|)
  {
    hide Value, Pow10;
    i, f := intD, fracD;
    assert Value(intD + fracD) == Value(intD + fracD) * Pow10(0) by { ValueNothing(); }
    for m := 0 to multi
      invariant AllDigits(i) && AllDigits(f) && i != []
      invariant |f| == if m <= |fracD| then |fracD| - m else 0
      invariant Value(i + f) == Value(intD + fracD) * Pow10(if m <= |fracD| then 0 else m - |fracD|)
    {
      var c := '0';
      if f != [] {
        c := f[0];
        assert (i + [f[0]]) + f[1..] == i + f;
        f := f[1..];
      } else {
        assert (i + ['0']) + [] == i + ['0'] && i + f == i;
        ValueSnoc(i, '0');
        PowStep(m - |fracD|);
        Regroup(10, Value(intD + fracD), Pow10(m - |fracD|));
      }
      i := i + [c];
    }
  }

  /** `prepare_plain`: the digits to print, and the blanks before them unless they overflow. */
  method PreparePlain(desc: Picture, intD: string, fracD: string) returns (d: Picture, numstr: string, layout: Option<nat>)
    requires AllDigits(intD) && AllDigits(fracD) && intD != []
    ensures d == desc.(pre := desc.pre + desc.multi)
    ensures var r := Rounded(Value(intD + fracD), |fracD|, desc.multi, desc.post);
      && numstr == Numeral(r, desc.post)
      && var k := |Digits(DividedBy(r, Pow10(desc.post)))|;
         layout == if k > d.pre then None else Some(d.pre - k)
  {
    hide Value, Pow10, RoundHalfUp, Digits, DividedBy, Remainder, TrimStartZeros, Rounded, Padded;
    var i, f := ShiftLeft(intD, fracD, desc.multi);
    ShiftedRounds(Value(intD + fracD), |fracD|, desc.multi, desc.post, Value(i + f), |f|);
    d := desc.(pre := desc.pre + desc.multi);
    var frac;
    i, frac := RoundDigits(i, f, desc.post);
    NumeralOf(i, frac);
    var trimmed := TrimStartZeros(i);
    var intPart := if trimmed == [] then "0" else trimmed;
    CanonicalPart(i, trimmed);
    numstr := intPart;
    if desc.post > 0 {
      numstr := numstr + ['.'] + frac;
      assert intPart + ['.'] + frac == intPart + ("." + frac);
    } else {
      assert numstr + "" == numstr;
    }
    var preLen := |intPart|;
    layout := if preLen < d.pre then Some(d.pre - preLen) else if preLen > d.pre then None else Some(0);
  }

  lemma ShiftedRounds(v: nat, f: nat, multi: nat, post: nat, w: nat, g: nat)
    requires g == (if multi <= f then f - multi else 0) && w == v * Pow10(if multi <= f then 0 else multi - f)
    ensures RoundHalfUp(w, g, post) == Rounded(v, f, multi, post)
  {
    hide RoundHalfUp;
    if multi <= f { ValueNothing(); }
  }

  function TrimStartZeros(s: string): (r: string)
    ensures |r| <= |s| && r == s[|s| - |r|..]
    ensures forall i | 0 <= i < |s| - |r| :: s[i] == '0'
    ensures r != [] ==> r[0] != '0'
  {
    if s != [] && s[0] == '0' then TrimStartZeros(s[1..]) else s
  }

  lemma CanonicalPart(i: string, trimmed: string)
    requires AllDigits(i) && trimmed == TrimStartZeros(i)
    ensures (if trimmed == [] then "0" else trimmed) == Digits(Value(i))
  {
    hide Value, Digits, Pow10, TrimStartZeros;
    TrimZeros(i, |i| - |trimmed|);
    if trimmed == [] {
      ValueNothing();
      ValueOne('0');
      DigitsUnique("0");
    } else {
      DigitsUnique(trimmed);
    }
  }

  /** `overflow_fill`. */
  function OverflowFill(pre: nat, post: nat): string {
    Hashes(pre) + ['.'] + Hashes(post)
  }

  // ----- the processor -----

  /** The processor's state. */
  datatype Writer = Writer(desc: Picture, input: string, inputP: nat, out: string, blanks: nat, count: int, curr: nat,
                           numIn: bool, neg: bool, signWrote: bool, last: Option<nat>)

  function Emit(w: Writer, c: char): Writer {
    w.(out := w.out + [c])
  }

  /** `IS_PREDEC_SPACE`: at the leading zero of 0.xxx, which is left blank. */
  predicate PredecSpace(w: Writer) {
    !w.desc.zero && w.inputP == 0 && w.input != [] && w.input[0] == '0' && w.desc.post != 0
  }

  predicate LastIsDot(w: Writer) {
    w.last.Some? && w.last.value < |w.input| && w.input[w.last.value] == '.'
  }

  predicate SignDue(w: Writer) {
    && !w.signWrote
    && (w.curr >= w.blanks || (w.desc.zero && w.desc.zeroStart == w.curr))
    && (!PredecSpace(w) || LastIsDot(w))
  }

  /** The sign ahead of the first real output position. */
  function WriteSign(w: Writer): Writer {
    if !SignDue(w) then w
    else if w.desc.lsign == 1 then Emit(w, if w.neg then '-' else '+').(signWrote := true)
    else if w.desc.lsign == 2 then w
    else if w.desc.bracket then Emit(w, if w.neg then '<' else ' ').(signWrote := true)
    else if w.neg then Emit(w, '-').(signWrote := true)
    else (if w.desc.fillmode then w else Emit(w, ' ')).(signWrote := true)
  }

  function Advance(w: Writer): Writer {
    w.(inputP := if w.inputP < |w.input| then w.inputP + 1 else w.inputP)
  }

  /** A digit slot or point; false when the digits have run out. */
  function WriteSlot(w: Writer, id: Node): (Writer, bool) {
    if w.curr < w.blanks && (w.desc.zeroStart > w.curr || !w.desc.zero) then
      (if w.desc.fillmode then w else Emit(w, ' '), true)
    else if w.curr < w.blanks then (Emit(w, '0').(numIn := true), true)
    else if w.inputP < |w.input| && w.input[w.inputP] == '.' then
      (Advance(if !LastIsDot(w) || w.desc.fillmode then Emit(w, '.') else w), true)
    else WriteDigit(w, id)
  }

  function WriteDigit(w: Writer, id: Node): (Writer, bool) {
    if w.last.Some? && w.inputP > w.last.value && id != N0 then (Advance(w), true)
    else if PredecSpace(w) then
      (Advance(if !w.desc.fillmode then Emit(w, ' ') else if LastIsDot(w) then Emit(w, '0') else w), true)
    else if w.inputP < |w.input| then (Advance(Emit(w, w.input[w.inputP]).(numIn := true)), true)
    else (w, false)
  }

  /** The closing bracket or locale sign after the last slot. */
  function WriteEnd(w: Writer): Writer {
    var end := if w.last == Some(w.inputP) then w.curr
               else w.count + (if w.blanks != 0 then 1 else 0) + (if w.desc.decimal then 1 else 0);
    if w.curr + 1 != end then w
    else if w.signWrote && w.desc.bracket then Emit(w, if w.neg then '>' else ' ')
    else if w.desc.lsign == 2 then Emit(w, if w.neg then '-' else '+')
    else w
  }

  function NumpartOf(w: Writer, id: Node): (Writer, bool) {
    if w.desc.roman then (w, true)
    else
      var (w1, more) := WriteSlot(WriteSign(w.(numIn := false)), id);
      if !more then (w1, false)
      else
        var w2 := WriteEnd(w1);
        (w2.(curr := w2.curr + 1), true)
  }

  /** `get_th`. */
  function Ordinal(num: string, upper: bool): string {
    var last := if num == [] then '0' else num[|num| - 1];
    if |num| > 1 && num[|num| - 2] == '1' then (if upper then "TH" else "th")
    else if last == '1' then (if upper then "ST" else "st")
    else if last == '2' then (if upper then "ND" else "nd")
    else if last == '3' then (if upper then "RD" else "rd")
    else if upper then "TH" else "th"
  }

  function PadLeft(s: string, n: nat): string {
    if |s| < n then seq(n - |s|, _ => ' ') + s else s
  }

  /** One node of the picture; false when the output ends. */
  function Visit(w: Writer, n: Node): (Writer, bool) {
    match n
    case N9 => NumpartOf(w, n)
    case N0 => NumpartOf(w, n)
    case Dec => NumpartOf(w, n)
    case Comma => (WriteGroup(w), true)
    case G => (WriteGroup(w), true)
    case L => (Emit(w, ' '), true)
    case C => (Emit(w, ' '), true)
    case Roman(lower) =>
      var s := if lower then Lower(w.input) else w.input;
      (w.(out := w.out + if w.desc.fillmode then s else PadLeft(s, 15)), true)
    case Th(lower) =>
      if w.desc.roman || (w.input != [] && w.input[0] == '#') || w.neg || w.desc.decimal then (w, true)
      else (w.(out := w.out + Ordinal(w.input, !lower)), true)
    case MI => (if w.neg then Emit(w, '-') else if w.desc.fillmode then w else Emit(w, ' '), true)
    case PL => (if !w.neg then Emit(w, '+') else if w.desc.fillmode then w else Emit(w, ' '), true)
    case SG => (Emit(w, if w.neg then '-' else '+'), true)
    case S => (w, true)
    case Lit(c) => (Emit(w, c), true)
  }

  function WriteGroup(w: Writer): Writer {
    if w.numIn then Emit(w, ',') else if w.desc.fillmode then w else Emit(w, ' ')
  }

  function VisitAll(w: Writer, nodes: seq<Node>): Writer
    decreases |nodes|
  {
    if nodes == [] then w
    else
      var (w1, more) := Visit(w, nodes[0]);
      if more then VisitAll(w1, nodes[1..]) else w1
  }

  /** `last_relevant_decnum`: the last non-zero place, or the point itself. */
  function LastRelevant(input: string, n: nat): Option<nat>
    requires n <= |input|
  {
    if n == 0 then None
    else
      var before := LastRelevant(input, n - 1);
      if before.None? then (if input[n - 1] == '.' then Some(n - 1) else None)
      else if input[n - 1] != '0' then Some(n - 1) else before
  }

  lemma {:induction false} LastRelevantIs(input: string, n: nat)
    requires n <= |input|
    ensures LastRelevant(input, n).None? <==> '.' !in input[..n]
    ensures LastRelevant(input, n).Some? ==>
      var k := LastRelevant(input, n).value;
      && k < n && (input[k] == '.' || ('.' in input[..k] && input[k] != '0'))
      && forall i | k < i < n :: input[i] == '0'
  {
    if n > 0 {
      LastRelevantIs(input, n - 1);
      assert input[..n] == input[..n - 1] + [input[n - 1]];
    }
  }

  /** The sign of the picture, or an S, MI, PL or SG node, stands for the sign. */
  function SignWritten(d: Picture, neg: bool): bool {
    if d.plus || d.minus then !(d.plus && !d.minus) || !neg else !neg && d.fillmode && d.lsign == 0
  }

  /** The picture as the node loop uses it. */
  function Styled(d: Picture, neg: bool): Picture {
    var d1 := d.(zeroStart := if d.zeroStart > 0 then d.zeroStart - 1 else 0);
    if d1.plus || d1.minus then d1
    else d1.(bracket := d1.bracket && (neg || !d1.fillmode),
             lsign := if d1.lsign == 1 && d1.pre == d1.preLsign then 2 else d1.lsign)
  }

  function LastShown(d: Picture, input: string, blanks: nat): Option<nat> {
    if d.fillmode && d.decimal then KeepZeros(d, input, blanks, LastRelevant(input, |input|)) else None
  }

  /** The prologue of `run_processor`. */
  function Prologue(d: Picture, input: string, neg: bool, blanks: nat): Writer {
    var wrote := SignWritten(d, neg);
    Writer(Styled(d, neg), input, 0, "", blanks, d.post + d.pre - 1 + (if !wrote && blanks == 0 then 1 else 0), 0,
           false, neg, wrote, LastShown(Styled(d, neg), input, blanks))
  }

  /** Digits that a 0 slot asks for are never stripped. */
  function KeepZeros(d: Picture, input: string, blanks: nat, last: Option<nat>): Option<nat> {
    if last.Some? && d.zeroEnd > blanks then
      var lastZero := if |input| as int - 1 < d.zeroEnd - blanks then (if input == [] then 0 else |input| - 1)
                      else d.zeroEnd - blanks;
      Some(if last.value < lastZero then lastZero else last.value)
    else last
  }

  /** `run_processor`: with EEEE the prepared text is the output. */
  function Processed(d: Picture, input: string, neg: bool, blanks: nat): string {
    if d.eeee then input else VisitAll(Prologue(d, input, neg, blanks), d.nodes).out
  }

  class ToChar {
    var desc: Picture
    var input: string
    var inputP: nat
    var out: string
    var blanks: nat
    var count: int
    var curr: nat
    var numIn: bool
    var neg: bool
    var signWrote: bool
    var last: Option<nat>

    ghost function View(): Writer
      reads this
    {
      Writer(desc, input, inputP, out, blanks, count, curr, numIn, neg, signWrote, last)
    }

    /** `run_processor` up to the node loop. */
    constructor (d: Picture, input: string, neg: bool, blanks: nat)
      ensures View() == Prologue(d, input, neg, blanks)
    {
      hide LastShown, Styled, SignWritten;
      var d1, wrote := Restyle(d, neg);
      var shown := LastDigitShown(d1, input, blanks);
      this.count := d.post + d.pre - 1 + (if !wrote && blanks == 0 then 1 else 0);
      this.desc, this.input, this.inputP, this.out, this.blanks := d1, input, 0, "", blanks;
      this.curr, this.numIn, this.neg, this.signWrote, this.last := 0, false, neg, wrote, shown;
    }

    static method Restyle(d: Picture, neg: bool) returns (d1: Picture, wrote: bool)
      ensures d1 == Styled(d, neg) && wrote == SignWritten(d, neg)
    {
      d1 := if d.zeroStart > 0 then d.(zeroStart := d.zeroStart - 1) else d;
      wrote := true;
      if d1.plus || d1.minus {
        if d1.plus && !d1.minus { wrote := !neg; }
      } else {
        if !neg && d1.fillmode { d1 := d1.(bracket := false); }
        wrote := !neg && d1.fillmode && d1.lsign == 0;
        if d1.lsign == 1 && d1.pre == d1.preLsign { d1 := d1.(lsign := 2); }
      }
    }

    static method LastDigitShown(d: Picture, input: string, blanks: nat) returns (last: Option<nat>)
      ensures last == LastShown(d, input, blanks)
    {
      last := None;
      if d.fillmode && d.decimal {
        last := LastRelevant(input, |input|);
        LastRelevantIs(input, |input|);
        if last.Some? && d.zeroEnd > blanks {
          var lastZero := if |input| - 1 < d.zeroEnd - blanks then |input| - 1 else d.zeroEnd - blanks;
          if last.value < lastZero { last := Some(lastZero); }
        }
      }
    }

    predicate AtDot()
      reads this
    {
      last.Some? && last.value < |input| && input[last.value] == '.'
    }

    predicate IsPredecSpace()
      reads this
    {
      !desc.zero && inputP == 0 && input != [] && input[0] == '0' && desc.post != 0
    }

    method Numpart(id: Node) returns (more: bool)
      modifies this`inputP, this`out, this`curr, this`numIn, this`signWrote
      ensures (View(), more) == NumpartOf(old(View()), id)
    {
      hide WriteSign, WriteSlot, WriteEnd;
      if desc.roman { return true; }
      numIn := false;
      PutSign();
      more := PutSlot(id);
      if !more { return false; }
      PutEnd();
      curr := curr + 1;
    }

    method PutSign()
      modifies this`out, this`signWrote
      ensures View() == WriteSign(old(View()))
    {
      if !signWrote && (curr >= blanks || (desc.zero && desc.zeroStart == curr)) && (!IsPredecSpace() || AtDot()) {
        if desc.lsign == 1 {
          out := out + [if neg then '-' else '+'];
          signWrote := true;
        } else if desc.lsign == 2 {
        } else if desc.bracket {
          out := out + [if neg then '<' else ' '];
          signWrote := true;
        } else if !neg {
          if !desc.fillmode { out := out + [' ']; }
          signWrote := true;
        } else {
          out := out + ['-'];
          signWrote := true;
        }
      }
    }

    method PutEnd()
      modifies this`out
      ensures View() == WriteEnd(old(View()))
    {
      var end := count + (if blanks != 0 then 1 else 0) + (if desc.decimal then 1 else 0);
      if last == Some(inputP) { end := curr; }
      if curr + 1 == end {
        if signWrote && desc.bracket {
          out := out + [if neg then '>' else ' '];
        } else if desc.lsign == 2 {
          out := out + [if neg then '-' else '+'];
        }
      }
    }

    method PutSlot(id: Node) returns (more: bool)
      modifies this`inputP, this`out, this`numIn
      ensures (View(), more) == WriteSlot(old(View()), id)
    {
      hide WriteDigit;
      if curr < blanks && (desc.zeroStart > curr || !desc.zero) {
        if !desc.fillmode { out := out + [' ']; }
      } else if desc.zero && curr < blanks && desc.zeroStart <= curr {
        out := out + ['0'];
        numIn := true;
      } else if inputP < |input| && input[inputP] == '.' {
        if !AtDot() || desc.fillmode { out := out + ['.']; }
        inputP := inputP + 1;
      } else {
        more := PutDigit(id);
        return;
      }
      return true;
    }

    method PutDigit(id: Node) returns (more: bool)
      modifies this`inputP, this`out, this`numIn
      ensures (View(), more) == WriteDigit(old(View()), id)
    {
      if last.Some? && inputP > last.value && id != N0 {
      } else if IsPredecSpace() {
        if !desc.fillmode { out := out + [' ']; } else if AtDot() { out := out + ['0']; }
      } else if inputP < |input| {
        out := out + [input[inputP]];
        numIn := true;
      } else {
        return false;
      }
      if inputP < |input| { inputP := inputP + 1; }
      return true;
    }

    /** The node loop. */
    method Run()
      modifies this`inputP, this`out, this`curr, this`numIn, this`signWrote
      ensures View() == VisitAll(old(View()), desc.nodes)
    {
      hide NumpartOf, VisitAll, PadLeft, Lower, Ordinal;
      var k: nat := 0;
      assert desc.nodes[0..] == desc.nodes;
      while k < |desc.nodes|
        invariant k <= |desc.nodes|
        invariant VisitAll(View(), desc.nodes[k..]) == VisitAll(old(View()), desc.nodes)
      {
        var n := desc.nodes[k];
        VisitStep(View(), desc.nodes, k);
        var more := Put(n);
        if !more { return; }
        k := k + 1;
      }
      VisitDone(View());
      assert desc.nodes[k..] == [];
    }

    method Put(n: Node) returns (more: bool)
      modifies this`inputP, this`out, this`curr, this`numIn, this`signWrote
      ensures (View(), more) == Visit(old(View()), n)
    {
      hide NumpartOf, PadLeft, Lower, Ordinal;
      more := true;
      if n == N9 || n == N0 || n == Dec {
        more := Numpart(n);
      } else if n == Comma || n == G {
        if !numIn {
          if !desc.fillmode { out := out + [' ']; }
        } else {
          out := out + [','];
        }
      } else if n == L || n == C {
        out := out + [' '];
      } else if n.Roman? {
        var s := if n.lower then Lower(input) else input;
        out := out + if desc.fillmode then s else PadLeft(s, 15);
      } else if n.Th? {
        if !(desc.roman || (input != [] && input[0] == '#') || neg || desc.decimal) {
          out := out + Ordinal(input, !n.lower);
        }
      } else if n == MI {
        if neg { out := out + ['-']; } else if !desc.fillmode { out := out + [' ']; }
      } else if n == PL {
        if !neg { out := out + ['+']; } else if !desc.fillmode { out := out + [' ']; }
      } else if n == SG {
        out := out + [if neg then '-' else '+'];
      } else if n.Lit? {
        out := out + [n.c];
      }
    }
  }

  lemma VisitDone(w: Writer)
    ensures VisitAll(w, []) == w
  {
  }

  lemma VisitStep(w: Writer, nodes: seq<Node>, k: nat)
    requires k < |nodes|
    ensures var (w1, more) := Visit(w, nodes[k]);
      VisitAll(w, nodes[k..]) == if more then VisitAll(w1, nodes[k + 1..]) else w1
  {
    hide Visit;
    assert nodes[k..][0] == nodes[k] && nodes[k..][1..] == nodes[k + 1..];
  }

  // ----- scientific notation -----

  /** The decimal exponent of v * 10^-f. */
  function Exponent(v: nat, f: nat): int {
    if v == 0 then 0 else |Digits(v)| - 1 - f
  }

  /** v scaled to one digit before the point and rounded to `post` places, in units of 10^-post. */
  function Significand(v: nat, post: nat): nat {
    RoundHalfUp(v, |Digits(v)| - 1, post)
  }

  function ExponentText(e: int): string {
    var size: nat := if e < 0 then -e else e;
    [if e < 0 then '-' else '+'] + (if |Digits(size)| < 2 then "0" + Digits(size) else Digits(size))
  }

  /** `numeric_out_sci` behind the sign. A significand that rounds up to ten keeps its exponent. */
  function SciText(v: nat, f: nat, post: nat): string {
    Numeral(Significand(v, post), post) + ("e" + ExponentText(Exponent(v, f)))
  }

  /** The significand of a number that is not zero is between one and ten, and the number has the
      decimal exponent printed. */
  lemma SciSignificand(v: nat, post: nat)
    requires v > 0
    ensures var k := |Digits(v)|; Pow10(k - 1) <= v < Pow10(k)
    ensures Pow10(post) <= Significand(v, post) <= Pow10(post + 1)
  {
    hide Digits, Pow10, Value, RoundHalfUp, DividedBy;
    var k := |Digits(v)|;
    DigitsFit(v, k);
    if k > 1 { DigitsFit(v, k - 1); } else { ValueNothing(); }
    PowStep(post);
    if k - 1 <= post {
      NoCut(v, k - 1, post);
      PowSum(k - 1, post - (k - 1));
      PowSum(k, post - (k - 1));
      MulLess(Pow10(k - 1), v, Pow10(post - (k - 1)));
      MulLess(v, Pow10(k), Pow10(post - (k - 1)));
    } else {
      RoundNearest(v, k - 1, post);
      var p, r := Pow10(k - 1 - post), RoundHalfUp(v, k - 1, post);
      PowSum(post, k - 1 - post);
      PowSum(post + 1, k - 1 - post);
      SciBounds(v, r, p, Pow10(post), Pow10(post + 1));
    }
  }

  lemma SciBounds(v: nat, r: nat, p: nat, lo: nat, hi: nat)
    requires p > 0 && lo * p <= v < hi * p && 2 * (v - r * p) < p && 2 * (r * p - v) <= p
    ensures lo <= r <= hi
  {
    if r < lo { MulLess(r + 1, lo, p); }
    if r > hi { MulLess(hi + 1, r, p); }
  }

  /** The first place that is not a zero. */
  method FirstSignificant(all: string) returns (f: nat)
    ensures f <= |all| && (forall i | 0 <= i < f :: all[i] == '0') && (f < |all| ==> all[f] != '0')
  {
    f := 0;
    while f < |all| && all[f] == '0'
      invariant f <= |all| && forall i | 0 <= i < f :: all[i] == '0'
    {
      f := f + 1;
    }
  }

  method PadSignificand(sig0: string, post: nat) returns (sig: string)
    requires AllDigits(sig0)
    ensures AllDigits(sig) && |sig| == if |sig0| < 1 + post then 1 + post else |sig0|
    ensures sig0 <= sig && Value(sig) == Value(sig0) * Pow10(|sig| - |sig0|)
  {
    hide Value, Pow10;
    sig := sig0;
    ValueNothing();
    while |sig| < 1 + post
      invariant AllDigits(sig) && sig0 <= sig && (|sig| <= 1 + post || sig == sig0)
      invariant Value(sig) == Value(sig0) * Pow10(|sig| - |sig0|)
    {
      ValueSnoc(sig, '0');
      PowStep(|sig| - |sig0|);
      Regroup(10, Value(sig0), Pow10(|sig| - |sig0|));
      sig := sig + "0";
    }
  }

  /** The rounding loop on the significant digits; it may leave one digit more. */
  method RoundSignificand(digits: string, post: nat) returns (sig: string, overflow: bool)
    requires AllDigits(digits) && digits != [] && digits[0] != '0'
    ensures AllDigits(sig) && |sig| == 1 + post + (if overflow then 1 else 0) && sig[0] != '0'
    ensures Value(sig) == RoundHalfUp(Value(digits), |digits| - 1, post)
  {
    hide Value, Pow10, RoundHalfUp;
    overflow := false;
    if |digits| > 1 + post {
      var kept, cut := digits[..1 + post], digits[1 + post..];
      assert kept + cut == digits;
      RoundCut(kept, cut, post);
      sig := kept;
      if digits[1 + post] >= '5' {
        var carry;
        sig, carry := AddOne(kept);
        if carry {
          LeadingOne(sig);
          sig := "1" + sig;
          overflow := true;
        } else {
          FirstStays(kept, sig);
        }
      }
    } else {
      sig := PadSignificand(digits, post);
      assert sig[0] == digits[0];
      NoCut(Value(digits), |digits| - 1, post);
    }
  }

  lemma FirstStays(a: string, b: string)
    requires AllDigits(a) && AllDigits(b) && |a| == |b| > 0 && a[0] != '0' && Value(b) == Value(a) + 1
    ensures b[0] != '0'
  {
    hide Value, Pow10;
    ValuePositive(a);
    if b[0] == '0' {
      TrimZeros(b, 1);
      ValueBelow(b[1..]);
    }
  }

  lemma ZeroDigits(all: string, post: nat)
    requires AllDigits(all) && forall i | 0 <= i < |all| :: all[i] == '0'
    ensures Value(all) == 0 && Value("0") == 0 && Digits(0) == "0" && Significand(0, post) == 0
  {
    TrimZeros(all, |all|);
    ValueNothing();
    ValueOne('0');
    assert all[|all|..] == "" && Digits(0) == "0";
  }

  lemma SignificantDigits(all: string, f: nat)
    requires AllDigits(all) && f < |all| && (forall i | 0 <= i < f :: all[i] == '0') && all[f] != '0'
    ensures Value(all[f..]) == Value(all) && all[f..] == Digits(Value(all)) && Value(all) > 0
  {
    hide Value, Digits, Pow10;
    TrimZeros(all, f);
    DigitsUnique(all[f..]);
    ValuePositive(all[f..]);
  }

  /** The places before and after the point. */
  lemma SciNumeral(i: string, f: string)
    requires AllDigits(i) && AllDigits(f) && i != [] && (|i| > 1 ==> i[0] != '0')
    ensures Numeral(Value(i + f), |f|) == i + (if |f| > 0 then "." + f else "")
  {
    hide Value, Digits, Pow10, DividedBy, Remainder, Padded;
    NumeralOf(i, f);
    DigitsUnique(i);
  }

  lemma SciNoSign(v: nat, f: nat, post: nat)
    ensures var s := SciText(v, f, post); s != [] && s[0] != '-'
  {
    hide Digits, Pow10, DividedBy, Remainder, Significand, Exponent, Padded;
    var d := Digits(DividedBy(Significand(v, post), Pow10(post)));
    assert IsDigit(d[0]) && Numeral(Significand(v, post), post)[0] == d[0];
  }

  lemma Together(sign: string, i: string, f: string, e: string)
    ensures sign + i + f + e == sign + ((i + f) + e)
  {
  }

  method NumericOutSci(n: Numeric, post: nat) returns (s: string)
    ensures s == (if n.unscaled < 0 then "-" else "") + SciText(Magnitude(n), Places(n), post)
  {
    hide Value, Digits, Pow10, RoundHalfUp, Numeral, ExponentText, Magnitude;
    var neg, intD, fracD := NumericDigits(n);
    var all := intD + fracD;
    var first := FirstSignificant(all);
    var sig, exp, overflow := "0", 0, false;
    if first == |all| {
      ZeroDigits(all, post);
      sig := PadSignificand(sig, post);
    } else {
      SignificantDigits(all, first);
      exp := |intD| - 1 - first;
      sig, overflow := RoundSignificand(all[first..], post);
    }
    var lead := if overflow then 2 else 1;
    var point := if post > 0 then "." + sig[lead..] else "";
    var e := WriteExponent(exp);
    assert sig == sig[..lead] + sig[lead..];
    SciNumeral(sig[..lead], sig[lead..]);
    var sign := if neg then "-" else "";
    s := sign + sig[..lead] + point + ("e" + e);
    Together(sign, sig[..lead], point, "e" + e);
  }

  method WriteExponent(exp: int) returns (e: string)
    ensures e == ExponentText(exp)
  {
    hide Digits;
    var size: nat := if exp < 0 then -exp else exp;
    e := [if exp < 0 then '-' else '+'];
    var digits := Digits(size);
    if |digits| < 2 { digits := "0" + digits; }
    e := e + digits;
  }

  // ----- the whole of to_char -----

  function RomanOrHashes(v: int): string {
    if 1 <= v <= 3999 then Numerals.RomanText(v) else Hashes(15)
  }

  function Signed(neg: bool, n: nat): int {
    var m: int := n;
    if neg then -m else m
  }

  /** What `to_char` prints, from the rounded number. */
  function ToCharText(n: Numeric, fmt: Picture): string {
    var v, f, neg := Magnitude(n), Places(n), n.unscaled < 0;
    if fmt.roman then Processed(fmt, RomanOrHashes(Signed(neg, RoundHalfUp(v, f, 0))), false, 0)
    else if fmt.eeee then [if neg then '-' else ' '] + SciText(v, f, fmt.post)
    else
      var d := fmt.(pre := fmt.pre + fmt.multi);
      var r := Rounded(v, f, fmt.multi, fmt.post);
      var k := |Digits(DividedBy(r, Pow10(fmt.post)))|;
      if k > d.pre then Processed(d, OverflowFill(d.pre, d.post), neg, 0)
      else Processed(d, Numeral(r, d.post), neg, d.pre - k)
  }

  method NumericToChar(n: Numeric, fmt: Picture) returns (text: string)
    ensures text == ToCharText(n, fmt)
  {
    hide Value, Pow10, Numeral, RoundHalfUp, Digits, Prologue, VisitAll, SciText, Magnitude, Rounded;
    var neg, intD, fracD := NumericDigits(n);
    if fmt.roman {
      var ri, rf := RoundDigits(intD, fracD, 0);
      assert ri + rf == ri;
      var v: int := Value(ri);
      if neg { v := -v; }
      v := if v > I32_MAX then I32_MAX else if v < -I32_MAX - 1 then -I32_MAX - 1 else v;
      var roman := Numerals.IntToRoman(v);
      assert roman == RomanOrHashes(v);
      text := RunProcessor(fmt, roman, false, 0);
      return;
    }
    if fmt.eeee {
      var sci := NumericOutSci(n, fmt.post);
      ghost var plain := SciText(Magnitude(n), Places(n), fmt.post);
      SciNoSign(Magnitude(n), Places(n), fmt.post);
      assert "" + plain == plain && (plain[0] != '-' ==> !("-" <= plain));
      if !("-" <= sci) { sci := " " + sci; }
      text := RunProcessor(fmt, sci, false, 0);
      return;
    }
    var d, numstr, layout := PreparePlain(fmt, intD, fracD);
    if layout.None? {
      text := RunProcessor(d, OverflowFill(d.pre, d.post), neg, 0);
    } else {
      text := RunProcessor(d, numstr, neg, layout.value);
    }
  }

  method RunProcessor(d: Picture, input: string, neg: bool, blanks: nat) returns (text: string)
    ensures text == Processed(d, input, neg, blanks)
  {
    hide VisitAll;
    if d.eeee { return input; }
    var tc := new ToChar(d, input, neg, blanks);
    tc.Run();
    text := tc.out;
  }
}

/** Exponents: what EEEE prints, read as a standard decimal text, is the number rounded to the
    places of its significand. */
module NumScientific {
  import opened Integers
  import opened Text
  import opened Wrappers
  import opened Decimal
  import opened NumPicture
  import opened NumToChar
  import opened NumFromChar
  import opened NumRoundTrip

  /** Digits, and a point with more digits when there are any. */
  function Mantissa(i: string, f: string): string {
    i + (if f != "" then "." + f else "")
  }

  /** A number that a sign, digits and a power of ten stand for. */
  function Scaled(neg: bool, v: nat, places: int): Result<Numeric, ReadError> {
    if v > I128_MAX then Err(OutOfRange) else Ok(Normalized(Signed(neg, v), places))
  }

  lemma MantissaAt(neg: bool, i: string, f: string, exp: int)
    requires AllDigits(i) && AllDigits(f) && i + f != ""
    ensures ParseMantissa(neg, Mantissa(i, f), exp) == Scaled(neg, Value(i + f), |f| - exp)
  {
    hide Value, Normalized, FirstDot, AllDigits;
    PointAt(i, f);
  }

  /** A sign and digits of a 32-bit exponent. */
  lemma ExponentAt(x: string, e: int)
    requires |x| > 1 && (x[0] == '+' || x[0] == '-') && AllDigits(x[1..]) && e == Signed(x[0] == '-', Value(x[1..]))
    requires I32_MIN <= e <= I32_MAX
    ensures ParseI32(x) == Some(e)
  {
    hide Value;
  }

  lemma {:induction false} MarkAt(t: string, x: string)
    requires 'e' !in t && 'E' !in t
    ensures FirstMark(t + ("e" + x)) == |t|
    decreases |t|
  {
    if t == "" {
      assert t + ("e" + x) == "e" + x;
    } else {
      assert (t + ("e" + x))[1..] == t[1..] + ("e" + x);
      assert forall c | c in t[1..] :: c in t;
      MarkAt(t[1..], x);
    }
  }

  lemma MantissaChars(i: string, f: string)
    requires AllDigits(i) && AllDigits(f) && i != ""
    ensures var t := Mantissa(i, f); t != "" && IsDigit(t[0]) && 'e' !in t && 'E' !in t
  {
  }

  /** Digits, a point, more digits and an exponent stand for the digits times a power of ten. */
  lemma ExponentReads(neg: bool, i: string, f: string, x: string, e: int)
    requires AllDigits(i) && AllDigits(f) && i != ""
    requires |x| > 1 && (x[0] == '+' || x[0] == '-') && AllDigits(x[1..]) && e == Signed(x[0] == '-', Value(x[1..]))
    requires I32_MIN <= e <= I32_MAX
    ensures ParseStd([if neg then '-' else ' '] + (Mantissa(i, f) + ("e" + x))) == Scaled(neg, Value(i + f), |f| - e)
  {
    hide Value, AllDigits, ParseMantissa, ParseStd, ParseI32, Mantissa, Scaled;
    MantissaChars(i, f);
    ExponentAt(x, e);
    MantissaAt(neg, i, f, e);
    LastOf(x);
    SplitsAtMark(neg, Mantissa(i, f), x, e);
  }

  lemma SplitsAtMark(neg: bool, t: string, x: string, e: int)
    requires t != "" && IsDigit(t[0]) && 'e' !in t && 'E' !in t && x != "" && IsDigit(x[|x| - 1]) && ParseI32(x) == Some(e)
    ensures ParseStd([if neg then '-' else ' '] + (t + ("e" + x))) == ParseMantissa(neg, t, e)
  {
    hide FirstMark, Trim, ParseMantissa, ParseI32;
    var s := t + ("e" + x);
    MarkAt(t, x);
    assert s[..|t|] == t && s[|t| + 1..] == x && s[0] == t[0];
    assert s[|s| - 1] == x[|x| - 1];
    Trimmed(neg, s);
    if neg { assert (['-'] + s)[1..] == s; }
  }

  lemma LastOf(x: string)
    requires |x| > 1 && AllDigits(x[1..])
    ensures IsDigit(x[|x| - 1])
  {
    assert x[|x| - 1] == x[1..][|x| - 2];
  }

  lemma Trimmed(neg: bool, s: string)
    requires s != "" && IsDigit(s[0]) && IsDigit(s[|s| - 1])
    ensures Trim([if neg then '-' else ' '] + s) == if neg then ['-'] + s else s
  {
    var t := [if neg then '-' else ' '] + s;
    assert t[|t| - 1] == s[|s| - 1] && t[1..] == s;
    if neg { TrimNothing(t); } else { TrimNothing(s); }
  }

  lemma ExponentTextIs(e: int)
    ensures var x := ExponentText(e);
      |x| > 1 && (x[0] == '+' || x[0] == '-') && AllDigits(x[1..]) && e == Signed(x[0] == '-', Value(x[1..]))
  {
    hide Value, Digits;
    var size: nat := if e < 0 then -e else e;
    ValueDigits(size);
    var d := if |Digits(size)| < 2 then "0" + Digits(size) else Digits(size);
    assert ExponentText(e)[1..] == d;
    if |Digits(size)| < 2 {
      TrimZeros(d, 1);
      assert d[1..] == Digits(size);
    }
  }

  /** With EEEE the printed text stands for the number rounded to one digit before the point and
      the places of the picture, with its sign, at the number's own exponent. */
  lemma ScientificReadsBack(n: Numeric, d: Picture)
    requires d.eeee && !d.roman && I32_MIN <= Exponent(Magnitude(n), Places(n)) <= I32_MAX
    ensures var v := Magnitude(n);
      ParseStd(ToCharText(n, d)) ==
        Scaled(n.unscaled < 0, Significand(v, d.post), d.post - Exponent(v, Places(n)))
  {
    hide Digits, Value, Pow10, DividedBy, Remainder, Padded, Significand, Exponent, Magnitude, ParseStd, Scaled, ExponentText, Places;
    var v, f, neg := Magnitude(n), Places(n), n.unscaled < 0;
    var r, e := Significand(v, d.post), Exponent(v, f);
    ValueParts(r, d.post);
    var i, p := Digits(DividedBy(r, Pow10(d.post))), Padded(Remainder(r, Pow10(d.post)), d.post);
    ExponentTextIs(e);
    ExponentReads(neg, i, p, ExponentText(e), e);
    assert Numeral(r, d.post) == Mantissa(i, p);
    assert ToCharText(n, d) == [if neg then '-' else ' '] + SciText(v, f, d.post);
  }

  // ----- the V shift -----

  lemma Cancel(a: nat, p: nat, m: nat)
    requires p > 0 && m > 0
    ensures p * m > 0 && DividedBy(a * m, p * m) == DividedBy(a, p)
  {
    var q, r := a / p, a % p;
    assert a == q * p + r;
    assert a * m == q * (p * m) + r * m;
    MulLess(r + 1, p, m);
    assert r * m < p * m;
    Quotient(q, p * m, r * m);
    Quotient(q, p, r);
  }

  /** Enough places: rounding a shifted number is shifting alone. */
  lemma Shifts(v: nat, f: nat, multi: nat, post: nat)
    requires multi + post >= f
    ensures RoundHalfUp(v * Pow10(multi), f, post) == v * Pow10(multi + post - f)
    ensures Rounded(v, f, multi, post) == v * Pow10(multi + post - f)
  {
    hide Pow10, DividedBy;
    if f <= post {
      PowSum(multi, post - f);
      Times(v, Pow10(multi), Pow10(post - f));
    } else {
      var k := f - post;
      PowSum(multi - k, k);
      Times(v, Pow10(multi - k), Pow10(k));
      PowStep(k - 1);
      Quotient(v * Pow10(multi - k), Pow10(k), 5 * Pow10(k - 1));
    }
    if multi > f {
      PowSum(multi - f, post);
      Times(v, Pow10(multi - f), Pow10(post));
    }
  }

  lemma Times(v: nat, a: nat, b: nat)
    ensures v * a * b == v * (a * b)
  {
  }

  lemma Spread(v: nat, w: nat, p: nat)
    ensures (v + 5 * w) * p == v * p + 5 * (w * p)
  {
  }

  /** V multiplies by a power of ten before rounding. */
  lemma ShiftMultiplies(v: nat, f: nat, multi: nat, post: nat)
    ensures Rounded(v, f, multi, post) == RoundHalfUp(v * Pow10(multi), f, post)
  {
    hide Pow10, DividedBy;
    if multi + post >= f {
      Shifts(v, f, multi, post);
    } else {
      var g := f - multi - post;
      PowSum(g, multi);
      PowSum(g - 1, multi);
      Cancel(v + 5 * Pow10(g - 1), Pow10(g), Pow10(multi));
      Spread(v, Pow10(g - 1), Pow10(multi));
    }
  }
}

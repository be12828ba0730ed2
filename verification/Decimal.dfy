/** Decimal digit strings: values, canonical digits, adding one with carry, rounding. */
module Decimal {
  predicate IsDigit(c: char) {
    '0' <= c <= '9'
  }

  predicate AllDigits(s: string) {
    forall i :: 0 <= i < |s| ==> IsDigit(s[i])
  }

  function DigitValue(c: char): (d: nat)
    requires IsDigit(c)
    ensures d < 10
  {
    c as int - '0' as int
  }

  function DigitChar(d: nat): (c: char)
    requires d < 10
    ensures IsDigit(c) && DigitValue(c) == d
  {
    '0' + d as char
  }

  function Pow10(n: nat): (p: nat)
    ensures p >= 1
  {
    if n == 0 then 1 else 10 * Pow10(n - 1)
  }

  /** The number a digit string stands for. */
  function Value(s: string): nat
    requires AllDigits(s)
    decreases |s|
  {
    if s == [] then 0 else 10 * Value(s[..|s| - 1]) + DigitValue(s[|s| - 1])
  }

  /** The digits of n, without leading zeros: `to_string`. */
  function Digits(n: nat): (s: string)
    ensures s != [] && AllDigits(s)
  {
    if n < 10 then [DigitChar(n)] else Digits(n / 10) + [DigitChar(n % 10)]
  }

  function Zeros(n: nat): (s: string)
    ensures |s| == n && AllDigits(s)
  {
    seq(n, _ => '0')
  }

  /** The n lowest digits of v. */
  function Padded(v: nat, n: nat): (s: string)
    ensures |s| == n && AllDigits(s)
  {
    if n == 0 then "" else Padded(v / 10, n - 1) + [DigitChar(v % 10)]
  }

  // ----- values -----

  lemma ValueSnoc(s: string, c: char)
    requires AllDigits(s) && IsDigit(c)
    ensures Value(s + [c]) == 10 * Value(s) + DigitValue(c)
  {
    assert (s + [c])[..|s|] == s;
  }

  lemma PowSum(a: nat, b: nat)
    ensures Pow10(a + b) == Pow10(a) * Pow10(b)
    decreases b
  {
    if b > 0 {
      PowSum(a, b - 1);
      assert Pow10(a + b) == 10 * (Pow10(a) * Pow10(b - 1));
      Regroup(10, Pow10(a), Pow10(b - 1));
    }
  }

  lemma Regroup(k: int, x: int, y: int)
    ensures k * (x * y) == x * (k * y)
  {
  }

  lemma {:induction false} ValueAppend(s: string, t: string)
    requires AllDigits(s) && AllDigits(t)
    ensures Value(s + t) == Value(s) * Pow10(|t|) + Value(t)
    decreases |t|
  {
    hide Value, Pow10;
    if t == [] {
      assert s + t == s;
      ValueNothing();
    } else {
      var u, c := t[..|t| - 1], t[|t| - 1];
      assert t == u + [c] && s + t == (s + u) + [c];
      ValueAppend(s, u);
      ValueSnoc(s + u, c);
      ValueSnoc(u, c);
      PowStep(|u|);
      Regroup(10, Value(s), Pow10(|u|));
    }
  }

  lemma PowStep(n: nat)
    ensures Pow10(n + 1) == 10 * Pow10(n)
  {
  }

  lemma ValueNothing()
    ensures Value("") == 0 && Pow10(0) == 1
  {
  }

  lemma ValueOne(c: char)
    requires IsDigit(c)
    ensures Value([c]) == DigitValue(c)
  {
    ValueSnoc("", c);
    assert "" + [c] == [c];
  }

  lemma {:induction false} ValueBelow(s: string)
    requires AllDigits(s)
    ensures Value(s) < Pow10(|s|)
    decreases |s|
  {
    if s != [] {
      ValueBelow(s[..|s| - 1]);
      PowStep(|s| - 1);
    }
  }

  lemma {:induction false} ValueZeros(n: nat)
    ensures Value(Zeros(n)) == 0
  {
    if n > 0 {
      ValueZeros(n - 1);
      assert Zeros(n)[..n - 1] == Zeros(n - 1);
    }
  }

  lemma {:induction false} ValueDigits(n: nat)
    ensures Value(Digits(n)) == n
  {
    if n < 10 {
      ValueOne(DigitChar(n));
    } else {
      ValueDigits(n / 10);
      ValueSnoc(Digits(n / 10), DigitChar(n % 10));
    }
  }

  lemma {:induction false} ValuePadded(v: nat, n: nat)
    requires v < Pow10(n)
    ensures Value(Padded(v, n)) == v
  {
    if n > 0 {
      PowStep(n - 1);
      assert v / 10 < Pow10(n - 1);
      ValuePadded(v / 10, n - 1);
      ValueSnoc(Padded(v / 10, n - 1), DigitChar(v % 10));
    }
  }

  lemma {:induction false} PaddedUnique(s: string)
    requires AllDigits(s)
    ensures s == Padded(Value(s), |s|)
    decreases |s|
  {
    if s != [] {
      var u, c := s[..|s| - 1], s[|s| - 1];
      PaddedUnique(u);
      assert s == u + [c];
      assert Value(s) / 10 == Value(u) && Value(s) % 10 == DigitValue(c);
      assert DigitChar(DigitValue(c)) == c;
    }
  }

  /** A digit string without a leading zero is the canonical one. */
  lemma {:induction false} DigitsUnique(s: string)
    requires AllDigits(s) && s != [] && (s[0] == '0' ==> |s| == 1)
    ensures s == Digits(Value(s))
    decreases |s|
  {
    var u, c := s[..|s| - 1], s[|s| - 1];
    assert s == u + [c];
    assert DigitChar(DigitValue(c)) == c;
    if u == [] {
      ValueOne(c);
    } else {
      DigitsUnique(u);
      ValuePositive(u);
      assert Value(s) / 10 == Value(u) && Value(s) % 10 == DigitValue(c);
    }
  }

  lemma {:induction false} ValuePositive(s: string)
    requires AllDigits(s) && s != [] && s[0] != '0'
    ensures Value(s) >= Pow10(|s| - 1)
    decreases |s|
  {
    if |s| == 1 {
      assert s == [s[0]];
      ValueOne(s[0]);
    } else {
      ValuePositive(s[..|s| - 1]);
      PowStep(|s| - 2);
    }
  }

  /** n has at most p digits exactly when it is below 10^p. */
  lemma {:induction false} DigitsFit(n: nat, p: nat)
    requires p >= 1
    ensures |Digits(n)| <= p <==> n < Pow10(p)
    decreases p
  {
    PowStep(p - 1);
    if n >= 10 && p > 1 {
      DigitsFit(n / 10, p - 1);
    } else if p == 1 {
      ValueNothing();
    } else {
      PowStep(p - 2);
    }
  }

  lemma {:induction false} TrimZeros(s: string, k: nat)
    requires AllDigits(s) && k <= |s| && forall i :: 0 <= i < k ==> s[i] == '0'
    ensures Value(s[k..]) == Value(s)
  {
    ValueZeros(k);
    assert Zeros(k) + s[k..] == s;
    ValueAppend(Zeros(k), s[k..]);
  }

  // ----- adding one -----

  lemma {:induction false} ValueUpdate(s: string, i: nat, c: char)
    requires AllDigits(s) && i < |s| && IsDigit(c)
    ensures Value(s[i := c]) == Value(s) + (DigitValue(c) - DigitValue(s[i])) * Pow10(|s| - 1 - i)
    decreases |s|
  {
    hide Value, Pow10;
    var u, d := s[..|s| - 1], s[|s| - 1];
    assert s == u + [d];
    ValueSnoc(u, d);
    if i == |s| - 1 {
      assert s[i := c] == u + [c];
      ValueSnoc(u, c);
      ValueNothing();
    } else {
      assert s[i := c] == u[i := c] + [d];
      ValueUpdate(u, i, c);
      ValueSnoc(u[i := c], d);
      PowStep(|s| - 2 - i);
      Regroup(10, DigitValue(c) - DigitValue(s[i]), Pow10(|s| - 2 - i));
    }
  }

  /** The carry loop: nines become zeros until a digit takes the one. */
  method AddOne(s: string) returns (r: string, carry: bool)
    requires AllDigits(s)
    ensures |r| == |s| && AllDigits(r)
    ensures Value(r) + (if carry then Pow10(|s|) else 0) == Value(s) + 1
  {
    hide Value, Pow10;
    r := s;
    var i := |s|;
    ValueNothing();
    while true
      invariant 0 <= i <= |s| == |r| && AllDigits(r)
      invariant Value(r) + Pow10(|s| - i) == Value(s) + 1
      decreases i
    {
      if i == 0 { return r, true; }
      i := i - 1;
      PowStep(|s| - 1 - i);
      if r[i] == '9' {
        ValueUpdate(r, i, '0');
        r := r[i := '0'];
      } else {
        ghost var c := r[i];
        NextDigit(c);
        ValueUpdate(r, i, (r[i] as int + 1) as char);
        r := r[i := (r[i] as int + 1) as char];
        return r, false;
      }
    }
  }

  lemma NextDigit(c: char)
    requires IsDigit(c) && c != '9'
    ensures IsDigit((c as int + 1) as char) && DigitValue((c as int + 1) as char) == DigitValue(c) + 1
  {
  }

  // ----- rounding -----

  /** v * 10^-f rounded to q places, halves away from zero, in units of 10^-q. */
  function RoundHalfUp(v: nat, f: nat, q: nat): nat {
    if f <= q then v * Pow10(q - f) else DividedBy(v + 5 * Pow10(f - q - 1), Pow10(f - q))
  }

  function DividedBy(n: nat, p: nat): nat
    requires p >= 1
  {
    n / p
  }

  function Remainder(n: nat, p: nat): (r: nat)
    requires p >= 1
    ensures r < p
  {
    n % p
  }

  lemma Quotient(a: nat, p: nat, b: nat)
    requires b < p
    ensures DividedBy(a * p + b, p) == a
  {
    var q := (a * p + b) / p;
    assert q * p <= a * p + b < q * p + p;
    if q < a { MulLess(q + 1, a, p); }
    if q > a { MulLess(a + 1, q, p); }
  }

  lemma MulLess(a: nat, b: nat, p: nat)
    requires a <= b
    ensures a * p <= b * p
  {
  }

  /** Cutting off the places after the q-th: the first one dropped decides. */
  lemma RoundCut(head: string, tail: string, q: nat)
    requires AllDigits(head) && AllDigits(tail) && tail != []
    ensures RoundHalfUp(Value(head + tail), |tail| + q, q) == Value(head) + (if tail[0] >= '5' then 1 else 0)
  {
    hide Value, Pow10, DividedBy;
    var k := |tail|;
    var h, p, rest := Value(head), Pow10(k), tail[1..];
    ValueAppend(head, tail);
    assert tail == [tail[0]] + rest;
    ValueAppend([tail[0]], rest);
    ValueOne(tail[0]);
    ValueBelow(rest);
    PowStep(k - 1);
    FirstDrops(DigitValue(tail[0]), Pow10(k - 1), Value(rest));
    RoundQuotient(h, p, Value(tail) + 5 * Pow10(k - 1));
  }

  lemma RoundQuotient(h: nat, p: nat, b: nat)
    requires b < 2 * p
    ensures DividedBy(h * p + b, p) == if b >= p then h + 1 else h
  {
    hide DividedBy;
    if b >= p {
      OneMore(h, p);
      Quotient(h + 1, p, b - p);
    } else {
      Quotient(h, p, b);
    }
  }

  lemma OneMore(h: nat, p: nat)
    ensures (h + 1) * p == h * p + p
  {
  }

  lemma FirstDrops(d: nat, p: nat, rest: nat)
    requires d < 10 && rest < p
    ensures d >= 5 ==> 10 * p <= d * p + rest + 5 * p < 20 * p
    ensures d < 5 ==> d * p + rest + 5 * p < 10 * p
  {
    if d >= 5 {
      MulLess(5, d, p);
      MulLess(d, 9, p);
    } else {
      MulLess(d, 4, p);
    }
  }

  /** The rounded value is the nearest one; on a tie, the larger. */
  lemma RoundNearest(v: nat, f: nat, q: nat)
    requires q < f
    ensures var p, r := Pow10(f - q), RoundHalfUp(v, f, q);
      2 * (v - r * p) < p && 2 * (r * p - v) <= p
  {
    hide Pow10, DividedBy;
    PowStep(f - q - 1);
    var p, h := Pow10(f - q), 5 * Pow10(f - q - 1);
    DivisionEnds(v + h, p);
  }

  lemma DivisionEnds(n: nat, p: nat)
    requires p >= 1
    ensures DividedBy(n, p) * p <= n < DividedBy(n, p) * p + p
  {
  }
}

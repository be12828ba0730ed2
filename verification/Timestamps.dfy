/** Microsecond timestamps since 1970-01-01 00:00:00 and their sentinels (src/datetime.rs). */
module Timestamps {
  import opened Integers
  import opened Calendar

  const PER_DAY := 86_400_000_000
  const PER_HOUR := 3_600_000_000

  const TS_INFINITY := I64_MAX
  const TS_NEG_INFINITY := I64_MIN

  /** A finite timestamp in range: from 4714-11-24 BC up to the infinity sentinel. */
  predicate ValidTs(t: int) {
    DATE_MIN * PER_DAY <= t < I64_MAX
  }

  predicate Finite(t: int) {
    t != TS_INFINITY && t != TS_NEG_INFINITY
  }

  /** Remainder with the sign of the dividend. */
  function TruncMod(a: int, b: int): int
    requires b > 0
  {
    a - b * TruncDiv(a, b)
  }

  datatype DayTime = DayTime(days: int, tod: int)

  function SplitMicros(t: int): DayTime {
    var days, tod := TruncDiv(t, PER_DAY), TruncMod(t, PER_DAY);
    if tod < 0 then DayTime(days - 1, tod + PER_DAY) else DayTime(days, tod)
  }

  lemma SplitIsFloor(t: int)
    ensures var s := SplitMicros(t);
      0 <= s.tod < PER_DAY && t == s.days * PER_DAY + s.tod && s.days == t / PER_DAY
  {
  }

  lemma SplitUnique(t: int, days: int, tod: int)
    requires 0 <= tod < PER_DAY && t == days * PER_DAY + tod
    ensures SplitMicros(t) == DayTime(days, tod)
  {
    SplitIsFloor(t);
  }

  lemma SplitOrder(a: int, b: int)
    ensures var x, y := SplitMicros(a), SplitMicros(b);
      a < b <==> x.days < y.days || (x.days == y.days && x.tod < y.tod)
  {
    SplitIsFloor(a);
    SplitIsFloor(b);
  }

  /** Hours, minutes and seconds of a time of day, each computed with its own divisions. */
  lemma ClockFields(tod: int)
    requires 0 <= tod
    ensures var hh, mm, ss := tod / 3_600_000_000, (tod / 60_000_000) % 60, (tod / 1_000_000) % 60;
      && hh * 60 + mm == tod / 60_000_000 && (hh * 60 + mm) * 60 + ss == tod / 1_000_000
      && tod == ((hh * 60 + mm) * 60 + ss) * 1_000_000 + tod % 1_000_000
  {
    DivDiv(tod, 60_000_000, 60);
    DivDiv(tod, 1_000_000, 60);
  }

  lemma DivDiv(a: int, n: int, k: int)
    requires n > 0 && k > 0 && n * k > 0
    ensures a / n / k == a / (n * k)
  {
    var q := a / n;
    var p := q / k;
    assert a == n * q + a % n && q == k * p + q % k;
    assert n * q == n * k * p + n * (q % k);
    MulLe(n, q % k, k - 1);
    MulLe(n, 0, q % k);
    QuotientIs(a, n * k, p);
  }
}

/** Timestamp arithmetic: adding an interval, plain differences and `age` (src/datetime.rs). */
module Intervals {
  import opened Integers
  import opened Wrappers
  import opened Calendar
  import opened Timestamps

  datatype Interval = Interval(months: int, days: int, micros: int)

  const INTERVAL_INFINITY := Interval(I32_MAX, I32_MAX, I64_MAX)
  const INTERVAL_NEG_INFINITY := Interval(I32_MIN, I32_MIN, I64_MIN)

  function Negate(iv: Interval): Interval {
    Interval(-iv.months, -iv.days, -iv.micros)
  }

  const OUT_OF_RANGE := "timestamp out of range"
  const INTERVAL_RANGE := "interval out of range"

  predicate FitsI64(x: int) {
    I64_MIN <= x <= I64_MAX
  }

  predicate FitsI32(x: int) {
    I32_MIN <= x <= I32_MAX
  }

  /** 64-bit wrap-around. */
  function Wrap64(x: int): int {
    var r := x % 0x1_0000_0000_0000_0000;
    if r > I64_MAX then r - 0x1_0000_0000_0000_0000 else r
  }

  /** The same day n months later, clamped to the length of the month. */
  function AddMonths(c: Date, n: int): Date {
    var total := 12 * c.y + (c.m - 1) + n;
    var y, m := total / 12, total % 12 + 1;
    Date(y, m, if c.d < DaysInMonth(y, m) then c.d else DaysInMonth(y, m))
  }

  /** months first, then days, then time; `sign` is 1 or -1. */
  function AddInterval(ts: int, iv: Interval, sign: int): Result<int, string> {
    if !Finite(ts) then
      (if iv in {INTERVAL_INFINITY, INTERVAL_NEG_INFINITY} then Err(INTERVAL_RANGE) else Ok(ts))
    else if iv == INTERVAL_INFINITY then Ok(if sign > 0 then TS_INFINITY else TS_NEG_INFINITY)
    else if iv == INTERVAL_NEG_INFINITY then Ok(if sign > 0 then TS_NEG_INFINITY else TS_INFINITY)
    else AddFinite(ts, iv, sign)
  }

  function AddFinite(ts: int, iv: Interval, sign: int): Result<int, string> {
    var s := SplitMicros(ts);
    var c := AddMonths(CivilFromDays(s.days), iv.months * sign);
    if !FitsI32(c.y) then Err(OUT_OF_RANGE)
    else
      var base := (Days(c) + iv.days * sign) * PER_DAY;
      var micros := base + s.tod + Wrap64(iv.micros * sign);
      if !FitsI64(base) || !FitsI64(base + s.tod) || !FitsI64(micros) || !ValidTs(micros)
      then Err(OUT_OF_RANGE)
      else Ok(micros)
  }

  function TimestampDiff(ts1: int, ts2: int): Result<Interval, string> {
    if !Finite(ts1) || !Finite(ts2) then
      (if ts1 == ts2 then Err(INTERVAL_RANGE)
       else if ts1 == TS_INFINITY || ts2 == TS_NEG_INFINITY then Ok(INTERVAL_INFINITY)
       else Ok(INTERVAL_NEG_INFINITY))
    else
      var diff := ts1 - ts2;
      var days, micros := diff / PER_DAY, diff % PER_DAY;
      var iv := if diff < 0 && micros != 0 then Interval(0, days + 1, micros - PER_DAY) else Interval(0, days, micros);
      if FitsI32(iv.days) then Ok(iv) else Err(INTERVAL_RANGE)
  }

  // ----- differences -----

  lemma ValidTsParts(ts: int)
    requires ValidTs(ts)
    ensures var s := SplitMicros(ts);
      && ts == s.days * PER_DAY + s.tod && 0 <= s.tod < PER_DAY
      && DATE_MIN <= s.days <= 106_751_991
      && -4713 <= CivilFromDays(s.days).y <= 300_000
  {
    hide CivilFromDays, DaysFromCivil;
    var s := SplitMicros(ts);
    SplitIsFloor(ts);
    LateYear();
    FiniteDates(s.days);
    DaysOfCivil(s.days);
    DaysMonotone(Date(300_000, 12, 31), CivilFromDays(s.days));
  }

  lemma LateYear()
    ensures DaysFromCivil(300_000, 12, 31) > 106_751_991
    ensures DATE_MAX > 106_751_991
  {
  }

  lemma AddNoMonths(c: Date)
    requires ValidDate(c)
    ensures AddMonths(c, 0) == c
  {
    hide DaysInMonth;
    MonthIndexParts(c.y, c.m);
  }

  /** The difference of two timestamps, added to the second, gives the first; its fields
      have the sign of the difference and stay below a day. */
  lemma DiffAddsBack(ts1: int, ts2: int)
    requires ValidTs(ts1) && ValidTs(ts2)
    ensures var r := TimestampDiff(ts1, ts2);
      && r.Ok? && r.value.months == 0
      && r.value.days * PER_DAY + r.value.micros == ts1 - ts2
      && -PER_DAY < r.value.micros < PER_DAY
      && (ts1 >= ts2 ==> r.value.days >= 0 && r.value.micros >= 0)
      && (ts1 <= ts2 ==> r.value.days <= 0 && r.value.micros <= 0)
      && AddInterval(ts2, r.value, 1) == Ok(ts1)
  {
    hide CivilFromDays, SplitMicros, DaysFromCivil, AddMonths;
    ValidTsParts(ts1);
    ValidTsParts(ts2);
    var s := SplitMicros(ts2);
    DaysOfCivil(s.days);
    AddNoMonths(CivilFromDays(s.days));
  }

  // ----- adding and subtracting months -----

  lemma AddMonthsIndex(c: Date, n: int)
    requires ValidDate(c)
    ensures var c' := AddMonths(c, n);
      ValidDate(c') && MonthIndex(c') == MonthIndex(c) + n && c'.d <= c.d
  {
    hide DaysInMonth;
    var total := MonthIndex(c) + n;
    DaysInMonthPositive(total / 12, total % 12 + 1);
  }

  lemma DaysInMonthPositive(y: int, m: int)
    requires 1 <= m <= 12
    ensures 28 <= DaysInMonth(y, m) <= 31
  {
  }

  /** What is left of a date after n months forth and back: the day, clamped to the
      intermediate month. */
  lemma AddMonthsBack(c: Date, n: int)
    requires ValidDate(c)
    ensures var mid := AddMonths(c, n);
      AddMonths(mid, -n) == Date(c.y, c.m, if c.d < DaysInMonth(mid.y, mid.m) then c.d else DaysInMonth(mid.y, mid.m))
  {
    hide DaysInMonth;
    var mid := AddMonths(c, n);
    AddMonthsIndex(c, n);
    AddMonthsIndex(mid, -n);
    MonthIndexParts(c.y, c.m);
  }

  lemma AddFiniteMonths(ts: int, n: int, sign: int)
    requires ValidTs(ts) && sign in {1, -1}
    ensures var r := AddInterval(ts, Interval(n, 0, 0), sign);
      var s := SplitMicros(ts);
      r.Ok? ==>
        && r.value == Days(AddMonths(CivilFromDays(s.days), n * sign)) * PER_DAY + s.tod
        && ValidTs(r.value)
  {
    hide CivilFromDays, SplitMicros, DaysFromCivil, AddMonths;
    assert Wrap64(0 * sign) == 0;
  }

  /** Adding and then subtracting n months keeps month, year and time, and returns the day
      clamped to the intermediate month: at most three days are lost, none if it fits. */
  lemma MonthsRoundTrip(ts: int, n: int)
    requires ValidTs(ts)
    ensures var there := AddInterval(ts, Interval(n, 0, 0), 1);
      there.Ok? ==>
        var back := AddInterval(there.value, Interval(n, 0, 0), -1);
        back.Ok? ==>
          var c := CivilFromDays(SplitMicros(ts).days);
          var mid := AddMonths(c, n);
          var room := DaysInMonth(mid.y, mid.m);
          && SplitMicros(back.value).tod == SplitMicros(ts).tod
          && CivilFromDays(SplitMicros(back.value).days) == Date(c.y, c.m, if c.d < room then c.d else room)
          && 0 <= ts - back.value <= 3 * PER_DAY
          && (back.value == ts <==> c.d <= room)
  {
    hide CivilFromDays, SplitMicros, DaysFromCivil, AddMonths, AddInterval, DaysInMonth;
    var there := AddInterval(ts, Interval(n, 0, 0), 1);
    if there.Ok? {
      var back := AddInterval(there.value, Interval(n, 0, 0), -1);
      var s := SplitMicros(ts);
      var c := CivilFromDays(s.days);
      var mid := AddMonths(c, n);
      SplitIsFloor(ts);
      DaysOfCivil(s.days);
      AddMonthsIndex(c, n);
      AddFiniteMonths(ts, n, 1);
      SplitUnique(there.value, Days(mid), s.tod);
      CivilOfDays(mid);
      AddFiniteMonths(there.value, n, -1);
      AddMonthsBack(c, n);
      DaysInMonthPositive(mid.y, mid.m);
      DaysInMonthPositive(c.y, c.m);
      if back.Ok? {
        var end := AddMonths(mid, -n);
        assert n * 1 == n && n * -1 == -n;
        DayApart(c, end.d);
        SplitUnique(back.value, Days(end), s.tod);
        CivilOfDays(end);
      }
    }
  }

  lemma DayApart(c: Date, d: int)
    requires ValidDate(c)
    ensures Days(Date(c.y, c.m, d)) == Days(c) - (c.d - d)
  {
    hide DaysFromCivil, MonthStart, DaysInMonth;
    DaysByMonth(c);
    DaysByMonth(Date(c.y, c.m, d));
  }

  // ----- age -----

  /** A day is borrowed when the later time of day is the smaller one. */
  function DayBorrow(a: int, b: int): int {
    if SplitMicros(a).tod < SplitMicros(b).tod then 1 else 0
  }

  /** A month is borrowed when the days would be negative. */
  function MonthBorrow(a: int, b: int): int {
    var x, y := CivilFromDays(SplitMicros(a).days), CivilFromDays(SplitMicros(b).days);
    if x.d - y.d - DayBorrow(a, b) < 0 then 1 else 0
  }

  /** The symbolic difference of a later and an earlier timestamp: month, day and time are
      subtracted separately; a borrowed month is as long as the earlier timestamp's month. */
  function AgeForward(a: int, b: int): Interval {
    var s, t := SplitMicros(a), SplitMicros(b);
    var x, y := CivilFromDays(s.days), CivilFromDays(t.days);
    var h, k := DayBorrow(a, b), MonthBorrow(a, b);
    Interval(MonthIndex(x) - MonthIndex(y) - k,
             x.d - y.d - h + k * DaysInMonth(y.y, y.m),
             s.tod - t.tod + h * PER_DAY)
  }

  function AgeFinite(a: int, b: int): Interval {
    if a >= b then AgeForward(a, b) else Negate(AgeForward(b, a))
  }

  /** Clock fields of a time of day. */
  datatype Clock = Clock(hour: int, min: int, sec: int, usec: int)

  function ClockOf(tod: int): Clock {
    Clock(tod / 3_600_000_000, (tod / 60_000_000) % 60, (tod / 1_000_000) % 60, tod % 1_000_000)
  }

  function ClockMicros(c: Clock): int {
    ((c.hour * 60 + c.min) * 60 + c.sec) * 1_000_000 + c.usec
  }

  predicate ClockFits(c: Clock) {
    0 <= c.hour < 24 && 0 <= c.min < 60 && 0 <= c.sec < 60 && 0 <= c.usec < 1_000_000
  }

  lemma ClockOfFits(tod: int)
    requires 0 <= tod < PER_DAY
    ensures ClockFits(ClockOf(tod)) && ClockMicros(ClockOf(tod)) == tod
  {
    ClockFields(tod);
  }

  lemma ClockBelowDay(c: Clock)
    requires ClockFits(c)
    ensures 0 <= ClockMicros(c) < PER_DAY
  {
  }

  /** Borrow from microseconds up to days; every loop runs at most once. */
  method BorrowClock(p: Clock, q: Clock) returns (c: Clock, days: int)
    requires ClockFits(p) && ClockFits(q)
    ensures ClockFits(c) && days in {0, -1}
    ensures ClockMicros(c) + days * PER_DAY == ClockMicros(p) - ClockMicros(q)
  {
    var usec, sec, min, hour := p.usec - q.usec, p.sec - q.sec, p.min - q.min, p.hour - q.hour;
    var mday := 0;
    while usec < 0
      invariant (usec, sec) in {(p.usec - q.usec, p.sec - q.sec), (p.usec - q.usec + 1_000_000, p.sec - q.sec - 1)}
      invariant sec < p.sec - q.sec ==> 0 <= usec < 1_000_000
      decreases -usec
    {
      usec, sec := usec + 1_000_000, sec - 1;
    }
    ghost var sec1 := sec;
    while sec < 0
      invariant (sec, min) in {(sec1, p.min - q.min), (sec1 + 60, p.min - q.min - 1)}
      invariant min < p.min - q.min ==> 0 <= sec < 60
      decreases -sec
    {
      sec, min := sec + 60, min - 1;
    }
    ghost var min1 := min;
    while min < 0
      invariant (min, hour) in {(min1, p.hour - q.hour), (min1 + 60, p.hour - q.hour - 1)}
      invariant hour < p.hour - q.hour ==> 0 <= min < 60
      decreases -min
    {
      min, hour := min + 60, hour - 1;
    }
    ghost var hour1 := hour;
    while hour < 0
      invariant (hour, mday) in {(hour1, 0), (hour1 + 24, -1)}
      invariant mday < 0 ==> 0 <= hour < 24
      decreases -hour
    {
      hour, mday := hour + 24, mday - 1;
    }
    c, days := Clock(hour, min, sec, usec), mday;
  }

  /** `age`: fieldwise subtraction of the earlier from the later timestamp, borrows from
      microseconds up to years, and the sign put back at the end. */
  method Age(ts1: int, ts2: int) returns (r: Result<Interval, string>)
    ensures !Finite(ts1) || !Finite(ts2) ==>
      r == if ts1 == ts2 then Err(INTERVAL_RANGE)
           else if ts1 == TS_INFINITY then Ok(INTERVAL_INFINITY)
           else if ts1 == TS_NEG_INFINITY then Ok(INTERVAL_NEG_INFINITY)
           else if ts2 == TS_INFINITY then Ok(INTERVAL_NEG_INFINITY)
           else Ok(INTERVAL_INFINITY)
    ensures Finite(ts1) && Finite(ts2) ==> r == Ok(AgeFinite(ts1, ts2))
  {
    hide CivilFromDays, SplitMicros, DaysInMonth, ClockOf, ClockMicros;
    if !Finite(ts1) || !Finite(ts2) {
      if ts1 == ts2 { return Err(INTERVAL_RANGE); }
      if ts1 == TS_INFINITY { return Ok(INTERVAL_INFINITY); }
      if ts1 == TS_NEG_INFINITY { return Ok(INTERVAL_NEG_INFINITY); }
      if ts2 == TS_INFINITY { return Ok(INTERVAL_NEG_INFINITY); }
      return Ok(INTERVAL_INFINITY);
    }
    var flip := ts1 < ts2;
    var s, t := SplitMicros(if flip then ts2 else ts1), SplitMicros(if flip then ts1 else ts2);
    var x, y := CivilFromDays(s.days), CivilFromDays(t.days);
    AgeBorrowsFit(if flip then ts2 else ts1, if flip then ts1 else ts2);
    ClockOfFits(s.tod);
    ClockOfFits(t.tod);
    var clock, mday := BorrowClock(ClockOf(s.tod), ClockOf(t.tod));
    ClockBelowDay(clock);
    assert mday == -(if s.tod < t.tod then 1 else 0);
    mday := mday + (x.d - y.d);
    var mon, year := x.m - y.m, x.y - y.y;
    ghost var mday0, mon0 := mday, mon;
    while mday < 0
      invariant (mday, mon) in {(mday0, mon0), (mday0 + DaysInMonth(y.y, y.m), mon0 - 1)}
      invariant mon < mon0 ==> mday0 < 0 <= mday
      decreases -mday
    {
      // Borrow the length of the earlier timestamp's month.
      mday, mon := mday + DaysInMonth(y.y, y.m), mon - 1;
    }
    ghost var mon1 := mon;
    while mon < 0
      invariant (mon, year) in {(mon1, x.y - y.y), (mon1 + 12, x.y - y.y - 1)}
      invariant year < x.y - y.y ==> mon >= 0
      decreases -mon
    {
      mon, year := mon + 12, year - 1;
    }
    var iv := Interval(year * 12 + mon, mday, ClockMicros(clock));
    return Ok(if flip then Negate(iv) else iv);
  }

  lemma AgeBorrowsFit(a: int, b: int)
    requires b <= a
    ensures var s, t := SplitMicros(a), SplitMicros(b);
      var x, y := CivilFromDays(s.days), CivilFromDays(t.days);
      && ValidDate(x) && ValidDate(y)
      && 0 <= s.tod < PER_DAY && 0 <= t.tod < PER_DAY
      && (x == y ==> s.tod >= t.tod)
      && !Before(x, y)
  {
    hide CivilFromDays, SplitMicros, DaysFromCivil, MonthStart, DaysInMonth;
    var s, t := SplitMicros(a), SplitMicros(b);
    SplitIsFloor(a);
    SplitIsFloor(b);
    SplitOrder(b, a);
    DaysOfCivil(s.days);
    DaysOfCivil(t.days);
    DaysMonotone(CivilFromDays(s.days), CivilFromDays(t.days));
  }

  /** Every field of the age of a later timestamp is non-negative and in range. */
  lemma AgeForwardRange(a: int, b: int)
    requires b <= a
    ensures var iv := AgeForward(a, b);
      iv.months >= 0 && 0 <= iv.days <= 31 && 0 <= iv.micros < PER_DAY
  {
    hide CivilFromDays, SplitMicros, DaysInMonth;
    AgeBorrowsFit(a, b);
    var y := CivilFromDays(SplitMicros(b).days);
    DaysInMonthPositive(y.y, y.m);
    var x := CivilFromDays(SplitMicros(a).days);
    DaysInMonthPositive(x.y, x.m);
  }

  /** `age` is antisymmetric, and all its fields have the sign of the difference. */
  lemma AgeSign(a: int, b: int)
    ensures AgeFinite(a, b) == Negate(AgeFinite(b, a))
    ensures var iv := AgeFinite(a, b);
      && (a >= b ==> iv.months >= 0 && iv.days >= 0 && iv.micros >= 0)
      && (a <= b ==> iv.months <= 0 && iv.days <= 0 && iv.micros <= 0)
  {
    hide CivilFromDays, SplitMicros, DaysInMonth;
    if a >= b { AgeForwardRange(a, b); }
    if b >= a { AgeForwardRange(b, a); }
  }

  /** The fields account for the whole difference: whole months less at most one, and days
      and time that make up the rest, the borrowed month included. */
  lemma AgeAccounts(a: int, b: int)
    requires b <= a
    ensures var s, t := SplitMicros(a), SplitMicros(b);
      var x, y := CivilFromDays(s.days), CivilFromDays(t.days);
      var iv := AgeFinite(a, b);
      exists k | 0 <= k <= 1 ::
        && iv.months == 12 * (x.y - y.y) + (x.m - y.m) - k
        && iv.days * PER_DAY + iv.micros
           == (x.d - y.d) * PER_DAY + (s.tod - t.tod) + k * DaysInMonth(y.y, y.m) * PER_DAY
  {
    hide CivilFromDays, SplitMicros, DaysInMonth;
    var y := CivilFromDays(SplitMicros(b).days);
    var k := MonthBorrow(a, b);
    var iv := AgeForward(a, b);
    assert iv.months == 12 * (CivilFromDays(SplitMicros(a).days).y - y.y) + (CivilFromDays(SplitMicros(a).days).m - y.m) - k;
  }

  /** When does adding the age back give the later timestamp? Always when no month was
      borrowed; with a borrow, exactly when the month that is landed in makes up for the
      month that was borrowed. */
  predicate BorrowBalanced(a: int, b: int) {
    var x, y := CivilFromDays(SplitMicros(a).days), CivilFromDays(SplitMicros(b).days);
    var landed := MonthLength(MonthIndex(x) - 1);
    MonthBorrow(a, b) == 0 || DaysInMonth(y.y, y.m) == (if y.d <= landed then landed else y.d)
  }

  lemma AgeAddsBack(a: int, b: int)
    requires ValidTs(a) && ValidTs(b) && b <= a
    ensures AddInterval(b, AgeFinite(a, b), 1) == Ok(a) <==> BorrowBalanced(a, b)
  {
    hide CivilFromDays, SplitMicros, DaysInMonth, DaysFromCivil, MonthStart, MonthLength, AddMonths;
    var s, t := SplitMicros(a), SplitMicros(b);
    var x, y := CivilFromDays(s.days), CivilFromDays(t.days);
    var iv := AgeForward(a, b);
    AgeForwardRange(a, b);
    AgeBorrowsFit(a, b);
    ValidTsParts(a);
    ValidTsParts(b);
    DaysOfCivil(s.days);
    DaysOfCivil(t.days);
    AgeLands(x, y, iv.months, MonthBorrow(a, b));
    assert Wrap64(iv.micros * 1) == iv.micros;
    assert iv.months * 1 == iv.months && iv.days * 1 == iv.days;
  }

  /** Where the months of an age land, in days before the later date. */
  lemma AgeLands(x: Date, y: Date, n: int, k: int)
    requires ValidDate(x) && ValidDate(y) && 0 <= k <= 1 && n == MonthIndex(x) - MonthIndex(y) - k
    requires k == 0 ==> y.d <= x.d
    ensures var c := AddMonths(y, n);
      var landed := MonthLength(MonthIndex(x) - 1);
      && -1 <= c.y - x.y <= 0
      && Days(c) == Days(x) - (if k == 0 then x.d - y.d else landed + x.d - (if y.d <= landed then y.d else landed))
  {
    hide DaysInMonth, DaysFromCivil, MonthStart, MonthLength, AddMonths;
    var c := AddMonths(y, n);
    AddMonthsIndex(y, n);
    MonthIndexParts(x.y, x.m);
    MonthIndexParts(c.y, c.m);
    DaysByMonth(c);
    DaysByMonth(x);
    MonthStep(MonthIndex(x) - 1);
    AddMonthsDay(y, n);
  }

  lemma AddMonthsDay(c: Date, n: int)
    requires 1 <= c.m <= 12
    ensures var room := MonthLength(MonthIndex(c) + n);
      AddMonths(c, n).d == if c.d <= room then c.d else room
  {
    hide DaysInMonth;
  }
}

/** Adding and subtracting intervals: what months, days and time each contribute, for both signs. */
module IntervalLaws {
  import opened Integers
  import opened Wrappers
  import opened Calendar
  import opened Timestamps
  import opened Intervals

  predicate IsFinite(iv: Interval) {
    iv != INTERVAL_INFINITY && iv != INTERVAL_NEG_INFINITY
  }

  /** The position after the days, before the time, does not leave 64 bits. */
  predicate DaysFit(ts: int, days: int) {
    var midnight := (ts / PER_DAY + days) * PER_DAY;
    I64_MIN <= midnight && midnight + ts % PER_DAY <= I64_MAX
  }

  lemma NoWrap(x: int)
    requires FitsI64(x)
    ensures Wrap64(x) == x
  {
  }

  lemma TimesSign(x: int, sign: int)
    requires sign in {1, -1}
    ensures x * sign == if sign == 1 then x else -x
  {
  }

  /** Without months an interval is days of 24 hours and micros, added for the sign 1 and
      subtracted for -1: the result exactly when it is in range and so is the step by the days. */
  lemma AddsDaysAndTime(ts: int, days: int, micros: int, sign: int)
    requires ValidTs(ts) && sign in {1, -1} && -I64_MAX <= micros <= I64_MAX
    ensures var want := if sign == 1 then ts + (days * PER_DAY + micros) else ts - (days * PER_DAY + micros);
      AddInterval(ts, Interval(0, days, micros), sign)
      == if ValidTs(want) && DaysFit(ts, if sign == 1 then days else -days) then Ok(want) else Err(OUT_OF_RANGE)
  {
    hide CivilFromDays, SplitMicros, DaysFromCivil, AddMonths, Wrap64;
    ValidTsParts(ts);
    var s := SplitMicros(ts);
    SplitIsFloor(ts);
    DaysOfCivil(s.days);
    AddNoMonths(CivilFromDays(s.days));
    TimesSign(days, sign);
    TimesSign(micros, sign);
    NoWrap(micros * sign);
    assert 0 * sign == 0;
    assert ts % PER_DAY == s.tod by { Remainders(ts, s.days, s.tod); }
  }

  lemma Remainders(ts: int, days: int, tod: int)
    requires ts == days * PER_DAY + tod && 0 <= tod < PER_DAY
    ensures ts / PER_DAY == days && ts % PER_DAY == tod
  {
  }

  /** Where the days alone lead to a timestamp in range, the step by them fits. */
  lemma NearDaysFit(ts: int, days: int)
    requires ValidTs(ts) && ValidTs(ts + days * PER_DAY)
    ensures DaysFit(ts, days)
  {
    Remainders(ts, ts / PER_DAY, ts % PER_DAY);
  }

  /** The plain law: days alone, or time alone, move the timestamp by exactly that much, when the
      result is in range. */
  lemma MovesExactly(ts: int, days: int, micros: int, sign: int)
    requires ValidTs(ts) && sign in {1, -1} && -I64_MAX <= micros <= I64_MAX && (days == 0 || micros == 0)
    ensures var want := if sign == 1 then ts + (days * PER_DAY + micros) else ts - (days * PER_DAY + micros);
      AddInterval(ts, Interval(0, days, micros), sign) == if ValidTs(want) then Ok(want) else Err(OUT_OF_RANGE)
  {
    hide AddInterval;
    AddsDaysAndTime(ts, days, micros, sign);
    var moved := if sign == 1 then days else -days;
    if ValidTs(ts + moved * PER_DAY) { NearDaysFit(ts, moved); }
  }

  /** An interval whose days leave 64 bits is refused even where its time would come back. */
  lemma DaysOverflow()
    ensures AddInterval(0, Interval(0, 107_000_000, -106_000_000 * PER_DAY), 1) == Err(OUT_OF_RANGE)
    ensures ValidTs(0 + (107_000_000 * PER_DAY + -106_000_000 * PER_DAY))
  {
    AddsDaysAndTime(0, 107_000_000, -106_000_000 * PER_DAY, 1);
  }

  /** Subtracting an interval is adding its negation, months included. */
  lemma SubtractingNegates(ts: int, iv: Interval)
    requires IsFinite(iv) && IsFinite(Negate(iv)) && iv.micros > I64_MIN && Finite(ts)
    ensures AddInterval(ts, iv, -1) == AddInterval(ts, Negate(iv), 1)
  {
    hide CivilFromDays, SplitMicros, DaysFromCivil, AddMonths, Wrap64;
    var n := Negate(iv);
    assert iv.months * -1 == n.months * 1 && iv.days * -1 == n.days * 1 && iv.micros * -1 == n.micros * 1;
  }

  /** Days and time are applied to the timestamp in the clamped month. */
  lemma MonthsFirst(ts: int, iv: Interval, sign: int)
    requires ValidTs(ts) && IsFinite(iv) && sign in {1, -1}
    requires AddInterval(ts, Interval(iv.months, 0, 0), sign).Ok?
    ensures var t1 := AddInterval(ts, Interval(iv.months, 0, 0), sign).value;
      ValidTs(t1) && AddInterval(ts, iv, sign) == AddInterval(t1, Interval(0, iv.days, iv.micros), sign)
  {
    hide CivilFromDays, SplitMicros, DaysFromCivil, AddMonths, Wrap64, AddInterval;
    var s := SplitMicros(ts);
    SplitIsFloor(ts);
    DaysOfCivil(s.days);
    var c := CivilFromDays(s.days);
    AddMonthsIndex(c, iv.months * sign);
    var c' := AddMonths(c, iv.months * sign);
    MonthsAlone(ts, iv, sign);
    var t1 := AddInterval(ts, Interval(iv.months, 0, 0), sign).value;
    SplitUnique(t1, Days(c'), s.tod);
    CivilOfDays(c');
    AddNoMonths(c');
    assert 0 * sign == 0;
    FromSameDay(ts, t1, iv, sign);
  }

  lemma MonthsAlone(ts: int, iv: Interval, sign: int)
    requires ValidTs(ts) && sign in {1, -1} && AddInterval(ts, Interval(iv.months, 0, 0), sign).Ok?
    ensures var s := SplitMicros(ts); var c' := AddMonths(CivilFromDays(s.days), iv.months * sign);
      && FitsI32(c'.y) && ValidTs(AddInterval(ts, Interval(iv.months, 0, 0), sign).value)
      && AddInterval(ts, Interval(iv.months, 0, 0), sign).value == Days(c') * PER_DAY + s.tod
  {
    hide CivilFromDays, SplitMicros, DaysFromCivil, AddMonths;
    assert Wrap64(0 * sign) == 0 && 0 * sign == 0;
  }

  lemma FromSameDay(ts: int, t1: int, iv: Interval, sign: int)
    requires ValidTs(ts) && ValidTs(t1) && IsFinite(iv) && sign in {1, -1}
    requires var s, s1 := SplitMicros(ts), SplitMicros(t1);
      var c' := AddMonths(CivilFromDays(s.days), iv.months * sign);
      && s1.tod == s.tod && FitsI32(c'.y) && AddMonths(CivilFromDays(s1.days), 0 * sign) == c'
    ensures AddInterval(ts, iv, sign) == AddInterval(t1, Interval(0, iv.days, iv.micros), sign)
  {
    hide CivilFromDays, SplitMicros, DaysFromCivil, AddMonths, Wrap64;
  }

  /** The month moves by n, and the day stays unless the month is too short for it. */
  lemma ClampsExactly(c: Date, n: int)
    requires ValidDate(c)
    ensures var c' := AddMonths(c, n);
      && 12 * c'.y + c'.m == 12 * c.y + c.m + n && 1 <= c'.m <= 12
      && c'.d <= c.d && c'.d <= DaysInMonth(c'.y, c'.m) && (c'.d == c.d || c'.d == DaysInMonth(c'.y, c'.m))
  {
    hide DaysInMonth;
  }

  /** Infinite timestamps and intervals, for both signs. */
  lemma InfiniteSums(ts: int, iv: Interval)
    ensures !Finite(ts) && IsFinite(iv) ==> AddInterval(ts, iv, 1) == Ok(ts) && AddInterval(ts, iv, -1) == Ok(ts)
    ensures !Finite(ts) && !IsFinite(iv) ==> AddInterval(ts, iv, 1).Err? && AddInterval(ts, iv, -1).Err?
    ensures Finite(ts) ==>
      && AddInterval(ts, INTERVAL_INFINITY, 1) == Ok(TS_INFINITY) && AddInterval(ts, INTERVAL_INFINITY, -1) == Ok(TS_NEG_INFINITY)
      && AddInterval(ts, INTERVAL_NEG_INFINITY, 1) == Ok(TS_NEG_INFINITY)
      && AddInterval(ts, INTERVAL_NEG_INFINITY, -1) == Ok(TS_INFINITY)
  {
    hide AddFinite;
  }

  /** Differences with an infinity have its sign, and equal infinities have none. */
  lemma InfiniteDifferences(ts1: int, ts2: int)
    requires I64_MIN <= ts1 <= I64_MAX && I64_MIN <= ts2 <= I64_MAX && (!Finite(ts1) || !Finite(ts2))
    ensures var r := TimestampDiff(ts1, ts2);
      if ts1 == ts2 then r.Err? else r == Ok(if ts1 > ts2 then INTERVAL_INFINITY else INTERVAL_NEG_INFINITY)
  {
  }
}

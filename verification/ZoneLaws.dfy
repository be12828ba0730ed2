/** The daylight-saving rules as dates on the calendar. */
module ZoneLaws {
  import opened Calendar
  import opened IsoWeek
  import opened Timestamps
  import opened Zones

  // ----- Sundays -----

  /** 1970-01-01 was a Thursday, and every day is followed by the next weekday. */
  lemma Weekdays(day: int)
    ensures DayOfWeek(DaysFromCivil(1970, 1, 1)) == 4
    ensures 0 <= DayOfWeek(day) <= 6 && DayOfWeek(day + 1) == if DayOfWeek(day) == 6 then 0 else DayOfWeek(day) + 1
  {
  }

  predicate Sunday(y: int, m: int, d: int) {
    DayOfWeek(DaysFromCivil(y, m, d)) == 0
  }

  /** The number of Sundays of the month before day d. */
  function EarlierSundays(y: int, m: int, d: nat): nat {
    if d <= 1 then 0 else EarlierSundays(y, m, d - 1) + (if Sunday(y, m, d - 1) then 1 else 0)
  }

  lemma {:induction false} EarlierSundaysAre(y: int, m: int, d: nat)
    requires 1 <= m <= 12 && d >= 1
    ensures var w := DayOfWeek(DaysFromCivil(y, m, 1)); EarlierSundays(y, m, d) == (w + d - 2) / 7 - (w - 1) / 7
  {
    hide DaysFromCivil, DayOfWeek;
    if d > 1 {
      EarlierSundaysAre(y, m, d - 1);
      var first := DaysFromCivil(y, m, 1);
      DayOfWeekRange(first);
      DayInMonth(y, m, 1, d - 1);
      WeekdayShift(first, d - 2);
      MoreSundays(DayOfWeek(first) + d - 2);
    }
  }

  lemma MoreSundays(k: int)
    ensures k / 7 - (k - 1) / 7 == if k % 7 == 0 then 1 else 0
  {
  }

  lemma SundayCount(y: int, m: int, d: nat, n: nat)
    requires 1 <= m <= 12 && d >= 1 && n >= 1 && Sunday(y, m, d) && (d - 1) / 7 == n - 1
    ensures EarlierSundays(y, m, d) == n - 1
  {
    hide DaysFromCivil, DayOfWeek;
    EarlierSundaysAre(y, m, d);
    var first := DaysFromCivil(y, m, 1);
    DayOfWeekRange(first);
    DayInMonth(y, m, 1, d);
    WeekdayShift(first, d - 1);
    SundayArithmetic(DayOfWeek(first), d);
  }

  lemma SundayArithmetic(w: int, d: nat)
    requires 0 <= w <= 6 && d >= 1 && (w + (d - 1)) % 7 == 0
    ensures (w + d - 2) / 7 - (w - 1) / 7 == (d - 1) / 7
  {
    var q := (w + d - 1) / 7;
    assert w + d - 1 == 7 * q;
    assert (w + d - 2) / 7 == q - 1;
    assert (w - 1) / 7 == if w == 0 then -1 else 0;
    assert (d - 1) / 7 == if w == 0 then q else q - 1;
  }

  // ----- the transition dates -----

  /** The reading is a full hour of the Sunday of the month that has so many Sundays before it. */
  ghost predicate OnSunday(reading: int, y: int, m: int, earlier: nat, hour: nat) {
    var c := CivilFromDays(reading / PER_DAY);
    c.y == y && c.m == m && c.d >= 1 && Sunday(y, m, c.d) && EarlierSundays(y, m, c.d) == earlier
    && reading % PER_DAY == hour * PER_HOUR
  }

  /** The reading is a full hour of the last Sunday of the month. */
  ghost predicate OnLastSunday(reading: int, y: int, m: int, hour: nat) {
    var c := CivilFromDays(reading / PER_DAY);
    c.y == y && c.m == m && Sunday(y, m, c.d) && c.d + 7 > DaysInMonth(y, m)
    && reading % PER_DAY == hour * PER_HOUR
  }

  lemma ReadingParts(y: int, m: int, d: int, hour: nat)
    requires ValidDate(Date(y, m, d)) && hour < 24
    ensures var t := UtcMicros(y, m, d, hour);
      CivilFromDays(t / PER_DAY) == Date(y, m, d) && t % PER_DAY == hour * PER_HOUR
  {
    hide DaysFromCivil, CivilFromDays;
    var day := DaysFromCivil(y, m, d);
    CivilOfDays(Date(y, m, d));
    QuotientIs(day * PER_DAY + hour * PER_HOUR, PER_DAY, day);
  }

  lemma NthSundayReading(y: int, m: int, n: nat, hour: nat)
    requires 1 <= m <= 12 && 1 <= n <= 4 && hour < 24
    ensures OnSunday(UtcMicros(y, m, NthWeekdayOfMonth(y, m, 0, n), hour), y, m, n - 1, hour)
  {
    hide DaysFromCivil, CivilFromDays, NthWeekdayOfMonth, DayOfWeek, UtcMicros;
    NthWeekdayIs(y, m, 0, n);
    var d := NthWeekdayOfMonth(y, m, 0, n);
    SundayCount(y, m, d, n);
    ReadingParts(y, m, d, hour);
  }

  lemma LastSundayReading(y: int, m: int, hour: nat)
    requires 1 <= m <= 12 && hour < 24
    ensures OnLastSunday(UtcMicros(y, m, NthWeekdayOfMonth(y, m, 0, -1), hour), y, m, hour)
  {
    hide DaysFromCivil, CivilFromDays, NthWeekdayOfMonth, DayOfWeek, UtcMicros;
    LastWeekdayIs(y, m, 0);
    ReadingParts(y, m, NthWeekdayOfMonth(y, m, 0, -1), hour);
  }

  /** The four rules. In the European Union daylight time runs from 01:00 UTC on the last Sunday of
      March to 01:00 UTC on the last Sunday of October; in the United States from 02:00 standard
      time on the second Sunday of March to 02:00 daylight time on the first Sunday of November; in
      Sydney from 02:00 standard time on the first Sunday of October to 03:00 daylight time on the
      first Sunday of April; in Auckland from 02:00 standard time on the last Sunday of September to
      03:00 daylight time on the first Sunday of April. */
  lemma RulesAreDates(def: ZoneDef, y: int)
    ensures var start, end := DstStart(def, y), DstEnd(def, y);
      var startStd, endDst := start + def.stdOff * 1_000_000, end + def.dstOff * 1_000_000;
      && (def.rule == Eu ==> OnLastSunday(start, y, 3, 1) && OnLastSunday(end, y, 10, 1))
      && (def.rule == Us ==> OnSunday(startStd, y, 3, 1, 2) && OnSunday(endDst, y, 11, 0, 2))
      && (def.rule == Sydney ==> OnSunday(startStd, y, 10, 0, 2) && OnSunday(endDst, y, 4, 0, 3))
      && (def.rule == Auckland ==> OnLastSunday(startStd, y, 9, 2) && OnSunday(endDst, y, 4, 0, 3))
  {
    hide NthWeekdayOfMonth, UtcMicros, OnSunday, OnLastSunday;
    match def.rule
    case Eu => LastSundayReading(y, 3, 1); LastSundayReading(y, 10, 1);
    case Us => NthSundayReading(y, 3, 2, 2); NthSundayReading(y, 11, 1, 2);
    case Sydney => NthSundayReading(y, 10, 1, 2); NthSundayReading(y, 4, 1, 3);
    case Auckland => LastSundayReading(y, 9, 2); NthSundayReading(y, 4, 1, 3);
  }

  /** Daylight time is one hour ahead, exactly between the start of some year and the end that
      follows it: in the same year in the north, in the next year in the south. */
  lemma DaylightBetween(def: ZoneDef, utc: int)
    requires OneHourZone(def)
    ensures var on := OffsetAtUtc(def, utc) == def.stdOff + 3600;
      && (!on ==> OffsetAtUtc(def, utc) == def.stdOff)
      && (on <==> exists y :: DstStart(def, y) <= utc < DstEnd(def, if Southern(def) then y + 1 else y))
  {
    hide UtcYear, DstStart, DstEnd, NewYear;
    var u := UtcYear(utc);
    UtcYearIs(utc, u);
    TransitionsApart(def, u);
    TransitionsApart(def, u - 1);
    TransitionsApart(def, u + 1);
    if InDst(def, utc) {
      var y := if Southern(def) && utc < DstEnd(def, u) then u - 1 else u;
      assert DstStart(def, y) <= utc < DstEnd(def, if Southern(def) then y + 1 else y);
    }
    if y :| DstStart(def, y) <= utc < DstEnd(def, if Southern(def) then y + 1 else y) {
      InItsYear(def, utc, y);
    }
  }

  lemma InItsYear(def: ZoneDef, utc: int, y: int)
    requires OneHourZone(def) && DstStart(def, y) <= utc < DstEnd(def, if Southern(def) then y + 1 else y)
    ensures InDst(def, utc)
  {
    hide UtcYear, DstStart, DstEnd, NewYear;
    TransitionsApart(def, y);
    TransitionsApart(def, y + 1);
    UtcYearIs(utc, y);
    UtcYearIs(utc, y + 1);
  }
}

/** Rule-based daylight saving time (src/datetime.rs). */
module Zones {
  import opened Calendar
  import opened IsoWeek
  import opened Timestamps

  datatype DstRule = Eu | Us | Sydney | Auckland

  /** Offsets are in seconds east of UTC. */
  datatype ZoneDef = ZoneDef(stdOff: int, dstOff: int, rule: DstRule)

  const SECOND := 1_000_000

  /** Day of the month of the n-th (n > 0) or the last (otherwise) weekday; 0 is Sunday. */
  function NthWeekdayOfMonth(y: int, m: int, weekday: int, n: int): int {
    if n > 0 then
      var first := DaysFromCivil(y, m, 1);
      1 + (weekday + 7 - DayOfWeek(first)) % 7 + 7 * (n - 1)
    else
      var dim := DaysInMonth(y, m);
      var last := DaysFromCivil(y, m, dim);
      dim - (DayOfWeek(last) + 7 - weekday) % 7
  }

  function UtcMicros(y: int, m: int, d: int, hh: int): int {
    DaysFromCivil(y, m, d) * PER_DAY + hh * PER_HOUR
  }

  /** The instants of year y at which daylight time starts and ends. */
  function DstStart(def: ZoneDef, y: int): int {
    match def.rule
    case Eu => UtcMicros(y, 3, NthWeekdayOfMonth(y, 3, 0, -1), 1)
    case Us => UtcMicros(y, 3, NthWeekdayOfMonth(y, 3, 0, 2), 2) - def.stdOff * SECOND
    case Sydney => UtcMicros(y, 10, NthWeekdayOfMonth(y, 10, 0, 1), 2) - def.stdOff * SECOND
    case Auckland => UtcMicros(y, 9, NthWeekdayOfMonth(y, 9, 0, -1), 2) - def.stdOff * SECOND
  }

  function DstEnd(def: ZoneDef, y: int): int {
    match def.rule
    case Eu => UtcMicros(y, 10, NthWeekdayOfMonth(y, 10, 0, -1), 1)
    case Us => UtcMicros(y, 11, NthWeekdayOfMonth(y, 11, 0, 1), 2) - def.dstOff * SECOND
    case Sydney => UtcMicros(y, 4, NthWeekdayOfMonth(y, 4, 0, 1), 3) - def.dstOff * SECOND
    case Auckland => UtcMicros(y, 4, NthWeekdayOfMonth(y, 4, 0, 1), 3) - def.dstOff * SECOND
  }

  predicate Southern(def: ZoneDef) {
    def.rule == Sydney || def.rule == Auckland
  }

  function UtcYear(utc: int): int {
    CivilFromDays(SplitMicros(utc).days).y
  }

  /** Is daylight time in effect? In the south it spans the new year. */
  predicate InDst(def: ZoneDef, utc: int) {
    var y := UtcYear(utc);
    if Southern(def) then utc >= DstStart(def, y) || utc < DstEnd(def, y)
    else utc >= DstStart(def, y) && utc < DstEnd(def, y)
  }

  /** The offset in effect at a UTC instant. */
  function OffsetAtUtc(def: ZoneDef, utc: int): int {
    if InDst(def, utc) then def.dstOff else def.stdOff
  }

  /** The offset for a local reading: guess with the standard offset, then look again. */
  function OffsetAtLocal(def: ZoneDef, local: int): int {
    OffsetAtUtc(def, local - def.stdOff * SECOND)
  }

  function ToLocal(def: ZoneDef, utc: int): int {
    utc + OffsetAtUtc(def, utc) * SECOND
  }

  function ToUtc(def: ZoneDef, local: int): int {
    local - OffsetAtLocal(def, local) * SECOND
  }

  /** One hour of daylight shift, at an offset the zone table allows. */
  predicate OneHourZone(def: ZoneDef) {
    def.dstOff == def.stdOff + 3600 && -16 * 3600 < def.stdOff < def.dstOff < 16 * 3600
  }

  // ----- the n-th weekday -----

  lemma WeekdayShift(a: int, k: int)
    ensures DayOfWeek(a + k) == (DayOfWeek(a) + k) % 7
  {
  }

  /** The n-th weekday for n = 1..4: it is that weekday, and n - 1 whole weeks precede it in
      the month, so it is the only such day. */
  lemma NthWeekdayIs(y: int, m: int, weekday: int, n: int)
    requires 1 <= m <= 12 && 0 <= weekday <= 6 && 1 <= n <= 4
    ensures var d := NthWeekdayOfMonth(y, m, weekday, n);
      && ValidDate(Date(y, m, d)) && DayOfWeek(DaysFromCivil(y, m, d)) == weekday && (d - 1) / 7 == n - 1
    ensures forall d | 1 <= d && DayOfWeek(DaysFromCivil(y, m, d)) == weekday && (d - 1) / 7 == n - 1 ::
      d == NthWeekdayOfMonth(y, m, weekday, n)
  {
    hide DaysFromCivil, DayOfWeek, IsLeapYear;
    var first := DaysFromCivil(y, m, 1);
    DayOfWeekRange(first);
    forall d
      ensures DayOfWeek(DaysFromCivil(y, m, d)) == (DayOfWeek(first) + d - 1) % 7
    {
      DayInMonth(y, m, 1, d);
      WeekdayShift(first, d - 1);
    }
  }

  /** The last weekday: it is that weekday, and the same weekday a week later is past the month. */
  lemma LastWeekdayIs(y: int, m: int, weekday: int)
    requires 1 <= m <= 12 && 0 <= weekday <= 6
    ensures var d := NthWeekdayOfMonth(y, m, weekday, -1);
      && ValidDate(Date(y, m, d)) && DayOfWeek(DaysFromCivil(y, m, d)) == weekday && d + 7 > DaysInMonth(y, m)
    ensures forall d | d <= DaysInMonth(y, m) < d + 7 && DayOfWeek(DaysFromCivil(y, m, d)) == weekday ::
      d == NthWeekdayOfMonth(y, m, weekday, -1)
  {
    hide DaysFromCivil, DayOfWeek, IsLeapYear;
    var dim := DaysInMonth(y, m);
    var last := DaysFromCivil(y, m, dim);
    DayOfWeekRange(last);
    forall d
      ensures DayOfWeek(DaysFromCivil(y, m, d)) == (DayOfWeek(last) + d - dim) % 7
    {
      DayInMonth(y, m, dim, d);
      WeekdayShift(last, d - dim);
    }
  }

  lemma DayOfWeekRange(days: int)
    ensures 0 <= DayOfWeek(days) <= 6
  {
  }

  lemma DayInMonth(y: int, m: int, a: int, b: int)
    requires 1 <= m <= 12
    ensures DaysFromCivil(y, m, b) == DaysFromCivil(y, m, a) + (b - a)
  {
    hide DaysFromCivil;
    DaysByMonth(Date(y, m, a));
    DaysByMonth(Date(y, m, b));
  }

  // ----- where the transitions lie in the year -----

  /** First instant of UTC year y. */
  function NewYear(y: int): int {
    YearStart(y) * PER_DAY
  }

  /** A transition date lies well inside the year. */
  lemma InsideYear(y: int, m: int, d: int)
    requires 3 <= m <= 11 && 1 <= d <= DaysInMonth(y, m)
    ensures YearStart(y) + 56 <= DaysFromCivil(y, m, d) < YearStart(y + 1) - 28
  {
    hide DaysFromCivil, DaysInMonth, MonthStart;
    DaysByMonth(Date(y, m, d));
    DaysByMonth(Date(y, 1, 1));
    DaysByMonth(Date(y + 1, 1, 1));
    MonthStep(12 * y + m - 1);
    MonthStartMonotone(12 * y, 12 * y + m - 1);
    MonthStartMonotone(12 * y + m, 12 * y + 12);
  }

  /** Transitions are in order, two days or more from the new year and a day or more apart. */
  lemma TransitionsApart(def: ZoneDef, y: int)
    requires OneHourZone(def)
    ensures NewYear(y) + 2 * PER_DAY <= DstStart(def, y) <= NewYear(y + 1) - 2 * PER_DAY
    ensures NewYear(y) + 2 * PER_DAY <= DstEnd(def, y) <= NewYear(y + 1) - 2 * PER_DAY
    ensures if Southern(def) then DstEnd(def, y) + PER_DAY <= DstStart(def, y)
            else DstStart(def, y) + PER_DAY <= DstEnd(def, y)
  {
    hide DaysFromCivil, NthWeekdayOfMonth, IsLeapYear, YearStart;
    match def.rule
    case Eu =>
      LastWeekdayIs(y, 3, 0);
      LastWeekdayIs(y, 10, 0);
      MonthsApart(y, 3, NthWeekdayOfMonth(y, 3, 0, -1), 10, NthWeekdayOfMonth(y, 10, 0, -1));
    case Us =>
      NthWeekdayIs(y, 3, 0, 2);
      NthWeekdayIs(y, 11, 0, 1);
      MonthsApart(y, 3, NthWeekdayOfMonth(y, 3, 0, 2), 11, NthWeekdayOfMonth(y, 11, 0, 1));
    case Sydney =>
      NthWeekdayIs(y, 4, 0, 1);
      NthWeekdayIs(y, 10, 0, 1);
      MonthsApart(y, 4, NthWeekdayOfMonth(y, 4, 0, 1), 10, NthWeekdayOfMonth(y, 10, 0, 1));
    case Auckland =>
      NthWeekdayIs(y, 4, 0, 1);
      LastWeekdayIs(y, 9, 0);
      MonthsApart(y, 4, NthWeekdayOfMonth(y, 4, 0, 1), 9, NthWeekdayOfMonth(y, 9, 0, -1));
  }

  lemma MonthsApart(y: int, m1: int, d1: int, m2: int, d2: int)
    requires 3 <= m1 && m1 + 2 <= m2 <= 11
    requires 1 <= d1 <= DaysInMonth(y, m1) && 1 <= d2 <= DaysInMonth(y, m2)
    ensures YearStart(y) + 56 <= DaysFromCivil(y, m1, d1)
    ensures DaysFromCivil(y, m1, d1) + 28 <= DaysFromCivil(y, m2, d2)
    ensures DaysFromCivil(y, m2, d2) < YearStart(y + 1) - 28
  {
    hide DaysFromCivil, DaysInMonth, MonthStart, YearStart;
    InsideYear(y, m1, d1);
    InsideYear(y, m2, d2);
    DaysByMonth(Date(y, m1, d1));
    DaysByMonth(Date(y, m2, d2));
    MonthStep(12 * y + m1 - 1);
    MonthStartMonotone(12 * y + m1, 12 * y + m2 - 1);
  }

  lemma UtcYearIs(utc: int, y: int)
    ensures UtcYear(utc) == y <==> NewYear(y) <= utc < NewYear(y + 1)
  {
    hide DaysFromCivil, CivilFromDays, SplitMicros;
    SplitIsFloor(utc);
    YearOfDay(SplitMicros(utc).days, y);
  }

  // ----- the round trip -----

  /** Within the hour before daylight time ends, as a UTC instant. */
  predicate LastDaylightHour(def: ZoneDef, utc: int) {
    var end := DstEnd(def, UtcYear(utc));
    end - PER_HOUR <= utc < end
  }

  /** Daylight time ends within the next hour exactly in the last hour of daylight time. */
  lemma DaylightEndsSoon(def: ZoneDef, utc: int)
    requires OneHourZone(def)
    ensures InDst(def, utc) && !InDst(def, utc + PER_HOUR) <==> LastDaylightHour(def, utc)
  {
    hide UtcYear, DstStart, DstEnd, NewYear;
    var y := UtcYear(utc);
    UtcYearIs(utc, y);
    TransitionsApart(def, y);
    TransitionsApart(def, y + 1);
    UtcYearIs(utc + PER_HOUR, y);
    UtcYearIs(utc + PER_HOUR, y + 1);
    NewYearsApart(y + 1);
  }

  lemma NewYearsApart(y: int)
    ensures NewYear(y) + 365 * PER_DAY <= NewYear(y + 1)
  {
    hide YearStart, IsLeapYear;
    YearLength(y);
  }

  /** UTC to local and back is the identity, except that the last hour of daylight time comes
      back one hour later: its local readings occur twice, and the standard one wins. */
  lemma LocalRoundTrip(def: ZoneDef, utc: int)
    requires OneHourZone(def)
    ensures ToUtc(def, ToLocal(def, utc)) == if LastDaylightHour(def, utc) then utc + PER_HOUR else utc
  {
    hide InDst, LastDaylightHour;
    DaylightEndsSoon(def, utc);
  }
}

/** ISO 8601 weeks (src/datetime.rs). */
module IsoWeek {
  import opened Calendar

  /** Sunday is 0. */
  function DayOfWeek(days: int): int {
    (days % 7 + 4) % 7
  }

  /** Monday is 0. */
  function MondayBased(days: int): int {
    (DayOfWeek(days) + 6) % 7
  }

  /** The Monday of the week that contains January 4. */
  function Week1Monday(iy: int): int {
    var jan4 := DaysFromCivil(iy, 1, 4);
    jan4 - MondayBased(jan4)
  }

  datatype IsoYearWeek = IsoYearWeek(year: int, week: int)

  function YearWeek(days: int): IsoYearWeek {
    var thursday := days + 3 - MondayBased(days);
    var iy := CivilFromDays(thursday).y;
    IsoYearWeek(iy, TruncDiv(days - Week1Monday(iy), 7) + 1)
  }

  /** The day that `to_date` builds from ISO year, week and weekday (Monday is 1). */
  function FromIsoWeek(iy: int, week: int, isoDow: int): int {
    Week1Monday(iy) + (week - 1) * 7 + (isoDow - 1)
  }

  /** Weeks of an ISO year: as many as fit before the next one starts. */
  function WeeksIn(iy: int): int {
    (Week1Monday(iy + 1) - Week1Monday(iy)) / 7
  }

  /** Weeks counted from the one that holds 1970-01-01, a Thursday. */
  function WeekNumber(days: int): int {
    (days + 3) / 7
  }

  lemma DayInWeek(days: int)
    ensures 0 <= MondayBased(days) <= 6
    ensures days == 7 * WeekNumber(days) - 3 + MondayBased(days)
  {
  }

  function Week1(iy: int): int {
    WeekNumber(DaysFromCivil(iy, 1, 4))
  }

  /** The Thursday of week 1 is one of the first seven days of the year. */
  lemma Week1NearNewYear(iy: int)
    ensures Week1Monday(iy) == 7 * Week1(iy) - 3
    ensures YearStart(iy) <= 7 * Week1(iy) <= YearStart(iy) + 6
  {
    hide DaysFromCivil, MonthStart;
    DaysByMonth(Date(iy, 1, 4));
    DaysByMonth(Date(iy, 1, 1));
    hide MondayBased, WeekNumber;
    DayInWeek(DaysFromCivil(iy, 1, 4));
  }

  /** An ISO year has 52 or 53 weeks. */
  lemma WeeksInYear(iy: int)
    ensures 52 <= WeeksIn(iy) <= 53
    ensures WeeksIn(iy) == Week1(iy + 1) - Week1(iy)
  {
    hide DaysFromCivil, Week1Monday, IsLeapYear, YearStart, Week1;
    Week1NearNewYear(iy);
    Week1NearNewYear(iy + 1);
    YearLength(iy);
  }

  /** A day lies in the ISO year whose weeks span it. */
  lemma IsoYearSpans(days: int, iy: int)
    ensures YearWeek(days).year == iy <==> Week1(iy) <= WeekNumber(days) < Week1(iy + 1)
  {
    hide DaysFromCivil, CivilFromDays, Week1Monday, MondayBased, Week1, WeekNumber, YearStart;
    DayInWeek(days);
    YearOfDay(days + 3 - MondayBased(days), iy);
    Week1NearNewYear(iy);
    Week1NearNewYear(iy + 1);
  }

  lemma WeekOf(days: int, iy: int)
    requires Week1(iy) <= WeekNumber(days)
    ensures TruncDiv(days - Week1Monday(iy), 7) == WeekNumber(days) - Week1(iy)
  {
    hide DaysFromCivil, Week1Monday, MondayBased, Week1, WeekNumber, YearStart;
    Week1NearNewYear(iy);
    DayInWeek(days);
    QuotientIs(days - Week1Monday(iy), 7, WeekNumber(days) - Week1(iy));
  }

  /** Every day has an ISO year and a week between 1 and the number of weeks of that year,
      and they give the day back together with its weekday. */
  lemma IsoWeekRoundTrip(days: int)
    ensures var w := YearWeek(days);
      && 1 <= w.week <= WeeksIn(w.year) <= 53
      && FromIsoWeek(w.year, w.week, MondayBased(days) + 1) == days
  {
    hide DaysFromCivil, CivilFromDays, Week1Monday, MondayBased, Week1, WeekNumber, YearStart, WeeksIn;
    var iy := YearWeek(days).year;
    IsoYearSpans(days, iy);
    WeekOf(days, iy);
    DayInWeek(days);
    Week1NearNewYear(iy);
    WeeksInYear(iy);
  }

  /** The other direction: a week of an ISO year and a weekday name exactly one day. */
  lemma IsoWeekOfBuiltDay(iy: int, week: int, isoDow: int)
    requires 1 <= week <= WeeksIn(iy) && 1 <= isoDow <= 7
    ensures var days := FromIsoWeek(iy, week, isoDow);
      YearWeek(days) == IsoYearWeek(iy, week) && MondayBased(days) + 1 == isoDow
  {
    var days := FromIsoWeek(iy, week, isoDow);
    Week1NearNewYear(iy);
    BuiltWeek(days, Week1(iy) + week - 1, isoDow);
    hide DaysFromCivil, CivilFromDays, Week1Monday, MondayBased, Week1, WeekNumber, YearStart, WeeksIn;
    WeeksInYear(iy);
    IsoYearSpans(days, iy);
    WeekOf(days, iy);
  }

  lemma BuiltWeek(days: int, n: int, isoDow: int)
    requires 1 <= isoDow <= 7 && days == 7 * n - 3 + (isoDow - 1)
    ensures WeekNumber(days) == n && MondayBased(days) == isoDow - 1
  {
    QuotientIs(days + 3, 7, n);
    DayInWeek(days);
  }
}

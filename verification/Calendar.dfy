/** The proleptic Gregorian calendar: day numbers since 1970-01-01 (src/datetime.rs). */
module Calendar {

  /** Division that rounds toward zero. */
  function TruncDiv(a: int, b: int): int
    requires b > 0
  {
    if a >= 0 then a / b else -(-a / b)
  }

  datatype Date = Date(y: int, m: int, d: int)

  function DaysFromCivil(y: int, m: int, d: int): int {
    var y' := if m <= 2 then y - 1 else y;
    var era := TruncDiv(if y' >= 0 then y' else y' - 399, 400);
    var yoe := y' - era * 400;
    var mp := (m + 9) % 12;
    var doy := (153 * mp + 2) / 5 + d - 1;
    var doe := yoe * 365 + yoe / 4 - yoe / 100 + doy;
    era * 146097 + doe - 719468
  }

  function YearOfEra(doe: int): int {
    (doe - doe / 1460 + doe / 36524 - doe / 146096) / 365
  }

  /** Days of the era before the year yoe of the era. */
  function EraDays(yoe: int): int {
    365 * yoe + yoe / 4 - yoe / 100
  }

  /** The date of a day of a year that starts in March. */
  function CivilOfYearDay(y: int, doy: int): Date {
    var mp := (5 * doy + 2) / 153;
    var d := doy - (153 * mp + 2) / 5 + 1;
    var m := if mp < 10 then mp + 3 else mp - 9;
    Date(if m <= 2 then y + 1 else y, m, d)
  }

  function CivilFromDays(day: int): Date {
    var z := day + 719468;
    var era := TruncDiv(if z >= 0 then z else z - 146096, 146097);
    var doe := z - era * 146097;
    var yoe := YearOfEra(doe);
    CivilOfYearDay(yoe + era * 400, doe - EraDays(yoe))
  }

  predicate IsLeapYear(y: int) {
    (y % 4 == 0 && y % 100 != 0) || y % 400 == 0
  }

  function DaysInMonth(y: int, m: int): int {
    if m in {1, 3, 5, 7, 8, 10, 12} then 31
    else if m in {4, 6, 9, 11} then 30
    else if m == 2 then (if IsLeapYear(y) then 29 else 28)
    else 0
  }

  predicate ValidDate(c: Date) {
    1 <= c.m <= 12 && 1 <= c.d <= DaysInMonth(c.y, c.m)
  }

  function Days(c: Date): int {
    DaysFromCivil(c.y, c.m, c.d)
  }

  predicate Before(a: Date, b: Date) {
    a.y < b.y || (a.y == b.y && (a.m < b.m || (a.m == b.m && a.d < b.d)))
  }

  // ----- years -----

  /** Days before the March that starts the shifted year, from the March of year 0. */
  function YearDays(y: int): int {
    365 * y + y / 4 - y / 100 + y / 400
  }

  lemma FloorByTrunc(y: int, n: int)
    requires n > 0
    ensures TruncDiv(if y >= 0 then y else y - (n - 1), n) == y / n
  {
    if y < 0 {
      var q := (n - 1 - y) / n;
      assert n * q <= n - 1 - y < n * q + n;
      QuotientIs(y, n, -q);
    }
  }

  lemma QuotientIs(a: int, n: int, q: int)
    requires n > 0 && n * q <= a < n * q + n
    ensures a / n == q && a % n == a - n * q
  {
    var r := a / n;
    assert a == n * r + a % n;
    if r < q { MulLe(n, r + 1, q); } else if r > q { MulLe(n, q + 1, r); }
  }

  lemma MulLe(n: int, x: int, y: int)
    requires n >= 0 && x <= y
    ensures n * x <= n * y
  {
  }

  lemma EraSum(e: int, yoe: int)
    requires 0 <= yoe < 400
    ensures YearDays(400 * e + yoe) == e * 146097 + yoe * 365 + yoe / 4 - yoe / 100
  {
    QuotientIs(400 * e + yoe, 4, 100 * e + yoe / 4);
    QuotientIs(400 * e + yoe, 100, 4 * e + yoe / 100);
    QuotientIs(400 * e + yoe, 400, e);
  }

  function ShiftedYear(y: int, m: int): int {
    if m <= 2 then y - 1 else y
  }

  /** Days of the shifted year before month m. */
  function MonthOffset(m: int): int {
    (153 * ((m + 9) % 12) + 2) / 5
  }

  lemma DaysClosedForm(y: int, m: int, d: int)
    ensures DaysFromCivil(y, m, d) == YearDays(ShiftedYear(y, m)) + MonthOffset(m) + d - 1 - 719468
  {
    var y' := ShiftedYear(y, m);
    FloorByTrunc(y', 400);
    assert y' == 400 * (y' / 400) + y' % 400;
    EraSum(y' / 400, y' % 400);
  }

  lemma YearStep(y: int)
    ensures YearDays(y + 1) == YearDays(y) + (if IsLeapYear(y + 1) then 366 else 365)
  {
    StepOfQuotient(y, 4);
    StepOfQuotient(y, 100);
    StepOfQuotient(y, 400);
    LeapDivides(y + 1);
  }

  lemma StepOfQuotient(y: int, n: int)
    requires n > 1
    ensures (y + 1) / n == y / n + (if (y + 1) % n == 0 then 1 else 0)
  {
    assert y == n * (y / n) + y % n;
    if y % n == n - 1 {
      QuotientIs(y + 1, n, y / n + 1);
    } else {
      QuotientIs(y + 1, n, y / n);
    }
  }

  lemma LeapDivides(y: int)
    ensures y % 400 == 0 ==> y % 100 == 0
    ensures y % 100 == 0 ==> y % 4 == 0
  {
    assert y == 400 * (y / 400) + y % 400;
    assert y == 100 * (y / 100) + y % 100;
    if y % 400 == 0 { QuotientIs(y, 100, 4 * (y / 400)); }
    if y % 100 == 0 { QuotientIs(y, 4, 25 * (y / 100)); }
  }

  // ----- months -----

  /** First day of the month with index i = 12 * year + month - 1. */
  function MonthStart(i: int): int {
    DaysFromCivil(i / 12, i % 12 + 1, 1)
  }

  function MonthLength(i: int): int {
    DaysInMonth(i / 12, i % 12 + 1)
  }

  function MonthIndex(c: Date): int {
    12 * c.y + c.m - 1
  }

  lemma MonthIndexParts(y: int, m: int)
    requires 1 <= m <= 12
    ensures (12 * y + m - 1) / 12 == y && (12 * y + m - 1) % 12 == m - 1
  {
    QuotientIs(12 * y + m - 1, 12, y);
  }

  /** One month after another: the naive calendar, month by month. */
  lemma MonthStep(i: int)
    ensures MonthStart(i + 1) == MonthStart(i) + MonthLength(i)
    ensures 28 <= MonthLength(i) <= 31
  {
    hide YearDays, IsLeapYear, DaysFromCivil;
    var y, m := i / 12, i % 12 + 1;
    DaysClosedForm(y, m, 1);
    if m == 12 {
      MonthIndexParts(y + 1, 1);
      DaysClosedForm(y + 1, 1, 1);
    } else {
      MonthIndexParts(y, m + 1);
      DaysClosedForm(y, m + 1, 1);
      YearStep(y - 1);
    }
    MonthOffsets();
  }

  /** Offsets of consecutive months inside a shifted year differ by the month lengths. */
  lemma MonthOffsets()
    ensures [MonthOffset(3), MonthOffset(4), MonthOffset(5), MonthOffset(6), MonthOffset(7), MonthOffset(8)]
         == [0, 31, 61, 92, 122, 153]
    ensures [MonthOffset(9), MonthOffset(10), MonthOffset(11), MonthOffset(12), MonthOffset(1), MonthOffset(2)]
         == [184, 214, 245, 275, 306, 337]
  {
  }

  lemma DaysByMonth(c: Date)
    requires 1 <= c.m <= 12
    ensures Days(c) == MonthStart(MonthIndex(c)) + c.d - 1
    ensures MonthLength(MonthIndex(c)) == DaysInMonth(c.y, c.m)
  {
    MonthIndexParts(c.y, c.m);
    DaysClosedForm(c.y, c.m, c.d);
    DaysClosedForm(c.y, c.m, 1);
  }

  lemma {:induction false} MonthStartMonotone(i: int, j: int)
    requires i <= j
    ensures MonthStart(i) + 28 * (j - i) <= MonthStart(j)
    decreases j - i
  {
    hide MonthStart, MonthLength;
    if i < j {
      MonthStep(i);
      MonthStartMonotone(i + 1, j);
    }
  }

  /** Day numbers order dates the way the calendar does. */
  lemma DaysMonotone(a: Date, b: Date)
    requires ValidDate(a) && ValidDate(b)
    ensures Before(a, b) <==> Days(a) < Days(b)
  {
    hide DaysFromCivil, MonthStart, MonthLength;
    DaysByMonth(a);
    DaysByMonth(b);
    var i, j := MonthIndex(a), MonthIndex(b);
    if i < j {
      MonthStep(i);
      MonthStartMonotone(i + 1, j);
    } else if j < i {
      MonthStep(j);
      MonthStartMonotone(j + 1, i);
    }
  }

  // ----- the naive calendar -----

  function NextDay(c: Date): Date {
    if c.d < DaysInMonth(c.y, c.m) then Date(c.y, c.m, c.d + 1)
    else if c.m < 12 then Date(c.y, c.m + 1, 1)
    else Date(c.y + 1, 1, 1)
  }

  function PreviousDay(c: Date): Date {
    if c.d > 1 then Date(c.y, c.m, c.d - 1)
    else if c.m > 1 then Date(c.y, c.m - 1, DaysInMonth(c.y, c.m - 1))
    else Date(c.y - 1, 12, 31)
  }

  /** The date n days from 1970-01-01, found by stepping one day at a time. */
  function NaiveDate(n: int): Date
    decreases if n < 0 then -n else n
  {
    if n == 0 then Date(1970, 1, 1)
    else if n > 0 then NextDay(NaiveDate(n - 1))
    else PreviousDay(NaiveDate(n + 1))
  }

  lemma NextDayCounts(c: Date)
    requires ValidDate(c)
    ensures ValidDate(NextDay(c)) && Days(NextDay(c)) == Days(c) + 1
  {
    hide DaysFromCivil, MonthStart, MonthLength, IsLeapYear;
    DaysByMonth(c);
    DaysByMonth(NextDay(c));
    MonthStep(MonthIndex(c));
  }

  lemma PreviousDayCounts(c: Date)
    requires ValidDate(c)
    ensures ValidDate(PreviousDay(c)) && Days(PreviousDay(c)) == Days(c) - 1
  {
    hide DaysFromCivil, MonthStart, MonthLength, IsLeapYear;
    DaysByMonth(c);
    DaysByMonth(PreviousDay(c));
    MonthStep(MonthIndex(PreviousDay(c)));
  }

  lemma EpochIsDayZero()
    ensures DaysFromCivil(1970, 1, 1) == 0
  {
  }

  /** The closed formula agrees with stepping one day at a time. */
  lemma {:induction false} DaysOfNaiveDate(n: int)
    ensures ValidDate(NaiveDate(n)) && Days(NaiveDate(n)) == n
    decreases if n < 0 then -n else n
  {
    hide DaysFromCivil, NextDay, PreviousDay;
    if n == 0 {
      EpochIsDayZero();
    } else if n > 0 {
      DaysOfNaiveDate(n - 1);
      NextDayCounts(NaiveDate(n - 1));
    } else {
      DaysOfNaiveDate(n + 1);
      PreviousDayCounts(NaiveDate(n + 1));
    }
  }

  // ----- civil_from_days inverts days_from_civil -----

  /** The year-of-era estimate, split by century c and day of century r. */
  lemma YearOfCentury(c: int, r: int, t: int)
    requires 0 <= c <= 3 && 0 <= r < 36524
    requires t == (r - (24 * c + r) / 1460) / 365
    ensures 0 <= t <= 99 && 365 * t + t / 4 <= r < 365 * (t + 1) + (t + 1) / 4
  {
  }

  lemma YearInCentury(c: int, t: int)
    requires 0 <= t <= 99
    ensures (100 * c + t) / 4 - (100 * c + t) / 100 == 24 * c + t / 4
    ensures (100 * c + t + 1) / 4 - (100 * c + t + 1) / 100 == 24 * c + (t + 1) / 4 - (if t == 99 then 1 else 0)
  {
    QuotientIs(100 * c + t, 4, 25 * c + t / 4);
    QuotientIs(100 * c + t, 100, c);
    QuotientIs(100 * c + t + 1, 4, 25 * c + (t + 1) / 4);
    QuotientIs(100 * c + t + 1, 100, if t == 99 then c + 1 else c);
  }

  lemma YearOfEraInCentury(c: int, r: int)
    requires 0 <= c <= 3 && 0 <= r < 36524
    ensures YearOfEra(36524 * c + r) == 100 * c + (r - (24 * c + r) / 1460) / 365
  {
    var doe := 36524 * c + r;
    QuotientIs(doe, 36524, c);
    QuotientIs(doe, 146096, 0);
    QuotientIs(doe, 1460, 25 * c + (24 * c + r) / 1460);
    var x := r - (24 * c + r) / 1460;
    assert doe - doe / 1460 + doe / 36524 - doe / 146096 == 36500 * c + x;
    QuotientIs(36500 * c + x, 365, 100 * c + x / 365);
  }

  /** The year computed from a day of the era is the one that contains it. */
  lemma YearOfEraContains(doe: int)
    requires 0 <= doe <= 146096
    ensures var yoe := YearOfEra(doe);
      0 <= yoe <= 399 && EraDays(yoe) <= doe && (yoe < 399 ==> doe < EraDays(yoe + 1))
  {
    if doe == 146096 {
      assert YearOfEra(doe) == 399;
    } else {
      var c, r := doe / 36524, doe % 36524;
      assert doe == 36524 * c + r;
      QuotientIs(146095, 36524, 3);
      if c > 3 { MulLe(36524, 4, c); }
      var t := (r - (24 * c + r) / 1460) / 365;
      YearOfEraInCentury(c, r);
      YearOfCentury(c, r, t);
      YearInCentury(c, t);
    }
  }

  lemma YearDayIsDate(y: int, doy: int)
    requires 0 <= doy <= (if IsLeapYear(y + 1) then 365 else 364)
    ensures var c := CivilOfYearDay(y, doy);
      ValidDate(c) && ShiftedYear(c.y, c.m) == y && MonthOffset(c.m) + c.d - 1 == doy
  {
    hide IsLeapYear;
    MonthOffsets();
    var mp := (5 * doy + 2) / 153;
    assert 0 <= mp <= 11;
  }

  /** A year of the era is as long as its February, which ends it, allows. */
  lemma DayOfYear(e: int, yoe: int, doe: int)
    requires 0 <= yoe <= 399 && EraDays(yoe) <= doe <= 146096 && (yoe < 399 ==> doe < EraDays(yoe + 1))
    ensures doe - EraDays(yoe) <= (if IsLeapYear(400 * e + yoe + 1) then 365 else 364)
  {
    hide IsLeapYear, YearDays;
    EraSum(e, yoe);
    YearStep(400 * e + yoe);
    if yoe < 399 {
      EraSum(e, yoe + 1);
    } else {
      assert YearDays(400 * (e + 1)) == YearDays(400 * e + 399 + 1);
      EraSum(e + 1, 0);
    }
  }

  /** civil_from_days yields a valid date with the day number it was given. */
  lemma DaysOfCivil(day: int)
    ensures ValidDate(CivilFromDays(day)) && Days(CivilFromDays(day)) == day
  {
    hide IsLeapYear, YearDays, YearOfEra, EraDays, CivilOfYearDay, ValidDate, DaysFromCivil, MonthOffset, ShiftedYear;
    var z := day + 719468;
    FloorByTrunc(z, 146097);
    var era, doe := z / 146097, z % 146097;
    var yoe := YearOfEra(doe);
    YearOfEraContains(doe);
    DayOfYear(era, yoe, doe);
    YearDayIsDate(yoe + era * 400, doe - EraDays(yoe));
    EraSumClosed(era, yoe);
    var c := CivilFromDays(day);
    DaysClosedForm(c.y, c.m, c.d);
  }

  lemma EraSumClosed(e: int, yoe: int)
    requires 0 <= yoe < 400
    ensures YearDays(yoe + e * 400) == e * 146097 + EraDays(yoe)
  {
    EraSum(e, yoe);
  }

  /** days_from_civil is inverted by civil_from_days on every valid date. */
  lemma CivilOfDays(c: Date)
    requires ValidDate(c)
    ensures CivilFromDays(Days(c)) == c
  {
    hide DaysFromCivil, CivilFromDays, ValidDate;
    var c' := CivilFromDays(Days(c));
    DaysOfCivil(Days(c));
    DaysMonotone(c, c');
    DaysMonotone(c', c);
  }

  /** civil_from_days is the naive calendar. */
  lemma CivilIsNaive(n: int)
    ensures CivilFromDays(n) == NaiveDate(n)
  {
    hide DaysFromCivil, CivilFromDays, ValidDate, NaiveDate;
    DaysOfNaiveDate(n);
    CivilOfDays(NaiveDate(n));
  }

  // ----- years as ranges of days -----

  function YearStart(y: int): int {
    DaysFromCivil(y, 1, 1)
  }

  lemma YearLength(y: int)
    ensures YearStart(y + 1) == YearStart(y) + (if IsLeapYear(y) then 366 else 365)
  {
    hide YearDays, IsLeapYear, DaysFromCivil;
    DaysClosedForm(y, 1, 1);
    DaysClosedForm(y + 1, 1, 1);
    YearStep(y - 1);
  }

  lemma YearStartMonotone(a: int, b: int)
    requires a < b
    ensures YearStart(a) < YearStart(b)
  {
    hide DaysFromCivil;
    DaysMonotone(Date(a, 1, 1), Date(b, 1, 1));
  }

  /** The year of a day is the one whose range of days holds it. */
  lemma YearOfDay(day: int, y: int)
    ensures CivilFromDays(day).y == y <==> YearStart(y) <= day < YearStart(y + 1)
  {
    hide DaysFromCivil, CivilFromDays, IsLeapYear;
    var c := CivilFromDays(day);
    DaysOfCivil(day);
    DaysMonotone(c, Date(y, 1, 1));
    DaysMonotone(c, Date(y + 1, 1, 1));
  }

  /** The month of a day, likewise. */
  lemma MonthOfDay(day: int, i: int)
    ensures MonthIndex(CivilFromDays(day)) == i <==> MonthStart(i) <= day < MonthStart(i + 1)
  {
    hide DaysFromCivil, CivilFromDays, IsLeapYear, MonthStart, MonthLength;
    var c := CivilFromDays(day);
    DaysOfCivil(day);
    DaysByMonth(c);
    var j := MonthIndex(c);
    MonthStep(j);
    if j < i { MonthStartMonotone(j + 1, i); }
    if i < j { MonthStartMonotone(i + 1, j); }
  }

  // ----- finite ranges -----

  const JULIAN_UNIX_EPOCH := 2_440_588

  const DATE_MIN := -JULIAN_UNIX_EPOCH

  const DATE_MAX := DaysFromCivil(5_874_897, 12, 31)

  lemma FirstDate()
    ensures DaysFromCivil(-4713, 11, 24) == DATE_MIN
  {
  }

  /** The first and the last finite date, and 32-bit years in between: no cast loses bits. */
  lemma FiniteDates(day: int)
    requires DATE_MIN <= day <= DATE_MAX
    ensures Date(-4713, 11, 24) == CivilFromDays(DATE_MIN)
    ensures -4713 <= CivilFromDays(day).y <= 5_874_897
  {
    hide DaysFromCivil, CivilFromDays, IsLeapYear;
    var lo, hi, c := Date(-4713, 11, 24), Date(5_874_897, 12, 31), CivilFromDays(day);
    FirstDate();
    CivilOfDays(lo);
    DaysOfCivil(day);
    DaysMonotone(c, lo);
    DaysMonotone(hi, c);
  }
}

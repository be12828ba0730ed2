/** date_trunc (src/datetime.rs): truncation is the floor to the unit's boundaries. */
module DateTrunc {
  import opened Wrappers
  import opened Calendar
  import opened IsoWeek
  import opened Timestamps

  datatype Unit =
    | Millennium | Century | Decade | Year | Quarter | Month | Week
    | Day | Hour | Minute | Second | Millisecond | Microsecond

  predicate IsYearUnit(u: Unit) {
    u.Millennium? || u.Century? || u.Decade? || u.Year?
  }

  predicate IsMonthUnit(u: Unit) {
    u.Quarter? || u.Month?
  }

  predicate IsClockUnit(u: Unit) {
    u.Day? || u.Hour? || u.Minute? || u.Second? || u.Millisecond? || u.Microsecond?
  }

  function UnitOf(field: string): Option<Unit> {
    if field == "millennium" then Some(Millennium)
    else if field == "century" then Some(Century)
    else if field == "decade" then Some(Decade)
    else if field == "year" then Some(Year)
    else if field == "quarter" then Some(Quarter)
    else if field == "month" then Some(Month)
    else if field == "week" then Some(Week)
    else if field == "day" then Some(Day)
    else if field == "hour" then Some(Hour)
    else if field == "minute" then Some(Minute)
    else if field == "second" then Some(Second)
    else if field == "milliseconds" || field == "millisecond" then Some(Millisecond)
    else if field == "microseconds" || field == "microsecond" then Some(Microsecond)
    else None
  }

  function CenturyOf(y: int): int {
    if y > 0 then TruncDiv(y - 1, 100) + 1
    else var bc := 1 - y; -(TruncDiv(bc - 1, 100) + 1)
  }

  function MillenniumOf(y: int): int {
    if y > 0 then TruncDiv(y - 1, 1000) + 1
    else var bc := 1 - y; -(TruncDiv(bc - 1, 1000) + 1)
  }

  function CenturyStart(y: int): int {
    var c := CenturyOf(y);
    if c > 0 then (c - 1) * 100 + 1 else 1 - ((-c - 1) * 100 + 100)
  }

  function MillenniumStart(y: int): int {
    var c := MillenniumOf(y);
    if c > 0 then (c - 1) * 1000 + 1 else 1 - ((-c - 1) * 1000 + 1000)
  }

  function DayMicros(y: int, m: int, d: int): int {
    DaysFromCivil(y, m, d) * PER_DAY
  }

  function AtHms(base: int, h: int, mi: int, s: int): int {
    base + (h * 3600 + mi * 60 + s) * 1_000_000
  }

  /** Truncation of a finite timestamp. */
  function Truncate(u: Unit, t: int): int {
    var s := SplitMicros(t);
    var c := CivilFromDays(s.days);
    var hh := s.tod / 3_600_000_000;
    var mm := (s.tod / 60_000_000) % 60;
    var ss := (s.tod / 1_000_000) % 60;
    match u
    case Millennium => DayMicros(MillenniumStart(c.y), 1, 1)
    case Century => DayMicros(CenturyStart(c.y), 1, 1)
    case Decade => DayMicros(TruncDiv(c.y, 10) * 10, 1, 1)
    case Year => DayMicros(c.y, 1, 1)
    case Quarter => DayMicros(c.y, (c.m - 1) / 3 * 3 + 1, 1)
    case Month => DayMicros(c.y, c.m, 1)
    case Week => (s.days - MondayBased(s.days)) * PER_DAY
    case Day => s.days * PER_DAY
    case Hour => AtHms(s.days * PER_DAY, hh, 0, 0)
    case Minute => AtHms(s.days * PER_DAY, hh, mm, 0)
    case Second => AtHms(s.days * PER_DAY, hh, mm, ss)
    case Millisecond => s.days * PER_DAY + s.tod / 1000 * 1000
    case Microsecond => t
  }

  /** The unit is validated before the infinities pass through. */
  function Trunc(field: string, t: int): Result<int, string> {
    var u := UnitOf(field);
    if u.None? then Err("unit not supported for date_trunc")
    else if !Finite(t) then Ok(t)
    else Ok(Truncate(u.value, t))
  }

  // ----- the uniform formulas -----

  /** One floor formula covers both eras. */
  lemma CenturyUniform(y: int)
    ensures CenturyStart(y) == (y - 1) / 100 * 100 + 1
  {
    if y > 0 {
      assert CenturyOf(y) == (y - 1) / 100 + 1;
    } else {
      var q := -y / 100;
      assert CenturyOf(y) == -(q + 1);
      QuotientIs(y - 1, 100, -q - 1);
    }
  }

  lemma MillenniumUniform(y: int)
    ensures MillenniumStart(y) == (y - 1) / 1000 * 1000 + 1
  {
    if y > 0 {
      assert MillenniumOf(y) == (y - 1) / 1000 + 1;
    } else {
      var q := -y / 1000;
      assert MillenniumOf(y) == -(q + 1);
      QuotientIs(y - 1, 1000, -q - 1);
    }
  }

  // ----- boundaries -----

  /** The first year of a group of n years, counted from year `first`. */
  predicate GroupStart(y: int, n: int, first: int)
    requires n > 0
  {
    (y - first) % n == 0
  }

  /** Years grouped by the unit: size of the group and a year that starts one. */
  function YearGroup(u: Unit): (r: (int, int))
    requires IsYearUnit(u)
    ensures r.0 > 0
  {
    match u
    case Millennium => (1000, 1)
    case Century => (100, 1)
    case Decade => (10, 0)
    case Year => (1, 0)
  }

  /** Months grouped by the unit. */
  function MonthGroup(u: Unit): (n: int)
    requires IsMonthUnit(u)
    ensures n > 0
  {
    if u == Quarter then 3 else 1
  }

  function ClockStep(u: Unit): (n: int)
    requires IsClockUnit(u)
    ensures n > 0
  {
    match u
    case Day => PER_DAY
    case Hour => 3_600_000_000
    case Minute => 60_000_000
    case Second => 1_000_000
    case Millisecond => 1000
    case Microsecond => 1
  }

  /** Does the instant start a unit? */
  predicate Boundary(u: Unit, b: int) {
    if IsYearUnit(u) then
      var c := CivilFromDays(b / PER_DAY);
      b % PER_DAY == 0 && c.d == 1 && c.m == 1 && GroupStart(c.y, YearGroup(u).0, YearGroup(u).1)
    else if IsMonthUnit(u) then
      var c := CivilFromDays(b / PER_DAY);
      b % PER_DAY == 0 && c.d == 1 && (c.m - 1) % MonthGroup(u) == 0
    else if u == Week then b % PER_DAY == 0 && MondayBased(b / PER_DAY) == 0
    else b % ClockStep(u) == 0
  }

  /** r is the last boundary at or before t. */
  ghost predicate IsFloor(u: Unit, t: int, r: int) {
    Boundary(u, r) && r <= t && forall b | Boundary(u, b) && b <= t :: b <= r
  }

  /** Units for which truncation can fail to be a floor: decades of negative years. */
  predicate Regular(u: Unit, t: int) {
    u == Decade ==> CivilFromDays(t / PER_DAY).y >= 0 || CivilFromDays(t / PER_DAY).y % 10 == 0
  }

  // ----- truncation is a floor -----

  function TruncYear(u: Unit, y: int): int
    requires IsYearUnit(u)
  {
    var (n, first) := YearGroup(u);
    (y - first) / n * n + first
  }

  /** The instant that starts year y starts the unit exactly when y starts a group. */
  lemma YearBoundary(u: Unit, y: int)
    requires IsYearUnit(u)
    ensures Boundary(u, DayMicros(y, 1, 1)) <==> GroupStart(y, YearGroup(u).0, YearGroup(u).1)
  {
    hide DaysFromCivil, CivilFromDays;
    CivilOfDays(Date(y, 1, 1));
    WholeDay(DaysFromCivil(y, 1, 1));
  }

  lemma WholeDay(day: int)
    ensures day * PER_DAY % PER_DAY == 0 && day * PER_DAY / PER_DAY == day
  {
    QuotientIs(day * PER_DAY, PER_DAY, day);
  }

  lemma BoundaryIsYear(u: Unit, b: int)
    requires IsYearUnit(u) && Boundary(u, b)
    ensures b == DayMicros(CivilFromDays(b / PER_DAY).y, 1, 1)
  {
    hide DaysFromCivil, CivilFromDays;
    DaysOfCivil(b / PER_DAY);
  }

  lemma YearsOrdered(a: int, b: int)
    ensures DayMicros(a, 1, 1) <= DayMicros(b, 1, 1) <==> a <= b
  {
    hide DaysFromCivil;
    if a < b { YearStartMonotone(a, b); }
    if b < a { YearStartMonotone(b, a); }
  }

  lemma MultipleOf(q: int, n: int)
    requires n > 0
    ensures q * n % n == 0 && q * n / n == q
  {
    QuotientIs(q * n, n, q);
  }

  lemma GroupFloor(y: int, n: int, first: int, r: int)
    requires n > 0 && r == (y - first) / n * n + first
    ensures GroupStart(r, n, first) && r <= y
    ensures forall z {:trigger GroupStart(z, n, first)} :: GroupStart(z, n, first) && z <= y ==> z <= r
  {
    var q := (y - first) / n;
    MultipleOf(q, n);
    assert y - first == n * q + (y - first) % n;
    forall z | GroupStart(z, n, first) && z <= y
      ensures z <= r
    {
      var k := (z - first) / n;
      assert z - first == n * k;
      if k > q { MulLe(n, q + 1, k); }
    }
  }

  lemma TruncateYearUnits(u: Unit, t: int)
    requires IsYearUnit(u) && Regular(u, t)
    ensures Truncate(u, t) == DayMicros(TruncYear(u, CivilFromDays(t / PER_DAY).y), 1, 1)
  {
    hide DaysFromCivil, CivilFromDays, MillenniumStart, CenturyStart, SplitMicros, TruncDiv, DayMicros;
    SplitIsFloor(t);
    var y := CivilFromDays(t / PER_DAY).y;
    CenturyUniform(y);
    MillenniumUniform(y);
    if u == Decade {
      DecadeByFloor(y);
    }
  }

  lemma DecadeByFloor(y: int)
    requires y >= 0 || y % 10 == 0
    ensures TruncDiv(y, 10) == y / 10
  {
    if y < 0 {
      QuotientIs(y, 10, -(-y / 10));
    }
  }

  lemma YearUnitsFloor(u: Unit, t: int)
    requires IsYearUnit(u) && Regular(u, t)
    ensures IsFloor(u, t, Truncate(u, t))
  {
    hide DaysFromCivil, CivilFromDays, Boundary, Truncate, YearGroup, DayMicros, TruncYear;
    var day := t / PER_DAY;
    var y := CivilFromDays(day).y;
    var r := TruncYear(u, y);
    TruncateYearUnits(u, t);
    TruncYearFloor(u, y);
    YearBoundary(u, r);
    YearContains(t, y);
    YearsOrdered(r, y);
    forall b | Boundary(u, b) && b <= t
      ensures b <= Truncate(u, t)
    {
      var z := CivilFromDays(b / PER_DAY).y;
      BoundaryIsYear(u, b);
      YearBoundary(u, z);
      YearsOrdered(y + 1, z);
      YearsOrdered(z, r);
    }
  }

  lemma TruncYearFloor(u: Unit, y: int)
    requires IsYearUnit(u)
    ensures var r := TruncYear(u, y); var (n, first) := YearGroup(u);
      && GroupStart(r, n, first) && r <= y
      && forall z {:trigger GroupStart(z, n, first)} :: GroupStart(z, n, first) && z <= y ==> z <= r
  {
    var (n, first) := YearGroup(u);
    GroupFloor(y, n, first, TruncYear(u, y));
  }

  lemma YearContains(t: int, y: int)
    requires y == CivilFromDays(t / PER_DAY).y
    ensures DayMicros(y, 1, 1) <= t < DayMicros(y + 1, 1, 1)
  {
    hide DaysFromCivil, CivilFromDays;
    YearOfDay(t / PER_DAY, y);
  }

  // ----- months -----

  function MonthMicros(i: int): int {
    MonthStart(i) * PER_DAY
  }

  lemma MonthBoundary(u: Unit, i: int)
    requires IsMonthUnit(u)
    ensures Boundary(u, MonthMicros(i)) <==> GroupStart(i, MonthGroup(u), 0)
  {
    hide DaysFromCivil, CivilFromDays;
    CivilOfDays(Date(i / 12, i % 12 + 1, 1));
    WholeDay(MonthStart(i));
    assert i == 12 * (i / 12) + i % 12;
  }

  lemma BoundaryIsMonth(u: Unit, b: int)
    requires IsMonthUnit(u) && Boundary(u, b)
    ensures b == MonthMicros(MonthIndex(CivilFromDays(b / PER_DAY)))
  {
    hide DaysFromCivil, CivilFromDays, MonthStart;
    var c := CivilFromDays(b / PER_DAY);
    DaysOfCivil(b / PER_DAY);
    DaysByMonth(c);
  }

  lemma MonthsOrdered(i: int, j: int)
    ensures MonthMicros(i) <= MonthMicros(j) <==> i <= j
  {
    hide MonthStart;
    if i < j { MonthStartMonotone(i, j); } else { MonthStartMonotone(j, i); }
  }

  lemma TruncateMonthUnits(u: Unit, t: int)
    requires IsMonthUnit(u)
    ensures var i := MonthIndex(CivilFromDays(t / PER_DAY)); var n := MonthGroup(u);
      Truncate(u, t) == MonthMicros(i / n * n)
  {
    hide DaysFromCivil, CivilFromDays;
    SplitIsFloor(t);
    var c := CivilFromDays(t / PER_DAY);
    DaysOfCivil(t / PER_DAY);
    var m := (c.m - 1) / 3 * 3;
    MonthIndexParts(c.y, c.m);
    MonthIndexParts(c.y, m + 1);
    QuotientIs(MonthIndex(c), 3, 4 * c.y + (c.m - 1) / 3);
  }

  lemma MonthUnitsFloor(u: Unit, t: int)
    requires IsMonthUnit(u)
    ensures IsFloor(u, t, Truncate(u, t))
  {
    hide DaysFromCivil, CivilFromDays, Boundary, Truncate, MonthStart, MonthMicros, GroupStart, MonthIndex;
    var i := MonthIndex(CivilFromDays(t / PER_DAY));
    var n := MonthGroup(u);
    var r := i / n * n;
    TruncateMonthUnits(u, t);
    GroupFloor(i, n, 0, r);
    MonthBoundary(u, r);
    MonthContains(t, i);
    MonthsOrdered(r, i);
    forall b | Boundary(u, b) && b <= t
      ensures b <= Truncate(u, t)
    {
      var z := MonthIndex(CivilFromDays(b / PER_DAY));
      BoundaryIsMonth(u, b);
      MonthBoundary(u, z);
      MonthsOrdered(i + 1, z);
      MonthsOrdered(z, r);
    }
  }

  lemma MonthContains(t: int, i: int)
    requires i == MonthIndex(CivilFromDays(t / PER_DAY))
    ensures MonthMicros(i) <= t < MonthMicros(i + 1)
  {
    hide DaysFromCivil, CivilFromDays, MonthStart, MonthIndex;
    MonthOfDay(t / PER_DAY, i);
  }

  // ----- weeks and clock units -----

  lemma WeekFloor(t: int)
    ensures IsFloor(Week, t, Truncate(Week, t))
  {
    hide DaysFromCivil, CivilFromDays, MondayBased, WeekNumber;
    SplitIsFloor(t);
    var day := t / PER_DAY;
    DayInWeek(day);
    var monday := day - MondayBased(day);
    BuiltWeek(monday, WeekNumber(day), 1);
    WholeDay(monday);
    forall b | Boundary(Week, b) && b <= t
      ensures b <= Truncate(Week, t)
    {
      DayInWeek(b / PER_DAY);
    }
  }

  lemma ClockFloor(u: Unit, t: int)
    requires IsClockUnit(u)
    ensures IsFloor(u, t, Truncate(u, t))
  {
    hide CivilFromDays, SplitMicros, Truncate, ClockStep;
    var n := ClockStep(u);
    ClockTruncation(u, t);
    GroupFloor(t, n, 0, t / n * n);
    assert forall b :: Boundary(u, b) <==> GroupStart(b, n, 0);
  }

  lemma ClockTruncation(u: Unit, t: int)
    requires IsClockUnit(u)
    ensures Truncate(u, t) == t / ClockStep(u) * ClockStep(u)
  {
    hide CivilFromDays, SplitMicros, MondayBased, CenturyStart, MillenniumStart, DaysFromCivil, TruncDiv;
    var s := SplitMicros(t);
    SplitIsFloor(t);
    ClockFields(s.tod);
    match u
    case Day =>
    case Hour => StepOfDay(s.days, s.tod, 3_600_000_000, 24);
    case Minute => StepOfDay(s.days, s.tod, 60_000_000, 1440);
    case Second => StepOfDay(s.days, s.tod, 1_000_000, 86_400);
    case Millisecond => StepOfDay(s.days, s.tod, 1000, 86_400_000);
    case Microsecond =>
  }

  lemma StepOfDay(days: int, tod: int, n: int, k: int)
    requires n > 0 && PER_DAY == k * n
    ensures (days * PER_DAY + tod) / n == days * k + tod / n
    ensures (days * PER_DAY + tod) / n * n == days * PER_DAY + tod / n * n
  {
    assert days * PER_DAY == n * (days * k);
    QuotientIs(days * PER_DAY + tod, n, days * k + tod / n);
  }

  /** date_trunc is the floor to the boundaries of the unit, decades of negative years aside. */
  lemma TruncateIsFloor(u: Unit, t: int)
    requires Regular(u, t)
    ensures IsFloor(u, t, Truncate(u, t))
  {
    hide Truncate, Boundary, IsFloor;
    match u
    case Millennium => YearUnitsFloor(u, t);
    case Century => YearUnitsFloor(u, t);
    case Decade => YearUnitsFloor(u, t);
    case Year => YearUnitsFloor(u, t);
    case Quarter => MonthUnitsFloor(u, t);
    case Month => MonthUnitsFloor(u, t);
    case Week => WeekFloor(t);
    case _ => ClockFloor(u, t);
  }

  /** Exactly when: a decade of a negative year is truncated forward, past the instant,
      unless the year itself starts the decade. */
  lemma DecadeFloorExactly(t: int)
    ensures Truncate(Decade, t) <= t <==> Regular(Decade, t)
  {
    hide DaysFromCivil, CivilFromDays;
    if Regular(Decade, t) {
      TruncateIsFloor(Decade, t);
    } else {
      var y := CivilFromDays(t / PER_DAY).y;
      SplitIsFloor(t);
      YearContains(t, y);
      assert TruncDiv(y, 10) * 10 >= y + 1;
      YearsOrdered(y + 1, TruncDiv(y, 10) * 10);
    }
  }

  /** The instant is truncated forward: noon of 0006-07-01 BC, the year -5, gives the start of
      the year 0. */
  lemma DecadePastInstant()
    ensures var t := DayMicros(-5, 7, 1) + PER_DAY / 2;
      Truncate(Decade, t) == DayMicros(0, 1, 1) && t < Truncate(Decade, t)
  {
    hide DaysFromCivil, CivilFromDays;
    var day := DaysFromCivil(-5, 7, 1);
    CivilOfDays(Date(-5, 7, 1));
    var t := DayMicros(-5, 7, 1) + PER_DAY / 2;
    QuotientIs(t, PER_DAY, day);
    SplitIsFloor(t);
    YearContains(t, -5);
    YearsOrdered(-4, 0);
  }

  // ----- consequences -----

  /** The year a decade is truncated to, negative years included. */
  function DecadeOf(y: int): int {
    TruncDiv(y, 10) * 10
  }

  lemma TruncateDecade(t: int)
    ensures Truncate(Decade, t) == DayMicros(DecadeOf(CivilFromDays(t / PER_DAY).y), 1, 1)
    ensures CivilFromDays(Truncate(Decade, t) / PER_DAY).y == DecadeOf(CivilFromDays(t / PER_DAY).y)
  {
    hide DaysFromCivil, CivilFromDays;
    SplitIsFloor(t);
    var y := DecadeOf(CivilFromDays(t / PER_DAY).y);
    CivilOfDays(Date(y, 1, 1));
    WholeDay(DaysFromCivil(y, 1, 1));
  }

  lemma DecadesOrdered(y: int, z: int)
    requires y <= z
    ensures DecadeOf(y) <= DecadeOf(z) && DecadeOf(DecadeOf(y)) == DecadeOf(y)
  {
  }

  /** Truncating twice changes nothing more. */
  lemma TruncateIdempotent(u: Unit, t: int)
    ensures Truncate(u, Truncate(u, t)) == Truncate(u, t)
  {
    hide Truncate, CivilFromDays, DecadeOf;
    var r := Truncate(u, t);
    if u == Decade {
      TruncateDecade(t);
      TruncateDecade(r);
      DecadesOrdered(CivilFromDays(t / PER_DAY).y, CivilFromDays(t / PER_DAY).y);
    } else {
      TruncateIsFloor(u, t);
      TruncateIsFloor(u, r);
    }
  }

  /** A later instant is never truncated to an earlier boundary. */
  lemma TruncateMonotone(u: Unit, t: int, t': int)
    requires t <= t'
    ensures Truncate(u, t) <= Truncate(u, t')
  {
    hide Truncate, Boundary, Regular, CivilFromDays, DecadeOf, DayMicros;
    if u == Decade {
      var y, z := CivilFromDays(t / PER_DAY).y, CivilFromDays(t' / PER_DAY).y;
      YearContains(t, y);
      YearContains(t', z);
      YearsOrdered(z + 1, y);
      DecadesOrdered(y, if y <= z then z else y);
      TruncateDecade(t);
      TruncateDecade(t');
      YearsOrdered(DecadeOf(y), DecadeOf(z));
    } else {
      RegularUnit(u, t);
      RegularUnit(u, t');
      TruncateIsFloor(u, t);
      TruncateIsFloor(u, t');
    }
  }

  lemma RegularUnit(u: Unit, t: int)
    requires u != Decade
    ensures Regular(u, t)
  {
  }

  /** Which units refine which: every boundary of the coarser is one of the finer. */
  predicate Refines(fine: Unit, coarse: Unit) {
    match coarse
    case Millennium => fine == Century || fine == Year || IsMonthUnit(fine) || IsClockUnit(fine)
    case Century => fine == Year || IsMonthUnit(fine) || IsClockUnit(fine)
    case Decade => fine == Year || IsMonthUnit(fine) || IsClockUnit(fine)
    case Year => IsMonthUnit(fine) || IsClockUnit(fine)
    case Quarter => fine == Month || IsClockUnit(fine)
    case Month => IsClockUnit(fine)
    case Week => IsClockUnit(fine)
    case _ => IsClockUnit(fine) && ClockStep(fine) < ClockStep(coarse)
  }

  lemma DayBoundaryIsClockBoundary(b: int, n: int, k: int)
    requires n > 0 && k > 0 && k * n > 0 && b % (k * n) == 0
    ensures b % n == 0
  {
    var q := b / (k * n);
    assert b == q * k * n;
    QuotientIs(b, n, q * k);
  }

  lemma BoundariesNest(fine: Unit, coarse: Unit, b: int)
    requires Refines(fine, coarse) && Boundary(coarse, b)
    ensures Boundary(fine, b)
  {
    hide CivilFromDays, MondayBased;
    if IsClockUnit(fine) {
      var n := ClockStep(fine);
      if IsClockUnit(coarse) {
        DayBoundaryIsClockBoundary(b, n, ClockStep(coarse) / n);
      } else {
        DayBoundaryIsClockBoundary(b, n, PER_DAY / n);
      }
    } else if coarse == Millennium && fine == Century {
      CenturiesInMillennium(CivilFromDays(b / PER_DAY).y);
    }
  }

  lemma CenturiesInMillennium(y: int)
    requires GroupStart(y, 1000, 1)
    ensures GroupStart(y, 100, 1)
  {
    var q := (y - 1) / 1000;
    QuotientIs(y - 1, 100, q * 10);
  }

  /** Truncating to a unit that refines the year stays in the year. */
  lemma TruncateKeepsYear(fine: Unit, t: int)
    requires fine == Year || Refines(fine, Year)
    ensures CivilFromDays(Truncate(fine, t) / PER_DAY).y == CivilFromDays(t / PER_DAY).y
  {
    hide CivilFromDays, Truncate, DaysFromCivil, Boundary;
    var y := CivilFromDays(t / PER_DAY).y;
    var f, start := Truncate(fine, t), DayMicros(y, 1, 1);
    YearContains(t, y);
    YearBoundary(Year, y);
    if fine != Year {
      BoundariesNest(fine, Year, start);
    }
    TruncateIsFloor(fine, t);
    assert start <= f < DayMicros(y + 1, 1, 1);
    YearOfDay(f / PER_DAY, y);
  }

  /** Truncating to a finer unit first does not change a coarser truncation. */
  lemma TruncateNests(fine: Unit, coarse: Unit, t: int)
    requires Refines(fine, coarse)
    ensures Truncate(coarse, Truncate(fine, t)) == Truncate(coarse, t)
  {
    hide Truncate, Boundary, CivilFromDays, DecadeOf;
    var f := Truncate(fine, t);
    if coarse == Decade {
      TruncateKeepsYear(fine, t);
      TruncateDecade(t);
      TruncateDecade(f);
    } else {
      TruncateIsFloor(fine, t);
      TruncateIsFloor(coarse, t);
      TruncateIsFloor(coarse, f);
      BoundariesNest(fine, coarse, Truncate(coarse, t));
    }
  }
}

/** Other ways to write dates and times: compact dates, Julian days, days of the year, AM and PM,
    fractions and offsets. */
module DateTextForms {
  import opened Integers
  import opened Wrappers
  import opened Text
  import opened Decimal
  import opened Calendar
  import opened Timestamps
  import opened DateText
  import opened DateTextRoundTrip
  import opened DateTextOrders

  // ----- one field that ends in a digit -----

  /** Letters, digits and dots, no T between digits. */
  predicate OneWord(f: string) {
    && f != "" && IsDigit(f[|f| - 1]) && !IsSpace(f[0])
    && forall i | 0 <= i < |f| :: IsDigit(f[i]) || f[i] == '.' || f[i] == 'J' || f[i] == 'j'
  }

  lemma OneWordText(f: string)
    requires OneWord(f)
    ensures Trim(f) == f && Cleaned(f) == f && Runs(f, IsSpace) == [f] && SpecialOf(f).None?
  {
    hide Runs, Trim, SpecialOf;
    TrimNothing(f);
    OneRun(f, IsSpace);
    EndsInDigit(f);
  }

  /** What a date of one field decodes to. */
  lemma OneWordDate(z: Zones, order: DateOrder, now: int, f: string)
    requires OneWord(f)
    ensures ParseDate(z, order, now, f) ==
      var st := DecodeField(z, START, f);
      if st.Err? then Err(st.error)
      else
        var days := DaysOf(order, st.value);
        if days.Err? then Err(days.error)
        else
          var dec := Meridian(st.value, days.value);
          if dec.Err? then Err(dec.error) else if ValidDay(dec.value.days) then Ok(dec.value.days) else Err(FieldRange)
  {
    hide Runs, Trim, SpecialOf, Cleaned, DecodeField, DaysOf, Meridian;
    OneWordText(f);
    RunFields2(z, START, f, "");
  }

  // ----- eight and six digits -----

  /** The digits of year, month and day, one after the other. */
  lemma CompactValue(y: string, m: string, d: string)
    requires AllDigits(y) && AllDigits(m) && AllDigits(d) && |m| == |d| == 2
    ensures var f := y + (m + d);
      AllDigits(f) && Value(f) / 10000 == Value(y) && Value(f) % 10000 / 100 == Value(m) && Value(f) % 100 == Value(d)
      && Value(f) / 100 % 100 == Value(m)
  {
    hide Value;
    ValueAppend(y, m + d);
    ValueAppend(m, d);
    ValueBelow(m);
    ValueBelow(d);
    assert Pow10(2) == 100 && Pow10(4) == 10_000;
    Parts(Value(y), Value(m), Value(d));
  }

  lemma Parts(y: nat, m: nat, d: nat)
    requires m < 100 && d < 100
    ensures var v := y * 10_000 + (m * 100 + d); v / 10_000 == y && v % 10_000 / 100 == m && v % 100 == d
    ensures var v := y * 10_000 + (m * 100 + d); v / 100 % 100 == m
  {
    assert (y * 10_000 + (m * 100 + d)) / 100 == y * 100 + m;
  }

  lemma CompactField(z: Zones, f: string)
    requires |f| == 8 && AllDigits(f)
    ensures DecodeField(z, START, f) == CompactDate(START, f)
  {
    hide CompactDate, MonthFromName;
    assert !IsLetter(f[0]);
  }

  /** YYYYMMDD is that date under every order; what is no date is refused. */
  lemma CompactDates(z: Zones, order: DateOrder, now: int, c: Date, y: string, m: string, d: string)
    requires 1 <= c.y && 0 <= c.m && 0 <= c.d
    requires Spells(y, c.y, 4, 4) && Spells(m, c.m, 2, 2) && Spells(d, c.d, 2, 2)
    ensures ParseDate(z, order, now, y + (m + d)) == if ValidDate(c) then Ok(Days(c)) else Err(FieldRange)
  {
    hide Value, DecodeField, DaysFromCivil, ParseDate, DaysInMonth;
    var f := y + (m + d);
    assert OneWord(f) by { assert forall i | 0 <= i < 8 :: IsDigit(f[i]); }
    OneWordDate(z, order, now, f);
    CompactField(z, f);
    CompactValue(y, m, d);
    ValueBelow(y);
    assert Pow10(4) == 10_000;
    YmdIs(c, 4, c.y);
  }

  /** The checks of a date given as three numbers. */
  lemma YmdIs(c: Date, digits: nat, val: int)
    requires 1 <= c.y <= 9999 && YearOf(val, digits, false) == Ok(c.y)
    ensures YmdToDays(val, c.m, c.d, digits, false) == if ValidDate(c) then Ok(Days(c)) else Err(FieldRange)
    ensures ValidDate(c) ==> ValidDay(Days(c))
  {
    hide DaysFromCivil, YearOf, ValidDay;
    if ValidDate(c) { EarlyDays(c); }
  }

  /** A field of digits alone, not eight of them, is a number. */
  lemma DigitsField(z: Zones, f: string, v: nat)
    requires AllDigits(f) && f != "" && |f| != 8 && Reads(f, v)
    ensures DecodeField(z, START, f) == Ok(START.(nums := [NumField(v, |f|)], parts := [Num(NumField(v, |f|))]))
  {
    hide Value, WordField, IsZoneSpec, Runs, DigitsFrom, IndexOf;
    DigitFirstIsNoWord(z, START, f);
    NoneToSplit(f, '.');
    OneRun(f, IsMark) by { assert Free(f, IsMark); }
    NumberBack(f);
    OnePiece(START, f, v);
    assert ':' !in f && f[0] != '-';
    assert START.nums + [NumField(v, |f|)] == [NumField(v, |f|)];
    assert START.parts + [Num(NumField(v, |f|))] == [Num(NumField(v, |f|))];
  }

  /** YYMMDD is that date by the pivot of 70, under every order; the year 00 is refused. */
  lemma ShortCompactDates(z: Zones, order: DateOrder, now: int, c: Date, y: string, m: string, d: string)
    requires ValidDate(c) && 1970 <= c.y <= 2069
    requires Spells(y, c.y % 100, 2, 2) && Spells(m, c.m, 2, 2) && Spells(d, c.d, 2, 2)
    ensures ParseDate(z, order, now, y + (m + d)) == if c.y == 2000 then Err(FieldRange) else Ok(Days(c))
  {
    hide Value, DecodeField, DaysFromCivil, ParseDate, DaysInMonth, YmdToDays, ValidDay;
    var f := y + (m + d);
    assert OneWord(f) by { assert forall i | 0 <= i < 6 :: IsDigit(f[i]); }
    OneWordDate(z, order, now, f);
    CompactValue(y, m, d);
    ValueBelow(f);
    assert Pow10(6) == 1_000_000 by { PowTwo(); }
    DigitsField(z, f, Value(f));
    ShortYear(c);
    if c.y != 2000 { YmdIs(c, 2, c.y % 100); }
  }

  lemma ShortYear(c: Date)
    requires 1970 <= c.y <= 2069
    ensures YearOf(c.y % 100, 2, false) == if c.y == 2000 then Err(FieldRange) else Ok(c.y)
    ensures c.y == 2000 ==> YmdToDays(0, c.m, c.d, 2, false) == Err(FieldRange)
  {
  }

  // ----- Julian days and days of the year -----

  lemma {:induction false} EighteenPlaces(k: nat)
    requires k <= 18
    ensures Pow10(k) <= 1_000_000_000_000_000_000
    decreases 18 - k
  {
    if k == 18 {
      assert Pow10(6) == 1_000_000 by { PowTwo(); }
      PowSum(6, 6);
      PowSum(12, 6);
    } else {
      EighteenPlaces(k + 1);
      PowStep(k);
    }
  }

  lemma JulianField(z: Zones, f: string, n: nat)
    requires |f| > 1 && (f[0] == 'J' || f[0] == 'j') && Spells(f[1..], n, 1, 18) && !z.valid(f)
    ensures DecodeField(z, START, f) == Ok(START.(julian := Some(n)))
  {
    hide Value, MonthFromName, ParseCompactTime;
    ValueBelow(f[1..]);
    EighteenPlaces(|f| - 1);
    NumberBack(f[1..]);
    assert !AllDigits(f) by { assert !IsDigit(f[0]); }
    assert ':' !in f by { assert forall i | 1 <= i < |f| :: f[i] == f[1..][i - 1]; }
  }

  /** J and a number is the day with that Julian number: J2440588 is 1 January 1970, J0 the first date. */
  lemma JulianDates(z: Zones, order: DateOrder, now: int, f: string, n: nat)
    requires |f| > 1 && (f[0] == 'J' || f[0] == 'j') && Spells(f[1..], n, 1, 18) && !z.valid(f)
    ensures ParseDate(z, order, now, f) == if n - 2_440_588 <= DATE_MAX then Ok(n - 2_440_588) else Err(FieldRange)
    ensures -2_440_588 == DATE_MIN && DaysFromCivil(1970, 1, 1) == 0
  {
    hide Value, DecodeField, ParseDate;
    assert OneWord(f) by { assert forall i | 1 <= i < |f| :: f[i] == f[1..][i - 1]; }
    OneWordDate(z, order, now, f);
    JulianField(z, f, n);
  }

  lemma DottedField(z: Zones, y: string, n: string, yv: nat, nv: nat)
    requires Spells(y, yv, 4, 4) && Spells(n, nv, 1, 3) && 1 <= nv <= 366
    ensures DecodeField(z, START, y + (['.'] + n)) == Ok(START.(doy := Some((yv, nv))))
  {
    hide Value, WordField, IsZoneSpec, ParseCompactTime, AllDigits;
    var f := y + (['.'] + n);
    assert IsDigit(f[0]) && f[4] == '.' && ':' !in f by { DottedChars(y, n); }
    assert !AllDigits(f) by { MarkNoDigit(f, 4); }
    DigitFirstIsNoWord(z, START, f);
    assert '.' !in y by { NoColon(y); }
    IndexAfter(y, '.', n);
    assert f[..4] == y && f[5..] == n;
    SpellsReads(y, yv, 4, 4);
    SpellsReads(n, nv, 1, 3);
    NumberBack(y);
    NumberBack(n);
  }

  lemma DottedChars(y: string, n: string)
    requires AllDigits(y) && AllDigits(n) && |y| == 4 && n != ""
    ensures var f := y + (['.'] + n); IsDigit(f[0]) && f[4] == '.' && ':' !in f && OneWord(f)
  {
    var f := y + (['.'] + n);
    assert f[|f| - 1] == n[|n| - 1];
  }

  /** A year, a point and the day of the year count from 1 January of that year. */
  lemma YearDays(z: Zones, order: DateOrder, now: int, c: Date, y: string, n: string, nv: nat)
    requires ValidDate(c) && 1 <= c.y <= 9999 && Spells(y, c.y, 4, 4) && Spells(n, nv, 1, 3)
    requires nv == Days(c) - DaysFromCivil(c.y, 1, 1) + 1 && 1 <= nv <= 366
    ensures ParseDate(z, order, now, y + (['.'] + n)) == Ok(Days(c))
  {
    hide Value, DecodeField, ParseDate, DaysFromCivil, ValidDay, AllDigits;
    DottedChars(y, n);
    OneWordDate(z, order, now, y + (['.'] + n));
    DottedField(z, y, n, c.y, nv);
    EarlyDays(c);
    MonthLengths(c.y, 1);
  }

  // ----- fractions and offsets -----

  /** Any number of places is rounded to six, half up. */
  lemma FractionRounds(frac: string)
    requires AllDigits(frac)
    ensures FractionMicros(frac) == RoundHalfUp(Value(frac), |frac|, 6)
  {
    hide Value, Pow10, DividedBy;
    if |frac| <= 6 {
      ValueAppend(frac, Zeros(6 - |frac|));
      ValueZeros(6 - |frac|);
    } else {
      hide RoundHalfUp;
      assert frac == frac[..6] + frac[6..];
      RoundCut(frac[..6], frac[6..], 6);
    }
  }

  /** Seconds east of hours, minutes and seconds; more than fifteen hours are refused. */
  function East(sign: char, h: nat, m: nat, s: nat): Option<int> {
    if h > 15 then None else Some((if sign == '-' then -1 else 1) * (h * 3600 + m * 60 + s))
  }

  lemma HourOffset(sign: char, h: string, hv: nat)
    requires IsSign(sign) && Spells(h, hv, 1, 2)
    ensures ParseZoneOffset([sign] + h) == East(sign, hv, 0, 0)
  {
    hide Value, Trim, SplitOn, ParseI64, AllDigits, ParseZoneOffset, DigitsOrColons;
    HourBack(h, hv);
    OffsetText(sign, h);
    NoneToSplit(h, ':');
  }

  lemma HourBack(h: string, hv: nat)
    requires Spells(h, hv, 1, 2)
    ensures ParseI64(h) == Some(hv) && ':' !in h && DigitsOrColons(h) && IsDigit(h[|h| - 1])
  {
    hide Value;
    ValueBelow(h);
    assert Pow10(1) == 10 && Pow10(2) == 100;
    NumberBack(h);
  }

  lemma HourMinuteOffset(sign: char, h: string, m: string, hv: nat, mv: nat)
    requires IsSign(sign) && Spells(h, hv, 2, 2) && Spells(m, mv, 2, 2)
    ensures ParseZoneOffset([sign] + (h + m)) == East(sign, hv, mv, 0)
  {
    hide Value, Trim, SplitOn, ParseI64, AllDigits, ParseZoneOffset, DigitsOrColons;
    PartsBack(h, m, m, hv, mv, mv);
    HoursMinutes(h, m);
    OffsetText(sign, h + m);
    NoneToSplit(h + m, ':');
  }

  lemma ColonOffsets(sign: char, h: string, m: string, s: string, hv: nat, mv: nat, sv: nat)
    requires IsSign(sign) && Spells(h, hv, 1, 2) && Spells(m, mv, 2, 2) && Spells(s, sv, 2, 2)
    ensures ParseZoneOffset([sign] + (h + ([':'] + m))) == East(sign, hv, mv, 0)
    ensures ParseZoneOffset([sign] + (h + ([':'] + (m + ([':'] + s))))) == East(sign, hv, mv, sv)
  {
    hide Value, Trim, SplitOn, ParseI64, AllDigits, ParseZoneOffset, DigitsOrColons;
    PartsBack(h, m, s, hv, mv, sv);
    NoneToSplit(m, ':');
    NoneToSplit(s, ':');
    OffsetText(sign, h + ([':'] + m)) by { EndsRight(h + ([':'] + m), m); }
    SplitFirst(h, ':', m);
    OffsetText(sign, h + ([':'] + (m + ([':'] + s)))) by { EndsRight(h + ([':'] + (m + ([':'] + s))), s); }
    SplitFirst(h, ':', m + ([':'] + s));
    SplitFirst(m, ':', s);
    assert [h] + [m] == [h, m] && [h] + ([m] + [s]) == [h, m, s];
  }

  /** +h, +hh, +hhmm, +hh:mm and +hh:mm:ss, and the same with a minus. */
  lemma OffsetForms(sign: char, h: string, m: string, s: string, hv: nat, mv: nat, sv: nat)
    requires IsSign(sign) && Spells(h, hv, 1, 2) && Spells(m, mv, 2, 2) && Spells(s, sv, 2, 2)
    ensures ParseZoneOffset([sign] + h) == East(sign, hv, 0, 0)
    ensures |h| == 2 ==> ParseZoneOffset([sign] + (h + m)) == East(sign, hv, mv, 0)
    ensures ParseZoneOffset([sign] + (h + ([':'] + m))) == East(sign, hv, mv, 0)
    ensures ParseZoneOffset([sign] + (h + ([':'] + (m + ([':'] + s))))) == East(sign, hv, mv, sv)
  {
    hide ParseZoneOffset, East, Value, AllDigits;
    HourOffset(sign, h, hv);
    if |h| == 2 { HourMinuteOffset(sign, h, m, hv, mv); }
    ColonOffsets(sign, h, m, s, hv, mv, sv);
  }

  lemma PartsBack(h: string, m: string, s: string, hv: nat, mv: nat, sv: nat)
    requires Spells(h, hv, 1, 2) && Spells(m, mv, 2, 2) && Spells(s, sv, 2, 2)
    ensures ParseI64(h) == Some(hv) && ParseI64(m) == Some(mv) && ParseI64(s) == Some(sv)
    ensures ':' !in h && ':' !in m && ':' !in s && AllDigits(h) && AllDigits(m) && AllDigits(s)
    ensures DigitsOrColons(h) && DigitsOrColons(h + m) && DigitsOrColons(h + ([':'] + m))
    ensures DigitsOrColons(h + ([':'] + (m + ([':'] + s))))
    ensures IsDigit(h[|h| - 1]) && IsDigit((h + m)[|h| + 1])
  {
    hide Value;
    ValueBelow(h);
    ValueBelow(m);
    ValueBelow(s);
    assert Pow10(1) == 10 && Pow10(2) == 100;
    NumberBack(h);
    NumberBack(m);
    NumberBack(s);
  }

  lemma HoursMinutes(h: string, m: string)
    requires AllDigits(h) && AllDigits(m) && |h| == |m| == 2
    ensures (h + m)[..2] == h && (h + m)[2..] == m && ':' !in h + m
  {
  }

  lemma EndsRight(t: string, s: string)
    requires AllDigits(s) && |s| == 2 && |t| >= 2 && t[|t| - 2..] == s
    ensures IsDigit(t[|t| - 1])
  {
    assert t[|t| - 2..][1] == s[1];
  }

  /** The sign is taken off, and the body split at its colons. */
  lemma OffsetText(sign: char, body: string)
    requires IsSign(sign) && body != "" && DigitsOrColons(body) && IsDigit(body[|body| - 1])
    ensures ParseZoneOffset([sign] + body) == OffsetOf(sign == '-', SplitOn(body, ':'))
  {
    hide SplitOn, OffsetOf, Trim;
    var t := [sign] + body;
    assert t[|t| - 1] == body[|body| - 1] && t[1..] == body;
    TrimNothing(t);
  }

  // ----- morning and afternoon -----

  predicate Morning(w: string) {
    Lower(w) == "am" || Lower(w) == "a.m."
  }

  predicate Afternoon(w: string) {
    Lower(w) == "pm" || Lower(w) == "p.m."
  }

  /** A twelve-hour clock: twelve is the hour zero of its half of the day. */
  function TwelveHours(tod: nat, pm: bool): int {
    var hh := tod / PER_HOUR;
    (if hh == 12 then tod - 12 * PER_HOUR else tod) + (if pm then 12 * PER_HOUR else 0)
  }

  lemma MeridianIs(s: Decoding, days: int, tod: nat, pm: bool)
    requires s.hasTime && s.tod == tod < PER_DAY && s.meridian == Some(pm)
    ensures Meridian(s, days) ==
      if PER_HOUR <= tod < 13 * PER_HOUR then Ok(Decoded(days, TwelveHours(tod, pm), s.zone, s.zoneOffset)) else Err(FieldRange)
  {
  }

  /** am, pm and their dotted forms, in any case. */
  lemma MeridianWord(z: Zones, s: Decoding, w: string)
    requires Morning(w) || Afternoon(w)
    requires s.hasTime
    ensures DecodeField(z, s, w) == Ok(s.(meridian := Some(Afternoon(w))))
    ensures |w| >= 2 && Free(w, IsSpace) && (forall i | 0 <= i < |w| :: w[i] != ',' && w[i] != 'T')
  {
    hide MonthFromName, IsWeekdayName, DatePieces, DottedDay, ParseCompactTime;
    var l := Lower(w);
    assert forall i | 0 <= i < |w| :: l[i] == LowerChar(w[i]) && l[i] in {'a', 'p', 'm', '.'};
    assert forall i | 0 <= i < |w| :: !IsDigit(w[i]) && !IsSign(w[i]) && w[i] != ':' && w[i] != ',' && w[i] != 'T' && !IsSpace(w[i]);
    assert w != "" && !IsDigit(w[0]) && LowerChar(w[0]) != 'j';
    assert !AllDigits(w);
  }

  lemma ThreeFieldText(d: string, f: string, w: string)
    requires FieldChars(d) && FieldChars(f) && w != "" && Free(w, IsSpace)
    requires forall i | 0 <= i < |w| :: w[i] != ',' && w[i] != 'T'
    ensures var t := d + ([' '] + (f + ([' '] + w)));
      && Runs(Cleaned(Trim(t)), IsSpace) == [d, f, w] && Trim(t) == t && SpecialOf(t).None? && SplitSpecial(t).None?
  {
    hide Runs, Cleaned, Trim, SpecialOf, SplitSpecial;
    var t := d + ([' '] + (f + ([' '] + w)));
    assert t[0] == d[0] && t[|t| - 1] == w[|w| - 1];
    PlainText(t, d, [' '] + (f + ([' '] + w)));
    assert Cleaned(t) == t by { CleanedThree(d, f, w); }
    FieldFree(d);
    FieldFree(f);
    RunFirst(d, ' ', f + ([' '] + w), IsSpace);
    RunFirst(f, ' ', w, IsSpace);
    OneRun(w, IsSpace);
    assert [d] + ([f] + [w]) == [d, f, w];
  }

  lemma CleanedThree(d: string, f: string, w: string)
    requires FieldChars(d) && FieldChars(f) && forall i | 0 <= i < |w| :: w[i] != ',' && w[i] != 'T'
    ensures var t := d + ([' '] + (f + ([' '] + w))); Cleaned(t) == t
  {
    var t := d + ([' '] + (f + ([' '] + w)));
    assert forall i | 0 <= i < |t| :: t[i] != ',' && t[i] != 'T';
  }

  lemma MeridianDays(order: DateOrder, s: Decoding, m: Option<bool>)
    ensures DaysOf(order, s.(meridian := m)) == DaysOf(order, s)
  {
    hide YmdOf, YearOf, DaysChecked, YmdToDays;
  }

  /** Decoding a date, a time and AM or PM. */
  lemma DecodesMeridian(z: Zones, order: DateOrder, c: Date, tod: nat, w: string)
    requires ValidDate(c) && 1 <= c.y <= 9999 && tod < PER_DAY && (Morning(w) || Afternoon(w))
    ensures c.m >= 0 && c.d >= 0
    ensures Decode(z, order, DateIso(c) + ([' '] + (ClockDigits(tod) + ([' '] + w)))) ==
      if PER_HOUR <= tod < 13 * PER_HOUR then Ok(Decoded(Days(c), TwelveHours(tod, Afternoon(w)), None, None)) else Err(FieldRange)
  {
    hide DecodeField, DateIso, AfterDate, Runs, Cleaned, Trim, FieldChars, DaysOf, Meridian, DecodeFields,
         ClockDigits, ParseTimeField, ValidDay, DaysFromCivil, Morning, Afternoon, SplitSpecial, SpecialOf, TwelveHours;
    var d, f := DateIso(c), ClockDigits(tod);
    DateChars(c);
    ClockField(tod, "");
    assert f + "" == f;
    DecodesDateIso(z, c);
    AfterDateFields(c);
    var s1 := AfterDate(c);
    ClockFieldDecodes(z, s1, tod, "");
    ClockAlone(tod);
    var s2 := SetTime(s1, tod, None);
    var s3 := s2.(meridian := Some(Afternoon(w)));
    MeridianWord(z, s2, w);
    assert w != "";
    ThreeFieldText(d, f, w);
    RunFields3(z, START, d, f, w);
    RunFields2(z, s1, f, w);
    EarlyDays(c);
    DaysAfterDate(order, s2, c);
    MeridianDays(order, s2, Some(Afternoon(w)));
    MeridianIs(s3, Days(c), tod, Afternoon(w));
  }

  /** The hours 1 to 12 with AM or PM: 12 AM is midnight and 12 PM noon; other hours are refused. */
  lemma TwelveHourClock(z: Zones, order: DateOrder, now: int, c: Date, tod: nat, w: string)
    requires ValidDate(c) && 1 <= c.y <= 9999 && tod < PER_DAY && (Morning(w) || Afternoon(w))
    ensures c.m >= 0 && c.d >= 0
    ensures ParseTimestamp(z, order, now, DateIso(c) + ([' '] + (ClockDigits(tod) + ([' '] + w)))) ==
      if PER_HOUR <= tod < 13 * PER_HOUR then Ok(Days(c) * PER_DAY + TwelveHours(tod, Afternoon(w))) else Err(FieldRange)
  {
    hide Decode, DateIso, Trim, FieldChars, ClockDigits, ValidDay, DaysFromCivil, Morning, Afternoon, SplitSpecial, SpecialOf;
    DecodesMeridian(z, order, c, tod, w);
    DateChars(c);
    ClockField(tod, "");
    assert ClockDigits(tod) + "" == ClockDigits(tod);
    MeridianChars(w);
    ThreeFieldText(DateIso(c), ClockDigits(tod), w);
    InRange(c, TwelveHours(tod, Afternoon(w)));
  }

  lemma MeridianChars(w: string)
    requires Morning(w) || Afternoon(w)
    ensures w != "" && Free(w, IsSpace) && (forall i | 0 <= i < |w| :: w[i] != ',' && w[i] != 'T')
  {
    var l := Lower(w);
    assert forall i | 0 <= i < |w| :: l[i] == LowerChar(w[i]) && l[i] in {'a', 'p', 'm', '.'};
  }

  /** A day of these years and a time of day are a valid timestamp. */
  lemma InRange(c: Date, tod: int)
    requires ValidDate(c) && 1 <= c.y <= 9999
    ensures DATE_MIN <= Days(c) <= 3_000_000
    ensures 0 <= tod <= PER_DAY ==> ValidTs(Days(c) * PER_DAY + tod) && I64_MIN <= Days(c) * PER_DAY + tod <= I64_MAX
  {
    hide DaysFromCivil;
    EarlyDays(c);
    LateDays(c);
  }

  lemma LateDays(c: Date)
    requires ValidDate(c) && 1 <= c.y <= 9999
    ensures Days(c) <= 3_000_000
  {
    MonthLengths(c.y, c.m);
  }

  // ----- the limits of a clock -----

  /** A leap second is taken, and 24:00:00; nothing beyond. */
  predicate OnClock(h: nat, m: nat, s: nat) {
    h <= 24 && m <= 59 && s <= 60 && (h == 24 ==> m == 0 && s == 0)
  }

  lemma ClockTexts(h: string, m: string, s: string, hv: nat, mv: nat, sv: nat)
    requires Spells(h, hv, 2, 2) && Spells(m, mv, 2, 2) && Spells(s, sv, 2, 2)
    ensures ParseI64(h) == Some(hv) && ParseI64(m) == Some(mv) && ParseI64(s) == Some(sv)
    ensures ':' !in h && ':' !in m && ':' !in s && '.' !in s && hv < 100 && mv < 100 && sv < 100
    ensures var f := Clock(h, m, s); ClockText(f) && FieldChars(f)
  {
    hide Value;
    HourBack(h, hv);
    HourBack(m, mv);
    HourBack(s, sv);
    NoColon(s);
    ValueBelow(h);
    ValueBelow(m);
    ValueBelow(s);
    assert Pow10(2) == 100;
    var f := Clock(h, m, s);
    assert |f| == 8 && f[2] == ':' && f[5] == ':' && f[7] == s[1];
  }

  lemma ClockLimits(h: string, m: string, s: string, hv: nat, mv: nat, sv: nat)
    requires Spells(h, hv, 2, 2) && Spells(m, mv, 2, 2) && Spells(s, sv, 2, 2)
    ensures ParseTimeField(Clock(h, m, s)) ==
      if OnClock(hv, mv, sv) then Ok((((hv * 60 + mv) * 60 + sv) * 1_000_000, None)) else Err(FieldRange)
  {
    hide Value, ParseI64, GluedOffset, SplitOn, Clock, ClockText, Spells, IndexOf, FractionMicros;
    ClockTexts(h, m, s, hv, mv, sv);
    NoGlue(Clock(h, m, s));
    ClockSplit(h, m, s);
    NoneToSplit(s, '.');
    NoFraction();
    assert s[..|s|] == s && s != "" by { TwoLong(s, sv); }
  }

  lemma TwoLong(s: string, sv: nat)
    requires Spells(s, sv, 2, 2)
    ensures |s| == 2
  {
  }

  /** A date and a clock text are that many micros after the midnight of the date: 24:00:00 is
      the next midnight, and a sixtieth second the next minute. */
  lemma ClockTimes(z: Zones, order: DateOrder, now: int, c: Date, h: string, m: string, s: string, hv: nat, mv: nat, sv: nat)
    requires ValidDate(c) && 1 <= c.y <= 9999
    requires Spells(h, hv, 2, 2) && Spells(m, mv, 2, 2) && Spells(s, sv, 2, 2)
    ensures c.m >= 0 && c.d >= 0
    ensures ParseTimestamp(z, order, now, DateIso(c) + (" " + Clock(h, m, s))) ==
      if OnClock(hv, mv, sv) then Ok(Days(c) * PER_DAY + ((hv * 60 + mv) * 60 + sv) * 1_000_000) else Err(FieldRange)
  {
    hide DecodeField, DateIso, AfterDate, Runs, Cleaned, Trim, FieldChars, DaysOf, Meridian, DecodeFields, Clock, ClockText,
         ParseTimeField, ValidDay, DaysFromCivil, SplitSpecial, SpecialOf, Spells, SetTime;
    var d, f := DateIso(c), Clock(h, m, s);
    DateChars(c);
    ClockTexts(h, m, s, hv, mv, sv);
    ClockLimits(h, m, s, hv, mv, sv);
    assert f + "" == f && WithEra(f, false) == f;
    TwoFieldText(d, f, false);
    PlainText(d + (" " + f), d, " " + f);
    DecodesDateIso(z, c);
    AfterDateFields(c);
    DecodesTime(z, AfterDate(c), f, "");
    RunFields2(z, START, d, f);
    EarlyDays(c);
    if OnClock(hv, mv, sv) {
      var tod := ((hv * 60 + mv) * 60 + sv) * 1_000_000;
      TimeSet(AfterDate(c), tod);
      DaysAfterDate(order, SetTime(AfterDate(c), tod, None), c);
      InRange(c, tod);
    }
  }

  lemma TimeSet(s: Decoding, tod: int)
    ensures SetTime(s, tod, None) == s.(tod := tod, hasTime := true)
  {
  }

  // ----- special dates -----

  lemma SpecialWord(w: string, low: string)
    requires Lower(Trim(w)) == low && low in {"epoch", "today", "tomorrow", "yesterday", "now", "infinity", "-infinity"}
    ensures SpecialOf(w) == Some(if low == "epoch" then Epoch else if low == "today" then Today
      else if low == "tomorrow" then Tomorrow else if low == "yesterday" then Yesterday else if low == "now" then Now
      else if low == "infinity" then Infinity else NegInfinity)
  {
    hide Trim;
  }

  lemma {:induction false} TrimAgain(s: string)
    ensures Trim(Trim(s)) == Trim(s)
  {
    var u := TrimStart(s);
    TrimStartDone(s);
    TrimEndDone(u);
    var t := TrimEnd(u);
    if t != "" { TrimNothing(t); }
  }

  lemma {:induction false} TrimStartDone(s: string)
    ensures var u := TrimStart(s); u == "" || !IsSpace(u[0])
    decreases |s|
  {
    if s != "" && IsSpace(s[0]) { TrimStartDone(s[1..]); }
  }

  lemma {:induction false} TrimEndDone(s: string)
    ensures var t := TrimEnd(s); t <= s && (t == "" || !IsSpace(t[|t| - 1]))
    decreases |s|
  {
    if s != "" && IsSpace(s[|s| - 1]) { TrimEndDone(s[..|s| - 1]); }
  }

  /** The words for dates relative to the clock, in any case and between any blanks: the day of the
      clock, the day after and the day before; epoch is 1 January 1970. */
  lemma SpecialDates(z: Zones, order: DateOrder, now: int, w: string)
    requires 0 <= now <= I64_MAX
    ensures var low := Lower(Trim(w));
      && (low == "today" || low == "now" ==> ParseDate(z, order, now, w) == Ok(now / PER_DAY))
      && (low == "tomorrow" ==> ParseDate(z, order, now, w) == Ok(now / PER_DAY + 1))
      && (low == "yesterday" ==> ParseDate(z, order, now, w) == Ok(now / PER_DAY - 1))
      && (low == "epoch" ==> ParseDate(z, order, now, w) == Ok(DaysFromCivil(1970, 1, 1)))
  {
    hide Trim, Decode, SpecialOf, DaysFromCivil;
    TrimAgain(w);
    var low := Lower(Trim(w));
    if low in {"epoch", "today", "tomorrow", "yesterday", "now"} {
      SpecialWord(Trim(w), low);
      EpochDay(now);
    }
  }

  lemma EpochDay(now: int)
    requires 0 <= now <= I64_MAX
    ensures DaysFromCivil(1970, 1, 1) == 0 && 0 <= now / PER_DAY <= 106_751_991 && TruncDiv(now, PER_DAY) == now / PER_DAY
  {
  }

  /** Before 1970 the day of the clock is rounded towards zero: today is the day of the clock exactly
      from 1970 on and at midnights before. */
  lemma TodayExactly(z: Zones, order: DateOrder, now: int)
    requires I64_MIN <= now <= I64_MAX
    ensures ParseDate(z, order, now, "today") == Ok(SplitMicros(now).days) <==> now >= 0 || now % PER_DAY == 0
  {
    hide Trim, Decode, SpecialOf;
    TrimNothing("today");
    assert Lower("today") == "today";
    SpecialWord("today", "today");
    SplitIsFloor(now);
  }

  // ----- compact times -----

  lemma CompactClock(h: string, m: string, s: string, hv: nat, mv: nat, sv: nat)
    requires Spells(h, hv, 2, 2) && Spells(m, mv, 2, 2) && Spells(s, sv, 2, 2)
    requires hv < 24 && mv < 60 && sv < 60
    ensures ParseCompactTime(h + (m + s)) == Some((((hv * 60 + mv) * 60 + sv) * 1_000_000, None))
  {
    hide Value, FractionMicros, ParseZoneOffset;
    var f := h + (m + s);
    CompactValue(h, m, s);
    AllRun(f);
    assert f[..6] == f && f[6..] == "";
  }

  /** YYYYMMDD and HHMMSS are that date and that time. */
  lemma CompactTimestamps(z: Zones, order: DateOrder, now: int, c: Date, y: string, mo: string, d: string,
                          h: string, m: string, s: string, hv: nat, mv: nat, sv: nat)
    requires ValidDate(c) && 1 <= c.y <= 9999 && Spells(y, c.y, 4, 4) && Spells(mo, c.m, 2, 2) && Spells(d, c.d, 2, 2)
    requires Spells(h, hv, 2, 2) && Spells(m, mv, 2, 2) && Spells(s, sv, 2, 2) && hv < 24 && mv < 60 && sv < 60
    ensures ParseTimestamp(z, order, now, (y + (mo + d)) + (" " + (h + (m + s))))
         == Ok(Days(c) * PER_DAY + ((hv * 60 + mv) * 60 + sv) * 1_000_000)
  {
    hide DecodeField, Runs, Cleaned, Trim, FieldChars, DaysOf, Meridian, DecodeFields, ParseCompactTime,
         DaysFromCivil, SplitSpecial, SpecialOf, Value, CompactDate;
    var a, b := y + (mo + d), h + (m + s);
    DigitTexts(y, mo, d);
    DigitTexts(h, m, s);
    assert b + "" == b && WithEra(b, false) == b;
    TwoFieldText(a, b, false);
    PlainText(a + (" " + b), a, " " + b);
    CompactField(z, a);
    CompactDay(c, y, mo, d);
    var s1 := START.(compactDays := Some(Days(c)));
    CompactClock(h, m, s, hv, mv, sv);
    var tod := ((hv * 60 + mv) * 60 + sv) * 1_000_000;
    ClockHere(z, s1, b, tod);
    RunFields2(z, START, a, b);
    JoinsCompact(order, s1, tod);
    InRange(c, tod);
  }

  lemma DigitTexts(y: string, m: string, d: string)
    requires AllDigits(y) && AllDigits(m) && AllDigits(d) && |y| >= 2 && |m| == |d| == 2
    ensures var f := y + (m + d); FieldChars(f) && AllDigits(f) && |f| == |y| + 4
  {
    var f := y + (m + d);
    assert f[|f| - 1] == d[1];
  }

  lemma CompactDay(c: Date, y: string, m: string, d: string)
    requires ValidDate(c) && 1 <= c.y <= 9999 && Spells(y, c.y, 4, 4) && Spells(m, c.m, 2, 2) && Spells(d, c.d, 2, 2)
    ensures |y + (m + d)| == 8 && AllDigits(y + (m + d))
    ensures CompactDate(START, y + (m + d)) == Ok(START.(compactDays := Some(Days(c))))
  {
    hide Value, DaysFromCivil, YmdToDays;
    CompactValue(y, m, d);
    YmdIs(c, 4, c.y);
  }

  lemma ClockHere(z: Zones, s: Decoding, f: string, tod: int)
    requires |f| == 6 && AllDigits(f) && s.compactDays.Some? && !s.hasTime && ParseCompactTime(f) == Some((tod, None))
    ensures DecodeField(z, s, f) == Ok(s.(tod := tod, hasTime := true))
  {
    hide ParseCompactTime, MonthFromName;
    assert !IsLetter(f[0]);
  }

  lemma JoinsCompact(order: DateOrder, s: Decoding, tod: int)
    requires s == START.(compactDays := s.compactDays) && s.compactDays.Some?
    ensures var s1 := s.(tod := tod, hasTime := true);
      && DaysOf(order, s1) == Ok(s.compactDays.value)
      && Meridian(s1, s.compactDays.value) == Ok(Decoded(s.compactDays.value, tod, None, None))
  {
  }
}

/** Printing dates and timestamps in ISO style, and reading them back. */
module DateTextRoundTrip {
  import opened Integers
  import opened Wrappers
  import opened Text
  import opened Decimal
  import opened Calendar
  import opened Timestamps
  import opened DateText

  // ----- printing -----

  /** n with at least w digits. */
  function PadTo(n: nat, w: nat): (s: string)
    ensures AllDigits(s) && |s| >= w && s != ""
  {
    var d := Digits(n);
    if |d| < w then Zeros(w - |d|) + d else d
  }

  function DisplayYear(y: int): nat {
    if y <= 0 then 1 - y else y
  }

  function DateIso(c: Date): string
    requires c.m >= 0 && c.d >= 0
  {
    PadTo(DisplayYear(c.y), 4) + ("-" + (PadTo(c.m, 2) + ("-" + PadTo(c.d, 2))))
  }

  function Era(c: Date): string {
    if c.y <= 0 then " BC" else ""
  }

  /** `frac_str`: six places without the zeros at the end. */
  function StripZeros(s: string): (r: string)
    ensures r <= s && forall i | |r| <= i < |s| :: s[i] == '0'
    ensures r != "" ==> r[|r| - 1] != '0'
  {
    if s != "" && s[|s| - 1] == '0' then StripZeros(s[..|s| - 1]) else s
  }

  function Fraction(us: nat): string {
    if us == 0 then "" else "." + StripZeros(Padded(us, 6))
  }

  method FracStr(us: nat) returns (s: string)
    requires us < 1_000_000
    ensures s == Fraction(us)
  {
    if us == 0 { return ""; }
    var frac := Padded(us, 6);
    while frac != "" && frac[|frac| - 1] == '0'
      invariant StripZeros(frac) == StripZeros(Padded(us, 6))
      decreases |frac|
    {
      frac := frac[..|frac| - 1];
    }
    return "." + frac;
  }

  function TimeText(tod: nat): string {
    PadTo(tod / 3_600_000_000, 2)
    + (":" + (PadTo(tod / 60_000_000 % 60, 2) + (":" + (PadTo(tod / 1_000_000 % 60, 2) + Fraction(tod % 1_000_000)))))
  }

  /** `format_date` in ISO style. */
  function FormatDate(day: int): string {
    if day == DATE_INFINITY then "infinity"
    else if day == DATE_NEG_INFINITY then "-infinity"
    else
      DaysOfCivil(day);
      var c := CivilFromDays(day);
      DateIso(c) + Era(c)
  }

  /** `format_offset`: +HH, +HH:MM or +HH:MM:SS. */
  function FormatOffset(offset: int): string {
    var a: nat := if offset < 0 then -offset else offset;
    var hh, mm, ss := a / 3600, a % 3600 / 60, a % 60;
    [if offset < 0 then '-' else '+']
    + (PadTo(hh, 2)
       + (if ss != 0 then ":" + (PadTo(mm, 2) + (":" + PadTo(ss, 2))) else if mm != 0 then ":" + PadTo(mm, 2) else ""))
  }

  /** A local time in ISO style, with what follows the time of day. */
  function LocalIso(t: int, tail: string): string {
    var s := SplitMicros(t);
    SplitIsFloor(t);
    DaysOfCivil(s.days);
    var c := CivilFromDays(s.days);
    DateIso(c) + (" " + (TimeText(s.tod) + tail + Era(c)))
  }

  /** `format_timestamp` in ISO style. */
  function FormatTimestamp(t: int): string {
    if t == TS_INFINITY then "infinity" else if t == TS_NEG_INFINITY then "-infinity" else LocalIso(t, "")
  }

  /** `format_timestamptz_at` in ISO style, at an offset. */
  function FormatTimestamptz(t: int, offset: int): string {
    if t == TS_INFINITY then "infinity"
    else if t == TS_NEG_INFINITY then "-infinity"
    else LocalIso(t + offset * 1_000_000, FormatOffset(offset))
  }

  // ----- numbers -----

  lemma PadValue(n: nat, w: nat)
    ensures Value(PadTo(n, w)) == n
    ensures w >= 1 && n < Pow10(w) ==> |PadTo(n, w)| == w
  {
    hide Value, Digits, Pow10;
    ValueDigits(n);
    if w >= 1 { DigitsFit(n, w); }
    if |Digits(n)| < w {
      ValueZeros(w - |Digits(n)|);
      TrimZeros(PadTo(n, w), w - |Digits(n)|);
      assert PadTo(n, w)[w - |Digits(n)|..] == Digits(n);
    }
  }

  lemma PowTwo()
    ensures Pow10(2) == 100 && Pow10(6) == 1_000_000
  {
    assert Pow10(4) == 10_000;
  }

  lemma Pad2(n: nat)
    requires n < 100
    ensures |PadTo(n, 2)| == 2 && AllDigits(PadTo(n, 2)) && ParseI64(PadTo(n, 2)) == Some(n)
  {
    hide Value, Pow10, PadTo;
    PowTwo();
    PadValue(n, 2);
    NumberBack(PadTo(n, 2));
  }

  lemma NumberBack(s: string)
    requires AllDigits(s) && s != "" && Value(s) <= I64_MAX
    ensures ParseI64(s) == Some(Value(s))
  {
  }

  lemma PadYear(n: nat)
    requires n <= I32_MAX
    ensures |PadTo(n, 4)| >= 4 && AllDigits(PadTo(n, 4)) && ParseI64(PadTo(n, 4)) == Some(n)
  {
    hide Value, PadTo;
    PadValue(n, 4);
    NumberBack(PadTo(n, 4));
  }

  /** The trimmed fraction stands for the same micros. */
  lemma FractionBack(us: nat)
    requires 0 < us < 1_000_000
    ensures var f := StripZeros(Padded(us, 6));
      f != "" && AllDigits(f) && |f| <= 6 && FractionMicros(f) == us
  {
    hide Value, Padded, Pow10;
    PowTwo();
    ValuePadded(us, 6);
    var p := Padded(us, 6);
    var f := StripZeros(p);
    assert f + Zeros(6 - |f|) == p;
    assert f == "" ==> p == Zeros(6);
    ValueZeros(6);
  }

  // ----- fields that start with a digit -----

  predicate DigitFirst(f: string) {
    f != "" && IsDigit(f[0])
  }

  lemma NotAName(s: Decoding, f: string)
    requires DigitFirst(f)
    ensures MonthFromName(Lower(f)).None? && !IsWeekdayName(Lower(f)) && MarkerWord(s, Lower(f)).None?
  {
    assert Lower(f)[0] == f[0];
  }

  lemma NotAWord(z: Zones, s: Decoding, f: string)
    requires DigitFirst(f) && '/' !in f
    ensures WordField(z, s, f).None? && !IsZoneSpec(z, f) && !IsJulian(f)
  {
    hide MonthFromName, IsWeekdayName, MarkerWord, ParseZoneOffset;
    NotAName(s, f);
    assert !ZoneChars(f, false);
  }

  lemma NotSpecial(s: string)
    requires DigitFirst(s) && !IsSpace(s[|s| - 1])
    ensures Trim(s) == s && SpecialOf(s).None?
  {
    TrimNothing(s);
    assert Lower(s)[0] == s[0];
  }

  // ----- the date field -----

  /** Year, month and day as the decoder sees them. */
  function DateParts(y: nat, ys: string, m: nat, d: nat): seq<NumField> {
    [NumField(y, |ys|), NumField(m, 2), NumField(d, 2)]
  }

  lemma DateRuns(y: string, m: string, d: string)
    requires AllDigits(y) && AllDigits(m) && AllDigits(d) && y != "" && m != "" && d != ""
    ensures Runs(y + ("-" + (m + ("-" + d))), IsMark) == [y, m, d]
  {
    hide Runs;
    assert Free(y, IsMark) && Free(m, IsMark) && Free(d, IsMark);
    RunFirst(y, '-', m + ("-" + d), IsMark);
    RunFirst(m, '-', d, IsMark);
    OneRun(d, IsMark);
    assert [y] + ([m] + [d]) == [y, m, d];
  }

  lemma NumberPiece(s: Decoding, p: string, v: nat, i: nat)
    requires AllDigits(p) && ParseI64(p) == Some(v)
    ensures Piece(s, p, i, 3, false) ==
      Ok(s.(nums := s.nums + [NumField(v, |p|)], parts := s.parts + [Num(NumField(v, |p|))]))
  {
    hide ParseI64;
  }

  predicate Clean(s: Decoding) {
    && s.nums == [] && s.parts == [] && s.month.None? && s.compactDays.None? && s.julian.None? && s.doy.None?
    && s.meridian.None? && !s.hasTime
  }

  lemma DateFieldShape(y: string, m: string, d: string)
    requires AllDigits(y) && AllDigits(m) && AllDigits(d) && y != ""
    ensures var f := y + ("-" + (m + ("-" + d)));
      DigitFirst(f) && '/' !in f && ':' !in f && '.' !in f && !AllDigits(f) && '-' in f
  {
    var f := y + ("-" + (m + ("-" + d)));
    assert f[|y|] == '-';
  }

  lemma NoDot(f: string)
    requires '.' !in f
    ensures IndexOf(f, '.') == |f|
  {
    NoneToSplit(f, '.');
  }

  lemma DecodesDate(z: Zones, s: Decoding, y: string, m: string, d: string, yv: nat, mv: nat, dv: nat)
    requires AllDigits(y) && AllDigits(m) && AllDigits(d) && y != "" && |m| == 2 && |d| == 2 && Clean(s)
    requires ParseI64(y) == Some(yv) && ParseI64(m) == Some(mv) && ParseI64(d) == Some(dv)
    ensures var nums := DateParts(yv, y, mv, dv);
      DecodeField(z, s, y + ("-" + (m + ("-" + d)))) ==
        Ok(s.(nums := nums, parts := [Num(nums[0]), Num(nums[1]), Num(nums[2])]))
  {
    hide AllDigits, ParseI64, Runs, WordField, IsZoneSpec, IsJulian, IndexOf, Piece, ParseCompactTime;
    var f := y + ("-" + (m + ("-" + d)));
    DateFieldShape(y, m, d);
    NotAWord(z, s, f);
    NoDot(f);
    DateRuns(y, m, d);
    ThreePieces(s, y, m, d, yv, mv, dv);
    assert f[0] != '-';
  }

  lemma ThreePieces(s: Decoding, y: string, m: string, d: string, yv: nat, mv: nat, dv: nat)
    requires AllDigits(y) && AllDigits(m) && AllDigits(d) && |m| == 2 && |d| == 2 && Clean(s)
    requires ParseI64(y) == Some(yv) && ParseI64(m) == Some(mv) && ParseI64(d) == Some(dv)
    ensures var nums := DateParts(yv, y, mv, dv);
      Pieces(s, [y, m, d], 0, false) == Ok(s.(nums := nums, parts := [Num(nums[0]), Num(nums[1]), Num(nums[2])]))
  {
    hide AllDigits, ParseI64, Piece;
    var a, b, c := NumField(yv, |y|), NumField(mv, 2), NumField(dv, 2);
    var s1 := s.(nums := [a], parts := [Num(a)]);
    var s2 := s1.(nums := [a, b], parts := [Num(a), Num(b)]);
    NumberPiece(s, y, yv, 0);
    assert s.nums + [a] == [a] && s.parts + [Num(a)] == [Num(a)];
    NumberPiece(s1, m, mv, 1);
    assert s1.nums + [b] == [a, b] && s1.parts + [Num(b)] == [Num(a), Num(b)];
    NumberPiece(s2, d, dv, 2);
    assert s2.nums + [c] == [a, b, c] && s2.parts + [Num(c)] == [Num(a), Num(b), Num(c)];
    var s3 := s2.(nums := [a, b, c], parts := [Num(a), Num(b), Num(c)]);
    assert Pieces(s3, [y, m, d], 3, false) == Ok(s3);
    assert Pieces(s2, [y, m, d], 2, false) == Ok(s3);
    assert Pieces(s1, [y, m, d], 1, false) == Ok(s3);
  }

  // ----- year, month and day -----

  /** Under every date order a year of three digits or more comes first. */
  lemma AssignsInOrder(order: DateOrder, y: NumField, m: NumField, d: NumField)
    requires y.digits >= 3
    ensures AssignAll(order, NO_SLOTS, [Num(y), Num(m), Num(d)]) == Some(Slots(Some(y), Some(m.val), Some(d.val), false))
  {
    var parts := [Num(y), Num(m), Num(d)];
    assert parts[1..] == [Num(m), Num(d)] && parts[1..][1..] == [Num(d)] && parts[1..][1..][1..] == [];
    assert AssignAll(order, Slots(Some(y), Some(m.val), Some(d.val), false), []) ==
      Some(Slots(Some(y), Some(m.val), Some(d.val), false));
    assert AssignAll(order, Slots(Some(y), Some(m.val), None, false), [Num(d)]) ==
      Some(Slots(Some(y), Some(m.val), Some(d.val), false));
  }

  /** Printed year and era give back the civil year. */
  lemma YearBack(y: int, digits: nat)
    requires -4714 <= y <= 5_874_897 && digits >= 4
    ensures YearOf(DisplayYear(y), digits, y <= 0) == Ok(y)
  {
  }

  lemma CivilDaysBack(order: DateOrder, s: Decoding, c: Date, ys: string)
    requires ValidDate(c) && -4714 <= c.y <= 5_874_897 && |ys| >= 4 && s.bc == (c.y <= 0)
    requires var nums := DateParts(DisplayYear(c.y), ys, c.m, c.d); s.parts == [Num(nums[0]), Num(nums[1]), Num(nums[2])]
    ensures CivilDays(order, s) == if ValidDay(Days(c)) then Ok(Days(c)) else Err(FieldRange)
  {
    hide DaysFromCivil, AssignAll, YearOf, DaysInMonth, ValidDay;
    var nums := DateParts(DisplayYear(c.y), ys, c.m, c.d);
    AssignsInOrder(order, nums[0], nums[1], nums[2]);
    YearBack(c.y, |ys|);
    MonthLengths(c.y, c.m);
  }

  lemma MonthLengths(y: int, m: int)
    ensures DaysInMonth(y, m) <= 31
  {
  }

  // ----- the time field -----

  function Clock(hh: string, mm: string, sf: string): string {
    hh + (":" + (mm + (":" + sf)))
  }

  lemma ClockSplit(hh: string, mm: string, sf: string)
    requires ':' !in hh && ':' !in mm && ':' !in sf
    ensures SplitOn(Clock(hh, mm, sf), ':') == [hh, mm, sf]
  {
    hide SplitOn;
    SplitFirst(hh, ':', mm + (":" + sf));
    SplitFirst(mm, ':', sf);
    NoneToSplit(sf, ':');
    assert [hh] + ([mm] + [sf]) == [hh, mm, sf];
  }

  lemma {:induction false} NoSign(s: string, n: nat)
    requires n <= |s| && forall i | 0 <= i < n :: !IsSign(s[i])
    ensures LastSign(s, n) == |s|
  {
    if n > 0 { NoSign(s, n - 1); }
  }

  lemma {:induction false} LastSignAt(s: string, k: nat, n: nat)
    requires k < n <= |s| && IsSign(s[k]) && forall i | k < i < n :: !IsSign(s[i])
    ensures LastSign(s, n) == k
  {
    if k < n - 1 { LastSignAt(s, k, n - 1); }
  }

  /** Seconds and fraction of a printed time. */
  ghost predicate SecondsText(sf: string, ss: nat, us: nat) {
    && |sf| >= 2 && AllDigits(sf[..2]) && ParseI64(sf[..2]) == Some(ss)
    && (if us == 0 then |sf| == 2
        else |sf| > 3 && sf[2] == '.' && AllDigits(sf[3..]) && |sf| <= 9 && FractionMicros(sf[3..]) == us)
  }

  lemma SecondsShape(sf: string, ss: nat, us: nat)
    requires SecondsText(sf, ss, us)
    ensures ':' !in sf && (forall c | c in sf :: IsDigit(c) || c == '.') && IsDigit(sf[|sf| - 1])
    ensures IndexOf(sf, '.') == 2 || (|sf| == 2 && IndexOf(sf, '.') == |sf|)
  {
    hide ParseI64, FractionMicros;
    assert forall i | 0 <= i < |sf| :: sf[i] == if i < 2 then sf[..2][i] else if i == 2 then '.' else sf[3..][i - 3];
    if us == 0 {
      assert sf == sf[..2];
      NoneToSplit(sf, '.');
    } else {
      assert sf == sf[..2] + (['.'] + sf[3..]);
      IndexAfter(sf[..2], '.', sf[3..]);
    }
  }

  lemma SecondsMade(ss: nat, us: nat)
    requires ss < 60 && us < 1_000_000
    ensures SecondsText(PadTo(ss, 2) + Fraction(us), ss, us)
  {
    hide ParseI64, FractionMicros, PadTo, Padded, StripZeros;
    Pad2(ss);
    var sf := PadTo(ss, 2) + Fraction(us);
    assert sf[..2] == PadTo(ss, 2);
    if us > 0 {
      FractionBack(us);
      assert sf[3..] == StripZeros(Padded(us, 6));
    }
  }

  /** The three parts of a clock text make the time of day. */
  lemma ClockBack(hh: nat, mm: nat, ss: nat, us: nat, sf: string, offset: Option<int>)
    requires hh < 24 && mm < 60 && ss < 60 && us < 1_000_000 && SecondsText(sf, ss, us)
    ensures var dot := IndexOf(sf, '.');
      var frac := if dot < |sf| then sf[dot + 1..] else "";
      && AllDigits(frac) && ParseI64(sf[..dot]) == Some(ss) && sf[..dot] != ""
      && TimeOfDay(hh, mm, ss, frac, offset) == Ok((((hh * 60 + mm) * 60 + ss) * 1_000_000 + us, offset))
  {
    hide ParseI64, FractionMicros, IndexOf;
    SecondsShape(sf, ss, us);
    if us == 0 {
      assert sf[..2] == sf;
      NoFraction();
    }
  }

  lemma NoFraction()
    ensures FractionMicros("") == 0
  {
    hide Value;
    ValueZeros(6);
    assert "" + Zeros(6) == Zeros(6);
  }

  lemma ParsesClock(f: string, hh: nat, mm: nat, ss: nat, us: nat, sf: string, core: string)
    requires hh < 24 && mm < 60 && ss < 60 && us < 1_000_000 && SecondsText(sf, ss, us)
    requires core == Clock(PadTo(hh, 2), PadTo(mm, 2), sf)
    requires var g := GluedOffset(f);
      if g.Some? then g.value.0 <= |f| && f[..g.value.0] == core else f == core
    ensures var g := GluedOffset(f);
      ParseTimeField(f) ==
        Ok((((hh * 60 + mm) * 60 + ss) * 1_000_000 + us, if g.Some? then Some(g.value.1) else None))
  {
    hide ParseI64, FractionMicros, IndexOf, GluedOffset, SplitOn, Clock, PadTo, TimeOfDay, AllDigits, SecondsText;
    Pad2(hh);
    Pad2(mm);
    SecondsShape(sf, ss, us);
    NoColon(PadTo(hh, 2));
    NoColon(PadTo(mm, 2));
    ClockSplit(PadTo(hh, 2), PadTo(mm, 2), sf);
    var g := GluedOffset(f);
    ClockBack(hh, mm, ss, us, sf, if g.Some? then Some(g.value.1) else None);
  }

  lemma NoColon(s: string)
    requires AllDigits(s)
    ensures ':' !in s && '.' !in s && (forall i | 0 <= i < |s| :: !IsSign(s[i]))
  {
  }

  // ----- offsets -----

  /** The part of an offset text after its sign. */
  function OffsetBody(offset: int): string {
    FormatOffset(offset)[1..]
  }

  function OffsetSize(offset: int): nat {
    if offset < 0 then -offset else offset
  }

  lemma OffsetParts(offset: int)
    requires OffsetSize(offset) < 57600
    ensures var a := OffsetSize(offset);
      var hh, mm, ss := a / 3600, a % 3600 / 60, a % 60;
      && hh < 16 && mm < 60 && a == hh * 3600 + mm * 60 + ss
      && FormatOffset(offset) == [if offset < 0 then '-' else '+'] + OffsetBody(offset)
      && OffsetBody(offset) ==
         PadTo(hh, 2) + (if ss != 0 then ":" + (PadTo(mm, 2) + (":" + PadTo(ss, 2))) else if mm != 0 then ":" + PadTo(mm, 2) else "")
  {
    hide PadTo;
    var a := OffsetSize(offset);
    MinutesSplit(a);
  }

  lemma MinutesSplit(a: nat)
    ensures a == a / 3600 * 3600 + a % 3600 / 60 * 60 + a % 60
  {
    var hours := 60 * (a / 3600);
    assert a % 3600 == a - 3600 * (a / 3600) == a - 60 * hours;
    SixtyShift(a, hours);
  }

  lemma SixtyShift(a: nat, k: nat)
    requires 60 * k <= a
    ensures (a - 60 * k) % 60 == a % 60
  {
  }

  lemma OffsetShape(offset: int)
    requires OffsetSize(offset) < 57600
    ensures var b := OffsetBody(offset);
      && DigitsOrColons(b) && |b| >= 2 && IsDigit(b[|b| - 1]) && (forall i | 0 <= i < |b| :: !IsSign(b[i]))
      && (|b| <= 6 <==> OffsetSize(offset) % 60 == 0)
  {
    hide PadTo, FormatOffset;
    OffsetParts(offset);
    var a := OffsetSize(offset);
    Pad2(a / 3600); Pad2(a % 3600 / 60); Pad2(a % 60);
  }

  /** An offset of whole minutes reads back. */
  lemma OffsetBack(offset: int)
    requires OffsetSize(offset) < 57600 && OffsetSize(offset) % 60 == 0
    ensures ParseZoneOffset(FormatOffset(offset)) == Some(offset)
  {
    hide PadTo, FormatOffset, ParseI64, SplitOn, Trim;
    OffsetParts(offset);
    OffsetShape(offset);
    var a := OffsetSize(offset);
    var h, m, f, b := PadTo(a / 3600, 2), PadTo(a % 3600 / 60, 2), FormatOffset(offset), OffsetBody(offset);
    Pad2(a / 3600); Pad2(a % 3600 / 60);
    assert f[|f| - 1] == b[|b| - 1] && f[1..] == b;
    TrimNothing(f);
    NoColon(h);
    NoColon(m);
    if a % 3600 / 60 != 0 {
      SplitFirst(h, ':', m);
      NoneToSplit(m, ':');
      assert [h] + [m] == [h, m];
    } else {
      assert b == h;
      NoneToSplit(h, ':');
    }
  }

  /** A printed clock: two digits, a colon, and no sign; a digit at the end. */
  predicate ClockText(core: string) {
    && |core| >= 3 && IsDigit(core[0]) && IsDigit(core[1]) && core[2] == ':' && IsDigit(core[|core| - 1])
    && forall c | c in core :: IsDigit(c) || c == ':' || c == '.'
  }

  lemma ClockShape(hh: nat, mm: nat, ss: nat, us: nat, sf: string)
    requires hh < 24 && mm < 60 && SecondsText(sf, ss, us)
    ensures ClockText(Clock(PadTo(hh, 2), PadTo(mm, 2), sf))
  {
    hide PadTo, SecondsText, ParseI64;
    Pad2(hh);
    Pad2(mm);
    SecondsShape(sf, ss, us);
    assert |sf| >= 2 by { SecondsLength(sf, ss, us); }
  }

  lemma SecondsLength(sf: string, ss: nat, us: nat)
    requires SecondsText(sf, ss, us)
    ensures |sf| >= 2
  {
  }

  lemma FirstColon(core: string, tail: string)
    requires ClockText(core)
    ensures IndexOf(core + tail, ':') == 2
  {
    hide ClockText;
    TwoDigits(core);
    var h, t := core[..2], core[3..] + tail;
    assert core + tail == h + ([':'] + t);
    IndexAfter(h, ':', t);
  }

  lemma TwoDigits(core: string)
    requires ClockText(core)
    ensures |core| >= 3 && core[2] == ':' && ':' !in core[..2]
  {
  }

  lemma NoGlue(core: string)
    requires ClockText(core)
    ensures GluedOffset(core) == None
  {
    hide ParseZoneOffset, IndexOf;
    FirstColon(core, "");
    assert core + "" == core;
    var tail := core[2..];
    assert forall i | 0 <= i < |tail| :: tail[i] == core[i + 2] && core[i + 2] in core;
    NoSign(tail, |tail|);
  }

  lemma OffsetSplits(offset: int)
    requires OffsetSize(offset) < 57600
    ensures FormatOffset(offset) == [if offset < 0 then '-' else '+'] + OffsetBody(offset)
    ensures forall i | 0 <= i < |OffsetBody(offset)| :: !IsSign(OffsetBody(offset)[i])
  {
    hide FormatOffset, OffsetBody, OffsetSize;
    OffsetParts(offset);
    OffsetShape(offset);
  }

  /** The sign of the offset is the last one of the field. */
  lemma SignPlace(core: string, offset: int)
    requires ClockText(core) && OffsetSize(offset) < 57600
    ensures var f := core + FormatOffset(offset);
      && IndexOf(f, ':') == 2 && LastSign(f[2..], |f| - 2) == |core| - 2
      && f[2..][|core| - 2 + 1..] == OffsetBody(offset) && f[2..][|core| - 2..] == FormatOffset(offset)
      && f[..|core|] == core && |f| > |core|
  {
    hide IndexOf, FormatOffset, ClockText, LastSign, OffsetBody, OffsetSize;
    OffsetSplits(offset);
    FirstColon(core, FormatOffset(offset));
    TwoDigits(core);
    SignAfter(core, if offset < 0 then '-' else '+', OffsetBody(offset));
  }

  lemma SignAfter(core: string, sign: char, body: string)
    requires |core| >= 2 && IsSign(sign) && forall i | 0 <= i < |body| :: !IsSign(body[i])
    ensures var f := core + ([sign] + body);
      && LastSign(f[2..], |f| - 2) == |core| - 2 && f[2..][|core| - 2 + 1..] == body
      && f[2..][|core| - 2..] == [sign] + body && f[..|core|] == core && |f| > |core|
  {
    hide LastSign;
    var f, k := core + ([sign] + body), |core| - 2;
    var tail := f[2..];
    assert tail == core[2..] + ([sign] + body);
    assert tail[k] == sign && forall i | k < i < |tail| :: tail[i] == body[i - k - 1];
    LastSignAt(tail, k, |tail|);
  }

  lemma Glued(core: string, offset: int)
    requires ClockText(core) && OffsetSize(offset) < 57600
    ensures GluedOffset(core + FormatOffset(offset)) ==
      if OffsetSize(offset) % 60 == 0 then Some((|core|, offset)) else None
  {
    hide ParseZoneOffset, IndexOf, ClockText, FormatOffset, OffsetSize;
    SignPlace(core, offset);
    OffsetShape(offset);
    TwoDigits(core);
    if OffsetSize(offset) % 60 == 0 { OffsetBack(offset); }
  }

  /** With seconds in the offset the field falls into five parts, which no time has. */
  lemma SecondsRefused(hh: string, mm: string, sf: string, offset: int)
    requires ':' !in hh && ':' !in mm && ':' !in sf && ClockText(Clock(hh, mm, sf))
    requires OffsetSize(offset) < 57600 && OffsetSize(offset) % 60 != 0
    ensures ParseTimeField(Clock(hh, mm, sf) + FormatOffset(offset)) == Err(InvalidTime)
  {
    hide ParseZoneOffset, IndexOf, ClockText, FormatOffset, PadTo, SplitOn, ParseI64, GluedOffset;
    Glued(Clock(hh, mm, sf), offset);
    OffsetParts(offset);
    var a := OffsetSize(offset);
    Pad2(a / 3600); Pad2(a % 3600 / 60); Pad2(a % 60);
    NoColon(PadTo(a / 3600, 2)); NoColon(PadTo(a % 3600 / 60, 2)); NoColon(PadTo(a % 60, 2));
    var sign := [if offset < 0 then '-' else '+'];
    FiveParts(hh, mm, sf, sign + PadTo(a / 3600, 2), PadTo(a % 3600 / 60, 2), PadTo(a % 60, 2));
    assert FormatOffset(offset) == (sign + PadTo(a / 3600, 2)) + (":" + (PadTo(a % 3600 / 60, 2) + (":" + PadTo(a % 60, 2))));
  }

  lemma FiveParts(a: string, b: string, c: string, d: string, e: string, g: string)
    requires ':' !in a && ':' !in b && ':' !in c && ':' !in d && ':' !in e && ':' !in g
    ensures |SplitOn(Clock(a, b, c) + (d + (":" + (e + (":" + g)))), ':')| == 5
  {
    hide SplitOn;
    var t2 := e + (":" + g);
    var t := d + (":" + t2);
    assert Clock(a, b, c) + t == a + (":" + (b + (":" + ((c + d) + (":" + t2)))));
    SplitFirst(a, ':', b + (":" + ((c + d) + (":" + t2))));
    SplitFirst(b, ':', (c + d) + (":" + t2));
    SplitFirst(c + d, ':', t2);
    SplitFirst(e, ':', g);
    NoneToSplit(g, ':');
  }

  // ----- the time and era fields -----

  /** Nothing, or an offset. */
  predicate IsTail(tail: string) {
    tail == "" || (IsSign(tail[0]) && IsDigit(tail[|tail| - 1]) && DigitsOrColons(tail[1..]))
  }

  lemma TimeFieldShape(core: string, tail: string)
    requires ClockText(core) && IsTail(tail)
    ensures var f := core + tail;
      && DigitFirst(f) && '/' !in f && ':' in f && !AllDigits(f) && IsDigit(f[|f| - 1]) && DigitsFrom(f) == 2
      && LetterTail(f) == |f|
  {
    var f := core + tail;
    assert f[2] == ':';
    if tail != "" { assert f[|f| - 1] == tail[|tail| - 1] && forall c | c in tail :: c == tail[0] || c in tail[1..]; }
    assert f[1..][0] == f[1] && f[1..][1..][0] == f[2];
    assert DigitsFrom(f[1..][1..]) == 0;
    assert DigitsFrom(f[1..]) == 1;
  }

  /** After the date, a clock field sets the time. */
  lemma DecodesTime(z: Zones, s: Decoding, core: string, tail: string)
    requires ClockText(core) && IsTail(tail)
    requires !s.hasTime && s.nums != []
    ensures var f := core + tail;
      DecodeField(z, s, f) ==
        match ParseTimeField(f)
        case Err(e) => Err(e)
        case Ok(time) => Ok(SetTime(s, time.0, time.1))
  {
    hide ClockText, WordField, ParseTimeField, DigitsFrom, LetterTail, MonthFromName, AllDigits;
    var f := core + tail;
    TimeFieldShape(core, tail);
    assert !IsZoneSpec(z, f) && !IsCompactDate(s, f) && CompactTimeHere(s, f) == None;
    assert f[..|f|] == f && f[|f|..] == "";
  }

  lemma DecodesEra(z: Zones, s: Decoding)
    ensures DecodeField(z, s, "BC") == Ok(s.(bc := true))
  {
    hide MonthFromName;
    assert Lower("BC") == "bc";
    assert DigitsFrom("BC") == 0;
  }

  // ----- whole texts -----

  /** Characters of printed fields. */
  predicate PrintedChars(s: string) {
    forall i | 0 <= i < |s| :: IsDigit(s[i]) || s[i] in {'-', '+', ':', '.', ' ', 'B', 'C'}
  }

  predicate FieldChars(s: string) {
    s != "" && IsDigit(s[0]) && IsDigit(s[|s| - 1]) && forall i | 0 <= i < |s| :: IsDigit(s[i]) || s[i] in {'-', '+', ':', '.'}
  }

  lemma CleanedSame(s: string)
    requires PrintedChars(s)
    ensures Cleaned(s) == s
  {
  }

  lemma FieldFree(s: string)
    requires FieldChars(s)
    ensures Free(s, IsSpace)
  {
  }

  /** Fields one after the other, and maybe the era. */
  function WithEra(s: string, bc: bool): string {
    if bc then s + (" " + "BC") else s
  }

  lemma EraRuns(f: string, bc: bool)
    requires FieldChars(f)
    ensures Runs(WithEra(f, bc), IsSpace) == if bc then [f, "BC"] else [f]
  {
    hide Runs, FieldChars;
    assert f != "" by { FieldEnds(f); }
    FieldFree(f);
    if bc {
      RunFirst(f, ' ', "BC", IsSpace);
      OneRun("BC", IsSpace);
    } else {
      OneRun(f, IsSpace);
    }
  }

  lemma FieldEnds(f: string)
    requires FieldChars(f)
    ensures f != "" && IsDigit(f[0]) && IsDigit(f[|f| - 1]) && PrintedChars(f)
  {
  }

  lemma OneFieldText(d: string, bc: bool)
    requires FieldChars(d)
    ensures var t := WithEra(d, bc);
      && DigitFirst(t) && !IsSpace(t[|t| - 1])
      && Runs(Cleaned(Trim(t)), IsSpace) == if bc then [d, "BC"] else [d]
  {
    hide FieldChars, Runs, Cleaned, Trim;
    var t := WithEra(d, bc);
    FieldEnds(d);
    assert t[0] == d[0] && t[|t| - 1] == if bc then 'C' else d[|d| - 1];
    TrimNothing(t);
    CleanedSame(t);
    EraRuns(d, bc);
  }

  lemma TwoFieldText(d: string, f: string, bc: bool)
    requires FieldChars(d) && FieldChars(f)
    ensures var t := d + (" " + WithEra(f, bc));
      && DigitFirst(t) && !IsSpace(t[|t| - 1])
      && Runs(Cleaned(Trim(t)), IsSpace) == if bc then [d, f, "BC"] else [d, f]
  {
    hide FieldChars, Runs, Cleaned, Trim;
    var w := WithEra(f, bc);
    var t := d + (" " + w);
    FieldEnds(d);
    FieldEnds(f);
    assert w[|w| - 1] == if bc then 'C' else f[|f| - 1];
    assert t[0] == d[0] && t[|t| - 1] == w[|w| - 1];
    TrimNothing(t);
    CleanedSame(t);
    EraRuns(f, bc);
    FieldFree(d);
    RunFirst(d, ' ', w, IsSpace);
  }

  /** A text of printed fields is no special value, alone or with a zone. */
  lemma PlainText(t: string, d: string, rest: string)
    requires DigitFirst(t) && !IsSpace(t[|t| - 1]) && FieldChars(d) && t == d + rest && (rest == "" || rest[0] == ' ')
    ensures Trim(t) == t && SpecialOf(t).None? && SplitSpecial(t).None?
  {
    hide Trim, SpecialOf;
    NotSpecial(t);
    RunThrough(d, rest, IsSpace);
    assert t[..|d|] == d;
    NotSpecial(d);
  }

  // ----- dates -----

  ghost predicate PrintableDate(c: Date) {
    ValidDate(c) && -4714 <= c.y <= 5_874_897
  }

  lemma DateChars(c: Date)
    requires PrintableDate(c)
    ensures c.m >= 0 && c.d >= 0 && FieldChars(DateIso(c))
  {
    hide PadTo;
    MonthLengths(c.y, c.m);
    Pad2(c.m); Pad2(c.d);
    PadYear(DisplayYear(c.y));
  }

  /** The state after the date field. */
  function AfterDate(c: Date): Decoding
    requires c.m >= 0 && c.d >= 0
  {
    var nums := DateParts(DisplayYear(c.y), PadTo(DisplayYear(c.y), 4), c.m, c.d);
    START.(nums := nums, parts := [Num(nums[0]), Num(nums[1]), Num(nums[2])])
  }

  lemma DecodesDateIso(z: Zones, c: Date)
    requires PrintableDate(c)
    ensures c.m >= 0 && c.d >= 0 && DecodeField(z, START, DateIso(c)) == Ok(AfterDate(c))
  {
    hide DecodeField, PadTo;
    MonthLengths(c.y, c.m);
    Pad2(c.m); Pad2(c.d);
    PadYear(DisplayYear(c.y));
    DecodesDate(z, START, PadTo(DisplayYear(c.y), 4), PadTo(c.m, 2), PadTo(c.d, 2), DisplayYear(c.y), c.m, c.d);
  }

  /** The days of a decoding whose parts are those of c. */
  lemma DaysAfterDate(order: DateOrder, s: Decoding, c: Date)
    requires PrintableDate(c) && s.bc == (c.y <= 0)
    requires c.m >= 0 && c.d >= 0 && s.nums == AfterDate(c).nums && s.parts == AfterDate(c).parts
    requires s.julian.None? && s.doy.None? && s.compactDays.None? && s.meridian.None?
    ensures DaysOf(order, s) == if ValidDay(Days(c)) then Ok(Days(c)) else Err(FieldRange)
    ensures forall days :: Meridian(s, days) == Ok(Decoded(days, s.tod, s.zone, s.zoneOffset))
  {
    hide CivilDays, PadTo, ValidDay, DaysFromCivil;
    CivilDaysBack(order, s, c, PadTo(DisplayYear(c.y), 4));
  }

  lemma RunFields2(z: Zones, s: Decoding, a: string, b: string)
    ensures DecodeFields(z, s, [a]) == DecodeField(z, s, a)
    ensures DecodeFields(z, s, [a, b]) ==
      var s1 := DecodeField(z, s, a);
      if s1.Err? then s1 else DecodeField(z, s1.value, b)
  {
    hide DecodeField;
    assert [a][1..] == [] && [a, b][1..] == [b] && [b][1..] == [];
    var s1 := DecodeField(z, s, a);
    if s1.Ok? {
      assert DecodeFields(z, s1.value, [b]) == DecodeField(z, s1.value, b) by {
        var s2 := DecodeField(z, s1.value, b);
        if s2.Ok? { assert DecodeFields(z, s2.value, []) == s2; }
      }
      assert DecodeFields(z, s1.value, []) == s1;
    }
  }

  lemma RunFields3(z: Zones, s: Decoding, a: string, b: string, c: string)
    ensures DecodeFields(z, s, [a, b, c]) ==
      var s1 := DecodeField(z, s, a);
      if s1.Err? then s1 else DecodeFields(z, s1.value, [b, c])
  {
    hide DecodeField;
    assert [a, b, c][1..] == [b, c];
  }

  lemma DecodesIsoDate(z: Zones, order: DateOrder, c: Date)
    requires PrintableDate(c)
    ensures c.m >= 0 && c.d >= 0
    ensures var t := DateIso(c) + Era(c);
      && t == WithEra(DateIso(c), c.y <= 0)
      && Decode(z, order, t) == if ValidDay(Days(c)) then Ok(Decoded(Days(c), 0, None, None)) else Err(FieldRange)
  {
    hide DecodeField, DateIso, AfterDate, Runs, Cleaned, Trim, FieldChars, DaysOf, Meridian, DecodeFields,
         ValidDay, DaysFromCivil;
    DateChars(c);
    var d := DateIso(c);
    assert Era(c) == if c.y <= 0 then " " + "BC" else "";
    assert d + "" == d;
    OneFieldText(d, c.y <= 0);
    DecodesDateIso(z, c);
    DecodesEra(z, AfterDate(c));
    RunFields2(z, START, d, "BC");
    var s := if c.y <= 0 then AfterDate(c).(bc := true) else AfterDate(c);
    assert s.bc == (c.y <= 0) && s.julian.None? && s.doy.None? && s.compactDays.None? && s.meridian.None?
           && s.tod == 0 && s.zone.None? && s.zoneOffset.None? && s.nums == AfterDate(c).nums && s.parts == AfterDate(c).parts
    by { AfterDateFields(c); }
    DaysAfterDate(order, s, c);
  }

  lemma AfterDateFields(c: Date)
    requires c.m >= 0 && c.d >= 0
    ensures var s := AfterDate(c);
      && s.julian.None? && s.doy.None? && s.compactDays.None? && s.meridian.None? && !s.bc && !s.hasTime
      && s.tod == 0 && s.zone.None? && s.zoneOffset.None? && s.nums != []
  {
  }

  /** Every finite date reads back from its ISO text, under every date order. */
  lemma DateRoundTrip(z: Zones, order: DateOrder, now: int, day: int)
    requires ValidDay(day)
    ensures ParseDate(z, order, now, FormatDate(day)) == Ok(day)
  {
    hide Decode, DateIso, Trim, SpecialOf, FieldChars, CivilFromDays, DaysFromCivil, ValidDate;
    DaysOfCivil(day);
    FiniteDates(day);
    var c := CivilFromDays(day);
    DecodesIsoDate(z, order, c);
    DateChars(c);
    OneFieldText(DateIso(c), c.y <= 0);
    PlainText(DateIso(c) + Era(c), DateIso(c), Era(c));
    DateBounds();
  }

  lemma DateBounds()
    ensures DATE_MAX < I32_MAX && DATE_MIN > I32_MIN && DATE_MIN * PER_DAY > I64_MIN
  {
  }

  // ----- timestamps -----

  function ClockDigits(tod: nat): string {
    Clock(PadTo(tod / 3_600_000_000, 2), PadTo(tod / 60_000_000 % 60, 2),
          PadTo(tod / 1_000_000 % 60, 2) + Fraction(tod % 1_000_000))
  }

  lemma ClockDigitsShape(tod: nat)
    requires tod < PER_DAY
    ensures ClockText(ClockDigits(tod)) && TimeText(tod) == ClockDigits(tod)
    ensures SecondsText(PadTo(tod / 1_000_000 % 60, 2) + Fraction(tod % 1_000_000), tod / 1_000_000 % 60, tod % 1_000_000)
  {
    hide PadTo, Fraction, SecondsText, ClockText;
    SecondsMade(tod / 1_000_000 % 60, tod % 1_000_000);
    ClockShape(tod / 3_600_000_000, tod / 60_000_000 % 60, tod / 1_000_000 % 60, tod % 1_000_000,
               PadTo(tod / 1_000_000 % 60, 2) + Fraction(tod % 1_000_000));
  }

  lemma LocalText(t: int, tail: string)
    ensures var s := SplitMicros(t);
      && 0 <= s.tod < PER_DAY && ValidDate(CivilFromDays(s.days))
      && var c := CivilFromDays(s.days);
         c.m >= 0 && c.d >= 0 && LocalIso(t, tail) == DateIso(c) + (" " + WithEra(ClockDigits(s.tod) + tail, c.y <= 0))
  {
    hide TimeText, ClockDigits, DateIso, SplitMicros, CivilFromDays, DaysFromCivil;
    var s := SplitMicros(t);
    SplitIsFloor(t);
    DaysOfCivil(s.days);
    ClockDigitsShape(s.tod);
    var c, u := CivilFromDays(s.days), ClockDigits(s.tod) + tail;
    assert u + "" == u;
    assert " BC" == " " + "BC";
  }

  lemma ClockField(tod: nat, tail: string)
    requires tod < PER_DAY && IsTail(tail)
    ensures FieldChars(ClockDigits(tod) + tail)
  {
    hide ClockDigits;
    ClockDigitsShape(tod);
    var f := ClockDigits(tod) + tail;
    if tail != "" { assert f[|f| - 1] == tail[|tail| - 1] && forall c | c in tail :: c == tail[0] || c in tail[1..]; }
  }

  /** Decoding a printed local time: the days of its date, and what its clock field says. */
  lemma DecodesLocal(z: Zones, order: DateOrder, c: Date, tod: nat, tail: string)
    requires PrintableDate(c) && tod < PER_DAY && IsTail(tail)
    ensures c.m >= 0 && c.d >= 0
    ensures Decode(z, order, DateIso(c) + (" " + WithEra(ClockDigits(tod) + tail, c.y <= 0))) ==
      match ParseTimeField(ClockDigits(tod) + tail)
      case Err(e) => Err(e)
      case Ok(time) => if ValidDay(Days(c)) then Ok(Decoded(Days(c), time.0, None, time.1)) else Err(FieldRange)
  {
    hide DecodeField, DateIso, AfterDate, Runs, Cleaned, Trim, FieldChars, DaysOf, Meridian, DecodeFields,
         ClockDigits, IsTail, ParseTimeField, ValidDay, DaysFromCivil;
    DateChars(c);
    ClockField(tod, tail);
    var d, f := DateIso(c), ClockDigits(tod) + tail;
    TwoFieldText(d, f, c.y <= 0);
    DecodesDateIso(z, c);
    AfterDateFields(c);
    var s1 := AfterDate(c);
    ClockFieldDecodes(z, s1, tod, tail);
    RunFields2(z, START, d, f);
    RunFields3(z, START, d, f, "BC");
    RunFields2(z, s1, f, "BC");
    var time := ParseTimeField(f);
    if time.Ok? {
      var s2 := SetTime(s1, time.value.0, time.value.1);
      DecodesEra(z, s2);
      DaysAfterDate(order, if c.y <= 0 then s2.(bc := true) else s2, c);
    }
  }

  lemma ClockFieldDecodes(z: Zones, s: Decoding, tod: nat, tail: string)
    requires tod < PER_DAY && IsTail(tail) && !s.hasTime && s.nums != []
    ensures DecodeField(z, s, ClockDigits(tod) + tail) ==
      match ParseTimeField(ClockDigits(tod) + tail)
      case Err(e) => Err(e)
      case Ok(time) => Ok(SetTime(s, time.0, time.1))
  {
    hide DecodeField, ParseTimeField, ClockDigits, ClockText;
    ClockDigitsShape(tod);
    DecodesTime(z, s, ClockDigits(tod), tail);
  }

  /** A clock field alone reads back the time of day. */
  lemma ClockAlone(tod: nat)
    requires tod < PER_DAY
    ensures ParseTimeField(ClockDigits(tod)) == Ok((tod, None))
  {
    hide ParseTimeField, GluedOffset, ClockText, SecondsText, PadTo, Fraction;
    var hh, mm, ss, us := tod / 3_600_000_000, tod / 60_000_000 % 60, tod / 1_000_000 % 60, tod % 1_000_000;
    ClockDigitsShape(tod);
    NoGlue(ClockDigits(tod));
    ClockFields(tod);
    ParsesClock(ClockDigits(tod), hh, mm, ss, us, PadTo(ss, 2) + Fraction(us), ClockDigits(tod));
  }

  /** With an offset glued on it reads back both, if the offset has no seconds. */
  lemma ClockWithOffset(tod: nat, offset: int)
    requires tod < PER_DAY && OffsetSize(offset) < 57600
    ensures ParseTimeField(ClockDigits(tod) + FormatOffset(offset)) ==
      if OffsetSize(offset) % 60 == 0 then Ok((tod, Some(offset))) else Err(InvalidTime)
  {
    hide ParseTimeField, GluedOffset, ClockText, SecondsText, PadTo, Fraction, FormatOffset, OffsetSize, Clock;
    var hh, mm, ss, us := tod / 3_600_000_000, tod / 60_000_000 % 60, tod / 1_000_000 % 60, tod % 1_000_000;
    var core, sf := ClockDigits(tod), PadTo(ss, 2) + Fraction(us);
    ClockDigitsShape(tod);
    Glued(core, offset);
    ClockFields(tod);
    assert (core + FormatOffset(offset))[..|core|] == core;
    if OffsetSize(offset) % 60 == 0 {
      ParsesClock(core + FormatOffset(offset), hh, mm, ss, us, sf, core);
    } else {
      Pad2(hh);
      Pad2(mm);
      NoColon(PadTo(hh, 2));
      NoColon(PadTo(mm, 2));
      SecondsShape(sf, ss, us);
      SecondsRefused(PadTo(hh, 2), PadTo(mm, 2), sf, offset);
    }
  }

  lemma TimestampDates(t: int)
    requires ValidTs(t)
    ensures ValidDay(SplitMicros(t).days) && PrintableDate(CivilFromDays(SplitMicros(t).days))
    ensures I64_MIN < t < I64_MAX && JoinMicros(SplitMicros(t).days, SplitMicros(t).tod) == t
  {
    hide CivilFromDays, DaysFromCivil, ValidDate, SplitMicros;
    SplitIsFloor(t);
    LastTimestampDay();
    DateBounds();
    FiniteDates(SplitMicros(t).days);
    DaysOfCivil(SplitMicros(t).days);
  }

  lemma LastTimestampDay()
    ensures I64_MAX / PER_DAY <= DATE_MAX
  {
  }

  /** Every finite timestamp reads back from its ISO text, under every date order. */
  lemma TimestampRoundTrip(z: Zones, order: DateOrder, now: int, t: int)
    requires ValidTs(t)
    ensures ParseTimestamp(z, order, now, FormatTimestamp(t)) == Ok(t)
  {
    hide Decode, DateIso, Trim, SpecialOf, FieldChars, CivilFromDays, DaysFromCivil, ValidDate, SplitMicros,
         ClockDigits, LocalIso, SplitSpecial, PrintableDate, ValidDay, ParseTimeField;
    LocalText(t, "");
    TimestampDates(t);
    var s := SplitMicros(t);
    var c := CivilFromDays(s.days);
    DaysOfCivil(s.days);
    var d, f := DateIso(c), ClockDigits(s.tod) + "";
    assert f == ClockDigits(s.tod);
    DecodesLocal(z, order, c, s.tod, "");
    ClockAlone(s.tod);
    LocalPlain(c, s.tod, "");
  }

  lemma LocalPlain(c: Date, tod: nat, tail: string)
    requires PrintableDate(c) && tod < PER_DAY && IsTail(tail)
    ensures c.m >= 0 && c.d >= 0
    ensures var t := DateIso(c) + (" " + WithEra(ClockDigits(tod) + tail, c.y <= 0));
      Trim(t) == t && SpecialOf(t).None? && SplitSpecial(t).None?
  {
    hide DateIso, Trim, SpecialOf, FieldChars, ClockDigits, SplitSpecial, PrintableDate, IsTail;
    DateChars(c);
    ClockField(tod, tail);
    var d, f := DateIso(c), ClockDigits(tod) + tail;
    TwoFieldText(d, f, c.y <= 0);
    PlainText(d + (" " + WithEra(f, c.y <= 0)), d, " " + WithEra(f, c.y <= 0));
  }

  /** A timestamp printed at an offset reads back exactly when the offset has whole minutes and
      the local date is not before the first one. */
  lemma TimestamptzRoundTrip(z: Zones, order: DateOrder, now: int, t: int, offset: int)
    requires ValidTs(t) && OffsetSize(offset) < 57600 && t + offset * 1_000_000 < I64_MAX
    ensures ParseTimestamptz(z, order, now, FormatTimestamptz(t, offset)) == Ok(t) <==>
      OffsetSize(offset) % 60 == 0 && SplitMicros(t + offset * 1_000_000).days >= DATE_MIN
  {
    hide Decode, DateIso, Trim, SpecialOf, FieldChars, CivilFromDays, DaysFromCivil, ValidDate, SplitMicros,
         ClockDigits, LocalIso, SplitSpecial, PrintableDate, ValidDay, ParseTimeField, FormatOffset, OffsetSize,
         IsTail;
    var local := t + offset * 1_000_000;
    LocalText(local, FormatOffset(offset));
    LocalDates(t, offset);
    OffsetTail(offset);
    var s := SplitMicros(local);
    var c := CivilFromDays(s.days);
    DaysOfCivil(s.days);
    DecodesLocal(z, order, c, s.tod, FormatOffset(offset));
    ClockWithOffset(s.tod, offset);
    LocalPlain(c, s.tod, FormatOffset(offset));
  }

  /** Two instants that are lost: 1970-01-01 at the mean time of Amsterdam, nineteen minutes and
      thirty-two seconds ahead; and the first instant of all at an offset behind UTC. */
  lemma InstantsLost(z: Zones, order: DateOrder, now: int)
    ensures ParseTimestamptz(z, order, now, FormatTimestamptz(0, 1172)) != Ok(0)
    ensures var t := DATE_MIN * PER_DAY; ParseTimestamptz(z, order, now, FormatTimestamptz(t, -3600)) != Ok(t)
  {
    hide ParseTimestamptz, FormatTimestamptz;
    DateBounds();
    TimestamptzRoundTrip(z, order, now, 0, 1172);
    var t := DATE_MIN * PER_DAY;
    SplitIsFloor(t - 3_600_000_000);
    TimestamptzRoundTrip(z, order, now, t, -3600);
  }

  lemma OffsetTail(offset: int)
    requires OffsetSize(offset) < 57600
    ensures IsTail(FormatOffset(offset))
  {
    hide FormatOffset, OffsetSize;
    OffsetParts(offset);
    OffsetShape(offset);
    assert FormatOffset(offset)[1..] == OffsetBody(offset);
  }

  /** The local day is at most one before the first date; it prints, but does not read back. */
  lemma LocalDates(t: int, offset: int)
    requires ValidTs(t) && OffsetSize(offset) < 57600 && t + offset * 1_000_000 < I64_MAX
    ensures var s := SplitMicros(t + offset * 1_000_000);
      && PrintableDate(CivilFromDays(s.days)) && (ValidDay(s.days) <==> s.days >= DATE_MIN)
      && JoinMicros(s.days, s.tod) == t + offset * 1_000_000 && I64_MIN < t + offset * 1_000_000
  {
    hide CivilFromDays, DaysFromCivil, ValidDate, SplitMicros;
    var local := t + offset * 1_000_000;
    SplitIsFloor(local);
    LastTimestampDay();
    DateBounds();
    var day := SplitMicros(local).days;
    DaysOfCivil(day);
    if day >= DATE_MIN {
      FiniteDates(day);
    } else {
      DayBeforeFirst();
      assert day == DATE_MIN - 1;
    }
  }

  lemma DayBeforeFirst()
    ensures CivilFromDays(DATE_MIN - 1).y == -4713
  {
    hide CivilFromDays;
    assert Days(Date(-4713, 11, 23)) == DATE_MIN - 1;
    CivilOfDays(Date(-4713, 11, 23));
  }
}

/** How the date order of the session, two-digit years and month names decide what the numbers of
    a date mean: laws on texts, for every valid date. */
module DateTextOrders {
  import opened Integers
  import opened Wrappers
  import opened Text
  import opened Decimal
  import opened Calendar
  import opened Timestamps
  import opened DateText
  import opened DateTextRoundTrip

  /** A text of lo to hi digits with value n. */
  predicate Spells(t: string, n: nat, lo: nat, hi: nat) {
    AllDigits(t) && lo <= |t| <= hi && Value(t) == n
  }

  function Triple(a: string, mark: char, b: string, c: string): string {
    a + ([mark] + (b + ([mark] + c)))
  }

  /** The texts of year, month and day in the order of the session. */
  function InOrder(order: DateOrder, y: string, m: string, d: string, mark: char): string {
    match order
    case Mdy => Triple(m, mark, d, y)
    case Dmy => Triple(d, mark, m, y)
    case Ymd => Triple(y, mark, m, d)
  }

  // ----- one field of three pieces -----

  /** A number or a word. */
  predicate PlainPiece(p: string) {
    p != "" && (AllDigits(p) || forall i | 0 <= i < |p| :: IsLetter(p[i]))
  }

  lemma TripleChars(a: string, mark: char, b: string, c: string)
    requires AllDigits(a) && a != "" && PlainPiece(b) && AllDigits(c) && c != "" && IsMark(mark)
    ensures var f := Triple(a, mark, b, c);
      && DigitFirst(f) && f[|a|] == mark && IsDigit(f[|f| - 1])
      && forall i | 0 <= i < |f| :: IsDigit(f[i]) || IsLetter(f[i]) || f[i] == mark
  {
  }

  lemma TripleRuns(a: string, mark: char, b: string, c: string)
    requires AllDigits(a) && a != "" && PlainPiece(b) && AllDigits(c) && c != "" && IsMark(mark)
    ensures Runs(Triple(a, mark, b, c), IsMark) == [a, b, c]
  {
    hide Runs;
    assert Free(a, IsMark) && Free(b, IsMark) && Free(c, IsMark);
    RunFirst(a, mark, b + ([mark] + c), IsMark);
    RunFirst(b, mark, c, IsMark);
    OneRun(c, IsMark);
    assert [a] + ([b] + [c]) == [a, b, c];
  }

  lemma NotDotted(s: Decoding, a: string, mark: char, b: string, c: string)
    requires AllDigits(a) && a != "" && PlainPiece(b) && AllDigits(c) && c != "" && IsMark(mark)
    ensures DottedDay(s, Triple(a, mark, b, c)).None?
  {
    hide ParseI64;
    var f := Triple(a, mark, b, c);
    TripleChars(a, mark, b, c);
    if mark == '.' {
      IndexAfter(a, '.', b + ([mark] + c));
      var rest := f[|a| + 1..];
      assert rest == b + ([mark] + c) && rest[|b|] == '.';
      assert !AllDigits(rest);
    } else {
      assert '.' !in f;
      NoneToSplit(f, '.');
    }
  }

  lemma DigitFirstIsNoWord(z: Zones, s: Decoding, f: string)
    requires DigitFirst(f)
    ensures WordField(z, s, f).None? && !IsZoneSpec(z, f) && !IsJulian(f)
  {
    hide MonthFromName, IsWeekdayName, MarkerWord, ParseZoneOffset;
    NotAName(s, f);
    assert !ZoneChars(f, false) && !ZoneChars(f, true);
  }

  lemma DecodesTriple(z: Zones, a: string, mark: char, b: string, c: string)
    requires AllDigits(a) && a != "" && PlainPiece(b) && AllDigits(c) && c != "" && IsMark(mark)
    ensures DecodeField(z, START, Triple(a, mark, b, c)) == Pieces(START, [a, b, c], 0, false)
  {
    hide WordField, IsZoneSpec, IsJulian, DottedDay, Runs, Pieces, ParseCompactTime, AllDigits;
    var f := Triple(a, mark, b, c);
    TripleChars(a, mark, b, c);
    DigitFirstIsNoWord(z, START, f);
    NotDotted(START, a, mark, b, c);
    TripleRuns(a, mark, b, c);
    assert !AllDigits(f) by { MarkNoDigit(f, |a|); }
    assert ':' !in f;
  }

  lemma MarkNoDigit(f: string, k: nat)
    requires k < |f| && IsMark(f[k])
    ensures !AllDigits(f)
  {
  }

  /** What a piece adds: a number or a month. */
  function PartOf(p: string, v: nat): SeqPart {
    if AllDigits(p) then Num(NumField(v, |p|)) else Month(v)
  }

  /** A number of one to nine digits with its value, or a month name. */
  predicate Reads(p: string, v: nat) {
    if AllDigits(p) then p != "" && Value(p) == v && v <= 999_999_999 else MonthFromName(Lower(p)) == Some(v)
  }

  lemma PieceReads(s: Decoding, p: string, v: nat, i: nat)
    requires Reads(p, v) && i < 3 && (i == 2 ==> AllDigits(p))
    ensures var r := Piece(s, p, i, 3, false);
      && r.Ok? && r.value.parts == s.parts + [PartOf(p, v)]
      && r.value == s.(nums := r.value.nums, parts := r.value.parts, month := r.value.month)
      && (AllDigits(p) ==> |r.value.nums| == |s.nums| + 1) && (!AllDigits(p) ==> r.value.nums == s.nums && r.value.month.Some?)
  {
    hide Value, MonthFromName, IsWeekdayName;
    if AllDigits(p) { NumberBack(p); }
  }

  /** The state after three pieces. */
  lemma ThreeRead(a: string, b: string, c: string, va: nat, vb: nat, vc: nat)
    requires AllDigits(a) && AllDigits(c) && Reads(a, va) && Reads(b, vb) && Reads(c, vc)
    ensures var r := Pieces(START, [a, b, c], 0, false);
      && r.Ok? && r.value.parts == [PartOf(a, va), PartOf(b, vb), PartOf(c, vc)]
      && r.value == START.(nums := r.value.nums, parts := r.value.parts, month := r.value.month)
      && |r.value.nums| >= 2
  {
    hide Piece, AllDigits, Reads, PartOf;
    var ps := [a, b, c];
    PieceReads(START, a, va, 0);
    var s1 := Piece(START, a, 0, 3, false).value;
    PieceReads(s1, b, vb, 1);
    var s2 := Piece(s1, b, 1, 3, false).value;
    PieceReads(s2, c, vc, 2);
    var s3 := Piece(s2, c, 2, 3, false).value;
    assert Pieces(s3, ps, 3, false) == Ok(s3);
    assert Pieces(s2, ps, 2, false) == Ok(s3);
    assert Pieces(s1, ps, 1, false) == Ok(s3);
    assert s3.parts == [PartOf(a, va), PartOf(b, vb), PartOf(c, vc)];
  }

  /** The days of three parts, checked. */
  function DaysOfParts(order: DateOrder, parts: seq<SeqPart>): Result<int, DateError> {
    var ymd := YmdOf(order, parts, false);
    if ymd.Err? then Err(ymd.error)
    else
      var days := DaysChecked(ymd.value.y, ymd.value.m, ymd.value.d);
      if days.Ok? && !ValidDay(days.value) then Err(FieldRange) else days
  }

  lemma PartsDecide(order: DateOrder, s: Decoding)
    requires s == START.(nums := s.nums, parts := s.parts, month := s.month) && |s.nums| >= 2
    ensures DaysOf(order, s) == DaysOfParts(order, s.parts)
    ensures forall days :: Meridian(s, days) == Ok(Decoded(days, 0, None, None))
  {
    hide YmdOf, DaysChecked;
  }

  lemma TripleText(f: string, a: string, mark: char, b: string, c: string)
    requires f == Triple(a, mark, b, c)
    requires AllDigits(a) && a != "" && PlainPiece(b) && AllDigits(c) && c != "" && IsMark(mark)
    ensures Runs(Cleaned(Trim(f)), IsSpace) == [f] && Trim(f) == f && SpecialOf(f).None?
  {
    hide Runs, Trim, SpecialOf;
    TripleChars(a, mark, b, c);
    NotSpecial(f);
    assert forall i | 0 <= i < |f| :: f[i] != ',' && !IsSpace(f[i]);
    assert Cleaned(f) == f by { CleanedTriple(f, a, mark, b, c); }
    OneRun(f, IsSpace);
  }

  /** No T stands between two digits. */
  lemma CleanedTriple(f: string, a: string, mark: char, b: string, c: string)
    requires f == Triple(a, mark, b, c) && AllDigits(a) && PlainPiece(b) && AllDigits(c) && IsMark(mark)
    ensures Cleaned(f) == f
  {
    forall i | 0 <= i < |f|
      ensures f[i] != ',' && (f[i] == 'T' && i > 0 ==> !IsDigit(f[i - 1]))
    {
      if |a| + 1 <= i < |a| + 1 + |b| {
        assert f[i] == b[i - |a| - 1];
        if i > |a| + 1 { assert f[i - 1] == b[i - |a| - 2]; } else { assert f[i - 1] == mark; }
      }
    }
  }

  /** Reading three pieces: the days their parts make. */
  lemma ParsesTriple(z: Zones, order: DateOrder, now: int, a: string, mark: char, b: string, c: string,
                     va: nat, vb: nat, vc: nat)
    requires AllDigits(a) && PlainPiece(b) && AllDigits(c) && IsMark(mark)
    requires Reads(a, va) && Reads(b, vb) && Reads(c, vc)
    ensures ParseDate(z, order, now, Triple(a, mark, b, c))
         == DaysOfParts(order, [PartOf(a, va), PartOf(b, vb), PartOf(c, vc)])
  {
    hide Trim, SpecialOf, Runs, Cleaned, DecodeField, Pieces, DaysOf, Meridian, DaysOfParts, AllDigits, PartOf;
    var f := Triple(a, mark, b, c);
    assert a != "" && c != "" by { ReadsSome(a, va); ReadsSome(c, vc); }
    TripleText(f, a, mark, b, c);
    DecodesTriple(z, a, mark, b, c);
    ThreeRead(a, b, c, va, vb, vc);
    RunFields2(z, START, f, "");
    var s := Pieces(START, [a, b, c], 0, false).value;
    PartsDecide(order, s);
    PartsInRange(order, s.parts);
  }

  lemma ReadsSome(p: string, v: nat)
    requires Reads(p, v) && AllDigits(p)
    ensures p != ""
  {
  }

  lemma PartsInRange(order: DateOrder, parts: seq<SeqPart>)
    ensures DaysOfParts(order, parts).Ok? ==> ValidDay(DaysOfParts(order, parts).value)
  {
    hide YmdOf, DaysChecked;
  }

  // ----- numbers in the order of the session -----

  lemma AllThree(order: DateOrder, p: SeqPart, q: SeqPart, r: SeqPart)
    ensures AssignAll(order, NO_SLOTS, [p, q, r]) ==
      var s1 := AssignPart(order, NO_SLOTS, p);
      if s1.None? then None else
      var s2 := AssignPart(order, s1.value, q);
      if s2.None? then None else AssignPart(order, s2.value, r)
  {
    hide AssignPart;
    var parts := [p, q, r];
    assert parts[1..] == [q, r] && [q, r][1..] == [r] && [r][1..] == [];
    var s1 := AssignPart(order, NO_SLOTS, p);
    if s1.Some? {
      var s2 := AssignPart(order, s1.value, q);
      if s2.Some? {
        assert AssignAll(order, s2.value, [r]) == AssignPart(order, s2.value, r) by {
          var s3 := AssignPart(order, s2.value, r);
          if s3.Some? { assert AssignAll(order, s3.value, []) == s3; }
        }
      }
    }
  }

  /** Once the slots hold year, month and day, they are the date, with the year rules. */
  lemma SlotsDecide(order: DateOrder, parts: seq<SeqPart>, y: NumField, c: Date, text: bool)
    requires |parts| == 3 && AssignAll(order, NO_SLOTS, parts) == Some(Slots(Some(y), Some(c.m), Some(c.d), text))
    requires ValidDate(c) && -4713 < c.y <= 9999
    ensures YearOf(y.val, y.digits, false) == Ok(c.y) ==> DaysOfParts(order, parts) == Ok(Days(c))
    ensures YearOf(y.val, y.digits, false).Err? ==> DaysOfParts(order, parts) == Err(FieldRange)
  {
    hide AssignAll, DaysFromCivil, YearOf;
    MonthLengths(c.y, c.m);
    EarlyDays(c);
    YearErrors(y.val, y.digits);
  }

  lemma YearErrors(val: int, digits: nat)
    ensures YearOf(val, digits, false).Err? ==> YearOf(val, digits, false) == Err(FieldRange)
  {
  }

  lemma EarlyDays(c: Date)
    requires ValidDate(c) && -4713 < c.y <= 9999
    ensures ValidDay(Days(c))
  {
    hide DaysFromCivil;
    FirstDate();
    DaysMonotone(c, Date(-4713, 11, 24));
    DaysMonotone(Date(5_874_897, 12, 31), c);
  }

  /** Numbers keep the place that the order of the session gives them: the year is the one of three
      digits or more, or the last one, or under YMD the first. */
  lemma OrderAssigns(order: DateOrder, y: NumField, m: NumField, d: NumField)
    requires m.digits <= 2 && d.digits <= 2
    ensures AssignAll(order, NO_SLOTS,
        match order
        case Mdy => [Num(m), Num(d), Num(y)]
        case Dmy => [Num(d), Num(m), Num(y)]
        case Ymd => [Num(y), Num(m), Num(d)]) == Some(Slots(Some(y), Some(m.val), Some(d.val), false))
  {
    hide AssignAll;
    match order
    case Mdy => AllThree(order, Num(m), Num(d), Num(y));
    case Dmy => AllThree(order, Num(d), Num(m), Num(y));
    case Ymd => AllThree(order, Num(y), Num(m), Num(d));
  }

  lemma SpellsReads(t: string, n: nat, lo: nat, hi: nat)
    requires Spells(t, n, lo, hi) && 1 <= lo && hi <= 9
    ensures AllDigits(t) && t != "" && Reads(t, n) && PlainPiece(t) && PartOf(t, n) == Num(NumField(n, |t|))
  {
    hide Value;
    ValueBelow(t);
    NinePlaces(|t|);
  }

  lemma {:induction false} NinePlaces(k: nat)
    requires k <= 9
    ensures Pow10(k) <= 1_000_000_000
    decreases 9 - k
  {
    if k == 9 {
      assert Pow10(6) == 1_000_000;
      PowSum(6, 3);
      assert Pow10(3) == 1000;
    } else {
      NinePlaces(k + 1);
      PowStep(k);
    }
  }

  lemma ReadsInOrder(z: Zones, order: DateOrder, now: int, c: Date, mark: char, y: string, m: string, d: string, yv: nat)
    requires ValidDate(c) && 1 <= c.y <= 9999 && IsMark(mark)
    requires Spells(m, c.m, 1, 2) && Spells(d, c.d, 1, 2) && Spells(y, yv, 1, 4)
    ensures var r := ParseDate(z, order, now, InOrder(order, y, m, d, mark));
      && (YearOf(yv, |y|, false) == Ok(c.y) ==> r == Ok(Days(c)))
      && (YearOf(yv, |y|, false).Err? ==> r == Err(FieldRange))
  {
    hide ParseDate, Value, AllDigits, YearOf, DaysFromCivil, AssignAll, DaysOfParts, Reads, PartOf, PlainPiece, Triple;
    SpellsReads(y, yv, 1, 4);
    SpellsReads(m, c.m, 1, 2);
    SpellsReads(d, c.d, 1, 2);
    var yf, mf, df := NumField(yv, |y|), NumField(c.m, |m|), NumField(c.d, |d|);
    OrderAssigns(order, yf, mf, df);
    match order {
      case Mdy =>
        ParsesTriple(z, order, now, m, mark, d, y, c.m, c.d, yv);
        SlotsDecide(order, [Num(mf), Num(df), Num(yf)], yf, c, false);
      case Dmy =>
        ParsesTriple(z, order, now, d, mark, m, y, c.d, c.m, yv);
        SlotsDecide(order, [Num(df), Num(mf), Num(yf)], yf, c, false);
      case Ymd =>
        ParsesTriple(z, order, now, y, mark, m, d, yv, c.m, c.d);
        SlotsDecide(order, [Num(yf), Num(mf), Num(df)], yf, c, false);
    }
  }

  /** Every date with a year of four digits reads back from month, day, year under MDY, from day,
      month, year under DMY, and from year, month, day under YMD, with any of the three marks. */
  lemma FourDigitYears(z: Zones, order: DateOrder, now: int, c: Date, mark: char, y: string, m: string, d: string)
    requires ValidDate(c) && 1 <= c.y <= 9999 && mark in {'-', '/', '.'}
    requires Spells(m, c.m, 1, 2) && Spells(d, c.d, 1, 2) && Spells(y, c.y, 4, 4)
    ensures ParseDate(z, order, now, InOrder(order, y, m, d, mark)) == Ok(Days(c))
  {
    hide ParseDate, InOrder, Value, DaysFromCivil;
    ReadsInOrder(z, order, now, c, mark, y, m, d, c.y);
  }

  /** Two-digit years stand for 1970 to 2069 under every order, except that 00 is refused. */
  lemma TwoDigitYears(z: Zones, order: DateOrder, now: int, c: Date, mark: char, y: string, m: string, d: string)
    requires ValidDate(c) && 1970 <= c.y <= 2069 && mark in {'-', '/', '.'}
    requires Spells(m, c.m, 1, 2) && Spells(d, c.d, 1, 2) && Spells(y, c.y % 100, 1, 2)
    ensures ParseDate(z, order, now, InOrder(order, y, m, d, mark)) == if c.y == 2000 then Err(FieldRange) else Ok(Days(c))
  {
    hide ParseDate, InOrder, Value, DaysFromCivil;
    ReadsInOrder(z, order, now, c, mark, y, m, d, c.y % 100);
  }

  // ----- month names -----

  function LongName(m: int): string {
    if m == 1 then "january" else if m == 2 then "february" else if m == 3 then "march" else if m == 4 then "april"
    else if m == 5 then "may" else if m == 6 then "june" else if m == 7 then "july" else if m == 8 then "august"
    else if m == 9 then "september" else if m == 10 then "october" else if m == 11 then "november" else "december"
  }

  function ShortName(m: int): string {
    if m == 1 then "jan" else if m == 2 then "feb" else if m == 3 then "mar" else if m == 4 then "apr"
    else if m == 5 then "may" else if m == 6 then "jun" else if m == 7 then "jul" else if m == 8 then "aug"
    else if m == 9 then "sep" else if m == 10 then "oct" else if m == 11 then "nov" else "dec"
  }

  /** A long or short name of the month, in any case. */
  predicate Names(w: string, m: int) {
    1 <= m <= 12 && (Lower(w) == LongName(m) || Lower(w) == ShortName(m))
  }

  /** The names of a month are its long and its short name, and "sept". */
  lemma NamesExactly(w: string)
    ensures MonthFromName(Lower(w)).Some? ==>
      var m := MonthFromName(Lower(w)).value; Names(w, m) || (m == 9 && Lower(w) == "sept")
    ensures forall m | Names(w, m) :: MonthFromName(Lower(w)) == Some(m)
  {
    hide MonthFromName, Lower, LongName, ShortName;
    MonthHasName(Lower(w));
    forall m | Names(w, m)
      ensures MonthFromName(Lower(w)) == Some(m)
    {
      NameHasMonth(m);
    }
  }

  lemma MonthHasName(l: string)
    ensures MonthFromName(l).Some? ==>
      var m := MonthFromName(l).value; 1 <= m <= 12 && (l == LongName(m) || l == ShortName(m) || (m == 9 && l == "sept"))
  {
  }

  lemma NameHasMonth(m: int)
    requires 1 <= m <= 12
    ensures MonthFromName(LongName(m)) == Some(m) && MonthFromName(ShortName(m)) == Some(m)
  {
  }

  lemma {:induction false} MonthStays(order: DateOrder, s: Slots, parts: seq<SeqPart>)
    requires s.haveText && s.m.Some? && forall i | 0 <= i < |parts| :: parts[i].Num?
    ensures var r := AssignAll(order, s, parts); r.Some? ==> r.value.m == s.m
    decreases |parts|
  {
    if parts != [] {
      var s1 := AssignPart(order, s, parts[0]);
      if s1.Some? { MonthStays(order, s1.value, parts[1..]); }
    }
  }

  /** A month name fixes the month wherever it stands among the numbers, under every order. */
  lemma {:induction false} NameFixesMonth(order: DateOrder, s: Slots, before: seq<SeqPart>, m: nat, after: seq<SeqPart>)
    requires !s.haveText
    requires (forall i | 0 <= i < |before| :: before[i].Num?) && forall i | 0 <= i < |after| :: after[i].Num?
    ensures var r := AssignAll(order, s, before + [Month(m)] + after); r.Some? ==> r.value.m == Some(m) && r.value.haveText
    decreases |before|
  {
    hide AssignNum;
    var parts := before + [Month(m)] + after;
    if before == [] {
      assert parts[0] == Month(m) && parts[1..] == after;
      var s1 := AssignPart(order, s, Month(m));
      if s1.Some? {
        MonthStays(order, s1.value, after);
        TextStays(order, s1.value, after);
      }
    } else {
      assert parts[0] == before[0] && parts[1..] == before[1..] + [Month(m)] + after;
      var s1 := AssignPart(order, s, before[0]);
      if s1.Some? {
        NumKeepsText(order, s, before[0].f);
        NameFixesMonth(order, s1.value, before[1..], m, after);
      }
    }
  }

  lemma NumKeepsText(order: DateOrder, s: Slots, nf: NumField)
    ensures var r := AssignNum(order, s, nf); r.Some? ==> r.value.haveText == s.haveText
  {
  }

  lemma {:induction false} TextStays(order: DateOrder, s: Slots, parts: seq<SeqPart>)
    requires s.haveText
    ensures var r := AssignAll(order, s, parts); r.Some? ==> r.value.haveText
    decreases |parts|
  {
    if parts != [] {
      var s1 := AssignPart(order, s, parts[0]);
      if s1.Some? { TextStays(order, s1.value, parts[1..]); }
    }
  }

  /** Day, name and year; year, name and day; name, day and year: all mean the same date. */
  lemma NamedAssigns(order: DateOrder, y: NumField, m: nat, d: NumField)
    requires y.digits >= 3 && d.digits <= 2 && 1 <= d.val <= 31
    ensures AssignAll(order, NO_SLOTS, [Num(d), Month(m), Num(y)]) == Some(Slots(Some(y), Some(m), Some(d.val), true))
    ensures AssignAll(order, NO_SLOTS, [Num(y), Month(m), Num(d)]) == Some(Slots(Some(y), Some(m), Some(d.val), true))
    ensures AssignAll(order, NO_SLOTS, [Month(m), Num(d), Num(y)]) == Some(Slots(Some(y), Some(m), Some(d.val), true))
  {
    hide AssignAll;
    AllThree(order, Num(d), Month(m), Num(y));
    AllThree(order, Num(y), Month(m), Num(d));
    AllThree(order, Month(m), Num(d), Num(y));
  }

  lemma NameReads(w: string, m: nat)
    requires Names(w, m)
    ensures w != "" && !AllDigits(w) && PlainPiece(w) && Reads(w, m) && PartOf(w, m) == Month(m)
  {
    hide MonthFromName, Names;
    NamesExactly(w);
    NameLetters(w, m);
    assert !IsDigit(w[0]);
  }

  lemma NameLetters(w: string, m: nat)
    requires Names(w, m)
    ensures |w| >= 3 && (forall i | 0 <= i < |w| :: IsLetter(w[i]))
  {
    hide MonthFromName;
    var l := Lower(w);
    assert forall i | 0 <= i < |l| :: 'a' <= l[i] <= 'z';
    assert forall i | 0 <= i < |w| :: l[i] == LowerChar(w[i]);
  }

  /** A date with its month spelled out, day first or year first, reads back under every order. */
  lemma NamedDates(z: Zones, order: DateOrder, now: int, c: Date, mark: char, y: string, w: string, d: string)
    requires ValidDate(c) && 1 <= c.y <= 9999 && mark in {'-', '/', '.'}
    requires Names(w, c.m) && Spells(d, c.d, 1, 2) && Spells(y, c.y, 4, 4)
    ensures ParseDate(z, order, now, Triple(d, mark, w, y)) == Ok(Days(c))
    ensures ParseDate(z, order, now, Triple(y, mark, w, d)) == Ok(Days(c))
  {
    hide ParseDate, Value, AllDigits, DaysFromCivil, AssignAll, DaysOfParts, Reads, PartOf, PlainPiece, Triple, Names;
    SpellsReads(y, c.y, 4, 4);
    SpellsReads(d, c.d, 1, 2);
    NameReads(w, c.m);
    var yf, df := NumField(c.y, |y|), NumField(c.d, |d|);
    MonthLengths(c.y, c.m);
    NamedAssigns(order, yf, c.m, df);
    ParsesTriple(z, order, now, d, mark, w, y, c.d, c.m, c.y);
    ParsesTriple(z, order, now, y, mark, w, d, c.y, c.m, c.d);
    SlotsDecide(order, [Num(df), Month(c.m), Num(yf)], yf, c, true);
    SlotsDecide(order, [Num(yf), Month(c.m), Num(df)], yf, c, true);
  }

  // ----- name, day, year as words -----

  /** January 8, 1999. */
  function Spoken(w: string, d: string, y: string): string {
    w + (" " + (d + (", " + y)))
  }

  lemma SpokenRuns(w: string, d: string, y: string)
    requires PlainPiece(w) && !AllDigits(w) && AllDigits(d) && d != "" && AllDigits(y) && y != ""
    ensures var t := Spoken(w, d, y);
      && Trim(t) == t && SpecialOf(t).None? && Runs(Cleaned(t), IsSpace) == [w, d, y]
  {
    hide Runs, Trim, SpecialOf, Cleaned;
    var t := Spoken(w, d, y);
    assert IsDigit(t[|t| - 1]) && IsLetter(t[0]);
    TrimNothing(t);
    EndsInDigit(t);
    SpokenCleaned(w, d, y);
    var rest := " " + y;
    assert Free(w, IsSpace) && Free(d, IsSpace) && Free(y, IsSpace);
    RunFirst(w, ' ', d + ([' '] + rest), IsSpace);
    RunFirst(d, ' ', rest, IsSpace);
    SkipBlank(y);
    OneRun(y, IsSpace);
    assert [w] + ([d] + [y]) == [w, d, y];
  }

  lemma SkipBlank(y: string)
    ensures Runs(" " + y, IsSpace) == Runs(y, IsSpace)
  {
    assert (" " + y)[1..] == y;
  }

  lemma SpokenCleaned(w: string, d: string, y: string)
    requires PlainPiece(w) && !AllDigits(w) && AllDigits(d) && d != "" && AllDigits(y) && y != ""
    ensures Cleaned(Spoken(w, d, y)) == w + ([' '] + (d + ([' '] + (" " + y))))
  {
    var t, u := Spoken(w, d, y), w + ([' '] + (d + ([' '] + (" " + y))));
    forall i | 0 <= i < |t|
      ensures Cleaned(t)[i] == u[i]
    {
      if i < |w| {
        assert t[i] == w[i] && (i > 0 ==> t[i - 1] == w[i - 1]);
      }
    }
  }

  lemma EndsInDigit(t: string)
    requires t != "" && IsDigit(t[|t| - 1]) && Trim(t) == t
    ensures SpecialOf(t).None?
  {
    hide Trim;
    assert Lower(t)[|t| - 1] == t[|t| - 1];
  }

  lemma NameField(z: Zones, w: string, m: nat)
    requires Names(w, m)
    ensures DecodeField(z, START, w) == Ok(START.(parts := [Month(m)], month := Some(m)))
  {
    hide MonthFromName, IsWeekdayName, ParseCompactTime, DatePieces, Names;
    NamesExactly(w);
    NameLetters(w, m);
    NoMarker(w, m);
    assert !IsDigit(w[0]) && !AllDigits(w);
    assert !IsZoneSpec(z, w);
    assert START.parts + [Month(m)] == [Month(m)];
    assert !IsDigit(w[1]);
  }

  lemma NoMarker(w: string, m: nat)
    requires Names(w, m)
    ensures MarkerWord(START, Lower(w)).None?
  {
  }

  lemma NumberField(z: Zones, s: Decoding, p: string, v: nat)
    requires AllDigits(p) && Reads(p, v) && 1 <= |p| <= 4 && s.month.Some?
    ensures DecodeField(z, s, p)
         == Ok(s.(nums := s.nums + [NumField(v, |p|)], parts := s.parts + [Num(NumField(v, |p|))]))
  {
    hide Value, WordField, IsZoneSpec, Runs, DigitsFrom, IndexOf;
    DigitFirstIsNoWord(z, s, p);
    AllRun(p);
    NoneToSplit(p, '.');
    OneRun(p, IsMark) by { assert Free(p, IsMark); }
    NumberBack(p);
    OnePiece(s, p, v);
    assert ':' !in p && p[0] != '-';
  }

  lemma {:induction false} AllRun(p: string)
    requires AllDigits(p)
    ensures DigitsFrom(p) == |p|
  {
    if p != "" { AllRun(p[1..]); }
  }

  lemma OnePiece(s: Decoding, p: string, v: nat)
    requires AllDigits(p) && ParseI64(p) == Some(v)
    ensures Pieces(s, [p], 0, false)
         == Ok(s.(nums := s.nums + [NumField(v, |p|)], parts := s.parts + [Num(NumField(v, |p|))]))
  {
    hide ParseI64;
    var s1 := Piece(s, p, 0, 1, false).value;
    assert Pieces(s1, [p], 1, false) == Ok(s1);
  }

  /** A spelled-out month, the day, a comma and the year read back under every order. */
  lemma SpokenDates(z: Zones, order: DateOrder, now: int, c: Date, y: string, w: string, d: string)
    requires ValidDate(c) && 1 <= c.y <= 9999
    requires Names(w, c.m) && Spells(d, c.d, 1, 2) && Spells(y, c.y, 4, 4)
    ensures ParseDate(z, order, now, Spoken(w, d, y)) == Ok(Days(c))
  {
    hide Value, AllDigits, DaysFromCivil, AssignAll, DaysOfParts, Reads, PartOf, PlainPiece, Names, Trim, SpecialOf,
         Runs, Cleaned, DecodeField, DaysOf, Meridian, Spoken;
    SpellsReads(y, c.y, 4, 4);
    SpellsReads(d, c.d, 1, 2);
    NameReads(w, c.m);
    SpokenRuns(w, d, y);
    MonthLengths(c.y, c.m);
    var yf, df := NumField(c.y, |y|), NumField(c.d, |d|);
    NameField(z, w, c.m);
    var s1 := START.(parts := [Month(c.m)], month := Some(c.m));
    NumberField(z, s1, d, c.d);
    assert s1.nums + [df] == [df] && s1.parts + [Num(df)] == [Month(c.m), Num(df)];
    var s2 := s1.(nums := [df], parts := [Month(c.m), Num(df)]);
    NumberField(z, s2, y, c.y);
    assert s2.nums + [yf] == [df, yf] && s2.parts + [Num(yf)] == [Month(c.m), Num(df), Num(yf)];
    RunFields3(z, START, w, d, y);
    RunFields2(z, s1, d, y);
    NamedAssigns(order, yf, c.m, df);
    var s3 := s2.(nums := [df, yf], parts := [Month(c.m), Num(df), Num(yf)]);
    PartsDecide(order, s3);
    SlotsDecide(order, s3.parts, yf, c, true);
    PartsInRange(order, s3.parts);
  }
}

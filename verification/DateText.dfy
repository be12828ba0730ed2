/** Reading dates and timestamps from text (src/datetime.rs): fields, their meaning, and the
    rules that assign year, month and day. Zone tables and the wall clock are parameters. */
module DateText {
  import opened Integers
  import opened Wrappers
  import opened Text
  import opened Decimal
  import opened Calendar
  import opened Timestamps

  datatype DateOrder = Mdy | Dmy | Ymd

  /** What the zone tables know of a name - `tz_valid`, `abbrev_def`, `zone_def` and the offset
      `tz_lookup_local` gives at a local time - and the session's own zone. */
  datatype Zones = Zones(valid: string -> bool, abbreviation: string -> bool, named: string -> bool,
                         offset: (string, int) -> Option<int>, session: string)

  datatype DateError =
    | InvalidDate | InvalidTime | InvalidHour | InvalidMinute | InvalidSecond | InvalidFraction
    | FieldRange | TimestampRange | UnknownZone

  /** A number with the digits it was written with. */
  datatype NumField = NumField(val: int, digits: nat)

  datatype SeqPart = Num(f: NumField) | Month(m: nat)

  /** The decoder's variables while it goes over the fields. */
  datatype Decoding = Decoding(
    tod: int, hasTime: bool, zone: Option<string>, zoneOffset: Option<int>,
    nums: seq<NumField>, month: Option<nat>, parts: seq<SeqPart>, compactDays: Option<int>,
    bc: bool, meridian: Option<bool>, julian: Option<int>, doy: Option<(int, int)>)

  const START := Decoding(0, false, None, None, [], None, [], None, false, None, None, None)

  datatype Decoded = Decoded(days: int, tod: int, zone: Option<string>, zoneOffset: Option<int>)

  // ----- numbers -----

  /** `parse::<i64>()`. */
  function ParseI64(s: string): Option<int> {
    var neg := s != "" && s[0] == '-';
    var t := if s != "" && (s[0] == '-' || s[0] == '+') then s[1..] else s;
    if t == "" || !AllDigits(t) then None
    else
      var v: int := Value(t);
      var n := if neg then -v else v;
      if I64_MIN <= n <= I64_MAX then Some(n) else None
  }

  predicate DigitsOrColons(s: string) {
    forall i | 0 <= i < |s| :: IsDigit(s[i]) || s[i] == ':'
  }

  /** `parse_zone_offset`: seconds east of UTC. */
  function ParseZoneOffset(text: string): Option<int> {
    var s := Trim(text);
    var neg := s != "" && s[0] == '-';
    var rest := if s != "" && (s[0] == '-' || s[0] == '+') then s[1..] else s;
    if rest == "" || !DigitsOrColons(rest) then None
    else OffsetOf(neg, SplitOn(rest, ':'))
  }

  function OffsetOf(neg: bool, parts: seq<string>): Option<int> {
    if |parts| == 1 then
      var p := parts[0];
      if |p| <= 2 then Offset(neg, ParseI64(p), Some(0), Some(0))
      else if |p| == 4 then Offset(neg, ParseI64(p[..2]), ParseI64(p[2..]), Some(0))
      else None
    else if |parts| == 2 then Offset(neg, ParseI64(parts[0]), ParseI64(parts[1]), Some(0))
    else if |parts| == 3 then Offset(neg, ParseI64(parts[0]), ParseI64(parts[1]), ParseI64(parts[2]))
    else None
  }

  function Offset(neg: bool, hh: Option<int>, mm: Option<int>, ss: Option<int>): Option<int> {
    if hh.None? || mm.None? || ss.None? || hh.value > 15 then None
    else
      var o := hh.value * 3600 + mm.value * 60 + ss.value;
      Some(if neg then -o else o)
  }

  // ----- times -----

  /** Six places of the fraction, the seventh rounding. */
  function FractionMicros(frac: string): int
    requires AllDigits(frac)
  {
    if |frac| <= 6 then Value(frac + Zeros(6 - |frac|))
    else Value(frac[..6]) + (if frac[6] >= '5' then 1 else 0)
  }

  predicate IsSign(c: char) {
    c == '+' || c == '-'
  }

  /** The last sign of s, or the length. */
  function LastSign(s: string, n: nat): (k: nat)
    requires n <= |s|
    ensures k <= |s| && (k < |s| ==> IsSign(s[k]))
  {
    if n == 0 then |s| else if IsSign(s[n - 1]) then n - 1 else LastSign(s, n - 1)
  }

  /** Where an offset glued to a time begins, and what it is. */
  function GluedOffset(f: string): Option<(nat, int)> {
    var ci := IndexOf(f, ':');
    if ci == |f| then None
    else
      var tail := f[ci..];
      var pos := LastSign(tail, |tail|);
      if pos == |tail| then None
      else
        var body := tail[pos + 1..];
        if body == "" || !DigitsOrColons(body) || |body| > 6 then None
        else
          var off := ParseZoneOffset(tail[pos..]);
          if off.None? then None else Some((ci + pos, off.value))
  }

  /** `parse_time_field`: micros since midnight and a glued offset. */
  function ParseTimeField(f: string): Result<(int, Option<int>), DateError> {
    var glued := GluedOffset(f);
    var core := if glued.Some? && glued.value.0 <= |f| then f[..glued.value.0] else f;
    var offset := if glued.Some? then Some(glued.value.1) else None;
    var parts := SplitOn(core, ':');
    if |parts| < 2 || |parts| > 3 then Err(InvalidTime)
    else
      var hh, mm := ParseI64(parts[0]), ParseI64(parts[1]);
      if hh.None? then Err(InvalidHour)
      else if mm.None? then Err(InvalidMinute)
      else
        var seconds := if |parts| == 3 then parts[2] else "0";
        var dot := IndexOf(seconds, '.');
        var ssText, frac := seconds[..dot], if dot < |seconds| then seconds[dot + 1..] else "";
        var ss := if ssText == "" then Some(0) else ParseI64(ssText);
        if ss.None? then Err(InvalidSecond) else TimeOfDay(hh.value, mm.value, ss.value, frac, offset)
  }

  function TimeOfDay(hh: int, mm: int, ss: int, frac: string, offset: Option<int>): Result<(int, Option<int>), DateError> {
    if !(0 <= hh <= 24 && 0 <= mm <= 59 && 0 <= ss <= 60) || (hh == 24 && (mm != 0 || ss != 0)) then Err(FieldRange)
    else if !AllDigits(frac) then Err(InvalidFraction)
    else
      var total := (hh * 3600 + mm * 60 + ss) * 1_000_000 + FractionMicros(frac);
      if total > PER_DAY then Err(FieldRange) else Ok((total, offset))
  }

  function DigitsFrom(s: string): (k: nat)
    ensures k <= |s| && AllDigits(s[..k]) && (k < |s| ==> !IsDigit(s[k]))
  {
    if s == "" || !IsDigit(s[0]) then 0 else 1 + DigitsFrom(s[1..])
  }

  /** `parse_compact_time`: HHMMSS with a fraction and an offset. */
  function ParseCompactTime(f: string): Option<(int, Option<int>)> {
    if DigitsFrom(f) != 6 then None
    else
      var v := Value(f[..6]);
      var hh, mm, ss := v / 10000, v / 100 % 100, v % 100;
      if hh > 24 || mm > 59 || ss > 59 || (hh == 24 && (mm != 0 || ss != 0)) then None
      else
        var rest := f[6..];
        var k := if rest != "" && rest[0] == '.' then DigitsFrom(rest[1..]) else 0;
        if rest != "" && rest[0] == '.' && k == 0 then None
        else
          var us := if k > 0 then FractionMicros(rest[1..][..k]) else 0;
          var left := if k > 0 then rest[1 + k..] else rest;
          var tod := ((hh * 60 + mm) * 60 + ss) * 1_000_000 + us;
          if left == "" then Some((tod, None))
          else if !IsSign(left[0]) then None
          else
            var off := ParseZoneOffset(left);
            if off.None? then None else Some((tod, off))
  }

  // ----- names -----

  function MonthFromName(w: string): Option<nat> {
    if w == "january" || w == "jan" then Some(1)
    else if w == "february" || w == "feb" then Some(2)
    else if w == "march" || w == "mar" then Some(3)
    else if w == "april" || w == "apr" then Some(4)
    else if w == "may" then Some(5)
    else if w == "june" || w == "jun" then Some(6)
    else if w == "july" || w == "jul" then Some(7)
    else if w == "august" || w == "aug" then Some(8)
    else if w == "september" || w == "sep" || w == "sept" then Some(9)
    else if w == "october" || w == "oct" then Some(10)
    else if w == "november" || w == "nov" then Some(11)
    else if w == "december" || w == "dec" then Some(12)
    else None
  }

  predicate IsWeekdayName(w: string) {
    || w == "sunday" || w == "sun" || w == "monday" || w == "mon" || w == "tuesday" || w == "tue" || w == "tues"
    || w == "wednesday" || w == "wed" || w == "thursday" || w == "thu" || w == "thur" || w == "thurs"
    || w == "friday" || w == "fri" || w == "saturday" || w == "sat"
  }

  /** Era and meridian words; the state they leave. */
  function MarkerWord(s: Decoding, w: string): Option<Decoding> {
    if w == "bc" || w == "b.c." then Some(s.(bc := true))
    else if w == "ad" || w == "a.d." then Some(s.(bc := false))
    else if w == "am" || w == "a.m." then Some(s.(meridian := Some(false)))
    else if w == "pm" || w == "p.m." then Some(s.(meridian := Some(true)))
    else None
  }

  // ----- years and days -----

  /** `apply_year_rules`: the era, two-digit years, no year zero. */
  function YearOf(val: int, digits: nat, bc: bool): Result<int, DateError> {
    var y := if bc then 1 - val
             else if digits <= 2 && val >= 0 then (if val < 70 then val + 2000 else val + 1900) else val;
    if (bc && val <= 0) || (!bc && val <= 0 && digits < 4) || !(I32_MIN <= y <= I32_MAX) then Err(FieldRange) else Ok(y)
  }

  predicate ValidDay(day: int) {
    DATE_MIN <= day <= DATE_MAX
  }

  function DaysChecked(y: int, m: int, d: int): Result<int, DateError> {
    if !(1 <= m <= 12) || d < 1 || d > DaysInMonth(y, m) then Err(FieldRange) else Ok(DaysFromCivil(y, m, d))
  }

  /** `ymd_to_days`. */
  function YmdToDays(y: int, m: int, d: int, digits: nat, bc: bool): Result<int, DateError> {
    var year := YearOf(y, digits, bc);
    if year.Err? then Err(year.error)
    else
      var days := DaysChecked(year.value, m, d);
      if days.Err? then days else if !ValidDay(days.value) then Err(FieldRange) else days
  }

  /** The slots of the field assignment. */
  datatype Slots = Slots(y: Option<NumField>, m: Option<int>, d: Option<int>, haveText: bool)

  const NO_SLOTS := Slots(None, None, None, false)

  /** One ordered part of the date: what it means depends on the slots already filled. */
  function AssignPart(order: DateOrder, s: Slots, p: SeqPart): Option<Slots> {
    match p
    case Month(m) =>
      if s.m.None? then Some(s.(m := Some(m), haveText := true))
      else if !s.haveText && s.d.None? && 1 <= s.m.value <= 31
      then Some(s.(d := s.m, m := Some(m), haveText := true))
      else None
    case Num(nf) => AssignNum(order, s, nf)
  }

  function AssignNum(order: DateOrder, s: Slots, nf: NumField): Option<Slots> {
    if s.y.None? && s.m.None? && s.d.None? then
      if nf.digits >= 3 || order == Ymd then Some(s.(y := Some(nf)))
      else if order == Dmy then Some(s.(d := Some(nf.val)))
      else Some(s.(m := Some(nf.val)))
    else if s.y.Some? && s.m.None? && s.d.None? then Some(s.(m := Some(nf.val)))
    else if s.y.None? && s.m.Some? && s.d.None? then
      if s.haveText && (nf.digits >= 3 || order == Ymd) then Some(s.(y := Some(nf))) else Some(s.(d := Some(nf.val)))
    else if s.y.Some? && s.m.Some? && s.d.None? then
      if s.haveText && nf.digits >= 3 && s.y.value.digits <= 2
      then Some(s.(d := Some(s.y.value.val), y := Some(nf)))
      else Some(s.(d := Some(nf.val)))
    else if s.y.None? && s.m.None? && s.d.Some? then Some(s.(m := Some(nf.val)))
    else if s.y.None? && s.m.Some? && s.d.Some? then Some(s.(y := Some(nf)))
    else None
  }

  function AssignAll(order: DateOrder, s: Slots, parts: seq<SeqPart>): Option<Slots>
    decreases |parts|
  {
    if parts == [] then Some(s)
    else
      var s1 := AssignPart(order, s, parts[0]);
      if s1.None? then None else AssignAll(order, s1.value, parts[1..])
  }

  /** The end of `assign_ymd_seq`: a missing day is 1 after a bare year and month. */
  function CompleteYmd(s: Slots, count: nat, bc: bool): Result<Date, DateError> {
    if s.y.None? || s.m.None? || (s.d.None? && (count != 2 || s.haveText)) then Err(InvalidDate)
    else
      var mv, dv := s.m.value, if s.d.Some? then s.d.value else 1;
      if !(1 <= mv <= 12) || !(1 <= dv <= 31) then Err(FieldRange)
      else
        var year := YearOf(s.y.value.val, s.y.value.digits, bc);
        if year.Err? then Err(year.error) else Ok(Date(year.value, mv, dv))
  }

  function YmdOf(order: DateOrder, parts: seq<SeqPart>, bc: bool): Result<Date, DateError> {
    var s := AssignAll(order, NO_SLOTS, parts);
    if s.None? then Err(InvalidDate) else CompleteYmd(s.value, |parts|, bc)
  }

  method AssignYmdSeq(order: DateOrder, parts: seq<SeqPart>, bc: bool) returns (r: Result<Date, DateError>)
    ensures r == YmdOf(order, parts, bc)
  {
    hide AssignPart, CompleteYmd;
    var s := NO_SLOTS;
    assert parts[0..] == parts;
    for i := 0 to |parts|
      invariant AssignAll(order, s, parts[i..]) == AssignAll(order, NO_SLOTS, parts)
    {
      assert parts[i..][1..] == parts[i + 1..];
      var s1 := AssignPart(order, s, parts[i]);
      if s1.None? { return Err(InvalidDate); }
      s := s1.value;
    }
    r := CompleteYmd(s, |parts|, bc);
  }

  // ----- fields -----

  predicate IsMark(c: char) {
    c == '-' || c == '/' || c == '.'
  }

  /** A zone with a digit or sign in it: GMT+8, EST5EDT. */
  predicate IsZoneSpec(z: Zones, f: string) {
    && f != "" && IsLetter(f[0]) && (exists i :: 0 <= i < |f| && (IsDigit(f[i]) || IsSign(f[i])))
    && MonthFromName(Lower(f)).None? && z.valid(f)
  }

  predicate NoDateYet(s: Decoding) {
    s.nums == [] && s.month.None?
  }

  function CompactTimeHere(s: Decoding, f: string): Option<(int, Option<int>)> {
    if s.hasTime || (s.compactDays.None? && NoDateYet(s)) then None else ParseCompactTime(f)
  }

  predicate IsTimeField(f: string) {
    ':' in f && !IsSign(f[0])
  }

  /** The length of f without the letters at its end. */
  function LetterTail(f: string): (k: nat)
    ensures k <= |f|
  {
    if f != "" && IsLetter(f[|f| - 1]) then LetterTail(f[..|f| - 1]) else |f|
  }

  function SetTime(s: Decoding, tod: int, offset: Option<int>): Decoding {
    s.(tod := tod, hasTime := true, zoneOffset := if offset.Some? then offset else s.zoneOffset)
  }

  function TimeField(z: Zones, s: Decoding, f: string): Result<Decoding, DateError> {
    var k := if LetterTail(f) > 0 then LetterTail(f) else |f|;
    var time := ParseTimeField(f[..k]);
    if time.Err? then Err(time.error)
    else
      var s1 := SetTime(s, time.value.0, time.value.1);
      var suffix := f[k..];
      if suffix == "" then Ok(s1)
      else if Lower(suffix) == "am" || Lower(suffix) == "a.m." then Ok(s1.(meridian := Some(false)))
      else if Lower(suffix) == "pm" || Lower(suffix) == "p.m." then Ok(s1.(meridian := Some(true)))
      else if z.valid(suffix) || z.abbreviation(suffix) then Ok(s1.(zone := Some(suffix)))
      else Err(InvalidTime)
  }

  /** A field of the date, taken apart at '-', '/' and '.'. */
  function Piece(s: Decoding, p: string, i: nat, n: nat, negYear: bool): Result<Decoding, DateError> {
    var w := Lower(p);
    if AllDigits(p) then
      var v := ParseI64(p);
      if v.None? then Err(InvalidDate)
      else
        var nf := NumField(if i == 0 && negYear then -v.value else v.value, |p|);
        Ok(s.(nums := s.nums + [nf], parts := s.parts + [Num(nf)]))
    else if MonthFromName(w).Some? then
      if i == n - 1 && i == 2 then Err(InvalidDate)
      else Ok(s.(parts := s.parts + [Month(MonthFromName(w).value)], month := MonthFromName(w)))
    else if IsWeekdayName(w) then Ok(s)
    else
      var s1 := MarkerWord(s, w);
      if s1.None? then Err(InvalidDate) else Ok(s1.value)
  }

  function Pieces(s: Decoding, ps: seq<string>, i: nat, negYear: bool): Result<Decoding, DateError>
    requires i <= |ps|
    decreases |ps| - i
  {
    if i == |ps| then Ok(s)
    else
      var s1 := Piece(s, ps[i], i, |ps|, negYear);
      if s1.Err? then s1 else Pieces(s1.value, ps, i + 1, negYear)
  }

  function DatePieces(s: Decoding, f: string): Result<Decoding, DateError> {
    var ps := Runs(f, IsMark);
    if ps == [] then Err(InvalidDate)
    else Pieces(s, ps, 0, f != "" && f[0] == '-' && |ps[0]| >= 4 && AllDigits(ps[0]))
  }

  predicate ZoneChars(f: string, slash: bool) {
    forall i | 0 <= i < |f| :: IsLetter(f[i]) || f[i] == '_' || IsSign(f[i]) || (slash && f[i] == '/')
  }

  /** Year and day of year, dotted. */
  function DottedDay(s: Decoding, f: string): Option<(int, int)> {
    var k := IndexOf(f, '.');
    if k == |f| || !NoDateYet(s) then None
    else
      var a, b := f[..k], f[k + 1..];
      if a == "" || b == "" || !AllDigits(a) || !AllDigits(b) then None
      else
        var y, d := ParseI64(a), ParseI64(b);
        if y.Some? && d.Some? && 1 <= d.value <= 366 && |a| >= 4 then Some((y.value, d.value)) else None
  }

  /** A word: an era, a month, a weekday or a zone. */
  function WordField(z: Zones, s: Decoding, f: string): Option<Decoding> {
    var w := Lower(f);
    var marked := MarkerWord(s, w);
    if marked.Some? then marked
    else if MonthFromName(w).Some? then
      Some(s.(parts := s.parts + [Month(MonthFromName(w).value)], month := MonthFromName(w)))
    else if IsWeekdayName(w) then Some(s)
    else if '/' in f && ZoneChars(f, true) then Some(s.(zone := Some(f)))
    else if f != "" && IsSign(f[0]) && |f| > 1 && DigitsOrColons(f[1..]) && s.hasTime && ParseZoneOffset(f).Some? then
      Some(s.(zoneOffset := ParseZoneOffset(f)))
    else if f != "" && ZoneChars(f, false) && (z.valid(f) || z.abbreviation(f)) then Some(s.(zone := Some(f)))
    else None
  }

  predicate IsJulian(f: string) {
    f != "" && LowerChar(f[0]) == 'j' && AllDigits(f[1..])
  }

  function OtherField(z: Zones, s: Decoding, f: string): Result<Decoding, DateError> {
    if IsJulian(f) then
      var j := ParseI64(f[1..]);
      if j.None? then Err(InvalidDate) else Ok(s.(julian := j))
    else
      var word := WordField(z, s, f);
      if word.Some? then Ok(word.value)
      else if DottedDay(s, f).Some? then Ok(s.(doy := DottedDay(s, f)))
      else DatePieces(s, f)
  }

  /** A standalone date of eight digits. */
  predicate IsCompactDate(s: Decoding, f: string) {
    |f| == 8 && AllDigits(f) && NoDateYet(s) && s.compactDays.None?
  }

  function CompactDate(s: Decoding, f: string): Result<Decoding, DateError>
    requires AllDigits(f)
  {
    var v := Value(f);
    var days := YmdToDays(v / 10000, v % 10000 / 100, v % 100, 4, s.bc);
    if days.Err? then Err(days.error) else Ok(s.(compactDays := Some(days.value)))
  }

  /** One field of the input. */
  function DecodeField(z: Zones, s: Decoding, f: string): Result<Decoding, DateError> {
    if IsZoneSpec(z, f) then Ok(s.(zone := Some(f)))
    else if IsCompactDate(s, f) then CompactDate(s, f)
    else
      var compact := CompactTimeHere(s, f);
      if compact.Some? then Ok(SetTime(s, compact.value.0, compact.value.1))
      else if IsTimeField(f) then TimeField(z, s, f)
      else OtherField(z, s, f)
  }

  function DecodeFields(z: Zones, s: Decoding, fields: seq<string>): Result<Decoding, DateError>
    decreases |fields|
  {
    if fields == [] then Ok(s)
    else
      var s1 := DecodeField(z, s, fields[0]);
      if s1.Err? then s1 else DecodeFields(z, s1.value, fields[1..])
  }

  /** Commas, and a T between two digits, separate fields. */
  function Cleaned(s: string): (r: string)
    ensures |r| == |s|
  {
    seq(|s|, i requires 0 <= i < |s| =>
      if s[i] == ',' || (s[i] == 'T' && i > 0 && IsDigit(s[i - 1]) && i + 1 < |s| && IsDigit(s[i + 1])) then ' ' else s[i])
  }

  // ----- the decoded value -----

  /** `finish_decoded`: AM and PM. */
  function Meridian(s: Decoding, days: int): Result<Decoded, DateError> {
    if s.meridian.None? then Ok(Decoded(days, s.tod, s.zone, s.zoneOffset))
    else if !s.hasTime then Err(InvalidDate)
    else
      var hh := s.tod / PER_HOUR;
      if hh < 1 || hh > 12 then Err(FieldRange)
      else
        var nh := hh % 12 + (if s.meridian.value then 12 else 0);
        Ok(Decoded(days, s.tod + (nh - hh) * PER_HOUR, s.zone, s.zoneOffset))
  }

  /** A single number of 8 or 6 digits standing for a date. */
  function CompactNumber(s: Decoding): Option<Result<int, DateError>> {
    if |s.nums| != 1 || s.month.Some? || s.hasTime then None
    else
      var v, digits := s.nums[0].val, s.nums[0].digits;
      if digits == 8 then Some(YmdToDays(TruncDiv(v, 10000), TruncDiv(TruncMod(v, 10000), 100), TruncMod(v, 100), 4, s.bc))
      else if digits == 6 then Some(YmdToDays(TruncDiv(v, 10000), TruncDiv(TruncMod(v, 10000), 100), TruncMod(v, 100), 2, s.bc))
      else None
  }

  function DaysOf(order: DateOrder, s: Decoding): Result<int, DateError> {
    if s.julian.Some? then Ok(s.julian.value - JULIAN_UNIX_EPOCH)
    else if s.doy.Some? then
      var year := YearOf(s.doy.value.0, 4, s.bc);
      if year.Err? then Err(year.error)
      else
        var first := DaysChecked(year.value, 1, 1);
        if first.Err? then first else Ok(first.value + s.doy.value.1 - 1)
    else if CompactNumber(s).Some? then CompactNumber(s).value
    else if s.compactDays.Some? then (if s.nums != [] then Err(InvalidDate) else Ok(s.compactDays.value))
    else CivilDays(order, s)
  }

  function CivilDays(order: DateOrder, s: Decoding): Result<int, DateError> {
    var ymd := YmdOf(order, s.parts, s.bc);
    if ymd.Err? then Err(ymd.error)
    else
      var days := DaysChecked(ymd.value.y, ymd.value.m, ymd.value.d);
      if days.Ok? && !ValidDay(days.value) then Err(FieldRange) else days
  }

  function Decode(z: Zones, order: DateOrder, s: string): Result<Decoded, DateError> {
    var st := DecodeFields(z, START, Runs(Cleaned(Trim(s)), IsSpace));
    if st.Err? then Err(st.error)
    else
      var days := DaysOf(order, st.value);
      if days.Err? then Err(days.error) else Meridian(st.value, days.value)
  }

  method DecodeDatetime(z: Zones, order: DateOrder, s: string) returns (r: Result<Decoded, DateError>)
    ensures r == Decode(z, order, s)
  {
    hide DecodeField, DaysOf, Meridian, Runs, Cleaned, Trim;
    var fields := Runs(Cleaned(Trim(s)), IsSpace);
    var st := START;
    assert fields[0..] == fields;
    for i := 0 to |fields|
      invariant DecodeFields(z, st, fields[i..]) == DecodeFields(z, START, fields)
    {
      assert fields[i..][1..] == fields[i + 1..];
      var st1 := DecodeField(z, st, fields[i]);
      if st1.Err? { return Err(st1.error); }
      st := st1.value;
    }
    var days := DaysOf(order, st);
    if days.Err? { return Err(days.error); }
    r := Meridian(st, days.value);
  }

  // ----- dates and timestamps -----

  datatype Special = Infinity | NegInfinity | Epoch | Now | Today | Tomorrow | Yesterday

  function SpecialOf(text: string): Option<Special> {
    var s := Lower(Trim(text));
    if s == "infinity" || s == "+infinity" then Some(Infinity)
    else if s == "-infinity" then Some(NegInfinity)
    else if s == "epoch" then Some(Epoch)
    else if s == "now" then Some(Now)
    else if s == "today" then Some(Today)
    else if s == "tomorrow" then Some(Tomorrow)
    else if s == "yesterday" then Some(Yesterday)
    else None
  }

  function SpecialDays(sp: Special, now: int): int {
    match sp
    case Epoch => 0
    case Now => TruncDiv(now, PER_DAY)
    case Today => TruncDiv(now, PER_DAY)
    case Tomorrow => TruncDiv(now, PER_DAY) + 1
    case Yesterday => TruncDiv(now, PER_DAY) - 1
    case Infinity => 0
    case NegInfinity => 0
  }

  const DATE_INFINITY := I32_MAX
  const DATE_NEG_INFINITY := I32_MIN

  /** `parse_date`. */
  function ParseDate(z: Zones, order: DateOrder, now: int, s: string): Result<int, DateError> {
    var t := Trim(s);
    var sp := SpecialOf(t);
    if sp == Some(Infinity) then Ok(DATE_INFINITY)
    else if sp == Some(NegInfinity) then Ok(DATE_NEG_INFINITY)
    else if sp.Some? then
      var day := SpecialDays(sp.value, now);
      if I32_MIN <= day <= I32_MAX then Ok(day) else Err(FieldRange)
    else
      var dec := Decode(z, order, t);
      if dec.Err? then Err(dec.error)
      else if !ValidDay(dec.value.days) then Err(FieldRange)
      else Ok(dec.value.days)
  }

  /** A special value followed by a zone, `today EST`. */
  function SplitSpecial(s: string): Option<(Special, string)> {
    var t := Trim(s);
    var k := RunLength(t, IsSpace);
    var sp := SpecialOf(t[..k]);
    if sp.None? then None else Some((sp.value, if k < |t| then Trim(t[k + 1..]) else ""))
  }

  predicate SpecialZoneOk(z: Zones, zone: string) {
    z.named(zone) || z.abbreviation(zone) || (zone != "" && IsSign(zone[0]) && ParseZoneOffset(zone).Some?)
  }

  function SpecialMicros(sp: Special, now: int): Result<int, DateError> {
    match sp
    case Infinity => Ok(TS_INFINITY)
    case NegInfinity => Ok(TS_NEG_INFINITY)
    case Epoch => Ok(0)
    case Now => Ok(now)
    case _ =>
      var t := SpecialDays(sp, now) * PER_DAY;
      if ValidTs(t) then Ok(t) else Err(FieldRange)
  }

  /** Days and a time of day; 24:00:00 is the next midnight. */
  function JoinMicros(days: int, tod: int): int {
    if tod >= PER_DAY then (days + 1) * PER_DAY + (tod - PER_DAY) else days * PER_DAY + tod
  }

  /** `parse_timestamp`: a zone is checked and ignored. */
  function ParseTimestamp(z: Zones, order: DateOrder, now: int, s: string): Result<int, DateError> {
    var t := Trim(s);
    var sp := SpecialOf(t);
    if sp == Some(Now) then (if ValidTs(now) then Ok(now) else Err(FieldRange))
    else if sp.Some? then SpecialMicros(sp.value, now)
    else
      var zoned := SplitSpecial(t);
      if zoned.Some? then
        if zoned.value.1 != "" && !SpecialZoneOk(z, zoned.value.1) then Err(InvalidDate)
        else SpecialMicros(zoned.value.0, now)
      else
        var dec := Decode(z, order, t);
        if dec.Err? then Err(dec.error) else TimestampOf(z, dec.value)
  }

  function TimestampOf(z: Zones, dec: Decoded): Result<int, DateError> {
    if dec.zone.Some? && !z.valid(dec.zone.value) && !z.abbreviation(dec.zone.value) then Err(UnknownZone)
    else
      var t := JoinMicros(dec.days, dec.tod);
      if !(I64_MIN <= t <= I64_MAX) then Err(FieldRange)
      else if !ValidTs(t) then Err(TimestampRange)
      else Ok(t)
  }

  function SessionOffset(z: Zones, local: int): int {
    var off := z.offset(z.session, local);
    if off.Some? then off.value else 0
  }

  function ValidOr(t: int, e: DateError): Result<int, DateError> {
    if ValidTs(t) then Ok(t) else Err(e)
  }

  /** A special value in a named zone, or in the session's. */
  function SpecialInZone(z: Zones, sp: Special, zone: string, now: int): Result<int, DateError> {
    if sp.Infinity? || sp.NegInfinity? || sp.Epoch? || sp.Now? then SpecialMicros(sp, now)
    else
      var local := SpecialDays(sp, now) * PER_DAY;
      if !(I64_MIN <= local <= I64_MAX) then Err(FieldRange)
      else if zone != "" then
        (if z.offset(zone, local).None? then Err(UnknownZone)
         else ValidOr(local - z.offset(zone, local).value * 1_000_000, FieldRange))
      else ValidOr(local - SessionOffset(z, local) * 1_000_000, FieldRange)
  }

  /** `parse_timestamptz`: the zone, or the session's, takes the local time to UTC. */
  function ParseTimestamptz(z: Zones, order: DateOrder, now: int, s: string): Result<int, DateError> {
    var t := Trim(s);
    var sp := SpecialOf(t);
    if sp == Some(Now) then ValidOr(now, FieldRange)
    else if sp.Some? then SpecialInZone(z, sp.value, "", now)
    else
      var zoned := SplitSpecial(t);
      if zoned.Some? then
        if zoned.value.1 != "" && !SpecialZoneOk(z, zoned.value.1) then Err(InvalidDate)
        else SpecialInZone(z, zoned.value.0, zoned.value.1, now)
      else
        var dec := Decode(z, order, t);
        if dec.Err? then Err(dec.error) else InstantOf(z, dec.value)
  }

  function InstantOf(z: Zones, dec: Decoded): Result<int, DateError> {
    var local := JoinMicros(dec.days, dec.tod);
    if !(I64_MIN <= local <= I64_MAX) then Err(FieldRange)
    else if dec.zoneOffset.Some? then ValidOr(local - dec.zoneOffset.value * 1_000_000, TimestampRange)
    else if dec.zone.Some? then
      var off := z.offset(dec.zone.value, local);
      if off.None? then Err(UnknownZone) else ValidOr(local - off.value * 1_000_000, TimestampRange)
    else ValidOr(local - SessionOffset(z, local) * 1_000_000, TimestampRange)
  }
}

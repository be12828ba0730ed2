/** CSV rows that are formatted and parsed again. */
module CopyCsvRoundTrip {
  import opened ByteStrings
  import opened Wrappers
  import opened CopyTypes
  import opened CopyCsv

  // ----- the formatter -----

  predicate Special(o: Options, b: byte) {
    b == o.delimiter || b == o.quote || b == LF || b == CR
  }

  /** No byte of the text needs quoting. */
  predicate Plain(o: Options, s: bytes) {
    forall i :: 0 <= i < |s| ==> !Special(o, s[i])
  }

  predicate NeedsQuote(o: Options, s: bytes) {
    !Plain(o, s) || s == o.nullText
  }

  function Doubled(o: Options, s: bytes): bytes {
    if s == [] then [] else (if s[0] == o.quote then [o.escape, s[0]] else [s[0]]) + Doubled(o, s[1..])
  }

  function CsvField(o: Options, f: Field): bytes {
    match f
    case Null => o.nullText
    case Text(s) => if NeedsQuote(o, s) then [o.quote] + Doubled(o, s) + [o.quote] else s
  }

  function CsvFields(o: Options, row: seq<Field>): bytes {
    if row == [] then []
    else CsvField(o, row[0]) + (if |row| == 1 then [] else [o.delimiter] + CsvFields(o, row[1..]))
  }

  function CsvRows(o: Options, rows: seq<seq<Field>>): bytes {
    if rows == [] then [] else CsvFields(o, rows[0]) + [LF] + CsvRows(o, rows[1..])
  }

  /** Fields before position i, with the delimiter that follows each of them but the last. */
  function FieldsFrom(o: Options, row: seq<Field>, i: nat): bytes
    requires i <= |row|
  {
    (if 0 < i < |row| then [o.delimiter] else []) + CsvFields(o, row[i..])
  }

  method FormatCsvRow(fields: seq<bytes>, isNull: seq<bool>, out0: bytes, o: Options) returns (out: bytes)
    ensures out == out0 + CsvFields(o, Zip(fields, isNull)) + [LF]
  {
    hide CsvFields, CsvField;
    ghost var row := Zip(fields, isNull);
    out := out0;
    assert row[0..] == row;
    var i := 0;
    while i < |fields| && i < |isNull|
      invariant 0 <= i <= |row|
      invariant out + FieldsFrom(o, row, i) == out0 + CsvFields(o, row)
    {
      FieldsUnfold(o, row, i);
      if i > 0 {
        out := out + [o.delimiter];
      }
      out := AppendField(fields[i], isNull[i], out, o);
      i := i + 1;
    }
    FieldsNone(o, row);
    out := out + [LF];
  }

  lemma FieldsNone(o: Options, row: seq<Field>)
    ensures FieldsFrom(o, row, |row|) == []
  {
  }

  lemma FieldsUnfold(o: Options, row: seq<Field>, i: nat)
    requires i < |row|
    ensures FieldsFrom(o, row, i)
         == (if i > 0 then [o.delimiter] else []) + CsvField(o, row[i]) + FieldsFrom(o, row, i + 1)
  {
    assert row[i..][0] == row[i] && row[i..][1..] == row[i + 1..];
  }

  method AppendField(f: bytes, null_: bool, out0: bytes, o: Options) returns (out: bytes)
    ensures out == out0 + CsvField(o, if null_ then Null else Text(f))
  {
    if null_ {
      out := out0 + o.nullText;
    } else if (exists k :: 0 <= k < |f| && Special(o, f[k])) || f == o.nullText {
      out := out0 + [o.quote];
      out := AppendDoubled(f, out, o);
      out := out + [o.quote];
    } else {
      out := out0 + f;
    }
  }

  method AppendDoubled(s: bytes, out0: bytes, o: Options) returns (out: bytes)
    ensures out == out0 + Doubled(o, s)
  {
    out := out0;
    for k := 0 to |s|
      invariant out + Doubled(o, s[k..]) == out0 + Doubled(o, s)
    {
      assert s[k..][1..] == s[k + 1..];
      if s[k] == o.quote {
        out := out + [o.escape];
      }
      out := out + [s[k]];
    }
  }

  // ----- options that can be read back -----

  /** The special bytes differ, and the NULL text holds none of them. */
  predicate Readable(o: Options) {
    && o.delimiter != o.quote
    && o.delimiter != LF && o.delimiter != CR && o.quote != LF && o.quote != CR
    && Plain(o, o.nullText)
  }

  function Payload(o: Options, f: Field): bytes {
    match f
    case Null => o.nullText
    case Text(s) => s
  }

  predicate Quoted(o: Options, f: Field) {
    f.Text? && NeedsQuote(o, f.s)
  }

  /** The text is quoted and ends in an escape byte that is not the quote: with the closing quote
      it looks like an escaped quote. */
  predicate Fragile(o: Options, f: Field) {
    o.escape != o.quote && Quoted(o, f) && f.s != [] && f.s[|f.s| - 1] == o.escape
  }

  /** The field can come back as itself: NULL only where the NULL text is empty. */
  predicate Returns(o: Options, f: Field) {
    (f.Null? ==> o.nullText == []) && !Fragile(o, f)
  }

  ghost predicate RowReturns(o: Options, row: seq<Field>) {
    forall f | f in row :: Returns(o, f)
  }

  /** The scanner after the bytes of a field, before the byte that ends it. */
  function AfterField(o: Options, s: Scan, f: Field): Scan {
    s.(field := s.field + Payload(o, f), quoted := Quoted(o, f), atStart := CsvField(o, f) == [])
  }

  predicate AtFieldStart(s: Scan) {
    !s.inQuotes && !s.quoted && s.atStart
  }

  /** What follows does not make a closing quote look escaped. */
  predicate EndsField(o: Options, rest: bytes) {
    rest == [] || rest[0] != o.quote
  }

  lemma {:induction false} ScanPlainText(o: Options, n: nat, s: Scan, t: bytes, rest: bytes)
    requires Readable(o) && Plain(o, t) && !s.inQuotes
    ensures ScanCsv(o, n, s, t + rest)
         == ScanCsv(o, n, s.(field := s.field + t, atStart := s.atStart && t == []), rest)
    decreases |t|
  {
    hide Finish, EndLine, NextField;
    if t == [] {
      assert t + rest == rest && s.field + t == s.field;
    } else {
      assert (t + rest)[0] == t[0] && (t + rest)[1..] == t[1..] + rest;
      ScanPlainText(o, n, Push(s, t[0]), t[1..], rest);
      assert s.field + [t[0]] + t[1..] == s.field + t;
    }
  }

  lemma {:induction false} ScanDoubled(o: Options, n: nat, s: Scan, t: bytes, rest: bytes)
    requires Readable(o) && s.inQuotes && EndsField(o, rest) && !s.atStart
    requires o.escape != o.quote && t != [] ==> t[|t| - 1] != o.escape
    ensures ScanCsv(o, n, s, Doubled(o, t) + ([o.quote] + rest))
         == ScanCsv(o, n, s.(field := s.field + t, inQuotes := false), rest)
    decreases |t|
  {
    hide ScanCsv;
    var tail := [o.quote] + rest;
    if t == [] {
      assert Doubled(o, t) + tail == tail && tail[1..] == rest && s.field + t == s.field;
      ScanInside(o, n, s, tail);
    } else {
      DoubledHead(o, n, s, t, tail);
      ScanDoubled(o, n, Push(s, t[0]), t[1..], rest);
      assert s.field + [t[0]] + t[1..] == s.field + t;
    }
  }

  /** One byte of a quoted text, when more of it follows or it is not the escape byte. */
  lemma DoubledHead(o: Options, n: nat, s: Scan, t: bytes, tail: bytes)
    requires s.inQuotes && t != [] && (t[0] == o.escape != o.quote ==> |t| > 1)
    ensures ScanCsv(o, n, s, Doubled(o, t) + tail) == ScanCsv(o, n, Push(s, t[0]), Doubled(o, t[1..]) + tail)
  {
    hide ScanCsv;
    var more := Doubled(o, t[1..]) + tail;
    if t[0] == o.quote {
      EscapedQuote(o, n, s, more);
      assert Doubled(o, t) + tail == [o.escape, o.quote] + more;
    } else {
      assert Doubled(o, t) + tail == [t[0]] + more && ([t[0]] + more)[1..] == more;
      ScanInside(o, n, s, [t[0]] + more);
    }
  }

  lemma EscapedQuote(o: Options, n: nat, s: Scan, more: bytes)
    requires s.inQuotes
    ensures ScanCsv(o, n, s, [o.escape, o.quote] + more) == ScanCsv(o, n, Push(s, o.quote), more)
  {
    var data := [o.escape, o.quote] + more;
    assert data[1..] == [o.quote] + more && data[1..][1..] == more;
    ScanInside(o, n, s, data);
  }

  /** The bytes of a field leave its text in the buffer, whatever was there before. */
  lemma ScanField(o: Options, n: nat, s: Scan, f: Field, rest: bytes)
    requires Readable(o) && AtFieldStart(s) && EndsField(o, rest) && !Fragile(o, f)
    ensures ScanCsv(o, n, s, CsvField(o, f) + rest) == ScanCsv(o, n, AfterField(o, s, f), rest)
  {
    if Quoted(o, f) {
      var inner := Doubled(o, f.s) + ([o.quote] + rest);
      assert CsvField(o, f) + rest == [o.quote] + inner && ([o.quote] + inner)[1..] == inner;
      hide Finish, EndLine, NextField, NeedsQuote, Doubled;
      var inside := s.(inQuotes := true, quoted := true, atStart := false);
      assert ScanCsv(o, n, s, [o.quote] + inner) == ScanCsv(o, n, inside, inner);
      ScanDoubled(o, n, inside, f.s, rest);
    } else {
      hide ScanCsv;
      ScanPlainText(o, n, s, Payload(o, f), rest);
    }
  }

  /** What the end of a field makes of it: the field itself, when the buffer was empty. */
  lemma EndsAsItself(o: Options, s: Scan, f: Field)
    requires AtFieldStart(s) && s.field == [] && (f.Text? ==> o.utf8(f.s))
    ensures EndField(o, AfterField(o, s, f)) ==
      Ok(s.(row := s.row + [f], field := if f.Null? then o.nullText else [], atStart := CsvField(o, f) == []))
  {
    assert [] + Payload(o, f) == Payload(o, f);
  }

  /** With a NULL text left in the buffer, a field never comes back as itself. */
  lemma EndsAsAnother(o: Options, s: Scan, f: Field)
    requires AtFieldStart(s) && s.field == o.nullText && o.nullText != []
    ensures var r := EndField(o, AfterField(o, s, f));
      r.Ok? ==> |r.value.row| == |s.row| + 1 && s.row <= r.value.row && r.value.row[|s.row|] != f && r.value.rows == s.rows
  {
    var all := o.nullText + Payload(o, f);
    assert |all| == |o.nullText| + |Payload(o, f)|;
  }

  /** Scanning only adds: rows that are done stay, and so do fields of the current row. */
  lemma {:induction false} ScanKeeps(o: Options, n: nat, s: Scan, data: bytes)
    requires !o.header
    ensures var r := ScanCsv(o, n, s, data);
      r.Ok? ==> s.rows <= r.value && (s.row != [] ==> |r.value| > |s.rows| && s.row <= r.value[|s.rows|])
    decreases |data|
  {
    if data != [] {
      var b, rest := data[0], data[1..];
      if s.inQuotes {
        if b == o.escape && rest != [] && rest[0] == o.quote {
          ScanKeeps(o, n, Push(s, o.quote), rest[1..]);
        } else if b == o.quote {
          ScanKeeps(o, n, s.(inQuotes := false, atStart := false), rest);
        } else {
          ScanKeeps(o, n, Push(s, b), rest);
        }
      } else {
        hide ScanCsv;
        ScanPlain(o, n, s, data);
        if b == o.quote && s.atStart {
          ScanKeeps(o, n, s.(inQuotes := true, quoted := true, atStart := false), rest);
        } else if b == o.delimiter {
          if NextField(o, s).Ok? { ScanKeeps(o, n, NextField(o, s).value, rest); }
        } else if b == LF {
          if EndLine(o, n, s).Ok? { ScanKeeps(o, n, EndLine(o, n, s).value, rest); }
        } else if b == CR && rest != [] && rest[0] == LF {
          ScanKeeps(o, n, s.(atStart := false), rest);
        } else {
          ScanKeeps(o, n, Push(s, b), rest);
        }
      }
    }
  }

  // ----- the round trip -----

  /** The rest of a row, its line feed, and the rows after it. */
  function Tail(o: Options, fs: seq<Field>, more: seq<seq<Field>>): bytes {
    CsvFields(o, fs) + ([LF] + CsvRows(o, more))
  }

  /** The first field of what is left, and what follows it. */
  function Follow(o: Options, fs: seq<Field>, more: seq<seq<Field>>): bytes
    requires fs != []
  {
    if |fs| == 1 then [LF] + CsvRows(o, more) else [o.delimiter] + Tail(o, fs[1..], more)
  }

  lemma RowsShift(done: seq<seq<Field>>, row: seq<Field>, more: seq<seq<Field>>)
    requires more != []
    ensures done + [row] + more == (done + [row]) + [[] + more[0]] + more[1..]
  {
    assert [] + more[0] == more[0] && more == [more[0]] + more[1..];
  }

  lemma TailUnfold(o: Options, fs: seq<Field>, more: seq<seq<Field>>)
    requires fs != [] && Readable(o)
    ensures Tail(o, fs, more) == CsvField(o, fs[0]) + Follow(o, fs, more)
    ensures EndsField(o, Follow(o, fs, more))
  {
  }

  lemma RowsUnfold(o: Options, rows: seq<seq<Field>>)
    requires rows != []
    ensures CsvRows(o, rows) == Tail(o, rows[0], rows[1..])
  {
  }

  /** The line feed after a complete row of n fields. */
  function Completed(o: Options, s: Scan): Scan {
    var drop := o.header && s.skipped == 0;
    Scan(if drop then s.rows else s.rows + [s.row], [], s.field, false, false, true, s.line + 1,
         if drop then 1 else s.skipped)
  }

  lemma EndLineCompletes(o: Options, n: nat, s: Scan, f: Field)
    requires AtFieldStart(s) && s.field == [] && (f.Text? ==> o.utf8(f.s)) && |s.row| + 1 == n
    requires o.header && s.skipped == 0 ==> s.rows == []
    ensures EndLine(o, n, AfterField(o, s, f)) ==
      Ok(Completed(o, s.(row := s.row + [f], field := if f.Null? then o.nullText else [])))
  {
    hide AfterField;
    EndsAsItself(o, s, f);
    var row := s.row + [f];
    assert (s.rows + [row])[..|s.rows|] == s.rows;
  }

  /** One whole row. */
  lemma {:induction false} ScanRow(o: Options, n: nat, s: Scan, fs: seq<Field>, more: seq<seq<Field>>)
    requires Readable(o) && AtFieldStart(s) && s.field == [] && fs != [] && |s.row| + |fs| == n
    requires RowOk(o, fs) && RowReturns(o, fs) && (o.header && s.skipped == 0 ==> s.rows == [])
    ensures ScanCsv(o, n, s, Tail(o, fs, more)) == ScanCsv(o, n, Completed(o, s.(row := s.row + fs)), CsvRows(o, more))
    decreases |fs|
  {
    hide ScanCsv, AfterField, CsvField, CsvRows, EndLine, Completed;
    TailUnfold(o, fs, more);
    ScanField(o, n, s, fs[0], Follow(o, fs, more));
    assert fs[0] in fs;
    AfterFieldPlain(o, s, fs[0]);
    EndsAsItself(o, s, fs[0]);
    ScanPlain(o, n, AfterField(o, s, fs[0]), Follow(o, fs, more));
    if |fs| == 1 {
      assert ([LF] + CsvRows(o, more))[1..] == CsvRows(o, more);
      EndLineCompletes(o, n, s, fs[0]);
      assert fs == [fs[0]];
    } else {
      assert ([o.delimiter] + Tail(o, fs[1..], more))[1..] == Tail(o, fs[1..], more);
      assert s.row + fs == (s.row + [fs[0]]) + fs[1..];
      ScanRow(o, n, s.(row := s.row + [fs[0]]), fs[1..], more);
    }
  }

  lemma AfterFieldPlain(o: Options, s: Scan, f: Field)
    requires AtFieldStart(s)
    ensures !AfterField(o, s, f).inQuotes && AfterField(o, s, f).rows == s.rows
  {
  }

  /** All rows, from a state that stands at the start of a line. */
  lemma {:induction false} ScanRows(o: Options, n: nat, s: Scan, rows: seq<seq<Field>>)
    requires Readable(o) && AtFieldStart(s) && s.field == [] && s.row == [] && n > 0
    requires RowsOk(o, rows, n) && (forall row | row in rows :: RowReturns(o, row))
    requires o.header && s.skipped == 0 ==> s.rows == []
    ensures ScanCsv(o, n, s, CsvRows(o, rows))
         == Ok(s.rows + if o.header && s.skipped == 0 && rows != [] then rows[1..] else rows)
    decreases |rows|
  {
    hide ScanCsv, CsvRows, CsvFields, Tail, Readable, RowOk, RowReturns;
    if rows == [] {
      assert s.rows + rows == s.rows;
      NoRows(o, n, s);
    } else {
      RowsSplit(o, rows, n);
      RowsUnfold(o, rows);
      ScanRow(o, n, s, rows[0], rows[1..]);
      assert [] + rows[0] == rows[0];
      CompletedRow(o, s, rows[0]);
      ScanRows(o, n, Completed(o, s.(row := rows[0])), rows[1..]);
      assert s.rows + [rows[0]] + rows[1..] == s.rows + rows;
    }
  }

  lemma NoRows(o: Options, n: nat, s: Scan)
    requires AtFieldStart(s) && s.field == [] && s.row == []
    ensures ScanCsv(o, n, s, CsvRows(o, [])) == Ok(s.rows)
  {
  }

  lemma RowsSplit(o: Options, rows: seq<seq<Field>>, n: nat)
    requires rows != [] && RowsOk(o, rows, n) && forall row | row in rows :: RowReturns(o, row)
    ensures RowOk(o, rows[0]) && |rows[0]| == n && RowReturns(o, rows[0])
    ensures RowsOk(o, rows[1..], n) && forall row | row in rows[1..] :: RowReturns(o, row)
  {
    assert rows[0] in rows && forall row | row in rows[1..] :: row in rows;
  }

  lemma CompletedRow(o: Options, s: Scan, row: seq<Field>)
    requires s.field == []
    ensures var t := Completed(o, s.(row := row));
      && AtFieldStart(t) && t.field == [] && t.row == []
      && (o.header && s.skipped == 0 ==> t.rows == s.rows && t.skipped == 1)
      && (!(o.header && s.skipped == 0) ==> t.rows == s.rows + [row] && t.skipped == s.skipped)
  {
  }

  /** CSV round trip: formatted rows parse back to themselves, less the header row. */
  lemma CsvRoundTrip(o: Options, n: nat, rows: seq<seq<Field>>)
    requires Readable(o) && n > 0 && RowsOk(o, rows, n) && forall row | row in rows :: RowReturns(o, row)
    ensures ScanCsv(o, n, START, CsvRows(o, rows)) == Ok(if o.header && rows != [] then rows[1..] else rows)
  {
    ScanRows(o, n, START, rows);
    assert [] + rows == rows && (rows != [] ==> [] + rows[1..] == rows[1..]);
  }

  // ----- fields that do not come back -----

  /** The closing quote of a fragile text is taken for an escaped quote. */
  lemma {:induction false} DoubledFragile(o: Options, n: nat, s: Scan, t: bytes, rest: bytes)
    requires o.escape != o.quote && s.inQuotes && !s.atStart && t != [] && t[|t| - 1] == o.escape
    ensures ScanCsv(o, n, s, Doubled(o, t) + ([o.quote] + rest))
         == ScanCsv(o, n, s.(field := s.field + t[..|t| - 1] + [o.quote]), rest)
    decreases |t|
  {
    hide ScanCsv;
    var tail := [o.quote] + rest;
    if |t| == 1 {
      assert t == [o.escape] && Doubled(o, t[1..]) == [];
      assert Doubled(o, t) + tail == [o.escape, o.quote] + rest;
      EscapedQuote(o, n, s, rest);
      assert t[..0] == [] && s.field + [] == s.field;
    } else {
      DoubledHead(o, n, s, t, tail);
      DoubledFragile(o, n, Push(s, t[0]), t[1..], rest);
      assert s.field + [t[0]] + t[1..][..|t| - 2] == s.field + t[..|t| - 1];
    }
  }

  lemma ScanFragile(o: Options, n: nat, s: Scan, f: Field, rest: bytes)
    requires AtFieldStart(s) && Fragile(o, f)
    ensures ScanCsv(o, n, s, CsvField(o, f) + rest)
         == ScanCsv(o, n, s.(field := s.field + f.s[..|f.s| - 1] + [o.quote], inQuotes := true, quoted := true,
                             atStart := false), rest)
  {
    var inner := Doubled(o, f.s) + ([o.quote] + rest);
    assert CsvField(o, f) + rest == [o.quote] + inner && ([o.quote] + inner)[1..] == inner;
    hide NeedsQuote, Doubled, CsvField, ScanCsv;
    var inside := s.(inQuotes := true, quoted := true, atStart := false);
    ScanPlain(o, n, s, [o.quote] + inner);
    DoubledFragile(o, n, inside, f.s, rest);
  }

  /** The rows have something else where the current field stands. */
  predicate Differs(s: Scan, rows: seq<seq<Field>>, f: Field) {
    |s.rows| < |rows| && s.rows <= rows && |s.row| < |rows[|s.rows|]| && s.row <= rows[|s.rows|]
    && rows[|s.rows|][|s.row|] != f
  }

  lemma EndDiffers(o: Options, n: nat, s: Scan, f: Field)
    requires s.quoted && f.Text? && !(s.field <= f.s)
    ensures var r := EndField(o, s);
      r.Ok? ==> r.value.rows == s.rows && r.value.row == s.row + [Text(s.field)] && Text(s.field) != f
  {
  }

  /** A quoted field that already holds the wrong bytes never becomes the text, whatever follows. */
  lemma {:induction false} ScanDiffers(o: Options, n: nat, s: Scan, f: Field, data: bytes)
    requires !o.header && s.quoted && !s.atStart && f.Text? && !(s.field <= f.s)
    ensures var r := ScanCsv(o, n, s, data); r.Ok? ==> Differs(s, r.value, f)
    decreases |data|
  {
    hide ScanCsv, EndField;
    EndDiffers(o, n, s, f);
    if data == [] {
      ScanEnd(o, n, s);
    } else {
      var b, rest := data[0], data[1..];
      if s.inQuotes {
        ScanInside(o, n, s, data);
        if b == o.escape && rest != [] && rest[0] == o.quote {
          ScanDiffers(o, n, Push(s, o.quote), f, rest[1..]);
        } else if b == o.quote {
          ScanDiffers(o, n, s.(inQuotes := false, atStart := false), f, rest);
        } else {
          ScanDiffers(o, n, Push(s, b), f, rest);
        }
      } else {
        ScanPlain(o, n, s, data);
        if b == o.delimiter {
          if NextField(o, s).Ok? { ScanKeeps(o, n, NextField(o, s).value, rest); }
        } else if b == LF {
          if EndLine(o, n, s).Ok? { ScanKeeps(o, n, EndLine(o, n, s).value, rest); }
        } else if b == CR && rest != [] && rest[0] == LF {
          ScanDiffers(o, n, s.(atStart := false), f, rest);
        } else {
          ScanDiffers(o, n, Push(s, b), f, rest);
        }
      }
    }
  }

  /** From a fragile field on, whatever is in the buffer. */
  lemma ScanFromFragile(o: Options, n: nat, s: Scan, fs: seq<Field>, more: seq<seq<Field>>)
    requires Readable(o) && !o.header && AtFieldStart(s) && fs != [] && Fragile(o, fs[0])
    ensures ScanCsv(o, n, s, Tail(o, fs, more)) != Ok(s.rows + [s.row + fs] + more)
  {
    hide ScanCsv, CsvField, CsvRows, CsvFields, NeedsQuote;
    var f, rest := fs[0], Follow(o, fs, more);
    TailUnfold(o, fs, more);
    ScanFragile(o, n, s, f, rest);
    var wrong := s.field + f.s[..|f.s| - 1] + [o.quote];
    WrongBytes(o, s.field, f.s, wrong);
    ScanDiffers(o, n, s.(field := wrong, inQuotes := true, quoted := true, atStart := false), f, rest);
    var target := s.rows + [s.row + fs] + more;
    assert target[|s.rows|] == s.row + fs && (s.row + fs)[|s.row|] == f;
  }

  lemma WrongBytes(o: Options, before: bytes, t: bytes, wrong: bytes)
    requires o.escape != o.quote && t != [] && t[|t| - 1] == o.escape && wrong == before + t[..|t| - 1] + [o.quote]
    ensures !(wrong <= t)
  {
    assert |wrong| == |before| + |t| && wrong[|wrong| - 1] == o.quote;
  }

  /** Once a NULL text is in the buffer, what follows cannot come back unchanged. */
  lemma ScanAfterNull(o: Options, n: nat, s: Scan, fs: seq<Field>, more: seq<seq<Field>>)
    requires Readable(o) && !o.header && AtFieldStart(s) && s.field == o.nullText != [] && fs != []
    ensures ScanCsv(o, n, s, Tail(o, fs, more)) != Ok(s.rows + [s.row + fs] + more)
  {
    hide ScanCsv, AfterField, CsvField, CsvRows, CsvFields, Fragile;
    TailUnfold(o, fs, more);
    if Fragile(o, fs[0]) {
      ScanFromFragile(o, n, s, fs, more);
      return;
    }
    ScanField(o, n, s, fs[0], Follow(o, fs, more));
    AfterFieldPlain(o, s, fs[0]);
    EndsAsAnother(o, s, fs[0]);
    var t := AfterField(o, s, fs[0]);
    ScanPlain(o, n, t, Follow(o, fs, more));
    var target := s.rows + [s.row + fs] + more;
    assert target[|s.rows|] == s.row + fs && (s.row + fs)[|s.row|] == fs[0];
    if |fs| == 1 {
      var e := EndLine(o, n, t);
      if e.Ok? {
        ScanKeeps(o, n, e.value, CsvRows(o, more));
        assert ([LF] + CsvRows(o, more))[1..] == CsvRows(o, more);
      }
    } else {
      var e := NextField(o, t);
      if e.Ok? {
        ScanKeeps(o, n, e.value, Tail(o, fs[1..], more));
        assert ([o.delimiter] + Tail(o, fs[1..], more))[1..] == Tail(o, fs[1..], more);
      }
    }
  }

  /** From the field that is NULL on. */
  lemma ScanFromNull(o: Options, n: nat, s: Scan, fs: seq<Field>, more: seq<seq<Field>>)
    requires Readable(o) && !o.header && AtFieldStart(s) && s.field == [] && o.nullText != []
    requires fs != [] && fs[0].Null? && |s.row| + |fs| == n && n > 0
    requires forall row | row in more :: |row| == n
    ensures ScanCsv(o, n, s, Tail(o, fs, more)) != Ok(s.rows + [s.row + fs] + more)
  {
    hide ScanCsv, AfterField, CsvField, CsvRows, EndLine;
    TailUnfold(o, fs, more);
    ScanField(o, n, s, Null, Follow(o, fs, more));
    AfterFieldPlain(o, s, Null);
    EndsAsItself(o, s, Null);
    ScanPlain(o, n, AfterField(o, s, Null), Follow(o, fs, more));
    if |fs| == 1 {
      EndLineCompletes(o, n, s, Null);
      assert fs == [Null];
      var s' := Completed(o, s.(row := s.row + [Null], field := o.nullText));
      assert ([LF] + CsvRows(o, more))[1..] == CsvRows(o, more);
      if more == [] {
        ScanLeftover(o, n, s');
        assert s'.rows == s.rows + [s.row + fs] + more;
      } else {
        assert more[0] in more;
        RowsUnfold(o, more);
        ScanAfterNull(o, n, s', more[0], more[1..]);
        RowsShift(s.rows, s.row + fs, more);
      }
    } else {
      var s' := s.(row := s.row + [Null], field := o.nullText);
      assert ([o.delimiter] + Tail(o, fs[1..], more))[1..] == Tail(o, fs[1..], more);
      ScanAfterNull(o, n, s', fs[1..], more);
      assert s.row + fs == (s.row + [Null]) + fs[1..];
    }
  }

  /** A NULL text left at the end of the input becomes one more row, or an error. */
  lemma ScanLeftover(o: Options, n: nat, s: Scan)
    requires !s.inQuotes && s.field != [] && !o.header
    ensures ScanCsv(o, n, s, CsvRows(o, [])) != Ok(s.rows)
  {
  }

  lemma {:induction false} ScanBreaks(o: Options, n: nat, s: Scan, fs: seq<Field>, more: seq<seq<Field>>)
    requires Readable(o) && !o.header && AtFieldStart(s) && s.field == []
    requires fs != [] && |s.row| + |fs| == n && n > 0 && RowOk(o, fs) && RowsOk(o, more, n)
    requires !RowReturns(o, fs) || exists row | row in more :: !RowReturns(o, row)
    ensures ScanCsv(o, n, s, Tail(o, fs, more)) != Ok(s.rows + [s.row + fs] + more)
    decreases |more|, |fs|
  {
    hide ScanCsv, CsvRows, CsvFields, CsvField, AfterField, Fragile, Readable;
    if RowReturns(o, fs) {
      ScanRow(o, n, s, fs, more);
      var s' := Completed(o, s.(row := s.row + fs));
      assert more[0] in more && forall row | row in more[1..] :: row in more;
      RowsUnfold(o, more);
      ScanBreaks(o, n, s', more[0], more[1..]);
      RowsShift(s.rows, s.row + fs, more);
    } else if Fragile(o, fs[0]) {
      ScanFromFragile(o, n, s, fs, more);
    } else if fs[0].Null? && o.nullText != [] {
      ScanFromNull(o, n, s, fs, more);
    } else {
      assert fs[0] in fs && forall f | f in fs[1..] :: f in fs;
      FirstReturns(o, n, s, fs, more);
      assert s.row + fs == (s.row + [fs[0]]) + fs[1..];
      ScanBreaks(o, n, s.(row := s.row + [fs[0]]), fs[1..], more);
    }
  }

  /** A field that comes back, with more fields behind it. */
  lemma FirstReturns(o: Options, n: nat, s: Scan, fs: seq<Field>, more: seq<seq<Field>>)
    requires Readable(o) && AtFieldStart(s) && s.field == [] && |fs| > 1 && RowOk(o, fs) && Returns(o, fs[0])
    ensures ScanCsv(o, n, s, Tail(o, fs, more)) == ScanCsv(o, n, s.(row := s.row + [fs[0]]), Tail(o, fs[1..], more))
  {
    hide ScanCsv, CsvRows, CsvFields, CsvField, AfterField;
    assert fs[0] in fs;
    TailUnfold(o, fs, more);
    ScanField(o, n, s, fs[0], Follow(o, fs, more));
    AfterFieldPlain(o, s, fs[0]);
    EndsAsItself(o, s, fs[0]);
    ScanPlain(o, n, AfterField(o, s, fs[0]), Follow(o, fs, more));
    assert ([o.delimiter] + Tail(o, fs[1..], more))[1..] == Tail(o, fs[1..], more);
  }

  /** Exactly when the round trip holds: the NULL text is empty or there is no NULL, for the buffer
      is not emptied after a NULL; and no quoted text ends in an escape byte other than the quote,
      for the formatter does not escape the escape byte. */
  lemma CsvRoundTripExactly(o: Options, n: nat, rows: seq<seq<Field>>)
    requires Readable(o) && !o.header && n > 0 && RowsOk(o, rows, n)
    ensures ScanCsv(o, n, START, CsvRows(o, rows)) == Ok(rows) <==> forall row | row in rows :: RowReturns(o, row)
  {
    hide ScanCsv, CsvRows, Tail, Readable, RowOk, RowReturns;
    if forall row | row in rows :: RowReturns(o, row) {
      ScanRows(o, n, START, rows);
      assert [] + rows == rows;
    } else {
      assert rows[0] in rows && forall row | row in rows[1..] :: row in rows;
      var bad :| bad in rows && !RowReturns(o, bad);
      assert bad == rows[0] || bad in rows[1..];
      RowsUnfold(o, rows);
      ScanBreaks(o, n, START, rows[0], rows[1..]);
      WholeRows(rows);
    }
  }

  /** A row that is lost: a NULL written as `\N` and then the text `a`, where quotes are doubled. */
  lemma NullIsLost(o: Options)
    requires o == Options(44, 34, 34, [92, 78], false, o.utf8) && o.utf8([97])
    ensures CsvRows(o, [[Null, Text([97])]]) == [92, 78, 44, 97, LF]
    ensures ScanCsv(o, 2, START, CsvRows(o, [[Null, Text([97])]])) != Ok([[Null, Text([97])]])
  {
    var row := [Null, Text([97])];
    assert row[1..] == [Text([97])] && Null in row;
    assert CsvFields(o, row) == [92, 78, 44, 97];
    var none: seq<seq<Field>> := [];
    assert [row][1..] == none;
    assert !RowReturns(o, row) by { assert !Returns(o, Null); }
    CsvRoundTripExactly(o, 2, [row]);
  }

  lemma {:induction false} DoubledNothing(o: Options, s: bytes)
    requires o.quote !in s
    ensures Doubled(o, s) == s
  {
    if s != [] {
      assert s == [s[0]] + s[1..] && forall b | b in s[1..] :: b in s;
      DoubledNothing(o, s[1..]);
    }
  }

  /** A text that is lost: a comma and a backslash, with the backslash as escape byte. */
  lemma EscapeIsLost(o: Options)
    requires o == Options(44, 34, 92, [], false, o.utf8) && o.utf8([44, 92])
    ensures CsvRows(o, [[Text([44, 92])]]) == [34, 44, 92, 34, LF]
    ensures ScanCsv(o, 1, START, CsvRows(o, [[Text([44, 92])]])) != Ok([[Text([44, 92])]])
  {
    var f := Text([44, 92]);
    DoubledNothing(o, [44, 92]);
    assert Special(o, f.s[0]);
    assert CsvField(o, f) == [34, 44, 92, 34];
    var none: seq<seq<Field>> := [];
    assert [f][1..] == [] && [[f]][1..] == none;
    assert !RowReturns(o, [f]) by { assert f in [f] && !Returns(o, f); }
    CsvRoundTripExactly(o, 1, [[f]]);
  }

  lemma WholeRows(rows: seq<seq<Field>>)
    requires rows != []
    ensures START.rows + [START.row + rows[0]] + rows[1..] == rows
  {
    assert [] + rows[0] == rows[0];
  }
}

/** How CSV lines end: with a line feed, with carriage return and line feed, or with the input; and
    what is reported when a line has the wrong number of columns or an open quote. */
module CopyCsvEnds {
  import opened ByteStrings
  import opened Wrappers
  import opened CopyTypes
  import opened CopyCsv
  import opened CopyCsvRoundTrip

  /** The line break: a line feed, with or without a carriage return. */
  function Eol(crlf: bool): bytes {
    if crlf then [CR, LF] else [LF]
  }

  function CsvLines(o: Options, rows: seq<seq<Field>>, crlf: bool): bytes {
    if rows == [] then [] else CsvFields(o, rows[0]) + (Eol(crlf) + CsvLines(o, rows[1..], crlf))
  }

  function LessHeader(o: Options, rows: seq<seq<Field>>): seq<seq<Field>> {
    if o.header && rows != [] then rows[1..] else rows
  }

  // ----- the fields of a line -----

  /** The scanner before the last field of a line. */
  function BeforeLast(s: Scan, fs: seq<Field>): Scan
    requires fs != []
  {
    s.(row := s.row + fs[..|fs| - 1])
  }

  /** All fields of a line, up to what ends the last one. */
  lemma {:induction false} ScanFields(o: Options, n: nat, s: Scan, fs: seq<Field>, rest: bytes)
    requires Readable(o) && AtFieldStart(s) && s.field == [] && fs != [] && EndsField(o, rest)
    requires RowOk(o, fs) && RowReturns(o, fs)
    ensures ScanCsv(o, n, s, CsvFields(o, fs) + rest)
         == ScanCsv(o, n, AfterField(o, BeforeLast(s, fs), fs[|fs| - 1]), rest)
    decreases |fs|
  {
    hide ScanCsv, AfterField, CsvField, EndLine;
    assert fs[0] in fs;
    if |fs| == 1 {
      assert CsvFields(o, fs) + rest == CsvField(o, fs[0]) + rest by { assert CsvField(o, fs[0]) + [] == CsvField(o, fs[0]); }
      assert s.row + fs[..0] == s.row;
      ScanField(o, n, s, fs[0], rest);
    } else {
      var behind := [o.delimiter] + (CsvFields(o, fs[1..]) + rest);
      FieldsFirst(o, fs, rest);
      ScanField(o, n, s, fs[0], behind);
      AfterFieldPlain(o, s, fs[0]);
      EndsAsItself(o, s, fs[0]);
      ScanPlain(o, n, AfterField(o, s, fs[0]), behind);
      assert behind[1..] == CsvFields(o, fs[1..]) + rest;
      var s' := s.(row := s.row + [fs[0]]);
      assert s'.row + fs[1..][..|fs| - 2] == s.row + fs[..|fs| - 1];
      ScanFields(o, n, s', fs[1..], rest);
    }
  }

  lemma FieldsFirst(o: Options, fs: seq<Field>, rest: bytes)
    requires |fs| > 1
    ensures CsvFields(o, fs) + rest == CsvField(o, fs[0]) + ([o.delimiter] + (CsvFields(o, fs[1..]) + rest))
  {
  }

  /** A carriage return before the line feed is dropped. */
  lemma BreakEnds(o: Options, n: nat, s: Scan, crlf: bool, rest: bytes)
    requires Readable(o) && !s.inQuotes
    ensures ScanCsv(o, n, s, Eol(crlf) + rest) == ScanFrom(o, n, EndLine(o, n, s), rest)
  {
    hide ScanCsv, EndLine;
    if crlf {
      assert ([CR, LF] + rest)[1..] == [LF] + rest && ([LF] + rest)[1..] == rest;
      ScanPlain(o, n, s, [CR, LF] + rest);
      var s' := s.(atStart := false);
      ScanPlain(o, n, s', [LF] + rest);
      EndLineAnyStart(o, n, s);
    } else {
      assert ([LF] + rest)[1..] == rest;
      ScanPlain(o, n, s, [LF] + rest);
    }
  }

  lemma EndLineAnyStart(o: Options, n: nat, s: Scan)
    ensures EndLine(o, n, s.(atStart := false)) == EndLine(o, n, s)
  {
  }

  // ----- whole lines -----

  lemma ScanLine(o: Options, n: nat, s: Scan, fs: seq<Field>, crlf: bool, rest: bytes)
    requires Readable(o) && AtFieldStart(s) && s.field == [] && s.row == [] && |fs| == n > 0
    requires RowOk(o, fs) && RowReturns(o, fs) && (o.header && s.skipped == 0 ==> s.rows == [])
    ensures ScanCsv(o, n, s, CsvFields(o, fs) + (Eol(crlf) + rest)) == ScanCsv(o, n, Completed(o, s.(row := fs)), rest)
  {
    hide ScanCsv, CsvFields, AfterField, EndLine;
    var last := fs[n - 1];
    assert last in fs;
    ScanFields(o, n, s, fs, Eol(crlf) + rest);
    var t := BeforeLast(s, fs);
    AfterFieldPlain(o, t, last);
    BreakEnds(o, n, AfterField(o, t, last), crlf, rest);
    EndLineCompletes(o, n, t, last);
    assert t.row + [last] == fs;
  }

  /** The scanner after whole lines. */
  function AfterLines(o: Options, s: Scan, rows: seq<seq<Field>>): Scan
    decreases |rows|
  {
    if rows == [] then s else AfterLines(o, Completed(o, s.(row := rows[0])), rows[1..])
  }

  lemma {:induction false} ScanLines(o: Options, n: nat, s: Scan, rows: seq<seq<Field>>, crlf: bool, rest: bytes)
    requires Readable(o) && AtFieldStart(s) && s.field == [] && s.row == [] && n > 0
    requires RowsOk(o, rows, n) && (forall row | row in rows :: RowReturns(o, row))
    requires o.header && s.skipped == 0 ==> s.rows == []
    ensures ScanCsv(o, n, s, CsvLines(o, rows, crlf) + rest) == ScanCsv(o, n, AfterLines(o, s, rows), rest)
    decreases |rows|
  {
    hide ScanCsv, CsvFields, Readable, RowOk, RowReturns, Eol;
    if rows == [] {
      assert [] + rest == rest;
    } else {
      RowsSplit(o, rows, n);
      var more := CsvLines(o, rows[1..], crlf) + rest;
      LinesFirst(o, rows, crlf, rest);
      ScanLine(o, n, s, rows[0], crlf, more);
      CompletedRow(o, s, rows[0]);
      ScanLines(o, n, Completed(o, s.(row := rows[0])), rows[1..], crlf, rest);
    }
  }

  lemma LinesFirst(o: Options, rows: seq<seq<Field>>, crlf: bool, rest: bytes)
    requires rows != []
    ensures CsvLines(o, rows, crlf) + rest
         == CsvFields(o, rows[0]) + (Eol(crlf) + (CsvLines(o, rows[1..], crlf) + rest))
  {
    hide CsvFields;
  }

  /** Where whole lines leave the scanner: at the start of the next line, the header dropped. */
  lemma {:induction false} AfterLinesIs(o: Options, s: Scan, rows: seq<seq<Field>>)
    requires AtFieldStart(s) && s.field == [] && s.row == [] && (o.header && s.skipped == 0 ==> s.rows == [])
    ensures var t := AfterLines(o, s, rows);
      && AtFieldStart(t) && t.field == [] && t.row == [] && t.line == s.line + |rows|
      && t.rows == s.rows + (if o.header && s.skipped == 0 && rows != [] then rows[1..] else rows)
      && t.skipped == (if o.header && s.skipped == 0 && rows != [] then 1 else s.skipped)
    decreases |rows|
  {
    if rows == [] {
      assert s.rows + rows == s.rows;
    } else {
      CompletedRow(o, s, rows[0]);
      var s1 := Completed(o, s.(row := rows[0]));
      AfterLinesIs(o, s1, rows[1..]);
      assert s.rows + [rows[0]] + rows[1..] == s.rows + rows;
    }
  }

  /** Lines that end in carriage return and line feed, or in a line feed alone, give the same rows,
      less the header. */
  lemma EitherLineBreak(o: Options, n: nat, rows: seq<seq<Field>>, crlf: bool)
    requires Readable(o) && n > 0 && RowsOk(o, rows, n) && forall row | row in rows :: RowReturns(o, row)
    ensures ScanCsv(o, n, START, CsvLines(o, rows, crlf)) == Ok(LessHeader(o, rows))
  {
    hide CsvLines, Readable, RowReturns, RowOk, AfterLines;
    assert CsvLines(o, rows, crlf) + [] == CsvLines(o, rows, crlf);
    ScanLines(o, n, START, rows, crlf, []);
    AfterLinesIs(o, START, rows);
    ScanEnd(o, n, AfterLines(o, START, rows));
    assert [] + LessHeader(o, rows) == LessHeader(o, rows);
  }

  // ----- an unfinished last line -----

  /** A last line without a line break counts, the header rule included; only a single field that
      prints as nothing is no line at all. */
  lemma UnfinishedLine(o: Options, n: nat, rows: seq<seq<Field>>, last: seq<Field>, crlf: bool)
    requires Readable(o) && n > 0 && RowsOk(o, rows + [last], n) && forall row | row in rows + [last] :: RowReturns(o, row)
    ensures ScanCsv(o, n, START, CsvLines(o, rows, crlf) + CsvFields(o, last))
         == Ok(LessHeader(o, if n == 1 && CsvField(o, last[0]) == [] then rows else rows + [last]))
  {
    hide CsvLines, Readable, RowReturns, RowOk, AfterLines, ScanCsv, CsvFields, CsvField, Finish, AfterField;
    assert last in rows + [last] && forall row | row in rows :: row in rows + [last];
    ScanLines(o, n, START, rows, crlf, CsvFields(o, last));
    AfterLinesIs(o, START, rows);
    var s := AfterLines(o, START, rows);
    assert CsvFields(o, last) + [] == CsvFields(o, last);
    ScanFields(o, n, s, last, []);
    ScanEnd(o, n, AfterField(o, BeforeLast(s, last), last[n - 1]));
    FinishLast(o, n, s, last);
    RowsKept(o, rows, last);
  }

  lemma RowsKept(o: Options, rows: seq<seq<Field>>, last: seq<Field>)
    ensures [] + LessHeader(o, rows) == LessHeader(o, rows)
    ensures LessHeader(o, rows + [last])
         == if o.header && rows == [] then [] else LessHeader(o, rows) + [last]
  {
    if o.header && rows != [] {
      assert (rows + [last])[1..] == rows[1..] + [last];
    }
    if rows == [] { assert (rows + [last])[1..] == []; }
  }

  lemma FinishLast(o: Options, n: nat, s: Scan, fs: seq<Field>)
    requires AtFieldStart(s) && s.field == [] && s.row == [] && |fs| == n > 0 && RowOk(o, fs) && RowReturns(o, fs)
    requires o.header && s.skipped == 0 ==> s.rows == []
    ensures Finish(o, n, AfterField(o, BeforeLast(s, fs), fs[n - 1])) == Ok(
      if n == 1 && CsvField(o, fs[0]) == [] then s.rows
      else if o.header && s.skipped == 0 then [] else s.rows + [fs])
  {
    var last := fs[n - 1];
    assert last in fs;
    var t := BeforeLast(s, fs);
    assert t.row + [last] == fs;
    EndsAsItself(o, t, last);
    assert (s.rows + [fs])[..|s.rows|] == s.rows;
    LastShows(o, last, s);
  }

  /** A field that returns prints as nothing exactly when it leaves no trace in the scanner. */
  lemma LastShows(o: Options, f: Field, s: Scan)
    requires Returns(o, f) && s.field == []
    ensures CsvField(o, f) == [] <==> AfterField(o, s, f).field == [] && !Quoted(o, f)
  {
    assert [] + Payload(o, f) == Payload(o, f);
  }

  // ----- errors -----

  /** A row with another number of columns is reported with both numbers and its line. */
  lemma ColumnCountReported(o: Options, n: nat, rows: seq<seq<Field>>, bad: seq<Field>, crlf: bool, rest: bytes)
    requires Readable(o) && n > 0 && RowsOk(o, rows, n) && forall row | row in rows :: RowReturns(o, row)
    requires bad != [] && |bad| != n && RowOk(o, bad) && RowReturns(o, bad)
    ensures ScanCsv(o, n, START, CsvLines(o, rows, crlf) + (CsvFields(o, bad) + (Eol(crlf) + rest)))
         == Err(CopyError(1 + |rows|, ColumnCount(n, |bad|)))
  {
    hide CsvLines, Readable, RowReturns, RowOk, AfterLines, ScanCsv, CsvFields;
    var tail := Eol(crlf) + rest;
    ScanLines(o, n, START, rows, crlf, CsvFields(o, bad) + tail);
    AfterLinesIs(o, START, rows);
    BadLine(o, n, AfterLines(o, START, rows), bad, crlf, rest);
  }

  lemma BadLine(o: Options, n: nat, s: Scan, bad: seq<Field>, crlf: bool, rest: bytes)
    requires Readable(o) && AtFieldStart(s) && s.field == [] && s.row == []
    requires bad != [] && |bad| != n && RowOk(o, bad) && RowReturns(o, bad)
    ensures ScanCsv(o, n, s, CsvFields(o, bad) + (Eol(crlf) + rest)) == Err(CopyError(s.line, ColumnCount(n, |bad|)))
  {
    hide Readable, RowReturns, RowOk, ScanCsv, CsvFields, CsvField, AfterField, Eol;
    EolNoQuote(o, crlf, rest);
    ScanFields(o, n, s, bad, Eol(crlf) + rest);
    var t, last := BeforeLast(s, bad), bad[|bad| - 1];
    AfterFieldPlain(o, t, last);
    BreakEnds(o, n, AfterField(o, t, last), crlf, rest);
    assert last in bad;
    LastChecked(o, bad, last);
    EndsAsItself(o, t, last);
    assert t.row + [last] == bad;
  }

  lemma LastChecked(o: Options, fs: seq<Field>, f: Field)
    requires f in fs && RowOk(o, fs)
    ensures f.Text? ==> o.utf8(f.s)
  {
  }

  lemma EolNoQuote(o: Options, crlf: bool, rest: bytes)
    requires Readable(o)
    ensures EndsField(o, Eol(crlf) + rest)
  {
  }

  /** A quote that is never closed is reported on the line where its field began. */
  lemma OpenQuoteReported(o: Options, n: nat, rows: seq<seq<Field>>, text: bytes, crlf: bool)
    requires Readable(o) && n > 0 && RowsOk(o, rows, n) && (forall row | row in rows :: RowReturns(o, row))
    requires o.quote !in text
    ensures ScanCsv(o, n, START, CsvLines(o, rows, crlf) + ([o.quote] + text))
         == Err(CopyError(1 + |rows|, UnterminatedQuote))
  {
    hide CsvLines, Readable, RowReturns, RowOk, AfterLines, ScanCsv;
    ScanLines(o, n, START, rows, crlf, [o.quote] + text);
    AfterLinesIs(o, START, rows);
    var s := AfterLines(o, START, rows);
    ScanPlain(o, n, s, [o.quote] + text);
    assert ([o.quote] + text)[1..] == text;
    NeverClosed(o, n, s.(inQuotes := true, quoted := true, atStart := false), text);
  }

  lemma {:induction false} NeverClosed(o: Options, n: nat, s: Scan, text: bytes)
    requires s.inQuotes && o.quote !in text
    ensures ScanCsv(o, n, s, text) == Err(CopyError(s.line, UnterminatedQuote))
    decreases |text|
  {
    hide ScanCsv;
    if text == [] {
      ScanEnd(o, n, s);
    } else {
      assert text[0] in text && forall b | b in text[1..] :: b in text;
      assert |text| > 1 ==> text[1] in text;
      ScanInside(o, n, s, text);
      NeverClosed(o, n, Push(s, text[0]), text[1..]);
    }
  }

  // ----- bytes outside quotes -----

  /** Outside quotes a quote is data but at the start of a field, and a carriage return is data but
      before a line feed: an unquoted line of one column is its bytes. */
  lemma UnquotedLine(o: Options, text: bytes)
    requires Readable(o) && !o.header && o.utf8(text) && (text == o.nullText ==> text == [])
    requires o.delimiter !in text && LF !in text && (text != [] ==> text[0] != o.quote && text[|text| - 1] != CR)
    ensures ScanCsv(o, 1, START, text + [LF]) == Ok([[if text == o.nullText then Null else Text(text)]])
  {
    hide ScanCsv;
    UnquotedBytes(o, START, text, [LF]);
    var s := START.(field := [] + text, atStart := text == []);
    assert [] + text == text;
    ScanPlain(o, 1, s, [LF]);
    assert [LF][1..] == [];
    var e := EndLine(o, 1, s);
    var row := if text == o.nullText then Null else Text(text);
    assert [] + [row] == [row] && [] + [[row]] == [[row]];
    assert e.Ok? && e.value.rows == [[row]] && e.value.row == [] && !e.value.quoted && !e.value.inQuotes
           && e.value.field == [];
    ScanEnd(o, 1, e.value);
  }

  lemma {:induction false} UnquotedBytes(o: Options, s: Scan, text: bytes, rest: bytes)
    requires Readable(o) && !s.inQuotes && rest == [LF]
    requires o.delimiter !in text && LF !in text && (text != [] ==> (s.atStart ==> text[0] != o.quote) && text[|text| - 1] != CR)
    ensures ScanCsv(o, 1, s, text + rest) == ScanCsv(o, 1, s.(field := s.field + text, atStart := s.atStart && text == []), rest)
    decreases |text|
  {
    hide ScanCsv, EndLine, NextField;
    if text == [] {
      assert text + rest == rest && s.field + text == s.field;
    } else {
      var more := text[1..] + rest;
      assert (text + rest)[0] == text[0] && (text + rest)[1..] == more;
      assert text[0] in text && forall b | b in text[1..] :: b in text;
      assert |text| > 1 ==> text[1] in text && more[0] == text[1];
      ScanPlain(o, 1, s, text + rest);
      UnquotedBytes(o, Push(s, text[0]), text[1..], rest);
      assert s.field + [text[0]] + text[1..] == s.field + text;
    }
  }
}

/** The CSV side of COPY: the run-batched parser, the byte-at-a-time parser it must agree
    with, the formatter, and the round trip. */
module CopyCsv {
  import opened ByteStrings
  import opened Wrappers
  import opened CopyTypes

  // ----- one byte at a time -----

  /** What is known between two bytes. `atStart` says that no byte of the current field has
      been consumed; `field` holds the bytes pushed for it, and is not emptied by a NULL. */
  datatype Scan = Scan(rows: seq<seq<Field>>, row: seq<Field>, field: bytes, inQuotes: bool, quoted: bool,
                       atStart: bool, line: nat, skipped: nat)

  const START := Scan([], [], [], false, false, true, 1, 0)

  function EndField(o: Options, s: Scan): Result<Scan, CopyError> {
    if !s.quoted && s.field == o.nullText then
      Ok(s.(row := s.row + [Null], quoted := false))
    else if !o.utf8(s.field) then Err(CopyError(s.line, InvalidUtf8))
    else Ok(s.(row := s.row + [Text(s.field)], field := [], quoted := false))
  }

  /** The delimiter: end the field, start the next one. */
  function NextField(o: Options, s: Scan): Result<Scan, CopyError> {
    match EndField(o, s)
    case Err(e) => Err(e)
    case Ok(t) => Ok(t.(atStart := true))
  }

  function EndRow(o: Options, n: nat, s: Scan): (r: Result<Scan, CopyError>)
    ensures r.Ok? ==> |r.value.rows| == |s.rows| + 1
  {
    match EndField(o, s)
    case Err(e) => Err(e)
    case Ok(t) =>
      if |t.row| != n then Err(CopyError(t.line, ColumnCount(n, |t.row|)))
      else Ok(t.(rows := t.rows + [t.row], row := []))
  }

  /** The end of a line: the first row is the header, if there is one. */
  function EndLine(o: Options, n: nat, s: Scan): Result<Scan, CopyError> {
    match EndRow(o, n, s)
    case Err(e) => Err(e)
    case Ok(t) =>
      var u := if o.header && t.skipped == 0 && t.rows != []
               then t.(rows := t.rows[..|t.rows| - 1], skipped := t.skipped + 1) else t;
      Ok(u.(line := u.line + 1, atStart := true))
  }

  function Push(s: Scan, b: byte): Scan {
    s.(field := s.field + [b], atStart := false)
  }

  function Finish(o: Options, n: nat, s: Scan): Result<seq<seq<Field>>, CopyError> {
    if s.inQuotes then Err(CopyError(s.line, UnterminatedQuote))
    else if s.field != [] || s.row != [] || s.quoted then
      match EndRow(o, n, s)
      case Err(e) => Err(e)
      case Ok(t) => Ok(if o.header && t.skipped == 0 then t.rows[..|t.rows| - 1] else t.rows)
    else Ok(s.rows)
  }

  /** Parse by pushing one byte at a time. */
  function ScanCsv(o: Options, n: nat, s: Scan, data: bytes): Result<seq<seq<Field>>, CopyError>
    decreases |data|, 0
  {
    if data == [] then Finish(o, n, s)
    else
      var b, rest := data[0], data[1..];
      if s.inQuotes then
        if b == o.escape && rest != [] && rest[0] == o.quote then ScanCsv(o, n, Push(s, o.quote), rest[1..])
        else if b == o.quote then ScanCsv(o, n, s.(inQuotes := false, atStart := false), rest)
        else ScanCsv(o, n, Push(s, b), rest)
      else if b == o.quote && s.atStart then
        ScanCsv(o, n, s.(inQuotes := true, quoted := true, atStart := false), rest)
      else if b == o.delimiter then ScanFrom(o, n, NextField(o, s), rest)
      else if b == LF then ScanFrom(o, n, EndLine(o, n, s), rest)
      else if b == CR && rest != [] && rest[0] == LF then ScanCsv(o, n, s.(atStart := false), rest)
      else ScanCsv(o, n, Push(s, b), rest)
  }

  /** Go on unless there was an error. */
  function ScanFrom(o: Options, n: nat, r: Result<Scan, CopyError>, data: bytes): Result<seq<seq<Field>>, CopyError>
    decreases |data|, 1
  {
    if r.Err? then Err(r.error) else ScanCsv(o, n, r.value, data)
  }

  // ----- runs -----

  /** The parser's own bookkeeping: plain bytes from `runStart` on are still in `data`. */
  class CsvParser {
    const data: bytes
    const o: Options
    const n: nat
    var rows: seq<seq<Field>>
    var row: seq<Field>
    var field: bytes
    var inQuotes: bool
    var quoted: bool
    var line: nat
    var skipped: nat
    var i: nat
    var runStart: nat
    var fieldStart: nat

    ghost predicate Valid()
      reads this
    {
      fieldStart <= runStart <= i <= |data|
    }

    /** The byte-at-a-time state this stands for. */
    ghost function Abs(): Scan
      reads this
      requires Valid()
    {
      Scan(rows, row, field + data[runStart..i], inQuotes, quoted, i == fieldStart, line, skipped)
    }

    /** What is still to be parsed. */
    ghost function Outcome(): Result<seq<seq<Field>>, CopyError>
      reads this
      requires Valid()
    {
      ScanCsv(o, n, Abs(), data[i..])
    }

    constructor (data: bytes, o: Options, n: nat)
      ensures this.data == data && this.o == o && this.n == n
      ensures Valid() && Abs() == START && i == 0
    {
      this.data, this.o, this.n := data, o, n;
      rows, row, field, inQuotes, quoted, line, skipped := [], [], [], false, false, 1, 0;
      i, runStart, fieldStart := 0, 0, 0;
    }

    /** Copy the current run into the field. */
    method FlushRun()
      requires Valid()
      modifies this`field, this`runStart
      ensures Valid() && Abs() == old(Abs()) && runStart == i
    {
      if runStart < i {
        field := field + data[runStart..i];
      }
      runStart := i;
    }

    /** End the current field, whose bytes have been flushed. */
    method DoEndField() returns (e: Option<CopyError>)
      requires Valid() && runStart == i
      modifies this`row, this`field, this`quoted
      ensures match EndField(o, old(Abs()))
              case Err(x) => e == Some(x)
              case Ok(t) => e == None && Abs() == t
    {
      assert field + data[i..i] == field;
      var wasQuoted := quoted;
      quoted := false;
      if !wasQuoted && field == o.nullText {
        row := row + [Null];
      } else {
        if !o.utf8(field) { return Some(CopyError(line, InvalidUtf8)); }
        row := row + [Text(field)];
        field := [];
      }
      assert field + data[i..i] == field;
      return None;
    }

    method DoEndRow() returns (e: Option<CopyError>)
      requires Valid() && runStart == i
      modifies this`row, this`field, this`quoted, this`rows
      ensures match EndRow(o, n, old(Abs()))
              case Err(x) => e == Some(x)
              case Ok(t) => e == None && Abs() == t
    {
      e := DoEndField();
      if e.Some? { return; }
      if |row| != n { return Some(CopyError(line, ColumnCount(n, |row|))); }
      rows := rows + [row];
      row := [];
    }

    /** The line feed arm: end the row, drop the header, start the next field. */
    method DoEndLine() returns (e: Option<CopyError>)
      requires Valid() && i < |data| && runStart == i
      modifies this`row, this`field, this`quoted, this`rows, this`skipped, this`line, this`i, this`runStart, this`fieldStart
      ensures match EndLine(o, n, old(Abs()))
              case Err(x) => e == Some(x)
              case Ok(t) => e == None && Valid() && i == old(i) + 1 && Abs() == t
    {
      e := DoEndRow();
      if e.Some? { return; }
      if o.header && skipped == 0 && rows != [] {
        rows := rows[..|rows| - 1];
        skipped := skipped + 1;
      }
      line := line + 1;
      assert data[i..i] == data[i + 1..i + 1];
      i := i + 1;
      fieldStart, runStart := i, i;
    }

    /** A plain byte extends the run. */
    lemma RunGrows(text: bytes)
      requires Valid() && i < |data|
      ensures text + data[runStart..i + 1] == (text + data[runStart..i]) + [data[i]]
    {
      assert data[runStart..i + 1] == data[runStart..i] + [data[i]];
    }

    /** One turn of the loop inside quotes. */
    method StepQuoted()
      requires Valid() && i < |data| && inQuotes
      modifies this`field, this`inQuotes, this`i, this`runStart
      ensures Valid() && old(i) < i && Outcome() == old(Outcome())
    {
      hide EndField, EndLine, Finish;
      ghost var rest := data[i..];
      assert rest[0] == data[i] && rest[1..] == data[i + 1..];
      if data[i] == o.escape && i + 1 < |data| && data[i + 1] == o.quote {
        assert rest[1..][1..] == data[i + 2..] && rest[1..][0] == data[i + 1];
        FlushRun();
        ghost var text := field;
        assert text + data[i..i] == text;
        field := field + [o.quote];
        i := i + 2;
        runStart := i;
        assert field + data[i..i] == text + [o.quote];
      } else if data[i] == o.quote {
        FlushRun();
        inQuotes := false;
        assert data[i..i] == data[i + 1..i + 1];
        i := i + 1;
        runStart := i;
      } else {
        RunGrows(field);
        i := i + 1;
      }
    }

    /** One turn of the loop outside quotes. */
    method StepPlain() returns (e: Option<CopyError>)
      requires Valid() && i < |data| && !inQuotes
      modifies this
      ensures e.Some? ==> old(Outcome()) == Err(e.value)
      ensures e.None? ==> Valid() && old(i) < i && Outcome() == old(Outcome())
    {
      hide EndField, NextField, EndLine, Finish, ScanCsv;
      ghost var rest := data[i..];
      assert rest[0] == data[i] && rest[1..] == data[i + 1..];
      ScanPlain(o, n, Abs(), rest);
      var b := data[i];
      if b == o.quote && i == fieldStart {
        inQuotes, quoted := true, true;
        assert data[runStart..i] == data[i + 1..i + 1];
        i := i + 1;
        runStart := i;
      } else if b == o.delimiter {
        FlushRun();
        e := DoEndDelimited();
        if e.Some? { return; }
      } else if b == LF {
        FlushRun();
        e := DoEndLine();
        if e.Some? { return; }
      } else if b == CR && i + 1 < |data| && data[i + 1] == LF {
        FlushRun();
        assert data[i..i] == data[i + 1..i + 1];
        i := i + 1;
        runStart := i;
      } else {
        RunGrows(field);
        i := i + 1;
      }
      return None;
    }

    /** The delimiter arm. */
    method DoEndDelimited() returns (e: Option<CopyError>)
      requires Valid() && i < |data| && runStart == i
      modifies this`row, this`field, this`quoted, this`i, this`runStart, this`fieldStart
      ensures match NextField(o, old(Abs()))
              case Err(x) => e == Some(x)
              case Ok(t) => e == None && Valid() && i == old(i) + 1 && Abs() == t
    {
      e := DoEndField();
      if e.Some? { return; }
      assert data[i..i] == data[i + 1..i + 1];
      i := i + 1;
      fieldStart, runStart := i, i;
    }

    method Parse() returns (r: Result<seq<seq<Field>>, CopyError>)
      requires Valid()
      modifies this
      ensures r == old(Outcome())
    {
      hide ScanCsv, EndRow;
      while i < |data|
        invariant Valid() && Outcome() == old(Outcome())
        decreases |data| - i
      {
        if inQuotes {
          StepQuoted();
        } else {
          var e := StepPlain();
          if e.Some? { return Err(e.value); }
        }
      }
      ScanEnd(o, n, Abs());
      assert data[i..] == [];
      if inQuotes { return Err(CopyError(line, UnterminatedQuote)); }
      FlushRun();
      if field != [] || row != [] || quoted {
        var e := DoEndRow();
        if e.Some? { return Err(e.value); }
        if o.header && skipped == 0 {
          rows := rows[..|rows| - 1];
        }
      }
      return Ok(rows);
    }
  }

  /** One byte outside quotes. */
  lemma ScanPlain(o: Options, n: nat, s: Scan, data: bytes)
    requires data != [] && !s.inQuotes
    ensures var b, rest := data[0], data[1..];
      ScanCsv(o, n, s, data) ==
        if b == o.quote && s.atStart then
          ScanCsv(o, n, s.(inQuotes := true, quoted := true, atStart := false), rest)
        else if b == o.delimiter then ScanFrom(o, n, NextField(o, s), rest)
        else if b == LF then ScanFrom(o, n, EndLine(o, n, s), rest)
        else if b == CR && rest != [] && rest[0] == LF then ScanCsv(o, n, s.(atStart := false), rest)
        else ScanCsv(o, n, Push(s, b), rest)
  {
  }

  /** One byte, or one doubled quote, inside quotes. */
  lemma ScanInside(o: Options, n: nat, s: Scan, data: bytes)
    requires data != [] && s.inQuotes
    ensures var b, rest := data[0], data[1..];
      ScanCsv(o, n, s, data) ==
        if b == o.escape && rest != [] && rest[0] == o.quote then ScanCsv(o, n, Push(s, o.quote), rest[1..])
        else if b == o.quote then ScanCsv(o, n, s.(inQuotes := false, atStart := false), rest)
        else ScanCsv(o, n, Push(s, b), rest)
  {
  }

  lemma ScanEnd(o: Options, n: nat, s: Scan)
    ensures ScanCsv(o, n, s, []) == Finish(o, n, s)
  {
  }

  /** The run-batched parser returns the rows, or the error, of the byte-at-a-time parser,
      for every input and every option set. */
  method ParseCsvRows(data: bytes, o: Options, n: nat) returns (r: Result<seq<seq<Field>>, CopyError>)
    ensures r == ScanCsv(o, n, START, data)
  {
    var p := new CsvParser(data, o, n);
    assert data[0..] == data;
    r := p.Parse();
  }
}

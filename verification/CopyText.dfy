/** The text side of COPY: splitting into lines and fields, escapes, and the round trip. */
module CopyText {
  import opened ByteStrings
  import opened Wrappers
  import opened CopyTypes

  // ----- escapes -----

  /** The letter that stands for a control byte after a backslash, if there is one. */
  function EscapeLetter(b: byte): Option<byte> {
    if b == BACKSLASH then Some(BACKSLASH)
    else if b == 8 then Some(98)      // b
    else if b == 12 then Some(102)    // f
    else if b == 10 then Some(110)    // n
    else if b == 13 then Some(114)    // r
    else if b == 9 then Some(116)     // t
    else if b == 11 then Some(118)    // v
    else None
  }

  function Unescaped(c: byte): byte {
    if c == 98 then 8 else if c == 102 then 12 else if c == 110 then 10 else if c == 114 then 13
    else if c == 116 then 9 else if c == 118 then 11 else c
  }

  function EscapeByte(o: Options, b: byte): bytes {
    match EscapeLetter(b)
    case Some(l) => [BACKSLASH, l]
    case None => if b == o.delimiter then [BACKSLASH, b] else [b]
  }

  function Escape(o: Options, s: bytes): bytes {
    if s == [] then [] else EscapeByte(o, s[0]) + Escape(o, s[1..])
  }

  /** None when a backslash ends the field. */
  function Unescape(f: bytes): Option<bytes> {
    if f == [] then Some([])
    else if f[0] == BACKSLASH then
      if |f| == 1 then None
      else
        var rest := Unescape(f[2..]);
        if rest.None? then None else Some([Unescaped(f[1])] + rest.value)
    else
      var rest := Unescape(f[1..]);
      if rest.None? then None else Some([f[0]] + rest.value)
  }

  // ----- lines and fields -----

  function StripCr(line: bytes): bytes {
    if line != [] && line[|line| - 1] == CR then line[..|line| - 1] else line
  }

  /** The lines of `data`, of which `cur` is the part of the current line already seen. */
  function Lines(data: bytes, cur: bytes): seq<bytes> {
    if data == [] then (if cur == [] then [] else [cur])
    else if data[0] == LF then [StripCr(cur)] + Lines(data[1..], [])
    else Lines(data[1..], cur + [data[0]])
  }

  /** The raw fields of a line; a backslash protects the byte after it. */
  function Fields(line: bytes, d: byte, cur: bytes): (r: seq<bytes>)
    ensures r != []
  {
    if line == [] then [cur]
    else if line[0] == BACKSLASH && |line| > 1 then Fields(line[2..], d, cur + line[..2])
    else if line[0] == d then [cur] + Fields(line[1..], d, [])
    else Fields(line[1..], d, cur + [line[0]])
  }

  function ReadField(o: Options, f: bytes, line: nat): Result<Field, CopyError> {
    if f == o.nullText then Ok(Null)
    else
      match Unescape(f)
      case None => Err(CopyError(line, BackslashAtEnd))
      case Some(s) => if o.utf8(s) then Ok(Text(s)) else Err(CopyError(line, InvalidUtf8))
  }

  function ReadFields(o: Options, fs: seq<bytes>, line: nat): Result<seq<Field>, CopyError> {
    if fs == [] then Ok([])
    else
      match ReadField(o, fs[0], line)
      case Err(e) => Err(e)
      case Ok(f) =>
        var rest := ReadFields(o, fs[1..], line);
        if rest.Err? then rest else Ok([f] + rest.value)
  }

  function ReadLine(o: Options, n: nat, line: bytes, lineno: nat): Result<seq<Field>, CopyError> {
    var fs := Fields(line, o.delimiter, []);
    if |fs| != n then Err(CopyError(lineno, ColumnCount(n, |fs|))) else ReadFields(o, fs, lineno)
  }

  /** Lines that carry no row: the header, and an empty last line. */
  predicate Skips(o: Options, lines: seq<bytes>, li: nat, endsLf: bool)
    requires li < |lines|
  {
    li < (if o.header then 1 else 0) || (lines[li] == [] && li == |lines| - 1 && endsLf)
  }

  /** The rows of the lines from `li` on. */
  function ReadLines(o: Options, n: nat, lines: seq<bytes>, li: nat, endsLf: bool): Result<seq<seq<Field>>, CopyError>
    requires li <= |lines|
    decreases |lines| - li
  {
    if li == |lines| then Ok([])
    else if Skips(o, lines, li, endsLf) then ReadLines(o, n, lines, li + 1, endsLf)
    else
      var row := ReadLine(o, n, lines[li], li + 1);
      if row.Err? then Err(row.error)
      else
        var rest := ReadLines(o, n, lines, li + 1, endsLf);
        if rest.Err? then rest else Ok([row.value] + rest.value)
  }

  predicate EndsLf(data: bytes) {
    data != [] && data[|data| - 1] == LF
  }

  function ReadText(o: Options, n: nat, data: bytes): Result<seq<seq<Field>>, CopyError> {
    ReadLines(o, n, Lines(data, []), 0, EndsLf(data))
  }

  // ----- the loops -----

  /** What the rest of a loop gives, after the `done` part. */
  function Then<T>(done: seq<T>, rest: Result<seq<T>, CopyError>): Result<seq<T>, CopyError> {
    if rest.Err? then rest else Ok(done + rest.value)
  }

  lemma ThenNothing<T>(done: seq<T>, rest: Result<seq<T>, CopyError>)
    ensures Then([], rest) == rest && Then(done, Ok([])) == Ok(done)
  {
    assert done + [] == done;
    if rest.Ok? { assert [] + rest.value == rest.value; }
  }

  lemma ThenOne<T>(done: seq<T>, x: T, rest: Result<seq<T>, CopyError>)
    ensures Then(done, Then([x], rest)) == Then(done + [x], rest)
  {
    if rest.Ok? { assert done + ([x] + rest.value) == done + [x] + rest.value; }
  }

  function Unescaping(f: bytes, line: nat): Result<bytes, CopyError> {
    if Unescape(f).None? then Err(CopyError(line, BackslashAtEnd)) else Ok(Unescape(f).value)
  }

  lemma UnescapingStep(f: bytes, i: nat, line: nat)
    requires i < |f|
    ensures f[i] != BACKSLASH ==> Unescaping(f[i..], line) == Then([f[i]], Unescaping(f[i + 1..], line))
    ensures f[i] == BACKSLASH && i + 1 < |f| ==>
      Unescaping(f[i..], line) == Then([Unescaped(f[i + 1])], Unescaping(f[i + 2..], line))
    ensures f[i] == BACKSLASH && i + 1 == |f| ==> Unescaping(f[i..], line).Err?
    ensures Unescaping(f[i..], line).Err? ==> Unescaping(f[i..], line) == Err(CopyError(line, BackslashAtEnd))
  {
    assert f[i..][1..] == f[i + 1..];
    if i + 1 < |f| { assert f[i..][2..] == f[i + 2..]; }
  }

  method SplitLines(data: bytes) returns (lines: seq<bytes>)
    ensures lines == Lines(data, [])
  {
    hide Lines;
    lines := [];
    var start, i := 0, 0;
    assert data[0..] == data && data[0..0] == [];
    while i < |data|
      invariant 0 <= start <= i <= |data|
      invariant lines + Lines(data[i..], data[start..i]) == Lines(data, [])
    {
      LinesStep(data, start, i);
      if data[i] == LF {
        var end := i;
        if end > start && data[end - 1] == CR {
          end := end - 1;
        }
        lines := lines + [data[start..end]];
        start := i + 1;
      }
      i := i + 1;
    }
    assert data[i..] == [] && data[start..] == data[start..i];
    LinesEnd(data[start..]);
    if start < |data| {
      lines := lines + [data[start..]];
    }
  }

  lemma LinesEnd(cur: bytes)
    ensures Lines([], cur) == if cur == [] then [] else [cur]
  {
  }

  lemma LinesStep(data: bytes, start: nat, i: nat)
    requires start <= i < |data|
    ensures Lines(data[i..], data[start..i]) ==
      if data[i] != LF then Lines(data[i + 1..], data[start..i + 1])
      else [data[start..if i > start && data[i - 1] == CR then i - 1 else i]]
           + Lines(data[i + 1..], data[i + 1..i + 1])
  {
    assert data[i..][1..] == data[i + 1..] && data[i + 1..i + 1] == [];
    assert data[start..i] + [data[i]] == data[start..i + 1];
    if data[i] == LF {
      assert StripCr(data[start..i]) == data[start..if i > start && data[i - 1] == CR then i - 1 else i];
    }
  }

  method SplitTextLine(line: bytes, d: byte) returns (fields: seq<bytes>)
    ensures fields == Fields(line, d, [])
  {
    fields := [];
    var start, i := 0, 0;
    assert line[0..] == line && line[0..0] == [];
    while i < |line|
      invariant 0 <= start <= i <= |line|
      invariant fields + Fields(line[i..], d, line[start..i]) == Fields(line, d, [])
    {
      FieldsStep(line, d, start, i);
      if line[i] == BACKSLASH && i + 1 < |line| {
        i := i + 2;
        continue;
      }
      if line[i] == d {
        fields := fields + [line[start..i]];
        start := i + 1;
      }
      i := i + 1;
    }
    assert line[i..] == [] && line[start..] == line[start..i];
    fields := fields + [line[start..]];
  }

  lemma FieldsStep(line: bytes, d: byte, start: nat, i: nat)
    requires start <= i < |line|
    ensures Fields(line[i..], d, line[start..i]) ==
      if line[i] == BACKSLASH && i + 1 < |line| then Fields(line[i + 2..], d, line[start..i + 2])
      else if line[i] == d then [line[start..i]] + Fields(line[i + 1..], d, line[i + 1..i + 1])
      else Fields(line[i + 1..], d, line[start..i + 1])
  {
    var rest := line[i..];
    assert rest[1..] == line[i + 1..] && line[i + 1..i + 1] == [];
    assert line[start..i] + [line[i]] == line[start..i + 1];
    if i + 1 < |line| {
      assert rest[2..] == line[i + 2..] && line[start..i] + rest[..2] == line[start..i + 2];
    }
  }

  function Checked(o: Options, s: Option<bytes>, line: nat): Result<bytes, CopyError> {
    match s
    case None => Err(CopyError(line, BackslashAtEnd))
    case Some(b) => if o.utf8(b) then Ok(b) else Err(CopyError(line, InvalidUtf8))
  }

  method UnescapeText(f: bytes, lineno: nat, o: Options) returns (r: Result<bytes, CopyError>)
    ensures r == Checked(o, Unescape(f), lineno)
  {
    hide Unescape, Then;
    var out: bytes := [];
    var i := 0;
    assert f[0..] == f;
    ThenNothing(out, Unescaping(f, lineno));
    while i < |f|
      invariant 0 <= i <= |f|
      invariant Unescaping(f, lineno) == Then(out, Unescaping(f[i..], lineno))
    {
      UnescapingStep(f, i, lineno);
      if f[i] == BACKSLASH {
        i := i + 1;
        if i >= |f| {
          ThenError(out, Unescaping(f[i - 1..], lineno));
          return Err(CopyError(lineno, BackslashAtEnd));
        }
        ThenOne(out, Unescaped(f[i]), Unescaping(f[i + 1..], lineno));
        out := out + [Unescaped(f[i])];
        i := i + 1;
      } else {
        ThenOne(out, f[i], Unescaping(f[i + 1..], lineno));
        out := out + [f[i]];
        i := i + 1;
      }
    }
    assert f[i..] == [];
    UnescapeNothing();
    ThenNothing(out, Ok([]));
    if o.utf8(out) { return Ok(out); }
    return Err(CopyError(lineno, InvalidUtf8));
  }

  lemma ThenError<T>(done: seq<T>, rest: Result<seq<T>, CopyError>)
    requires rest.Err?
    ensures Then(done, rest) == rest
  {
  }

  lemma UnescapeNothing()
    ensures Unescape([]) == Some([])
  {
  }

  method ParseLine(o: Options, n: nat, line: bytes, lineno: nat) returns (r: Result<seq<Field>, CopyError>)
    ensures r == ReadLine(o, n, line, lineno)
  {
    hide Fields, ReadFields, Then, Unescape;
    var fs := SplitTextLine(line, o.delimiter);
    if |fs| != n { return Err(CopyError(lineno, ColumnCount(n, |fs|))); }
    var row: seq<Field> := [];
    var k := 0;
    assert fs[0..] == fs;
    ThenNothing(row, ReadFields(o, fs, lineno));
    while k < |fs|
      invariant 0 <= k <= |fs|
      invariant ReadFields(o, fs, lineno) == Then(row, ReadFields(o, fs[k..], lineno))
    {
      assert fs[k..][1..] == fs[k + 1..];
      ReadFieldsStep(o, fs[k..], lineno);
      if ReadField(o, fs[k], lineno).Ok? {
        ThenOne(row, ReadField(o, fs[k], lineno).value, ReadFields(o, fs[k + 1..], lineno));
      } else {
        ThenError(row, ReadFields(o, fs[k..], lineno));
      }
      if fs[k] == o.nullText {
        row := row + [Null];
      } else {
        var s := UnescapeText(fs[k], lineno, o);
        if s.Err? { return Err(s.error); }
        row := row + [Text(s.value)];
      }
      k := k + 1;
    }
    assert fs[k..] == [];
    ReadFieldsNone(o, lineno);
    ThenNothing(row, Ok([]));
    return Ok(row);
  }

  lemma ReadFieldsNone(o: Options, line: nat)
    ensures ReadFields(o, [], line) == Ok([])
  {
  }

  lemma ReadFieldsStep(o: Options, fs: seq<bytes>, line: nat)
    requires fs != []
    ensures var f := ReadField(o, fs[0], line);
      if f.Err? then ReadFields(o, fs, line) == Err(f.error)
      else ReadFields(o, fs, line) == Then([f.value], ReadFields(o, fs[1..], line))
  {
  }

  method ParseTextRows(data: bytes, o: Options, n: nat) returns (r: Result<seq<seq<Field>>, CopyError>)
    ensures r == ReadText(o, n, data)
  {
    hide Lines, ReadLine, Then;
    var rows: seq<seq<Field>> := [];
    var lines := SplitLines(data);
    var skip := if o.header then 1 else 0;
    var endsLf := data != [] && data[|data| - 1] == LF;
    var li := 0;
    ThenNothing(rows, ReadLines(o, n, lines, 0, endsLf));
    while li < |lines|
      invariant 0 <= li <= |lines|
      invariant ReadLines(o, n, lines, 0, endsLf) == Then(rows, ReadLines(o, n, lines, li, endsLf))
    {
      ReadLinesStep(o, n, lines, li, endsLf);
      var lineno := li + 1;
      if li < skip || (lines[li] == [] && li == |lines| - 1 && endsLf) {
        li := li + 1;
        continue;
      }
      var row := ParseLine(o, n, lines[li], lineno);
      if row.Err? {
        ThenError(rows, ReadLines(o, n, lines, li, endsLf));
        return Err(row.error);
      }
      ThenOne(rows, row.value, ReadLines(o, n, lines, li + 1, endsLf));
      rows := rows + [row.value];
      li := li + 1;
    }
    ThenNothing(rows, Ok([]));
    return Ok(rows);
  }

  lemma ReadLinesEnd(o: Options, n: nat, lines: seq<bytes>, endsLf: bool)
    ensures ReadLines(o, n, lines, |lines|, endsLf) == Ok([])
  {
  }

  lemma ReadLinesStep(o: Options, n: nat, lines: seq<bytes>, li: nat, endsLf: bool)
    requires li < |lines|
    ensures ReadLines(o, n, lines, |lines|, endsLf) == Ok([])
    ensures var row, rest := ReadLine(o, n, lines[li], li + 1), ReadLines(o, n, lines, li + 1, endsLf);
      ReadLines(o, n, lines, li, endsLf) ==
        if Skips(o, lines, li, endsLf) then rest
        else if row.Err? then Err(row.error)
        else Then([row.value], rest)
  {
    hide ReadLine;
  }

  method EscapeText(s: bytes, out0: bytes, o: Options) returns (out: bytes)
    ensures out == out0 + Escape(o, s)
  {
    hide EscapeByte, Escape;
    out := out0;
    assert s[..0] == [];
    EscapePrefix(o, s, 0);
    for k := 0 to |s|
      invariant out == out0 + Escape(o, s[..k])
    {
      EscapePrefix(o, s, k);
      EscapeByteIs(o, s[k]);
      var b := s[k];
      ghost var before := out;
      if b == BACKSLASH { out := out + [BACKSLASH, BACKSLASH]; }
      else if b == 8 { out := out + [BACKSLASH, 98]; }
      else if b == 12 { out := out + [BACKSLASH, 102]; }
      else if b == 10 { out := out + [BACKSLASH, 110]; }
      else if b == 13 { out := out + [BACKSLASH, 114]; }
      else if b == 9 { out := out + [BACKSLASH, 116]; }
      else if b == 11 { out := out + [BACKSLASH, 118]; }
      else if b == o.delimiter { out := out + [BACKSLASH, b]; }
      else { out := out + [b]; }
      assert out == before + EscapeByte(o, b);
    }
    assert s[..|s|] == s;
  }

  lemma EscapeByteIs(o: Options, b: byte)
    ensures EscapeByte(o, b) ==
      if b == BACKSLASH then [BACKSLASH, BACKSLASH]
      else if b == 8 then [BACKSLASH, 98]
      else if b == 12 then [BACKSLASH, 102]
      else if b == 10 then [BACKSLASH, 110]
      else if b == 13 then [BACKSLASH, 114]
      else if b == 9 then [BACKSLASH, 116]
      else if b == 11 then [BACKSLASH, 118]
      else if b == o.delimiter then [BACKSLASH, b]
      else [b]
  {
  }

  lemma {:induction false} EscapePrefix(o: Options, s: bytes, k: nat)
    requires k <= |s|
    ensures Escape(o, []) == []
    ensures k < |s| ==> Escape(o, s[..k + 1]) == Escape(o, s[..k]) + EscapeByte(o, s[k])
  {
    hide EscapeByte;
    if k < |s| {
      if k > 0 {
        EscapePrefix(o, s[1..], k - 1);
        assert s[..k + 1][1..] == s[1..][..k] && s[..k][1..] == s[1..][..k - 1];
      } else {
        assert s[..1][1..] == [] && s[..1][0] == s[0];
      }
    }
  }

  // ----- formatted rows -----

  function Raw(o: Options, f: Field): bytes {
    match f
    case Null => o.nullText
    case Text(s) => Escape(o, s)
  }

  function TextFields(o: Options, row: seq<Field>): bytes {
    if row == [] then []
    else Raw(o, row[0]) + (if |row| == 1 then [] else [o.delimiter] + TextFields(o, row[1..]))
  }

  /** Fields before position i, with the delimiter that follows each of them but the last. */
  function TextFrom(o: Options, row: seq<Field>, i: nat): bytes
    requires i <= |row|
  {
    (if 0 < i < |row| then [o.delimiter] else []) + TextFields(o, row[i..])
  }

  method FormatTextRow(fields: seq<bytes>, isNull: seq<bool>, out0: bytes, o: Options) returns (out: bytes)
    ensures out == out0 + TextFields(o, Zip(fields, isNull)) + [LF]
  {
    hide TextFields, Raw, Escape;
    ghost var row := Zip(fields, isNull);
    out := out0;
    assert row[0..] == row;
    var i := 0;
    while i < |fields| && i < |isNull|
      invariant 0 <= i <= |row|
      invariant out + TextFrom(o, row, i) == out0 + TextFields(o, row)
    {
      TextUnfold(o, row, i);
      if i > 0 {
        out := out + [o.delimiter];
      }
      if isNull[i] {
        out := out + o.nullText;
      } else {
        out := EscapeText(fields[i], out, o);
      }
      i := i + 1;
    }
    TextNone(o, row);
    out := out + [LF];
  }

  lemma TextNone(o: Options, row: seq<Field>)
    ensures TextFrom(o, row, |row|) == []
  {
  }

  lemma TextUnfold(o: Options, row: seq<Field>, i: nat)
    requires i < |row|
    ensures TextFrom(o, row, i)
         == (if i > 0 then [o.delimiter] else []) + Raw(o, row[i]) + TextFrom(o, row, i + 1)
    ensures Raw(o, row[i]) == if row[i].Null? then o.nullText else Escape(o, row[i].s)
  {
    assert row[i..][0] == row[i] && row[i..][1..] == row[i + 1..];
  }

  function TextRows(o: Options, rows: seq<seq<Field>>): bytes {
    if rows == [] then [] else TextFields(o, rows[0]) + ([LF] + TextRows(o, rows[1..]))
  }

  /** Scanned on its own, the text is one field: no bare delimiter, no backslash at the end. */
  predicate OneField(b: bytes, d: byte) {
    if b == [] then true
    else if b[0] == BACKSLASH then |b| >= 2 && OneField(b[2..], d)
    else b[0] != d && OneField(b[1..], d)
  }

  predicate NoBreaks(b: bytes) {
    forall i :: 0 <= i < |b| ==> b[i] != LF && b[i] != CR
  }

  /** A delimiter that can be escaped, and a NULL text that is one field of one line. */
  predicate Readable(o: Options) {
    && o.delimiter != BACKSLASH && o.delimiter != LF && o.delimiter != CR
    && Unescaped(o.delimiter) == o.delimiter
    && OneField(o.nullText, o.delimiter) && NoBreaks(o.nullText)
  }

  // ----- the round trip -----

  lemma {:induction false} UnescapeEscape(o: Options, s: bytes)
    requires Readable(o)
    ensures Unescape(Escape(o, s)) == Some(s)
  {
    if s != [] {
      UnescapeEscape(o, s[1..]);
      var e, rest := EscapeByte(o, s[0]), Escape(o, s[1..]);
      assert [s[0]] + s[1..] == s;
      if |e| == 2 {
        assert (e + rest)[2..] == rest;
      } else {
        assert (e + rest)[1..] == rest;
      }
    }
  }

  lemma {:induction false} EscapeIsOneField(o: Options, s: bytes)
    requires Readable(o)
    ensures OneField(Escape(o, s), o.delimiter) && NoBreaks(Escape(o, s))
  {
    if s != [] {
      EscapeIsOneField(o, s[1..]);
      var e, rest := EscapeByte(o, s[0]), Escape(o, s[1..]);
      if |e| == 2 {
        assert (e + rest)[2..] == rest;
      } else {
        assert (e + rest)[1..] == rest;
      }
    }
  }

  lemma RawIsOneField(o: Options, f: Field)
    requires Readable(o)
    ensures OneField(Raw(o, f), o.delimiter) && NoBreaks(Raw(o, f))
  {
    if f.Text? { EscapeIsOneField(o, f.s); }
  }

  lemma {:induction false} FieldsOfOne(b: bytes, d: byte, cur: bytes, rest: bytes)
    requires OneField(b, d) && d != BACKSLASH && (rest == [] || rest[0] == d)
    ensures Fields(b + rest, d, cur) == [cur + b] + (if rest == [] then [] else Fields(rest[1..], d, []))
    decreases |b|
  {
    if b == [] {
      assert b + rest == rest && cur + b == cur;
    } else if b[0] == BACKSLASH {
      assert (b + rest)[2..] == b[2..] + rest && (b + rest)[..2] == b[..2];
      FieldsOfOne(b[2..], d, cur + b[..2], rest);
      assert cur + b[..2] + b[2..] == cur + b;
    } else {
      assert (b + rest)[1..] == b[1..] + rest;
      FieldsOfOne(b[1..], d, cur + [b[0]], rest);
      assert cur + [b[0]] + b[1..] == cur + b;
    }
  }

  function Raws(o: Options, row: seq<Field>): (r: seq<bytes>)
    ensures |r| == |row|
  {
    if row == [] then [] else [Raw(o, row[0])] + Raws(o, row[1..])
  }

  lemma {:induction false} FieldsOfRow(o: Options, row: seq<Field>)
    requires Readable(o) && row != []
    ensures Fields(TextFields(o, row), o.delimiter, []) == Raws(o, row) && NoBreaks(TextFields(o, row))
  {
    hide Raw, OneField, Fields;
    RawIsOneField(o, row[0]);
    var b := Raw(o, row[0]);
    if |row| == 1 {
      FieldsOfOne(b, o.delimiter, [], []);
      assert b + [] == b && [] + b == b;
    } else {
      FieldsOfRow(o, row[1..]);
      FieldsOfOne(b, o.delimiter, [], [o.delimiter] + TextFields(o, row[1..]));
      assert ([o.delimiter] + TextFields(o, row[1..]))[1..] == TextFields(o, row[1..]);
      assert [] + b == b;
    }
  }

  /** What a field reads back as: a text whose escaped form is the NULL text is lost. */
  function ReadBack(o: Options, f: Field): Field {
    if f.Text? && Escape(o, f.s) == o.nullText then Null else f
  }

  function ReadBackRow(o: Options, row: seq<Field>): (r: seq<Field>)
    ensures |r| == |row| && forall i | 0 <= i < |row| :: r[i] == ReadBack(o, row[i])
  {
    if row == [] then [] else [ReadBack(o, row[0])] + ReadBackRow(o, row[1..])
  }

  function ReadBackRows(o: Options, rows: seq<seq<Field>>): (r: seq<seq<Field>>)
    ensures |r| == |rows| && forall i | 0 <= i < |rows| :: r[i] == ReadBackRow(o, rows[i])
  {
    if rows == [] then [] else [ReadBackRow(o, rows[0])] + ReadBackRows(o, rows[1..])
  }

  lemma {:induction false} ReadRaws(o: Options, row: seq<Field>, line: nat)
    requires Readable(o) && RowOk(o, row)
    ensures ReadFields(o, Raws(o, row), line) == Ok(ReadBackRow(o, row))
  {
    if row != [] {
      assert row[0] in row && forall f | f in row[1..] :: f in row;
      if row[0].Text? { UnescapeEscape(o, row[0].s); }
      ReadRaws(o, row[1..], line);
    }
  }

  lemma ReadFormattedLine(o: Options, n: nat, row: seq<Field>, line: nat)
    requires Readable(o) && RowOk(o, row) && |row| == n > 0
    ensures ReadLine(o, n, TextFields(o, row), line) == Ok(ReadBackRow(o, row))
  {
    hide TextFields, Fields, Raws, ReadFields;
    FieldsOfRow(o, row);
    ReadRaws(o, row, line);
  }

  function LinesOf(o: Options, rows: seq<seq<Field>>): (r: seq<bytes>)
    ensures |r| == |rows| && forall i | 0 <= i < |rows| :: r[i] == TextFields(o, rows[i])
  {
    if rows == [] then [] else [TextFields(o, rows[0])] + LinesOf(o, rows[1..])
  }

  lemma {:induction false} LinesOfOne(b: bytes, cur: bytes, rest: bytes)
    requires NoBreaks(b) && NoBreaks(cur)
    ensures Lines(b + ([LF] + rest), cur) == [cur + b] + Lines(rest, [])
    decreases |b|
  {
    if b == [] {
      assert b + ([LF] + rest) == [LF] + rest && ([LF] + rest)[1..] == rest && cur + b == cur;
    } else {
      assert (b + ([LF] + rest))[1..] == b[1..] + ([LF] + rest);
      LinesOfOne(b[1..], cur + [b[0]], rest);
      assert cur + [b[0]] + b[1..] == cur + b;
    }
  }

  lemma {:induction false} LinesOfRows(o: Options, rows: seq<seq<Field>>, n: nat)
    requires Readable(o) && n > 0 && forall row | row in rows :: |row| == n
    ensures Lines(TextRows(o, rows), []) == LinesOf(o, rows)
    ensures EndsLf(TextRows(o, rows)) <==> rows != []
  {
    hide TextFields;
    if rows != [] {
      assert rows[0] in rows && forall row | row in rows[1..] :: row in rows;
      FieldsOfRow(o, rows[0]);
      LinesOfOne(TextFields(o, rows[0]), [], TextRows(o, rows[1..]));
      assert [] + TextFields(o, rows[0]) == TextFields(o, rows[0]);
      LinesOfRows(o, rows[1..], n);
    }
  }

  /** The rows that survive: the first is taken for a header, an empty last line is dropped. */
  predicate Dropped(o: Options, rows: seq<seq<Field>>, i: nat)
    requires i < |rows|
  {
    (o.header && i == 0) || (i == |rows| - 1 && TextFields(o, rows[i]) == [])
  }

  function Surviving(o: Options, rows: seq<seq<Field>>, i: nat): seq<seq<Field>>
    requires i <= |rows|
    decreases |rows| - i
  {
    if i == |rows| then []
    else (if Dropped(o, rows, i) then [] else [rows[i]]) + Surviving(o, rows, i + 1)
  }

  lemma SurvivingStep(o: Options, rows: seq<seq<Field>>, i: nat)
    requires i < |rows|
    ensures var rest := Surviving(o, rows, i + 1);
      && (Dropped(o, rows, i) ==> Surviving(o, rows, i) == rest)
      && (!Dropped(o, rows, i) ==>
            Ok(ReadBackRows(o, Surviving(o, rows, i))) == Then([ReadBackRow(o, rows[i])], Ok(ReadBackRows(o, rest))))
  {
    hide Dropped, ReadBackRow;
    var rest := Surviving(o, rows, i + 1);
    assert ([rows[i]] + rest)[1..] == rest && [] + rest == rest;
  }

  lemma SurvivingEnd(o: Options, rows: seq<seq<Field>>)
    ensures ReadBackRows(o, Surviving(o, rows, |rows|)) == []
  {
  }

  lemma SkipsDropped(o: Options, rows: seq<seq<Field>>, i: nat)
    requires i < |rows|
    ensures Skips(o, LinesOf(o, rows), i, true) == Dropped(o, rows, i)
  {
    hide TextFields;
  }

  lemma {:induction false} ReadFormattedLines(o: Options, n: nat, rows: seq<seq<Field>>, i: nat)
    requires Readable(o) && RowsOk(o, rows, n) && n > 0 && i <= |rows|
    ensures ReadLines(o, n, LinesOf(o, rows), i, rows != []) == Ok(ReadBackRows(o, Surviving(o, rows, i)))
    decreases |rows| - i
  {
    hide TextFields, ReadLine, ReadBackRow, Readable;
    hide Dropped, ReadLines, ReadBackRows, Surviving, Skips, Then, RowOk;
    var lines := LinesOf(o, rows);
    if i < |rows| {
      ReadFormattedLines(o, n, rows, i + 1);
      assert rows[i] in rows;
      ReadFormattedLine(o, n, rows[i], i + 1);
      ReadLinesStep(o, n, lines, i, rows != []);
      SkipsDropped(o, rows, i);
      SurvivingStep(o, rows, i);
    } else {
      ReadLinesEnd(o, n, lines, rows != []);
      SurvivingEnd(o, rows);
    }
  }

  /** What formatted rows read back as, exactly. */
  lemma TextReadsBack(o: Options, n: nat, rows: seq<seq<Field>>)
    requires Readable(o) && RowsOk(o, rows, n) && n > 0
    ensures ReadText(o, n, TextRows(o, rows)) == Ok(ReadBackRows(o, Surviving(o, rows, 0)))
  {
    hide Lines, TextRows, ReadLines;
    LinesOfRows(o, rows, n);
    ReadFormattedLines(o, n, rows, 0);
  }

  /** No text looks like NULL once escaped. */
  ghost predicate NoLookalike(o: Options, rows: seq<seq<Field>>) {
    forall i, j | 0 <= i < |rows| && 0 <= j < |rows[i]| :: ReadBack(o, rows[i][j]) == rows[i][j]
  }

  lemma {:induction false} SurvivingCount(o: Options, rows: seq<seq<Field>>, i: nat)
    requires i <= |rows|
    ensures |Surviving(o, rows, i)| <= |rows| - i
    ensures |Surviving(o, rows, i)| == |rows| - i <==> forall k | i <= k < |rows| :: !Dropped(o, rows, k)
    ensures (forall k | i <= k < |rows| :: !Dropped(o, rows, k)) ==> Surviving(o, rows, i) == rows[i..]
    decreases |rows| - i
  {
    hide Dropped;
    if i < |rows| {
      SurvivingCount(o, rows, i + 1);
      assert rows[i..] == [rows[i]] + rows[i + 1..];
    }
  }

  /** Text round trip: rows come back unchanged exactly when no line is dropped and no text
      looks like NULL. */
  lemma TextRoundTripExactly(o: Options, n: nat, rows: seq<seq<Field>>)
    requires Readable(o) && RowsOk(o, rows, n) && n > 0
    ensures ReadText(o, n, TextRows(o, rows)) == Ok(rows) <==>
      && (o.header ==> rows == [])
      && (rows != [] ==> TextFields(o, rows[|rows| - 1]) != [])
      && NoLookalike(o, rows)
  {
    hide ReadText, TextRows, Readable, RowsOk, TextFields, ReadBack;
    TextReadsBack(o, n, rows);
    SurvivingCount(o, rows, 0);
    assert rows[0..] == rows;
    var back := ReadBackRows(o, Surviving(o, rows, 0));
    if rows != [] {
      assert Dropped(o, rows, |rows| - 1) <==> (o.header && |rows| == 1) || TextFields(o, rows[|rows| - 1]) == [];
    }
    if forall k | 0 <= k < |rows| :: !Dropped(o, rows, k) {
      SameRows(o, rows);
    } else {
      var k :| 0 <= k < |rows| && Dropped(o, rows, k);
    }
  }

  lemma SameRows(o: Options, rows: seq<seq<Field>>)
    ensures ReadBackRows(o, rows) == rows <==> NoLookalike(o, rows)
  {
    hide ReadBack;
    if NoLookalike(o, rows) {
      forall i | 0 <= i < |rows|
        ensures ReadBackRow(o, rows[i]) == rows[i]
      {
      }
    }
  }

  const BACKSLASH_N: bytes := [92, 78]

  lemma NeverBackslashN(o: Options, s: bytes)
    requires o.delimiter != 78
    ensures Escape(o, s) != BACKSLASH_N
  {
    if s != [] {
      var e, rest := EscapeByte(o, s[0]), Escape(o, s[1..]);
      assert Escape(o, s) == e + rest;
      assert (e + rest)[0] == e[0];
      if |e| == 2 {
        assert (e + rest)[1] == e[1] != 78;
      }
    }
  }

  lemma LastLine(o: Options, row: seq<Field>)
    requires |row| >= 2
    ensures TextFields(o, row) != []
  {
  }

  /** The default NULL text, two columns or more: everything comes back. */
  lemma TextRoundTrip(o: Options, n: nat, rows: seq<seq<Field>>)
    requires Readable(o) && !o.header && o.nullText == BACKSLASH_N && o.delimiter != 78
    requires n >= 2 && RowsOk(o, rows, n)
    ensures ReadText(o, n, TextRows(o, rows)) == Ok(rows)
  {
    hide ReadText, TextRows, TextFields, Escape;
    TextRoundTripExactly(o, n, rows);
    if rows != [] {
      assert rows[|rows| - 1] in rows;
      LastLine(o, rows[|rows| - 1]);
    }
    forall i, j | 0 <= i < |rows| && 0 <= j < |rows[i]|
      ensures ReadBack(o, rows[i][j]) == rows[i][j]
    {
      if rows[i][j].Text? { NeverBackslashN(o, rows[i][j].s); }
    }
  }
}

/** Laws of the COPY formats beside the round trips: escapes, line ends, the first bad line, and
    which CSV fields are quoted. */
module CopyFormats {
  import opened ByteStrings
  import opened Wrappers
  import opened CopyTypes
  import opened CopyText
  import Csv = CopyCsvRoundTrip

  // ----- escapes -----

  /** What a backslash and a byte stand for: b, f, n, r, t and v are control bytes, every other
      byte is itself, and a backslash needs a byte behind it. */
  lemma EscapesMean(c: byte)
    ensures Unescape([BACKSLASH]) == None
    ensures Unescape([BACKSLASH, c]) == Some([
      match c case 98 => 8 case 102 => 12 case 110 => 10 case 114 => 13 case 116 => 9 case 118 => 11 case _ => c])
  {
    assert [BACKSLASH, c][2..] == [] && Unescape([]) == Some([]);
    assert [Unescaped(c)] + [] == [Unescaped(c)];
  }

  /** Bytes that are no backslash stand for themselves, and texts can be put together. */
  lemma {:induction false} PlainMeans(a: bytes, f: bytes)
    requires BACKSLASH !in a
    ensures Unescape(a + f) == match Unescape(f) case None => None case Some(s) => Some(a + s)
    decreases |a|
  {
    if a == [] {
      assert a + f == f;
      if Unescape(f).Some? { assert a + Unescape(f).value == Unescape(f).value; }
    } else {
      assert (a + f)[1..] == a[1..] + f;
      PlainMeans(a[1..], f);
      if Unescape(f).Some? { assert [a[0]] + (a[1..] + Unescape(f).value) == a + Unescape(f).value; }
    }
  }

  // ----- line ends -----

  /** Lines as they are, each with the given end. */
  function Ended(lines: seq<bytes>, end: bytes): bytes {
    if lines == [] then [] else lines[0] + end + Ended(lines[1..], end)
  }

  predicate Unbroken(b: bytes) {
    LF !in b && (b != [] ==> b[|b| - 1] != CR)
  }

  lemma {:induction false} UpToBreak(b: bytes, cur: bytes, rest: bytes)
    requires LF !in b
    ensures Lines(b + ([LF] + rest), cur) == [StripCr(cur + b)] + Lines(rest, [])
    decreases |b|
  {
    if b == [] {
      assert b + ([LF] + rest) == [LF] + rest && ([LF] + rest)[1..] == rest && cur + b == cur;
    } else {
      assert (b + ([LF] + rest))[1..] == b[1..] + ([LF] + rest);
      UpToBreak(b[1..], cur + [b[0]], rest);
      assert cur + [b[0]] + b[1..] == cur + b;
    }
  }

  lemma {:induction false} NoBreakLeft(b: bytes, cur: bytes)
    requires LF !in b
    ensures Lines(b, cur) == if cur + b == [] then [] else [cur + b]
    decreases |b|
  {
    if b == [] {
      assert cur + b == cur;
    } else {
      NoBreakLeft(b[1..], cur + [b[0]]);
      assert cur + [b[0]] + b[1..] == cur + b;
    }
  }

  lemma OneEnded(l: bytes, crlf: bool, rest: bytes)
    requires Unbroken(l)
    ensures Lines(l + (if crlf then [CR, LF] else [LF]) + rest, []) == [l] + Lines(rest, [])
  {
    hide Lines;
    var b := if crlf then l + [CR] else l;
    assert l + (if crlf then [CR, LF] else [LF]) + rest == b + ([LF] + rest);
    UpToBreak(b, [], rest);
    assert [] + b == b && StripCr(b) == l;
  }

  /** Lines ended by LF or by CR LF are those lines; a last line without an end is one more. */
  lemma {:induction false} EitherEnd(lines: seq<bytes>, crlf: bool, last: bytes)
    requires (forall l | l in lines :: Unbroken(l)) && LF !in last
    ensures Lines(Ended(lines, if crlf then [CR, LF] else [LF]) + last, []) == lines + (if last == [] then [] else [last])
    decreases |lines|
  {
    hide Lines, Unbroken;
    var end := if crlf then [CR, LF] else [LF];
    var more := if last == [] then [] else [last];
    if lines == [] {
      assert Ended(lines, end) + last == last && [] + last == last;
      NoBreakLeft(last, []);
      assert lines + more == more;
    } else {
      var l, rest := lines[0], Ended(lines[1..], end) + last;
      assert l in lines && forall x | x in lines[1..] :: x in lines;
      Regrouped(l, end, Ended(lines[1..], end), last);
      OneEnded(l, crlf, rest);
      EitherEnd(lines[1..], crlf, last);
      assert [l] + (lines[1..] + more) == lines + more;
    }
  }

  lemma Regrouped(a: bytes, b: bytes, c: bytes, d: bytes)
    ensures a + b + c + d == a + b + (c + d)
  {
  }

  // ----- the first bad line -----

  /** Reading stops at the first line that is no row, with its error. */
  lemma {:induction false} FirstBadLine(o: Options, n: nat, lines: seq<bytes>, li: nat, endsLf: bool, bad: nat)
    requires li <= bad < |lines| && !Skips(o, lines, bad, endsLf) && ReadLine(o, n, lines[bad], bad + 1).Err?
    requires forall i | li <= i < bad :: Skips(o, lines, i, endsLf) || ReadLine(o, n, lines[i], i + 1).Ok?
    ensures ReadLines(o, n, lines, li, endsLf) == Err(ReadLine(o, n, lines[bad], bad + 1).error)
    decreases bad - li
  {
    hide ReadLine, Skips;
    if li < bad { FirstBadLine(o, n, lines, li + 1, endsLf, bad); }
  }

  /** A formatted row with another number of columns is reported with the number of its line; the
      header is not read. */
  lemma WrongColumns(o: Options, n: nat, rows: seq<seq<Field>>, row: seq<Field>, rest: bytes)
    requires Readable(o) && RowsOk(o, rows, n) && n > 0 && row != [] && |row| != n
    requires rest != [] || TextFields(o, row) != []
    requires o.header ==> rows != []
    ensures ReadText(o, n, TextRows(o, rows) + (TextFields(o, row) + ([LF] + rest)))
         == Err(CopyError(|rows| + 1, ColumnCount(n, |row|)))
  {
    hide Lines, ReadLine, ReadLines, Readable, TextFields, TextRows, RowsOk;
    var data := TextRows(o, rows) + (TextFields(o, row) + ([LF] + rest));
    LinesHere(o, rows, row, rest, n);
    WrongLine(o, n, rows, row, Lines(data, []), EndsLf(data));
  }

  lemma WrongLine(o: Options, n: nat, rows: seq<seq<Field>>, row: seq<Field>, lines: seq<bytes>, endsLf: bool)
    requires Readable(o) && RowsOk(o, rows, n) && n > 0 && row != [] && |row| != n && (o.header ==> rows != [])
    requires |lines| > |rows| && lines[|rows|] == TextFields(o, row)
    requires TextFields(o, row) != [] || |lines| > |rows| + 1
    requires forall i | 0 <= i < |rows| :: lines[i] == TextFields(o, rows[i])
    ensures ReadLines(o, n, lines, 0, endsLf) == Err(CopyError(|rows| + 1, ColumnCount(n, |row|)))
  {
    hide ReadLine, ReadLines, Readable, TextFields, RowsOk;
    BadLine(o, n, row, |rows| + 1);
    forall i | 0 <= i < |rows| ensures ReadLine(o, n, lines[i], i + 1).Ok? {
      GoodLine(o, n, rows, i);
    }
    FirstBadLine(o, n, lines, 0, endsLf, |rows|);
  }

  /** The rows, the next row and whatever follows, one line each. */
  lemma LinesHere(o: Options, rows: seq<seq<Field>>, row: seq<Field>, rest: bytes, n: nat)
    requires Readable(o) && RowsOk(o, rows, n) && n > 0 && row != []
    ensures var lines := Lines(TextRows(o, rows) + (TextFields(o, row) + ([LF] + rest)), []);
      && |lines| > |rows| && lines[|rows|] == TextFields(o, row) && (rest != [] ==> |lines| > |rows| + 1)
      && forall i | 0 <= i < |rows| :: lines[i] == TextFields(o, rows[i])
  {
    hide Lines, Readable, TextFields, TextRows, RowsOk;
    var line := TextFields(o, row);
    SameWidth(o, rows, n);
    RowsThen(o, rows, n, line + ([LF] + rest));
    LineThen(o, row, rest);
    RestLines(rest);
  }

  lemma SameWidth(o: Options, rows: seq<seq<Field>>, n: nat)
    requires RowsOk(o, rows, n)
    ensures forall row | row in rows :: |row| == n
  {
  }

  lemma BadLine(o: Options, n: nat, row: seq<Field>, lineno: nat)
    requires Readable(o) && row != [] && |row| != n
    ensures ReadLine(o, n, TextFields(o, row), lineno) == Err(CopyError(lineno, ColumnCount(n, |row|)))
  {
    hide Fields, TextFields, Readable;
    FieldsOfRow(o, row);
  }

  lemma GoodLine(o: Options, n: nat, rows: seq<seq<Field>>, i: nat)
    requires Readable(o) && RowsOk(o, rows, n) && n > 0 && i < |rows|
    ensures LinesOf(o, rows)[i] == TextFields(o, rows[i]) && ReadLine(o, n, TextFields(o, rows[i]), i + 1).Ok?
  {
    hide ReadLine, TextFields, Readable, RowOk;
    assert rows[i] in rows;
    ReadFormattedLine(o, n, rows[i], i + 1);
  }

  lemma LineThen(o: Options, row: seq<Field>, rest: bytes)
    requires Readable(o) && row != []
    ensures Lines(TextFields(o, row) + ([LF] + rest), []) == [TextFields(o, row)] + Lines(rest, [])
  {
    hide Lines, TextFields, Readable, Fields, NoBreaks;
    FieldsOfRow(o, row);
    assert NoBreaks([]) by { NoneBroken(); }
    LinesOfOne(TextFields(o, row), [], rest);
    assert [] + TextFields(o, row) == TextFields(o, row);
  }

  lemma NoneBroken()
    ensures NoBreaks([])
  {
  }

  lemma RestLines(rest: bytes)
    ensures rest != [] ==> Lines(rest, []) != []
  {
    if rest != [] { SomeLine(rest, []); }
  }

  lemma {:induction false} SomeLine(data: bytes, cur: bytes)
    requires data != [] || cur != []
    ensures Lines(data, cur) != []
    decreases |data|
  {
    if data != [] && data[0] != LF { SomeLine(data[1..], cur + [data[0]]); }
  }

  lemma {:induction false} RowsThen(o: Options, rows: seq<seq<Field>>, n: nat, rest: bytes)
    requires Readable(o) && n > 0 && forall row | row in rows :: |row| == n
    ensures Lines(TextRows(o, rows) + rest, []) == LinesOf(o, rows) + Lines(rest, [])
    decreases |rows|
  {
    hide Lines, Readable, TextFields, TextRows;
    if rows == [] {
      assert TextRows(o, rows) + rest == rest by { NoRows(o, rest); }
      assert LinesOf(o, rows) + Lines(rest, []) == Lines(rest, []);
    } else {
      assert rows[0] in rows && forall row | row in rows[1..] :: row in rows;
      var more := TextRows(o, rows[1..]) + rest;
      FirstRow(o, rows, rest);
      LineThen(o, rows[0], more);
      RowsThen(o, rows[1..], n, rest);
      FirstLine(o, rows, Lines(rest, []));
    }
  }

  lemma NoRows(o: Options, rest: bytes)
    ensures TextRows(o, []) + rest == rest
  {
  }

  lemma FirstRow(o: Options, rows: seq<seq<Field>>, rest: bytes)
    requires rows != []
    ensures TextRows(o, rows) + rest == TextFields(o, rows[0]) + ([LF] + (TextRows(o, rows[1..]) + rest))
  {
    hide TextFields;
  }

  lemma FirstLine(o: Options, rows: seq<seq<Field>>, after: seq<bytes>)
    requires rows != []
    ensures LinesOf(o, rows) + after == [TextFields(o, rows[0])] + (LinesOf(o, rows[1..]) + after)
  {
    hide TextFields, LinesOf;
    var first, lines, more := TextFields(o, rows[0]), LinesOf(o, rows), LinesOf(o, rows[1..]);
    assert lines == [first] + more by {
      assert |lines| == 1 + |more| && lines[0] == first;
      assert forall i | 1 <= i < |lines| :: lines[i] == more[i - 1];
    }
    Together(first, more, after);
  }

  lemma Together(first: bytes, more: seq<bytes>, after: seq<bytes>)
    ensures [first] + more + after == [first] + (more + after)
  {
  }

  // ----- quotes -----

  function Count(s: bytes, b: byte): nat {
    if s == [] then 0 else (if s[0] == b then 1 else 0) + Count(s[1..], b)
  }

  lemma {:induction false} DoubledLength(o: Options, s: bytes)
    ensures |Csv.Doubled(o, s)| == |s| + Count(s, o.quote)
  {
    if s != [] { DoubledLength(o, s[1..]); }
  }

  /** A text is written as it is exactly when it holds no delimiter, quote or line break and is
      not the NULL string; otherwise it gains two quotes and an escape for each of its own. */
  lemma QuotedExactly(o: Options, s: bytes)
    ensures var f, bare := Csv.CsvField(o, Text(s)),
        s != o.nullText && o.delimiter !in s && o.quote !in s && LF !in s && CR !in s;
      && (f == s <==> bare)
      && (!bare ==> |f| == |s| + Count(s, o.quote) + 2 && f[0] == o.quote && f[|f| - 1] == o.quote)
  {
    DoubledLength(o, s);
  }
}

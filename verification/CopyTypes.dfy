/** Rows, options and errors of the COPY formats (src/copy.rs). Text is kept as bytes; the
    UTF-8 check of the standard library is a parameter. */
module CopyTypes {
  import opened ByteStrings

  datatype Field = Text(s: bytes) | Null

  datatype Options = Options(delimiter: byte, quote: byte, escape: byte, nullText: bytes, header: bool,
                             utf8: bytes -> bool)

  datatype Problem =
    | InvalidUtf8
    | ColumnCount(expected: nat, found: nat)
    | UnterminatedQuote
    | BackslashAtEnd

  datatype CopyError = CopyError(line: nat, problem: Problem)

  const LF: byte := 10
  const CR: byte := 13
  const BACKSLASH: byte := 92

  /** A formatter's arguments: texts and null flags side by side. */
  function Zip(fields: seq<bytes>, isNull: seq<bool>): (r: seq<Field>)
    ensures |r| == if |fields| < |isNull| then |fields| else |isNull|
    ensures forall i | 0 <= i < |r| :: r[i] == if isNull[i] then Null else Text(fields[i])
  {
    if fields == [] || isNull == [] then []
    else [if isNull[0] then Null else Text(fields[0])] + Zip(fields[1..], isNull[1..])
  }

  /** Every text of the rows is valid UTF-8, as Rust strings are, and every row has n columns. */
  ghost predicate RowsOk(o: Options, rows: seq<seq<Field>>, n: nat) {
    forall row | row in rows :: RowOk(o, row) && |row| == n
  }

  ghost predicate RowOk(o: Options, row: seq<Field>) {
    forall f | f in row && f.Text? :: o.utf8(f.s)
  }
}

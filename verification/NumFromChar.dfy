/** `to_number`: scanning a text along a picture (src/numfmt_fromchar.rs). */
module NumFromChar {
  import opened Integers
  import opened Text
  import opened Wrappers
  import opened Decimal
  import opened NumPicture
  import opened NumToChar
  import Numerals = Roman

  datatype ReadError = EmptyInput | Malformed | BadExponent | OutOfRange | InvalidRoman | Unsupported

  /** The scanner's state; out[0] is the sign slot. */
  datatype Reader = Reader(desc: Picture, input: string, inputP: nat, out: string, readPre: nat, readPost: nat,
                           readDec: bool, badRoman: bool)

  predicate Over(r: Reader) {
    r.inputP >= |r.input|
  }

  function Skip(r: Reader): Reader {
    r.(inputP := r.inputP + 1)
  }

  /** `NUM_eat_non_data_chars`. */
  function NonDataEaten(r: Reader, n: nat): Reader
    decreases n
  {
    if n == 0 || Over(r) || IsData(r.input[r.inputP]) then r else NonDataEaten(Skip(r), n - 1)
  }

  predicate IsData(c: char) {
    IsDigit(c) || c == '.' || c == ',' || c == '+' || c == '-'
  }

  function SetSign(r: Reader, c: char): Reader {
    r.(out := if r.out == [] then [c] else [c] + r.out[1..])
  }

  predicate SignOpen(r: Reader) {
    r.out != [] && r.out[0] == ' '
  }

  /** The sign before the number. */
  function ReadSign(r: Reader, id: Node): Reader
    requires !Over(r)
  {
    var c := r.input[r.inputP];
    if !(SignOpen(r) && IsSlot(id) && r.readPre + r.readPost == 0) then r
    else if r.desc.lsign == 1 then
      if c == '-' || c == '+' then Skip(SetSign(r, c)) else r
    else if c == '-' || (r.desc.bracket && c == '<') then Skip(SetSign(r, '-'))
    else if c == '+' then Skip(SetSign(r, '+'))
    else r
  }

  /** A digit or the point; whether one was read. */
  function ReadDigit(r: Reader): (Reader, bool)
    requires !Over(r)
  {
    var c := r.input[r.inputP];
    if IsDigit(c) then
      if r.readDec && r.readPost == r.desc.post then (r, false)
      else if r.readDec then (r.(out := r.out + [c], readPost := r.readPost + 1), true)
      else (r.(out := r.out + [c], readPre := r.readPre + 1), true)
    else if r.desc.decimal && !r.readDec && c == '.' then (r.(out := r.out + ['.'], readDec := true), true)
    else (r, false)
  }

  /** The sign behind the number. */
  function ReadTrailing(r: Reader, isread: bool): Reader
    requires !Over(r)
  {
    if !(SignOpen(r) && r.readPre + r.readPost > 0) then r
    else if r.desc.lsign != 0 && isread && r.inputP + 1 < |r.input| && !IsDigit(r.input[r.inputP + 1]) then
      var nc := r.input[r.inputP + 1];
      if nc == '-' || nc == '+' then Skip(SetSign(r, nc)) else r
    else if !isread && r.desc.lsign == 0 && (r.desc.plus || r.desc.minus) then
      var c := r.input[r.inputP];
      if c == '-' || c == '+' then SetSign(r, c) else r
    else r
  }

  /** A slot or the point; false at the end of the text. */
  function ReadPart(r: Reader, id: Node): (Reader, bool) {
    if Over(r) then (r, false)
    else
      var r1 := if r.input[r.inputP] == ' ' then Skip(r) else r;
      if Over(r1) then (r1, false)
      else
        var r2 := ReadSign(r1, id);
        if Over(r2) then (r2, false)
        else
          var (r3, isread) := ReadDigit(r2);
          (ReadTrailing(r3, isread), true)
  }

  /** One node of the picture; false when the scan ends. */
  function ScanNode(r: Reader, n: Node): (Reader, bool) {
    if Over(r) then (r, false)
    else
      var c := r.input[r.inputP];
      match n
      case N9 => ScanPart(r, n)
      case N0 => ScanPart(r, n)
      case Dec => ScanPart(r, n)
      case Comma => (if !r.desc.fillmode && c == ',' then Skip(r) else r, true)
      case G => (if !r.desc.fillmode && c == ',' then Skip(r) else r, true)
      case L => (NonDataEaten(r, 1), true)
      case Roman(_) =>
        var v := Numerals.RomanIn(r.input, r.inputP);
        if v.None? then (r.(badRoman := true), false)
        else (r.(out := r.out + Digits(v.value.0), inputP := r.inputP + v.value.1), true)
      case Th(_) => (if r.desc.roman || r.desc.decimal then r else NonDataEaten(r, 2), true)
      case MI => (if c == '-' then Skip(SetSign(r, '-')) else NonDataEaten(r, 1), true)
      case PL => (if c == '+' then Skip(SetSign(r, '+')) else NonDataEaten(r, 1), true)
      case SG => (if c == '-' || c == '+' then Skip(SetSign(r, c)) else NonDataEaten(r, 1), true)
      case Lit(_) => (Skip(r), true)
      case S => (r, true)
      case C => (r, true)
  }

  function ScanPart(r: Reader, n: Node): (Reader, bool) {
    var (r1, more) := ReadPart(r, n);
    if more then (Skip(r1), true) else (r1, false)
  }

  function ScanAll(r: Reader, nodes: seq<Node>): Reader
    decreases |nodes|
  {
    if nodes == [] then r
    else
      var (r1, more) := ScanNode(r, nodes[0]);
      if more then ScanAll(r1, nodes[1..]) else r1
  }

  function Opening(d: Picture, input: string): Reader {
    Reader(d, input, 0, " ", 0, 0, false, false)
  }

  // ----- the standard decimal text -----

  /** `Numeric::new`: no trailing zero places; zero has no places. */
  function Normalized(u: int, s: int): Numeric
    decreases if s < 0 then 0 else s
  {
    if u == 0 then Numeric(0, 0) else if s > 0 && u % 10 == 0 then Normalized(u / 10, s - 1) else Numeric(u, s)
  }

  function DropPoint(s: string): string {
    if s != [] && s[|s| - 1] == '.' then s[..|s| - 1] else s
  }

  function DropBlank(s: string): string {
    if s != [] && s[0] == ' ' then s[1..] else s
  }

  function FirstDot(s: string): (k: nat)
    ensures k <= |s| && (k < |s| ==> s[k] == '.') && '.' !in s[..k]
  {
    if s == [] || s[0] == '.' then 0 else 1 + FirstDot(s[1..])
  }

  /** The first place of an exponent mark, or the length. */
  function FirstMark(s: string): (k: nat)
    ensures k <= |s| && (k < |s| ==> s[k] == 'e' || s[k] == 'E') && 'e' !in s[..k] && 'E' !in s[..k]
  {
    if s == [] || s[0] == 'e' || s[0] == 'E' then 0 else 1 + FirstMark(s[1..])
  }

  /** `parse::<i32>()`. */
  function ParseI32(s: string): Option<int> {
    var digits := if s != "" && (s[0] == '-' || s[0] == '+') then s[1..] else s;
    if digits == "" || !AllDigits(digits) then None
    else
      var n := Signed(s[0] == '-', Value(digits));
      if I32_MIN <= n <= I32_MAX then Some(n) else None
  }

  /** The number mant * 10^exp. */
  function ParseMantissa(neg: bool, mant: string, exp: int): Result<Numeric, ReadError> {
    var k := FirstDot(mant);
    var intD, fracD := mant[..k], if k < |mant| then mant[k + 1..] else "";
    if !AllDigits(intD) || !AllDigits(fracD) || (intD == "" && fracD == "") then Err(Malformed)
    else if Value(intD + fracD) > I128_MAX then Err(OutOfRange)
    else Ok(Normalized(Signed(neg, Value(intD + fracD)), |fracD| - exp))
  }

  /** A sign, digits, a point and an exponent, between blanks. */
  function ParseStd(s: string): Result<Numeric, ReadError> {
    var t := Trim(s);
    if t == "" then Err(EmptyInput)
    else
      var neg := t[0] == '-';
      var rest := if t[0] == '-' || t[0] == '+' then t[1..] else t;
      var e := FirstMark(rest);
      if e == |rest| then ParseMantissa(neg, rest, 0)
      else
        var exp := ParseI32(rest[e + 1..]);
        if exp.None? then Err(BadExponent) else ParseMantissa(neg, rest[..e], exp.value)
  }

  /** V shifts the point left, and the source then widens the scale by 16. */
  function Shifted(n: Numeric, multi: nat): Result<Numeric, ReadError> {
    if multi == 0 then Ok(n)
    else
      var u := n.unscaled * Pow10(16);
      if -I128_MAX - 1 <= u <= I128_MAX then Ok(Numeric(u, n.scale + multi + 16)) else Err(OutOfRange)
  }

  function Finished(r: Reader): Result<Numeric, ReadError> {
    if r.badRoman then Err(InvalidRoman)
    else
      match ParseStd(DropBlank(DropPoint(r.out)))
      case Err(e) => Err(e)
      case Ok(n) => Shifted(n, r.desc.multi)
  }

  function ReadNumber(text: string, fmt: Picture): Result<Numeric, ReadError> {
    if fmt.eeee then Err(Unsupported) else Finished(ScanAll(Opening(fmt, text), fmt.nodes))
  }

  // ----- the scanner -----

  class FromChar {
    const desc: Picture
    const input: string
    var inputP: nat
    var out: string
    var readPre: nat
    var readPost: nat
    var readDec: bool
    var badRoman: bool

    ghost function View(): Reader
      reads this
    {
      Reader(desc, input, inputP, out, readPre, readPost, readDec, badRoman)
    }

    constructor (d: Picture, text: string)
      ensures View() == Opening(d, text)
    {
      desc, input, inputP, out := d, text, 0, " ";
      readPre, readPost, readDec, badRoman := 0, 0, false, false;
    }

    predicate Overloaded()
      reads this
    {
      inputP >= |input|
    }

    method PutSign(c: char)
      modifies this`out
      ensures View() == SetSign(old(View()), c)
    {
      out := if out == [] then [c] else [c] + out[1..];
    }

    method EatNonData(n: nat)
      modifies this`inputP
      ensures View() == NonDataEaten(old(View()), n)
    {
      var left: nat := n;
      while left > 0 && !Overloaded()
        invariant left <= n
        invariant NonDataEaten(View(), left) == NonDataEaten(old(View()), n)
      {
        if IsData(input[inputP]) { break; }
        inputP := inputP + 1;
        left := left - 1;
      }
    }

    method Numpart(id: Node) returns (more: bool)
      modifies this`inputP, this`out, this`readPre, this`readPost, this`readDec
      ensures (View(), more) == ReadPart(old(View()), id)
    {
      hide ReadSign, ReadDigit, ReadTrailing;
      if Overloaded() { return false; }
      if input[inputP] == ' ' { inputP := inputP + 1; }
      if Overloaded() { return false; }
      TakeSign(id);
      if Overloaded() { return false; }
      var isread := TakeDigit();
      TakeTrailing(isread);
      return true;
    }

    method TakeSign(id: Node)
      requires !Over(View())
      modifies this`inputP, this`out
      ensures View() == ReadSign(old(View()), id)
    {
      if out != [] && out[0] == ' ' && IsSlot(id) && readPre + readPost == 0 {
        var c := input[inputP];
        if desc.lsign == 1 {
          if c == '-' || c == '+' {
            PutSign(c);
            inputP := inputP + 1;
          }
        } else if c == '-' || (desc.bracket && c == '<') {
          PutSign('-');
          inputP := inputP + 1;
        } else if c == '+' {
          PutSign('+');
          inputP := inputP + 1;
        }
      }
    }

    method TakeDigit() returns (isread: bool)
      requires !Over(View())
      modifies this`out, this`readPre, this`readPost, this`readDec
      ensures (View(), isread) == ReadDigit(old(View())) && inputP == old(inputP)
    {
      isread := false;
      var c := input[inputP];
      if IsDigit(c) {
        if !(readDec && readPost == desc.post) {
          out := out + [c];
          if readDec { readPost := readPost + 1; } else { readPre := readPre + 1; }
          isread := true;
        }
      } else if desc.decimal && !readDec && c == '.' {
        out := out + ['.'];
        readDec := true;
        isread := true;
      }
    }

    method TakeTrailing(isread: bool)
      requires !Over(View())
      modifies this`inputP, this`out
      ensures View() == ReadTrailing(old(View()), isread)
    {
      if out != [] && out[0] == ' ' && readPre + readPost > 0 {
        if desc.lsign != 0 && isread && inputP + 1 < |input| && !IsDigit(input[inputP + 1]) {
          var nc := input[inputP + 1];
          if nc == '-' || nc == '+' {
            PutSign(nc);
            inputP := inputP + 1;
          }
        } else if !isread && desc.lsign == 0 && (desc.plus || desc.minus) {
          var c := input[inputP];
          if c == '-' || c == '+' { PutSign(c); }
        }
      }
    }

    /** The node loop. */
    method Run()
      modifies this
      ensures View() == ScanAll(old(View()), desc.nodes)
    {
      hide ScanAll, ScanNode;
      var k: nat := 0;
      assert desc.nodes[0..] == desc.nodes;
      while k < |desc.nodes|
        invariant k <= |desc.nodes|
        invariant ScanAll(View(), desc.nodes[k..]) == ScanAll(old(View()), desc.nodes)
      {
        ScanStep(View(), desc.nodes, k);
        var more := Take(desc.nodes[k]);
        if !more { return; }
        k := k + 1;
      }
      ScanDone(View());
      assert desc.nodes[k..] == [];
    }

    method Take(n: Node) returns (more: bool)
      modifies this
      ensures (View(), more) == ScanNode(old(View()), n)
    {
      hide ReadPart, NonDataEaten, SetSign;
      if Overloaded() { return false; }
      more := true;
      if n == N9 || n == N0 || n == Dec {
        more := Numpart(n);
        if !more { return; }
      } else if n == Comma || n == G {
        if desc.fillmode || input[inputP] != ',' { return; }
      } else if n.Roman? {
        more := TakeRoman();
        return;
      } else if n == MI || n == PL || n == SG {
        TakeSignNode(n);
        return;
      } else {
        if n == L {
          EatNonData(1);
        } else if n.Th? {
          if !(desc.roman || desc.decimal) { EatNonData(2); }
        } else if n.Lit? {
          inputP := inputP + 1;
        }
        return;
      }
      inputP := inputP + 1;
    }

    method TakeSignNode(n: Node)
      requires !Over(View()) && IsSign(n)
      modifies this`inputP, this`out
      ensures View() == ScanNode(old(View()), n).0 && ScanNode(old(View()), n).1
    {
      hide NonDataEaten, SetSign;
      var c := input[inputP];
      if (c == '-' && n != PL) || (c == '+' && n != MI) {
        PutSign(c);
      } else {
        EatNonData(1);
        return;
      }
      inputP := inputP + 1;
    }

    method TakeRoman() returns (more: bool)
      requires !Over(View())
      modifies this`inputP, this`out, this`badRoman
      ensures (View(), more) == ScanNode(old(View()), Roman(false))
    {
      hide Numerals.Collected, Numerals.RomanText, Numerals.RomanIn, Numerals.UpperText, Digits;
      ghost var start, end;
      var v;
      v, start, end := Numerals.RomanToInt(input, inputP);
      if v.None? {
        badRoman := true;
        return false;
      }
      out := out + Digits(v.value.0);
      inputP := inputP + v.value.1;
      return true;
    }
  }

  lemma ScanDone(r: Reader)
    ensures ScanAll(r, []) == r
  {
  }

  lemma ScanStep(r: Reader, nodes: seq<Node>, k: nat)
    requires k < |nodes|
    ensures var (r1, more) := ScanNode(r, nodes[k]);
      ScanAll(r, nodes[k..]) == if more then ScanAll(r1, nodes[k + 1..]) else r1
  {
    hide ScanNode;
    assert nodes[k..][0] == nodes[k] && nodes[k..][1..] == nodes[k + 1..];
  }

  /** `parse_std_numeric`. */
  method ParseStdNumeric(s: string) returns (r: Result<Numeric, ReadError>)
    ensures r == ParseStd(s)
  {
    hide ParseMantissa, ParseI32, Trim;
    var t := Trim(s);
    if t == "" { return Err(EmptyInput); }
    var neg := t[0] == '-';
    var rest := if t[0] == '-' || t[0] == '+' then t[1..] else t;
    var e := FirstMark(rest);
    var mant, exp := rest, 0;
    if e < |rest| {
      var x := ParseI32(rest[e + 1..]);
      if x.None? { return Err(BadExponent); }
      mant, exp := rest[..e], x.value;
    }
    r := FinishMantissa(neg, mant, exp);
  }

  /** The number of the digits without leading zeros. */
  method ValueOf(all: string) returns (m: nat)
    requires AllDigits(all)
    ensures m == Value(all)
  {
    hide Value, Digits, TrimStartZeros;
    var digits := TrimStartZeros(all);
    CanonicalPart(all, digits);
    ValueDigits(Value(all));
    if digits == "" { digits := "0"; }
    m := Value(digits);
  }

  method FinishMantissa(neg: bool, mant: string, exp: int) returns (r: Result<Numeric, ReadError>)
    ensures r == ParseMantissa(neg, mant, exp)
  {
    hide Value, Digits, Normalized, TrimStartZeros, FirstDot;
    var k := FirstDot(mant);
    var intD := mant[..k];
    var fracD := if k < |mant| then mant[k + 1..] else "";
    if !AllDigits(intD) || !AllDigits(fracD) || (intD == "" && fracD == "") { return Err(Malformed); }
    var m := ValueOf(intD + fracD);
    if m > I128_MAX { return Err(OutOfRange); }
    var n := StripPlaces(Signed(neg, m), |fracD| - exp);
    return Ok(n);
  }

  /** The normalizing loop; a scale that is not positive is left alone, but for zero. */
  method StripPlaces(unscaled: int, places: int) returns (n: Numeric)
    ensures n == Normalized(unscaled, places)
  {
    var u, scale := unscaled, places;
    while scale > 0 && u != 0 && u % 10 == 0
      invariant Normalized(u, scale) == Normalized(unscaled, places)
      decreases if scale < 0 then 0 else scale
    {
      u := u / 10;
      scale := scale - 1;
    }
    n := if u == 0 then Numeric(0, 0) else Numeric(u, scale);
  }

  method ToNumber(text: string, fmt: Picture) returns (r: Result<Numeric, ReadError>)
    ensures r == ReadNumber(text, fmt)
  {
    hide ScanAll, ParseStd;
    if fmt.eeee { return Err(Unsupported); }
    var fc := new FromChar(fmt, text);
    fc.Run();
    if fc.badRoman { return Err(InvalidRoman); }
    var numstr := fc.out;
    if numstr != [] && numstr[|numstr| - 1] == '.' { numstr := numstr[..|numstr| - 1]; }
    if numstr != [] && numstr[0] == ' ' { numstr := numstr[1..]; }
    var n := ParseStdNumeric(numstr);
    if n.Err? { return Err(n.error); }
    if fmt.multi != 0 {
      var u := n.value.unscaled * Pow10(16);
      if !(-I128_MAX - 1 <= u <= I128_MAX) { return Err(OutOfRange); }
      return Ok(Numeric(u, n.value.scale + fmt.multi + 16));
    }
    return n;
  }
}

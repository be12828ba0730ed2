/** Roman numerals: the writer `int_to_roman` (src/numfmt_tochar.rs) and the acceptor
    `roman_to_int` (src/numfmt_fromchar.rs). */
module Roman {
  import opened Wrappers
  import opened Text

  // ----- writing -----

  function Hundreds(d: nat): string
    requires d < 10
  {
    ["", "C", "CC", "CCC", "CD", "D", "DC", "DCC", "DCCC", "CM"][d]
  }

  function Tens(d: nat): string
    requires d < 10
  {
    ["", "X", "XX", "XXX", "XL", "L", "LX", "LXX", "LXXX", "XC"][d]
  }

  function Ones(d: nat): string
    requires d < 10
  {
    ["", "I", "II", "III", "IV", "V", "VI", "VII", "VIII", "IX"][d]
  }

  function Thousands(d: nat): string
    requires d < 4
  {
    if d == 0 then "" else Thousands(d - 1) + "M"
  }

  /** The numeral of n; nothing for zero. */
  function RomanText(n: nat): string
    requires n < 4000
  {
    Thousands(n / 1000) + (Hundreds(n / 100 % 10) + (Tens(n / 10 % 10) + Ones(n % 10)))
  }

  method IntToRoman(number: int) returns (out: string)
    ensures out == if 1 <= number <= 3999 then RomanText(number) else seq(15, _ => '#')
  {
    if !(1 <= number <= 3999) { return seq(15, _ => '#'); }
    out := "";
    for k := 0 to number / 1000
      invariant out == Thousands(k)
    {
      out := out + "M";
    }
    out := out + Hundreds(number / 100 % 10);
    out := out + Tens(number / 10 % 10);
    out := out + Ones(number % 10);
    Reassociate(Thousands(number / 1000), Hundreds(number / 100 % 10), Tens(number / 10 % 10), Ones(number % 10));
  }

  lemma Reassociate(a: string, b: string, c: string, d: string)
    ensures a + b + c + d == a + (b + (c + d))
  {
  }

  // ----- accepting -----

  predicate IsNumeral(c: char) {
    c == 'I' || c == 'V' || c == 'X' || c == 'L' || c == 'C' || c == 'D' || c == 'M'
  }

  predicate Numerals(t: string) {
    forall i :: 0 <= i < |t| ==> IsNumeral(t[i])
  }

  function Val(c: char): nat
    requires IsNumeral(c)
  {
    if c == 'I' then 1 else if c == 'V' then 5 else if c == 'X' then 10 else if c == 'L' then 50
    else if c == 'C' then 100 else if c == 'D' then 500 else 1000
  }

  predicate ValidPair(a: char, b: char) {
    (a == 'I' && (b == 'V' || b == 'X')) || (a == 'X' && (b == 'L' || b == 'C')) || (a == 'C' && (b == 'D' || b == 'M'))
  }

  /** The counters of the acceptor's loop. */
  datatype Tally = Tally(repeat: nat, v: nat, l: nat, d: nat, sub: bool, last: nat)

  const FRESH := Tally(1, 0, 0, 0, false, 0)

  /** A numeral of value x after a V, L or D it may not follow. */
  predicate Blocked(s: Tally, x: nat) {
    (s.v > 0 && x >= 5) || (s.l > 0 && x >= 50) || (s.d > 0 && x >= 500)
  }

  function Counted(s: Tally, c: char): Tally {
    if c == 'V' then s.(v := s.v + 1) else if c == 'L' then s.(l := s.l + 1)
    else if c == 'D' then s.(d := s.d + 1) else s
  }

  function Plus(n: nat, r: Option<nat>): Option<nat> {
    if r.None? then None else Some(n + r.value)
  }

  /** The value the loop adds for the numerals `t` that are left, or None when it rejects. */
  function Judge(s: Tally, t: string): Option<nat>
    requires Numerals(t)
    decreases |t|
  {
    if t == [] then Some(0)
    else
      var c, x := t[0], Val(t[0]);
      var s1 := Counted(s, c);
      if (s.sub && x >= s.last) || Blocked(s, x) then None
      else if |t| == 1 then Some(x)
      else
        var y := Val(t[1]);
        if x < y then
          if !ValidPair(c, t[1]) || s1.repeat > 1 || Blocked(s1, y) then None
          else Plus(y - x, Judge(Counted(s1, t[1]).(repeat := 1, sub := true, last := x), t[2..]))
        else if c == t[1] && s1.repeat + 1 > 3 then None
        else Plus(x, Judge(s1.(repeat := if c == t[1] then s1.repeat + 1 else 1), t[1..]))
  }

  function Upper(c: char): char {
    if 'a' <= c <= 'z' then c - 'a' + 'A' else c
  }

  function UpperText(s: string): (r: string)
    ensures |r| == |s| && forall i :: 0 <= i < |s| ==> r[i] == Upper(s[i])
  {
    seq(|s|, i requires 0 <= i < |s| => Upper(s[i]))
  }

  function SkipSpaces(input: string, p: nat): (q: nat)
    requires p <= |input|
    ensures p <= q <= |input|
    decreases |input| - p
  {
    if p < |input| && IsSpace(input[p]) then SkipSpaces(input, p + 1) else p
  }

  function TakeNumerals(input: string, p: nat, left: nat): (q: nat)
    requires p <= |input|
    ensures p <= q <= |input| && forall i :: p <= i < q ==> IsNumeral(Upper(input[i]))
    decreases left
  {
    if left > 0 && p < |input| && IsNumeral(Upper(input[p])) then TakeNumerals(input, p + 1, left - 1) else p
  }

  /** What `roman_to_int` returns. */
  function RomanIn(input: string, pos: nat): (r: Option<(nat, nat)>)
    requires pos <= |input|
    ensures r.Some? ==> pos + r.value.1 <= |input|
  {
    var start := SkipSpaces(input, pos);
    var end := TakeNumerals(input, start, 15);
    var t := UpperText(input[start..end]);
    if t == "" || Judge(FRESH, t).None? then None else Some((Judge(FRESH, t).value, end - pos))
  }

  /** The numerals of input[start..end], the longest run of at most 15 after the white space. */
  ghost predicate Collected(input: string, pos: nat, start: nat, end: nat) {
    && pos <= start <= end <= |input| && end - start <= 15
    && (forall i :: pos <= i < start ==> IsSpace(input[i]))
    && (start < |input| ==> !IsSpace(input[start]))
    && (forall i :: start <= i < end ==> IsNumeral(Upper(input[i])))
    && (end < |input| && end - start < 15 ==> !IsNumeral(Upper(input[end])))
  }

  /** `roman_to_int`: white space, then at most 15 numerals of either case. It accepts exactly
      the canonical numerals, and returns their value and the length consumed. */
  method RomanToInt(input: string, pos: nat) returns (r: Option<(nat, nat)>, ghost start: nat, ghost end: nat)
    requires pos <= |input|
    ensures r == RomanIn(input, pos)
    ensures Collected(input, pos, start, end)
    ensures r.Some? ==> pos + r.value.1 == end
    ensures r.Some? ==> 1 <= r.value.0 <= 3999 && UpperText(input[start..end]) == RomanText(r.value.0)
    ensures r.None? ==> forall v | 1 <= v <= 3999 :: UpperText(input[start..end]) != RomanText(v)
  {
    hide RomanText;
    var t: string, p: nat;
    t, p, start := Collect(input, pos);
    end := p;
    if t == [] {
      forall v | 1 <= v <= 3999 ensures RomanText(v) != [] { RomanNonempty(v); }
      return None, start, end;
    }
    var v := Decode(t);
    if v.None? {
      forall v | 1 <= v <= 3999 ensures RomanText(v) != t {
        if RomanText(v) == t { Complete(FRESH, Start, t, v); }
      }
      return None, start, end;
    }
    Sound(FRESH, Start, t);
    return Some((v.value, p - pos)), start, end;
  }

  /** The first two loops: skip white space, take at most 15 numerals. */
  method Collect(input: string, pos: nat) returns (t: string, p: nat, ghost start: nat)
    requires pos <= |input|
    ensures start == SkipSpaces(input, pos) && p == TakeNumerals(input, start, 15)
    ensures Collected(input, pos, start, p) && t == UpperText(input[start..p]) && Numerals(t)
  {
    hide IsSpace, IsNumeral;
    var begin := SkipWhite(input, pos);
    start := begin;
    t, p := TakeRun(input, begin);
    assert t == UpperText(input[start..p]);
  }

  method SkipWhite(input: string, pos: nat) returns (p: nat)
    requires pos <= |input|
    ensures p == SkipSpaces(input, pos)
    ensures (forall i :: pos <= i < p ==> IsSpace(input[i])) && (p < |input| ==> !IsSpace(input[p]))
  {
    hide IsSpace;
    p := pos;
    while p < |input| && IsSpace(input[p])
      invariant pos <= p <= |input|
      invariant forall i :: pos <= i < p ==> IsSpace(input[i])
      invariant SkipSpaces(input, pos) == SkipSpaces(input, p)
    {
      p := p + 1;
    }
  }

  method TakeRun(input: string, start: nat) returns (t: string, p: nat)
    requires start <= |input|
    ensures p == TakeNumerals(input, start, 15) && |t| == p - start <= 15
    ensures forall i :: start <= i < p ==> IsNumeral(Upper(input[i])) && t[i - start] == Upper(input[i])
    ensures p < |input| && p - start < 15 ==> !IsNumeral(Upper(input[p]))
  {
    hide IsNumeral, Upper, TakeNumerals;
    t, p := "", start;
    while |t| < 15 && p < |input|
      invariant start <= p <= |input| && |t| == p - start <= 15
      invariant forall i :: start <= i < p ==> IsNumeral(Upper(input[i])) && t[i - start] == Upper(input[i])
      invariant TakeNumerals(input, start, 15) == TakeNumerals(input, p, 15 - |t|)
      decreases |input| - p
    {
      TakeStep(input, p, 15 - |t|);
      if !IsNumeral(Upper(input[p])) { break; }
      t := t + [Upper(input[p])];
      p := p + 1;
    }
    TakeStep(input, p, 15 - |t|);
  }

  lemma TakeStep(input: string, p: nat, left: nat)
    requires p <= |input|
    ensures TakeNumerals(input, p, left) ==
      if left > 0 && p < |input| && IsNumeral(Upper(input[p])) then TakeNumerals(input, p + 1, left - 1) else p
  {
  }

  /** The checking loop. */
  method Decode(t: string) returns (r: Option<nat>)
    requires Numerals(t) && t != []
    ensures r == Judge(FRESH, t)
  {
    hide Judge;
    var result: nat := 0;
    var repeat: nat, v: nat, l: nat, d: nat := 1, 0, 0, 0;
    var sub := false;
    var last: nat := 0;
    var n := |t|;
    var i := 0;
    assert t[0..] == t;
    while i < n
      invariant 0 <= i <= n
      invariant Judge(FRESH, t) == Plus(result, Judge(Tally(repeat, v, l, d, sub, last), t[i..]))
    {
      ghost var s := Tally(repeat, v, l, d, sub, last);
      JudgeStep(s, t, i);
      var c, x := t[i], Val(t[i]);
      if sub && x >= last { return None; }
      if (v > 0 && x >= 5) || (l > 0 && x >= 50) || (d > 0 && x >= 500) { return None; }
      if c == 'V' { v := v + 1; } else if c == 'L' { l := l + 1; } else if c == 'D' { d := d + 1; }
      if i < n - 1 {
        var c1, y := t[i + 1], Val(t[i + 1]);
        if x < y {
          if !ValidPair(c, c1) { return None; }
          if repeat > 1 { return None; }
          if (v > 0 && y >= 5) || (l > 0 && y >= 50) || (d > 0 && y >= 500) { return None; }
          if c1 == 'V' { v := v + 1; } else if c1 == 'L' { l := l + 1; } else if c1 == 'D' { d := d + 1; }
          i := i + 1;
          repeat := 1;
          sub := true;
          last := x;
          result := result + (y - x);
        } else {
          if c == c1 {
            repeat := repeat + 1;
            if repeat > 3 { return None; }
          } else {
            repeat := 1;
          }
          result := result + x;
        }
      } else {
        result := result + x;
        JudgeEnd(Tally(repeat, v, l, d, sub, last));
        assert t[i + 1..] == [];
      }
      i := i + 1;
    }
    assert t[i..] == [];
    JudgeEnd(Tally(repeat, v, l, d, sub, last));
    return Some(result);
  }

  lemma JudgeEnd(s: Tally)
    ensures Judge(s, []) == Some(0)
  {
  }

  /** One turn of the loop, as Judge sees it. */
  lemma JudgeStep(s: Tally, t: string, i: nat)
    requires Numerals(t) && i < |t|
    ensures var c, x, s1 := t[i], Val(t[i]), Counted(s, t[i]);
      Judge(s, t[i..]) ==
        if (s.sub && x >= s.last) || Blocked(s, x) then None
        else if i == |t| - 1 then Some(x)
        else
          var y := Val(t[i + 1]);
          if x < y then
            if !ValidPair(c, t[i + 1]) || s1.repeat > 1 || Blocked(s1, y) then None
            else Plus(y - x, Judge(Counted(s1, t[i + 1]).(repeat := 1, sub := true, last := x), t[i + 2..]))
          else if c == t[i + 1] && s1.repeat + 1 > 3 then None
          else Plus(x, Judge(s1.(repeat := if c == t[i + 1] then s1.repeat + 1 else 1), t[i + 1..]))
  {
    var rest := t[i..];
    assert rest[1..] == t[i + 1..];
    if i + 1 < |t| { assert rest[2..] == t[i + 2..]; }
  }

  // ----- canonical numerals, token by token -----

  predicate IsUnit(u: nat) {
    u == 1 || u == 10 || u == 100 || u == 1000
  }

  function UnitOf(v: nat): (u: nat)
    requires 1 <= v < 4000
    ensures IsUnit(u) && u <= v < 10 * u
  {
    if v >= 1000 then 1000 else if v >= 100 then 100 else if v >= 10 then 10 else 1
  }

  function Sym(x: nat): char
    requires x in {1, 5, 10, 50, 100, 500, 1000}
  {
    if x == 1 then 'I' else if x == 5 then 'V' else if x == 10 then 'X' else if x == 50 then 'L'
    else if x == 100 then 'C' else if x == 500 then 'D' else 'M'
  }

  /** What a numeral starts with: a pair, a five or a unit. */
  function Token(v: nat): (r: (string, nat))
    requires 1 <= v < 4000
    ensures 1 <= r.1 <= v && r.0 != []
  {
    var u := UnitOf(v);
    if u == 1000 then ("M", 1000)
    else if v >= 9 * u then ([Sym(u), Sym(10 * u)], 9 * u)
    else if v >= 5 * u then ([Sym(5 * u)], 5 * u)
    else if v >= 4 * u then ([Sym(u), Sym(5 * u)], 4 * u)
    else ([Sym(u)], u)
  }

  /** What the first token takes off a digit. */
  function Taken(d: nat): (k: nat)
    requires d >= 1
    ensures 1 <= k <= d
  {
    if d >= 9 then 9 else if d >= 5 then 5 else if d >= 4 then 4 else 1
  }

  /** The first token of a numeral depends on its first digit only. */
  lemma TokenDigit(v: nat, u: nat)
    requires 1 <= v < 1000 && u == UnitOf(v)
    ensures var d := v / u; 1 <= d <= 9 && Token(v) == Token(d * u)
    ensures var d := v / u; Token(v).1 == u * Taken(d)
  {
  }

  lemma HundredsRow(d: nat)
    requires 1 <= d <= 9
    ensures Hundreds(d) == Token(100 * d).0 + Hundreds(d - Taken(d))
  {
  }

  lemma TensRow(d: nat)
    requires 1 <= d <= 9
    ensures Tens(d) == Token(10 * d).0 + Tens(d - Taken(d))
  {
  }

  lemma TextOf(a: nat, b: nat, c: nat, d: nat)
    requires a < 4 && b < 10 && c < 10 && d < 10
    ensures RomanText(1000 * a + 100 * b + 10 * c + d) == Thousands(a) + (Hundreds(b) + (Tens(c) + Ones(d)))
  {
    hide Hundreds, Tens, Ones, Thousands;
    var v := 1000 * a + 100 * b + 10 * c + d;
    Quotients(a, b, c, d);
    assert v / 1000 == a && v / 100 % 10 == b && v / 10 % 10 == c && v % 10 == d;
  }

  lemma Quotients(a: nat, b: nat, c: nat, d: nat)
    requires a < 4 && b < 10 && c < 10 && d < 10
    ensures var v := 1000 * a + 100 * b + 10 * c + d;
      v / 1000 == a && v / 100 == 10 * a + b && v / 10 == 10 * (10 * a + b) + c && v % 10 == d
    ensures (10 * a + b) % 10 == b && (10 * (10 * a + b) + c) % 10 == c
  {
  }

  lemma Decomposed(v: nat)
    ensures v == 1000 * (v / 1000) + 100 * (v / 100 % 10) + 10 * (v / 10 % 10) + v % 10
    ensures v < 1000 ==> v == 100 * (v / 100) + 10 * (v / 10 % 10) + v % 10 && v / 100 < 10
  {
    var a, b := v / 10, v / 100;
    assert a / 10 == b && b / 10 == v / 1000;
  }

  lemma NoThousands()
    ensures Thousands(0) == "" && Hundreds(0) == ""
  {
  }

  lemma Prefixed(a: string, b: string, c: string)
    ensures a + b + c == a + (b + c)
    ensures "" + c == c
  {
  }

  lemma RomanThousands(v: nat)
    requires 1000 <= v < 4000
    ensures RomanText(v) == "M" + RomanText(v - 1000)
  {
    hide RomanText, Hundreds, Tens, Ones, Thousands;
    var a, b, c, d := v / 1000, v / 100 % 10, v / 10 % 10, v % 10;
    Decomposed(v);
    TextOf(a, b, c, d);
    TextOf(a - 1, b, c, d);
    ThousandsRow(a);
    Prefixed("M", Thousands(a - 1), Hundreds(b) + (Tens(c) + Ones(d)));
  }

  lemma ThousandsRow(d: nat)
    requires 1 <= d <= 3
    ensures Thousands(d) == "M" + Thousands(d - 1)
  {
    if d > 1 {
      ThousandsRow(d - 1);
    } else {
      assert Thousands(0) == "";
    }
  }

  lemma RomanHundreds(v: nat)
    requires 100 <= v < 1000
    ensures var (a, w) := Token(v); RomanText(v) == a + RomanText(v - w)
  {
    hide RomanText, Token, Hundreds, Tens, Ones, Thousands;
    var b, c, d := v / 100, v / 10 % 10, v % 10;
    Decomposed(v);
    NoThousands();
    var k := Taken(b);
    TokenDigit(v, 100);
    HundredsRow(b);
    TextOf(0, b, c, d);
    TextOf(0, b - k, c, d);
    Prefixed("", "", Hundreds(b) + (Tens(c) + Ones(d)));
    Prefixed("", "", Hundreds(b - k) + (Tens(c) + Ones(d)));
    Prefixed(Token(v).0, Hundreds(b - k), Tens(c) + Ones(d));
  }

  lemma TextBelowHundred(c: nat, d: nat)
    requires c < 10 && d < 10
    ensures RomanText(10 * c + d) == Tens(c) + Ones(d)
  {
    hide RomanText, Tens, Ones;
    NoThousands();
    TextOf(0, 0, c, d);
    Prefixed("", "", Tens(c) + Ones(d));
  }

  lemma RomanTens(v: nat)
    requires 10 <= v < 100
    ensures var (a, w) := Token(v); RomanText(v) == a + RomanText(v - w)
  {
    hide RomanText, Token, Hundreds, Tens, Ones, Thousands;
    var c, d := v / 10, v % 10;
    var k := Taken(c);
    TokenDigit(v, 10);
    TensRow(c);
    TextBelowHundred(c, d);
    TextBelowHundred(c - k, d);
    Prefixed(Token(v).0, Tens(c - k), Ones(d));
  }

  lemma RomanOnes(v: nat)
    requires 1 <= v < 10
    ensures var (a, w) := Token(v); RomanText(v) == a + RomanText(v - w)
  {
    hide RomanText;
    var (a, w) := Token(v);
    TextBelowHundred(0, v);
    TextBelowHundred(0, v - w);
    assert "" + Ones(v) == Ones(v) && "" + Ones(v - w) == Ones(v - w);
    assert Ones(v) == a + Ones(v - w);
  }

  lemma RomanSplit(v: nat)
    requires 1 <= v < 4000
    ensures var (a, w) := Token(v); RomanText(v) == a + RomanText(v - w)
  {
    hide RomanText;
    if v >= 1000 { RomanThousands(v); }
    else if v >= 100 { RomanHundreds(v); }
    else if v >= 10 { RomanTens(v); }
    else { RomanOnes(v); }
  }

  lemma RomanNonempty(v: nat)
    requires 1 <= v < 4000
    ensures RomanText(v) != [] && IsNumeral(RomanText(v)[0]) && Val(RomanText(v)[0]) <= v
    ensures RomanText(v)[0] == Token(v).0[0]
  {
    hide RomanText;
    RomanSplit(v);
  }

  lemma RomanZero()
    ensures RomanText(0) == []
  {
  }

  // ----- the acceptor takes exactly the canonical numerals -----

  /** The token the acceptor has just passed: a run of j equal units, a five, a pair. */
  datatype Last = Start | Run(unit: nat, j: nat) | Five(unit: nat) | Pair(unit: nat)

  predicate Proper(a: Last) {
    && (a.Run? ==> IsUnit(a.unit) && 1 <= a.j <= 3)
    && (a.Five? || a.Pair? ==> IsUnit(a.unit) && a.unit < 1000)
  }

  /** What may still follow is a canonical numeral below this. */
  function Bound(a: Last): (b: nat)
    requires Proper(a)
    ensures b <= 4000
  {
    match a
    case Start => 4000
    case Run(u, j) => (4 - j) * u
    case Five(u) => 4 * u
    case Pair(u) => u
  }

  /** The counters agree with the last token and the numeral `x` that follows it (0 at the end). */
  predicate Agree(s: Tally, a: Last, x: nat) {
    && Proper(a) && 1 <= s.repeat <= 3
    && (a.Start? ==> s.v == s.l == s.d == 0 && !s.sub && s.repeat == 1)
    && (!a.Start? ==>
          && (s.v > 0 ==> a.unit <= 1) && (s.l > 0 ==> a.unit <= 10) && (s.d > 0 ==> a.unit <= 100))
    && (a.Run? ==> x <= a.unit && s.repeat == (if x == a.unit then a.j + 1 else 1) && (s.sub ==> s.last > a.unit))
    && (a.Five? ==>
          && x <= 5 * a.unit && (s.sub ==> s.last > 5 * a.unit) && (x != 5 * a.unit ==> s.repeat == 1)
          && (a.unit == 1 ==> s.v > 0) && (a.unit == 10 ==> s.l > 0) && (a.unit == 100 ==> s.d > 0))
    && (a.Pair? ==> s.sub && s.last == a.unit && s.repeat == 1)
  }

  function Head(t: string): nat
    requires Numerals(t)
  {
    if t == [] then 0 else Val(t[0])
  }

  /** A single numeral passes: what is agreed on after it. */
  function After(a: Last, x: nat): Last {
    if x == 5 then Five(1) else if x == 50 then Five(10) else if x == 500 then Five(100)
    else if a.Run? && a.unit == x then Run(x, a.j + 1) else Run(x, 1)
  }

  lemma SinglePasses(s: Tally, a: Last, c: char, y: nat)
    requires IsNumeral(c) && Agree(s, a, Val(c)) && y <= Val(c)
    requires !(s.sub && Val(c) >= s.last) && !Blocked(s, Val(c))
    requires !(y == Val(c) && s.repeat + 1 > 3)
    ensures Agree(Counted(s, c).(repeat := if y == Val(c) then s.repeat + 1 else 1), After(a, Val(c)), y)
    ensures Proper(After(a, Val(c))) && Val(c) + Bound(After(a, Val(c))) <= Bound(a)
  {
  }

  lemma PairPasses(s: Tally, a: Last, c: char, d: char, y: nat)
    requires IsNumeral(c) && IsNumeral(d) && Agree(s, a, Val(c)) && ValidPair(c, d)
    requires !(s.sub && Val(c) >= s.last) && !Blocked(s, Val(c)) && s.repeat == 1 && !Blocked(Counted(s, c), Val(d))
    ensures Agree(Counted(Counted(s, c), d).(repeat := 1, sub := true, last := Val(c)), Pair(Val(c)), y)
    ensures Proper(Pair(Val(c))) && Bound(Pair(Val(c))) == Val(c)
    ensures Val(d) - Val(c) + Val(c) <= Bound(a)
  {
  }

  lemma AfterToken(a: Last, x: nat, r: nat)
    requires x in {1, 5, 10, 50, 100, 500, 1000} && Proper(After(a, x)) && r < Bound(After(a, x))
    ensures x + r < 4000 && Token(x + r) == ([Sym(x)], x)
  {
  }

  lemma PairToken(c: char, d: char, r: nat)
    requires ValidPair(c, d) && IsNumeral(c) && IsNumeral(d) && r < Val(c)
    ensures Val(d) - Val(c) + r < 4000 && Token(Val(d) - Val(c) + r) == ([c, d], Val(d) - Val(c))
  {
  }

  lemma AgreeFacts(s: Tally, a: Last, x: nat)
    requires Agree(s, a, x)
    ensures Proper(a) && 1 <= s.repeat <= 3 && Bound(a) > 0
  {
  }

  lemma SameVal(c: char, d: char)
    requires IsNumeral(c) && IsNumeral(d)
    ensures c == d <==> Val(c) == Val(d)
    ensures Sym(Val(c)) == c
  {
  }

  /** Whatever the acceptor takes is the canonical numeral of the value it returns. */
  lemma {:induction false} Sound(s: Tally, a: Last, t: string)
    requires Numerals(t) && Agree(s, a, Head(t)) && Judge(s, t).Some?
    ensures Judge(s, t).value < Bound(a) && t == RomanText(Judge(s, t).value)
    ensures t != [] ==> Judge(s, t).value > 0
    decreases |t|
  {
    hide RomanText, Agree, Bound, After, Token;
    AgreeFacts(s, a, Head(t));
    if t == [] {
      RomanZero();
    } else if |t| > 1 && Val(t[0]) < Val(t[1]) {
      SoundPair(s, a, t);
    } else {
      SoundSingle(s, a, t);
    }
  }

  lemma {:induction false} SoundPair(s: Tally, a: Last, t: string)
    requires Numerals(t) && Agree(s, a, Head(t)) && Judge(s, t).Some? && |t| > 1 && Val(t[0]) < Val(t[1])
    ensures 0 < Judge(s, t).value < Bound(a) && t == RomanText(Judge(s, t).value)
    decreases |t|, 0
  {
    hide RomanText, Agree, Bound, After, Token;
    AgreeFacts(s, a, Head(t));
    var c, x := t[0], Val(t[0]);
    var s2 := Counted(Counted(s, c), t[1]).(repeat := 1, sub := true, last := x);
    PairPasses(s, a, c, t[1], Head(t[2..]));
    Sound(s2, Pair(x), t[2..]);
    var r := Judge(s2, t[2..]).value;
    PairToken(c, t[1], r);
    RomanSplit(Val(t[1]) - x + r);
    assert t == [c, t[1]] + t[2..];
  }

  lemma {:induction false} SoundSingle(s: Tally, a: Last, t: string)
    requires Numerals(t) && t != [] && Agree(s, a, Head(t)) && Judge(s, t).Some?
    requires |t| == 1 || Val(t[0]) >= Val(t[1])
    ensures 0 < Judge(s, t).value < Bound(a) && t == RomanText(Judge(s, t).value)
    decreases |t|, 0
  {
    hide RomanText, Agree, Bound, After, Token;
    AgreeFacts(s, a, Head(t));
    var c, x, y := t[0], Val(t[0]), Head(t[1..]);
    var s2 := Counted(s, c).(repeat := if y == x then s.repeat + 1 else 1);
    SameVal(c, c);
    if |t| > 1 { SameVal(c, t[1]); }
    SinglePasses(s, a, c, y);
    Sound(s2, After(a, x), t[1..]);
    var r := Judge(s2, t[1..]).value;
    AfterToken(a, x, r);
    RomanSplit(x + r);
    assert t == [c] + t[1..];
  }

  /** The first token of a numeral below the bound passes. */
  lemma TokenFits(s: Tally, a: Last, v: nat)
    requires 1 <= v < 4000 && Proper(a) && v < Bound(a)
    requires Agree(s, a, Val(Token(v).0[0]))
    ensures var x := Val(Token(v).0[0]);
      && !(s.sub && x >= s.last) && !Blocked(s, x)
      && (|Token(v).0| == 2 ==>
            && s.repeat == 1 && !Blocked(Counted(s, Token(v).0[0]), Val(Token(v).0[1])))
  {
  }

  lemma TokenShape(v: nat)
    requires 1 <= v < 4000
    ensures var (tok, w) := Token(v);
      && 1 <= |tok| <= 2 && Numerals(tok)
      && (|tok| == 2 ==>
            && ValidPair(tok[0], tok[1]) && w == Val(tok[1]) - Val(tok[0]) && Val(tok[0]) < Val(tok[1])
            && v - w < Val(tok[0]))
      && (|tok| == 1 ==> w == Val(tok[0]))
  {
  }

  /** After a single numeral comes no larger one, and no fourth of a kind. */
  lemma NextFits(s: Tally, a: Last, v: nat)
    requires 1 <= v < 4000 && Proper(a) && v < Bound(a) && |Token(v).0| == 1
    requires Agree(s, a, Val(Token(v).0[0]))
    ensures var (tok, w) := Token(v); var x := Val(tok[0]);
      && (Proper(After(a, x)) ==> v - w < Bound(After(a, x)))
      && (v > w ==>
            var y := Val(Token(v - w).0[0]);
            && y <= x && (y == x ==> s.repeat + 1 <= 3))
  {
  }

  /** Every canonical numeral below the bound is taken, with its value. */
  lemma {:induction false} Complete(s: Tally, a: Last, t: string, v: nat)
    requires Numerals(t) && v < 4000 && t == RomanText(v) && Agree(s, a, Head(t)) && v < Bound(a)
    ensures Judge(s, t) == Some(v)
    decreases |t|
  {
    hide RomanText, Agree, Bound, After, Token;
    AgreeFacts(s, a, Head(t));
    if v == 0 {
      RomanZero();
    } else {
      RomanNonempty(v);
      RomanSplit(v);
      TokenShape(v);
      TokenFits(s, a, v);
      if |Token(v).0| == 2 {
        CompletePair(s, a, t, v);
      } else {
        CompleteSingle(s, a, t, v);
      }
    }
  }

  lemma {:induction false} CompletePair(s: Tally, a: Last, t: string, v: nat)
    requires Numerals(t) && 1 <= v < 4000 && t == RomanText(v) && Agree(s, a, Head(t)) && v < Bound(a)
    requires |Token(v).0| == 2
    ensures Judge(s, t) == Some(v)
    decreases |t|, 0
  {
    hide RomanText, Agree, Bound, After, Token;
    AgreeFacts(s, a, Head(t));
    RomanNonempty(v);
    RomanSplit(v);
    TokenShape(v);
    TokenFits(s, a, v);
    var (tok, w) := Token(v);
    var c, d, rest := tok[0], tok[1], t[2..];
    assert rest == RomanText(v - w);
    var s2 := Counted(Counted(s, c), d).(repeat := 1, sub := true, last := Val(c));
    PairPasses(s, a, c, d, Head(rest));
    Complete(s2, Pair(Val(c)), rest, v - w);
  }

  lemma {:induction false} CompleteSingle(s: Tally, a: Last, t: string, v: nat)
    requires Numerals(t) && 1 <= v < 4000 && t == RomanText(v) && Agree(s, a, Head(t)) && v < Bound(a)
    requires |Token(v).0| == 1
    ensures Judge(s, t) == Some(v)
    decreases |t|, 0
  {
    hide RomanText, Agree, Bound, After, Token;
    AgreeFacts(s, a, Head(t));
    RomanNonempty(v);
    RomanSplit(v);
    TokenShape(v);
    TokenFits(s, a, v);
    NextFits(s, a, v);
    var (tok, w) := Token(v);
    var c, x, rest := tok[0], Val(tok[0]), t[1..];
    assert rest == RomanText(v - w);
    if v == w { RomanZero(); } else { RomanNonempty(v - w); }
    var y := Head(rest);
    var s2 := Counted(s, c).(repeat := if y == x then s.repeat + 1 else 1);
    if |t| > 1 { SameVal(c, t[1]); }
    SinglePasses(s, a, c, y);
    Complete(s2, After(a, x), rest, v - w);
  }

  /** The acceptor's loop is the inverse of the writer. */
  lemma AcceptsExactly(t: string, v: nat)
    requires Numerals(t) && t != []
    ensures Judge(FRESH, t) == Some(v) <==> 1 <= v <= 3999 && t == RomanText(v)
  {
    hide RomanText;
    if Judge(FRESH, t).Some? { Sound(FRESH, Start, t); }
    if 1 <= v <= 3999 && t == RomanText(v) { Complete(FRESH, Start, t, v); }
  }

  lemma NumeralLength(v: nat)
    requires v < 4000
    ensures |RomanText(v)| <= 15
  {
    RowLengths(v / 1000, v / 100 % 10, v / 10 % 10, v % 10);
  }

  lemma RowLengths(a: nat, b: nat, c: nat, d: nat)
    requires a < 4 && b < 10 && c < 10 && d < 10
    ensures |Thousands(a)| == a && |Hundreds(b)| <= 4 && |Tens(c)| <= 4 && |Ones(d)| <= 4
  {
    if a > 0 { RowLengths(a - 1, b, c, d); }
  }

  /** A text of white space and a numeral of either case is collected whole, so accepted. */
  lemma CollectsWhole(input: string, pos: nat, start: nat, end: nat, k: nat, v: nat)
    requires Collected(input, pos, start, end)
    requires pos <= k < |input| && (forall i :: pos <= i < k ==> IsSpace(input[i]))
    requires v < 4000 && UpperText(input[k..]) == RomanText(v) && Numerals(RomanText(v))
    ensures start == k && end == |input|
  {
    hide RomanText;
    NumeralLength(v);
    var t := UpperText(input[k..]);
    assert forall i :: k <= i < |input| ==> t[i - k] == Upper(input[i]);
    assert forall i :: k <= i < |input| ==> input[k..][i - k] == input[i];
    assert forall i :: k <= i < |input| ==> IsNumeral(t[i - k]) && IsNumeral(Upper(input[i])) && !IsSpace(input[i]);
    assert start == k by { assert !IsSpace(input[k]); }
  }
}

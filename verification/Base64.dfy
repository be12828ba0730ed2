/** Standard base64 (section 4 of RFC 4648; src/crypto.rs). */
module Base64 {
  import opened ByteStrings
  import opened Wrappers

  const PAD := '='

  /** B64[v]. */
  function Symbol(v: nat): char
    requires v < 64
  {
    if v < 26 then 'A' + v as char
    else if v < 52 then 'a' + (v - 26) as char
    else if v < 62 then '0' + (v - 52) as char
    else if v == 62 then '+' else '/'
  }

  function SymbolValue(c: char): (r: Option<nat>)
    ensures r.Some? ==> r.value < 64
  {
    if 'A' <= c <= 'Z' then Some(c as int - 'A' as int)
    else if 'a' <= c <= 'z' then Some(c as int - 'a' as int + 26)
    else if '0' <= c <= '9' then Some(c as int - '0' as int + 52)
    else if c == '+' then Some(62)
    else if c == '/' then Some(63)
    else None
  }

  lemma SymbolBack(v: nat)
    requires v < 64
    ensures SymbolValue(Symbol(v)) == Some(v) && Symbol(v) != PAD && Symbol(v) != ','
  {
  }

  lemma SymbolForth(c: char)
    requires SymbolValue(c).Some?
    ensures Symbol(SymbolValue(c).value) == c && c != PAD && c != ','
  {
  }

  // ----- groups -----

  /** The three bytes of a chunk in one number, missing ones zero. */
  function Pack(chunk: bytes): (n: nat)
    requires 1 <= |chunk| <= 3
    ensures n < 0x100_0000
  {
    chunk[0] as int * 65536 + (if |chunk| > 1 then chunk[1] as int * 256 else 0) + (if |chunk| > 2 then chunk[2] as int else 0)
  }

  /** (n >> (18 - 6 * i)) & 63. */
  function Sextet(n: nat, i: nat): (v: nat)
    requires i < 4
    ensures v < 64
  {
    (if i == 0 then n / 262144 else if i == 1 then n / 4096 else if i == 2 then n / 64 else n) % 64
  }

  function EncodeGroup(chunk: bytes): (t: string)
    requires 1 <= |chunk| <= 3
    ensures |t| == 4
  {
    var n := Pack(chunk);
    [Symbol(Sextet(n, 0)), Symbol(Sextet(n, 1)),
     if |chunk| > 1 then Symbol(Sextet(n, 2)) else PAD,
     if |chunk| > 2 then Symbol(Sextet(n, 3)) else PAD]
  }

  function Encode(data: bytes): string
    decreases |data|
  {
    if data == [] then ""
    else if |data| <= 3 then EncodeGroup(data)
    else EncodeGroup(data[..3]) + Encode(data[3..])
  }

  /** Each character of a group stands for six of the 24 bits, from the highest; missing bytes
      leave zero bits in the last character, and pads. */
  lemma GroupBits(a: byte, b: byte, c: byte)
    ensures EncodeGroup([a, b, c]) ==
      [Symbol(a as nat / 4), Symbol(a as nat % 4 * 16 + b as nat / 16),
       Symbol(b as nat % 16 * 4 + c as nat / 64), Symbol(c as nat % 64)]
    ensures EncodeGroup([a, b]) ==
      [Symbol(a as nat / 4), Symbol(a as nat % 4 * 16 + b as nat / 16), Symbol(b as nat % 16 * 4), '=']
    ensures EncodeGroup([a]) == [Symbol(a as nat / 4), Symbol(a as nat % 4 * 16), '=', '=']
    ensures [Symbol(0), Symbol(25), Symbol(26), Symbol(51), Symbol(52), Symbol(61), Symbol(62), Symbol(63)] == "AZaz09+/"
  {
    hide Symbol, Sextet;
    BitsOf(a as nat, b as nat, c as nat);
    BitsOf(a as nat, b as nat, 0);
    BitsOf(a as nat, 0, 0);
    Corners();
  }

  lemma BitsOf(a: nat, b: nat, c: nat)
    requires a < 256 && b < 256 && c < 256
    ensures var n := a * 65536 + b * 256 + c;
      && Sextet(n, 0) == a / 4 && Sextet(n, 1) == a % 4 * 16 + b / 16
      && Sextet(n, 2) == b % 16 * 4 + c / 64 && Sextet(n, 3) == c % 64
  {
    hide Sextet;
    var s0, s1, s2, s3 := a / 4, a % 4 * 16 + b / 16, b % 16 * 4 + c / 64, c % 64;
    assert a == 4 * s0 + a % 4 && b == 16 * (b / 16) + b % 16 && c == 64 * (c / 64) + s3;
    assert a * 65536 + b * 256 + c == ((s0 * 64 + s1) * 64 + s2) * 64 + s3;
    FourSextets(s0, s1, s2, s3);
  }

  lemma FourSextets(s0: nat, s1: nat, s2: nat, s3: nat)
    requires s0 < 64 && s1 < 64 && s2 < 64 && s3 < 64
    ensures var n := ((s0 * 64 + s1) * 64 + s2) * 64 + s3;
      Sextet(n, 0) == s0 && Sextet(n, 1) == s1 && Sextet(n, 2) == s2 && Sextet(n, 3) == s3
  {
    var n := ((s0 * 64 + s1) * 64 + s2) * 64 + s3;
    assert n / 64 == (s0 * 64 + s1) * 64 + s2;
    assert n / 4096 == s0 * 64 + s1;
    assert n / 262144 == s0;
  }

  lemma Corners()
    ensures [Symbol(0), Symbol(25), Symbol(26), Symbol(51), Symbol(52), Symbol(61), Symbol(62), Symbol(63)] == "AZaz09+/"
  {
  }

  /** The running number and the count of pad characters over the first k of a group. */
  function Collect(t: string, k: nat): (r: Option<(nat, nat)>)
    requires k <= |t|
    ensures r.Some? ==> r.value.1 <= k
  {
    if k == 0 then Some((0, 0))
    else
      var before := Collect(t, k - 1);
      if before.None? then None
      else
        var (n, pad) := before.value;
        if t[k - 1] == PAD then Some((n * 64, pad + 1))
        else if pad > 0 || SymbolValue(t[k - 1]).None? then None
        else Some((n * 64 + SymbolValue(t[k - 1]).value, pad))
  }

  function Bytes(n: nat, pad: nat): (d: bytes)
    requires pad <= 2
    ensures |d| == 3 - pad
  {
    [(n / 65536 % 256) as byte]
    + (if pad < 2 then [(n / 256 % 256) as byte] else [])
    + (if pad < 1 then [(n % 256) as byte] else [])
  }

  function DecodeGroup(t: string): (r: Option<bytes>)
    requires |t| == 4
    ensures r.Some? ==> 1 <= |r.value| <= 3
  {
    var c := Collect(t, 4);
    if c.None? || c.value.1 > 2 then None else Some(Bytes(c.value.0, c.value.1))
  }

  function Join(d: bytes, rest: Option<bytes>): Option<bytes> {
    if rest.None? then None else Some(d + rest.value)
  }

  function DecodeAll(t: string): Option<bytes>
    requires |t| % 4 == 0
    decreases |t|
  {
    if t == "" then Some([])
    else
      var g := DecodeGroup(t[..4]);
      if g.None? then None else Join(g.value, DecodeAll(t[4..]))
  }

  function Decode(t: string): Option<bytes> {
    if |t| % 4 != 0 then None else DecodeAll(t)
  }

  // ----- the loops -----

  method Base64Encode(data: bytes) returns (out: string)
    ensures out == Encode(data)
  {
    hide Encode, EncodeGroup, Pack, Symbol, Sextet;
    out := "";
    var pos: nat := 0;
    assert data[0..] == data;
    while pos < |data|
      invariant pos <= |data|
      invariant out + Encode(data[pos..]) == Encode(data)
    {
      EncodeStep(data[pos..]);
      var end := if pos + 3 <= |data| then pos + 3 else |data|;
      var chunk := data[pos..end];
      assert data[pos..][end - pos..] == data[end..] && data[pos..][..end - pos] == chunk;
      var n := Pack(chunk);
      var pad := 3 - |chunk|;
      ghost var before := out;
      GroupSymbols(chunk);
      for i := 0 to 4 - pad
        invariant out == before + EncodeGroup(chunk)[..i]
      {
        out := out + [Symbol(Sextet(n, i))];
      }
      for i := 0 to pad
        invariant out == before + EncodeGroup(chunk)[..4 - pad + i]
      {
        out := out + [PAD];
      }
      assert EncodeGroup(chunk)[..4] == EncodeGroup(chunk);
      pos := end;
    }
    EncodeNothing();
    assert data[pos..] == [];
  }

  lemma {:induction false} EncodeLength(data: bytes)
    ensures |Encode(data)| % 4 == 0
    decreases |data|
  {
    hide EncodeGroup, Encode;
    if data == [] {
      EncodeNothing();
    } else {
      var k := if |data| < 3 then |data| else 3;
      EncodeStep(data);
      EncodeLength(data[k..]);
      FourMore(|Encode(data[k..])|);
    }
  }

  lemma FourMore(n: nat)
    requires n % 4 == 0
    ensures (4 + n) % 4 == 0
  {
  }

  lemma EncodeNothing()
    ensures Encode([]) == ""
  {
  }

  lemma EncodeStep(data: bytes)
    requires data != []
    ensures var k := if |data| < 3 then |data| else 3;
      Encode(data) == EncodeGroup(data[..k]) + Encode(data[k..])
  {
    if |data| <= 3 {
      assert data[..|data|] == data && data[|data|..] == [];
      assert EncodeGroup(data) + "" == EncodeGroup(data);
    }
  }

  lemma GroupSymbols(chunk: bytes)
    requires 1 <= |chunk| <= 3
    ensures forall i | 0 <= i < 4 ::
      EncodeGroup(chunk)[i] == if i <= |chunk| then Symbol(Sextet(Pack(chunk), i)) else PAD
  {
    hide Symbol, Sextet, Pack;
  }

  method Base64Decode(s: string) returns (r: Option<bytes>)
    ensures r == Decode(s)
  {
    hide DecodeAll, DecodeGroup, Bytes, Collect;
    if |s| % 4 != 0 { return None; }
    var out: bytes := [];
    var pos: nat := 0;
    assert s[0..] == s;
    JoinNothing(DecodeAll(s));
    while pos < |s|
      invariant pos <= |s| && (|s| - pos) % 4 == 0
      invariant DecodeAll(s) == Join(out, DecodeAll(s[pos..]))
    {
      var chunk := s[pos..pos + 4];
      DecodeStep(s, pos);
      var n: nat, pad: nat := 0, 0;
      CollectStart(chunk);
      for i := 0 to 4
        invariant Collect(chunk, i) == Some((n, pad))
      {
        CollectStep(chunk, i);
        var c := chunk[i];
        if c == PAD {
          pad := pad + 1;
          n := n * 64;
        } else {
          if pad > 0 {
            CollectFails(chunk, i + 1);
            return None;
          }
          var v := SymbolValue(c);
          if v.None? {
            CollectFails(chunk, i + 1);
            return None;
          }
          n := n * 64 + v.value;
        }
      }
      GroupIs(chunk, n, pad);
      if pad > 2 { return None; }
      ghost var before := out;
      out := out + [(n / 65536 % 256) as byte];
      if pad < 2 { out := out + [(n / 256 % 256) as byte]; }
      if pad < 1 { out := out + [(n % 256) as byte]; }
      BytesAre(before, n, pad);
      JoinMore(before, Bytes(n, pad), DecodeAll(s[pos + 4..]));
      pos := pos + 4;
    }
    assert s[pos..] == "";
    DecodeNothing();
    assert out + [] == out;
    return Some(out);
  }

  lemma DecodeNothing()
    ensures DecodeAll("") == Some([])
  {
  }

  lemma JoinNothing(r: Option<bytes>)
    ensures Join([], r) == r
  {
    if r.Some? { assert [] + r.value == r.value; }
  }

  lemma JoinMore(a: bytes, b: bytes, r: Option<bytes>)
    ensures Join(a, Join(b, r)) == Join(a + b, r)
  {
    if r.Some? { assert a + (b + r.value) == a + b + r.value; }
  }

  lemma DecodeStep(s: string, pos: nat)
    requires pos < |s| && (|s| - pos) % 4 == 0
    ensures pos + 4 <= |s|
    ensures var g := DecodeGroup(s[pos..pos + 4]);
      DecodeAll(s[pos..]) == if g.None? then None else Join(g.value, DecodeAll(s[pos + 4..]))
  {
    hide DecodeGroup;
    assert s[pos..][..4] == s[pos..pos + 4] && s[pos..][4..] == s[pos + 4..];
  }

  lemma CollectStart(t: string)
    ensures Collect(t, 0) == Some((0, 0))
  {
  }

  lemma CollectStep(t: string, k: nat)
    requires k < |t| && Collect(t, k).Some?
    ensures var (n, pad) := Collect(t, k).value;
      Collect(t, k + 1) ==
        if t[k] == PAD then Some((n * 64, pad + 1))
        else if pad > 0 || SymbolValue(t[k]).None? then None
        else Some((n * 64 + SymbolValue(t[k]).value, pad))
  {
  }

  lemma {:induction false} CollectFails(t: string, k: nat)
    requires |t| == 4 && k <= 4 && Collect(t, k).None?
    ensures DecodeGroup(t).None?
    decreases 4 - k
  {
    if k < 4 { CollectFails(t, k + 1); }
  }

  lemma GroupIs(t: string, n: nat, pad: nat)
    requires |t| == 4 && Collect(t, 4) == Some((n, pad))
    ensures DecodeGroup(t) == if pad > 2 then None else Some(Bytes(n, pad))
  {
  }

  lemma BytesAre(before: bytes, n: nat, pad: nat)
    requires pad <= 2
    ensures before + Bytes(n, pad) ==
      var a := before + [(n / 65536 % 256) as byte];
      var b := if pad < 2 then a + [(n / 256 % 256) as byte] else a;
      if pad < 1 then b + [(n % 256) as byte] else b
  {
  }

  // ----- decoding undoes encoding -----

  lemma Sextets(n: nat)
    requires n < 0x100_0000
    ensures ((Sextet(n, 0) * 64 + Sextet(n, 1)) * 64 + Sextet(n, 2)) * 64 + Sextet(n, 3) == n
    ensures n % 256 == 0 ==> Sextet(n, 3) == 0
    ensures n % 65536 == 0 ==> Sextet(n, 2) == 0
  {
    Quotients(n);
    LowBits(n);
  }

  lemma Quotients(n: nat)
    requires n < 0x100_0000
    ensures Sextet(n, 0) == n / 262144
    ensures n / 4096 == 64 * (n / 262144) + Sextet(n, 1)
    ensures n / 64 == 64 * (n / 4096) + Sextet(n, 2)
    ensures n == 64 * (n / 64) + Sextet(n, 3)
  {
  }

  lemma LowBits(n: nat)
    ensures n % 256 == 0 ==> Sextet(n, 3) == 0
    ensures n % 65536 == 0 ==> Sextet(n, 2) == 0
  {
    if n % 65536 == 0 { MultipleOf64(n / 64, 16 * (n / 65536)); }
    if n % 256 == 0 { MultipleOf64(n, 4 * (n / 256)); }
  }

  lemma MultipleOf64(n: nat, k: nat)
    requires n == 64 * k
    ensures n % 64 == 0
  {
  }

  lemma PackBytes(chunk: bytes)
    requires 1 <= |chunk| <= 3
    ensures Bytes(Pack(chunk), 3 - |chunk|) == chunk
    ensures |chunk| < 3 ==> Pack(chunk) % 256 == 0
    ensures |chunk| < 2 ==> Pack(chunk) % 65536 == 0
  {
    var n := Pack(chunk);
    assert n / 65536 == chunk[0] as int;
    assert n / 256 == chunk[0] as int * 256 + (if |chunk| > 1 then chunk[1] as int else 0);
  }

  lemma GroupBack(chunk: bytes)
    requires 1 <= |chunk| <= 3
    ensures DecodeGroup(EncodeGroup(chunk)) == Some(chunk)
  {
    hide Symbol, SymbolValue, Sextet, Pack, Bytes, Collect, DecodeGroup;
    var t, n := EncodeGroup(chunk), Pack(chunk);
    SymbolBack(Sextet(n, 0)); SymbolBack(Sextet(n, 1)); SymbolBack(Sextet(n, 2)); SymbolBack(Sextet(n, 3));
    Sextets(n);
    PackBytes(chunk);
    CollectStart(t);
    CollectStep(t, 0); CollectStep(t, 1); CollectStep(t, 2); CollectStep(t, 3);
    GroupIs(t, n, 3 - |chunk|);
  }

  /** Decoding undoes encoding, for every byte string. */
  lemma {:induction false} DecodeEncode(data: bytes)
    ensures Decode(Encode(data)) == Some(data)
    decreases |data|
  {
    hide EncodeGroup, DecodeGroup;
    if data != [] {
      var k := if |data| < 3 then |data| else 3;
      EncodeStep(data);
      GroupBack(data[..k]);
      DecodeEncode(data[k..]);
      EncodeLength(data[k..]);
      var g, t := EncodeGroup(data[..k]), Encode(data[k..]);
      assert (g + t)[..4] == g && (g + t)[4..] == t;
      assert data[..k] + data[k..] == data;
    }
  }

  /** An encoding has no comma. */
  lemma {:induction false} EncodeNoComma(data: bytes)
    ensures ',' !in Encode(data)
    decreases |data|
  {
    if data != [] {
      var k := if |data| < 3 then |data| else 3;
      EncodeStep(data);
      GroupNoComma(data[..k]);
      hide EncodeGroup;
      EncodeNoComma(data[k..]);
    }
  }

  lemma GroupNoComma(chunk: bytes)
    requires 1 <= |chunk| <= 3
    ensures ',' !in EncodeGroup(chunk)
  {
    hide Symbol, Sextet, Pack;
    var n := Pack(chunk);
    SymbolBack(Sextet(n, 0)); SymbolBack(Sextet(n, 1)); SymbolBack(Sextet(n, 2)); SymbolBack(Sextet(n, 3));
  }

  // ----- which texts are their own encoding -----

  /** A group whose dropped bits are zero. */
  predicate CleanGroup(t: string)
    requires |t| == 4
  {
    var c := Collect(t, 4);
    && c.Some? && c.value.1 <= 2
    && (c.value.1 == 1 ==> c.value.0 % 256 == 0) && (c.value.1 == 2 ==> c.value.0 % 65536 == 0)
  }

  /** Only the last group is padded, and no dropped bit is set. */
  predicate Canonical(t: string)
    requires |t| % 4 == 0
    decreases |t|
  {
    t == "" || (CleanGroup(t[..4]) && (|t| > 4 ==> t[3] != PAD) && Canonical(t[4..]))
  }

  lemma UnpadLast(t: string)
    requires |t| == 4 && DecodeGroup(t).Some?
    ensures t[3] == PAD <==> |DecodeGroup(t).value| < 3
    ensures t[0] != PAD && t[1] != PAD && (t[2] == PAD ==> t[3] == PAD && |DecodeGroup(t).value| == 1)
    ensures t[2] != PAD && t[3] == PAD ==> |DecodeGroup(t).value| == 2
  {
    hide SymbolValue, Bytes;
    CollectStart(t);
    if Collect(t, 1).Some? && Collect(t, 2).Some? && Collect(t, 3).Some? {
      CollectStep(t, 0); CollectStep(t, 1); CollectStep(t, 2); CollectStep(t, 3);
    }
  }

  lemma GroupEncodesBack(t: string)
    requires |t| == 4 && DecodeGroup(t).Some?
    ensures EncodeGroup(DecodeGroup(t).value) == t <==> CleanGroup(t)
  {
    var d := DecodeGroup(t).value;
    if CleanGroup(t) {
      CleanEncodes(t);
    }
    if EncodeGroup(d) == t {
      EncodingClean(d);
    }
  }

  lemma EncodingClean(chunk: bytes)
    requires 1 <= |chunk| <= 3
    ensures CleanGroup(EncodeGroup(chunk))
  {
    hide Symbol, SymbolValue, Sextet, Pack, Bytes, Collect, DecodeGroup;
    var t, n := EncodeGroup(chunk), Pack(chunk);
    SymbolBack(Sextet(n, 0)); SymbolBack(Sextet(n, 1)); SymbolBack(Sextet(n, 2)); SymbolBack(Sextet(n, 3));
    Sextets(n);
    PackBytes(chunk);
    CollectStart(t);
    CollectStep(t, 0); CollectStep(t, 1); CollectStep(t, 2); CollectStep(t, 3);
  }

  lemma PackOfBytes(n: nat, pad: nat)
    requires n < 0x100_0000 && pad <= 2
    requires (pad == 1 ==> n % 256 == 0) && (pad == 2 ==> n % 65536 == 0)
    ensures Pack(Bytes(n, pad)) == n
  {
    var a, b := n / 256, n / 65536;
    assert b == a / 256 && b < 256;
  }

  lemma SextetsUnique(a: nat, b: nat, c: nat, d: nat)
    requires a < 64 && b < 64 && c < 64 && d < 64
    ensures var n := ((a * 64 + b) * 64 + c) * 64 + d;
      n < 0x100_0000 && Sextet(n, 0) == a && Sextet(n, 1) == b && Sextet(n, 2) == c && Sextet(n, 3) == d
  {
    var n := ((a * 64 + b) * 64 + c) * 64 + d;
    assert n / 64 == (a * 64 + b) * 64 + c;
    assert n / 4096 == a * 64 + b;
    assert n / 262144 == a;
  }

  lemma CleanEncodes(t: string)
    requires |t| == 4 && DecodeGroup(t).Some? && CleanGroup(t)
    ensures EncodeGroup(DecodeGroup(t).value) == t
  {
    hide Symbol, SymbolValue, Sextet, Pack, Bytes, Collect;
    UnpadLast(t);
    var (n, pad) := Collect(t, 4).value;
    CollectDigits(t);
    var a, b := SymbolValue(t[0]).value, SymbolValue(t[1]).value;
    var c := if t[2] == PAD then 0 else SymbolValue(t[2]).value;
    var d := if t[3] == PAD then 0 else SymbolValue(t[3]).value;
    SextetsUnique(a, b, c, d);
    PackOfBytes(n, pad);
    SymbolForth(t[0]);
    SymbolForth(t[1]);
    if t[2] != PAD { SymbolForth(t[2]); }
    if t[3] != PAD { SymbolForth(t[3]); }
  }

  lemma CollectDigits(t: string)
    requires |t| == 4 && DecodeGroup(t).Some?
    ensures forall i | 0 <= i < 4 :: t[i] == PAD || SymbolValue(t[i]).Some?
    ensures t[0] != PAD && t[1] != PAD
    ensures Collect(t, 4).Some?
    ensures var c := if t[2] == PAD then 0 else SymbolValue(t[2]).value;
      var d := if t[3] == PAD then 0 else SymbolValue(t[3]).value;
      Collect(t, 4).value.0 == ((SymbolValue(t[0]).value * 64 + SymbolValue(t[1]).value) * 64 + c) * 64 + d
  {
    hide SymbolValue, Bytes;
    UnpadLast(t);
    CollectStart(t);
    CollectStep(t, 0); CollectStep(t, 1); CollectStep(t, 2); CollectStep(t, 3);
  }

  /** A text that decodes is the encoding of what it decodes to exactly when it is canonical;
      the decoder also takes pads inside the text and stray low bits. */
  lemma {:induction false} EncodeDecode(t: string)
    requires Decode(t).Some?
    ensures Encode(Decode(t).value) == t <==> Canonical(t)
    decreases |t|
  {
    hide EncodeGroup, DecodeGroup, CleanGroup;
    if t != "" {
      var g, rest := t[..4], t[4..];
      var d := DecodeGroup(g).value;
      EncodeDecode(rest);
      GroupEncodesBack(g);
      UnpadLast(g);
      assert t == g + rest;
      if t[3] == PAD && |t| > 4 {
        PaddedInside(t);
      } else {
        EncodeFirst(d, Decode(rest).value);
        Halves(EncodeGroup(d), Encode(Decode(rest).value), g, rest);
      }
    }
  }

  lemma Halves(a: string, b: string, g: string, rest: string)
    requires |a| == |g|
    ensures a + b == g + rest <==> a == g && b == rest
  {
    if a + b == g + rest {
      assert a == (a + b)[..|a|] && b == (a + b)[|a|..];
    }
  }

  lemma EncodeFirst(d: bytes, rest: bytes)
    requires |d| == 3 || (1 <= |d| < 3 && rest == [])
    ensures Encode(d + rest) == EncodeGroup(d) + Encode(rest)
  {
    hide EncodeGroup;
    EncodeStep(d + rest);
    assert (d + rest)[..|d|] == d && (d + rest)[|d|..] == rest;
  }

  lemma {:induction false} EncodePadsLast(data: bytes)
    ensures |Encode(data)| > 4 ==> Encode(data)[3] != PAD
  {
    if |data| > 3 {
      var n := Pack(data[..3]);
      hide Symbol;
      SymbolBack(Sextet(n, 3));
    }
  }

  lemma PaddedInside(t: string)
    requires Decode(t).Some? && |t| > 4 && t[3] == PAD
    ensures Encode(Decode(t).value) != t && !Canonical(t)
  {
    EncodePadsLast(Decode(t).value);
  }

  /** Two texts that decode and are not encodings: a pad inside the text, and a stray low bit. */
  lemma TextsNotCanonical()
    ensures Decode("QQ==QQ==") == Some([65, 65]) && Encode([65, 65]) != "QQ==QQ=="
    ensures Decode("QR==") == Some([65]) && Encode([65]) != "QR=="
  {
    hide Decode, DecodeAll, DecodeGroup, Encode, Canonical, SymbolValue, Collect;
    GroupsOfA();
    DecodeOne("QQ==");
    DecodeOne("QR==");
    DecodePair("QQ==", "QQ==");
    assert "QQ==" + "QQ==" == "QQ==QQ==" && [65] + [65 as byte] == [65, 65];
    EncodeDecode("QQ==QQ==");
    EncodeDecode("QR==");
    NotCanonical();
  }

  lemma GroupsOfA()
    ensures DecodeGroup("QQ==") == Some([65]) && DecodeGroup("QR==") == Some([65])
  {
    hide DecodeGroup, Collect;
    TwoSymbols("QQ==", 16, 16);
    TwoSymbols("QR==", 16, 17);
  }

  lemma NotCanonical()
    ensures !Canonical("QQ==QQ==") && !Canonical("QR==")
  {
    TwoSymbols("QR==", 16, 17);
    assert "QR=="[..4] == "QR==";
  }

  /** A group of two symbols and two pads. */
  lemma TwoSymbols(t: string, a: nat, b: nat)
    requires |t| == 4 && SymbolValue(t[0]) == Some(a) && SymbolValue(t[1]) == Some(b) && t[2] == PAD && t[3] == PAD
    ensures Collect(t, 4) == Some(((a * 64 + b) * 4096, 2))
    ensures DecodeGroup(t) == Some([(((a * 64 + b) * 4096) / 65536 % 256) as byte])
  {
    hide SymbolValue, DecodeGroup;
    SymbolForth(t[0]);
    SymbolForth(t[1]);
    CollectStart(t);
    CollectStep(t, 0); CollectStep(t, 1); CollectStep(t, 2); CollectStep(t, 3);
    var n := (a * 64 + b) * 4096;
    assert (a * 64 + b) * 64 * 64 == n;
    GroupIs(t, n, 2);
    assert Bytes(n, 2) == [(n / 65536 % 256) as byte];
  }

  lemma DecodeOne(t: string)
    requires |t| == 4 && DecodeGroup(t).Some?
    ensures Decode(t) == DecodeGroup(t) && DecodeAll(t) == DecodeGroup(t)
  {
    hide DecodeGroup;
    assert t[0..] == t && t[0..4] == t && t[4..] == "";
    DecodeStep(t, 0);
    DecodeNothing();
    assert DecodeGroup(t).value + [] == DecodeGroup(t).value;
  }

  lemma DecodePair(t: string, u: string)
    requires |t| == 4 && |u| == 4 && DecodeGroup(t).Some? && DecodeGroup(u).Some?
    ensures Decode(t + u) == Some(DecodeGroup(t).value + DecodeGroup(u).value)
  {
    hide DecodeGroup;
    assert (t + u)[0..] == t + u && (t + u)[0..4] == t && (t + u)[4..] == u;
    DecodeStep(t + u, 0);
    DecodeOne(u);
  }
}

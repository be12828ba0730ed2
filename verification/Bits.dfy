/** Bit strings (src/exec/bit.rs): packed bytes, most significant bit first, pad bits zero. */
module Bits {
  import opened Integers
  import opened Wrappers

  type octet = bv8

  datatype BitString = BitString(bitlen: nat, bytes: seq<octet>)

  datatype BitError = SizesDiffer | TooLong | NegativeLength | IntegerRange | BadIndex | BadBit

  const BIT_MAX_LEN := 838_860_800

  // ----- bits of a byte -----

  /** 1 << (7 - j). */
  function Mask(j: nat): octet
    requires j < 8
  {
    if j == 0 then 0x80 else if j == 1 then 0x40 else if j == 2 then 0x20 else if j == 3 then 0x10
    else if j == 4 then 8 else if j == 5 then 4 else if j == 6 then 2 else 1
  }

  predicate Bit(b: octet, j: nat)
    requires j < 8
  {
    b & Mask(j) != 0
  }

  datatype BitOp = And | Or | Xor

  function Apply(op: BitOp, x: octet, y: octet): octet {
    match op
    case And => x & y
    case Or => x | y
    case Xor => x ^ y
  }

  predicate OnBits(op: BitOp, x: bool, y: bool) {
    match op
    case And => x && y
    case Or => x || y
    case Xor => x != y
  }

  lemma ApplyBit(op: BitOp, x: octet, y: octet, j: nat)
    requires j < 8
    ensures Bit(Apply(op, x, y), j) == OnBits(op, Bit(x, j), Bit(y, j))
  {
    hide Bit, Mask;
    match op
    case And => AndBit(x, y, j);
    case Or => OrBit(x, y, j);
    case Xor => XorBit(x, y, j);
  }

  lemma AndBit(x: octet, y: octet, j: nat)
    requires j < 8
    ensures Bit(x & y, j) == (Bit(x, j) && Bit(y, j))
  {
  }

  lemma OrBit(x: octet, y: octet, j: nat)
    requires j < 8
    ensures Bit(x | y, j) == (Bit(x, j) || Bit(y, j))
  {
  }

  lemma XorBit(x: octet, y: octet, j: nat)
    requires j < 8
    ensures Bit(x ^ y, j) == (Bit(x, j) != Bit(y, j))
  {
    var m := Mask(j);
    XorDistributes(x, y, m);
    MaskAll(x, j);
    MaskAll(y, j);
    XorZero(m);
  }

  lemma XorDistributes(x: octet, y: octet, m: octet)
    ensures (x ^ y) & m == (x & m) ^ (y & m)
  {
  }

  lemma MaskAll(x: octet, j: nat)
    requires j < 8
    ensures (x & Mask(j) == 0 || x & Mask(j) == Mask(j)) && Mask(j) != 0
  {
  }

  lemma XorZero(m: octet)
    ensures m ^ m == 0 && m ^ 0 == m && 0 ^ m == m && (0 as octet) ^ 0 == 0
  {
  }

  lemma NotBit(x: octet, j: nat)
    requires j < 8
    ensures Bit(!x, j) == !Bit(x, j)
  {
  }

  function Marked(x: octet, j: nat): octet
    requires j < 8
  {
    x | Mask(j)
  }

  function Cleared(x: octet, j: nat): octet
    requires j < 8
  {
    x & !Mask(j)
  }

  lemma SetBit(x: octet, j: nat, k: nat)
    requires j < 8 && k < 8
    ensures Bit(Marked(x, j), k) == (k == j || Bit(x, k))
  {
  }

  lemma ClearBit(x: octet, j: nat, k: nat)
    requires j < 8 && k < 8
    ensures Bit(Cleared(x, j), k) == (k != j && Bit(x, k))
  {
  }

  /** 0xFF << (8 - rem). */
  function HighBits(rem: nat): octet
    requires 0 < rem < 8
  {
    if rem == 1 then 0x80 else if rem == 2 then 0xC0 else if rem == 3 then 0xE0 else if rem == 4 then 0xF0
    else if rem == 5 then 0xF8 else if rem == 6 then 0xFC else 0xFE
  }

  lemma HighBitsBit(x: octet, rem: nat, k: nat)
    requires 0 < rem < 8 && k < 8
    ensures Bit(x & HighBits(rem), k) == (k < rem && Bit(x, k))
  {
  }

  lemma ByteExtensional(x: octet, y: octet)
    requires forall j | 0 <= j < 8 :: Bit(x, j) == Bit(y, j)
    ensures x == y
  {
    assert Bit(x, 0) == Bit(y, 0) && Bit(x, 1) == Bit(y, 1) && Bit(x, 2) == Bit(y, 2) && Bit(x, 3) == Bit(y, 3);
    assert Bit(x, 4) == Bit(y, 4) && Bit(x, 5) == Bit(y, 5) && Bit(x, 6) == Bit(y, 6) && Bit(x, 7) == Bit(y, 7);
  }

  // ----- the representation -----

  predicate BitAt(bytes: seq<octet>, i: nat)
    requires i < 8 * |bytes|
  {
    Bit(bytes[i / 8], i % 8)
  }

  /** Just enough bytes, and every pad bit zero. */
  ghost predicate Valid(a: BitString) {
    && |a.bytes| == (a.bitlen + 7) / 8
    && forall i | a.bitlen <= i < 8 * |a.bytes| :: !BitAt(a.bytes, i)
  }

  function Bits(a: BitString): (s: seq<bool>)
    requires a.bitlen <= 8 * |a.bytes|
    ensures |s| == a.bitlen && forall i | 0 <= i < a.bitlen :: s[i] == BitAt(a.bytes, i)
  {
    seq(a.bitlen, i requires 0 <= i < a.bitlen => BitAt(a.bytes, i))
  }

  lemma ByteBits(bytes: seq<octet>, k: nat, j: nat)
    requires k < |bytes| && j < 8
    ensures BitAt(bytes, 8 * k + j) == Bit(bytes[k], j)
  {
    assert (8 * k + j) / 8 == k && (8 * k + j) % 8 == j;
  }

  /** A bit string is determined by its bits: comparing the packed form compares the bits. */
  lemma PackedUnique(a: BitString, b: BitString)
    requires Valid(a) && Valid(b) && Bits(a) == Bits(b)
    ensures a == b
  {
    assert a.bitlen == |Bits(a)| == |Bits(b)| == b.bitlen;
    hide Bit;
    forall k | 0 <= k < |a.bytes| ensures a.bytes[k] == b.bytes[k] {
      forall j | 0 <= j < 8 ensures Bit(a.bytes[k], j) == Bit(b.bytes[k], j) {
        ByteBits(a.bytes, k, j);
        ByteBits(b.bytes, k, j);
        if 8 * k + j < a.bitlen { assert Bits(a)[8 * k + j] == Bits(b)[8 * k + j]; }
      }
      ByteExtensional(a.bytes[k], b.bytes[k]);
    }
  }

  // ----- unpacking and packing -----

  method BitBits(a: BitString) returns (out: seq<bool>)
    requires Valid(a)
    ensures out == Bits(a)
  {
    hide Bit;
    out := [];
    for i := 0 to a.bitlen
      invariant |out| == i && forall k | 0 <= k < i :: out[k] == BitAt(a.bytes, k)
    {
      out := out + [Bit(a.bytes[i / 8], i % 8)];
    }
  }

  method BitFromBits(bits: seq<bool>) returns (a: BitString)
    ensures Valid(a) && Bits(a) == bits
  {
    hide Bit, Marked;
    var n := (|bits| + 7) / 8;
    var bytes := new octet[n](_ => 0);
    forall i | 0 <= i < 8 * n ensures !BitAt(bytes[..], i) { ZeroByte(i % 8); }
    for i := 0 to |bits|
      invariant forall k | 0 <= k < 8 * n :: BitAt(bytes[..], k) == (k < i && bits[k])
    {
      ghost var before := bytes[..];
      if bits[i] {
        bytes[i / 8] := Marked(bytes[i / 8], i % 8);
        SetAt(before, i);
        assert bytes[..] == before[i / 8 := Marked(before[i / 8], i % 8)];
      }
    }
    a := BitString(|bits|, bytes[..]);
  }

  lemma ZeroByte(j: nat)
    requires j < 8
    ensures !Bit(0, j)
  {
  }

  lemma SetAt(bytes: seq<octet>, i: nat)
    requires i < 8 * |bytes|
    ensures var after := bytes[i / 8 := Marked(bytes[i / 8], i % 8)];
      forall k | 0 <= k < 8 * |bytes| :: BitAt(after, k) == (k == i || BitAt(bytes, k))
  {
    hide Bit, Mask, Marked;
    var after := bytes[i / 8 := Marked(bytes[i / 8], i % 8)];
    forall k | 0 <= k < 8 * |bytes| ensures BitAt(after, k) == (k == i || BitAt(bytes, k)) {
      if k / 8 == i / 8 { SetBit(bytes[i / 8], i % 8, k % 8); }
    }
  }

  lemma ClearAt(bytes: seq<octet>, i: nat)
    requires i < 8 * |bytes|
    ensures var after := bytes[i / 8 := Cleared(bytes[i / 8], i % 8)];
      forall k | 0 <= k < 8 * |bytes| :: BitAt(after, k) == (k != i && BitAt(bytes, k))
  {
    hide Bit, Mask, Cleared;
    var after := bytes[i / 8 := Cleared(bytes[i / 8], i % 8)];
    forall k | 0 <= k < 8 * |bytes| ensures BitAt(after, k) == (k != i && BitAt(bytes, k)) {
      if k / 8 == i / 8 { ClearBit(bytes[i / 8], i % 8, k % 8); }
    }
  }

  // ----- operators -----

  /** `bit_and`, `bit_or`, `bit_xor`. */
  method BitZip(a: BitString, b: BitString, op: BitOp) returns (r: Result<BitString, BitError>)
    requires Valid(a) && Valid(b)
    ensures r.Err? <==> a.bitlen != b.bitlen
    ensures r.Ok? ==> Valid(r.value) && r.value.bitlen == a.bitlen
    ensures r.Ok? ==> forall i | 0 <= i < a.bitlen :: Bits(r.value)[i] == OnBits(op, Bits(a)[i], Bits(b)[i])
    ensures r.Err? ==> r.error == SizesDiffer
  {
    hide Bit, Apply;
    if a.bitlen != b.bitlen { return Err(SizesDiffer); }
    var bytes: seq<octet> := [];
    for k := 0 to |a.bytes|
      invariant |bytes| == k && forall i | 0 <= i < k :: bytes[i] == Apply(op, a.bytes[i], b.bytes[i])
    {
      bytes := bytes + [Apply(op, a.bytes[k], b.bytes[k])];
    }
    forall i | 0 <= i < 8 * |bytes|
      ensures BitAt(bytes, i) == OnBits(op, BitAt(a.bytes, i), BitAt(b.bytes, i))
    {
      ApplyBit(op, a.bytes[i / 8], b.bytes[i / 8], i % 8);
    }
    return Ok(BitString(a.bitlen, bytes));
  }

  method BitNot(a: BitString) returns (r: BitString)
    requires Valid(a)
    ensures Valid(r) && r.bitlen == a.bitlen
    ensures forall i | 0 <= i < a.bitlen :: Bits(r)[i] == !Bits(a)[i]
  {
    hide Bit;
    var bytes: seq<octet> := [];
    for k := 0 to |a.bytes|
      invariant |bytes| == k && forall i | 0 <= i < k :: bytes[i] == !a.bytes[i]
    {
      bytes := bytes + [!a.bytes[k]];
    }
    forall i | 0 <= i < 8 * |bytes| ensures BitAt(bytes, i) == !BitAt(a.bytes, i) { NotBit(a.bytes[i / 8], i % 8); }
    var rem := a.bitlen % 8;
    if rem != 0 && bytes != [] {
      var last := |bytes| - 1;
      ghost var before := bytes;
      bytes := bytes[last := bytes[last] & HighBits(rem)];
      forall i | 0 <= i < 8 * |bytes| ensures BitAt(bytes, i) == (BitAt(before, i) && i < a.bitlen) {
        if i / 8 == last { HighBitsBit(before[last], rem, i % 8); }
      }
    }
    r := BitString(a.bitlen, bytes);
  }

  function ZeroBits(n: nat): (s: seq<bool>)
    ensures |s| == n
  {
    seq(n, _ => false)
  }

  /** Bits moved toward the start by k (toward the end when negative), zeros filled in. */
  function ShiftedBits(s: seq<bool>, k: int): (t: seq<bool>)
    ensures |t| == |s|
  {
    seq(|s|, i requires 0 <= i < |s| => 0 <= i + k < |s| && s[i + k])
  }

  /** A count far below zero is cut off at the maximum length. */
  function Clamped(shift: int): int {
    if shift < -BIT_MAX_LEN then -BIT_MAX_LEN else shift
  }

  /** `bit_shift`: the count is signed and `left` is its direction. For legal lengths the cut-off
      makes no difference. */
  method BitShift(a: BitString, shift: int, toLeft: bool) returns (r: BitString)
    requires Valid(a)
    ensures Valid(r) && Bits(r) == ShiftedBits(Bits(a), if toLeft then Clamped(shift) else -Clamped(shift))
    ensures a.bitlen <= BIT_MAX_LEN ==> Bits(r) == ShiftedBits(Bits(a), if toLeft then shift else -shift)
  {
    hide Bit;
    var shft, left := shift, toLeft;
    if shft < 0 {
      if shft < -BIT_MAX_LEN { shft := -BIT_MAX_LEN; }
      shft := -shft;
      left := !left;
    }
    var n := a.bitlen;
    ghost var want := ShiftedBits(Bits(a), if toLeft then Clamped(shift) else -Clamped(shift));
    ClampedIsFar(Bits(a), shift, toLeft);
    if shft >= n {
      r := BitString(n, seq(|a.bytes|, _ => 0));
      forall i | 0 <= i < 8 * |a.bytes| ensures !BitAt(r.bytes, i) { ZeroByte(i % 8); }
      assert Bits(r) == want;
      return;
    }
    var k := shft;
    var bits := BitBits(a);
    var out;
    if left {
      out := bits[k..] + ZeroBits(k);
    } else {
      out := ZeroBits(k) + bits[..n - k];
    }
    assert out == want;
    r := BitFromBits(out);
  }

  lemma ClampedIsFar(s: seq<bool>, shift: int, toLeft: bool)
    ensures |s| <= BIT_MAX_LEN ==>
      ShiftedBits(s, if toLeft then Clamped(shift) else -Clamped(shift)) == ShiftedBits(s, if toLeft then shift else -shift)
  {
  }

  method BitConcat(a: BitString, b: BitString) returns (r: Result<BitString, BitError>)
    requires Valid(a) && Valid(b)
    ensures r == Err(TooLong) || (r.Ok? && Valid(r.value) && Bits(r.value) == Bits(a) + Bits(b))
    ensures r.Err? <==> a.bitlen + b.bitlen > BIT_MAX_LEN
  {
    if a.bitlen + b.bitlen > BIT_MAX_LEN { return Err(TooLong); }
    var bits := BitBits(a);
    var more := BitBits(b);
    var c := BitFromBits(bits + more);
    return Ok(c);
  }

  /** The bits at 1-based positions p with from <= p < to. */
  function Window(s: seq<bool>, from: int, to: int): seq<bool> {
    var lo := if from < 1 then 1 else from;
    var hi := if to > |s| + 1 then |s| + 1 else to;
    if lo >= hi then [] else s[lo - 1..hi - 1]
  }

  /** An end that does not fit 32 bits means the end of the string. */
  function Reach(s: seq<bool>, end: int): int {
    if end > I32_MAX then |s| + 1 else end
  }

  lemma ReachIsEnd(s: seq<bool>, from: int, end: int)
    requires |s| <= I32_MAX
    ensures Window(s, from, Reach(s, end)) == Window(s, from, end)
  {
  }

  /** `bit_substring`: the window [s, s + len); for lengths that fit 32 bits it does not matter
      how far s + len reaches. */
  method BitSubstring(a: BitString, s: int, len: Option<int>) returns (r: Result<BitString, BitError>)
    requires Valid(a)
    ensures len.Some? && len.value < 0 ==> r == Err(NegativeLength)
    ensures len.Some? && len.value >= 0 ==>
      && r.Ok? && Valid(r.value) && Bits(r.value) == Window(Bits(a), s, Reach(Bits(a), s + len.value))
      && (a.bitlen <= I32_MAX ==> Bits(r.value) == Window(Bits(a), s, s + len.value))
    ensures len.None? ==> r.Ok? && Valid(r.value) && Bits(r.value) == Window(Bits(a), s, a.bitlen + 1)
  {
    hide Bit, BitAt, Window;
    var bitlen := a.bitlen;
    var s1 := if s < 1 then 1 else s;
    var e1 := bitlen + 1;
    ghost var to := bitlen + 1;
    if len.Some? {
      if len.value < 0 { return Err(NegativeLength); }
      if bitlen <= I32_MAX { ReachIsEnd(Bits(a), s, s + len.value); }
      to := Reach(Bits(a), s + len.value);
      var e := s + len.value;
      if e <= I32_MAX {
        e1 := if e < bitlen + 1 then e else bitlen + 1;
      }
    }
    WindowCut(Bits(a), s, to, s1, e1);
    if s1 > bitlen || e1 <= s1 { return Ok(BitString(0, [])); }
    var bits := BitBits(a);
    var c := BitFromBits(bits[s1 - 1..e1 - 1]);
    return Ok(c);
  }

  lemma WindowCut(s: seq<bool>, from: int, to: int, lo: int, hi: int)
    requires lo == (if from < 1 then 1 else from) && hi == if to < |s| + 1 then to else |s| + 1
    ensures Window(s, from, to) == if lo > |s| || hi <= lo then [] else s[lo - 1..hi - 1]
  {
  }

  /** `bit_overlay`: positions sp .. sp + sl - 1 give way to the placing bits. */
  method BitOverlay(t: BitString, placing: BitString, sp: int, sl: int) returns (r: Result<BitString, BitError>)
    requires Valid(t) && Valid(placing)
    ensures sp <= 0 ==> r == Err(NegativeLength)
    ensures sp > 0 && !(I32_MIN <= sp + sl <= I32_MAX) ==> r == Err(IntegerRange)
    ensures sp > 0 && I32_MIN <= sp + sl <= I32_MAX ==>
      var want := Overlaid(Bits(t), Bits(placing), sp, sl);
      if |want| > BIT_MAX_LEN then r == Err(TooLong) else r.Ok? && Valid(r.value) && Bits(r.value) == want
  {
    hide Bit, Window;
    if sp <= 0 { return Err(NegativeLength); }
    var end := sp + sl;
    if !(I32_MIN <= end <= I32_MAX) { return Err(IntegerRange); }
    var s1 := BitSubstring(t, 1, Some(sp - 1));
    var s2 := BitSubstring(t, end, None);
    var head := BitConcat(s1.value, placing);
    if head.Err? { return head; }
    r := BitConcat(head.value, s2.value);
  }

  function Overlaid(t: seq<bool>, placing: seq<bool>, sp: int, sl: int): seq<bool> {
    Window(t, 1, Reach(t, sp)) + placing + Window(t, sp + sl, |t| + 1)
  }

  // ----- single bits -----

  method BitGetBit(a: BitString, n: int) returns (r: Result<bool, BitError>)
    requires Valid(a)
    ensures r == if 0 <= n < a.bitlen then Ok(Bits(a)[n]) else Err(BadIndex)
  {
    if n < 0 || n >= a.bitlen { return Err(BadIndex); }
    return Ok(Bit(a.bytes[n / 8], n % 8));
  }

  method BitSetBit(a: BitString, n: int, v: int) returns (r: Result<BitString, BitError>)
    requires Valid(a)
    ensures !(0 <= n < a.bitlen) ==> r == Err(BadIndex)
    ensures 0 <= n < a.bitlen && v != 0 && v != 1 ==> r == Err(BadBit)
    ensures 0 <= n < a.bitlen && (v == 0 || v == 1) ==>
      r.Ok? && Valid(r.value) && Bits(r.value) == Bits(a)[n := v == 1]
  {
    hide Bit, Mask, BitAt, Cleared, Marked;
    if n < 0 || n >= a.bitlen { return Err(BadIndex); }
    if v != 0 && v != 1 { return Err(BadBit); }
    var bytes := a.bytes;
    if v == 1 {
      bytes := bytes[n / 8 := Marked(bytes[n / 8], n % 8)];
      SetAt(a.bytes, n);
      assert forall k | 0 <= k < 8 * |a.bytes| :: BitAt(bytes, k) == (k == n || BitAt(a.bytes, k));
    } else {
      bytes := bytes[n / 8 := Cleared(bytes[n / 8], n % 8)];
      ClearAt(a.bytes, n);
      assert forall k | 0 <= k < 8 * |a.bytes| :: BitAt(bytes, k) == (k != n && BitAt(a.bytes, k));
    }
    var out := BitString(a.bitlen, bytes);
    OneBitChanged(a, out, n, v == 1);
    return Ok(out);
  }

  lemma OneBitChanged(a: BitString, b: BitString, n: nat, on: bool)
    requires Valid(a) && n < a.bitlen == b.bitlen && |b.bytes| == |a.bytes|
    requires forall k | 0 <= k < 8 * |a.bytes| :: BitAt(b.bytes, k) == if k == n then on else BitAt(a.bytes, k)
    ensures Valid(b) && Bits(b) == Bits(a)[n := on]
  {
    hide Bit, BitAt;
  }

  /** `bit_position`: the first place where `sub` occurs, 1-based; 0 when it does not. */
  method BitPosition(sub: BitString, s: BitString) returns (p: nat)
    requires Valid(sub) && Valid(s)
    ensures s.bitlen == 0 ==> p == 0
    ensures s.bitlen > 0 && p == 0 ==> forall k | 0 <= k <= s.bitlen - sub.bitlen :: !OccursAt(Bits(sub), Bits(s), k)
    ensures p > 0 ==>
      && OccursAt(Bits(sub), Bits(s), p - 1) && forall k | 0 <= k < p - 1 :: !OccursAt(Bits(sub), Bits(s), k)
  {
    hide Bit;
    if s.bitlen == 0 || sub.bitlen > s.bitlen { return 0; }
    var hay := BitBits(s);
    var needle := BitBits(sub);
    if sub.bitlen == 0 {
      assert OccursAt(needle, hay, 0);
      return 1;
    }
    var k: nat := 0;
    while k + |needle| <= |hay|
      invariant forall i | 0 <= i < k :: !OccursAt(needle, hay, i)
    {
      if hay[k..k + |needle|] == needle { return k + 1; }
      k := k + 1;
    }
    return 0;
  }

  predicate OccursAt(needle: seq<bool>, hay: seq<bool>, k: nat) {
    k + |needle| <= |hay| && hay[k..k + |needle|] == needle
  }

  // ----- counting -----

  function One(b: bool): nat {
    if b then 1 else 0
  }

  function CountOnes(b: octet): nat {
    One(Bit(b, 0)) + One(Bit(b, 1)) + One(Bit(b, 2)) + One(Bit(b, 3))
    + One(Bit(b, 4)) + One(Bit(b, 5)) + One(Bit(b, 6)) + One(Bit(b, 7))
  }

  function CountTrue(s: seq<bool>): nat {
    if s == [] then 0 else CountTrue(s[..|s| - 1]) + One(s[|s| - 1])
  }

  /** The bits of the first n positions of the packed bytes. */
  function Prefix(bytes: seq<octet>, n: nat): (s: seq<bool>)
    requires n <= 8 * |bytes|
    ensures |s| == n && forall i | 0 <= i < n :: s[i] == BitAt(bytes, i)
  {
    seq(n, i requires 0 <= i < n => BitAt(bytes, i))
  }

  lemma PrefixStep(bytes: seq<octet>, n: nat)
    requires n < 8 * |bytes|
    ensures CountTrue(Prefix(bytes, n + 1)) == CountTrue(Prefix(bytes, n)) + One(BitAt(bytes, n))
  {
    hide Bit;
    assert Prefix(bytes, n + 1)[..n] == Prefix(bytes, n);
  }

  lemma PrefixByte(bytes: seq<octet>, k: nat)
    requires k < |bytes|
    ensures CountTrue(Prefix(bytes, 8 * k + 8)) == CountTrue(Prefix(bytes, 8 * k)) + CountOnes(bytes[k])
  {
    hide Bit, CountTrue, Prefix, One, BitAt;
    PrefixBit(bytes, k, 0); PrefixBit(bytes, k, 1); PrefixBit(bytes, k, 2); PrefixBit(bytes, k, 3);
    PrefixBit(bytes, k, 4); PrefixBit(bytes, k, 5); PrefixBit(bytes, k, 6); PrefixBit(bytes, k, 7);
  }

  lemma PrefixBit(bytes: seq<octet>, k: nat, j: nat)
    requires k < |bytes| && j < 8
    ensures CountTrue(Prefix(bytes, 8 * k + j + 1)) == CountTrue(Prefix(bytes, 8 * k + j)) + One(Bit(bytes[k], j))
  {
    hide Bit, CountTrue, Prefix, One, BitAt;
    PrefixStep(bytes, 8 * k + j);
    ByteBits(bytes, k, j);
  }

  lemma {:induction false} PadsCountNothing(a: BitString, n: nat)
    requires Valid(a) && a.bitlen <= n <= 8 * |a.bytes|
    ensures CountTrue(Prefix(a.bytes, n)) == CountTrue(Bits(a))
  {
    hide Bit, CountTrue;
    if n == a.bitlen {
      assert Prefix(a.bytes, n) == Bits(a);
    } else {
      PadsCountNothing(a, n - 1);
      PrefixStep(a.bytes, n - 1);
    }
  }

  /** Counting ones byte by byte counts the bits: the pad bits add nothing. */
  method BitCount(a: BitString) returns (n: nat)
    requires Valid(a)
    ensures n == CountTrue(Bits(a))
  {
    hide Bit, CountTrue, CountOnes, Prefix;
    n := 0;
    EmptyPrefix(a.bytes);
    for k := 0 to |a.bytes|
      invariant n == CountTrue(Prefix(a.bytes, 8 * k))
    {
      PrefixByte(a.bytes, k);
      n := n + CountOnes(a.bytes[k]);
    }
    PadsCountNothing(a, 8 * |a.bytes|);
  }

  lemma EmptyPrefix(bytes: seq<octet>)
    ensures CountTrue(Prefix(bytes, 0)) == 0
  {
  }

  // ----- laws of the operators, on the bits -----

  /** Shifting out and back clears the bits that were shifted out. */
  lemma ShiftBack(s: seq<bool>, k: int)
    requires 0 <= k <= |s|
    ensures ShiftedBits(ShiftedBits(s, k), -k) == ZeroBits(k) + s[k..]
  {
  }

  /** A window and what is around it make the whole again. */
  lemma WindowsJoin(s: seq<bool>, p: int, q: int)
    requires p <= q
    ensures Window(s, 1, p) + Window(s, p, q) + Window(s, q, |s| + 1) == s
  {
    var lo := if p < 1 then 0 else if p > |s| + 1 then |s| else p - 1;
    var hi := if q < 1 then 0 else if q > |s| + 1 then |s| else q - 1;
    WindowIs(s, 1, p);
    WindowIs(s, p, q);
    WindowIs(s, q, |s| + 1);
    hide Window;
    ThreeParts(s, lo, hi);
  }

  lemma ThreeParts(s: seq<bool>, lo: nat, hi: nat)
    requires lo <= hi <= |s|
    ensures s[0..lo] + s[lo..hi] + s[hi..|s|] == s
  {
  }

  /** A window clamped to the string. */
  lemma WindowIs(s: seq<bool>, p: int, q: int)
    requires p <= q || (p == 1 && q < 1) || (q == |s| + 1 && p > q)
    ensures var lo := if p < 1 then 0 else if p > |s| + 1 then |s| else p - 1;
      var hi := if q < 1 then 0 else if q > |s| + 1 then |s| else q - 1;
      lo <= hi && Window(s, p, q) == s[lo..hi]
  {
  }

  /** Laying a window over itself changes nothing. */
  lemma OverlayItself(s: seq<bool>, sp: int, sl: nat)
    requires sp + sl <= I32_MAX || |s| <= I32_MAX
    ensures Overlaid(s, Window(s, sp, sp + sl), sp, sl) == s
  {
    WindowsJoin(s, sp, sp + sl);
    if |s| <= I32_MAX { ReachIsEnd(s, 1, sp); }
  }
}

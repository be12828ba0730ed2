/** SCRAM-SHA-256 on the server (section 3 of RFC 5802; src/crypto.rs). The hash, HMAC and the
    bytes of a text are parameters; so are the random bytes of the server nonce. */
module Scram {
  import opened ByteStrings
  import opened Wrappers
  import opened Text
  import opened Base64
  import Decimal

  datatype Crypto = Crypto(sha256: bytes -> bytes, hmac: (bytes, bytes) -> bytes, utf8: string -> bytes)

  ghost predicate Sized(c: Crypto) {
    (forall x :: |c.sha256(x)| == 32) && (forall k, x :: |c.hmac(k, x)| == 32)
  }

  datatype Verifier = Verifier(iterations: nat, salt: bytes, storedKey: bytes, serverKey: bytes)

  datatype Exchange = Exchange(verifier: Verifier, serverNonce: string, clientFirstBare: string, serverFirst: string)

  datatype ScramError =
    | MalformedFirst | NoNonce | ChannelBinding | NonceMismatch | MalformedProof | MalformedFinal | WrongPassword

  // ----- bytes -----

  function Pow2(n: nat): (p: nat)
    ensures p >= 1
  {
    if n == 0 then 1 else 2 * Pow2(n - 1)
  }

  /** XOR, or OR, of the low n bits. */
  function Bitwise(xor: bool, a: nat, b: nat, n: nat): (r: nat)
    ensures r < Pow2(n)
  {
    if n == 0 then 0
    else
      var bit := if xor then a % 2 != b % 2 else a % 2 == 1 || b % 2 == 1;
      2 * Bitwise(xor, a / 2, b / 2, n - 1) + (if bit then 1 else 0)
  }

  lemma Pow2Eight()
    ensures Pow2(8) == 256
  {
    assert Pow2(4) == 16;
    assert Pow2(6) == 64;
  }

  function Xor(a: byte, b: byte): byte {
    Pow2Eight();
    Bitwise(true, a as nat, b as nat, 8) as byte
  }

  function Or(a: byte, b: byte): byte {
    Pow2Eight();
    Bitwise(false, a as nat, b as nat, 8) as byte
  }

  lemma {:induction false} BitwiseBack(a: nat, b: nat, n: nat)
    requires a < Pow2(n)
    ensures Bitwise(true, Bitwise(true, a, b, n), b, n) == a
    decreases n
  {
    if n > 0 {
      BitwiseBack(a / 2, b / 2, n - 1);
      var x := Bitwise(true, a, b, n);
      assert x / 2 == Bitwise(true, a / 2, b / 2, n - 1);
    }
  }

  lemma {:induction false} BitwiseZero(xor: bool, a: nat, b: nat, n: nat)
    requires a < Pow2(n) && b < Pow2(n)
    ensures Bitwise(xor, a, b, n) == 0 <==> if xor then a == b else a == 0 && b == 0
    decreases n
  {
    if n > 0 {
      BitwiseZero(xor, a / 2, b / 2, n - 1);
    }
  }

  lemma XorBack(a: byte, b: byte)
    ensures Xor(Xor(a, b), b) == a
  {
    hide Bitwise;
    Pow2Eight();
    BitwiseBack(a as nat, b as nat, 8);
  }

  lemma XorZero(a: byte, b: byte)
    ensures Xor(a, b) == 0 <==> a == b
    ensures Or(a, b) == 0 <==> a == 0 && b == 0
  {
    hide Bitwise;
    Pow2Eight();
    BitwiseZero(true, a as nat, b as nat, 8);
    BitwiseZero(false, a as nat, b as nat, 8);
  }

  function XorBytes(a: bytes, b: bytes): (r: bytes)
    requires |a| == |b|
    ensures |r| == |a| && forall i | 0 <= i < |a| :: r[i] == Xor(a[i], b[i])
  {
    seq(|a|, i requires 0 <= i < |a| => Xor(a[i], b[i]))
  }

  lemma XorBytesBack(a: bytes, b: bytes)
    requires |a| == |b|
    ensures XorBytes(XorBytes(a, b), b) == a
  {
    hide Xor;
    forall i | 0 <= i < |a| ensures XorBytes(XorBytes(a, b), b)[i] == a[i] { XorBack(a[i], b[i]); }
  }

  // ----- keys -----

  /** U_k of PBKDF2: HMAC applied k times, first to the salt and INT(1). */
  function Link(c: Crypto, password: bytes, salt: bytes, k: nat): bytes
    requires k >= 1
  {
    if k == 1 then c.hmac(password, salt + [0, 0, 0, 1]) else c.hmac(password, Link(c, password, salt, k - 1))
  }

  /** Hi: the XOR of the first i links, at least one. */
  ghost function Hi(c: Crypto, password: bytes, salt: bytes, i: nat): (h: bytes)
    requires Sized(c)
    ensures |h| == 32
  {
    if i <= 1 then Link(c, password, salt, 1)
    else XorBytes(Hi(c, password, salt, i - 1), Link(c, password, salt, i))
  }

  /** u XOR HMAC(u) XOR HMAC(HMAC(u)) and so on, n terms, from the front. */
  ghost function Chain(c: Crypto, password: bytes, u: bytes, n: nat): (h: bytes)
    requires Sized(c) && |u| == 32
    ensures |h| == 32
    decreases n
  {
    if n <= 1 then u else XorBytes(u, Chain(c, password, c.hmac(password, u), n - 1))
  }

  function Repeated(c: Crypto, password: bytes, u: bytes, k: nat): bytes {
    if k == 0 then u else c.hmac(password, Repeated(c, password, u, k - 1))
  }

  lemma {:induction false} BitwiseGroups(a: nat, b: nat, d: nat, n: nat)
    ensures Bitwise(true, Bitwise(true, a, b, n), d, n) == Bitwise(true, a, Bitwise(true, b, d, n), n)
    decreases n
  {
    if n > 0 {
      BitwiseGroups(a / 2, b / 2, d / 2, n - 1);
      var x, y := Bitwise(true, a, b, n), Bitwise(true, b, d, n);
      assert x / 2 == Bitwise(true, a / 2, b / 2, n - 1) && y / 2 == Bitwise(true, b / 2, d / 2, n - 1);
    }
  }

  lemma XorGroups(a: bytes, b: bytes, d: bytes)
    requires |a| == |b| == |d|
    ensures XorBytes(XorBytes(a, b), d) == XorBytes(a, XorBytes(b, d))
  {
    forall i | 0 <= i < |a| ensures XorBytes(XorBytes(a, b), d)[i] == XorBytes(a, XorBytes(b, d))[i] {
      XorGroup(a[i], b[i], d[i]);
    }
  }

  lemma XorGroup(a: byte, b: byte, d: byte)
    ensures Xor(Xor(a, b), d) == Xor(a, Xor(b, d))
  {
    hide Bitwise;
    Pow2Eight();
    BitwiseGroups(a as nat, b as nat, d as nat, 8);
  }

  lemma {:induction false} RepeatedFirst(c: Crypto, password: bytes, u: bytes, k: nat)
    ensures Repeated(c, password, c.hmac(password, u), k) == c.hmac(password, Repeated(c, password, u, k))
  {
    if k > 0 { RepeatedFirst(c, password, u, k - 1); }
  }

  lemma {:induction false} ChainSnoc(c: Crypto, password: bytes, u: bytes, n: nat)
    requires Sized(c) && |u| == 32 && n >= 1
    ensures |Repeated(c, password, u, n)| == 32
    ensures Chain(c, password, u, n + 1) == XorBytes(Chain(c, password, u, n), Repeated(c, password, u, n))
    decreases n
  {
    hide XorBytes;
    var u1 := c.hmac(password, u);
    if n == 1 {
      assert Repeated(c, password, u, 1) == c.hmac(password, Repeated(c, password, u, 0)) == u1;
    } else {
      ChainSnoc(c, password, u1, n - 1);
      RepeatedFirst(c, password, u, n - 1);
      XorGroups(u, Chain(c, password, u1, n - 1), Repeated(c, password, u1, n - 1));
    }
  }

  lemma {:induction false} LinkRepeated(c: Crypto, password: bytes, salt: bytes, k: nat)
    requires k >= 1
    ensures Link(c, password, salt, k) == Repeated(c, password, c.hmac(password, salt + [0, 0, 0, 1]), k - 1)
  {
    if k > 1 { LinkRepeated(c, password, salt, k - 1); }
  }

  /** The salted password is the XOR of U1 = HMAC(password, salt, INT(1)), U2 = HMAC(password, U1)
      and so on, as many as the count says, and at least one. */
  lemma {:induction false} HiIsChain(c: Crypto, password: bytes, salt: bytes, i: nat)
    requires Sized(c)
    ensures Hi(c, password, salt, i) == Chain(c, password, c.hmac(password, salt + [0, 0, 0, 1]), if i <= 1 then 1 else i)
  {
    hide XorBytes, Link;
    var u := c.hmac(password, salt + [0, 0, 0, 1]);
    if i <= 1 {
      LinkRepeated(c, password, salt, 1);
    } else {
      HiIsChain(c, password, salt, i - 1);
      ChainSnoc(c, password, u, i - 1);
      LinkRepeated(c, password, salt, i);
    }
  }

  method Pbkdf2(c: Crypto, password: bytes, salt: bytes, iterations: nat) returns (result: bytes)
    requires Sized(c)
    ensures result == Hi(c, password, salt, iterations)
  {
    hide Xor;
    var u := c.hmac(password, salt + [0, 0, 0, 1]);
    var out := new byte[32](i requires 0 <= i < 32 => u[i]);
    assert out[..] == u;
    var k := 1;
    while k < iterations
      invariant 1 <= k && (k <= iterations || k == 1)
      invariant u == Link(c, password, salt, k) && out[..] == Hi(c, password, salt, k)
    {
      u := c.hmac(password, u);
      ghost var before := out[..];
      for i := 0 to 32
        invariant out[..i] == XorBytes(before, u)[..i] && out[i..] == before[i..]
      {
        ghost var done := out[..i];
        assert out[i] == before[i];
        out[i] := Xor(out[i], u[i]);
        assert out[..i + 1] == done + [out[i]];
      }
      assert out[..] == XorBytes(before, u);
      k := k + 1;
    }
    result := out[..];
  }

  ghost function VerifierOf(c: Crypto, password: string, salt: bytes, iterations: nat): Verifier
    requires Sized(c)
  {
    var salted := Hi(c, c.utf8(password), salt, iterations);
    Verifier(iterations, salt, c.sha256(c.hmac(salted, c.utf8("Client Key"))), c.hmac(salted, c.utf8("Server Key")))
  }

  method VerifierForPassword(c: Crypto, password: string, salt: bytes, iterations: nat) returns (v: Verifier)
    requires Sized(c)
    ensures v == VerifierOf(c, password, salt, iterations)
  {
    var salted := Pbkdf2(c, c.utf8(password), salt, iterations);
    var clientKey := c.hmac(salted, c.utf8("Client Key"));
    v := Verifier(iterations, salt, c.sha256(clientKey), c.hmac(salted, c.utf8("Server Key")));
  }

  // ----- attributes -----

  /** `split(',')`. */
  function Split(s: string): seq<string> {
    SplitOn(s, ',')
  }

  function Stripped(s: string, prefix: string): Option<string> {
    if prefix <= s then Some(s[|prefix|..]) else None
  }

  /** The text after the prefix in the last part that has it. */
  function LastWith(parts: seq<string>, prefix: string): Option<string> {
    if parts == [] then None
    else
      var last := Stripped(parts[|parts| - 1], prefix);
      if last.Some? then last else LastWith(parts[..|parts| - 1], prefix)
  }

  function Attribute(message: string, prefix: string): Option<string> {
    LastWith(Split(message), prefix)
  }

  method FindAttribute(message: string, prefix: string) returns (v: Option<string>)
    ensures v == Attribute(message, prefix)
  {
    var parts := Split(message);
    v := None;
    for i := 0 to |parts|
      invariant v == LastWith(parts[..i], prefix)
    {
      assert parts[..i + 1][..i] == parts[..i];
      var rest := Stripped(parts[i], prefix);
      if rest.Some? { v := rest; }
    }
    assert parts[..|parts|] == parts;
  }

  // ----- the exchange -----

  function Bare(clientFirst: string): Option<string> {
    if "n,," <= clientFirst || "y,," <= clientFirst || "p,," <= clientFirst then Some(clientFirst[3..]) else None
  }

  function ServerFirst(v: Verifier, nonce: string): string {
    "r=" + nonce + (",s=" + Encode(v.salt) + (",i=" + Decimal.Digits(v.iterations)))
  }

  function BeginOf(v: Verifier, clientFirst: string, random: bytes): Result<Exchange, ScramError> {
    var bare := Bare(clientFirst);
    if bare.None? then Err(MalformedFirst)
    else
      var nonce := Attribute(bare.value, "r=");
      if nonce.None? || nonce.value == "" then Err(NoNonce)
      else
        var serverNonce := nonce.value + Encode(random);
        Ok(Exchange(v, serverNonce, bare.value, ServerFirst(v, serverNonce)))
  }

  /** `begin`; the server-first message is kept in the exchange. */
  method Begin(v: Verifier, clientFirst: string, random: bytes) returns (r: Result<Exchange, ScramError>)
    ensures r == BeginOf(v, clientFirst, random)
  {
    hide Attribute, Encode;
    var bare := Bare(clientFirst);
    if bare.None? { return Err(MalformedFirst); }
    var nonce := FindAttribute(bare.value, "r=");
    if nonce.None? || nonce.value == "" { return Err(NoNonce); }
    var code := Base64Encode(random);
    var serverNonce := nonce.value + code;
    return Ok(Exchange(v, serverNonce, bare.value, ServerFirst(v, serverNonce)));
  }

  /** `rsplit_once(",p=")`: the text before the last proof. */
  function BeforeProof(s: string): Option<string>
    decreases |s|
  {
    if |s| < 3 then None
    else if s[|s| - 3..] == ",p=" then Some(s[..|s| - 3])
    else BeforeProof(s[..|s| - 1])
  }

  function AuthMessage(e: Exchange, withoutProof: string): string {
    e.clientFirstBare + "," + (e.serverFirst + "," + withoutProof)
  }

  /** The proof a final message carries: 32 bytes of base64. */
  function Proof(clientFinal: string): Option<bytes> {
    var text := Attribute(clientFinal, "p=");
    if text.None? then None
    else
      var proof := Decode(text.value);
      if proof.None? || |proof.value| != 32 then None else proof
  }

  /** Exactly the final messages the server accepts: the channel binding of "n,,", the server's
      own nonce, and a proof that XORed with the client signature hashes to the stored key. */
  ghost predicate Accepts(c: Crypto, e: Exchange, clientFinal: string)
    requires Sized(c)
  {
    && Attribute(clientFinal, "c=") == Some("biws")
    && Attribute(clientFinal, "r=") == Some(e.serverNonce)
    && Proof(clientFinal).Some? && BeforeProof(clientFinal).Some?
    && var signature := c.hmac(e.verifier.storedKey, c.utf8(AuthMessage(e, BeforeProof(clientFinal).value)));
       c.sha256(XorBytes(Proof(clientFinal).value, signature)) == e.verifier.storedKey
  }

  /** The server-final message. */
  function ServerFinal(c: Crypto, e: Exchange, withoutProof: string): string {
    "v=" + Encode(c.hmac(e.verifier.serverKey, c.utf8(AuthMessage(e, withoutProof))))
  }

  method Verify(c: Crypto, e: Exchange, clientFinal: string) returns (r: Result<string, ScramError>)
    requires Sized(c) && |e.verifier.storedKey| == 32
    ensures r.Ok? <==> Accepts(c, e, clientFinal)
    ensures r.Ok? ==> r.value == ServerFinal(c, e, BeforeProof(clientFinal).value)
    ensures Attribute(clientFinal, "r=") != Some(e.serverNonce) ==>
      r == Err(NonceMismatch) || r == Err(ChannelBinding)
  {
    hide Attribute, Encode, Decode, BeforeProof, Xor;
    var cbind := FindAttribute(clientFinal, "c=");
    var nonce := FindAttribute(clientFinal, "r=");
    var proofText := FindAttribute(clientFinal, "p=");
    if cbind != Some("biws") { return Err(ChannelBinding); }
    if nonce != Some(e.serverNonce) { return Err(NonceMismatch); }
    if proofText.None? { return Err(MalformedProof); }
    var proof := Base64Decode(proofText.value);
    if proof.None? || |proof.value| != 32 { return Err(MalformedProof); }
    var withoutProof := BeforeProof(clientFinal);
    if withoutProof.None? { return Err(MalformedFinal); }
    var auth := AuthMessage(e, withoutProof.value);
    var signature := c.hmac(e.verifier.storedKey, c.utf8(auth));
    var clientKey: bytes := [];
    for i := 0 to 32
      invariant clientKey == XorBytes(proof.value, signature)[..i]
    {
      clientKey := clientKey + [Xor(proof.value[i], signature[i])];
    }
    assert clientKey == XorBytes(proof.value, signature);
    var storedKey := c.sha256(clientKey);
    var diff: byte := 0;
    for i := 0 to 32
      invariant diff == 0 <==> storedKey[..i] == e.verifier.storedKey[..i]
    {
      XorZero(storedKey[i], e.verifier.storedKey[i]);
      XorZero(diff, Xor(storedKey[i], e.verifier.storedKey[i]));
      PrefixMore(storedKey, e.verifier.storedKey, i);
      diff := Or(diff, Xor(storedKey[i], e.verifier.storedKey[i]));
    }
    assert storedKey[..32] == storedKey && e.verifier.storedKey[..32] == e.verifier.storedKey;
    if diff != 0 { return Err(WrongPassword); }
    var code := Base64Encode(c.hmac(e.verifier.serverKey, c.utf8(auth)));
    return Ok("v=" + code);
  }

  lemma PrefixMore(a: bytes, b: bytes, i: nat)
    requires i < |a| && i < |b|
    ensures a[..i + 1] == b[..i + 1] <==> a[..i] == b[..i] && a[i] == b[i]
  {
    assert a[..i + 1] == a[..i] + [a[i]] && b[..i + 1] == b[..i] + [b[i]];
  }

  // ----- the honest client -----

  function ClientFirstBare(user: string, nonce: string): string {
    "n=" + user + (",r=" + nonce)
  }

  function FinalWithoutProof(nonce: string): string {
    "c=biws,r=" + nonce
  }

  /** The client's answer: it reads nonce, salt and count from the server-first message. */
  ghost function ClientFinal(c: Crypto, password: string, bare: string, serverFirst: string): Option<string>
    requires Sized(c)
  {
    var nonce, saltText := Attribute(serverFirst, "r="), Attribute(serverFirst, "s=");
    var count := Attribute(serverFirst, "i=");
    if nonce.None? || saltText.None? || count.None? || !Decimal.AllDigits(count.value) then None
    else
      var salt := Decode(saltText.value);
      if salt.None? then None
      else
        var salted := Hi(c, c.utf8(password), salt.value, Decimal.Value(count.value));
        var clientKey := c.hmac(salted, c.utf8("Client Key"));
        var withoutProof := FinalWithoutProof(nonce.value);
        var signature := c.hmac(c.sha256(clientKey), c.utf8(bare + "," + (serverFirst + "," + withoutProof)));
        Some(withoutProof + (",p=" + Encode(XorBytes(clientKey, signature))))
  }

  // ----- splitting a message built of parts -----

  lemma SplitThree(a: string, b: string, d: string)
    requires ',' !in a && ',' !in b && ',' !in d
    ensures Split(a + ("," + (b + ("," + d)))) == [a, b, d]
  {
    hide SplitOn;
    SplitFirst(a, ',', b + ("," + d));
    SplitFirst(b, ',', d);
    NoneToSplit(d, ',');
  }

  lemma HasPrefix(prefix: string, s: string)
    ensures Stripped(prefix + s, prefix) == Some(s)
  {
  }

  lemma OtherPrefix(prefix: string, other: string, s: string)
    requires prefix != "" && other != "" && prefix[0] != other[0]
    ensures Stripped(other + s, prefix) == None
  {
    assert (other + s)[0] == other[0];
  }

  lemma LastStep(parts: seq<string>, last: string, prefix: string)
    ensures LastWith(parts + [last], prefix) ==
      if Stripped(last, prefix).Some? then Stripped(last, prefix) else LastWith(parts, prefix)
  {
    assert (parts + [last])[..|parts|] == parts;
  }

  /** Three parts with different prefixes. */
  lemma LastOfThree(a: string, b: string, d: string, prefix: string)
    ensures LastWith([a, b, d], prefix) ==
      if Stripped(d, prefix).Some? then Stripped(d, prefix)
      else if Stripped(b, prefix).Some? then Stripped(b, prefix) else Stripped(a, prefix)
  {
    hide LastWith, Stripped;
    LastOfTwo(a, b, prefix);
    LastStep([a, b], d, prefix);
    assert [a, b] + [d] == [a, b, d];
  }

  lemma LastOfTwo(a: string, b: string, prefix: string)
    ensures LastWith([a, b], prefix) == if Stripped(b, prefix).Some? then Stripped(b, prefix) else Stripped(a, prefix)
  {
    LastStep([a], b, prefix);
    LastStep([], a, prefix);
    assert [a] + [b] == [a, b] && [] + [a] == [a];
    assert LastWith([], prefix) == None;
  }

  /** The nonce comes last, so it is found whatever the user name holds. */
  lemma BareNonce(user: string, nonce: string)
    requires ',' !in nonce
    ensures Attribute(ClientFirstBare(user, nonce), "r=") == Some(nonce)
  {
    hide LastWith, SplitOn, Stripped;
    var a, b := "n=" + user, "r=" + nonce;
    assert ",r=" + nonce == [','] + b;
    SplitLast(a, ',', b);
    LastStep(Split(a), b, "r=");
    HasPrefix("r=", nonce);
  }

  lemma ServerAttributes(v: Verifier, nonce: string)
    requires ',' !in nonce
    ensures Attribute(ServerFirst(v, nonce), "r=") == Some(nonce)
    ensures Attribute(ServerFirst(v, nonce), "s=") == Some(Encode(v.salt))
    ensures Attribute(ServerFirst(v, nonce), "i=") == Some(Decimal.Digits(v.iterations))
  {
    hide LastWith, Split, Encode, Stripped, Decimal.Digits;
    var salt, count := Encode(v.salt), Decimal.Digits(v.iterations);
    EncodeNoComma(v.salt);
    assert ',' !in count;
    var a, b, d := "r=" + nonce, "s=" + salt, "i=" + count;
    ThreeParts(nonce, salt, count);
    SplitThree(a, b, d);
    LastOfThree(a, b, d, "r=");
    LastOfThree(a, b, d, "s=");
    LastOfThree(a, b, d, "i=");
    HasPrefix("r=", nonce); HasPrefix("s=", salt); HasPrefix("i=", count);
    OtherPrefix("r=", "s=", salt); OtherPrefix("r=", "i=", count); OtherPrefix("s=", "i=", count);
  }

  lemma ThreeParts(nonce: string, salt: string, count: string)
    ensures "r=" + nonce + (",s=" + salt + (",i=" + count)) == "r=" + nonce + ("," + ("s=" + salt + ("," + ("i=" + count))))
  {
    assert ",s=" == "," + "s=" && ",i=" == "," + "i=";
    assert ",i=" + count == "," + ("i=" + count);
    assert ",s=" + salt + ("," + ("i=" + count)) == "," + ("s=" + salt + ("," + ("i=" + count)));
  }

  lemma FinalAttributes(nonce: string, code: string)
    requires ',' !in nonce && ',' !in code
    ensures var final := FinalWithoutProof(nonce) + (",p=" + code);
      && Attribute(final, "c=") == Some("biws") && Attribute(final, "r=") == Some(nonce) && Attribute(final, "p=") == Some(code)
  {
    hide LastWith, Split, Stripped;
    var a, b, d := "c=" + "biws", "r=" + nonce, "p=" + code;
    FinalParts(nonce, code);
    SplitThree(a, b, d);
    LastOfThree(a, b, d, "c=");
    LastOfThree(a, b, d, "r=");
    LastOfThree(a, b, d, "p=");
    HasPrefix("c=", "biws"); HasPrefix("r=", nonce); HasPrefix("p=", code);
    OtherPrefix("c=", "r=", nonce); OtherPrefix("c=", "p=", code); OtherPrefix("r=", "p=", code);
  }

  lemma FinalParts(nonce: string, code: string)
    ensures FinalWithoutProof(nonce) + (",p=" + code) == "c=" + "biws" + ("," + ("r=" + nonce + ("," + ("p=" + code))))
  {
    assert "c=" + "biws" == "c=biws";
    assert "c=biws,r=" == "c=biws" + ("," + "r=");
    assert ",p=" + code == "," + ("p=" + code);
    assert FinalWithoutProof(nonce) == "c=biws" + ("," + ("r=" + nonce));
  }

  /** The proof is the last attribute: what comes before it is found again. */
  lemma {:induction false} FindsProof(head: string, code: string)
    requires ',' !in code
    ensures BeforeProof(head + (",p=" + code)) == Some(head)
    decreases |code|
  {
    var s := head + (",p=" + code);
    if code == "" {
      assert s[|s| - 3..] == ",p=" && s[..|s| - 3] == head;
    } else {
      var short := code[..|code| - 1];
      assert forall x | x in short :: x in code;
      FindsProof(head, short);
      assert s[..|s| - 1] == head + (",p=" + short);
      NotProof(head, code);
    }
  }

  lemma NotProof(head: string, code: string)
    requires ',' !in code && code != ""
    ensures var s := head + (",p=" + code); s[|s| - 3..] != ",p="
  {
    var s := head + (",p=" + code);
    if |code| >= 3 {
      assert s[|s| - 3] == code[|code| - 3] && code[|code| - 3] in code;
    } else if |code| == 2 {
      assert s[|s| - 3] == '=';
    } else {
      assert s[|s| - 3] == 'p';
    }
  }

  /** The binding the server asks for is the base64 form of the header "n,,", and of no other. */
  lemma BindingIsHeader(header: bytes)
    ensures Encode(header) == "biws" <==> header == [110, 44, 44]
  {
    assert Pack([110, 44, 44]) == 7220268;
    assert Sextet(7220268, 0) == 27 && Sextet(7220268, 1) == 34 && Sextet(7220268, 2) == 48 && Sextet(7220268, 3) == 44;
    assert Encode([110, 44, 44]) == "biws";
    hide Encode, Decode;
    DecodeEncode(header);
    DecodeEncode([110, 44, 44]);
  }

  /** `Begin` also takes the headers "y,," and "p,,", but a client that binds the header it sent
      is never accepted then. */
  lemma OtherHeadersRefused(c: Crypto, e: Exchange, header: bytes, clientFinal: string)
    requires Sized(c) && header in {[121, 44, 44], [112, 44, 44]}
    requires Attribute(clientFinal, "c=") == Some(Encode(header))
    ensures !Accepts(c, e, clientFinal)
  {
    hide Attribute, Encode, BeforeProof, Decode, Xor;
    assert header[0] != 110;
    BindingIsHeader(header);
  }

  // ----- completeness -----

  /** The server-final message the client waits for: the signature made with the password. */
  ghost function ExpectedFinal(c: Crypto, password: string, salt: bytes, iterations: nat, auth: string): string
    requires Sized(c)
  {
    "v=" + Encode(c.hmac(c.hmac(Hi(c, c.utf8(password), salt, iterations), c.utf8("Server Key")), c.utf8(auth)))
  }

  /** The honest exchange is accepted, and the server answers with the signature that the client
      computes from its password, for every password, salt, count, user name and comma-free nonce. */
  lemma HonestAccepted(c: Crypto, password: string, salt: bytes, iterations: nat, user: string, nonce: string, random: bytes)
    requires Sized(c) && ',' !in nonce && nonce != ""
    ensures var v, bare := VerifierOf(c, password, salt, iterations), ClientFirstBare(user, nonce);
      var begun := BeginOf(v, "n,," + bare, random);
      && begun.Ok? && begun.value.verifier == v
      && var e := begun.value;
         var final, full := ClientFinal(c, password, bare, e.serverFirst), nonce + Encode(random);
         && final.Some? && Accepts(c, e, final.value)
         && ServerFinal(c, e, BeforeProof(final.value).value)
            == ExpectedFinal(c, password, salt, iterations, bare + "," + (e.serverFirst + "," + FinalWithoutProof(full)))
  {
    hide Attribute, Encode, Decode, BeforeProof, Xor, Hi, Decimal.Digits, Decimal.Value, ServerFirst, ClientFirstBare,
         FinalWithoutProof, ClientFinal, Accepts, ServerFinal, ExpectedFinal;
    var v, bare := VerifierOf(c, password, salt, iterations), ClientFirstBare(user, nonce);
    assert ("n,," + bare)[..3] == "n,," && ("n,," + bare)[3..] == bare;
    BareNonce(user, nonce);
    EncodeNoComma(random);
    var full := nonce + Encode(random);
    var e := BeginOf(v, "n,," + bare, random).value;
    assert e == Exchange(v, full, bare, ServerFirst(v, full));
    HonestProof(c, password, v, salt, iterations, bare, full);
  }

  lemma HonestProof(c: Crypto, password: string, v: Verifier, salt: bytes, iterations: nat, bare: string, full: string)
    requires Sized(c) && ',' !in full && v == VerifierOf(c, password, salt, iterations)
    ensures var e := Exchange(v, full, bare, ServerFirst(v, full));
      var final := ClientFinal(c, password, bare, e.serverFirst);
      && final.Some? && Accepts(c, e, final.value)
      && ServerFinal(c, e, BeforeProof(final.value).value)
         == ExpectedFinal(c, password, salt, iterations, bare + "," + (e.serverFirst + "," + FinalWithoutProof(full)))
  {
    hide Attribute, Encode, Decode, BeforeProof, Xor, Hi, Decimal.Digits, Decimal.Value, ServerFirst, FinalWithoutProof;
    ServerAttributes(v, full);
    DecodeEncode(salt);
    Decimal.ValueDigits(iterations);
    var salted := Hi(c, c.utf8(password), salt, iterations);
    var clientKey := c.hmac(salted, c.utf8("Client Key"));
    var head := FinalWithoutProof(full);
    var e := Exchange(v, full, bare, ServerFirst(v, full));
    var signature := c.hmac(v.storedKey, c.utf8(AuthMessage(e, head)));
    var proof := XorBytes(clientKey, signature);
    var code := Encode(proof);
    assert ClientFinal(c, password, bare, e.serverFirst) == Some(head + (",p=" + code));
    EncodeNoComma(proof);
    FinalAttributes(full, code);
    FindsProof(head, code);
    DecodeEncode(proof);
    XorBytesBack(clientKey, signature);
  }
}

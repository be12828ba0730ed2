/** `to_number` reads back what `to_char` prints with a sign style, as it does without one. */
module NumSignsBack {
  import opened Integers
  import opened Text
  import opened Wrappers
  import opened Decimal
  import opened NumPicture
  import opened NumToChar
  import opened NumFromChar
  import opened NumRoundTrip
  import opened NumSigns

  // ----- a styled reader beside a plain one -----

  predicate Inked(c: char) {
    c == ' ' || IsDigit(c) || c == '.' || c == ','
  }

  predicate Signing(c: char) {
    c == '+' || c == '-'
  }

  /** The styled text has e in the place of the sign, which stands for the sign m. */
  predicate Stands(d: Picture, e: char, m: char) {
    (e == m && Signing(m)) || (e == '<' && m == '-' && d.bracket && d.lsign == 0)
  }

  /** r reads the text of p further on, followed by `tail`; p has its minus at `dash`, or none if
      that is negative, and r has the mark of the sign m there. */
  ghost predicate Beside(p: Reader, r: Reader, dash: int, m: char, tail: string) {
    && PlainFlags(p.desc) && !r.desc.fillmode && r.desc.decimal == p.desc.decimal && r.desc.post == p.desc.post
    && p.inputP <= |p.input| && p.inputP <= r.inputP
    && |r.input| == r.inputP - p.inputP + |p.input| + |tail|
    && (forall i | 0 <= i < |tail| :: r.input[r.inputP - p.inputP + |p.input| + i] == tail[i])
    && (forall i | 0 <= i < |p.input| && i != dash :: r.input[r.inputP - p.inputP + i] == p.input[i] && Inked(p.input[i]))
    && -1 <= dash < |p.input| && (forall i | 0 <= i < dash :: p.input[i] == ' ')
    && (dash >= 0 ==> p.input[dash] == '-' && Stands(r.desc, r.input[r.inputP - p.inputP + dash], m))
    && p.input != "" && IsDigit(p.input[|p.input| - 1])
  }

  /** Both have collected the same digits, and p an open sign or the minus where r has m. */
  ghost predicate Level(p: Reader, r: Reader, dash: int, m: char) {
    && r.readPre == p.readPre && r.readPost == p.readPost && r.readDec == p.readDec && !p.badRoman && !r.badRoman
    && |p.out| >= 1 && |r.out| >= 1 && p.out[1..] == r.out[1..]
    && (r.readPre + r.readPost == 0 ==> r.out[1..] == if r.readDec then "." else "")
    && (if dash < 0 then p.out[0] == ' ' && r.out[0] == m
        else (p.out[0] == '-' && r.out[0] == m) || (p.out[0] == ' ' && r.out[0] == ' '))
    && (p.inputP <= dash ==> p.out[0] == ' ' && p.readPre + p.readPost == 0)
  }

  /** The sign behind the number is seen with the last digit. */
  predicate Loud(d: Picture, tail: string) {
    d.lsign != 0 && tail != "" && Signing(tail[0])
  }

  function Blanked(r: Reader): Reader
    requires !Over(r)
  {
    if r.input[r.inputP] == ' ' then Skip(r) else r
  }

  lemma PartIs(r: Reader, n: Node)
    requires !Over(r) && Stop(n) && !Over(Blanked(r)) && !Over(ReadSign(Blanked(r), n))
    ensures var (r3, isread) := ReadDigit(ReadSign(Blanked(r), n));
      !Over(r3) && ScanNode(r, n) == (Skip(ReadTrailing(r3, isread)), true)
  {
    hide ReadSign, ReadTrailing;
    DigitStays(ReadSign(Blanked(r), n));
  }

  lemma DigitStays(r: Reader)
    requires !Over(r)
    ensures var r1 := ReadDigit(r).0; r1.inputP == r.inputP && r1.input == r.input && r1.desc == r.desc
  {
  }

  /** Blanks are passed together. */
  lemma BlankedBeside(p: Reader, r: Reader, dash: int, m: char, tail: string)
    requires Beside(p, r, dash, m, tail) && Level(p, r, dash, m) && !Over(p)
    ensures !Over(r) && Beside(Blanked(p), Blanked(r), dash, m, tail) && Level(Blanked(p), Blanked(r), dash, m)
    ensures !Over(Blanked(p)) && !Over(Blanked(r))
  {
    hide PlainFlags;
    assert p.inputP == dash || (r.input[r.inputP - p.inputP + p.inputP] == p.input[p.inputP]);
  }

  lemma SignBeside(p: Reader, r: Reader, n: Node, dash: int, m: char, tail: string)
    requires Beside(p, r, dash, m, tail) && Level(p, r, dash, m) && !Over(p) && !Over(r)
    ensures var p1, r1 := ReadSign(p, n), ReadSign(r, n);
      !Over(p1) && !Over(r1) && Beside(p1, r1, dash, m, tail) && Level(p1, r1, dash, m)
      && r1.desc == r.desc && p1.desc == p.desc
  {
    if p.inputP == dash {
      SignAtDash(p, r, n, dash, m, tail);
    } else {
      assert r.input[r.inputP - p.inputP + p.inputP] == p.input[p.inputP];
      assert ReadSign(p, n) == p && ReadSign(r, n) == r by { NoSignHere(p, n); NoSignHere(r, n); }
    }
  }

  lemma NoSignHere(r: Reader, n: Node)
    requires !Over(r) && Inked(r.input[r.inputP])
    ensures ReadSign(r, n) == r
  {
  }

  lemma SignAtDash(p: Reader, r: Reader, n: Node, dash: int, m: char, tail: string)
    requires Beside(p, r, dash, m, tail) && Level(p, r, dash, m) && p.inputP == dash && !Over(p) && !Over(r)
    ensures var p1, r1 := ReadSign(p, n), ReadSign(r, n);
      !Over(p1) && !Over(r1) && Beside(p1, r1, dash, m, tail) && Level(p1, r1, dash, m)
      && r1.desc == r.desc && p1.desc == p.desc
  {
    if IsSlot(n) {
      MinusTaken(p, n);
      MarkTaken(r, n, m);
      assert SetSign(p, '-').out[1..] == p.out[1..] && SetSign(r, m).out[1..] == r.out[1..];
    }
  }

  lemma MinusTaken(p: Reader, n: Node)
    requires PlainFlags(p.desc) && IsSlot(n) && !Over(p) && p.input[p.inputP] == '-' && SignOpen(p) && p.readPre + p.readPost == 0
    ensures ReadSign(p, n) == Skip(SetSign(p, '-'))
  {
  }

  lemma MarkTaken(r: Reader, n: Node, m: char)
    requires IsSlot(n) && !Over(r) && Stands(r.desc, r.input[r.inputP], m) && SignOpen(r) && r.readPre + r.readPost == 0
    ensures ReadSign(r, n) == Skip(SetSign(r, m))
  {
  }

  /** Only the places and the pictures matter. */
  lemma BesideKept(p: Reader, r: Reader, p1: Reader, r1: Reader, dash: int, m: char, tail: string)
    requires Beside(p, r, dash, m, tail)
    requires p1.input == p.input && r1.input == r.input && p1.desc == p.desc && r1.desc == r.desc
    requires p1.inputP <= |p.input| && r1.inputP - p1.inputP == r.inputP - p.inputP
    ensures Beside(p1, r1, dash, m, tail)
  {
  }

  lemma SameInk(p: Reader, r: Reader, dash: int, m: char, tail: string)
    requires Beside(p, r, dash, m, tail) && !Over(p)
    ensures !Over(r) && r.desc.decimal == p.desc.decimal && r.desc.post == p.desc.post
    ensures var c, e := p.input[p.inputP], r.input[r.inputP];
      && IsDigit(c) == IsDigit(e) && (c == '.' <==> e == '.') && (c == ',' <==> e == ',') && (p.inputP != dash ==> c == e && Inked(c))
      && (p.inputP < dash ==> c == ' ') && (p.inputP == dash ==> !IsDigit(c) && c != '.' && c != ',')
  {
    if p.inputP != dash {
      assert r.input[r.inputP - p.inputP + p.inputP] == p.input[p.inputP];
    }
  }

  lemma Snoc(a: string, c: char)
    requires |a| >= 1
    ensures (a + [c])[1..] == a[1..] + [c] && (a + [c])[0] == a[0]
  {
  }

  /** Digits and the point are collected together. */
  lemma DigitBeside(p: Reader, r: Reader, dash: int, m: char, tail: string)
    requires Beside(p, r, dash, m, tail) && Level(p, r, dash, m) && !Over(p) && !Over(r)
    ensures var (p1, i), (r1, j) := ReadDigit(p), ReadDigit(r);
      && i == j && Level(p1.(inputP := p.inputP + 1), r1.(inputP := r.inputP + 1), dash, m)
      && p1.inputP == p.inputP && r1.inputP == r.inputP && r1.desc == r.desc && p1.desc == p.desc
      && p1.input == p.input && r1.input == r.input && (i ==> p.inputP > dash)
  {
    SameInk(p, r, dash, m, tail);
    hide Beside;
    Snoc(p.out, p.input[p.inputP]);
    Snoc(r.out, r.input[r.inputP]);
  }

  lemma QuietIf(r: Reader, isread: bool)
    requires !Over(r)
    requires SignOpen(r) && r.readPre + r.readPost > 0 ==>
      && !Signing(r.input[r.inputP])
      && (r.desc.lsign != 0 && r.inputP + 1 < |r.input| ==> !Signing(r.input[r.inputP + 1]))
    ensures ReadTrailing(r, isread) == r
  {
  }

  lemma QuietPlain(p: Reader, isread: bool)
    requires !Over(p) && PlainFlags(p.desc)
    ensures ReadTrailing(p, isread) == p
  {
  }

  /** The character behind is one of the tail. */
  lemma NextIsTail(p: Reader, r: Reader, dash: int, m: char, tail: string)
    requires Beside(p, r, dash, m, tail) && p.inputP + 1 == |p.input|
    ensures p.inputP > dash && (r.inputP + 1 < |r.input| ==> tail != "" && r.input[r.inputP + 1] == tail[0])
  {
    assert r.inputP + 1 < |r.input| ==> r.input[r.inputP - p.inputP + |p.input| + 0] == tail[0];
  }

  /** No sign is here or behind, but in a tail. */
  lemma NoSignNear(p: Reader, r: Reader, dash: int, m: char, tail: string)
    requires Beside(p, r, dash, m, tail) && p.inputP > dash && !Over(p)
    requires !Loud(r.desc, tail) || p.inputP + 1 < |p.input|
    ensures !Over(r) && !Signing(r.input[r.inputP])
    ensures r.desc.lsign != 0 && r.inputP + 1 < |r.input| ==> !Signing(r.input[r.inputP + 1])
  {
    SameInk(p, r, dash, m, tail);
    if p.inputP + 1 < |p.input| {
      BesideKept(p, r, Skip(p), Skip(r), dash, m, tail);
      SameInk(Skip(p), Skip(r), dash, m, tail);
    } else {
      NextIsTail(p, r, dash, m, tail);
    }
  }

  /** No sign is seen behind the digits, but in a tail. */
  lemma QuietBeside(p: Reader, r: Reader, dash: int, m: char, tail: string)
    requires Beside(p, r, dash, m, tail) && Level(p, r, dash, m) && !Over(p) && !Over(r)
    requires !Loud(r.desc, tail) || p.inputP + 1 < |p.input|
    ensures !Over(ReadDigit(p).0) && !Over(ReadDigit(r).0)
    ensures ReadTrailing(ReadDigit(p).0, ReadDigit(p).1) == ReadDigit(p).0
    ensures ReadTrailing(ReadDigit(r).0, ReadDigit(r).1) == ReadDigit(r).0
  {
    assert PlainFlags(p.desc) by { PlainBeside(p, r, dash, m, tail); }
    assert ReadDigit(r).1 == ReadDigit(p).1 && (ReadDigit(p).1 ==> p.inputP > dash) by { DigitBeside(p, r, dash, m, tail); }
    if p.inputP > dash { NoSignNear(p, r, dash, m, tail); }
    NothingYet(p, r, dash, m);
    DigitStays(p);
    DigitStays(r);
    hide Beside, PlainFlags, Level, ReadDigit, ReadTrailing, Loud;
    QuietPlain(ReadDigit(p).0, ReadDigit(p).1);
    OpenBefore(r);
    QuietIf(ReadDigit(r).0, ReadDigit(r).1);
  }

  lemma OpenBefore(r: Reader)
    requires |r.out| >= 1 && !Over(r)
    ensures SignOpen(ReadDigit(r).0) ==> SignOpen(r)
  {
    Snoc(r.out, r.input[r.inputP]);
  }

  lemma PlainBeside(p: Reader, r: Reader, dash: int, m: char, tail: string)
    requires Beside(p, r, dash, m, tail)
    ensures PlainFlags(p.desc)
  {
  }

  lemma NothingYet(p: Reader, r: Reader, dash: int, m: char)
    requires Level(p, r, dash, m) && !Over(r)
    ensures |r.out| >= 1 && (p.inputP <= dash ==> r.readPre + r.readPost == 0)
    ensures var (r1, j) := ReadDigit(r); !j ==> r1.readPre + r1.readPost == r.readPre + r.readPost
  {
  }

  /** Behind a blank and a sign. */
  function PastSign(r: Reader, n: Node): Reader
    requires !Over(r)
  {
    if Over(Blanked(r)) then r else ReadSign(Blanked(r), n)
  }

  lemma BothSigned(p: Reader, r: Reader, n: Node, dash: int, m: char, tail: string)
    requires Beside(p, r, dash, m, tail) && Level(p, r, dash, m) && !Over(p) && Stop(n)
    ensures !Over(r)
    ensures var p1, r1 := PastSign(p, n), PastSign(r, n);
      && !Over(p1) && !Over(r1) && Beside(p1, r1, dash, m, tail) && Level(p1, r1, dash, m)
      && p1.desc == p.desc && r1.desc == r.desc && PlainFlags(p.desc)
      && ScanNode(p, n) == (Skip(ReadDigit(p1).0), true)
      && ScanNode(r, n) == (Skip(ReadTrailing(ReadDigit(r1).0, ReadDigit(r1).1)), true)
  {
    hide Beside, Level, ReadSign, ReadDigit, ReadTrailing, ScanNode;
    assert PlainFlags(p.desc) by { PlainBeside(p, r, dash, m, tail); }
    hide PlainFlags;
    BlankedBeside(p, r, dash, m, tail);
    SignBeside(Blanked(p), Blanked(r), n, dash, m, tail);
    PartIs(p, n);
    PartIs(r, n);
    DigitStays(PastSign(p, n));
    QuietPlain(ReadDigit(PastSign(p, n)).0, ReadDigit(PastSign(p, n)).1);
  }

  /** One slot or point for both. */
  lemma PartBeside(p: Reader, r: Reader, n: Node, dash: int, m: char, tail: string)
    requires Beside(p, r, dash, m, tail) && Level(p, r, dash, m) && !Over(p) && Stop(n)
    requires !Loud(r.desc, tail) || !Over(ScanNode(p, n).0)
    ensures var (p1, i), (r1, j) := ScanNode(p, n), ScanNode(r, n);
      i && j && Beside(p1, r1, dash, m, tail) && Level(p1, r1, dash, m) && r1.desc == r.desc && p1.desc == p.desc
  {
    hide Beside, Level, ReadDigit, ReadTrailing, ScanNode, PastSign, Loud;
    BothSigned(p, r, n, dash, m, tail);
    var p1, r1 := PastSign(p, n), PastSign(r, n);
    DigitBeside(p1, r1, dash, m, tail);
    QuietBeside(p1, r1, dash, m, tail);
    BesideKept(p1, r1, Skip(ReadDigit(p1).0), Skip(ReadDigit(r1).0), dash, m, tail);
  }

  lemma SignKeeps(r: Reader, n: Node)
    requires !Over(r)
    ensures ReadSign(r, n).input == r.input && ReadSign(r, n).desc == r.desc
  {
  }

  lemma NodeBeside(p: Reader, r: Reader, n: Node, dash: int, m: char, tail: string)
    requires Beside(p, r, dash, m, tail) && Level(p, r, dash, m) && !Over(p) && (Stop(n) || n == Comma)
    requires !Loud(r.desc, tail) || !Over(ScanNode(p, n).0) || n == Comma
    ensures var (p1, i), (r1, j) := ScanNode(p, n), ScanNode(r, n);
      i && j && Beside(p1, r1, dash, m, tail) && Level(p1, r1, dash, m) && r1.desc == r.desc && p1.desc == p.desc
      && p1.input == p.input && r1.input == r.input
  {
    if n == Comma {
      CommaBeside(p, r, dash, m, tail);
    } else {
      hide Beside, Level;
      PartBeside(p, r, n, dash, m, tail);
      InputKept(p, n);
      InputKept(r, n);
    }
  }

  lemma InputKept(r: Reader, n: Node)
    requires Stop(n)
    ensures ScanNode(r, n).0.input == r.input && ScanNode(r, n).0.desc == r.desc
  {
    hide ReadSign, ReadDigit, ReadTrailing;
    if !Over(r) {
      var r1 := Blanked(r);
      if !Over(r1) {
        SignKeeps(r1, n);
        if !Over(ReadSign(r1, n)) {
          DigitStays(ReadSign(r1, n));
          var (r3, isread) := ReadDigit(ReadSign(r1, n));
          TrailingKeeps(r3, isread);
        }
      }
    }
  }

  lemma TrailingKeeps(r: Reader, isread: bool)
    requires !Over(r)
    ensures ReadTrailing(r, isread).input == r.input && ReadTrailing(r, isread).desc == r.desc
  {
  }

  lemma CommaBeside(p: Reader, r: Reader, dash: int, m: char, tail: string)
    requires Beside(p, r, dash, m, tail) && Level(p, r, dash, m) && !Over(p)
    ensures var (p1, i), (r1, j) := ScanNode(p, Comma), ScanNode(r, Comma);
      i && j && Beside(p1, r1, dash, m, tail) && Level(p1, r1, dash, m) && r1.desc == r.desc && p1.desc == p.desc
      && p1.input == p.input && r1.input == r.input
  {
    SameInk(p, r, dash, m, tail);
    if p.input[p.inputP] == ',' {
      BesideKept(p, r, Skip(p), Skip(r), dash, m, tail);
    }
  }

  /** The places still to come are those of the picture. */
  ghost predicate Room(p: Reader) {
    if p.readDec then p.readPost + |p.input| - p.inputP <= p.desc.post
    else p.readPost == 0 && forall i | p.inputP <= i < |p.input| && p.input[i] == '.' :: |p.input| - i - 1 <= p.desc.post
  }

  lemma RoomKept(p: Reader, n: Node)
    requires Room(p) && PlainFlags(p.desc) && !Over(p) && (Stop(n) || n == Comma) && ScanNode(p, n).1
    ensures Room(ScanNode(p, n).0)
  {
    if n == Comma {
      hide PlainFlags;
    } else {
      hide ScanNode, ReadDigit, ReadSign, ReadTrailing, PlainFlags, Room;
      PartMore(p, n);
      var p0 := Blanked(p);
      SignMoves(p0, n);
      PartIs(p, n);
      RoomOn(p, p0);
      RoomOn(p0, ReadSign(p0, n));
      RoomDigit(ReadSign(p0, n));
      DigitStays(ReadSign(p0, n));
      QuietPlain(ReadDigit(ReadSign(p0, n)).0, ReadDigit(ReadSign(p0, n)).1);
    }
  }

  lemma PartMore(p: Reader, n: Node)
    requires !Over(p) && Stop(n) && ScanNode(p, n).1
    ensures !Over(Blanked(p)) && !Over(ReadSign(Blanked(p), n))
  {
    hide ReadSign, ReadDigit, ReadTrailing;
  }

  lemma SignMoves(p: Reader, n: Node)
    requires !Over(p)
    ensures var p1 := ReadSign(p, n);
      && p1.inputP >= p.inputP && p1.input == p.input && p1.desc == p.desc
      && p1.readDec == p.readDec && p1.readPost == p.readPost
  {
  }

  lemma RoomDigit(p: Reader)
    requires Room(p) && !Over(p)
    ensures Room(Skip(ReadDigit(p).0))
  {
  }

  /** The last digit of a styled text takes the sign behind it along. */
  lemma LastLoud(p: Reader, r: Reader, n: Node, tail: string)
    requires Beside(p, r, -1, ' ', tail) && Level(p, r, -1, ' ') && !Over(p) && Stop(n) && Room(p)
    requires Loud(r.desc, tail) && |tail| == 1 && Over(ScanNode(p, n).0)
    ensures ScanNode(p, n).1 && ScanNode(r, n).1 && |ScanNode(p, n).0.out| >= 1
    ensures var p1, r1 := ScanNode(p, n).0, ScanNode(r, n).0;
      Over(r1) && r1.out == [tail[0]] + p1.out[1..] && !r1.badRoman && r1.desc == r.desc
  {
    hide Beside, Level, ReadDigit, ReadTrailing, ScanNode, Room, Loud, PastSign, PlainFlags, ReadSign, Over;
    BothSigned(p, r, n, -1, ' ', tail);
    var p1, r1 := PastSign(p, n), PastSign(r, n);
    RoomSigned(p, n);
    LastPlace(p1);
    DigitLoud(p1, r1, tail);
  }

  lemma LastPlace(p: Reader)
    requires !Over(p) && Over(Skip(ReadDigit(p).0))
    ensures p.inputP + 1 == |p.input|
  {
    hide ReadDigit;
    DigitStays(p);
  }

  lemma RoomSigned(p: Reader, n: Node)
    requires !Over(p) && Room(p)
    ensures Room(PastSign(p, n))
  {
    hide Room, ReadSign;
    if !Over(Blanked(p)) {
      SignMoves(Blanked(p), n);
      RoomOn(p, PastSign(p, n));
    }
  }

  lemma DigitLoud(p: Reader, r: Reader, tail: string)
    requires Beside(p, r, -1, ' ', tail) && Level(p, r, -1, ' ') && !Over(p) && !Over(r) && Room(p)
    requires Loud(r.desc, tail) && |tail| == 1 && p.inputP + 1 == |p.input|
    ensures !Over(ReadDigit(r).0) && |ReadDigit(p).0.out| >= 1
    ensures var r1 := Skip(ReadTrailing(ReadDigit(r).0, ReadDigit(r).1));
      Over(r1) && r1.out == [tail[0]] + Skip(ReadDigit(p).0).out[1..] && !r1.badRoman && r1.desc == r.desc
  {
    hide Beside, Level, ReadDigit, ReadTrailing, Room;
    DigitBeside(p, r, -1, ' ', tail);
    NextIsTail(p, r, -1, ' ', tail);
    DigitRead(p, r, tail);
    var r3 := ReadDigit(r).0;
    StillOpen(p, r);
    TakesTail(r3);
    SameDigits(ReadDigit(p).0, r3, -1, ' ');
  }

  lemma RoomOn(p: Reader, p1: Reader)
    requires Room(p) && p1.inputP >= p.inputP && p1.input == p.input && p1.desc == p.desc
    requires p1.readDec == p.readDec && p1.readPost == p.readPost
    ensures Room(p1)
  {
  }

  lemma DigitRead(p: Reader, r: Reader, tail: string)
    requires Beside(p, r, -1, ' ', tail) && Level(p, r, -1, ' ') && Room(p) && p.inputP + 1 == |p.input| && |tail| == 1
    ensures !Over(r) && ReadDigit(p).1 && r.inputP + 2 == |r.input|
    ensures ReadDigit(r).1 ==> ReadDigit(r).0.readPre + ReadDigit(r).0.readPost > 0
  {
  }

  lemma StillOpen(p: Reader, r: Reader)
    requires Level(p, r, -1, ' ') && !Over(r)
    ensures var r3 := ReadDigit(r).0; SignOpen(r3) && |r3.out| >= 1 && forall c :: SetSign(r3, c).out == [c] + r3.out[1..]
  {
    Snoc(r.out, r.input[r.inputP]);
  }

  lemma TakesTail(r: Reader)
    requires SignOpen(r) && r.readPre + r.readPost > 0 && r.desc.lsign != 0 && r.inputP + 1 < |r.input|
    requires Signing(r.input[r.inputP + 1])
    ensures ReadTrailing(r, true) == Skip(SetSign(r, r.input[r.inputP + 1]))
  {
  }

  lemma SameDigits(p: Reader, r: Reader, dash: int, m: char)
    requires Level(p.(inputP := p.inputP + 1), r.(inputP := r.inputP + 1), dash, m)
    ensures |p.out| >= 1 && |r.out| >= 1 && p.out[1..] == r.out[1..] && !r.badRoman
  {
  }

  // ----- the whole text -----

  /** The styled reader is where the plain one is, and a sign seen with the last digit is ahead. */
  ghost predicate Follows(p: Reader, r: Reader, dash: int, m: char, tail: string) {
    && Beside(p, r, dash, m, tail) && Level(p, r, dash, m)
    && (Loud(r.desc, tail) ==> dash == -1 && m == ' ' && |tail| == 1 && Room(p) && !Over(p))
  }

  /** The plain reader has read everything. */
  ghost predicate Arrives(p: Reader, r: Reader, dash: int, m: char, tail: string) {
    && Over(p) && |p.out| >= 1
    && (if Loud(r.desc, tail) then Over(r) && r.out == [tail[0]] + p.out[1..] && !r.badRoman
        else Beside(p, r, dash, m, tail) && Level(p, r, dash, m))
  }

  lemma FollowStep(p: Reader, r: Reader, n: Node, dash: int, m: char, tail: string)
    requires Follows(p, r, dash, m, tail) && !Over(p) && (Stop(n) || n == Comma)
    requires !(Loud(r.desc, tail) && Stop(n) && Over(ScanNode(p, n).0))
    ensures ScanNode(p, n).1 && ScanNode(r, n).1 && Follows(ScanNode(p, n).0, ScanNode(r, n).0, dash, m, tail)
    ensures ScanNode(r, n).0.desc == r.desc
  {
    hide ScanNode, Beside, Level, Room, PlainFlags;
    NodeBeside(p, r, n, dash, m, tail);
    if Loud(r.desc, tail) {
      PlainBeside(p, r, dash, m, tail);
      RoomKept(p, n);
      if n == Comma { CommaNotLast(p, r, dash, m, tail); }
    }
  }

  lemma CommaNotLast(p: Reader, r: Reader, dash: int, m: char, tail: string)
    requires Beside(p, r, dash, m, tail) && !Over(p)
    ensures !Over(ScanNode(p, Comma).0)
  {
  }

  lemma FollowLast(p: Reader, r: Reader, n: Node, dash: int, m: char, tail: string)
    requires Follows(p, r, dash, m, tail) && !Over(p) && Loud(r.desc, tail) && Stop(n) && Over(ScanNode(p, n).0)
    ensures ScanNode(p, n).1 && ScanNode(r, n).1 && Arrives(ScanNode(p, n).0, ScanNode(r, n).0, dash, m, tail)
  {
    hide ScanNode, Beside, Level, Room;
    LastLoud(p, r, n, tail);
  }

  lemma {:induction false} FollowsAll(p: Reader, r: Reader, nodes: seq<Node>, t: seq<Node>, dash: int, m: char, tail: string)
      returns (r2: Reader, rest: seq<Node>)
    requires Follows(p, r, dash, m, tail) && Simple(nodes) && Over(ScanAll(p, nodes))
    ensures ScanAll(r, nodes + t) == ScanAll(r2, rest + t) && Simple(rest) && r2.desc == r.desc
    ensures Arrives(ScanAll(p, nodes), r2, dash, m, tail)
    decreases |nodes|
  {
    hide ScanNode, Follows, ScanAll, Arrives;
    if Over(p) {
      r2, rest := r, nodes;
      ScanOver(p, nodes);
      FollowsOver(p, r, dash, m, tail);
    } else {
      assert nodes != [] by { ScanNone(p); }
      var n := nodes[0];
      assert Stop(n) || n == Comma;
      assert (nodes + t)[1..] == nodes[1..] + t;
      ScanMore(p, nodes);
      ScanMore(r, nodes + t);
      if Loud(r.desc, tail) && Stop(n) && Over(ScanNode(p, n).0) {
        FollowLast(p, r, n, dash, m, tail);
        InputKept(r, n);
        r2, rest := ScanNode(r, n).0, nodes[1..];
        ScanOver(ScanNode(p, n).0, rest);
      } else {
        FollowStep(p, r, n, dash, m, tail);
        r2, rest := FollowsAll(ScanNode(p, n).0, ScanNode(r, n).0, nodes[1..], t, dash, m, tail);
      }
    }
  }

  lemma ScanNone(p: Reader)
    ensures ScanAll(p, []) == p
  {
  }

  lemma FollowsOver(p: Reader, r: Reader, dash: int, m: char, tail: string)
    requires Follows(p, r, dash, m, tail) && Over(p)
    ensures Arrives(p, r, dash, m, tail)
  {
  }

  // ----- behind the digits -----

  /** One character is left, and there may be nodes left of the slots. */
  ghost predicate AtLast(r: Reader, c: char, rest: seq<Node>) {
    && r.inputP + 1 == |r.input| && r.input[r.inputP] == c && Simple(rest)
    && |r.out| >= 1 && !r.badRoman && !r.desc.fillmode && r.desc.lsign == 0
  }

  lemma {:induction false} TailSign(r: Reader, rest: seq<Node>, s: Node, c: char)
    requires AtLast(r, c, rest) && Signing(c) && SignOpen(r) && r.readPre + r.readPost > 0 && (r.desc.minus || r.desc.plus)
    requires IsSign(s) && (s == MI ==> c == '-') && (s == PL ==> c == '+')
    ensures var r1 := ScanAll(r, rest + [s]); r1.out == [c] + r.out[1..] && !r1.badRoman
    decreases |rest|
  {
    hide ScanAll;
    ScanMore(r, rest + [s]);
    if rest == [] {
      assert (rest + [s])[1..] == [];
      ScanNone(ScanNode(r, s).0);
    } else {
      assert (rest + [s])[1..] == rest[1..] + [s];
      if rest[0] == Comma {
        TailSign(r, rest[1..], s, c);
      } else {
        hide ScanNode;
        StopTakesSign(r, rest[0], c);
        ScanOver(ScanNode(r, rest[0]).0, rest[1..] + [s]);
      }
    }
  }

  lemma StopTakesSign(r: Reader, n: Node, c: char)
    requires r.inputP + 1 == |r.input| && r.input[r.inputP] == c && Signing(c) && SignOpen(r) && Stop(n)
    requires r.readPre + r.readPost > 0 && (r.desc.minus || r.desc.plus) && r.desc.lsign == 0
    ensures ScanNode(r, n) == (Skip(SetSign(r, c)), true)
  {
    assert ReadSign(r, n) == r;
    assert ReadDigit(r) == (r, false);
  }

  /** Another character changes nothing. */
  lemma {:induction false} TailIdle(r: Reader, rest: seq<Node>, t: seq<Node>, c: char)
    requires AtLast(r, c, rest) && (c == ' ' || (c == '>' && !r.desc.minus && !r.desc.plus))
    requires t == [] || (|t| == 1 && IsSign(t[0]) && c == ' ')
    ensures var r1 := ScanAll(r, rest + t); r1.out == r.out && !r1.badRoman
    decreases |rest|
  {
    hide ScanAll;
    if rest + t == [] {
      ScanNone(r);
    } else {
      ScanMore(r, rest + t);
      if rest == [] {
        assert (rest + t)[1..] == [];
        ScanNone(ScanNode(r, t[0]).0);
      } else {
        assert (rest + t)[1..] == rest[1..] + t;
        if rest[0] == Comma {
          TailIdle(r, rest[1..], t, c);
        } else {
          hide ScanNode;
          StopIdle(r, rest[0], c);
          ScanOver(ScanNode(r, rest[0]).0, rest[1..] + t);
        }
      }
    }
  }

  lemma StopIdle(r: Reader, n: Node, c: char)
    requires r.inputP + 1 == |r.input| && r.input[r.inputP] == c && Stop(n) && r.desc.lsign == 0
    requires c == ' ' || (c == '>' && !r.desc.minus && !r.desc.plus)
    ensures ScanNode(r, n).0 == Skip(r)
  {
    if c != ' ' {
      assert ReadSign(r, n) == r;
      assert ReadDigit(r) == (r, false);
    }
  }

  // ----- the plain texts -----

  /** A layout without a place for the sign. */
  function Bare(nodes: seq<Node>, k: nat, digits: string): string
    requires k <= |nodes| && |digits| == Slots(nodes[k..])
  {
    Blanks(k) + Weave(nodes[k..], digits)
  }

  /** The digits stand behind the place s in the slots of d. */
  ghost predicate Placed(d: Picture, s: nat, digits: string) {
    && PlainPicture(d) && (s < d.pre || (s == d.pre && Dec in d.nodes))
    && AllDigits(digits) && |digits| == Slots(d.nodes[Cut(d.nodes, s)..])
  }

  lemma BareMargin(d: Picture, s: nat, digits: string)
    requires Placed(d, s, digits)
    ensures var k := Cut(d.nodes, s);
      AtMargin(Opening(d, Bare(d.nodes, k, digits)), d.nodes, d.nodes[k..], digits, k, false)
  {
    hide Groups, Slots, Cut, Weave, Shape;
    var nodes, k := d.nodes, Cut(d.nodes, s);
    CutFacts(nodes, false, s);
    CutRest(nodes, false, s);
    GroupsNodes(nodes, false);
    var r := Opening(d, Bare(nodes, k, digits));
    assert |nodes| - |nodes[k..]| == k && r.input[k..] == Weave(nodes[k..], digits);
    assert AtText(Past(r, k, false), nodes, nodes[k..], digits);
  }

  lemma ReadBare(d: Picture, s: nat, digits: string)
    requires Placed(d, s, digits)
    ensures var k := Cut(d.nodes, s);
      var r := ScanAll(Opening(d, Bare(d.nodes, k, digits)), d.nodes);
      r.out == [' '] + NumRoundTrip.Plain(d.nodes[k..], digits) && Over(r)
  {
    hide Groups, Slots, Cut, ScanAll, NumRoundTrip.Plain, AtMargin, Bare, EndsWith;
    var k := Cut(d.nodes, s);
    BareMargin(d, s, digits);
    ReadMargin(Opening(d, Bare(d.nodes, k, digits)), d.nodes, d.nodes[k..], digits, k, false);
  }

  predicate Ink(c: char) {
    IsDigit(c) || c == '.' || c == ','
  }

  /** A shape and its text, one node shorter. */
  lemma WeaveTail(shape: seq<Node>, digits: string)
    requires shape != [] && Shape(shape) && |digits| == Slots(shape) && AllDigits(digits)
    ensures var rest := if IsSlot(shape[0]) then digits[1..] else digits;
      && Shape(shape[1..]) && |rest| == Slots(shape[1..]) && AllDigits(rest)
      && Weave(shape, digits)[1..] == Weave(shape[1..], rest) && Weave(shape, digits) != "" && Ink(Weave(shape, digits)[0])
      && (IsSlot(shape[0]) ==> IsDigit(Weave(shape, digits)[0]))
      && (Weave(shape, digits)[0] == '.' ==> FracSlots(shape) == |shape| - 1)
      && (shape[0] != Dec ==> FracSlots(shape) == FracSlots(shape[1..]))
      && (shape[0] == Dec ==> AllSlots(shape[1..]))
  {
    var rest := if IsSlot(shape[0]) then digits[1..] else digits;
    if shape[0] == Dec { SlotsAll(shape[1..]); }
    if IsSlot(shape[0]) { WeaveSlot(shape, digits, rest); } else { WeaveMark(shape, digits); }
  }

  lemma {:induction false} WeaveInk(shape: seq<Node>, digits: string)
    requires Shape(shape) && |digits| == Slots(shape) && AllDigits(digits)
    ensures forall i | 0 <= i < |shape| :: Ink(Weave(shape, digits)[i])
    ensures shape != [] && IsSlot(shape[|shape| - 1]) ==> IsDigit(Weave(shape, digits)[|shape| - 1])
  {
    if shape != [] {
      hide Weave, Slots, Shape;
      WeaveTail(shape, digits);
      var w1 := Weave(shape, digits)[1..];
      WeaveInk(shape[1..], if IsSlot(shape[0]) then digits[1..] else digits);
      forall i | 0 <= i < |shape| ensures Ink(Weave(shape, digits)[i]) {
        if i > 0 { assert w1[i - 1] == Weave(shape, digits)[i]; }
      }
      if |shape| > 1 { assert w1[|shape| - 2] == Weave(shape, digits)[|shape| - 1]; }
    }
  }

  lemma {:induction false} WeavePoint(shape: seq<Node>, digits: string)
    requires Shape(shape) && |digits| == Slots(shape) && AllDigits(digits)
    ensures forall i | 0 <= i < |shape| && Weave(shape, digits)[i] == '.' :: |shape| - i - 1 <= FracSlots(shape)
    ensures AllSlots(shape) ==> forall i | 0 <= i < |shape| :: IsDigit(Weave(shape, digits)[i])
  {
    if shape != [] {
      hide Weave, Slots, Shape, FracSlots;
      WeaveTail(shape, digits);
      var w, w1 := Weave(shape, digits), Weave(shape, digits)[1..];
      WeavePoint(shape[1..], if IsSlot(shape[0]) then digits[1..] else digits);
      assert forall i | 1 <= i < |shape| :: w[i] == w1[i - 1];
    }
  }

  lemma {:induction false} GroupsLast(nodes: seq<Node>, afterSlot: bool)
    requires Groups(nodes, afterSlot) && nodes != []
    ensures IsSlot(nodes[|nodes| - 1])
  {
    if |nodes| > 1 && nodes[0] != Dec { GroupsLast(nodes[1..], IsSlot(nodes[0])); }
  }

  /** A plain text with its minus at `dash`, or without one. */
  ghost predicate PlainForm(x: string, dash: int) {
    && (forall i | 0 <= i < |x| && i != dash :: Inked(x[i]))
    && -1 <= dash < |x| && (forall i | 0 <= i < dash :: x[i] == ' ') && (dash >= 0 ==> x[dash] == '-')
    && x != "" && IsDigit(x[|x| - 1])
  }

  lemma FormOf(d: Picture, s: nat, digits: string)
    requires Placed(d, s, digits)
    ensures var k := Cut(d.nodes, s);
      var w := Weave(d.nodes[k..], digits);
      && w != "" && Ink(w[0])
      && PlainForm(Bare(d.nodes, k, digits), -1) && PlainForm(Layout(d.nodes, k, false, digits), -1)
      && PlainForm(Layout(d.nodes, k, true, digits), k)
      && (forall i | 0 <= i < |w| && w[i] == '.' :: |w| - i - 1 <= d.post)
  {
    hide Groups, Slots, Cut, Weave, Shape, IntSlots, FracSlots;
    var nodes, k := d.nodes, Cut(d.nodes, s);
    CutFacts(nodes, false, s);
    CutRest(nodes, false, s);
    GroupsLast(nodes, false);
    WeaveInk(nodes[k..], digits);
    WeavePoint(nodes[k..], digits);
    var w := Weave(nodes[k..], digits);
    assert |w| > 0;
    InkForm(Blanks(k) + w, k, w);
    LayoutText(nodes, k, false, digits);
    LayoutText(nodes, k, true, digits);
    InkForm(Layout(nodes, k, false, digits), k + 1, w);
    DashForm(Layout(nodes, k, true, digits), k, w);
  }

  lemma InkForm(x: string, k: nat, w: string)
    requires |x| == k + |w| && x[k..] == w && (forall i | 0 <= i < k :: x[i] == ' ')
    requires w != "" && (forall i | 0 <= i < |w| :: Ink(w[i])) && IsDigit(w[|w| - 1])
    ensures PlainForm(x, -1)
  {
    forall i | 0 <= i < |x| ensures Inked(x[i]) {
      if i >= k { assert x[i] == w[i - k]; }
    }
    assert x[|x| - 1] == w[|w| - 1];
  }

  lemma DashForm(x: string, k: nat, w: string)
    requires |x| == k + 1 + |w| && x[k + 1..] == w && x[k] == '-' && (forall i | 0 <= i < k :: x[i] == ' ')
    requires w != "" && (forall i | 0 <= i < |w| :: Ink(w[i])) && IsDigit(w[|w| - 1])
    ensures PlainForm(x, k)
  {
    forall i | 0 <= i < |x| && i != k ensures Inked(x[i]) {
      if i > k { assert x[i] == w[i - k - 1]; }
    }
    assert x[|x| - 1] == w[|w| - 1];
  }

  /** r has x ahead, the mark of m in place of its minus, and then the tail. */
  ghost predicate Ahead(r: Reader, x: string, dash: int, m: char, tail: string) {
    && |r.input| == r.inputP + |x| + |tail| && -1 <= dash < |x|
    && (forall i | 0 <= i < |x| && i != dash :: r.input[r.inputP + i] == x[i])
    && (dash >= 0 ==> Stands(r.desc, r.input[r.inputP + dash], m))
    && (forall i | 0 <= i < |tail| :: r.input[r.inputP + |x| + i] == tail[i])
  }

  /** The same slots; nothing read yet, but a sign where x has none. */
  predicate Fresh(r: Reader, d: Picture, dash: int, m: char) {
    && !r.desc.fillmode && r.desc.decimal == d.decimal && r.desc.post == d.post
    && r.out == (if dash < 0 then [m] else " ") && r.readPre == r.readPost == 0 && !r.readDec && !r.badRoman
  }

  lemma FollowsFirst(d: Picture, x: string, r: Reader, dash: int, m: char, tail: string)
    requires PlainPicture(d) && PlainForm(x, dash) && Ahead(r, x, dash, m, tail) && Fresh(r, d, dash, m)
    requires Loud(r.desc, tail) ==>
      dash == -1 && m == ' ' && |tail| == 1 && forall i | 0 <= i < |x| && x[i] == '.' :: |x| - i - 1 <= d.post
    ensures Follows(Opening(d, x), r, dash, m, tail)
  {
    hide Groups, IntSlots, FracSlots;
  }

  /** The sign that a tail, or the place of the sign, gives. */
  function SignSeen(m: char, tail: string): char {
    if tail != "" && Signing(tail[0]) then tail[0] else m
  }

  /** What stands behind the digits of a style: nothing, or a character and maybe its node. */
  predicate Tailed(u: Picture, t: seq<Node>, m: char, tail: string) {
    || (t == [] && tail == "")
    || (t == [] && u.lsign == 0 && !u.minus && !u.plus && (tail == " " || tail == ">"))
    || (t == [S] && u.lsign != 0 && m == ' ' && |tail| == 1 && Signing(tail[0]))
    || (|t| == 1 && IsSign(t[0]) && u.lsign == 0 && (u.minus || u.plus) && |tail| == 1
        && (tail == " "
            || (m == ' ' && Signing(tail[0]) && (t[0] == MI ==> tail == "-") && (t[0] == PL ==> tail == "+"))))
  }

  /** Reading a styled text collects the digits of the plain one behind the sign that is seen. */
  lemma StyledCollects(d: Picture, x: string, r: Reader, dash: int, m: char, tail: string, t: seq<Node>, digits: string)
    requires PlainPicture(d) && Follows(Opening(d, x), r, dash, m, tail) && Tailed(r.desc, t, m, tail)
    requires var p := ScanAll(Opening(d, x), d.nodes); Over(p) && |p.out| >= 1 && p.out[1..] == digits
    requires dash >= 0 ==> ScanAll(Opening(d, x), d.nodes).out[0] == '-'
    requires digits != "" && digits != "."
    ensures var r1 := ScanAll(r, d.nodes + t); r1.out == [SignSeen(m, tail)] + digits && !r1.badRoman
  {
    hide Follows, ScanAll, Groups, Arrives, Tailed, Beside, Level;
    assert Simple(d.nodes) by { GroupStops(d.nodes, false); }
    var r2, rest := FollowsAll(Opening(d, x), r, d.nodes, t, dash, m, tail);
    Ends(ScanAll(Opening(d, x), d.nodes), r2, rest, dash, m, tail, t);
  }

  lemma Ends(p: Reader, r: Reader, rest: seq<Node>, dash: int, m: char, tail: string, t: seq<Node>)
    requires Arrives(p, r, dash, m, tail) && Tailed(r.desc, t, m, tail) && Simple(rest)
    requires dash >= 0 ==> p.out[0] == '-'
    requires p.out[1..] != "" && p.out[1..] != "."
    ensures var r1 := ScanAll(r, rest + t); r1.out == [SignSeen(m, tail)] + p.out[1..] && !r1.badRoman
  {
    hide ScanAll, Beside, Level, AtLast;
    if Loud(r.desc, tail) {
      ScanOver(r, rest + t);
    } else {
      LevelOut(p, r, dash, m);
      if tail == "" {
        LastOver(p, r, dash, m, tail);
        ScanOver(r, rest + t);
      } else {
        LastOne(p, r, rest, dash, m, tail);
        if Signing(tail[0]) {
          assert t == [t[0]];
          TailSign(r, rest, t[0], tail[0]);
        } else {
          TailIdle(r, rest, t, tail[0]);
        }
      }
    }
  }

  lemma LevelOut(p: Reader, r: Reader, dash: int, m: char)
    requires Level(p, r, dash, m) && p.out != [] && p.out[1..] != "" && p.out[1..] != "." && (dash >= 0 ==> p.out[0] == '-')
    ensures r.out == [m] + p.out[1..] && !r.badRoman && r.readPre + r.readPost > 0
  {
  }

  lemma LastOver(p: Reader, r: Reader, dash: int, m: char, tail: string)
    requires Beside(p, r, dash, m, tail) && Over(p) && tail == ""
    ensures Over(r)
  {
  }

  lemma LastOne(p: Reader, r: Reader, rest: seq<Node>, dash: int, m: char, tail: string)
    requires Beside(p, r, dash, m, tail) && Over(p) && |tail| == 1 && Simple(rest) && r.out != [] && !r.badRoman
    requires r.desc.lsign == 0
    ensures AtLast(r, tail[0], rest)
  {
    assert r.input[r.inputP - p.inputP + |p.input| + 0] == tail[0];
  }

  // ----- the number -----

  /** What a sign and digits stand for. */
  function NumberOf(neg: bool, v: nat, places: nat): Result<Numeric, ReadError> {
    if v > I128_MAX then Err(OutOfRange) else Ok(Normalized(Signed(neg, v), places))
  }

  lemma FinishSigned(r: Reader, e: char, i: string, f: string)
    requires r.desc.multi == 0 && !r.badRoman && AllDigits(i) && AllDigits(f) && i + f != ""
    requires e == ' ' || Signing(e)
    requires r.out == [e] + (i + (if f != "" then "." + f else ""))
    ensures Finished(r) == NumberOf(e == '-', Value(i + f), |f|)
  {
    hide Value, Normalized, DropBlank, DropPoint, ParseStd, AllDigits;
    var t := i + (if f != "" then "." + f else "");
    LastDigit(i, f);
    if e == '+' {
      PlusTrims(r.out, t);
      PlusParses(i, f);
    } else {
      Trims(r.out, e == '-', t);
      ParsesTo(e == '-', i, f);
    }
  }

  lemma PlusTrims(out: string, t: string)
    requires out == "+" + t && t != "" && t[|t| - 1] != '.'
    ensures DropBlank(DropPoint(out)) == "+" + t
  {
    assert out[|out| - 1] == t[|t| - 1];
  }

  lemma PlusParses(i: string, f: string)
    requires AllDigits(i) && AllDigits(f) && i + f != ""
    ensures var t := i + (if f != "" then "." + f else "");
      ParseStd("+" + t) == NumberOf(false, Value(i + f), |f|)
  {
    hide Value, Normalized, FirstDot, FirstMark, AllDigits, Trim, ParseMantissa, IsSpace;
    var t := i + (if f != "" then "." + f else "");
    LastDigit(i, f);
    NoBlankNoMark(false, i, f);
    MantissaOf(false, i, f);
    assert ("+" + t)[1..] == t;
    assert Trim("+" + t) == "+" + t by { PlusNotBlank(i, f); }
  }

  lemma PlusNotBlank(i: string, f: string)
    requires AllDigits(i) && AllDigits(f) && i + f != ""
    ensures var t := i + (if f != "" then "." + f else ""); Trim("+" + t) == "+" + t
  {
    hide Trim;
    var t := i + (if f != "" then "." + f else "");
    assert IsDigit(t[|t| - 1]) && ("+" + t)[|t|] == t[|t| - 1];
    TrimNothing("+" + t);
  }

  /** A number that fits is laid out as its digits. */
  lemma LaidOut(n: Numeric, d: Picture) returns (s: nat, digits: string, i: string, f: string)
    requires PlainPicture(d) && Units(n, d) < Pow10(d.pre + d.post)
    ensures Placed(d, s, digits)
    ensures ToCharText(n, d) == Layout(d.nodes, Cut(d.nodes, s), n.unscaled < 0, digits)
    ensures AllDigits(i) && AllDigits(f) && i + f != "" && |f| == d.post && Value(i + f) == Units(n, d)
    ensures NumRoundTrip.Plain(d.nodes[Cut(d.nodes, s)..], digits) == i + (if f != "" then "." + f else "")
  {
    hide Groups, Processed, ToCharText, Units, Digits, DividedBy, Pow10, Numeral, Layout, Cut, Slots, Placed,
         Value, Padded, NumRoundTrip.Plain;
    ToCharUnfold(n, d);
    var r := Units(n, d);
    var whole := Digits(DividedBy(r, Pow10(d.post)));
    OneSlot(d.nodes);
    FitsPicture(r, d.pre, d.post);
    if d.zero || whole[0] != '0' || d.post == 0 {
      s, digits, i, f := DigitsLaid(d, r, n.unscaled < 0);
    } else {
      DigitsZero(DividedBy(r, Pow10(d.post)));
      DivisionParts(r, Pow10(d.post));
      s, digits, i, f := FractionLaid(d, r, n.unscaled < 0);
    }
  }

  lemma DigitsLaid(d: Picture, r: nat, neg: bool) returns (s: nat, digits: string, i: string, f: string)
    requires PlainPicture(d)
    requires var w := Digits(DividedBy(r, Pow10(d.post))); |w| <= d.pre && (d.zero || w[0] != '0' || d.post == 0)
    ensures Placed(d, s, digits)
    ensures Processed(d, Numeral(r, d.post), neg, d.pre - |Digits(DividedBy(r, Pow10(d.post)))|) ==
      Layout(d.nodes, Cut(d.nodes, s), neg, digits)
    ensures AllDigits(i) && AllDigits(f) && i + f != "" && |f| == d.post && Value(i + f) == r
    ensures NumRoundTrip.Plain(d.nodes[Cut(d.nodes, s)..], digits) == i + (if f != "" then "." + f else "")
  {
    hide Value, Digits, Padded, Pow10, Groups, Processed, Layout, Cut, NumRoundTrip.Plain, FirstSlot, Slots, Shape,
         IntSlots, FracSlots, DividedBy, Remainder;
    ValueParts(r, d.post);
    var whole := Digits(DividedBy(r, Pow10(d.post)));
    f := Padded(Remainder(r, Pow10(d.post)), d.post);
    var tail := if d.post > 0 then "." + f else "";
    var blanks := d.pre - |whole|;
    NoPoint(whole);
    NoPoint(f);
    GroupsShape(d.nodes, false);
    PrintsDigits(d, whole, f, tail, neg, blanks);
    s := FirstSlot(d, blanks);
    i := Zeros(blanks - s) + whole;
    digits := i + f;
    CutRest(d.nodes, false, s);
    PlainIs(d.nodes[Cut(d.nodes, s)..], i, f);
    PaddedValue(blanks - s, whole, f);
  }

  lemma FractionLaid(d: Picture, r: nat, neg: bool) returns (s: nat, digits: string, i: string, f: string)
    requires PlainPicture(d) && d.post > 0 && !d.zero && r < Pow10(d.post)
    ensures Digits(DividedBy(r, Pow10(d.post))) == "0" && d.pre >= 1
    ensures Placed(d, s, digits)
    ensures Processed(d, Numeral(r, d.post), neg, d.pre - 1) == Layout(d.nodes, Cut(d.nodes, s), neg, digits)
    ensures AllDigits(i) && AllDigits(f) && i + f != "" && |f| == d.post && Value(i + f) == r
    ensures NumRoundTrip.Plain(d.nodes[Cut(d.nodes, s)..], digits) == i + (if f != "" then "." + f else "")
  {
    hide Value, Digits, Padded, Pow10, Groups, Processed, Layout, Cut, NumRoundTrip.Plain, Slots, Shape;
    ValueParts(r, d.post);
    DivisionParts(r, Pow10(d.post));
    DigitsZero(0);
    s := d.pre;
    i, f := "", Padded(Remainder(r, Pow10(d.post)), d.post);
    digits := f;
    assert i + f == f;
    NoPoint(f);
    GroupsShape(d.nodes, false);
    OneSlot(d.nodes);
    PrintsFraction(d, f, neg);
    CutRest(d.nodes, false, d.pre);
    PlainIs(d.nodes[Cut(d.nodes, d.pre)..], "", f);
  }

  // ----- the styles -----

  lemma SplitIs(n: Numeric, d: Picture, s: nat, digits: string)
    requires Placed(d, s, digits) && ToCharText(n, d) == Layout(d.nodes, Cut(d.nodes, s), n.unscaled < 0, digits)
    ensures var k := Cut(d.nodes, s);
      FrontOf(n, d, false) == Blanks(k) && BackOf(n, d, false) == Weave(d.nodes[k..], digits)
  {
    hide FrontOf, BackOf, Groups, ToCharText, Weave, Slots, Cut;
    var k := Cut(d.nodes, s);
    PlainShows(n, d, false);
    FormOf(d, s, digits);
    assert d.(fillmode := false) == d;
    SplitOnce(FrontOf(n, d, false), BackOf(n, d, false), Blanks(k), Weave(d.nodes[k..], digits), SignChar(n.unscaled < 0));
  }

  lemma SplitOnce(a: string, b: string, a1: string, b1: string, c: char)
    requires a + [c] + b == a1 + ([c] + b1) && Blank(a) && b != "" && b[0] != ' '
    requires (forall i | 0 <= i < |a1| :: a1[i] == ' ') && b1 != "" && b1[0] != ' ' && (c == ' ' || c == '-')
    ensures a == a1 && b == b1
  {
    var t := a + [c] + b;
    assert t == a1 + ([c] + b1);
    assert |a| == |a1| by { SplitAt(t, a, b, a1, b1, c); }
    assert t[..|a|] == a && t[..|a|] == a1 && t[|a| + 1..] == b && t[|a| + 1..] == b1;
  }

  lemma SplitAt(t: string, a: string, b: string, a1: string, b1: string, c: char)
    requires t == a + [c] + b && t == a1 + ([c] + b1) && Blank(a) && b != "" && b[0] != ' '
    requires (forall i | 0 <= i < |a1| :: a1[i] == ' ') && b1 != "" && b1[0] != ' ' && (c == ' ' || c == '-')
    ensures |a| == |a1|
  {
    assert t[|a|] == c && t[|a| + 1] == b[0] && t[|a1|] == c && t[|a1| + 1] == b1[0];
    assert (forall i | 0 <= i < |a| :: t[i] == ' ') && (forall i | 0 <= i < |a1| :: t[i] == ' ');
  }

  /** One of the three plain texts: without a place for the sign, with a blank, with a minus. */
  ghost predicate FormAt(d: Picture, s: nat, digits: string, x: string, dash: int) {
    && Placed(d, s, digits)
    && (|| (x == Bare(d.nodes, Cut(d.nodes, s), digits) && dash == -1)
        || (x == Layout(d.nodes, Cut(d.nodes, s), false, digits) && dash == -1)
        || (x == Layout(d.nodes, Cut(d.nodes, s), true, digits) && dash == Cut(d.nodes, s)))
  }

  lemma FormReads(d: Picture, s: nat, digits: string, x: string, dash: int)
    requires FormAt(d, s, digits, x, dash)
    ensures PlainForm(x, dash)
    ensures var p := ScanAll(Opening(d, x), d.nodes);
      && Over(p) && |p.out| >= 1 && p.out[1..] == NumRoundTrip.Plain(d.nodes[Cut(d.nodes, s)..], digits)
      && (dash >= 0 ==> p.out[0] == '-')
  {
    hide Groups, Slots, Cut, ScanAll, NumRoundTrip.Plain, Bare, Layout;
    FormOf(d, s, digits);
    if x == Bare(d.nodes, Cut(d.nodes, s), digits) {
      ReadBare(d, s, digits);
    } else {
      ReadLayout(d, s, dash >= 0, digits);
    }
  }

  lemma {:induction false} ScanDesc(r: Reader, nodes: seq<Node>)
    ensures ScanAll(r, nodes).desc == r.desc
    decreases |nodes|
  {
    if nodes != [] {
      hide ScanNode, ScanAll;
      ScanMore(r, nodes);
      NodeDesc(r, nodes[0]);
      ScanDesc(ScanNode(r, nodes[0]).0, nodes[1..]);
    }
  }

  lemma NodeDesc(r: Reader, n: Node)
    ensures ScanNode(r, n).0.desc == r.desc
  {
    if Stop(n) {
      hide ScanNode;
      InputKept(r, n);
    } else {
      hide ScanPart;
      EatMoves(r, 1);
      EatMoves(r, 2);
    }
  }

  /** Reading a style from behind its first node, if that marks the sign. */
  lemma StyleReads(d: Picture, s: nat, digits: string, x: string, dash: int, r: Reader, m: char, tail: string,
                   t: seq<Node>, i: string, f: string)
    requires FormAt(d, s, digits, x, dash) && Ahead(r, x, dash, m, tail) && Fresh(r, d, dash, m) && Tailed(r.desc, t, m, tail)
    requires Loud(r.desc, tail) ==> dash == -1 && m == ' ' && x == Bare(d.nodes, Cut(d.nodes, s), digits)
    requires r.desc.multi == 0 && (m == ' ' || Signing(m)) && AllDigits(i) && AllDigits(f) && i + f != ""
    requires NumRoundTrip.Plain(d.nodes[Cut(d.nodes, s)..], digits) == i + (if f != "" then "." + f else "")
    ensures Finished(ScanAll(r, d.nodes + t)) == NumberOf(SignSeen(m, tail) == '-', Value(i + f), |f|)
  {
    hide Groups, Slots, Cut, ScanAll, NumRoundTrip.Plain, Bare, Finished, Value, Weave, Ahead, Fresh, Follows, PlainForm, Layout;
    FormReads(d, s, digits, x, dash);
    if Loud(r.desc, tail) { BareRoom(d, s, digits); }
    FollowsFirst(d, x, r, dash, m, tail);
    var text := i + (if f != "" then "." + f else "");
    LastDigit(i, f);
    StyledCollects(d, x, r, dash, m, tail, t, text);
    ScanDesc(r, d.nodes + t);
    FinishSigned(ScanAll(r, d.nodes + t), SignSeen(m, tail), i, f);
  }

  lemma BareRoom(d: Picture, s: nat, digits: string)
    requires Placed(d, s, digits)
    ensures var x := Bare(d.nodes, Cut(d.nodes, s), digits);
      forall i | 0 <= i < |x| && x[i] == '.' :: |x| - i - 1 <= d.post
  {
    hide Groups, Slots, Cut, Weave;
    FormOf(d, s, digits);
    var k := Cut(d.nodes, s);
    var x, w := Bare(d.nodes, k, digits), Weave(d.nodes[k..], digits);
    assert forall i | 0 <= i < |x| :: x[i] == if i < k then ' ' else w[i - k];
  }

  lemma AheadText(r: Reader, lead: string, x: string, tail: string, m: char)
    requires r.input == lead + (x + tail) && r.inputP == |lead|
    ensures Ahead(r, x, -1, m, tail)
  {
    assert forall i | 0 <= i < |x| :: r.input[|lead| + i] == (x + tail)[i] == x[i];
    assert forall i | 0 <= i < |tail| :: r.input[|lead| + |x| + i] == (x + tail)[|x| + i] == tail[i];
  }

  /** The mark in place of the minus. */
  lemma AheadMark(r: Reader, lead: string, x: string, k: nat, e: char, tail: string, m: char)
    requires k < |x| && r.input == lead + (x[k := e] + tail) && r.inputP == |lead| && Stands(r.desc, e, m)
    ensures Ahead(r, x, k, m, tail)
  {
    var y := x[k := e];
    assert forall i | 0 <= i < |x| :: r.input[|lead| + i] == (y + tail)[i] == y[i];
    assert forall i | 0 <= i < |tail| :: r.input[|lead| + |x| + i] == (y + tail)[|x| + i] == tail[i];
  }

  /** What is read back from a styled text is the number its digits stand for. */
  ghost predicate ReadsBack(n: Numeric, d: Picture, u: Picture) {
    ReadNumber(ToCharText(n, u), u) == NumberOf(n.unscaled < 0, Units(n, d), d.post)
  }

  /** The front, the back and the digits of a number that fits. */
  ghost predicate Whole(n: Numeric, d: Picture, s: nat, digits: string, i: string, f: string) {
    && Placed(d, s, digits) && AllDigits(i) && AllDigits(f) && i + f != "" && |f| == d.post && Value(i + f) == Units(n, d)
    && NumRoundTrip.Plain(d.nodes[Cut(d.nodes, s)..], digits) == i + (if f != "" then "." + f else "")
    && FrontOf(n, d, false) == Blanks(Cut(d.nodes, s)) && BackOf(n, d, false) == Weave(d.nodes[Cut(d.nodes, s)..], digits)
  }

  lemma PlacedCount(d: Picture, s: nat, digits: string)
    requires Placed(d, s, digits)
    ensures |digits| == Slots(d.nodes[Cut(d.nodes, s)..])
  {
  }

  lemma WholeOf(n: Numeric, d: Picture) returns (s: nat, digits: string, i: string, f: string)
    requires PlainPicture(d) && Units(n, d) < Pow10(d.pre + d.post)
    ensures Whole(n, d, s, digits, i, f) && |digits| == Slots(d.nodes[Cut(d.nodes, s)..])
  {
    hide Groups, ToCharText, Units, Pow10, Layout, Cut, Slots, Placed, Value, NumRoundTrip.Plain, FrontOf, BackOf, Weave;
    s, digits, i, f := LaidOut(n, d);
    SplitIs(n, d, s, digits);
    PlacedCount(d, s, digits);
  }

  lemma TrailingBack(n: Numeric, d: Picture, sn: Node)
    requires PlainPicture(d) && Units(n, d) < Pow10(d.pre + d.post) && IsSign(sn)
    ensures ReadsBack(n, d, Trailing(d, sn))
  {
    hide Groups, ToCharText, Units, Pow10, PlainPicture, ReadsBack, Trailing;
    if sn == PL && n.unscaled < 0 { PlusBack(n, d); } else { MarkBack(n, d, sn); }
  }

  /** A minus before the digits and a blank behind them. */
  lemma PlusBack(n: Numeric, d: Picture)
    requires PlainPicture(d) && Units(n, d) < Pow10(d.pre + d.post) && n.unscaled < 0
    ensures ReadsBack(n, d, Trailing(d, PL))
  {
    hide Groups, ToCharText, Units, Pow10, Cut, Slots, Placed, Value, NumRoundTrip.Plain, FrontOf, BackOf, Weave,
         Ahead, ScanAll, Finished, PlainPicture, NumberOf;
    var s, digits, i, f := WholeOf(n, d);
    var u, k := Trailing(d, PL), Cut(d.nodes, s);
    TrailingShows(n, d, false, PL);
    NotFill(d);
    var text, x := ToCharText(n, u), Layout(d.nodes, k, true, digits);
    assert text == "" + (x[k := '-'] + " ");
    AheadMark(Opening(u, text), "", x, k, '-', " ", '-');
    StyleReads(d, s, digits, x, k, Opening(u, text), '-', " ", [PL], i, f);
  }

  /** The mark of the sign behind the digits, or a blank. */
  lemma MarkBack(n: Numeric, d: Picture, sn: Node)
    requires PlainPicture(d) && Units(n, d) < Pow10(d.pre + d.post) && IsSign(sn) && !(sn == PL && n.unscaled < 0)
    ensures ReadsBack(n, d, Trailing(d, sn))
  {
    hide Groups, ToCharText, Units, Pow10, Cut, Slots, Placed, Value, NumRoundTrip.Plain, FrontOf, BackOf, Weave,
         Ahead, ScanAll, Finished, PlainPicture, NumberOf;
    var s, digits, i, f := WholeOf(n, d);
    var u, neg, k := Trailing(d, sn), n.unscaled < 0, Cut(d.nodes, s);
    TrailingShows(n, d, false, sn);
    NotFill(d);
    var text, tail, x := ToCharText(n, u), NodeMark(sn, neg, false), Bare(d.nodes, k, digits);
    assert text == "" + (x + tail);
    AheadText(Opening(u, text), "", x, tail, ' ');
    StyleReads(d, s, digits, x, -1, Opening(u, text), ' ', tail, [sn], i, f);
  }

  lemma LeadingBack(n: Numeric, d: Picture, sn: Node)
    requires PlainPicture(d) && Units(n, d) < Pow10(d.pre + d.post) && IsSign(sn)
    ensures ReadsBack(n, d, Leading(d, sn))
  {
    hide Groups, ToCharText, Units, Pow10, PlainPicture, ReadsBack, Leading;
    if sn == PL && n.unscaled < 0 { LeadPlusBack(n, d); } else { LeadMarkBack(n, d, sn); }
  }

  lemma LeadPlusBack(n: Numeric, d: Picture)
    requires PlainPicture(d) && Units(n, d) < Pow10(d.pre + d.post) && n.unscaled < 0
    ensures ReadsBack(n, d, Leading(d, PL))
  {
    hide Groups, ToCharText, Units, Pow10, Cut, Slots, Placed, Value, NumRoundTrip.Plain, FrontOf, BackOf, Weave,
         Ahead, ScanAll, Finished, PlainPicture, NumberOf;
    var s, digits, i, f := WholeOf(n, d);
    var u, k := Leading(d, PL), Cut(d.nodes, s);
    LeadingShows(n, d, false, PL);
    NotFill(d);
    var text, x := ToCharText(n, u), Layout(d.nodes, k, true, digits);
    LeadRead(u, text, PL, " ");
    var r := Opening(u, text).(inputP := 1, out := [' ']);
    assert d.nodes + [] == d.nodes && u.nodes[1..] == d.nodes;
    assert text == " " + (x[k := '-'] + "");
    AheadMark(r, " ", x, k, '-', "", '-');
    StyleReads(d, s, digits, x, k, r, '-', "", [], i, f);
  }

  lemma LeadMarkBack(n: Numeric, d: Picture, sn: Node)
    requires PlainPicture(d) && Units(n, d) < Pow10(d.pre + d.post) && IsSign(sn) && !(sn == PL && n.unscaled < 0)
    ensures ReadsBack(n, d, Leading(d, sn))
  {
    hide Groups, ToCharText, Units, Pow10, Cut, Slots, Placed, Value, NumRoundTrip.Plain, FrontOf, BackOf, Weave,
         Ahead, ScanAll, Finished, PlainPicture, NumberOf;
    var s, digits, i, f := WholeOf(n, d);
    var u, neg, k := Leading(d, sn), n.unscaled < 0, Cut(d.nodes, s);
    LeadingShows(n, d, false, sn);
    NotFill(d);
    var text, lead, x := ToCharText(n, u), NodeMark(sn, neg, false), Bare(d.nodes, k, digits);
    LeadRead(u, text, sn, lead);
    var r := Opening(u, text).(inputP := 1, out := [lead[0]]);
    assert d.nodes + [] == d.nodes && u.nodes[1..] == d.nodes;
    assert text == lead + (x + "");
    AheadText(r, lead, x, "", lead[0]);
    StyleReads(d, s, digits, x, -1, r, lead[0], "", [], i, f);
  }

  /** The node in front takes its mark, or passes the blank. */
  lemma LeadRead(u: Picture, text: string, sn: Node, lead: string)
    requires u.nodes != [] && u.nodes[0] == sn && IsSign(sn) && |lead| == 1 && text != "" && text[0] == lead[0]
    requires lead == " " || (Signing(lead[0]) && (sn == MI ==> lead == "-") && (sn == PL ==> lead == "+"))
    ensures ScanAll(Opening(u, text), u.nodes) == ScanAll(Opening(u, text).(inputP := 1, out := [lead[0]]), u.nodes[1..])
  {
    hide ScanAll;
    var r := Opening(u, text);
    ScanMore(r, u.nodes);
    assert SetSign(r, lead[0]).out == [lead[0]];
    if lead == " " { assert NonDataEaten(r, 1) == Skip(r); }
  }

  lemma NotFill(d: Picture)
    requires PlainPicture(d)
    ensures d.(fillmode := false) == d && !d.fillmode && d.lsign == 0 && !d.minus && !d.plus && !d.bracket && !d.eeee && d.multi == 0
  {
  }

  lemma AnchoredBack(n: Numeric, d: Picture)
    requires PlainPicture(d) && Units(n, d) < Pow10(d.pre + d.post)
    ensures ReadsBack(n, d, Anchored(d))
  {
    hide Groups, ToCharText, Units, Pow10, Cut, Slots, Placed, Value, NumRoundTrip.Plain, FrontOf, BackOf, Weave,
         Ahead, ScanAll, Finished, PlainPicture;
    var s, digits, i, f := WholeOf(n, d);
    var u, neg, k := Anchored(d), n.unscaled < 0, Cut(d.nodes, s);
    AnchoredShows(n, d);
    NotFill(d);
    var text, e := ToCharText(n, u), if neg then '-' else '+';
    var r, x := Opening(u, text), Layout(d.nodes, k, true, digits);
    assert text == "" + (x[k := e] + "");
    SPasses(u, text);
    assert u.nodes[1..] == d.nodes && d.nodes + [] == d.nodes;
    AheadMark(r, "", x, k, e, "", e);
    StyleReads(d, s, digits, x, k, r, e, "", [], i, f);
  }

  lemma SPasses(u: Picture, text: string)
    requires u.nodes != [] && u.nodes[0] == S && text != ""
    ensures ScanAll(Opening(u, text), u.nodes) == ScanAll(Opening(u, text), u.nodes[1..])
  {
    hide ScanAll;
    ScanMore(Opening(u, text), u.nodes);
  }

  lemma ClosedBack(n: Numeric, d: Picture)
    requires PlainPicture(d) && Units(n, d) < Pow10(d.pre + d.post)
    ensures ReadsBack(n, d, Closed(d))
  {
    hide Groups, ToCharText, Units, Pow10, Cut, Slots, Placed, Value, NumRoundTrip.Plain, FrontOf, BackOf, Weave,
         Ahead, ScanAll, Finished, PlainPicture;
    var s, digits, i, f := WholeOf(n, d);
    var u, neg, k := Closed(d), n.unscaled < 0, Cut(d.nodes, s);
    ClosedShows(n, d);
    NotFill(d);
    var text, tail := ToCharText(n, u), EitherMark(neg);
    var r, x := Opening(u, text), Bare(d.nodes, k, digits);
    assert text == "" + (x + tail);
    AheadText(r, "", x, tail, ' ');
    StyleReads(d, s, digits, x, -1, r, ' ', tail, [S], i, f);
  }

  lemma BracketedBack(n: Numeric, d: Picture)
    requires PlainPicture(d) && Units(n, d) < Pow10(d.pre + d.post)
    ensures ReadsBack(n, d, Bracketed(d))
  {
    hide Groups, ToCharText, Units, Pow10, Cut, Slots, Placed, Value, NumRoundTrip.Plain, FrontOf, BackOf, Weave,
         Ahead, ScanAll, Finished, PlainPicture;
    var s, digits, i, f := WholeOf(n, d);
    var u, neg, k := Bracketed(d), n.unscaled < 0, Cut(d.nodes, s);
    BracketedShows(n, d);
    NotFill(d);
    assert d.nodes + [] == d.nodes;
    var text := ToCharText(n, u);
    var r := Opening(u, text);
    if neg {
      var x := Layout(d.nodes, k, true, digits);
      assert text == "" + (x[k := '<'] + ">");
      AheadMark(r, "", x, k, '<', ">", '-');
      StyleReads(d, s, digits, x, k, r, '-', ">", [], i, f);
    } else {
      var x := Layout(d.nodes, k, false, digits);
      assert text == "" + (x + " ");
      AheadText(r, "", x, " ", ' ');
      StyleReads(d, s, digits, x, -1, r, ' ', " ", [], i, f);
    }
  }

  // ----- overflow -----

  lemma HashesShown(n: Numeric, d: Picture)
    requires PlainPicture(d) && Units(n, d) >= Pow10(d.pre + d.post)
    ensures NoDigit(ToCharText(n, d))
  {
    hide Groups, Processed, ToCharText, Units, Digits, DividedBy, Pow10, Numeral, NoDigit;
    ToCharUnfold(n, d);
    OneSlot(d.nodes);
    FitsPicture(Units(n, d), d.pre, d.post);
    ShowsHashes(d, n.unscaled < 0);
  }

  /** The front and the back hold no digit, and so no style does. */
  lemma StyleRefused(n: Numeric, d: Picture, u: Picture, lead: string, mark: string, tail: string)
    requires PlainPicture(d) && Units(n, d) >= Pow10(d.pre + d.post)
    requires forall x | x in u.nodes :: Ordinary(x)
    requires NoDigit(lead) && NoDigit(mark) && NoDigit(tail)
    requires ToCharText(n, u) == lead + FrontOf(n, d, false) + mark + BackOf(n, d, false) + tail
    ensures ReadNumber(ToCharText(n, u), u).Err?
  {
    hide Groups, ToCharText, Units, Pow10, ReadNumber, FrontOf, BackOf;
    HashesShown(n, d);
    PlainShows(n, d, false);
    NotFill(d);
    var a, b, m := FrontOf(n, d, false), BackOf(n, d, false), MinusMark(n.unscaled < 0, false);
    PartsNoDigit(a, m, b);
    assert NoDigit(lead + a + mark + b + tail);
    ReadOverflow(u, ToCharText(n, u));
  }

  lemma PartsNoDigit(a: string, m: string, b: string)
    requires NoDigit(a + m + b)
    ensures NoDigit(a) && NoDigit(b)
  {
    var t := a + m + b;
    assert forall i | 0 <= i < |a| :: a[i] == t[i];
    assert forall i | 0 <= i < |b| :: b[i] == t[|a| + |m| + i];
  }

  lemma OrdinaryNodes(d: Picture, n: Node)
    requires PlainPicture(d) && Ordinary(n)
    ensures forall x | x in d.nodes :: Ordinary(x)
    ensures forall x | x in [n] + d.nodes :: Ordinary(x)
    ensures forall x | x in d.nodes + [n] :: Ordinary(x)
  {
    hide Groups;
    GroupsNodes(d.nodes, false);
  }

  lemma NodeRefused(n: Numeric, d: Picture, sn: Node)
    requires PlainPicture(d) && Units(n, d) >= Pow10(d.pre + d.post) && IsSign(sn)
    ensures ReadNumber(ToCharText(n, Leading(d, sn)), Leading(d, sn)).Err?
    ensures ReadNumber(ToCharText(n, Trailing(d, sn)), Trailing(d, sn)).Err?
  {
    hide Groups, ToCharText, Units, Pow10, ReadNumber, FrontOf, BackOf, PlainPicture;
    var neg := n.unscaled < 0;
    var a, b, mark, m := FrontOf(n, d, false), BackOf(n, d, false), NodeMark(sn, neg, false), if sn == PL && neg then "-" else "";
    OrdinaryNodes(d, sn);
    NotFill(d);
    LeadingShows(n, d, false, sn);
    TrailingShows(n, d, false, sn);
    assert mark + a + m + b == mark + a + m + b + "" && a + m + b + mark == "" + a + m + b + mark by { assert "" + a == a; }
    StyleRefused(n, d, Leading(d, sn), mark, m, "");
    StyleRefused(n, d, Trailing(d, sn), "", m, mark);
  }

  lemma OthersRefused(n: Numeric, d: Picture)
    requires PlainPicture(d) && Units(n, d) >= Pow10(d.pre + d.post)
    ensures ReadNumber(ToCharText(n, Anchored(d)), Anchored(d)).Err?
    ensures ReadNumber(ToCharText(n, Closed(d)), Closed(d)).Err?
    ensures ReadNumber(ToCharText(n, Bracketed(d)), Bracketed(d)).Err?
  {
    hide Groups, ToCharText, Units, Pow10, ReadNumber, FrontOf, BackOf, PlainPicture;
    var neg := n.unscaled < 0;
    var a, b, e := FrontOf(n, d, false), BackOf(n, d, false), EitherMark(neg);
    var open, close := if neg then "<" else " ", if neg then ">" else " ";
    OrdinaryNodes(d, S);
    StylesShow(n, d);
    assert "" + a == a && a + "" == a;
    assert a + e + b == "" + a + e + b + "" && a + b + e == "" + a + "" + b + e && a + open + b + close == "" + a + open + b + close;
    StyleRefused(n, d, Anchored(d), "", e, "");
    StyleRefused(n, d, Closed(d), "", "", e);
    StyleRefused(n, d, Bracketed(d), "", open, close);
  }

  /** A plain picture with MI, PL or SG before or behind it, S before or behind it, or PR. */
  ghost predicate IsStyle(u: Picture, d: Picture) {
    || (exists sn :: IsSign(sn) && (u == Leading(d, sn) || u == Trailing(d, sn)))
    || u == Anchored(d) || u == Closed(d) || u == Bracketed(d)
  }

  lemma StyleBack(n: Numeric, d: Picture, u: Picture)
    requires PlainPicture(d) && IsStyle(u, d)
    ensures if Units(n, d) < Pow10(d.pre + d.post) then ReadsBack(n, d, u) else ReadNumber(ToCharText(n, u), u).Err?
  {
    hide Groups, ToCharText, Units, Pow10, ReadNumber, PlainPicture, Leading, Trailing, Anchored, Closed, Bracketed, ReadsBack;
    var fits := Units(n, d) < Pow10(d.pre + d.post);
    if exists sn :: IsSign(sn) && (u == Leading(d, sn) || u == Trailing(d, sn)) {
      var sn :| IsSign(sn) && (u == Leading(d, sn) || u == Trailing(d, sn));
      if fits {
        LeadingBack(n, d, sn);
        TrailingBack(n, d, sn);
      } else {
        NodeRefused(n, d, sn);
      }
    } else if fits {
      AnchoredBack(n, d);
      ClosedBack(n, d);
      BracketedBack(n, d);
    } else {
      OthersRefused(n, d);
    }
  }

  /** With every sign style `to_number` reads back the number `to_char` printed, rounded to the
      places of the picture and with its sign, exactly when it fits. */
  lemma SignsReadBack(n: Numeric, d: Picture, u: Picture)
    requires PlainPicture(d) && IsStyle(u, d)
    ensures var r := Units(n, d);
      var back := ReadNumber(ToCharText(n, u), u);
      && (back.Ok? <==> r < Pow10(d.pre + d.post) && r <= I128_MAX)
      && (back.Ok? ==> back.value == Normalized(Signed(n.unscaled < 0, r), d.post))
  {
    hide Groups, ToCharText, Units, Pow10, ReadNumber, PlainPicture, IsStyle, Normalized;
    StyleBack(n, d, u);
  }

  lemma ScanFirst(r: Reader, n: Node, rest: seq<Node>, r1: Reader)
    requires ScanNode(r, n) == (r1, true)
    ensures ScanAll(r, [n] + rest) == ScanAll(r1, rest)
  {
    hide ScanNode, ScanAll;
    ScanMore(r, [n] + rest);
    assert ([n] + rest)[1..] == rest;
  }

  lemma FillDigit(r: Reader)
    requires !Over(r) && IsDigit(r.input[r.inputP]) && !r.readDec && Unsigned(r.desc) && !r.desc.minus && !r.desc.plus
    ensures ScanNode(r, N9) == (r.(inputP := r.inputP + 1, out := r.out + [r.input[r.inputP]], readPre := r.readPre + 1), true)
  {
    assert ReadSign(r, N9) == r;
  }

  lemma FillComma(r: Reader)
    requires !Over(r) && r.input[r.inputP] == ',' && r.desc.fillmode && Unsigned(r.desc) && !r.desc.minus && !r.desc.plus
    ensures ScanNode(r, Comma) == (r, true) && ScanNode(r, N9) == (Skip(r), true)
  {
    assert ReadSign(r, N9) == r && ReadDigit(r) == (r, false);
  }

  /** With FM a group comma in the text takes a slot, and the last digit is not read. */
  lemma FillCommaLost()
    ensures ReadNumber("1,234", EMPTY.(pre := 4, fillmode := true, nodes := [N9, Comma, N9, N9, N9])) == Ok(Numeric(123, 0))
  {
    hide ScanAll, Finished, Value, Normalized;
    var d := EMPTY.(pre := 4, fillmode := true, nodes := [N9, Comma, N9, N9, N9]);
    var r0 := Opening(d, "1,234");
    FillSteps(r0);
    ValueOf123();
    assert "123" + "" == "123";
    FinishSigned(ScanAll(r0, d.nodes), ' ', "123", "");
  }

  lemma FillSteps(r0: Reader)
    requires r0.input == "1,234" && r0.inputP == 0 && r0.out == " " && !r0.readDec
    requires r0.desc.fillmode && Unsigned(r0.desc) && !r0.desc.minus && !r0.desc.plus
    ensures var r := ScanAll(r0, [N9, Comma, N9, N9, N9]);
      r.out == [' '] + "123" && r.desc == r0.desc && r.badRoman == r0.badRoman
  {
    hide ScanAll, ScanNode;
    var tail := [N9] + ([N9] + ([N9] + []));
    assert [N9, Comma, N9, N9, N9] == [N9] + ([Comma] + tail);
    FillDigit(r0);
    var r1 := ScanNode(r0, N9).0;
    FillComma(r1);
    FillDigit(Skip(r1));
    var r3 := ScanNode(Skip(r1), N9).0;
    FillDigit(r3);
    var r4 := ScanNode(r3, N9).0;
    ScanFirst(r0, N9, [Comma] + tail, r1);
    ScanFirst(r1, Comma, tail, r1);
    ScanFirst(r1, N9, [N9] + ([N9] + []), Skip(r1));
    ScanFirst(Skip(r1), N9, [N9] + [], r3);
    ScanFirst(r3, N9, [], r4);
    ScanNone(r4);
  }

  lemma ValueOf123()
    ensures AllDigits("123") && Value("123") == 123 && Normalized(123, 0) == Numeric(123, 0)
  {
    assert "123"[..2] == "12" && "12"[..1] == "1" && "1"[..0] == "";
  }
}

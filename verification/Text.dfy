/** Text helpers of Rust's standard library, on characters. */
module Text {
  /** `char::is_whitespace`. */
  predicate IsSpace(c: char) {
    var n := c as int;
    9 <= n <= 13 || n == 32 || n == 0x85 || n == 0xA0 || n == 0x1680 || 0x2000 <= n <= 0x200A
    || n == 0x2028 || n == 0x2029 || n == 0x202F || n == 0x205F || n == 0x3000
  }

  predicate IsLetter(c: char) {
    'a' <= c <= 'z' || 'A' <= c <= 'Z'
  }

  function LowerChar(c: char): char {
    if 'A' <= c <= 'Z' then c - 'A' + 'a' else c
  }

  /** `to_ascii_lowercase`. */
  function Lower(s: string): (r: string)
    ensures |r| == |s| && forall i | 0 <= i < |s| :: r[i] == LowerChar(s[i])
  {
    seq(|s|, i requires 0 <= i < |s| => LowerChar(s[i]))
  }

  function TrimStart(s: string): string {
    if s != "" && IsSpace(s[0]) then TrimStart(s[1..]) else s
  }

  function TrimEnd(s: string): string {
    if s != "" && IsSpace(s[|s| - 1]) then TrimEnd(s[..|s| - 1]) else s
  }

  /** `trim`. */
  function Trim(s: string): string {
    TrimEnd(TrimStart(s))
  }

  lemma TrimNothing(s: string)
    requires s != "" && !IsSpace(s[0]) && !IsSpace(s[|s| - 1])
    ensures Trim(s) == s
  {
  }

  /** The first place of c, or the length. */
  function IndexOf(s: string, c: char): (k: nat)
    ensures k <= |s| && (k < |s| ==> s[k] == c) && c !in s[..k]
  {
    if s == "" || s[0] == c then 0 else 1 + IndexOf(s[1..], c)
  }

  /** `split(c)`. */
  function SplitOn(s: string, c: char): (parts: seq<string>)
    ensures parts != []
    decreases |s|
  {
    var k := IndexOf(s, c);
    if k == |s| then [s] else [s[..k]] + SplitOn(s[k + 1..], c)
  }

  lemma {:induction false} NoneToSplit(s: string, c: char)
    requires c !in s
    ensures IndexOf(s, c) == |s| && SplitOn(s, c) == [s]
    decreases |s|
  {
    if s != "" {
      assert forall x | x in s[1..] :: x in s;
      NoneToSplit(s[1..], c);
    }
  }

  lemma {:induction false} IndexAfter(s: string, c: char, t: string)
    requires c !in s
    ensures IndexOf(s + ([c] + t), c) == |s|
    decreases |s|
  {
    if s == "" {
      assert s + ([c] + t) == [c] + t;
    } else {
      assert forall x | x in s[1..] :: x in s;
      IndexAfter(s[1..], c, t);
      assert (s + ([c] + t))[1..] == s[1..] + ([c] + t);
    }
  }

  lemma SplitFirst(s: string, c: char, t: string)
    requires c !in s
    ensures SplitOn(s + ([c] + t), c) == [s] + SplitOn(t, c)
  {
    IndexAfter(s, c, t);
    var u := s + ([c] + t);
    assert u[..|s|] == s && u[|s| + 1..] == t;
  }

  lemma JoinAfter(first: string, mark: string, rest: string, more: string)
    ensures first + (mark + rest) + more == first + (mark + (rest + more))
  {
  }

  /** Splitting at the last separator. */
  lemma {:induction false} SplitLast(s: string, c: char, t: string)
    requires c !in t
    ensures SplitOn(s + ([c] + t), c) == SplitOn(s, c) + [t]
    decreases |s|
  {
    var k := IndexOf(s, c);
    var first := s[..k];
    hide SplitOn;
    if k == |s| {
      assert first == s;
      NoneToSplit(s, c);
      SplitFirst(s, c, t);
      NoneToSplit(t, c);
    } else {
      var rest := s[k + 1..];
      assert s == first + ([c] + rest);
      JoinAfter(first, [c], rest, [c] + t);
      SplitFirst(first, c, rest);
      SplitFirst(first, c, rest + ([c] + t));
      SplitLast(rest, c, t);
      assert [first] + (SplitOn(rest, c) + [t]) == [first] + SplitOn(rest, c) + [t];
    }
  }

  /** The length of the first run free of separators. */
  function RunLength(s: string, sep: char -> bool): (k: nat)
    ensures k <= |s| && (forall i | 0 <= i < k :: !sep(s[i])) && (k < |s| ==> sep(s[k]))
  {
    if s == "" || sep(s[0]) then 0 else 1 + RunLength(s[1..], sep)
  }

  /** The maximal runs free of separators: splitting and dropping the empty parts. */
  function Runs(s: string, sep: char -> bool): seq<string>
    decreases |s|
  {
    if s == "" then []
    else if sep(s[0]) then Runs(s[1..], sep)
    else
      var k := RunLength(s, sep);
      [s[..k]] + Runs(s[k..], sep)
  }

  predicate Free(s: string, sep: char -> bool) {
    forall i | 0 <= i < |s| :: !sep(s[i])
  }

  lemma {:induction false} RunThrough(s: string, t: string, sep: char -> bool)
    requires Free(s, sep) && (t == "" || sep(t[0]))
    ensures RunLength(s + t, sep) == |s|
    decreases |s|
  {
    if s == "" {
      assert s + t == t;
    } else {
      assert (s + t)[1..] == s[1..] + t && (s + t)[0] == s[0];
      RunThrough(s[1..], t, sep);
    }
  }

  /** A run, a separator, and more. */
  lemma RunFirst(s: string, c: char, t: string, sep: char -> bool)
    requires s != "" && Free(s, sep) && sep(c)
    ensures Runs(s + ([c] + t), sep) == [s] + Runs(t, sep)
  {
    RunThrough(s, [c] + t, sep);
    var u := s + ([c] + t);
    assert u[0] == s[0] && u[..|s|] == s && u[|s|..] == [c] + t;
    assert ([c] + t)[1..] == t;
  }

  lemma OneRun(s: string, sep: char -> bool)
    requires s != "" && Free(s, sep)
    ensures Runs(s, sep) == [s]
  {
    RunThrough(s, "", sep);
    assert s + "" == s && s[..|s|] == s && s[|s|..] == "";
  }
}

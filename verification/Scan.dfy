// Searching and trimming strings the way Go's `strings` package does, one byte a character.
module Scan {
  predicate IsSpace(c: char) {
    c == ' ' || '\t' <= c <= '\r' || c == 0x85 as char || c == 0xA0 as char
  }

  function TrimLeft(s: string): (t: string)
    ensures |t| <= |s|
    ensures t != "" ==> !IsSpace(t[0])
    ensures s == "" || !IsSpace(s[0]) ==> t == s
  {
    if s != "" && IsSpace(s[0]) then TrimLeft(s[1..]) else s
  }

  function TrimRight(s: string): (t: string)
    ensures t <= s
    ensures t != "" ==> !IsSpace(t[|t| - 1])
    ensures s == "" || !IsSpace(s[|s| - 1]) ==> t == s
  {
    if s != "" && IsSpace(s[|s| - 1]) then TrimRight(s[..|s| - 1]) else s
  }

  function TrimSpace(s: string): (t: string)
    ensures |t| <= |s|
  {
    TrimRight(TrimLeft(s))
  }

  /** A string that starts and ends with something other than a blank. */
  predicate Trimmed(s: string) {
    s != "" ==> !IsSpace(s[0]) && !IsSpace(s[|s| - 1])
  }

  lemma TrimOfTrimmed(s: string)
    requires Trimmed(s)
    ensures TrimSpace(s) == s
  {
  }

  function Blanks(n: nat): (b: string)
    ensures |b| == n && forall i :: 0 <= i < n ==> b[i] == ' '
  {
    seq(n, _ => ' ')
  }

  lemma {:induction false} TrimPadded(before: nat, s: string, after: nat)
    requires Trimmed(s) && s != ""
    ensures TrimSpace(Blanks(before) + s + Blanks(after)) == s
  {
    var text := Blanks(before) + s + Blanks(after);
    if before > 0 {
      assert text[1..] == Blanks(before - 1) + s + Blanks(after);
      TrimPadded(before - 1, s, after);
    } else {
      assert text == s + Blanks(after);
      assert TrimLeft(text) == text;
      TrimRightPadded(s, after);
    }
  }

  lemma {:induction false} TrimRightPadded(s: string, after: nat)
    requires Trimmed(s) && s != ""
    ensures TrimRight(s + Blanks(after)) == s
  {
    if after > 0 {
      var text := s + Blanks(after);
      assert text[..|text| - 1] == s + Blanks(after - 1);
      TrimRightPadded(s, after - 1);
    } else {
      assert s + Blanks(0) == s;
    }
  }

  predicate AllBlank(s: string) {
    forall k :: 0 <= k < |s| ==> s[k] in [' ', '\t', '\n', '\U{000B}', '\U{000C}', '\r', '\U{0085}', '\U{00A0}']
  }

  lemma {:induction false} TrimsLeft(a: string, s: string)
    requires AllBlank(a) && (s != "" ==> !AllBlank(s[..1]))
    ensures TrimLeft(a + s) == s
    decreases |a|
  {
    if a == "" {
      assert a + s == s;
      assert s != "" ==> s[..1] == [s[0]];
    } else {
      assert (a + s)[0] == a[0] && (a + s)[1..] == a[1..] + s;
      TrimsLeft(a[1..], s);
    }
  }

  /** The white space at both ends goes, and nothing else. */
  lemma TrimsBlanks(a: string, s: string, b: string)
    requires AllBlank(a) && AllBlank(b) && (s != "" ==> !AllBlank(s[..1]) && !AllBlank(s[|s| - 1..]))
    ensures TrimSpace(a + s + b) == s
  {
    hide TrimLeft, TrimRight, AllBlank;
    if s == "" {
      assert a + s + b == (a + b) + "";
      NothingBlank(a, b);
      TrimsLeft(a + b, "");
      TrimsRight("", "");
    } else {
      assert a + s + b == a + (s + b) && (s + b)[..1] == s[..1];
      TrimsLeft(a, s + b);
      TrimsRight(s, b);
    }
  }

  lemma NothingBlank(a: string, b: string)
    requires AllBlank(a) && AllBlank(b)
    ensures AllBlank(a + b) && AllBlank("") && "" + "" == ""
  {
  }

  lemma {:induction false} TrimsRight(s: string, b: string)
    requires AllBlank(b) && (s != "" ==> !AllBlank(s[|s| - 1..]))
    ensures TrimRight(s + b) == s
    decreases |b|
  {
    if b == "" {
      assert s + b == s;
      assert s != "" ==> s[|s| - 1..] == [s[|s| - 1]];
    } else {
      LastIsBlank(s, b);
      TrimsRight(s, b[..|b| - 1]);
    }
  }

  lemma LastIsBlank(s: string, b: string)
    requires AllBlank(b) && b != ""
    ensures TrimRight(s + b) == TrimRight(s + b[..|b| - 1]) && AllBlank(b[..|b| - 1])
  {
    assert (s + b)[|s + b| - 1] == b[|b| - 1] && (s + b)[..|s + b| - 1] == s + b[..|b| - 1];
  }

  /** The first position of `c` in `s`, or -1. */
  function IndexOf(s: string, c: char): (i: int)
    ensures -1 <= i < |s|
    ensures i >= 0 ==> s[i] == c && forall k :: 0 <= k < i ==> s[k] != c
    ensures i == -1 ==> forall k :: 0 <= k < |s| ==> s[k] != c
  {
    if s == "" then -1
    else if s[0] == c then 0
    else
      var i := IndexOf(s[1..], c);
      assert forall k :: 0 < k < |s| ==> s[k] == s[1..][k - 1];
      if i == -1 then -1 else i + 1
  }

  /** The last position of `c` in `s`, or -1. */
  function LastIndexOf(s: string, c: char): (i: int)
    ensures -1 <= i < |s|
    ensures i >= 0 ==> s[i] == c && forall k :: i < k < |s| ==> s[k] != c
    ensures i == -1 ==> forall k :: 0 <= k < |s| ==> s[k] != c
  {
    if s == "" then -1
    else if s[|s| - 1] == c then |s| - 1
    else LastIndexOf(s[..|s| - 1], c)
  }

  /** Whether the two-character string `a``b` stands at position `i` of `s`. */
  predicate PairAt(s: string, a: char, b: char, i: int) {
    0 <= i && i + 1 < |s| && s[i] == a && s[i + 1] == b
  }

  /** The last position below `n` of the two-character string `a``b`, or -1. */
  function LastPair(s: string, a: char, b: char, n: nat): (i: int)
    requires n <= |s|
    ensures -1 <= i < n
    ensures i >= 0 ==> PairAt(s, a, b, i)
    ensures forall k :: i < k < n ==> !PairAt(s, a, b, k)
  {
    if n == 0 then -1
    else if PairAt(s, a, b, n - 1) then n - 1
    else LastPair(s, a, b, n - 1)
  }

  /** The first position from `n` on of the two-character string `a``b`, or -1. */
  function FirstPair(s: string, a: char, b: char, n: nat): (i: int)
    requires n <= |s|
    ensures i == -1 || n <= i < |s|
    ensures i >= 0 ==> PairAt(s, a, b, i) && forall k :: n <= k < i ==> !PairAt(s, a, b, k)
    ensures i == -1 ==> forall k :: n <= k < |s| ==> !PairAt(s, a, b, k)
    decreases |s| - n
  {
    if n == |s| then -1
    else if PairAt(s, a, b, n) then n
    else FirstPair(s, a, b, n + 1)
  }
}

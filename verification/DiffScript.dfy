// The edit script of `diff`: an LCS table, a greedy walk over it, and why the script is minimal.
module DiffScript {
  /** One line of a script: ' ' is kept, '-' is deleted, '+' is inserted. */
  datatype Line = Line(tag: char, text: string)

  /** A line of a file as the comparison sees it, and as it is printed. */
  datatype Entry = Entry(norm: string, text: string)

  function Norms(a: seq<Entry>): (s: seq<string>)
    ensures |s| == |a|
  {
    if a == [] then [] else [a[0].norm] + Norms(a[1..])
  }

  function Texts(a: seq<Entry>): (s: seq<string>)
    ensures |s| == |a|
  {
    if a == [] then [] else [a[0].text] + Texts(a[1..])
  }

  // ----- longest common subsequences -----

  function Lcs(a: seq<Entry>, b: seq<Entry>): nat
    decreases |a| + |b|
  {
    if a == [] || b == [] then 0
    else if a[0].norm == b[0].norm then Lcs(a[1..], b[1..]) + 1
    else if Lcs(a[1..], b) >= Lcs(a, b[1..]) then Lcs(a[1..], b)
    else Lcs(a, b[1..])
  }

  ghost predicate Subsequence(s: seq<string>, a: seq<string>)
    decreases a
  {
    s == [] ||
    (a != [] && ((s[0] == a[0] && Subsequence(s[1..], a[1..])) || Subsequence(s, a[1..])))
  }

  lemma {:induction false} SubsequenceTail(s: seq<string>, a: seq<string>)
    requires s != [] && Subsequence(s, a)
    ensures Subsequence(s[1..], a)
    ensures s[0] == a[0] ==> Subsequence(s[1..], a[1..])
    decreases a
  {
    if s[0] == a[0] && Subsequence(s[1..], a[1..]) {
      SubsequenceGrows(s[1..], a);
    } else {
      SubsequenceTail(s, a[1..]);
      SubsequenceGrows(s[1..], a);
    }
  }

  lemma SubsequenceGrows(s: seq<string>, a: seq<string>)
    requires a != [] && Subsequence(s, a[1..])
    ensures Subsequence(s, a)
  {
  }

  /** No common subsequence is longer. */
  lemma {:induction false} LcsIsLongest(a: seq<Entry>, b: seq<Entry>, s: seq<string>)
    requires Subsequence(s, Norms(a)) && Subsequence(s, Norms(b))
    ensures |s| <= Lcs(a, b)
    decreases |a| + |b|
  {
    if s != [] {
      assert Norms(a)[1..] == Norms(a[1..]) && Norms(b)[1..] == Norms(b[1..]);
      if a[0].norm == b[0].norm {
        if s[0] == a[0].norm {
          SubsequenceTail(s, Norms(a));
          SubsequenceTail(s, Norms(b));
          LcsIsLongest(a[1..], b[1..], s[1..]);
        } else {
          LcsIsLongest(a[1..], b[1..], s);
        }
      } else if s[0] != a[0].norm {
        LcsIsLongest(a[1..], b, s);
      } else {
        LcsIsLongest(a, b[1..], s);
      }
    }
  }

  // ----- the walk -----

  function Walk(a: seq<Entry>, b: seq<Entry>): seq<Line>
    decreases |a| + |b|
  {
    if a == [] && b == [] then []
    else if a != [] && b != [] && a[0].norm == b[0].norm then [Line(' ', a[0].text)] + Walk(a[1..], b[1..])
    else if a != [] && (b == [] || Lcs(a[1..], b) >= Lcs(a, b[1..])) then [Line('-', a[0].text)] + Walk(a[1..], b)
    else [Line('+', b[0].text)] + Walk(a, b[1..])
  }

  predicate Tagged(lines: seq<Line>) {
    forall k :: 0 <= k < |lines| ==> lines[k].tag == ' ' || lines[k].tag == '-' || lines[k].tag == '+'
  }

  /** The lines a script takes away, and the lines it leaves. */
  function Without(lines: seq<Line>, tag: char): seq<string> {
    if lines == [] then []
    else (if lines[0].tag == tag then [] else [lines[0].text]) + Without(lines[1..], tag)
  }

  function OldSide(lines: seq<Line>): seq<string> { Without(lines, '+') }
  function NewSide(lines: seq<Line>): seq<string> { Without(lines, '-') }

  function Kept(lines: seq<Line>): seq<string> {
    if lines == [] then []
    else (if lines[0].tag == ' ' then [lines[0].text] else []) + Kept(lines[1..])
  }

  function Count(lines: seq<Line>, tag: char): nat {
    if lines == [] then 0 else (if lines[0].tag == tag then 1 else 0) + Count(lines[1..], tag)
  }

  /** The kept lines are as many as the longest common subsequence is long; what remains of each
      file is deleted or inserted. */
  lemma {:induction false} WalkCounts(a: seq<Entry>, b: seq<Entry>)
    ensures Tagged(Walk(a, b))
    ensures Count(Walk(a, b), ' ') == Lcs(a, b)
    ensures Count(Walk(a, b), '-') + Lcs(a, b) == |a|
    ensures Count(Walk(a, b), '+') + Lcs(a, b) == |b|
    decreases |a| + |b|
  {
    var w := Walk(a, b);
    if a == [] && b == [] {
    } else if a != [] && b != [] && a[0].norm == b[0].norm {
      WalkCounts(a[1..], b[1..]);
      assert w[1..] == Walk(a[1..], b[1..]);
    } else if a != [] && (b == [] || Lcs(a[1..], b) >= Lcs(a, b[1..])) {
      WalkCounts(a[1..], b);
      assert w[1..] == Walk(a[1..], b);
    } else {
      WalkCounts(a, b[1..]);
      assert w[1..] == Walk(a, b[1..]);
    }
  }

  /** Whatever is compared, the script takes away exactly the left file's lines. */
  lemma {:induction false} WalkTakesLeft(a: seq<Entry>, b: seq<Entry>)
    ensures OldSide(Walk(a, b)) == Texts(a)
    decreases |a| + |b|
  {
    var w := Walk(a, b);
    if a == [] && b == [] {
    } else if a != [] && b != [] && a[0].norm == b[0].norm {
      WalkTakesLeft(a[1..], b[1..]);
      assert w[1..] == Walk(a[1..], b[1..]);
    } else if a != [] && (b == [] || Lcs(a[1..], b) >= Lcs(a, b[1..])) {
      WalkTakesLeft(a[1..], b);
      assert w[1..] == Walk(a[1..], b);
    } else {
      WalkTakesLeft(a, b[1..]);
      assert w[1..] == Walk(a, b[1..]);
    }
  }

  /** Every line is printed as it is, and compared after normalization. */
  predicate NormalizedBy(a: seq<Entry>, norm: string -> string) {
    forall k :: 0 <= k < |a| ==> a[k].norm == norm(a[k].text)
  }

  function Mapped(s: seq<string>, norm: string -> string): seq<string> {
    if s == [] then [] else [norm(s[0])] + Mapped(s[1..], norm)
  }

  /** It leaves the right file's lines up to normalization: a kept line has the left file's text. */
  lemma {:induction false} WalkLeavesRight(a: seq<Entry>, b: seq<Entry>, norm: string -> string)
    requires NormalizedBy(a, norm) && NormalizedBy(b, norm)
    ensures Mapped(NewSide(Walk(a, b)), norm) == Norms(b)
    decreases |a| + |b|
  {
    var w := Walk(a, b);
    if a == [] && b == [] {
    } else if a != [] && b != [] && a[0].norm == b[0].norm {
      WalkLeavesRight(a[1..], b[1..], norm);
      assert w[1..] == Walk(a[1..], b[1..]);
    } else if a != [] && (b == [] || Lcs(a[1..], b) >= Lcs(a, b[1..])) {
      WalkLeavesRight(a[1..], b, norm);
      assert w[1..] == Walk(a[1..], b);
      assert NewSide(w) == NewSide(w[1..]);
    } else {
      WalkLeavesRight(a, b[1..], norm);
      assert w[1..] == Walk(a, b[1..]);
    }
  }

  lemma {:induction false} MappedIdentity(s: seq<string>, norm: string -> string)
    requires forall t :: norm(t) == t
    ensures Mapped(s, norm) == s
  {
    if s != [] {
      MappedIdentity(s[1..], norm);
    }
  }

  lemma {:induction false} NormsAreTexts(b: seq<Entry>, norm: string -> string)
    requires NormalizedBy(b, norm) && forall t :: norm(t) == t
    ensures Norms(b) == Texts(b)
  {
    if b != [] {
      NormsAreTexts(b[1..], norm);
    }
  }

  /** Without normalization it leaves exactly the right file. */
  lemma WalkLeavesRightExactly(a: seq<Entry>, b: seq<Entry>, norm: string -> string)
    requires NormalizedBy(a, norm) && NormalizedBy(b, norm) && forall t :: norm(t) == t
    ensures NewSide(Walk(a, b)) == Texts(b)
  {
    WalkLeavesRight(a, b, norm);
    MappedIdentity(NewSide(Walk(a, b)), norm);
    NormsAreTexts(b, norm);
  }

  // ----- minimality -----

  lemma {:induction false} KeptIsSubsequence(t: seq<Line>, tag: char)
    requires tag != ' '
    ensures Subsequence(Kept(t), Without(t, tag))
  {
    if t != [] {
      KeptIsSubsequence(t[1..], tag);
      var rest := Without(t[1..], tag);
      if t[0].tag != tag {
        assert Without(t, tag) == [t[0].text] + rest;
        assert Without(t, tag)[1..] == rest;
      } else {
        assert Without(t, tag) == rest;
      }
      if t[0].tag == ' ' {
        assert Kept(t)[1..] == Kept(t[1..]);
      } else {
        assert Kept(t) == Kept(t[1..]);
      }
    }
  }

  lemma {:induction false} KeptCounts(t: seq<Line>)
    requires Tagged(t)
    ensures |Kept(t)| == Count(t, ' ')
    ensures |OldSide(t)| == Count(t, ' ') + Count(t, '-')
    ensures |NewSide(t)| == Count(t, ' ') + Count(t, '+')
  {
    if t != [] {
      assert Tagged(t[1..]);
      KeptCounts(t[1..]);
    }
  }

  /** No script that turns the one list of compared lines into the other keeps more lines, deletes
      fewer or inserts fewer. */
  lemma ScriptIsMinimal(a: seq<Entry>, b: seq<Entry>, t: seq<Line>)
    requires Tagged(t) && OldSide(t) == Norms(a) && NewSide(t) == Norms(b)
    ensures Count(t, ' ') <= Count(Walk(a, b), ' ')
    ensures Count(Walk(a, b), '-') <= Count(t, '-')
    ensures Count(Walk(a, b), '+') <= Count(t, '+')
  {
    KeptIsSubsequence(t, '+');
    KeptIsSubsequence(t, '-');
    KeptCounts(t);
    LcsIsLongest(a, b, Kept(t));
    WalkCounts(a, b);
  }

  // ----- the loops -----

  /** Fills the table from the ends of both lists. */
  lemma LcsStep(a: seq<Entry>, b: seq<Entry>, i: nat, j: nat)
    requires i < |a| && j < |b|
    ensures Lcs(a[i..], b[j..]) ==
              if a[i].norm == b[j].norm then Lcs(a[i + 1..], b[j + 1..]) + 1
              else if Lcs(a[i + 1..], b[j..]) >= Lcs(a[i..], b[j + 1..]) then Lcs(a[i + 1..], b[j..])
              else Lcs(a[i..], b[j + 1..])
  {
    assert a[i..][1..] == a[i + 1..] && b[j..][1..] == b[j + 1..];
  }

  lemma LcsOfNothing(a: seq<Entry>, b: seq<Entry>)
    ensures forall k :: 0 <= k <= |b| ==> Lcs(a[|a|..], b[k..]) == 0
    ensures forall k :: 0 <= k <= |a| ==> Lcs(a[k..], b[|b|..]) == 0
  {
  }

  method FillTable(a: seq<Entry>, b: seq<Entry>) returns (lcs: array2<int>)
    ensures fresh(lcs) && lcs.Length0 == |a| + 1 && lcs.Length1 == |b| + 1
    ensures forall i, j :: 0 <= i <= |a| && 0 <= j <= |b| ==> lcs[i, j] == Lcs(a[i..], b[j..])
  {
    LcsOfNothing(a, b);
    hide Lcs;
    lcs := new int[|a| + 1, |b| + 1]((i, j) => 0);
    var i := |a| - 1;
    while i >= 0
      invariant -1 <= i <= |a| - 1
      invariant forall k :: 0 <= k <= |a| ==> lcs[k, |b|] == 0
      invariant forall k, j :: i < k <= |a| && 0 <= j <= |b| ==> lcs[k, j] == Lcs(a[k..], b[j..])
    {
      var j := |b| - 1;
      while j >= 0
        invariant -1 <= j <= |b| - 1
        invariant forall k :: 0 <= k <= |a| ==> lcs[k, |b|] == 0
        invariant forall k, l :: i < k <= |a| && 0 <= l <= |b| ==> lcs[k, l] == Lcs(a[k..], b[l..])
        invariant forall l :: j < l <= |b| ==> lcs[i, l] == Lcs(a[i..], b[l..])
      {
        LcsStep(a, b, i, j);
        if a[i].norm == b[j].norm {
          lcs[i, j] := lcs[i + 1, j + 1] + 1;
        } else if lcs[i + 1, j] >= lcs[i, j + 1] {
          lcs[i, j] := lcs[i + 1, j];
        } else {
          lcs[i, j] := lcs[i, j + 1];
        }
        j := j - 1;
      }
      i := i - 1;
    }
  }

  /** Walks both lists with the table as guide. */
  method BuildDiffLines(a: seq<Entry>, b: seq<Entry>) returns (lines: seq<Line>)
    ensures lines == Walk(a, b)
  {
    var lcs := FillTable(a, b);
    lines := [];
    var i, j := 0, 0;
    while i < |a| || j < |b|
      invariant 0 <= i <= |a| && 0 <= j <= |b|
      invariant lines + Walk(a[i..], b[j..]) == Walk(a, b)
      decreases |a| - i + |b| - j
      modifies {}
    {
      WalkStep(a, b, i, j);
      hide Walk, Lcs;
      assert i < |a| && j < |b| ==>
        lcs[i + 1, j] == Lcs(a[i + 1..], b[j..]) && lcs[i, j + 1] == Lcs(a[i..], b[j + 1..]);
      if i < |a| && j < |b| && a[i].norm == b[j].norm {
        AppendOne(lines, Line(' ', a[i].text), Walk(a[i + 1..], b[j + 1..]));
        lines := lines + [Line(' ', a[i].text)];
        i, j := i + 1, j + 1;
      } else if i < |a| && (j == |b| || lcs[i + 1, j] >= lcs[i, j + 1]) {
        AppendOne(lines, Line('-', a[i].text), Walk(a[i + 1..], b[j..]));
        lines := lines + [Line('-', a[i].text)];
        i := i + 1;
      } else if j < |b| {
        AppendOne(lines, Line('+', b[j].text), Walk(a[i..], b[j + 1..]));
        lines := lines + [Line('+', b[j].text)];
        j := j + 1;
      }
    }
    assert lines + [] == lines;
  }

  lemma AppendOne(lines: seq<Line>, line: Line, rest: seq<Line>)
    ensures lines + ([line] + rest) == (lines + [line]) + rest
  {
  }

  lemma WalkStep(a: seq<Entry>, b: seq<Entry>, i: nat, j: nat)
    requires i <= |a| && j <= |b| && (i < |a| || j < |b|)
    ensures Walk(a[i..], b[j..]) ==
              if i < |a| && j < |b| && a[i].norm == b[j].norm then [Line(' ', a[i].text)] + Walk(a[i + 1..], b[j + 1..])
              else if i < |a| && (j == |b| || Lcs(a[i + 1..], b[j..]) >= Lcs(a[i..], b[j + 1..])) then
                [Line('-', a[i].text)] + Walk(a[i + 1..], b[j..])
              else [Line('+', b[j].text)] + Walk(a[i..], b[j + 1..])
  {
    assert i < |a| ==> a[i..][1..] == a[i + 1..];
    assert j < |b| ==> b[j..][1..] == b[j + 1..];
  }

  // ----- normalization -----

  /** How lines are compared: some are skipped, the others go through `norm`. */
  datatype Normalizer = Normalizer(active: bool, skip: string -> bool, norm: string -> string)

  predicate Skipped(n: Normalizer, line: string) { n.active && n.skip(line) }

  function Compared(n: Normalizer, line: string): string { if n.active then n.norm(line) else line }

  /** The compared lines of a file, in order. */
  function Entries(lines: seq<string>, n: Normalizer): seq<Entry> {
    if lines == [] then []
    else (if Skipped(n, lines[0]) then [] else [Entry(Compared(n, lines[0]), lines[0])]) + Entries(lines[1..], n)
  }

  lemma {:induction false} EntriesAppend(s: seq<string>, t: seq<string>, n: Normalizer)
    ensures Entries(s + t, n) == Entries(s, n) + Entries(t, n)
  {
    if s == [] {
      assert s + t == t;
    } else {
      assert (s + t)[1..] == s[1..] + t;
      EntriesAppend(s[1..], t, n);
    }
  }

  lemma {:induction false} EntriesNormalized(lines: seq<string>, n: Normalizer)
    ensures NormalizedBy(Entries(lines, n), line => Compared(n, line))
  {
    if lines != [] {
      EntriesNormalized(lines[1..], n);
    }
  }

  lemma {:induction false} EntriesKeepAll(lines: seq<string>, n: Normalizer)
    requires forall k :: 0 <= k < |lines| ==> !Skipped(n, lines[k])
    ensures Texts(Entries(lines, n)) == lines
  {
    if lines != [] {
      EntriesKeepAll(lines[1..], n);
    }
  }

  /** The lines that were kept, with the ones they come from. */
  function KeptEntries(out: seq<string>, indexMap: seq<nat>, lines: seq<string>): seq<Entry>
    requires |out| == |indexMap| && forall k :: 0 <= k < |indexMap| ==> indexMap[k] < |lines|
  {
    seq(|out|, k requires 0 <= k < |out| => Entry(out[k], lines[indexMap[k]]))
  }

  /** Builds the normalized lines and the map back to the originals. */
  method NormalizeLinesWithMap(lines: seq<string>, n: Normalizer) returns (out: seq<string>, indexMap: seq<nat>)
    ensures |out| == |indexMap| && forall k :: 0 <= k < |indexMap| ==> indexMap[k] < |lines|
    ensures KeptEntries(out, indexMap, lines) == Entries(lines, n)
    ensures forall k :: 0 < k < |indexMap| ==> indexMap[k - 1] < indexMap[k]
  {
    if !n.active {
      out := lines;
      indexMap := seq(|lines|, k => k);
      PlainEntries(lines, n);
      return;
    }
    out, indexMap := [], [];
    for i := 0 to |lines|
      invariant |out| == |indexMap| && forall k :: 0 <= k < |indexMap| ==> indexMap[k] < i
      invariant KeptEntries(out, indexMap, lines) == Entries(lines[..i], n)
      invariant forall k :: 0 < k < |indexMap| ==> indexMap[k - 1] < indexMap[k]
    {
      var line := lines[i];
      EntriesStep(lines, i, n);
      hide Entries, KeptEntries;
      if n.skip(line) {
        continue;
      }
      KeptAppend(out, indexMap, lines, n.norm(line), i);
      out := out + [n.norm(line)];
      indexMap := indexMap + [i];
    }
    assert lines[..|lines|] == lines;
  }

  lemma KeptAppend(out: seq<string>, indexMap: seq<nat>, lines: seq<string>, norm: string, i: nat)
    requires |out| == |indexMap| && i < |lines| && forall k :: 0 <= k < |indexMap| ==> indexMap[k] < |lines|
    ensures KeptEntries(out + [norm], indexMap + [i], lines) == KeptEntries(out, indexMap, lines) + [Entry(norm, lines[i])]
  {
  }

  lemma EntriesStep(lines: seq<string>, i: nat, n: Normalizer)
    requires i < |lines| && n.active
    ensures Entries(lines[..i + 1], n)
         == Entries(lines[..i], n) + if n.skip(lines[i]) then [] else [Entry(n.norm(lines[i]), lines[i])]
  {
    var line := lines[i];
    assert lines[..i + 1] == lines[..i] + [line];
    EntriesAppend(lines[..i], [line], n);
    assert [line][1..] == [];
    assert [Entry(n.norm(line), line)] + [] == [Entry(n.norm(line), line)];
  }

  lemma {:induction false} PlainEntries(lines: seq<string>, n: Normalizer)
    requires !n.active
    ensures Entries(lines, n) == seq(|lines|, k requires 0 <= k < |lines| => Entry(lines[k], lines[k]))
  {
    if lines != [] {
      PlainEntries(lines[1..], n);
    }
  }
}

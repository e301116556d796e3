// The unified output as a patch: hunk headers, counts, and what applying the hunks does.
module DiffPatch {
  import opened DiffScript
  import opened DiffHunks
  import opened Options

  // ----- positions in the two files -----

  /** How many lines of the old and of the new file stand before a script position. */
  function OldPos(lines: seq<Line>, i: nat): nat
    requires i <= |lines|
  {
    |OldSide(lines[..i])|
  }

  function NewPos(lines: seq<Line>, i: nat): nat
    requires i <= |lines|
  {
    |NewSide(lines[..i])|
  }

  lemma {:induction false} WithoutConcat(s: seq<Line>, t: seq<Line>, tag: char)
    ensures Without(s + t, tag) == Without(s, tag) + Without(t, tag)
  {
    if s == [] {
      assert s + t == t;
    } else {
      assert (s + t)[1..] == s[1..] + t;
      WithoutConcat(s[1..], t, tag);
    }
  }

  // ----- applying a patch -----

  /** A hunk to be applied: at which line of the old file, what it expects there, what it puts there. */
  datatype Edit = Edit(at: nat, old_: seq<string>, new_: seq<string>)

  function EditOf(lines: seq<Line>, h: Hunk): Edit
    requires h.start <= h.end <= |lines|
  {
    var part := lines[h.start..h.end];
    Edit(OldPos(lines, h.start), OldSide(part), NewSide(part))
  }

  /** Applies hunks from line `cursor` on: gaps are copied, each old side is checked and replaced. */
  function Apply(file: seq<string>, cursor: nat, edits: seq<Edit>): Option<seq<string>>
    requires cursor <= |file|
    decreases edits
  {
    if edits == [] then Some(file[cursor..])
    else
      var e := edits[0];
      if e.at < cursor || e.at + |e.old_| > |file| || file[e.at..e.at + |e.old_|] != e.old_ then None
      else
        match Apply(file, e.at + |e.old_|, edits[1..])
        case None => None
        case Some(rest) => Some(file[cursor..e.at] + e.new_ + rest)
  }

  predicate Bounded(lines: seq<Line>, hunks: seq<Hunk>) {
    forall k :: 0 <= k < |hunks| ==> hunks[k].start <= hunks[k].end <= |lines|
  }

  function Edits(lines: seq<Line>, hunks: seq<Hunk>): seq<Edit>
    requires Bounded(lines, hunks)
  {
    if hunks == [] then [] else [EditOf(lines, hunks[0])] + Edits(lines, hunks[1..])
  }

  /** What is left of position `p` on when only the changes inside the hunks are made. */
  function Partly(lines: seq<Line>, hunks: seq<Hunk>, p: nat): seq<string>
    requires Bounded(lines, hunks) && p <= |lines|
    decreases hunks
  {
    if hunks == [] then OldSide(lines[p..])
    else if hunks[0].start < p then []
    else OldSide(lines[p..hunks[0].start]) + NewSide(lines[hunks[0].start..hunks[0].end])
           + Partly(lines, hunks[1..], hunks[0].end)
  }

  predicate InOrder(hunks: seq<Hunk>, p: nat)
    decreases hunks
  {
    hunks == [] || (p <= hunks[0].start <= hunks[0].end && InOrder(hunks[1..], hunks[0].end))
  }

  lemma SlicePositions(lines: seq<Line>, i: nat, j: nat)
    requires i <= j <= |lines|
    ensures OldPos(lines, j) == OldPos(lines, i) + |OldSide(lines[i..j])| <= |OldSide(lines)|
    ensures OldSide(lines)[OldPos(lines, i)..OldPos(lines, j)] == OldSide(lines[i..j])
    ensures OldSide(lines)[OldPos(lines, i)..] == OldSide(lines[i..])
  {
    assert lines[..j] == lines[..i] + lines[i..j];
    assert lines == lines[..j] + lines[j..];
    assert lines == lines[..i] + lines[i..];
    WithoutConcat(lines[..i], lines[i..j], '+');
    WithoutConcat(lines[..j], lines[j..], '+');
    WithoutConcat(lines[..i], lines[i..], '+');
  }

  lemma ApplyOne(file: seq<string>, cursor: nat, e: Edit, edits: seq<Edit>, rest: seq<string>)
    requires cursor <= e.at && e.at + |e.old_| <= |file| && file[e.at..e.at + |e.old_|] == e.old_
    requires Apply(file, e.at + |e.old_|, edits) == Some(rest)
    ensures Apply(file, cursor, [e] + edits) == Some(file[cursor..e.at] + e.new_ + rest)
  {
    assert ([e] + edits)[1..] == edits;
  }

  /** Each hunk's old side is found where its header says, and applying the hunks makes the changes
      that are in them and no others. */
  lemma {:induction false} ApplyEdits(lines: seq<Line>, hunks: seq<Hunk>, p: nat)
    requires Bounded(lines, hunks) && InOrder(hunks, p) && p <= |lines|
    ensures OldPos(lines, p) <= |OldSide(lines)|
    ensures Apply(OldSide(lines), OldPos(lines, p), Edits(lines, hunks)) == Some(Partly(lines, hunks, p))
    decreases hunks
  {
    SlicePositions(lines, p, |lines|);
    if hunks != [] {
      var h := hunks[0];
      SlicePositions(lines, p, h.start);
      SlicePositions(lines, h.start, h.end);
      ApplyEdits(lines, hunks[1..], h.end);
      hide Apply, Without, OldSide, OldPos;
      ApplyOne(OldSide(lines), OldPos(lines, p), EditOf(lines, h), Edits(lines, hunks[1..]), Partly(lines, hunks[1..], h.end));
    }
  }

  // ----- what the patched file is -----

  function Drop(s: seq<string>, blank: string -> bool): seq<string> {
    if s == [] then [] else (if blank(s[0]) then [] else [s[0]]) + Drop(s[1..], blank)
  }

  lemma {:induction false} DropConcat(s: seq<string>, t: seq<string>, blank: string -> bool)
    ensures Drop(s + t, blank) == Drop(s, blank) + Drop(t, blank)
  {
    if s == [] {
      assert s + t == t;
    } else {
      assert (s + t)[1..] == s[1..] + t;
      DropConcat(s[1..], t, blank);
    }
  }

  lemma {:induction false} DropNothing(s: seq<string>, blank: string -> bool)
    requires forall t :: !blank(t)
    ensures Drop(s, blank) == s
  {
    if s != [] {
      DropNothing(s[1..], blank);
    }
  }

  /** Every changed line of the segment is blank. */
  predicate BlankOnly(lines: seq<Line>, blank: string -> bool) {
    forall k :: 0 <= k < |lines| ==> lines[k].tag == ' ' || blank(lines[k].text)
  }

  lemma {:induction false} BlankOnlySides(lines: seq<Line>, blank: string -> bool)
    requires BlankOnly(lines, blank)
    ensures Drop(OldSide(lines), blank) == Drop(NewSide(lines), blank)
  {
    if lines != [] {
      assert forall k :: 0 <= k < |lines[1..]| ==> lines[1..][k] == lines[k + 1];
      BlankOnlySides(lines[1..], blank);
      var x, o, n := lines[0], OldSide(lines[1..]), NewSide(lines[1..]);
      DropConcat(if x.tag == '+' then [] else [x.text], o, blank);
      DropConcat(if x.tag == '-' then [] else [x.text], n, blank);
      assert Drop([x.text], blank) == if blank(x.text) then [] else [x.text];
    }
  }

  /** Outside the hunks, from position `p` on, only blank lines are changed. */
  ghost predicate OutsideBlank(lines: seq<Line>, hunks: seq<Hunk>, p: nat, blank: string -> bool) {
    forall i :: p <= i < |lines| && Changed(lines, i) && !Covered(hunks, i) ==> blank(lines[i].text)
  }

  lemma SegmentBlank(lines: seq<Line>, hunks: seq<Hunk>, p: nat, q: nat, blank: string -> bool)
    requires p <= q <= |lines| && OutsideBlank(lines, hunks, p, blank)
    requires forall i :: p <= i < q ==> !Covered(hunks, i)
    ensures BlankOnly(lines[p..q], blank)
  {
    forall k | 0 <= k < |lines[p..q]| && lines[p..q][k].tag != ' ' ensures blank(lines[p..q][k].text) {
      assert Changed(lines, p + k) && !Covered(hunks, p + k);
    }
  }

  lemma {:induction false} InOrderStarts(hunks: seq<Hunk>, p: nat, k: nat)
    requires InOrder(hunks, p) && k < |hunks|
    ensures p <= hunks[k].start && (k > 0 ==> hunks[0].end <= hunks[k].start)
    decreases hunks
  {
    if k > 0 {
      InOrderStarts(hunks[1..], hunks[0].end, k - 1);
    }
  }

  lemma HeadUncovered(hunks: seq<Hunk>, p: nat, i: int)
    requires InOrder(hunks, p) && hunks != []
    ensures i < hunks[0].start ==> !Covered(hunks, i)
    ensures i >= hunks[0].end ==> (Covered(hunks, i) <==> Covered(hunks[1..], i))
  {
    if Covered(hunks, i) {
      var k :| 0 <= k < |hunks| && hunks[k].start <= i < hunks[k].end;
      InOrderStarts(hunks, p, k);
      if k > 0 { assert hunks[1..][k - 1] == hunks[k]; }
    }
    if Covered(hunks[1..], i) {
      var k :| 0 <= k < |hunks[1..]| && hunks[1..][k].start <= i < hunks[1..][k].end;
      assert hunks[k + 1].start <= i < hunks[k + 1].end;
    }
  }

  /** In front of the first hunk, and behind it. */
  lemma OutsideParts(lines: seq<Line>, hunks: seq<Hunk>, p: nat, blank: string -> bool)
    requires hunks != [] && Bounded(lines, hunks) && InOrder(hunks, p) && OutsideBlank(lines, hunks, p, blank)
    ensures BlankOnly(lines[p..hunks[0].start], blank)
    ensures OutsideBlank(lines, hunks[1..], hunks[0].end, blank)
  {
    forall i | p <= i < hunks[0].start ensures !Covered(hunks, i) { HeadUncovered(hunks, p, i); }
    SegmentBlank(lines, hunks, p, hunks[0].start, blank);
    forall i | hunks[0].end <= i < |lines| && Changed(lines, i) && !Covered(hunks[1..], i) ensures blank(lines[i].text) {
      HeadUncovered(hunks, p, i);
    }
  }

  /** If only blank lines are changed outside the hunks, the patched file is the new file up to blank
      lines. */
  lemma {:induction false} PartlyIsNew(lines: seq<Line>, hunks: seq<Hunk>, p: nat, blank: string -> bool)
    requires Bounded(lines, hunks) && InOrder(hunks, p) && p <= |lines| && OutsideBlank(lines, hunks, p, blank)
    ensures Drop(Partly(lines, hunks, p), blank) == Drop(NewSide(lines[p..]), blank)
    decreases hunks
  {
    hide Drop, Covered, Changed, BlankOnly, Without;
    if hunks == [] {
      SegmentBlank(lines, hunks, p, |lines|, blank) by { NothingCovered(); }
      assert lines[p..|lines|] == lines[p..];
      BlankOnlySides(lines[p..], blank);
    } else {
      var h := hunks[0];
      OutsideParts(lines, hunks, p, blank);
      hide OutsideBlank;
      BlankOnlySides(lines[p..h.start], blank);
      PartlyIsNew(lines, hunks[1..], h.end, blank);
      var gap, mid, rest := lines[p..h.start], lines[h.start..h.end], lines[h.end..];
      assert lines[p..] == gap + mid + rest;
      PartlyJoin(gap, mid, rest, Partly(lines, hunks[1..], h.end), blank);
    }
  }

  lemma NothingCovered()
    ensures forall i :: !Covered([], i)
  {
  }

  lemma PartlyJoin(gap: seq<Line>, mid: seq<Line>, rest: seq<Line>, partly: seq<string>, blank: string -> bool)
    requires Drop(OldSide(gap), blank) == Drop(NewSide(gap), blank)
    requires Drop(partly, blank) == Drop(NewSide(rest), blank)
    ensures Drop(OldSide(gap) + NewSide(mid) + partly, blank) == Drop(NewSide(gap + mid + rest), blank)
  {
    WithoutConcat(gap + mid, rest, '-');
    WithoutConcat(gap, mid, '-');
    DropConcat(OldSide(gap) + NewSide(mid), partly, blank);
    DropConcat(OldSide(gap), NewSide(mid), blank);
    DropConcat(NewSide(gap) + NewSide(mid), NewSide(rest), blank);
    DropConcat(NewSide(gap), NewSide(mid), blank);
  }

  lemma {:induction false} SeparatedInOrder(hunks: seq<Hunk>, p: nat)
    requires Separated(hunks) && (hunks != [] ==> p <= hunks[0].start)
    ensures InOrder(hunks, p)
    decreases hunks
  {
    if hunks != [] {
      TailSeparated(hunks);
      SeparatedInOrder(hunks[1..], hunks[0].end);
    }
  }

  /** Patch correctness: the hunks found for any context turn the script's old side into its new side. */
  lemma PatchIsExact(lines: seq<Line>, context: nat, hunks: seq<Hunk>)
    requires Separated(hunks) && AllBelow(hunks, |lines|)
    requires forall i :: 0 <= i < |lines| ==> (Covered(hunks, i) <==> Near(lines, i, context, |lines|))
    ensures Bounded(lines, hunks)
    ensures Apply(OldSide(lines), 0, Edits(lines, hunks)) == Some(NewSide(lines))
  {
    var never := (t: string) => false;
    SeparatedInOrder(hunks, 0);
    assert lines[..0] == [] && lines[0..] == lines;
    ApplyEdits(lines, hunks, 0);
    ChangesCovered(lines, context, hunks);
    PartlyIsNew(lines, hunks, 0, never);
    DropNothing(Partly(lines, hunks, 0), never);
    DropNothing(NewSide(lines), never);
  }

  lemma ChangesCovered(lines: seq<Line>, context: nat, hunks: seq<Hunk>)
    requires forall i :: 0 <= i < |lines| ==> (Covered(hunks, i) <==> Near(lines, i, context, |lines|))
    ensures forall i :: 0 <= i < |lines| && Changed(lines, i) ==> Covered(hunks, i)
  {
    forall i | 0 <= i < |lines| && Changed(lines, i) ensures Covered(hunks, i) {
      assert Within(i, i, context);
    }
  }

  /** For two files without normalization: applying the printed hunks to the left file gives the
      right file. */
  lemma DiffPatchesLeftToRight(left: seq<string>, right: seq<string>, context: nat, hunks: seq<Hunk>, n: Normalizer)
    requires !n.active
    requires var lines := Walk(Entries(left, n), Entries(right, n));
             Separated(hunks) && AllBelow(hunks, |lines|) &&
             forall i :: 0 <= i < |lines| ==> (Covered(hunks, i) <==> Near(lines, i, context, |lines|))
    ensures var lines := Walk(Entries(left, n), Entries(right, n));
            Bounded(lines, hunks) && Apply(left, 0, Edits(lines, hunks)) == Some(right)
  {
    var a, b := Entries(left, n), Entries(right, n);
    var same := (t: string) => Compared(n, t);
    EntriesKeepAll(left, n);
    EntriesKeepAll(right, n);
    EntriesNormalized(left, n);
    EntriesNormalized(right, n);
    WalkTakesLeft(a, b);
    WalkLeavesRightExactly(a, b, same);
    PatchIsExact(Walk(a, b), context, hunks);
  }

  // ----- hunks of blank lines -----

  /** Whether every changed line of the hunk is blank. */
  method HunkIsBlankOnly(lines: seq<Line>, blank: string -> bool) returns (only: bool)
    ensures only <==> BlankOnly(lines, blank)
  {
    for k := 0 to |lines|
      invariant forall j :: 0 <= j < k ==> lines[j].tag == ' ' || blank(lines[j].text)
    {
      if lines[k].tag != ' ' && !blank(lines[k].text) {
        return false;
      }
    }
    return true;
  }

  function Filtered(lines: seq<Line>, hunks: seq<Hunk>, blank: string -> bool): seq<Hunk>
    requires Bounded(lines, hunks)
  {
    if hunks == [] then []
    else
      (if BlankOnly(lines[hunks[0].start..hunks[0].end], blank) then [] else [hunks[0]])
      + Filtered(lines, hunks[1..], blank)
  }

  lemma {:induction false} FilteredInOrder(lines: seq<Line>, hunks: seq<Hunk>, p: nat, blank: string -> bool)
    requires Bounded(lines, hunks) && InOrder(hunks, p)
    ensures Bounded(lines, Filtered(lines, hunks, blank)) && InOrder(Filtered(lines, hunks, blank), p)
    decreases hunks
  {
    if hunks != [] {
      var f := Filtered(lines, hunks[1..], blank);
      FilteredInOrder(lines, hunks[1..], hunks[0].end, blank);
      assert ([hunks[0]] + f)[1..] == f;
      assert [] + f == f;
    }
  }

  lemma {:induction false} FilteredCovers(lines: seq<Line>, hunks: seq<Hunk>, i: nat, blank: string -> bool)
    requires Bounded(lines, hunks) && Covered(hunks, i) && Changed(lines, i)
    ensures Covered(Filtered(lines, hunks, blank), i) || blank(lines[i].text)
    decreases hunks
  {
    var k :| 0 <= k < |hunks| && hunks[k].start <= i < hunks[k].end;
    var h, f := hunks[0], Filtered(lines, hunks[1..], blank);
    var g := Filtered(lines, hunks, blank);
    if k == 0 {
      if BlankOnly(lines[h.start..h.end], blank) {
        assert lines[h.start..h.end][i - h.start] == lines[i];
      } else {
        assert g[0] == h;
      }
    } else {
      assert hunks[1..][k - 1] == hunks[k];
      FilteredCovers(lines, hunks[1..], i, blank);
      if Covered(f, i) {
        var j :| 0 <= j < |f| && f[j].start <= i < f[j].end;
        assert g[j + |g| - |f|] == f[j];
      }
    }
  }

  /** With `-B`, leaving out the hunks of blank lines loses blank lines only. */
  lemma FilteredPatchKeepsText(lines: seq<Line>, context: nat, hunks: seq<Hunk>, blank: string -> bool)
    requires Separated(hunks) && AllBelow(hunks, |lines|)
    requires forall i :: 0 <= i < |lines| ==> (Covered(hunks, i) <==> Near(lines, i, context, |lines|))
    ensures Bounded(lines, hunks) && Bounded(lines, Filtered(lines, hunks, blank))
    ensures var patched := Apply(OldSide(lines), 0, Edits(lines, Filtered(lines, hunks, blank)));
            patched.Some? && Drop(patched.value, blank) == Drop(NewSide(lines), blank)
  {
    var f := Filtered(lines, hunks, blank);
    SeparatedInOrder(hunks, 0);
    FilteredInOrder(lines, hunks, 0, blank);
    assert lines[..0] == [] && lines[0..] == lines;
    ApplyEdits(lines, f, 0);
    ChangesCovered(lines, context, hunks);
    forall i | 0 <= i < |lines| && Changed(lines, i) && !Covered(f, i) ensures blank(lines[i].text) {
      FilteredCovers(lines, hunks, i, blank);
    }
    PartlyIsNew(lines, f, 0, blank);
  }

  // ----- hunk headers -----

  function CountOther(lines: seq<Line>, skipTag: char): nat { |Without(lines, skipTag)| }

  lemma CountOtherAppend(lines: seq<Line>, line: Line, skipTag: char)
    ensures CountOther(lines + [line], skipTag) == CountOther(lines, skipTag) + (if line.tag == skipTag then 0 else 1)
  {
    WithoutConcat(lines, [line], skipTag);
    assert Without([line][1..], skipTag) == [];
  }

  /** Counts the lines before `index` that do not have the given tag, from 1. */
  method ComputeStart(lines: seq<Line>, index: nat, skipTag: char) returns (pos: int)
    requires index <= |lines|
    ensures pos == CountOther(lines[..index], skipTag) + 1
  {
    pos := 1;
    var i := 0;
    while i < |lines|
      invariant i <= index && pos == CountOther(lines[..i], skipTag) + 1
    {
      if i == index {
        return;
      }
      assert lines[..i + 1] == lines[..i] + [lines[i]];
      CountOtherAppend(lines[..i], lines[i], skipTag);
      if lines[i].tag != skipTag {
        pos := pos + 1;
      }
      i := i + 1;
    }
  }

  /** The numbers of a hunk header. */
  datatype Header = Header(aStart: int, aCount: nat, bStart: int, bCount: nat)

  function EmptyShift(count: nat): int { if count == 0 then 1 else 0 }

  /** The counts are the lengths of the two sides; the start numbers are computed with the tags of
      the other side. */
  method WriteHeader(lines: seq<Line>, h: Hunk) returns (header: Header)
    requires h.start <= h.end <= |lines|
    ensures var e := EditOf(lines, h);
            header == Header(NewPos(lines, h.start) + 1 - EmptyShift(|e.old_|), |e.old_|,
                             OldPos(lines, h.start) + 1 - EmptyShift(|e.new_|), |e.new_|)
  {
    var part := lines[h.start..h.end];
    var aCount, bCount := 0, 0;
    for k := 0 to |part|
      invariant aCount == CountOther(part[..k], '+') && bCount == CountOther(part[..k], '-')
    {
      assert part[..k + 1] == part[..k] + [part[k]];
      CountOtherAppend(part[..k], part[k], '+');
      CountOtherAppend(part[..k], part[k], '-');
      if part[k].tag != '+' {
        aCount := aCount + 1;
      }
      if part[k].tag != '-' {
        bCount := bCount + 1;
      }
    }
    assert part[..|part|] == part;
    var aStart := ComputeStart(lines, h.start, '-');
    var bStart := ComputeStart(lines, h.start, '+');
    if aCount == 0 {
      aStart := aStart - 1;
    }
    if bCount == 0 {
      bStart := bStart - 1;
    }
    header := Header(aStart, aCount, bStart, bCount);
  }

  /** The header a reader of the unified format expects: each side's own first line, or, where the side is
      empty, the line in front. */
  function TrueHeader(lines: seq<Line>, h: Hunk): Header
    requires h.start <= h.end <= |lines|
  {
    var e := EditOf(lines, h);
    Header(OldPos(lines, h.start) + (if e.old_ == [] then 0 else 1), |e.old_|,
           NewPos(lines, h.start) + (if e.new_ == [] then 0 else 1), |e.new_|)
  }

  /** The printed start numbers are right exactly when as many lines were deleted as inserted in front
      of the hunk. */
  lemma HeaderIsRightExactly(lines: seq<Line>, h: Hunk, header: Header)
    requires Tagged(lines) && h.start <= h.end <= |lines|
    requires var e := EditOf(lines, h);
             header == Header(NewPos(lines, h.start) + 1 - EmptyShift(|e.old_|), |e.old_|,
                              OldPos(lines, h.start) + 1 - EmptyShift(|e.new_|), |e.new_|)
    ensures header == TrueHeader(lines, h) <==> Count(lines[..h.start], '-') == Count(lines[..h.start], '+')
  {
    KeptCounts(lines[..h.start]);
  }

  lemma {:induction false} NoChangesNoCount(lines: seq<Line>)
    requires forall k :: 0 <= k < |lines| ==> lines[k].tag == ' '
    ensures Count(lines, '-') == 0 && Count(lines, '+') == 0
  {
    if lines != [] {
      NoChangesNoCount(lines[1..]);
    }
  }

  /** So the first hunk's header is always right. */
  lemma FirstHeaderIsRight(lines: seq<Line>, context: nat, hunks: seq<Hunk>)
    requires Tagged(lines) && Separated(hunks) && AllBelow(hunks, |lines|) && hunks != []
    requires forall i :: 0 <= i < |lines| ==> (Covered(hunks, i) <==> Near(lines, i, context, |lines|))
    ensures Count(lines[..hunks[0].start], '-') == 0 && Count(lines[..hunks[0].start], '+') == 0
  {
    ChangesCovered(lines, context, hunks);
    SeparatedInOrder(hunks, 0);
    forall k | 0 <= k < hunks[0].start ensures lines[..hunks[0].start][k].tag == ' ' {
      HeadUncovered(hunks, 0, k);
    }
    NoChangesNoCount(lines[..hunks[0].start]);
  }

  const DELETED_THEN_INSERTED := [Line('-', "a"), Line(' ', "b"), Line('+', "c")]

  /** Without context, these lines make these two hunks, and no others. */
  lemma HunksOfExample(hunks: seq<Hunk>)
    requires var lines := DELETED_THEN_INSERTED;
             && Separated(hunks) && AllBelow(hunks, |lines|)
             && forall i :: 0 <= i < |lines| ==> (Covered(hunks, i) <==> Near(lines, i, 0, |lines|))
    ensures hunks == [Hunk(0, 1), Hunk(2, 3)]
  {
    var lines, two := DELETED_THEN_INSERTED, [Hunk(0, 1), Hunk(2, 3)];
    assert Changed(lines, 0) && !Changed(lines, 1) && Changed(lines, 2);
    assert two[0].start == 0 && two[1].start == 2;
    forall i ensures Covered(hunks, i) <==> Covered(two, i) {
      if 0 <= i < |lines| {
        assert Near(lines, i, 0, |lines|) <==> Changed(lines, i);
        assert Covered(two, i) <==> i == 0 || i == 2;
      }
    }
    HunksAreUnique(hunks, two);
  }

  /** One deletion in front of an insertion: of the hunks that are made, the second gets a wrong header. */
  lemma SecondHeaderCanBeWrong(hunks: seq<Hunk>)
    requires var lines := DELETED_THEN_INSERTED;
             && Separated(hunks) && AllBelow(hunks, |lines|)
             && forall i :: 0 <= i < |lines| ==> (Covered(hunks, i) <==> Near(lines, i, 0, |lines|))
    ensures |hunks| == 2 && hunks[1] == Hunk(2, 3)
    ensures var lines, h := DELETED_THEN_INSERTED, hunks[1];
            Header(NewPos(lines, 2) + 1 - EmptyShift(|EditOf(lines, h).old_|), |EditOf(lines, h).old_|,
                   OldPos(lines, 2) + 1 - EmptyShift(|EditOf(lines, h).new_|), |EditOf(lines, h).new_|) != TrueHeader(lines, h)
  {
    HunksOfExample(hunks);
    var lines := DELETED_THEN_INSERTED;
    var before := lines[..2];
    assert before[0] == lines[0] && before[1] == lines[1] && before[1..][1..] == [];
    assert Count(before[1..], '-') == 0 && Count(before[1..], '+') == 0;
    assert Count(before, '-') == 1 && Count(before, '+') == 0;
    assert Tagged(lines);
    var h := hunks[1];
    HeaderIsRightExactly(lines, h, Header(NewPos(lines, 2) + 1 - EmptyShift(|EditOf(lines, h).old_|), |EditOf(lines, h).old_|,
                                          OldPos(lines, 2) + 1 - EmptyShift(|EditOf(lines, h).new_|), |EditOf(lines, h).new_|));
  }
}

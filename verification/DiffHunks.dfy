// Grouping the changed lines of a script into hunks with context.
module DiffHunks {
  import opened DiffScript

  datatype Hunk = Hunk(start: nat, end: nat)

  predicate Changed(lines: seq<Line>, i: int) { 0 <= i < |lines| && lines[i].tag != ' ' }

  predicate Within(i: int, c: int, n: int) { c - n <= i <= c + n }

  /** Position `i` is within `n` lines of a change below `e`. */
  ghost predicate Near(lines: seq<Line>, i: int, n: nat, e: int) {
    exists c :: c < e && Changed(lines, c) && Within(i, c, n)
  }

  ghost predicate Covered(hunks: seq<Hunk>, i: int) {
    exists k :: 0 <= k < |hunks| && hunks[k].start <= i < hunks[k].end
  }

  /** Sorted, non-empty and strictly separated: no two overlap or touch. */
  predicate Separated(hunks: seq<Hunk>) {
    (forall k :: 0 <= k < |hunks| ==> hunks[k].start < hunks[k].end) &&
    (forall k :: 0 < k < |hunks| ==> hunks[k - 1].end < hunks[k].start)
  }

  predicate AllBelow(hunks: seq<Hunk>, e: int) {
    forall k :: 0 <= k < |hunks| ==> hunks[k].end <= e
  }

  ghost predicate NoChanges(lines: seq<Line>, from: int, to: int) {
    forall c :: from <= c < to ==> !Changed(lines, c)
  }

  /** What the outer loop knows at position `i`: the hunks are exactly what is near the changes below
      `i`, and the last of them ends here, `n` lines behind its last change. */
  ghost predicate Grouped(lines: seq<Line>, n: nat, hunks: seq<Hunk>, i: nat) {
    && i <= |lines| && Separated(hunks) && AllBelow(hunks, i)
    && (if hunks == [] then i == 0 else hunks[|hunks| - 1].end == i)
    && (hunks != [] && i < |lines| ==> Changed(lines, i - n - 1))
    && (forall p :: 0 <= p < |lines| ==> (Covered(hunks, p) <==> Near(lines, p, n, i)))
  }

  /** What the inner loop knows: the group from the change `first` to the change `last`. */
  ghost predicate Extent(lines: seq<Line>, n: nat, first: nat, last: nat, end: nat) {
    && first <= last < |lines| && first <= end <= |lines|
    && (if end == first then last == first else last < end <= last + n + 1)
    && Changed(lines, first) && Changed(lines, last) && NoChanges(lines, last + 1, end)
    && (forall p :: first <= p < end ==> Near(lines, p, n, end))
  }

  /** One more line in the group. */
  lemma ExtentGrows(lines: seq<Line>, n: nat, first: nat, last: nat, end: nat, now: nat)
    requires Extent(lines, n, first, last, end) && end < |lines|
    requires now == if lines[end].tag != ' ' then end else last
    requires end - now <= n
    ensures Extent(lines, n, first, now, end + 1)
  {
    assert Changed(lines, now) && now < end + 1;
    var e := end + 1;
    forall p | first <= p < e ensures Near(lines, p, n, e) {
      if p < end {
        assert Near(lines, p, n, end);
        var c :| c < end && Changed(lines, c) && Within(p, c, n);
        assert c < e;
      } else {
        assert Within(p, now, n);
      }
    }
  }

  /** A finished group: nothing beyond its end is near its changes. */
  ghost predicate Finished(lines: seq<Line>, n: nat, first: nat, last: nat, end: nat) {
    Extent(lines, n, first, last, end) && first < end && (end == |lines| || end == last + n + 1)
  }

  function GroupStart(first: nat, n: nat): nat { if first - n < 0 then 0 else first - n }

  /** The positions near the changes seen so far: the old ones and those of the new group. */
  lemma NearAfterGroup(lines: seq<Line>, n: nat, from: nat, first: nat, last: nat, end: nat, p: nat)
    requires from <= first && NoChanges(lines, from, first) && Finished(lines, n, first, last, end) && p < |lines|
    ensures Near(lines, p, n, end) <==> Near(lines, p, n, from) || GroupStart(first, n) <= p < end
  {
    var start := GroupStart(first, n);
    if Near(lines, p, n, end) {
      var c :| c < end && Changed(lines, c) && Within(p, c, n);
      if c >= from {
        assert first <= c <= last;
        assert start <= p < end;
      }
    }
    if Near(lines, p, n, from) {
      var c :| c < from && Changed(lines, c) && Within(p, c, n);
      assert c < end;
    }
    if start <= p < first {
      assert Within(p, first, n) && Changed(lines, first);
    }
  }

  /** Between the start of a group that reaches back to the last hunk and that hunk's end, everything
      is in the hunk already. */
  lemma BackIsCovered(lines: seq<Line>, n: nat, was: seq<Hunk>, from: nat, first: nat, p: nat)
    requires Grouped(lines, n, was, from) && was != [] && from <= first < |lines| && GroupStart(first, n) <= p < from
    ensures Covered(was, p)
  {
    var c := from - n - 1;
    assert Changed(lines, c) && c < from && Within(p, c, n);
    assert Near(lines, p, n, from);
  }

  /** The group joins the last hunk, or becomes a hunk of its own. */
  function WithGroup(was: seq<Hunk>, start: nat, end: nat): seq<Hunk> {
    if |was| > 0 && start <= was[|was| - 1].end then was[|was| - 1 := was[|was| - 1].(end := end)]
    else was + [Hunk(start, end)]
  }

  lemma CoveredAfterGroup(lines: seq<Line>, n: nat, was: seq<Hunk>, from: nat, first: nat, last: nat, end: nat, p: nat)
    requires Grouped(lines, n, was, from) && from <= first && NoChanges(lines, from, first)
    requires Finished(lines, n, first, last, end) && p < |lines|
    ensures Covered(WithGroup(was, GroupStart(first, n), end), p) <==> Covered(was, p) || GroupStart(first, n) <= p < end
  {
    var start := GroupStart(first, n);
    var hunks := WithGroup(was, start, end);
    var m := |was| - 1;
    if |was| > 0 && start <= was[m].end {
      if Covered(was, p) {
        var k :| 0 <= k < |was| && was[k].start <= p < was[k].end;
        assert hunks[k].start <= p < hunks[k].end;
      }
      if Covered(hunks, p) {
        var k :| 0 <= k < |hunks| && hunks[k].start <= p < hunks[k].end;
        if !(k == m && p >= from) {
          assert was[k].start <= p < was[k].end;
        }
      }
      if start <= p < end {
        if p < from {
          BackIsCovered(lines, n, was, from, first, p);
        } else {
          assert hunks[m].start <= p < hunks[m].end;
        }
      }
    } else {
      if Covered(was, p) {
        var k :| 0 <= k < |was| && was[k].start <= p < was[k].end;
        assert hunks[k].start <= p < hunks[k].end;
      }
      if Covered(hunks, p) {
        var k :| 0 <= k < |hunks| && hunks[k].start <= p < hunks[k].end;
        if k < |was| {
          assert was[k].start <= p < was[k].end;
        }
      }
      assert hunks[|was|] == Hunk(start, end);
    }
  }

  lemma GroupAdded(lines: seq<Line>, n: nat, was: seq<Hunk>, from: nat, first: nat, last: nat, end: nat)
    requires Grouped(lines, n, was, from) && from <= first && NoChanges(lines, from, first)
    requires Finished(lines, n, first, last, end)
    ensures Grouped(lines, n, WithGroup(was, GroupStart(first, n), end), end)
  {
    forall p | 0 <= p < |lines|
      ensures Covered(WithGroup(was, GroupStart(first, n), end), p) <==> Near(lines, p, n, end)
    {
      NearAfterGroup(lines, n, from, first, last, end, p);
      CoveredAfterGroup(lines, n, was, from, first, last, end, p);
    }
  }

  lemma NothingMore(lines: seq<Line>, n: nat, hunks: seq<Hunk>, from: nat)
    requires Grouped(lines, n, hunks, from) && NoChanges(lines, from, |lines|)
    ensures forall p :: 0 <= p < |lines| ==> (Covered(hunks, p) <==> Near(lines, p, n, |lines|))
  {
    forall p | 0 <= p < |lines| ensures Near(lines, p, n, from) <==> Near(lines, p, n, |lines|) {
      if Near(lines, p, n, from) {
        var c :| c < from && Changed(lines, c) && Within(p, c, n);
        assert c < |lines|;
      }
      if Near(lines, p, n, |lines|) {
        var c :| c < |lines| && Changed(lines, c) && Within(p, c, n);
        assert c < from;
      }
    }
  }

  /** A position lies in some hunk exactly when it is within `context` lines of a change. */
  method MakeHunks(lines: seq<Line>, context: nat) returns (hunks: seq<Hunk>)
    ensures Separated(hunks) && AllBelow(hunks, |lines|)
    ensures forall i :: 0 <= i < |lines| ==> (Covered(hunks, i) <==> Near(lines, i, context, |lines|))
  {
    hunks := [];
    var i := 0;
    while i < |lines|
      invariant Grouped(lines, context, hunks, i)
      decreases |lines| - i
    {
      ghost var from := i;
      while i < |lines| && lines[i].tag == ' '
        invariant from <= i <= |lines| && NoChanges(lines, from, i)
      {
        i := i + 1;
      }
      if i >= |lines| {
        NothingMore(lines, context, hunks, from);
        return;
      }
      var start := if i - context < 0 then 0 else i - context;
      var end, lastChange := i, i;
      while end < |lines|
        invariant Extent(lines, context, i, lastChange, end)
        decreases |lines| - end
      {
        ghost var before := lastChange;
        if lines[end].tag != ' ' {
          lastChange := end;
        }
        if end - lastChange > context {
          break;
        }
        ExtentGrows(lines, context, i, before, end, lastChange);
        end := end + 1;
      }
      ghost var was := hunks;
      if |hunks| > 0 && start <= hunks[|hunks| - 1].end {
        if end > hunks[|hunks| - 1].end {
          hunks := hunks[|hunks| - 1 := hunks[|hunks| - 1].(end := end)];
        }
      } else {
        hunks := hunks + [Hunk(start, end)];
      }
      GroupAdded(lines, context, was, from, i, lastChange, end);
      i := end;
    }
    NothingMore(lines, context, hunks, i);
  }

  /** The ranges are determined by what they cover: any other strictly separated list of ranges with
      the same cover is the same list. */
  lemma {:induction false} HunksAreUnique(g: seq<Hunk>, h: seq<Hunk>)
    requires Separated(g) && Separated(h)
    requires forall i :: Covered(g, i) <==> Covered(h, i)
    ensures g == h
  {
    if g == [] || h == [] {
      if g != [] { assert Covered(g, g[0].start); }
      if h != [] { assert Covered(h, h[0].start); }
    } else {
      FirstIsUnique(g, h);
      FirstIsUnique(h, g);
      forall i ensures Covered(g[1..], i) <==> Covered(h[1..], i) {
        TailCovers(g, i);
        TailCovers(h, i);
      }
      TailSeparated(g);
      TailSeparated(h);
      HunksAreUnique(g[1..], h[1..]);
      assert g == [g[0]] + g[1..] && h == [h[0]] + h[1..];
    }
  }

  lemma {:induction false} TailSeparated(g: seq<Hunk>)
    requires Separated(g) && g != []
    ensures Separated(g[1..])
    ensures forall k :: 0 < k < |g| ==> g[0].end < g[k].start
  {
    forall k | 0 < k < |g| ensures g[0].end < g[k].start {
      EndsBefore(g, k);
    }
  }

  lemma {:induction false} EndsBefore(g: seq<Hunk>, k: nat)
    requires Separated(g) && 0 < k < |g|
    ensures g[0].end < g[k].start
  {
    if k > 1 {
      EndsBefore(g, k - 1);
    }
  }

  lemma TailCovers(g: seq<Hunk>, i: int)
    requires Separated(g) && g != []
    ensures Covered(g[1..], i) <==> Covered(g, i) && g[0].end < i
  {
    TailSeparated(g);
    if Covered(g, i) && g[0].end < i {
      var k :| 0 <= k < |g| && g[k].start <= i < g[k].end;
      assert g[1..][k - 1] == g[k];
    }
    if Covered(g[1..], i) {
      var k :| 0 <= k < |g[1..]| && g[1..][k].start <= i < g[1..][k].end;
      assert g[k + 1].start <= i < g[k + 1].end;
    }
  }

  lemma FirstIsUnique(g: seq<Hunk>, h: seq<Hunk>)
    requires Separated(g) && Separated(h) && g != [] && h != []
    requires forall i :: Covered(g, i) <==> Covered(h, i)
    ensures g[0].start <= h[0].start && g[0].end <= h[0].end
  {
    TailSeparated(g);
    TailSeparated(h);
    assert Covered(h, h[0].start);
    assert Covered(g, g[0].start);
    var last := g[0].end - 1;
    assert Covered(g, last);
    assert forall i :: g[0].start <= i < g[0].end ==> Covered(g, i);
    assert !Covered(h, h[0].end);
  }
}

// When the lines that a two-address command selects are those of the standard, and how often the
// change command prints.
module SedSelection {
  import opened Options
  import opened Sed
  import opened SedRanges

  lemma {:induction false} EndsAgree(starts: set<nat>, e1: nat -> nat, e2: nat -> nat, from: nat, k: nat)
    requires forall s :: from <= s <= k && s in starts ==> Stop(e1, s) == Stop(e2, s)
    ensures Covered(starts, e1, from, k) == Covered(starts, e2, from, k)
    ensures Closes(starts, e1, from, k) == Closes(starts, e2, from, k)
    decreases k + 1 - from
  {
    if from <= k {
      EndsAgree(starts, e1, e2, if from in starts then Stop(e1, from) + 1 else from + 1, k);
    }
  }

  /** Without negation the ranges are the standard's, begun by a match at the cycle's start or when reached. */
  lemma SelectsStandardRanges(r: Job, p: nat, k: nat)
    requires RangeOf(r, p) && !r.prog[p].negated && 1 <= k <= |r.lines| && ReachedUpTo(r, p, k)
    ensures Selected(r, p, k) <==> Covered(EarlyOrReached(r, p), StandardEnd(r, p), 1, k)
  {
    SelectsActualRanges(r, p, k);
    EndsAgree(EarlyOrReached(r, p), ActualEnd(r, p), StandardEnd(r, p), 1, k);
  }

  // ----- a match that is gone when the command is reached -----

  lemma {:induction false} SameStarts(s1: set<nat>, s2: set<nat>, ends: nat -> nat, from: nat, k: nat)
    requires forall s :: from <= s <= k ==> (s in s1 <==> s in s2)
    ensures Covered(s1, ends, from, k) == Covered(s2, ends, from, k)
    decreases k + 1 - from
  {
    if from <= k {
      SameStarts(s1, s2, ends, if from in s1 then Stop(ends, from) + 1 else from + 1, k);
    }
  }

  lemma {:induction false} StartsAreCovered(starts: set<nat>, ends: nat -> nat, from: nat, s: nat)
    requires from <= s && s in starts
    ensures Covered(starts, ends, from, s)
    decreases s - from
  {
    if from !in starts {
      StartsAreCovered(starts, ends, from + 1, s);
    } else if Stop(ends, from) < s {
      StartsAreCovered(starts, ends, Stop(ends, from) + 1, s);
    }
  }

  lemma {:induction false} MoreStarts(fewer: set<nat>, more: set<nat>, ends: nat -> nat, from: nat, k: nat)
    requires fewer <= more
    requires forall s :: s in more - fewer && from <= s <= k ==> Covered(fewer, ends, from, s)
    ensures Covered(fewer, ends, from, k) == Covered(more, ends, from, k)
    decreases k + 1 - from
  {
    if from <= k {
      if from in more && from !in fewer {
        assert Covered(fewer, ends, from, from);
        assert !Covered(fewer, ends, from + 1, from);
      }
      MoreStarts(fewer, more, ends, if from in fewer then Stop(ends, from) + 1 else from + 1, k);
    }
  }

  /**
   * The standard tests the first address when the command is reached. The selection is the standard's
   * exactly when every line that matched only at the start of its cycle lies in a standard range anyway.
   */
  lemma StandardExactly(r: Job, p: nat)
    requires RangeOf(r, p) && !r.prog[p].negated && ReachedUpTo(r, p, |r.lines|)
    ensures (forall k :: 1 <= k <= |r.lines| ==>
               (Selected(r, p, k) <==> Covered(WhenReached(r, p), StandardEnd(r, p), 1, k)))
       <==> (forall s :: 1 <= s <= |r.lines| && Early(r, p, s) && !OnReach(r, p, s) ==>
               Covered(WhenReached(r, p), StandardEnd(r, p), 1, s))
  {
    hide Selected, Early, OnReach, ReachedUpTo, Unique, StandardEnd;
    var fewer, more, ends := WhenReached(r, p), EarlyOrReached(r, p), StandardEnd(r, p);
    assert forall s :: s in more - fewer <==> 1 <= s <= |r.lines| && Early(r, p, s) && !OnReach(r, p, s);
    forall k | 1 <= k <= |r.lines| ensures Selected(r, p, k) <==> Covered(more, ends, 1, k) {
      FewerReached(r, p, k);
      SelectsStandardRanges(r, p, k);
    }
    if forall s :: 1 <= s <= |r.lines| && Early(r, p, s) && !OnReach(r, p, s) ==> Covered(fewer, ends, 1, s) {
      forall k | 1 <= k <= |r.lines| ensures Selected(r, p, k) <==> Covered(fewer, ends, 1, k) {
        MoreStarts(fewer, more, ends, 1, k);
      }
    }
    forall s | 1 <= s <= |r.lines| && Early(r, p, s) && !OnReach(r, p, s) ensures Selected(r, p, s) {
      StartsAreCovered(more, ends, 1, s);
    }
  }

  lemma FewerReached(r: Job, p: nat, k: nat)
    requires p < |r.prog| && k <= |r.lines| && ReachedUpTo(r, p, |r.lines|)
    ensures ReachedUpTo(r, p, k)
  {
  }

  // ----- negation -----

  /** The same first address at the cycle's start and when reached: selection or its complement, as the standard has it. */
  lemma StableFirstAddress(r: Job, p: nat, k: nat)
    requires RangeOf(r, p) && 1 <= k <= |r.lines| && ReachedUpTo(r, p, k)
    requires forall s :: 1 <= s <= k ==> (Early(r, p, s) <==> OnReach(r, p, s))
    ensures Selected(r, p, k) <==> r.prog[p].negated != Covered(WhenReached(r, p), StandardEnd(r, p), 1, k)
  {
    var starts, ends := EarlyOrReached(r, p), StandardEnd(r, p);
    SelectsActualRanges(r, p, k);
    EndsAgree(starts, ActualEnd(r, p), ends, 1, k);
    SameStarts(WhenReached(r, p), starts, ends, 1, k);
  }

  lemma {:induction false} LaterEnds(starts: set<nat>, e1: nat -> nat, e2: nat -> nat, from: nat, k: nat)
    requires forall s :: from <= s && s in starts ==>
               Stop(e2, s) == Stop(e1, s) || (Stop(e1, s) == s && Stop(e2, s) == s + 1)
    requires forall s :: from <= s < k && Stop(e1, s) == s ==> Stop(e1, s + 1) == s + 1
    requires forall s :: from <= s < k && Begins(starts, e2, from, s) && Stop(e2, s) != Stop(e1, s) ==> s + 1 in starts
    ensures Covered(starts, e1, from, k) == Covered(starts, e2, from, k)
    decreases k + 1 - from
  {
    if from <= k {
      if from !in starts {
        LaterEnds(starts, e1, e2, from + 1, k);
      } else {
        assert Begins(starts, e2, from, from);
        LaterEnds(starts, e1, e2, Stop(e2, from) + 1, k);
      }
    }
  }

  /** Where the two kinds of end first matter, some line is covered by one and not by the other. */
  lemma {:induction false} LaterEndShows(starts: set<nat>, e1: nat -> nat, e2: nat -> nat, from: nat, s: nat)
    returns (k: nat)
    requires forall q :: from <= q && q in starts ==>
               Stop(e2, q) == Stop(e1, q) || (Stop(e1, q) == q && Stop(e2, q) == q + 1)
    requires forall q :: from <= q < s && Stop(e1, q) == q ==> Stop(e1, q + 1) == q + 1
    requires Begins(starts, e2, from, s) && Stop(e2, s) != Stop(e1, s) && s + 1 !in starts
    ensures from <= k <= s + 1 && Covered(starts, e1, from, k) != Covered(starts, e2, from, k)
    decreases s + 1 - from
  {
    if from !in starts {
      k := LaterEndShows(starts, e1, e2, from + 1, s);
    } else if from == s {
      k := s + 1;
      assert !Covered(starts, e1, s + 2, s + 1);
    } else if Stop(e2, from) != Stop(e1, from) && from + 1 !in starts {
      k := from + 1;
      assert !Covered(starts, e1, from + 2, from + 1);
    } else {
      k := LaterEndShows(starts, e1, e2, Stop(e2, from) + 1, s);
    }
  }

  /** A range of one line begins here, and only because the address matches when the command is reached. */
  ghost predicate BeginsAlone(r: Job, p: nat, s: nat)
    requires p < |r.prog| && r.prog[p].addr2.Some?
  {
    Begins(EarlyOrReached(r, p), ActualEnd(r, p), 1, s)
    && !Early(r, p, s) && RangeEnd(r.prog[p].addr2.value, s, |r.lines|) == s
  }

  /**
   * A negated command selects the complement of the standard's ranges unless some range of one line
   * begins only when the command is reached: that range then takes in the next line, which is wrong
   * exactly when that line does not itself begin a range.
   */
  lemma ComplementExactly(r: Job, p: nat)
    requires RangeOf(r, p) && r.prog[p].negated && ReachedUpTo(r, p, |r.lines|)
    ensures (forall k :: 1 <= k <= |r.lines| ==>
               (Selected(r, p, k) <==> !Covered(EarlyOrReached(r, p), StandardEnd(r, p), 1, k)))
       <==> (forall s :: 1 <= s < |r.lines| && BeginsAlone(r, p, s) ==> s + 1 in EarlyOrReached(r, p))
  {
    hide Selected, ReachedUpTo, Covered, Begins, EarlyOrReached, Early, Unique;
    var starts, e1, e2, n := EarlyOrReached(r, p), StandardEnd(r, p), ActualEnd(r, p), |r.lines|;
    forall k | 1 <= k <= n ensures Selected(r, p, k) <==> !Covered(starts, e2, 1, k) {
      FewerReached(r, p, k);
      SelectsActualRanges(r, p, k);
    }
    if s :| 1 <= s < n && BeginsAlone(r, p, s) && s + 1 !in starts {
      var k := LaterEndShows(starts, e1, e2, 1, s);
      assert Selected(r, p, k) <==> !Covered(starts, e2, 1, k);
    } else {
      forall k | 1 <= k <= n ensures Covered(starts, e1, 1, k) == Covered(starts, e2, 1, k) {
        forall s | 1 <= s < k && Begins(starts, e2, 1, s) && Stop(e2, s) != Stop(e1, s) ensures s + 1 in starts {
          assert BeginsAlone(r, p, s);
        }
        LaterEnds(starts, e1, e2, 1, k);
      }
    }
  }

  // ----- first addresses that cannot change within a cycle -----

  predicate ByNumber(a: Address) { a.last || (!a.reuseRegex && a.regex.None?) }

  /** Line `k` of `n`: the number itself; the last line; with a step, the lines `first + j * step`, or, where
      the first is 0, the positive multiples of the step. */
  ghost predicate Named(a: Address, k: nat, n: nat) {
    if a.last then k == n
    else if a.step == 0 then k == a.lineNum
    else exists j: nat :: k == a.lineNum + j * a.step
  }

  ghost function NumberedLines(a: Address, n: nat): set<nat> { set k: nat | 1 <= k <= n && Named(a, k, n) }

  lemma NumbersAreNamed(a: Address, k: nat, n: nat)
    requires 1 <= k && !a.last
    ensures NumberMatches(a, k) <==> Named(a, k, n)
  {
    if a.step > 0 {
      var d: int := k - a.lineNum;
      if NumberMatches(a, k) {
        Exact(d, a.step);
        assert k == a.lineNum + (d / a.step) * a.step;
      }
      forall j: nat | k == a.lineNum + j * a.step ensures NumberMatches(a, k) {
        Multiple(j, a.step);
      }
    }
  }

  lemma LastIsNamed(a: Address, n: nat)
    ensures a.last ==> forall k: nat :: Named(a, k, n) <==> k == n
  {
  }

  lemma Exact(d: int, step: nat)
    requires step > 0 && d >= 0 && d % step == 0
    ensures d == (d / step) * step && d / step >= 0
  {
  }

  lemma Multiple(j: nat, step: nat)
    requires step > 0
    ensures j * step >= 0 && (j * step) % step == 0
  {
    var d := j - (j * step) / step;
    assert step * d == (j * step) % step;
    NoRemainder(step, d);
  }

  lemma NoRemainder(step: int, d: int)
    requires 0 <= step * d < step
    ensures d == 0
  {
    if d >= 1 {
      AtLeastOne(step, d);
    }
  }

  lemma AtLeastOne(step: int, d: int)
    requires step > 0 && d >= 1
    ensures step * d >= step
  {
    assert step * (d - 1) >= 0;
  }

  /** A line number, a step or `$` as first address: exactly the standard's ranges, or their complement. */
  lemma NumberedRanges(r: Job, p: nat, k: nat)
    requires RangeOf(r, p) && 1 <= k <= |r.lines| && ReachedUpTo(r, p, k) && ByNumber(r.prog[p].addr1.value)
    ensures var ranges := Covered(NumberedLines(r.prog[p].addr1.value, |r.lines|), StandardEnd(r, p), 1, k);
            Selected(r, p, k) <==> r.prog[p].negated != ranges
  {
    hide Reached, Started, Selected, Unique, NumberMatches, Named;
    var a := r.prog[p].addr1.value;
    forall s: nat | 1 <= s <= k && !a.last ensures NumberMatches(a, s) <==> Named(a, s, |r.lines|) {
      NumbersAreNamed(a, s, |r.lines|);
    }
    LastIsNamed(a, |r.lines|);
    StableFirstAddress(r, p, k);
    SameStarts(WhenReached(r, p), NumberedLines(r.prog[p].addr1.value, |r.lines|), StandardEnd(r, p), 1, k);
  }

  lemma PatternAtStart(r: Job, k: nat)
    requires 1 <= k <= |r.lines| && Started(r, k).Some?
    ensures Started(r, k).value.view.pattern == r.lines[k - 1]
  {
  }

  predicate MatchesLine(r: Job, re: nat, k: nat)
    requires 1 <= k <= |r.lines|
  {
    r.w.matches(re, r.lines[k - 1])
  }

  ghost function MatchingLines(r: Job, re: nat): set<nat> {
    set k: nat | 1 <= k <= |r.lines| && MatchesLine(r, re, k)
  }

  /** A regular expression, when no earlier command has changed the line. */
  lemma RegexRangesOnUnchangedLines(r: Job, p: nat, k: nat)
    requires RangeOf(r, p) && 1 <= k <= |r.lines| && ReachedUpTo(r, p, k)
    requires var a := r.prog[p].addr1.value; !a.last && !a.reuseRegex && a.regex.Some?
    requires forall s :: 1 <= s <= k ==> Reached(r, p, s).value.view.pattern == r.lines[s - 1]
    ensures var ranges := Covered(MatchingLines(r, r.prog[p].addr1.value.regex.value), StandardEnd(r, p), 1, k);
            Selected(r, p, k) <==> r.prog[p].negated != ranges
  {
    hide Reached, Started, Selected, Unique;
    forall s | 1 <= s <= k ensures Early(r, p, s) <==> OnReach(r, p, s) {
      PatternAtStart(r, s);
    }
    StableFirstAddress(r, p, k);
    SameStarts(WhenReached(r, p), MatchingLines(r, r.prog[p].addr1.value.regex.value), StandardEnd(r, p), 1, k);
  }

  // ----- the change command -----

  function ViewAfter(r: Job, p: nat, k: nat): (View, View)
    requires p < |r.prog| && 1 <= k <= |r.lines| && Reached(r, p, k).Some?
  {
    var st := Select(r.w, r.prog[p], Reached(r, p, k).value, k == |r.lines|).1;
    (st.view, ExecOne(r.w, r.prog[p], st, k == |r.lines|).0.view)
  }

  predicate ToTheEnd(a2: Address) { !a2.relative && a2.lineNum == 0 }

  /** The input's last line is the only one of its range, and only because it matches when the command is reached. */
  ghost predicate BeginsTooLate(r: Job, p: nat, k: nat)
    requires p < |r.prog| && r.prog[p].addr2.Some?
  {
    k == |r.lines| && ToTheEnd(r.prog[p].addr2.value) && !Early(r, p, k)
    && forall s :: 1 <= s < k ==> s !in EarlyOrReached(r, p)
  }

  /** A range to the last line is open from its first start on. */
  lemma {:induction false} StaysOpen(r: Job, p: nat, k: nat)
    requires RangeOf(r, p) && ToTheEnd(r.prog[p].addr2.value) && 1 <= k <= |r.lines| && ReachedUpTo(r, p, k)
    ensures Active(Started(r, k).value, r.prog[p].id) <==> exists s :: 1 <= s < k && s in EarlyOrReached(r, p)
  {
    hide ExecFrom, PreActivate, Unique, Exec, Reached, After, Select, Started, Selected, Early, OnReach, EarlyOrReached;
    if k == 1 {
      StartedInitially(r);
    } else {
      StaysOpen(r, p, k - 1);
      LinesAreCounted(r, p, k - 1);
      SelectCases(r, p, k - 1);
      StartedFrom(r, k);
      InEarlyOrReached(r, p, k - 1);
      var st, id := Started(r, k - 1).value, r.prog[p].id;
      RangeInvariant(r, p, k - 1, k - 1);
      PhaseOpen(EarlyOrReached(r, p), ActualEnd(r, p), Active(st, id), StartOf(st, id), k - 1, k - 1);
      assert Active(Started(r, k).value, id) <==> Active(st, id) || k - 1 in EarlyOrReached(r, p);
    }
  }

  lemma InEarlyOrReached(r: Job, p: nat, k: nat)
    requires p < |r.prog| && 1 <= k <= |r.lines|
    ensures k in EarlyOrReached(r, p) <==> Early(r, p, k) || OnReach(r, p, k)
  {
  }

  lemma ClosesAt(starts: set<nat>, ends: nat -> nat, k: nat)
    ensures Closes(starts, ends, k, k) <==> k in starts && k == Stop(ends, k)
  {
    assert !Closes(starts, ends, k + 1, k);
  }

  lemma PhaseWhenOpen(starts: set<nat>, ends: nat -> nat, s: int, k: nat)
    requires Phase(starts, ends, true, s, k, k)
    ensures 1 <= s < k <= Stop(ends, s) && (Closes(starts, ends, 1, k) <==> k == Stop(ends, s))
  {
  }

  /** After a selected line the range is over exactly when the line closes one, but for a late start at the very end. */
  lemma OverAtItsEnd(r: Job, p: nat, k: nat)
    requires RangeOf(r, p) && !r.prog[p].negated && 1 <= k <= |r.lines| && ReachedUpTo(r, p, k)
    requires Selected(r, p, k)
    ensures After(r, k).Some?
    ensures !Active(After(r, k).value, r.prog[p].id)
       <==> Closes(EarlyOrReached(r, p), StandardEnd(r, p), 1, k) && !BeginsTooLate(r, p, k)
  {
    hide ExecFrom, PreActivate, Unique, Exec, Reached, After, Select, Started, Selected, Early, OnReach, EarlyOrReached;
    var starts, ends, st, id := EarlyOrReached(r, p), ActualEnd(r, p), Started(r, k).value, r.prog[p].id;
    RangeInvariant(r, p, k, k);
    LinesAreCounted(r, p, k);
    SelectCases(r, p, k);
    InEarlyOrReached(r, p, k);
    EndsAgree(starts, ends, StandardEnd(r, p), 1, k);
    if ToTheEnd(r.prog[p].addr2.value) {
      StaysOpen(r, p, k);
    }
    ClosesAt(starts, ends, k);
    var s, closes := StartOf(st, id), Closes(starts, ends, 1, k);
    if Active(st, id) {
      PhaseWhenOpen(starts, ends, s, k);
      assert closes <==> k == Stop(ends, s);
    } else {
      assert closes <==> Closes(starts, ends, k, k);
    }
  }

  /** The change command prints its text once for every completed range, on the range's last line. */
  lemma ChangePrintsAtRangeEnds(r: Job, p: nat, k: nat, text: string)
    requires RangeOf(r, p) && !r.prog[p].negated && 1 <= k <= |r.lines| && ReachedUpTo(r, p, k)
    requires Selected(r, p, k) && r.prog[p].kind == Change(text)
    ensures var ends := Closes(EarlyOrReached(r, p), StandardEnd(r, p), 1, k) && !BeginsTooLate(r, p, k);
            ViewAfter(r, p, k).1.out == ViewAfter(r, p, k).0.out + if ends then text + "\n" else ""
  {
    hide Closes, BeginsTooLate, Select, Reached, Started, After, ExecFrom, PreActivate, EarlyOrReached, StandardEnd, Unique;
    OverAtItsEnd(r, p, k);
    CycleRange(r, p, k);
    var out := ViewAfter(r, p, k).0.out;
    assert out + text + "\n" == out + (text + "\n");
    assert out + "" == out;
  }

  /** Negated, it prints on every line it selects. */
  lemma NegatedChangePrintsEveryLine(r: Job, p: nat, k: nat, text: string)
    requires RangeOf(r, p) && r.prog[p].negated && 1 <= k <= |r.lines| && ReachedUpTo(r, p, k)
    requires Selected(r, p, k) && r.prog[p].kind == Change(text)
    ensures ViewAfter(r, p, k).1.out == ViewAfter(r, p, k).0.out + text + "\n"
  {
  }

  // ----- a range that takes in one line too many -----

  /** Something that may change the line, then `/b/,1!c` with text x. */
  const LATE_NEGATED: seq<Command> := [
    Command(0, None, None, false, Other(0)),
    Command(1, Some(Address(0, Some(0), false, 0, false, false)), Some(Address(1, None, false, 0, false, false)),
            true, Change("x"))
  ]

  /** The first command makes the first line match. */
  function FirstLineOnly(): World {
    World((re: nat, line: string) => line == "b",
          (code, v: View, line: int, last) => (if line == 1 then v.(pattern := "b") else v, Normal))
  }

  ghost function LateJob(): Job { Job(FirstLineOnly(), LATE_NEGATED, false, ["a", "a", "a"]) }

  lemma LineOneBeginsLate()
    ensures Reached(LateJob(), 1, 1).Some? && OnReach(LateJob(), 1, 1)
    ensures Started(LateJob(), 2).Some? && ReachedUpTo(LateJob(), 1, 1)
  {
    var r := LateJob();
    assert r.prog[..1] == [LATE_NEGATED[0]] && r.prog[1..] == [LATE_NEGATED[1]];
    var st := Started(r, 1).value;
    assert PreActivate(r.w, r.prog, st, false) == st;
    assert ExecFrom(r.w, [LATE_NEGATED[0]], st, false).1 == Normal;
  }

  lemma LineTwoIsSwallowed()
    ensures Reached(LateJob(), 1, 2).Some? && !Selected(LateJob(), 1, 2)
  {
    var r := LateJob();
    assert r.prog[..1] == [LATE_NEGATED[0]] && r.prog[1..] == [LATE_NEGATED[1]];
    LineOneBeginsLate();
    var st1 := Started(r, 1).value;
    assert PreActivate(r.w, r.prog, st1, false) == st1;
  }

  lemma LineTwoBeginsNothing()
    ensures !Early(LateJob(), 1, 2) && !OnReach(LateJob(), 1, 2)
  {
    var r := LateJob();
    assert r.prog[..1] == [LATE_NEGATED[0]] && r.prog[1..] == [LATE_NEGATED[1]];
  }

  /** The range is line 1 alone, yet line 2 is not selected either. */
  lemma OneLineTooMany()
    ensures var r := LateJob();
            && Reached(r, 1, 1).Some? && Reached(r, 1, 2).Some?
            && !Covered(EarlyOrReached(r, 1), StandardEnd(r, 1), 1, 2) && !Selected(r, 1, 2)
  {
    LineOneBeginsLate();
    LineTwoIsSwallowed();
    LineTwoBeginsNothing();
    hide Reached, Selected, Early, OnReach;
    var r := LateJob();
    assert 1 in EarlyOrReached(r, 1) && 2 !in EarlyOrReached(r, 1);
    assert Stop(StandardEnd(r, 1), 1) == 1;
  }

  // ----- a line that matches only at the start of its cycle -----

  /** Something that changes the line, then `/b/,1c` with text x. */
  const GONE: seq<Command> := [
    Command(0, None, None, false, Other(0)),
    Command(1, Some(Address(0, Some(0), false, 0, false, false)), Some(Address(1, None, false, 0, false, false)),
            false, Change("x"))
  ]

  /** The first command makes the line one that does not match. */
  function GoneWhenReached(): World {
    World((re: nat, line: string) => line == "b",
          (code, v: View, line: int, last) => (v.(pattern := "a"), Normal))
  }

  /** The line matches at the start of its cycle only, and is selected though the standard's range is empty. */
  lemma MatchThatIsGoneSelects()
    ensures var r := Job(GoneWhenReached(), GONE, false, ["b"]);
            && Reached(r, 1, 1).Some? && Early(r, 1, 1) && !OnReach(r, 1, 1)
            && Selected(r, 1, 1) && !Covered(WhenReached(r, 1), StandardEnd(r, 1), 1, 1)
  {
    var r := Job(GoneWhenReached(), GONE, false, ["b"]);
    var c0, c1 := GONE[0], GONE[1];
    assert r.prog[..1] == [c0] && r.prog[1..] == [c1];
    var st := Started(r, 1).value;
    assert ExecFrom(r.w, [c0], PreActivate(r.w, r.prog, st, true), true).1 == Normal;
    assert 1 !in WhenReached(r, 1);
  }
}

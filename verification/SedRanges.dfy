// Two-address commands select the ranges that the POSIX description of sed gives ("Addresses in
// sed"): from a line that matches the first address through the line the second address names,
// or that one line when it has been passed already, and then the search starts again.
module SedRanges {
  import opened Options
  import opened Sed

  // ----- the standard's ranges -----

  /** The last line of a range that begins at line `s` of `n`. */
  function RangeEnd(a2: Address, s: nat, n: nat): (e: nat)
    ensures e >= s
  {
    if a2.relative then s + a2.lineNum
    else if a2.lineNum > 0 then (if a2.lineNum < s then s else a2.lineNum)
    else if s <= n then n else s
  }

  function Stop(ends: nat -> nat, s: nat): (e: nat)
    ensures e >= s
  {
    if ends(s) < s then s else ends(s)
  }

  /** Is line `k` in one of the ranges found by searching from line `from`? */
  predicate Covered(starts: set<nat>, ends: nat -> nat, from: nat, k: nat)
    decreases k + 1 - from
  {
    from <= k &&
    if from !in starts then Covered(starts, ends, from + 1, k)
    else k <= Stop(ends, from) || Covered(starts, ends, Stop(ends, from) + 1, k)
  }

  /** Is line `k` the last line of such a range? */
  predicate Closes(starts: set<nat>, ends: nat -> nat, from: nat, k: nat)
    decreases k + 1 - from
  {
    from <= k &&
    if from !in starts then Closes(starts, ends, from + 1, k)
    else k == Stop(ends, from) || Closes(starts, ends, Stop(ends, from) + 1, k)
  }

  /** Is line `s` the first line of such a range? */
  predicate Begins(starts: set<nat>, ends: nat -> nat, from: nat, s: nat)
    decreases s + 1 - from
  {
    from <= s &&
    if from !in starts then Begins(starts, ends, from + 1, s)
    else s == from || Begins(starts, ends, Stop(ends, from) + 1, s)
  }

  // ----- the run -----

  datatype Job = Job(w: World, prog: seq<Command>, quiet: bool, lines: seq<string>)

  /** The state after `k` lines, unless the script quit before. */
  function After(r: Job, k: nat): Option<State>
    requires k <= |r.lines|
    decreases k, 1
  {
    if k == 0 then Some(INITIAL)
    else
      match Started(r, k)
      case None => None
      case Some(st) =>
        var (after, flow) := Exec(r.w, r.prog, st, k == |r.lines|);
        Some(Leave(after, flow, r.quiet))
  }

  /** The state in which the commands start on line `k`. */
  function Started(r: Job, k: nat): Option<State>
    requires 1 <= k <= |r.lines|
    decreases k, 0
  {
    match After(r, k - 1)
    case None => None
    case Some(st) => if st.lineNum < 0 then None else Some(Enter(Next(st), r.lines[k - 1]))
  }

  /** The run of the editor goes through these states. */
  lemma {:induction false} RunGoesThrough(r: Job, k: nat)
    requires k <= |r.lines| && After(r, k).Some? && After(r, k).value.lineNum >= 0
    ensures RunLines(r.w, r.prog, r.quiet, r.lines, 0, INITIAL)
         == RunLines(r.w, r.prog, r.quiet, r.lines, k, After(r, k).value)
  {
    if k > 0 {
      hide Exec, PreActivate, ExecFrom, Select, Enter, Next;
      RunGoesThrough(r, k - 1);
    }
  }

  /** The state in which command `p` is reached on line `k`, if it is reached. */
  function Reached(r: Job, p: nat, k: nat): (there: Option<State>)
    requires 1 <= k <= |r.lines| && p < |r.prog|
    ensures there.Some? ==> Started(r, k).Some?
  {
    match Started(r, k)
    case None => None
    case Some(st) =>
      var last := k == |r.lines|;
      var (there, flow) := ExecFrom(r.w, r.prog[..p], PreActivate(r.w, r.prog, st, last), last);
      if flow == Normal then Some(there) else None
  }

  predicate Selected(r: Job, p: nat, k: nat)
    requires 1 <= k <= |r.lines| && p < |r.prog|
  {
    Reached(r, p, k).Some? && Select(r.w, r.prog[p], Reached(r, p, k).value, k == |r.lines|).0
  }

  /** Does the first address match when the cycle starts? */
  predicate Early(r: Job, p: nat, k: nat)
    requires p < |r.prog|
  {
    1 <= k <= |r.lines| && Started(r, k).Some? && r.prog[p].addr1.Some?
    && MatchesEarly(r.w, r.prog[p].addr1.value, Started(r, k).value.view, k, k == |r.lines|)
  }

  /** Does it match when the command is reached? */
  predicate OnReach(r: Job, p: nat, k: nat)
    requires p < |r.prog|
  {
    1 <= k <= |r.lines| && Reached(r, p, k).Some?
    && MatchesNow(r.w, r.prog[p].addr1, Reached(r, p, k).value.view, k, k == |r.lines|)
  }

  ghost function EarlyOrReached(r: Job, p: nat): set<nat>
    requires p < |r.prog|
  {
    set k: nat | 1 <= k <= |r.lines| && (Early(r, p, k) || OnReach(r, p, k))
  }

  ghost function WhenReached(r: Job, p: nat): set<nat>
    requires p < |r.prog|
  {
    set k: nat | 1 <= k <= |r.lines| && OnReach(r, p, k)
  }

  function StandardEnd(r: Job, p: nat): nat -> nat
    requires p < |r.prog| && r.prog[p].addr2.Some?
  {
    (s: nat) => RangeEnd(r.prog[p].addr2.value, s, |r.lines|)
  }

  /** A negated range that begins only when reached always takes in the next line. */
  function ActualEnd(r: Job, p: nat): nat -> nat
    requires p < |r.prog| && r.prog[p].addr2.Some?
  {
    (s: nat) =>
      var e := RangeEnd(r.prog[p].addr2.value, s, |r.lines|);
      if r.prog[p].negated && !Early(r, p, s) && e == s then s + 1 else e
  }

  // ----- other commands leave a command's range alone -----

  predicate Elsewhere(cmds: seq<Command>, id: nat)
    decreases cmds, 0
  {
    cmds == [] || (cmds[0].id != id && Apart(cmds[0], id) && Elsewhere(cmds[1..], id))
  }

  predicate Apart(c: Command, id: nat)
    decreases c, 1
  {
    match c.kind
    case Group(sub) => Elsewhere(sub, id)
    case _ => true
  }

  /** The identity of command `p` is its own. */
  predicate Unique(prog: seq<Command>, p: nat)
    requires p < |prog|
  {
    Elsewhere(prog[..p], prog[p].id) && Apart(prog[p], prog[p].id) && Elsewhere(prog[p + 1..], prog[p].id)
  }

  predicate SameRange(st: State, st': State, id: nat) {
    Active(st, id) == Active(st', id) && StartOf(st, id) == StartOf(st', id)
    && st.lineNum == st'.lineNum && st.prevCycle == st'.prevCycle && st.lastFull == st'.lastFull
  }

  lemma {:induction false} PreActivateFrame(w: World, cmds: seq<Command>, st: State, last: bool, id: nat)
    requires Elsewhere(cmds, id)
    ensures SameRange(st, PreActivate(w, cmds, st, last), id) && PreActivate(w, cmds, st, last).view == st.view
    decreases cmds, 0
  {
    if cmds != [] {
      var c := cmds[0];
      var st1 := if StartsEarly(w, c, st, last) then Activate(st, c.id) else st;
      PreActivateInsideFrame(w, c, st1, last, id);
      PreActivateFrame(w, cmds[1..], PreActivateInside(w, c, st1, last), last, id);
    }
  }

  lemma {:induction false} PreActivateInsideFrame(w: World, c: Command, st: State, last: bool, id: nat)
    requires Apart(c, id)
    ensures SameRange(st, PreActivateInside(w, c, st, last), id) && PreActivateInside(w, c, st, last).view == st.view
    decreases c, 1
  {
    match c.kind
    case Group(sub) => PreActivateFrame(w, sub, st, last, id);
    case _ =>
  }

  lemma SelectFrame(w: World, c: Command, st: State, last: bool, id: nat)
    requires c.id != id
    ensures SameRange(st, Select(w, c, st, last).1, id)
  {
  }

  lemma {:induction false} ExecOneFrame(w: World, c: Command, st: State, last: bool, id: nat)
    requires Apart(c, id)
    ensures SameRange(st, ExecOne(w, c, st, last).0, id)
    decreases c, 2
  {
    match c.kind
    case Group(sub) => ExecFrame(w, sub, st, last, id);
    case _ =>
  }

  lemma {:induction false} ExecFrame(w: World, cmds: seq<Command>, st: State, last: bool, id: nat)
    requires Elsewhere(cmds, id)
    ensures SameRange(st, Exec(w, cmds, st, last).0, id)
    decreases cmds, 1
  {
    PreActivateFrame(w, cmds, st, last, id);
    ExecFromFrame(w, cmds, PreActivate(w, cmds, st, last), last, id);
  }

  lemma {:induction false} ExecFromFrame(w: World, cmds: seq<Command>, st: State, last: bool, id: nat)
    requires Elsewhere(cmds, id)
    ensures SameRange(st, ExecFrom(w, cmds, st, last).0, id)
    decreases cmds, 0
  {
    hide Select, ExecOne;
    if cmds != [] {
      SelectFrame(w, cmds[0], st, last, id);
      var (selected, st1) := Select(w, cmds[0], st, last);
      ExecOneFrame(w, cmds[0], st1, last, id);
      ExecFromFrame(w, cmds[1..], if selected then ExecOne(w, cmds[0], st1, last).0 else st1, last, id);
    }
  }

  // ----- one cycle -----

  /** Pre-activation starts the command's own range and nothing else about it. */
  lemma {:induction false} PreActivateAt(w: World, prog: seq<Command>, p: nat, st: State, last: bool)
    requires p < |prog| && Unique(prog, p)
    ensures var c, st' := prog[p], PreActivate(w, prog, st, last);
            && st'.view == st.view && st'.lineNum == st.lineNum
            && st'.prevCycle == st.prevCycle && st'.lastFull == st.lastFull
            && (Active(st', c.id) <==> Active(st, c.id) || StartsEarly(w, c, st, last))
            && StartOf(st', c.id) == if StartsEarly(w, c, st, last) then st.lineNum else StartOf(st, c.id)
  {
    var id, first := prog[p].id, prog[0];
    var st1 := if StartsEarly(w, first, st, last) then Activate(st, first.id) else st;
    var st2 := PreActivateInside(w, first, st1, last);
    if p == 0 {
      PreActivateInsideFrame(w, first, st1, last, id);
      PreActivateFrame(w, prog[1..], st2, last, id);
    } else {
      assert prog[..p][0] == first && prog[..p][1..] == prog[1..][..p - 1];
      assert prog[1..][p..] == prog[p + 1..];
      PreActivateInsideFrame(w, first, st1, last, id);
      PreActivateAt(w, prog[1..], p - 1, st2, last);
    }
  }

  lemma {:induction false} ExecSplit(w: World, prog: seq<Command>, p: nat, st: State, last: bool)
    requires p <= |prog|
    ensures var (there, flow) := ExecFrom(w, prog[..p], st, last);
            ExecFrom(w, prog, st, last) == if flow == Normal then ExecFrom(w, prog[p..], there, last) else (there, flow)
    decreases p
  {
    hide Select, ExecOne;
    if p == 0 {
      assert prog[0..] == prog && prog[..0] == [];
    } else {
      assert prog[..p][0] == prog[0] && prog[..p][1..] == prog[1..][..p - 1];
      assert prog[1..][p - 1..] == prog[p..];
      var (selected, st1) := Select(w, prog[0], st, last);
      ExecSplit(w, prog[1..], p - 1, if selected then ExecOne(w, prog[0], st1, last).0 else st1, last);
    }
  }

  /** Where a cycle that reaches command `p` finds its range, and that it leaves it as selection left it. */
  lemma CycleRange(r: Job, p: nat, k: nat)
    requires p < |r.prog| && 1 <= k <= |r.lines| && Unique(r.prog, p) && Reached(r, p, k).Some?
    ensures var c, st, there := r.prog[p], Started(r, k).value, Reached(r, p, k).value;
            var after := Select(r.w, c, there, k == |r.lines|).1;
            && there.lineNum == st.lineNum && there.prevCycle == st.prevCycle
            && (Active(there, c.id) <==> Active(st, c.id) || StartsEarly(r.w, c, st, k == |r.lines|))
            && StartOf(there, c.id) == (if StartsEarly(r.w, c, st, k == |r.lines|) then st.lineNum else StartOf(st, c.id))
            && After(r, k).Some?
            && Active(After(r, k).value, c.id) == Active(after, c.id)
            && StartOf(After(r, k).value, c.id) == StartOf(after, c.id)
            && After(r, k).value.lastFull == st.lastFull
            && (After(r, k).value.lineNum == st.lineNum || After(r, k).value.lineNum == -1)
  {
    hide Select, ExecOne, ExecFrom, PreActivate, Started, Elsewhere, Apart, StartsEarly, WriteAll, Write;
    var c, st, last := r.prog[p], Started(r, k).value, k == |r.lines|;
    var begun := PreActivate(r.w, r.prog, st, last);
    PreActivateAt(r.w, r.prog, p, st, last);
    ExecFromFrame(r.w, r.prog[..p], begun, last, c.id);
    ExecSplit(r.w, r.prog, p, begun, last);
    var there := Reached(r, p, k).value;
    var (selected, after) := Select(r.w, c, there, last);
    SelectedThere(r.w, r.prog, p, there, last);
    OwnSelectKeepsCounters(r.w, c, there, last);
    ExecOneFrame(r.w, c, after, last, c.id);
    var acted := if selected then ExecOne(r.w, c, after, last).0 else after;
    ExecFromFrame(r.w, r.prog[p + 1..], acted, last, c.id);
    LeaveFrame(Exec(r.w, r.prog, st, last).0, Exec(r.w, r.prog, st, last).1, r.quiet, c.id);
  }

  lemma LeaveFrame(st: State, flow: Flow, quiet: bool, id: nat)
    ensures var st' := Leave(st, flow, quiet);
            Active(st, id) == Active(st', id) && StartOf(st, id) == StartOf(st', id) && st'.lastFull == st.lastFull
            && (st'.lineNum == st.lineNum || st'.lineNum == -1)
  {
  }

  lemma OwnSelectKeepsCounters(w: World, c: Command, st: State, last: bool)
    ensures var st' := Select(w, c, st, last).1;
            st'.lineNum == st.lineNum && st'.prevCycle == st.prevCycle && st'.lastFull == st.lastFull
  {
  }

  lemma SelectedThere(w: World, prog: seq<Command>, p: nat, there: State, last: bool)
    requires p < |prog|
    ensures ExecFrom(w, prog[p..], there, last)
         == (var (selected, after) := Select(w, prog[p], there, last);
             if !selected then ExecFrom(w, prog[p + 1..], after, last)
             else
               var (acted, flow) := ExecOne(w, prog[p], after, last);
               if flow == Normal then ExecFrom(w, prog[p + 1..], acted, last) else (acted, flow))
  {
    assert prog[p..][0] == prog[p] && prog[p..][1..] == prog[p + 1..];
  }

  // ----- a whole run -----

  /** A range with both addresses, the second a positive line number, `+N` or `$`. */
  predicate PlainRange(c: Command) {
    c.addr1.Some? && c.addr2.Some?
    && (c.addr2.value.relative || c.addr2.value.lineNum > 0 || c.addr2.value.last)
  }

  predicate RangeOf(r: Job, p: nat) {
    p < |r.prog| && Unique(r.prog, p) && PlainRange(r.prog[p])
  }

  predicate ReachedUpTo(r: Job, p: nat, n: nat): (b: bool)
    requires p < |r.prog| && n <= |r.lines|
    ensures b ==> forall j :: 1 <= j <= n ==> Started(r, j).Some?
  {
    forall j :: 1 <= j <= n ==> Started(r, j).Some? && Reached(r, p, j).Some?
  }

  /** What one cycle does to the range, from the two tests of the first address alone. */
  lemma SelectCases(r: Job, p: nat, k: nat)
    requires RangeOf(r, p) && 1 <= k <= |r.lines| && Reached(r, p, k).Some?
    requires Started(r, k).value.lineNum == k && Started(r, k).value.prevCycle == k - 1
    ensures After(r, k).Some?
    ensures var c, st, fin := r.prog[p], Started(r, k).value, After(r, k).value;
            var s, a2 := StartOf(st, c.id), c.addr2.value;
            if Active(st, c.id) then
              && Selected(r, p, k) == !c.negated && StartOf(fin, c.id) == s
              && (0 <= s < k ==> (Active(fin, c.id) <==> k < RangeEnd(a2, s, |r.lines|)))
            else if Early(r, p, k) then
              && Selected(r, p, k) == !c.negated && StartOf(fin, c.id) == k
              && (Active(fin, c.id) <==> k < RangeEnd(a2, k, |r.lines|))
            else if OnReach(r, p, k) then
              && Selected(r, p, k) == !c.negated && StartOf(fin, c.id) == k
              && (Active(fin, c.id) <==> (c.negated || !OneLine(a2, k)))
            else
              Selected(r, p, k) == c.negated && !Active(fin, c.id)
  {
    hide ExecFrom, PreActivate, Started, Unique;
    CycleRange(r, p, k);
  }

  /** Lines are counted one by one, so no cycle ever sees a line number that was passed over. */
  lemma {:induction false} LinesAreCounted(r: Job, p: nat, k: nat)
    requires RangeOf(r, p) && 1 <= k <= |r.lines| && ReachedUpTo(r, p, k)
    ensures Started(r, k).value.lineNum == k && Started(r, k).value.prevCycle == k - 1
    ensures Started(r, k).value.lastFull == k
  {
    if k > 1 {
      hide ExecFrom, PreActivate, Unique, Exec;
      LinesAreCounted(r, p, k - 1);
      CycleRange(r, p, k - 1);
    }
  }

  /** What remains to be covered: the search goes on from `k`, or a range begun at `s` is still open. */
  predicate Phase(starts: set<nat>, ends: nat -> nat, active: bool, s: int, k: nat, j: nat) {
    if active then
      && 1 <= s < k <= Stop(ends, s)
      && (Covered(starts, ends, 1, j) <==> j <= Stop(ends, s) || Covered(starts, ends, Stop(ends, s) + 1, j))
      && (Closes(starts, ends, 1, j) <==> j == Stop(ends, s) || Closes(starts, ends, Stop(ends, s) + 1, j))
    else
      && (Covered(starts, ends, 1, j) <==> Covered(starts, ends, k, j))
      && (Closes(starts, ends, 1, j) <==> Closes(starts, ends, k, j))
  }

  lemma PhaseStep(
    starts: set<nat>, ends: nat -> nat, active: bool, s: int, active': bool, s': int, k: nat, j: nat)
    requires 1 <= k < j && Phase(starts, ends, active, s, k, j)
    requires if active then s' == s && (active' <==> k < Stop(ends, s))
             else if k in starts then s' == k && (active' <==> k < Stop(ends, k))
             else !active'
    ensures Phase(starts, ends, active', s', k + 1, j)
  {
  }

  /** Between cycles the range is either being searched for, or open since a line not yet past its end. */
  lemma {:induction false} RangeInvariant(r: Job, p: nat, k: nat, j: nat)
    requires RangeOf(r, p) && 1 <= k <= j <= |r.lines| && ReachedUpTo(r, p, k)
    ensures var id, st := r.prog[p].id, Started(r, k).value;
            Phase(EarlyOrReached(r, p), ActualEnd(r, p), Active(st, id), StartOf(st, id), k, j)
  {
    if k > 1 {
      hide ExecFrom, PreActivate, Unique, Exec, Reached, After, Select, Phase;
      RangeInvariant(r, p, k - 1, j);
      CycleAdvances(r, p, k - 1, j);
    } else {
      StartedInitially(r);
    }
  }

  lemma StartedInitially(r: Job)
    requires |r.lines| > 0
    ensures Started(r, 1).Some? && Started(r, 1).value.active == map[]
  {
    assert After(r, 0) == Some(INITIAL);
  }

  lemma CycleAdvances(r: Job, p: nat, k: nat, j: nat)
    requires RangeOf(r, p) && 1 <= k < j <= |r.lines| && ReachedUpTo(r, p, k + 1)
    requires var id, st := r.prog[p].id, Started(r, k).value;
             Phase(EarlyOrReached(r, p), ActualEnd(r, p), Active(st, id), StartOf(st, id), k, j)
    ensures var id, st := r.prog[p].id, Started(r, k + 1).value;
            Phase(EarlyOrReached(r, p), ActualEnd(r, p), Active(st, id), StartOf(st, id), k + 1, j)
  {
    hide ExecFrom, PreActivate, Unique, Exec, Reached, After, Select, Phase, Selected, Early, OnReach, Started;
    var c := r.prog[p];
    var st, fin := Started(r, k).value, Started(r, k + 1).value;
    var s, ends := StartOf(st, c.id), ActualEnd(r, p);
    LinesAreCounted(r, p, k);
    SelectCases(r, p, k);
    StartedFrom(r, k + 1);
    PhaseOpen(EarlyOrReached(r, p), ends, Active(st, c.id), s, k, j);
    PhaseStep(EarlyOrReached(r, p), ends, Active(st, c.id), s, Active(fin, c.id), StartOf(fin, c.id), k, j);
  }

  lemma PhaseOpen(starts: set<nat>, ends: nat -> nat, active: bool, s: int, k: nat, j: nat)
    requires Phase(starts, ends, active, s, k, j)
    ensures active ==> 1 <= s < k <= Stop(ends, s)
  {
  }

  lemma StartedFrom(r: Job, k: nat)
    requires 1 <= k <= |r.lines| && Started(r, k).Some?
    ensures After(r, k - 1).Some?
    ensures Started(r, k).value.active == After(r, k - 1).value.active
    ensures Started(r, k).value.start == After(r, k - 1).value.start
  {
  }

  /** Which lines a two-address command selects, whatever its addresses do. */
  lemma SelectsActualRanges(r: Job, p: nat, k: nat)
    requires RangeOf(r, p) && 1 <= k <= |r.lines| && ReachedUpTo(r, p, k)
    ensures Selected(r, p, k) <==> r.prog[p].negated != Covered(EarlyOrReached(r, p), ActualEnd(r, p), 1, k)
  {
    hide ExecFrom, PreActivate, Unique, Exec, Reached, After, Select, Started, Selected, Early, OnReach;
    RangeInvariant(r, p, k, k);
    LinesAreCounted(r, p, k);
    SelectCases(r, p, k);
    var starts, ends := EarlyOrReached(r, p), ActualEnd(r, p);
    assert k in starts <==> Early(r, p, k) || OnReach(r, p, k);
    assert !Covered(starts, ends, k + 1, k);
  }
}

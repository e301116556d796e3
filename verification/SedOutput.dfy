// What the editor prints: which line a command without a range selects, what a cycle prints at its
// end, and what whole runs of one-command scripts put out.
module SedOutput {
  import opened Options
  import opened Sed
  import opened SedRanges
  import opened SedSelection

  // ----- an identity that no command has -----

  function Largest(cmds: seq<Command>): (n: nat)
    decreases cmds, 0
  {
    if cmds == [] then 0
    else
      var here, rest := Max(cmds[0].id, LargestInside(cmds[0])), Largest(cmds[1..]);
      Max(here, rest)
  }

  function LargestInside(c: Command): nat
    decreases c, 1
  {
    match c.kind
    case Group(sub) => Largest(sub)
    case _ => 0
  }

  function Max(m: nat, n: nat): nat { if m < n then n else m }

  lemma {:induction false} LargerIsElsewhere(cmds: seq<Command>, id: nat)
    requires id > Largest(cmds)
    ensures Elsewhere(cmds, id)
    decreases cmds, 0
  {
    if cmds != [] {
      LargerIsApart(cmds[0], id);
      LargerIsElsewhere(cmds[1..], id);
    }
  }

  lemma {:induction false} LargerIsApart(c: Command, id: nat)
    requires id > LargestInside(c)
    ensures Apart(c, id)
    decreases c, 1
  {
    match c.kind
    case Group(sub) => LargerIsElsewhere(sub, id);
    case _ =>
  }

  /** Whatever the script, line `k` is counted as the `k`th, and its number stays the same during its cycle. */
  lemma {:induction false} LineIsCounted(r: Job, k: nat)
    requires 1 <= k <= |r.lines| && Started(r, k).Some?
    ensures Started(r, k).value.lineNum == k
    ensures After(r, k).Some? && (After(r, k).value.lineNum == k || After(r, k).value.lineNum == -1)
    decreases k
  {
    hide Exec, PreActivate;
    if k > 1 {
      LineIsCounted(r, k - 1);
    }
    var st, id := Started(r, k).value, Largest(r.prog) + 1;
    LargerIsElsewhere(r.prog, id);
    ExecFrame(r.w, r.prog, st, k == |r.lines|, id);
    var (after, flow) := Exec(r.w, r.prog, st, k == |r.lines|);
    LeaveFrame(after, flow, r.quiet, id);
  }

  lemma ReachedOnItsLine(r: Job, p: nat, k: nat)
    requires 1 <= k <= |r.lines| && p < |r.prog| && Reached(r, p, k).Some?
    ensures Reached(r, p, k).value.lineNum == k
  {
    hide Exec, PreActivate, ExecFrom, Started;
    LineIsCounted(r, k);
    var st, id, last := Started(r, k).value, Largest(r.prog) + Largest(r.prog[..p]) + 1, k == |r.lines|;
    LargerIsElsewhere(r.prog, id);
    LargerIsElsewhere(r.prog[..p], id);
    PreActivateFrame(r.w, r.prog, st, last, id);
    ExecFromFrame(r.w, r.prog[..p], PreActivate(r.w, r.prog, st, last), last, id);
  }

  // ----- commands without a range -----

  /** With one line number, step or `$`, a command selects the lines it names, or the others. */
  lemma NumberedLineSelects(r: Job, p: nat, k: nat)
    requires 1 <= k <= |r.lines| && p < |r.prog| && Reached(r, p, k).Some?
    requires r.prog[p].addr1.Some? && r.prog[p].addr2.None? && ByNumber(r.prog[p].addr1.value)
    ensures Selected(r, p, k) <==> r.prog[p].negated != Named(r.prog[p].addr1.value, k, |r.lines|)
  {
    hide Reached, Named, NumberMatches;
    var a := r.prog[p].addr1.value;
    ReachedOnItsLine(r, p, k);
    if a.last {
      LastIsNamed(a, |r.lines|);
    } else {
      NumbersAreNamed(a, k, |r.lines|);
    }
  }

  /** With one expression it selects the lines whose pattern space matches, or the others; an empty expression
      stands for the one that matched last, and for none before that. */
  lemma MatchingLineSelects(r: Job, p: nat, k: nat)
    requires 1 <= k <= |r.lines| && p < |r.prog| && Reached(r, p, k).Some?
    requires r.prog[p].addr1.Some? && r.prog[p].addr2.None? && !r.prog[p].addr1.value.last
    requires r.prog[p].addr1.value.regex.Some? || r.prog[p].addr1.value.reuseRegex
    ensures var a, v := r.prog[p].addr1.value, Reached(r, p, k).value.view;
            var re := if a.reuseRegex then v.lastRegex else a.regex;
            Selected(r, p, k) <==> r.prog[p].negated != (re.Some? && r.w.matches(re.value, v.pattern))
  {
  }

  /** Without an address it selects every line, or, negated, none. */
  lemma EveryLineSelects(r: Job, p: nat, k: nat)
    requires 1 <= k <= |r.lines| && p < |r.prog| && Reached(r, p, k).Some?
    requires r.prog[p].addr1.None? && r.prog[p].addr2.None?
    ensures Selected(r, p, k) <==> !r.prog[p].negated
  {
  }

  // ----- the end of a cycle -----

  /** Lines, each with its newline. */
  function Lines(ss: seq<string>): string { if ss == [] then "" else ss[0] + "\n" + Lines(ss[1..]) }

  lemma {:induction false} WritesLines(v: View, ss: seq<string>)
    ensures WriteAll(v, ss) == v.(out := v.out + Lines(ss))
    decreases ss
  {
    if ss == [] {
      assert v.out + "" == v.out;
    } else {
      var v' := Write(v, ss[0]);
      WritesLines(v', ss[1..]);
      assert v.out + ss[0] + "\n" + Lines(ss[1..]) == v.out + (ss[0] + "\n" + Lines(ss[1..]));
    }
  }

  /** Whatever the commands did: the pattern space is printed unless the line was deleted, the script left
      without printing, or printing is off; the appended lines follow; a script that was left stops. */
  lemma CyclePrints(r: Job, k: nat)
    requires 1 <= k <= |r.lines| && Started(r, k).Some?
    ensures After(r, k).Some?
    ensures var (end, flow) := Exec(r.w, r.prog, Started(r, k).value, k == |r.lines|);
            var fin := After(r, k).value;
            && fin.view.out == end.view.out
                 + (if r.quiet || flow == Delete || flow == QuitSilent then "" else end.view.pattern + "\n")
                 + (if flow == QuitSilent then "" else Lines(end.view.appended))
            && fin.view.hold == end.view.hold && fin.view.lastRegex == end.view.lastRegex
            && (fin.lineNum == -1 <==> flow == Quit || flow == QuitSilent)
  {
    LineIsCounted(r, k);
    LineStays(r, k);
    hide Started, Exec;
    var (end, flow) := Exec(r.w, r.prog, Started(r, k).value, k == |r.lines|);
    WritesLines(end.view, end.view.appended);
    WritesLines(Write(end.view, end.view.pattern), end.view.appended);
    assert end.view.out + "" + "" == end.view.out;
    assert end.view.out + "" == end.view.out;
    assert end.view.out + end.view.pattern + "\n" == end.view.out + (end.view.pattern + "\n");
  }

  lemma LineStays(r: Job, k: nat)
    requires 1 <= k <= |r.lines| && Started(r, k).Some?
    ensures Exec(r.w, r.prog, Started(r, k).value, k == |r.lines|).0.lineNum == k
  {
    hide Exec, Started;
    LineIsCounted(r, k);
    var id := Largest(r.prog) + 1;
    LargerIsElsewhere(r.prog, id);
    ExecFrame(r.w, r.prog, Started(r, k).value, k == |r.lines|, id);
  }

  // ----- whole runs -----

  /** What the lines up to `k` put out. */
  function Put(piece: nat -> string, k: nat): string { if k == 0 then "" else Put(piece, k - 1) + piece(k) }

  /** A cycle that puts out the piece, appends nothing to it and does not leave the script. */
  ghost predicate Gives(r: Job, k: nat, piece: string)
    requires 1 <= k <= |r.lines|
  {
    Started(r, k).Some? ==>
      After(r, k).Some? && After(r, k).value.lineNum == k && After(r, k).value.view.out == Started(r, k).value.view.out + piece
  }

  lemma {:induction false} PutsOut(r: Job, piece: nat -> string, k: nat)
    requires k <= |r.lines| && forall j :: 1 <= j <= k ==> Gives(r, j, piece(j))
    ensures After(r, k).Some? && After(r, k).value.lineNum == k && After(r, k).value.view.out == Put(piece, k)
  {
    if k > 0 {
      hide Exec;
      PutsOut(r, piece, k - 1);
      assert Gives(r, k, piece(k));
    }
  }

  /** The output of the whole run. */
  function Output(r: Job): string { RunLines(r.w, r.prog, r.quiet, r.lines, 0, INITIAL).view.out }

  lemma RunPutsOut(r: Job, piece: nat -> string)
    requires forall j :: 1 <= j <= |r.lines| ==> Gives(r, j, piece(j))
    ensures Output(r) == Put(piece, |r.lines|)
  {
    hide After, Gives;
    PutsOut(r, piece, |r.lines|);
    RunGoesThrough(r, |r.lines|);
  }

  // ----- scripts of one command -----

  /** What a one-command script does on a line. */
  lemma OnlyCommand(r: Job, k: nat)
    requires 1 <= k <= |r.lines| && |r.prog| == 1 && Started(r, k).Some?
    ensures Reached(r, 0, k).Some?
    ensures var st, last := Started(r, k).value, k == |r.lines|;
            var there := Reached(r, 0, k).value;
            && there.view == st.view
            && Exec(r.w, r.prog, st, last)
               == (var (selected, st1) := Select(r.w, r.prog[0], there, last);
                   if !selected then (st1, Normal)
                   else
                     var (st2, flow) := ExecOne(r.w, r.prog[0], st1, last);
                     (st2, if flow == Branch then Normal else flow))
  {
    hide Started, Select, ExecOne;
    var st, last := Started(r, k).value, k == |r.lines|;
    assert r.prog[..0] == [] && r.prog[1..] == [];
    var id := Largest(r.prog) + 1;
    LargerIsElsewhere(r.prog, id);
    PreActivateFrame(r.w, r.prog, st, last, id);
    SelectedThere(r.w, r.prog, 0, Reached(r, 0, k).value, last);
    assert r.prog[0..] == r.prog;
  }

  lemma SelectKeepsText(w: World, c: Command, st: State, last: bool)
    ensures var st' := Select(w, c, st, last).1;
            st'.view.pattern == st.view.pattern && st'.view.out == st.view.out && st'.view.appended == st.view.appended
  {
  }

  /** A cycle starts with its line in the pattern space, nothing appended and no substitution noted; the hold space, the
      last expression and the output go on from the cycle before. */
  lemma FreshCycle(r: Job, k: nat)
    requires 1 <= k <= |r.lines| && Started(r, k).Some?
    ensures After(r, k - 1).Some?
    ensures var before := After(r, k - 1).value.view;
            Started(r, k).value.view == View(r.lines[k - 1], before.hold, before.lastRegex, false, [], before.out)
  {
  }

  /** The line, and what a one-command script puts out for it. */
  lemma OneCommandGives(r: Job, k: nat, piece: string)
    requires 1 <= k <= |r.lines| && |r.prog| == 1
    requires Started(r, k).Some? ==>
               Reached(r, 0, k).Some? &&
               (var (_, st1) := Select(r.w, r.prog[0], Reached(r, 0, k).value, k == |r.lines|);
                var line, (st2, flow) := r.lines[k - 1], ExecOne(r.w, r.prog[0], st1, k == |r.lines|);
                if !Selected(r, 0, k) then piece == if r.quiet then "" else line + "\n"
                else
                  && (flow == Normal || flow == Delete) && st2.view.appended == []
                  && st2.view.out + (if r.quiet || flow == Delete then "" else st2.view.pattern + "\n")
                     == st1.view.out + piece)
    ensures Gives(r, k, piece)
  {
    if Started(r, k).Some? {
      var st, last := Started(r, k).value, k == |r.lines|;
      OnlyCommand(r, k);
      CyclePrints(r, k);
      LineIsCounted(r, k);
      FreshCycle(r, k);
      SelectKeepsText(r.w, r.prog[0], Reached(r, 0, k).value, last);
      hide Exec, Reached, Started, After, Select, ExecOne;
      assert Lines([]) == "";
      var (end, _) := Exec(r.w, r.prog, st, last);
      assert forall s: string :: s + "" == s;
    }
  }

  /** `d` puts out the lines that are not selected. */
  lemma DeletePutsOutTheOthers(r: Job, code: nat)
    requires |r.prog| == 1 && r.prog[0].kind == Other(code) && !r.quiet
    requires forall v, n, last :: r.w.act(code, v, n, last) == (v, Delete)
    ensures Output(r) == Put((k: nat) => if 1 <= k <= |r.lines| && !Selected(r, 0, k) then r.lines[k - 1] + "\n" else "", |r.lines|)
  {
    hide Selected, Reached, Select, Exec, Started;
    var piece := (k: nat) => if 1 <= k <= |r.lines| && !Selected(r, 0, k) then r.lines[k - 1] + "\n" else "";
    forall k | 1 <= k <= |r.lines| ensures Gives(r, k, piece(k)) {
      DeleteStep(r, code, k);
    }
    RunPutsOut(r, piece);
  }

  lemma DeleteStep(r: Job, code: nat, k: nat)
    requires 1 <= k <= |r.lines| && |r.prog| == 1 && r.prog[0].kind == Other(code) && !r.quiet
    requires forall v, n, last :: r.w.act(code, v, n, last) == (v, Delete)
    ensures Gives(r, k, if !Selected(r, 0, k) then r.lines[k - 1] + "\n" else "")
  {
    hide Gives, Reached, Select, Exec, Started, Selected;
    if Started(r, k).Some? {
      OnlyCommand(r, k);
      FreshCycle(r, k);
      SelectKeepsText(r.w, r.prog[0], Reached(r, 0, k).value, k == |r.lines|);
      var out := Select(r.w, r.prog[0], Reached(r, 0, k).value, k == |r.lines|).1.view.out;
      assert out + "" == out;
    }
    OneCommandGives(r, k, if !Selected(r, 0, k) then r.lines[k - 1] + "\n" else "");
  }

  /** `p` with printing off puts out the selected lines. */
  lemma PrintPutsOutTheSelected(r: Job, code: nat)
    requires |r.prog| == 1 && r.prog[0].kind == Other(code) && r.quiet
    requires forall v: View, n, last :: r.w.act(code, v, n, last) == (v.(out := v.out + (v.pattern + "\n")), Normal)
    ensures Output(r) == Put((k: nat) => if 1 <= k <= |r.lines| && Selected(r, 0, k) then r.lines[k - 1] + "\n" else "", |r.lines|)
  {
    hide Selected, Reached, Select, Exec, Started;
    var piece := (k: nat) => if 1 <= k <= |r.lines| && Selected(r, 0, k) then r.lines[k - 1] + "\n" else "";
    forall k | 1 <= k <= |r.lines| ensures Gives(r, k, piece(k)) {
      PrintStep(r, code, k);
    }
    RunPutsOut(r, piece);
  }

  lemma PrintStep(r: Job, code: nat, k: nat)
    requires 1 <= k <= |r.lines| && |r.prog| == 1 && r.prog[0].kind == Other(code) && r.quiet
    requires forall v: View, n, last :: r.w.act(code, v, n, last) == (v.(out := v.out + (v.pattern + "\n")), Normal)
    ensures Gives(r, k, if Selected(r, 0, k) then r.lines[k - 1] + "\n" else "")
  {
    hide Gives, Reached, Select, Exec, Started, Selected;
    if Started(r, k).Some? {
      OnlyCommand(r, k);
      FreshCycle(r, k);
      SelectKeepsText(r.w, r.prog[0], Reached(r, 0, k).value, k == |r.lines|);
      var v := Select(r.w, r.prog[0], Reached(r, 0, k).value, k == |r.lines|).1.view;
      assert v.out + (v.pattern + "\n") + "" == v.out + (v.pattern + "\n");
    }
    OneCommandGives(r, k, if Selected(r, 0, k) then r.lines[k - 1] + "\n" else "");
  }

  /** `c` with one address puts out its text for each selected line. */
  lemma ChangePutsOutItsText(r: Job, text: string)
    requires |r.prog| == 1 && r.prog[0].kind == Change(text) && r.prog[0].addr2.None? && !r.quiet
    ensures Output(r)
         == Put((k: nat) => if 1 <= k <= |r.lines| then (if Selected(r, 0, k) then text else r.lines[k - 1]) + "\n" else "", |r.lines|)
  {
    hide Selected, Reached, Select, Exec, Started;
    var piece := (k: nat) => if 1 <= k <= |r.lines| then (if Selected(r, 0, k) then text else r.lines[k - 1]) + "\n" else "";
    forall k | 1 <= k <= |r.lines| ensures Gives(r, k, piece(k)) {
      ChangeStep(r, text, k);
    }
    RunPutsOut(r, piece);
  }

  lemma ChangeStep(r: Job, text: string, k: nat)
    requires 1 <= k <= |r.lines| && |r.prog| == 1 && r.prog[0].kind == Change(text) && r.prog[0].addr2.None? && !r.quiet
    ensures Gives(r, k, (if Selected(r, 0, k) then text else r.lines[k - 1]) + "\n")
  {
    hide Gives, Reached, Select, Exec, Started, Selected;
    if Started(r, k).Some? {
      OnlyCommand(r, k);
      FreshCycle(r, k);
      SelectKeepsText(r.w, r.prog[0], Reached(r, 0, k).value, k == |r.lines|);
      var v := Select(r.w, r.prog[0], Reached(r, 0, k).value, k == |r.lines|).1.view;
      assert v.out + text + "\n" + "" == v.out + (text + "\n");
    }
    OneCommandGives(r, k, (if Selected(r, 0, k) then text else r.lines[k - 1]) + "\n");
  }

  lemma {:induction false} PutSame(p: nat -> string, q: nat -> string, k: nat)
    requires forall j :: 1 <= j <= k ==> p(j) == q(j)
    ensures Put(p, k) == Put(q, k)
  {
    if k > 0 { PutSame(p, q, k - 1); }
  }

  lemma {:induction false} EveryLineIsReached(r: Job, piece: nat -> string, k: nat)
    requires 1 <= k <= |r.lines| && |r.prog| == 1 && forall j :: 1 <= j <= |r.lines| ==> Gives(r, j, piece(j))
    ensures Reached(r, 0, k).Some?
  {
    hide Exec, Reached;
    PutsOut(r, piece, k - 1);
    OnlyCommand(r, k);
  }

  /** With a line number, a step or `$`: `d` puts out exactly the lines not named, `!d` those named. */
  lemma DeleteByNumber(r: Job, code: nat)
    requires |r.prog| == 1 && r.prog[0].kind == Other(code) && !r.quiet
    requires forall v, n, last :: r.w.act(code, v, n, last) == (v, Delete)
    requires r.prog[0].addr1.Some? && r.prog[0].addr2.None? && ByNumber(r.prog[0].addr1.value)
    ensures Output(r)
         == Put((k: nat) => if 1 <= k <= |r.lines| && Named(r.prog[0].addr1.value, k, |r.lines|) == r.prog[0].negated
                            then r.lines[k - 1] + "\n" else "", |r.lines|)
  {
    hide Selected, Reached, Select, Exec, Started, Named, ByNumber;
    var p := (k: nat) => if 1 <= k <= |r.lines| && !Selected(r, 0, k) then r.lines[k - 1] + "\n" else "";
    var q := (k: nat) => if 1 <= k <= |r.lines| && Named(r.prog[0].addr1.value, k, |r.lines|) == r.prog[0].negated
                         then r.lines[k - 1] + "\n" else "";
    DeletePutsOutTheOthers(r, code);
    forall k | 1 <= k <= |r.lines| ensures Gives(r, k, p(k)) { DeleteStep(r, code, k); }
    forall k | 1 <= k <= |r.lines| ensures p(k) == q(k) {
      EveryLineIsReached(r, p, k);
      NumberedLineSelects(r, 0, k);
    }
    PutSame(p, q, |r.lines|);
  }

  // ----- a group around a script -----

  /** Every range whose first address matches now is open. */
  predicate Opened(w: World, cmds: seq<Command>, st: State, last: bool)
    decreases cmds, 0
  {
    cmds == [] || (!StartsEarly(w, cmds[0], st, last) && OpenedInside(w, cmds[0], st, last) && Opened(w, cmds[1..], st, last))
  }

  predicate OpenedInside(w: World, c: Command, st: State, last: bool)
    decreases c, 1
  {
    match c.kind
    case Group(sub) => Opened(w, sub, st, last)
    case _ => true
  }

  /** The second state has the ranges of the first open, and perhaps more. */
  ghost predicate MoreOpen(st: State, st': State) {
    st.view == st'.view && st.lineNum == st'.lineNum && forall id :: Active(st, id) ==> Active(st', id)
  }

  lemma {:induction false} PreActivateOpens(w: World, cmds: seq<Command>, st: State, last: bool)
    ensures MoreOpen(st, PreActivate(w, cmds, st, last)) && Opened(w, cmds, PreActivate(w, cmds, st, last), last)
    decreases cmds, 2
  {
    if cmds != [] {
      var c := cmds[0];
      var st1 := if StartsEarly(w, c, st, last) then Activate(st, c.id) else st;
      var st2 := PreActivateInside(w, c, st1, last);
      var st3 := PreActivate(w, cmds[1..], st2, last);
      PreActivateInsideOpens(w, c, st1, last);
      PreActivateOpens(w, cmds[1..], st2, last);
      StaysOpenInside(w, c, st2, st3, last);
    }
  }

  lemma {:induction false} PreActivateInsideOpens(w: World, c: Command, st: State, last: bool)
    ensures MoreOpen(st, PreActivateInside(w, c, st, last)) && OpenedInside(w, c, PreActivateInside(w, c, st, last), last)
    decreases c, 3
  {
    match c.kind
    case Group(sub) => PreActivateOpens(w, sub, st, last);
    case _ =>
  }

  lemma {:induction false} StaysOpened(w: World, cmds: seq<Command>, st: State, st': State, last: bool)
    requires Opened(w, cmds, st, last) && MoreOpen(st, st')
    ensures Opened(w, cmds, st', last)
    decreases cmds, 0
  {
    if cmds != [] {
      StaysOpenInside(w, cmds[0], st, st', last);
      StaysOpened(w, cmds[1..], st, st', last);
    }
  }

  lemma {:induction false} StaysOpenInside(w: World, c: Command, st: State, st': State, last: bool)
    requires OpenedInside(w, c, st, last) && MoreOpen(st, st')
    ensures OpenedInside(w, c, st', last)
    decreases c, 1
  {
    match c.kind
    case Group(sub) => StaysOpened(w, sub, st, st', last);
    case _ =>
  }

  lemma {:induction false} NothingToOpen(w: World, cmds: seq<Command>, st: State, last: bool)
    requires Opened(w, cmds, st, last)
    ensures PreActivate(w, cmds, st, last) == st
    decreases cmds, 0
  {
    if cmds != [] {
      NothingToOpenInside(w, cmds[0], st, last);
      NothingToOpen(w, cmds[1..], st, last);
    }
  }

  lemma {:induction false} NothingToOpenInside(w: World, c: Command, st: State, last: bool)
    requires OpenedInside(w, c, st, last)
    ensures PreActivateInside(w, c, st, last) == st
    decreases c, 1
  {
    match c.kind
    case Group(sub) => NothingToOpen(w, sub, st, last);
    case _ =>
  }

  lemma GroupExecutes(w: World, id: nat, sub: seq<Command>, st: State, last: bool)
    ensures Exec(w, [Command(id, None, None, false, Group(sub))], st, last) == Exec(w, sub, st, last)
  {
    var g := Command(id, None, None, false, Group(sub));
    assert [g][1..] == [];
    PreActivateOpens(w, sub, st, last);
    NothingToOpen(w, sub, PreActivate(w, sub, st, last), last);
    var st1 := PreActivate(w, sub, st, last);
    assert PreActivate(w, [g], st, last) == st1;
    SelectedThere(w, [g], 0, st1, last);
    assert [g][0..] == [g] && [g][0 + 1..] == [];
    assert Select(w, g, st1, last) == (true, st1) && ExecOne(w, g, st1, last) == Exec(w, sub, st1, last);
    var (end, flow) := ExecFrom(w, sub, st1, last);
    assert ExecFrom(w, [], end, last) == (end, Normal);
  }

  /** Braces around a whole script make no difference, on any input. */
  lemma {:induction false} GroupAroundScript(
    w: World, id: nat, sub: seq<Command>, quiet: bool, lines: seq<string>, k: nat, st: State)
    requires k <= |lines|
    ensures RunLines(w, [Command(id, None, None, false, Group(sub))], quiet, lines, k, st)
         == RunLines(w, sub, quiet, lines, k, st)
    decreases |lines| - k
  {
    if k < |lines| {
      hide Exec, Leave, Enter;
      GroupExecutes(w, id, sub, Enter(Next(st), lines[k]), k + 1 == |lines|);
      var after := ProcessLine(w, sub, quiet, lines[k], k + 1 == |lines|, Next(st));
      if after.lineNum >= 0 {
        GroupAroundScript(w, id, sub, quiet, lines, k + 1, after);
      }
    }
  }
}

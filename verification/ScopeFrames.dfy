// Calls keep the stack of frames, and a name that a function first touches with `local` has its old
// binding again after the call.
module ScopeFrames {
  import opened Options
  import opened Scope

  /** The same frames, except that the innermost may have saved more names. */
  predicate Grows(a: seq<Frame>, b: seq<Frame>) {
    |a| == |b| &&
    (a == [] || (Below(a) == Below(b) && forall x :: x in Top(a) ==> x in Top(b) && Top(b)[x] == Top(a)[x]))
  }

  lemma GrowsTransitive(a: seq<Frame>, b: seq<Frame>, c: seq<Frame>)
    requires Grows(a, b) && Grows(b, c)
    ensures Grows(a, c)
  {
  }

  function Names(items: seq<Declaration>): set<string> {
    set k | 0 <= k < |items| :: items[k].name
  }

  /** A declaration saves the binding that it finds, once. */
  lemma {:induction false} DeclareAllSaves(vars: map<string, string>, frame: Frame, items: seq<Declaration>)
    ensures var (vars', frame') := DeclareAll(vars, frame, items);
            && frame'.Keys == frame.Keys + Names(items)
            && (forall x :: x in frame ==> frame'[x] == frame[x])
            && (forall x :: x in Names(items) && x !in frame ==> frame'[x] == Binding(vars, x))
            && (forall x :: x !in Names(items) ==> Binding(vars', x) == Binding(vars, x))
    decreases |items|
  {
    if items != [] {
      var (vars1, frame1) := Declare(vars, frame, items[0]);
      DeclareAllSaves(vars1, frame1, items[1..]);
      assert Names(items) == {items[0].name} + Names(items[1..]) by { NamesSplit(items); }
    }
  }

  lemma NamesSplit(items: seq<Declaration>)
    requires items != []
    ensures Names(items) == {items[0].name} + Names(items[1..])
  {
    forall x | x in Names(items) ensures x in {items[0].name} + Names(items[1..]) {
      var k :| 0 <= k < |items| && items[k].name == x;
      if k > 0 { assert items[1..][k - 1].name == x; }
    }
    forall x | x in Names(items[1..]) ensures x in Names(items) {
      var k :| 0 <= k < |items[1..]| && items[1..][k].name == x;
      assert items[k + 1].name == x;
    }
  }

  lemma {:induction false} ScriptKeepsFrames(w: World, cs: Script, st: State, fuel: nat)
    requires RunScript(w, cs, st, fuel).Some?
    ensures Grows(st.locals, RunScript(w, cs, st, fuel).value.st.locals)
    decreases fuel, 1, cs, 1
  {
    CommandsKeepFrames(w, cs, st.(rest := st.rest.(exitFlag := false, exitCode := 0)), 0, fuel);
  }

  lemma {:induction false} CommandsKeepFrames(w: World, cs: Script, st: State, status: int, fuel: nat)
    requires RunCommands(w, cs, st, status, fuel).Some?
    ensures Grows(st.locals, RunCommands(w, cs, st, status, fuel).value.st.locals)
    decreases fuel, 1, cs, 0
  {
    hide RunCommand;
    if cs != [] && !MustStop(st.rest) {
      CommandKeepsFrames(w, cs[0], st, fuel);
      var d := RunCommand(w, cs[0], st, fuel).value;
      var after := d.st.(rest := d.st.rest.(lastStatus := d.status));
      if !MustStop(d.st.rest) && !Interrupted(after.rest) && !d.exit {
        CommandsKeepFrames(w, cs[1..], after, d.status, fuel);
        GrowsTransitive(st.locals, d.st.locals, RunCommands(w, cs[1..], after, d.status, fuel).value.st.locals);
      }
    }
  }

  /** Whatever a command runs, the stack has its earlier depth afterwards and no saved value has changed. */
  lemma {:induction false} CommandKeepsFrames(w: World, c: Command, st: State, fuel: nat)
    requires RunCommand(w, c, st, fuel).Some?
    ensures Grows(st.locals, RunCommand(w, c, st, fuel).value.st.locals)
    decreases fuel, 1, c, 2
  {
    match c
    case Local(items) =>
      if st.locals != [] { DeclareAllSaves(st.vars, Top(st.locals), items); }
    case Invoke(name, args) =>
      if name in st.rest.funcs {
        ScriptKeepsFrames(w, st.rest.funcs[name],
                          State(st.vars, st.locals + [map[]], EnterCall(st.rest, args)), fuel - 1);
      }
    case Subshell(body) =>
      ScriptKeepsFrames(w, body, st.(rest := EnterSubshell(st.rest)), fuel);
      var d := RunScript(w, body, st.(rest := EnterSubshell(st.rest)), fuel).value;
      TrapKeepsFrames(w, d, fuel);
      GrowsTransitive(st.locals, d.st.locals, RunExitTrap(w, d, fuel).value.st.locals);
    case _ =>
  }

  lemma {:induction false} TrapKeepsFrames(w: World, d: Done<State>, fuel: nat)
    requires RunExitTrap(w, d, fuel).Some?
    ensures Grows(d.st.locals, RunExitTrap(w, d, fuel).value.st.locals)
    decreases fuel, 0
  {
    if HasExitTrap(d.st.rest) {
      ScriptKeepsFrames(w, d.st.rest.traps["EXIT"], d.st.(rest := EnterTrap(d.status, d.st.rest)), fuel - 1);
    }
  }

  // ----- the binding before the call -----

  /** The code writes no binding of `x` and declares none, nor does any code that it runs; `bad` are
      functions that must not be called from here. */
  predicate Untouched(cs: Script, x: string, bad: set<string>)
    decreases cs, 0
  {
    cs == [] || (LeavesAlone(cs[0], x, bad) && Untouched(cs[1..], x, bad))
  }

  predicate LeavesAlone(c: Command, x: string, bad: set<string>)
    decreases c, 1
  {
    match c
    case Assign(name, _) => name != x
    case Unset(name) => name != x
    case Readonly(name, initial) => name != x || initial.None?
    case Local(items) => x !in Names(items)
    case Define(_, body) => Untouched(body, x, bad)
    case Invoke(name, _) => name !in bad
    case Subshell(body) => Untouched(body, x, bad)
    case Trap(_, action) => Untouched(action, x, bad)
    case _ => true
  }

  ghost predicate RestUntouched(r: Rest, x: string, bad: set<string>) {
    (forall f :: f in r.funcs && f !in bad ==> Untouched(r.funcs[f], x, bad))
    && (forall t :: t in r.traps ==> Untouched(r.traps[t], x, bad))
  }

  ghost predicate KeepsBinding(before: State, run: Option<Done<State>>, x: string, bad: set<string>) {
    run.Some? ==>
      var st := run.value.st;
      && Binding(st.vars, x) == Binding(before.vars, x) && RestUntouched(st.rest, x, bad)
      && st.locals != [] && x !in Top(st.locals)
  }

  lemma {:induction false} ScriptUntouched(w: World, cs: Script, st: State, x: string, bad: set<string>, fuel: nat)
    requires Untouched(cs, x, bad) && RestUntouched(st.rest, x, bad) && st.locals != [] && x !in Top(st.locals)
    ensures KeepsBinding(st, RunScript(w, cs, st, fuel), x, bad)
    decreases fuel, 1, cs, 1
  {
    CommandsUntouched(w, cs, st.(rest := st.rest.(exitFlag := false, exitCode := 0)), 0, x, bad, fuel);
  }

  lemma {:induction false} CommandsUntouched(
    w: World, cs: Script, st: State, status: int, x: string, bad: set<string>, fuel: nat)
    requires Untouched(cs, x, bad) && RestUntouched(st.rest, x, bad) && st.locals != [] && x !in Top(st.locals)
    ensures KeepsBinding(st, RunCommands(w, cs, st, status, fuel), x, bad)
    decreases fuel, 1, cs, 0
  {
    hide RunCommand, LeavesAlone;
    if cs != [] && !MustStop(st.rest) {
      CommandUntouched(w, cs[0], st, x, bad, fuel);
      var run := RunCommand(w, cs[0], st, fuel);
      if run.Some? {
        var d := run.value;
        CommandsUntouched(w, cs[1..], d.st.(rest := d.st.rest.(lastStatus := d.status)), d.status, x, bad, fuel);
      }
    }
  }

  lemma {:induction false} CommandUntouched(w: World, c: Command, st: State, x: string, bad: set<string>, fuel: nat)
    requires LeavesAlone(c, x, bad) && RestUntouched(st.rest, x, bad) && st.locals != [] && x !in Top(st.locals)
    ensures KeepsBinding(st, RunCommand(w, c, st, fuel), x, bad)
    decreases fuel, 1, c, 2
  {
    match c
    case Local(items) => DeclareAllSaves(st.vars, Top(st.locals), items);
    case Invoke(name, args) => CallUntouched(w, name, args, st, x, bad, fuel);
    case Subshell(body) =>
      var inside := st.(rest := EnterSubshell(st.rest));
      ScriptUntouched(w, body, inside, x, bad, fuel);
      var d := RunScript(w, body, inside, fuel);
      if d.Some? {
        TrapUntouched(w, d.value, x, bad, fuel);
      }
    case _ =>
  }

  lemma {:induction false} CallUntouched(
    w: World, name: string, args: seq<string>, st: State, x: string, bad: set<string>, fuel: nat)
    requires name !in bad && RestUntouched(st.rest, x, bad) && st.locals != [] && x !in Top(st.locals)
    ensures KeepsBinding(st, RunCommand(w, Invoke(name, args), st, fuel), x, bad)
    decreases fuel, 1, Invoke(name, args), 1
  {
    hide RunScript, Untouched;
    if name in st.rest.funcs && fuel > 0 {
      var inside := State(st.vars, st.locals + [map[]], EnterCall(st.rest, args));
      ScriptUntouched(w, st.rest.funcs[name], inside, x, bad, fuel - 1);
      if RunScript(w, st.rest.funcs[name], inside, fuel - 1).Some? {
        ScriptKeepsFrames(w, st.rest.funcs[name], inside, fuel - 1);
        assert Below(inside.locals) == st.locals;
      }
    }
  }

  lemma {:induction false} TrapUntouched(w: World, d: Done<State>, x: string, bad: set<string>, fuel: nat)
    requires RestUntouched(d.st.rest, x, bad) && d.st.locals != [] && x !in Top(d.st.locals)
    ensures KeepsBinding(d.st, RunExitTrap(w, d, fuel), x, bad)
    decreases fuel, 0
  {
    if HasExitTrap(d.st.rest) && fuel > 0 {
      ScriptUntouched(w, d.st.rest.traps["EXIT"], d.st.(rest := EnterTrap(d.status, d.st.rest)), x, bad, fuel - 1);
    }
  }

  /** In a function whose first command to touch `x` is a `local`, its binding at the start is safe. */
  predicate Safe(st: State, x: string, v: Option<string>) {
    st.locals != [] && (if x in Top(st.locals) then Top(st.locals)[x] == v else Binding(st.vars, x) == v)
  }

  lemma {:induction false} SavedForTheReturn(
    w: World, before: Script, items: seq<Declaration>, more: Script, st: State, status: int, x: string,
    bad: set<string>, fuel: nat)
    requires Untouched(before, x, bad) && RestUntouched(st.rest, x, bad)
    requires x in Names(items) && st.locals != [] && x !in Top(st.locals)
    requires RunCommands(w, before + [Local(items)] + more, st, status, fuel).Some?
    ensures Safe(RunCommands(w, before + [Local(items)] + more, st, status, fuel).value.st, x, Binding(st.vars, x))
    decreases |before|
  {
    hide RunCommand, LeavesAlone;
    var cs := before + [Local(items)] + more;
    if !MustStop(st.rest) {
      var d := RunCommand(w, cs[0], st, fuel).value;
      var after := d.st.(rest := d.st.rest.(lastStatus := d.status));
      if before == [] {
        assert cs[1..] == more;
        DeclareAllSaves(st.vars, Top(st.locals), items);
        LocalDeclares(w, items, st, fuel);
        if !MustStop(d.st.rest) && !Interrupted(after.rest) {
          CommandsKeepFrames(w, more, after, d.status, fuel);
        }
      } else {
        assert cs[1..] == before[1..] + [Local(items)] + more;
        assert cs[0] == before[0];
        CommandUntouched(w, cs[0], st, x, bad, fuel);
        if !MustStop(d.st.rest) && !Interrupted(after.rest) && !d.exit {
          SavedForTheReturn(w, before[1..], items, more, after, d.status, x, bad, fuel);
        }
      }
    }
  }

  lemma LocalDeclares(w: World, items: seq<Declaration>, st: State, fuel: nat)
    requires st.locals != []
    ensures RunCommand(w, Local(items), st, fuel)
         == (var (vars, frame) := DeclareAll(st.vars, Top(st.locals), items);
             Some(Done(0, false, st.(vars := vars, locals := Below(st.locals) + [frame]))))
  {
  }

  /** After the call the name is bound as before it, set or unset, whatever the rest of the body does. */
  lemma FirstTouchedByLocal(
    w: World, name: string, args: seq<string>, before: Script, items: seq<Declaration>, more: Script,
    st: State, x: string, bad: set<string>, fuel: nat)
    requires name in st.rest.funcs && st.rest.funcs[name] == before + [Local(items)] + more
    requires Untouched(before, x, bad) && RestUntouched(st.rest, x, bad) && x in Names(items)
    requires RunCommand(w, Invoke(name, args), st, fuel).Some?
    ensures Binding(RunCommand(w, Invoke(name, args), st, fuel).value.st.vars, x) == Binding(st.vars, x)
  {
    hide RunCommands, MustStop, Untouched;
    var rest := EnterCall(st.rest, args);
    var inside := State(st.vars, st.locals + [map[]], rest.(exitFlag := false, exitCode := 0));
    SavedForTheReturn(w, before, items, more, inside, 0, x, bad, fuel - 1);
  }

  // ----- what a subshell leaves behind -----

  /** A subshell changes nothing but the read-only names and what the running function's frame has saved. */
  lemma SubshellIsolates(w: World, body: Script, st: State, fuel: nat)
    requires RunCommand(w, Subshell(body), st, fuel).Some?
    ensures var st' := RunCommand(w, Subshell(body), st, fuel).value.st;
            && st' == st.(locals := st'.locals, rest := st.rest.(readonly := st'.rest.readonly))
            && Grows(st.locals, st'.locals) && st.rest.readonly <= st'.rest.readonly
  {
    CommandKeepsFrames(w, Subshell(body), st, fuel);
    CommandKeepsRest(w, Subshell(body), st, fuel);
  }

  /** Names stay read-only, and the state of an enclosing trap is left alone. */
  predicate Lasting(before: Rest, after: Rest) {
    before.readonly <= after.readonly && after.inTrap == before.inTrap && after.trapStatus == before.trapStatus
  }

  lemma {:induction false} ScriptKeepsRest(w: World, cs: Script, st: State, fuel: nat)
    requires RunScript(w, cs, st, fuel).Some?
    ensures Lasting(st.rest, RunScript(w, cs, st, fuel).value.st.rest)
    decreases fuel, 1, cs, 1
  {
    CommandsKeepRest(w, cs, st.(rest := st.rest.(exitFlag := false, exitCode := 0)), 0, fuel);
  }

  lemma {:induction false} CommandsKeepRest(w: World, cs: Script, st: State, status: int, fuel: nat)
    requires RunCommands(w, cs, st, status, fuel).Some?
    ensures Lasting(st.rest, RunCommands(w, cs, st, status, fuel).value.st.rest)
    decreases fuel, 1, cs, 0
  {
    hide RunCommand;
    if cs != [] && !MustStop(st.rest) {
      CommandKeepsRest(w, cs[0], st, fuel);
      var d := RunCommand(w, cs[0], st, fuel).value;
      var after := d.st.(rest := d.st.rest.(lastStatus := d.status));
      if !MustStop(d.st.rest) && !Interrupted(after.rest) && !d.exit {
        CommandsKeepRest(w, cs[1..], after, d.status, fuel);
      }
    }
  }

  lemma {:induction false} CommandKeepsRest(w: World, c: Command, st: State, fuel: nat)
    requires RunCommand(w, c, st, fuel).Some?
    ensures Lasting(st.rest, RunCommand(w, c, st, fuel).value.st.rest)
    decreases fuel, 1, c, 2
  {
    match c
    case Invoke(name, args) =>
      if name in st.rest.funcs {
        ScriptKeepsRest(w, st.rest.funcs[name],
                            State(st.vars, st.locals + [map[]], EnterCall(st.rest, args)), fuel - 1);
      }
    case Subshell(body) =>
      ScriptKeepsRest(w, body, st.(rest := EnterSubshell(st.rest)), fuel);
      var d := RunScript(w, body, st.(rest := EnterSubshell(st.rest)), fuel).value;
      TrapKeepsRest(w, d, fuel);
    case _ =>
  }

  lemma {:induction false} TrapKeepsRest(w: World, d: Done<State>, fuel: nat)
    requires RunExitTrap(w, d, fuel).Some?
    ensures Lasting(d.st.rest, RunExitTrap(w, d, fuel).value.st.rest)
    decreases fuel, 0
  {
    if HasExitTrap(d.st.rest) {
      ScriptKeepsRest(w, d.st.rest.traps["EXIT"], d.st.(rest := EnterTrap(d.status, d.st.rest)), fuel - 1);
    }
  }

  const LEAKY: Script := [Subshell([Assign("x", "inner"), Local([Declaration("x", None)])]), Assign("x", "new")]

  /**
   * The frame is shared with a subshell: a function that runs `(x=inner; local x)` and then sets x
   * leaves the value that x had in the subshell.
   */
  lemma LocalInSubshellIsRestored(w: World, st: State)
    requires st.rest.funcs == map["f" := LEAKY] && st.rest.traps == map[] && st.rest.readonly == {}
    requires !Interrupted(st.rest)
    ensures RunCommand(w, Invoke("f", []), st, 1).Some?
    ensures Binding(RunCommand(w, Invoke("f", []), st, 1).value.st.vars, "x") == Some("inner")
  {
    var rest := EnterCall(st.rest, []).(exitFlag := false, exitCode := 0);
    var inside := State(st.vars, st.locals + [map[]], rest);
    var sub, body := inside.(rest := EnterSubshell(rest)), LEAKY[0].body;
    var sub1 := sub.(vars := sub.vars["x" := "inner"]);
    assert RunCommand(w, body[0], sub, 0) == Some(Done(0, false, sub1));
    LocalDeclares(w, body[1].items, sub1, 0);
    var frame: Frame := map["x" := Some("inner")];
    assert body[1].items[1..] == [];
    assert DeclareAll(sub1.vars, map[], body[1].items) == (sub1.vars - {"x"}, frame);
    var sub2 := State(sub1.vars - {"x"}, st.locals + [frame], sub.rest);
    assert Below(sub1.locals) == st.locals;
    assert RunCommand(w, body[1], sub1, 0) == Some(Done(0, false, sub2));
    assert body[1..] == [body[1]] && body[2..] == [];
    assert RunCommands(w, body[1..], sub1, 0, 0) == Some(Done(0, false, sub2));
    assert RunScript(w, body, sub, 0) == Some(Done(0, false, sub2));
    var inside1 := inside.(locals := st.locals + [frame]);
    assert RunCommand(w, LEAKY[0], inside, 0) == Some(Done(0, false, inside1));
    var inside2 := inside1.(vars := inside1.vars["x" := "new"]);
    assert RunCommand(w, LEAKY[1], inside1, 0).value.st.vars == inside2.vars;
    assert LEAKY[1..] == [LEAKY[1]] && LEAKY[1..][1..] == [];
    var d := RunScript(w, LEAKY, State(st.vars, st.locals + [map[]], EnterCall(st.rest, [])), 0).value;
    assert Top(d.st.locals) == frame;
  }
}

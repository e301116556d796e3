// Scripts in which no subshell declares a local of the function around it never leak, so the runner
// agrees with dynamic scoping on all of them.
module ScopeClean {
  import opened Options
  import opened Scope
  import opened ScopeDeep

  /** `free`: no `local` may stand here, because this code runs in a subshell of its function; `bad`: the
      functions that must not be called from here. */
  predicate Clean(cs: Script, free: bool, bad: set<string>)
    decreases cs, 0
  {
    cs == [] || (CleanCommand(cs[0], free, bad) && Clean(cs[1..], free, bad))
  }

  predicate CleanCommand(c: Command, free: bool, bad: set<string>)
    decreases c, 1
  {
    match c
    case Local(_) => !free
    case Invoke(name, _) => name !in bad
    case Subshell(body) => Clean(body, true, bad)
    case Define(_, body) => Clean(body, false, bad)
    case Trap(_, action) => Clean(action, true, bad)
    case _ => true
  }

  ghost predicate CleanRest(r: Rest, bad: set<string>) {
    (forall f :: f in r.funcs && f !in bad ==> Clean(r.funcs[f], false, bad))
    && (forall t :: t in r.traps ==> Clean(r.traps[t], true, bad))
  }

  /** The names bound in every scope. */
  function Shape(scopes: seq<Frame>): (names: seq<set<string>>)
    ensures |names| == |scopes| && forall k :: 0 <= k < |scopes| ==> names[k] == scopes[k].Keys
  {
    if scopes == [] then [] else Shape(Below(scopes)) + [Top(scopes).Keys]
  }

  /** The innermost scope may have got more names unless the code is free of `local`; no other one has. */
  predicate Keeps(free: bool, before: seq<Frame>, after: seq<Frame>) {
    |before| == |after| && (free ==> Shape(before) == Shape(after))
    && (before != [] ==> Shape(Below(before)) == Shape(Below(after)))
  }

  lemma KeepsTransitive(free: bool, a: seq<Frame>, b: seq<Frame>, c: seq<Frame>)
    requires Keeps(free, a, b) && Keeps(free, b, c)
    ensures Keeps(free, a, c)
  {
  }

  lemma {:induction false} WriteKeepsShape(g: map<string, string>, scopes: seq<Frame>, x: string, v: Option<string>)
    ensures Shape(Write(g, scopes, x, v).1) == Shape(scopes)
  {
    if scopes != [] {
      var scopes' := Write(g, scopes, x, v).1;
      if x in Top(scopes) {
        assert Below(scopes') == Below(scopes) && Top(scopes').Keys == Top(scopes).Keys;
      } else {
        WriteKeepsShape(g, Below(scopes), x, v);
        assert Below(scopes') == Write(g, Below(scopes), x, v).1 && Top(scopes') == Top(scopes);
      }
    }
  }

  lemma SameShape(a: seq<Frame>, b: seq<Frame>)
    requires Shape(a) == Shape(b)
    ensures Keeps(true, a, b) && Keeps(false, a, b)
  {
    assert |Shape(a)| == |Shape(b)|;
    if a != [] {
      assert Shape(Below(a)) == Below(Shape(a)) && Shape(Below(b)) == Below(Shape(b));
    }
  }

  ghost predicate CleanEnd(free: bool, bad: set<string>, before: seq<Frame>, run: Outcome) {
    !run.Leaks? && (run.Ended? ==> CleanRest(run.d.st.rest, bad) && Keeps(free, before, run.d.st.scopes))
  }

  lemma {:induction false} CleanScript(w: World, bad: set<string>, cs: Script, free: bool, st: Deep, fuel: nat)
    requires Clean(cs, free, bad) && CleanRest(st.rest, bad)
    ensures CleanEnd(free, bad, st.scopes, DeepScript(w, true, cs, st, fuel))
    decreases fuel, 1, cs, 1
  {
    CleanCommands(w, bad, cs, free, st.(rest := st.rest.(exitFlag := false, exitCode := 0)), 0, fuel);
  }

  lemma {:induction false} CleanCommands(w: World, bad: set<string>, cs: Script, free: bool, st: Deep, status: int, fuel: nat)
    requires Clean(cs, free, bad) && CleanRest(st.rest, bad)
    ensures CleanEnd(free, bad, st.scopes, DeepCommands(w, true, cs, st, status, fuel))
    decreases fuel, 1, cs, 0
  {
    hide DeepCommand, MustStop, Interrupted, Shape, CleanCommand;
    if cs != [] && !MustStop(st.rest) {
      CleanStep(w, bad, cs[0], free, st, fuel);
      var run := DeepCommand(w, true, cs[0], st, fuel);
      if run.Ended? {
        var after := run.d.st.(rest := run.d.st.rest.(lastStatus := run.d.status));
        CleanCommands(w, bad, cs[1..], free, after, run.d.status, fuel);
        var more := DeepCommands(w, true, cs[1..], after, run.d.status, fuel);
        if more.Ended? {
          KeepsTransitive(free, st.scopes, run.d.st.scopes, more.d.st.scopes);
        }
      }
    }
  }

  lemma {:induction false} CleanStep(w: World, bad: set<string>, c: Command, free: bool, st: Deep, fuel: nat)
    requires CleanCommand(c, free, bad) && CleanRest(st.rest, bad)
    ensures CleanEnd(free, bad, st.scopes, DeepCommand(w, true, c, st, fuel))
    decreases fuel, 1, c, 2
  {
    hide Shape, DeepScript, Write, Clean, DeepExitTrap;
    SameShape(st.scopes, st.scopes);
    match c
    case Assign(name, value) => CleanWrite(st, name, Some(value));
    case Unset(name) => CleanWrite(st, name, None);
    case Readonly(name, initial) => CleanWrite(st, name, initial);
    case Local(items) => CleanLocal(items, st.scopes);
    case Invoke(name, args) => CleanInvoke(w, bad, name, args, free, st, fuel);
    case Subshell(body) => CleanSubshell(w, bad, body, st, fuel);
    case _ =>
  }

  lemma CleanLocal(items: seq<Declaration>, scopes: seq<Frame>)
    ensures scopes != [] ==> Keeps(false, scopes, Below(scopes) + [BindAll(Top(scopes), items)])
  {
    if scopes != [] {
      assert Below(Below(scopes) + [BindAll(Top(scopes), items)]) == Below(scopes);
    }
  }

  lemma {:induction false} CleanInvoke(w: World, bad: set<string>, name: string, args: seq<string>, free: bool, st: Deep, fuel: nat)
    requires CleanRest(st.rest, bad) && name !in bad
    ensures CleanEnd(free, bad, st.scopes, DeepCommand(w, true, Invoke(name, args), st, fuel))
    decreases fuel, 1, Invoke(name, args), 1
  {
    hide Shape, DeepScript, Clean;
    SameShape(st.scopes, st.scopes);
    if name in st.rest.funcs && fuel > 0 {
      var inside := Deep(st.globals, st.scopes + [map[]], EnterCall(st.rest, args));
      CleanScript(w, bad, st.rest.funcs[name], false, inside, fuel - 1);
      assert Below(inside.scopes) == st.scopes;
      var run := DeepScript(w, true, st.rest.funcs[name], inside, fuel - 1);
      if run.Ended? {
        SameShape(st.scopes, Below(run.d.st.scopes));
      }
    }
  }

  lemma CleanWrite(st: Deep, x: string, v: Option<string>)
    ensures Keeps(true, st.scopes, Written(st, x, v).scopes) && Keeps(false, st.scopes, Written(st, x, v).scopes)
  {
    WriteKeepsShape(st.globals, st.scopes, x, v);
    SameShape(st.scopes, Written(st, x, v).scopes);
  }

  lemma {:induction false} CleanSubshell(w: World, bad: set<string>, body: Script, st: Deep, fuel: nat)
    requires Clean(body, true, bad) && CleanRest(st.rest, bad)
    ensures var run := DeepCommand(w, true, Subshell(body), st, fuel);
            !run.Leaks? && (run.Ended? ==> CleanRest(run.d.st.rest, bad) && run.d.st.scopes == st.scopes)
    decreases fuel, 1, Subshell(body), 1
  {
    hide Shape;
    var inside := st.(rest := EnterSubshell(st.rest));
    assert CleanRest(inside.rest, bad);
    CleanScript(w, bad, body, true, inside, fuel);
    var run := DeepScript(w, true, body, inside, fuel);
    if run.Ended? {
      CleanTrap(w, bad, run.d, fuel);
      var trap := DeepExitTrap(w, true, run.d, fuel);
      if trap.Ended? {
        KeepsTransitive(true, st.scopes, run.d.st.scopes, trap.d.st.scopes);
        NothingNew(st.scopes, trap.d.st.scopes);
      }
    }
  }

  lemma NothingNew(a: seq<Frame>, b: seq<Frame>)
    requires Keeps(true, a, b)
    ensures !NewLocal(a, b)
  {
    if a != [] {
      assert Shape(a)[|a| - 1] == Shape(b)[|b| - 1];
    }
  }

  lemma {:induction false} CleanTrap(w: World, bad: set<string>, d: Done<Deep>, fuel: nat)
    requires CleanRest(d.st.rest, bad)
    ensures CleanEnd(true, bad, d.st.scopes, DeepExitTrap(w, true, d, fuel))
    decreases fuel, 0
  {
    SameShape(d.st.scopes, d.st.scopes);
    if HasExitTrap(d.st.rest) && fuel > 0 {
      CleanScript(w, bad, d.st.rest.traps["EXIT"], true, d.st.(rest := EnterTrap(d.status, d.st.rest)), fuel - 1);
    }
  }

  /** Every run of a clean script ends with the bindings, the status and the state that dynamic scoping gives. */
  lemma CleanScriptsKeepDynamicScope(
    w: World, cs: Script, g: map<string, string>, rest: Rest, x: string, fuel: nat)
    requires Clean(cs, false, {}) && CleanRest(rest, {})
    requires RunScript(w, cs, State(g, [], rest), fuel).Some?
    ensures var run, deep := RunScript(w, cs, State(g, [], rest), fuel).value, DeepScript(w, true, cs, Deep(g, [], rest), fuel);
            && deep.Ended? && run.status == deep.d.status && run.st.rest == deep.d.st.rest
            && Binding(run.st.vars, x) == Lookup(deep.d.st.globals, deep.d.st.scopes, x)
  {
    CleanScript(w, {}, cs, false, Deep(g, [], rest), fuel);
    ScriptFollows(w, cs, State(g, [], rest), Deep(g, [], rest), fuel);
    RunnerKeepsDynamicScope(w, cs, g, rest, x, fuel);
  }
}

// Dynamic scoping as it is usually explained: a stack of scopes, each name looked up from the
// innermost outwards, `local` binding it in the innermost, a call pushing a scope and its return
// dropping it. Nothing is ever saved or restored.
module ScopeDeep {
  import opened Options
  import opened Scope
  import opened ScopeFrames

  datatype Deep = Deep(globals: map<string, string>, scopes: seq<Frame>, rest: Rest)

  /** `Leaks`: a subshell declared a local in the scope of the function it was started from. That scope is
      dropped with the subshell; only the strict reading takes notice. */
  datatype Outcome = NoFuel | Leaks | Ended(d: Done<Deep>)

  function Lookup(globals: map<string, string>, scopes: seq<Frame>, x: string): Option<string> {
    if scopes == [] then Binding(globals, x)
    else if x in Top(scopes) then Top(scopes)[x]
    else Lookup(globals, Below(scopes), x)
  }

  /** The table of what every name is bound to. */
  function Visible(globals: map<string, string>, scopes: seq<Frame>): map<string, string> {
    if scopes == [] then globals else Overlay(Visible(globals, Below(scopes)), Top(scopes))
  }

  lemma {:induction false} VisibleIsLookup(globals: map<string, string>, scopes: seq<Frame>, x: string)
    ensures Binding(Visible(globals, scopes), x) == Lookup(globals, scopes, x)
  {
    if scopes != [] { VisibleIsLookup(globals, Below(scopes), x); }
  }

  /** Binds or unsets the name where it is visible. */
  function Write(g: map<string, string>, scopes: seq<Frame>, x: string, v: Option<string>)
    : (r: (map<string, string>, seq<Frame>))
    ensures |r.1| == |scopes|
  {
    if scopes == [] then (Put(g, x, v), [])
    else if x in Top(scopes) then (g, Below(scopes) + [Top(scopes)[x := v]])
    else
      var (g', below) := Write(g, Below(scopes), x, v);
      (g', below + [Top(scopes)])
  }

  function Written(st: Deep, x: string, v: Option<string>): Deep {
    var (g, scopes) := Write(st.globals, st.scopes, x, v);
    st.(globals := g, scopes := scopes)
  }

  /** A bare name that is local already keeps its value. */
  function Bind(scope: Frame, d: Declaration): Frame {
    if d.value.None? && d.name in scope then scope else scope[d.name := d.value]
  }

  function BindAll(scope: Frame, items: seq<Declaration>): Frame
    decreases |items|
  {
    if items == [] then scope else BindAll(Bind(scope, items[0]), items[1..])
  }

  function DeepScript(w: World, strict: bool, cs: Script, st: Deep, fuel: nat): Outcome
    decreases fuel, 1, cs, 1
  {
    DeepCommands(w, strict, cs, st.(rest := st.rest.(exitFlag := false, exitCode := 0)), 0, fuel)
  }

  function DeepCommands(w: World, strict: bool, cs: Script, st: Deep, status: int, fuel: nat): Outcome
    decreases fuel, 1, cs, 0
  {
    if cs == [] then Ended(Done(status, false, st))
    else if MustStop(st.rest) then Ended(Done(StopStatus(st.rest), false, st))
    else
      match DeepCommand(w, strict, cs[0], st, fuel)
      case NoFuel => NoFuel
      case Leaks => Leaks
      case Ended(d) =>
        if MustStop(d.st.rest) then Ended(Done(StopStatus(d.st.rest), false, d.st))
        else
          var after := d.st.(rest := d.st.rest.(lastStatus := d.status));
          if Interrupted(after.rest) then Ended(Done(d.status, false, after))
          else if d.exit then
            Ended(Done(d.status, false, after.(rest := after.rest.(exitFlag := true, exitCode := d.status))))
          else DeepCommands(w, strict, cs[1..], after, d.status, fuel)
  }

  function DeepCommand(w: World, strict: bool, c: Command, st: Deep, fuel: nat): Outcome
    decreases fuel, 1, c, 2
  {
    match c
    case Assign(name, value) =>
      if name in st.rest.readonly then Ended(Done(2, true, st.(rest := AssignFails(st.rest))))
      else Ended(Done(0, false, Written(st, name, Some(value))))
    case Unset(name) =>
      if name in st.rest.readonly then Ended(Done(0, false, st))
      else Ended(Done(0, false, Written(st, name, None).(rest := Forget(st.rest, name))))
    case Readonly(name, initial) =>
      if name in st.rest.readonly then Ended(Done(0, false, st))
      else
        var st' := if initial.Some? then Written(st, name, initial) else st;
        Ended(Done(0, false, st'.(rest := st.rest.(readonly := st.rest.readonly + {name}))))
    case Local(items) =>
      if st.scopes == [] then Ended(Done(2, false, st))
      else Ended(Done(0, false, st.(scopes := Below(st.scopes) + [BindAll(Top(st.scopes), items)])))
    case Invoke(name, args) =>
      if name in st.rest.funcs then
        if fuel == 0 then NoFuel
        else
          match DeepScript(w, strict, st.rest.funcs[name],
                       Deep(st.globals, st.scopes + [map[]], EnterCall(st.rest, args)), fuel - 1)
          case NoFuel => NoFuel
          case Leaks => Leaks
          case Ended(d) =>
            if d.st.scopes == [] then NoFuel
            else
              Ended(Done(CallStatus(d.status, d.st.rest), false,
                         Deep(d.st.globals, Below(d.st.scopes), LeaveCall(st.rest, d.st.rest))))
      else Ended(Done(w.spawn(name, args, Visible(st.globals, st.scopes)), false, st))
    case Subshell(body) =>
      (match DeepScript(w, strict, body, st.(rest := EnterSubshell(st.rest)), fuel)
       case NoFuel => NoFuel
       case Leaks => Leaks
       case Ended(d) =>
         match DeepExitTrap(w, strict, d, fuel)
         case NoFuel => NoFuel
         case Leaks => Leaks
         case Ended(e) =>
           if strict && NewLocal(st.scopes, e.st.scopes) then Leaks
           else Ended(Done(e.status, false, st.(rest := LeaveSubshell(st.rest, e.st.rest)))))
    case Other(id) =>
      var (settings, status) := w.act(id, Visible(st.globals, st.scopes), st.rest.settings);
      Ended(Done(status, false, st.(rest := st.rest.(settings := settings))))
    case _ =>
      var (status, exit, rest) := Fixed(c, st.rest);
      Ended(Done(status, exit, st.(rest := rest)))
  }

  predicate NewLocal(before: seq<Frame>, after: seq<Frame>) {
    before != [] && after != [] && Top(after).Keys != Top(before).Keys
  }

  function DeepExitTrap(w: World, strict: bool, d: Done<Deep>, fuel: nat): Outcome
    decreases fuel, 0
  {
    if !HasExitTrap(d.st.rest) then Ended(d)
    else if fuel == 0 then NoFuel
    else
      match DeepScript(w, strict, d.st.rest.traps["EXIT"], d.st.(rest := EnterTrap(d.status, d.st.rest)), fuel - 1)
      case NoFuel => NoFuel
      case Leaks => Leaks
      case Ended(e) =>
        Ended(Done(if e.st.rest.exitFlag then e.st.rest.exitCode else TrapStatus(d.status, d.st.rest), false,
                   e.st.(rest := LeaveTrap(d.st.rest, e.st.rest))))
  }

  // ----- one table and saved values show the stack of scopes -----

  /** Every frame has saved what is visible below the scope it stands for. */
  predicate Shows(vars: map<string, string>, locals: seq<Frame>, g: map<string, string>, scopes: seq<Frame>)
    decreases |locals|
  {
    |locals| == |scopes| &&
    if locals == [] then vars == g
    else
      && Top(locals).Keys == Top(scopes).Keys
      && Shows(Overlay(vars, Top(locals)), Below(locals), g, Below(scopes))
      && forall x :: x in Top(scopes) ==> Binding(vars, x) == Top(scopes)[x]
  }

  predicate ShowsState(st: State, deep: Deep) {
    st.rest == deep.rest && Shows(st.vars, st.locals, deep.globals, deep.scopes)
  }

  lemma {:induction false} ShownIsVisible(
    vars: map<string, string>, locals: seq<Frame>, g: map<string, string>, scopes: seq<Frame>)
    requires Shows(vars, locals, g, scopes)
    ensures vars == Visible(g, scopes)
    decreases |locals|
  {
    if locals != [] {
      var below := Overlay(vars, Top(locals));
      ShownIsVisible(below, Below(locals), g, Below(scopes));
      forall x ensures Binding(vars, x) == Binding(Visible(g, scopes), x) {
        if x !in Top(scopes) {
          assert Binding(below, x) == Binding(vars, x);
        }
      }
      SameBindings(vars, Visible(g, scopes));
    }
  }

  lemma SameBindings(a: map<string, string>, b: map<string, string>)
    requires forall x :: Binding(a, x) == Binding(b, x)
    ensures a == b
  {
    assert forall x :: x in a <==> x in b by {
      forall x ensures x in a <==> x in b { assert Binding(a, x) == Binding(b, x); }
    }
    forall x | x in a ensures a[x] == b[x] { assert Binding(a, x) == Binding(b, x); }
  }

  lemma {:induction false} WriteShows(
    vars: map<string, string>, locals: seq<Frame>, g: map<string, string>, scopes: seq<Frame>, x: string, v: Option<string>)
    requires Shows(vars, locals, g, scopes)
    ensures var (g', scopes') := Write(g, scopes, x, v); Shows(Put(vars, x, v), locals, g', scopes')
    decreases |locals|
  {
    hide Shows, Overlay;
    ShowsParts(vars, locals, g, scopes);
    if locals != [] {
      var frame, below := Top(locals), Overlay(vars, Top(locals));
      var (g', scopes') := Write(g, scopes, x, v);
      OverlayPut(vars, frame, x, v);
      if x in Top(scopes) {
        assert Below(scopes') == Below(scopes) && Top(scopes') == Top(scopes)[x := v];
      } else {
        WriteShows(below, Below(locals), g, Below(scopes), x, v);
        assert Below(scopes') == Write(g, Below(scopes), x, v).1 && Top(scopes') == Top(scopes);
      }
      ShowsWhole(Put(vars, x, v), locals, g', scopes');
    } else {
      ShowsWhole(Put(vars, x, v), [], Put(g, x, v), []);
    }
  }

  lemma OverlayPut(vars: map<string, string>, frame: Frame, x: string, v: Option<string>)
    ensures Overlay(Put(vars, x, v), frame) == if x in frame then Overlay(vars, frame) else Put(Overlay(vars, frame), x, v)
  {
    SameBindings(Overlay(Put(vars, x, v), frame),
                 if x in frame then Overlay(vars, frame) else Put(Overlay(vars, frame), x, v));
  }

  lemma ShowsParts(vars: map<string, string>, locals: seq<Frame>, g: map<string, string>, scopes: seq<Frame>)
    requires Shows(vars, locals, g, scopes)
    ensures |locals| == |scopes|
    ensures locals == [] ==> vars == g
    ensures locals != [] ==> Top(locals).Keys == Top(scopes).Keys
    ensures locals != [] ==> Shows(Overlay(vars, Top(locals)), Below(locals), g, Below(scopes))
    ensures locals != [] ==> forall x :: x in Top(scopes) ==> Binding(vars, x) == Top(scopes)[x]
  {
  }

  lemma ShowsWhole(vars: map<string, string>, locals: seq<Frame>, g: map<string, string>, scopes: seq<Frame>)
    requires |locals| == |scopes|
    requires locals == [] ==> vars == g
    requires locals != [] ==> Top(locals).Keys == Top(scopes).Keys
    requires locals != [] ==> Shows(Overlay(vars, Top(locals)), Below(locals), g, Below(scopes))
    requires locals != [] ==> forall x :: x in Top(scopes) ==> Binding(vars, x) == Top(scopes)[x]
    ensures Shows(vars, locals, g, scopes)
  {
  }

  lemma DeclareShows(
    vars: map<string, string>, locals: seq<Frame>, g: map<string, string>, scopes: seq<Frame>, d: Declaration)
    requires locals != [] && Shows(vars, locals, g, scopes)
    ensures var (vars', frame') := Declare(vars, Top(locals), d);
            Shows(vars', Below(locals) + [frame'], g, Below(scopes) + [Bind(Top(scopes), d)])
  {
    ShowsParts(vars, locals, g, scopes);
    var frame, scope := Top(locals), Bind(Top(scopes), d);
    var (vars', frame') := Declare(vars, frame, d);
    var locals', scopes' := Below(locals) + [frame'], Below(scopes) + [scope];
    TopReplaced(locals, frame');
    TopReplaced(scopes, scope);
    hide *;
    DeclareBinds(vars, frame, Top(scopes), d);
    ShowsWhole(vars', locals', g, scopes');
  }

  lemma TopReplaced(frames: seq<Frame>, top: Frame)
    requires frames != []
    ensures var all := Below(frames) + [top];
            |all| == |frames| && all != [] && Top(all) == top && Below(all) == Below(frames)
  {
  }

  /** The declaration binds in the scope and leaves what lies below. */
  lemma DeclareBinds(vars: map<string, string>, frame: Frame, scope: Frame, d: Declaration)
    requires frame.Keys == scope.Keys && forall x :: x in scope ==> Binding(vars, x) == scope[x]
    ensures var (vars', frame') := Declare(vars, frame, d);
            && frame'.Keys == Bind(scope, d).Keys && Overlay(vars', frame') == Overlay(vars, frame)
            && forall x :: x in Bind(scope, d) ==> Binding(vars', x) == Bind(scope, d)[x]
  {
    hide Overlay, Declare, Bind;
    DeclareKeepsBelow(vars, frame, d);
    forall x ensures x in Bind(scope, d) ==> Binding(Declare(vars, frame, d).0, x) == Bind(scope, d)[x] {
      DeclareBindsName(vars, frame, scope, d, x);
    }
    DeclareKeys(vars, frame, scope, d);
  }

  lemma DeclareKeys(vars: map<string, string>, frame: Frame, scope: Frame, d: Declaration)
    requires frame.Keys == scope.Keys
    ensures Declare(vars, frame, d).1.Keys == Bind(scope, d).Keys
  {
  }

  lemma DeclareBindsName(vars: map<string, string>, frame: Frame, scope: Frame, d: Declaration, x: string)
    requires frame.Keys == scope.Keys && forall y :: y in scope ==> Binding(vars, y) == scope[y]
    ensures x in Bind(scope, d) ==> Binding(Declare(vars, frame, d).0, x) == Bind(scope, d)[x]
  {
  }

  lemma DeclareKeepsBelow(vars: map<string, string>, frame: Frame, d: Declaration)
    ensures var (vars', frame') := Declare(vars, frame, d); Overlay(vars', frame') == Overlay(vars, frame)
  {
    var (vars', frame') := Declare(vars, frame, d);
    SameBindings(Overlay(vars', frame'), Overlay(vars, frame));
  }

  lemma {:induction false} DeclareAllShows(
    vars: map<string, string>, locals: seq<Frame>, g: map<string, string>, scopes: seq<Frame>, items: seq<Declaration>)
    requires locals != [] && Shows(vars, locals, g, scopes)
    ensures var (vars', frame') := DeclareAll(vars, Top(locals), items);
            Shows(vars', Below(locals) + [frame'], g, Below(scopes) + [BindAll(Top(scopes), items)])
    decreases |items|
  {
    if items == [] {
      assert Below(locals) + [Top(locals)] == locals && Below(scopes) + [Top(scopes)] == scopes;
    } else {
      DeclareShows(vars, locals, g, scopes, items[0]);
      var (vars1, frame1) := Declare(vars, Top(locals), items[0]);
      var locals1, scopes1 := Below(locals) + [frame1], Below(scopes) + [Bind(Top(scopes), items[0])];
      assert Below(locals1) == Below(locals) && Below(scopes1) == Below(scopes);
      DeclareAllShows(vars1, locals1, g, scopes1, items[1..]);
    }
  }

  /** A call starts with an empty scope, and a frame that has saved nothing. */
  lemma CallShows(vars: map<string, string>, locals: seq<Frame>, g: map<string, string>, scopes: seq<Frame>)
    requires Shows(vars, locals, g, scopes)
    ensures Shows(vars, locals + [map[]], g, scopes + [map[]])
  {
    assert Below(locals + [map[]]) == locals && Below(scopes + [map[]]) == scopes;
    SameBindings(Overlay(vars, map[]), vars);
  }

  // ----- the runner follows -----

  /** The runner ends with the same status in a state that shows the scopes, unless a subshell leaked. */
  ghost predicate Follows(run: Option<Done<State>>, deep: Outcome) {
    match deep
    case NoFuel => run.None?
    case Leaks => true
    case Ended(d) =>
      run.Some? && run.value.status == d.status && run.value.exit == d.exit && ShowsState(run.value.st, d.st)
  }

  lemma {:induction false} ScriptFollows(w: World, cs: Script, st: State, deep: Deep, fuel: nat)
    requires ShowsState(st, deep)
    ensures Follows(RunScript(w, cs, st, fuel), DeepScript(w, true, cs, deep, fuel))
    decreases fuel, 1, cs, 1
  {
    CommandsFollow(w, cs, st.(rest := st.rest.(exitFlag := false, exitCode := 0)),
                   deep.(rest := deep.rest.(exitFlag := false, exitCode := 0)), 0, fuel);
  }

  lemma {:induction false} CommandsFollow(w: World, cs: Script, st: State, deep: Deep, status: int, fuel: nat)
    requires ShowsState(st, deep)
    ensures Follows(RunCommands(w, cs, st, status, fuel), DeepCommands(w, true, cs, deep, status, fuel))
    decreases fuel, 1, cs, 0
  {
    hide RunCommand, DeepCommand, Shows, MustStop, Interrupted;
    if cs != [] && !MustStop(st.rest) {
      CommandFollows(w, cs[0], st, deep, fuel);
      var run := DeepCommand(w, true, cs[0], deep, fuel);
      if run.Ended? {
        var d, e := RunCommand(w, cs[0], st, fuel).value, run.d;
        CommandsFollow(w, cs[1..], d.st.(rest := d.st.rest.(lastStatus := d.status)),
                       e.st.(rest := e.st.rest.(lastStatus := e.status)), d.status, fuel);
      }
    }
  }

  lemma {:induction false} CommandFollows(w: World, c: Command, st: State, deep: Deep, fuel: nat)
    requires ShowsState(st, deep)
    ensures Follows(RunCommand(w, c, st, fuel), DeepCommand(w, true, c, deep, fuel))
    decreases fuel, 1, c, 2
  {
    match c
    case Assign(name, value) =>
      WriteShows(st.vars, st.locals, deep.globals, deep.scopes, name, Some(value));
    case Unset(name) =>
      WriteShows(st.vars, st.locals, deep.globals, deep.scopes, name, None);
    case Readonly(name, initial) =>
      WriteShows(st.vars, st.locals, deep.globals, deep.scopes, name, initial);
    case Local(items) =>
      SameDepth(st.vars, st.locals, deep.globals, deep.scopes);
      if st.locals != [] {
        DeclareAllShows(st.vars, st.locals, deep.globals, deep.scopes, items);
      }
    case Invoke(name, args) => InvokeFollows(w, name, args, st, deep, fuel);
    case Subshell(body) => SubshellFollows(w, body, st, deep, fuel);
    case Other(id) => ShownIsVisible(st.vars, st.locals, deep.globals, deep.scopes);
    case _ =>
  }

  lemma SameDepth(vars: map<string, string>, locals: seq<Frame>, g: map<string, string>, scopes: seq<Frame>)
    requires Shows(vars, locals, g, scopes)
    ensures |locals| == |scopes|
  {
  }

  lemma {:induction false} InvokeFollows(
    w: World, name: string, args: seq<string>, st: State, deep: Deep, fuel: nat)
    requires ShowsState(st, deep)
    ensures Follows(RunCommand(w, Invoke(name, args), st, fuel), DeepCommand(w, true, Invoke(name, args), deep, fuel))
    decreases fuel, 1, Invoke(name, args), 1
  {
    if name !in st.rest.funcs {
      ShownIsVisible(st.vars, st.locals, deep.globals, deep.scopes);
    } else if fuel > 0 {
      hide Shows, Overlay, EnterCall, LeaveCall, CallStatus, RunScript, DeepScript, RunCommand, DeepCommand;
      CallSteps(w, name, args, st, deep, fuel);
      CallShows(st.vars, st.locals, deep.globals, deep.scopes);
      var st1 := State(st.vars, st.locals + [map[]], EnterCall(st.rest, args));
      var deep1 := Deep(deep.globals, deep.scopes + [map[]], EnterCall(st.rest, args));
      ScriptFollows(w, st.rest.funcs[name], st1, deep1, fuel - 1);
      var run := DeepScript(w, true, st.rest.funcs[name], deep1, fuel - 1);
      if run.Ended? {
        var d, e := RunScript(w, st.rest.funcs[name], st1, fuel - 1).value, run.d;
        ScriptKeepsFrames(w, st.rest.funcs[name], st1, fuel - 1);
        ReturnShows(d.st.vars, d.st.locals, e.st.globals, e.st.scopes);
      }
    }
  }

  lemma CallSteps(w: World, name: string, args: seq<string>, st: State, deep: Deep, fuel: nat)
    requires fuel > 0 && st.rest == deep.rest && name in st.rest.funcs
    ensures RunCommand(w, Invoke(name, args), st, fuel)
         == (match RunScript(w, st.rest.funcs[name],
                             State(st.vars, st.locals + [map[]], EnterCall(st.rest, args)), fuel - 1)
             case None => None
             case Some(d) =>
               if d.st.locals == [] then None
               else
                 Some(Done(CallStatus(d.status, d.st.rest), false,
                   State(Overlay(d.st.vars, Top(d.st.locals)), Below(d.st.locals), LeaveCall(st.rest, d.st.rest)))))
    ensures DeepCommand(w, true, Invoke(name, args), deep, fuel)
         == (match DeepScript(w, true, st.rest.funcs[name],
                          Deep(deep.globals, deep.scopes + [map[]], EnterCall(st.rest, args)), fuel - 1)
             case NoFuel => NoFuel
             case Leaks => Leaks
             case Ended(d) =>
               if d.st.scopes == [] then NoFuel
               else
                 Ended(Done(CallStatus(d.status, d.st.rest), false,
                            Deep(d.st.globals, Below(d.st.scopes), LeaveCall(st.rest, d.st.rest)))))
  {
  }

  lemma ReturnShows(vars: map<string, string>, locals: seq<Frame>, g: map<string, string>, scopes: seq<Frame>)
    requires Shows(vars, locals, g, scopes) && locals != []
    ensures scopes != [] && Shows(Overlay(vars, Top(locals)), Below(locals), g, Below(scopes))
  {
  }

  lemma {:induction false} SubshellFollows(w: World, body: Script, st: State, deep: Deep, fuel: nat)
    requires ShowsState(st, deep)
    ensures Follows(RunCommand(w, Subshell(body), st, fuel), DeepCommand(w, true, Subshell(body), deep, fuel))
    decreases fuel, 1, Subshell(body), 1
  {
    hide Shows, RunExitTrap, DeepExitTrap, EnterSubshell;
    var st1, deep1 := st.(rest := EnterSubshell(st.rest)), deep.(rest := EnterSubshell(deep.rest));
    ScriptFollows(w, body, st1, deep1, fuel);
    var run := DeepScript(w, true, body, deep1, fuel);
    if run.Ended? {
      var d, e := RunScript(w, body, st1, fuel).value, run.d;
      TrapFollows(w, d, e, fuel);
      var trap := DeepExitTrap(w, true, e, fuel);
      if trap.Ended? {
        var d1, e1 := RunExitTrap(w, d, fuel).value, trap.d;
        ScriptKeepsFrames(w, body, st1, fuel);
        TrapKeepsFrames(w, d, fuel);
        GrowsTransitive(st.locals, d.st.locals, d1.st.locals);
        SameDepth(st.vars, st.locals, deep.globals, deep.scopes);
        SameDepth(d1.st.vars, d1.st.locals, e1.st.globals, e1.st.scopes);
        if !NewLocal(deep.scopes, e1.st.scopes) && st.locals != [] {
          SameNames(st.vars, st.locals, deep.globals, deep.scopes);
          SameNames(d1.st.vars, d1.st.locals, e1.st.globals, e1.st.scopes);
          SameFrames(st.locals, d1.st.locals);
        }
      }
    }
  }

  lemma SameNames(vars: map<string, string>, locals: seq<Frame>, g: map<string, string>, scopes: seq<Frame>)
    requires Shows(vars, locals, g, scopes) && locals != []
    ensures scopes != [] && Top(locals).Keys == Top(scopes).Keys
  {
  }

  lemma SameFrames(a: seq<Frame>, b: seq<Frame>)
    requires Grows(a, b) && a != [] && Top(a).Keys == Top(b).Keys
    ensures a == b
  {
    assert Top(a) == Top(b);
    assert a == Below(a) + [Top(a)] && b == Below(b) + [Top(b)];
  }

  lemma {:induction false} TrapFollows(w: World, d: Done<State>, e: Done<Deep>, fuel: nat)
    requires d.status == e.status && d.exit == e.exit && ShowsState(d.st, e.st)
    ensures Follows(RunExitTrap(w, d, fuel), DeepExitTrap(w, true, e, fuel))
    decreases fuel, 0
  {
    if HasExitTrap(d.st.rest) && fuel > 0 {
      hide Shows;
      ScriptFollows(w, d.st.rest.traps["EXIT"], d.st.(rest := EnterTrap(d.status, d.st.rest)),
                    e.st.(rest := EnterTrap(e.status, e.st.rest)), fuel - 1);
    }
  }

  /** From the start of a script: the same status, and afterwards every name has the binding that scoping gives it. */
  lemma RunnerKeepsDynamicScope(w: World, cs: Script, g: map<string, string>, rest: Rest, x: string, fuel: nat)
    requires DeepScript(w, true, cs, Deep(g, [], rest), fuel).Ended?
    ensures var run, deep := RunScript(w, cs, State(g, [], rest), fuel), DeepScript(w, true, cs, Deep(g, [], rest), fuel).d;
            && run.Some? && run.value.status == deep.status && run.value.st.rest == deep.st.rest
            && Binding(run.value.st.vars, x) == Lookup(deep.st.globals, deep.st.scopes, x)
  {
    ScriptFollows(w, cs, State(g, [], rest), Deep(g, [], rest), fuel);
    var run, deep := RunScript(w, cs, State(g, [], rest), fuel), DeepScript(w, true, cs, Deep(g, [], rest), fuel).d;
    ShownIsVisible(run.value.st.vars, run.value.st.locals, deep.st.globals, deep.st.scopes);
    VisibleIsLookup(deep.st.globals, deep.st.scopes, x);
  }
}

// What exactly comes of a `local` in a subshell of a function: after the call, a name that only a
// subshell has saved is bound as scoping asks for if and only if the saved value is the one that the
// name has when the body ends.
module ScopeLeaks {
  import opened Options
  import opened Scope
  import opened ScopeFrames
  import opened ScopeDeep
  import opened ScopeClean

  // ----- the reading that drops a subshell's scope without taking notice -----

  lemma {:induction false} LenientScript(w: World, cs: Script, st: Deep, fuel: nat)
    requires !DeepScript(w, true, cs, st, fuel).Leaks?
    ensures DeepScript(w, false, cs, st, fuel) == DeepScript(w, true, cs, st, fuel)
    decreases fuel, 1, cs, 1
  {
    LenientCommands(w, cs, st.(rest := st.rest.(exitFlag := false, exitCode := 0)), 0, fuel);
  }

  lemma {:induction false} LenientCommands(w: World, cs: Script, st: Deep, status: int, fuel: nat)
    requires !DeepCommands(w, true, cs, st, status, fuel).Leaks?
    ensures DeepCommands(w, false, cs, st, status, fuel) == DeepCommands(w, true, cs, st, status, fuel)
    decreases fuel, 1, cs, 0
  {
    hide DeepCommand, MustStop, Interrupted;
    if cs != [] && !MustStop(st.rest) {
      LenientCommand(w, cs[0], st, fuel);
      var run := DeepCommand(w, true, cs[0], st, fuel);
      if run.Ended? && !MustStop(run.d.st.rest) {
        var after := run.d.st.(rest := run.d.st.rest.(lastStatus := run.d.status));
        if !Interrupted(after.rest) && !run.d.exit {
          LenientCommands(w, cs[1..], after, run.d.status, fuel);
        }
      }
    }
  }

  lemma {:induction false} LenientCommand(w: World, c: Command, st: Deep, fuel: nat)
    requires !DeepCommand(w, true, c, st, fuel).Leaks?
    ensures DeepCommand(w, false, c, st, fuel) == DeepCommand(w, true, c, st, fuel)
    decreases fuel, 1, c, 2
  {
    match c
    case Invoke(name, args) =>
      if name in st.rest.funcs && fuel > 0 {
        LenientScript(w, st.rest.funcs[name], Deep(st.globals, st.scopes + [map[]], EnterCall(st.rest, args)), fuel - 1);
      }
    case Subshell(body) =>
      var inside := st.(rest := EnterSubshell(st.rest));
      LenientScript(w, body, inside, fuel);
      var run := DeepScript(w, true, body, inside, fuel);
      if run.Ended? {
        LenientTrap(w, run.d, fuel);
      }
    case _ =>
  }

  lemma {:induction false} LenientTrap(w: World, d: Done<Deep>, fuel: nat)
    requires !DeepExitTrap(w, true, d, fuel).Leaks?
    ensures DeepExitTrap(w, false, d, fuel) == DeepExitTrap(w, true, d, fuel)
    decreases fuel, 0
  {
    if HasExitTrap(d.st.rest) && fuel > 0 {
      LenientScript(w, d.st.rest.traps["EXIT"], d.st.(rest := EnterTrap(d.status, d.st.rest)), fuel - 1);
    }
  }

  // ----- a call does not see the frames below its own -----

  predicate SameTop(a: State, b: State) {
    a.vars == b.vars && a.rest == b.rest && a.locals != [] && b.locals != [] && Top(a.locals) == Top(b.locals)
  }

  predicate SameRun(x: Option<Done<State>>, y: Option<Done<State>>) {
    match (x, y)
    case (Some(d), Some(e)) => d.status == e.status && d.exit == e.exit && SameTop(d.st, e.st)
    case (None, None) => true
    case (_, _) => false
  }

  lemma {:induction false} SameScript(w: World, cs: Script, a: State, b: State, fuel: nat)
    requires SameTop(a, b)
    ensures SameRun(RunScript(w, cs, a, fuel), RunScript(w, cs, b, fuel))
    decreases fuel, 1, cs, 1
  {
    SameCommands(w, cs, a.(rest := a.rest.(exitFlag := false, exitCode := 0)),
                 b.(rest := b.rest.(exitFlag := false, exitCode := 0)), 0, fuel);
  }

  lemma {:induction false} SameCommands(w: World, cs: Script, a: State, b: State, status: int, fuel: nat)
    requires SameTop(a, b)
    ensures SameRun(RunCommands(w, cs, a, status, fuel), RunCommands(w, cs, b, status, fuel))
    decreases fuel, 1, cs, 0
  {
    hide RunCommand, MustStop, Interrupted;
    if cs != [] && !MustStop(a.rest) {
      SameCommand(w, cs[0], a, b, fuel);
      var x := RunCommand(w, cs[0], a, fuel);
      if x.Some? {
        var d, e := x.value, RunCommand(w, cs[0], b, fuel).value;
        SameCommands(w, cs[1..], d.st.(rest := d.st.rest.(lastStatus := d.status)),
                     e.st.(rest := e.st.rest.(lastStatus := e.status)), d.status, fuel);
      }
    }
  }

  lemma {:induction false} SameCommand(w: World, c: Command, a: State, b: State, fuel: nat)
    requires SameTop(a, b)
    ensures SameRun(RunCommand(w, c, a, fuel), RunCommand(w, c, b, fuel))
    decreases fuel, 1, c, 2
  {
    match c
    case Invoke(name, args) => CallIgnoresFrames(w, name, args, a, b, fuel);
    case Subshell(body) =>
      var ia, ib := a.(rest := EnterSubshell(a.rest)), b.(rest := EnterSubshell(b.rest));
      SameScript(w, body, ia, ib, fuel);
      var x := RunScript(w, body, ia, fuel);
      if x.Some? {
        SameTrap(w, x.value, RunScript(w, body, ib, fuel).value, fuel);
      }
    case _ =>
  }

  lemma {:induction false} SameTrap(w: World, d: Done<State>, e: Done<State>, fuel: nat)
    requires d.status == e.status && d.exit == e.exit && SameTop(d.st, e.st)
    ensures SameRun(RunExitTrap(w, d, fuel), RunExitTrap(w, e, fuel))
    decreases fuel, 0
  {
    if HasExitTrap(d.st.rest) && fuel > 0 {
      SameScript(w, d.st.rest.traps["EXIT"], d.st.(rest := EnterTrap(d.status, d.st.rest)),
                 e.st.(rest := EnterTrap(e.status, e.st.rest)), fuel - 1);
    }
  }

  lemma {:induction false} CallIgnoresFrames(w: World, name: string, args: seq<string>, a: State, b: State, fuel: nat)
    requires a.vars == b.vars && a.rest == b.rest
    ensures match (RunCommand(w, Invoke(name, args), a, fuel), RunCommand(w, Invoke(name, args), b, fuel))
            case (Some(d), Some(e)) =>
              && d.status == e.status && d.exit == e.exit && d.st.vars == e.st.vars && d.st.rest == e.st.rest
              && d.st.locals == a.locals && e.st.locals == b.locals
            case (None, None) => true
            case (_, _) => false
    decreases fuel, 1, Invoke(name, args), 1
  {
    if name in a.rest.funcs && fuel > 0 {
      hide RunScript;
      var body, rest := a.rest.funcs[name], EnterCall(a.rest, args);
      var ia, ib := State(a.vars, a.locals + [map[]], rest), State(b.vars, b.locals + [map[]], rest);
      SameScript(w, body, ia, ib, fuel - 1);
      if RunScript(w, body, ia, fuel - 1).Some? {
        ScriptKeepsFrames(w, body, ia, fuel - 1);
        ScriptKeepsFrames(w, body, ib, fuel - 1);
        assert Below(ia.locals) == a.locals && Below(ib.locals) == b.locals;
      }
    }
  }

  // ----- a body whose subshells declare locals -----

  function Restrict(frame: Frame, names: set<string>): Frame { map x | x in frame && x in names :: frame[x] }

  /** The runner shows the scopes, but its innermost frame may have saved more names than the scope binds. */
  predicate Lags(st: State, deep: Deep) {
    && st.rest == deep.rest && st.locals != [] && deep.scopes != []
    && Top(deep.scopes).Keys <= Top(st.locals).Keys
    && Shows(st.vars, Below(st.locals) + [Restrict(Top(st.locals), Top(deep.scopes).Keys)], deep.globals, deep.scopes)
  }

  /** The names saved by subshells alone. */
  function Leaked(st: State, deep: Deep): set<string>
    requires st.locals != [] && deep.scopes != []
  {
    Top(st.locals).Keys - Top(deep.scopes).Keys
  }

  /** All names declared in the code, in its subshells included. */
  function Declared(cs: Script): set<string>
    decreases cs, 0
  {
    if cs == [] then {} else DeclaredBy(cs[0]) + Declared(cs[1..])
  }

  function DeclaredBy(c: Command): set<string>
    decreases c, 1
  {
    match c
    case Local(items) => Names(items)
    case Subshell(body) => Declared(body)
    case _ => {}
  }

  /** No name is declared after a subshell has declared it; functions called and traps are clean. */
  predicate Apart(cs: Script, leaked: set<string>, bad: set<string>)
    decreases cs, 0
  {
    cs == [] || (ApartCommand(cs[0], leaked, bad) && Apart(cs[1..], LeakedBy(cs[0], leaked), bad))
  }

  predicate ApartCommand(c: Command, leaked: set<string>, bad: set<string>)
    decreases c, 1
  {
    match c
    case Local(items) => Names(items) !! leaked
    case Subshell(body) => Apart(body, leaked, bad)
    case _ => CleanCommand(c, true, bad)
  }

  function LeakedBy(c: Command, leaked: set<string>): set<string> {
    if c.Subshell? then leaked + Declared(c.body) else leaked
  }

  function LeakedAfter(cs: Script, leaked: set<string>): set<string> {
    if cs == [] then leaked else LeakedAfter(cs[1..], LeakedBy(cs[0], leaked))
  }

  lemma {:induction false} LeakedGrows(cs: Script, leaked: set<string>)
    ensures leaked <= LeakedAfter(cs, leaked) <= leaked + Declared(cs)
  {
    if cs != [] { LeakedGrows(cs[1..], LeakedBy(cs[0], leaked)); }
  }

  lemma {:induction false} CleanIsApart(cs: Script, leaked: set<string>, bad: set<string>)
    requires Clean(cs, true, bad)
    ensures Apart(cs, leaked, bad) && Declared(cs) == {}
    decreases cs, 0
  {
    if cs != [] {
      CleanCommandIsApart(cs[0], leaked, bad);
      CleanIsApart(cs[1..], LeakedBy(cs[0], leaked), bad);
    }
  }

  lemma {:induction false} CleanCommandIsApart(c: Command, leaked: set<string>, bad: set<string>)
    requires CleanCommand(c, true, bad)
    ensures ApartCommand(c, leaked, bad) && DeclaredBy(c) == {}
    decreases c, 1
  {
    match c
    case Subshell(body) => CleanIsApart(body, leaked, bad);
    case _ =>
  }

  ghost predicate LagsOn(
    bad: set<string>, leaked: set<string>, declared: set<string>, before: State,
    run: Option<Done<State>>, deep: Outcome)
    requires before.locals != []
  {
    match deep
    case NoFuel => run.None?
    case Leaks => false
    case Ended(e) =>
      && run.Some? && run.value.status == e.status && run.value.exit == e.exit && Lags(run.value.st, e.st)
      && Leaked(run.value.st, e.st) <= leaked && CleanRest(e.st.rest, bad)
      && Top(run.value.st.locals).Keys <= Top(before.locals).Keys + declared
  }

  lemma {:induction false} LagScript(
    w: World, bad: set<string>, cs: Script, leaked: set<string>, st: State, deep: Deep, fuel: nat)
    requires Apart(cs, leaked, bad) && CleanRest(deep.rest, bad) && Lags(st, deep) && Leaked(st, deep) <= leaked
    ensures LagsOn(bad, LeakedAfter(cs, leaked), Declared(cs), st,
                   RunScript(w, cs, st, fuel), DeepScript(w, false, cs, deep, fuel))
    decreases fuel, 1, cs, 2
  {
    LagCommands(w, bad, cs, leaked, st.(rest := st.rest.(exitFlag := false, exitCode := 0)),
                deep.(rest := deep.rest.(exitFlag := false, exitCode := 0)), 0, fuel);
  }

  lemma LagsMore(
    bad: set<string>, leaked: set<string>, declared: set<string>, more: set<string>, all: set<string>, before: State,
    run: Option<Done<State>>, deep: Outcome)
    requires before.locals != [] && LagsOn(bad, leaked, declared, before, run, deep) && leaked <= more && declared <= all
    ensures LagsOn(bad, more, all, before, run, deep)
  {
    hide Lags, CleanRest;
  }

  /** Flags and statuses make no difference. */
  lemma LagsStill(
    bad: set<string>, leaked: set<string>, declared: set<string>, before: State,
    d: Done<State>, e: Done<Deep>, status: int, exit: bool, rest: Rest)
    requires before.locals != [] && LagsOn(bad, leaked, declared, before, Some(d), Ended(e))
    requires rest.funcs == d.st.rest.funcs && rest.traps == d.st.rest.traps
    ensures LagsOn(bad, leaked, declared, before, Some(Done(status, exit, d.st.(rest := rest))),
                   Ended(Done(status, exit, e.st.(rest := rest))))
  {
    hide Shows, Clean;
  }

  /** A later part of the script, seen from the start. */
  lemma LagsLater(
    bad: set<string>, leaked: set<string>, first: set<string>, declared: set<string>, before: State, mid: State,
    run: Option<Done<State>>, deep: Outcome)
    requires before.locals != [] && mid.locals != [] && LagsOn(bad, leaked, declared, mid, run, deep)
    requires Top(mid.locals).Keys <= Top(before.locals).Keys + first
    ensures LagsOn(bad, leaked, first + declared, before, run, deep)
  {
    hide Lags, CleanRest;
  }

  lemma ApartStep(cs: Script, leaked: set<string>, bad: set<string>)
    requires cs != [] && Apart(cs, leaked, bad)
    ensures ApartCommand(cs[0], leaked, bad) && Apart(cs[1..], LeakedBy(cs[0], leaked), bad)
    ensures LeakedAfter(cs, leaked) == LeakedAfter(cs[1..], LeakedBy(cs[0], leaked))
    ensures Declared(cs) == DeclaredBy(cs[0]) + Declared(cs[1..]) && LeakedBy(cs[0], leaked) <= LeakedAfter(cs, leaked)
  {
    LeakedGrows(cs[1..], LeakedBy(cs[0], leaked));
  }

  lemma LagsOnNothing(bad: set<string>, leaked: set<string>, more: set<string>, declared: set<string>, st: State, deep: Deep, status: int)
    requires CleanRest(deep.rest, bad) && Lags(st, deep) && Leaked(st, deep) <= leaked <= more
    ensures LagsOn(bad, more, declared, st, Some(Done(status, false, st)), Ended(Done(status, false, deep)))
  {
    hide Shows, Clean;
  }

  lemma LagsKnows(bad: set<string>, leaked: set<string>, declared: set<string>, before: State, run: Option<Done<State>>, deep: Outcome)
    requires before.locals != [] && LagsOn(bad, leaked, declared, before, run, deep)
    ensures deep.NoFuel? ==> run.None?
    ensures !deep.Leaks?
    ensures deep.Ended? ==>
              var e := deep.d;
              && run.Some? && run.value.st.rest == e.st.rest && run.value.status == e.status && run.value.exit == e.exit
              && CleanRest(e.st.rest, bad) && Lags(run.value.st, e.st) && Leaked(run.value.st, e.st) <= leaked
              && Top(run.value.st.locals).Keys <= Top(before.locals).Keys + declared
  {
    hide Shows, Clean;
  }

  lemma {:induction false} LagCommands(
    w: World, bad: set<string>, cs: Script, leaked: set<string>, st: State, deep: Deep, status: int, fuel: nat)
    requires Apart(cs, leaked, bad) && CleanRest(deep.rest, bad) && Lags(st, deep) && Leaked(st, deep) <= leaked
    ensures LagsOn(bad, LeakedAfter(cs, leaked), Declared(cs), st,
                   RunCommands(w, cs, st, status, fuel), DeepCommands(w, false, cs, deep, status, fuel))
    decreases fuel, 1, cs, 1
  {
    hide RunCommand, DeepCommand, Shows, MustStop, Interrupted, ApartCommand, DeclaredBy, LagsOn, CleanRest, Apart, LeakedAfter, Declared;
    LeakedGrows(cs, leaked);
    if cs == [] || MustStop(st.rest) {
      LagsOnNothing(bad, leaked, LeakedAfter(cs, leaked), Declared(cs), st, deep, if cs == [] then status else StopStatus(st.rest));
    } else {
      LagNext(w, bad, cs, leaked, st, deep, status, fuel);
    }
  }

  /** The first command, and what comes after it. */
  lemma {:induction false} LagNext(
    w: World, bad: set<string>, cs: Script, leaked: set<string>, st: State, deep: Deep, status: int, fuel: nat)
    requires cs != [] && !MustStop(st.rest)
    requires Apart(cs, leaked, bad) && CleanRest(deep.rest, bad) && Lags(st, deep) && Leaked(st, deep) <= leaked
    ensures LagsOn(bad, LeakedAfter(cs, leaked), Declared(cs), st,
                   RunCommands(w, cs, st, status, fuel), DeepCommands(w, false, cs, deep, status, fuel))
    decreases fuel, 1, cs, 0
  {
    hide RunCommand, DeepCommand, Shows, MustStop, Interrupted, ApartCommand, DeclaredBy, LagsOn, CleanRest, Apart, LeakedAfter, Declared;
    ApartStep(cs, leaked, bad);
    var c, more, all := cs[0], LeakedAfter(cs, leaked), Declared(cs);
    LagCommand(w, bad, c, leaked, st, deep, fuel);
    var x, y := RunCommand(w, c, st, fuel), DeepCommand(w, false, c, deep, fuel);
    LagsKnows(bad, LeakedBy(c, leaked), DeclaredBy(c), st, x, y);
    LagsMore(bad, LeakedBy(c, leaked), DeclaredBy(c), more, all, st, x, y);
    if y.Ended? {
      var d, e := x.value, y.d;
      var next := d.st.rest.(lastStatus := d.status);
      if MustStop(d.st.rest) {
        LagsStill(bad, more, all, st, d, e, StopStatus(d.st.rest), false, d.st.rest);
      } else if Interrupted(next) {
        LagsStill(bad, more, all, st, d, e, d.status, false, next);
      } else if d.exit {
        LagsStill(bad, more, all, st, d, e, d.status, false, next.(exitFlag := true, exitCode := d.status));
      } else {
        LagsStill(bad, LeakedBy(c, leaked), DeclaredBy(c), st, d, e, d.status, false, next);
        LagsKnows(bad, LeakedBy(c, leaked), DeclaredBy(c), st, Some(Done(d.status, false, d.st.(rest := next))),
                  Ended(Done(d.status, false, e.st.(rest := next))));
        var after, deeper := d.st.(rest := next), e.st.(rest := next);
        LagCommands(w, bad, cs[1..], LeakedBy(c, leaked), after, deeper, d.status, fuel);
        LagsLater(bad, more, DeclaredBy(c), Declared(cs[1..]), st, after, RunCommands(w, cs[1..], after, d.status, fuel),
                  DeepCommands(w, false, cs[1..], deeper, d.status, fuel));
      }
    }
  }

  lemma {:induction false} LagCommand(
    w: World, bad: set<string>, c: Command, leaked: set<string>, st: State, deep: Deep, fuel: nat)
    requires ApartCommand(c, leaked, bad) && CleanRest(deep.rest, bad) && Lags(st, deep) && Leaked(st, deep) <= leaked
    ensures LagsOn(bad, LeakedBy(c, leaked), DeclaredBy(c), st,
                   RunCommand(w, c, st, fuel), DeepCommand(w, false, c, deep, fuel))
    decreases fuel, 1, c, 2
  {
    hide RunCommand, DeepCommand, LagsOn;
    match c
    case Local(items) => LagDeclares(w, bad, items, leaked, st, deep, fuel);
    case Invoke(name, args) => LagCalls(w, bad, name, args, leaked, st, deep, fuel);
    case Subshell(body) => LagSubshell(w, bad, body, leaked, st, deep, fuel);
    case _ =>
      if c.Assign? || c.Unset? || c.Readonly? || c.Other? {
        LagVariables(w, bad, c, leaked, st, deep, fuel);
      } else {
        LagFixed(w, bad, c, leaked, st, deep, fuel);
      }
  }

  lemma LagVariables(
    w: World, bad: set<string>, c: Command, leaked: set<string>, st: State, deep: Deep, fuel: nat)
    requires c.Assign? || c.Unset? || c.Readonly? || c.Other?
    requires CleanRest(deep.rest, bad) && Lags(st, deep) && Leaked(st, deep) <= leaked
    ensures LagsOn(bad, leaked, {}, st, RunCommand(w, c, st, fuel), DeepCommand(w, false, c, deep, fuel))
  {
    hide RunCommand, DeepCommand, LagsOn, Lags, CleanRest;
    match c
    case Assign(name, value) => LagAssign(w, bad, name, value, leaked, st, deep, fuel);
    case Unset(name) => LagUnset(w, bad, name, leaked, st, deep, fuel);
    case Readonly(name, initial) => LagReadonly(w, bad, name, initial, leaked, st, deep, fuel);
    case Other(id) => LagOther(w, bad, id, leaked, st, deep, fuel);
  }

  lemma LagAssign(
    w: World, bad: set<string>, name: string, value: string, leaked: set<string>, st: State, deep: Deep, fuel: nat)
    requires CleanRest(deep.rest, bad) && Lags(st, deep) && Leaked(st, deep) <= leaked
    ensures LagsOn(bad, leaked, {}, st, RunCommand(w, Assign(name, value), st, fuel), DeepCommand(w, false, Assign(name, value), deep, fuel))
  {
    hide Shows, Write, Restrict;
    LagWrite(st, deep, name, Some(value));
  }

  lemma LagUnset(
    w: World, bad: set<string>, name: string, leaked: set<string>, st: State, deep: Deep, fuel: nat)
    requires CleanRest(deep.rest, bad) && Lags(st, deep) && Leaked(st, deep) <= leaked
    ensures LagsOn(bad, leaked, {}, st, RunCommand(w, Unset(name), st, fuel), DeepCommand(w, false, Unset(name), deep, fuel))
  {
    hide Shows, Write, Restrict;
    LagWrite(st, deep, name, None);
  }

  lemma LagReadonly(
    w: World, bad: set<string>, name: string, initial: Option<string>, leaked: set<string>, st: State, deep: Deep, fuel: nat)
    requires CleanRest(deep.rest, bad) && Lags(st, deep) && Leaked(st, deep) <= leaked
    ensures LagsOn(bad, leaked, {}, st, RunCommand(w, Readonly(name, initial), st, fuel), DeepCommand(w, false, Readonly(name, initial), deep, fuel))
  {
    hide Shows, Write, Restrict;
    LagWrite(st, deep, name, initial);
  }

  lemma LagOther(
    w: World, bad: set<string>, id: nat, leaked: set<string>, st: State, deep: Deep, fuel: nat)
    requires CleanRest(deep.rest, bad) && Lags(st, deep) && Leaked(st, deep) <= leaked
    ensures LagsOn(bad, leaked, {}, st, RunCommand(w, Other(id), st, fuel), DeepCommand(w, false, Other(id), deep, fuel))
  {
    hide Shows, Write, Restrict;
    LagVisible(st, deep);
  }

  lemma LagFixed(
    w: World, bad: set<string>, c: Command, leaked: set<string>, st: State, deep: Deep, fuel: nat)
    requires (c.Define? || c.Trap? || c.Untrap? || c.Return? || c.Exit?) && CleanCommand(c, true, bad)
    requires CleanRest(deep.rest, bad) && Lags(st, deep) && Leaked(st, deep) <= leaked
    ensures LagsOn(bad, leaked, {}, st, RunCommand(w, c, st, fuel), DeepCommand(w, false, c, deep, fuel))
  {
    hide Shows;
  }

  lemma LagDeclares(
    w: World, bad: set<string>, items: seq<Declaration>, leaked: set<string>, st: State, deep: Deep, fuel: nat)
    requires Names(items) !! leaked
    requires CleanRest(deep.rest, bad) && Lags(st, deep) && Leaked(st, deep) <= leaked
    ensures LagsOn(bad, leaked, Names(items), st,
                   RunCommand(w, Local(items), st, fuel), DeepCommand(w, false, Local(items), deep, fuel))
  {
    hide Shows;
    LagLocal(st, deep, items);
  }

  lemma LagCalls(
    w: World, bad: set<string>, name: string, args: seq<string>, leaked: set<string>, st: State, deep: Deep, fuel: nat)
    requires name !in bad && CleanRest(deep.rest, bad) && Lags(st, deep) && Leaked(st, deep) <= leaked
    ensures LagsOn(bad, leaked, {}, st,
                   RunCommand(w, Invoke(name, args), st, fuel), DeepCommand(w, false, Invoke(name, args), deep, fuel))
  {
    hide RunCommand, DeepCommand, Shows, CleanRest;
    LagInvoke(w, bad, name, args, st, deep, fuel);
  }

  lemma LagVisible(st: State, deep: Deep)
    requires Lags(st, deep)
    ensures st.vars == Visible(deep.globals, deep.scopes)
  {
    ShownIsVisible(st.vars, Below(st.locals) + [Restrict(Top(st.locals), Top(deep.scopes).Keys)],
                   deep.globals, deep.scopes);
  }

  lemma LagWrite(st: State, deep: Deep, x: string, v: Option<string>)
    requires Lags(st, deep)
    ensures var st', deep' := st.(vars := Put(st.vars, x, v)), Written(deep, x, v);
            Lags(st', deep') && Leaked(st', deep') == Leaked(st, deep)
  {
    hide Shows;
    WriteShows(st.vars, Below(st.locals) + [Restrict(Top(st.locals), Top(deep.scopes).Keys)],
               deep.globals, deep.scopes, x, v);
    WriteKeepsTop(deep.globals, deep.scopes, x, v);
  }

  lemma WriteKeepsTop(g: map<string, string>, scopes: seq<Frame>, x: string, v: Option<string>)
    requires scopes != []
    ensures var scopes' := Write(g, scopes, x, v).1; scopes' != [] && Top(scopes').Keys == Top(scopes).Keys
  {
  }

  lemma LagLocal(st: State, deep: Deep, items: seq<Declaration>)
    requires Lags(st, deep) && Names(items) !! Leaked(st, deep)
    ensures var (vars, frame) := DeclareAll(st.vars, Top(st.locals), items);
            var st' := st.(vars := vars, locals := Below(st.locals) + [frame]);
            var deep' := deep.(scopes := Below(deep.scopes) + [BindAll(Top(deep.scopes), items)]);
            && Lags(st', deep') && Leaked(st', deep') == Leaked(st, deep)
            && frame.Keys == Top(st.locals).Keys + Names(items)
  {
    hide Shows;
    var full, names := Top(st.locals), Top(deep.scopes).Keys;
    var locals := Below(st.locals) + [Restrict(full, names)];
    DeclareAllShows(st.vars, locals, deep.globals, deep.scopes, items);
    DeclareRestricted(st.vars, full, names, items);
    DeclareAllSaves(st.vars, full, items);
    BindAllKeys(Top(deep.scopes), items);
    var frame := DeclareAll(st.vars, full, items).1;
    assert Below(Below(st.locals) + [frame]) == Below(st.locals) && Below(locals) == Below(st.locals);
    assert Top(Below(st.locals) + [frame]) == frame;
    assert Top(Below(deep.scopes) + [BindAll(Top(deep.scopes), items)]) == BindAll(Top(deep.scopes), items);
  }

  lemma {:induction false} BindAllKeys(scope: Frame, items: seq<Declaration>)
    ensures BindAll(scope, items).Keys == scope.Keys + Names(items)
    decreases |items|
  {
    if items != [] {
      BindAllKeys(Bind(scope, items[0]), items[1..]);
      NamesSplit(items);
    }
  }

  /** Names the frame has saved besides make no difference to the declaration of others. */
  lemma {:induction false} DeclareRestricted(
    vars: map<string, string>, frame: Frame, names: set<string>, items: seq<Declaration>)
    requires names <= frame.Keys && Names(items) !! (frame.Keys - names)
    ensures var (v1, f1) := DeclareAll(vars, frame, items);
            var (v2, f2) := DeclareAll(vars, Restrict(frame, names), items);
            v1 == v2 && f2 == Restrict(f1, names + Names(items))
    decreases |items|
  {
    if items != [] {
      NamesSplit(items);
      var d := items[0];
      var (vars1, frame1) := Declare(vars, frame, d);
      DeclareRestrictedOne(vars, frame, names, d);
      DeclareRestricted(vars1, frame1, names + {d.name}, items[1..]);
      assert names + {d.name} + Names(items[1..]) == names + Names(items);
    } else {
      assert Restrict(frame, names + Names(items)) == Restrict(frame, names);
    }
  }

  lemma DeclareRestrictedOne(vars: map<string, string>, frame: Frame, names: set<string>, d: Declaration)
    requires names <= frame.Keys && d.name !in frame.Keys - names
    ensures var (v1, f1) := Declare(vars, frame, d);
            var (v2, f2) := Declare(vars, Restrict(frame, names), d);
            v1 == v2 && f2 == Restrict(f1, names + {d.name}) && f1.Keys == frame.Keys + {d.name}
  {
  }

  lemma {:induction false} LagInvoke(
    w: World, bad: set<string>, name: string, args: seq<string>, st: State, deep: Deep, fuel: nat)
    requires name !in bad && CleanRest(deep.rest, bad) && Lags(st, deep)
    ensures var run, end := RunCommand(w, Invoke(name, args), st, fuel), DeepCommand(w, false, Invoke(name, args), deep, fuel);
            LagsOn(bad, Leaked(st, deep), {}, st, run, end)
  {
    hide RunCommand, DeepCommand, Shows;
    var names := Top(deep.scopes).Keys;
    var locals := Below(st.locals) + [Restrict(Top(st.locals), names)];
    var own := st.(locals := locals);
    CommandFollows(w, Invoke(name, args), own, deep, fuel);
    CleanStep(w, bad, Invoke(name, args), true, deep, fuel);
    LenientCommand(w, Invoke(name, args), deep, fuel);
    CallIgnoresFrames(w, name, args, st, own, fuel);
    var end := DeepCommand(w, true, Invoke(name, args), deep, fuel);
    if end.Ended? {
      var run := RunCommand(w, Invoke(name, args), own, fuel).value;
      SameNames(run.st.vars, run.st.locals, end.d.st.globals, end.d.st.scopes);
      assert Top(locals).Keys == names;
    }
  }

  lemma {:induction false} LagSubshell(
    w: World, bad: set<string>, body: Script, leaked: set<string>, st: State, deep: Deep, fuel: nat)
    requires Apart(body, leaked, bad) && CleanRest(deep.rest, bad) && Lags(st, deep) && Leaked(st, deep) <= leaked
    ensures LagsOn(bad, leaked + Declared(body), Declared(body), st,
                   RunCommand(w, Subshell(body), st, fuel), DeepCommand(w, false, Subshell(body), deep, fuel))
    decreases fuel, 1, Subshell(body), 1
  {
    hide Shows, Declared, Apart, RunScript, DeepScript, RunExitTrap, DeepExitTrap;
    var ist, ideep := st.(rest := EnterSubshell(st.rest)), deep.(rest := EnterSubshell(deep.rest));
    CleanInside(deep.rest, bad);
    LagScript(w, bad, body, leaked, ist, ideep, fuel);
    var run := DeepScript(w, false, body, ideep, fuel);
    if run.Ended? {
      var d := RunScript(w, body, ist, fuel).value;
      LagTrap(w, bad, LeakedAfter(body, leaked), d, run.d, fuel);
      var trap := DeepExitTrap(w, false, run.d, fuel);
      if trap.Ended? {
        var e := RunExitTrap(w, d, fuel).value;
        ScriptKeepsFrames(w, body, ist, fuel);
        TrapKeepsFrames(w, d, fuel);
        GrowsTransitive(st.locals, d.st.locals, e.st.locals);
        GrownRestricts(st.locals, e.st.locals, Top(deep.scopes).Keys);
        CleanOutside(deep.rest, trap.d.st.rest, bad);
      }
    }
  }

  lemma CleanInside(r: Rest, bad: set<string>)
    requires CleanRest(r, bad)
    ensures CleanRest(EnterSubshell(r), bad)
  {
  }

  lemma CleanOutside(before: Rest, r: Rest, bad: set<string>)
    requires CleanRest(before, bad)
    ensures CleanRest(LeaveSubshell(before, r), bad)
  {
  }

  lemma GrownRestricts(a: seq<Frame>, b: seq<Frame>, names: set<string>)
    requires Grows(a, b) && a != [] && names <= Top(a).Keys
    ensures b != [] && names <= Top(b).Keys
    ensures Below(b) + [Restrict(Top(b), names)] == Below(a) + [Restrict(Top(a), names)]
  {
    assert Restrict(Top(b), names) == Restrict(Top(a), names);
  }

  lemma {:induction false} LagTrap(
    w: World, bad: set<string>, leaked: set<string>, d: Done<State>, e: Done<Deep>, fuel: nat)
    requires d.status == e.status && d.exit == e.exit && Lags(d.st, e.st) && Leaked(d.st, e.st) <= leaked
    requires CleanRest(e.st.rest, bad)
    ensures LagsOn(bad, leaked, {}, d.st, RunExitTrap(w, d, fuel), DeepExitTrap(w, false, e, fuel))
    decreases fuel, 0
  {
    hide Shows;
    if HasExitTrap(d.st.rest) && fuel > 0 {
      var action := d.st.rest.traps["EXIT"];
      CleanIsApart(action, leaked, bad);
      LeakedGrows(action, leaked);
      LagScript(w, bad, action, leaked, d.st.(rest := EnterTrap(d.status, d.st.rest)),
                e.st.(rest := EnterTrap(e.status, e.st.rest)), fuel - 1);
    }
  }

  // ----- after the call -----

  /** Where the body of the function ends, as the runner has it and as scoping has it. */
  function BodyEnd(w: World, name: string, args: seq<string>, st: State, fuel: nat): Option<Done<State>>
    requires name in st.rest.funcs && fuel > 0
  {
    RunScript(w, st.rest.funcs[name], State(st.vars, st.locals + [map[]], EnterCall(st.rest, args)), fuel - 1)
  }

  function DeepBodyEnd(w: World, name: string, args: seq<string>, deep: Deep, fuel: nat): Outcome
    requires name in deep.rest.funcs && fuel > 0
  {
    DeepScript(w, false, deep.rest.funcs[name],
               Deep(deep.globals, deep.scopes + [map[]], EnterCall(deep.rest, args)), fuel - 1)
  }

  /** The name is saved in the function's frame, although the function has no local of that name. */
  predicate SavedBySubshell(body: State, deep: Deep, x: string) {
    body.locals != [] && deep.scopes != [] && x in Top(body.locals) && x !in Top(deep.scopes)
  }

  /**
   * After the call of a function whose subshells declare locals, every name is bound as scoping asks
   * for, except exactly the names that only a subshell has saved with another value than they have
   * at the end of the body.
   */
  lemma LeakIsExact(
    w: World, bad: set<string>, name: string, args: seq<string>, st: State, deep: Deep, fuel: nat, x: string)
    requires ShowsState(st, deep) && name in st.rest.funcs && fuel > 0
    requires CleanRest(st.rest, bad) && Apart(st.rest.funcs[name], {}, bad)
    requires RunCommand(w, Invoke(name, args), st, fuel).Some?
    ensures var after, scoped := RunCommand(w, Invoke(name, args), st, fuel).value,
                                 DeepCommand(w, false, Invoke(name, args), deep, fuel);
            var body, inner := BodyEnd(w, name, args, st, fuel), DeepBodyEnd(w, name, args, deep, fuel);
            && scoped.Ended? && after.status == scoped.d.status && after.st.rest == scoped.d.st.rest
            && body.Some? && inner.Ended?
            && (Binding(after.st.vars, x) == Lookup(scoped.d.st.globals, scoped.d.st.scopes, x)
                <==> (SavedBySubshell(body.value.st, inner.d.st, x) ==>
                        Top(body.value.st.locals)[x] == Binding(body.value.st.vars, x)))
  {
    hide Shows, RunScript, DeepScript, Overlay;
    var ist := State(st.vars, st.locals + [map[]], EnterCall(st.rest, args));
    var ideep := Deep(deep.globals, deep.scopes + [map[]], EnterCall(deep.rest, args));
    CallShows(st.vars, st.locals, deep.globals, deep.scopes);
    assert Below(ist.locals) + [Restrict(map[], {})] == ist.locals;
    LagScript(w, bad, st.rest.funcs[name], {}, ist, ideep, fuel - 1);
    var body, inner := BodyEnd(w, name, args, st, fuel), DeepBodyEnd(w, name, args, deep, fuel);
    if inner.Ended? {
      LagReturns(body.value.st, inner.d.st, x);
    }
  }

  lemma LagReturns(st: State, deep: Deep, x: string)
    requires Lags(st, deep)
    ensures Binding(Overlay(st.vars, Top(st.locals)), x) == Lookup(deep.globals, Below(deep.scopes), x)
       <==> (SavedBySubshell(st, deep, x) ==> Top(st.locals)[x] == Binding(st.vars, x))
  {
    hide Overlay, Lookup, Restrict;
    LagDrops(st, deep, x);
    OverlayAt(st.vars, Top(st.locals), x);
    OverlayAt(st.vars, Restrict(Top(st.locals), Top(deep.scopes).Keys), x);
    RestrictAt(Top(st.locals), Top(deep.scopes).Keys, x);
  }

  lemma LagDrops(st: State, deep: Deep, x: string)
    requires Lags(st, deep)
    ensures Binding(Overlay(st.vars, Restrict(Top(st.locals), Top(deep.scopes).Keys)), x)
         == Lookup(deep.globals, Below(deep.scopes), x)
  {
    hide Shows, Overlay, Lookup, Visible, Restrict;
    var own := Restrict(Top(st.locals), Top(deep.scopes).Keys);
    PopShows(st.vars, Below(st.locals), own, deep.globals, deep.scopes);
    ShownIsVisible(Overlay(st.vars, own), Below(st.locals), deep.globals, Below(deep.scopes));
    VisibleIsLookup(deep.globals, Below(deep.scopes), x);
  }

  lemma PopShows(vars: map<string, string>, below: seq<Frame>, top: Frame, g: map<string, string>, scopes: seq<Frame>)
    requires Shows(vars, below + [top], g, scopes)
    ensures scopes != [] && Shows(Overlay(vars, top), below, g, Below(scopes))
  {
    hide Shows, Overlay;
    var locals := below + [top];
    assert Below(locals) == below && Top(locals) == top;
    ReturnShows(vars, locals, g, scopes);
  }

  lemma OverlayAt(vars: map<string, string>, frame: Frame, x: string)
    ensures Binding(Overlay(vars, frame), x) == if x in frame then frame[x] else Binding(vars, x)
  {
  }

  lemma RestrictAt(frame: Frame, names: set<string>, x: string)
    ensures x in Restrict(frame, names) <==> x in frame && x in names
    ensures x in Restrict(frame, names) ==> Restrict(frame, names)[x] == frame[x]
  {
  }
}

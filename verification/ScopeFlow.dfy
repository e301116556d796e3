// What commands, functions, subshells and their EXIT traps do to the control flow and to everything but the
// variables, told without flags: a script goes on, returns or exits. The runner's flags say the same.
module ScopeFlow {
  import opened Options
  import opened Scope

  datatype Flow = Going(status: int) | Returning(code: int) | Exiting(code: int)

  /** The shell: `trap` holds the status that an EXIT trap was entered with, while it runs. */
  datatype Shell = Shell(
    vars: map<string, string>, locals: seq<Frame>, readonly: set<string>, funcs: map<string, Script>,
    traps: map<string, Script>, settings: Settings, last: int, trap: Option<int>)

  datatype Meant = Meant(flow: Flow, sh: Shell)

  /** The status a `return` or `exit` without a number stands for. */
  function Code(code: Option<int>, sh: Shell): int {
    match code
    case Some(n) => n
    case None => if sh.trap.Some? then sh.trap.value else sh.last
  }

  function StatusOf(flow: Flow): int {
    match flow
    case Going(s) => s
    case Returning(c) => c
    case Exiting(c) => c
  }

  /** A pending `break` or `continue` ends the list. */
  predicate Pending(c: Counters) { c.breakCount != 0 || c.continueCount != 0 }

  function Means(w: World, cs: Script, sh: Shell, status: int, fuel: nat): Option<Meant>
    decreases fuel, 1, cs, 0
  {
    if cs == [] then Some(Meant(Going(status), sh))
    else
      match MeansOne(w, cs[0], sh, fuel)
      case None => None
      case Some(m) =>
        match m.flow
        case Going(s) =>
          var next := m.sh.(last := s);
          if Pending(next.settings.counters) then Some(Meant(Going(s), next)) else Means(w, cs[1..], next, s, fuel)
        case _ => Some(m)
  }

  function MeansOne(w: World, c: Command, sh: Shell, fuel: nat): Option<Meant>
    decreases fuel, 1, c, 2
  {
    match c
    case Assign(name, value) =>
      if name in sh.readonly then Some(Meant(Exiting(2), sh)) else Some(Meant(Going(0), sh.(vars := sh.vars[name := value])))
    case Unset(name) =>
      if name in sh.readonly then Some(Meant(Going(0), sh))
      else
        var s := sh.settings.(exported := sh.settings.exported - {name}, aliases := sh.settings.aliases - {name});
        Some(Meant(Going(0), sh.(vars := sh.vars - {name}, funcs := sh.funcs - {name}, settings := s)))
    case Readonly(name, initial) =>
      if name in sh.readonly then Some(Meant(Going(0), sh))
      else
        var vars := match initial case Some(v) => sh.vars[name := v] case None => sh.vars;
        Some(Meant(Going(0), sh.(vars := vars, readonly := sh.readonly + {name})))
    case Local(items) =>
      if sh.locals == [] then Some(Meant(Going(2), sh))
      else
        var (vars, frame) := DeclareAll(sh.vars, Top(sh.locals), items);
        Some(Meant(Going(0), sh.(vars := vars, locals := Below(sh.locals) + [frame])))
    case Define(name, body) => Some(Meant(Going(0), sh.(funcs := sh.funcs[name := body])))
    case Trap(signal, action) => Some(Meant(Going(0), sh.(traps := sh.traps[signal := action])))
    case Untrap(signal) => Some(Meant(Going(0), sh.(traps := sh.traps - {signal})))
    case Return(code) => Some(Meant(Returning(Code(code, sh)), sh))
    case Exit(code) => Some(Meant(Exiting(Code(code, sh)), sh))
    case Invoke(name, args) =>
      if name !in sh.funcs then Some(Meant(Going(w.spawn(name, args, sh.vars)), sh))
      else if fuel == 0 then None
      else
        var inside := sh.(locals := sh.locals + [map[]], settings := sh.settings.(positional := args));
        (match Means(w, sh.funcs[name], inside, 0, fuel - 1)
         case None => None
         case Some(m) => Returned(sh, m))
    case Subshell(body) =>
      (match Means(w, body, Forked(sh), 0, fuel)
       case None => None
       case Some(m) =>
         match AtExit(w, m, fuel)
         case None => None
         case Some(e) => Some(Meant(Going(StatusOf(e.flow)), sh.(readonly := e.sh.readonly, locals := e.sh.locals))))
    case Other(id) =>
      var (settings, status) := w.act(id, sh.vars, sh.settings);
      Some(Meant(Going(status), sh.(settings := settings)))
  }

  /** Back from a function: its locals and arguments go, `return` ends here, `exit` does not. */
  function Returned(before: Shell, m: Meant): Option<Meant> {
    if m.sh.locals == [] then None
    else
      var after := m.sh.(vars := Overlay(m.sh.vars, Top(m.sh.locals)), locals := Below(m.sh.locals),
                         settings := m.sh.settings.(positional := before.settings.positional));
      Some(Meant(if m.flow.Exiting? then m.flow else Going(StatusOf(m.flow)), after))
  }

  /** A subshell starts with ignored signals only, no jobs, no loops around it and status 0. */
  function Forked(sh: Shell): Shell {
    sh.(traps := map signal | signal in sh.traps && sh.traps[signal] == [] :: [],
        settings := sh.settings.(jobs := map[], counters := Counters([], 1, 0, 0, 0, 0, 0)), last := 0)
  }

  /** The EXIT trap of a subshell, unless a `return` ended it: it sees the status, and only its own `exit` changes it. */
  function AtExit(w: World, m: Meant, fuel: nat): Option<Meant>
    decreases fuel, 0
  {
    if "EXIT" !in m.sh.traps || m.sh.traps["EXIT"] == [] then Some(m)
    else if fuel == 0 then None
    else if m.flow.Returning? then Some(m)
    else
      var status := StatusOf(m.flow);
      match Means(w, m.sh.traps["EXIT"], m.sh.(last := status, trap := Some(status)), 0, fuel - 1)
      case None => None
      case Some(t) => Some(Meant(if t.flow.Exiting? then t.flow else Going(status), t.sh))
  }

  // ----- the flags say the same -----

  /** The runner's state and the shell agree on everything but the flags. */
  predicate Same(st: State, sh: Shell) {
    && st.vars == sh.vars && st.locals == sh.locals && st.rest.readonly == sh.readonly && st.rest.funcs == sh.funcs
    && st.rest.traps == sh.traps && st.rest.settings == sh.settings && st.rest.lastStatus == sh.last
    && (if st.rest.inTrap then sh.trap == Some(st.rest.trapStatus) else sh.trap == None)
  }

  predicate Flags(r: Rest, flow: Flow) {
    match flow
    case Going(_) => !r.returnFlag && !r.exitFlag
    case Returning(c) => r.returnFlag && !r.exitFlag && r.returnCode == c
    case Exiting(c) => !r.returnFlag && r.exitFlag && r.exitCode == c
  }

  predicate Says(run: Option<Done<State>>, m: Option<Meant>) {
    match (run, m)
    case (Some(d), Some(e)) => d.status == StatusOf(e.flow) && Flags(d.st.rest, e.flow) && Same(d.st, e.sh) && (d.exit ==> !e.flow.Going?)
    case (None, None) => true
    case (_, _) => false
  }

  predicate Unflagged(st: State) { !st.rest.returnFlag && !st.rest.exitFlag }

  /** A trap's marks, which scripts leave alone. */
  predicate SameTrap(a: Rest, b: Rest) { a.inTrap == b.inTrap && a.trapStatus == b.trapStatus }

  lemma {:induction false} KeepsTrapMarks(w: World, cs: Script, st: State, fuel: nat)
    ensures RunScript(w, cs, st, fuel).Some? ==> SameTrap(RunScript(w, cs, st, fuel).value.st.rest, st.rest)
    decreases fuel, 1, cs, 1
  {
    CommandsKeepTrapMarks(w, cs, st.(rest := st.rest.(exitFlag := false, exitCode := 0)), 0, fuel);
  }

  lemma {:induction false} CommandsKeepTrapMarks(w: World, cs: Script, st: State, status: int, fuel: nat)
    ensures RunCommands(w, cs, st, status, fuel).Some? ==> SameTrap(RunCommands(w, cs, st, status, fuel).value.st.rest, st.rest)
    decreases fuel, 1, cs, 0
  {
    hide RunCommand, MustStop, Interrupted;
    if cs != [] {
      CommandKeepsTrapMarks(w, cs[0], st, fuel);
      if RunCommand(w, cs[0], st, fuel).Some? {
        var d := RunCommand(w, cs[0], st, fuel).value;
        CommandsKeepTrapMarks(w, cs[1..], d.st.(rest := d.st.rest.(lastStatus := d.status)), d.status, fuel);
      }
    }
  }

  lemma {:induction false} CommandKeepsTrapMarks(w: World, c: Command, st: State, fuel: nat)
    ensures RunCommand(w, c, st, fuel).Some? ==> SameTrap(RunCommand(w, c, st, fuel).value.st.rest, st.rest)
    decreases fuel, 1, c, 2
  {
    hide RunScript, RunExitTrap;
    match c
    case Invoke(name, args) =>
      if name in st.rest.funcs && fuel > 0 {
        KeepsTrapMarks(w, st.rest.funcs[name], State(st.vars, st.locals + [map[]], EnterCall(st.rest, args)), fuel - 1);
      }
    case Subshell(body) =>
      var inside := st.(rest := EnterSubshell(st.rest));
      KeepsTrapMarks(w, body, inside, fuel);
      if RunScript(w, body, inside, fuel).Some? {
        ExitTrapKeepsMarks(w, RunScript(w, body, inside, fuel).value, fuel);
      }
    case _ =>
  }

  lemma ExitTrapKeepsMarks(w: World, d: Done<State>, fuel: nat)
    ensures RunExitTrap(w, d, fuel).Some? ==> SameTrap(RunExitTrap(w, d, fuel).value.st.rest, d.st.rest)
  {
    hide RunScript;
  }

  lemma {:induction false} ScriptSays(w: World, cs: Script, st: State, sh: Shell, fuel: nat)
    requires Same(st, sh) && Unflagged(st)
    ensures Says(RunScript(w, cs, st, fuel), Means(w, cs, sh, 0, fuel))
    decreases fuel, 1, cs, 1
  {
    CommandsSay(w, cs, st.(rest := st.rest.(exitFlag := false, exitCode := 0)), sh, 0, fuel);
  }

  lemma {:induction false} CommandsSay(w: World, cs: Script, st: State, sh: Shell, status: int, fuel: nat)
    requires Same(st, sh) && Unflagged(st)
    ensures Says(RunCommands(w, cs, st, status, fuel), Means(w, cs, sh, status, fuel))
    decreases fuel, 1, cs, 0
  {
    hide RunCommand, MeansOne;
    if cs != [] {
      OneSays(w, cs[0], st, sh, fuel);
      var x, y := RunCommand(w, cs[0], st, fuel), MeansOne(w, cs[0], sh, fuel);
      if y.Some? && y.value.flow.Going? {
        var d := x.value;
        CommandsSay(w, cs[1..], d.st.(rest := d.st.rest.(lastStatus := d.status)), y.value.sh.(last := d.status), d.status, fuel);
      }
    }
  }

  lemma {:induction false} OneSays(w: World, c: Command, st: State, sh: Shell, fuel: nat)
    requires Same(st, sh) && Unflagged(st)
    ensures Says(RunCommand(w, c, st, fuel), MeansOne(w, c, sh, fuel))
    decreases fuel, 1, c, 2
  {
    match c
    case Invoke(name, args) => CallSays(w, name, args, st, sh, fuel);
    case Subshell(body) => SubshellSays(w, body, st, sh, fuel);
    case _ =>
  }

  lemma {:induction false} CallSays(w: World, name: string, args: seq<string>, st: State, sh: Shell, fuel: nat)
    requires Same(st, sh) && Unflagged(st)
    ensures Says(RunCommand(w, Invoke(name, args), st, fuel), MeansOne(w, Invoke(name, args), sh, fuel))
    decreases fuel, 1, Invoke(name, args), 1
  {
    if name in st.rest.funcs && fuel > 0 {
      hide RunScript, Means, Overlay;
      ScriptSays(w, st.rest.funcs[name], State(st.vars, st.locals + [map[]], EnterCall(st.rest, args)),
                 sh.(locals := sh.locals + [map[]], settings := sh.settings.(positional := args)), fuel - 1);
    }
  }

  lemma {:induction false} SubshellSays(w: World, body: Script, st: State, sh: Shell, fuel: nat)
    requires Same(st, sh) && Unflagged(st)
    ensures Says(RunCommand(w, Subshell(body), st, fuel), MeansOne(w, Subshell(body), sh, fuel))
    decreases fuel, 1, Subshell(body), 1
  {
    hide RunScript, RunExitTrap, Means, AtExit;
    var inside := st.(rest := EnterSubshell(st.rest));
    ScriptSays(w, body, inside, Forked(sh), fuel);
    var x, y := RunScript(w, body, inside, fuel), Means(w, body, Forked(sh), 0, fuel);
    if y.Some? {
      KeepsTrapMarks(w, body, inside, fuel);
      ExitTrapKeepsMarks(w, x.value, fuel);
      AtExitSays(w, x.value, y.value, fuel);
    }
  }

  lemma {:induction false} AtExitSays(w: World, d: Done<State>, m: Meant, fuel: nat)
    requires d.status == StatusOf(m.flow) && Flags(d.st.rest, m.flow) && Same(d.st, m.sh)
    ensures var x, y := RunExitTrap(w, d, fuel), AtExit(w, m, fuel);
            && (x.Some? <==> y.Some?)
            && (x.Some? ==> x.value.status == StatusOf(y.value.flow) && x.value.st.locals == y.value.sh.locals
                            && x.value.st.rest.readonly == y.value.sh.readonly)
    decreases fuel, 0
  {
    if HasExitTrap(d.st.rest) && fuel > 0 {
      var trap, inside := d.st.rest.traps["EXIT"], d.st.(rest := EnterTrap(d.status, d.st.rest));
      var status := StatusOf(m.flow);
      hide RunScript, Means;
      if m.flow.Returning? {
        StopsAtOnce(w, trap, inside, fuel - 1);
      } else {
        ScriptSays(w, trap, inside, m.sh.(last := status, trap := Some(status)), fuel - 1);
      }
    }
  }

  /** A script that starts with a `return` pending does nothing. */
  lemma StopsAtOnce(w: World, cs: Script, st: State, fuel: nat)
    requires st.rest.returnFlag && cs != []
    ensures RunScript(w, cs, st, fuel)
         == Some(Done(st.rest.returnCode, false, st.(rest := st.rest.(exitFlag := false, exitCode := 0))))
  {
  }

  /** From a fresh start: the runner's flags, status and state say what the script means. */
  lemma FlagsSayTheFlow(w: World, cs: Script, st: State, sh: Shell, fuel: nat)
    requires Same(st, sh) && Unflagged(st)
    ensures var x, y := RunScript(w, cs, st, fuel), Means(w, cs, sh, 0, fuel);
            && (x.Some? <==> y.Some?)
            && (x.Some? ==>
                  var d, m := x.value, y.value;
                  && d.status == StatusOf(m.flow) && Same(d.st, m.sh)
                  && (d.st.rest.returnFlag <==> m.flow.Returning?) && (d.st.rest.exitFlag <==> m.flow.Exiting?))
  {
    ScriptSays(w, cs, st, sh, fuel);
    hide RunScript, Means, Same;
  }

  // ----- a subshell that a `return` ends -----

  /** A subshell that sets an EXIT trap with `exit 5` and then leaves. */
  function Leaving(how: Command): Command { Subshell([Trap("EXIT", [Exit(Some(5))]), how]) }

  lemma LeavingMeans(w: World, how: Command, sh: Shell, fuel: nat)
    requires fuel > 0 && (how == Return(Some(3)) || how == Exit(Some(3)))
    ensures MeansOne(w, Leaving(how), sh, fuel).Some?
    ensures MeansOne(w, Leaving(how), sh, fuel).value.flow == Going(if how.Exit? then 5 else 3)
  {
    var body := [Trap("EXIT", [Exit(Some(5))]), how];
    assert body[1..] == [how] && [how][1..] == [];
    var inside := Forked(sh);
    var set_ := inside.(traps := inside.traps["EXIT" := [Exit(Some(5))]], last := 0);
    assert Means(w, [how], set_, 0, fuel) == MeansOne(w, how, set_, fuel);
    assert Means(w, body, inside, 0, fuel) == MeansOne(w, how, set_, fuel);
    var m := MeansOne(w, how, set_, fuel).value;
    var there := m.sh.(last := 3, trap := Some(3));
    assert Means(w, [Exit(Some(5))], there, 0, fuel - 1) == Some(Meant(Exiting(5), there));
  }

  /** Left by `exit 3` its EXIT trap runs, and makes the status 5; left by `return 3` it does not. */
  lemma ReturnSkipsTheTrap(w: World, st: State, sh: Shell, fuel: nat)
    requires Same(st, sh) && Unflagged(st) && fuel > 0
    ensures var x, y := RunCommand(w, Leaving(Exit(Some(3))), st, fuel), RunCommand(w, Leaving(Return(Some(3))), st, fuel);
            x.Some? && x.value.status == 5 && y.Some? && y.value.status == 3
  {
    hide RunCommand, MeansOne, Same;
    LeavingMeans(w, Exit(Some(3)), sh, fuel);
    LeavingMeans(w, Return(Some(3)), sh, fuel);
    OneSays(w, Leaving(Exit(Some(3))), st, sh, fuel);
    OneSays(w, Leaving(Return(Some(3))), st, sh, fuel);
  }
}

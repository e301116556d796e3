// Shell variables, functions and subshells. The runner keeps one table of variables; `local` saves
// what it overwrites in the frame of the running function, and the return puts it back.
module Scope {
  import opened Options

  type Script = seq<Command>

  /** `name=value`, or a bare name. */
  datatype Declaration = Declaration(name: string, value: Option<string>)

  datatype Command =
    | Assign(name: string, value: string)
    | Unset(name: string)
    | Readonly(name: string, initial: Option<string>)
    | Local(items: seq<Declaration>)
    | Define(name: string, body: Script)
    | Invoke(name: string, args: seq<string>)
    | Subshell(body: Script)
    | Trap(signal: string, action: Script)
    | Untrap(signal: string)
    | Return(code: Option<int>)
    | Exit(code: Option<int>)
    | Other(id: nat)

  datatype Counters = Counters(
    jobOrder: seq<int>, nextJobID: int, lastBgPid: int, getoptsPos: int,
    breakCount: nat, continueCount: nat, loopDepth: nat)

  datatype Settings = Settings(
    exported: map<string, bool>, aliases: map<string, string>, options: map<string, bool>,
    positional: seq<string>, jobs: map<int, int>, counters: Counters)

  /** Everything but the variables and their frames. */
  datatype Rest = Rest(
    readonly: set<string>, funcs: map<string, Script>, traps: map<string, Script>, settings: Settings,
    lastStatus: int, returnFlag: bool, returnCode: int, exitFlag: bool, exitCode: int, inTrap: bool, trapStatus: int)

  type Frame = map<string, Option<string>>

  datatype State = State(vars: map<string, string>, locals: seq<Frame>, rest: Rest)

  /** All other commands: what they do to the settings, and the status of programs that are not functions. */
  datatype World = World(
    act: (nat, map<string, string>, Settings) -> (Settings, int),
    spawn: (string, seq<string>, map<string, string>) -> int)

  /** A status, whether the list of commands must end, and the state reached. */
  datatype Done<S> = Done(status: int, exit: bool, st: S)

  // ----- what calls and subshells do besides the variables -----

  function StatusOf(code: Option<int>, r: Rest): int {
    if code.Some? then code.value else if r.inTrap then r.trapStatus else r.lastStatus
  }

  function EnterCall(r: Rest, args: seq<string>): Rest {
    r.(settings := r.settings.(positional := args), returnFlag := false, returnCode := 0)
  }

  /** The caller's flags and arguments again; `exit` alone goes on. */
  function LeaveCall(before: Rest, r: Rest): Rest {
    r.(settings := r.settings.(positional := before.settings.positional),
       returnFlag := before.returnFlag, returnCode := before.returnCode,
       exitFlag := r.exitFlag || before.exitFlag, exitCode := if r.exitFlag then r.exitCode else before.exitCode)
  }

  function CallStatus(status: int, r: Rest): int {
    if r.exitFlag then r.exitCode else if r.returnFlag then r.returnCode else status
  }

  /** Only ignored signals stay trapped. */
  function IgnoredOnly(traps: map<string, Script>): map<string, Script> {
    map sig | sig in traps && traps[sig] == [] :: []
  }

  function EnterSubshell(r: Rest): Rest {
    r.(traps := IgnoredOnly(r.traps),
       settings := r.settings.(jobs := map[], counters := Counters([], 1, 0, 0, 0, 0, 0)),
       lastStatus := 0, returnFlag := false, returnCode := 0, exitFlag := false, exitCode := 0)
  }

  /** Everything is put back but the read-only names and what an enclosing trap keeps. */
  function LeaveSubshell(before: Rest, r: Rest): Rest {
    before.(readonly := r.readonly, inTrap := r.inTrap, trapStatus := r.trapStatus)
  }

  predicate HasExitTrap(r: Rest) { "EXIT" in r.traps && r.traps["EXIT"] != [] }

  function TrapStatus(status: int, r: Rest): int { if r.exitFlag then r.exitCode else status }

  function EnterTrap(status: int, r: Rest): Rest {
    r.(exitFlag := false, lastStatus := TrapStatus(status, r), inTrap := true, trapStatus := TrapStatus(status, r))
  }

  function LeaveTrap(before: Rest, r: Rest): Rest { r.(inTrap := before.inTrap, trapStatus := before.trapStatus) }

  /** Effects that do not depend on how variables are kept: status, exit and the rest. */
  function Fixed(c: Command, r: Rest): (int, bool, Rest)
    requires c.Define? || c.Trap? || c.Untrap? || c.Return? || c.Exit?
  {
    match c
    case Define(name, body) => (0, false, r.(funcs := r.funcs[name := body]))
    case Trap(signal, action) => (0, false, r.(traps := r.traps[signal := action]))
    case Untrap(signal) => (0, false, r.(traps := r.traps - {signal}))
    case Return(code) => (StatusOf(code, r), true, r.(returnFlag := true, returnCode := StatusOf(code, r)))
    case Exit(code) => (StatusOf(code, r), true, r.(exitFlag := true, exitCode := StatusOf(code, r)))
  }

  function Forget(r: Rest, name: string): Rest {
    r.(funcs := r.funcs - {name},
       settings := r.settings.(exported := r.settings.exported - {name}, aliases := r.settings.aliases - {name}))
  }

  function AssignFails(r: Rest): Rest { r.(exitFlag := true, exitCode := 2) }

  predicate MustStop(r: Rest) { r.returnFlag || r.exitFlag }

  function StopStatus(r: Rest): int { if r.returnFlag then r.returnCode else r.exitCode }

  predicate Interrupted(r: Rest) { r.settings.counters.breakCount > 0 || r.settings.counters.continueCount > 0 }

  // ----- the runner -----

  function Binding(vars: map<string, string>, x: string): Option<string> { if x in vars then Some(vars[x]) else None }

  function Put(vars: map<string, string>, x: string, v: Option<string>): map<string, string> {
    if v.Some? then vars[x := v.value] else vars - {x}
  }

  /** Variables and top frame after one declaration. */
  function Declare(vars: map<string, string>, frame: Frame, d: Declaration): (map<string, string>, Frame) {
    var saved := if d.name in frame then frame else frame[d.name := Binding(vars, d.name)];
    if d.value.Some? then (vars[d.name := d.value.value], saved)
    else if d.name in frame then (vars, frame) else (vars - {d.name}, saved)
  }

  function DeclareAll(vars: map<string, string>, frame: Frame, items: seq<Declaration>): (map<string, string>, Frame)
    decreases |items|
  {
    if items == [] then (vars, frame)
    else
      var (vars', frame') := Declare(vars, frame, items[0]);
      DeclareAll(vars', frame', items[1..])
  }

  /** The frame's bindings take the place of the table's. */
  function Overlay(vars: map<string, string>, frame: Frame): map<string, string> {
    map x | x in vars.Keys + frame.Keys && (if x in frame then frame[x].Some? else true) ::
      if x in frame then frame[x].value else vars[x]
  }

  function Top(locals: seq<Frame>): Frame
    requires locals != []
  {
    locals[|locals| - 1]
  }

  function Below<T>(s: seq<T>): seq<T>
    requires s != []
  {
    s[..|s| - 1]
  }

  function RunScript(w: World, cs: Script, st: State, fuel: nat): Option<Done<State>>
    decreases fuel, 1, cs, 1
  {
    RunCommands(w, cs, st.(rest := st.rest.(exitFlag := false, exitCode := 0)), 0, fuel)
  }

  function RunCommands(w: World, cs: Script, st: State, status: int, fuel: nat): Option<Done<State>>
    decreases fuel, 1, cs, 0
  {
    if cs == [] then Some(Done(status, false, st))
    else if MustStop(st.rest) then Some(Done(StopStatus(st.rest), false, st))
    else
      match RunCommand(w, cs[0], st, fuel)
      case None => None
      case Some(d) =>
        if MustStop(d.st.rest) then Some(Done(StopStatus(d.st.rest), false, d.st))
        else
          var after := d.st.(rest := d.st.rest.(lastStatus := d.status));
          if Interrupted(after.rest) then Some(Done(d.status, false, after))
          else if d.exit then
            Some(Done(d.status, false, after.(rest := after.rest.(exitFlag := true, exitCode := d.status))))
          else RunCommands(w, cs[1..], after, d.status, fuel)
  }

  function RunCommand(w: World, c: Command, st: State, fuel: nat): Option<Done<State>>
    decreases fuel, 1, c, 2
  {
    match c
    case Assign(name, value) =>
      if name in st.rest.readonly then Some(Done(2, true, st.(rest := AssignFails(st.rest))))
      else Some(Done(0, false, st.(vars := st.vars[name := value])))
    case Unset(name) =>
      if name in st.rest.readonly then Some(Done(0, false, st))
      else Some(Done(0, false, st.(vars := st.vars - {name}, rest := Forget(st.rest, name))))
    case Readonly(name, initial) =>
      if name in st.rest.readonly then Some(Done(0, false, st))
      else
        Some(Done(0, false,
          st.(vars := if initial.Some? then st.vars[name := initial.value] else st.vars,
              rest := st.rest.(readonly := st.rest.readonly + {name}))))
    case Local(items) =>
      if st.locals == [] then Some(Done(2, false, st))
      else
        var (vars, frame) := DeclareAll(st.vars, Top(st.locals), items);
        Some(Done(0, false, st.(vars := vars, locals := Below(st.locals) + [frame])))
    case Invoke(name, args) =>
      if name in st.rest.funcs then
        if fuel == 0 then None
        else
          match RunScript(w, st.rest.funcs[name],
                          State(st.vars, st.locals + [map[]], EnterCall(st.rest, args)), fuel - 1)
          case None => None
          case Some(d) =>
            if d.st.locals == [] then None
            else
              Some(Done(CallStatus(d.status, d.st.rest), false,
                State(Overlay(d.st.vars, Top(d.st.locals)), Below(d.st.locals), LeaveCall(st.rest, d.st.rest))))
      else Some(Done(w.spawn(name, args, st.vars), false, st))
    case Subshell(body) =>
      (match RunScript(w, body, st.(rest := EnterSubshell(st.rest)), fuel)
       case None => None
       case Some(d) =>
         match RunExitTrap(w, d, fuel)
         case None => None
         case Some(e) =>
           Some(Done(e.status, false, State(st.vars, e.st.locals, LeaveSubshell(st.rest, e.st.rest)))))
    case Other(id) =>
      var (settings, status) := w.act(id, st.vars, st.rest.settings);
      Some(Done(status, false, st.(rest := st.rest.(settings := settings))))
    case _ =>
      var (status, exit, rest) := Fixed(c, st.rest);
      Some(Done(status, exit, st.(rest := rest)))
  }

  /** The EXIT trap of a subshell runs where the subshell ended. */
  function RunExitTrap(w: World, d: Done<State>, fuel: nat): Option<Done<State>>
    decreases fuel, 0
  {
    if !HasExitTrap(d.st.rest) then Some(d)
    else if fuel == 0 then None
    else
      match RunScript(w, d.st.rest.traps["EXIT"], d.st.(rest := EnterTrap(d.status, d.st.rest)), fuel - 1)
      case None => None
      case Some(e) =>
        Some(Done(if e.st.rest.exitFlag then e.st.rest.exitCode else TrapStatus(d.status, d.st.rest), false,
                  e.st.(rest := LeaveTrap(d.st.rest, e.st.rest))))
  }
}

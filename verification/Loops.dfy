// The script runner's control flow: sequences, `if`, loops, and `break`, `continue`, `return` and
// `exit` carried by counters and flags.
module Loops {
  import opened Options

  type Env = map<string, string>

  /** What simple commands and word lists do is not part of the control flow: a command gets the last
      status and the variables and yields a status and new variables. */
  datatype World = World(run: (nat, int, Env) -> (int, Env), words: (nat, Env) -> seq<string>)

  datatype Command =
    | Simple(id: nat)
    | Break(levels: int)
    | Continue(levels: int)
    | Exit(code: Option<int>)
    | Return(code: Option<int>)
    | Group(body: seq<Command>)
    | If(cond: seq<Command>, yes: seq<Command>, no: seq<Command>)
    | While(until: bool, cond: seq<Command>, body: seq<Command>)
    | For(name: string, list: nat, body: seq<Command>)

  /** The runner's fields that take part. */
  datatype Machine = Machine(
    env: Env, last: int, depth: nat, breaks: nat, continues: nat,
    returning: bool, returnCode: int, exiting: bool, exitCode: int)

  /** The exit code is only set together with the flag. */
  predicate CodeOnlyOnExit(m: Machine) { m.exiting || m.exitCode == 0 }

  datatype Step = Step(status: int, exit: bool, m: Machine)

  /** No result: the run is not over within the given number of loop rounds. */
  type Outcome = Option<Step>

  function Clip(levels: int, depth: nat): nat
    requires levels > 0
  {
    if levels > depth then depth else levels
  }

  /** One command. */
  function RunCommand(w: World, sub: bool, c: Command, m: Machine, fuel: nat): (r: Outcome)
    ensures r.Some? ==> r.value.m.depth == m.depth
    ensures r.Some? && CodeOnlyOnExit(m) ==> CodeOnlyOnExit(r.value.m)
    decreases fuel, c, 1
  {
    match c
    case Simple(id) =>
      var (status, env) := w.run(id, m.last, m.env);
      Some(Step(status, false, m.(env := env)))
    case Break(n) =>
      if n <= 0 then Some(Step(1, false, m))
      else if m.depth == 0 then
        if sub then Some(Step(0, true, m.(exiting := true, exitCode := 0))) else Some(Step(1, false, m))
      else Some(Step(0, false, m.(breaks := Clip(n, m.depth), continues := 0)))
    case Continue(n) =>
      if n <= 0 || m.depth == 0 then Some(Step(1, false, m))
      else Some(Step(0, false, m.(continues := Clip(n, m.depth), breaks := 0)))
    case Exit(code) =>
      var status := if code.Some? then code.value else m.last;
      Some(Step(status, true, m.(exiting := true, exitCode := status)))
    case Return(code) =>
      var status := if code.Some? then code.value else m.last;
      Some(Step(status, true, m.(returning := true, returnCode := status)))
    case Group(body) =>
      (match RunScript(w, sub, body, m, fuel)
       case None => None
       case Some(r) => if r.m.exiting then Some(Step(r.m.exitCode, true, r.m)) else Some(r.(exit := false)))
    case If(cond, yes, no) =>
      (match RunScript(w, sub, cond, m, fuel)
       case None => None
       case Some(r) =>
         if r.m.exiting then Some(Step(r.m.exitCode, false, r.m))
         else
           match RunScript(w, sub, if r.status == 0 then yes else no, r.m, fuel)
           case None => None
           case Some(s) => Some(Step(if s.m.exiting then s.m.exitCode else s.status, false, s.m)))
    case While(_, _, _) =>
      (match RunLoop(w, sub, c, m.(depth := m.depth + 1), 0, fuel)
       case None => None
       case Some(r) => Some(r.(m := r.m.(depth := m.depth))))
    case For(_, list, _) =>
      (match RunFor(w, sub, c, w.words(list, m.env), m.(depth := m.depth + 1), 0, fuel)
       case None => None
       case Some(r) => Some(r.(m := r.m.(depth := m.depth))))
  }

  /** A script: its commands in order, until a flag or a counter is raised. */
  function RunScript(w: World, sub: bool, cs: seq<Command>, m: Machine, fuel: nat): (r: Outcome)
    ensures r.Some? ==> r.value.m.depth == m.depth && !r.value.exit && CodeOnlyOnExit(r.value.m)
    decreases fuel, cs, 1
  {
    RunCommands(w, sub, cs, m.(exiting := false, exitCode := 0), 0, fuel)
  }

  function RunCommands(w: World, sub: bool, cs: seq<Command>, m: Machine, status: int, fuel: nat): (r: Outcome)
    ensures r.Some? ==> r.value.m.depth == m.depth && !r.value.exit
    ensures r.Some? && CodeOnlyOnExit(m) ==> CodeOnlyOnExit(r.value.m)
    decreases fuel, cs, 0
  {
    if cs == [] then Some(Step(status, false, m))
    else if m.returning then Some(Step(m.returnCode, false, m))
    else if m.exiting then Some(Step(m.exitCode, false, m))
    else
      match RunCommand(w, sub, cs[0], m, fuel)
      case None => None
      case Some(r) =>
        if r.m.returning then Some(Step(r.m.returnCode, false, r.m))
        else if r.m.exiting then Some(Step(r.m.exitCode, false, r.m))
        else
          var n := r.m.(last := r.status);
          if n.breaks > 0 || n.continues > 0 then Some(Step(r.status, false, n))
          else if r.exit then Some(Step(r.status, false, n.(exiting := true, exitCode := r.status)))
          else RunCommands(w, sub, cs[1..], n, r.status, fuel)
  }

  /** What a loop does after running its condition or its body. */
  datatype Verdict = Leave(m: Machine) | Again(m: Machine) | GoOn

  function AfterPart(m: Machine): Verdict {
    if m.breaks > 0 then Leave(m.(breaks := m.breaks - 1))
    else if m.continues > 0 then
      if m.continues == 1 then Again(m.(continues := 0)) else Leave(m.(continues := m.continues - 1))
    else GoOn
  }

  function Flagged(m: Machine): Option<int> {
    if m.returning then Some(m.returnCode) else if m.exiting then Some(m.exitCode) else None
  }

  /** The rounds of a `while` or `until` loop; each round takes one unit of fuel. */
  function RunLoop(w: World, sub: bool, c: Command, m: Machine, status: int, fuel: nat): (r: Outcome)
    requires c.While?
    ensures r.Some? ==> r.value.m.depth == m.depth && !r.value.exit
    ensures r.Some? && CodeOnlyOnExit(m) ==> CodeOnlyOnExit(r.value.m)
    decreases fuel, c, 0, 1
  {
    if fuel == 0 then None
    else if Flagged(m).Some? then Some(Step(Flagged(m).value, false, m))
    else
      match RunScript(w, sub, c.cond, m, fuel)
      case None => None
      case Some(r) =>
        if Flagged(r.m).Some? then Some(Step(Flagged(r.m).value, false, r.m))
        else
          match AfterPart(r.m)
          case Leave(n) => Some(Step(status, false, n))
          case Again(n) => RunLoop(w, sub, c, n, status, fuel - 1)
          case GoOn =>
            if (r.status == 0) == c.until then Some(Step(status, false, r.m))
            else RunBody(w, sub, c, r.m, fuel)
  }

  /** The body of a round whose condition held, and what comes after it. */
  function RunBody(w: World, sub: bool, c: Command, m: Machine, fuel: nat): (r: Outcome)
    requires c.While? && fuel > 0
    ensures r.Some? ==> r.value.m.depth == m.depth && !r.value.exit
    ensures r.Some? && CodeOnlyOnExit(m) ==> CodeOnlyOnExit(r.value.m)
    decreases fuel, c, 0, 0
  {
    match RunScript(w, sub, c.body, m, fuel)
    case None => None
    case Some(s) =>
      if Flagged(s.m).Some? then Some(Step(Flagged(s.m).value, false, s.m))
      else
        match AfterPart(s.m)
        case Leave(n) => Some(Step(s.status, false, n))
        case Again(n) => RunLoop(w, sub, c, n, s.status, fuel - 1)
        case GoOn => RunLoop(w, sub, c, s.m, s.status, fuel - 1)
  }

  /** The rounds of a `for` loop. */
  function RunFor(w: World, sub: bool, c: Command, words: seq<string>, m: Machine, status: int, fuel: nat): (r: Outcome)
    requires c.For?
    ensures r.Some? ==> r.value.m.depth == m.depth && !r.value.exit
    ensures r.Some? && CodeOnlyOnExit(m) ==> CodeOnlyOnExit(r.value.m)
    decreases fuel, c, 0, |words|
  {
    if words == [] then Some(Step(status, false, m))
    else
      match RunScript(w, sub, c.body, m.(env := m.env[c.name := words[0]]), fuel)
      case None => None
      case Some(s) =>
        if Flagged(s.m).Some? then Some(Step(Flagged(s.m).value, false, s.m))
        else
          match AfterPart(s.m)
          case Leave(n) => Some(Step(s.status, false, n))
          case Again(n) => RunFor(w, sub, c, words[1..], n, s.status, fuel)
          case GoOn => RunFor(w, sub, c, words[1..], s.m, s.status, fuel)
  }
}

// A `break` or `continue` that leaves the condition of an `if`: the counter is pending while the
// branch is run, so the branch's first command still runs, and may even use the counter up.
module LoopJumps {
  import opened Options
  import opened Loops
  import opened LoopSemantics
  import opened LoopRefinement

  predicate Jumps(flow: Flow) { flow.BreakTo? || flow.ContinueTo? }

  /** The condition of `c` ends in the jump `y`, which is then how the whole `if` should end. */
  predicate ConditionJumps(w: World, sub: bool, c: Command, m: Machine, fuel: nat, y: Result) {
    c.If? && Idle(m) && SoundAll(c.cond) && Jumps(y.flow)
    && ScriptMeaning(w, sub, c.cond, m.depth, m.env, m.last, 0, fuel) == Some(y)
  }

  function Branch(c: Command, status: int): seq<Command>
    requires c.If?
  {
    if status == 0 then c.yes else c.no
  }

  predicate Pending(m: Machine) { m.breaks > 0 || m.continues > 0 }

  /** The machine as the branch finds it. */
  function AtBranch(w: World, sub: bool, c: Command, m: Machine, fuel: nat): (n: Machine)
    requires c.If? && RunScript(w, sub, c.cond, m, fuel).Some?
  {
    RunScript(w, sub, c.cond, m, fuel).value.m.(exiting := false, exitCode := 0)
  }

  lemma JumpIsPending(w: World, sub: bool, c: Command, m: Machine, fuel: nat, y: Result)
    requires ConditionJumps(w, sub, c, m, fuel, y)
    ensures CommandMeaning(w, sub, c, m.depth, m.env, m.last, fuel) == Some(y)
    ensures RunScript(w, sub, c.cond, m, fuel).Some?
    ensures var n := AtBranch(w, sub, c, m, fuel); Pending(n) && Shows(n, m.depth, y)
    ensures RunScript(w, sub, c.cond, m, fuel).value.status == y.status
    ensures !RunScript(w, sub, c.cond, m, fuel).value.m.exiting
  {
    RefineScript(w, sub, c.cond, m, fuel);
  }

  lemma ExitIsFlagged(w: World, sub: bool, c: Command, m: Machine, fuel: nat)
    requires RunCommand(w, sub, c, m, fuel).Some? && RunCommand(w, sub, c, m, fuel).value.exit
    ensures !NoFlags(RunCommand(w, sub, c, m, fuel).value.m)
  {
  }

  /**
   * What the runner does: nothing of an empty branch; otherwise the branch's first command. The rest
   * of the branch is skipped as long as a counter or a flag is up behind that command, and runs if
   * the command has taken the counter down.
   */
  lemma FirstCommandRuns(w: World, sub: bool, c: Command, m: Machine, fuel: nat, y: Result)
    requires ConditionJumps(w, sub, c, m, fuel, y)
    ensures RunScript(w, sub, c.cond, m, fuel).Some?
    ensures var n, branch, x := AtBranch(w, sub, c, m, fuel), Branch(c, y.status), RunCommand(w, sub, c, m, fuel);
            if branch == [] then x == Some(Step(0, false, n))
            else
              match RunCommand(w, sub, branch[0], n, fuel)
              case None => x == None
              case Some(r) =>
                if !NoFlags(r.m) then x.Some? && x.value.m == r.m
                else if Pending(r.m) then x == Some(Step(r.status, false, r.m.(last := r.status)))
                else
                  match RunCommands(w, sub, branch[1..], r.m.(last := r.status), r.status, fuel)
                  case None => x == None
                  case Some(s) => x.Some? && x.value.m == s.m && (NoFlags(s.m) ==> x == Some(s))
  {
    hide RunCommand, RunScript, RunCommands, ScriptMeaning, CommandMeaning;
    JumpIsPending(w, sub, c, m, fuel, y);
    IfRuns(w, sub, c, m, fuel);
    var n, branch := AtBranch(w, sub, c, m, fuel), Branch(c, y.status);
    CommandsRun(w, sub, branch, n, fuel);
    if branch != [] && RunCommand(w, sub, branch[0], n, fuel).Some? && RunCommand(w, sub, branch[0], n, fuel).value.exit {
      ExitIsFlagged(w, sub, branch[0], n, fuel);
    }
  }

  lemma IfRuns(w: World, sub: bool, c: Command, m: Machine, fuel: nat)
    requires c.If? && RunScript(w, sub, c.cond, m, fuel).Some?
    requires !RunScript(w, sub, c.cond, m, fuel).value.m.exiting
    ensures RunCommand(w, sub, c, m, fuel)
         == match RunCommands(w, sub, Branch(c, RunScript(w, sub, c.cond, m, fuel).value.status),
                              AtBranch(w, sub, c, m, fuel), 0, fuel)
            case None => None
            case Some(s) => Some(Step(if s.m.exiting then s.m.exitCode else s.status, false, s.m))
  {
  }

  lemma CommandsRun(w: World, sub: bool, cs: seq<Command>, n: Machine, fuel: nat)
    requires NoFlags(n)
    ensures RunCommands(w, sub, cs, n, 0, fuel) ==
              if cs == [] then Some(Step(0, false, n))
              else
                match RunCommand(w, sub, cs[0], n, fuel)
                case None => None
                case Some(r) =>
                  if r.m.returning then Some(Step(r.m.returnCode, false, r.m))
                  else if r.m.exiting then Some(Step(r.m.exitCode, false, r.m))
                  else
                    var k := r.m.(last := r.status);
                    if Pending(k) then Some(Step(r.status, false, k))
                    else if r.exit then Some(Step(r.status, false, k.(exiting := true, exitCode := r.status)))
                    else RunCommands(w, sub, cs[1..], k, r.status, fuel)
  {
  }

  /** The first command leaves variables, status, counters and flags as the condition left them. */
  predicate Leaves(r: Step, n: Machine, status: int) {
    r.m.env == n.env && r.status == status && NoFlags(r.m) && r.m.breaks == n.breaks && r.m.continues == n.continues
  }

  /**
   * When that is what the jump asks for: an empty branch after status 0; a first command that changes
   * nothing; or one that uses the counter up, if the rest of the branch then ends in the very same
   * jump with the same variables and status.
   */
  lemma JumpInConditionAgreesExactly(w: World, sub: bool, c: Command, m: Machine, fuel: nat, y: Result)
    requires ConditionJumps(w, sub, c, m, fuel, y) && SoundAll(c.yes) && SoundAll(c.no)
    ensures RunScript(w, sub, c.cond, m, fuel).Some?
    ensures var n, branch := AtBranch(w, sub, c, m, fuel), Branch(c, y.status);
            CommandAgrees(RunCommand(w, sub, c, m, fuel), CommandMeaning(w, sub, c, m.depth, m.env, m.last, fuel), m.depth)
            <==>
            (if branch == [] then y.status == 0
             else
               match RunCommand(w, sub, branch[0], n, fuel)
               case None => false
               case Some(r) =>
                 if !NoFlags(r.m) || Pending(r.m) then Leaves(r, n, y.status)
                 else ScriptMeaning(w, sub, branch[1..], m.depth, r.m.env, r.status, r.status, fuel) == Some(y))
  {
    hide RunCommand, RunScript, RunCommands, CommandMeaning, ScriptMeaning;
    JumpIsPending(w, sub, c, m, fuel, y);
    FirstCommandRuns(w, sub, c, m, fuel, y);
    LastIsStatus(w, sub, c.cond, m.depth, m.env, m.last, 0, fuel);
    var n, branch := AtBranch(w, sub, c, m, fuel), Branch(c, y.status);
    if branch != [] {
      var x := RunCommand(w, sub, branch[0], n, fuel);
      if x.Some? && NoFlags(x.value.m) && !Pending(x.value.m) {
        var r := x.value;
        DepthIsKept(w, sub, branch[0], n, fuel);
        RefineCommands(w, sub, branch[1..], r.m.(last := r.status), r.status, fuel);
      }
      if x.Some? {
        DepthIsKept(w, sub, branch[0], n, fuel);
      }
    }
  }

  lemma DepthIsKept(w: World, sub: bool, c: Command, m: Machine, fuel: nat)
    requires RunCommand(w, sub, c, m, fuel).Some?
    ensures RunCommand(w, sub, c, m, fuel).value.m.depth == m.depth
  {
  }

  /** A script that ends in a jump has its status as the last one. */
  lemma {:induction false} LastIsStatus(
    w: World, sub: bool, cs: seq<Command>, d: nat, env: Env, last: int, status: int, fuel: nat)
    requires var r := ScriptMeaning(w, sub, cs, d, env, last, status, fuel); r.Some? && Jumps(r.value.flow)
    ensures var r := ScriptMeaning(w, sub, cs, d, env, last, status, fuel).value; r.last == r.status
    decreases |cs|
  {
    hide CommandMeaning;
    var r := CommandMeaning(w, sub, cs[0], d, env, last, fuel).value;
    if r.flow == Normal {
      LastIsStatus(w, sub, cs[1..], d, r.env, r.status, r.status, fuel);
    }
  }

  /** A jump that the first command has used up is lost, unless the branch itself jumps again. */
  lemma UsedUpIsLost(w: World, sub: bool, c: Command, m: Machine, fuel: nat, y: Result)
    requires ConditionJumps(w, sub, c, m, fuel, y) && SoundAll(c.yes) && SoundAll(c.no)
    requires RunScript(w, sub, c.cond, m, fuel).Some? && Branch(c, y.status) != []
    requires var r := RunCommand(w, sub, Branch(c, y.status)[0], AtBranch(w, sub, c, m, fuel), fuel);
             r.Some? && Idle(r.value.m)
    requires ContainedAll(Branch(c, y.status)[1..], 0)
    ensures !CommandAgrees(RunCommand(w, sub, c, m, fuel), CommandMeaning(w, sub, c, m.depth, m.env, m.last, fuel), m.depth)
  {
    hide RunCommand, RunScript, RunCommands, CommandMeaning, ScriptMeaning;
    JumpInConditionAgreesExactly(w, sub, c, m, fuel, y);
    var branch := Branch(c, y.status);
    var r := RunCommand(w, sub, branch[0], AtBranch(w, sub, c, m, fuel), fuel).value;
    ContainedScript(w, sub, branch[1..], 0, m.depth, r.m.env, r.status, r.status, fuel);
    JumpIsPending(w, sub, c, m, fuel, y);
  }

  lemma BreakCondition(w: World, sub: bool, c: Command, m: Machine, fuel: nat)
    requires Idle(m) && m.depth > 0 && c.If? && c.cond == [Break(1)]
    ensures ConditionJumps(w, sub, c, m, fuel, Result(BreakTo(m.depth), 0, m.env, 0))
    ensures RunScript(w, sub, c.cond, m, fuel).Some?
    ensures AtBranch(w, sub, c, m, fuel) == m.(exiting := false, exitCode := 0, breaks := 1, continues := 0, last := 0)
  {
    assert CommandMeaning(w, sub, Break(1), m.depth, m.env, m.last, fuel) == Some(Result(BreakTo(m.depth), 0, m.env, m.last));
    var m0 := m.(exiting := false, exitCode := 0);
    assert RunCommand(w, sub, Break(1), m0, fuel) == Some(Step(0, false, m0.(breaks := 1, continues := 0)));
  }

  /** `if break; then` a loop: the loop runs its condition once and ends in place of the outer one. */
  lemma BreakIsLost(w: World, sub: bool, until: bool, id: nat, body: seq<Command>, m: Machine, fuel: nat)
    requires Idle(m) && m.depth > 0 && fuel > 0
    ensures var c := If([Break(1)], [While(until, [Simple(id)], body)], []);
            var x, y := RunCommand(w, sub, c, m, fuel), CommandMeaning(w, sub, c, m.depth, m.env, m.last, fuel);
            && x.Some? && Idle(x.value.m) && x.value.m.env == w.run(id, 0, m.env).1
            && y.Some? && y.value.flow == BreakTo(m.depth) && y.value.env == m.env
  {
    var loop := While(until, [Simple(id)], body);
    var c := If([Break(1)], [loop], []);
    var y := Result(BreakTo(m.depth), 0, m.env, 0);
    BreakCondition(w, sub, c, m, fuel);
    JumpIsPending(w, sub, c, m, fuel, y);
    FirstCommandRuns(w, sub, c, m, fuel, y);
    PendingLoop(w, sub, loop, AtBranch(w, sub, c, m, fuel), id, fuel);
  }

  lemma PendingLoop(w: World, sub: bool, loop: Command, n: Machine, id: nat, fuel: nat)
    requires loop.While? && loop.cond == [Simple(id)] && fuel > 0
    requires NoFlags(n) && n.breaks == 1 && n.continues == 0
    ensures var x := RunCommand(w, sub, loop, n, fuel);
            x.Some? && Idle(x.value.m) && x.value.m.env == w.run(id, n.last, n.env).1
  {
    var m := n.(depth := n.depth + 1, exiting := false, exitCode := 0);
    var (status, env) := w.run(id, n.last, n.env);
    assert RunCommand(w, sub, Simple(id), m, fuel) == Some(Step(status, false, m.(env := env)));
    assert RunScript(w, sub, [Simple(id)], n.(depth := n.depth + 1), fuel)
        == Some(Step(status, false, m.(env := env, last := status)));
  }
}

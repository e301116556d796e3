// The runner's counters and flags carry out the structured reading.
module LoopRefinement {
  import opened Options
  import opened Loops
  import opened LoopSemantics

  predicate NoFlags(m: Machine) { !m.returning && !m.exiting }

  /** The runner's fields after a command run at depth `d` that ended as `r` says: the break counter
      is the distance to the loop that is to be left, the continue counter the one to the loop that
      is to go on, and never are two things raised at once. */
  predicate Shows(m: Machine, d: nat, r: Result) {
    && m.env == r.env && m.last == r.last && m.depth == d
    && match r.flow
       case Normal => NoFlags(m) && m.breaks == 0 && m.continues == 0
       case BreakTo(l) => NoFlags(m) && 1 <= l <= d && m.breaks == d - l + 1 && m.continues == 0
       case ContinueTo(l) => NoFlags(m) && 1 <= l <= d && m.continues == d - l + 1 && m.breaks == 0
       case Exiting(code) => m.exiting && m.exitCode == code && !m.returning && m.breaks == 0 && m.continues == 0
       case Returning(code) => m.returning && m.returnCode == code && !m.exiting && m.breaks == 0 && m.continues == 0
  }

  predicate Idle(m: Machine) { NoFlags(m) && m.breaks == 0 && m.continues == 0 }

  predicate Leaving(flow: Flow) { flow.Exiting? || flow.Returning? }

  function FinalStatus(r: Result): int {
    match r.flow
    case Exiting(code) => code
    case Returning(code) => code
    case _ => r.status
  }

  predicate CommandAgrees(x: Outcome, y: Option<Result>, d: nat) {
    match (x, y)
    case (Some(s), Some(r)) =>
      Shows(s.m, d, r) && (Leaving(r.flow) || s.status == r.status) && (s.exit ==> Leaving(r.flow))
      && (r.flow.Exiting? ==> s.status == FinalStatus(r))
    case (None, None) => true
    case (_, _) => false
  }

  predicate ScriptAgrees(x: Outcome, y: Option<Result>, d: nat) {
    match (x, y)
    case (Some(s), Some(r)) => Shows(s.m, d, r) && s.status == FinalStatus(r) && !s.exit
    case (None, None) => true
    case (_, _) => false
  }

  /** A loop's result, seen from outside the loop. */
  predicate LoopAgrees(x: Outcome, y: Option<Result>, d: nat)
    requires d > 0
  {
    match (x, y)
    case (Some(s), Some(r)) =>
      s.m.depth == d && Shows(s.m.(depth := d - 1), d - 1, r) && s.status == FinalStatus(r) && !s.exit
    case (None, None) => true
    case (_, _) => false
  }

  lemma {:induction false} RefineCommand(w: World, sub: bool, c: Command, m: Machine, fuel: nat)
    requires Sound(c) && Idle(m)
    ensures CommandAgrees(RunCommand(w, sub, c, m, fuel), CommandMeaning(w, sub, c, m.depth, m.env, m.last, fuel), m.depth)
    decreases fuel, c, 2
  {
    hide RunScript, RunCommands, RunLoop, RunFor, ScriptMeaning, RoundsMeaning, WordsMeaning, Contained;
    match c
    case Simple(_) =>
    case Break(_) =>
    case Continue(_) =>
    case Exit(_) =>
    case Return(_) =>
    case Group(body) => RefineScript(w, sub, body, m, fuel);
    case If(_, _, _) => RefineIf(w, sub, c, m, fuel);
    case While(_, _, _) => RefineLoop(w, sub, c, m.(depth := m.depth + 1), 0, fuel);
    case For(_, list, _) => RefineFor(w, sub, c, w.words(list, m.env), m.(depth := m.depth + 1), 0, fuel);
  }

  /** A script run while the function is being returned from does nothing. */
  lemma ReturningRunsNothing(w: World, sub: bool, cs: seq<Command>, m: Machine, fuel: nat)
    requires m.returning
    ensures var x := RunScript(w, sub, cs, m, fuel); x.Some? && x.value.m == m.(exiting := false, exitCode := 0)
  {
  }

  lemma {:induction false} RefineIf(w: World, sub: bool, c: Command, m: Machine, fuel: nat)
    requires c.If? && Sound(c) && Idle(m)
    ensures CommandAgrees(RunCommand(w, sub, c, m, fuel), CommandMeaning(w, sub, c, m.depth, m.env, m.last, fuel), m.depth)
    decreases fuel, c, 1
  {
    RefineScript(w, sub, c.cond, m, fuel);
    var x := RunScript(w, sub, c.cond, m, fuel);
    var y := ScriptMeaning(w, sub, c.cond, m.depth, m.env, m.last, 0, fuel);
    if x.Some? {
      ContainedScript(w, sub, c.cond, 0, m.depth, m.env, m.last, 0, fuel);
      var n := x.value.m;
      var branch := if x.value.status == 0 then c.yes else c.no;
      if n.returning {
        ReturningRunsNothing(w, sub, branch, n, fuel);
      } else if !n.exiting {
        assert y.value.flow == Normal;
        RefineScript(w, sub, branch, n, fuel);
      }
    }
  }

  lemma {:induction false} RefineScript(w: World, sub: bool, cs: seq<Command>, m: Machine, fuel: nat)
    requires SoundAll(cs) && Idle(m)
    ensures ScriptAgrees(RunScript(w, sub, cs, m, fuel), ScriptMeaning(w, sub, cs, m.depth, m.env, m.last, 0, fuel), m.depth)
    decreases fuel, cs, 1
  {
    RefineCommands(w, sub, cs, m.(exiting := false, exitCode := 0), 0, fuel);
  }

  lemma {:induction false} RefineCommands(w: World, sub: bool, cs: seq<Command>, m: Machine, status: int, fuel: nat)
    requires SoundAll(cs) && Idle(m)
    ensures ScriptAgrees(RunCommands(w, sub, cs, m, status, fuel), ScriptMeaning(w, sub, cs, m.depth, m.env, m.last, status, fuel), m.depth)
    decreases fuel, cs, 0
  {
    if cs != [] {
      RefineCommand(w, sub, cs[0], m, fuel);
      var x := RunCommand(w, sub, cs[0], m, fuel);
      if x.Some? {
        var r := CommandMeaning(w, sub, cs[0], m.depth, m.env, m.last, fuel).value;
        if r.flow == Normal {
          RefineCommands(w, sub, cs[1..], x.value.m.(last := x.value.status), x.value.status, fuel);
        }
      }
    }
  }

  lemma {:induction false} RefineLoop(w: World, sub: bool, c: Command, m: Machine, status: int, fuel: nat)
    requires c.While? && Sound(c) && Idle(m) && m.depth > 0
    ensures LoopAgrees(RunLoop(w, sub, c, m, status, fuel), RoundsMeaning(w, sub, c, m.depth, m.env, m.last, status, fuel), m.depth)
    decreases fuel, c, 1, 1
  {
    hide RunScript, RunCommands, RunCommand, RunBody, ScriptMeaning, CommandMeaning, BodyMeaning, Contained;
    if fuel > 0 {
      var d := m.depth;
      RefineScript(w, sub, c.cond, m, fuel);
      var x := RunScript(w, sub, c.cond, m, fuel);
      if x.Some? {
        var r := ScriptMeaning(w, sub, c.cond, d, m.env, m.last, 0, fuel).value;
        if r.flow == Normal {
          if (r.status == 0) != c.until {
            RefineBody(w, sub, c, x.value.m, fuel);
          }
        } else if r.flow == ContinueTo(d) {
          RefineLoop(w, sub, c, x.value.m.(continues := 0), status, fuel - 1);
        }
      }
    }
  }

  /** The body of a round whose condition held. */
  lemma {:induction false} RefineBody(w: World, sub: bool, c: Command, m: Machine, fuel: nat)
    requires c.While? && Sound(c) && Idle(m) && m.depth > 0 && fuel > 0
    ensures LoopAgrees(RunBody(w, sub, c, m, fuel), BodyMeaning(w, sub, c, m.depth, m.env, m.last, fuel), m.depth)
    decreases fuel, c, 1, 0
  {
    RefineScript(w, sub, c.body, m, fuel);
    var x, y := RunScript(w, sub, c.body, m, fuel), ScriptMeaning(w, sub, c.body, m.depth, m.env, m.last, 0, fuel);
    if x.Some? && TurnOf(y.value.flow, m.depth) == NextRound {
      RefineLoop(w, sub, c, x.value.m.(continues := 0), x.value.status, fuel - 1);
    }
  }

  lemma {:induction false} RefineFor(w: World, sub: bool, c: Command, words: seq<string>, m: Machine, status: int, fuel: nat)
    requires c.For? && Sound(c) && Idle(m) && m.depth > 0
    ensures LoopAgrees(RunFor(w, sub, c, words, m, status, fuel),
                       WordsMeaning(w, sub, c, words, m.depth, m.env, m.last, status, fuel), m.depth)
    decreases fuel, c, 1, 1, |words|
  {
    hide RunScript, RunCommands, RunCommand, ScriptMeaning, CommandMeaning, Contained;
    if words != [] {
      var n := m.(env := m.env[c.name := words[0]]);
      RefineScript(w, sub, c.body, n, fuel);
      var x := RunScript(w, sub, c.body, n, fuel);
      if x.Some? {
        var s := ScriptMeaning(w, sub, c.body, m.depth, n.env, m.last, 0, fuel).value;
        if TurnOf(s.flow, m.depth) == NextRound {
          RefineFor(w, sub, c, words[1..], x.value.m.(continues := 0), x.value.status, fuel);
        }
      }
    }
  }

  // ----- the laws -----

  /** Over every program: the counters are never both raised, never exceed the number of loops around
      the command, and are down when no loop is left around it. */
  lemma CountersStayWithinLoops(w: World, sub: bool, cs: seq<Command>, m: Machine, fuel: nat)
    requires SoundAll(cs) && Idle(m) && RunScript(w, sub, cs, m, fuel).Some?
    ensures var n := RunScript(w, sub, cs, m, fuel).value.m;
            && n.depth == m.depth && (n.breaks == 0 || n.continues == 0)
            && n.breaks <= n.depth && n.continues <= n.depth
            && (m.depth == 0 ==> n.breaks == 0 && n.continues == 0)
  {
    RefineScript(w, sub, cs, m, fuel);
  }

  /** A script that is not being left ends with the structured reading's variables, status and jump. */
  lemma RunnerRefinesStructure(w: World, sub: bool, cs: seq<Command>, env: Env, last: int, fuel: nat)
    requires SoundAll(cs)
    ensures var m := Machine(env, last, 0, 0, 0, false, 0, false, 0);
            var x, y := RunScript(w, sub, cs, m, fuel), ScriptMeaning(w, sub, cs, 0, env, last, 0, fuel);
            && (x.Some? <==> y.Some?)
            && (x.Some? ==> x.value.m.env == y.value.env && x.value.m.last == y.value.last
                            && x.value.status == FinalStatus(y.value)
                            && (x.value.m.exiting <==> y.value.flow.Exiting?)
                            && (x.value.m.returning <==> y.value.flow.Returning?))
  {
    RefineScript(w, sub, cs, Machine(env, last, 0, 0, 0, false, 0, false, 0), fuel);
  }

  // ----- fuel is no more than a bound on the rounds -----

  predicate Extends(x: Outcome, y: Outcome) { x.Some? ==> y == x }

  lemma {:induction false} MoreFuelCommand(w: World, sub: bool, c: Command, m: Machine, f: nat, g: nat)
    requires f <= g
    ensures Extends(RunCommand(w, sub, c, m, f), RunCommand(w, sub, c, m, g))
    decreases f, c, 1
  {
    match c
    case Group(body) => MoreFuel(w, sub, body, m, f, g);
    case If(cond, yes, no) =>
      MoreFuel(w, sub, cond, m, f, g);
      var x := RunScript(w, sub, cond, m, f);
      if x.Some? {
        MoreFuel(w, sub, if x.value.status == 0 then yes else no, x.value.m, f, g);
      }
    case While(_, _, _) => MoreFuelLoop(w, sub, c, m.(depth := m.depth + 1), 0, f, g);
    case For(_, list, _) => MoreFuelFor(w, sub, c, w.words(list, m.env), m.(depth := m.depth + 1), 0, f, g);
    case _ =>
  }

  /** A run that ends within some number of rounds ends in the same way within any larger number. */
  lemma {:induction false} MoreFuel(w: World, sub: bool, cs: seq<Command>, m: Machine, f: nat, g: nat)
    requires f <= g
    ensures Extends(RunScript(w, sub, cs, m, f), RunScript(w, sub, cs, m, g))
    decreases f, cs, 1
  {
    MoreFuelCommands(w, sub, cs, m.(exiting := false, exitCode := 0), 0, f, g);
  }

  lemma {:induction false} MoreFuelCommands(w: World, sub: bool, cs: seq<Command>, m: Machine, status: int, f: nat, g: nat)
    requires f <= g
    ensures Extends(RunCommands(w, sub, cs, m, status, f), RunCommands(w, sub, cs, m, status, g))
    decreases f, cs, 0
  {
    if cs != [] {
      MoreFuelCommand(w, sub, cs[0], m, f, g);
      var x := RunCommand(w, sub, cs[0], m, f);
      if x.Some? {
        MoreFuelCommands(w, sub, cs[1..], x.value.m.(last := x.value.status), x.value.status, f, g);
      }
    }
  }

  lemma {:induction false} MoreFuelLoop(w: World, sub: bool, c: Command, m: Machine, status: int, f: nat, g: nat)
    requires c.While? && f <= g
    ensures Extends(RunLoop(w, sub, c, m, status, f), RunLoop(w, sub, c, m, status, g))
    decreases f, c, 0, 1
  {
    if f > 0 && Flagged(m).None? {
      MoreFuel(w, sub, c.cond, m, f, g);
      var x := RunScript(w, sub, c.cond, m, f);
      if x.Some? && Flagged(x.value.m).None? {
        match AfterPart(x.value.m) {
          case Leave(_) =>
          case Again(n) => MoreFuelLoop(w, sub, c, n, status, f - 1, g - 1);
          case GoOn => MoreFuelBody(w, sub, c, x.value.m, f, g);
        }
      }
    }
  }

  lemma {:induction false} MoreFuelBody(w: World, sub: bool, c: Command, m: Machine, f: nat, g: nat)
    requires c.While? && 0 < f <= g
    ensures Extends(RunBody(w, sub, c, m, f), RunBody(w, sub, c, m, g))
    decreases f, c, 0, 0
  {
    MoreFuel(w, sub, c.body, m, f, g);
    var x := RunScript(w, sub, c.body, m, f);
    if x.Some? {
      MoreFuelLoop(w, sub, c, x.value.m, x.value.status, f - 1, g - 1);
      MoreFuelLoop(w, sub, c, x.value.m.(continues := 0), x.value.status, f - 1, g - 1);
    }
  }

  lemma {:induction false} MoreFuelFor(w: World, sub: bool, c: Command, words: seq<string>, m: Machine, status: int, f: nat, g: nat)
    requires c.For? && f <= g
    ensures Extends(RunFor(w, sub, c, words, m, status, f), RunFor(w, sub, c, words, m, status, g))
    decreases f, c, 0, 1, |words|
  {
    if words != [] {
      var n := m.(env := m.env[c.name := words[0]]);
      MoreFuel(w, sub, c.body, n, f, g);
      var x := RunScript(w, sub, c.body, n, f);
      if x.Some? {
        MoreFuelFor(w, sub, c, words[1..], x.value.m, x.value.status, f, g);
        MoreFuelFor(w, sub, c, words[1..], x.value.m.(continues := 0), x.value.status, f, g);
      }
    }
  }
}

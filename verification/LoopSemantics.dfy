// A structured reading of the same programs: `break n` and `continue n` name the loop they are meant
// for, loops being numbered from the outside in. The counters of the runner refine it.
module LoopSemantics {
  import opened Options
  import opened Loops

  /** How a command ends: normally, on its way to the end or to the next round of a loop, or on its way
      out of the script or the function. */
  datatype Flow = Normal | BreakTo(loop: nat) | ContinueTo(loop: nat) | Exiting(code: int) | Returning(code: int)

  datatype Result = Result(flow: Flow, status: int, env: Env, last: int)

  /** The loop that `n` levels up from depth `d` leads to: the outermost one when there are not so many. */
  function Target(n: int, d: nat): (loop: nat)
    requires n > 0 && d > 0
    ensures 1 <= loop <= d
  {
    if n >= d then 1 else d - n + 1
  }

  function CommandMeaning(w: World, sub: bool, c: Command, d: nat, env: Env, last: int, fuel: nat): Option<Result>
    decreases fuel, c, 1
  {
    match c
    case Simple(id) =>
      var (status, e) := w.run(id, last, env);
      Some(Result(Normal, status, e, last))
    case Break(n) =>
      if n <= 0 || (d == 0 && !sub) then Some(Result(Normal, 1, env, last))
      else if d == 0 then Some(Result(Exiting(0), 0, env, last))
      else Some(Result(BreakTo(Target(n, d)), 0, env, last))
    case Continue(n) =>
      if n <= 0 || d == 0 then Some(Result(Normal, 1, env, last))
      else Some(Result(ContinueTo(Target(n, d)), 0, env, last))
    case Exit(code) =>
      var status := if code.Some? then code.value else last;
      Some(Result(Exiting(status), status, env, last))
    case Return(code) =>
      var status := if code.Some? then code.value else last;
      Some(Result(Returning(status), status, env, last))
    case Group(body) => ScriptMeaning(w, sub, body, d, env, last, 0, fuel)
    case If(cond, yes, no) =>
      (match ScriptMeaning(w, sub, cond, d, env, last, 0, fuel)
       case None => None
       case Some(r) =>
         if r.flow != Normal then Some(r)
         else ScriptMeaning(w, sub, if r.status == 0 then yes else no, d, r.env, r.last, 0, fuel))
    case While(_, _, _) => RoundsMeaning(w, sub, c, d + 1, env, last, 0, fuel)
    case For(_, list, _) => WordsMeaning(w, sub, c, w.words(list, env), d + 1, env, last, 0, fuel)
  }

  function ScriptMeaning(w: World, sub: bool, cs: seq<Command>, d: nat, env: Env, last: int, status: int, fuel: nat): Option<Result>
    decreases fuel, cs, 0
  {
    if cs == [] then Some(Result(Normal, status, env, last))
    else
      match CommandMeaning(w, sub, cs[0], d, env, last, fuel)
      case None => None
      case Some(r) =>
        match r.flow
        case Normal => ScriptMeaning(w, sub, cs[1..], d, r.env, r.status, r.status, fuel)
        case BreakTo(_) => Some(r.(last := r.status))
        case ContinueTo(_) => Some(r.(last := r.status))
        case _ => Some(r)
  }

  /** Whether a part of loop number `d` sends it into the next round, ends it, or neither. */
  datatype Turn = NextRound | EndLoop | PassOn

  function TurnOf(flow: Flow, d: nat): Turn {
    match flow
    case Normal => NextRound
    case BreakTo(l) => if l == d then EndLoop else PassOn
    case ContinueTo(l) => if l == d then NextRound else PassOn
    case _ => PassOn
  }

  /** The status a loop passes on: its own, unless the script or function is being left. */
  function PassedStatus(r: Result, status: int): Result {
    match r.flow
    case BreakTo(_) => r.(status := status)
    case ContinueTo(_) => r.(status := status)
    case _ => r
  }

  /** Loop number `d`. */
  function RoundsMeaning(w: World, sub: bool, c: Command, d: nat, env: Env, last: int, status: int, fuel: nat): Option<Result>
    requires c.While?
    decreases fuel, c, 0, 1
  {
    if fuel == 0 then None
    else
      match ScriptMeaning(w, sub, c.cond, d, env, last, 0, fuel)
      case None => None
      case Some(r) =>
        if r.flow == Normal then
          if (r.status == 0) == c.until then Some(Result(Normal, status, r.env, r.last))
          else BodyMeaning(w, sub, c, d, r.env, r.last, fuel)
        else
          match TurnOf(r.flow, d)
          case NextRound => RoundsMeaning(w, sub, c, d, r.env, r.last, status, fuel - 1)
          case EndLoop => Some(r.(flow := Normal, status := status))
          case PassOn => Some(PassedStatus(r, status))
  }

  function BodyMeaning(w: World, sub: bool, c: Command, d: nat, env: Env, last: int, fuel: nat): Option<Result>
    requires c.While? && fuel > 0
    decreases fuel, c, 0, 0
  {
    match ScriptMeaning(w, sub, c.body, d, env, last, 0, fuel)
    case None => None
    case Some(s) =>
      match TurnOf(s.flow, d)
      case NextRound => RoundsMeaning(w, sub, c, d, s.env, s.last, s.status, fuel - 1)
      case EndLoop => Some(s.(flow := Normal))
      case PassOn => Some(s)
  }

  function WordsMeaning(w: World, sub: bool, c: Command, words: seq<string>, d: nat, env: Env, last: int, status: int, fuel: nat): Option<Result>
    requires c.For?
    decreases fuel, c, 0, |words|
  {
    if words == [] then Some(Result(Normal, status, env, last))
    else
      match ScriptMeaning(w, sub, c.body, d, env[c.name := words[0]], last, 0, fuel)
      case None => None
      case Some(s) =>
        match TurnOf(s.flow, d)
        case NextRound => WordsMeaning(w, sub, c, words[1..], d, s.env, s.last, s.status, fuel)
        case EndLoop => Some(s.(flow := Normal))
        case PassOn => Some(s)
  }

  // ----- what the grammar asks for -----

  /** Behind `k` loops of the piece, no `break` or `continue` reaches out of the piece. */
  predicate Contained(c: Command, k: nat) {
    match c
    case Break(n) => n <= k
    case Continue(n) => n <= k
    case Group(body) => forall x :: x in body ==> Contained(x, k)
    case If(cond, yes, no) =>
      (forall x :: x in cond ==> Contained(x, k)) && (forall x :: x in yes ==> Contained(x, k))
      && (forall x :: x in no ==> Contained(x, k))
    case While(_, cond, body) =>
      (forall x :: x in cond ==> Contained(x, k + 1)) && (forall x :: x in body ==> Contained(x, k + 1))
    case For(_, _, body) => forall x :: x in body ==> Contained(x, k + 1)
    case _ => true
  }

  predicate ContainedAll(cs: seq<Command>, k: nat) { forall x :: x in cs ==> Contained(x, k) }

  /** No `break` or `continue` reaches out of the condition of an `if`. */
  predicate Sound(c: Command) {
    match c
    case Group(body) => forall x :: x in body ==> Sound(x)
    case If(cond, yes, no) =>
      (forall x :: x in cond ==> Contained(x, 0)) && (forall x :: x in cond ==> Sound(x))
      && (forall x :: x in yes ==> Sound(x)) && (forall x :: x in no ==> Sound(x))
    case While(_, cond, body) => (forall x :: x in cond ==> Sound(x)) && (forall x :: x in body ==> Sound(x))
    case For(_, _, body) => forall x :: x in body ==> Sound(x)
    case _ => true
  }

  predicate SoundAll(cs: seq<Command>) { forall x :: x in cs ==> Sound(x) }

  /** A jump out of a piece run at depth `d + k` leads to a loop of the piece, or inside it. */
  predicate StaysIn(r: Option<Result>, d: nat, k: nat) {
    r.Some? ==>
      match r.value.flow
      case BreakTo(l) => d < l <= d + k
      case ContinueTo(l) => d < l <= d + k
      case _ => true
  }

  lemma {:induction false} ContainedStays(w: World, sub: bool, c: Command, k: nat, d: nat, env: Env, last: int, fuel: nat)
    requires Contained(c, k)
    ensures StaysIn(CommandMeaning(w, sub, c, d + k, env, last, fuel), d, k)
    decreases fuel, c, 1
  {
    match c
    case Simple(_) =>
    case Break(_) =>
    case Continue(_) =>
    case Exit(_) =>
    case Return(_) =>
    case Group(body) => ContainedScript(w, sub, body, k, d, env, last, 0, fuel);
    case If(cond, yes, no) =>
      ContainedScript(w, sub, cond, k, d, env, last, 0, fuel);
      match ScriptMeaning(w, sub, cond, d + k, env, last, 0, fuel) {
        case None =>
        case Some(r) =>
          ContainedScript(w, sub, yes, k, d, r.env, r.last, 0, fuel);
          ContainedScript(w, sub, no, k, d, r.env, r.last, 0, fuel);
      }
    case While(_, _, _) => ContainedRounds(w, sub, c, k, d, env, last, 0, fuel);
    case For(_, list, _) => ContainedWords(w, sub, c, w.words(list, env), k, d, env, last, 0, fuel);
  }

  lemma {:induction false} ContainedScript(w: World, sub: bool, cs: seq<Command>, k: nat, d: nat, env: Env, last: int, status: int, fuel: nat)
    requires ContainedAll(cs, k)
    ensures StaysIn(ScriptMeaning(w, sub, cs, d + k, env, last, status, fuel), d, k)
    decreases fuel, cs, 0
  {
    if cs != [] {
      ContainedStays(w, sub, cs[0], k, d, env, last, fuel);
      var r := CommandMeaning(w, sub, cs[0], d + k, env, last, fuel);
      if r.Some? && r.value.flow == Normal {
        ContainedScript(w, sub, cs[1..], k, d, r.value.env, r.value.status, r.value.status, fuel);
      }
    }
  }

  lemma {:induction false} ContainedRounds(w: World, sub: bool, c: Command, k: nat, d: nat, env: Env, last: int, status: int, fuel: nat)
    requires c.While? && Contained(c, k)
    ensures StaysIn(RoundsMeaning(w, sub, c, d + k + 1, env, last, status, fuel), d, k)
    decreases fuel, c, 0
  {
    if fuel > 0 {
      ContainedScript(w, sub, c.cond, k + 1, d, env, last, 0, fuel);
      var r := ScriptMeaning(w, sub, c.cond, d + (k + 1), env, last, 0, fuel);
      if r.Some? {
        ContainedScript(w, sub, c.body, k + 1, d, r.value.env, r.value.last, 0, fuel);
        var s := ScriptMeaning(w, sub, c.body, d + (k + 1), r.value.env, r.value.last, 0, fuel);
        ContainedRounds(w, sub, c, k, d, r.value.env, r.value.last, status, fuel - 1);
        if s.Some? {
          ContainedRounds(w, sub, c, k, d, s.value.env, s.value.last, s.value.status, fuel - 1);
        }
      }
    }
  }

  lemma {:induction false} ContainedWords(w: World, sub: bool, c: Command, words: seq<string>, k: nat, d: nat, env: Env, last: int, status: int, fuel: nat)
    requires c.For? && Contained(c, k)
    ensures StaysIn(WordsMeaning(w, sub, c, words, d + k + 1, env, last, status, fuel), d, k)
    decreases fuel, c, 0, |words|
  {
    if words != [] {
      ContainedScript(w, sub, c.body, k + 1, d, env[c.name := words[0]], last, 0, fuel);
      var s := ScriptMeaning(w, sub, c.body, d + (k + 1), env[c.name := words[0]], last, 0, fuel);
      if s.Some? {
        ContainedWords(w, sub, c, words[1..], k, d, s.value.env, s.value.last, s.value.status, fuel);
      }
    }
  }
}

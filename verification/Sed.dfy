// One cycle of the stream editor: which commands run on a line, and how the state of every
// two-address command is kept from line to line. What a command does to the text is left to the
// world; a command group and the change command are spelt out because they depend on ranges.
module Sed {
  import opened Options

  datatype Address = Address(
    lineNum: nat, regex: Option<nat>, last: bool, step: nat, reuseRegex: bool, relative: bool)

  datatype Kind = Group(sub: seq<Command>) | Change(text: string) | Other(code: nat)

  datatype Command = Command(id: nat, addr1: Option<Address>, addr2: Option<Address>, negated: bool, kind: Kind)

  datatype View = View(
    pattern: string, hold: string, lastRegex: Option<nat>, substituted: bool, appended: seq<string>, out: string)

  datatype Flow = Normal | Delete | Quit | QuitSilent | Branch

  /** Regular expressions and the remaining commands. `Branch` means a branch to the end of the script. */
  datatype World = World(
    matches: (nat, string) -> bool,
    act: (nat, View, int, bool) -> (View, Flow))

  datatype State = State(
    active: map<nat, bool>, start: map<nat, int>, lineNum: int, prevCycle: int, lastFull: int, view: View)

  function Lookup<V>(m: map<nat, V>, id: nat, zero: V): V { if id in m then m[id] else zero }

  predicate Active(st: State, id: nat) { Lookup(st.active, id, false) }

  function StartOf(st: State, id: nat): int { Lookup(st.start, id, 0) }

  // ----- addresses -----

  predicate NumberMatches(a: Address, lineNum: int) {
    if a.step > 0 then
      if a.lineNum == 0 then lineNum % a.step == 0
      else lineNum >= a.lineNum && (lineNum - a.lineNum) % a.step == 0
    else lineNum == a.lineNum
  }

  /** The test made for every range before a cycle's commands run. */
  predicate MatchesEarly(w: World, a: Address, v: View, lineNum: int, lastLine: bool) {
    if a.last then lastLine
    else if a.reuseRegex && v.lastRegex.Some? then w.matches(v.lastRegex.value, v.pattern)
    else if a.regex.Some? then w.matches(a.regex.value, v.pattern)
    else NumberMatches(a, lineNum)
  }

  /** The test made when a command is reached; a match also makes its expression the last one used. */
  predicate MatchesNow(w: World, addr: Option<Address>, v: View, lineNum: int, lastLine: bool) {
    match addr
    case None => true
    case Some(a) =>
      if a.last then lastLine
      else if a.reuseRegex then v.lastRegex.Some? && w.matches(v.lastRegex.value, v.pattern)
      else if a.regex.Some? then w.matches(a.regex.value, v.pattern)
      else NumberMatches(a, lineNum)
  }

  function Remember(w: World, addr: Option<Address>, v: View): View {
    if addr.Some? && !addr.value.last && !addr.value.reuseRegex && addr.value.regex.Some?
       && w.matches(addr.value.regex.value, v.pattern)
    then v.(lastRegex := addr.value.regex) else v
  }

  // ----- ranges -----

  function Activate(st: State, id: nat): State {
    st.(active := st.active[id := true], start := st.start[id := st.lineNum])
  }

  function Deactivate(st: State, id: nat): State { st.(active := st.active[id := false]) }

  predicate StartsEarly(w: World, c: Command, st: State, lastLine: bool) {
    c.addr1.Some? && c.addr2.Some? && !Active(st, c.id)
    && MatchesEarly(w, c.addr1.value, st.view, st.lineNum, lastLine)
  }

  function PreActivate(w: World, cmds: seq<Command>, st: State, lastLine: bool): State
    decreases cmds, 0
  {
    if cmds == [] then st
    else
      var c := cmds[0];
      var st1 := if StartsEarly(w, c, st, lastLine) then Activate(st, c.id) else st;
      PreActivate(w, cmds[1..], PreActivateInside(w, c, st1, lastLine), lastLine)
  }

  function PreActivateInside(w: World, c: Command, st: State, lastLine: bool): State
    decreases c, 1
  {
    match c.kind
    case Group(sub) => PreActivate(w, sub, st, lastLine)
    case _ => st
  }

  /** A first address that is a line number passed over since the previous cycle. */
  predicate Skipped(addr: Option<Address>, st: State) {
    addr.Some? && st.prevCycle > 0 && addr.value.lineNum > 0 && !addr.value.last && addr.value.regex.None?
    && st.prevCycle < addr.value.lineNum < st.lineNum
  }

  predicate OneLine(a2: Address, lineNum: int) {
    if a2.relative then a2.lineNum == 0 else 0 < a2.lineNum <= lineNum
  }

  predicate EndsHere(w: World, a2: Address, start: int, st: State, lastLine: bool) {
    if a2.relative then st.lineNum >= start + a2.lineNum
    else if a2.lineNum > 0 then st.lineNum >= a2.lineNum
    else if a2.last then lastLine
    else a2.regex.Some? && w.matches(a2.regex.value, st.view.pattern)
  }

  function Select(w: World, c: Command, st: State, lastLine: bool): (bool, State) {
    if c.addr1.None? && c.addr2.None? then (!c.negated, st)
    else if c.addr2.None? then
      (MatchesNow(w, c.addr1, st.view, st.lineNum, lastLine) != c.negated, st.(view := Remember(w, c.addr1, st.view)))
    else if !Active(st, c.id) then
      var matched := MatchesNow(w, c.addr1, st.view, st.lineNum, lastLine);
      var st1 := st.(view := Remember(w, c.addr1, st.view));
      if !matched && !Skipped(c.addr1, st) then (c.negated, st1)
      else if c.negated then (false, Activate(st1, c.id))
      else (true, if OneLine(c.addr2.value, st.lineNum) then Deactivate(Activate(st1, c.id), c.id) else Activate(st1, c.id))
    else
      (!c.negated, if EndsHere(w, c.addr2.value, StartOf(st, c.id), st, lastLine) then Deactivate(st, c.id) else st)
  }

  // ----- commands and cycles -----

  function Write(v: View, line: string): View { v.(out := v.out + line + "\n") }

  function ExecOne(w: World, c: Command, st: State, lastLine: bool): (State, Flow)
    decreases c, 2
  {
    match c.kind
    case Group(sub) => Exec(w, sub, st, lastLine)
    case Change(text) =>
      (if c.addr2.None? || !Active(st, c.id) then st.(view := Write(st.view, text)) else st, Delete)
    case Other(code) =>
      var (v, flow) := w.act(code, st.view, st.lineNum, lastLine);
      (st.(view := v), flow)
  }

  /** The commands in order, until one of them ends the list. */
  function ExecFrom(w: World, cmds: seq<Command>, st: State, lastLine: bool): (State, Flow)
    decreases cmds, 0
  {
    if cmds == [] then (st, Normal)
    else
      var (selected, st1) := Select(w, cmds[0], st, lastLine);
      if !selected then ExecFrom(w, cmds[1..], st1, lastLine)
      else
        var (st2, flow) := ExecOne(w, cmds[0], st1, lastLine);
        if flow == Normal then ExecFrom(w, cmds[1..], st2, lastLine) else (st2, flow)
  }

  function Exec(w: World, cmds: seq<Command>, st: State, lastLine: bool): (State, Flow)
    decreases cmds, 1
  {
    var (after, flow) := ExecFrom(w, cmds, PreActivate(w, cmds, st, lastLine), lastLine);
    (after, if flow == Branch then Normal else flow)
  }

  function WriteAll(v: View, lines: seq<string>): View
    decreases lines
  {
    if lines == [] then v else WriteAll(Write(v, lines[0]), lines[1..])
  }

  /** The state in which a line's commands start. */
  function Enter(st: State, line: string): State {
    st.(view := st.view.(pattern := line, substituted := false, appended := []),
        prevCycle := st.lastFull, lastFull := st.lineNum)
  }

  /** Printing at the end of a cycle; a negative line number asks to stop. */
  function Leave(st: State, flow: Flow, quiet: bool): State {
    match flow
    case Delete => st.(view := WriteAll(st.view, st.view.appended))
    case QuitSilent => st.(lineNum := -1)
    case _ =>
      var shown := if quiet then st.view else Write(st.view, st.view.pattern);
      st.(view := WriteAll(shown, st.view.appended), lineNum := if flow == Quit then -1 else st.lineNum)
  }

  function ProcessLine(w: World, prog: seq<Command>, quiet: bool, line: string, lastLine: bool, st: State): State {
    var (after, flow) := Exec(w, prog, Enter(st, line), lastLine);
    Leave(after, flow, quiet)
  }

  function Next(st: State): State { st.(lineNum := st.lineNum + 1) }

  function RunLines(w: World, prog: seq<Command>, quiet: bool, lines: seq<string>, k: nat, st: State): State
    requires k <= |lines|
    decreases |lines| - k
  {
    if k == |lines| then st
    else
      var after := ProcessLine(w, prog, quiet, lines[k], k + 1 == |lines|, Next(st));
      if after.lineNum < 0 then after else RunLines(w, prog, quiet, lines, k + 1, after)
  }

  const INITIAL: State := State(map[], map[], 0, 0, 0, View("", "", None, false, [], ""))
}

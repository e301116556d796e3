// From tokens to commands: how the runner finds the commands of a script, and what it makes of them.
// It reads every body anew each time it runs it; reading is the same each time.
module Reading {
  import opened Terminator
  import opened Clauses
  import L = Loops
  import T = Tokens

  /** A command that is no compound. */
  type Plain = c: L.Command | c.Simple? || c.Break? || c.Continue? || c.Exit? || c.Return?
    witness L.Simple(0)

  /** What the words of a command without parts stand for, and the lists that loops go through. */
  datatype Lexicon = Lexicon(plain: seq<string> -> Plain, list: seq<string> -> nat, args: nat)

  /** The place of the first separator from `i` on, or the end. */
  function PieceEnd(ts: seq<string>, i: nat): (n: nat)
    requires i <= |ts|
    ensures i <= n <= |ts|
    decreases |ts| - i
  {
    if i == |ts| || T.IsSeparator(ts[i]) then i else PieceEnd(ts, i + 1)
  }

  /** Pieces are joined until the compound at their start is complete, or there are no more. */
  function Complete(ts: seq<string>, n: nat): (e: nat)
    requires n <= |ts|
    ensures n <= e <= |ts|
    decreases |ts| - n
  {
    if n == |ts| || Find(ts[..n], 0) != -1 then n else Complete(ts, PieceEnd(ts, n + 1))
  }

  /** The number of tokens of the first command. */
  function Extent(ts: seq<string>): (n: nat)
    requires ts != [] && !T.IsSeparator(ts[0])
    ensures 0 < n <= |ts|
  {
    var n := PieceEnd(ts, 1);
    if Closer(ts[0]) == "" then n else Complete(ts, n)
  }

  /** All parts of an `if` have fewer than `n` tokens. */
  predicate Below(p: IfParts, n: nat) {
    |p.no| < n && forall a :: a in p.arms ==> |a.cond| < n && |a.body| < n
  }

  lemma {:induction false} ClausesBelow(ts: seq<string>, n: nat)
    requires |ts| < n && CutClauses(ts).Some?
    ensures Below(CutClauses(ts).value, n)
    decreases |ts|, 1
  {
    var t := IndexToken(ts, "then");
    BodyBelow(ts[..t], ts[t + 1..], n);
  }

  lemma {:induction false} BodyBelow(cond: seq<string>, ts: seq<string>, n: nat)
    requires |cond| < n && |ts| < n && CutBody(cond, ts).Some?
    ensures Below(CutBody(cond, ts).value, n)
    decreases |ts|, 0
  {
    var k := BodyLength(ts);
    if k < |ts| && ts[k] != "fi" && ts[k] != "else" {
      ClausesBelow(ts[k + 1..], n);
    }
  }

  /** The commands of a script. */
  function Read(x: Lexicon, ts: seq<string>): seq<L.Command>
    decreases |ts|, 1
  {
    if ts == [] then []
    else if T.IsSeparator(ts[0]) then Read(x, ts[1..])
    else
      var n := Extent(ts);
      [CommandOf(x, ts[..n])] + if n == |ts| then [] else Read(x, ts[n..])
  }

  /** One command, from its tokens. */
  function CommandOf(x: Lexicon, ts: seq<string>): L.Command
    requires ts != []
    decreases |ts|, 0
  {
    if CutIf(ts).Some? then
      ClausesBelow(ts[1..], |ts|);
      IfOf(x, CutIf(ts).value, |ts|)
    else if CutLoop(ts).Some? then
      var p := CutLoop(ts).value;
      L.While(ts[0] == "until", Read(x, p.cond), Read(x, p.body))
    else if CutFor(ts).Some? then
      (match CutFor(ts).value
       case InLoop(name, words, body) => L.For(name, x.list(words), Read(x, body))
       case ArgsLoop(name, body) => L.For(name, x.args, Read(x, body)))
    else if CutGroup(ts).Some? then L.Group(Read(x, CutGroup(ts).value))
    else x.plain(ts)
  }

  /** The arms of an `if`: each `elif` is an `if` in the `else` part of the arm before. */
  function IfOf(x: Lexicon, p: IfParts, n: nat): L.Command
    requires p.arms != [] && Below(p, n)
    decreases n, 0, |p.arms|
  {
    var arm, rest := p.arms[0], p.arms[1..];
    assert arm in p.arms;
    L.If(Read(x, arm.cond), Read(x, arm.body),
         if rest == [] then Read(x, p.no) else [IfOf(x, IfParts(rest, p.no), n)])
  }

  /** The first arm of an `if`, and the others. */
  lemma ArmIsRead(x: Lexicon, p: IfParts, n: nat)
    requires p.arms != [] && Below(p, n)
    ensures Below(IfParts(p.arms[1..], p.no), n)
    ensures IfOf(x, p, n) == L.If(Read(x, p.arms[0].cond), Read(x, p.arms[0].body),
                                  if |p.arms| == 1 then Read(x, p.no) else [IfOf(x, IfParts(p.arms[1..], p.no), n)])
  {
    hide Read;
  }
}

// How the runner cuts a compound command into its parts, each time it runs it: the words are looked
// for in the list of tokens, without regard to the compounds nested inside.
module Clauses {
  import opened Options
  import opened Terminator
  import opened Compounds
  import opened CompoundExamples
  import T = Tokens

  /** One or more `;` and `&`. */
  predicate OnlyTerminators(s: string) {
    s != "" && forall k :: 0 <= k < |s| ==> s[k] == ';' || s[k] == '&'
  }

  /** The word itself, or the word with terminators glued to it. */
  predicate IsWord(t: string, w: string) {
    t == w || (w <= t && OnlyTerminators(t[|w|..]))
  }

  /** Glued to the word stand characters out of `;` and `&` only. */
  lemma GluedExactly(t: string, w: string)
    ensures IsWord(t, w) <==> exists s: string :: t == w + s && forall c :: c in s ==> c in ";&"
  {
    assert t == w ==> t == w + "";
    if w <= t {
      assert t == w + t[|w|..];
      assert forall c :: c in ";&" <==> c == ';' || c == '&';
    }
    forall s: string | t == w + s && forall c :: c in s ==> c in ";&" ensures IsWord(t, w) {
      assert t[|w|..] == s;
      assert s == "" ==> t == w;
      forall k | 0 <= k < |s| ensures s[k] == ';' || s[k] == '&' { assert s[k] in s; }
    }
  }

  lemma OtherLetter(t: string, w: string)
    requires t != "" && w != "" && t[0] != w[0]
    ensures !IsWord(t, w)
  {
    assert !(w <= t) by {
      assert w[0] != t[0];
    }
  }

  predicate Lacks(ts: seq<string>, w: string) {
    forall k :: 0 <= k < |ts| ==> !IsWord(ts[k], w)
  }

  /** The place of the first token that is `w`, or -1. */
  function IndexToken(ts: seq<string>, w: string): (r: int)
    ensures -1 <= r < |ts|
  {
    if ts == [] then -1
    else if IsWord(ts[0], w) then 0
    else
      var r := IndexToken(ts[1..], w);
      if r == -1 then -1 else r + 1
  }

  lemma {:induction false} IndexIsFirst(ts: seq<string>, w: string)
    ensures var r := IndexToken(ts, w);
            && (r == -1 <==> Lacks(ts, w))
            && (r >= 0 ==> IsWord(ts[r], w))
            && forall k :: 0 <= k < r ==> !IsWord(ts[k], w)
  {
    hide IsWord;
    if ts != [] {
      assert ts == [ts[0]] + ts[1..];
      IndexIsFirst(ts[1..], w);
    }
  }

  method FindToken(ts: seq<string>, w: string) returns (r: int)
    ensures r == IndexToken(ts, w)
  {
    for i := 0 to |ts|
      invariant IndexToken(ts, w) == if IndexToken(ts[i..], w) == -1 then -1 else i + IndexToken(ts[i..], w)
    {
      assert ts[i..][0] == ts[i] && ts[i..][1..] == ts[i + 1..];
      if IsWord(ts[i], w) {
        return i;
      }
    }
    return -1;
  }

  /** The first `w` is the one behind `u` if and only if there is none in `u`. */
  lemma IndexBehind(u: seq<string>, k: string, v: seq<string>, w: string)
    requires IsWord(k, w)
    ensures 0 <= IndexToken(u + ([k] + v), w) <= |u|
    ensures IndexToken(u + ([k] + v), w) == |u| <==> Lacks(u, w)
  {
    hide IsWord;
    var ts := u + ([k] + v);
    IndexIsFirst(ts, w);
    assert ts[|u|] == k && forall j :: 0 <= j < |u| ==> ts[j] == u[j];
  }

  // ----- `if` -----

  predicate EndsClause(t: string) { t == "elif" || t == "else" || t == "fi" }

  predicate LacksClauseWords(ts: seq<string>) {
    forall k :: 0 <= k < |ts| ==> !EndsClause(ts[k])
  }

  /** The length of the body of a clause: up to the first word that ends a clause, of whichever `if`. */
  function BodyLength(ts: seq<string>): (n: nat)
    ensures n <= |ts|
  {
    if ts == [] || EndsClause(ts[0]) then 0 else BodyLength(ts[1..]) + 1
  }

  lemma {:induction false} LengthIsFirst(ts: seq<string>)
    ensures var n := BodyLength(ts);
            (n < |ts| ==> EndsClause(ts[n])) && forall k :: 0 <= k < n ==> !EndsClause(ts[k])
  {
    hide EndsClause;
    if ts != [] {
      assert ts == [ts[0]] + ts[1..];
      LengthIsFirst(ts[1..]);
    }
  }

  lemma LengthBehind(u: seq<string>, k: string, v: seq<string>)
    requires EndsClause(k)
    ensures BodyLength(u + ([k] + v)) <= |u|
    ensures BodyLength(u + ([k] + v)) == |u| <==> LacksClauseWords(u)
  {
    hide EndsClause;
    var ts := u + ([k] + v);
    LengthIsFirst(ts);
    assert ts[|u|] == k && forall j :: 0 <= j < |u| ==> ts[j] == u[j];
  }

  datatype Arm = Arm(cond: seq<string>, body: seq<string>)

  /** The arms of an `if`, and the tokens of the `else` part. */
  datatype IfParts = IfParts(arms: seq<Arm>, no: seq<string>)

  function Prepend(arms: seq<Arm>, parts: Option<IfParts>): Option<IfParts> {
    if parts.None? then None else Some(IfParts(arms + parts.value.arms, parts.value.no))
  }

  lemma NothingPrepended(parts: Option<IfParts>)
    ensures Prepend([], parts) == parts
  {
    assert parts.Some? ==> [] + parts.value.arms == parts.value.arms;
  }

  lemma PrependTwice(a: seq<Arm>, b: seq<Arm>, parts: Option<IfParts>)
    ensures Prepend(a, Prepend(b, parts)) == Prepend(a + b, parts)
  {
    assert parts.Some? ==> a + (b + parts.value.arms) == (a + b) + parts.value.arms;
  }

  /** The clauses in the tokens behind `if` or `elif`; a missing `fi` is not missed. */
  function CutClauses(ts: seq<string>): (p: Option<IfParts>)
    ensures p.Some? ==> p.value.arms != [] && |p.value.arms[0].cond| == IndexToken(ts, "then")
    decreases |ts|
  {
    var t := IndexToken(ts, "then");
    if t == -1 then None else CutBody(ts[..t], ts[t + 1..])
  }

  /** The clauses from a body on, its condition being known. */
  function CutBody(cond: seq<string>, ts: seq<string>): (p: Option<IfParts>)
    ensures p.Some? ==> p.value.arms != [] && p.value.arms[0] == Arm(cond, ts[..BodyLength(ts)])
    decreases |ts|
  {
    var n := BodyLength(ts);
    var arm := Arm(cond, ts[..n]);
    if n >= |ts| || ts[n] == "fi" then Some(IfParts([arm], []))
    else if ts[n] == "else" then
      var k := IndexToken(ts[n + 1..], "fi");
      if k == -1 then None else Some(IfParts([arm], ts[n + 1..][..k]))
    else Prepend([arm], CutClauses(ts[n + 1..]))
  }

  /** The parts of an `if` command, if it is one. */
  function CutIf(ts: seq<string>): Option<IfParts> {
    if ts == [] || ts[0] != "if" then None else CutClauses(ts[1..])
  }

  method FindBodyEnd(ts: seq<string>, start: nat) returns (idx: nat)
    requires start <= |ts|
    ensures idx == start + BodyLength(ts[start..])
  {
    idx := start;
    while idx < |ts| && !EndsClause(ts[idx])
      invariant start <= idx <= |ts| && forall k :: start <= k < idx ==> !EndsClause(ts[k])
    {
      idx := idx + 1;
    }
    LengthIs(ts, start, idx);
  }

  /** The cut of what is left of an `if`, from the places that the runner's loop finds. */
  lemma BodyStep(arms: seq<Arm>, cond: seq<string>, ts: seq<string>, start: nat, idx: nat)
    requires start <= |ts| && idx == start + BodyLength(ts[start..])
    ensures var all, more := arms + [Arm(cond, ts[start..idx])], if idx < |ts| then ts[idx + 1..] else [];
            var t, fi := IndexToken(more, "then"), IndexToken(more, "fi");
            Prepend(arms, CutBody(cond, ts[start..])) ==
              if idx == |ts| || ts[idx] == "fi" then Some(IfParts(all, []))
              else if ts[idx] == "else" then (if fi == -1 then None else Some(IfParts(all, more[..fi])))
              else if t == -1 then None
              else Prepend(all, CutBody(more[..t], more[t + 1..]))
  {
    hide *;
    SlicesOfSlice(ts, start, idx);
    CutBodyIs(cond, ts[start..], idx - start);
    if idx < |ts| {
      CutClausesIs(ts[idx + 1..]);
      PrependTwice(arms, [Arm(cond, ts[start..idx])], CutClauses(ts[idx + 1..]));
    }
    PrependMakes(arms, Arm(cond, ts[start..idx]));
    PrependMakes(arms + [Arm(cond, ts[start..idx])], Arm(cond, ts[start..idx]));
  }

  lemma SlicesOfSlice(ts: seq<string>, start: nat, idx: nat)
    requires start <= idx <= |ts|
    ensures var u, n := ts[start..], idx - start;
            u[..n] == ts[start..idx] && |u| == |ts| - start && (n < |u| ==> u[n] == ts[idx] && u[n + 1..] == ts[idx + 1..])
  {
  }

  lemma CutBodyIs(cond: seq<string>, u: seq<string>, n: nat)
    requires n == BodyLength(u)
    ensures n <= |u|
    ensures CutBody(cond, u) ==
              if n == |u| || u[n] == "fi" then Some(IfParts([Arm(cond, u[..n])], []))
              else if u[n] == "else" then
                (var k := IndexToken(u[n + 1..], "fi");
                 if k == -1 then None else Some(IfParts([Arm(cond, u[..n])], u[n + 1..][..k])))
              else Prepend([Arm(cond, u[..n])], CutClauses(u[n + 1..]))
  {
    hide BodyLength, IndexToken, CutClauses, Prepend;
  }

  lemma CutClausesIs(more: seq<string>)
    ensures var t := IndexToken(more, "then");
            CutClauses(more) == if t == -1 then None else CutBody(more[..t], more[t + 1..])
  {
    hide IndexToken, CutBody;
  }

  lemma PrependMakes(arms: seq<Arm>, arm: Arm)
    ensures forall no :: Prepend(arms, Some(IfParts([arm], no))) == Some(IfParts(arms + [arm], no))
    ensures Prepend(arms, None) == None
  {
  }

  lemma FirstCondition(ts: seq<string>)
    requires ts != [] && ts[0] == "if"
    ensures var t := IndexToken(ts, "then");
            && t != 0
            && CutIf(ts) == if t == -1 then None else Prepend([], CutBody(ts[1..t], ts[t + 1..]))
  {
    var t := IndexToken(ts, "then");
    if t != -1 {
      assert ts[1..][..t - 1] == ts[1..t] && ts[1..][t..] == ts[t + 1..];
      NothingPrepended(CutBody(ts[1..t], ts[t + 1..]));
    }
  }

  /** The runner's loop over the clauses. */
  method FindClauses(ts: seq<string>) returns (parts: Option<IfParts>)
    ensures parts == CutIf(ts)
  {
    hide CutBody, BodyLength, IsWord, Prepend;
    if ts == [] || ts[0] != "if" {
      return None;
    }
    var t := FindToken(ts, "then");
    FirstCondition(ts);
    if t == -1 {
      return None;
    }
    var arms: seq<Arm>, cond, idx := [], ts[1..t], t + 1;
    while true
      invariant idx <= |ts| && CutIf(ts) == Prepend(arms, CutBody(cond, ts[idx..]))
      decreases |ts| - idx
    {
      var start := idx;
      idx := FindBodyEnd(ts, start);
      BodyStep(arms, cond, ts, start, idx);
      arms := arms + [Arm(cond, ts[start..idx])];
      if idx == |ts| || ts[idx] == "fi" {
        return Some(IfParts(arms, []));
      }
      var more := ts[idx + 1..];
      if ts[idx] == "else" {
        var fi := FindToken(more, "fi");
        return if fi == -1 then None else Some(IfParts(arms, more[..fi]));
      }
      t := FindToken(more, "then");
      if t == -1 {
        return None;
      }
      cond, idx := more[..t], idx + 1 + t + 1;
      assert more[t + 1..] == ts[idx..];
    }
  }

  lemma {:induction false} LengthIs(ts: seq<string>, start: nat, end: nat)
    requires start <= end <= |ts| && (end == |ts| || EndsClause(ts[end]))
    requires forall k :: start <= k < end ==> !EndsClause(ts[k])
    ensures BodyLength(ts[start..]) == end - start
    decreases end - start
  {
    hide EndsClause;
    if start < end {
      LengthIs(ts, start + 1, end);
      assert ts[start..][0] == ts[start] && ts[start..][1..] == ts[start + 1..];
    } else if end < |ts| {
      assert ts[start..][0] == ts[end];
    }
  }

  // ----- loops -----

  datatype LoopParts = LoopParts(cond: seq<string>, body: seq<string>)

  /** The parts of a `while` or `until` loop: the first `do` ends the condition, of whichever loop it is. */
  function CutLoop(ts: seq<string>): Option<LoopParts> {
    if ts == [] || (ts[0] != "while" && ts[0] != "until") then None
    else
      var d, e := IndexToken(ts, "do"), Find(ts, 0);
      if d < 1 || e <= d then None else Some(LoopParts(ts[1..d], ts[d + 1..e]))
  }

  function WithoutSeparators(ts: seq<string>): seq<string> {
    if ts == [] then []
    else (if T.IsSeparator(ts[0]) then [] else [ts[0]]) + WithoutSeparators(ts[1..])
  }

  /** The first `do` from `j` on that stands behind a separator, or -1. */
  function ForDo(ts: seq<string>, j: nat): (r: int)
    requires j > 0
    ensures r == -1 || j <= r < |ts|
    decreases |ts| - j
  {
    if j >= |ts| then -1
    else if IsWord(ts[j], "do") && T.IsSeparator(ts[j - 1]) then j
    else ForDo(ts, j + 1)
  }

  datatype ForParts = InLoop(name: string, words: seq<string>, body: seq<string>) | ArgsLoop(name: string, body: seq<string>)

  /** The parts of a `for` loop. It has no list only if there is no `in` anywhere in its tokens. */
  function CutFor(ts: seq<string>): Option<ForParts> {
    if |ts| < 3 || ts[0] != "for" then None
    else
      var i, d, e := IndexToken(ts, "in"), IndexToken(ts, "do"), Find(ts, 0);
      if i == -1 && d >= 0 && e > d then Some(ArgsLoop(ts[1], ts[d + 1..e]))
      else if i == -1 || e == -1 then None
      else
        var f := ForDo(ts, i + 2);
        if f == -1 || e <= f then None
        else Some(InLoop(ts[1], WithoutSeparators(ts[i + 1..f]), ts[f + 1..e]))
  }

  /** The inside of a brace group without redirections. */
  function CutGroup(ts: seq<string>): Option<seq<string>> {
    if ts == [] || ts[0] != "{" || Find(ts, 0) != |ts| - 1 || |ts| == 1 then None else Some(ts[1..|ts| - 1])
  }

  method FindLoopParts(ts: seq<string>) returns (parts: Option<LoopParts>)
    ensures parts == CutLoop(ts)
  {
    if ts == [] || (ts[0] != "while" && ts[0] != "until") {
      return None;
    }
    var d := FindToken(ts, "do");
    var e := FindMatchingTerminator(ts, 0);
    return if d < 1 || e <= d then None else Some(LoopParts(ts[1..d], ts[d + 1..e]));
  }

  method FindGroup(ts: seq<string>) returns (inside: Option<seq<string>>)
    ensures inside == CutGroup(ts)
  {
    if ts == [] || ts[0] != "{" {
      return None;
    }
    var e := FindMatchingTerminator(ts, 0);
    return if e != |ts| - 1 || |ts| == 1 then None else Some(ts[1..|ts| - 1]);
  }

  method FindForDo(ts: seq<string>, from: nat) returns (r: int)
    requires from > 0
    ensures r == ForDo(ts, from)
  {
    var j := from;
    while j < |ts|
      invariant from <= j && ForDo(ts, from) == ForDo(ts, j)
    {
      if IsWord(ts[j], "do") && T.IsSeparator(ts[j - 1]) {
        return j;
      }
      j := j + 1;
    }
    return -1;
  }

  method DropSeparators(ts: seq<string>) returns (words: seq<string>)
    ensures words == WithoutSeparators(ts)
  {
    hide T.IsSeparator;
    words := [];
    assert [] + WithoutSeparators(ts[0..]) == WithoutSeparators(ts) by {
      assert ts[0..] == ts;
    }
    for k := 0 to |ts|
      invariant words + WithoutSeparators(ts[k..]) == WithoutSeparators(ts)
    {
      DropStep(words, ts, k);
      if !T.IsSeparator(ts[k]) {
        words := words + [ts[k]];
      }
    }
    assert ts[|ts|..] == [];
  }

  lemma DropStep(words: seq<string>, ts: seq<string>, k: nat)
    requires k < |ts|
    ensures words + WithoutSeparators(ts[k..])
         == (if T.IsSeparator(ts[k]) then words else words + [ts[k]]) + WithoutSeparators(ts[k + 1..])
  {
    assert ts[k..][0] == ts[k] && ts[k..][1..] == ts[k + 1..];
    var more := WithoutSeparators(ts[k + 1..]);
    assert WithoutSeparators(ts[k..]) == (if T.IsSeparator(ts[k]) then [] else [ts[k]]) + more;
    assert words + ([ts[k]] + more) == (words + [ts[k]]) + more && [] + more == more;
  }

  method FindForParts(ts: seq<string>) returns (parts: Option<ForParts>)
    ensures parts == CutFor(ts)
  {
    hide IndexToken, ForDo, Find, WithoutSeparators;
    if |ts| < 3 || ts[0] != "for" {
      return None;
    }
    var i := FindToken(ts, "in");
    var d := FindToken(ts, "do");
    var e := FindMatchingTerminator(ts, 0);
    if i == -1 && d >= 0 && e > d {
      return Some(ArgsLoop(ts[1], ts[d + 1..e]));
    }
    if i == -1 || e == -1 {
      return None;
    }
    var f := FindForDo(ts, i + 2);
    if f == -1 || e <= f {
      return None;
    }
    var words := DropSeparators(ts[i + 1..f]);
    return Some(InLoop(ts[1], words, ts[f + 1..e]));
  }

  // ----- what the cuts return -----

  function ElifArms(e: Elifs): seq<Arm> {
    match e
    case NoElif => []
    case Elif(cond, yes, rest) => [Arm(BlockTokens(cond), BlockTokens(yes))] + ElifArms(rest)
  }

  function OtherwiseTokens(e: Otherwise): seq<string> {
    match e
    case NoElse => []
    case Else(body) => BlockTokens(body)
  }

  /** The parts that the grammar gives an `if`. */
  function PartsOf(c: Command): IfParts
    requires c.If?
  {
    IfParts([Arm(BlockTokens(c.cond), BlockTokens(c.yes))] + ElifArms(c.elifs), OtherwiseTokens(c.no))
  }

  predicate ArmsApart(e: Elifs, no: Otherwise) {
    match e
    case NoElif => no.Else? ==> Lacks(BlockTokens(no.body), "fi")
    case Elif(cond, yes, rest) =>
      Lacks(BlockTokens(cond), "then") && LacksClauseWords(BlockTokens(yes)) && ArmsApart(rest, no)
  }

  /** No condition holds a `then`, no body in front of the `else` part one of `elif`, `else` and `fi`, and
      the `else` part no `fi`: so no `if` is nested in it except at the end of a body. */
  predicate ClausesApart(c: Command)
    requires c.If?
  {
    Lacks(BlockTokens(c.cond), "then") && LacksClauseWords(BlockTokens(c.yes)) && ArmsApart(c.elifs, c.no)
  }

  /** The tokens behind a body. */
  function Behind(e: Elifs, no: Otherwise, tail: seq<string>): seq<string> {
    ElifTokens(e) + (ElseTokens(no) + (["fi"] + tail))
  }

  /** An arm, and what its tokens are. */
  function Clause(cond: seq<string>, yes: seq<string>, rest: seq<string>): seq<string> {
    cond + (["then"] + (yes + rest))
  }

  lemma BehindStarts(e: Elifs, no: Otherwise, tail: seq<string>)
    ensures var rest := Behind(e, no, tail);
            match e
            case Elif(cond, yes, more) =>
              rest == ["elif"] + Clause(BlockTokens(cond), BlockTokens(yes), Behind(more, no, tail))
            case NoElif =>
              rest == if no.Else? then ["else"] + (BlockTokens(no.body) + (["fi"] + tail)) else ["fi"] + tail
  {
    match e
    case Elif(cond, yes, more) =>
      var c, y, m, t := BlockTokens(cond), BlockTokens(yes), ElifTokens(more), ElseTokens(no) + (["fi"] + tail);
      Regroup(["elif"], c, ["then"], y, m, t);
    case NoElif =>
      assert [] + (ElseTokens(no) + (["fi"] + tail)) == ElseTokens(no) + (["fi"] + tail);
      if no.Else? {
        assert (["else"] + BlockTokens(no.body)) + (["fi"] + tail) == ["else"] + (BlockTokens(no.body) + (["fi"] + tail));
      }
  }

  lemma Regroup(a: seq<string>, b: seq<string>, c: seq<string>, d: seq<string>, e: seq<string>, f: seq<string>)
    ensures (a + (b + ((c + d) + e))) + f == a + (b + (c + (d + (e + f))))
  {
  }

  /** A body that is followed by the word `k` that ends its clause. */
  lemma BodyStops(cond: seq<string>, yes: seq<string>, k: string, more: seq<string>)
    requires EndsClause(k)
    ensures var p, arm := CutBody(cond, yes + ([k] + more)), Arm(cond, yes);
            if !LacksClauseWords(yes) then p.Some? ==> p.value.arms[0] != arm
            else if k == "fi" then p == Some(IfParts([arm], []))
            else if k == "else" then
              (var i := IndexToken(more, "fi"); p == if i == -1 then None else Some(IfParts([arm], more[..i])))
            else p == Prepend([arm], CutClauses(more))
  {
    var ts := yes + ([k] + more);
    LengthBehind(yes, k, more);
    if BodyLength(ts) == |yes| {
      assert ts[..|yes|] == yes && ts[|yes|] == k && ts[|yes| + 1..] == more;
    }
  }

  lemma ConditionStops(cond: seq<string>, yes: seq<string>, rest: seq<string>)
    ensures var p := CutClauses(Clause(cond, yes, rest));
            if Lacks(cond, "then") then p == CutBody(cond, yes + rest)
            else p.Some? ==> p.value.arms[0].cond != cond
  {
    var ts := Clause(cond, yes, rest);
    IndexBehind(cond, "then", yes + rest, "then");
    if IndexToken(ts, "then") == |cond| {
      assert ts[..|cond|] == cond && ts[|cond| + 1..] == yes + rest;
    }
  }

  lemma {:induction false} BodyCutExactly(cond: seq<string>, yes: seq<string>, e: Elifs, no: Otherwise, tail: seq<string>)
    ensures CutBody(cond, yes + Behind(e, no, tail)) == Some(IfParts([Arm(cond, yes)] + ElifArms(e), OtherwiseTokens(no)))
       <==> LacksClauseWords(yes) && ArmsApart(e, no)
    decreases e, 0
  {
    hide CutBody, CutClauses, Behind, Clause, LacksClauseWords, Lacks;
    var want := IfParts([Arm(cond, yes)] + ElifArms(e), OtherwiseTokens(no));
    assert want.arms[0] == Arm(cond, yes);
    BehindStarts(e, no, tail);
    match e
    case Elif(c, y, more) =>
      var next := Clause(BlockTokens(c), BlockTokens(y), Behind(more, no, tail));
      BodyStops(cond, yes, "elif", next);
      ClauseCutExactly(BlockTokens(c), BlockTokens(y), more, no, tail);
      PrependInjective(Arm(cond, yes), CutClauses(next), IfParts(ElifArms(e), OtherwiseTokens(no)));
    case NoElif =>
      assert [Arm(cond, yes)] + ElifArms(e) == [Arm(cond, yes)];
      if no.Else? {
        var b := BlockTokens(no.body);
        BodyStops(cond, yes, "else", b + (["fi"] + tail));
        IndexBehind(b, "fi", tail, "fi");
        assert (b + (["fi"] + tail))[..|b|] == b;
      } else {
        BodyStops(cond, yes, "fi", tail);
      }
  }

  lemma PrependInjective(arm: Arm, p: Option<IfParts>, q: IfParts)
    ensures Prepend([arm], p) == Some(IfParts([arm] + q.arms, q.no)) <==> p == Some(q)
  {
    if p.Some? {
      assert ([arm] + p.value.arms)[1..] == p.value.arms && ([arm] + q.arms)[1..] == q.arms;
    }
  }

  lemma {:induction false} ClauseCutExactly(cond: seq<string>, yes: seq<string>, e: Elifs, no: Otherwise, tail: seq<string>)
    ensures CutClauses(Clause(cond, yes, Behind(e, no, tail))) == Some(IfParts([Arm(cond, yes)] + ElifArms(e), OtherwiseTokens(no)))
       <==> Lacks(cond, "then") && LacksClauseWords(yes) && ArmsApart(e, no)
    decreases e, 1
  {
    hide CutBody, CutClauses, Behind, Clause, LacksClauseWords, Lacks;
    assert ([Arm(cond, yes)] + ElifArms(e))[0] == Arm(cond, yes);
    ConditionStops(cond, yes, Behind(e, no, tail));
    if Lacks(cond, "then") {
      BodyCutExactly(cond, yes, e, no, tail);
    }
  }

  /** The cut of an `if` gives its conditions and bodies if and only if its clauses are apart. */
  lemma IfIsCutExactly(c: Command)
    requires c.If?
    ensures CutIf(Tokens(c)) == Some(PartsOf(c)) <==> ClausesApart(c)
  {
    var e := Behind(c.elifs, c.no, c.redirs);
    assert Tokens(c) == ["if"] + Clause(BlockTokens(c.cond), BlockTokens(c.yes), e) by {
      assert Front(c) == ["if"] + (BlockTokens(c.cond) + Compounds.Clauses(c));
      IfTokens(BlockTokens(c.cond), BlockTokens(c.yes), ElifTokens(c.elifs), ElseTokens(c.no), c.redirs);
    }
    assert Tokens(c)[1..] == Clause(BlockTokens(c.cond), BlockTokens(c.yes), e);
    ClauseCutExactly(BlockTokens(c.cond), BlockTokens(c.yes), c.elifs, c.no, c.redirs);
  }

  lemma IfTokens(cond: seq<string>, yes: seq<string>, e: seq<string>, n: seq<string>, redirs: seq<string>)
    ensures (["if"] + (cond + ((["then"] + yes) + (e + n)))) + (["fi"] + redirs)
         == ["if"] + Clause(cond, yes, e + (n + (["fi"] + redirs)))
  {
  }

  // ----- nested `if`s that are cut wrongly -----

  const INNER := ["if", "b", ";", "then", "c", ";"]

  lemma InnerLacksClauseWords()
    ensures LacksClauseWords(INNER)
  {
  }

  /** `if a; then if b; then c; fi; d; fi`: the command behind the inner `if` belongs to no part. */
  lemma CommandBehindInnerIfIsLost()
    ensures CutIf(["if"] + Clause(["a", ";"], INNER, ["fi", ";", "d", ";", "fi"])) == Some(IfParts([Arm(["a", ";"], INNER)], []))
  {
    InnerLacksClauseWords();
    ConditionLacksThen();
    BodyStops(["a", ";"], INNER, "fi", [";", "d", ";", "fi"]);
    assert ["fi"] + [";", "d", ";", "fi"] == ["fi", ";", "d", ";", "fi"];
    ConditionStops(["a", ";"], INNER, ["fi", ";", "d", ";", "fi"]);
    CutIfIs(Clause(["a", ";"], INNER, ["fi", ";", "d", ";", "fi"]));
    hide *;
  }

  const BEHIND_INNER_ELSE := ["d", ";", "fi", ";", "else", "e", ";", "fi"]

  lemma InnerFiComesFirst()
    ensures IndexToken(BEHIND_INNER_ELSE, "fi") == 2 && BEHIND_INNER_ELSE[..2] == ["d", ";"]
  {
    OtherLetter("d", "fi");
    OtherLetter(";", "fi");
    hide IsWord, IndexToken;
    assert Lacks(["d", ";"], "fi");
    assert BEHIND_INNER_ELSE == ["d", ";"] + (["fi"] + [";", "else", "e", ";", "fi"]);
    IndexBehind(["d", ";"], "fi", [";", "else", "e", ";", "fi"], "fi");
  }

  /** `if a; then if b; then c; else d; fi; else e; fi`: the inner `else` part becomes the outer one. */
  lemma InnerElseIsTakenForTheOuter()
    ensures CutIf(["if"] + Clause(["a", ";"], INNER, ["else"] + BEHIND_INNER_ELSE))
         == Some(IfParts([Arm(["a", ";"], INNER)], ["d", ";"]))
  {
    InnerLacksClauseWords();
    ConditionLacksThen();
    InnerFiComesFirst();
    BodyStops(["a", ";"], INNER, "else", BEHIND_INNER_ELSE);
    ConditionStops(["a", ";"], INNER, ["else"] + BEHIND_INNER_ELSE);
    CutIfIs(Clause(["a", ";"], INNER, ["else"] + BEHIND_INNER_ELSE));
    hide *;
  }

  lemma ConditionLacksThen()
    ensures Lacks(["a", ";"], "then")
  {
    OtherLetter("a", "then");
    OtherLetter(";", "then");
  }

  lemma CutIfIs(ts: seq<string>)
    ensures CutIf(["if"] + ts) == CutClauses(ts)
  {
    hide CutClauses;
    assert (["if"] + ts)[1..] == ts;
  }

  /** `while a; while b; do c; done; do d; done`: the inner `do` ends the outer condition. */
  lemma InnerDoEndsTheCondition()
    ensures CutLoop(TWO_LOOPS) == Some(LoopParts(["a", ";", "while", "b", ";"], ["c", ";", "done", ";", "do", "d", ";"]))
  {
    hide Find, IndexToken;
    assert IsWord("do", "do");
    var head, rest := ["while", "a", ";", "while", "b", ";"], ["c", ";", "done", ";", "do", "d", ";", "done"];
    assert TWO_LOOPS == head + (["do"] + rest);
    OtherLetter("while", "do");
    OtherLetter("a", "do");
    OtherLetter("b", "do");
    OtherLetter(";", "do");
    hide IsWord;
    assert Lacks(head, "do");
    IndexBehind(head, "do", rest, "do");
    LoopsAreFound();
    assert TWO_LOOPS[1..6] == ["a", ";", "while", "b", ";"] && TWO_LOOPS[7..14] == ["c", ";", "done", ";", "do", "d", ";"];
  }
}

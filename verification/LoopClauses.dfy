// What the runner's cuts of loops and brace groups return.
module LoopClauses {
  import opened Options
  import opened Terminator
  import opened Compounds
  import opened Clauses
  import T = Tokens

  /** The matcher, called on all tokens of the compound, stops at its closing word. */
  predicate EndFound(c: Command)
    requires !c.Simple?
  {
    Find(Tokens(c), 0) == |Front(c)|
  }

  lemma EndFoundExactly(c: Command)
    requires Readable(c)
    ensures EndFound(c) <==> NoCapture(c)
  {
    hide Find, Front, NoCapture, WellFormedParts, EveryPart, PartsReady;
    FindsTheEnd([], c, c.redirs);
    assert [] + (Whole(c) + c.redirs) == Tokens(c);
  }

  lemma LacksBoth(u: seq<string>, v: seq<string>, w: string)
    ensures Lacks(u + v, w) <==> Lacks(u, w) && Lacks(v, w)
  {
    hide IsWord;
    var ts := u + v;
    assert forall k :: 0 <= k < |u| ==> ts[k] == u[k];
    assert forall k :: 0 <= k < |v| ==> ts[|u| + k] == v[k];
  }

  lemma LacksOne(t: string, w: string)
    ensures Lacks([t], w) <==> !IsWord(t, w)
  {
    hide IsWord;
    assert [t][0] == t;
  }

  /** The slices of a text in four pieces. */
  lemma Slices(a: seq<string>, k: string, b: seq<string>, tail: seq<string>)
    ensures var ts := a + ([k] + (b + tail));
            && ts[..|a|] == a && |ts| == |a| + 1 + |b| + |tail|
            && ts[|a| + 1..|a| + 1 + |b|] == b
  {
    var ts, n := a + ([k] + (b + tail)), |a| + 1;
    assert ts[..|a|] == a;
    assert |ts| == n + |b| + |tail|;
    assert forall i :: 0 <= i < |b| ==> ts[n + i] == b[i];
    assert ts[n..n + |b|] == b;
  }

  /** The cut of a `while` or `until` loop gives its condition and body if and only if the condition holds
      no `do` and the loop's own `done` is found. */
  lemma LoopIsCutExactly(c: Command)
    requires c.While?
    ensures CutLoop(Tokens(c)) == Some(LoopParts(BlockTokens(c.cond), BlockTokens(c.body)))
       <==> Lacks(BlockTokens(c.cond), "do") && EndFound(c)
  {
    LoopShape(c);
    hide *;
    var kw, cond, body := if c.until then "until" else "while", BlockTokens(c.cond), BlockTokens(c.body);
    var ts, head, rest := Tokens(c), [kw] + cond, body + (["done"] + c.redirs);
    IndexBehind(head, "do", rest, "do");
    LacksBoth([kw], cond, "do");
    CutLoopIs(ts, IndexToken(ts, "do"), Find(ts, 0), cond, body);
  }

  /** Where the parts of a loop come from. */
  lemma CutLoopIs(ts: seq<string>, d: int, e: int, cond: seq<string>, body: seq<string>)
    requires ts != [] && (ts[0] == "while" || ts[0] == "until") && d == IndexToken(ts, "do") && e == Find(ts, 0)
    ensures CutLoop(ts) == Some(LoopParts(cond, body)) <==> 1 <= d < e && ts[1..d] == cond && ts[d + 1..e] == body
  {
    hide IndexToken, Find;
  }

  lemma LoopShape(c: Command)
    requires c.While?
    ensures var kw, cond, body, ts := if c.until then "until" else "while", BlockTokens(c.cond), BlockTokens(c.body), Tokens(c);
            && ts == ([kw] + cond) + (["do"] + (body + (["done"] + c.redirs))) && ts != [] && ts[0] == kw
            && Lacks([kw], "do") && IsWord("do", "do") && ts[1..1 + |cond|] == cond
            && 1 + |cond| < 2 + |cond| + |body| < |ts| && ts[2 + |cond|..2 + |cond| + |body|] == body
            && (EndFound(c) <==> Find(ts, 0) == 2 + |cond| + |body|)
  {
    var kw, cond, body := if c.until then "until" else "while", BlockTokens(c.cond), BlockTokens(c.body);
    OtherLetter(kw, "do");
    LoopTokens(kw, cond, body, ["done"] + c.redirs);
    assert Front(c) == [kw] + (cond + (["do"] + body));
    assert Tokens(c) == Front(c) + (["done"] + c.redirs);
    hide Find, IsWord, BlockTokens;
    LacksOne(kw, "do");
    Slices([kw] + cond, "do", body, ["done"] + c.redirs);
    assert Tokens(c)[..1 + |cond|][1..] == cond;
  }

  lemma LoopTokens(kw: string, cond: seq<string>, body: seq<string>, tail: seq<string>)
    ensures ([kw] + (cond + (["do"] + body))) + tail == ([kw] + cond) + (["do"] + (body + tail))
  {
  }

  /** The cut of a brace group gives its body if and only if its own brace is found and nothing follows. */
  lemma GroupIsCutExactly(c: Command)
    requires c.Brace?
    ensures CutGroup(Tokens(c)) == Some(BlockTokens(c.body)) <==> c.redirs == [] && EndFound(c)
  {
    GroupShape(c);
    CutGroupIs(Tokens(c), BlockTokens(c.body));
    hide *;
  }

  lemma CutGroupIs(ts: seq<string>, body: seq<string>)
    requires |ts| > 1 && ts[0] == "{"
    ensures CutGroup(ts) == Some(body) <==> Find(ts, 0) == |ts| - 1 && ts[1..|ts| - 1] == body
  {
    hide Find;
  }

  lemma GroupShape(c: Command)
    requires c.Brace?
    ensures var body, ts := BlockTokens(c.body), Tokens(c);
            && |ts| == 2 + |body| + |c.redirs| && ts[0] == "{" && (c.redirs == [] ==> ts[1..|ts| - 1] == body)
            && (EndFound(c) <==> Find(ts, 0) == 1 + |body|)
  {
    var body := BlockTokens(c.body);
    assert Front(c) == ["{"] + body;
    assert Tokens(c) == Front(c) + (["}"] + c.redirs);
    hide Find, BlockTokens;
    if c.redirs == [] {
      assert ["}"] + c.redirs == ["}"];
    }
  }

  // ----- `for` -----

  predicate NoCommandEnds(ws: seq<string>) {
    forall k :: 0 <= k < |ws| ==> !EndsCommand(ws[k])
  }

  predicate AllSeparators(ws: seq<string>) {
    forall k :: 0 <= k < |ws| ==> T.IsSeparator(ws[k])
  }

  lemma {:induction false} SeparatorsDropped(a: seq<string>, b: seq<string>)
    ensures WithoutSeparators(a + b) == WithoutSeparators(a) + WithoutSeparators(b)
  {
    if a == [] {
      assert a + b == b;
    } else {
      assert (a + b)[1..] == a[1..] + b;
      SeparatorsDropped(a[1..], b);
    }
  }

  lemma {:induction false} NothingDropped(ws: seq<string>)
    requires NoCommandEnds(ws)
    ensures WithoutSeparators(ws) == ws
  {
    if ws != [] {
      NothingDropped(ws[1..]);
      assert [ws[0]] + ws[1..] == ws;
    }
  }

  lemma {:induction false} AllDropped(ws: seq<string>)
    ensures WithoutSeparators(ws) == [] <==> AllSeparators(ws)
  {
    if ws != [] {
      AllDropped(ws[1..]);
      assert ws == [ws[0]] + ws[1..];
    }
  }

  /** Up to `p` no `do` stands behind a separator; one stands at `p`, if the token before is one. */
  lemma {:induction false} ForDoAt(ts: seq<string>, j: nat, p: nat)
    requires 0 < j <= p < |ts| && ts[p] == "do"
    requires forall k :: j <= k < p ==> !IsWord(ts[k], "do") || !T.IsSeparator(ts[k - 1])
    ensures ForDo(ts, j) == -1 || ForDo(ts, j) >= p
    ensures T.IsSeparator(ts[p - 1]) ==> ForDo(ts, j) == p
    decreases p - j
  {
    if j < p {
      ForDoAt(ts, j + 1, p);
    }
  }

  /** The tokens of a `for` loop with a list. */
  function ForTokens(name: string, list: seq<string>, seps: seq<string>, rest: seq<string>): seq<string> {
    ["for", name, "in"] + (list + (seps + (["do"] + rest)))
  }

  lemma EndIsNoDo(t: string)
    requires EndsCommand(t)
    ensures !IsWord(t, "do")
  {
  }

  lemma DoBehindTheList(name: string, list: seq<string>, seps: seq<string>, rest: seq<string>, j: nat)
    requires NoCommandEnds(list) && AllEnd(seps) && seps != [] && 3 <= j <= 4
    ensures var ts, p := ForTokens(name, list, seps, rest), 3 + |list| + |seps|;
            && (ForDo(ts, j) == -1 || ForDo(ts, j) >= p)
            && (T.IsSeparator(seps[|seps| - 1]) ==> ForDo(ts, j) == p)
  {
    hide IsWord;
    var ts, p := ForTokens(name, list, seps, rest), 3 + |list| + |seps|;
    var q := 3 + |list|;
    assert ts[2] == "in" && ts[p] == "do" && ts[p - 1] == seps[|seps| - 1];
    assert forall k :: 3 <= k < q ==> ts[k] == list[k - 3];
    assert forall k :: q <= k < p ==> ts[k] == seps[k - q];
    forall k | j <= k < p ensures !IsWord(ts[k], "do") || !T.IsSeparator(ts[k - 1]) {
      if k > q {
        EndIsNoDo(seps[k - q]);
      } else if k == q {
        EndIsNoDo(seps[0]);
      }
    }
    ForDoAt(ts, j, p);
  }

  /** The words cut out from `i + 1` up to a `do` at or behind the right one are the list, if and only if
      it is the right one, only separators were left out, and the `in` was the right one. */
  lemma WordsOfTheList(name: string, list: seq<string>, seps: seq<string>, rest: seq<string>, i: nat, f: nat)
    requires NoCommandEnds(list) && 1 <= i <= 2
    requires 3 + |list| + |seps| <= f <= |ForTokens(name, list, seps, rest)|
    ensures WithoutSeparators(ForTokens(name, list, seps, rest)[i + 1..f]) == list
       <==> i == 2 && AllSeparators(seps) && f == 3 + |list| + |seps|
  {
    var ts, p := ForTokens(name, list, seps, rest), 3 + |list| + |seps|;
    var first, more := if i == 1 then ["in"] else [], ts[p..f];
    assert ts[i + 1..f] == first + (list + (seps + more));
    SeparatorsDropped(first, list + (seps + more));
    SeparatorsDropped(list, seps + more);
    SeparatorsDropped(seps, more);
    NothingDropped(list);
    AllDropped(seps);
    assert f > p ==> more[0] == "do";
    if more == [] && AllSeparators(seps) && i == 2 {
      assert [] + (list + ([] + [])) == list;
    }
  }

  lemma InOfFor(name: string, rest: seq<string>)
    ensures var i := IndexToken(["for", name, "in"] + rest, "in"); i == if IsWord(name, "in") then 1 else 2
  {
    var ts := ["for", name, "in"] + rest;
    assert ts[0] == "for" && ts[1] == name && ts[2] == "in";
    OtherLetter("for", "in");
    IndexIsFirst(ts, "in");
  }

  /** The cut of a `for` loop with a list gives its list and body if and only if the name is not `in`, the
      list ends in nothing but `;` and newlines, and the loop's own `done` is found. */
  lemma ForIsCutExactly(c: Command)
    requires c.ForIn? && NoCommandEnds(c.list) && AllEnd(c.seps) && c.seps != []
    ensures CutFor(Tokens(c)) == Some(InLoop(c.name, c.list, BlockTokens(c.body)))
       <==> !IsWord(c.name, "in") && AllSeparators(c.seps) && EndFound(c)
  {
    var list, seps, body, ts := c.list, c.seps, BlockTokens(c.body), Tokens(c);
    var rest, p := body + (["done"] + c.redirs), 3 + |list| + |seps|;
    ForInShape(c);
    hide *;
    var i := IndexToken(ts, "in");
    DoBehindTheList(c.name, list, seps, rest, i + 2);
    var f, e := ForDo(ts, i + 2), Find(ts, 0);
    if f != -1 {
      WordsOfTheList(c.name, list, seps, rest, i, f);
    }
    CutForIs(ts, i, f, e, list, body);
    LastSeparator(seps);
  }

  lemma LastSeparator(seps: seq<string>)
    requires seps != []
    ensures AllSeparators(seps) ==> T.IsSeparator(seps[|seps| - 1])
  {
  }

  /** Where the parts of a `for` loop with a list come from. */
  lemma CutForIs(ts: seq<string>, i: int, f: int, e: int, list: seq<string>, body: seq<string>)
    requires |ts| >= 3 && ts[0] == "for" && i == IndexToken(ts, "in") && i >= 1 && f == ForDo(ts, i + 2) && e == Find(ts, 0)
    ensures CutFor(ts) == Some(InLoop(ts[1], list, body))
       <==> i + 2 <= f < e && WithoutSeparators(ts[i + 1..f]) == list && ts[f + 1..e] == body
  {
    hide IndexToken, ForDo, Find, WithoutSeparators;
  }

  lemma ForInShape(c: Command)
    requires c.ForIn?
    ensures var body, p, ts := BlockTokens(c.body), 3 + |c.list| + |c.seps|, Tokens(c);
            && ts == ForTokens(c.name, c.list, c.seps, body + (["done"] + c.redirs))
            && |Front(c)| == p + 1 + |body| < |ts| && ts[0] == "for" && ts[1] == c.name
            && ts[p + 1..p + 1 + |body|] == body
            && (EndFound(c) <==> Find(ts, 0) == p + 1 + |body|)
            && IndexToken(ts, "in") == if IsWord(c.name, "in") then 1 else 2
  {
    var body, tail := BlockTokens(c.body), ["done"] + c.redirs;
    ForInTokens(c.name, c.list, c.seps, body, tail);
    InOfFor(c.name, c.list + (c.seps + (["do"] + (body + tail))));
    hide Find, IndexToken, IsWord, BlockTokens;
  }

  lemma ForInTokens(name: string, list: seq<string>, seps: seq<string>, body: seq<string>, tail: seq<string>)
    ensures ((["for", name, "in"] + list) + (seps + (["do"] + body))) + tail == ForTokens(name, list, seps, body + tail)
  {
  }

  /** The cut of a `for` loop without a list gives its body if and only if no `in` occurs in it at all, and
      the loop's own `done` is found. */
  lemma ForArgsIsCutExactly(c: Command)
    requires c.ForArgs? && AllSeparators(c.seps) && !IsWord(c.name, "do")
    ensures CutFor(Tokens(c)) == Some(ArgsLoop(c.name, BlockTokens(c.body))) <==> Lacks(Tokens(c), "in") && EndFound(c)
  {
    var body, tail := BlockTokens(c.body), ["done"] + c.redirs;
    var ts, head := Tokens(c), ["for", c.name] + c.seps;
    ForArgsTokens(c.name, c.seps, body, tail);
    assert Front(c) == ["for", c.name] + (c.seps + (["do"] + body));
    assert ts == Front(c) + tail;
    assert ts == head + (["do"] + (body + tail)) && |Front(c)| == |head| + 1 + |body|;
    IndexBehind(head, "do", body + tail, "do");
    NoDoInHead(c.name, c.seps);
    Slices(head, "do", body, tail);
    assert ts[0] == "for" && ts[1] == c.name;
    IndexIsFirst(ts, "in");
  }

  lemma NoDoInHead(name: string, seps: seq<string>)
    requires AllSeparators(seps) && !IsWord(name, "do")
    ensures Lacks(["for", name] + seps, "do")
  {
    var head := ["for", name] + seps;
    forall k | 0 <= k < |head| ensures !IsWord(head[k], "do") {
      if k >= 2 {
        assert head[k] == seps[k - 2];
        EndIsNoDo(head[k]);
      } else {
        assert head[k] == ["for", name][k];
        OtherLetter("for", "do");
      }
    }
  }

  lemma ForArgsTokens(name: string, seps: seq<string>, body: seq<string>, tail: seq<string>)
    ensures (["for", name] + (seps + (["do"] + body))) + tail == (["for", name] + seps) + (["do"] + (body + tail))
  {
  }
}

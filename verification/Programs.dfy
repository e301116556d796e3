// Programs by the grammar: when the runner reads one as it is written.
module Programs {
  import opened Options
  import opened Terminator
  import opened Compounds
  import opened Clauses
  import opened LoopClauses
  import opened Reading
  import opened LoopSemantics
  import opened LoopRefinement
  import L = Loops
  import T = Tokens

  predicate NoSeparators(ws: seq<string>) {
    forall k :: 0 <= k < |ws| ==> !T.IsSeparator(ws[k])
  }

  /** No command at all, in front of a separator: an empty line. */
  predicate Blank(c: Command) { c.Simple? && c.words == [] }

  // ----- the commands of a program -----

  function Tree(x: Lexicon, b: Block): seq<L.Command> {
    match b
    case Nil => []
    case Cons(c, seps, rest) => (if Blank(c) then [] else [TreeOf(x, c)]) + Tree(x, rest)
  }

  function TreeOf(x: Lexicon, c: Command): L.Command {
    match c
    case While(until, cond, body, _) => L.While(until, Tree(x, cond), Tree(x, body))
    case ForIn(name, list, _, body, _) => L.For(name, x.list(list), Tree(x, body))
    case ForArgs(name, _, body, _) => L.For(name, x.args, Tree(x, body))
    case If(cond, yes, elifs, no, _) => L.If(Tree(x, cond), Tree(x, yes), ElifTree(x, elifs, OtherwiseTree(x, no)))
    case Brace(body, redirs) => if redirs == [] then L.Group(Tree(x, body)) else x.plain(Tokens(c))
    case _ => x.plain(Tokens(c))
  }

  function OtherwiseTree(x: Lexicon, e: Otherwise): seq<L.Command> {
    match e
    case NoElse => []
    case Else(body) => Tree(x, body)
  }

  function ElifTree(x: Lexicon, e: Elifs, no: seq<L.Command>): seq<L.Command> {
    match e
    case NoElif => no
    case Elif(cond, yes, rest) => [L.If(Tree(x, cond), Tree(x, yes), ElifTree(x, rest, no))]
  }

  // ----- what the runner's cuts ask for -----

  predicate CutRight(b: Block)
    decreases b, 0
  {
    b.Nil? ||
    ((Blank(b.cmd) || CommandCutRight(b.cmd)) && AllSeparators(b.seps) && (b.seps != [] || b.rest.Nil?) && CutRight(b.rest))
  }

  /** The matcher finds the command's end, and the runner's cuts find its parts, here and inside. */
  predicate CommandCutRight(c: Command)
    decreases c, 1
  {
    match c
    case Simple(ws) => ws != [] && Closer(ws[0]) == "" && NoSeparators(ws)
    case _ => Readable(c) && NoCapture(c) && NoSeparators(c.redirs) && PartsCutRight(c)
  }

  predicate PartsCutRight(c: Command)
    requires !c.Simple?
    decreases c, 0
  {
    match c
    case While(_, cond, body, _) => Lacks(BlockTokens(cond), "do") && CutRight(cond) && CutRight(body)
    case ForIn(name, _, seps, body, _) => !IsWord(name, "in") && AllSeparators(seps) && CutRight(body)
    case ForArgs(name, _, body, _) => Lacks(Tokens(c), "in") && !IsWord(name, "do") && CutRight(body)
    case If(cond, yes, elifs, no, _) =>
      Lacks(BlockTokens(cond), "then") && CutRight(cond) && BodyCutRight(yes, elifs.NoElif? && no.NoElse?)
      && ElifsCutRight(elifs, no.NoElse?) && (no.Else? ==> ElseCutRight(no.body))
    case Case(_, _, _, _) => true
    case Brace(body, redirs) => redirs == [] ==> CutRight(body)
  }

  predicate ElifsCutRight(e: Elifs, last: bool)
    decreases e, 0
  {
    e.NoElif? ||
    (Lacks(BlockTokens(e.cond), "then") && CutRight(e.cond) && BodyCutRight(e.yes, last && e.rest.NoElif?)
     && ElifsCutRight(e.rest, last))
  }

  /** A body holds no word that ends a clause; the last one may end in an `if` with nothing behind it, whose
      `fi` is then taken for the outer one, and is not missed. */
  predicate BodyCutRight(b: Block, last: bool)
    decreases b, 2
  {
    (LacksClauseWords(BlockTokens(b)) && CutRight(b)) || (last && TailCutRight(b))
  }

  predicate TailCutRight(b: Block)
    decreases b, 1
  {
    b.Cons? && AllSeparators(b.seps)
    && if b.rest.Nil? then UnclosedIf(b.cmd)
       else LacksClauseWords(Tokens(b.cmd)) && (Blank(b.cmd) || CommandCutRight(b.cmd)) && b.seps != [] && TailCutRight(b.rest)
  }

  predicate OneArmed(c: Command) {
    c.If? && c.elifs.NoElif? && c.no.NoElse? && Readable(c) && NoCapture(c)
  }

  predicate UnclosedIf(c: Command)
    decreases c, 0
  {
    OneArmed(c) && LacksClauseWords(BlockTokens(c.cond)) && Lacks(BlockTokens(c.cond), "then")
    && CutRight(c.cond) && BodyCutRight(c.yes, true)
  }

  /** The `else` part holds no `fi`, but for that of an `if` at its end. */
  predicate ElseCutRight(b: Block)
    decreases b, 2
  {
    (Lacks(BlockTokens(b), "fi") && CutRight(b)) || ElseTailCutRight(b)
  }

  predicate ElseTailCutRight(b: Block)
    decreases b, 1
  {
    b.Cons? && AllSeparators(b.seps)
    && if b.rest.Nil? then UnclosedInElse(b.cmd)
       else Lacks(Tokens(b.cmd), "fi") && (Blank(b.cmd) || CommandCutRight(b.cmd)) && b.seps != [] && ElseTailCutRight(b.rest)
  }

  predicate UnclosedInElse(c: Command)
    decreases c, 0
  {
    OneArmed(c) && Lacks(BlockTokens(c.cond), "fi") && Lacks(BlockTokens(c.cond), "then") && CutRight(c.cond)
    && Lacks(BlockTokens(c.yes), "fi") && LacksClauseWords(BlockTokens(c.yes)) && CutRight(c.yes)
  }

  // ----- the extent of a command -----

  lemma {:induction false} PieceEndIs(ts: seq<string>, i: nat, e: nat)
    requires i <= e <= |ts| && (e == |ts| || T.IsSeparator(ts[e]))
    requires forall k :: i <= k < e ==> !T.IsSeparator(ts[k])
    ensures PieceEnd(ts, i) == e
    decreases e - i
  {
    if i < e {
      PieceEndIs(ts, i + 1, e);
    }
  }

  lemma {:induction false} PieceEndStops(ts: seq<string>, i: nat)
    requires i <= |ts|
    ensures var e := PieceEnd(ts, i);
            (e < |ts| ==> T.IsSeparator(ts[e])) && forall k :: i <= k < e ==> !T.IsSeparator(ts[k])
    decreases |ts| - i
  {
    if i < |ts| && !T.IsSeparator(ts[i]) {
      PieceEndStops(ts, i + 1);
    }
  }

  /** From a separator inside the compound, whose closing word stands at `w`, up to its end `e`. */
  lemma {:induction false} CompleteAt(ts: seq<string>, n: nat, w: nat, e: nat)
    requires n <= |ts| && w < e <= |ts| && (e == |ts| || T.IsSeparator(ts[e]))
    requires forall k :: w <= k < e ==> !T.IsSeparator(ts[k])
    requires n == e || (n < w && T.IsSeparator(ts[n]))
    requires forall k :: 0 <= k <= w ==> Find(ts[..k], 0) == -1
    requires e == |ts| || Find(ts[..e], 0) != -1
    ensures Complete(ts, n) == e
    decreases |ts| - n
  {
    hide Find, T.IsSeparator;
    if n < w {
      assert Find(ts[..n], 0) == -1;
      var next := PieceEnd(ts, n + 1);
      PieceEndStops(ts, n + 1);
      assert next >= w ==> next == e;
      CompleteAt(ts, next, w, e);
    }
  }

  lemma WholeStarts(c: Command)
    requires CommandCutRight(c)
    ensures Tokens(c) != [] && !T.IsSeparator(Tokens(c)[0]) && (Closer(Tokens(c)[0]) != "" <==> !c.Simple?)
  {
    if !c.Simple? {
      assert Tokens(c)[0] == Front(c)[0];
    }
  }

  lemma NothingFoundInside(c: Command, after: seq<string>, k: nat)
    requires !c.Simple? && Readable(c) && NoCapture(c) && k <= |Front(c)|
    ensures k <= |Tokens(c) + after| && Find((Tokens(c) + after)[..k], 0) == -1
  {
    hide Front, Readable, NoCapture, Find;
    assert (Tokens(c) + after)[..k] == Whole(c)[..k];
    NotBeforeTheEnd(c, k);
  }

  lemma FoundWithRedirections(c: Command, after: seq<string>)
    requires !c.Simple? && Readable(c) && NoCapture(c)
    ensures Find((Tokens(c) + after)[..|Tokens(c)|], 0) != -1
  {
    hide Front, Readable, NoCapture, Find;
    assert (Tokens(c) + after)[..|Tokens(c)|] == [] + (Whole(c) + c.redirs);
    FindsTheEnd([], c, c.redirs);
  }

  /** The matcher on the prefixes of the compound and what follows it. */
  lemma PrefixesOf(c: Command, after: seq<string>)
    requires !c.Simple? && CommandCutRight(c)
    ensures var ts, w, e := Tokens(c) + after, |Front(c)|, |Tokens(c)|;
            && w < e && (forall k :: w <= k < e ==> !T.IsSeparator(ts[k]))
            && (forall k :: 0 <= k <= w ==> Find(ts[..k], 0) == -1) && Find(ts[..e], 0) != -1
  {
    hide Front, Readable, NoCapture, Find, PartsCutRight;
    var ts, w, e := Tokens(c) + after, |Front(c)|, |Tokens(c)|;
    forall k | 0 <= k <= w ensures Find(ts[..k], 0) == -1 {
      NothingFoundInside(c, after, k);
    }
    FoundWithRedirections(c, after);
    forall k | w <= k < e ensures !T.IsSeparator(ts[k]) {
      assert ts[k] == if k == w then Closing(c) else c.redirs[k - w - 1];
    }
  }

  /** The runner takes a command up to its end, and no more. */
  lemma ExtentIs(c: Command, after: seq<string>)
    requires CommandCutRight(c) && (after == [] || T.IsSeparator(after[0]))
    ensures Tokens(c) != [] && !T.IsSeparator((Tokens(c) + after)[0])
    ensures Extent(Tokens(c) + after) == |Tokens(c)|
  {
    var ts, w, e := Tokens(c) + after, if c.Simple? then 0 else |Front(c)|, |Tokens(c)|;
    WholeStarts(c);
    if c.Simple? {
      assert forall k :: 1 <= k < e ==> ts[k] == c.words[k];
      PieceEndIs(ts, 1, e);
    } else {
      PrefixesOf(c, after);
      hide Front, Find, CommandCutRight, Tokens;
      var n := PieceEnd(ts, 1);
      PieceEndStops(ts, 1);
      assert n >= w ==> n == e;
      CompleteAt(ts, n, w, e);
    }
  }

  // ----- a program is read as it is written -----

  lemma {:induction false} SkipSeparators(x: Lexicon, seps: seq<string>, more: seq<string>)
    requires AllSeparators(seps)
    ensures Read(x, seps + more) == Read(x, more)
    decreases |seps|
  {
    if seps == [] {
      assert [] + more == more;
    } else {
      assert (seps + more)[1..] == seps[1..] + more;
      SkipSeparators(x, seps[1..], more);
    }
  }

  lemma BlankHasNoTokens(c: Command, more: seq<string>)
    requires Blank(c)
    ensures Tokens(c) + more == more
  {
  }

  /** The commands read are those of the grammar, for every program whose compounds are cut right. */
  lemma {:induction false} ReadsAsWritten(x: Lexicon, b: Block)
    requires CutRight(b)
    ensures Read(x, BlockTokens(b)) == Tree(x, b)
    decreases b, 0
  {
    hide CommandOf, TreeOf, CommandCutRight, Extent, Tokens;
    if b.Cons? && Blank(b.cmd) {
      BlankHasNoTokens(b.cmd, b.seps + BlockTokens(b.rest));
      SkipSeparators(x, b.seps, BlockTokens(b.rest));
      ReadsAsWritten(x, b.rest);
    } else if b.Cons? {
      var u, after := Tokens(b.cmd), b.seps + BlockTokens(b.rest);
      ExtentIs(b.cmd, after);
      assert (u + after)[..|u|] == u && (u + after)[|u|..] == after;
      CommandReadsAsWritten(x, b.cmd);
      SkipSeparators(x, b.seps, BlockTokens(b.rest));
      ReadsAsWritten(x, b.rest);
    }
  }

  lemma {:induction false} CommandReadsAsWritten(x: Lexicon, c: Command)
    requires CommandCutRight(c)
    ensures Tokens(c) != [] && CommandOf(x, Tokens(c)) == TreeOf(x, c)
    decreases c, 1
  {
    WholeStarts(c);
    hide Tree, WellFormedParts, EveryPart, QuietParts, PartsCutRight, BlockTokens, Find;
    match c
    case Simple(_) =>
    case Case(_, _, _, _) => FirstWord(c);
    case While(_, _, _, _) => LoopReadsAsWritten(x, c);
    case ForIn(_, _, _, _, _) => ForReadsAsWritten(x, c);
    case ForArgs(_, _, _, _) => ForArgsReadsAsWritten(x, c);
    case If(_, _, _, _, _) => IfReadsAsWritten(x, c);
    case Brace(_, _) => GroupReadsAsWritten(x, c);
  }

  lemma FirstWord(c: Command)
    requires !c.Simple?
    ensures Tokens(c) != [] && Tokens(c)[0] == Front(c)[0]
    ensures Tokens(c)[0] == match c
                            case While(until, _, _, _) => if until then "until" else "while"
                            case ForIn(_, _, _, _, _) => "for"
                            case ForArgs(_, _, _, _) => "for"
                            case If(_, _, _, _, _) => "if"
                            case Case(_, _, _, _) => "case"
                            case Brace(_, _) => "{"
  {
  }

  lemma ForListIsOrdinary(c: Command)
    requires Readable(c)
    ensures c.ForIn? ==> NoCommandEnds(c.list) && AllEnd(c.seps) && c.seps != []
    ensures c.ForArgs? ==> AllSeparators(c.seps)
  {
    hide WellFormedBody, EveryPart;
  }

  lemma {:induction false} LoopReadsAsWritten(x: Lexicon, c: Command)
    requires c.While? && CommandCutRight(c)
    ensures Tokens(c) != [] && CommandOf(x, Tokens(c)) == TreeOf(x, c)
    decreases c, 0
  {
    FirstWord(c);
    EndFoundExactly(c);
    hide Read, Tree, EndFound, Tokens, Front, Find, CutRight, Readable, NoCapture, IndexToken, Lacks, BlockTokens;
    LoopIsCutExactly(c);
    ReadsAsWritten(x, c.cond);
    ReadsAsWritten(x, c.body);
  }

  lemma ForIsRead(x: Lexicon, ts: seq<string>)
    requires ts != [] && ts[0] == "for" && CutFor(ts).Some?
    ensures var p := CutFor(ts).value;
            CommandOf(x, ts) == L.For(p.name, if p.InLoop? then x.list(p.words) else x.args, Read(x, p.body))
  {
    hide CutFor, Read;
  }

  lemma {:induction false} ForReadsAsWritten(x: Lexicon, c: Command)
    requires c.ForIn? && CommandCutRight(c)
    ensures Tokens(c) != [] && CommandOf(x, Tokens(c)) == TreeOf(x, c)
    decreases c, 0
  {
    FirstWord(c);
    EndFoundExactly(c);
    ForListIsOrdinary(c);
    hide Read, Tree, EndFound, Tokens, Front, Find, CutRight, Readable, NoCapture, IndexToken, Lacks, BlockTokens,
         IsWord, AllSeparators, NoCommandEnds, AllEnd, NoSeparators, CutFor, CommandOf;
    ForIsCutExactly(c);
    ForIsRead(x, Tokens(c));
    ReadsAsWritten(x, c.body);
  }

  lemma {:induction false} ForArgsReadsAsWritten(x: Lexicon, c: Command)
    requires c.ForArgs? && CommandCutRight(c)
    ensures Tokens(c) != [] && CommandOf(x, Tokens(c)) == TreeOf(x, c)
    decreases c, 0
  {
    FirstWord(c);
    EndFoundExactly(c);
    ForListIsOrdinary(c);
    hide Read, Tree, EndFound, Tokens, Front, Find, CutRight, Readable, NoCapture, IndexToken, Lacks, BlockTokens,
         IsWord, AllSeparators, NoCommandEnds, AllEnd, NoSeparators, CutFor, CommandOf;
    ForArgsIsCutExactly(c);
    ForIsRead(x, Tokens(c));
    ReadsAsWritten(x, c.body);
  }

  lemma {:induction false} GroupReadsAsWritten(x: Lexicon, c: Command)
    requires c.Brace? && CommandCutRight(c)
    ensures Tokens(c) != [] && CommandOf(x, Tokens(c)) == TreeOf(x, c)
    decreases c, 0
  {
    FirstWord(c);
    EndFoundExactly(c);
    hide Read, Tree, EndFound, Tokens, Front, Find, CutRight, Readable, NoCapture, IndexToken, Lacks, BlockTokens;
    GroupIsCutExactly(c);
    if c.redirs == [] {
      ReadsAsWritten(x, c.body);
    }
  }

  // ----- the parts of an `if` -----

  lemma LengthOfBoth(u: seq<string>, v: seq<string>)
    requires LacksClauseWords(u)
    ensures BodyLength(u + v) == |u| + BodyLength(v)
    decreases |u|
  {
    if u == [] {
      assert u + v == v;
    } else {
      assert (u + v)[1..] == u[1..] + v;
      LengthOfBoth(u[1..], v);
    }
  }

  lemma {:induction false} IndexOfBoth(u: seq<string>, v: seq<string>, w: string)
    requires Lacks(u, w)
    ensures IndexToken(u + v, w) == if IndexToken(v, w) == -1 then -1 else |u| + IndexToken(v, w)
    decreases |u|
  {
    hide IsWord;
    if u == [] {
      assert u + v == v;
    } else {
      assert (u + v)[1..] == u[1..] + v;
      IndexOfBoth(u[1..], v, w);
    }
  }

  /** The tokens up to the first word that ends a clause. */
  function Crop(ts: seq<string>): seq<string> {
    ts[..BodyLength(ts)]
  }

  /** If the tokens are cropped, they are so by `fi`. */
  predicate CroppedByFi(ts: seq<string>) {
    BodyLength(ts) < |ts| ==> ts[BodyLength(ts)] == "fi"
  }

  function CropElse(ts: seq<string>): seq<string> {
    if IndexToken(ts, "fi") == -1 then ts else ts[..IndexToken(ts, "fi")]
  }

  lemma {:induction false} NeverComplete(ts: seq<string>, n: nat)
    requires n <= |ts| && forall k :: 0 <= k <= |ts| ==> Find(ts[..k], 0) == -1
    ensures Complete(ts, n) == |ts|
    decreases |ts| - n
  {
    hide Find;
    if n < |ts| {
      assert Find(ts[..n], 0) == -1;
      NeverComplete(ts, PieceEnd(ts, n + 1));
    }
  }

  /** An `if` without its `fi`. */
  function Unclosed(c: Command, yes: seq<string>): seq<string>
    requires c.If?
  {
    ["if"] + Clause(BlockTokens(c.cond), yes, [])
  }

  lemma OneArmedFront(c: Command)
    requires OneArmed(c)
    ensures Front(c) == ["if"] + (BlockTokens(c.cond) + ((["then"] + BlockTokens(c.yes)) + ([] + [])))
  {
    hide OneArmed, BlockTokens;
    assert c.elifs.NoElif? && c.no.NoElse? by {
      OneArmedHasNoElse(c);
    }
    assert Compounds.Clauses(c) == (["then"] + BlockTokens(c.yes)) + ([] + []);
  }

  lemma OneArmedHasNoElse(c: Command)
    requires OneArmed(c)
    ensures c.If? && c.elifs.NoElif? && c.no.NoElse?
  {
  }

  lemma UnclosedIsPrefix(c: Command, m: nat)
    requires OneArmed(c) && m <= |BlockTokens(c.yes)|
    ensures var ts := Unclosed(c, BlockTokens(c.yes)[..m]); |ts| <= |Front(c)| && Whole(c)[..|ts|] == ts
  {
    var cond, yes := BlockTokens(c.cond), BlockTokens(c.yes);
    OneArmedFront(c);
    hide *;
    assert yes == yes[..m] + yes[m..];
  }

  lemma UnclosedExtent(c: Command, m: nat)
    requires OneArmed(c) && m <= |BlockTokens(c.yes)|
    ensures var ts := Unclosed(c, BlockTokens(c.yes)[..m]);
            ts[0] == "if" && !T.IsSeparator(ts[0]) && Extent(ts) == |ts|
  {
    var ts := Unclosed(c, BlockTokens(c.yes)[..m]);
    UnclosedIsPrefix(c, m);
    hide Unclosed, Readable, NoCapture, Find, Front;
    forall k | 0 <= k <= |ts| ensures Find(ts[..k], 0) == -1 {
      assert ts[..k] == Whole(c)[..k];
      NotBeforeTheEnd(c, k);
    }
    assert ts[0] == "if" by {
      assert ts[0] == Whole(c)[0];
      FirstWord(c);
    }
    NeverComplete(ts, PieceEnd(ts, 1));
  }

  /** An `if` that lost its `fi` is read like one that has it. */
  lemma UnclosedReads(x: Lexicon, c: Command, m: nat)
    requires OneArmed(c) && m <= |BlockTokens(c.yes)|
    requires Lacks(BlockTokens(c.cond), "then") && LacksClauseWords(BlockTokens(c.yes)[..m])
    requires Read(x, BlockTokens(c.cond)) == Tree(x, c.cond) && Read(x, BlockTokens(c.yes)[..m]) == Tree(x, c.yes)
    ensures Read(x, Unclosed(c, BlockTokens(c.yes)[..m])) == [TreeOf(x, c)]
  {
    var cond, yes := BlockTokens(c.cond), BlockTokens(c.yes)[..m];
    var ts := Unclosed(c, yes);
    UnclosedExtent(c, m);
    assert ts[..|ts|] == ts && ts[1..] == Clause(cond, yes, []);
    ConditionStops(cond, yes, []);
    LengthOfBoth(yes, []);
    assert yes + [] == yes && yes[..|yes|] == yes;
    assert CutIf(ts) == Some(IfParts([Arm(cond, yes)], []));
    OneIsRead(x, ts, cond, yes);
    OneIsAll(x, ts);
  }

  lemma OneIsRead(x: Lexicon, ts: seq<string>, cond: seq<string>, yes: seq<string>)
    requires ts != [] && CutIf(ts) == Some(IfParts([Arm(cond, yes)], []))
    ensures CommandOf(x, ts) == L.If(Read(x, cond), Read(x, yes), [])
  {
    hide CutClauses;
    ClausesBelow(ts[1..], |ts|);
    assert Read(x, []) == [];
  }

  lemma OneIsAll(x: Lexicon, ts: seq<string>)
    requires ts != [] && !T.IsSeparator(ts[0]) && Extent(ts) == |ts|
    ensures Read(x, ts) == [CommandOf(x, ts)]
  {
    hide CommandOf, Extent;
    assert ts[..|ts|] == ts;
  }

  /** A command in front of a body that is cropped somewhere behind it. */
  lemma {:induction false} ReadFirst(x: Lexicon, c: Command, seps: seq<string>, more: seq<string>)
    requires CommandCutRight(c) && AllSeparators(seps) && seps != []
    ensures Read(x, Tokens(c) + (seps + more)) == [CommandOf(x, Tokens(c))] + Read(x, more)
  {
    hide CommandOf, CommandCutRight, Extent, Tokens;
    var u, after := Tokens(c), seps + more;
    ExtentIs(c, after);
    assert (u + after)[..|u|] == u && (u + after)[|u|..] == after;
    SkipSeparators(x, seps, more);
  }

  lemma SeparatorsLack(seps: seq<string>)
    requires AllSeparators(seps)
    ensures LacksClauseWords(seps) && Lacks(seps, "fi")
  {
  }

  lemma LacksClauseWordsBoth(u: seq<string>, v: seq<string>)
    requires LacksClauseWords(u) && LacksClauseWords(v)
    ensures LacksClauseWords(u + v)
  {
    hide EndsClause;
    forall k | 0 <= k < |u + v| ensures !EndsClause((u + v)[k]) {
      assert (u + v)[k] == if k < |u| then u[k] else v[k - |u|];
    }
  }

  lemma CropBehind(u: seq<string>, v: seq<string>)
    requires LacksClauseWords(u)
    ensures Crop(u + v) == u + Crop(v) && (CroppedByFi(u + v) <==> CroppedByFi(v))
  {
    LengthOfBoth(u, v);
    var n := BodyLength(v);
    assert (u + v)[..|u| + n] == u + v[..n];
  }

  lemma CropElseBehind(u: seq<string>, v: seq<string>)
    requires Lacks(u, "fi")
    ensures CropElse(u + v) == u + CropElse(v)
  {
    IndexOfBoth(u, v, "fi");
    var n := IndexToken(v, "fi");
    if n >= 0 {
      assert (u + v)[..|u| + n] == u + v[..n];
    }
  }

  lemma CropTail(u: seq<string>, seps: seq<string>, more: seq<string>)
    requires LacksClauseWords(u) && AllSeparators(seps)
    ensures Crop(u + (seps + more)) == u + (seps + Crop(more)) && (CroppedByFi(u + (seps + more)) <==> CroppedByFi(more))
  {
    SeparatorsLack(seps);
    CropBehind(seps, more);
    CropBehind(u, seps + more);
  }

  lemma CropElseTail(u: seq<string>, seps: seq<string>, more: seq<string>)
    requires Lacks(u, "fi") && AllSeparators(seps)
    ensures CropElse(u + (seps + more)) == u + (seps + CropElse(more))
  {
    hide CropElse;
    SeparatorsLack(seps);
    CropElseBehind(seps, more);
    CropElseBehind(u, seps + more);
  }

  /** Nothing to crop. */
  lemma CropNothing(ts: seq<string>)
    ensures LacksClauseWords(ts) ==> Crop(ts) == ts && CroppedByFi(ts)
    ensures Lacks(ts, "fi") ==> CropElse(ts) == ts
  {
    if LacksClauseWords(ts) {
      LengthOfBoth(ts, []);
      assert ts + [] == ts;
    }
    IndexIsFirst(ts, "fi");
  }

  /** What the runner takes as a body is read as the body is written. */
  lemma {:induction false} BodyReadsAsWritten(x: Lexicon, b: Block, last: bool)
    requires BodyCutRight(b, last)
    ensures Read(x, Crop(BlockTokens(b))) == Tree(x, b) && CroppedByFi(BlockTokens(b))
    ensures !last ==> LacksClauseWords(BlockTokens(b))
    decreases b, 3
  {
    hide Read, Tree, Crop, CroppedByFi, LacksClauseWords, TailCutRight, CutRight, BlockTokens;
    if LacksClauseWords(BlockTokens(b)) && CutRight(b) {
      CropNothing(BlockTokens(b));
      ReadsAsWritten(x, b);
    } else {
      TailReadsAsWritten(x, b);
    }
  }

  lemma {:induction false} TailReadsAsWritten(x: Lexicon, b: Block)
    requires TailCutRight(b)
    ensures Read(x, Crop(BlockTokens(b))) == Tree(x, b) && CroppedByFi(BlockTokens(b))
    decreases b, 2
  {
    var c, more := b.cmd, BlockTokens(b.rest);
    hide CommandCutRight, CommandOf, Read, TreeOf, Crop, LacksClauseWords, CroppedByFi, Tokens;
    if b.rest.Nil? {
      UnclosedTailReads(x, c, b.seps);
      assert b.seps + [] == b.seps;
    } else {
      CropTail(Tokens(c), b.seps, more);
      TailReadsAsWritten(x, b.rest);
      if Blank(c) {
        BlankHasNoTokens(c, b.seps + Crop(more));
        SkipSeparators(x, b.seps, Crop(more));
      } else {
        ReadFirst(x, c, b.seps, Crop(more));
        CommandReadsAsWritten(x, c);
      }
    }
  }

  lemma {:induction false} UnclosedTailReads(x: Lexicon, c: Command, seps: seq<string>)
    requires UnclosedIf(c)
    ensures Read(x, Crop(Tokens(c) + seps)) == [TreeOf(x, c)] && CroppedByFi(Tokens(c) + seps)
    decreases c, 4
  {
    var cond, yes := BlockTokens(c.cond), BlockTokens(c.yes);
    ReadsAsWritten(x, c.cond);
    BodyReadsAsWritten(x, c.yes, true);
    UnclosedReadsCropped(x, c);
    UnclosedCrop(c, cond, yes, seps);
  }

  lemma UnclosedReadsCropped(x: Lexicon, c: Command)
    requires OneArmed(c) && Lacks(BlockTokens(c.cond), "then")
    requires Read(x, BlockTokens(c.cond)) == Tree(x, c.cond) && Read(x, Crop(BlockTokens(c.yes))) == Tree(x, c.yes)
    ensures Read(x, Unclosed(c, Crop(BlockTokens(c.yes)))) == [TreeOf(x, c)]
  {
    OneArmedHasNoElse(c);
    hide Read, TreeOf, OneArmed, Unclosed, Tree, BlockTokens;
    LengthIsFirst(BlockTokens(c.yes));
    UnclosedReads(x, c, BodyLength(BlockTokens(c.yes)));
  }

  lemma OneArmedTokens(c: Command, seps: seq<string>)
    requires OneArmed(c)
    ensures Tokens(c) + seps
         == (["if"] + (BlockTokens(c.cond) + ["then"])) + (BlockTokens(c.yes) + (["fi"] + (c.redirs + seps)))
  {
    var cond, yes := BlockTokens(c.cond), BlockTokens(c.yes);
    OneArmedFront(c);
  }

  /** The first word that ends a clause stands in the body of the inner `if`, or is its `fi`. */
  lemma UnclosedCrop(c: Command, cond: seq<string>, yes: seq<string>, seps: seq<string>)
    requires OneArmed(c) && cond == BlockTokens(c.cond) && yes == BlockTokens(c.yes)
    requires LacksClauseWords(cond) && CroppedByFi(yes)
    ensures Crop(Tokens(c) + seps) == Unclosed(c, Crop(yes)) && CroppedByFi(Tokens(c) + seps)
  {
    OneArmedTokens(c, seps);
    HeadLacksClauseWords(cond);
    UnclosedText(c, Crop(yes));
    var head := ["if"] + (cond + ["then"]);
    hide *;
    CropBehind(head, yes + (["fi"] + (c.redirs + seps)));
    CropBeforeFi(yes, c.redirs + seps);
  }

  lemma UnclosedText(c: Command, yes: seq<string>)
    requires c.If?
    ensures Unclosed(c, yes) == (["if"] + (BlockTokens(c.cond) + ["then"])) + yes
  {
    hide BlockTokens;
    assert yes + [] == yes;
  }

  lemma HeadLacksClauseWords(cond: seq<string>)
    requires LacksClauseWords(cond)
    ensures LacksClauseWords(["if"] + (cond + ["then"]))
  {
    assert LacksClauseWords(["if"]) && LacksClauseWords(["then"]);
    hide LacksClauseWords;
    LacksClauseWordsBoth(cond, ["then"]);
    LacksClauseWordsBoth(["if"], cond + ["then"]);
  }

  lemma CropBeforeFi(yes: seq<string>, tail: seq<string>)
    requires CroppedByFi(yes)
    ensures Crop(yes + (["fi"] + tail)) == Crop(yes) && CroppedByFi(yes + (["fi"] + tail))
  {
    var ts := yes + (["fi"] + tail);
    CropFirst(yes, ["fi"] + tail);
    if BodyLength(yes) == |yes| {
      LengthIsFirst(yes);
      LengthBehind(yes, "fi", tail);
      assert ts[..|yes|] == yes && ts[|yes|] == "fi";
    }
  }

  /** What is behind does not matter, if the tokens in front are cropped. */
  lemma {:induction false} CropFirst(u: seq<string>, v: seq<string>)
    ensures BodyLength(u) < |u| ==> BodyLength(u + v) == BodyLength(u) && Crop(u + v) == Crop(u)
    decreases |u|
  {
    if u != [] && !EndsClause(u[0]) {
      assert (u + v)[1..] == u[1..] + v;
      CropFirst(u[1..], v);
    }
  }

  lemma CropElseBeforeFi(body: seq<string>, tail: seq<string>)
    ensures var more := body + (["fi"] + tail); var k := IndexToken(more, "fi");
            k >= 0 && more[..k] == CropElse(body)
  {
    var more := body + (["fi"] + tail);
    IndexBehind(body, "fi", tail, "fi");
    IndexIsFirst(body, "fi");
    if IndexToken(body, "fi") >= 0 {
      IndexInFirst(body, ["fi"] + tail);
    }
    assert Lacks(body, "fi") ==> more[..|body|] == body;
  }

  lemma {:induction false} IndexInFirst(u: seq<string>, v: seq<string>)
    requires IndexToken(u, "fi") >= 0
    ensures IndexToken(u + v, "fi") == IndexToken(u, "fi") && (u + v)[..IndexToken(u, "fi")] == u[..IndexToken(u, "fi")]
    decreases |u|
  {
    hide IsWord;
    assert u != [];
    if !IsWord(u[0], "fi") {
      assert (u + v)[1..] == u[1..] + v;
      IndexInFirst(u[1..], v);
    }
  }

  /** The `else` part as the runner takes it. */
  lemma {:induction false} ElseReadsAsWritten(x: Lexicon, b: Block)
    requires ElseCutRight(b)
    ensures Read(x, CropElse(BlockTokens(b))) == Tree(x, b)
    decreases b, 3
  {
    hide Read, Tree, CropElse, Lacks, ElseTailCutRight, CutRight, BlockTokens;
    if Lacks(BlockTokens(b), "fi") && CutRight(b) {
      CropNothing(BlockTokens(b));
      ReadsAsWritten(x, b);
    } else {
      ElseTailReadsAsWritten(x, b);
    }
  }

  lemma {:induction false} ElseTailReadsAsWritten(x: Lexicon, b: Block)
    requires ElseTailCutRight(b)
    ensures Read(x, CropElse(BlockTokens(b))) == Tree(x, b)
    decreases b, 2
  {
    var c, more := b.cmd, BlockTokens(b.rest);
    hide CommandCutRight, CommandOf, Read, TreeOf, CropElse, Lacks, Tokens;
    if b.rest.Nil? {
      UnclosedElseReads(x, c, b.seps);
      assert b.seps + [] == b.seps;
    } else {
      CropElseTail(Tokens(c), b.seps, more);
      ElseTailReadsAsWritten(x, b.rest);
      if Blank(c) {
        BlankHasNoTokens(c, b.seps + CropElse(more));
        SkipSeparators(x, b.seps, CropElse(more));
      } else {
        ReadFirst(x, c, b.seps, CropElse(more));
        CommandReadsAsWritten(x, c);
      }
    }
  }

  lemma {:induction false} UnclosedElseReads(x: Lexicon, c: Command, seps: seq<string>)
    requires UnclosedInElse(c)
    ensures Read(x, CropElse(Tokens(c) + seps)) == [TreeOf(x, c)]
    decreases c, 4
  {
    var cond, yes := BlockTokens(c.cond), BlockTokens(c.yes);
    ReadsAsWritten(x, c.cond);
    ReadsAsWritten(x, c.yes);
    CropNothing(yes);
    UnclosedReadsCropped(x, c);
    UnclosedElseCrop(c, cond, yes, seps);
  }

  lemma UnclosedElseCrop(c: Command, cond: seq<string>, yes: seq<string>, seps: seq<string>)
    requires OneArmed(c) && cond == BlockTokens(c.cond) && yes == BlockTokens(c.yes)
    requires Lacks(cond, "fi") && Lacks(yes, "fi")
    ensures CropElse(Tokens(c) + seps) == Unclosed(c, yes)
  {
    OneArmedTokens(c, seps);
    HeadLacksFi(cond);
    UnclosedText(c, yes);
    var head, more := ["if"] + (cond + ["then"]), ["fi"] + (c.redirs + seps);
    hide *;
    CropElseBehind(head, yes + more);
    CropElseBehind(yes, more);
    CropElseAtFi(c.redirs + seps);
    assert yes + [] == yes;
  }

  lemma CropElseAtFi(tail: seq<string>)
    ensures CropElse(["fi"] + tail) == []
  {
  }

  lemma HeadLacksFi(cond: seq<string>)
    requires Lacks(cond, "fi")
    ensures Lacks(["if"] + (cond + ["then"]), "fi")
  {
    OtherLetter("if", "fi");
    OtherLetter("then", "fi");
    hide IsWord, Lacks;
    LacksOne("if", "fi");
    LacksOne("then", "fi");
    LacksBoth(cond, ["then"], "fi");
    LacksBoth(["if"], cond + ["then"], "fi");
  }

  // ----- an `if` is read as it is written -----

  lemma LastBodyStops(cond: seq<string>, yes: seq<string>, tail: seq<string>)
    requires CroppedByFi(yes)
    ensures CutBody(cond, yes + (["fi"] + tail)) == Some(IfParts([Arm(cond, Crop(yes))], []))
  {
    CropBeforeFi(yes, tail);
  }

  lemma {:induction false} ArmsReadAsWritten(x: Lexicon, cond: Block, yes: Block, e: Elifs, no: Otherwise, tail: seq<string>, n: nat)
    requires Lacks(BlockTokens(cond), "then") && Read(x, BlockTokens(cond)) == Tree(x, cond)
    requires Read(x, Crop(BlockTokens(yes))) == Tree(x, yes) && CroppedByFi(BlockTokens(yes))
    requires e.Elif? || no.Else? ==> LacksClauseWords(BlockTokens(yes))
    requires ElifsCutRight(e, no.NoElse?)
    requires no.Else? ==> Read(x, CropElse(BlockTokens(no.body))) == Tree(x, no.body)
    ensures var p := CutClauses(Clause(BlockTokens(cond), BlockTokens(yes), Behind(e, no, tail)));
            && p.Some?
            && (Below(p.value, n) ==>
                  IfOf(x, p.value, n) == L.If(Tree(x, cond), Tree(x, yes), ElifTree(x, e, OtherwiseTree(x, no))))
    decreases e, 5
  {
    var c, y := BlockTokens(cond), BlockTokens(yes);
    var p := CutClauses(Clause(c, y, Behind(e, no, tail)));
    ConditionStops(c, y, Behind(e, no, tail));
    BehindStarts(e, no, tail);
    hide Read, Tree, BlockTokens, Crop, CroppedByFi, CropElse, CutBody, CutClauses, Clause, Behind, Lacks, LacksClauseWords,
         IfOf, CutRight, BodyCutRight, Below;
    CropNothing(y);
    match e
    case Elif(cond2, yes2, more) =>
      var next := Clause(BlockTokens(cond2), BlockTokens(yes2), Behind(more, no, tail));
      BodyStops(c, y, "elif", next);
      ReadsAsWritten(x, cond2);
      BodyReadsAsWritten(x, yes2, no.NoElse? && more.NoElif?);
      ArmsReadAsWritten(x, cond2, yes2, more, no, tail, n);
      if Below(p.value, n) {
        ArmIsRead(x, p.value, n);
        assert p.value.arms[1..] == CutClauses(next).value.arms;
      }
    case NoElif =>
      if no.Else? {
        var b := BlockTokens(no.body);
        BodyStops(c, y, "else", b + (["fi"] + tail));
        CropElseBeforeFi(b, tail);
      } else {
        LastBodyStops(c, y, tail);
        assert Read(x, []) == [] by {
          ReadNothing(x);
        }
      }
      if Below(p.value, n) {
        ArmIsRead(x, p.value, n);
      }
  }

  lemma ReadNothing(x: Lexicon)
    ensures Read(x, []) == []
  {
  }

  lemma IfTokensAre(c: Command)
    requires c.If?
    ensures Tokens(c) == ["if"] + Clause(BlockTokens(c.cond), BlockTokens(c.yes), Behind(c.elifs, c.no, c.redirs))
  {
    assert Front(c) == ["if"] + (BlockTokens(c.cond) + Compounds.Clauses(c));
    IfTokens(BlockTokens(c.cond), BlockTokens(c.yes), ElifTokens(c.elifs), ElseTokens(c.no), c.redirs);
  }

  lemma {:induction false} IfReadsAsWritten(x: Lexicon, c: Command)
    requires c.If? && CommandCutRight(c)
    ensures Tokens(c) != [] && CommandOf(x, Tokens(c)) == TreeOf(x, c)
    decreases c, 0
  {
    var ts := Tokens(c);
    IfTokensAre(c);
    assert ts[1..] == Clause(BlockTokens(c.cond), BlockTokens(c.yes), Behind(c.elifs, c.no, c.redirs));
    hide Tokens, CutClauses, Read, Tree, ElifTree, OtherwiseTree, CutRight, BodyCutRight, ElseCutRight, ElifsCutRight,
         Readable, NoCapture, Below, IfOf, Clause, Behind, BlockTokens, Lacks, LacksClauseWords, Crop, CropElse, CroppedByFi;
    ReadsAsWritten(x, c.cond);
    BodyReadsAsWritten(x, c.yes, c.elifs.NoElif? && c.no.NoElse?);
    if c.no.Else? {
      ElseReadsAsWritten(x, c.no.body);
    }
    ArmsReadAsWritten(x, c.cond, c.yes, c.elifs, c.no, c.redirs, |ts|);
    ClausesBelow(ts[1..], |ts|);
  }

  /** A program whose compounds are cut right, and in which no `break` or `continue` leaves the condition
      of an `if`, ends as the structured reading of its grammar says: with the same variables and status,
      exit and return included. */
  lemma ProgramsRunAsWritten(w: L.World, sub: bool, x: Lexicon, b: Block, env: L.Env, last: int, fuel: nat)
    requires CutRight(b) && SoundAll(Tree(x, b))
    ensures var m := L.Machine(env, last, 0, 0, 0, false, 0, false, 0);
            var r, y := L.RunScript(w, sub, Read(x, BlockTokens(b)), m, fuel),
                        ScriptMeaning(w, sub, Tree(x, b), 0, env, last, 0, fuel);
            && (r.Some? <==> y.Some?)
            && (r.Some? ==> r.value.m.env == y.value.env && r.value.m.last == y.value.last
                            && r.value.status == FinalStatus(y.value)
                            && (r.value.m.exiting <==> y.value.flow.Exiting?)
                            && (r.value.m.returning <==> y.value.flow.Returning?))
  {
    hide CutRight, Read, L.RunScript, ScriptMeaning;
    ReadsAsWritten(x, b);
    RunnerRefinesStructure(w, sub, Tree(x, b), env, last, fuel);
  }
}

// Printing a list of tokens and reading the script back gives the same list.
module TokensRoundTrip {
  import opened Scan
  import opened Tokens

  predicate Unmarked(s: string) {
    forall k :: 0 <= k < |s| ==> s[k] != LINE_CONTINUATION
  }

  /** A word that ends where it ends: read on its own, it leaves no quote and no backslash open and
      has no separator outside quotes. */
  predicate Closed(w: string) {
    w != "" && Unmarked(w) && Run(w, 0, START, |w|) == (|w|, Reader([], w, CLEAN))
  }

  predicate IsOperator(t: string) { t == ";" || t == ";;" || t == "&" || t == "&&" }

  predicate Token(t: string) { IsOperator(t) || Closed(t) }

  /** A token as the reader yields it. */
  predicate ReadToken(t: string) { Token(t) || t == "\n" }

  predicate AllRead(ts: seq<string>) {
    forall k :: 0 <= k < |ts| ==> ReadToken(ts[k])
  }

  /** Separator-normal form: no newline token, no `;` next to `;` or `;;`. */
  predicate SeparatorsApart(ts: seq<string>) {
    "\n" !in ts && forall k :: 0 < k < |ts| ==> MayFollow(ts[k - 1], ts[k])
  }

  predicate MayFollow(prev: string, t: string) {
    !(prev == ";" && (t == ";" || t == ";;")) && !(prev == ";;" && t == ";")
  }

  /** The tokens in normal form, from inside a run of separators: `lastSep` says that the run has begun,
      `odd` that it began with a single one. In each run a `;` at the start goes behind the `;;`s, the other
      single separators are dropped, and newlines become `;`. */
  function NormalFrom(ts: seq<string>, lastSep: bool, odd: bool): (n: seq<string>)
    ensures |n| <= |ts| + (if odd then 1 else 0)
    decreases ts
  {
    if ts == [] then (if odd then [";"] else [])
    else if IsSeparator(ts[0]) then NormalFrom(ts[1..], true, odd || !lastSep)
    else if ts[0] == ";;" then [";;"] + NormalFrom(ts[1..], true, odd)
    else (if odd then [";"] else []) + ([ts[0]] + NormalFrom(ts[1..], false, false))
  }

  function Normal(ts: seq<string>): seq<string> { NormalFrom(ts, false, false) }

  predicate EndsInBlank(ts: seq<string>) {
    ts != [] && ts[|ts| - 1] != "" && IsSpace(ts[|ts| - 1][|ts[|ts| - 1]| - 1])
  }

  // ----- reading a word does not depend on what stands around it -----

  function WithTokens(r: Reader, acc: seq<string>): Reader { r.(tokens := acc) }

  /** The part of `s` from `p` on starts with `w`. */
  predicate StandsAt(s: string, p: nat, w: string) {
    p + |w| <= |s| && forall k :: 0 <= k < |w| ==> s[p + k] == w[k]
  }

  predicate NoRedirectionBefore(s: string, p: nat)
    requires p <= |s|
  {
    p > 0 ==> s[p - 1] != '>' && s[p - 1] != '<'
  }

  lemma {:induction false} AnsiEndInside(s: string, p: nat, w: string, j: nat)
    requires StandsAt(s, p, w) && j <= |w|
    ensures AnsiEnd(w, j) < |w| ==> AnsiEnd(s, p + j) == p + AnsiEnd(w, j)
    ensures AnsiEnd(s, p + j) < p + |w| ==> AnsiEnd(s, p + j) == p + AnsiEnd(w, j)
    decreases |w| - j
  {
    if j < |w| {
      if w[j] == '\\' && j + 1 < |w| {
        AnsiEndInside(s, p, w, j + 2);
      } else if w[j] == '\'' {
      } else {
        AnsiEndInside(s, p, w, j + 1);
      }
    }
  }

  /** What follows a word in a printed script. */
  predicate Followed(s: string, p: nat) {
    p < |s| ==> s[p] == ' ' || s[p] == ';'
  }

  lemma SliceInside(s: string, p: nat, w: string, i: nat, j: nat)
    requires StandsAt(s, p, w) && i <= j <= |w|
    ensures s[p + i..p + j] == w[i..j]
  {
  }

  /** A quoted `$'...'` unit that ends within the word is the same unit in the script. */
  lemma AnsiInside(s: string, p: nat, w: string, i: nat, r: Reader, acc: seq<string>)
    requires StandsAt(s, p, w) && i + 1 < |w| && StartsAnsi(w, i, r.mode) && r.tokens == [] && !r.mode.escape
    ensures var (j, next) := Step(w, i, r);
            j <= |w| ==> Step(s, p + i, WithTokens(r, acc)) == (p + j, WithTokens(next, acc))
    ensures var (j, next) := Step(s, p + i, WithTokens(r, acc));
            j <= p + |w| ==> Step(w, i, r) == (j - p, WithTokens(next, []))
  {
    AnsiEndInside(s, p, w, i + 2);
    var e := AnsiEnd(w, i + 2);
    if e < |w| {
      SliceInside(s, p, w, i, e + 1);
    }
    assert s[p + i] == w[i] && s[p + i + 1] == w[i + 1];
  }

  /** A step that emits no token and reads no further than the word is the same step in the script
      and on the word alone. */
  lemma StepForward(s: string, p: nat, w: string, i: nat, r: Reader, acc: seq<string>)
    requires StandsAt(s, p, w) && NoRedirectionBefore(s, p) && i < |w| && r.tokens == []
    requires Followed(s, p + |w|)
    requires var (j, next) := Step(w, i, r); j <= |w| && next.tokens == [] && (j == |w| ==> !next.mode.escape)
    ensures var (j, next) := Step(w, i, r); Step(s, p + i, WithTokens(r, acc)) == (p + j, WithTokens(next, acc))
  {
    if !r.mode.escape && StartsAnsi(w, i, r.mode) {
      AnsiInside(s, p, w, i, r, acc);
    } else {
      assert s[p + i] == w[i];
      assert i + 1 < |w| ==> s[p + i + 1] == w[i + 1];
      assert i > 0 ==> s[p + i - 1] == w[i - 1];
      hide AnsiEnd, IsSpace, StandsAt;
    }
  }

  lemma StepBackward(s: string, p: nat, w: string, i: nat, r: Reader, acc: seq<string>)
    requires StandsAt(s, p, w) && NoRedirectionBefore(s, p) && i < |w| && r.tokens == []
    requires var (j, next) := Step(s, p + i, WithTokens(r, acc)); j <= p + |w| && next.tokens == acc
    ensures var (j, next) := Step(s, p + i, WithTokens(r, acc)); Step(w, i, r) == (j - p, WithTokens(next, []))
  {
    assert s[p + i] == w[i];
    assert i + 1 < |w| ==> s[p + i + 1] == w[i + 1];
    assert i > 0 ==> s[p + i - 1] == w[i - 1];
    if !r.mode.escape && StartsAnsi(s, p + i, r.mode) {
      AnsiInside(s, p, w, i, r, acc);
    } else {
      hide AnsiEnd, IsSpace, StandsAt;
    }
  }

  // ----- runs -----

  lemma StepGrows(s: string, i: nat, r: Reader)
    requires i < |s|
    ensures r.tokens <= Step(s, i, r).1.tokens
  {
  }

  lemma {:induction false} RunGrows(s: string, i: nat, r: Reader, e: nat)
    requires e <= |s|
    ensures r.tokens <= Run(s, i, r, e).1.tokens
    decreases e - i
  {
    if i < e {
      hide Step;
      StepGrows(s, i, r);
      RunGrows(s, Step(s, i, r).0, Step(s, i, r).1, e);
    }
  }

  lemma {:induction false} RunCompose(s: string, i: nat, r: Reader, e1: nat, e2: nat)
    requires e1 <= e2 <= |s| && Run(s, i, r, e1).0 <= e2
    ensures var (j, m) := Run(s, i, r, e1); Run(s, i, r, e2) == Run(s, j, m, e2)
    decreases e1 - i
  {
    if i < e1 {
      hide Step;
      RunCompose(s, Step(s, i, r).0, Step(s, i, r).1, e1, e2);
    }
  }

  lemma {:induction false} RunForward(s: string, p: nat, w: string, i: nat, r: Reader, acc: seq<string>, f: Reader)
    requires StandsAt(s, p, w) && NoRedirectionBefore(s, p) && i <= |w| && r.tokens == []
    requires Followed(s, p + |w|) && Run(w, i, r, |w|) == (|w|, f) && f.tokens == [] && !f.mode.escape
    ensures Run(s, p + i, WithTokens(r, acc), p + |w|) == (p + |w|, WithTokens(f, acc))
    decreases |w| - i
  {
    hide Step, StandsAt, NoRedirectionBefore, Followed;
    if i < |w| {
      var (j, next) := Step(w, i, r);
      StepGrows(w, i, r);
      RunGrows(w, j, next, |w|);
      StepForward(s, p, w, i, r, acc);
      RunForward(s, p, w, j, next, acc, f);
    }
  }

  lemma {:induction false} RunBackward(s: string, p: nat, w: string, i: nat, r: Reader, acc: seq<string>, f: Reader)
    requires StandsAt(s, p, w) && NoRedirectionBefore(s, p) && i <= |w| && r.tokens == []
    requires Run(s, p + i, WithTokens(r, acc), p + |w|) == (p + |w|, f) && f.tokens == acc
    ensures Run(w, i, r, |w|) == (|w|, WithTokens(f, []))
    decreases |w| - i
  {
    hide Step, NoRedirectionBefore;
    if i < |w| {
      var (j, next) := Step(s, p + i, WithTokens(r, acc));
      StepGrows(s, p + i, WithTokens(r, acc));
      RunGrows(s, j, next, p + |w|);
      StepBackward(s, p, w, i, r, acc);
      RunBackward(s, p, w, j - p, WithTokens(next, []), acc, f);
    }
  }

  // ----- reading what was printed -----

  function Pending(r: Reader): seq<string> { Flush(r).tokens }

  lemma BlankFlushes(s: string, p: nat, r: Reader)
    requires p < |s| && s[p] == ' ' && r.mode == CLEAN
    ensures Run(s, p, r, |s|) == Run(s, p + 1, Flush(r), |s|)
  {
  }

  lemma WordRead(s: string, p: nat, w: string, acc: seq<string>)
    requires Closed(w) && StandsAt(s, p, w) && NoRedirectionBefore(s, p) && Followed(s, p + |w|)
    ensures Run(s, p, Reader(acc, "", CLEAN), |s|) == Run(s, p + |w|, Reader(acc, w, CLEAN), |s|)
  {
    hide Step;
    RunForward(s, p, w, 0, START, acc, Reader([], w, CLEAN));
    RunCompose(s, p, Reader(acc, "", CLEAN), p + |w|, |s|);
  }

  /** One operator, not followed by a character it could be joined with. */
  lemma OperatorRead(s: string, p: nat, t: string, r: Reader)
    requires IsOperator(t) && StandsAt(s, p, t) && r.mode == CLEAN
    requires t[0] == '&' ==> NoRedirectionBefore(s, p)
    requires t == ";;" || t == "&&" || p + |t| == |s| || s[p + |t|] == ' ' || (t == "&" && s[p + |t|] == ';')
    ensures Run(s, p, r, |s|) == Run(s, p + |t|, Emit(r, t), |s|)
  {
    assert s[p] == t[0];
    if |t| == 2 { assert s[p + 1] == t[1]; }
  }

  /** Behind a token that is no separator a blank, a `;` or nothing is printed. */
  lemma AfterToken(ts: seq<string>)
    requires AllRead(ts)
    ensures var text := PrintFrom(ts, true, false); text == "" || text[0] == ' ' || text[0] == ';'
  {
  }

  lemma NewlineIsNoWord()
    ensures !Closed("\n")
  {
    assert Step("\n", 0, START) == (1, Emit(START, "\n"));
    assert Run("\n", 1, Emit(START, "\n"), 1) == (1, Emit(START, "\n"));
  }

  lemma TailStands(s: string, p: nat, t: string, rest: string)
    requires p <= |s| && s[p..] == t + rest
    ensures StandsAt(s, p, t) && p + |t| <= |s| && s[p + |t|..] == rest
    ensures rest != "" ==> p + |t| < |s| && s[p + |t|] == rest[0]
    ensures rest == "" ==> p + |t| == |s|
  {
    assert forall k :: 0 <= k < |t| ==> s[p + k] == s[p..][k];
    assert s[p + |t|..] == s[p..][|t|..];
  }

  lemma PendingAfterEmit(r: Reader, t: string)
    ensures Pending(Emit(r, t)) == Pending(r) + [t] && Emit(r, t).buf == "" && Emit(r, t).mode == r.mode
    ensures Pending(Flush(r)) == Pending(r) && Flush(r).buf == "" && Flush(r).mode == r.mode && Flush(r).tokens == Pending(r)
  {
  }

  /** Reads a token that is no separator, at a position where no blank is left in front of it. */
  lemma TokenRead(s: string, p: nat, t: string, rest: string, r: Reader) returns (next: Reader)
    requires Token(t) && !SeparatorAfter(t) && p <= |s| && s[p..] == t + rest
    requires rest == "" || rest[0] == ' ' || rest[0] == ';'
    requires r.mode == CLEAN && r.buf == "" && NoRedirectionBefore(s, p)
    ensures p + |t| <= |s| && s[p + |t|..] == rest && Run(s, p, r, |s|) == Run(s, p + |t|, next, |s|)
    ensures next.mode == CLEAN && Pending(next) == Pending(r) + [t]
  {
    hide Step, Run, Emit, Flush, Closed, StandsAt, Pending;
    TailStands(s, p, t, rest);
    if IsOperator(t) {
      OperatorRead(s, p, t, r);
      PendingAfterEmit(r, t);
      next := Emit(r, t);
    } else {
      WordIsProper(t);
      WordRead(s, p, t, r.tokens);
      WordPending(r, t);
      next := Reader(r.tokens, t, CLEAN);
    }
  }

  lemma WordIsProper(t: string)
    requires Closed(t)
    ensures t != "" && t != "\n"
  {
    NewlineIsNoWord();
  }

  lemma WordPending(r: Reader, t: string)
    requires t != "" && r.buf == ""
    ensures Pending(Reader(r.tokens, t, CLEAN)) == Pending(r) + [t]
  {
  }

  /** What is printed for a list, by its first token. */
  lemma PrintStep(ts: seq<string>, started: bool, lastSep: bool)
    requires ts != [] && ReadToken(ts[0])
    ensures var t := ts[0];
            PrintFrom(ts, started, lastSep) ==
              if IsSeparator(t) then (if lastSep then PrintFrom(ts[1..], started, true) else ";" + PrintFrom(ts[1..], true, true))
              else if t == ";;" then (if started && !lastSep then " " else "") + (";;" + PrintFrom(ts[1..], true, true))
              else (if started then " " else "") + (t + PrintFrom(ts[1..], true, false))
  {
    var t := ts[0];
    var p := Piece(t, started, lastSep);
    WordIsThere(t);
    PrintPiece(ts, started, lastSep);
    PieceIs(t, started, lastSep);
    hide PrintFrom, Piece, ReadToken;
    var more := PrintFrom(ts[1..], started || p != "", SeparatorAfter(t));
    if IsSeparator(t) && lastSep {
      assert "" + more == more;
    } else if !IsSeparator(t) {
      var blank := if t == ";;" then (if started && !lastSep then " " else "") else if started then " " else "";
      Regroup(blank, t, more);
    }
  }

  lemma Regroup(a: string, b: string, c: string)
    ensures (a + b) + c == a + (b + c)
  {
  }

  lemma PrintPiece(ts: seq<string>, started: bool, lastSep: bool)
    requires ts != []
    ensures var p := Piece(ts[0], started, lastSep);
            PrintFrom(ts, started, lastSep) == p + PrintFrom(ts[1..], started || p != "", SeparatorAfter(ts[0]))
  {
    hide Piece;
  }

  lemma PieceIs(t: string, started: bool, lastSep: bool)
    requires t != ""
    ensures var p := Piece(t, started, lastSep);
            if IsSeparator(t) then p == (if lastSep then "" else ";")
            else p != "" && p == (if t == ";;" then (if started && !lastSep then " " else "") else if started then " " else "") + t
  {
    assert "" + t == t;
  }

  /** A blank, if there is one. */
  lemma PastBlank(s: string, p: nat, blank: bool, rest: string, r: Reader) returns (q: nat, from: Reader)
    requires p <= |s| && s[p..] == (if blank then " " else "") + rest && r.mode == CLEAN && (!blank ==> r.buf == "" && p == 0)
    ensures q <= |s| && s[q..] == rest && NoRedirectionBefore(s, q) && from.mode == CLEAN && from.buf == ""
    ensures Pending(from) == Pending(r) && Run(s, p, r, |s|) == Run(s, q, from, |s|)
  {
    hide Step, Run;
    if blank {
      TailStands(s, p, " ", rest);
      BlankFlushes(s, p, r);
      q, from := p + 1, Flush(r);
    } else {
      q, from := p, r;
    }
  }

  /** Reads a `;` behind which a blank or nothing is printed. */
  lemma SemicolonRead(s: string, p: nat, rest: string, r: Reader)
    requires p <= |s| && s[p..] == ";" + rest && (rest == "" || rest[0] == ' ') && r.mode == CLEAN
    ensures p + 1 <= |s| && s[p + 1..] == rest && Run(s, p, r, |s|) == Run(s, p + 1, Emit(r, ";"), |s|)
  {
    TailStands(s, p, ";", rest);
    hide Run, Step;
    OperatorRead(s, p, ";", r);
  }

  lemma DoubleRead(s: string, p: nat, rest: string, r: Reader)
    requires p <= |s| && s[p..] == ";;" + rest && r.mode == CLEAN
    ensures p + 2 <= |s| && s[p + 2..] == rest && Run(s, p, r, |s|) == Run(s, p + 2, Emit(r, ";;"), |s|)
  {
    TailStands(s, p, ";;", rest);
    hide Run, Step;
    OperatorRead(s, p, ";;", r);
  }

  /** The reader stands before the text printed for `ts`, or, in an odd run of separators, one `;` before
      it: it reads the tokens in normal form. */
  lemma {:induction false} ReadPrinted(s: string, p: nat, ts: seq<string>, r: Reader, lastSep: bool, odd: bool)
    requires AllRead(ts) && p <= |s| && r.mode == CLEAN && (odd ==> lastSep)
    requires s[p..] == (if odd then ";" else "") + PrintFrom(ts, p > 0 || odd, lastSep)
    requires (lastSep && !odd ==> r.buf == "" && p > 0) && (p == 0 ==> r.buf == "")
    ensures Pending(Run(s, p, r, |s|).1) == Pending(r) + NormalFrom(ts, lastSep, odd)
    decreases ts
  {
    hide Step, Run, Emit, PrintFrom, Piece, Closed, Pending, Flush;
    if ts == [] {
      ReadRest(s, p, r, lastSep, odd);
    } else {
      PrintStep(ts, p > 0 || odd, lastSep);
      if IsSeparator(ts[0]) {
        ReadPrinted(s, p, ts[1..], r, true, odd || !lastSep);
      } else if ts[0] == ";;" {
        ReadDouble(s, p, ts, r, lastSep, odd);
      } else {
        ReadWord(s, p, ts, r, lastSep, odd);
      }
    }
  }

  lemma ReadRest(s: string, p: nat, r: Reader, lastSep: bool, odd: bool)
    requires p <= |s| && s[p..] == (if odd then ";" else "") + PrintFrom([], p > 0 || odd, lastSep) && r.mode == CLEAN
    ensures Pending(Run(s, p, r, |s|).1) == Pending(r) + if odd then [";"] else []
  {
    hide Step;
    if odd {
      SemicolonRead(s, p, "", r);
      PendingAfterEmit(r, ";");
    } else {
      assert Pending(r) + [] == Pending(r);
    }
  }

  lemma {:induction false} ReadDouble(s: string, p: nat, ts: seq<string>, r: Reader, lastSep: bool, odd: bool)
    requires ts != [] && ts[0] == ";;" && AllRead(ts) && p <= |s| && r.mode == CLEAN && (odd ==> lastSep)
    requires var pre := if odd then ";" else "";
             s[p..] == pre + ((if (p > 0 || odd) && !lastSep then " " else "") + (";;" + PrintFrom(ts[1..], true, true)))
    requires (lastSep && !odd ==> r.buf == "" && p > 0) && (p == 0 ==> r.buf == "")
    ensures Pending(Run(s, p, r, |s|).1) == Pending(r) + NormalFrom(ts, lastSep, odd)
    decreases ts, 0
  {
    hide Step, Run, Emit, PrintFrom, Piece, Closed, Pending, Flush;
    var more := (if odd then ";" else "") + PrintFrom(ts[1..], true, true);
    var q, from := p, r;
    if !lastSep {
      assert "" + s[p..] == s[p..];
      q, from := PastBlank(s, p, p > 0, ";;" + more, r);
    } else {
      assert s[p..] == ";;" + more;
    }
    DoubleRead(s, q, more, from);
    PendingAfterEmit(from, ";;");
    ReadPrinted(s, q + 2, ts[1..], Emit(from, ";;"), true, odd);
    assert Pending(r) + [";;"] + NormalFrom(ts[1..], true, odd) == Pending(r) + NormalFrom(ts, lastSep, odd);
  }

  lemma {:induction false} ReadWord(s: string, p: nat, ts: seq<string>, r: Reader, lastSep: bool, odd: bool)
    requires ts != [] && !SeparatorAfter(ts[0]) && AllRead(ts) && p <= |s| && r.mode == CLEAN && (odd ==> lastSep)
    requires var pre := if odd then ";" else "";
             s[p..] == pre + ((if p > 0 || odd then " " else "") + (ts[0] + PrintFrom(ts[1..], true, false)))
    requires (lastSep && !odd ==> r.buf == "" && p > 0) && (p == 0 ==> r.buf == "")
    ensures Pending(Run(s, p, r, |s|).1) == Pending(r) + NormalFrom(ts, lastSep, odd)
    decreases ts, 0
  {
    hide Step, Run, Emit, PrintFrom, Piece, Closed, Pending, Flush;
    hide NormalFrom;
    var t, rest := ts[0], PrintFrom(ts[1..], true, false);
    var sep, q, from := if odd then [";"] else [], p, r;
    if odd {
      SemicolonRead(s, p, " " + (t + rest), r);
      PendingAfterEmit(r, ";");
      q, from := p + 1, Emit(r, ";");
    } else {
      NothingInFront(s[p..], if p > 0 then " " else "", t + rest);
      assert Pending(r) + sep == Pending(r);
    }
    AfterToken(ts[1..]);
    var end, next := ReadLone(s, q, t, rest, from);
    ReadPrinted(s, end, ts[1..], next, false, false);
    NormalStep(ts, lastSep, odd, Pending(r), sep);
  }

  lemma NothingInFront(text: string, blank: string, rest: string)
    requires text == "" + (blank + rest)
    ensures text == blank + rest
  {
  }

  lemma NormalStep(ts: seq<string>, lastSep: bool, odd: bool, before: seq<string>, sep: seq<string>)
    requires ts != [] && !SeparatorAfter(ts[0]) && sep == if odd then [";"] else []
    ensures ((before + sep) + [ts[0]]) + NormalFrom(ts[1..], false, false) == before + NormalFrom(ts, lastSep, odd)
  {
    var more := NormalFrom(ts[1..], false, false);
    assert NormalFrom(ts, lastSep, odd) == sep + ([ts[0]] + more);
  }

  /** A token that is no separator, with the blank in front of it. */
  lemma ReadLone(s: string, p: nat, t: string, rest: string, r: Reader) returns (end: nat, next: Reader)
    requires Token(t) && !SeparatorAfter(t) && p <= |s| && s[p..] == (if p > 0 then " " else "") + (t + rest)
    requires rest == "" || rest[0] == ' ' || rest[0] == ';'
    requires r.mode == CLEAN && (p == 0 ==> r.buf == "")
    ensures 0 < end <= |s| && s[end..] == rest && Run(s, p, r, |s|) == Run(s, end, next, |s|)
    ensures next.mode == CLEAN && Pending(next) == Pending(r) + [t]
  {
    hide *;
    var start, before := PastBlank(s, p, p > 0, t + rest, r);
    next := TokenRead(s, start, t, rest, before);
    WordIsThere(t);
    end := start + |t|;
  }

  lemma WordIsThere(t: string)
    requires ReadToken(t)
    ensures t != ""
  {
  }

  // ----- the printed text as a whole -----

  lemma StepBound(s: string, i: nat, r: Reader)
    requires i < |s|
    ensures var (j, n) := Step(s, i, r); |n.buf| + i <= |r.buf| + j
    ensures var (j, n) := Step(s, i, r); n.tokens != r.tokens ==> n.buf == ""
  {
  }

  lemma {:induction false} RunBound(s: string, i: nat, r: Reader, e: nat)
    requires e <= |s|
    ensures var (j, f) := Run(s, i, r, e); |f.buf| + i <= |r.buf| + j
    decreases e - i
  {
    if i < e {
      hide Step;
      StepBound(s, i, r);
      RunBound(s, Step(s, i, r).0, Step(s, i, r).1, e);
    }
  }

  lemma WordStartsDark(w: string)
    requires Closed(w)
    ensures !IsSpace(w[0])
  {
    var (j, n) := Step(w, 0, START);
    assert Run(w, 0, START, |w|) == Run(w, j, n, |w|);
    RunBound(w, j, n, |w|);
  }

  lemma TokenIsDark(t: string)
    requires ReadToken(t)
    ensures t != "" && Unmarked(t) && (t != "\n" ==> !IsSpace(t[0]))
  {
    if Closed(t) {
      WordStartsDark(t);
    }
  }

  /** The last character of a list of tokens. */
  predicate EndsIn(ts: seq<string>, c: char) {
    |ts| > 0 && ts[|ts| - 1] != "" && ts[|ts| - 1][|ts[|ts| - 1]| - 1] == c
  }

  /** The printed text starts with no blank. */
  lemma {:induction false} PrintedIsDark(ts: seq<string>, started: bool, lastSep: bool)
    requires AllRead(ts)
    ensures var text := PrintFrom(ts, started, lastSep); Unmarked(text) && (!started && text != "" ==> !IsSpace(text[0]))
    decreases ts
  {
    hide Closed, Token, Unmarked, Piece, PrintFrom, IsSpace;
    SemicolonIsDark();
    if ts == [] {
      PrintNothing(started, lastSep);
    } else {
      var t := ts[0];
      PrintStep(ts, started, lastSep);
      TokenIsDark(t);
      if IsSeparator(t) {
        PrintedIsDark(ts[1..], started || !lastSep, true);
        if !lastSep {
          UnmarkedConcat(";", PrintFrom(ts[1..], true, true));
        }
      } else {
        var more := PrintFrom(ts[1..], true, t == ";;");
        PrintedIsDark(ts[1..], true, t == ";;");
        UnmarkedConcat(t, more);
        UnmarkedConcat(" ", t + more);
        FirstLetter(t, more);
      }
    }
  }

  lemma FirstLetter(t: string, more: string)
    requires t != ""
    ensures "" + (t + more) == t + more && t + more != "" && (t + more)[0] == t[0]
  {
  }

  /** A text and a list of tokens with the same last character. */
  predicate SameEnd(text: string, n: seq<string>) {
    if text == "" then n == [] else EndsIn(n, text[|text| - 1])
  }

  lemma EndBehind(u: string, v: string, a: seq<string>, b: seq<string>)
    requires SameEnd(v, b) && u != "" && EndsIn(a, u[|u| - 1])
    ensures SameEnd(u + v, a + b)
  {
  }

  /** The printed text ends as the normal form does. */
  lemma {:induction false} PrintedEnds(ts: seq<string>, started: bool, lastSep: bool, odd: bool)
    requires AllRead(ts) && (odd ==> lastSep && started)
    ensures SameEnd((if odd then ";" else "") + PrintFrom(ts, started, lastSep), NormalFrom(ts, lastSep, odd))
    decreases ts
  {
    hide Closed, Token, Piece, PrintFrom, SameEnd, EndsIn;
    var pre := if odd then ";" else "";
    if ts == [] {
      PrintNothing(started, lastSep);
      NothingEnds(odd);
    } else {
      PrintStep(ts, started, lastSep);
      if IsSeparator(ts[0]) {
        PrintedEnds(ts[1..], started || !lastSep, true, odd || !lastSep);
        assert "" + (";" + PrintFrom(ts[1..], true, true)) == ";" + PrintFrom(ts[1..], true, true);
      } else {
        PrintedEnds(ts[1..], true, ts[0] == ";;", odd && ts[0] == ";;");
        WordIsThere(ts[0]);
        if ts[0] == ";;" {
          DoubleEnds(ts, if started && !lastSep then " " else "", lastSep, odd, PrintFrom(ts[1..], true, true));
        } else {
          WordEnds(ts, if started then " " else "", lastSep, odd, PrintFrom(ts[1..], true, false));
        }
      }
    }
  }

  lemma NothingEnds(odd: bool)
    ensures SameEnd((if odd then ";" else "") + "", if odd then [";"] else [])
  {
  }

  lemma DoubleEnds(ts: seq<string>, blank: string, lastSep: bool, odd: bool, more: string)
    requires ts != [] && ts[0] == ";;" && (odd ==> blank == "")
    requires SameEnd((if odd then ";" else "") + more, NormalFrom(ts[1..], true, odd))
    ensures SameEnd((if odd then ";" else "") + (blank + (";;" + more)), NormalFrom(ts, lastSep, odd))
  {
    var pre, n := if odd then ";" else "", NormalFrom(ts[1..], true, odd);
    EndOfWord(blank, ";;", []);
    assert [] + [";;"] == [";;"];
    assert pre + (blank + (";;" + more)) == (blank + ";;") + (pre + more);
    assert NormalFrom(ts, lastSep, odd) == [";;"] + n;
    hide SameEnd, NormalFrom, EndsIn;
    EndBehind(blank + ";;", pre + more, [";;"], n);
  }

  lemma WordEnds(ts: seq<string>, blank: string, lastSep: bool, odd: bool, more: string)
    requires ts != [] && ts[0] != "" && !SeparatorAfter(ts[0])
    requires SameEnd("" + more, NormalFrom(ts[1..], false, false))
    ensures SameEnd((if odd then ";" else "") + (blank + (ts[0] + more)), NormalFrom(ts, lastSep, odd))
  {
    var t, pre, sep, n := ts[0], if odd then ";" else "", if odd then [";"] else [], NormalFrom(ts[1..], false, false);
    EndOfWord(pre + blank, t, sep);
    assert NormalFrom(ts, lastSep, odd) == (sep + [t]) + n by {
      assert NormalFrom(ts, lastSep, odd) == sep + ([t] + n);
    }
    assert pre + (blank + (t + more)) == ((pre + blank) + t) + ("" + more);
    hide SameEnd, NormalFrom, EndsIn;
    EndBehind((pre + blank) + t, "" + more, sep + [t], n);
  }

  lemma EndOfWord(front: string, t: string, sep: seq<string>)
    requires t != ""
    ensures EndsIn(sep + [t], (front + t)[|front + t| - 1])
  {
  }

  lemma SemicolonIsDark()
    ensures Unmarked(";") && Unmarked(" ") && Unmarked("") && !IsSpace(';')
  {
  }

  lemma PrintNothing(started: bool, lastSep: bool)
    ensures PrintFrom([], started, lastSep) == "" && Unmarked("")
  {
  }

  lemma UnmarkedConcat(s: string, t: string)
    requires Unmarked(s) && Unmarked(t)
    ensures Unmarked(s + t)
  {
  }

  lemma {:induction false} StripUnmarked(s: string)
    requires Unmarked(s)
    ensures Strip(s) == s
  {
    if s != "" {
      StripUnmarked(s[1..]);
    }
  }

  lemma NoBlankAtTheEnd(ts: seq<string>)
    requires AllRead(ts) && !EndsInBlank(Normal(ts))
    ensures Tokenize(Print(ts)) == Normal(ts)
  {
    hide Step, Run, PrintFrom, Strip, AllRead, IsSpace;
    var text := PrintFrom(ts, false, false);
    PrintedIsDark(ts, false, false);
    PrintedEnds(ts, false, false, false);
    assert "" + text == text;
    assert Trimmed(text);
    TrimOfTrimmed(text);
    StripUnmarked(text);
    assert text[0..] == text;
    ReadPrinted(text, 0, ts, START, false, false);
    assert Pending(START) == [];
    assert [] + Normal(ts) == Normal(ts);
  }

  /** The last step of the reader leaves a last token that ends in the last character. */
  lemma LastStep(s: string, i: nat, r: Reader)
    requires i < |s| && Unmarked(s) && !IsSpace(s[|s| - 1]) && Step(s, i, r).0 >= |s|
    ensures EndsIn(Flush(Step(s, i, r).1).tokens, s[|s| - 1])
  {
    assert IsSpace('\n');
    hide AnsiEnd, IsSpace;
  }

  lemma {:induction false} LastCharRead(s: string, i: nat, r: Reader)
    requires i < |s| && Unmarked(s) && !IsSpace(s[|s| - 1])
    ensures EndsIn(Flush(Run(s, i, r, |s|).1).tokens, s[|s| - 1])
    decreases |s| - i
  {
    hide Step, Flush, EndsIn;
    var (j, n) := Step(s, i, r);
    if j < |s| {
      LastCharRead(s, j, n);
    } else {
      LastStep(s, i, r);
    }
  }

  /** What the printer trims away is missing when the script is read. */
  lemma BlankAtTheEnd(ts: seq<string>)
    requires AllRead(ts) && EndsInBlank(Normal(ts))
    ensures Tokenize(Print(ts)) != Normal(ts)
  {
    hide Print, Step, Run, Flush, AllRead, IsSpace, NormalFrom;
    var text := Print(ts);
    PrintedIsTrimmed(ts);
    StripUnmarked(text);
    if text != "" {
      LastCharRead(text, 0, START);
    } else {
      ReadNothingAtAll();
    }
  }

  lemma ReadNothingAtAll()
    ensures Tokenize("") == []
  {
  }

  lemma PrintedIsTrimmed(ts: seq<string>)
    requires AllRead(ts)
    ensures Unmarked(Print(ts)) && (Print(ts) != "" ==> !IsSpace(Print(ts)[|Print(ts)| - 1]))
  {
    hide PrintFrom, AllRead, IsSpace, Unmarked, NormalFrom;
    PrintedIsDark(ts, false, false);
    var whole := PrintFrom(ts, false, false);
    UnmarkedPrefix(whole, Print(ts));
  }

  lemma UnmarkedPrefix(s: string, t: string)
    requires Unmarked(s) && t <= s
    ensures Unmarked(t)
  {
  }

  /** Reading what was printed for a list of tokens that were read gives the list in normal form, exactly
      when that does not end in an (escaped) blank. */
  lemma RoundTrip(ts: seq<string>)
    requires AllRead(ts)
    ensures Tokenize(Print(ts)) == Normal(ts) <==> !EndsInBlank(Normal(ts))
  {
    if EndsInBlank(Normal(ts)) {
      BlankAtTheEnd(ts);
    } else {
      NoBlankAtTheEnd(ts);
    }
  }

  lemma {:induction false} NormalHasNoNewline(ts: seq<string>, lastSep: bool, odd: bool)
    ensures "\n" !in NormalFrom(ts, lastSep, odd)
    decreases ts
  {
    if ts != [] {
      NormalHasNoNewline(ts[1..], SeparatorAfter(ts[0]),
                         if IsSeparator(ts[0]) then odd || !lastSep else odd && ts[0] == ";;");
    }
  }

  /** The token that stands for the run of separators in front. */
  function Before(lastSep: bool, odd: bool): seq<string> {
    if odd then [";"] else if lastSep then [";;"] else []
  }

  lemma ApartStep(prev: seq<string>, t: string, ts: seq<string>)
    requires |prev| <= 1
    ensures SeparatorsApart(prev + ([t] + ts)) <==>
              "\n" !in prev && t != "\n" && (prev != [] ==> MayFollow(prev[0], t)) && SeparatorsApart([t] + ts)
  {
    var all := prev + ([t] + ts);
    if prev == [] {
      assert all == [t] + ts;
      assert ([t] + ts)[0] == t;
    } else {
      assert all[0] == prev[0] && all[1] == t && all[1..] == [t] + ts;
      assert forall k :: 0 < k < |all| ==> all[k] == ([t] + ts)[k - 1];
      assert ([t] + ts)[0] == t;
      assert SeparatorsApart([t] + ts) && MayFollow(prev[0], t) && prev[0] != "\n" ==> SeparatorsApart(all);
    }
  }

  /** Exactly the lists in separator-normal form are read back as they are. */
  lemma NormalExactly(ts: seq<string>)
    ensures Normal(ts) == ts <==> SeparatorsApart(ts)
  {
    NormalFromExactly(ts, false, false);
    assert [] + ts == ts;
  }

  lemma NothingApart(lastSep: bool, odd: bool)
    ensures SeparatorsApart(Before(lastSep, odd) + []) && NormalFrom([], lastSep, odd) == (if odd then [";"] else []) + []
  {
  }

  /** A single separator: kept at the start of a run if it is a `;`, else dropped or changed. */
  lemma SeparatorApart(t: string, rest: seq<string>, lastSep: bool, odd: bool)
    requires IsSeparator(t) && (odd ==> lastSep)
    requires !lastSep ==> (NormalFrom(rest, true, true) == [";"] + rest <==> SeparatorsApart([";"] + rest))
    requires SeparatorsApart(Before(lastSep, odd) + ([t] + rest)) <==>
               t != "\n" && (Before(lastSep, odd) != [] ==> MayFollow(Before(lastSep, odd)[0], t)) && SeparatorsApart([t] + rest)
    ensures NormalFrom([t] + rest, lastSep, odd) == (if odd then [";"] else []) + ([t] + rest)
       <==> SeparatorsApart(Before(lastSep, odd) + ([t] + rest))
  {
    hide SeparatorsApart;
    var ts := [t] + rest;
    assert ts[1..] == rest;
    if !lastSep {
      NormalHasNoNewline(rest, true, true);
      assert [] + ts == ts && ts[0] == t;
    } else {
      assert |(if odd then [";"] else []) + ts| > |NormalFrom(rest, true, odd)|;
    }
  }

  lemma DoubleApart(rest: seq<string>, lastSep: bool, odd: bool)
    requires odd ==> lastSep
    requires NormalFrom(rest, true, odd) == (if odd then [";"] else []) + rest <==> SeparatorsApart(Before(true, odd) + rest)
    requires SeparatorsApart(Before(lastSep, odd) + ([";;"] + rest)) <==>
               (Before(lastSep, odd) != [] ==> MayFollow(Before(lastSep, odd)[0], ";;")) && SeparatorsApart([";;"] + rest)
    ensures NormalFrom([";;"] + rest, lastSep, odd) == (if odd then [";"] else []) + ([";;"] + rest)
       <==> SeparatorsApart(Before(lastSep, odd) + ([";;"] + rest))
  {
    hide SeparatorsApart;
    var ts := [";;"] + rest;
    assert ts[1..] == rest;
    var n := [";;"] + NormalFrom(rest, true, odd);
    assert n[0] == ";;" && n[1..] == NormalFrom(rest, true, odd);
    if odd {
      assert ([";"] + ts)[0] == ";";
    } else {
      assert [] + ts == ts && [] + rest == rest;
    }
  }

  lemma WordApart(t: string, rest: seq<string>, lastSep: bool, odd: bool)
    requires !SeparatorAfter(t) && (odd ==> lastSep)
    requires NormalFrom(rest, false, false) == [] + rest <==> SeparatorsApart([] + rest)
    requires SeparatorsApart(Before(lastSep, odd) + ([t] + rest)) <==>
               (Before(lastSep, odd) != [] ==> MayFollow(Before(lastSep, odd)[0], t)) && SeparatorsApart([t] + rest)
    ensures NormalFrom([t] + rest, lastSep, odd) == (if odd then [";"] else []) + ([t] + rest)
       <==> SeparatorsApart(Before(lastSep, odd) + ([t] + rest))
  {
    var ts, pre := [t] + rest, if odd then [";"] else [];
    assert ts[1..] == rest && [] + rest == rest;
    var n := NormalFrom(rest, false, false);
    SameBehind(pre, t, n, rest);
    WordBefore(t, rest);
  }

  lemma SameBehind(pre: seq<string>, t: string, n: seq<string>, rest: seq<string>)
    ensures pre + ([t] + n) == pre + ([t] + rest) <==> n == rest
  {
    assert (pre + ([t] + n))[|pre| + 1..] == n && (pre + ([t] + rest))[|pre| + 1..] == rest;
  }

  lemma WordBefore(t: string, rest: seq<string>)
    requires !SeparatorAfter(t)
    ensures SeparatorsApart([t] + rest) <==> SeparatorsApart(rest)
  {
    var ts := [t] + rest;
    assert forall k :: 0 <= k < |rest| ==> ts[k + 1] == rest[k];
    assert ts[0] == t;
    assert SeparatorsApart(ts) ==> forall k :: 0 < k < |rest| ==> MayFollow(ts[k], ts[k + 1]);
  }

  lemma {:induction false} NormalFromExactly(ts: seq<string>, lastSep: bool, odd: bool)
    requires odd ==> lastSep
    ensures NormalFrom(ts, lastSep, odd) == (if odd then [";"] else []) + ts <==> SeparatorsApart(Before(lastSep, odd) + ts)
    decreases ts
  {
    hide MayFollow, SeparatorsApart;
    if ts == [] {
      NothingApart(lastSep, odd);
    } else {
      var t, rest := ts[0], ts[1..];
      assert ts == [t] + rest;
      ApartStep(Before(lastSep, odd), t, rest);
      NormalHasNoNewline(ts, lastSep, odd);
      if IsSeparator(t) {
        NormalFromExactly(rest, true, odd || !lastSep);
        SeparatorApart(t, rest, lastSep, odd);
      } else if t == ";;" {
        NormalFromExactly(rest, true, odd);
        DoubleApart(rest, lastSep, odd);
      } else {
        NormalFromExactly(rest, false, false);
        WordApart(t, rest, lastSep, odd);
      }
    }
  }

  const ESCAPED_BLANK := "a\\ "
  const LONE_BACKSLASH := "a\\"

  lemma ExampleSteps(s: string)
    requires |s| >= 2 && s[0] == 'a' && s[1] == '\\' && (|s| > 2 ==> s[2] == ' ')
    ensures Run(s, 0, START, |s|) == Run(s, 2, Reader([], LONE_BACKSLASH, CLEAN.(escape := true)), |s|)
  {
    assert "" + ['a'] == "a" && "a" + ['\\'] == LONE_BACKSLASH;
    assert Step(s, 0, START) == (1, Reader([], "a", CLEAN));
    assert Step(s, 1, Reader([], "a", CLEAN)) == (2, Reader([], LONE_BACKSLASH, CLEAN.(escape := true)));
  }

  lemma ExampleClosed()
    ensures Closed(ESCAPED_BLANK)
  {
    var s := ESCAPED_BLANK;
    ExampleSteps(s);
    assert LONE_BACKSLASH + [' '] == s;
    assert Step(s, 2, Reader([], LONE_BACKSLASH, CLEAN.(escape := true))) == (3, Reader([], s, CLEAN));
  }

  lemma ExamplePrinted()
    ensures Print([ESCAPED_BLANK]) == LONE_BACKSLASH
  {
    var w := ESCAPED_BLANK;
    assert PrintFrom([w][1..], true, false) == "";
    assert PrintFrom([w], false, false) == w;
    assert TrimLeft(w) == w;
    assert w[..2] == LONE_BACKSLASH;
    assert TrimRight(w) == TrimRight(LONE_BACKSLASH);
  }

  /** The one list of the token `a\ ` (an escaped blank at its end): the printer trims it away. */
  lemma TrailingBlankIsLost()
    ensures Token(ESCAPED_BLANK) && Tokenize(Print([ESCAPED_BLANK])) == [LONE_BACKSLASH]
  {
    ExampleClosed();
    ExamplePrinted();
    StripUnmarked(LONE_BACKSLASH);
    ExampleSteps(LONE_BACKSLASH);
    hide Step, Closed, Print;
  }

  // ----- what the reader reads is closed -----

  predicate NoContinuation(s: string) {
    Unmarked(s) && forall k :: 0 <= k && k + 1 < |s| ==> !(s[k] == '\\' && s[k + 1] == '\n')
  }

  /** The word being collected is the slice from `start` on, read from a clean start. */
  ghost predicate Collecting(s: string, start: nat, i: nat, r: Reader) {
    start <= i <= |s| && NoRedirectionBefore(s, start) && r.buf == s[start..i]
    && Run(s, start, Reader(r.tokens, "", CLEAN), i) == (i, r)
  }

  lemma CollectedIsClosed(s: string, start: nat, i: nat, r: Reader)
    requires Unmarked(s) && Collecting(s, start, i, r) && r.buf != "" && r.mode == CLEAN
    ensures Closed(r.buf)
  {
    var w := r.buf;
    assert StandsAt(s, start, w);
    hide Step, StandsAt, NoRedirectionBefore;
    RunBackward(s, start, w, 0, START, r.tokens, r);
    assert START == WithTokens(START, []);
  }

  /** A step either keeps the characters it reads, or ends the word and starts afresh. */
  lemma StepKeepsOrEnds(s: string, i: nat, r: Reader)
    requires i < |s| && NoContinuation(s)
    ensures var (j, n) := Step(s, i, r);
            || (j <= |s| ==> n.tokens == r.tokens && n.buf == r.buf + s[i..j])
            || (r.mode == CLEAN && n.mode == CLEAN && n.buf == "" && j <= |s| && NoRedirectionBefore(s, j)
                && exists ops :: n.tokens == Pending(r) + ops && |ops| <= 1 && AllRead(ops))
  {
    if r.mode == CLEAN && (s[i] in {';', '\n', '&'} || IsSpace(s[i])) {
      StepAtSeparator(s, i, r);
    } else {
      StepInWord(s, i, r);
    }
  }

  lemma StepInWord(s: string, i: nat, r: Reader)
    requires i < |s| && NoContinuation(s)
    requires r.mode == CLEAN ==> s[i] !in {';', '\n', '&'} && !IsSpace(s[i])
    ensures var (j, n) := Step(s, i, r); j <= |s| ==> n.tokens == r.tokens && n.buf == r.buf + s[i..j]
  {
    hide AnsiEnd, IsSpace;
    assert s[i..i + 1] == [s[i]];
  }

  lemma StepAtSeparator(s: string, i: nat, r: Reader)
    requires i < |s| && NoContinuation(s) && r.mode == CLEAN
    requires s[i] in {';', '\n', '&'} || IsSpace(s[i])
    ensures var (j, n) := Step(s, i, r);
            || (j <= |s| ==> n.tokens == r.tokens && n.buf == r.buf + s[i..j])
            || (n.mode == CLEAN && n.buf == "" && j <= |s| && NoRedirectionBefore(s, j)
                && exists ops :: n.tokens == Pending(r) + ops && |ops| <= 1 && AllRead(ops))
  {
    hide AnsiEnd;
    var (j, n) := Step(s, i, r);
    if n.tokens != r.tokens || n.buf == "" {
      var ops := n.tokens[|Pending(r)|..];
      assert n.tokens == Pending(r) + ops;
    }
  }

  lemma {:induction false} ReadsClosed(s: string, start: nat, i: nat, r: Reader)
    requires NoContinuation(s) && Collecting(s, start, i, r) && AllRead(r.tokens)
    requires Run(s, i, r, |s|).0 == |s| && Run(s, i, r, |s|).1.mode == CLEAN
    ensures AllRead(Flush(Run(s, i, r, |s|).1).tokens)
    decreases |s| - i
  {
    if r.buf != "" && r.mode == CLEAN {
      CollectedIsClosed(s, start, i, r);
    }
    if i < |s| {
      var (j, n) := Step(s, i, r);
      StepKeepsOrEnds(s, i, r);
      hide Step;
      if n.tokens == r.tokens && n.buf == r.buf + s[i..j] {
        KeepsCollecting(s, start, i, r);
        ReadsClosed(s, start, j, n);
      } else {
        assert s[j..j] == "";
        ReadsClosed(s, j, j, n);
      }
    }
  }

  lemma KeepsCollecting(s: string, start: nat, i: nat, r: Reader)
    requires Collecting(s, start, i, r) && i < |s|
    requires var (j, n) := Step(s, i, r); j <= |s| && n.tokens == r.tokens && n.buf == r.buf + s[i..j]
    ensures Collecting(s, start, Step(s, i, r).0, Step(s, i, r).1)
  {
    var (j, n) := Step(s, i, r);
    hide Step;
    RunCompose(s, start, Reader(r.tokens, "", CLEAN), i, j);
    assert Run(s, i, r, j) == Run(s, j, n, j);
    assert s[start..j] == s[start..i] + s[i..j];
  }

  /** Every token read from a script without open quotes is an operator, a newline or closed. */
  lemma TokensAreRead(script: string)
    requires NoContinuation(script)
    requires Run(script, 0, START, |script|).0 == |script| && Run(script, 0, START, |script|).1.mode == CLEAN
    ensures AllRead(Tokenize(script))
  {
    StripUnmarked(script);
    assert script[0..0] == "";
    hide Step;
    ReadsClosed(script, 0, 0, START);
  }

  /** The body of a compound command is a slice of the tokens that were read. Printed and read again it
      is the body in normal form, unless that ends in an escaped blank. */
  lemma BodyIsReadAgain(script: string, a: nat, b: nat)
    requires NoContinuation(script)
    requires Run(script, 0, START, |script|).0 == |script| && Run(script, 0, START, |script|).1.mode == CLEAN
    requires a <= b <= |Tokenize(script)|
    ensures var body := Tokenize(script)[a..b]; Tokenize(Print(body)) == Normal(body) <==> !EndsInBlank(Normal(body))
  {
    TokensAreRead(script);
    var ts := Tokenize(script);
    hide Tokenize, ReadToken, Print, Run, NormalFrom, EndsInBlank;
    forall k | 0 <= k < |ts[a..b]| ensures ReadToken(ts[a..b][k]) {
      assert ts[a..b][k] == ts[a + k];
    }
    RoundTrip(ts[a..b]);
  }
}

// What the reader makes of a script, said of its text: where quotes, backslashes and backticks protect
// characters, and that tokens end at unprotected blanks and operators and nowhere else.
module Quoting {
  import opened Scan
  import opened Tokens

  /** A piece of script text. */
  datatype Unit =
    | Char(c: char)
    | Pair(c: char)            // a backslash and the character it protects
    | Joined                   // a backslash before a newline: both are dropped
    | Single(body: string)     // '...'
    | Ansi(body: string)       // $'...'
    | Double(inner: seq<Unit>) // "..."
    | Ticks(inner: seq<Unit>)  // `...`
    | Blank(c: char)
    | Operator(text: string)

  function Raw(u: Unit): (s: string)
    ensures s != ""
    decreases u, 0
  {
    match u
    case Char(c) => [c]
    case Pair(c) => ['\\', c]
    case Joined => ['\\', '\n']
    case Single(body) => "'" + body + "'"
    case Ansi(body) => "$'" + body + "'"
    case Double(inner) => "\"" + RawAll(inner) + "\""
    case Ticks(inner) => "`" + RawAll(inner) + "`"
    case Blank(c) => [c]
    case Operator(text) => if text == "" then ";" else text
  }

  function RawAll(us: seq<Unit>): string
    decreases us, 1
  {
    if us == [] then "" else Raw(us[0]) + RawAll(us[1..])
  }

  /** What a piece adds to its word. */
  function Kept(u: Unit): string
    decreases u, 0
  {
    match u
    case Joined => ""
    case Double(inner) => "\"" + KeptAll(inner) + "\""
    case Ticks(inner) => "`" + KeptAll(inner) + "`"
    case _ => Raw(u)
  }

  function KeptAll(us: seq<Unit>): string
    decreases us, 1
  {
    if us == [] then "" else Kept(us[0]) + KeptAll(us[1..])
  }

  predicate IsBlank(c: char) {
    c in [' ', '\t', '\n', '\U{000B}', '\U{000C}', '\r', '\U{0085}', '\U{00A0}']
  }

  /** Up to an unprotected quote, with something behind each backslash. */
  predicate AnsiBody(s: string) {
    s == "" || (s[0] != '\'' && if s[0] == '\\' then |s| > 1 && AnsiBody(s[2..]) else AnsiBody(s[1..]))
  }

  predicate NoMark(s: string) { forall k :: 0 <= k < |s| ==> s[k] != '\U{0012}' }

  /** Whether a piece may stand inside double quotes (`d`) or backticks (`b`), or in neither. An `&` is part of
      a word where a `<` or `>` stands in front of it, and an operator elsewhere. */
  predicate Fits(u: Unit, d: bool, b: bool, prev: char)
    decreases u, 0
  {
    match u
    case Char(c) =>
      && c !in ['\\', '"', '`', '\U{0012}'] && (c == '\'' ==> d)
      && (d || b || (!IsBlank(c) && c != ';' && (c == '&' ==> prev == '<' || prev == '>')))
    case Pair(c) => c != '\n' && c != '\U{0012}'
    case Joined => true
    case Single(body) => !d && '\'' !in body && NoMark(body)
    case Ansi(body) => !d && AnsiBody(body) && NoMark(body)
    case Double(inner) => !d && FitAll(inner, true, b, '"')
    case Ticks(inner) => !b && FitAll(inner, d, true, '`')
    case Blank(c) => !d && !b && IsBlank(c) && c != '\n'
    case Operator(text) =>
      && !d && !b && text in [";", ";;", "\n", "&", "&&"] && (text[0] == '&' ==> prev != '<' && prev != '>')
  }

  /** Each piece fits; a `$` is not followed by a single quote, and an operator not by what it would be joined with. */
  predicate FitAll(us: seq<Unit>, d: bool, b: bool, prev: char)
    decreases us, 1
  {
    us == [] ||
    (Fits(us[0], d, b, prev) && (|us| > 1 ==> Apart(us[0], us[1], d)) && FitAll(us[1..], d, b, Raw(us[0])[|Raw(us[0])| - 1]))
  }

  predicate Apart(u: Unit, next: Unit, d: bool) {
    && (u == Char('$') && !d ==> !next.Single?)
    && (u == Operator(";") || u == Operator("&") ==> Raw(next)[0] != u.text[0])
  }

  function OneWord(buf: string): seq<string> { if buf == "" then [] else [buf] }

  /** The tokens, when `buf` has been collected so far. */
  function TokensOf(us: seq<Unit>, buf: string): seq<string> {
    if us == [] then OneWord(buf)
    else
      match us[0]
      case Blank(_) => OneWord(buf) + TokensOf(us[1..], "")
      case Operator(text) => OneWord(buf) + [text] + TokensOf(us[1..], "")
      case u => TokensOf(us[1..], buf + Kept(u))
  }

  // ----- the reader on pieces that belong to a word -----

  function Inside(d: bool, b: bool): Mode { Mode(false, d, b, false) }

  predicate Stands(s: string, p: nat, w: string) {
    p + |w| <= |s| && forall k :: p <= k < p + |w| ==> s[k] == w[k - p]
  }

  /** The reader comes from one place to the other, having kept `text`. */
  ghost predicate Reads(s: string, p: nat, acc: seq<string>, buf: string, mode: Mode, q: nat, text: string, mode': Mode) {
    q <= |s| && Run(s, p, Reader(acc, buf, mode), |s|) == Run(s, q, Reader(acc, buf + text, mode'), |s|)
  }

  lemma ReadsMore(
    s: string, p: nat, acc: seq<string>, buf: string, m0: Mode, q: nat, text: string, m1: Mode, r: nat, more: string, m2: Mode)
    requires Reads(s, p, acc, buf, m0, q, text, m1) && Reads(s, q, acc, buf + text, m1, r, more, m2)
    ensures Reads(s, p, acc, buf, m0, r, text + more, m2)
  {
    assert buf + text + more == buf + (text + more);
  }

  lemma OneStep(s: string, p: nat, acc: seq<string>, buf: string, mode: Mode, q: nat, text: string, mode': Mode)
    requires p < |s| && q <= |s| && Step(s, p, Reader(acc, buf, mode)) == (q, Reader(acc, buf + text, mode'))
    ensures Reads(s, p, acc, buf, mode, q, text, mode')
  {
  }

  lemma StandsBoth(s: string, p: nat, v: string, w: string)
    requires Stands(s, p, v + w)
    ensures Stands(s, p, v) && Stands(s, p + |v|, w)
  {
    assert forall k :: 0 <= k < |v| ==> (v + w)[k] == v[k];
    assert forall k :: 0 <= k < |w| ==> (v + w)[|v| + k] == w[k];
  }

  /** Between single quotes everything is kept, backslashes included. */
  lemma {:induction false} SingleBody(s: string, p: nat, body: string, b: bool, acc: seq<string>, buf: string)
    requires Stands(s, p, body) && '\'' !in body && NoMark(body)
    ensures Reads(s, p, acc, buf, Mode(true, false, b, false), p + |body|, body, Mode(true, false, b, false))
    decreases |body|
  {
    var m := Mode(true, false, b, false);
    if body == "" {
      assert buf + "" == buf;
    } else {
      assert body == [body[0]] + body[1..];
      StandsBoth(s, p, [body[0]], body[1..]);
      assert Step(s, p, Reader(acc, buf, m)) == (p + 1, Reader(acc, buf + [body[0]], m));
      hide Step;
      OneStep(s, p, acc, buf, m, p + 1, [body[0]], m);
      SingleBody(s, p + 1, body[1..], b, acc, buf + [body[0]]);
      ReadsMore(s, p, acc, buf, m, p + 1, [body[0]], m, p + |body|, body[1..], m);
    }
  }

  lemma {:induction false} AnsiEndIs(s: string, p: nat, body: string)
    requires Stands(s, p, body + "'") && AnsiBody(body)
    ensures AnsiEnd(s, p) == p + |body|
    decreases |body|
  {
    StandsBoth(s, p, body, "'");
    if body != "" {
      var n := if body[0] == '\\' then 2 else 1;
      assert body + "'" == body[..n] + (body[n..] + "'");
      StandsBoth(s, p, body[..n], body[n..] + "'");
      AnsiEndIs(s, p + n, body[n..]);
    }
  }

  lemma AnsiRead(s: string, p: nat, body: string, b: bool, acc: seq<string>, buf: string)
    requires Stands(s, p, "$'" + body + "'") && AnsiBody(body)
    ensures Reads(s, p, acc, buf, Inside(false, b), p + |body| + 3, "$'" + body + "'", Inside(false, b))
  {
    hide *;
    var w := "$'" + body + "'";
    AnsiOpened(s, p, body);
    AnsiEndIs(s, p + 2, body);
    StandsSlice(s, p, w);
    AnsiStep(s, p, p + |body| + 2, b, acc, buf);
    OneStep(s, p, acc, buf, Inside(false, b), p + |body| + 3, w, Inside(false, b));
  }

  lemma AnsiOpened(s: string, p: nat, body: string)
    requires Stands(s, p, "$'" + body + "'")
    ensures p + |body| + 3 <= |s| && s[p] == '$' && s[p + 1] == '\'' && Stands(s, p + 2, body + "'")
  {
    assert "$'" + body + "'" == "$'" + (body + "'");
    StandsBoth(s, p, "$'", body + "'");
  }

  lemma StandsSlice(s: string, p: nat, w: string)
    requires Stands(s, p, w)
    ensures s[p..p + |w|] == w
  {
  }

  lemma AnsiStep(s: string, p: nat, e: nat, b: bool, acc: seq<string>, buf: string)
    requires p + 1 < |s| && s[p] == '$' && s[p + 1] == '\'' && AnsiEnd(s, p + 2) == e < |s|
    ensures Step(s, p, Reader(acc, buf, Inside(false, b))) == (e + 1, Reader(acc, buf + s[p..e + 1], Inside(false, b)))
  {
    hide AnsiEnd;
  }

  lemma SingleRead(s: string, p: nat, body: string, b: bool, acc: seq<string>, buf: string)
    requires Stands(s, p, "'" + body + "'") && '\'' !in body && NoMark(body)
    ensures Reads(s, p, acc, buf, Inside(false, b), p + |body| + 2, "'" + body + "'", Inside(false, b))
  {
    var m, n := Inside(false, b), Mode(true, false, b, false);
    assert "'" + body + "'" == "'" + (body + "'");
    StandsBoth(s, p, "'", body + "'");
    StandsBoth(s, p + 1, body, "'");
    assert Step(s, p, Reader(acc, buf, m)) == (p + 1, Reader(acc, buf + "'", n));
    assert Step(s, p + 1 + |body|, Reader(acc, buf + "'" + body, n)) == (p + |body| + 2, Reader(acc, buf + "'" + body + "'", m));
    hide Step;
    OneStep(s, p, acc, buf, m, p + 1, "'", n);
    SingleBody(s, p + 1, body, b, acc, buf + "'");
    OneStep(s, p + 1 + |body|, acc, buf + "'" + body, n, p + |body| + 2, "'", m);
    ReadsMore(s, p, acc, buf, m, p + 1, "'", n, p + 1 + |body|, body, n);
    assert buf + ("'" + body) == buf + "'" + body;
    ReadsMore(s, p, acc, buf, m, p + 1 + |body|, "'" + body, n, p + |body| + 2, "'", m);
  }

  lemma PairRead(s: string, p: nat, c: char, d: bool, b: bool, acc: seq<string>, buf: string)
    requires Stands(s, p, ['\\', c]) && c != '\n' && c != '\U{0012}'
    ensures Reads(s, p, acc, buf, Inside(d, b), p + 2, ['\\', c], Inside(d, b))
  {
    var m, e := Inside(d, b), Mode(false, d, b, true);
    assert s[p] == '\\' && s[p + 1] == c;
    assert Step(s, p, Reader(acc, buf, m)) == (p + 1, Reader(acc, buf + ['\\'], e));
    assert Step(s, p + 1, Reader(acc, buf + ['\\'], e)) == (p + 2, Reader(acc, buf + ['\\'] + [c], m));
    hide Step;
    OneStep(s, p, acc, buf, m, p + 1, ['\\'], e);
    OneStep(s, p + 1, acc, buf + ['\\'], e, p + 2, [c], m);
    ReadsMore(s, p, acc, buf, m, p + 1, ['\\'], e, p + 2, [c], m);
    assert ['\\'] + [c] == ['\\', c];
  }

  lemma BlanksAreSpaces(c: char)
    ensures IsBlank(c) <==> IsSpace(c)
  {
  }

  /** The character in front of a position. */
  predicate Behind(s: string, p: nat, prev: char) { p <= |s| && if p == 0 then prev == ' ' else s[p - 1] == prev }

  lemma CharRead(s: string, p: nat, c: char, d: bool, b: bool, prev: char, acc: seq<string>, buf: string)
    requires p < |s| && s[p] == c && Behind(s, p, prev) && Fits(Char(c), d, b, prev)
    requires c == '$' && !d && p + 1 < |s| ==> s[p + 1] != '\''
    ensures Reads(s, p, acc, buf, Inside(d, b), p + 1, [c], Inside(d, b))
  {
    BlanksAreSpaces(c);
    OneStep(s, p, acc, buf, Inside(d, b), p + 1, [c], Inside(d, b));
  }

  lemma QuoteRead(s: string, p: nat, c: char, d: bool, b: bool, acc: seq<string>, buf: string)
    requires p < |s| && s[p] == c && (c == '"' || c == '`')
    ensures var to := if c == '"' then Inside(!d, b) else Inside(d, !b);
            Reads(s, p, acc, buf, Inside(d, b), p + 1, [c], to)
  {
    OneStep(s, p, acc, buf, Inside(d, b), p + 1, [c], if c == '"' then Inside(!d, b) else Inside(d, !b));
  }

  lemma JoinedRead(s: string, p: nat, d: bool, b: bool, acc: seq<string>, buf: string)
    requires Stands(s, p, ['\\', '\n'])
    ensures Reads(s, p, acc, buf, Inside(d, b), p + 2, "", Inside(d, b))
  {
    assert s[p] == '\\' && s[p + 1] == '\n' && buf + "" == buf;
    OneStep(s, p, acc, buf, Inside(d, b), p + 2, "", Inside(d, b));
  }

  predicate InWord(u: Unit) { !u.Blank? && !u.Operator? }

  /** A piece of a word is kept as it should be, and leaves the quoting around it as it was. */
  lemma {:induction false} UnitRead(s: string, p: nat, u: Unit, d: bool, b: bool, prev: char, acc: seq<string>, buf: string)
    requires Stands(s, p, Raw(u)) && Behind(s, p, prev) && Fits(u, d, b, prev) && InWord(u)
    requires u == Char('$') && !d && p + 1 < |s| ==> s[p + 1] != '\''
    ensures Reads(s, p, acc, buf, Inside(d, b), p + |Raw(u)|, Kept(u), Inside(d, b))
    decreases u, 0
  {
    hide Reads, Step;
    match u
    case Char(c) => CharRead(s, p, c, d, b, prev, acc, buf);
    case Pair(c) => PairRead(s, p, c, d, b, acc, buf);
    case Joined => JoinedRead(s, p, d, b, acc, buf);
    case Single(body) => SingleRead(s, p, body, b, acc, buf);
    case Ansi(body) => AnsiRead(s, p, body, b, acc, buf);
    case Double(inner) => QuotedRead(s, p, '"', inner, d, b, acc, buf);
    case Ticks(inner) => QuotedRead(s, p, '`', inner, d, b, acc, buf);
  }

  lemma {:induction false} QuotedRead(s: string, p: nat, c: char, inner: seq<Unit>, d: bool, b: bool, acc: seq<string>, buf: string)
    requires (c == '"' && !d) || (c == '`' && !b)
    requires Stands(s, p, [c] + RawAll(inner) + [c]) && FitAll(inner, d || c == '"', b || c == '`', c)
    ensures Reads(s, p, acc, buf, Inside(d, b), p + |RawAll(inner)| + 2, [c] + KeptAll(inner) + [c], Inside(d, b))
    decreases inner, 2
  {
    hide Reads, Step;
    var raw, text, d', b' := RawAll(inner), KeptAll(inner), d || c == '"', b || c == '`';
    assert [c] + raw + [c] == [c] + (raw + [c]);
    StandsBoth(s, p, [c], raw + [c]);
    StandsBoth(s, p + 1, raw, [c]);
    QuoteRead(s, p, c, d, b, acc, buf);
    InnerRead(s, p + 1, inner, d', b', c, acc, buf + [c]);
    ReadsMore(s, p, acc, buf, Inside(d, b), p + 1, [c], Inside(d', b'), p + 1 + |raw|, text, Inside(d', b'));
    QuoteRead(s, p + 1 + |raw|, c, d', b', acc, buf + ([c] + text));
    ReadsMore(s, p, acc, buf, Inside(d, b), p + 1 + |raw|, [c] + text, Inside(d', b'), p + |raw| + 2, [c], Inside(d, b));
  }

  /** The pieces inside quotes, up to the closing one. */
  lemma {:induction false} InnerRead(
    s: string, p: nat, us: seq<Unit>, d: bool, b: bool, prev: char, acc: seq<string>, buf: string)
    requires Stands(s, p, RawAll(us)) && Behind(s, p, prev) && FitAll(us, d, b, prev) && (d || b)
    requires p + |RawAll(us)| < |s| && s[p + |RawAll(us)|] != '\''
    ensures Reads(s, p, acc, buf, Inside(d, b), p + |RawAll(us)|, KeptAll(us), Inside(d, b))
    decreases us, 1
  {
    hide Step;
    if us == [] {
      assert buf + "" == buf;
    } else {
      hide Reads;
      var u, raw := us[0], Raw(us[0]);
      StandsBoth(s, p, raw, RawAll(us[1..]));
      FollowingChar(s, p, us, d, b, prev);
      UnitRead(s, p, u, d, b, prev, acc, buf);
      InnerRead(s, p + |raw|, us[1..], d, b, raw[|raw| - 1], acc, buf + Kept(u));
      ReadsMore(s, p, acc, buf, Inside(d, b), p + |raw|, Kept(u), Inside(d, b), p + |RawAll(us)|, KeptAll(us[1..]), Inside(d, b));
    }
  }

  lemma NoQuoteFirst(u: Unit, b: bool, prev: char)
    requires Fits(u, false, b, prev) && !u.Single?
    ensures Raw(u)[0] != '\''
  {
  }

  /** What stands behind a `$` is no single quote. */
  lemma FollowingChar(s: string, p: nat, us: seq<Unit>, d: bool, b: bool, prev: char)
    requires us != [] && Stands(s, p, RawAll(us)) && FitAll(us, d, b, prev)
    requires p + |RawAll(us)| < |s| ==> s[p + |RawAll(us)|] != '\''
    ensures us[0] == Char('$') && !d && p + 1 < |s| ==> s[p + 1] != '\''
  {
    if us[0] == Char('$') && !d {
      if |us| > 1 {
        var next := Raw(us[1]);
        assert RawAll(us) == ['$'] + (next + RawAll(us[1..][1..]));
        StandsBoth(s, p, ['$'], next + RawAll(us[1..][1..]));
        assert s[p + 1] == next[0];
        NoQuoteFirst(us[1], b, '$');
      } else {
        assert us[1..] == [] && RawAll(us) == "$" + "";
      }
    }
  }

  // ----- whole scripts -----

  lemma BlankRead(s: string, p: nat, c: char, acc: seq<string>, buf: string)
    requires p < |s| && s[p] == c && Fits(Blank(c), false, false, ' ')
    ensures Run(s, p, Reader(acc, buf, CLEAN), |s|) == Run(s, p + 1, Reader(acc + OneWord(buf), "", CLEAN), |s|)
  {
    BlanksAreSpaces(c);
    assert Step(s, p, Reader(acc, buf, CLEAN)) == (p + 1, Reader(acc + OneWord(buf), "", CLEAN)) by {
      assert acc + [] == acc;
    }
    hide Step;
  }

  lemma OperatorRead(s: string, p: nat, text: string, prev: char, acc: seq<string>, buf: string)
    requires Stands(s, p, text) && Behind(s, p, prev) && Fits(Operator(text), false, false, prev)
    requires (text == ";" || text == "&") && p + 1 < |s| ==> s[p + 1] != text[0]
    ensures Run(s, p, Reader(acc, buf, CLEAN), |s|) == Run(s, p + |text|, Reader(acc + OneWord(buf) + [text], "", CLEAN), |s|)
  {
    assert s[p] == text[0] && (|text| > 1 ==> s[p + 1] == text[1]);
    assert p > 0 && text[0] == '&' ==> s[p - 1] != '<' && s[p - 1] != '>';
    OperatorFits(text, prev);
    hide Step, Emit, Fits, Stands;
    Emitted(acc, buf, text);
    OperatorStep(s, p, text, Reader(acc, buf, CLEAN));
  }

  lemma OperatorFits(text: string, prev: char)
    requires Fits(Operator(text), false, false, prev)
    ensures text in [";", ";;", "\n", "&", "&&"]
  {
  }

  lemma Emitted(acc: seq<string>, buf: string, text: string)
    ensures Emit(Reader(acc, buf, CLEAN), text) == Reader(acc + OneWord(buf) + [text], "", CLEAN)
  {
    assert acc + [] == acc;
  }

  lemma OperatorStep(s: string, p: nat, text: string, r: Reader)
    requires text in [";", ";;", "\n", "&", "&&"] && p + |text| <= |s| && s[p] == text[0] && (|text| > 1 ==> s[p + 1] == text[1])
    requires p > 0 && text[0] == '&' ==> s[p - 1] != '<' && s[p - 1] != '>'
    requires (text == ";" || text == "&") && p + 1 < |s| ==> s[p + 1] != text[0]
    requires r.mode == CLEAN
    ensures Step(s, p, r) == (p + |text|, Emit(r, text))
  {
    hide AnsiEnd, Emit, IsSpace, Flush, Keep;
  }

  lemma BehindUnit(s: string, p: nat, u: Unit)
    requires Stands(s, p, Raw(u))
    ensures Behind(s, p + |Raw(u)|, Raw(u)[|Raw(u)| - 1])
  {
  }

  lemma OperatorApart(s: string, p: nat, us: seq<Unit>, prev: char)
    requires us != [] && us[0].Operator? && Stands(s, p, RawAll(us)) && FitAll(us, false, false, prev) && p + |RawAll(us)| == |s|
    ensures var t := us[0].text; (t == ";" || t == "&") && p + 1 < |s| ==> s[p + 1] != t[0]
  {
    var t := us[0].text;
    if t == ";" || t == "&" {
      if |us| > 1 {
        var next := Raw(us[1]);
        assert RawAll(us) == t + (next + RawAll(us[1..][1..]));
        StandsBoth(s, p, t, next + RawAll(us[1..][1..]));
        assert s[p + 1] == next[0];
      } else {
        assert us[1..] == [] && RawAll(us) == t + "";
      }
    }
  }

  lemma {:induction false} UnitsRead(s: string, p: nat, us: seq<Unit>, prev: char, acc: seq<string>, buf: string)
    requires Stands(s, p, RawAll(us)) && p + |RawAll(us)| == |s| && Behind(s, p, prev) && FitAll(us, false, false, prev)
    ensures Flush(Run(s, p, Reader(acc, buf, CLEAN), |s|).1).tokens == acc + TokensOf(us, buf)
    decreases us
  {
    hide *;
    if us == [] {
      NothingLeft(s, p, acc, buf);
    } else {
      var acc', buf' := FirstUnitRead(s, p, us, prev, acc, buf);
      UnitsRead(s, p + |Raw(us[0])|, us[1..], Raw(us[0])[|Raw(us[0])| - 1], acc', buf');
    }
  }

  lemma NothingLeft(s: string, p: nat, acc: seq<string>, buf: string)
    requires p + |RawAll([])| == |s|
    ensures Flush(Run(s, p, Reader(acc, buf, CLEAN), |s|).1).tokens == acc + TokensOf([], buf)
  {
    assert acc + [] == acc;
  }

  /** The first piece: what has been read by then, and what is still to be read. */
  lemma FirstUnitRead(s: string, p: nat, us: seq<Unit>, prev: char, acc: seq<string>, buf: string)
    returns (acc': seq<string>, buf': string)
    requires us != [] && Stands(s, p, RawAll(us)) && p + |RawAll(us)| == |s| && Behind(s, p, prev) && FitAll(us, false, false, prev)
    ensures var q, last := p + |Raw(us[0])|, Raw(us[0])[|Raw(us[0])| - 1];
            && Stands(s, q, RawAll(us[1..])) && q + |RawAll(us[1..])| == |s| && Behind(s, q, last)
            && FitAll(us[1..], false, false, last)
            && Run(s, p, Reader(acc, buf, CLEAN), |s|) == Run(s, q, Reader(acc', buf', CLEAN), |s|)
            && acc + TokensOf(us, buf) == acc' + TokensOf(us[1..], buf')
  {
    hide *;
    var u := us[0];
    FitsFirst(us, prev);
    StandsBoth(s, p, Raw(u), RawAll(us[1..]));
    BehindUnit(s, p, u);
    FirstTokens(us, buf);
    if u.Operator? {
      OperatorApart(s, p, us, prev);
    } else if !u.Blank? {
      FollowingChar(s, p, us, false, false, prev);
    }
    if u.Blank? {
      BlankUnitRead(s, p, u, prev, acc, buf);
      acc', buf' := acc + OneWord(buf), "";
      Regroup(acc, OneWord(buf), [], TokensOf(us[1..], ""));
    } else if u.Operator? {
      OperatorUnitRead(s, p, u, prev, acc, buf);
      acc', buf' := acc + OneWord(buf) + [u.text], "";
      Regroup(acc, OneWord(buf), [u.text], TokensOf(us[1..], ""));
    } else {
      WordUnitRead(s, p, u, prev, acc, buf);
      acc', buf' := acc, buf + Kept(u);
    }
  }

  lemma Regroup(a: seq<string>, b: seq<string>, c: seq<string>, d: seq<string>)
    ensures a + (b + c + d) == a + b + c + d
    ensures a + (b + d) == a + b + d
  {
  }

  lemma FitsFirst(us: seq<Unit>, prev: char)
    requires us != [] && FitAll(us, false, false, prev)
    ensures Fits(us[0], false, false, prev) && FitAll(us[1..], false, false, Raw(us[0])[|Raw(us[0])| - 1])
    ensures RawAll(us) == Raw(us[0]) + RawAll(us[1..])
  {
  }

  lemma WordUnitRead(s: string, p: nat, u: Unit, prev: char, acc: seq<string>, buf: string)
    requires !u.Blank? && !u.Operator? && Stands(s, p, Raw(u)) && Behind(s, p, prev) && Fits(u, false, false, prev)
    requires u == Char('$') && p + 1 < |s| ==> s[p + 1] != '\''
    ensures Run(s, p, Reader(acc, buf, CLEAN), |s|) == Run(s, p + |Raw(u)|, Reader(acc, buf + Kept(u), CLEAN), |s|)
  {
    hide Step, Reads;
    UnitRead(s, p, u, false, false, prev, acc, buf);
    KeptRead(s, p, acc, buf, p + |Raw(u)|, Kept(u));
  }

  lemma FirstTokens(us: seq<Unit>, buf: string)
    requires us != []
    ensures TokensOf(us, buf)
         == if us[0].Blank? then OneWord(buf) + TokensOf(us[1..], "")
            else if us[0].Operator? then OneWord(buf) + [us[0].text] + TokensOf(us[1..], "")
            else TokensOf(us[1..], buf + Kept(us[0]))
  {
  }

  lemma BlankUnitRead(s: string, p: nat, u: Unit, prev: char, acc: seq<string>, buf: string)
    requires u.Blank? && Stands(s, p, Raw(u)) && Fits(u, false, false, prev)
    ensures Run(s, p, Reader(acc, buf, CLEAN), |s|) == Run(s, p + |Raw(u)|, Reader(acc + OneWord(buf), "", CLEAN), |s|)
  {
    hide Run, Step;
    BlankRead(s, p, u.c, acc, buf);
  }

  lemma OperatorUnitRead(s: string, p: nat, u: Unit, prev: char, acc: seq<string>, buf: string)
    requires u.Operator? && Stands(s, p, Raw(u)) && Behind(s, p, prev) && Fits(u, false, false, prev)
    requires (u.text == ";" || u.text == "&") && p + 1 < |s| ==> s[p + 1] != u.text[0]
    ensures Run(s, p, Reader(acc, buf, CLEAN), |s|) == Run(s, p + |Raw(u)|, Reader(acc + OneWord(buf) + [u.text], "", CLEAN), |s|)
  {
    hide Run, Step;
    OperatorRead(s, p, u.text, prev, acc, buf);
  }

  lemma KeptRead(s: string, p: nat, acc: seq<string>, buf: string, q: nat, text: string)
    requires Reads(s, p, acc, buf, CLEAN, q, text, CLEAN)
    ensures Run(s, p, Reader(acc, buf, CLEAN), |s|) == Run(s, q, Reader(acc, buf + text, CLEAN), |s|)
  {
  }

  lemma {:induction false} NoMarks(us: seq<Unit>, d: bool, b: bool, prev: char)
    requires FitAll(us, d, b, prev)
    ensures NoMark(RawAll(us))
    decreases us, 1
  {
    if us != [] {
      NoMarkIn(us[0], d, b, prev);
      NoMarks(us[1..], d, b, Raw(us[0])[|Raw(us[0])| - 1]);
    }
  }

  lemma {:induction false} NoMarkIn(u: Unit, d: bool, b: bool, prev: char)
    requires Fits(u, d, b, prev)
    ensures NoMark(Raw(u))
    decreases u, 0
  {
    match u
    case Double(inner) => NoMarks(inner, true, b, '"');
    case Ticks(inner) => NoMarks(inner, d, true, '`');
    case _ =>
  }

  lemma {:induction false} NothingToStrip(s: string)
    requires NoMark(s)
    ensures Strip(s) == s
  {
    if s != "" { NothingToStrip(s[1..]); }
  }

  /** Every script made of such pieces is read as the tokens its unprotected blanks and operators separate. */
  lemma ReadsAsQuoted(us: seq<Unit>)
    requires FitAll(us, false, false, ' ')
    ensures Tokenize(RawAll(us)) == TokensOf(us, "")
  {
    var s := RawAll(us);
    NoMarks(us, false, false, ' ');
    NothingToStrip(s);
    assert [] + TokensOf(us, "") == TokensOf(us, "");
    hide Run, Step, FitAll;
    UnitsRead(s, 0, us, ' ', [], "");
  }

  /** The reader does not see the characters that mark continued lines. */
  lemma {:induction false} MarksAreNotRead(a: string, b: string)
    ensures Strip(a + "\U{0012}" + b) == Strip(a + b)
    ensures Tokenize(a + "\U{0012}" + b) == Tokenize(a + b)
  {
    if a == "" {
      assert a + "\U{0012}" + b == ['\U{0012}'] + b && a + b == b;
      assert (['\U{0012}'] + b)[1..] == b;
    } else {
      MarksAreNotRead(a[1..], b);
      assert (a + "\U{0012}" + b)[1..] == a[1..] + "\U{0012}" + b && (a + b)[1..] == a[1..] + b;
    }
  }

  lemma OneUnit(u: Unit)
    requires InWord(u) && Fits(u, false, false, ' ')
    ensures FitAll([u], false, false, ' ') && RawAll([u]) == Raw(u) && TokensOf([u], "") == OneWord(Kept(u))
  {
    assert [u][1..] == [] && Raw(u) + "" == Raw(u) && "" + Kept(u) == Kept(u);
  }

  function Chars(q: string): (us: seq<Unit>)
    ensures |us| == |q| && forall k :: 0 <= k < |q| ==> us[k] == Char(q[k])
  {
    seq(|q|, k requires 0 <= k < |q| => Char(q[k]))
  }

  lemma {:induction false} CharsAreText(q: string, d: bool, b: bool, prev: char)
    requires (d || b) && NoMark(q) && '"' !in q && '\\' !in q && '`' !in q && (!d ==> '\'' !in q)
    ensures RawAll(Chars(q)) == q && KeptAll(Chars(q)) == q && FitAll(Chars(q), d, b, prev)
    decreases |q|
  {
    if q != "" {
      assert Chars(q)[1..] == Chars(q[1..]) && q == [q[0]] + q[1..] && q[0] in q;
      assert Raw(Char(q[0])) == [q[0]] && Fits(Char(q[0]), d, b, prev);
      assert |q| > 1 ==> Apart(Chars(q)[0], Chars(q)[1], d);
      CharsAreText(q[1..], d, b, q[0]);
    }
  }

  /** Quoted text is one token, whatever blanks and operators it holds. */
  lemma QuotedTextIsOneToken(q: string)
    requires NoMark(q) && '\\' !in q
    ensures '\'' !in q ==> Tokenize("'" + q + "'") == ["'" + q + "'"]
    ensures '"' !in q && '`' !in q ==> Tokenize("\"" + q + "\"") == ["\"" + q + "\""]
    ensures '"' !in q && '`' !in q && '\'' !in q ==> Tokenize("`" + q + "`") == ["`" + q + "`"]
  {
    hide Tokenize;
    if '\'' !in q {
      OneUnit(Single(q));
      ReadsAsQuoted([Single(q)]);
    }
    if '"' !in q && '`' !in q {
      CharsAreText(q, true, false, '"');
      OneUnit(Double(Chars(q)));
      ReadsAsQuoted([Double(Chars(q))]);
      if '\'' !in q {
        CharsAreText(q, false, true, '`');
        OneUnit(Ticks(Chars(q)));
        ReadsAsQuoted([Ticks(Chars(q))]);
      }
    }
  }
}

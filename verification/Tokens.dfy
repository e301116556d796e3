// The shell's reader cuts a script into tokens; its printer turns a list of tokens back into a
// script. Every loop, `if` and `case` body goes through both.
module Tokens {
  import opened Scan

  const LINE_CONTINUATION: char := '\U{0012}'

  /** Whether the reader is inside quotes or behind a backslash. */
  datatype Mode = Mode(single: bool, double: bool, backtick: bool, escape: bool)

  const CLEAN := Mode(false, false, false, false)

  /** The reader's state: the tokens read so far and the word being collected. */
  datatype Reader = Reader(tokens: seq<string>, buf: string, mode: Mode)

  const START := Reader([], "", CLEAN)

  function Flush(r: Reader): Reader {
    if r.buf == "" then r else r.(tokens := r.tokens + [r.buf], buf := "")
  }

  function Emit(r: Reader, token: string): Reader {
    var f := Flush(r);
    f.(tokens := f.tokens + [token])
  }

  function Keep(r: Reader, text: string): Reader {
    r.(buf := r.buf + text)
  }

  predicate Bare(m: Mode) { !m.single && !m.double && !m.backtick }

  function Next(s: string, i: nat): string { if i + 1 < |s| then [s[i + 1]] else "" }

  /** The closing quote of `$'...'` from position `j` on, or the end of the text. */
  function AnsiEnd(s: string, j: nat): (e: nat)
    requires j <= |s|
    ensures j <= e <= |s|
    ensures e < |s| ==> s[e] == '\''
    decreases |s| - j
  {
    if j == |s| then j
    else if s[j] == '\\' && j + 1 < |s| then AnsiEnd(s, j + 2)
    else if s[j] == '\'' then j
    else AnsiEnd(s, j + 1)
  }

  predicate StartsAnsi(s: string, i: nat, m: Mode)
    requires i < |s|
  {
    s[i] == '$' && Next(s, i) == "'" && !m.single && !m.double
  }

  /** What the reader does with the character at `i`, and where it goes on. */
  function Step(s: string, i: nat, r: Reader): (n: (nat, Reader))
    requires i < |s|
    ensures i < n.0
  {
    var c := s[i];
    var m := r.mode;
    if c == LINE_CONTINUATION then (i + 1, r)
    else if m.escape then (i + 1, Keep(r, [c]).(mode := m.(escape := false)))
    else if c == '\\' then
      if !m.single && Next(s, i) == "\n" then (i + 2, r)
      else (i + 1, Keep(r, [c]).(mode := m.(escape := !m.single)))
    else if StartsAnsi(s, i, m) then
      var e := AnsiEnd(s, i + 2);
      (e + 1, Keep(r, s[i..if e < |s| then e + 1 else e]))
    else if c == '\'' && !m.double then (i + 1, Keep(r, [c]).(mode := m.(single := !m.single)))
    else if c == '"' && !m.single then (i + 1, Keep(r, [c]).(mode := m.(double := !m.double)))
    else if c == '`' && !m.single then (i + 1, Keep(r, [c]).(mode := m.(backtick := !m.backtick)))
    else if !Bare(m) then (i + 1, Keep(r, [c]))
    else if c == ';' && Next(s, i) == ";" then (i + 2, Emit(r, ";;"))
    else if c == ';' || c == '\n' then (i + 1, Emit(r, [c]))
    else if c == '&' then
      if i > 0 && (s[i - 1] == '>' || s[i - 1] == '<') then (i + 1, Keep(r, [c]))
      else if Next(s, i) == "&" then (i + 2, Emit(r, "&&"))
      else (i + 1, Emit(r, "&"))
    else if IsSpace(c) then (i + 1, Flush(r))
    else (i + 1, Keep(r, [c]))
  }

  /** Reads from `i` until position `e` is reached or passed. */
  function Run(s: string, i: nat, r: Reader, e: nat): (nat, Reader)
    requires e <= |s|
    decreases e - i
  {
    if i >= e then (i, r)
    else
      var (j, next) := Step(s, i, r);
      Run(s, j, next, e)
  }

  function Strip(s: string): string {
    if s == "" then ""
    else (if s[0] == LINE_CONTINUATION then "" else [s[0]]) + Strip(s[1..])
  }

  function Tokenize(script: string): seq<string> {
    var s := Strip(script);
    Flush(Run(s, 0, START, |s|).1).tokens
  }

  /** The reader's loop over the bytes of the script. */
  method TokenizeScript(script: string) returns (tokens: seq<string>)
    ensures tokens == Tokenize(script)
  {
    var s := Strip(script);
    var r := START;
    var i := 0;
    while i < |s|
      invariant Run(s, 0, START, |s|) == Run(s, i, r, |s|)
      decreases |s| - i
    {
      var (j, next) := Step(s, i, r);
      i, r := j, next;
    }
    r := Flush(r);
    tokens := r.tokens;
  }

  // ----- the printer -----

  predicate IsSeparator(t: string) { t == ";" || t == "\n" }

  /** What one token adds to the script; `started` says that something was printed before it,
      `lastSep` that the last thing printed was a separator. */
  function Piece(t: string, started: bool, lastSep: bool): string {
    if IsSeparator(t) then (if lastSep then "" else ";")
    else if t == ";;" then (if started && !lastSep then " ;;" else ";;")
    else if started then " " + t else t
  }

  predicate SeparatorAfter(t: string) { IsSeparator(t) || t == ";;" }

  function PrintFrom(ts: seq<string>, started: bool, lastSep: bool): string {
    if ts == [] then ""
    else
      var p := Piece(ts[0], started, lastSep);
      p + PrintFrom(ts[1..], started || p != "", SeparatorAfter(ts[0]))
  }

  function Print(ts: seq<string>): string {
    TrimSpace(PrintFrom(ts, false, false))
  }

  /** The printer's loop over the tokens. */
  method TokensToScript(tokens: seq<string>) returns (script: string)
    ensures script == Print(tokens)
  {
    var buf := "";
    var lastSep := false;
    for k := 0 to |tokens|
      invariant buf + PrintFrom(tokens[k..], buf != "", lastSep) == PrintFrom(tokens, false, false)
    {
      var tok := tokens[k];
      ghost var was, wasSep := buf, lastSep;
      if IsSeparator(tok) {
        if !lastSep {
          buf := buf + ";";
          lastSep := true;
        }
      } else if tok == ";;" {
        if buf != "" && !lastSep {
          buf := buf + " ";
        }
        buf := buf + ";;";
        lastSep := true;
      } else {
        if buf != "" {
          buf := buf + " ";
        }
        buf := buf + tok;
        lastSep := false;
      }
      PieceAdded(tokens[k..], was, buf, wasSep, lastSep);
      assert tokens[k..][1..] == tokens[k + 1..];
    }
    assert buf + "" == buf;
    script := TrimSpace(buf);
  }

  lemma PieceAdded(ts: seq<string>, was: string, buf: string, wasSep: bool, lastSep: bool)
    requires ts != [] && lastSep == SeparatorAfter(ts[0])
    requires buf == was + Piece(ts[0], was != "", wasSep)
    ensures was + PrintFrom(ts, was != "", wasSep) == buf + PrintFrom(ts[1..], buf != "", lastSep)
  {
    hide Piece;
    var p := Piece(ts[0], was != "", wasSep);
    var more := PrintFrom(ts[1..], buf != "", lastSep);
    assert buf != "" <==> was != "" || p != "";
    assert was + (p + more) == (was + p) + more;
  }
}

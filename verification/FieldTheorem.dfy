// Field splitting as section 2.6.5 of the POSIX Shell Command Language describes it, on characters
// that know whether they were written literally, and the proof that the splitter on marked text
// computes exactly that.
module FieldTheorem {
  import opened FieldSplitting

  datatype Cell = Cell(c: char, literal: bool)

  predicate Delimits(x: Cell, ifs: string) { !x.literal && x.c in ifs }

  /** IFS white space: a space, a tab or a newline that is in IFS. */
  predicate Blank(x: Cell, ifs: string) { Delimits(x, ifs) && IsWhite(x.c) }

  predicate IsWhite(c: char) { c == ' ' || c == '\t' || c == '\n' }

  // ----- the rule -----

  function BlankRun(cells: seq<Cell>, ifs: string): (n: nat)
    ensures n <= |cells|
    ensures forall k :: 0 <= k < n ==> Blank(cells[k], ifs)
  {
    if cells == [] || !Blank(cells[0], ifs) then 0 else 1 + BlankRun(cells[1..], ifs)
  }

  function DropBlanks(cells: seq<Cell>, ifs: string): seq<Cell> { cells[BlankRun(cells, ifs)..] }

  /** The length of one delimiter: IFS blanks around at most one IFS character that is not a blank. */
  function DelimiterLength(cells: seq<Cell>, ifs: string): (n: nat)
    requires cells != [] && Delimits(cells[0], ifs)
    ensures 0 < n <= |cells|
    ensures forall k :: 0 <= k < n ==> Delimits(cells[k], ifs)
  {
    var b := BlankRun(cells, ifs);
    if b < |cells| && Delimits(cells[b], ifs) then
      var more := BlankRun(cells[b + 1..], ifs);
      assert forall k :: b < k < b + 1 + more ==> cells[k] == cells[b + 1..][k - b - 1];
      b + 1 + more
    else b
  }

  function DropDelimiter(cells: seq<Cell>, ifs: string): (rest: seq<Cell>)
    requires cells != [] && Delimits(cells[0], ifs)
    ensures |rest| < |cells|
  {
    cells[DelimiterLength(cells, ifs)..]
  }

  /** The length of the longest prefix without a delimiter. */
  function WordLength(cells: seq<Cell>, ifs: string): (n: nat)
    ensures n <= |cells|
    ensures forall k :: 0 <= k < n ==> !Delimits(cells[k], ifs)
    ensures n < |cells| ==> Delimits(cells[n], ifs)
  {
    if cells == [] || Delimits(cells[0], ifs) then 0 else 1 + WordLength(cells[1..], ifs)
  }

  function Chars(cells: seq<Cell>): (s: string)
    ensures |s| == |cells|
  {
    if cells == [] then "" else [cells[0].c] + Chars(cells[1..])
  }

  /** A field is a longest run without delimiters; nothing follows a final delimiter. */
  function Fields(cells: seq<Cell>, ifs: string): seq<string>
    decreases |cells|
  {
    if cells == [] then []
    else
      var n := WordLength(cells, ifs);
      [Chars(cells[..n])] +
      (if n == |cells| then [] else Fields(DropDelimiter(cells[n..], ifs), ifs))
  }

  /** Section 2.6.5: blanks at the front delimit nothing. */
  function PosixFields(cells: seq<Cell>, ifs: string): seq<string> {
    Fields(DropBlanks(cells, ifs), ifs)
  }

  // ----- marked text -----

  function AppendLiteral(buf: string, c: char, ifs: string): string {
    if c in ifs then buf + [MARKER, c] else buf + [c]
  }

  function Encode(cells: seq<Cell>, ifs: string): string {
    if cells == [] then ""
    else (if cells[0].literal then AppendLiteral("", cells[0].c, ifs) else [cells[0].c]) + Encode(cells[1..], ifs)
  }

  predicate NoMarker(cells: seq<Cell>, ifs: string) {
    MARKER !in ifs && forall k :: 0 <= k < |cells| ==> cells[k].c != MARKER
  }

  lemma {:induction false} BlanksSkipped(cells: seq<Cell>, ifs: string)
    requires NoMarker(cells, ifs)
    ensures SkipBlanks(Encode(cells, ifs), ifs) == Encode(DropBlanks(cells, ifs), ifs)
  {
    if cells != [] && Blank(cells[0], ifs) {
      assert Encode(cells, ifs)[1..] == Encode(cells[1..], ifs);
      BlanksSkipped(cells[1..], ifs);
      assert cells[1..][BlankRun(cells[1..], ifs)..] == cells[BlankRun(cells, ifs)..];
    } else {
      assert cells[0..] == cells;
    }
  }

  /** How the first character of marked text shows what the first cell is. */
  lemma FirstShows(cells: seq<Cell>, ifs: string)
    requires NoMarker(cells, ifs)
    ensures var s := Encode(cells, ifs);
            && (s == "" <==> cells == [])
            && (cells != [] ==> (Delimits(cells[0], ifs) <==> s[0] != MARKER && s[0] in ifs))
            && (cells != [] && Delimits(cells[0], ifs) ==>
                  s[0] == cells[0].c && s[1..] == Encode(cells[1..], ifs))
  {
  }

  lemma DelimiterSkipped(cells: seq<Cell>, ifs: string)
    requires NoMarker(cells, ifs) && cells != [] && Delimits(cells[0], ifs)
    ensures var s := Encode(cells, ifs);
            s != "" && s[0] == cells[0].c && SkipDelimiter(s, ifs) == Encode(DropDelimiter(cells, ifs), ifs)
  {
    hide Encode, SkipBlanks, BlankRun;
    FirstShows(cells, ifs);
    BlanksSkipped(cells, ifs);
    FirstKept(cells, ifs);
    var b := BlankRun(cells, ifs);
    var rest := DropBlanks(cells, ifs);
    FirstShows(rest, ifs);
    if rest != [] && Delimits(rest[0], ifs) {
      BlanksSkipped(rest[1..], ifs);
      assert rest[1..] == cells[b + 1..];
      var more := BlankRun(rest[1..], ifs);
      assert rest[1..][more..] == cells[b + 1 + more..];
    }
  }

  function Tail(cells: seq<Cell>, ifs: string): seq<string> {
    if cells != [] && Delimits(cells[|cells| - 1], ifs) then [""] else []
  }

  function AfterWord(cells: seq<Cell>, ifs: string): seq<string> {
    var n := WordLength(cells, ifs);
    if n == |cells| then [] else Fields(DropDelimiter(cells[n..], ifs), ifs)
  }

  lemma FirstField(cells: seq<Cell>, ifs: string)
    requires cells != []
    ensures Fields(cells, ifs) == [Chars(cells[..WordLength(cells, ifs)])] + AfterWord(cells, ifs)
  {
  }

  lemma WordGrows(cells: seq<Cell>, ifs: string)
    requires cells != [] && !Delimits(cells[0], ifs)
    ensures Chars(cells[..WordLength(cells, ifs)]) == [cells[0].c] + Chars(cells[1..][..WordLength(cells[1..], ifs)])
    ensures AfterWord(cells, ifs) == AfterWord(cells[1..], ifs)
    ensures cells[1..] != [] ==> Tail(cells, ifs) == Tail(cells[1..], ifs)
  {
    var n := WordLength(cells, ifs);
    assert cells[..n][1..] == cells[1..][..n - 1];
    assert cells[n..] == cells[1..][n - 1..];
  }

  lemma OneCellRead(cells: seq<Cell>, ifs: string, buf: string, fields: seq<string>)
    requires NoMarker(cells, ifs) && cells != [] && !Delimits(cells[0], ifs)
    ensures Collect(Encode(cells, ifs), ifs, buf, fields)
         == Collect(Encode(cells[1..], ifs), ifs, buf + [cells[0].c], fields)
  {
    var s := Encode(cells, ifs);
    if cells[0].literal && cells[0].c in ifs {
      assert s[0] == MARKER && s[1] == cells[0].c && s[2..] == Encode(cells[1..], ifs);
    } else {
      assert s[0] == cells[0].c && s[1..] == Encode(cells[1..], ifs);
    }
  }

  /** What the splitter still produces is the rule's fields, and one empty field after a final delimiter. */
  lemma {:induction false} CollectsFields(cells: seq<Cell>, ifs: string, buf: string, fields: seq<string>)
    requires NoMarker(cells, ifs) && cells != []
    ensures Collect(Encode(cells, ifs), ifs, buf, fields)
         == fields + [buf + Chars(cells[..WordLength(cells, ifs)])] + AfterWord(cells, ifs) + Tail(cells, ifs)
    decreases |cells|
  {
    hide Encode, Fields, Collect, Chars, WordLength, AfterWord, Tail, DelimiterLength, SkipDelimiter;
    if Delimits(cells[0], ifs) {
      DelimiterStep(cells, ifs, buf, fields);
      var rest := DropDelimiter(cells, ifs);
      if rest != [] {
        CollectsFields(rest, ifs, "", fields + [buf]);
        FirstField(rest, ifs);
        var word := Chars(rest[..WordLength(rest, ifs)]);
        assert "" + word == word;
        Regroup(fields, buf, word, AfterWord(rest, ifs), Tail(rest, ifs));
      }
    } else {
      OneCellRead(cells, ifs, buf, fields);
      WordGrows(cells, ifs);
      var c, word := cells[0].c, Chars(cells[1..][..WordLength(cells[1..], ifs)]);
      assert buf + ([c] + word) == buf + [c] + word;
      if cells[1..] != [] {
        CollectsFields(cells[1..], ifs, buf + [c], fields);
      } else {
        LastCellStep(cells, ifs, buf + [c], fields);
      }
    }
  }

  lemma Regroup(fields: seq<string>, buf: string, word: string, more: seq<string>, tail: seq<string>)
    ensures fields + [buf] + [word] + more + tail == fields + [buf] + ([word] + more) + tail
  {
  }

  lemma LastCellStep(cells: seq<Cell>, ifs: string, buf: string, fields: seq<string>)
    requires |cells| == 1 && !Delimits(cells[0], ifs) && buf != ""
    ensures Collect(Encode(cells[1..], ifs), ifs, buf, fields) == fields + [buf]
    ensures AfterWord(cells, ifs) == [] && Tail(cells, ifs) == []
    ensures Chars(cells[..WordLength(cells, ifs)]) == [cells[0].c]
  {
    assert cells[1..] == [];
    assert WordLength(cells, ifs) == 1;
    assert cells[..1] == cells;
  }

  lemma DelimiterStep(cells: seq<Cell>, ifs: string, buf: string, fields: seq<string>)
    requires NoMarker(cells, ifs) && cells != [] && Delimits(cells[0], ifs)
    ensures var rest := DropDelimiter(cells, ifs);
            && buf + Chars(cells[..WordLength(cells, ifs)]) == buf
            && AfterWord(cells, ifs) == Fields(rest, ifs)
            && Collect(Encode(cells, ifs), ifs, buf, fields) == Collect(Encode(rest, ifs), ifs, "", fields + [buf])
            && (if rest == [] then
                  && Fields(rest, ifs) == [] && Tail(cells, ifs) == [""]
                  && Collect(Encode(rest, ifs), ifs, "", fields + [buf]) == fields + [buf] + [""]
                else Tail(rest, ifs) == Tail(cells, ifs))
  {
    hide DelimiterLength, SkipDelimiter;
    DelimiterSkipped(cells, ifs);
    assert cells[0..] == cells;
  }

  lemma {:induction false} LastCharOf(cells: seq<Cell>, ifs: string)
    requires NoMarker(cells, ifs) && cells != []
    ensures var s := Encode(cells, ifs); s != "" && s[|s| - 1] == cells[|cells| - 1].c
  {
    if |cells| > 1 { LastCharOf(cells[1..], ifs); }
  }

  /** Without a final delimiter the last field is not empty. */
  lemma {:induction false} LastFieldFull(cells: seq<Cell>, ifs: string)
    requires cells != [] && !Delimits(cells[|cells| - 1], ifs)
    ensures var fs := Fields(cells, ifs); |fs| > 0 && fs[|fs| - 1] != ""
    decreases |cells|
  {
    hide Chars, Fields, BlankRun;
    FirstField(cells, ifs);
    var n := WordLength(cells, ifs);
    if n < |cells| {
      var rest := DropDelimiter(cells[n..], ifs);
      if rest != [] {
        LastFieldFull(rest, ifs);
      }
    } else {
      assert AfterWord(cells, ifs) == [];
    }
  }

  /** On text whose literal IFS characters are marked, the splitter follows section 2.6.5. */
  lemma SplitsAsPosix(cells: seq<Cell>, ifs: string)
    requires NoMarker(cells, ifs) && ifs != ""
    ensures SplitOnIFS(Encode(cells, ifs), ifs) == PosixFields(cells, ifs)
  {
    hide Encode, Fields, Chars, WordLength, AfterWord, SkipBlanks, BlankRun, Collect, SplitOnIFS;
    var s, rest := Encode(cells, ifs), DropBlanks(cells, ifs);
    BlanksSkipped(cells, ifs);
    if rest == [] {
      FirstShows(rest, ifs);
      NoFields(s, ifs);
    } else {
      CollectsFields(rest, ifs, "", []);
      FirstField(rest, ifs);
      var word := Chars(rest[..WordLength(rest, ifs)]);
      assert "" + word == word;
      assert WordFields(s, ifs) == Fields(rest, ifs) + Tail(rest, ifs);
      LastCharOf(cells, ifs);
      assert rest[|rest| - 1] == cells[|cells| - 1];
      if !Delimits(cells[|cells| - 1], ifs) {
        LastFieldFull(rest, ifs);
      }
      FinalDelimiter(s, ifs, Fields(rest, ifs), Tail(rest, ifs));
    }
  }

  lemma NoFields(s: string, ifs: string)
    requires SkipBlanks(s, ifs) == "" && ifs != ""
    ensures Fields([], ifs) == [] && SplitOnIFS(s, ifs) == []
  {
  }

  /** The empty field after a final delimiter is dropped, and no other. */
  lemma FinalDelimiter(s: string, ifs: string, fields: seq<string>, tail: seq<string>)
    requires s != "" && ifs != "" && s[|s| - 1] != MARKER && WordFields(s, ifs) == fields + tail
    requires if tail == [] then |fields| > 0 && fields[|fields| - 1] != "" else tail == [""] && s[|s| - 1] in ifs
    ensures SplitOnIFS(s, ifs) == fields
  {
    hide WordFields;
    if tail == [] {
      assert fields + tail == fields;
    } else {
      assert (fields + tail)[..|fields|] == fields;
    }
  }

  // ----- consequences -----

  function Plain(text: string): (cells: seq<Cell>)
    ensures |cells| == |text| && forall k :: 0 <= k < |text| ==> cells[k] == Cell(text[k], false)
  {
    seq(|text|, k requires 0 <= k < |text| => Cell(text[k], false))
  }

  lemma {:induction false} PlainEncodes(cells: seq<Cell>, text: string, ifs: string)
    requires |cells| == |text| && forall k :: 0 <= k < |text| ==> cells[k] == Cell(text[k], false)
    ensures Encode(cells, ifs) == text
  {
    if text != "" {
      PlainEncodes(cells[1..], text[1..], ifs);
      assert text == [text[0]] + text[1..];
    }
  }

  lemma UnmarkedTextSplitsAsPosix(text: string, ifs: string)
    requires MARKER !in text && MARKER !in ifs && ifs != ""
    ensures SplitOnIFS(text, ifs) == PosixFields(Plain(text), ifs)
  {
    PlainEncodes(Plain(text), text, ifs);
    SplitsAsPosix(Plain(text), ifs);
  }

  function Joined(fields: seq<string>): string {
    if fields == [] then "" else fields[0] + Joined(fields[1..])
  }

  /** The characters that are not delimiters. */
  function Kept(cells: seq<Cell>, ifs: string): string {
    if cells == [] then ""
    else (if Delimits(cells[0], ifs) then "" else [cells[0].c]) + Kept(cells[1..], ifs)
  }

  lemma {:induction false} KeptFromDelimiters(cells: seq<Cell>, ifs: string, n: nat)
    requires n <= |cells| && forall k :: 0 <= k < n ==> Delimits(cells[k], ifs)
    ensures Kept(cells, ifs) == Kept(cells[n..], ifs)
  {
    if n > 0 {
      KeptFromDelimiters(cells[1..], ifs, n - 1);
      assert cells[1..][n - 1..] == cells[n..];
    } else {
      assert cells[0..] == cells;
    }
  }

  lemma {:induction false} KeptFromWord(cells: seq<Cell>, ifs: string)
    ensures Kept(cells, ifs)
         == Chars(cells[..WordLength(cells, ifs)]) + Kept(cells[WordLength(cells, ifs)..], ifs)
  {
    var n := WordLength(cells, ifs);
    if n > 0 {
      KeptFromWord(cells[1..], ifs);
      assert cells[..n][1..] == cells[1..][..n - 1];
      assert cells[n..] == cells[1..][n - 1..];
    } else {
      assert cells[0..] == cells;
    }
  }

  lemma {:induction false} FieldsJoin(cells: seq<Cell>, ifs: string)
    ensures Joined(Fields(cells, ifs)) == Kept(cells, ifs)
    decreases |cells|
  {
    if cells != [] {
      FirstField(cells, ifs);
      KeptFromWord(cells, ifs);
      var n := WordLength(cells, ifs);
      if n < |cells| {
        var rest := DropDelimiter(cells[n..], ifs);
        FieldsJoin(rest, ifs);
        KeptFromDelimiters(cells[n..], ifs, DelimiterLength(cells[n..], ifs));
      }
    }
  }

  /** Nothing is lost or reordered: the fields together are the text without its delimiters. */
  lemma FieldsKeepTheText(cells: seq<Cell>, ifs: string)
    requires NoMarker(cells, ifs) && ifs != ""
    ensures Joined(SplitOnIFS(Encode(cells, ifs), ifs)) == Kept(cells, ifs)
  {
    SplitsAsPosix(cells, ifs);
    var rest := DropBlanks(cells, ifs);
    FieldsJoin(rest, ifs);
    KeptFromDelimiters(cells, ifs, BlankRun(cells, ifs));
  }

  /** Text that is literal throughout comes back as one field, whatever it holds. */
  lemma LiteralTextIsOneField(cells: seq<Cell>, ifs: string)
    requires NoMarker(cells, ifs) && ifs != "" && cells != []
    requires forall k :: 0 <= k < |cells| ==> cells[k].literal
    ensures SplitOnIFS(Encode(cells, ifs), ifs) == [Chars(cells)]
  {
    SplitsAsPosix(cells, ifs);
    var n := WordLength(cells, ifs);
    assert n == |cells|;
    assert cells[..n] == cells;
  }

  /** With only blanks in IFS no field is empty. */
  lemma {:induction false} BlanksGiveNoEmptyField(cells: seq<Cell>, ifs: string)
    requires forall c :: c in ifs ==> IsWhite(c)
    requires cells == [] || !Delimits(cells[0], ifs)
    ensures "" !in Fields(cells, ifs)
    decreases |cells|
  {
    if cells != [] {
      var n := WordLength(cells, ifs);
      if n < |cells| {
        NoBlankLeft(cells[n..], ifs);
        BlanksGiveNoEmptyField(DropDelimiter(cells[n..], ifs), ifs);
      }
    }
  }

  lemma {:induction false} FirstKept(cells: seq<Cell>, ifs: string)
    ensures var rest := DropBlanks(cells, ifs); rest == [] || !Blank(rest[0], ifs)
  {
    if cells != [] && Blank(cells[0], ifs) { FirstKept(cells[1..], ifs); }
  }

  lemma NoBlankLeft(cells: seq<Cell>, ifs: string)
    requires cells != [] && Delimits(cells[0], ifs)
    requires forall c :: c in ifs ==> IsWhite(c)
    ensures var rest := DropDelimiter(cells, ifs); rest == [] || !Delimits(rest[0], ifs)
  {
    FirstKept(cells, ifs);
  }

  lemma BlankIFSGivesNoEmptyField(cells: seq<Cell>, ifs: string)
    requires NoMarker(cells, ifs) && ifs != "" && forall c :: c in ifs ==> IsWhite(c)
    ensures "" !in SplitOnIFS(Encode(cells, ifs), ifs)
  {
    SplitsAsPosix(cells, ifs);
    FirstKept(cells, ifs);
    BlanksGiveNoEmptyField(DropBlanks(cells, ifs), ifs);
  }

  // ----- the usual IFS -----

  const USUAL := " \t\n"

  /** A stretch of the text, from `start` up to `end`. */
  datatype Span = Span(start: nat, end: nat)

  predicate DarkAt(text: string, i: nat) { i < |text| && text[i] != ' ' && text[i] != '\t' && text[i] != '\n' }

  /** A longest stretch without white space. */
  predicate IsRun(text: string, r: Span) {
    && r.start < r.end <= |text| && (forall i :: r.start <= i < r.end ==> DarkAt(text, i))
    && (r.start > 0 ==> !DarkAt(text, r.start - 1)) && !DarkAt(text, r.end)
  }

  /** All of them, in order, from `from` on. */
  ghost predicate AreTheRuns(text: string, runs: seq<Span>, from: nat) {
    && (forall k :: 0 <= k < |runs| ==> IsRun(text, runs[k]) && runs[k].start >= from)
    && (forall k :: 0 < k < |runs| ==> runs[k - 1].end < runs[k].start)
    && (forall i: nat :: from <= i && DarkAt(text, i) ==> exists k :: 0 <= k < |runs| && runs[k].start <= i < runs[k].end)
  }

  function Slices(text: string, runs: seq<Span>): seq<string>
    requires forall k :: 0 <= k < |runs| ==> runs[k].start <= runs[k].end <= |text|
  {
    seq(|runs|, k requires 0 <= k < |runs| => text[runs[k].start..runs[k].end])
  }

  lemma UsualDelimits(x: Cell)
    ensures Delimits(x, USUAL) <==> !x.literal && IsWhite(x.c)
    ensures Blank(x, USUAL) <==> Delimits(x, USUAL)
  {
    assert USUAL == [' ', '\t', '\n'];
  }

  lemma WordsAt(text: string, from: nat, n: nat)
    requires from <= |text| && n == WordLength(Plain(text)[from..], USUAL)
    ensures from + n <= |text| && (forall i :: from <= i < from + n ==> DarkAt(text, i)) && !DarkAt(text, from + n)
    ensures Chars(Plain(text)[from..][..n]) == text[from..from + n]
  {
    var cells := Plain(text)[from..];
    forall i | from <= i < from + n ensures DarkAt(text, i) {
      UsualDelimits(cells[i - from]);
    }
    if n < |cells| {
      UsualDelimits(cells[n]);
    }
    CharsOf(cells[..n], text[from..from + n]);
  }

  lemma {:induction false} CharsOf(cells: seq<Cell>, s: string)
    requires |cells| == |s| && forall k :: 0 <= k < |s| ==> cells[k].c == s[k]
    ensures Chars(cells) == s
  {
    if s != "" {
      CharsOf(cells[1..], s[1..]);
    }
  }

  /** With blanks only, a delimiter is a run of them. */
  lemma UsualDelimiter(cells: seq<Cell>)
    requires cells != [] && Delimits(cells[0], USUAL)
    ensures DropDelimiter(cells, USUAL) == DropBlanks(cells, USUAL)
  {
    FirstKept(cells, USUAL);
    var b := BlankRun(cells, USUAL);
    if b < |cells| {
      UsualDelimits(cells[b]);
    }
  }

  lemma SameSlices(text: string, r: Span, runs: seq<Span>, from: nat)
    requires AreTheRuns(text, runs, from) && r.start <= r.end <= |text|
    ensures Slices(text, [r] + runs) == [text[r.start..r.end]] + Slices(text, runs)
  {
  }

  lemma MoreRuns(text: string, r: Span, runs: seq<Span>)
    requires IsRun(text, r) && AreTheRuns(text, runs, r.end)
    ensures AreTheRuns(text, [r] + runs, r.start)
  {
    var all := [r] + runs;
    forall k | 0 < k < |all| ensures all[k - 1].end < all[k].start {
      assert k > 1 ==> all[k - 1] == runs[k - 2];
    }
    forall i: nat | r.start <= i && DarkAt(text, i) ensures exists k :: 0 <= k < |all| && all[k].start <= i < all[k].end {
      if i < r.end {
        assert all[0].start <= i < all[0].end;
      } else {
        var k :| 0 <= k < |runs| && runs[k].start <= i < runs[k].end;
        assert all[k + 1] == runs[k];
      }
    }
  }

  lemma NoMoreRuns(text: string)
    ensures AreTheRuns(text, [], |text|) && Slices(text, []) == []
  {
  }

  lemma LaterRuns(text: string, runs: seq<Span>, from: nat)
    requires from < |text| && !DarkAt(text, from) && AreTheRuns(text, runs, from + 1)
    ensures AreTheRuns(text, runs, from)
  {
  }

  lemma {:induction false} RunsFrom(text: string, from: nat) returns (runs: seq<Span>)
    requires from <= |text| && (from > 0 ==> !(DarkAt(text, from - 1) && DarkAt(text, from)))
    ensures AreTheRuns(text, runs, from) && Slices(text, runs) == Fields(DropBlanks(Plain(text)[from..], USUAL), USUAL)
    decreases |text| - from
  {
    hide Fields, Slices, AreTheRuns, DelimiterLength, DropDelimiter, IsRun;
    var cells := Plain(text)[from..];
    FieldsOfNone();
    if from == |text| {
      runs := [];
      NoMoreRuns(text);
    } else {
      UsualDelimits(cells[0]);
      assert cells[1..] == Plain(text)[from + 1..];
      if !DarkAt(text, from) {
        runs := RunsFrom(text, from + 1);
        LaterRuns(text, runs, from);
        BlankDropped(cells);
      } else {
        runs := RunAt(text, from);
      }
    }
  }

  lemma {:induction false} RunAt(text: string, from: nat) returns (runs: seq<Span>)
    requires DarkAt(text, from) && (from > 0 ==> !DarkAt(text, from - 1)) && !Delimits(Plain(text)[from..][0], USUAL)
    ensures AreTheRuns(text, runs, from) && Slices(text, runs) == Fields(DropBlanks(Plain(text)[from..], USUAL), USUAL)
    decreases |text| - from, 0
  {
    var r := RunHere(text, from);
    hide *;
    var later := RunsFrom(text, r.end);
    MoreRuns(text, r, later);
    SameSlices(text, r, later, r.end);
    runs := [r] + later;
  }

  lemma RunHere(text: string, from: nat) returns (r: Span)
    requires from < |text| && DarkAt(text, from) && (from > 0 ==> !DarkAt(text, from - 1)) && !Delimits(Plain(text)[from..][0], USUAL)
    ensures r.start == from < r.end <= |text| && IsRun(text, r)
    ensures Fields(DropBlanks(Plain(text)[from..], USUAL), USUAL)
         == [text[from..r.end]] + Fields(DropBlanks(Plain(text)[r.end..], USUAL), USUAL)
  {
    hide *;
    var n := WordLength(Plain(text)[from..], USUAL);
    WordFirst(Plain(text)[from..]);
    WordsAt(text, from, n);
    Onward(Plain(text), from, n);
    r := Span(from, from + n);
    RunIs(text, r);
  }

  lemma Onward(cells: seq<Cell>, from: nat, n: nat)
    requires from + n <= |cells|
    ensures cells[from..][n..] == cells[from + n..]
  {
  }

  lemma RunIs(text: string, r: Span)
    requires r.start < r.end <= |text| && (forall i :: r.start <= i < r.end ==> DarkAt(text, i))
    requires (r.start > 0 ==> !DarkAt(text, r.start - 1)) && !DarkAt(text, r.end)
    ensures IsRun(text, r)
  {
    hide DarkAt;
  }

  /** The first field, when no blank stands in front. */
  lemma WordFirst(cells: seq<Cell>)
    requires cells != [] && !Delimits(cells[0], USUAL)
    ensures var n := WordLength(cells, USUAL);
            && n > 0
            && Fields(DropBlanks(cells, USUAL), USUAL)
               == [Chars(cells[..n])] + Fields(DropBlanks(cells[n..], USUAL), USUAL)
  {
    var n := WordLength(cells, USUAL);
    assert cells[0..] == cells;
    FirstField(cells, USUAL);
    hide Fields, Chars, DelimiterLength;
    if n < |cells| {
      UsualDelimiter(cells[n..]);
    } else {
      FieldsOfNone();
      assert cells[n..] == [];
    }
  }

  lemma FieldsOfNone()
    ensures Fields([], USUAL) == [] && DropBlanks([], USUAL) == []
  {
  }

  lemma BlankDropped(cells: seq<Cell>)
    requires cells != [] && Blank(cells[0], USUAL)
    ensures DropBlanks(cells, USUAL) == DropBlanks(cells[1..], USUAL)
  {
    assert cells[1..][BlankRun(cells[1..], USUAL)..] == cells[BlankRun(cells, USUAL)..];
  }

  /** With space, tab and newline in IFS, the fields of plain text are its longest stretches without them. */
  lemma UsualFieldsAreTheRuns(text: string) returns (runs: seq<Span>)
    requires MARKER !in text
    ensures AreTheRuns(text, runs, 0) && SplitOnIFS(text, USUAL) == Slices(text, runs)
  {
    assert USUAL == [' ', '\t', '\n'];
    UnmarkedTextSplitsAsPosix(text, USUAL);
    runs := RunsFrom(text, 0);
    assert Plain(text)[0..] == Plain(text);
  }

  /** An empty IFS splits nothing: the text comes back whole, without the markers it got under another IFS. */
  lemma {:induction false} EmptyIFSSplitsNothing(cells: seq<Cell>, ifs: string)
    requires NoMarker(cells, ifs)
    ensures SplitOnIFS(Encode(cells, ifs), "") == [Chars(cells)]
  {
    MarkersStripped(cells, ifs);
  }

  lemma {:induction false} MarkersStripped(cells: seq<Cell>, ifs: string)
    requires NoMarker(cells, ifs)
    ensures StripMarkers(Encode(cells, ifs)) == Chars(cells)
    decreases cells
  {
    if cells != [] {
      var s, rest := Encode(cells, ifs), Encode(cells[1..], ifs);
      MarkersStripped(cells[1..], ifs);
      if cells[0].literal && cells[0].c in ifs {
        assert s[0] == MARKER && s[1] == cells[0].c && s[2..] == rest;
      } else {
        assert s[0] == cells[0].c && s[1..] == rest;
      }
    }
  }
}

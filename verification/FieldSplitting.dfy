// Splitting an expanded word into fields at the characters of IFS. A marker character protects the
// IFS characters that were written literally.
module FieldSplitting {
  const MARKER: char := '\U{0015}'

  predicate IsIFS(c: char, ifs: string) { c in ifs }

  predicate IsBlankIFS(c: char, ifs: string) { (c == ' ' || c == '\t' || c == '\n') && c in ifs }

  /** Drops IFS blanks, up to a marker or any other character. */
  function SkipBlanks(s: string, ifs: string): (t: string)
    ensures |t| <= |s|
    ensures s != "" && s[0] != MARKER && IsBlankIFS(s[0], ifs) ==> |t| < |s|
  {
    if s == "" || s[0] == MARKER || !IsBlankIFS(s[0], ifs) then s else SkipBlanks(s[1..], ifs)
  }

  /** Drops one delimiter: blanks, at most one other IFS character, blanks. */
  function SkipDelimiter(s: string, ifs: string): (t: string)
    requires s != "" && s[0] != MARKER && IsIFS(s[0], ifs)
    ensures |t| < |s|
  {
    var t := SkipBlanks(s, ifs);
    if t != "" && t[0] != MARKER && IsIFS(t[0], ifs) && !IsBlankIFS(t[0], ifs) then SkipBlanks(t[1..], ifs) else t
  }

  function Finish(buf: string, fields: seq<string>): seq<string> {
    if buf != "" || fields != [] then fields + [buf] else fields
  }

  /** The fields of the rest of the text, given the field being collected and those before it. */
  function Collect(s: string, ifs: string, buf: string, fields: seq<string>): seq<string>
    decreases |s|
  {
    if s == "" then Finish(buf, fields)
    else if s[0] == MARKER then
      if |s| > 1 then Collect(s[2..], ifs, buf + [s[1]], fields) else Collect(s[1..], ifs, buf, fields)
    else if IsIFS(s[0], ifs) then Collect(SkipDelimiter(s, ifs), ifs, "", fields + [buf])
    else Collect(s[1..], ifs, buf + [s[0]], fields)
  }

  function StripMarkers(s: string): string
    decreases |s|
  {
    if s == "" then ""
    else if s[0] == MARKER then
      if |s| > 1 then [s[1]] + StripMarkers(s[2..]) else ""
    else [s[0]] + StripMarkers(s[1..])
  }

  function WordFields(s: string, ifs: string): seq<string> {
    if ifs == "" then [StripMarkers(s)] else Collect(SkipBlanks(s, ifs), ifs, "", [])
  }

  /** The last character, and whether it is the one after a final marker. */
  datatype Last = NoChar | LastChar(c: char, escaped: bool)

  function LastUnescaped(s: string): Last {
    if s == "" then NoChar
    else if s[|s| - 1] != MARKER then LastChar(s[|s| - 1], false)
    else if |s| == 1 then NoChar
    else if s[|s| - 2] == MARKER then LastChar(MARKER, true)
    else LastChar(s[|s| - 2], false)
  }

  /** A final delimiter does not start another field. */
  function SplitOnIFS(s: string, ifs: string): seq<string> {
    var fields := WordFields(s, ifs);
    if s == "" || ifs == "" then fields
    else
      var last := LastUnescaped(s);
      if last.LastChar? && !last.escaped && IsIFS(last.c, ifs) && fields != [] && fields[|fields| - 1] == ""
      then fields[..|fields| - 1] else fields
  }

  // ----- the loops -----

  method SkipBlanksFrom(s: string, ifs: string, from: nat) returns (i: nat)
    requires from <= |s|
    ensures from <= i <= |s| && s[i..] == SkipBlanks(s[from..], ifs)
  {
    i := from;
    while i < |s|
      invariant from <= i <= |s| && SkipBlanks(s[i..], ifs) == SkipBlanks(s[from..], ifs)
    {
      assert s[i..][1..] == s[i + 1..];
      if s[i] == MARKER {
        break;
      }
      if !IsBlankIFS(s[i], ifs) {
        break;
      }
      i := i + 1;
    }
  }

  /** One step of the splitter, on the text from `i` on. */
  lemma CollectStep(s: string, i: nat, ifs: string, buf: string, fields: seq<string>)
    requires i < |s|
    ensures Collect(s[i..], ifs, buf, fields)
         == if s[i] == MARKER then
              if i + 1 < |s| then Collect(s[i + 2..], ifs, buf + [s[i + 1]], fields)
              else Collect(s[i + 1..], ifs, buf, fields)
            else if IsIFS(s[i], ifs) then Collect(SkipDelimiter(s[i..], ifs), ifs, "", fields + [buf])
            else Collect(s[i + 1..], ifs, buf + [s[i]], fields)
  {
    assert s[i..][0] == s[i] && s[i..][1..] == s[i + 1..];
    if i + 1 < |s| {
      assert s[i..][1] == s[i + 1] && s[i..][2..] == s[i + 2..];
    }
  }

  method SkipDelimiterFrom(s: string, ifs: string, from: nat) returns (i: nat)
    requires from < |s| && s[from] != MARKER && IsIFS(s[from], ifs)
    ensures from < i <= |s| && s[i..] == SkipDelimiter(s[from..], ifs)
  {
    i := SkipBlanksFrom(s, ifs, from);
    if i < |s| && s[i] != MARKER && IsIFS(s[i], ifs) && !IsBlankIFS(s[i], ifs) {
      assert s[i..][1..] == s[i + 1..];
      i := SkipBlanksFrom(s, ifs, i + 1);
    }
  }

  method SplitWordFields(s: string, ifs: string) returns (fields: seq<string>)
    ensures fields == WordFields(s, ifs)
  {
    if ifs == "" {
      return [StripMarkers(s)];
    }
    fields := [];
    var buf := "";
    var i := SkipBlanksFrom(s, ifs, 0);
    assert s[0..] == s;
    while i < |s|
      invariant i <= |s| && WordFields(s, ifs) == Collect(s[i..], ifs, buf, fields)
      decreases |s| - i
    {
      hide Collect, SkipDelimiter, SkipBlanks;
      CollectStep(s, i, ifs, buf, fields);
      var c := s[i];
      if c == MARKER {
        if i + 1 < |s| {
          buf := buf + [s[i + 1]];
          i := i + 2;
          continue;
        }
        i := i + 1;
        continue;
      }
      if IsIFS(c, ifs) {
        fields := fields + [buf];
        buf := "";
        i := SkipDelimiterFrom(s, ifs, i);
        continue;
      }
      buf := buf + [c];
      i := i + 1;
    }
    assert s[i..] == "";
    if buf != "" || fields != [] {
      fields := fields + [buf];
    }
  }

  method LastUnescapedChar(s: string) returns (r: Last)
    ensures r == LastUnescaped(s)
  {
    var i := |s| - 1;
    while i >= 0
      invariant -1 <= i < |s| && (i == |s| - 1 || (i == |s| - 2 && s[|s| - 1] == MARKER))
    {
      if s[i] == MARKER {
        if i + 1 < |s| {
          return LastChar(s[i + 1], true);
        }
        i := i - 1;
        continue;
      }
      return LastChar(s[i], false);
    }
    return NoChar;
  }

  method SplitTextOnIFS(s: string, ifs: string) returns (fields: seq<string>)
    ensures fields == SplitOnIFS(s, ifs)
  {
    fields := SplitWordFields(s, ifs);
    if s == "" || ifs == "" {
      return;
    }
    var last := LastUnescapedChar(s);
    if last.LastChar? && !last.escaped && last.c in ifs {
      if |fields| > 0 && fields[|fields| - 1] == "" {
        fields := fields[..|fields| - 1];
      }
    }
  }
}

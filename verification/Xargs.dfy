// Splitting a word list into command lines: by total length (first fit, in order) or by count.
module Xargs {
  // ----- what is asked of a split -----

  /** What the words add to a command line, a separator before each. */
  function Length(ws: seq<string>): (n: nat)
    ensures |ws| <= n
  {
    if ws == [] then 0 else 1 + |ws[0]| + Length(ws[1..])
  }

  function Joined(batches: seq<seq<string>>): seq<string> {
    if batches == [] then [] else batches[0] + Joined(batches[1..])
  }

  /** A batch is not empty, and with more than one word the line and its terminator stay within `max`. */
  predicate Fits(batch: seq<string>, base: nat, max: nat) {
    |batch| > 0 && (|batch| > 1 ==> base + Length(batch) + 1 <= max)
  }

  predicate Splits(batches: seq<seq<string>>, words: seq<string>, base: nat, max: nat) {
    Joined(batches) == words && forall k :: 0 <= k < |batches| ==> Fits(batches[k], base, max)
  }

  /** No batch could have taken the first word of the next. */
  predicate Maximal(batches: seq<seq<string>>, base: nat, max: nat) {
    |batches| < 2
    || (|batches[1]| > 0 && !Fits(batches[0] + [batches[1][0]], base, max) && Maximal(batches[1..], base, max))
  }

  // ----- first fit -----

  /** The batches still to come, when `cur` has been collected. */
  function Pack(cur: seq<string>, ws: seq<string>, base: nat, max: nat): seq<seq<string>>
    decreases |ws|
  {
    if ws == [] then (if cur == [] then [] else [cur])
    else if cur != [] && base + Length(cur) + 1 + |ws[0]| + 1 > max then [cur] + Pack([ws[0]], ws[1..], base, max)
    else Pack(cur + [ws[0]], ws[1..], base, max)
  }

  lemma {:induction false} LengthAppend(a: seq<string>, b: seq<string>)
    ensures Length(a + b) == Length(a) + Length(b)
  {
    if a == [] {
      assert a + b == b;
    } else {
      assert (a + b)[1..] == a[1..] + b;
      LengthAppend(a[1..], b);
    }
  }

  lemma FitsExactly(cur: seq<string>, w: string, base: nat, max: nat)
    ensures cur != [] && base + Length(cur) + 1 + |w| + 1 > max <==> !Fits(cur + [w], base, max)
  {
    LengthAppend(cur, [w]);
  }

  /** First fit splits its input. */
  lemma {:induction false} PackSplits(cur: seq<string>, ws: seq<string>, base: nat, max: nat)
    requires cur == [] || Fits(cur, base, max)
    ensures Splits(Pack(cur, ws, base, max), cur + ws, base, max)
    decreases |ws|
  {
    hide Fits, Length;
    if ws != [] {
      var w, rest := ws[0], ws[1..];
      FitsExactly(cur, w, base, max);
      OneWordFits(w, base, max);
      if cur != [] && base + Length(cur) + 1 + |w| + 1 > max {
        PackSplits([w], rest, base, max);
        var more := Pack([w], rest, base, max);
        assert ([cur] + more)[1..] == more;
        assert cur + ([w] + rest) == cur + ws;
      } else {
        PackSplits(cur + [w], rest, base, max);
        assert cur + [w] + rest == cur + ws;
      }
    } else if cur != [] {
      assert Joined([cur]) == cur + ws;
    }
  }

  lemma OneWordFits(w: string, base: nat, max: nat)
    ensures Fits([w], base, max)
  {
  }

  /** Every batch of first fit is as long as it can be. */
  lemma {:induction false} PackIsMaximal(cur: seq<string>, ws: seq<string>, base: nat, max: nat)
    ensures var batches := Pack(cur, ws, base, max);
            Maximal(batches, base, max)
            && (cur + ws != [] ==> batches != [] && |batches[0]| > 0 && (cur + ws)[0] == batches[0][0])
    decreases |ws|
  {
    hide Fits, Length;
    if |ws| > 0 {
      var w, rest := ws[0], ws[1..];
      FitsExactly(cur, w, base, max);
      if |cur| > 0 && base + Length(cur) + 1 + |w| + 1 > max {
        PackIsMaximal([w], rest, base, max);
        var more := Pack([w], rest, base, max);
        assert ([w] + rest)[0] == w && (cur + ws)[0] == cur[0];
        MaximalFront(cur, more, base, max);
      } else {
        PackIsMaximal(cur + [w], rest, base, max);
        assert cur + [w] + rest == cur + ws;
      }
    }
  }

  lemma MaximalFront(cur: seq<string>, more: seq<seq<string>>, base: nat, max: nat)
    requires |more| > 0 && |more[0]| > 0 && Maximal(more, base, max) && !Fits(cur + [more[0][0]], base, max)
    ensures Maximal([cur] + more, base, max) && ([cur] + more)[0] == cur
  {
    hide Fits;
    assert ([cur] + more)[1..] == more && ([cur] + more)[1] == more[0];
  }

  // ----- no other split is shorter -----

  /** The same split without the first word. */
  function Without(batches: seq<seq<string>>): seq<seq<string>>
    requires batches != [] && |batches[0]| > 0
  {
    if |batches[0]| == 1 then batches[1..] else [batches[0][1..]] + batches[1..]
  }

  lemma WithoutSplits(batches: seq<seq<string>>, words: seq<string>, base: nat, max: nat)
    requires Splits(batches, words, base, max) && words != []
    ensures batches != [] && |batches[0]| > 0 && words[0] == batches[0][0]
    ensures Splits(Without(batches), words[1..], base, max) && |Without(batches)| <= |batches|
  {
    assert Fits(batches[0], base, max);
    var first, rest := batches[0], batches[1..];
    assert words[1..] == first[1..] + Joined(rest);
    assert ([first[1..]] + rest)[1..] == rest;
  }

  /** Whatever has been collected, first fit needs at most one batch more than any split of what follows. */
  lemma {:induction false} NotFarBehind(cur: seq<string>, ws: seq<string>, batches: seq<seq<string>>, base: nat, max: nat)
    requires cur != [] && Splits(batches, ws, base, max)
    ensures |Pack(cur, ws, base, max)| <= 1 + |batches|
    decreases |ws|, 0
  {
    if ws != [] {
      WithoutSplits(batches, ws, base, max);
      var w := ws[0];
      if base + Length(cur) + 1 + |w| + 1 > max {
        assert [w] + ws[1..] == ws;
        StaysAhead([w], [w], ws[1..], batches, base, max);
      } else {
        NotFarBehind(cur + [w], ws[1..], Without(batches), base, max);
      }
    }
  }

  /** While it has collected no more than another split's current batch, first fit needs no more batches. */
  lemma {:induction false} StaysAhead(
    cur: seq<string>, c: seq<string>, ws: seq<string>, batches: seq<seq<string>>, base: nat, max: nat)
    requires 0 < |cur| <= |c| && cur == c[|c| - |cur|..]
    requires Splits(batches, c + ws, base, max) && batches != [] && c <= batches[0]
    ensures |Pack(cur, ws, base, max)| <= |batches|
    decreases |ws|, 1
  {
    if ws != [] {
      var w, first := ws[0], batches[0];
      if first == c {
        assert (c + ws)[|c|..] == ws && (c + ws)[|c|..] == Joined(batches[1..]);
        NotFarBehind(cur, ws, batches[1..], base, max);
      } else {
        assert Fits(first, base, max);
        assert (c + ws)[..|first|] == first;
        assert c + [w] == first[..|c| + 1];
        var skipped := c[..|c| - |cur|];
        assert first == skipped + (cur + [w]) + first[|c| + 1..];
        LengthAppend(skipped, cur + [w]);
        LengthAppend(skipped + (cur + [w]), first[|c| + 1..]);
        LengthAppend(cur, [w]);
        assert c + ws == (c + [w]) + ws[1..];
        StaysAhead(cur + [w], c + [w], ws[1..], batches, base, max);
      }
    }
  }

  /** No split into batches that fit, in order, has fewer of them. */
  lemma PackIsShortest(ws: seq<string>, batches: seq<seq<string>>, base: nat, max: nat)
    requires Splits(batches, ws, base, max)
    ensures |Pack([], ws, base, max)| <= |batches|
  {
    if ws != [] {
      WithoutSplits(batches, ws, base, max);
      assert [ws[0]] + ws[1..] == ws;
      StaysAhead([ws[0]], [ws[0]], ws[1..], batches, base, max);
      assert [] + [ws[0]] == [ws[0]];
    }
  }

  lemma PrefixFits(a: seq<string>, b: seq<string>, base: nat, max: nat)
    requires a != [] && Fits(a + b, base, max)
    ensures Fits(a, base, max)
  {
    LengthAppend(a, b);
  }

  lemma EmptySplit(batches: seq<seq<string>>, base: nat, max: nat)
    requires Splits(batches, [], base, max)
    ensures batches == []
  {
    assert |batches| > 0 ==> Fits(batches[0], base, max);
  }

  /** First fit is the one split in which every batch is as long as it can be. */
  lemma {:induction false} PackFollows(
    cur: seq<string>, ws: seq<string>, batches: seq<seq<string>>, base: nat, max: nat)
    requires Splits(batches, cur + ws, base, max) && Maximal(batches, base, max)
    requires cur != [] && batches != [] && cur <= batches[0]
    ensures Pack(cur, ws, base, max) == batches
    decreases |ws|
  {
    hide Fits, Length;
    var first, rest := batches[0], batches[1..];
    assert Fits(first, base, max);
    assert (cur + ws)[|cur|..] == ws && first + Joined(rest) == cur + ws;
    if first == cur {
      assert Joined(rest) == ws;
      if rest == [] {
        assert ws == [];
      } else {
        assert Fits(batches[1], base, max);
        assert ws[0] == batches[1][0];
        FitsExactly(cur, ws[0], base, max);
        assert [ws[0]] + ws[1..] == ws;
        assert !Fits(batches[0] + [batches[1][0]], base, max);
        PackFollows([ws[0]], ws[1..], rest, base, max);
      }
    } else {
      var w := ws[0];
      assert (cur + ws)[..|first|] == first;
      assert cur + [w] == first[..|cur| + 1];
      assert first == (cur + [w]) + first[|cur| + 1..];
      PrefixFits(cur + [w], first[|cur| + 1..], base, max);
      FitsExactly(cur, w, base, max);
      assert (cur + [w]) + ws[1..] == cur + ws;
      PackFollows(cur + [w], ws[1..], batches, base, max);
    }
  }

  lemma PackExactly(ws: seq<string>, batches: seq<seq<string>>, base: nat, max: nat)
    ensures batches == Pack([], ws, base, max) <==> Splits(batches, ws, base, max) && Maximal(batches, base, max)
  {
    PackSplits([], ws, base, max);
    PackIsMaximal([], ws, base, max);
    assert [] + ws == ws;
    if Splits(batches, ws, base, max) && Maximal(batches, base, max) {
      if ws == [] {
        EmptySplit(batches, base, max);
      } else {
        WithoutSplits(batches, ws, base, max);
        assert [ws[0]] + ws[1..] == ws;
        assert [] + [ws[0]] == [ws[0]];
        PackFollows([ws[0]], ws[1..], batches, base, max);
      }
    }
  }

  // ----- by count -----

  function Chunks(words: seq<string>, n: nat): seq<seq<string>>
    requires n > 0
    decreases |words|
  {
    if words == [] then [] else if |words| <= n then [words] else [words[..n]] + Chunks(words[n..], n)
  }

  predicate SplitsByCount(batches: seq<seq<string>>, words: seq<string>, n: nat) {
    Joined(batches) == words && forall k :: 0 <= k < |batches| ==> 0 < |batches[k]| <= n
  }

  lemma {:induction false} JoinedLength(batches: seq<seq<string>>, n: nat)
    requires forall k :: 0 <= k < |batches| ==> |batches[k]| <= n
    ensures |Joined(batches)| <= |batches| * n
  {
    if batches != [] { JoinedLength(batches[1..], n); }
  }

  lemma {:induction false} ChunksSplit(words: seq<string>, n: nat)
    requires n > 0
    ensures SplitsByCount(Chunks(words, n), words, n)
    ensures words != [] ==> (|Chunks(words, n)| - 1) * n < |words|
    ensures forall k :: 0 <= k < |Chunks(words, n)| - 1 ==> |Chunks(words, n)[k]| == n
    decreases |words|
  {
    if |words| > n {
      ChunksSplit(words[n..], n);
      var more := Chunks(words[n..], n);
      assert ([words[..n]] + more)[1..] == more;
      assert words[..n] + words[n..] == words;
      assert (|more| - 1) * n + n == |more| * n;
    } else if words != [] {
      assert Joined([words]) == words;
    }
  }

  /** No split into batches of at most `n` words has fewer of them. */
  lemma ChunksAreShortest(words: seq<string>, batches: seq<seq<string>>, n: nat)
    requires n > 0 && SplitsByCount(batches, words, n)
    ensures |Chunks(words, n)| <= |batches|
  {
    ChunksSplit(words, n);
    JoinedLength(batches, n);
    if |batches| < |Chunks(words, n)| {
      Times(|batches|, |Chunks(words, n)| - 1, n);
    }
  }

  lemma {:induction false} Times(a: int, b: int, n: nat)
    requires a <= b
    ensures a * n <= b * n
  {
  }

  // ----- running the batches -----

  /** A command's exit status, from how many were run before it and its argument list. */
  datatype World = World(run: (nat, seq<string>) -> int)

  function CommandLines(name: string, fixed: seq<string>, batches: seq<seq<string>>): (lines: seq<seq<string>>)
    ensures |lines| == |batches|
    ensures forall k :: 0 <= k < |batches| ==> lines[k] == [name] + fixed + batches[k]
  {
    if batches == [] then [] else [[name] + fixed + batches[0]] + CommandLines(name, fixed, batches[1..])
  }

  function ExitCode(w: World, lines: seq<seq<string>>): int {
    if lines == [] then 0
    else
      var code := w.run(|lines| - 1, lines[|lines| - 1]);
      if code != 0 then code else ExitCode(w, lines[..|lines| - 1])
  }

  predicate LastFailure(w: World, lines: seq<seq<string>>, k: nat)
    requires k < |lines|
  {
    w.run(k, lines[k]) != 0 && forall j :: k < j < |lines| ==> w.run(j, lines[j]) == 0
  }

  /** The status of the last command that failed; zero exactly when none did. */
  lemma {:induction false} ExitCodeIsLastFailure(w: World, lines: seq<seq<string>>)
    ensures ExitCode(w, lines) == 0 <==> forall k :: 0 <= k < |lines| ==> w.run(k, lines[k]) == 0
    ensures forall k :: 0 <= k < |lines| && LastFailure(w, lines, k) ==> ExitCode(w, lines) == w.run(k, lines[k])
  {
    if lines != [] {
      var before, n := lines[..|lines| - 1], |lines| - 1;
      ExitCodeIsLastFailure(w, before);
      assert forall k :: 0 <= k < n ==> before[k] == lines[k];
      if w.run(n, lines[n]) == 0 {
        forall k | 0 <= k < |lines| && LastFailure(w, lines, k) ensures ExitCode(w, lines) == w.run(k, lines[k]) {
          assert k < n && before[k] == lines[k];
          assert LastFailure(w, before, k);
        }
      }
    }
  }

  function BaseLength(name: string, fixed: seq<string>): nat { |name| + Length(fixed) }

  /** A command line as text, a blank between words. */
  function Spelt(line: seq<string>): string {
    if line == [] then "" else if |line| == 1 then line[0] else line[0] + " " + Spelt(line[1..])
  }

  lemma {:induction false} SpeltLength(name: string, ws: seq<string>)
    ensures |Spelt([name] + ws)| == |name| + Length(ws)
    decreases |ws|
  {
    if ws == [] {
      assert [name] + ws == [name];
    } else {
      assert ([name] + ws)[1..] == [ws[0]] + ws[1..];
      SpeltLength(ws[0], ws[1..]);
    }
  }

  /** Every command line with more than one word of its own, and its terminator, stays within the size, and none
      but the last could have taken the first word of the next. */
  lemma LinesFit(name: string, fixed: seq<string>, words: seq<string>, max: nat, k: nat)
    requires k < |Pack([], words, BaseLength(name, fixed), max)|
    ensures var batches := Pack([], words, BaseLength(name, fixed), max);
            && |batches[k]| > 0 && (|batches[k]| > 1 ==> |Spelt([name] + fixed + batches[k])| + 1 <= max)
            && (k > 0 ==> |Spelt([name] + fixed + batches[k - 1] + [batches[k][0]])| + 1 > max)
  {
    var base := BaseLength(name, fixed);
    var batches := Pack([], words, base, max);
    PackSplits([], words, base, max);
    PackIsMaximal([], words, base, max);
    hide Pack, Fits, BaseLength, Spelt, Maximal;
    assert Fits(batches[k], base, max);
    LineFits(name, fixed, batches[k], max);
    if k > 0 {
      MaximalAt(batches, k, base, max);
      LineIsFull(name, fixed, batches[k - 1], batches[k][0], max);
    }
  }

  lemma LineFits(name: string, fixed: seq<string>, batch: seq<string>, max: nat)
    requires Fits(batch, BaseLength(name, fixed), max)
    ensures |batch| > 0 && (|batch| > 1 ==> |Spelt([name] + fixed + batch)| + 1 <= max)
  {
    LineLength(name, fixed, batch);
  }

  lemma LineIsFull(name: string, fixed: seq<string>, batch: seq<string>, w: string, max: nat)
    requires |batch| > 0 && !Fits(batch + [w], BaseLength(name, fixed), max)
    ensures |Spelt([name] + fixed + batch + [w])| + 1 > max
  {
    hide Spelt;
    LineLength(name, fixed, batch + [w]);
    assert [name] + fixed + batch + [w] == [name] + fixed + (batch + [w]);
  }

  lemma LineLength(name: string, fixed: seq<string>, batch: seq<string>)
    ensures |Spelt([name] + fixed + batch)| == BaseLength(name, fixed) + Length(batch)
  {
    assert [name] + fixed + batch == [name] + (fixed + batch);
    SpeltLength(name, fixed + batch);
    LengthAppend(fixed, batch);
  }

  lemma {:induction false} MaximalAt(batches: seq<seq<string>>, k: nat, base: nat, max: nat)
    requires Maximal(batches, base, max) && 0 < k < |batches|
    ensures |batches[k]| > 0 && !Fits(batches[k - 1] + [batches[k][0]], base, max)
    decreases k
  {
    hide Fits;
    if k > 1 {
      MaximalAt(batches[1..], k - 1, base, max);
    }
  }

  lemma OneMoreLine(name: string, fixed: seq<string>, batches: seq<seq<string>>, batch: seq<string>)
    ensures CommandLines(name, fixed, batches + [batch]) == CommandLines(name, fixed, batches) + [[name] + fixed + batch]
  {
  }

  /** Runs one more batch after those `done`. */
  method RunOne(
    w: World, name: string, fixed: seq<string>, batch: seq<string>,
    exitCode: int, lines: seq<seq<string>>, ghost done: seq<seq<string>>)
    returns (exitCode': int, lines': seq<seq<string>>)
    requires lines == CommandLines(name, fixed, done) && exitCode == ExitCode(w, lines)
    ensures lines' == CommandLines(name, fixed, done + [batch]) && exitCode' == ExitCode(w, lines')
  {
    var line := [name] + fixed + batch;
    var rc := w.run(|lines|, line);
    OneMoreLine(name, fixed, done, batch);
    assert (lines + [line])[..|lines|] == lines;
    lines' := lines + [line];
    exitCode' := if rc != 0 then rc else exitCode;
  }

  method RunBatched(w: World, name: string, fixed: seq<string>, words: seq<string>, maxSize: nat)
    returns (exitCode: int, lines: seq<seq<string>>)
    ensures lines == CommandLines(name, fixed, Pack([], words, BaseLength(name, fixed), maxSize))
    ensures exitCode == ExitCode(w, lines)
  {
    hide ExitCode, CommandLines;
    NothingRun(w, name, fixed);
    exitCode, lines := 0, [];
    var baseLen := BaseLengthOf(name, fixed);
    ghost var done: seq<seq<string>> := [];
    var batch: seq<string> := [];
    var currentLen := baseLen;
    var i := 0;
    assert words[0..] == words;
    while i < |words|
      invariant 0 <= i <= |words|
      invariant currentLen == baseLen + Length(batch)
      invariant done + Pack(batch, words[i..], baseLen, maxSize) == Pack([], words, baseLen, maxSize)
      invariant lines == CommandLines(name, fixed, done) && exitCode == ExitCode(w, lines)
    {
      var word := words[i];
      assert words[i..][0] == word && words[i..][1..] == words[i + 1..];
      var newLen := currentLen + 1 + |word|;
      if |batch| > 0 && newLen + 1 > maxSize {
        exitCode, lines := RunOne(w, name, fixed, batch, exitCode, lines, done);
        Regroup(done, batch, Pack([word], words[i + 1..], baseLen, maxSize));
        done := done + [batch];
        batch := [];
        currentLen := baseLen;
        assert batch + [word] == [word];
      }
      LengthAppend(batch, [word]);
      batch := batch + [word];
      currentLen := currentLen + 1 + |word|;
      i := i + 1;
    }
    assert words[i..] == [];
    if |batch| > 0 {
      exitCode, lines := RunOne(w, name, fixed, batch, exitCode, lines, done);
    }
  }

  lemma NothingRun(w: World, name: string, fixed: seq<string>)
    ensures CommandLines(name, fixed, []) == [] && ExitCode(w, []) == 0
  {
  }

  lemma Regroup(done: seq<seq<string>>, batch: seq<string>, more: seq<seq<string>>)
    ensures done + ([batch] + more) == done + [batch] + more
  {
  }

  method BaseLengthOf(name: string, fixed: seq<string>) returns (baseLen: nat)
    ensures baseLen == BaseLength(name, fixed)
  {
    baseLen := |name|;
    var k := 0;
    while k < |fixed|
      invariant 0 <= k <= |fixed| && baseLen + Length(fixed[k..]) == BaseLength(name, fixed)
    {
      assert fixed[k..][0] == fixed[k] && fixed[k..][1..] == fixed[k + 1..];
      baseLen := baseLen + 1 + |fixed[k]|;
      k := k + 1;
    }
    assert fixed[k..] == [];
  }

  lemma NoChunks(n: nat)
    requires n > 0
    ensures Chunks([], n) == []
  {
  }

  lemma ChunkStep(words: seq<string>, i: nat, n: nat)
    requires n > 0 && i < |words|
    ensures var end := if i + n > |words| then |words| else i + n;
            Chunks(words[i..], n) == [words[i..end]] + (if i + n <= |words| then Chunks(words[i + n..], n) else [])
  {
    assert |words[i..]| > n ==> words[i..][..n] == words[i..i + n] && words[i..][n..] == words[i + n..];
    assert words[i..|words|] == words[i..];
    assert words[|words|..] == [];
  }

  method RunBatchedByArgs(w: World, name: string, fixed: seq<string>, words: seq<string>, maxArgs: nat)
    returns (exitCode: int, lines: seq<seq<string>>)
    requires maxArgs > 0
    ensures lines == CommandLines(name, fixed, Chunks(words, maxArgs))
    ensures exitCode == ExitCode(w, lines)
  {
    hide ExitCode, CommandLines, Chunks;
    NothingRun(w, name, fixed);
    NoChunks(maxArgs);
    exitCode, lines := 0, [];
    ghost var done: seq<seq<string>> := [];
    var i := 0;
    assert words[0..] == words;
    while i < |words|
      invariant 0 <= i
      invariant done + (if i <= |words| then Chunks(words[i..], maxArgs) else []) == Chunks(words, maxArgs)
      invariant lines == CommandLines(name, fixed, done) && exitCode == ExitCode(w, lines)
    {
      var end := i + maxArgs;
      if end > |words| {
        end := |words|;
      }
      ChunkStep(words, i, maxArgs);
      exitCode, lines := RunOne(w, name, fixed, words[i..end], exitCode, lines, done);
      Regroup(done, words[i..end], if i + maxArgs <= |words| then Chunks(words[i + maxArgs..], maxArgs) else []);
      done := done + [words[i..end]];
      i := i + maxArgs;
    }
    assert i == |words| ==> words[i..] == [];
  }
}

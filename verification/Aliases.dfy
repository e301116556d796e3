// Alias substitution on the words of a command. An alias is known by the words of its value and by
// whether the value ends in a blank.
module Aliases {
  datatype Alias = Alias(words: seq<string>, endsInBlank: bool)

  type Table = map<string, Alias>

  datatype Item = Item(word: string, fromAlias: bool)

  function Items(words: seq<string>, fromAlias: bool): (items: seq<Item>)
    ensures |items| == |words| && forall k :: 0 <= k < |words| ==> items[k] == Item(words[k], fromAlias)
  {
    seq(|words|, k requires 0 <= k < |words| => Item(words[k], fromAlias))
  }

  function Words(items: seq<Item>): (words: seq<string>)
    ensures |words| == |items| && forall k :: 0 <= k < |items| ==> words[k] == items[k].word
  {
    seq(|items|, k requires 0 <= k < |items| => items[k].word)
  }

  /** The names not yet substituted. */
  function Unseen(t: Table, seen: set<string>): set<string> { t.Keys - seen }

  lemma SeenShrinks(t: Table, seen: set<string>, name: string)
    requires name in t && name !in seen
    ensures |Unseen(t, seen + {name})| < |Unseen(t, seen)|
  {
    assert Unseen(t, seen) == Unseen(t, seen + {name}) + {name};
  }

  /** Is the word at the head of the queue replaced? */
  predicate Replaced(t: Table, head: Item, seen: set<string>, next: bool, nextOriginal: bool) {
    (next || (nextOriginal && !head.fromAlias)) && head.word in t && head.word !in seen
  }

  function Expand(t: Table, queue: seq<Item>, seen: set<string>, next: bool, nextOriginal: bool): seq<string>
    decreases |Unseen(t, seen)|, |queue|
  {
    if queue == [] then []
    else
      var head, rest := queue[0], queue[1..];
      if Replaced(t, head, seen, next, nextOriginal) then
        var alias := t[head.word];
        SeenShrinks(t, seen, head.word);
        Expand(t, Items(alias.words, true) + rest, seen + {head.word}, true, alias.endsInBlank)
      else
        [head.word] + Expand(t, rest, seen, false, nextOriginal && head.fromAlias)
  }

  lemma ExpandStep(t: Table, queue: seq<Item>, seen: set<string>, next: bool, nextOriginal: bool)
    requires queue != []
    ensures Expand(t, queue, seen, next, nextOriginal)
         == (var head, rest := queue[0], queue[1..];
             if Replaced(t, head, seen, next, nextOriginal) then
               Expand(t, Items(t[head.word].words, true) + rest, seen + {head.word}, true, t[head.word].endsInBlank)
             else [head.word] + Expand(t, rest, seen, false, nextOriginal && head.fromAlias))
  {
  }

  function ExpandAliases(t: Table, words: seq<string>): seq<string> {
    Expand(t, Items(words, false), {}, true, false)
  }

  lemma AppendWord(result: seq<string>, word: string, more: seq<string>)
    ensures result + ([word] + more) == result + [word] + more
  {
  }

  /** The loop ends on every table, with aliases that stand for each other or for themselves included. */
  method ExpandWords(t: Table, words: seq<string>) returns (result: seq<string>)
    ensures result == ExpandAliases(t, words)
  {
    var queue := Items(words, false);
    var seen: set<string> := {};
    result := [];
    var expandNext, expandNextOriginal := true, false;
    while |queue| > 0
      invariant result + Expand(t, queue, seen, expandNext, expandNextOriginal) == ExpandAliases(t, words)
      decreases |Unseen(t, seen)|, |queue|
    {
      hide Unseen, Items, Expand, ExpandAliases;
      ExpandStep(t, queue, seen, expandNext, expandNextOriginal);
      var current := queue[0];
      var allowExpand := expandNext || (expandNextOriginal && !current.fromAlias);
      if allowExpand && current.word in t && current.word !in seen {
        var alias := t[current.word];
        SeenShrinks(t, seen, current.word);
        seen := seen + {current.word};
        queue := Items(alias.words, true) + queue[1..];
        expandNext, expandNextOriginal := true, alias.endsInBlank;
        continue;
      }
      queue := queue[1..];
      AppendWord(result, current.word, Expand(t, queue, seen, false, expandNextOriginal && current.fromAlias));
      result := result + [current.word];
      if expandNextOriginal && !current.fromAlias {
        expandNextOriginal := false;
      }
      expandNext := false;
    }
  }

  // ----- every step is the substitution of an alias not used before -----

  /** One substitution: the word at `at`, which is the name of an alias, by the words of its value. */
  datatype Use = Use(at: nat, name: string)

  function Uses(t: Table, queue: seq<Item>, seen: set<string>, next: bool, nextOriginal: bool, at: nat): seq<Use>
    decreases |Unseen(t, seen)|, |queue|
  {
    if queue == [] then []
    else
      var head, rest := queue[0], queue[1..];
      if Replaced(t, head, seen, next, nextOriginal) then
        var alias := t[head.word];
        SeenShrinks(t, seen, head.word);
        [Use(at, head.word)]
        + Uses(t, Items(alias.words, true) + rest, seen + {head.word}, true, alias.endsInBlank, at)
      else
        Uses(t, rest, seen, false, nextOriginal && head.fromAlias, at + 1)
  }

  /** The words after all substitutions, each of which must find its name at its place. */
  predicate Derives(t: Table, words: seq<string>, uses: seq<Use>, result: seq<string>)
    decreases |uses|
  {
    if uses == [] then result == words
    else
      var use := uses[0];
      && use.name in t && use.at < |words| && words[use.at] == use.name
      && Derives(t, words[..use.at] + t[use.name].words + words[use.at + 1..], uses[1..], result)
  }

  predicate Distinct(uses: seq<Use>, seen: set<string>) {
    (forall k :: 0 <= k < |uses| ==> uses[k].name !in seen)
    && forall j, k :: 0 <= j < k < |uses| ==> uses[j].name != uses[k].name
  }

  predicate LeftToRight(uses: seq<Use>, at: nat) {
    (forall k :: 0 <= k < |uses| ==> at <= uses[k].at)
    && forall j, k :: 0 <= j < k < |uses| ==> uses[j].at <= uses[k].at
  }

  lemma {:induction false} UsesAreDistinct(
    t: Table, queue: seq<Item>, seen: set<string>, next: bool, nextOriginal: bool, at: nat)
    ensures var uses := Uses(t, queue, seen, next, nextOriginal, at); Distinct(uses, seen) && LeftToRight(uses, at)
    decreases |Unseen(t, seen)|, |queue|
  {
    hide Unseen, Items;
    if queue != [] {
      var head, rest := queue[0], queue[1..];
      if Replaced(t, head, seen, next, nextOriginal) {
        var alias := t[head.word];
        SeenShrinks(t, seen, head.word);
        UsesAreDistinct(t, Items(alias.words, true) + rest, seen + {head.word}, true, alias.endsInBlank, at);
      } else {
        UsesAreDistinct(t, rest, seen, false, nextOriginal && head.fromAlias, at + 1);
      }
    }
  }

  lemma NoWords()
    ensures Words([]) == []
  {
  }

  lemma Replace(done: seq<string>, queue: seq<Item>, value: seq<string>)
    requires queue != []
    ensures var words := done + Words(queue);
            && |done| < |words| && words[|done|] == queue[0].word
            && words[..|done|] + value + words[|done| + 1..] == done + Words(Items(value, true) + queue[1..])
  {
  }

  lemma Advance(done: seq<string>, queue: seq<Item>, more: seq<string>)
    requires queue != []
    ensures done + Words(queue) == done + [queue[0].word] + Words(queue[1..])
    ensures done + ([queue[0].word] + more) == done + [queue[0].word] + more
    ensures |done + [queue[0].word]| == |done| + 1
  {
  }

  lemma {:induction false} UsesDerive(
    t: Table, done: seq<string>, queue: seq<Item>, seen: set<string>, next: bool, nextOriginal: bool)
    ensures Derives(t, done + Words(queue), Uses(t, queue, seen, next, nextOriginal, |done|),
                    done + Expand(t, queue, seen, next, nextOriginal))
    decreases |Unseen(t, seen)|, |queue|
  {
    hide Unseen, Words, Items;
    if queue == [] {
      NoWords();
      assert done + Words(queue) == done + Expand(t, queue, seen, next, nextOriginal);
    } else {
      var head, rest, words := queue[0], queue[1..], done + Words(queue);
      if Replaced(t, head, seen, next, nextOriginal) {
        var alias := t[head.word];
        SeenShrinks(t, seen, head.word);
        UsesDerive(t, done, Items(alias.words, true) + rest, seen + {head.word}, true, alias.endsInBlank);
        Replace(done, queue, alias.words);
      } else {
        var more := Expand(t, rest, seen, false, nextOriginal && head.fromAlias);
        UsesDerive(t, done + [head.word], rest, seen, false, nextOriginal && head.fromAlias);
        Advance(done, queue, more);
      }
    }
  }

  /** The result comes from the words by substitutions from left to right, each alias at most once. */
  lemma EachAliasOnce(t: Table, words: seq<string>) returns (uses: seq<Use>)
    ensures Derives(t, words, uses, ExpandAliases(t, words)) && Distinct(uses, {}) && LeftToRight(uses, 0)
  {
    hide Expand, Uses, Derives, Distinct, LeftToRight;
    var queue := Items(words, false);
    uses := Uses(t, queue, {}, true, false, 0);
    UsesAreDistinct(t, queue, {}, true, false, 0);
    UsesDerive(t, [], queue, {}, true, false);
    assert [] + Words(queue) == words;
    assert [] + ExpandAliases(t, words) == ExpandAliases(t, words);
  }

  // ----- conservation -----

  function Gained(t: Table, uses: seq<Use>): multiset<string> {
    if uses == [] then multiset{}
    else (if uses[0].name in t then multiset(t[uses[0].name].words) else multiset{}) + Gained(t, uses[1..])
  }

  function Lost(uses: seq<Use>): multiset<string> {
    if uses == [] then multiset{} else multiset{uses[0].name} + Lost(uses[1..])
  }

  /** Nothing is lost but the names replaced, nothing gained but the values' words. */
  lemma {:induction false} WordsAreKept(t: Table, words: seq<string>, uses: seq<Use>, result: seq<string>)
    requires Derives(t, words, uses, result)
    ensures multiset(result) + Lost(uses) == multiset(words) + Gained(t, uses)
    decreases |uses|
  {
    if uses != [] {
      var use := uses[0];
      var a, value, b := words[..use.at], t[use.name].words, words[use.at + 1..];
      WordsAreKept(t, a + value + b, uses[1..], result);
      assert words == a + [use.name] + b;
      Splice(a, use.name, value, b);
      KeptStep(multiset(result), multiset(words), multiset(a + value + b), multiset(value), multiset{use.name},
               Lost(uses[1..]), Gained(t, uses[1..]));
    }
  }

  lemma Splice(a: seq<string>, name: string, value: seq<string>, b: seq<string>)
    ensures multiset(a + [name] + b) + multiset(value) == multiset(a + value + b) + multiset{name}
  {
    assert multiset(a + [name] + b) == multiset(a) + multiset{name} + multiset(b);
    assert multiset(a + value + b) == multiset(a) + multiset(value) + multiset(b);
  }

  lemma KeptStep(
    result: multiset<string>, words: multiset<string>, next: multiset<string>,
    value: multiset<string>, name: multiset<string>, lost: multiset<string>, gained: multiset<string>)
    requires result + lost == next + gained && words + value == next + name
    ensures result + (name + lost) == words + (value + gained)
  {
    assert result + (name + lost) == result + lost + name;
    assert words + (value + gained) == words + value + gained;
    assert next + gained + name == next + name + gained;
  }

  // ----- which words are substituted -----

  /** A first word that is no alias leaves the command as it is. */
  lemma {:induction false} OrdinaryCommand(t: Table, queue: seq<Item>, seen: set<string>)
    ensures Expand(t, queue, seen, false, false) == Words(queue)
    decreases |queue|
  {
    if queue != [] {
      OrdinaryCommand(t, queue[1..], seen);
      assert Words(queue) == [queue[0].word] + Words(queue[1..]);
    }
  }

  predicate UsedIn(uses: seq<Use>, name: string) {
    uses != [] && (uses[0].name == name || UsedIn(uses[1..], name))
  }

  /** What is left in the command's place is not an alias that could still be replaced. */
  lemma {:induction false} FirstWordIsFinal(
    t: Table, queue: seq<Item>, seen: set<string>, nextOriginal: bool, at: nat)
    ensures var result, uses := Expand(t, queue, seen, true, nextOriginal), Uses(t, queue, seen, true, nextOriginal, at);
            result != [] && result[0] in t ==> result[0] in seen || UsedIn(uses, result[0])
    decreases |Unseen(t, seen)|, |queue|
  {
    if queue != [] {
      var head, rest := queue[0], queue[1..];
      if Replaced(t, head, seen, true, nextOriginal) {
        var alias := t[head.word];
        SeenShrinks(t, seen, head.word);
        var next := Items(alias.words, true) + rest;
        FirstWordIsFinal(t, next, seen + {head.word}, alias.endsInBlank, at);
        var uses := Uses(t, queue, seen, true, nextOriginal, at);
        var more := Uses(t, next, seen + {head.word}, true, alias.endsInBlank, at);
        assert uses[0].name == head.word && uses[1..] == more;
      }
    }
  }

  /** Values that are not empty and do not end in a blank, but for names already substituted. */
  predicate Plain(t: Table, seen: set<string>) {
    forall name :: name in t && name !in seen ==> t[name].words != [] && !t[name].endsInBlank
  }

  /** The words that take the place of one word in command position. */
  function Chain(t: Table, word: string, seen: set<string>): (chain: seq<string>)
    requires Plain(t, seen)
    ensures chain != []
    decreases |Unseen(t, seen)|
  {
    if word in t && word !in seen then
      SeenShrinks(t, seen, word);
      Chain(t, t[word].words[0], seen + {word}) + t[word].words[1..]
    else [word]
  }

  lemma {:induction false} ChainThenRest(t: Table, queue: seq<Item>, seen: set<string>)
    requires Plain(t, seen) && queue != []
    ensures Expand(t, queue, seen, true, false) == Chain(t, queue[0].word, seen) + Words(queue[1..])
    decreases |Unseen(t, seen)|, 1
  {
    var head, rest := queue[0], queue[1..];
    if Replaced(t, head, seen, true, false) {
      SeenShrinks(t, seen, head.word);
      ChainStep(t, head.word, rest, seen);
    } else {
      OrdinaryCommand(t, rest, seen);
    }
  }

  lemma {:induction false} ChainStep(t: Table, word: string, rest: seq<Item>, seen: set<string>)
    requires Plain(t, seen) && word in t && word !in seen
    ensures Expand(t, Items(t[word].words, true) + rest, seen + {word}, true, false)
         == Chain(t, word, seen) + Words(rest)
    decreases |Unseen(t, seen)|, 0
  {
    SeenShrinks(t, seen, word);
    var words := t[word].words;
    var queue := Items(words, true) + rest;
    ChainThenRest(t, queue, seen + {word});
    assert Words(queue[1..]) == words[1..] + Words(rest);
    var chain := Chain(t, words[0], seen + {word});
    assert chain + (words[1..] + Words(rest)) == chain + words[1..] + Words(rest);
  }

  /** With plain values only the first word is ever replaced, and its value's first word after it. */
  lemma OnlyTheCommandWord(t: Table, words: seq<string>)
    requires Plain(t, {}) && words != []
    ensures ExpandAliases(t, words) == Chain(t, words[0], {}) + words[1..]
  {
    ChainThenRest(t, Items(words, false), {});
    assert Words(Items(words, false)[1..]) == words[1..];
  }

  /**
   * A value that ends in a blank and starts with another alias: the inner value decides whether the
   * next word is looked up, so it is not.
   */
  lemma InnerAliasForgetsTheBlank()
    ensures var t := map["a" := Alias(["b"], true), "b" := Alias(["c"], false), "x" := Alias(["y"], false)];
            ExpandAliases(t, ["a", "x"]) == ["c", "x"]
  {
    var t: Table := map["a" := Alias(["b"], true), "b" := Alias(["c"], false), "x" := Alias(["y"], false)];
    var x := Item("x", false);
    assert Items(["a", "x"], false) == [Item("a", false), x];
    assert Items(["b"], true) + [x] == [Item("b", true), x];
    assert Items(["c"], true) + [x] == [Item("c", true), x];
    assert Expand(t, [x], {"a", "b"}, false, false) == ["x"];
    assert Expand(t, [Item("c", true), x], {"a", "b"}, true, false) == ["c", "x"];
    assert {"a"} + {"b"} == {"a", "b"} && {} + {"a"} == {"a"};
    assert Expand(t, [Item("b", true), x], {"a"}, true, true) == ["c", "x"];
  }

}

// Which word behind an alias is looked up as well, when values are aliases in turn, and when that is
// the word the shell language means: the one right behind a value that ends in a blank.
module AliasBlanks {
  import opened Aliases

  function SetOf(names: seq<string>): set<string> {
    if names == [] then {} else {names[0]} + SetOf(names[1..])
  }

  predicate FromAliases(items: seq<Item>) { forall k :: 0 <= k < |items| ==> items[k].fromAlias }

  predicate Originals(items: seq<Item>) { forall k :: 0 <= k < |items| ==> !items[k].fromAlias }

  /** An alias that has not been substituted yet. */
  predicate Open(t: Table, item: Item, seen: set<string>) { item.word in t && item.word !in seen }

  /** The names substituted one after the other in command position, and the queue they leave. */
  function Settle(t: Table, queue: seq<Item>, seen: set<string>): (r: (seq<string>, seq<Item>))
    ensures forall k :: 0 <= k < |r.0| ==> r.0[k] in t
    decreases |Unseen(t, seen)|
  {
    if queue == [] || queue[0].word !in t || queue[0].word in seen then ([], queue)
    else
      var name := queue[0].word;
      SeenShrinks(t, seen, name);
      var (names, left) := Settle(t, Items(t[name].words, true) + queue[1..], seen + {name});
      ([name] + names, left)
  }

  function LastBlank(t: Table, names: seq<string>, otherwise: bool): bool
    requires forall k :: 0 <= k < |names| ==> names[k] in t
  {
    if names == [] then otherwise else t[names[|names| - 1]].endsInBlank
  }

  /** Of all the blanks on the way, only that of the last alias is remembered. */
  lemma {:induction false} OnlyTheLastBlankCounts(t: Table, queue: seq<Item>, seen: set<string>, blank: bool)
    ensures Expand(t, queue, seen, true, blank)
         == (var (names, left) := Settle(t, queue, seen);
             if left == [] then []
             else
               [left[0].word]
               + Expand(t, left[1..], seen + SetOf(names), false, LastBlank(t, names, blank) && left[0].fromAlias))
    decreases |Unseen(t, seen)|
  {
    hide Unseen, Items;
    if queue == [] {
      ExpandNothing(t, seen, true, blank);
    } else {
      hide Expand;
      ExpandStep(t, queue, seen, true, blank);
      var name := queue[0].word;
      if name in t && name !in seen {
        SeenShrinks(t, seen, name);
        var inner := Items(t[name].words, true) + queue[1..];
        OnlyTheLastBlankCounts(t, inner, seen + {name}, t[name].endsInBlank);
        var (names, left) := Settle(t, inner, seen + {name});
        assert ([name] + names)[1..] == names;
        assert seen + {name} + SetOf(names) == seen + ({name} + SetOf(names));
      } else {
        assert seen + SetOf([]) == seen;
      }
    }
  }

  lemma ExpandNothing(t: Table, seen: set<string>, next: bool, nextOriginal: bool)
    ensures Expand(t, [], seen, next, nextOriginal) == []
  {
  }

  /** Behind the command word, words of values are copied; the next original word is looked up if the blank says so. */
  lemma {:induction false} BehindTheValues(
    t: Table, values: seq<Item>, original: Item, rest: seq<Item>, seen: set<string>, blank: bool)
    requires FromAliases(values) && !original.fromAlias && Originals(rest)
    ensures Expand(t, values + ([original] + rest), seen, false, blank)
         == Words(values) + (if blank && original.word in t && original.word !in seen
                             then Expand(t, Items(t[original.word].words, true) + rest, seen + {original.word}, true,
                                         t[original.word].endsInBlank)
                             else [original.word] + Words(rest))
    decreases |values|
  {
    hide Expand, Items;
    var queue := values + ([original] + rest);
    ExpandStep(t, queue, seen, false, blank);
    if values == [] {
      assert queue == [original] + rest && queue[1..] == rest;
      OrdinaryCommand(t, rest, seen);
      NoWords();
    } else {
      assert queue[0] == values[0] && queue[1..] == values[1..] + ([original] + rest);
      BehindTheValues(t, values[1..], original, rest, seen, blank);
      assert Words(values) == [values[0].word] + Words(values[1..]);
    }
  }

  /** Words behind a chain that leaves words of its own do not take part in it. */
  lemma {:induction false} SettleAppend(t: Table, queue: seq<Item>, behind: seq<Item>, seen: set<string>)
    requires |Settle(t, queue, seen).1| > 0
    ensures var (names, left) := Settle(t, queue, seen); Settle(t, queue + behind, seen) == (names, left + behind)
    decreases |Unseen(t, seen)|
  {
    hide Unseen, Items;
    assert (queue + behind)[0] == queue[0] && (queue + behind)[1..] == queue[1..] + behind;
    var name := queue[0].word;
    if name in t && name !in seen {
      SeenShrinks(t, seen, name);
      var value := Items(t[name].words, true);
      assert value + (queue[1..] + behind) == (value + queue[1..]) + behind;
      SettleAppend(t, value + queue[1..], behind, seen + {name});
    }
  }

  lemma {:induction false} SettleKeepsAliases(t: Table, queue: seq<Item>, seen: set<string>)
    requires FromAliases(queue)
    ensures FromAliases(Settle(t, queue, seen).1)
    decreases |Unseen(t, seen)|
  {
    if queue != [] && queue[0].word in t && queue[0].word !in seen {
      var name := queue[0].word;
      SeenShrinks(t, seen, name);
      SettleKeepsAliases(t, Items(t[name].words, true) + queue[1..], seen + {name});
    }
  }

  /** The aliases substituted one inside the other for a command word, and the words they leave. */
  function Chain(t: Table, name: string): (seq<string>, seq<Item>) { Settle(t, [Item(name, false)], {}) }

  lemma ChainIsFromAliases(t: Table, name: string)
    requires name in t
    ensures |Chain(t, name).0| > 0 && FromAliases(Chain(t, name).1)
  {
    var value := Items(t[name].words, true);
    assert value + [Item(name, false)][1..] == value;
    SettleKeepsAliases(t, value, {name});
    assert {} + {name} == {name};
  }

  /**
   * On every table: behind a command word that is an alias and leaves words of its own, the next word
   * of the command is looked up exactly when the last alias of the chain ends in a blank.
   */
  lemma NextWordIsLookedUpExactly(t: Table, name: string, word: string, rest: seq<string>)
    requires name in t && |Chain(t, name).1| > 0
    ensures var (names, left) := Chain(t, name);
            && |names| > 0 && FromAliases(left)
            && ExpandAliases(t, [name, word] + rest)
               == Words(left) + (if t[names[|names| - 1]].endsInBlank && word in t && word !in SetOf(names)
                                 then Expand(t, Items(t[word].words, true) + Items(rest, false),
                                             SetOf(names) + {word}, true, t[word].endsInBlank)
                                 else [word] + rest)
  {
    hide Expand, Settle, Items, Words, SetOf;
    var names, left := Chain(t, name).0, Chain(t, name).1;
    ChainIsFromAliases(t, name);
    var next, others := Item(word, false), Items(rest, false);
    ItemsApart(name, word, rest);
    SettleAppend(t, [Item(name, false)], [next] + others, {});
    OnlyTheLastBlankCounts(t, [Item(name, false)] + ([next] + others), {}, false);
    BehindFirst(left, [next] + others);
    NothingSeen(names);
    BehindTheValues(t, left[1..], next, others, SetOf(names), LastBlank(t, names, false));
    WordsApart(left, rest);
    Regroup(left[0].word, Words(left[1..]), if LastBlank(t, names, false) && Open(t, next, SetOf(names))
                                            then Expand(t, Items(t[word].words, true) + others, SetOf(names) + {word}, true,
                                                        t[word].endsInBlank)
                                            else [word] + Words(others));
  }

  lemma BehindFirst(left: seq<Item>, more: seq<Item>)
    requires |left| > 0
    ensures |left + more| > 0 && (left + more)[0] == left[0] && (left + more)[1..] == left[1..] + more
  {
  }

  lemma NothingSeen(names: seq<string>)
    ensures {} + SetOf(names) == SetOf(names)
  {
  }

  lemma Regroup(first: string, words: seq<string>, more: seq<string>)
    ensures [first] + (words + more) == ([first] + words) + more
  {
  }

  lemma ItemsApart(name: string, word: string, rest: seq<string>)
    ensures Items([name, word] + rest, false) == [Item(name, false)] + ([Item(word, false)] + Items(rest, false))
    ensures Originals(Items(rest, false))
  {
  }

  lemma WordsApart(left: seq<Item>, rest: seq<string>)
    requires |left| > 0
    ensures Words(left) == [left[0].word] + Words(left[1..])
    ensures Words(Items(rest, false)) == rest
  {
  }

  // ----- the language's rule -----

  /** A word of the queue, and whether a value that ends in a blank was put right in front of it. */
  datatype Marked = Marked(item: Item, asked: bool)

  function Mark(items: seq<Item>): (q: seq<Marked>)
    ensures |q| == |items|
  {
    seq(|items|, k requires 0 <= k < |items| => Marked(items[k], false))
  }

  function Unmark(q: seq<Marked>): (items: seq<Item>)
    ensures |items| == |q|
  {
    seq(|q|, k requires 0 <= k < |q| => q[k].item)
  }

  /** The first word is asked for behind a blank. */
  function Ask(q: seq<Marked>, blank: bool): (r: seq<Marked>)
    ensures |r| == |q| && Unmark(r) == Unmark(q)
  {
    if blank && q != [] then [Marked(q[0].item, true)] + q[1..] else q
  }

  /** The queue after a substitution at its head. */
  function Put(t: Table, q: seq<Marked>): seq<Marked>
    requires q != [] && q[0].item.word in t
  {
    var alias := t[q[0].item.word];
    Mark(Items(alias.words, true)) + Ask(q[1..], alias.endsInBlank)
  }

  /** Substitution by the rule: the word in command position, and every word right behind a value that
      ends in a blank, is looked up, and its value's first word in turn. */
  function RuleExpand(t: Table, q: seq<Marked>, seen: set<string>, next: bool): seq<string>
    decreases |Unseen(t, seen)|, |q|
  {
    if q == [] then []
    else if (next || q[0].asked) && Open(t, q[0].item, seen) then
      SeenShrinks(t, seen, q[0].item.word);
      RuleExpand(t, Put(t, q), seen + {q[0].item.word}, true)
    else [q[0].item.word] + RuleExpand(t, q[1..], seen, false)
  }

  /** The substitutions it makes. */
  function RuleUses(t: Table, q: seq<Marked>, seen: set<string>, next: bool, at: nat): (uses: seq<Use>)
    ensures forall k :: 0 <= k < |uses| ==> uses[k].at >= at
    decreases |Unseen(t, seen)|, |q|
  {
    if q == [] then []
    else if (next || q[0].asked) && Open(t, q[0].item, seen) then
      SeenShrinks(t, seen, q[0].item.word);
      [Use(at, q[0].item.word)] + RuleUses(t, Put(t, q), seen + {q[0].item.word}, true, at)
    else RuleUses(t, q[1..], seen, false, at + 1)
  }

  // ----- the chain of the command word -----

  /** For every substitution of the chain: how many words then stood behind the word substituted. */
  function Outer(t: Table, queue: seq<Item>, seen: set<string>): (outer: seq<nat>)
    ensures |outer| == |Settle(t, queue, seen).0|
    decreases |Unseen(t, seen)|
  {
    if queue == [] || !Open(t, queue[0], seen) then []
    else
      var name := queue[0].word;
      SeenShrinks(t, seen, name);
      [|queue| - 1] + Outer(t, Items(t[name].words, true) + queue[1..], seen + {name})
  }

  /** No substitution reached the last `s` words of the queue. */
  predicate Untouched(outer: seq<nat>, s: nat) { forall k :: 0 <= k < |outer| ==> outer[k] >= s }

  /** The value of `names[i]` ends in a blank, and was put in front of the last `s` words, which stayed behind. */
  predicate Asks(t: Table, names: seq<string>, outer: seq<nat>, i: nat, s: nat)
    requires i < |names| == |outer| && names[i] in t
  {
    t[names[i]].endsInBlank && outer[i] == s && Untouched(outer[i + 1..], s)
  }

  predicate AskedBy(t: Table, names: seq<string>, outer: seq<nat>, s: nat)
    requires |outer| == |names| && forall k :: 0 <= k < |names| ==> names[k] in t
  {
    exists i :: 0 <= i < |names| && Asks(t, names, outer, i, s)
  }

  lemma AskedByStep(t: Table, names: seq<string>, outer: seq<nat>, s: nat)
    requires |outer| == |names| && (forall k :: 0 <= k < |names| ==> names[k] in t) && names != []
    ensures AskedBy(t, names, outer, s) <==> Asks(t, names, outer, 0, s) || AskedBy(t, names[1..], outer[1..], s)
  {
    forall i | 0 <= i < |names| - 1 ensures Asks(t, names[1..], outer[1..], i, s) <==> Asks(t, names, outer, i + 1, s) {
      assert outer[1..][i + 1..] == outer[i + 2..];
    }
    if AskedBy(t, names, outer, s) {
      var i :| 0 <= i < |names| && Asks(t, names, outer, i, s);
      assert i > 0 ==> Asks(t, names[1..], outer[1..], i - 1, s);
    }
  }

  /** The marked queue that the chain leaves. */
  function MarkedSettle(t: Table, q: seq<Marked>, seen: set<string>): (left: seq<Marked>)
    ensures Unmark(left) == Settle(t, Unmark(q), seen).1
    decreases |Unseen(t, seen)|
  {
    if q == [] || !Open(t, q[0].item, seen) then q
    else
      var name := q[0].item.word;
      SeenShrinks(t, seen, name);
      assert Unmark(Put(t, q)) == Items(t[name].words, true) + Unmark(q)[1..];
      MarkedSettle(t, Put(t, q), seen + {name})
  }

  /** The mark of the word behind which `s` - 1 words follow, if it is not the first. */
  predicate WasAsked(q: seq<Marked>, s: nat) { 0 < s < |q| && q[|q| - s].asked }

  lemma PutAsks(t: Table, q: seq<Marked>, s: nat)
    requires q != [] && q[0].item.word in t && 0 < s < |Put(t, q)|
    ensures WasAsked(Put(t, q), s) <==> WasAsked(q, s) || (t[q[0].item.word].endsInBlank && s == |q| - 1)
  {
  }

  /** A word behind the chain is marked if and only if some value that ends in a blank was put right in front of it. */
  lemma {:induction false} AskedExactly(t: Table, q: seq<Marked>, seen: set<string>, k: nat)
    requires 1 <= k < |MarkedSettle(t, q, seen)|
    ensures var left := MarkedSettle(t, q, seen); var s, queue := |left| - k, Unmark(q);
            left[k].asked <==> (WasAsked(q, s) && Untouched(Outer(t, queue, seen), s))
                               || AskedBy(t, Settle(t, queue, seen).0, Outer(t, queue, seen), s)
    decreases |Unseen(t, seen)|
  {
    hide Put, Unseen, Asks, AskedBy;
    if q == [] || !Open(t, q[0].item, seen) {
      NothingAsks(t, |q| - k);
    } else {
      var name := q[0].item.word;
      SeenShrinks(t, seen, name);
      var next, s := Put(t, q), |MarkedSettle(t, q, seen)| - k;
      AskedExactly(t, next, seen + {name}, k);
      PutQueue(t, q);
      var names, outer := Settle(t, Unmark(q), seen).0, Outer(t, Unmark(q), seen);
      var names', outer' := Settle(t, Unmark(next), seen + {name}).0, Outer(t, Unmark(next), seen + {name});
      assert names[1..] == names' && outer[1..] == outer' && outer[0] == |q| - 1;
      AskedByStep(t, names, outer, s);
      AsksFirst(t, names, outer, s);
      UntouchedStep(outer, s);
      if s < |next| {
        PutAsks(t, q, s);
      } else {
        NewWords(t, next, seen + {name}, s);
      }
    }
  }

  lemma NothingAsks(t: Table, s: nat)
    ensures !AskedBy(t, [], [], s) && Untouched([], s)
  {
  }

  lemma PutQueue(t: Table, q: seq<Marked>)
    requires q != [] && q[0].item.word in t
    ensures Unmark(Put(t, q)) == Items(t[q[0].item.word].words, true) + Unmark(q)[1..]
    ensures |Put(t, q)| == |t[q[0].item.word].words| + |q| - 1
  {
  }

  lemma AsksFirst(t: Table, names: seq<string>, outer: seq<nat>, s: nat)
    requires 0 < |names| == |outer| && names[0] in t
    ensures Asks(t, names, outer, 0, s) <==> t[names[0]].endsInBlank && outer[0] == s && Untouched(outer[1..], s)
  {
  }

  lemma UntouchedStep(outer: seq<nat>, s: nat)
    requires outer != []
    ensures Untouched(outer, s) <==> outer[0] >= s && Untouched(outer[1..], s)
  {
    assert outer == [outer[0]] + outer[1..];
  }

  /** A word that is left where the head of the queue was, or in front of it, comes from a later value. */
  lemma NewWords(t: Table, q: seq<Marked>, seen: set<string>, s: nat)
    requires |q| <= s < |MarkedSettle(t, q, seen)|
    ensures !Untouched(Outer(t, Unmark(q), seen), s)
  {
    assert Outer(t, Unmark(q), seen)[0] == |q| - 1;
  }

  // ----- when the loop makes the substitutions the rule asks for -----

  /** Where words of values end and words of the command begin. */
  function Aliased(items: seq<Item>): (n: nat)
    ensures n <= |items| && (n < |items| ==> !items[n].fromAlias)
    ensures forall k :: 0 <= k < n ==> items[k].fromAlias
  {
    if items == [] || !items[0].fromAlias then 0 else Aliased(items[1..]) + 1
  }

  /** The place behind the chain that the loop looks up: the first word of the command, if the last value
      ends in a blank and left a word in front; 0 if there is none. */
  function ShellPlace(t: Table, names: seq<string>, left: seq<Item>): (p: nat)
    requires forall k :: 0 <= k < |names| ==> names[k] in t
    ensures p <= |left| && (p > 0 ==> p == Aliased(left) < |left|)
  {
    if LastBlank(t, names, false) && Aliased(left) < |left| then Aliased(left) else 0
  }

  lemma UnseenSettle(t: Table, queue: seq<Item>, seen: set<string>)
    ensures var names := Settle(t, queue, seen).0;
            |Unseen(t, seen + SetOf(names))| <= |Unseen(t, seen)|
            && (names != [] ==> |Unseen(t, seen + SetOf(names))| < |Unseen(t, seen)|)
  {
    var names := Settle(t, queue, seen).0;
    if names != [] {
      SeenShrinks(t, seen, names[0]);
      Fewer(Unseen(t, seen + SetOf(names)), Unseen(t, seen + {names[0]}));
    } else {
      assert seen + SetOf(names) == seen;
    }
  }

  lemma {:induction false} Fewer(a: set<string>, b: set<string>)
    requires a <= b
    ensures |a| <= |b|
  {
    if a != {} {
      var x :| x in a;
      Fewer(a - {x}, b - {x});
    }
  }

  /** Of the words behind the chain that are aliases not yet used, a value that ends in a blank was put in
      front of the one at `p`, and of no other. */
  predicate AsksFor(t: Table, names: seq<string>, outer: seq<nat>, left: seq<Item>, now: set<string>, p: nat)
    requires |outer| == |names| && forall k :: 0 <= k < |names| ==> names[k] in t
  {
    forall k :: 1 <= k < |left| && Open(t, left[k], now) ==> (AskedBy(t, names, outer, |left| - k) <==> k == p)
  }

  /** The rule asks for exactly the one place that the loop looks up; and so on from that place. */
  predicate Agrees(t: Table, queue: seq<Item>, seen: set<string>)
    decreases |Unseen(t, seen)|, |queue|
  {
    var (names, left) := Settle(t, queue, seen);
    var now, p := seen + SetOf(names), ShellPlace(t, names, left);
    && AsksFor(t, names, Outer(t, queue, seen), left, now, p)
    && (p > 0 && Open(t, left[p], now) ==>
          (UnseenSettle(t, queue, seen);
           Agrees(t, left[p..], now)))
  }

  // ----- both on the chain -----

  function ChainUses(names: seq<string>, at: nat): seq<Use> {
    seq(|names|, k requires 0 <= k < |names| => Use(at, names[k]))
  }

  lemma ChainUsesStep(name: string, names: seq<string>, at: nat, more: seq<Use>)
    ensures [Use(at, name)] + (ChainUses(names, at) + more) == ChainUses([name] + names, at) + more
  {
  }

  lemma NoChainUses(at: nat, more: seq<Use>)
    ensures ChainUses([], at) + more == more
  {
  }

  lemma {:induction false} UsesSettle(t: Table, queue: seq<Item>, seen: set<string>, blank: bool, at: nat)
    ensures var (names, left) := Settle(t, queue, seen);
            (Uses(t, queue, seen, true, blank, at)
             == ChainUses(names, at)
                + (if left == [] then []
                   else Uses(t, left[1..], seen + SetOf(names), false, LastBlank(t, names, blank) && left[0].fromAlias, at + 1)))
    decreases |Unseen(t, seen)|
  {
    hide Unseen, Items, ChainUses;
    if queue == [] || !Open(t, queue[0], seen) {
      assert seen + SetOf([]) == seen;
      NoChainUses(at, Uses(t, queue, seen, true, blank, at));
    } else {
      var name := queue[0].word;
      SeenShrinks(t, seen, name);
      var inner := Items(t[name].words, true) + queue[1..];
      UsesSettle(t, inner, seen + {name}, t[name].endsInBlank, at);
      var (names, left) := Settle(t, inner, seen + {name});
      assert ([name] + names)[1..] == names;
      assert seen + {name} + SetOf(names) == seen + ({name} + SetOf(names));
      var more := if left == [] then []
                  else Uses(t, left[1..], seen + {name} + SetOf(names), false,
                            LastBlank(t, names, t[name].endsInBlank) && left[0].fromAlias, at + 1);
      ChainUsesStep(name, names, at, more);
    }
  }

  lemma {:induction false} RuleSettle(t: Table, q: seq<Marked>, seen: set<string>, at: nat)
    ensures var names, left := Settle(t, Unmark(q), seen).0, MarkedSettle(t, q, seen);
            (RuleUses(t, q, seen, true, at)
             == ChainUses(names, at)
                + (if left == [] then [] else RuleUses(t, left[1..], seen + SetOf(names), false, at + 1)))
    decreases |Unseen(t, seen)|
  {
    hide Unseen, Items, ChainUses, Put;
    if q == [] || !Open(t, q[0].item, seen) {
      assert seen + SetOf([]) == seen;
      NoChainUses(at, RuleUses(t, q, seen, true, at));
    } else {
      var name := q[0].item.word;
      SeenShrinks(t, seen, name);
      RuleSettle(t, Put(t, q), seen + {name}, at);
      PutQueue(t, q);
      var names, left := Settle(t, Unmark(Put(t, q)), seen + {name}).0, MarkedSettle(t, q, seen);
      assert Settle(t, Unmark(q), seen).0 == [name] + names;
      assert ([name] + names)[1..] == names;
      assert seen + {name} + SetOf(names) == seen + ({name} + SetOf(names));
      ChainUsesStep(name, names, at,
                    if left == [] then [] else RuleUses(t, left[1..], seen + {name} + SetOf(names), false, at + 1));
    }
  }

  // ----- both behind the chain -----

  /** Words of values come first, and no word behind a word of the command is marked. */
  predicate Layered(q: seq<Marked>) {
    forall k :: 0 < k < |q| && !q[k - 1].item.fromAlias ==> !q[k].item.fromAlias && !q[k].asked
  }

  lemma PutLayered(t: Table, q: seq<Marked>)
    requires q != [] && q[0].item.word in t && Layered(q)
    ensures Layered(Put(t, q))
  {
    var value, rest := t[q[0].item.word].words, q[1..];
    var put := Put(t, q);
    forall k | 0 < k < |put| && !put[k - 1].item.fromAlias ensures !put[k].item.fromAlias && !put[k].asked {
      assert k > |value|;
      assert q[k - |value|].item == put[k - 1].item && q[k - |value| + 1] == put[k];
    }
  }

  lemma {:induction false} SettleLayered(t: Table, q: seq<Marked>, seen: set<string>)
    requires Layered(q)
    ensures Layered(MarkedSettle(t, q, seen))
    decreases |Unseen(t, seen)|
  {
    hide Put, Layered;
    if q != [] && Open(t, q[0].item, seen) {
      SeenShrinks(t, seen, q[0].item.word);
      PutLayered(t, q);
      SettleLayered(t, Put(t, q), seen + {q[0].item.word});
    }
  }

  predicate Unmarked(q: seq<Marked>) { forall k :: 0 <= k < |q| ==> !q[k].asked && !q[k].item.fromAlias }

  /** Words of the command that nothing asks for stay. */
  lemma {:induction false} NothingUsed(t: Table, q: seq<Marked>, seen: set<string>, at: nat)
    requires Unmarked(q)
    ensures Uses(t, Unmark(q), seen, false, false, at) == [] && RuleUses(t, q, seen, false, at) == []
    decreases |q|
  {
    if q != [] {
      assert Unmark(q)[1..] == Unmark(q[1..]);
      NothingUsed(t, q[1..], seen, at + 1);
    }
  }

  predicate AllFrom(uses: seq<Use>, at: nat) { forall k :: 0 <= k < |uses| ==> uses[k].at >= at }

  lemma UsesFrom(t: Table, queue: seq<Item>, seen: set<string>, blank: bool, at: nat)
    ensures AllFrom(Uses(t, queue, seen, false, blank, at), at)
  {
    UsesAreDistinct(t, queue, seen, false, blank, at);
  }

  /** What the two look up behind the chain, where `blank` says whether the loop looks a word of the command up. */
  predicate TailAgrees(t: Table, q: seq<Marked>, seen: set<string>, blank: bool) {
    var a := Aliased(Unmark(q));
    && (forall k :: 0 <= k < a && Open(t, q[k].item, seen) ==> !q[k].asked)
    && (a < |q| && Open(t, q[a].item, seen) ==> q[a].asked == blank && (blank ==> Agrees(t, Unmark(q)[a..], seen)))
  }

  lemma AliasedStep(q: seq<Marked>)
    requires q != [] && q[0].item.fromAlias
    ensures var a := Aliased(Unmark(q));
            && a >= 1 && Aliased(Unmark(q[1..])) == a - 1 && (forall k :: 1 <= k < a ==> q[k].item.fromAlias)
            && Unmark(q)[a..] == Unmark(q[1..])[a - 1..] && (a < |q| ==> !q[a].item.fromAlias)
  {
    assert Unmark(q)[1..] == Unmark(q[1..]);
    var a := Aliased(Unmark(q));
    assert Unmark(q)[1..][a - 1..] == Unmark(q)[a..];
    assert forall k :: 0 <= k < |q| ==> Unmark(q)[k] == q[k].item;
  }

  lemma TailStep(t: Table, q: seq<Marked>, seen: set<string>, blank: bool)
    requires q != [] && q[0].item.fromAlias
    ensures TailAgrees(t, q, seen, blank) <==> (Open(t, q[0].item, seen) ==> !q[0].asked) && TailAgrees(t, q[1..], seen, blank)
  {
    AliasedStep(q);
    hide Agrees, Open, Aliased, Unmark;
    var rest := q[1..];
    assert forall k :: 0 <= k < |rest| ==> rest[k] == q[k + 1];
    assert forall k :: 1 <= k < |q| ==> q[k] == rest[k - 1];
  }

  /** A marked or looked-up word of the command starts a chain of its own. */
  lemma NextChain(t: Table, q: seq<Marked>, seen: set<string>, blank: bool, at: nat)
    requires q != [] && !q[0].item.fromAlias && Unmarked(q[1..])
    ensures var queue := Unmark(q);
            && (blank && Open(t, q[0].item, seen) ==>
                  Uses(t, queue, seen, false, blank, at) == Uses(t, queue, seen, true, blank, at))
            && (q[0].asked && Open(t, q[0].item, seen) ==>
                  RuleUses(t, q, seen, false, at) == RuleUses(t, Mark(queue), seen, true, at))
  {
    var queue := Unmark(q);
    assert Mark(queue)[1..] == q[1..] && Mark(queue)[0].item == q[0].item;
    if Open(t, q[0].item, seen) {
      SeenShrinks(t, seen, q[0].item.word);
    }
  }

  /** The first word behind the chain, when it is one of the command. */
  lemma CommandWord(t: Table, q: seq<Marked>, seen: set<string>, blank: bool, at: nat)
    requires q != [] && !q[0].item.fromAlias && Unmarked(q[1..])
    ensures var queue, open := Unmark(q), Open(t, q[0].item, seen);
            var loop, rule := Uses(t, queue, seen, false, blank, at), RuleUses(t, q, seen, false, at);
            && (!(blank && open) ==> loop == []) && (!(q[0].asked && open) ==> rule == [])
            && (blank && open ==> loop != []) && (q[0].asked && open ==> rule != [])
  {
    assert Unmark(q)[1..] == Unmark(q[1..]);
    NothingUsed(t, q[1..], seen, at + 1);
    if Open(t, q[0].item, seen) {
      SeenShrinks(t, seen, q[0].item.word);
    }
  }

  lemma {:induction false} TailSame(t: Table, q: seq<Marked>, seen: set<string>, blank: bool, at: nat)
    requires Layered(q)
    ensures Uses(t, Unmark(q), seen, false, blank, at) == RuleUses(t, q, seen, false, at) <==> TailAgrees(t, q, seen, blank)
    decreases |Unseen(t, seen)|, |q|, 2
  {
    hide Agrees, Unseen;
    if q == [] {
    } else if q[0].item.fromAlias {
      TailStep(t, q, seen, blank);
      assert Unmark(q)[1..] == Unmark(q[1..]);
      UsesFrom(t, Unmark(q[1..]), seen, blank, at + 1);
      TailSame(t, q[1..], seen, blank, at + 1);
      AliasWord(t, q, seen, blank, at);
    } else {
      RestIsUnmarked(q);
      CommandWord(t, q, seen, blank, at);
      NextChain(t, q, seen, blank, at);
      assert Aliased(Unmark(q)) == 0 && Unmark(q)[0..] == Unmark(q);
      hide Uses, RuleUses, Open, Layered;
      if blank && q[0].asked && Open(t, q[0].item, seen) {
        OriginalsOf(q);
        SameUses(t, Unmark(q), seen, blank, at);
      }
    }
  }

  lemma OriginalsOf(q: seq<Marked>)
    requires q != [] && !q[0].item.fromAlias && Unmarked(q[1..])
    ensures Originals(Unmark(q))
  {
    forall k | 0 <= k < |q| ensures !Unmark(q)[k].fromAlias {
      assert k > 0 ==> q[k] == q[1..][k - 1];
    }
  }

  lemma {:induction false} RestIsUnmarked(q: seq<Marked>)
    requires Layered(q) && q != [] && !q[0].item.fromAlias
    ensures Unmarked(q[1..])
    decreases |q|
  {
    if |q| > 1 {
      assert !q[1].item.fromAlias && !q[1].asked;
      forall k | 0 < k < |q[1..]| && !q[1..][k - 1].item.fromAlias ensures !q[1..][k].item.fromAlias && !q[1..][k].asked {
        assert q[1..][k - 1] == q[k] && q[1..][k] == q[k + 1];
      }
      RestIsUnmarked(q[1..]);
      assert q[1..] == [q[1]] + q[1..][1..];
    }
  }

  /** The first word behind the chain, when it is one of a value. */
  lemma AliasWord(t: Table, q: seq<Marked>, seen: set<string>, blank: bool, at: nat)
    requires q != [] && q[0].item.fromAlias
    requires AllFrom(Uses(t, Unmark(q[1..]), seen, false, blank, at + 1), at + 1)
    ensures if q[0].asked && Open(t, q[0].item, seen)
            then Uses(t, Unmark(q), seen, false, blank, at) != RuleUses(t, q, seen, false, at)
            else Uses(t, Unmark(q), seen, false, blank, at) == Uses(t, Unmark(q[1..]), seen, false, blank, at + 1)
                 && RuleUses(t, q, seen, false, at) == RuleUses(t, q[1..], seen, false, at + 1)
  {
    assert Unmark(q)[1..] == Unmark(q[1..]);
    if q[0].asked && Open(t, q[0].item, seen) {
      SeenShrinks(t, seen, q[0].item.word);
      assert RuleUses(t, q, seen, false, at)[0] == Use(at, q[0].item.word);
    }
  }

  lemma SettleNothing(t: Table, queue: seq<Item>, seen: set<string>)
    ensures var (names, left) := Settle(t, queue, seen); names == [] ==> left == queue
  {
  }

  lemma NothingMarked(queue: seq<Item>, s: nat)
    ensures Unmark(Mark(queue)) == queue && !WasAsked(Mark(queue), s)
  {
  }

  /** Nothing in a command is marked to begin with. */
  lemma AskedBehind(t: Table, queue: seq<Item>, seen: set<string>, k: nat)
    requires 1 <= k < |Settle(t, queue, seen).1|
    ensures |MarkedSettle(t, Mark(queue), seen)| == |Settle(t, queue, seen).1|
    ensures MarkedSettle(t, Mark(queue), seen)[k].asked
       <==> AskedBy(t, Settle(t, queue, seen).0, Outer(t, queue, seen), |Settle(t, queue, seen).1| - k)
  {
    hide *;
    MarkedLeft(t, queue, seen);
    NothingMarked(queue, |Settle(t, queue, seen).1| - k);
    AskedExactly(t, Mark(queue), seen, k);
  }

  lemma MarkLayered(queue: seq<Item>)
    requires Originals(queue)
    ensures Layered(Mark(queue))
  {
  }

  /** The same, said of the marks. */
  predicate MarksFor(t: Table, q: seq<Marked>, now: set<string>, p: nat) {
    forall k :: 1 <= k < |q| && Open(t, q[k].item, now) ==> (q[k].asked <==> k == p)
  }

  lemma MarksAndAsks(t: Table, queue: seq<Item>, seen: set<string>, now: set<string>, p: nat)
    ensures var (names, left) := Settle(t, queue, seen);
            MarksFor(t, MarkedSettle(t, Mark(queue), seen), now, p) <==> AsksFor(t, names, Outer(t, queue, seen), left, now, p)
  {
    var names, left, outer := Settle(t, queue, seen).0, Settle(t, queue, seen).1, Outer(t, queue, seen);
    var marked := MarkedSettle(t, Mark(queue), seen);
    MarkedLeft(t, queue, seen);
    hide *;
    forall k | 1 <= k < |left| ensures marked[k].asked <==> AskedBy(t, names, outer, |left| - k) {
      AskedBehind(t, queue, seen, k);
    }
    SameMarks(t, marked, names, outer, left, now, p);
  }

  lemma MarkedLeft(t: Table, queue: seq<Item>, seen: set<string>)
    ensures Unmark(MarkedSettle(t, Mark(queue), seen)) == Settle(t, queue, seen).1
  {
    assert Unmark(Mark(queue)) == queue;
  }

  lemma SameMarks(t: Table, marked: seq<Marked>, names: seq<string>, outer: seq<nat>, left: seq<Item>, now: set<string>, p: nat)
    requires |outer| == |names| && (forall k :: 0 <= k < |names| ==> names[k] in t) && Unmark(marked) == left
    requires forall k :: 1 <= k < |left| ==> (marked[k].asked <==> AskedBy(t, names, outer, |left| - k))
    ensures MarksFor(t, marked, now, p) <==> AsksFor(t, names, outer, left, now, p)
  {
    hide AskedBy, Open;
    assert forall k :: 0 <= k < |left| ==> left[k] == marked[k].item;
  }

  /** The words behind the first one, when the chain left a word of a value in front. */
  lemma BehindAlias(t: Table, q: seq<Marked>, now: set<string>, blank: bool)
    requires q != [] && q[0].item.fromAlias && Layered(q)
    ensures var a := Aliased(Unmark(q)); var p := if blank && a < |q| then a else 0;
            && a >= 1
            && (TailAgrees(t, q[1..], now, blank)
                <==> MarksFor(t, q, now, p) && (p > 0 && Open(t, q[p].item, now) ==> Agrees(t, Unmark(q)[p..], now)))
  {
    var a, rest := Aliased(Unmark(q)), q[1..];
    AliasedStep(q);
    MarksBehind(q, a);
    MarksForStep(t, q, now, blank, a);
    hide *;
  }

  lemma MarksBehind(q: seq<Marked>, a: nat)
    requires Layered(q) && a <= |q| && (a < |q| ==> !q[a].item.fromAlias)
    ensures forall k :: a < k < |q| ==> !q[k].asked
  {
    if a < |q| {
      TailLayered(q, a);
      RestIsUnmarked(q[a..]);
      forall k | a < k < |q| ensures !q[k].asked {
        assert q[k] == q[a..][1..][k - a - 1];
      }
    }
  }

  lemma MarksForStep(t: Table, q: seq<Marked>, now: set<string>, blank: bool, a: nat)
    requires q != [] && 1 <= a <= |q| && Aliased(Unmark(q[1..])) == a - 1
    requires Unmark(q)[a..] == Unmark(q[1..])[a - 1..] && forall k :: a < k < |q| ==> !q[k].asked
    ensures var p := if blank && a < |q| then a else 0;
            TailAgrees(t, q[1..], now, blank)
            <==> MarksFor(t, q, now, p) && (p > 0 && Open(t, q[p].item, now) ==> Agrees(t, Unmark(q)[p..], now))
  {
    hide Agrees, Open, Aliased, Unmark;
    var rest := q[1..];
    assert forall k :: 1 <= k < |q| ==> q[k] == rest[k - 1];
    assert forall k :: 0 <= k < |rest| ==> rest[k] == q[k + 1];
  }

  lemma TailLayered(q: seq<Marked>, a: nat)
    requires Layered(q) && a <= |q|
    ensures Layered(q[a..])
  {
    forall k | 0 < k < |q[a..]| && !q[a..][k - 1].item.fromAlias ensures !q[a..][k].item.fromAlias && !q[a..][k].asked {
      assert q[a..][k - 1] == q[a + k - 1] && q[a..][k] == q[a + k];
    }
  }

  /** When a word of the command stands in front, nothing behind it is asked for. */
  lemma BehindCommandWord(t: Table, q: seq<Marked>, now: set<string>)
    requires q != [] && !q[0].item.fromAlias && Layered(q)
    ensures TailAgrees(t, q[1..], now, false) && Aliased(Unmark(q)) == 0 && MarksFor(t, q, now, 0)
  {
    RestIsUnmarked(q);
    assert forall k :: 1 <= k < |q| ==> q[k] == q[1..][k - 1];
    OriginalsOf(q);
    var a := Aliased(Unmark(q[1..]));
    assert a < |q| - 1 ==> !q[1..][a].asked;
    assert forall k :: 0 <= k < |q| - 1 ==> !Unmark(q[1..])[k].fromAlias;
  }

  /** The condition, from what the chain leaves. */
  lemma AgreesBehind(t: Table, queue: seq<Item>, seen: set<string>, blank: bool)
    requires Originals(queue) && Settle(t, queue, seen).1 != []
    ensures var (names, left) := Settle(t, queue, seen); var marked := MarkedSettle(t, Mark(queue), seen);
            |marked| == |left| && Layered(marked[1..])
            && (TailAgrees(t, marked[1..], seen + SetOf(names), LastBlank(t, names, blank) && left[0].fromAlias)
                <==> Agrees(t, queue, seen))
  {
    var (names, left) := Settle(t, queue, seen);
    var marked, outer, now := MarkedSettle(t, Mark(queue), seen), Outer(t, queue, seen), seen + SetOf(names);
    assert Unmark(Mark(queue)) == queue && Unmark(marked) == left;
    MarkLayered(queue);
    SettleLayered(t, Mark(queue), seen);
    TailLayered(marked, 1);
    SettleNothing(t, queue, seen);
    assert left[0].fromAlias ==> names != [];
    assert names != [] ==> LastBlank(t, names, blank) == LastBlank(t, names, false);
    var p := ShellPlace(t, names, left);
    assert p == if LastBlank(t, names, false) && Aliased(left) < |left| then Aliased(left) else 0;
    AgreesIs(t, queue, seen);
    MarksAndAsks(t, queue, seen, now, p);
    assert forall k :: 0 <= k < |left| ==> left[k] == marked[k].item;
    hide *;
    if left[0].fromAlias {
      BehindAlias(t, marked, now, LastBlank(t, names, blank));
    } else {
      BehindCommandWord(t, marked, now);
    }
  }

  lemma AgreesIs(t: Table, queue: seq<Item>, seen: set<string>)
    ensures var names, left, outer := Settle(t, queue, seen).0, Settle(t, queue, seen).1, Outer(t, queue, seen);
            var now, p := seen + SetOf(names), ShellPlace(t, names, left);
            Agrees(t, queue, seen) <==>
              (AsksFor(t, names, outer, left, now, p)
               && (p > 0 && Open(t, left[p], now) ==> Agrees(t, left[p..], now)))
  {
    hide Settle, Outer, ShellPlace, Open, AsksFor, SetOf;
  }

  /** From a word in command position: the same substitutions if and only if the condition holds. */
  lemma {:induction false} SameUses(t: Table, queue: seq<Item>, seen: set<string>, blank: bool, at: nat)
    requires Originals(queue)
    ensures Uses(t, queue, seen, true, blank, at) == RuleUses(t, Mark(queue), seen, true, at) <==> Agrees(t, queue, seen)
    decreases |Unseen(t, seen)|, |queue|, 1
  {
    var q := Mark(queue);
    var names, left, marked := Settle(t, queue, seen).0, Settle(t, queue, seen).1, MarkedSettle(t, q, seen);
    assert Unmark(q) == queue;
    UsesSettle(t, queue, seen, blank, at);
    RuleSettle(t, q, seen, at);
    SettleNothing(t, queue, seen);
    UnseenSettle(t, queue, seen);
    hide *;
    if left == [] {
      NothingLeft(t, queue, seen);
    } else {
      var now, b := seen + SetOf(names), LastBlank(t, names, blank) && left[0].fromAlias;
      AgreesBehind(t, queue, seen, blank);
      TailQueue(marked);
      TailSame(t, marked[1..], now, b, at + 1);
      SameBehind(ChainUses(names, at), Uses(t, left[1..], now, false, b, at + 1), RuleUses(t, marked[1..], now, false, at + 1));
    }
  }

  lemma TailQueue(q: seq<Marked>)
    requires q != []
    ensures Unmark(q)[1..] == Unmark(q[1..])
  {
  }

  lemma NothingLeft(t: Table, queue: seq<Item>, seen: set<string>)
    requires Settle(t, queue, seen).1 == []
    ensures Agrees(t, queue, seen) && MarkedSettle(t, Mark(queue), seen) == []
  {
    assert Unmark(Mark(queue)) == queue;
  }

  lemma SameBehind(a: seq<Use>, b: seq<Use>, c: seq<Use>)
    ensures a + b == a + c <==> b == c
  {
    assert (a + b)[|a|..] == b && (a + c)[|a|..] == c;
  }

  // ----- whole commands -----

  /** What the loop substitutes in a command. */
  function LoopUses(t: Table, words: seq<string>): seq<Use> { Uses(t, Items(words, false), {}, true, false, 0) }

  /** What the rule substitutes in a command, and the words it ends with. */
  function AskedUses(t: Table, words: seq<string>): seq<Use> { RuleUses(t, Mark(Items(words, false)), {}, true, 0) }

  function RuleAliases(t: Table, words: seq<string>): seq<string> { RuleExpand(t, Mark(Items(words, false)), {}, true) }

  /** On every table the loop makes exactly the substitutions that the rule asks for if and only if, from
      chain to chain, the rule asks for the one place that the loop looks up, among the aliases still open. */
  lemma SubstitutionsAgreeExactly(t: Table, words: seq<string>)
    ensures LoopUses(t, words) == AskedUses(t, words) <==> Agrees(t, Items(words, false), {})
  {
    SameUses(t, Items(words, false), {}, false, 0);
  }

  lemma RulePut(t: Table, done: seq<string>, q: seq<Marked>)
    requires q != [] && q[0].item.word in t
    ensures var words, value := done + Words(Unmark(q)), t[q[0].item.word].words;
            && |done| < |words| && words[|done|] == q[0].item.word
            && words[..|done|] + value + words[|done| + 1..] == done + Words(Unmark(Put(t, q)))
  {
    PutQueue(t, q);
    Replace(done, Unmark(q), t[q[0].item.word].words);
  }

  /** The rule's words come from its substitutions. */
  lemma {:induction false} RuleDerives(t: Table, done: seq<string>, q: seq<Marked>, seen: set<string>, next: bool)
    ensures Derives(t, done + Words(Unmark(q)), RuleUses(t, q, seen, next, |done|), done + RuleExpand(t, q, seen, next))
    decreases |Unseen(t, seen)|, |q|
  {
    hide Unseen, Words, Put, Unmark, Derives;
    if q == [] {
      NoWords();
      DerivesNothing(t, done + Words(Unmark(q)));
      assert done + Words(Unmark(q)) == done + RuleExpand(t, q, seen, next);
    } else if (next || q[0].asked) && Open(t, q[0].item, seen) {
      var name := q[0].item.word;
      SeenShrinks(t, seen, name);
      RuleDerives(t, done, Put(t, q), seen + {name}, true);
      RulePut(t, done, q);
      DerivesStep(t, done + Words(Unmark(q)), Use(|done|, name), RuleUses(t, Put(t, q), seen + {name}, true, |done|),
                  done + RuleExpand(t, q, seen, next));
    } else {
      var more := RuleExpand(t, q[1..], seen, false);
      RuleDerives(t, done + [q[0].item.word], q[1..], seen, false);
      TailQueue(q);
      HeadItem(q);
      Advance(done, Unmark(q), more);
    }
  }

  lemma DerivesNothing(t: Table, words: seq<string>)
    ensures Derives(t, words, [], words)
  {
  }

  lemma DerivesStep(t: Table, words: seq<string>, use: Use, more: seq<Use>, result: seq<string>)
    requires use.name in t && use.at < |words| && words[use.at] == use.name
    requires Derives(t, words[..use.at] + t[use.name].words + words[use.at + 1..], more, result)
    ensures Derives(t, words, [use] + more, result)
  {
    assert ([use] + more)[0] == use && ([use] + more)[1..] == more;
  }

  lemma HeadItem(q: seq<Marked>)
    requires q != []
    ensures Unmark(q)[0] == q[0].item
  {
  }

  /** Substitutions leave one list of words. */
  lemma {:induction false} DerivesOne(t: Table, words: seq<string>, uses: seq<Use>, r: seq<string>, s: seq<string>)
    requires Derives(t, words, uses, r) && Derives(t, words, uses, s)
    ensures r == s
    decreases |uses|
  {
    if uses != [] {
      var use := uses[0];
      DerivesOne(t, words[..use.at] + t[use.name].words + words[use.at + 1..], uses[1..], r, s);
    }
  }

  /** Where it makes them, it ends with the words that the rule asks for. */
  lemma AgreeingExpandsRight(t: Table, words: seq<string>)
    requires Agrees(t, Items(words, false), {})
    ensures ExpandAliases(t, words) == RuleAliases(t, words)
  {
    var queue := Items(words, false);
    assert Unmark(Mark(queue)) == queue && [] + Words(queue) == words;
    SubstitutionsAgreeExactly(t, words);
    hide Agrees, Uses, RuleUses, RuleExpand, Expand, Derives;
    UsesDerive(t, [], queue, {}, true, false);
    RuleDerives(t, [], Mark(queue), {}, true);
    DerivesOne(t, words, LoopUses(t, words), [] + ExpandAliases(t, words), [] + RuleAliases(t, words));
    assert [] + ExpandAliases(t, words) == ExpandAliases(t, words) && [] + RuleAliases(t, words) == RuleAliases(t, words);
  }

  // ----- a command word that leaves words of its own -----

  /** Words behind the chain are behind every one of its substitutions. */
  lemma {:induction false} OuterAppend(t: Table, queue: seq<Item>, behind: seq<Item>, seen: set<string>)
    requires |Settle(t, queue, seen).1| > 0
    ensures var outer, all := Outer(t, queue, seen), Outer(t, queue + behind, seen);
            |all| == |outer| && forall k :: 0 <= k < |outer| ==> all[k] == outer[k] + |behind|
    decreases |Unseen(t, seen)|
  {
    hide Unseen, Items;
    assert (queue + behind)[0] == queue[0] && (queue + behind)[1..] == queue[1..] + behind;
    if Open(t, queue[0], seen) {
      var name := queue[0].word;
      SeenShrinks(t, seen, name);
      var value := Items(t[name].words, true);
      assert value + (queue[1..] + behind) == (value + queue[1..]) + behind;
      OuterAppend(t, value + queue[1..], behind, seen + {name});
    }
  }

  lemma AskedByShift(t: Table, names: seq<string>, outer: seq<nat>, all: seq<nat>, n: nat, s: nat)
    requires |outer| == |names| == |all| && forall k :: 0 <= k < |names| ==> names[k] in t
    requires forall k :: 0 <= k < |outer| ==> all[k] == outer[k] + n
    ensures AskedBy(t, names, all, s + n) <==> AskedBy(t, names, outer, s)
    ensures s < n ==> !AskedBy(t, names, all, s)
  {
    forall i | 0 <= i < |names| ensures Asks(t, names, all, i, s + n) <==> Asks(t, names, outer, i, s) {
      UntouchedShift(outer[i + 1..], all[i + 1..], n, s);
    }
    if AskedBy(t, names, all, s + n) {
      var i :| 0 <= i < |names| && Asks(t, names, all, i, s + n);
      assert Asks(t, names, outer, i, s);
    }
    if AskedBy(t, names, outer, s) {
      var i :| 0 <= i < |names| && Asks(t, names, outer, i, s);
      assert Asks(t, names, all, i, s + n);
    }
  }

  lemma UntouchedShift(a: seq<nat>, b: seq<nat>, n: nat, s: nat)
    requires |a| == |b| && forall k :: 0 <= k < |a| ==> b[k] == a[k] + n
    ensures Untouched(b, s + n) <==> Untouched(a, s)
  {
    if Untouched(b, s + n) {
      assert forall k :: 0 <= k < |a| ==> b[k] >= s + n;
    }
  }

  /** No value that ends in a blank was put in front of an open alias that stays behind the first word. */
  predicate ChainWords(t: Table, names: seq<string>, outer: seq<nat>, left: seq<Item>, now: set<string>)
    requires |outer| == |names| && forall k :: 0 <= k < |names| ==> names[k] in t
  {
    forall s :: 1 <= s < |left| && Open(t, left[|left| - s], now) ==> !AskedBy(t, names, outer, s)
  }

  /** Behind a chain with words of its own the marks are those of the chain, and the next word's place is theirs. */
  predicate ChainAsksFor(t: Table, name: string, word: string)
    requires name in t
  {
    var (names, left) := Chain(t, name);
    var outer, now := Outer(t, [Item(name, false)], {}), SetOf(names);
    && ChainWords(t, names, outer, left, now)
    && (Open(t, Item(word, false), now) ==> (LastBlank(t, names, false) <==> AskedBy(t, names, outer, 0)))
  }

  lemma {:induction false} AliasedThenOriginals(left: seq<Item>, behind: seq<Item>)
    requires FromAliases(left) && Originals(behind)
    ensures Aliased(left + behind) == |left|
    decreases |left|
  {
    if left == [] {
      assert left + behind == behind;
    } else {
      assert (left + behind)[0] == left[0] && (left + behind)[1..] == left[1..] + behind;
      AliasedThenOriginals(left[1..], behind);
    }
  }

  lemma AsksForIsChain(
    t: Table, names: seq<string>, outer: seq<nat>, all: seq<nat>, left: seq<Item>, behind: seq<Item>, now: set<string>, blank: bool)
    requires |outer| == |names| == |all| && (forall k :: 0 <= k < |names| ==> names[k] in t) && |left| > 0 && |behind| > 0
    requires forall k :: 0 <= k < |outer| ==> all[k] == outer[k] + |behind|
    ensures AsksFor(t, names, all, left + behind, now, if blank then |left| else 0)
       <==> ChainWords(t, names, outer, left, now)
            && (Open(t, behind[0], now) ==> (blank <==> AskedBy(t, names, outer, 0)))
  {
    var l, n, queue, p := |left|, |behind|, left + behind, if blank then |left| else 0;
    hide AskedBy, Open;
    if AsksFor(t, names, all, queue, now, p) {
      forall s | 1 <= s < l && Open(t, left[l - s], now) ensures !AskedBy(t, names, outer, s) {
        AskedByShift(t, names, outer, all, n, s);
        assert queue[l - s] == left[l - s];
      }
      AskedByShift(t, names, outer, all, n, 0);
      assert queue[l] == behind[0];
    }
    if ChainWords(t, names, outer, left, now) && (Open(t, behind[0], now) ==> (blank <==> AskedBy(t, names, outer, 0))) {
      forall k | 1 <= k < l + n && Open(t, queue[k], now) ensures AskedBy(t, names, all, l + n - k) <==> k == p {
        if k <= l {
          AskedByShift(t, names, outer, all, n, l - k);
          assert queue[k] == if k < l then left[l - (l - k)] else behind[0];
        } else {
          AskedByShift(t, names, outer, all, n, l + n - k);
        }
      }
    }
  }

  /**
   * Behind a command word whose values leave words of their own: the loop makes the substitutions that the rule asks
   * for if and only if no value that ends in a blank stands in front of an open alias among those words, the last
   * value ends in a blank exactly when some value with nothing of the others behind it does, should the next word
   * be an open alias, and the command goes on to agree from there if that word is looked up.
   */
  lemma LookUpsAgreeExactly(t: Table, name: string, word: string, rest: seq<string>)
    requires name in t && |Chain(t, name).1| > 0
    ensures var names, command := Chain(t, name).0, [name, word] + rest;
            LoopUses(t, command) == AskedUses(t, command) <==>
              ChainAsksFor(t, name, word)
              && (LastBlank(t, names, false) && Open(t, Item(word, false), SetOf(names)) ==>
                    Agrees(t, Items([word] + rest, false), SetOf(names)))
  {
    var command := [name, word] + rest;
    var queue, behind, first := Items(command, false), Items([word] + rest, false), [Item(name, false)];
    assert queue == first + behind && behind[0] == Item(word, false);
    var names, left := Chain(t, name).0, Chain(t, name).1;
    var now := SetOf(names);
    SubstitutionsAgreeExactly(t, command);
    ChainIsFromAliases(t, name);
    SettleAppend(t, first, behind, {});
    OuterAppend(t, first, behind, {});
    AliasedThenOriginals(left, behind);
    NothingSeen(names);
    AgreesIs(t, queue, {});
    AsksForIsChain(t, names, Outer(t, first, {}), Outer(t, queue, {}), left, behind, now, LastBlank(t, names, false));
    assert (left + behind)[|left|..] == behind && (left + behind)[|left|] == behind[0];
  }
}

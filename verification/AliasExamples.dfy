// Alias tables on which the loop and the rule part ways, and on which they do not against appearances.
module AliasExamples {
  import opened Aliases
  import opened AliasBlanks

  function Typed(word: string): Item { Item(word, false) }

  function FromValue(word: string): Item { Item(word, true) }

  lemma LoopReplaces(
    t: Table, queue: seq<Item>, seen: set<string>, next: bool, blank: bool, value: seq<Item>, rest: seq<Item>)
    requires queue != [] && (next || (blank && !queue[0].fromAlias)) && Open(t, queue[0], seen)
    requires Items(t[queue[0].word].words, true) == value && rest == queue[1..]
    ensures Expand(t, queue, seen, next, blank)
         == Expand(t, value + rest, seen + {queue[0].word}, true, t[queue[0].word].endsInBlank)
  {
    hide Items;
  }

  lemma LoopKeeps(t: Table, queue: seq<Item>, seen: set<string>, next: bool, blank: bool)
    requires queue != [] && !((next || (blank && !queue[0].fromAlias)) && Open(t, queue[0], seen))
    ensures Expand(t, queue, seen, next, blank)
         == [queue[0].word] + Expand(t, queue[1..], seen, false, blank && queue[0].fromAlias)
  {
    hide Items;
  }

  lemma RuleReplaces(t: Table, q: seq<Marked>, seen: set<string>, next: bool, value: seq<Item>, rest: seq<Marked>)
    requires q != [] && (next || q[0].asked) && Open(t, q[0].item, seen)
    requires Items(t[q[0].item.word].words, true) == value && rest == Ask(q[1..], t[q[0].item.word].endsInBlank)
    ensures RuleExpand(t, q, seen, next) == RuleExpand(t, Mark(value) + rest, seen + {q[0].item.word}, true)
  {
    assert Put(t, q) == Mark(value) + rest;
    hide Put;
  }

  lemma RuleKeeps(t: Table, q: seq<Marked>, seen: set<string>, next: bool)
    requires q != [] && !((next || q[0].asked) && Open(t, q[0].item, seen))
    ensures RuleExpand(t, q, seen, next) == [q[0].item.word] + RuleExpand(t, q[1..], seen, false)
  {
    hide Put;
  }

  lemma RuleEnds(t: Table, seen: set<string>, next: bool)
    ensures RuleExpand(t, [], seen, next) == []
  {
  }

  // ----- a='b foo', b='c ', x='y' -----

  function Nested(): Table {
    map["a" := Alias(["b", "foo"], false), "b" := Alias(["c"], true), "x" := Alias(["y"], false)]
  }

  lemma LoopOnNested()
    ensures ExpandAliases(Nested(), ["a", "x"]) == ["c", "foo", "y"]
  {
    var t, a, x, b, foo := Nested(), Typed("a"), Typed("x"), FromValue("b"), FromValue("foo");
    var c, y := FromValue("c"), FromValue("y");
    assert Items(["a", "x"], false) == [a, x] && Items(["b", "foo"], true) == [b, foo];
    assert Items(["c"], true) == [c] && Items(["y"], true) == [y];
    var s1, s2, s3 := {"a"}, {"a", "b"}, {"a", "b", "x"};
    assert {} + {"a"} == s1 && s1 + {"b"} == s2 && s2 + {"x"} == s3;
    assert [b, foo] + [x] == [b, foo, x] && [c] + [foo, x] == [c, foo, x] && [y] + [] == [y];
    hide Expand, Items;
    LoopReplaces(t, [a, x], {}, true, false, [b, foo], [x]);
    LoopReplaces(t, [b, foo, x], s1, true, false, [c], [foo, x]);
    LoopKeeps(t, [c, foo, x], s2, true, true);
    assert [c, foo, x][1..] == [foo, x];
    LoopKeeps(t, [foo, x], s2, false, true);
    assert [foo, x][1..] == [x];
    LoopReplaces(t, [x], s2, false, true, [y], []);
    LoopKeeps(t, [y], s3, true, false);
    ExpandNothing(t, s3, false, false);
  }

  lemma RuleOnNested()
    ensures RuleAliases(Nested(), ["a", "x"]) == ["c", "foo", "x"]
  {
    var t, x := Nested(), Marked(Typed("x"), false);
    var foo, asked := Marked(FromValue("foo"), false), Marked(FromValue("foo"), true);
    var a, b, c := Marked(Typed("a"), false), Marked(FromValue("b"), false), Marked(FromValue("c"), false);
    assert Mark(Items(["a", "x"], false)) == [a, x];
    assert Items(["b", "foo"], true) == [b.item, foo.item] && Items(["c"], true) == [c.item];
    assert [a, x][1..] == [x] && [b, foo, x][1..] == [foo, x] && [foo, x][1..] == [x];
    assert Ask([x], false) == [x] && Ask([foo, x], true) == [asked, x];
    assert Mark([b.item, foo.item]) + [x] == [b, foo, x] && Mark([c.item]) + [asked, x] == [c, asked, x];
    assert [c, asked, x][1..] == [asked, x] && [asked, x][1..] == [x] && [x][1..] == [];
    var s1, s2 := {"a"}, {"a", "b"};
    assert {} + {"a"} == s1 && s1 + {"b"} == s2;
    hide RuleExpand, Mark, Ask, Items;
    RuleReplaces(t, [a, x], {}, true, [b.item, foo.item], [x]);
    RuleReplaces(t, [b, foo, x], s1, true, [c.item], [asked, x]);
    RuleKeeps(t, [c, asked, x], s2, true);
    RuleKeeps(t, [asked, x], s2, false);
    RuleKeeps(t, [x], s2, false);
    RuleEnds(t, s2, false);
  }

  /** The blank of b stands in front of foo, yet the x behind a is substituted. */
  lemma BlankInsideAValueReachesOut()
    ensures ExpandAliases(Nested(), ["a", "x"]) == ["c", "foo", "y"] && RuleAliases(Nested(), ["a", "x"]) == ["c", "foo", "x"]
  {
    LoopOnNested();
    RuleOnNested();
  }

  // ----- a='b foo', b='', foo='c ', x='y' -----

  function WithEmpty(): Table {
    map["a" := Alias(["b", "foo"], false), "b" := Alias([], false), "foo" := Alias(["c"], true), "x" := Alias(["y"], false)]
  }

  lemma LoopOnEmpty()
    ensures ExpandAliases(WithEmpty(), ["a", "x"]) == ["c", "y"]
  {
    var t, a, x, b, foo := WithEmpty(), Typed("a"), Typed("x"), FromValue("b"), FromValue("foo");
    var c, y := FromValue("c"), FromValue("y");
    assert Items(["a", "x"], false) == [a, x] && Items(["b", "foo"], true) == [b, foo] && Items([], true) == [];
    assert Items(["c"], true) == [c] && Items(["y"], true) == [y];
    var s1, s2, s3, s4 := {"a"}, {"a", "b"}, {"a", "b", "foo"}, {"a", "b", "foo", "x"};
    assert {} + {"a"} == s1 && s1 + {"b"} == s2 && s2 + {"foo"} == s3 && s3 + {"x"} == s4;
    assert [b, foo] + [x] == [b, foo, x] && [] + [foo, x] == [foo, x] && [c] + [x] == [c, x] && [y] + [] == [y];
    hide Expand, Items;
    LoopReplaces(t, [a, x], {}, true, false, [b, foo], [x]);
    LoopReplaces(t, [b, foo, x], s1, true, false, [], [foo, x]);
    LoopReplaces(t, [foo, x], s2, true, false, [c], [x]);
    LoopKeeps(t, [c, x], s3, true, true);
    assert [c, x][1..] == [x];
    LoopReplaces(t, [x], s3, false, true, [y], []);
    LoopKeeps(t, [y], s4, true, false);
    ExpandNothing(t, s4, false, false);
  }

  lemma RuleOnEmpty()
    ensures RuleAliases(WithEmpty(), ["a", "x"]) == ["c", "y"]
  {
    var t, x, asked := WithEmpty(), Marked(Typed("x"), false), Marked(Typed("x"), true);
    var a, b, foo := Marked(Typed("a"), false), Marked(FromValue("b"), false), Marked(FromValue("foo"), false);
    var c, y := Marked(FromValue("c"), false), Marked(FromValue("y"), false);
    assert Mark(Items(["a", "x"], false)) == [a, x];
    assert Items(["b", "foo"], true) == [b.item, foo.item] && Items([], true) == [];
    assert Items(["c"], true) == [c.item] && Items(["y"], true) == [y.item];
    assert [a, x][1..] == [x] && [b, foo, x][1..] == [foo, x] && [foo, x][1..] == [x] && [c, asked][1..] == [asked];
    assert Ask([x], false) == [x] && Ask([foo, x], false) == [foo, x] && Ask([x], true) == [asked] && Ask([], false) == [];
    assert Mark([b.item, foo.item]) + [x] == [b, foo, x] && Mark([]) + [foo, x] == [foo, x];
    assert Mark([c.item]) + [asked] == [c, asked] && Mark([y.item]) + [] == [y];
    var s1, s2, s3, s4 := {"a"}, {"a", "b"}, {"a", "b", "foo"}, {"a", "b", "foo", "x"};
    assert {} + {"a"} == s1 && s1 + {"b"} == s2 && s2 + {"foo"} == s3 && s3 + {"x"} == s4;
    assert [asked][1..] == [] && [y][1..] == [];
    hide RuleExpand, Mark, Ask, Items;
    RuleReplaces(t, [a, x], {}, true, [b.item, foo.item], [x]);
    RuleReplaces(t, [b, foo, x], s1, true, [], [foo, x]);
    RuleReplaces(t, [foo, x], s2, true, [c.item], [asked]);
    RuleKeeps(t, [c, asked], s3, true);
    RuleReplaces(t, [asked], s3, false, [y.item], []);
    RuleKeeps(t, [y], s4, true);
    RuleEnds(t, s4, false);
  }

  /** The empty value of b puts foo in command position, and it is foo's blank that stands in front of x. */
  lemma EmptyValueMakesRoom()
    ensures ExpandAliases(WithEmpty(), ["a", "x"]) == ["c", "y"] && RuleAliases(WithEmpty(), ["a", "x"]) == ["c", "y"]
  {
    LoopOnEmpty();
    RuleOnEmpty();
  }

  // ----- a='b foo', b=' ', x='y' -----

  function BlankOnly(): Table {
    map["a" := Alias(["b", "foo"], false), "b" := Alias([], true), "x" := Alias(["y"], false)]
  }

  lemma LoopOnBlank()
    ensures ExpandAliases(BlankOnly(), ["a", "x"]) == ["foo", "y"]
  {
    var t, a, x, b, foo, y := BlankOnly(), Typed("a"), Typed("x"), FromValue("b"), FromValue("foo"), FromValue("y");
    assert Items(["a", "x"], false) == [a, x] && Items(["b", "foo"], true) == [b, foo] && Items([], true) == [];
    assert Items(["y"], true) == [y];
    var s1, s2, s3 := {"a"}, {"a", "b"}, {"a", "b", "x"};
    assert {} + {"a"} == s1 && s1 + {"b"} == s2 && s2 + {"x"} == s3;
    assert [b, foo] + [x] == [b, foo, x] && [] + [foo, x] == [foo, x] && [y] + [] == [y];
    hide Expand, Items;
    LoopReplaces(t, [a, x], {}, true, false, [b, foo], [x]);
    LoopReplaces(t, [b, foo, x], s1, true, false, [], [foo, x]);
    LoopKeeps(t, [foo, x], s2, true, true);
    assert [foo, x][1..] == [x];
    LoopReplaces(t, [x], s2, false, true, [y], []);
    LoopKeeps(t, [y], s3, true, false);
    ExpandNothing(t, s3, false, false);
  }

  lemma RuleOnBlank()
    ensures RuleAliases(BlankOnly(), ["a", "x"]) == ["foo", "x"]
  {
    var t, x := BlankOnly(), Marked(Typed("x"), false);
    var foo, asked := Marked(FromValue("foo"), false), Marked(FromValue("foo"), true);
    var a, b := Marked(Typed("a"), false), Marked(FromValue("b"), false);
    assert Mark(Items(["a", "x"], false)) == [a, x];
    assert Items(["b", "foo"], true) == [b.item, foo.item] && Items([], true) == [];
    assert [a, x][1..] == [x] && [b, foo, x][1..] == [foo, x] && [asked, x][1..] == [x] && [x][1..] == [];
    assert Ask([x], false) == [x] && Ask([foo, x], true) == [asked, x];
    assert Mark([b.item, foo.item]) + [x] == [b, foo, x] && Mark([]) + [asked, x] == [asked, x];
    var s1, s2 := {"a"}, {"a", "b"};
    assert {} + {"a"} == s1 && s1 + {"b"} == s2;
    hide RuleExpand, Mark, Ask, Items;
    RuleReplaces(t, [a, x], {}, true, [b.item, foo.item], [x]);
    RuleReplaces(t, [b, foo, x], s1, true, [], [asked, x]);
    RuleKeeps(t, [asked, x], s2, true);
    RuleKeeps(t, [x], s2, false);
    RuleEnds(t, s2, false);
  }

  /** The blank that is all of b stands in front of foo, which is in command position anyway; x is substituted. */
  lemma BlankAloneReachesOut()
    ensures ExpandAliases(BlankOnly(), ["a", "x"]) == ["foo", "y"] && RuleAliases(BlankOnly(), ["a", "x"]) == ["foo", "x"]
  {
    LoopOnBlank();
    RuleOnBlank();
  }
}

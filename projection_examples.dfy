/**
 * The behaviour the projection tests expect, stated for their own items and
 * expressions and proved from the general theorems.
 */
module ProjectionExamples {
  import opened ParsedExpressions
  import opened Wrappers
  import opened Documents
  import opened ProjectionParser
  import opened ProjectionOverlap
  import opened ProjectionMerge
  import opened Projection

  const NoNames: Names := map[]

  function Text(s: string): AttributeValue { Scalar(Str(s)) }
  function Number(digits: string): AttributeValue { Scalar(Num(digits)) }

  function Top(name: string): PathValue { PathValue(name, []) }

  /** The item of the top-level syntax tests: a hash key and two string attributes. */
  const FlatItem: Item := map["p" := Text("k"), "a" := Text("hello"), "b" := Text("hi")]

  /** The item of the nested-path test: `a` is `{b: [2, 4, {x: hi, y: yo}], c: 5}`. */
  const Inner: AttributeValue := Map(map["x" := Text("hi"), "y" := Text("yo")])
  const Two: AttributeValue := Number("2")
  const Four: AttributeValue := Number("4")
  const Five: AttributeValue := Number("5")
  const ListB: AttributeValue := List([Two, Four, Inner])
  const DocA: AttributeValue := Map(map["b" := ListB, "c" := Five])
  const NestedItem: Item := map["p" := Text("k"), "a" := DocA, "b" := Text("hello")]

  // ---------------------------------------------------------------------------
  // Syntax

  lemma EmptyExpressionRefused(item: Item)
    ensures Evaluate("", NoNames, item) == Err(Syntax(EmptyExpression))
  {
  }

  lemma RenderTop(name: string)
    ensures RenderPath(Top(name)) == name
  {
    assert RenderOperators([]) == [];
  }

  lemma RenderTwo(a: string, b: string)
    ensures RenderExpression([Top(a), Top(b)]) == a + "," + b
  {
    RenderTop(a);
    RenderTop(b);
    var r := RenderPaths([Top(a), Top(b)]);
    assert r == [a, b];
    assert r[1..] == [b];
    assert Join(r, ',') == a + [','] + Join([b], ',');
  }

  lemma ParseTwoTopLevel()
    ensures ParseExpression("a,b", NoNames) == Ok([Top("a"), Top("b")])
  {
    RenderTwo("a", "b");
    assert "a" + "," + "b" == "a,b";
    assert IsName("a") && IsName("b");
    ExpressionRoundTrip([Top("a"), Top("b")], NoNames);
  }

  lemma JoinTrailingComma()
    ensures Join(["a", ""], ',') == "a,"
  {
    assert ["a", ""][1..] == [""];
  }

  lemma ParseTrailingComma()
    ensures ParseExpression("a,", NoNames).Err?
  {
    var pieces := ["a", ""];
    JoinTrailingComma();
    assert Trim(pieces[1]) == [];
    assert forall piece <- pieces :: ',' !in piece;
    EmptySegmentRefused(pieces, 1, NoNames);
  }

  /** A comma with nothing after it is a syntax error. */
  lemma TrailingCommaRefused(item: Item)
    ensures Evaluate("a,", NoNames, item).Err?
  {
    ParseTrailingComma();
  }

  lemma JoinLeadingComma()
    ensures Join(["", "a"], ',') == ",a"
  {
    assert ["", "a"][1..] == ["a"];
  }

  lemma ParseLeadingComma()
    ensures ParseExpression(",a", NoNames).Err?
  {
    var pieces := ["", "a"];
    JoinLeadingComma();
    assert Trim(pieces[0]) == [];
    assert forall piece <- pieces :: ',' !in piece;
    EmptySegmentRefused(pieces, 0, NoNames);
  }

  /** A comma with nothing before it is a syntax error. */
  lemma LeadingCommaRefused(item: Item)
    ensures Evaluate(",a", NoNames, item).Err?
  {
    ParseLeadingComma();
  }

  lemma JoinDoubleComma()
    ensures Join(["a", "", "b"], ',') == "a,,b"
  {
    var pieces := ["a", "", "b"];
    assert pieces[1..] == ["", "b"];
    assert pieces[1..][1..] == ["b"];
    assert Join(pieces[1..], ',') == ",b";
  }

  lemma ParseDoubleComma()
    ensures ParseExpression("a,,b", NoNames).Err?
  {
    var pieces := ["a", "", "b"];
    JoinDoubleComma();
    assert Trim(pieces[1]) == [];
    assert forall piece <- pieces :: ',' !in piece;
    EmptySegmentRefused(pieces, 1, NoNames);
  }

  /** Two commas in a row are a syntax error. */
  lemma DoubleCommaRefused(item: Item)
    ensures Evaluate("a,,b", NoNames, item).Err?
  {
    ParseDoubleComma();
  }

  lemma TwoTopLevelRoots(a: string, b: string)
    ensures Roots([Top(a), Top(b)]) == {a, b}
  {
    var ps := [Top(a), Top(b)];
    assert forall p <- ps :: p.root == a || p.root == b;
    assert ps[0].root == a && ps[1].root == b;
  }

  lemma TwoTopLevelDistinct(a: string, b: string)
    requires a != b
    ensures NoOverlaps([Top(a), Top(b)])
  {
    var ps := [Top(a), Top(b)];
    assert Steps(ps[0])[0] != Steps(ps[1])[0];
  }

  /** Two different top-level attributes give the item restricted to them. */
  lemma ProjectTwoAttributes(item: Item, a: string, b: string)
    requires a != b
    ensures Project(item, [Top(a), Top(b)]) == map k | k in {a, b} && k in item :: item[k]
  {
    var ps := [Top(a), Top(b)];
    TwoTopLevelDistinct(a, b);
    TwoTopLevelRoots(a, b);
    assert forall p <- ps :: p.operators == [];
    TopLevelProjection(item, ps);
  }

  /** An item restricted to two attributes it has holds just those two. */
  lemma BothPresent(item: Item, a: string, b: string)
    requires a in item && b in item
    ensures (map k | k in {a, b} && k in item :: item[k]) == map[a := item[a], b := item[b]]
  {
    var restricted := map k | k in {a, b} && k in item :: item[k];
    assert restricted.Keys == {a, b};
  }

  lemma ProjectTwoTopLevel()
    ensures Project(FlatItem, [Top("a"), Top("b")]) == map["a" := Text("hello"), "b" := Text("hi")]
  {
    ProjectTwoAttributes(FlatItem, "a", "b");
    BothPresent(FlatItem, "a", "b");
  }

  /** Requesting `a,b` returns both string attributes and nothing else. */
  lemma TwoTopLevelAttributes()
    ensures Evaluate("a,b", NoNames, FlatItem) == Ok(map["a" := Text("hello"), "b" := Text("hi")])
  {
    ParseTwoTopLevel();
    TwoTopLevelDistinct("a", "b");
    ProjectTwoTopLevel();
  }

  lemma RenderOne(p: PathValue)
    ensures RenderExpression([p]) == RenderPath(p)
  {
    assert RenderPaths([p]) == [RenderPath(p)];
  }

  /** One top-level attribute, written out, gives it when the item has it and the empty item otherwise. */
  lemma OneTopLevelEvaluated(item: Item, a: string)
    requires IsName(a)
    ensures Evaluate(a, NoNames, item) == Ok(if a in item then map[a := item[a]] else map[])
  {
    var p := Top(a);
    RenderOne(p);
    RenderTop(a);
    assert PlainPath(p) && NoOverlaps([p]);
    EvaluateRendered([p], NoNames, item);
    SinglePathProjection(item, p);
    ResolveTopLevel(item, p);
  }

  /** Two different top-level attributes, written out, give the item restricted to them. */
  lemma TwoTopLevelEvaluated(item: Item, a: string, b: string)
    requires IsName(a) && IsName(b) && a != b
    ensures Evaluate(a + "," + b, NoNames, item) == Ok(map k | k in {a, b} && k in item :: item[k])
  {
    var ps := [Top(a), Top(b)];
    RenderTwo(a, b);
    TwoTopLevelDistinct(a, b);
    assert forall p <- ps :: PlainPath(p);
    EvaluateRendered(ps, NoNames, item);
    ProjectTwoAttributes(item, a, b);
  }

  /** Two different top-level attributes the item has, written out, give just those two. */
  lemma TwoPresentEvaluated(item: Item, a: string, b: string)
    requires IsName(a) && IsName(b) && a != b
    requires a in item && b in item
    ensures Evaluate(a + "," + b, NoNames, item) == Ok(map[a := item[a], b := item[b]])
  {
    TwoTopLevelEvaluated(item, a, b);
    BothPresent(item, a, b);
  }

  /** `a` on the item of the syntax tests gives `{a: hello}`. */
  lemma OneTopLevelAttribute()
    ensures Evaluate("a", NoNames, FlatItem) == Ok(map["a" := Text("hello")])
  {
    OneTopLevelEvaluated(FlatItem, "a");
  }

  // ---------------------------------------------------------------------------
  // The top-level test: an item with a hash key `p`, a sort key `c` and two
  // string attributes, and four requested lists

  const KeyedItem: Item := map["p" := Text("k"), "c" := Text("s"), "a" := Text("hello"), "b" := Text("hi")]

  /** Only a non-key attribute. */
  lemma WantedNonKey()
    ensures Evaluate("a", NoNames, KeyedItem) == Ok(map["a" := Text("hello")])
  {
    var item := KeyedItem;
    assert item["a"] == Text("hello");
    OneTopLevelEvaluated(item, "a");
  }

  /** The sort key and a non-key attribute. */
  lemma WantedSortKeyAndNonKey()
    ensures Evaluate("c,a", NoNames, KeyedItem) == Ok(map["c" := Text("s"), "a" := Text("hello")])
  {
    assert "c" + "," + "a" == "c,a";
    var item := KeyedItem;
    assert item["c"] == Text("s") && item["a"] == Text("hello");
    TwoPresentEvaluated(item, "c", "a");
  }

  /** The entire key. */
  lemma WantedKey()
    ensures Evaluate("p,c", NoNames, KeyedItem) == Ok(map["p" := Text("k"), "c" := Text("s")])
  {
    assert "p" + "," + "c" == "p,c";
    var item := KeyedItem;
    assert item["p"] == Text("k") && item["c"] == Text("s");
    TwoPresentEvaluated(item, "p", "c");
  }

  /** An attribute the item does not have gives the empty item. */
  lemma WantedNonexistent()
    ensures Evaluate("nonexistent", NoNames, KeyedItem) == Ok(map[])
  {
    var item := KeyedItem;
    assert "nonexistent" !in item && IsName("nonexistent");
    OneTopLevelEvaluated(item, "nonexistent");
  }

  lemma PaddedJoin()
    ensures Join(Pad(["a", "b"], [" ", "   "], ["  ", "  "]), ',') == " a  ,   b  "
  {
    var r := Pad(["a", "b"], [" ", "   "], ["  ", "  "]);
    assert r[0] == " a  " && r[1] == "   b  ";
    assert r == [" a  ", "   b  "];
    assert r[1..] == ["   b  "];
    assert Join(r, ',') == r[0] + [','] + Join(r[1..], ',');
  }

  lemma PaddedParse()
    ensures ParseExpression(" a  ,   b  ", NoNames) == ParseExpression("a,b", NoNames)
  {
    var segments := ["a", "b"];
    var left := [" ", "   "];
    var right := ["  ", "  "];
    PaddedJoin();
    assert Join(segments, ',') == "a,b" by {
      assert segments[1..] == ["b"];
    }
    assert forall w <- left :: AllWhitespace(w);
    assert forall w <- right :: AllWhitespace(w);
    ExpressionIgnoresWhitespace(segments, left, right, NoNames);
  }

  /** Whitespace around the names and around the comma changes nothing. */
  lemma PaddedTopLevelAttributes()
    ensures Evaluate(" a  ,   b  ", NoNames, FlatItem) == Ok(map["a" := Text("hello"), "b" := Text("hi")])
  {
    PaddedParse();
    TwoTopLevelAttributes();
  }

  lemma AliasPath(names: Names)
    requires "#name" in names
    ensures ParsePath("#name", names) == Ok(Top(names["#name"]))
  {
    assert RenderOperators([]) == [];
    assert "#" + "name" == "#name";
    assert "#" + "name" + RenderOperators([]) == "#name";
    assert IsName("name");
    AliasRoot("name", [], names);
  }

  lemma AliasSplit()
    ensures Split("#name", ',') == ["#name"]
  {
    assert Join(["#name"], ',') == "#name";
    SplitJoin(["#name"], ',');
  }

  lemma AliasTrim()
    ensures Trim("#name") == "#name"
  {
    TrimNoWhitespace("#name");
  }

  lemma ParseAlias(names: Names)
    requires "#name" in names
    ensures ParseExpression("#name", names) == Ok([Top(names["#name"])])
  {
    AliasPath(names);
    AliasSplit();
    AliasTrim();
    var segs := ["#name"];
    assert segs[0] == "#name" && segs[1..] == [];
    assert ParseSegments(segs[1..], names) == Ok([]);
    assert [Top(names["#name"])] + [] == [Top(names["#name"])];
    assert ParseSegments(["#name"], names) == Ok([Top(names["#name"])]);
  }

  /** An alias stands for the attribute name it is mapped to. */
  lemma AliasedAttribute()
    ensures Evaluate("#name", map["#name" := "a"], FlatItem) == Ok(map["a" := Text("hello")])
  {
    ParseAlias(map["#name" := "a"]);
    WholeAttribute(FlatItem, "a");
    assert NoOverlaps([Top("a")]);
  }

  lemma ParseRepeated()
    ensures ParseExpression("a,a", NoNames) == Ok([Top("a"), Top("a")])
  {
    RenderTwo("a", "a");
    assert "a" + "," + "a" == "a,a";
    assert IsName("a");
    ExpressionRoundTrip([Top("a"), Top("a")], NoNames);
  }

  /** The same attribute twice is an overlap, whatever the item. */
  lemma RepeatedAttributeRefused(item: Item)
    ensures Evaluate("a,a", NoNames, item).Err?
  {
    ParseRepeated();
    DuplicateOverlaps([Top("a"), Top("a")], 0, 1);
  }

  // ---------------------------------------------------------------------------
  // Nested paths

  function AB(rest: seq<Operator>): PathValue { PathValue("a", [Dot("b")] + rest) }

  /** Below `a.b` the nested item resolves as its list `ListB` does. */
  lemma ResolveBelowAB(rest: seq<Operator>)
    ensures Resolve(NestedItem, AB(rest)) == Walk(ListB, rest)
  {
    var top := Map(NestedItem);
    var ab := [Dot("a"), Dot("b")];
    assert Walk(top, [Dot("a")]) == Some(DocA);
    assert Walk(DocA, [Dot("b")]) == Some(ListB);
    WalkAppend(top, [Dot("a")], [Dot("b")]);
    assert [Dot("a")] + [Dot("b")] == ab;
    assert Steps(AB(rest)) == ab + rest;
    WalkAppend(top, ab, rest);
  }

  /** Below `a` the nested item resolves as its map `DocA` does. */
  lemma ResolveBelowA(rest: seq<Operator>)
    ensures Resolve(NestedItem, PathValue("a", rest)) == Walk(DocA, rest)
  {
    var top := Map(NestedItem);
    assert Walk(top, [Dot("a")]) == Some(DocA);
    assert Steps(PathValue("a", rest)) == [Dot("a")] + rest;
    WalkAppend(top, [Dot("a")], rest);
  }

  lemma ResolveListElements()
    ensures Resolve(NestedItem, AB([Index(0)])) == Some(Two)
    ensures Resolve(NestedItem, AB([Index(1)])) == Some(Four)
  {
    ResolveBelowAB([Index(0)]);
    ResolveBelowAB([Index(1)]);
    assert Walk(ListB, [Index(0)]) == Some(Two);
    assert Walk(ListB, [Index(1)]) == Some(Four);
  }

  lemma ResolveMemberOfElement()
    ensures Resolve(NestedItem, AB([Index(2), Dot("y")])) == Some(Text("yo"))
  {
    ResolveBelowAB([Index(2), Dot("y")]);
    assert Walk(ListB, [Index(2)]) == Some(Inner);
    assert Walk(Inner, [Dot("y")]) == Some(Text("yo"));
    WalkAppend(ListB, [Index(2)], [Dot("y")]);
    assert [Index(2)] + [Dot("y")] == [Index(2), Dot("y")];
  }

  lemma ResolvePastEnd()
    ensures Resolve(NestedItem, AB([Index(3)])) == None
    ensures Resolve(NestedItem, AB([Index(3), Dot("x")])) == None
  {
    ResolveBelowAB([Index(3)]);
    ResolveBelowAB([Index(3), Dot("x")]);
    assert Walk(ListB, [Index(3)]) == None;
    MissingPrefix(ListB, [Index(3)], [Index(3), Dot("x")]);
  }

  lemma ResolveSiblingMembers()
    ensures Resolve(NestedItem, PathValue("a", [Dot("c")])) == Some(Five)
    ensures Resolve(NestedItem, PathValue("a", [Dot("x")])) == None
    ensures Resolve(NestedItem, PathValue("a", [Dot("x"), Dot("y")])) == None
  {
    ResolveBelowA([Dot("c")]);
    ResolveBelowA([Dot("x")]);
    ResolveBelowA([Dot("x"), Dot("y")]);
    assert Walk(DocA, [Dot("c")]) == Some(Five);
    assert Walk(DocA, [Dot("x")]) == None;
    MissingPrefix(DocA, [Dot("x")], [Dot("x"), Dot("y")]);
  }

  /** What the nested-path test's item gives for each of the test's paths. */
  lemma ResolveNested()
    ensures Resolve(NestedItem, AB([Index(0)])) == Some(Two)
    ensures Resolve(NestedItem, AB([Index(1)])) == Some(Four)
    ensures Resolve(NestedItem, AB([Index(2), Dot("y")])) == Some(Text("yo"))
    ensures Resolve(NestedItem, AB([Index(3)])) == None
    ensures Resolve(NestedItem, AB([Index(3), Dot("x")])) == None
    ensures Resolve(NestedItem, PathValue("a", [Dot("c")])) == Some(Five)
    ensures Resolve(NestedItem, PathValue("a", [Dot("x")])) == None
    ensures Resolve(NestedItem, PathValue("a", [Dot("x"), Dot("y")])) == None
  {
    ResolveListElements();
    ResolveMemberOfElement();
    ResolvePastEnd();
    ResolveSiblingMembers();
  }

  /** A member of a list element comes back inside a one-element list inside its maps. */
  lemma ElementMemberProjected(item: Item, v: AttributeValue)
    requires Resolve(item, AB([Index(2), Dot("y")])) == Some(v)
    ensures Project(item, [AB([Index(2), Dot("y")])]) == map["a" := Map(map["b" := List([Map(map["y" := v])])])]
  {
    var p := AB([Index(2), Dot("y")]);
    SinglePathProjection(item, p);
    var ops := [Dot("b"), Index(2), Dot("y")];
    assert p.operators == ops;
    assert ops[1..][1..][1..] == [];
    assert Wrap(ops[2..], v) == Map(map["y" := v]);
    assert Wrap(ops[1..], v) == List([Map(map["y" := v])]);
  }

  lemma ResolvedBoth(item: Item, p: PathValue, q: PathValue, v: AttributeValue, w: AttributeValue)
    requires Resolve(item, p) == Some(v) && Resolve(item, q) == Some(w)
    ensures Resolved(item, [p, q]) == [(p, v), (q, w)]
  {
    assert [p, q][..1] == [p];
    assert [p][..0] == [];
    assert Resolved(item, [p]) == [(p, v)];
  }

  lemma MergeBoth(x: (PathValue, AttributeValue), y: (PathValue, AttributeValue))
    ensures Merge([x, y]) == Put(Some(Put(Some(Members(map[])), Steps(x.0), x.1)), Steps(y.0), y.1)
  {
    assert [x, y][..1] == [x];
    assert [x][..0] == [];
    assert Merge([x]) == Put(Some(Merge([])), Steps(x.0), x.1);
  }

  /** The tree of the list path `a.b[0]` put into the empty tree. */
  lemma PutFirstElement(x: AttributeValue)
    ensures Put(Some(Members(map[])), [Dot("a"), Dot("b"), Index(0)], x) ==
              Members(map["a" := Members(map["b" := Elements([Slot(0, Leaf(x))])])])
  {
    var s0 := [Dot("a"), Dot("b"), Index(0)];
    assert s0[1..] == [Dot("b"), Index(0)] && s0[1..][1..] == [Index(0)] && s0[1..][1..][1..] == [];
    var list := Elements([Slot(0, Leaf(x))]);
    assert Put(None, [Index(0)], x) == list;
    assert Put(None, s0[1..], x) == Members(map["b" := list]);
    var empty: map<string, Tree> := map[];
    assert Put(Some(Members(empty)), s0, x) == Members(empty["a" := Put(None, s0[1..], x)]);
    assert empty["a" := Members(map["b" := list])] == map["a" := Members(map["b" := list])];
  }

  /** Putting `a.b[1]` next to `a.b[0]` appends a second slot to the same list. */
  lemma PutSecondElement(x: AttributeValue, y: AttributeValue)
    ensures Put(Some(Members(map["a" := Members(map["b" := Elements([Slot(0, Leaf(x))])])])), [Dot("a"), Dot("b"), Index(1)], y) ==
              Members(map["a" := Members(map["b" := Elements([Slot(0, Leaf(x)), Slot(1, Leaf(y))])])])
  {
    var s1 := [Dot("a"), Dot("b"), Index(1)];
    assert s1[1..] == [Dot("b"), Index(1)] && s1[1..][1..] == [Index(1)] && s1[1..][1..][1..] == [];
    var slots := [Slot(0, Leaf(x))];
    assert PutSlot(slots, 1, [], y) == [Slot(0, Leaf(x)), Slot(1, Leaf(y))] by {
      assert slots[1..] == [];
    }
    assert Put(Some(Elements(slots)), [Index(1)], y) == Elements([Slot(0, Leaf(x)), Slot(1, Leaf(y))]);
    var inner := Members(map["b" := Elements(slots)]);
    assert Put(Some(inner), s1[1..], y) == Members(map["b" := Elements([Slot(0, Leaf(x)), Slot(1, Leaf(y))])]);
    var outer := map["a" := inner];
    assert Put(Some(Members(outer)), s1, y) == Members(outer["a" := Put(Some(inner), s1[1..], y)]);
  }

  /** Putting `a.c` next to `a.b[0]` adds a member to the same map. */
  lemma PutSiblingMember(x: AttributeValue, z: AttributeValue)
    ensures Put(Some(Members(map["a" := Members(map["b" := Elements([Slot(0, Leaf(x))])])])), [Dot("a"), Dot("c")], z) ==
              Members(map["a" := Members(map["b" := Elements([Slot(0, Leaf(x))]), "c" := Leaf(z)])])
  {
    var sc := [Dot("a"), Dot("c")];
    assert sc[1..] == [Dot("c")] && sc[1..][1..] == [];
    var inner := Members(map["b" := Elements([Slot(0, Leaf(x))])]);
    assert Put(Some(inner), sc[1..], z) == Members(inner.members["c" := Leaf(z)]);
    var outer := map["a" := inner];
    assert Put(Some(Members(outer)), sc, z) == Members(outer["a" := Put(Some(inner), sc[1..], z)]);
  }

  /** The sparse tree of two paths that both resolve: the second put on top of the first. */
  lemma TwoPathTree(item: Item, p: PathValue, q: PathValue, v: AttributeValue, w: AttributeValue)
    requires Resolve(item, p) == Some(v) && Resolve(item, q) == Some(w)
    ensures Merge(Resolved(item, [p, q])) == Put(Some(Put(Some(Members(map[])), Steps(p), v)), Steps(q), w)
  {
    ResolvedBoth(item, p, q, v, w);
    MergeBoth((p, v), (q, w));
  }

  /** The sparse tree of `a.b[0],a.b[1]`: one list holding the slots for indexes 0 and 1. */
  lemma TwoElementsTree(item: Item, x: AttributeValue, y: AttributeValue)
    requires Resolve(item, AB([Index(0)])) == Some(x) && Resolve(item, AB([Index(1)])) == Some(y)
    ensures Merge(Resolved(item, [AB([Index(0)]), AB([Index(1)])])) ==
              Members(map["a" := Members(map["b" := Elements([Slot(0, Leaf(x)), Slot(1, Leaf(y))])])])
  {
    TwoPathTree(item, AB([Index(0)]), AB([Index(1)]), x, y);
    assert Steps(AB([Index(0)])) == [Dot("a"), Dot("b"), Index(0)];
    assert Steps(AB([Index(1)])) == [Dot("a"), Dot("b"), Index(1)];
    PutFirstElement(x);
    PutSecondElement(x, y);
  }

  lemma MaterializeOne(k: string, t: Tree)
    ensures Materialize(Members(map[k := t])) == Map(map[k := Materialize(t)])
  {
    var m := Materialize(Members(map[k := t])).members;
    assert m.Keys == {k};
  }

  lemma MaterializeTwo(k1: string, t1: Tree, k2: string, t2: Tree)
    requires k1 != k2
    ensures Materialize(Members(map[k1 := t1, k2 := t2])) == Map(map[k1 := Materialize(t1), k2 := Materialize(t2)])
  {
    var m := Materialize(Members(map[k1 := t1, k2 := t2])).members;
    assert m.Keys == {k1, k2};
  }

  lemma MaterializeLeaves(slots: seq<Slot>)
    requires forall s <- slots :: s.tree.Leaf?
    ensures Materialize(Elements(slots)) == List(seq(|slots|, k requires 0 <= k < |slots| => slots[k].tree.value))
  {
    var l := Materialize(Elements(slots)).elements;
    assert l == seq(|slots|, k requires 0 <= k < |slots| => Materialize(slots[k].tree));
    forall k | 0 <= k < |slots|
      ensures l[k] == slots[k].tree.value
    {
      assert slots[k] in slots;
      assert Materialize(slots[k].tree) == slots[k].tree.value;
    }
  }

  lemma MaterializeOneLeaf(v: AttributeValue)
    ensures Materialize(Elements([Slot(0, Leaf(v))])) == List([v])
  {
    MaterializeLeaves([Slot(0, Leaf(v))]);
  }

  lemma MaterializeTwoLeaves(v: AttributeValue, w: AttributeValue)
    ensures Materialize(Elements([Slot(0, Leaf(v)), Slot(1, Leaf(w))])) == List([v, w])
  {
    var slots := [Slot(0, Leaf(v)), Slot(1, Leaf(w))];
    MaterializeLeaves(slots);
  }

  /** Two elements of one list that both exist are merged into one list, in the order requested. */
  lemma TwoElementsProjected(item: Item, x: AttributeValue, y: AttributeValue)
    requires Resolve(item, AB([Index(0)])) == Some(x) && Resolve(item, AB([Index(1)])) == Some(y)
    ensures Project(item, [AB([Index(0)]), AB([Index(1)])]) == map["a" := Map(map["b" := List([x, y])])]
  {
    TwoElementsTree(item, x, y);
    var slots := [Slot(0, Leaf(x)), Slot(1, Leaf(y))];
    MaterializeTwoLeaves(x, y);
    MaterializeOne("b", Elements(slots));
    MaterializeOne("a", Members(map["b" := Elements(slots)]));
  }

  /** The sparse tree of `a.b[0],a.c`: one map holding the one-slot list and the member. */
  lemma ElementAndMemberTree(item: Item, x: AttributeValue, z: AttributeValue)
    requires Resolve(item, AB([Index(0)])) == Some(x) && Resolve(item, PathValue("a", [Dot("c")])) == Some(z)
    ensures Merge(Resolved(item, [AB([Index(0)]), PathValue("a", [Dot("c")])])) ==
              Members(map["a" := Members(map["b" := Elements([Slot(0, Leaf(x))]), "c" := Leaf(z)])])
  {
    TwoPathTree(item, AB([Index(0)]), PathValue("a", [Dot("c")]), x, z);
    assert Steps(AB([Index(0)])) == [Dot("a"), Dot("b"), Index(0)];
    assert Steps(PathValue("a", [Dot("c")])) == [Dot("a"), Dot("c")];
    PutFirstElement(x);
    PutSiblingMember(x, z);
  }

  /** A list element and a sibling member that both exist are merged into one map. */
  lemma ElementAndMemberProjected(item: Item, x: AttributeValue, z: AttributeValue)
    requires Resolve(item, AB([Index(0)])) == Some(x) && Resolve(item, PathValue("a", [Dot("c")])) == Some(z)
    ensures Project(item, [AB([Index(0)]), PathValue("a", [Dot("c")])]) == map["a" := Map(map["b" := List([x]), "c" := z])]
  {
    ElementAndMemberTree(item, x, z);
    var slots := [Slot(0, Leaf(x))];
    MaterializeOneLeaf(x);
    MaterializeTwo("b", Elements(slots), "c", Leaf(z));
    MaterializeOne("a", Members(map["b" := Elements(slots), "c" := Leaf(z)]));
  }

  // ---------------------------------------------------------------------------
  // Nested paths, from the expression text

  /** The decimal digit of a one-digit list index. */
  function Digit(i: nat): char
    requires i < 10
  {
    ('0' as int + i) as char
  }

  lemma RenderSingle(op: Operator)
    ensures RenderOperators([op]) == RenderOperator(op)
  {
    assert [op][1..] == [];
    assert RenderOperators([op]) == RenderOperator(op) + [];
  }

  lemma RenderTwoOperators(op: Operator, op': Operator)
    ensures RenderOperators([op, op']) == RenderOperator(op) + RenderOperator(op')
  {
    assert [op, op'][1..] == [op'];
    RenderSingle(op');
  }

  lemma RenderElement(i: nat)
    requires i < 10
    ensures RenderPath(AB([Index(i)])) == "a.b[" + [Digit(i)] + "]"
  {
    assert AB([Index(i)]).operators == [Dot("b"), Index(i)];
    RenderTwoOperators(Dot("b"), Index(i));
  }

  lemma RenderElementMember(i: nat, n: string)
    requires i < 10
    ensures RenderPath(AB([Index(i), Dot(n)])) == "a.b[" + [Digit(i)] + "]." + n
  {
    var ops := [Dot("b"), Index(i), Dot(n)];
    assert AB([Index(i), Dot(n)]).operators == ops;
    assert ops[1..] == [Index(i), Dot(n)];
    RenderTwoOperators(Index(i), Dot(n));
  }

  lemma RenderMember(n: string, m: string)
    ensures RenderPath(PathValue(n, [Dot(m)])) == n + "." + m
  {
    RenderSingle(Dot(m));
  }

  lemma RenderMemberPair(n: string, m: string, o: string)
    ensures RenderPath(PathValue(n, [Dot(m), Dot(o)])) == n + "." + m + "." + o
  {
    RenderTwoOperators(Dot(m), Dot(o));
  }

  /** A single path that exists, written out, gives its value wrapped in the path. */
  lemma PresentEvaluated(item: Item, p: PathValue, v: AttributeValue)
    requires PlainPath(p) && Resolve(item, p) == Some(v)
    ensures Evaluate(RenderPath(p), NoNames, item) == Ok(map[p.root := Wrap(p.operators, v)])
  {
    RenderOne(p);
    assert NoOverlaps([p]);
    EvaluateRendered([p], NoNames, item);
    SinglePathProjection(item, p);
  }

  /** A single path that does not exist, written out as `text`, gives the empty item. */
  lemma AbsentEvaluated(item: Item, p: PathValue, text: string)
    requires PlainPath(p) && Resolve(item, p) == None
    requires RenderPath(p) == text
    ensures Evaluate(text, NoNames, item) == Ok(map[])
  {
    RenderOne(p);
    assert NoOverlaps([p]);
    EvaluateRendered([p], NoNames, item);
    SinglePathProjection(item, p);
  }

  lemma RenderPair(p: PathValue, q: PathValue)
    ensures RenderExpression([p, q]) == RenderPath(p) + "," + RenderPath(q)
  {
    var r := RenderPaths([p, q]);
    assert r == [RenderPath(p), RenderPath(q)];
    assert r[1..] == [RenderPath(q)];
    assert Join(r, ',') == RenderPath(p) + [','] + Join(r[1..], ',');
  }

  /** Two paths that differ at some step neither contains the other. */
  lemma DivergingPaths(p: PathValue, q: PathValue, k: nat)
    requires k < |Steps(p)| && k < |Steps(q)| && Steps(p)[k] != Steps(q)[k]
    ensures NoOverlaps([p, q])
  {
    var ps := [p, q];
    assert ps[0] == p && ps[1] == q;
  }

  lemma WrapMember(n: string, v: AttributeValue)
    ensures Wrap([Dot(n)], v) == Map(map[n := v])
  {
    assert [Dot(n)][1..] == [];
  }

  lemma WrapElement(n: string, i: nat, v: AttributeValue)
    ensures Wrap([Dot(n), Index(i)], v) == Map(map[n := List([v])])
  {
    assert [Dot(n), Index(i)][1..] == [Index(i)];
    assert Wrap([Index(i)], v) == List([v]) by {
      assert [Index(i)][1..] == [];
    }
  }

  /** `a` on the nested-path test item gives the whole nested document. */
  lemma NestedWholeAttribute()
    ensures Evaluate("a", NoNames, NestedItem) == Ok(map["a" := DocA])
  {
    var item := NestedItem;
    assert item["a"] == DocA;
    OneTopLevelEvaluated(item, "a");
  }

  /** `a.n` for a member that exists gives the member alone inside the map `a`. */
  lemma MemberPresentEvaluated(item: Item, n: string, v: AttributeValue)
    requires IsName(n) && Resolve(item, PathValue("a", [Dot(n)])) == Some(v)
    ensures Evaluate("a" + "." + n, NoNames, item) == Ok(map["a" := Map(map[n := v])])
  {
    var p := PathValue("a", [Dot(n)]);
    assert PlainPath(p);
    PresentEvaluated(item, p, v);
    WrapMember(n, v);
    RenderMember("a", n);
  }

  /** `a.b[i]` for an element that exists gives a one-element list inside the map `a`. */
  lemma ElementEvaluated(item: Item, i: nat, v: AttributeValue)
    requires i < 10 && Resolve(item, AB([Index(i)])) == Some(v)
    ensures Evaluate("a.b[" + [Digit(i)] + "]", NoNames, item) == Ok(map["a" := Map(map["b" := List([v])])])
  {
    var p := AB([Index(i)]);
    assert p.operators == [Dot("b"), Index(i)];
    assert PlainPath(p);
    PresentEvaluated(item, p, v);
    WrapElement("b", i, v);
    RenderElement(i);
  }

  /** The texts of the nested-path test, as the rendering lemmas build them. */
  lemma NestedTexts()
    ensures "a" + "." + "b" == "a.b"
    ensures "a" + "." + "x" == "a.x"
    ensures "a" + "." + "x" + "." + "y" == "a.x.y"
    ensures "a.b[" + [Digit(0)] + "]" == "a.b[0]"
    ensures "a.b[" + [Digit(2)] + "]" == "a.b[2]"
    ensures "a.b[" + [Digit(3)] + "]" == "a.b[3]"
    ensures "a.b[" + [Digit(2)] + "]." + "y" == "a.b[2].y"
    ensures "a.b[" + [Digit(3)] + "]." + "x" == "a.b[3].x"
  {
  }

  /** `a.b` gives only the content of `b`, still inside the map `a`. */
  lemma MemberEvaluated()
    ensures Evaluate("a.b", NoNames, NestedItem) == Ok(map["a" := Map(map["b" := ListB])])
  {
    ResolveBelowA([Dot("b")]);
    assert Walk(DocA, [Dot("b")]) == Some(ListB);
    MemberPresentEvaluated(NestedItem, "b", ListB);
    NestedTexts();
  }

  /** `a.b[0]` gives `{a: {b: [2]}}`. */
  lemma FirstElementEvaluated()
    ensures Evaluate("a.b[0]", NoNames, NestedItem) == Ok(map["a" := Map(map["b" := List([Two])])])
  {
    ResolveListElements();
    ElementEvaluated(NestedItem, 0, Two);
    NestedTexts();
  }

  /** `a.b[2]` gives `{a: {b: [{x: hi, y: yo}]}}`. */
  lemma ThirdElementEvaluated()
    ensures Evaluate("a.b[2]", NoNames, NestedItem) == Ok(map["a" := Map(map["b" := List([Inner])])])
  {
    ResolveBelowAB([Index(2)]);
    assert Walk(ListB, [Index(2)]) == Some(Inner);
    ElementEvaluated(NestedItem, 2, Inner);
    NestedTexts();
  }

  /** `a.b[2].y` for a member that exists gives it alone in a map in a one-element list inside `a`. */
  lemma ElementMemberPresent(item: Item, v: AttributeValue)
    requires Resolve(item, AB([Index(2), Dot("y")])) == Some(v)
    ensures Evaluate("a.b[2].y", NoNames, item) == Ok(map["a" := Map(map["b" := List([Map(map["y" := v])])])])
  {
    var p := AB([Index(2), Dot("y")]);
    RenderElementMember(2, "y");
    NestedTexts();
    RenderOne(p);
    assert PlainPath(p) && NoOverlaps([p]);
    EvaluateRendered([p], NoNames, item);
    ElementMemberProjected(item, v);
  }

  /** `a.b[2].y` gives `{a: {b: [{y: yo}]}}`. */
  lemma ElementMemberEvaluated()
    ensures Evaluate("a.b[2].y", NoNames, NestedItem) == Ok(map["a" := Map(map["b" := List([Map(map["y" := Text("yo")])])])])
  {
    ResolveMemberOfElement();
    ElementMemberPresent(NestedItem, Text("yo"));
  }

  /** `x`, an attribute the item does not have, gives the empty item. */
  lemma MissingAttributeEvaluated()
    ensures Evaluate("x", NoNames, NestedItem) == Ok(map[])
  {
    var item := NestedItem;
    assert "x" !in item;
    OneTopLevelEvaluated(item, "x");
  }

  /** `a.b[3]`, past the end of the list, gives the empty item wherever it is absent. */
  lemma PastEndAbsent(item: Item)
    requires Resolve(item, AB([Index(3)])) == None
    ensures Evaluate("a.b[3]", NoNames, item) == Ok(map[])
  {
    RenderElement(3);
    NestedTexts();
    assert PlainPath(AB([Index(3)]));
    AbsentEvaluated(item, AB([Index(3)]), "a.b[3]");
  }

  lemma PastEndEvaluated()
    ensures Evaluate("a.b[3]", NoNames, NestedItem) == Ok(map[])
  {
    ResolvePastEnd();
    PastEndAbsent(NestedItem);
  }

  /** `a.x`, a member the map does not have, gives the empty item wherever it is absent. */
  lemma MissingMemberAbsent(item: Item)
    requires Resolve(item, PathValue("a", [Dot("x")])) == None
    ensures Evaluate("a.x", NoNames, item) == Ok(map[])
  {
    RenderMember("a", "x");
    NestedTexts();
    assert PlainPath(PathValue("a", [Dot("x")]));
    AbsentEvaluated(item, PathValue("a", [Dot("x")]), "a.x");
  }

  lemma MissingMemberEvaluated()
    ensures Evaluate("a.x", NoNames, NestedItem) == Ok(map[])
  {
    ResolveSiblingMembers();
    MissingMemberAbsent(NestedItem);
  }

  /** `a.x.y`, below a missing member, gives the empty item wherever it is absent. */
  lemma BelowMissingMemberAbsent(item: Item)
    requires Resolve(item, PathValue("a", [Dot("x"), Dot("y")])) == None
    ensures Evaluate("a.x.y", NoNames, item) == Ok(map[])
  {
    RenderMemberPair("a", "x", "y");
    NestedTexts();
    assert PlainPath(PathValue("a", [Dot("x"), Dot("y")]));
    AbsentEvaluated(item, PathValue("a", [Dot("x"), Dot("y")]), "a.x.y");
  }

  lemma BelowMissingMemberEvaluated()
    ensures Evaluate("a.x.y", NoNames, NestedItem) == Ok(map[])
  {
    ResolveSiblingMembers();
    BelowMissingMemberAbsent(NestedItem);
  }

  /** `a.b[3].x`, below an element past the end, gives the empty item wherever it is absent. */
  lemma BelowPastEndAbsent(item: Item)
    requires Resolve(item, AB([Index(3), Dot("x")])) == None
    ensures Evaluate("a.b[3].x", NoNames, item) == Ok(map[])
  {
    RenderElementMember(3, "x");
    NestedTexts();
    assert PlainPath(AB([Index(3), Dot("x")]));
    AbsentEvaluated(item, AB([Index(3), Dot("x")]), "a.b[3].x");
  }

  lemma BelowPastEndEvaluated()
    ensures Evaluate("a.b[3].x", NoNames, NestedItem) == Ok(map[])
  {
    ResolvePastEnd();
    BelowPastEndAbsent(NestedItem);
  }

  /** Two elements of one list, and an element beside a sibling member, do not overlap. */
  lemma NestedPairsAccepted()
    ensures Validate([AB([Index(0)]), AB([Index(1)])]) == Ok([AB([Index(0)]), AB([Index(1)])])
    ensures Validate([AB([Index(0)]), PathValue("a", [Dot("c")])]) == Ok([AB([Index(0)]), PathValue("a", [Dot("c")])])
  {
    assert Steps(AB([Index(0)])) == [Dot("a"), Dot("b"), Index(0)];
    assert Steps(AB([Index(1)])) == [Dot("a"), Dot("b"), Index(1)];
    assert Steps(PathValue("a", [Dot("c")])) == [Dot("a"), Dot("c")];
    DivergingPaths(AB([Index(0)]), AB([Index(1)]), 2);
    DivergingPaths(AB([Index(0)]), PathValue("a", [Dot("c")]), 1);
  }

  lemma TwoElementsText()
    ensures RenderPath(AB([Index(0)])) + "," + RenderPath(AB([Index(1)])) == "a.b[0],a.b[1]"
  {
    RenderElement(0);
    RenderElement(1);
    assert [Digit(0)] == "0" && [Digit(1)] == "1";
  }

  lemma ElementAndMemberText()
    ensures RenderPath(AB([Index(0)])) + "," + RenderPath(PathValue("a", [Dot("c")])) == "a.b[0],a.c"
  {
    RenderElement(0);
    RenderMember("a", "c");
    assert [Digit(0)] == "0";
  }

  lemma OverlappingTexts()
    ensures RenderPath(AB([Index(0)])) + "," + RenderPath(AB([Index(0)])) == "a.b[0],a.b[0]"
    ensures RenderPath(Top("a")) + "," + RenderPath(AB([Index(0)])) == "a,a.b[0]"
  {
    RenderElement(0);
    RenderTop("a");
    assert [Digit(0)] == "0";
  }

  /** Paths written out and evaluated give what projecting them gives. */
  lemma PairEvaluated(item: Item, p: PathValue, q: PathValue)
    requires PlainPath(p) && PlainPath(q) && NoOverlaps([p, q])
    ensures Evaluate(RenderPath(p) + "," + RenderPath(q), NoNames, item) == Ok(Project(item, [p, q]))
  {
    RenderPair(p, q);
    EvaluateRendered([p, q], NoNames, item);
  }

  /** `a.b[0],a.b[1]` for two elements that exist gives both, in one list inside `a`. */
  lemma TwoElementsPresent(item: Item, x: AttributeValue, y: AttributeValue)
    requires Resolve(item, AB([Index(0)])) == Some(x) && Resolve(item, AB([Index(1)])) == Some(y)
    ensures Evaluate("a.b[0],a.b[1]", NoNames, item) == Ok(map["a" := Map(map["b" := List([x, y])])])
  {
    NestedPairsAccepted();
    PairEvaluated(item, AB([Index(0)]), AB([Index(1)]));
    TwoElementsText();
    TwoElementsProjected(item, x, y);
  }

  /** `a.b[0],a.b[1]` gives `{a: {b: [2, 4]}}`. */
  lemma TwoElementsEvaluated()
    ensures Evaluate("a.b[0],a.b[1]", NoNames, NestedItem) == Ok(map["a" := Map(map["b" := List([Two, Four])])])
  {
    ResolveListElements();
    TwoElementsPresent(NestedItem, Two, Four);
  }

  /** `a.b[0],a.c` for an element and a sibling member that exist gives both in one map. */
  lemma ElementAndMemberPresent(item: Item, x: AttributeValue, z: AttributeValue)
    requires Resolve(item, AB([Index(0)])) == Some(x) && Resolve(item, PathValue("a", [Dot("c")])) == Some(z)
    ensures Evaluate("a.b[0],a.c", NoNames, item) == Ok(map["a" := Map(map["b" := List([x]), "c" := z])])
  {
    NestedPairsAccepted();
    PairEvaluated(item, AB([Index(0)]), PathValue("a", [Dot("c")]));
    ElementAndMemberText();
    ElementAndMemberProjected(item, x, z);
  }

  /** `a.b[0],a.c` gives `{a: {b: [2], c: 5}}`. */
  lemma ElementAndMemberEvaluated()
    ensures Evaluate("a.b[0],a.c", NoNames, NestedItem) == Ok(map["a" := Map(map["b" := List([Two]), "c" := Five])])
  {
    ResolveListElements();
    ResolveSiblingMembers();
    ElementAndMemberPresent(NestedItem, Two, Five);
  }

  /** Paths that overlap, written out, are an error whatever the item. */
  lemma OverlappingPairEvaluated(item: Item, p: PathValue, q: PathValue)
    requires PlainPath(p) && PlainPath(q) && Overlap(p, q)
    ensures Evaluate(RenderPath(p) + "," + RenderPath(q), NoNames, item).Err?
  {
    assert [p, q][0] == p && [p, q][1] == q;
    RenderPair(p, q);
    EvaluateRendered([p, q], NoNames, item);
  }

  /** `a.b[0],a.b[0]`, the same element twice, is an error whatever the item. */
  lemma RepeatedElementEvaluated(item: Item)
    ensures Evaluate("a.b[0],a.b[0]", NoNames, item).Err?
  {
    assert Overlap(AB([Index(0)]), AB([Index(0)]));
    OverlappingPairEvaluated(item, AB([Index(0)]), AB([Index(0)]));
    OverlappingTexts();
  }

  /** `a,a.b[0]`, an attribute and an element inside it, is an error whatever the item. */
  lemma ContainedElementEvaluated(item: Item)
    ensures Evaluate("a,a.b[0]", NoNames, item).Err?
  {
    assert Steps(Top("a")) == [Dot("a")];
    assert Steps(AB([Index(0)])) == [Dot("a"), Dot("b"), Index(0)];
    OverlappingPairEvaluated(item, Top("a"), AB([Index(0)]));
    OverlappingTexts();
  }

  // ---------------------------------------------------------------------------
  // Idempotence needs index-free paths

  /**
   * Projecting `a[1]` packs the element to position 0, so projecting the
   * result again with `a[1]` finds nothing.
   */
  lemma IndexedProjectionNotIdempotent()
    ensures var item: Item := map["a" := List([Text("x"), Text("y")])];
            var ps := [PathValue("a", [Index(1)])];
            Project(item, ps) == map["a" := List([Text("y")])] &&
            Project(Project(item, ps), ps) == map[]
  {
    var item: Item := map["a" := List([Text("x"), Text("y")])];
    var p := PathValue("a", [Index(1)]);
    assert Resolve(item, p) == Some(Text("y"));
    SinglePathProjection(item, p);
    var once: Item := map["a" := List([Text("y")])];
    assert Resolve(once, p) == None;
    SinglePathProjection(once, p);
  }
}

/**
 * Evaluating a projection expression against items: parse the expression,
 * reject it as a whole if any two of its paths overlap, resolve every path
 * in the item, and merge the values found into one item that keeps the
 * original nesting.
 */
module Projection {
  import opened ParsedExpressions
  import opened Wrappers
  import opened Documents
  import opened ProjectionParser
  import opened ProjectionOverlap
  import opened ProjectionMerge

  /** Every way a projection expression can be refused. */
  datatype ValidationError =
    | Syntax(error: ParseError)
    | Overlapping(one: PathValue, two: PathValue)

  /** The requested paths that exist in `item`, each with its value, in the order requested. */
  function Resolved(item: Item, ps: seq<PathValue>): (r: seq<(PathValue, AttributeValue)>)
    ensures forall x <- r :: x.0 in ps && Resolve(item, x.0) == Some(x.1)
    ensures forall p <- ps :: Resolve(item, p).Some? ==> (p, Resolve(item, p).value) in r
    decreases |ps|
  {
    if ps == [] then []
    else
      var n := |ps| - 1;
      var init := Resolved(item, ps[..n]);
      assert forall p <- ps :: p in ps[..n] || p == ps[n];
      match Resolve(item, ps[n])
      case None => init
      case Some(v) => init + [(ps[n], v)]
  }

  /** The item holding only the requested paths that exist in `item`. */
  function Project(item: Item, ps: seq<PathValue>): Item {
    Materialize(Merge(Resolved(item, ps))).members
  }

  /** Accepts the paths exactly when no two of them overlap; otherwise names an overlapping pair. */
  function Validate(ps: seq<PathValue>): (r: Result<seq<PathValue>, ValidationError>)
    ensures r.Ok? <==> NoOverlaps(ps)
    ensures r.Ok? ==> r.value == ps
    ensures r.Err? ==>
              (exists i, j :: 0 <= i < j < |ps| && r.error == Overlapping(ps[i], ps[j]) && Overlap(ps[i], ps[j]))
  {
    match FindOverlap(ps)
    case None => Ok(ps)
    case Some((i, j)) => Err(Overlapping(ps[i], ps[j]))
  }

  /** Parses and validates an expression; this does not depend on any item. */
  function Compile(expr: string, names: Names): Result<seq<PathValue>, ValidationError> {
    match ParseExpression(expr, names)
    case Err(e) => Err(Syntax(e))
    case Ok(ps) => Validate(ps)
  }

  /**
   * Projects one item. A malformed or overlapping expression fails before
   * the item is looked at, so whether it fails does not depend on the item.
   */
  function Evaluate(expr: string, names: Names, item: Item): (r: Result<Item, ValidationError>)
    ensures r.Err? <==> Compile(expr, names).Err?
    ensures r.Ok? ==> NoOverlaps(Compile(expr, names).value)
  {
    match Compile(expr, names)
    case Err(e) => Err(e)
    case Ok(ps) => Ok(Project(item, ps))
  }

  /** Projects every item of a scan or query page independently with the same expression. */
  function EvaluateAll(expr: string, names: Names, items: seq<Item>): (r: Result<seq<Item>, ValidationError>)
    ensures r.Err? <==> Compile(expr, names).Err?
    ensures r.Ok? ==> |r.value| == |items|
    ensures r.Ok? ==> forall k :: 0 <= k < |items| ==> Evaluate(expr, names, items[k]) == Ok(r.value[k])
  {
    match Compile(expr, names)
    case Err(e) => Err(e)
    case Ok(ps) => Ok(seq(|items|, k requires 0 <= k < |items| => Project(items[k], ps)))
  }

  // ---------------------------------------------------------------------------
  // Resolved paths of a valid expression

  lemma ConsistentAppend(results: seq<(PathValue, AttributeValue)>, x: (PathValue, AttributeValue))
    requires Consistent(results)
    requires forall y <- results :: Separate(Steps(y.0), Steps(x.0)) && Separate(Steps(x.0), Steps(y.0))
    ensures Consistent(results + [x])
  {
    var r := results + [x];
    forall i, j | 0 <= i < |r| && 0 <= j < |r| && i != j
      ensures Separate(Steps(r[i].0), Steps(r[j].0))
    {
      if i < |results| {
        assert r[i] == results[i] && results[i] in results;
      }
      if j < |results| {
        assert r[j] == results[j] && results[j] in results;
      }
    }
  }

  /** The paths of a valid expression that exist in one item part pairwise at steps of the same kind. */
  lemma {:induction false} ResolvedConsistent(item: Item, ps: seq<PathValue>)
    requires NoOverlaps(ps)
    ensures Consistent(Resolved(item, ps))
    decreases |ps|
  {
    if ps != [] {
      var n := |ps| - 1;
      var init := Resolved(item, ps[..n]);
      assert NoOverlaps(ps[..n]);
      ResolvedConsistent(item, ps[..n]);
      if Resolve(item, ps[n]).Some? {
        var x := (ps[n], Resolve(item, ps[n]).value);
        forall y <- init
          ensures Separate(Steps(y.0), Steps(x.0)) && Separate(Steps(x.0), Steps(y.0))
        {
          var i :| 0 <= i < n && ps[..n][i] == y.0;
          assert !Overlap(ps[i], ps[n]);
          ResolvedApartSeparate(Map(item), Steps(y.0), Steps(x.0));
          ResolvedApartSeparate(Map(item), Steps(x.0), Steps(y.0));
        }
        ConsistentAppend(init, x);
      }
    }
  }

  /** In the merge of a valid expression, something at a requested path means that path exists in the item. */
  lemma MergedMeansPresent(item: Item, ps: seq<PathValue>, p: PathValue)
    requires NoOverlaps(ps) && p in ps
    requires Get(Merge(Resolved(item, ps)), Steps(p)).Some?
    ensures Resolve(item, p).Some?
  {
    var r := Resolved(item, ps);
    MergeOnly(r, Steps(p));
    var j :| 0 <= j < |r| && Steps(p) <= Steps(r[j].0);
    var q := r[j].0;
    assert r[j] in r;
    var a :| 0 <= a < |ps| && ps[a] == p;
    var b :| 0 <= b < |ps| && ps[b] == q;
    ContainedIsSame(ps, a, b);
  }

  /** In the merge of a valid expression, a leaf on the way to a requested path is that path's own value. */
  lemma LeafOnlyAtEnd(item: Item, ps: seq<PathValue>, p: PathValue, k: nat)
    requires NoOverlaps(ps) && p in ps
    requires 1 <= k <= |Steps(p)|
    requires Get(Merge(Resolved(item, ps)), Steps(p)[..k]).Some?
    requires Get(Merge(Resolved(item, ps)), Steps(p)[..k]).value.Leaf?
    ensures k == |Steps(p)| && Steps(p)[..k] == Steps(p)
  {
    var r := Resolved(item, ps);
    MergeOnly(r, Steps(p)[..k]);
    var j :| 0 <= j < |r| && Steps(p)[..k] == Steps(r[j].0);
    var q := r[j].0;
    assert r[j] in r;
    var a :| 0 <= a < |ps| && ps[a] == p;
    var b :| 0 <= b < |ps| && ps[b] == q;
    assert Steps(q) <= Steps(p);
    ContainedIsSame(ps, b, a);
  }

  /**
   * Under a valid expression, the sparse merge holds each requested path's
   * value exactly where the path points, and nothing at a requested path
   * that does not exist in the item.
   */
  lemma MergeMatchesResolve(item: Item, ps: seq<PathValue>, p: PathValue)
    requires NoOverlaps(ps) && p in ps
    ensures Get(Merge(Resolved(item, ps)), Steps(p)) ==
              match Resolve(item, p)
              case None => None
              case Some(v) => Some(Leaf(v))
  {
    var r := Resolved(item, ps);
    match Resolve(item, p)
    case None =>
      if Get(Merge(r), Steps(p)).Some? {
        MergedMeansPresent(item, ps, p);
      }
    case Some(v) =>
      ResolvedConsistent(item, ps);
      MergeFinds(r);
      var j :| 0 <= j < |r| && r[j] == (p, v);
  }

  // ---------------------------------------------------------------------------
  // The projected item

  /** Same length and the same member steps; index steps may be renumbered. */
  predicate SameShape(ops: seq<Operator>, placed: seq<Operator>) {
    |ops| == |placed| &&
    forall k :: 0 <= k < |ops| ==> (ops[k].Dot? <==> placed[k].Dot?) && (ops[k].Dot? ==> placed[k] == ops[k])
  }

  predicate IndexFree(p: PathValue) {
    forall op <- p.operators :: op.Dot?
  }

  lemma ProjectIsMaterializedMerge(item: Item, ps: seq<PathValue>)
    ensures Map(Project(item, ps)) == Materialize(Merge(Resolved(item, ps)))
  {
  }

  /**
   * Every requested path that exists in the item is in the projection with
   * its original value, under the same root and member names; list indexes
   * are renumbered because requested list elements are packed from 0.
   */
  lemma ProjectionKeepsRequested(item: Item, ps: seq<PathValue>, p: PathValue)
    requires NoOverlaps(ps) && p in ps && Resolve(item, p).Some?
    ensures exists placed: seq<Operator> :: SameShape(p.operators, placed) &&
              Resolve(Project(item, ps), PathValue(p.root, placed)) == Resolve(item, p)
  {
    var t := Merge(Resolved(item, ps));
    MergeMatchesResolve(item, ps, p);
    var full := Renumber(t, Steps(p));
    MaterializeGet(t, Steps(p));
    ProjectIsMaterializedMerge(item, ps);
    var placed := full[1..];
    assert full[0] == Dot(p.root);
    assert Steps(PathValue(p.root, placed)) == full;
    assert SameShape(p.operators, placed) by {
      forall k | 0 <= k < |p.operators|
        ensures (p.operators[k].Dot? <==> placed[k].Dot?) && (p.operators[k].Dot? ==> placed[k] == p.operators[k])
      {
        assert Steps(p)[k + 1] == p.operators[k];
      }
    }
  }

  /**
   * Where a requested path that exists in the item is placed in the
   * projection: its steps with every list index renumbered to the position
   * its element is packed at.
   */
  function Placed(item: Item, ps: seq<PathValue>, p: PathValue): (r: seq<Operator>)
    requires NoOverlaps(ps) && p in ps && Resolve(item, p).Some?
    ensures |r| == |Steps(p)| && r[0] == Dot(p.root)
    ensures Walk(Map(Project(item, ps)), r) == Resolve(item, p)
  {
    var t := Merge(Resolved(item, ps));
    MergeMatchesResolve(item, ps, p);
    MaterializeGet(t, Steps(p));
    Renumber(t, Steps(p))
  }

  /**
   * Two different requested paths that exist are placed at different paths
   * of the projection, so no requested value overwrites another.
   */
  lemma PlacedInjective(item: Item, ps: seq<PathValue>, p: PathValue, q: PathValue)
    requires NoOverlaps(ps) && p in ps && q in ps && p != q
    requires Resolve(item, p).Some? && Resolve(item, q).Some?
    ensures Placed(item, ps, p) != Placed(item, ps, q)
  {
    var t := Merge(Resolved(item, ps));
    MergeMatchesResolve(item, ps, p);
    MergeMatchesResolve(item, ps, q);
    RenumberInjective(t, Steps(p), Steps(q));
    assert Steps(p) != Steps(q) by {
      assert p.root != q.root || p.operators != q.operators;
    }
  }

  /**
   * The projection holds nothing but the requested paths that exist: every
   * place in it below the top lies on the way to where such a path is placed,
   * or inside the value placed there.
   */
  lemma ProjectionOnlyRequested(item: Item, ps: seq<PathValue>, q: seq<Operator>)
    requires NoOverlaps(ps)
    requires q != [] && Walk(Map(Project(item, ps)), q).Some?
    ensures exists p <- ps :: Resolve(item, p).Some? &&
              (q <= Placed(item, ps, p) ||
               (Placed(item, ps, p) <= q &&
                Walk(Map(Project(item, ps)), q) == Walk(Resolve(item, p).value, q[|Placed(item, ps, p)|..])))
  {
    var r := Resolved(item, ps);
    var t := Merge(r);
    MergeWellFormed(r);
    MaterializeWalkOnly(t, q);
    var ops :| Origin(t, q, ops);
    assert ops != [];
    MergeOnly(r, ops);
    var j :| 0 <= j < |r| && ops <= Steps(r[j].0);
    assert r[j] in r;
    var p := r[j].0;
    MergeMatchesResolve(item, ps, p);
    RenumberPrefix(t, ops, Steps(p));
    if Renumber(t, ops) != q {
      var j' :| 0 <= j' < |r| && ops == Steps(r[j'].0) && Get(t, ops).value == Leaf(r[j'].1);
      assert r[j'] in r;
      var p' := r[j'].0;
      MergeMatchesResolve(item, ps, p');
      assert Placed(item, ps, p') == Renumber(t, ops);
    } else {
      assert Placed(item, ps, p) == Renumber(t, Steps(p));
    }
  }

  /** A path without list indexes comes back at its own place with its own value. */
  lemma ProjectionKeepsIndexFree(item: Item, ps: seq<PathValue>, p: PathValue)
    requires NoOverlaps(ps) && p in ps && IndexFree(p)
    ensures Resolve(Project(item, ps), p) == Resolve(item, p)
  {
    if Resolve(item, p).Some? {
      ProjectionKeepsRequested(item, ps, p);
      var placed :| SameShape(p.operators, placed) &&
                    Resolve(Project(item, ps), PathValue(p.root, placed)) == Resolve(item, p);
      assert placed == p.operators by {
        forall k | 0 <= k < |placed|
          ensures placed[k] == p.operators[k]
        {
          assert p.operators[k] in p.operators;
        }
      }
    } else {
      var t := Merge(Resolved(item, ps));
      MergeMatchesResolve(item, ps, p);
      ProjectIsMaterializedMerge(item, ps);
      forall k | 1 <= k <= |Steps(p)| && Get(t, Steps(p)[..k]).Some?
        ensures !Get(t, Steps(p)[..k]).value.Leaf?
      {
        if Get(t, Steps(p)[..k]).value.Leaf? {
          LeafOnlyAtEnd(item, ps, p, k);
        }
      }
      assert Steps(p)[..0] == [];
      MaterializeMissing(t, Steps(p));
    }
  }

  /**
   * Walking the materialized tree along member steps finds nothing where the
   * tree has nothing, provided no leaf lies on the way.
   */
  lemma {:induction false} MaterializeMissing(t: Tree, ops: seq<Operator>)
    requires forall op <- ops :: op.Dot?
    requires Get(t, ops).None?
    requires forall k :: 0 <= k <= |ops| && Get(t, ops[..k]).Some? ==> !Get(t, ops[..k]).value.Leaf?
    ensures Walk(Materialize(t), ops) == None
    decreases |ops|
  {
    assert ops[..0] == [];
    var n := ops[0].name;
    if t.Members? && n in t.members {
      var child := t.members[n];
      forall k | 0 <= k <= |ops[1..]| && Get(child, ops[1..][..k]).Some?
        ensures !Get(child, ops[1..][..k]).value.Leaf?
      {
        assert ops[..k + 1][1..] == ops[1..][..k];
        assert ops[..k + 1][0] == ops[0];
      }
      assert forall op <- ops[1..] :: op in ops;
      MaterializeMissing(child, ops[1..]);
    }
  }

  /** The projection is empty exactly when none of the requested paths exists in the item. */
  lemma ProjectionEmpty(item: Item, ps: seq<PathValue>)
    ensures Project(item, ps) == map[] <==> forall p <- ps :: Resolve(item, p).None?
  {
    var r := Resolved(item, ps);
    if r != [] {
      var last := r[|r| - 1];
      assert Steps(last.0)[0] == Dot(last.0.root);
      assert last.0.root in Merge(r).members;
      assert r[|r| - 1] in r;
    } else {
      assert Materialize(Merge(r)) == Map(map[]);
    }
  }

  /** The names of the top-level attributes that `ps` requests. */
  function Roots(ps: seq<PathValue>): set<string> {
    set p <- ps :: p.root
  }

  /** A requested top-level attribute that the item has is in the projection with its value. */
  lemma TopLevelKept(item: Item, ps: seq<PathValue>, p: PathValue)
    requires NoOverlaps(ps) && p in ps && p.operators == [] && p.root in item
    ensures p.root in Project(item, ps) && Project(item, ps)[p.root] == item[p.root]
  {
    ResolveTopLevel(item, p);
    MergeMatchesResolve(item, ps, p);
    assert Steps(p) == [Dot(p.root)];
    TopLevelLeaf(Merge(Resolved(item, ps)), p.root, item[p.root]);
  }

  /** A leaf directly under the top of a merge becomes that attribute of the projection. */
  lemma TopLevelLeaf(t: Tree, n: string, v: AttributeValue)
    requires t.Members? && Get(t, [Dot(n)]) == Some(Leaf(v))
    ensures n in Materialize(t).members && Materialize(t).members[n] == v
  {
    assert [Dot(n)][1..] == [];
    assert n in t.members && t.members[n] == Leaf(v);
    assert Materialize(t).members[n] == Materialize(t.members[n]);
  }

  /** Every attribute of the projection is the root of a requested path that exists in the item. */
  lemma ProjectionRootsRequested(item: Item, ps: seq<PathValue>, k: string)
    requires k in Project(item, ps)
    ensures exists p <- ps :: p.root == k && Resolve(item, p).Some?
  {
    var r := Resolved(item, ps);
    var t := Merge(r);
    assert Get(t, [Dot(k)]) == Some(t.members[k]);
    MergeOnly(r, [Dot(k)]);
    var j :| 0 <= j < |r| && [Dot(k)] <= Steps(r[j].0);
    assert r[j] in r;
    assert Steps(r[j].0)[0] == Dot(r[j].0.root);
  }

  /** With top-level paths only, every attribute of the projection was requested and is in the item. */
  lemma TopLevelOnly(item: Item, ps: seq<PathValue>, k: string)
    requires forall p <- ps :: p.operators == []
    requires k in Project(item, ps)
    ensures k in Roots(ps) && k in item
  {
    ProjectionRootsRequested(item, ps, k);
    var p :| p in ps && p.root == k && Resolve(item, p).Some?;
    ResolveTopLevel(item, p);
  }

  /**
   * Requesting only top-level attributes returns exactly those of them that
   * the item has, each with its value: `{k: item[k] for k in wanted if k in item}`.
   */
  lemma TopLevelProjection(item: Item, ps: seq<PathValue>)
    requires NoOverlaps(ps)
    requires forall p <- ps :: p.operators == []
    ensures Project(item, ps) == map k | k in Roots(ps) && k in item :: item[k]
  {
    var out := Project(item, ps);
    var expected := map k | k in Roots(ps) && k in item :: item[k];
    forall k | k in expected
      ensures k in out && out[k] == expected[k]
    {
      var p :| p in ps && p.root == k;
      TopLevelKept(item, ps, p);
    }
    forall k | k in out
      ensures k in expected
    {
      TopLevelOnly(item, ps, k);
    }
  }

  /**
   * Requesting a single path gives the value it resolves to, wrapped in the
   * maps and one-element lists of the path; a path that does not resolve
   * gives the empty item.
   */
  lemma SinglePathProjection(item: Item, p: PathValue)
    ensures Project(item, [p]) ==
              match Resolve(item, p)
              case None => map[]
              case Some(v) => map[p.root := Wrap(p.operators, v)]
  {
    var r := Resolved(item, [p]);
    assert [p][..0] == [];
    assert Resolved(item, [p][..0]) == [];
    assert [p][0] == p;
    match Resolve(item, p)
    case None =>
      assert r == [];
      assert Materialize(Merge(r)) == Map(map[]);
    case Some(v) =>
      assert r == [(p, v)];
      assert r[..0] == [];
      var leafTree := Put(None, p.operators, v);
      assert Steps(p)[1..] == p.operators;
      assert Merge(r) == Members(map[p.root := leafTree]);
      MaterializeFresh(p.operators, v);
  }

  /** Projecting a whole top-level attribute returns it unchanged. */
  lemma WholeAttribute(item: Item, name: string)
    requires name in item
    ensures Project(item, [PathValue(name, [])]) == map[name := item[name]]
  {
    var p := PathValue(name, []);
    SinglePathProjection(item, p);
    ResolveTopLevel(item, p);
  }

  /** Items that agree on every requested path resolve the same. */
  lemma {:induction false} ResolvedAgree(item1: Item, item2: Item, ps: seq<PathValue>)
    requires forall p <- ps :: Resolve(item1, p) == Resolve(item2, p)
    ensures Resolved(item1, ps) == Resolved(item2, ps)
    decreases |ps|
  {
    if ps != [] {
      var n := |ps| - 1;
      assert forall p <- ps[..n] :: p in ps;
      assert ps[n] in ps;
      ResolvedAgree(item1, item2, ps[..n]);
    }
  }

  /** Projecting an already projected item again changes nothing, for paths without list indexes. */
  lemma ProjectionIdempotent(item: Item, ps: seq<PathValue>)
    requires NoOverlaps(ps)
    requires forall p <- ps :: IndexFree(p)
    ensures Project(Project(item, ps), ps) == Project(item, ps)
  {
    forall p <- ps
      ensures Resolve(Project(item, ps), p) == Resolve(item, p)
    {
      ProjectionKeepsIndexFree(item, ps, p);
    }
    ResolvedAgree(Project(item, ps), item, ps);
  }

  /**
   * Evaluating paths written out without aliases projects exactly those
   * paths when no two of them overlap, and is an error when two do.
   */
  lemma EvaluateRendered(ps: seq<PathValue>, names: Names, item: Item)
    requires |ps| >= 1 && forall p <- ps :: PlainPath(p)
    ensures NoOverlaps(ps) ==> Evaluate(RenderExpression(ps), names, item) == Ok(Project(item, ps))
    ensures !NoOverlaps(ps) ==> Evaluate(RenderExpression(ps), names, item).Err?
  {
    ExpressionRoundTrip(ps, names);
  }

  /**
   * A scan or query with only top-level attributes requested returns, for
   * every item, exactly the requested attributes that item has.
   */
  lemma EvaluateAllTopLevel(expr: string, names: Names, items: seq<Item>)
    requires Compile(expr, names).Ok?
    requires forall p <- Compile(expr, names).value :: p.operators == []
    ensures EvaluateAll(expr, names, items).Ok?
    ensures forall k :: 0 <= k < |items| ==>
              EvaluateAll(expr, names, items).value[k] == map a | a in Roots(Compile(expr, names).value) && a in items[k] :: items[k][a]
  {
    var ps := Compile(expr, names).value;
    forall k | 0 <= k < |items|
      ensures EvaluateAll(expr, names, items).value[k] == map a | a in Roots(ps) && a in items[k] :: items[k][a]
    {
      TopLevelProjection(items[k], ps);
    }
  }
}

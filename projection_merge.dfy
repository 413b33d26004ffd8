/**
 * Merging resolved paths into one projected item.
 *
 * The merge is done in two stages. First every (path, value) pair is put into
 * a sparse tree, creating the maps and lists on the way on demand; a list is
 * kept as slots labelled with the ORIGINAL index they were requested at, in
 * the order the slots were first created. Then the tree is materialized into
 * an ordinary value: each list becomes the list of its slots, packed from
 * position 0 in slot order.
 */
module ProjectionMerge {
  import opened ParsedExpressions
  import opened Wrappers
  import opened Documents

  datatype Tree =
    | Leaf(value: AttributeValue)
    | Members(members: map<string, Tree>)
    | Elements(slots: seq<Slot>)

  /** The part of a projected list that came from index `index` of the stored list. */
  datatype Slot = Slot(index: nat, tree: Tree)

  /** The first slot for original index `i`. */
  function FindSlot(slots: seq<Slot>, i: nat): (r: Option<nat>)
    ensures r.None? <==> forall k :: 0 <= k < |slots| ==> slots[k].index != i
    ensures r.Some? ==> r.value < |slots| && slots[r.value].index == i
    ensures r.Some? ==> forall k :: 0 <= k < r.value ==> slots[k].index != i
    decreases |slots|
  {
    if slots == [] then None
    else if slots[0].index == i then Some(0)
    else match FindSlot(slots[1..], i)
      case None => None
      case Some(k) => Some(k + 1)
  }

  /** The subtree at `ops`, following original list indexes. */
  function Get(t: Tree, ops: seq<Operator>): Option<Tree>
    decreases |ops|
  {
    if ops == [] then Some(t)
    else match ops[0]
      case Dot(n) =>
        if t.Members? && n in t.members then Get(t.members[n], ops[1..]) else None
      case Index(i) =>
        if !t.Elements? then None
        else match FindSlot(t.slots, i)
          case None => None
          case Some(k) => Get(t.slots[k].tree, ops[1..])
  }

  function GetFrom(t: Option<Tree>, ops: seq<Operator>): Option<Tree> {
    if t.None? then None else Get(t.value, ops)
  }

  /**
   * Puts `v` at `ops` below `t` (absent when there is nothing there yet),
   * creating a map for a member step and a list for an index step on demand.
   */
  function Put(t: Option<Tree>, ops: seq<Operator>, v: AttributeValue): Tree
    decreases |ops|, 0
  {
    if ops == [] then Leaf(v)
    else match ops[0]
      case Dot(n) =>
        var m := if t.Some? && t.value.Members? then t.value.members else map[];
        Members(m[n := Put(if n in m then Some(m[n]) else None, ops[1..], v)])
      case Index(i) =>
        var slots := if t.Some? && t.value.Elements? then t.value.slots else [];
        Elements(PutSlot(slots, i, ops[1..], v))
  }

  /** Puts `v` at `ops` below the slot for index `i`, appending a new slot when there is none. */
  function PutSlot(slots: seq<Slot>, i: nat, ops: seq<Operator>, v: AttributeValue): seq<Slot>
    decreases |ops|, 1, |slots|
  {
    if slots == [] then [Slot(i, Put(None, ops, v))]
    else if slots[0].index == i then [Slot(i, Put(Some(slots[0].tree), ops, v))] + slots[1..]
    else [slots[0]] + PutSlot(slots[1..], i, ops, v)
  }

  /**
   * Merges the pairs in order into one tree whose top level is the item's
   * map of attributes.
   */
  function Merge(results: seq<(PathValue, AttributeValue)>): (t: Tree)
    ensures t.Members?
    decreases |results|
  {
    if results == [] then Members(map[])
    else
      var last := results[|results| - 1];
      Put(Some(Merge(results[..|results| - 1])), Steps(last.0), last.1)
  }

  /** Turns the sparse tree into a value, packing each list's slots from position 0. */
  function Materialize(t: Tree): (r: AttributeValue)
    ensures t.Members? ==> r.Map? && r.members.Keys == t.members.Keys
    ensures t.Elements? ==> r.List? && |r.elements| == |t.slots|
  {
    match t
    case Leaf(v) => v
    case Members(m) => Map(map k | k in m :: Materialize(m[k]))
    case Elements(slots) => List(seq(|slots|, k requires 0 <= k < |slots| => Materialize(slots[k].tree)))
  }

  // ---------------------------------------------------------------------------
  // How two paths part

  /** Neither step sequence is a prefix of the other. */
  predicate Apart(a: seq<Operator>, b: seq<Operator>) {
    !(a <= b) && !(b <= a)
  }

  /** `a` and `b` part ways at two steps of the same kind (two members, or two indexes). */
  predicate Separate(a: seq<Operator>, b: seq<Operator>)
    decreases |a|
  {
    a != [] && b != [] &&
    if a[0] == b[0] then Separate(a[1..], b[1..]) else a[0].Dot? == b[0].Dot?
  }

  /** Sequences with the same first element compare as prefixes the way their tails do. */
  lemma PrefixCons(a: seq<Operator>, b: seq<Operator>)
    requires a != [] && b != [] && a[0] == b[0]
    ensures a <= b <==> a[1..] <= b[1..]
  {
    assert a == [a[0]] + a[1..] && b == [b[0]] + b[1..];
  }

  /** Two paths that are apart and both resolve in the same value part at steps of the same kind. */
  lemma {:induction false} ResolvedApartSeparate(v: AttributeValue, a: seq<Operator>, b: seq<Operator>)
    requires Apart(a, b)
    requires Walk(v, a).Some? && Walk(v, b).Some?
    ensures Separate(a, b)
    decreases |a|
  {
    assert a != [] && b != [];
    if a[0] == b[0] {
      PrefixCons(a, b);
      PrefixCons(b, a);
      match a[0]
      case Dot(n) =>
        ResolvedApartSeparate(v.members[n], a[1..], b[1..]);
      case Index(i) =>
        ResolvedApartSeparate(v.elements[i], a[1..], b[1..]);
    }
  }

  // ---------------------------------------------------------------------------
  // Slots

  lemma {:induction false} PutSlotShape(slots: seq<Slot>, i: nat, ops: seq<Operator>, v: AttributeValue)
    ensures FindSlot(slots, i).Some? ==>
              var k := FindSlot(slots, i).value;
              PutSlot(slots, i, ops, v) == slots[k := Slot(i, Put(Some(slots[k].tree), ops, v))]
    ensures FindSlot(slots, i).None? ==>
              PutSlot(slots, i, ops, v) == slots + [Slot(i, Put(None, ops, v))]
    decreases |slots|
  {
    if slots != [] && slots[0].index != i {
      PutSlotShape(slots[1..], i, ops, v);
      var rest := PutSlot(slots[1..], i, ops, v);
      if FindSlot(slots, i).Some? {
        var k := FindSlot(slots, i).value;
        assert [slots[0]] + slots[1..][k - 1 := Slot(i, Put(Some(slots[k].tree), ops, v))]
            == slots[k := Slot(i, Put(Some(slots[k].tree), ops, v))];
      } else {
        assert [slots[0]] + (slots[1..] + [Slot(i, Put(None, ops, v))]) == slots + [Slot(i, Put(None, ops, v))];
      }
    }
  }

  /** Replacing the tree of a slot leaves every lookup by index where it was. */
  lemma FindSlotUpdate(slots: seq<Slot>, k: nat, s: Slot, j: nat)
    requires k < |slots| && s.index == slots[k].index
    ensures FindSlot(slots[k := s], j) == FindSlot(slots, j)
  {
    var updated := slots[k := s];
    assert forall x :: 0 <= x < |slots| ==> updated[x].index == slots[x].index;
  }

  /** Appending a slot leaves every lookup that already succeeded where it was. */
  lemma FindSlotAppend(slots: seq<Slot>, s: Slot, j: nat)
    ensures FindSlot(slots + [s], j) ==
              if FindSlot(slots, j).Some? then FindSlot(slots, j)
              else if s.index == j then Some(|slots|) else None
  {
    var appended := slots + [s];
    assert forall x :: 0 <= x < |slots| ==> appended[x] == slots[x];
    assert appended[|slots|] == s;
  }

  // ---------------------------------------------------------------------------
  // Put: what it adds, what it keeps, and nothing else

  /** After a put, the value is found at the path it was put at. */
  lemma {:induction false} PutGet(t: Option<Tree>, ops: seq<Operator>, v: AttributeValue)
    ensures Get(Put(t, ops, v), ops) == Some(Leaf(v))
    decreases |ops|
  {
    if ops != [] {
      match ops[0]
      case Dot(n) =>
        var m := if t.Some? && t.value.Members? then t.value.members else map[];
        PutGet(if n in m then Some(m[n]) else None, ops[1..], v);
      case Index(i) =>
        var slots := if t.Some? && t.value.Elements? then t.value.slots else [];
        PutSlotShape(slots, i, ops[1..], v);
        if FindSlot(slots, i).Some? {
          var k := FindSlot(slots, i).value;
          FindSlotUpdate(slots, k, Slot(i, Put(Some(slots[k].tree), ops[1..], v)), i);
          PutGet(Some(slots[k].tree), ops[1..], v);
        } else {
          FindSlotAppend(slots, Slot(i, Put(None, ops[1..], v)), i);
          PutGet(None, ops[1..], v);
        }
    }
  }

  /** A put leaves what was at a separate path unchanged. */
  lemma {:induction false} PutKeeps(t: Option<Tree>, ops: seq<Operator>, v: AttributeValue, q: seq<Operator>)
    requires Separate(ops, q)
    requires GetFrom(t, q).Some?
    ensures Get(Put(t, ops, v), q) == GetFrom(t, q)
    decreases |ops|
  {
    var tree := t.value;
    match ops[0]
    case Dot(n) =>
      var m := tree.members;
      if ops[0] == q[0] {
        PutKeeps(Some(m[n]), ops[1..], v, q[1..]);
      }
    case Index(i) =>
      var slots := tree.slots;
      var j := q[0].index;
      var kj := FindSlot(slots, j).value;
      PutSlotShape(slots, i, ops[1..], v);
      if FindSlot(slots, i).Some? {
        var k := FindSlot(slots, i).value;
        FindSlotUpdate(slots, k, Slot(i, Put(Some(slots[k].tree), ops[1..], v)), j);
        if ops[0] == q[0] {
          PutKeeps(Some(slots[k].tree), ops[1..], v, q[1..]);
        }
      } else {
        FindSlotAppend(slots, Slot(i, Put(None, ops[1..], v)), j);
      }
  }

  /**
   * A put adds nothing but the path it puts at: anything found afterwards is
   * on that path or was there before, and the only new leaf is the value put.
   */
  lemma {:induction false} PutOnly(t: Option<Tree>, ops: seq<Operator>, v: AttributeValue, q: seq<Operator>)
    requires Get(Put(t, ops, v), q).Some?
    ensures q <= ops || GetFrom(t, q).Some?
    ensures Get(Put(t, ops, v), q).value.Leaf? ==>
              (q == ops && Get(Put(t, ops, v), q).value == Leaf(v)) ||
              GetFrom(t, q) == Get(Put(t, ops, v), q)
    decreases |ops|, 1
  {
    if ops != [] && q != [] {
      if ops[0].Dot? {
        PutOnlyMember(t, ops, v, q);
      } else {
        PutOnlyIndex(t, ops, v, q);
      }
    }
  }

  /** `PutOnly` for a put whose first step is a member step. */
  lemma {:induction false} PutOnlyMember(t: Option<Tree>, ops: seq<Operator>, v: AttributeValue, q: seq<Operator>)
    requires ops != [] && q != [] && ops[0].Dot?
    requires Get(Put(t, ops, v), q).Some?
    ensures q <= ops || GetFrom(t, q).Some?
    ensures Get(Put(t, ops, v), q).value.Leaf? ==>
              (q == ops && Get(Put(t, ops, v), q).value == Leaf(v)) ||
              GetFrom(t, q) == Get(Put(t, ops, v), q)
    decreases |ops|, 0
  {
    var n := ops[0].name;
    var m := if t.Some? && t.value.Members? then t.value.members else map[];
    var child := if n in m then Some(m[n]) else None;
    if q[0] == ops[0] {
      PutOnly(child, ops[1..], v, q[1..]);
      PrefixCons(q, ops);
      assert q == ops <==> q[1..] == ops[1..] by {
        assert q == [q[0]] + q[1..] && ops == [ops[0]] + ops[1..];
      }
    }
  }

  /** The subtree an index step of a put starts from: the slot for that index, if there is one. */
  function SlotTree(t: Option<Tree>, i: nat): Option<Tree> {
    var slots := if t.Some? && t.value.Elements? then t.value.slots else [];
    if FindSlot(slots, i).Some? then Some(slots[FindSlot(slots, i).value].tree) else None
  }

  /**
   * One index step of a put: a lookup through the same index continues in the
   * slot the put went into, and a lookup through another index sees the tree
   * as it was.
   */
  lemma PutIndexStep(t: Option<Tree>, ops: seq<Operator>, v: AttributeValue, q: seq<Operator>)
    requires ops != [] && q != [] && ops[0].Index? && q[0].Index?
    ensures q[0] == ops[0] ==>
              Get(Put(t, ops, v), q) == Get(Put(SlotTree(t, ops[0].index), ops[1..], v), q[1..]) &&
              GetFrom(t, q) == GetFrom(SlotTree(t, ops[0].index), q[1..])
    ensures q[0] != ops[0] ==> Get(Put(t, ops, v), q) == GetFrom(t, q)
  {
    var i := ops[0].index;
    var slots := if t.Some? && t.value.Elements? then t.value.slots else [];
    var j := q[0].index;
    PutSlotShape(slots, i, ops[1..], v);
    if FindSlot(slots, i).Some? {
      var k := FindSlot(slots, i).value;
      FindSlotUpdate(slots, k, Slot(i, Put(Some(slots[k].tree), ops[1..], v)), j);
    } else {
      FindSlotAppend(slots, Slot(i, Put(None, ops[1..], v)), j);
    }
  }

  /** `PutOnly` for a put whose first step is an index step. */
  lemma {:induction false} PutOnlyIndex(t: Option<Tree>, ops: seq<Operator>, v: AttributeValue, q: seq<Operator>)
    requires ops != [] && q != [] && ops[0].Index?
    requires Get(Put(t, ops, v), q).Some?
    ensures q <= ops || GetFrom(t, q).Some?
    ensures Get(Put(t, ops, v), q).value.Leaf? ==>
              (q == ops && Get(Put(t, ops, v), q).value == Leaf(v)) ||
              GetFrom(t, q) == Get(Put(t, ops, v), q)
    decreases |ops|, 0
  {
    if q[0].Index? {
      PutIndexStep(t, ops, v, q);
      if q[0] == ops[0] {
        PutOnly(SlotTree(t, ops[0].index), ops[1..], v, q[1..]);
        PrefixCons(q, ops);
        assert q == ops <==> q[1..] == ops[1..] by {
          assert q == [q[0]] + q[1..] && ops == [ops[0]] + ops[1..];
        }
      }
    }
  }

  // ---------------------------------------------------------------------------
  // Merge: every pair is found, and nothing else is there

  /** The pairs' step sequences part pairwise at steps of the same kind. */
  predicate Consistent(results: seq<(PathValue, AttributeValue)>) {
    forall i, j :: 0 <= i < |results| && 0 <= j < |results| && i != j ==>
      Separate(Steps(results[i].0), Steps(results[j].0))
  }

  /** Each merged value is found at its own path. */
  lemma {:induction false} MergeFinds(results: seq<(PathValue, AttributeValue)>)
    requires Consistent(results)
    ensures forall j :: 0 <= j < |results| ==>
              Get(Merge(results), Steps(results[j].0)) == Some(Leaf(results[j].1))
    decreases |results|
  {
    if results != [] {
      var n := |results| - 1;
      var init := results[..n];
      var last := results[n];
      assert forall j :: 0 <= j < n ==> init[j] == results[j];
      MergeFinds(init);
      PutGet(Some(Merge(init)), Steps(last.0), last.1);
      forall j | 0 <= j < n
        ensures Get(Merge(results), Steps(results[j].0)) == Some(Leaf(results[j].1))
      {
        PutKeeps(Some(Merge(init)), Steps(last.0), last.1, Steps(results[j].0));
      }
    }
  }

  /**
   * The merged tree holds nothing but the merged paths: everything in it lies
   * on the way to one of them, and every leaf is one of the merged values at
   * its own path.
   */
  lemma {:induction false} MergeOnly(results: seq<(PathValue, AttributeValue)>, q: seq<Operator>)
    requires q != [] && Get(Merge(results), q).Some?
    ensures exists j :: 0 <= j < |results| && q <= Steps(results[j].0)
    ensures Get(Merge(results), q).value.Leaf? ==>
              exists j :: 0 <= j < |results| && q == Steps(results[j].0) &&
                          Get(Merge(results), q).value == Leaf(results[j].1)
    decreases |results|
  {
    var n := |results| - 1;
    var init := results[..n];
    var last := results[n];
    assert forall j :: 0 <= j < n ==> init[j] == results[j];
    PutOnly(Some(Merge(init)), Steps(last.0), last.1, q);
    if GetFrom(Some(Merge(init)), q).Some? {
      MergeOnly(init, q);
    }
  }

  // ---------------------------------------------------------------------------
  // Materializing: list positions are renumbered, nothing else moves

  /**
   * The path at which the subtree at `ops` is found once the tree is
   * materialized: member steps stay, each original index becomes the position
   * of its slot.
   */
  function Renumber(t: Tree, ops: seq<Operator>): (r: seq<Operator>)
    requires Get(t, ops).Some?
    ensures |r| == |ops|
    ensures forall k :: 0 <= k < |ops| ==> (ops[k].Dot? <==> r[k].Dot?) && (ops[k].Dot? ==> r[k] == ops[k])
    decreases |ops|
  {
    if ops == [] then []
    else match ops[0]
      case Dot(n) => [ops[0]] + Renumber(t.members[n], ops[1..])
      case Index(i) =>
        var k := FindSlot(t.slots, i).value;
        [Index(k)] + Renumber(t.slots[k].tree, ops[1..])
  }

  /** Each index step of a renumbered path is the position of its slot in the list reached so far. */
  lemma {:induction false} RenumberIndexIsSlot(t: Tree, ops: seq<Operator>, k: nat)
    requires Get(t, ops).Some? && k < |ops| && ops[k].Index?
    ensures Get(t, ops[..k]).Some? && Get(t, ops[..k]).value.Elements?
    ensures FindSlot(Get(t, ops[..k]).value.slots, ops[k].index) == Some(Renumber(t, ops)[k].index)
    decreases k
  {
    if k > 0 {
      assert ops[..k][0] == ops[0] && ops[..k][1..] == ops[1..][..k - 1];
      match ops[0]
      case Dot(n) =>
        RenumberIndexIsSlot(t.members[n], ops[1..], k - 1);
      case Index(i) =>
        var j := FindSlot(t.slots, i).value;
        RenumberIndexIsSlot(t.slots[j].tree, ops[1..], k - 1);
    }
  }

  /** Two indexes found at the same slot position are the same index. */
  lemma FindSlotInjective(slots: seq<Slot>, i: nat, j: nat)
    requires FindSlot(slots, i).Some?
    ensures FindSlot(slots, j) == FindSlot(slots, i) ==> i == j
  {
  }

  /** Different places in the tree renumber to different paths. */
  lemma {:induction false} RenumberInjective(t: Tree, a: seq<Operator>, b: seq<Operator>)
    requires Get(t, a).Some? && Get(t, b).Some?
    ensures Renumber(t, a) == Renumber(t, b) ==> a == b
    decreases |a|
  {
    if Renumber(t, a) == Renumber(t, b) && a != [] {
      assert b != [];
      match a[0]
      case Dot(n) =>
        assert b[0] == a[0];
        RenumberInjective(t.members[n], a[1..], b[1..]);
      case Index(i) =>
        assert b[0] == a[0] by {
          FindSlotInjective(t.slots, i, b[0].index);
        }
        var k := FindSlot(t.slots, i).value;
        RenumberInjective(t.slots[k].tree, a[1..], b[1..]);
      assert a == [a[0]] + a[1..] && b == [b[0]] + b[1..];
    }
  }

  /** What the tree holds at `ops` is what the materialized value holds at the renumbered path. */
  lemma {:induction false} MaterializeGet(t: Tree, ops: seq<Operator>)
    requires Get(t, ops).Some?
    ensures Walk(Materialize(t), Renumber(t, ops)) == Some(Materialize(Get(t, ops).value))
    decreases |ops|
  {
    if ops != [] {
      var r := Renumber(t, ops);
      match ops[0]
      case Dot(n) =>
        MaterializeGet(t.members[n], ops[1..]);
        assert r[0] == Dot(n) && r[1..] == Renumber(t.members[n], ops[1..]);
      case Index(i) =>
        var k := FindSlot(t.slots, i).value;
        MaterializeGet(t.slots[k].tree, ops[1..]);
        assert r[0] == Index(k) && r[1..] == Renumber(t.slots[k].tree, ops[1..]);
    }
  }

  /** The value that holds `v` at `ops` and nothing else; every list on the way has one element. */
  function Wrap(ops: seq<Operator>, v: AttributeValue): AttributeValue
    decreases |ops|
  {
    if ops == [] then v
    else match ops[0]
      case Dot(n) => Map(map[n := Wrap(ops[1..], v)])
      case Index(_) => List([Wrap(ops[1..], v)])
  }

  /** Putting one value into nothing and materializing gives the value wrapped in its path. */
  lemma {:induction false} MaterializeFresh(ops: seq<Operator>, v: AttributeValue)
    ensures Materialize(Put(None, ops, v)) == Wrap(ops, v)
    decreases |ops|
  {
    if ops != [] {
      MaterializeFresh(ops[1..], v);
      match ops[0]
      case Dot(n) =>
        var m: map<string, Tree> := map[];
        assert Put(None, ops, v) == Members(map[n := Put(None, ops[1..], v)]);
        assert (map k | k in map[n := Put(None, ops[1..], v)] :: Materialize(map[n := Put(None, ops[1..], v)][k]))
            == map[n := Wrap(ops[1..], v)];
      case Index(i) =>
        assert Put(None, ops, v) == Elements([Slot(i, Put(None, ops[1..], v))]);
        var l := seq(1, k requires 0 <= k < 1 => Materialize([Slot(i, Put(None, ops[1..], v))][k].tree));
        assert l == [Wrap(ops[1..], v)];
    }
  }

  // ---------------------------------------------------------------------------
  // Nothing but the merged paths survives materializing

  /** The slots of every list in the tree carry pairwise different original indexes. */
  predicate WellFormed(t: Tree) {
    match t
    case Leaf(_) => true
    case Members(m) => forall n <- m :: WellFormed(m[n])
    case Elements(slots) =>
      (forall a, b :: 0 <= a < b < |slots| ==> slots[a].index != slots[b].index) &&
      forall k :: 0 <= k < |slots| ==> WellFormed(slots[k].tree)
  }

  /** With pairwise different indexes, the lookup by a slot's index finds that slot. */
  lemma FindSlotDistinct(slots: seq<Slot>, k: nat)
    requires forall a, b :: 0 <= a < b < |slots| ==> slots[a].index != slots[b].index
    requires k < |slots|
    ensures FindSlot(slots, slots[k].index) == Some(k)
  {
  }

  /** A put keeps the tree well formed: it creates a slot only for an index that has none. */
  lemma {:induction false} PutWellFormed(t: Option<Tree>, ops: seq<Operator>, v: AttributeValue)
    requires t.Some? ==> WellFormed(t.value)
    ensures WellFormed(Put(t, ops, v))
    decreases |ops|
  {
    if ops != [] {
      match ops[0]
      case Dot(n) =>
        var m := if t.Some? && t.value.Members? then t.value.members else map[];
        PutWellFormed(if n in m then Some(m[n]) else None, ops[1..], v);
      case Index(i) =>
        var slots := if t.Some? && t.value.Elements? then t.value.slots else [];
        if FindSlot(slots, i).Some? {
          PutWellFormed(Some(slots[FindSlot(slots, i).value].tree), ops[1..], v);
        } else {
          PutWellFormed(None, ops[1..], v);
        }
        PutSlotWellFormed(slots, i, ops[1..], v);
    }
  }

  /** Putting below a slot keeps the slots well formed once the put below is. */
  lemma PutSlotWellFormed(slots: seq<Slot>, i: nat, ops: seq<Operator>, v: AttributeValue)
    requires WellFormed(Elements(slots))
    requires FindSlot(slots, i).Some? ==> WellFormed(Put(Some(slots[FindSlot(slots, i).value].tree), ops, v))
    requires FindSlot(slots, i).None? ==> WellFormed(Put(None, ops, v))
    ensures WellFormed(Elements(PutSlot(slots, i, ops, v)))
  {
    PutSlotShape(slots, i, ops, v);
    if FindSlot(slots, i).None? {
      var grown := slots + [Slot(i, Put(None, ops, v))];
      assert forall k :: 0 <= k < |slots| ==> grown[k] == slots[k];
    }
  }

  lemma {:induction false} MergeWellFormed(results: seq<(PathValue, AttributeValue)>)
    ensures WellFormed(Merge(results))
    decreases |results|
  {
    if results != [] {
      var last := results[|results| - 1];
      MergeWellFormed(results[..|results| - 1]);
      PutWellFormed(Some(Merge(results[..|results| - 1])), Steps(last.0), last.1);
    }
  }

  /** A prefix of a path into the tree renumbers to a prefix of the renumbered path. */
  lemma {:induction false} RenumberPrefix(t: Tree, a: seq<Operator>, b: seq<Operator>)
    requires a <= b && Get(t, b).Some?
    ensures Get(t, a).Some? && Renumber(t, a) <= Renumber(t, b)
    decreases |a|
  {
    if a != [] {
      assert b[0] == a[0];
      PrefixCons(a, b);
      match a[0]
      case Dot(n) =>
        RenumberPrefix(t.members[n], a[1..], b[1..]);
      case Index(i) =>
        var k := FindSlot(t.slots, i).value;
        RenumberPrefix(t.slots[k].tree, a[1..], b[1..]);
    }
  }

  /**
   * The place `q` of the materialized value, reached from the tree's own place
   * `ops`: either `q` is that place renumbered, or `ops` holds a leaf and `q`
   * lies inside the leaf's value.
   */
  predicate Origin(t: Tree, q: seq<Operator>, ops: seq<Operator>) {
    Get(t, ops).Some? &&
    (Renumber(t, ops) == q ||
     (Get(t, ops).value.Leaf? && Renumber(t, ops) <= q &&
      Walk(Materialize(t), q) == Walk(Get(t, ops).value.value, q[|ops|..])))
  }

  /**
   * Everything in the materialized value comes from the tree: each place is a
   * renumbered place of the tree, or lies inside one of its leaves.
   */
  lemma {:induction false} MaterializeWalkOnly(t: Tree, q: seq<Operator>)
    requires WellFormed(t) && Walk(Materialize(t), q).Some?
    ensures exists ops :: Origin(t, q, ops)
    decreases |q|
  {
    if q == [] {
      assert Origin(t, q, []);
    } else if t.Leaf? {
      assert q[0..] == q;
      assert Origin(t, q, []);
    } else if t.Members? {
      var n := q[0].name;
      var child := t.members[n];
      assert Walk(Materialize(t), q) == Walk(Materialize(child), q[1..]);
      MaterializeWalkOnly(child, q[1..]);
      var rest :| Origin(child, q[1..], rest);
      OriginCons(t, q, Dot(n), child, rest);
    } else {
      var k := q[0].index;
      var i := t.slots[k].index;
      var child := t.slots[k].tree;
      FindSlotDistinct(t.slots, k);
      assert Walk(Materialize(t), q) == Walk(Materialize(child), q[1..]);
      MaterializeWalkOnly(child, q[1..]);
      var rest :| Origin(child, q[1..], rest);
      OriginCons(t, q, Index(i), child, rest);
    }
  }

  /** One step down: an origin in the child, behind the step to it, is an origin in the tree. */
  lemma OriginCons(t: Tree, q: seq<Operator>, step: Operator, child: Tree, rest: seq<Operator>)
    requires q != [] && Get(t, [step]) == Some(child)
    requires Renumber(t, [step]) == [q[0]]
    requires Walk(Materialize(t), q) == Walk(Materialize(child), q[1..])
    requires Origin(child, q[1..], rest)
    ensures Origin(t, q, [step] + rest)
  {
    var ops := [step] + rest;
    assert ops[0] == step && ops[1..] == rest;
    assert [step][1..] == [];
    assert Get(t, ops) == Get(child, rest);
    var r := Renumber(t, ops);
    assert r == [q[0]] + Renumber(child, rest);
    assert q == [q[0]] + q[1..];
    if Renumber(child, rest) <= q[1..] {
      assert q[|ops|..] == q[1..][|rest|..];
    }
  }
}

/**
 * Items stored in a table: trees of scalars, lists and maps, and how an
 * attribute path is resolved against them.
 */
module Documents {
  import opened ParsedExpressions
  import opened Wrappers

  /** A scalar attribute value; scalars are only compared, never computed with. */
  datatype Scalar = Str(s: string) | Num(digits: string) | Bin(bytes: seq<bv8>) | Bool(b: bool) | Null

  datatype AttributeValue =
    | Scalar(scalar: Scalar)
    | List(elements: seq<AttributeValue>)
    | Map(members: map<string, AttributeValue>)

  /** An item maps each top-level attribute name to its value. */
  type Item = map<string, AttributeValue>

  /**
   * The steps of a path seen from the item itself: the root is a member step
   * into the item, followed by the path's operators.
   */
  function Steps(p: PathValue): (r: seq<Operator>)
    ensures |r| == 1 + |p.operators| && r[0] == Dot(p.root) && r[1..] == p.operators
  {
    [Dot(p.root)] + p.operators
  }

  /**
   * Follows `ops` from `v`. Any missing map member, index past the end or
   * step into the wrong kind of value makes the result absent.
   */
  function Walk(v: AttributeValue, ops: seq<Operator>): Option<AttributeValue>
    decreases |ops|
  {
    if ops == [] then Some(v)
    else match ops[0]
      case Dot(n) =>
        if v.Map? && n in v.members then Walk(v.members[n], ops[1..]) else None
      case Index(i) =>
        if v.List? && i < |v.elements| then Walk(v.elements[i], ops[1..]) else None
  }

  /** Resolves a path against an item: absent when the top-level attribute or any later step is missing. */
  function Resolve(item: Item, p: PathValue): Option<AttributeValue>
  {
    Walk(Map(item), Steps(p))
  }

  /** Resolving a top-level path gives the attribute itself, or absence when the item lacks it. */
  lemma ResolveTopLevel(item: Item, p: PathValue)
    requires p.operators == []
    ensures Resolve(item, p) == if p.root in item then Some(item[p.root]) else None
  {
    assert Steps(p)[1..] == [];
    if p.root in item {
      assert Walk(item[p.root], []) == Some(item[p.root]);
    }
  }

  /** Walking a concatenation is walking its first part, then the rest from there. */
  lemma {:induction false} WalkAppend(v: AttributeValue, ops: seq<Operator>, more: seq<Operator>)
    ensures Walk(v, ops + more) ==
              match Walk(v, ops)
              case None => None
              case Some(w) => Walk(w, more)
    decreases |ops|
  {
    if ops != [] {
      assert (ops + more)[0] == ops[0];
      assert (ops + more)[1..] == ops[1..] + more;
      match ops[0]
      case Dot(n) =>
        if v.Map? && n in v.members {
          WalkAppend(v.members[n], ops[1..], more);
        }
      case Index(i) =>
        if v.List? && i < |v.elements| {
          WalkAppend(v.elements[i], ops[1..], more);
        }
    } else {
      assert ops + more == more;
    }
  }

  /** A path whose prefix is absent is absent itself: a missing prefix contributes nothing. */
  lemma MissingPrefix(v: AttributeValue, ops: seq<Operator>, longer: seq<Operator>)
    requires ops <= longer
    requires Walk(v, ops) == None
    ensures Walk(v, longer) == None
  {
    assert longer == ops + longer[|ops|..];
    WalkAppend(v, ops, longer[|ops|..]);
  }
}

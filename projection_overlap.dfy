/**
 * Overlap between requested paths. One path contains another when its steps
 * are a prefix of the other's (equal paths included); two paths overlap when
 * either contains the other. A projection expression with any overlapping
 * pair is rejected as a whole.
 */
module ProjectionOverlap {
  import opened ParsedExpressions
  import opened Wrappers
  import opened Documents

  /** `a` contains `b`: everything `b` selects is inside what `a` selects. */
  predicate Contains(a: PathValue, b: PathValue) {
    Steps(a) <= Steps(b)
  }

  predicate Overlap(a: PathValue, b: PathValue) {
    Contains(a, b) || Contains(b, a)
  }

  /** No two different positions of `ps` hold overlapping paths. */
  predicate NoOverlaps(ps: seq<PathValue>) {
    forall i, j :: 0 <= i < j < |ps| ==> !Overlap(ps[i], ps[j])
  }

  /** Containment is a matter of equal roots and an operator prefix. */
  lemma ContainsIsPrefix(a: PathValue, b: PathValue)
    ensures Contains(a, b) <==> a.root == b.root && a.operators <= b.operators
  {
    if Contains(a, b) {
      assert Steps(a)[0] == Steps(b)[0];
      assert a.operators == Steps(a)[1..] && b.operators == Steps(b)[1..];
      assert forall k :: 0 <= k < |a.operators| ==> a.operators[k] == Steps(a)[k + 1];
    }
    if a.root == b.root && a.operators <= b.operators {
      assert forall k :: 1 <= k < |Steps(a)| ==> Steps(a)[k] == a.operators[k - 1];
    }
  }

  /** The first position of `qs` whose path overlaps `p`. */
  function FindPartner(p: PathValue, qs: seq<PathValue>): (r: Option<nat>)
    ensures r.None? <==> forall k :: 0 <= k < |qs| ==> !Overlap(p, qs[k])
    ensures r.Some? ==> r.value < |qs| && Overlap(p, qs[r.value])
    ensures r.Some? ==> forall k :: 0 <= k < r.value ==> !Overlap(p, qs[k])
    decreases |qs|
  {
    if qs == [] then None
    else if Overlap(p, qs[0]) then Some(0)
    else match FindPartner(p, qs[1..])
      case None => None
      case Some(k) => Some(k + 1)
  }

  /** No two different positions from `i` on hold overlapping paths. */
  predicate NoOverlapsFrom(ps: seq<PathValue>, i: nat) {
    forall a, b :: i <= a < b < |ps| ==> !Overlap(ps[a], ps[b])
  }

  /**
   * The first overlapping pair of positions from `i` on, comparing each path
   * with every later one; absent exactly when there is none.
   */
  function FindOverlapFrom(ps: seq<PathValue>, i: nat): (r: Option<(nat, nat)>)
    ensures r.None? <==> NoOverlapsFrom(ps, i)
    ensures r.Some? ==> i <= r.value.0 < r.value.1 < |ps| && Overlap(ps[r.value.0], ps[r.value.1])
    decreases |ps| - i
  {
    if i >= |ps| then None
    else
      var partner := FindPartner(ps[i], ps[i + 1..]);
      if partner.Some? then
        PartnerOverlap(ps, i, partner.value);
        Some((i, i + 1 + partner.value))
      else
        var later := FindOverlapFrom(ps, i + 1);
        if later.None? then
          NoPartnerNoOverlap(ps, i);
          None
        else
          later
  }

  lemma PartnerOverlap(ps: seq<PathValue>, i: nat, k: nat)
    requires i < |ps| && k < |ps[i + 1..]| && Overlap(ps[i], ps[i + 1..][k])
    ensures Overlap(ps[i], ps[i + 1 + k]) && !NoOverlapsFrom(ps, i)
  {
    assert ps[i + 1..][k] == ps[i + 1 + k];
  }

  lemma NoPartnerNoOverlap(ps: seq<PathValue>, i: nat)
    requires i < |ps|
    requires FindPartner(ps[i], ps[i + 1..]).None?
    requires NoOverlapsFrom(ps, i + 1)
    ensures NoOverlapsFrom(ps, i)
  {
    forall a, b | i <= a < b < |ps|
      ensures !Overlap(ps[a], ps[b])
    {
      if a == i {
        assert ps[b] == ps[i + 1..][b - i - 1];
      }
    }
  }

  /** The first overlapping pair of positions; absent exactly when the paths are pairwise free of overlap. */
  function FindOverlap(ps: seq<PathValue>): (r: Option<(nat, nat)>)
    ensures r.None? <==> NoOverlaps(ps)
    ensures r.Some? ==> r.value.0 < r.value.1 < |ps| && Overlap(ps[r.value.0], ps[r.value.1])
  {
    FindOverlapFrom(ps, 0)
  }

  /** Every path overlaps itself: a path requested twice is an overlap. */
  lemma OverlapReflexive(p: PathValue)
    ensures Overlap(p, p)
  {
  }

  /** A list with the same path twice, anywhere, overlaps. */
  lemma DuplicateOverlaps(ps: seq<PathValue>, i: nat, j: nat)
    requires i < j < |ps| && ps[i] == ps[j]
    ensures FindOverlap(ps).Some?
  {
    OverlapReflexive(ps[i]);
  }

  /** Under pairwise freedom from overlap, paths at different positions are different. */
  lemma NoOverlapsDistinct(ps: seq<PathValue>, i: nat, j: nat)
    requires NoOverlaps(ps) && i < |ps| && j < |ps| && i != j
    ensures ps[i] != ps[j]
  {
    OverlapReflexive(ps[i]);
  }

  /** Under pairwise freedom from overlap, a path contains another position's path only when it is that position. */
  lemma ContainedIsSame(ps: seq<PathValue>, i: nat, j: nat)
    requires NoOverlaps(ps) && i < |ps| && j < |ps|
    requires Contains(ps[i], ps[j])
    ensures i == j
  {
  }
}

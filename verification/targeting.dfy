/**
 * AnimalAI.FindClosestTarget: the nearest collider in a sphere-overlap
 * result that is not the seeker itself, carries the wanted component and
 * passes the optional predicate.
 */
module Targeting {
  import opened Wrappers
  import opened Geometry
  import opened Worlds

  /** float.MaxValue: the starting bound of the nearest-distance scan. */
  const FloatMaxValue: real := 340282346638528859811704183484516925440.0

  /** One collider from Physics.OverlapSphere, in the order the physics engine returned it. */
  datatype Candidate = Candidate(id: EntityId, pos: Vec3, kind: Kind)

  /**
   * The component type T of FindClosestTarget<T> (as a test on the
   * collider's component kind) and the optional predicate; None stands for
   * the null predicate.
   */
  datatype Query = Query(isType: Kind -> bool, filter: Option<Kind -> bool>)

  /** Whether a collider is eligible: not the seeker, of type T, and accepted by the predicate. */
  predicate Qualifies(self: EntityId, q: Query, c: Candidate) {
    && c.id != self
    && q.isType(c.kind)
    && (q.filter.None? || q.filter.value(c.kind))
  }

  function DistSqr(from: Vec3, cands: seq<Candidate>, j: nat): real
    requires j < |cands|
  {
    SqrDist(from, cands[j].pos)
  }

  /**
   * Index k is the scan's answer: an eligible candidate below float.MaxValue,
   * strictly nearer than every eligible candidate before it (so the first
   * one wins a tie) and no farther than every eligible candidate after it.
   */
  predicate IsClosest(self: EntityId, from: Vec3, q: Query, cands: seq<Candidate>, k: nat) {
    && k < |cands|
    && Qualifies(self, q, cands[k])
    && DistSqr(from, cands, k) < FloatMaxValue
    && (forall j :: 0 <= j < k && Qualifies(self, q, cands[j]) ==> DistSqr(from, cands, j) > DistSqr(from, cands, k))
    && (forall j :: k < j < |cands| && Qualifies(self, q, cands[j]) ==> DistSqr(from, cands, j) >= DistSqr(from, cands, k))
  }

  /** No eligible candidate beats the initial bound float.MaxValue. */
  predicate NoneEligible(self: EntityId, from: Vec3, q: Query, cands: seq<Candidate>) {
    forall j :: 0 <= j < |cands| && Qualifies(self, q, cands[j]) ==> DistSqr(from, cands, j) >= FloatMaxValue
  }

  /** The foreach loop from position i on, holding the best index so far and its squared distance. */
  function ScanFrom(self: EntityId, from: Vec3, q: Query, cands: seq<Candidate>,
                    i: nat, best: Option<nat>, minDistSqr: real): (r: Option<nat>)
    requires i <= |cands|
    requires best.Some? ==> best.value < i
    ensures r.Some? ==> r.value < |cands|
    decreases |cands| - i
  {
    if i == |cands| then best
    else if Qualifies(self, q, cands[i]) && DistSqr(from, cands, i) < minDistSqr then
      ScanFrom(self, from, q, cands, i + 1, Some(i), DistSqr(from, cands, i))
    else
      ScanFrom(self, from, q, cands, i + 1, best, minDistSqr)
  }

  /** Position of the chosen collider in the overlap result, if any. */
  function ClosestIndex(self: EntityId, from: Vec3, q: Query, cands: seq<Candidate>): Option<nat> {
    ScanFrom(self, from, q, cands, 0, None, FloatMaxValue)
  }

  /** AnimalAI.FindClosestTarget<T>(layer, predicate) over the given overlap result. */
  function FindClosestTarget(self: EntityId, from: Vec3, q: Query, cands: seq<Candidate>): (r: Option<Candidate>)
    ensures r.Some? ==> r.value in cands && r.value.id != self && Qualifies(self, q, r.value)
    ensures r.None? <==> NoneEligible(self, from, q, cands)
    ensures r.Some? ==> exists k: nat :: IsClosest(self, from, q, cands, k) && cands[k] == r.value
  {
    ClosestIndexCorrect(self, from, q, cands);
    match ClosestIndex(self, from, q, cands)
    case Some(k) => Some(cands[k])
    case None => None
  }

  /** What the loop has established after looking at the first i candidates. */
  predicate ScanInvariant(self: EntityId, from: Vec3, q: Query, cands: seq<Candidate>,
                          i: nat, best: Option<nat>, m: real) {
    && i <= |cands|
    && (best.None? ==>
          && m == FloatMaxValue
          && forall j :: 0 <= j < i && Qualifies(self, q, cands[j]) ==> DistSqr(from, cands, j) >= FloatMaxValue)
    && (best.Some? ==>
          && best.value < i
          && Qualifies(self, q, cands[best.value])
          && m == DistSqr(from, cands, best.value)
          && m < FloatMaxValue
          && (forall j :: 0 <= j < best.value && Qualifies(self, q, cands[j]) ==> DistSqr(from, cands, j) > m)
          && (forall j :: best.value < j < i && Qualifies(self, q, cands[j]) ==> DistSqr(from, cands, j) >= m))
  }

  lemma {:induction false} ScanFromCorrect(self: EntityId, from: Vec3, q: Query, cands: seq<Candidate>,
                                           i: nat, best: Option<nat>, m: real)
    requires ScanInvariant(self, from, q, cands, i, best, m)
    ensures var r := ScanFrom(self, from, q, cands, i, best, m);
      && (r.Some? ==> IsClosest(self, from, q, cands, r.value))
      && (r.None? ==> NoneEligible(self, from, q, cands))
    decreases |cands| - i
  {
    if i < |cands| {
      if Qualifies(self, q, cands[i]) && DistSqr(from, cands, i) < m {
        ScanFromCorrect(self, from, q, cands, i + 1, Some(i), DistSqr(from, cands, i));
      } else {
        ScanFromCorrect(self, from, q, cands, i + 1, best, m);
      }
    }
  }

  /** The scan returns exactly the closest eligible index, and nothing only when none is eligible. */
  lemma ClosestIndexCorrect(self: EntityId, from: Vec3, q: Query, cands: seq<Candidate>)
    ensures var r := ClosestIndex(self, from, q, cands);
      && (r.Some? ==> IsClosest(self, from, q, cands, r.value))
      && (r.None? <==> NoneEligible(self, from, q, cands))
  {
    ScanFromCorrect(self, from, q, cands, 0, None, FloatMaxValue);
  }

  /** The closest index is unique, so IsClosest is a complete specification of the scan. */
  lemma ClosestIsUnique(self: EntityId, from: Vec3, q: Query, cands: seq<Candidate>, k1: nat, k2: nat)
    requires IsClosest(self, from, q, cands, k1)
    requires IsClosest(self, from, q, cands, k2)
    ensures k1 == k2
  {
  }

  /** Of two equally near eligible candidates, the later one is never chosen. */
  lemma {:induction false} FirstWinsTies(self: EntityId, from: Vec3, q: Query, cands: seq<Candidate>, i: nat, j: nat)
    requires i < j < |cands|
    requires Qualifies(self, q, cands[i]) && Qualifies(self, q, cands[j])
    requires DistSqr(from, cands, i) == DistSqr(from, cands, j)
    ensures ClosestIndex(self, from, q, cands) != Some(j)
  {
    ClosestIndexCorrect(self, from, q, cands);
  }

  /** A null predicate behaves like one that accepts every candidate. */
  lemma NullPredicateAcceptsAll(self: EntityId, from: Vec3, isType: Kind -> bool, cands: seq<Candidate>)
    ensures FindClosestTarget(self, from, Query(isType, None), cands)
         == FindClosestTarget(self, from, Query(isType, Some(k => true)), cands)
  {
    var q1, q2 := Query(isType, None), Query(isType, Some(k => true));
    assert forall c :: Qualifies(self, q1, c) == Qualifies(self, q2, c);
    ScanSameEligibility(self, from, q1, q2, cands, 0, None, FloatMaxValue);
  }

  lemma {:induction false} ScanSameEligibility(self: EntityId, from: Vec3, q1: Query, q2: Query, cands: seq<Candidate>,
                                               i: nat, best: Option<nat>, m: real)
    requires i <= |cands|
    requires best.Some? ==> best.value < i
    requires forall c :: Qualifies(self, q1, c) == Qualifies(self, q2, c)
    ensures ScanFrom(self, from, q1, cands, i, best, m) == ScanFrom(self, from, q2, cands, i, best, m)
    decreases |cands| - i
  {
    if i < |cands| {
      if Qualifies(self, q1, cands[i]) && DistSqr(from, cands, i) < m {
        ScanSameEligibility(self, from, q1, q2, cands, i + 1, Some(i), DistSqr(from, cands, i));
      } else {
        ScanSameEligibility(self, from, q1, q2, cands, i + 1, best, m);
      }
    }
  }
}

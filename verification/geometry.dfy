/**
 * Unity's Vector3 with real components. Floating-point rounding is not
 * modelled: every operation is exact real arithmetic.
 */
module Geometry {

  datatype Vec3 = Vec3(x: real, y: real, z: real)

  function Add(a: Vec3, b: Vec3): Vec3 {
    Vec3(a.x + b.x, a.y + b.y, a.z + b.z)
  }

  function Sub(a: Vec3, b: Vec3): Vec3 {
    Vec3(a.x - b.x, a.y - b.y, a.z - b.z)
  }

  function Scale(a: Vec3, k: real): Vec3 {
    Vec3(a.x * k, a.y * k, a.z * k)
  }

  /** Vector3.sqrMagnitude */
  function SqrMagnitude(a: Vec3): real {
    a.x * a.x + a.y * a.y + a.z * a.z
  }

  /** (a - b).sqrMagnitude */
  function SqrDist(a: Vec3, b: Vec3): real {
    SqrMagnitude(Sub(a, b))
  }

  /**
   * `Vector3.Distance(a, b) < limit`, stated without the square root:
   * the distance is the non-negative root of SqrDist(a, b).
   */
  predicate CloserThan(a: Vec3, b: Vec3, limit: real) {
    0.0 < limit && SqrDist(a, b) < limit * limit
  }

  lemma SqrMagnitudeNonNegative(a: Vec3)
    ensures SqrMagnitude(a) >= 0.0
  {
  }

  /** CloserThan agrees with comparing the true (square-rooted) distance against the limit. */
  lemma CloserThanIsDistanceBelow(a: Vec3, b: Vec3, limit: real, distance: real)
    requires distance >= 0.0 && distance * distance == SqrDist(a, b)
    ensures CloserThan(a, b, limit) <==> distance < limit
  {
    var sq := SqrDist(a, b);
    if distance < limit {
      SquareStrictlyMonotone(distance, limit);
      assert sq < limit * limit;
    } else if 0.0 < limit {
      SquareMonotone(limit, distance);
      assert limit * limit <= sq;
    }
  }

  lemma SquareMonotone(p: real, q: real)
    requires 0.0 <= p <= q
    ensures p * p <= q * q
  {
    var pp, pq, qq := p * p, p * q, q * q;
    assert pp <= pq;
    assert pq <= qq;
  }

  lemma SquareStrictlyMonotone(p: real, q: real)
    requires 0.0 <= p < q
    ensures p * p < q * q
  {
    var pp, pq, qq := p * p, p * q, q * q;
    assert pp <= pq;
    assert pq < qq;
  }

  /** Scaling a vector by k scales its squared length by k * k. */
  lemma SqrMagnitudeScale(v: Vec3, k: real)
    ensures SqrMagnitude(Scale(v, k)) == k * k * SqrMagnitude(v)
  {
    var xx, yy, zz := v.x * v.x, v.y * v.y, v.z * v.z;
    assert (v.x * k) * (v.x * k) == k * k * xx;
    assert (v.y * k) * (v.y * k) == k * k * yy;
    assert (v.z * k) * (v.z * k) == k * k * zz;
  }

  /** Stepping from p by k·f times p - t lands 1 + f·k times as far from t along the same line. */
  lemma StepAway(p: Vec3, t: Vec3, k: real, f: real)
    ensures Sub(Add(p, Scale(Scale(Sub(p, t), k), f)), t) == Scale(Sub(p, t), 1.0 + f * k)
  {
    var d := Sub(p, t);
    var c := 1.0 + f * k;
    var lhs := Sub(Add(p, Scale(Scale(d, k), f)), t);
    var rhs := Scale(d, c);
    StepAwayComponent(p.x, t.x, d.x, k, f, c);
    StepAwayComponent(p.y, t.y, d.y, k, f, c);
    StepAwayComponent(p.z, t.z, d.z, k, f, c);
    assert lhs.x == rhs.x && lhs.y == rhs.y && lhs.z == rhs.z;
  }

  /** One coordinate of StepAway, with d = p - t and c = 1 + f·k named. */
  lemma StepAwayComponent(p: real, t: real, d: real, k: real, f: real, c: real)
    requires d == p - t && c == 1.0 + f * k
    ensures (p + (d * k) * f) - t == d * c
  {
    var dkf := (d * k) * f;
    assert dkf == d * (f * k);
    assert d * c == d + d * (f * k);
  }

  /** Scaling a vector of length at most 1 by k gives a vector of length at most |k|. */
  lemma ScaledUnitBallWithin(v: Vec3, k: real)
    requires SqrMagnitude(v) <= 1.0
    ensures SqrMagnitude(Scale(v, k)) <= k * k
  {
    calc {
      SqrMagnitude(Scale(v, k));
    ==
      (v.x * k) * (v.x * k) + (v.y * k) * (v.y * k) + (v.z * k) * (v.z * k);
    ==
      k * k * SqrMagnitude(v);
    <=  { assert k * k >= 0.0; }
      k * k;
    }
  }
}

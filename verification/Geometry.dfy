// The XZ ground plane. Coordinates are reals; Euclidean distances are compared
// through their squares, so no square root is needed.

module Geometry {

  datatype Pos = Pos(x: real, z: real)

  function SqDist(a: Pos, b: Pos): (d: real)
    ensures a == b ==> d == 0.0
    ensures a != b ==> d > 0.0
  {
    SquareSign(a.x - b.x);
    SquareSign(a.z - b.z);
    Square(a.x - b.x) + Square(a.z - b.z)
  }

  function Square(a: real): real {
    a * a
  }

  function Product(a: real, b: real): real {
    a * b
  }

  lemma ProductSign(a: real, b: real)
    requires a > 0.0 && b > 0.0
    ensures Product(a, b) > 0.0
  {
  }

  lemma SquareSign(a: real)
    ensures a == 0.0 ==> Square(a) == 0.0
    ensures a != 0.0 ==> Square(a) > 0.0
  {
    if a > 0.0 {
      ProductSign(a, a);
    } else if a < 0.0 {
      ProductSign(-a, -a);
      assert Square(a) == Square(-a);
    }
  }

  lemma ProductMonotone(a: real, b: real, c: real, d: real)
    requires 0.0 <= a <= b && 0.0 <= c <= d
    ensures a * c <= b * d
  {
    assert a * c <= b * c;
    assert b * c <= b * d;
  }

  lemma SquareOrder(a: real, b: real)
    requires a >= 0.0 && b >= 0.0
    ensures a <= b ==> Square(a) <= Square(b)
    ensures a > b ==> Square(a) > Square(b)
  {
    if a <= b {
      ProductMonotone(a, b, a, b);
    } else {
      ProductSign(a - b, a + b);
      assert (a - b) * (a + b) == a * a - b * b;
    }
  }

  /** The hysteresis test sqrt(newSq) >= sqrt(oldSq) - margin, on squared distances. */
  predicate StaysWithin(newSq: real, oldSq: real, margin: real) {
    var gap := oldSq - newSq - margin * margin;
    gap <= 0.0 || gap * gap <= 4.0 * margin * margin * newSq
  }

  // StaysWithin is the test on the distances themselves.
  lemma StaysWithinIsDistanceTest(distNew: real, distOld: real, margin: real)
    requires distNew >= 0.0 && distOld >= 0.0 && margin > 0.0
    ensures StaysWithin(distNew * distNew, distOld * distOld, margin) <==> distNew >= distOld - margin
  {
    var gap := distOld * distOld - distNew * distNew - margin * margin;
    var twice := 2.0 * margin * distNew;
    SquareOrder(distOld, distNew + margin);
    assert (distNew + margin) * (distNew + margin) == distNew * distNew + twice + margin * margin;
    assert distNew >= distOld - margin <==> gap <= twice;
    assert twice >= 0.0 && twice * twice == 4.0 * margin * margin * (distNew * distNew);
    if gap > 0.0 {
      SquareOrder(gap, twice);
    }
  }

  // A player already at the new centroid's distance is never moved by a positive margin.
  lemma StaysWithinSelf(sq: real, margin: real)
    ensures StaysWithin(sq, sq, margin)
  {
    SquareSign(margin);
  }

  lemma SqDistSymmetric(a: Pos, b: Pos)
    ensures SqDist(a, b) == SqDist(b, a)
  {
    SquareMirror(a.x - b.x);
    SquareMirror(a.z - b.z);
  }

  lemma SquareMirror(d: real)
    ensures Square(d) == Square(-d)
  {
  }

  /** How far, squared, m steps of squared length `step` can lead. */
  ghost function Reach(m: nat, step: real): real {
    Square(m as real) * step
  }

  lemma ReachMonotone(m: nat, small: real, large: real)
    requires 0.0 <= small <= large
    ensures Reach(m, small) <= Reach(m, large)
  {
    SquareSign(m as real);
    hide Square;
    ProductMonotone(Square(m as real), Square(m as real), small, large);
  }

  lemma ReachIsSquare(m: nat, t: real)
    ensures Reach(m, Square(t)) == Square(m as real * t)
  {
    Regroup(m as real, t);
  }

  lemma Regroup(r: real, t: real)
    ensures Square(r) * Square(t) == Square(r * t)
  {
    assert (r * r) * (t * t) == (r * t) * (r * t);
  }

  /** One more step reaches one step farther. */
  lemma StepsAddUp(a: Pos, b: Pos, c: Pos, m: nat, step: real)
    requires SqDist(a, b) <= Reach(m, step)
    requires SqDist(b, c) <= step
    ensures SqDist(a, c) <= Reach(m + 1, step)
  {
    hide Square;
    VectorSum(a.x - b.x, a.z - b.z, b.x - c.x, b.z - c.z, m as real, step);
    assert a.x - c.x == (a.x - b.x) + (b.x - c.x);
    assert a.z - c.z == (a.z - b.z) + (b.z - c.z);
    assert (m + 1) as real == m as real + 1.0;
  }

  lemma VectorSum(ux: real, uz: real, vx: real, vz: real, r: real, step: real)
    requires r >= 0.0
    requires Square(ux) + Square(uz) <= Square(r) * step
    requires Square(vx) + Square(vz) <= step
    ensures Square(ux + vx) + Square(uz + vz) <= Square(r + 1.0) * step
  {
    SquareSign(ux); SquareSign(uz); SquareSign(vx); SquareSign(vz);
    ExpandSquare(ux, vx);
    ExpandSquare(uz, vz);
    NextSquare(r);
    CauchySchwarz(ux, uz, vx, vz);
    hide Square;
    SumWithin(Square(ux) + Square(uz), Square(vx) + Square(vz), ux * vx + uz * vz, r, step);
  }

  lemma SumWithin(uu: real, vv: real, uv: real, r: real, step: real)
    requires r >= 0.0 && 0.0 <= uu <= Square(r) * step && 0.0 <= vv <= step
    requires Square(uv) <= uu * vv
    ensures uu + 2.0 * uv + vv <= (Square(r) + 2.0 * r + 1.0) * step
  {
    hide Square;
    InnerProductBound(uu, vv, uv, r, step);
    Distribute(Square(r), r, step);
  }

  lemma NextSquare(r: real)
    ensures Square(r + 1.0) == Square(r) + 2.0 * r + 1.0
  {
  }

  lemma InnerProductBound(uu: real, vv: real, uv: real, r: real, step: real)
    requires r >= 0.0 && 0.0 <= uu <= Square(r) * step && 0.0 <= vv <= step
    requires Square(uv) <= uu * vv
    ensures uv <= r * step
  {
    var bound := r * step;
    ProductMonotone(0.0, r, 0.0, step);
    ProductMonotone(uu, Square(r) * step, vv, step);
    SquaredProduct(r, step);
    if uv > bound {
      SquareOrder(uv, bound);
    }
  }

  lemma SquaredProduct(r: real, step: real)
    ensures Square(r) * step * step == Square(r * step)
  {
    assert (r * r) * step * step == (r * step) * (r * step);
  }

  lemma Distribute(a: real, b: real, step: real)
    ensures (a + 2.0 * b + 1.0) * step == a * step + 2.0 * (b * step) + step
  {
  }

  lemma ExpandSquare(a: real, b: real)
    ensures Square(a + b) == Square(a) + 2.0 * (a * b) + Square(b)
  {
  }

  lemma CauchySchwarz(ux: real, uz: real, vx: real, vz: real)
    ensures Square(ux * vx + uz * vz) <= (Square(ux) + Square(uz)) * (Square(vx) + Square(vz))
  {
    var xx, zz, xz, zx := ux * vx, uz * vz, ux * vz, uz * vx;
    SquareSign(xz - zx);
    ExpandSquare(xx, zz);
    ExpandSquare(xz, -zx);
    SquareMirror(zx);
    MiddlesAgree(ux, uz, vx, vz);
    Regroup(ux, vx);
    Regroup(ux, vz);
    Regroup(uz, vx);
    Regroup(uz, vz);
    hide Square;
    CrossMultiply(Square(ux), Square(uz), Square(vx), Square(vz));
    assert xz * -zx == -(xz * zx);
  }

  lemma MiddlesAgree(ux: real, uz: real, vx: real, vz: real)
    ensures (ux * vx) * (uz * vz) == (ux * vz) * (uz * vx)
  {
  }

  lemma CrossMultiply(a: real, b: real, c: real, d: real)
    ensures (a + b) * (c + d) == a * c + a * d + b * c + b * d
  {
  }
}

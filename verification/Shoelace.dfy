// The shoelace loop signedArea of backend/internal/geometry/geometry.go: what
// it computes on closed rings, and how far snapping can move it.

module Shoelace {
  import opened Planar

  type Ring = seq<Point>

  predicate Closed(ring: Ring) {
    |ring| > 0 && ring[0] == ring[|ring| - 1]
  }

  function Cross(a: Point, b: Point): real {
    a.x * b.y - b.x * a.y
  }

  // Twice the signed area: the sum of Cross over consecutive points.
  function CrossSum(ring: Ring): real {
    if |ring| < 2 then 0.0 else Cross(ring[0], ring[1]) + CrossSum(ring[1..])
  }

  function Area(ring: Ring): real {
    CrossSum(ring) / 2.0
  }

  // The sum over a ring is the sum up to a vertex plus the sum from it.
  lemma {:induction false} SumSplit(ring: Ring, k: nat)
    requires k < |ring|
    ensures CrossSum(ring) == CrossSum(ring[..k + 1]) + CrossSum(ring[k..])
  {
    hide Cross;
    if k == 0 {
      assert ring[0..] == ring;
    } else {
      var tail := ring[1..];
      SumSplit(tail, k - 1);
      assert tail[k - 1..] == ring[k..];
      assert ring[..k + 1][1..] == tail[..k];
    }
  }

  method SignedArea(ring: Ring) returns (area: real)
    ensures area == Area(ring)
  {
    hide Cross;
    var sum := 0.0;
    var i := 0;
    while i + 1 < |ring|
      invariant 0 <= i && (|ring| > 0 ==> i < |ring|) && (|ring| == 0 ==> i == 0)
      invariant |ring| > 0 ==> sum == CrossSum(ring[..i + 1])
      invariant |ring| == 0 ==> sum == 0.0
    {
      SumSplit(ring[..i + 2], i);
      assert ring[..i + 2][..i + 1] == ring[..i + 1];
      assert ring[..i + 2][i..] == [ring[i], ring[i + 1]];
      assert [ring[i], ring[i + 1]][1..] == [ring[i + 1]];
      sum := sum + Cross(ring[i], ring[i + 1]);
      i := i + 1;
    }
    assert |ring| > 0 ==> ring[..i + 1] == ring;
    return sum / 2.0;
  }

  // ------------------------------------------------- starting vertex, reversal

  // The same closed ring, listed from its k-th vertex.
  function Rotate(ring: Ring, k: nat): (r: Ring)
    requires k < |ring|
    ensures |r| == |ring|
  {
    ring[k..] + ring[1..k + 1]
  }

  lemma AreaRotate(ring: Ring, k: nat)
    requires Closed(ring) && k < |ring|
    ensures Closed(Rotate(ring, k)) && Area(Rotate(ring, k)) == Area(ring)
  {
    hide Cross, CrossSum;
    var turned := Rotate(ring, k);
    var seam := |ring| - 1 - k;
    SumSplit(turned, seam);
    SumSplit(ring, k);
    assert turned[..seam + 1] == ring[k..];
    assert turned[seam..] == ring[..k + 1];
  }

  function Reverse(ring: Ring): (r: Ring)
    ensures |r| == |ring|
  {
    if ring == [] then [] else Reverse(ring[1..]) + [ring[0]]
  }

  lemma {:induction false} ReverseAt(ring: Ring, k: nat)
    requires k < |ring|
    ensures Reverse(ring)[k] == ring[|ring| - 1 - k]
  {
    if k < |ring| - 1 {
      ReverseAt(ring[1..], k);
    }
  }

  lemma CrossSumPair(a: Point, b: Point)
    ensures CrossSum([a, b]) == Cross(a, b)
    ensures Cross(b, a) == -Cross(a, b)
  {
    assert [a, b][1..] == [b];
  }

  lemma {:induction false} AreaReverse(ring: Ring)
    ensures Area(Reverse(ring)) == -Area(ring)
    ensures Closed(ring) ==> Closed(Reverse(ring))
  {
    hide Cross;
    if |ring| > 0 {
      ReverseAt(ring, 0);
      ReverseAt(ring, |ring| - 1);
    }
    if |ring| >= 2 {
      var tail := ring[1..];
      AreaReverse(tail);
      ReverseAt(tail, |tail| - 1);
      var r := Reverse(ring);
      SumSplit(r, |r| - 2);
      assert r[..|r| - 1] == Reverse(tail);
      assert r[|r| - 2..] == [tail[0], ring[0]];
      CrossSumPair(tail[0], ring[0]);
      CrossSumPair(ring[0], tail[0]);
      assert CrossSum(r) == CrossSum(Reverse(tail)) + Cross(tail[0], ring[0]);
    } else {
      assert |Reverse(ring)| < 2;
    }
  }

  // ------------------------------------------------------- translation, chords

  function Shift(p: Point, v: Point): Point {
    Point(p.x + v.x, p.y + v.y)
  }

  function Translate(ring: Ring, v: Point): Ring {
    seq(|ring|, i requires 0 <= i < |ring| => Shift(ring[i], v))
  }

  lemma CrossShift(a: Point, b: Point, v: Point)
    ensures Cross(Shift(a, v), Shift(b, v)) == Cross(a, b) + Cross(v, b) - Cross(v, a)
  {
    assert (a.x + v.x) * (b.y + v.y) == a.x * b.y + a.x * v.y + v.x * b.y + v.x * v.y;
    assert (b.x + v.x) * (a.y + v.y) == b.x * a.y + b.x * v.y + v.x * a.y + v.x * v.y;
  }

  lemma {:induction false} SumTranslate(ring: Ring, v: Point)
    requires |ring| > 0
    ensures CrossSum(Translate(ring, v)) == CrossSum(ring) + Cross(v, ring[|ring| - 1]) - Cross(v, ring[0])
  {
    hide Cross, Shift;
    if |ring| >= 2 {
      SumTranslate(ring[1..], v);
      assert Translate(ring, v)[1..] == Translate(ring[1..], v);
      CrossShift(ring[0], ring[1], v);
    }
  }

  lemma AreaTranslate(ring: Ring, v: Point)
    requires Closed(ring)
    ensures Closed(Translate(ring, v)) && Area(Translate(ring, v)) == Area(ring)
  {
    hide Cross, CrossSum;
    SumTranslate(ring, v);
  }

  // Cutting a ring along the chord between vertices i and j.
  function OuterPart(ring: Ring, i: nat, j: nat): Ring
    requires i < j < |ring|
  {
    ring[..i + 1] + ring[j..]
  }

  function InnerPart(ring: Ring, i: nat, j: nat): Ring
    requires i < j < |ring|
  {
    ring[i..j + 1] + [ring[i]]
  }

  lemma AreaChord(ring: Ring, i: nat, j: nat)
    requires Closed(ring) && i < j < |ring|
    ensures Closed(OuterPart(ring, i, j)) && Closed(InnerPart(ring, i, j))
    ensures Area(ring) == Area(OuterPart(ring, i, j)) + Area(InnerPart(ring, i, j))
  {
    hide Cross, CrossSum;
    var outer, inner := OuterPart(ring, i, j), InnerPart(ring, i, j);
    SumSplit(ring, j);
    SumSplit(ring[..j + 1], i);
    assert ring[..j + 1][..i + 1] == ring[..i + 1];
    assert ring[..j + 1][i..] == ring[i..j + 1];
    SumSplit(outer, i + 1);
    SumSplit(outer[..i + 2], i);
    assert outer[i + 1..] == ring[j..];
    assert outer[..i + 2][..i + 1] == ring[..i + 1];
    assert outer[..i + 2][i..] == [ring[i], ring[j]];
    SumSplit(inner, j - i);
    assert inner[..j - i + 1] == ring[i..j + 1];
    assert inner[j - i..] == [ring[j], ring[i]];
    CrossSumPair(ring[i], ring[j]);
    CrossSumPair(ring[j], ring[i]);
  }

  // The unit of all this: half the cross product of two sides of a triangle,
  // positive when it is listed counter-clockwise. With AreaChord it fixes the
  // signed area of every closed ring.
  lemma AreaTriangle(a: Point, b: Point, c: Point)
    ensures Area([a, b, c, a]) == Cross(Minus(b, a), Minus(c, a)) / 2.0
    ensures Area([a]) == 0.0 && Area([a, b, a]) == 0.0
    ensures Area([Point(0.0, 0.0), Point(1.0, 0.0), Point(0.0, 1.0), Point(0.0, 0.0)]) == 0.5
  {
    CrossSumTriangle(a, b, c);
    CrossSumTriangle(Point(0.0, 0.0), Point(1.0, 0.0), Point(0.0, 1.0));
    CrossSumThere(a, b);
  }

  lemma CrossSumThere(a: Point, b: Point)
    ensures CrossSum([a, b, a]) == 0.0 && CrossSum([a]) == 0.0
  {
    hide Cross;
    CrossSumPair(a, b);
    CrossSumPair(b, a);
    assert [a, b, a][1..] == [b, a];
  }

  lemma CrossSumTriangle(a: Point, b: Point, c: Point)
    ensures CrossSum([a, b, c, a]) == Cross(a, b) + Cross(b, c) + Cross(c, a)
  {
    hide Cross;
    assert [a, b, c, a][1..] == [b, c, a] && [b, c, a][1..] == [c, a];
    CrossSumPair(c, a);
  }

  // ------------------------------------------------------ area under snapping

  function Abs(t: real): (r: real)
    ensures r >= 0.0 && r >= t && r >= -t
  {
    if t < 0.0 then -t else t
  }

  function Manhattan(v: Point): real {
    Abs(v.x) + Abs(v.y)
  }

  // The sum of |dx| + |dy| over the edges.
  function Girth(ring: Ring): (r: real)
    ensures r >= 0.0
  {
    if |ring| < 2 then 0.0 else Manhattan(Minus(ring[1], ring[0])) + Girth(ring[1..])
  }

  // Every vertex moved by at most delta.
  ghost predicate MovedWithin(ring: Ring, moved: Ring, delta: real) {
    && |moved| == |ring|
    && forall i :: 0 <= i < |ring| ==> Within(ring[i], moved[i], delta)
  }

  lemma LargerSquare(m: real, delta: real)
    requires m > delta >= 0.0
    ensures m * m > delta * delta
  {
    ProductPositive(m - delta, m + delta, (m - delta) * (m + delta));
    assert (m - delta) * (m + delta) == m * m - delta * delta;
  }

  lemma ComponentBound(a: real, b: real, delta: real)
    requires delta >= 0.0 && Square(a) + Square(b) <= delta * delta
    ensures Abs(a) <= delta
  {
    SquareFacts(a);
    SquareFacts(b);
    var m := Abs(a);
    assert m * m == Square(a);
    if m > delta {
      LargerSquare(m, delta);
      assert false;
    }
  }

  lemma ProductBound(a: real, b: real, m: real, c: real)
    requires Abs(a) <= m && c == a * b
    ensures Abs(c) <= m * Abs(b)
  {
    var p, q := Abs(a), Abs(b);
    assert Abs(c) == p * q;
    assert (m - p) * q >= 0.0;
    assert (m - p) * q == m * q - p * q;
  }

  lemma DifferenceBound(cross: real, p: real, q: real, u: real, v: real, delta: real, span: real)
    requires cross == p - q && span == u + v
    requires Abs(p) <= delta * v && Abs(q) <= delta * u
    ensures Abs(cross) <= delta * span
  {
    Gather(delta, u, v);
  }

  lemma CrossScalars(ex: real, ey: real, dx: real, dy: real, delta: real, span: real, cross: real)
    requires Abs(ex) <= delta && Abs(ey) <= delta
    requires span == Abs(dx) + Abs(dy) && cross == ex * dy - dx * ey
    ensures Abs(cross) <= delta * span
  {
    hide Abs;
    var p, q := ex * dy, ey * dx;
    ProductBound(ex, dy, delta, p);
    ProductBound(ey, dx, delta, q);
    DifferenceBound(cross, p, q, Abs(dx), Abs(dy), delta, span);
  }

  lemma CrossEdgeBound(e: Point, d: Point, delta: real)
    requires delta >= 0.0 && Norm2(e) <= delta * delta
    ensures Abs(Cross(e, d)) <= delta * Manhattan(d)
  {
    hide Square, Abs;
    ComponentBound(e.x, e.y, delta);
    ComponentBound(e.y, e.x, delta);
    CrossScalars(e.x, e.y, d.x, d.y, delta, Manhattan(d), Cross(e, d));
  }

  lemma MeanBound(a: real, b: real)
    ensures 2.0 * Abs(a * b) <= Square(a) + Square(b)
  {
    SquareFacts(a - b);
    SquareFacts(a + b);
    assert (a - b) * (a - b) == a * a - 2.0 * (a * b) + b * b;
    assert (a + b) * (a + b) == a * a + 2.0 * (a * b) + b * b;
  }

  lemma CrossDisplacements(e: Point, f: Point, delta: real)
    requires Norm2(e) <= delta * delta && Norm2(f) <= delta * delta
    ensures Abs(Cross(e, f)) <= delta * delta
  {
    hide Square;
    MeanBound(e.x, f.y);
    MeanBound(f.x, e.y);
  }

  function CornerTerm(p: Point, moved: Point): real {
    Cross(Minus(moved, p), p)
  }

  // Moving the ends of an edge ab to aa and bb: a part bounded by the edge, and
  // a part that telescopes along the ring.
  lemma EdgeDrift(a: Point, b: Point, aa: Point, bb: Point)
    ensures Cross(aa, bb) - Cross(a, b) - CornerTerm(a, aa) + CornerTerm(b, bb)
         == Cross(Minus(aa, a), Minus(b, a)) + Cross(Minus(bb, b), Minus(b, a)) + Cross(Minus(aa, a), Minus(bb, b))
  {
    var ex, ey, fx, fy := aa.x - a.x, aa.y - a.y, bb.x - b.x, bb.y - b.y;
    assert aa == Point(a.x + ex, a.y + ey) && bb == Point(b.x + fx, b.y + fy);
    assert (a.x + ex) * (b.y + fy) == a.x * b.y + a.x * fy + ex * b.y + ex * fy;
    assert (b.x + fx) * (a.y + ey) == b.x * a.y + b.x * ey + fx * a.y + fx * ey;
    assert ex * (b.y - a.y) == ex * b.y - ex * a.y;
    assert (b.x - a.x) * ey == b.x * ey - a.x * ey;
    assert fx * (b.y - a.y) == fx * b.y - fx * a.y;
    assert (b.x - a.x) * fy == b.x * fy - a.x * fy;
  }

  lemma ThreeTerms(sum: real, p: real, q: real, r: real, m: real, n: real)
    requires sum == p + q + r && Abs(p) <= m && Abs(q) <= m && Abs(r) <= n
    ensures Abs(sum) <= 2.0 * m + n
  {
  }

  lemma EdgeDriftBound(a: Point, b: Point, aa: Point, bb: Point, delta: real)
    requires delta >= 0.0 && Within(a, aa, delta) && Within(b, bb, delta)
    ensures Abs(Cross(aa, bb) - Cross(a, b) - CornerTerm(a, aa) + CornerTerm(b, bb))
         <= 2.0 * (delta * Manhattan(Minus(b, a))) + delta * delta
  {
    hide Square, Norm2, Cross, Minus, Manhattan, Abs, CornerTerm;
    var e, f, d := Minus(aa, a), Minus(bb, b), Minus(b, a);
    Dist2Facts(a, aa);
    Dist2Facts(b, bb);
    EdgeDrift(a, b, aa, bb);
    CrossEdgeBound(e, d, delta);
    CrossEdgeBound(f, d, delta);
    CrossDisplacements(e, f, delta);
    ThreeTerms(Cross(aa, bb) - Cross(a, b) - CornerTerm(a, aa) + CornerTerm(b, bb),
               Cross(e, d), Cross(f, d), Cross(e, f), delta * Manhattan(d), delta * delta);
  }

  lemma {:induction false} DriftBound(ring: Ring, moved: Ring, delta: real)
    requires |ring| > 0 && delta >= 0.0 && MovedWithin(ring, moved, delta)
    ensures Abs(CrossSum(moved) - CrossSum(ring)
                - CornerTerm(ring[0], moved[0]) + CornerTerm(ring[|ring| - 1], moved[|ring| - 1]))
         <= 2.0 * (delta * Girth(ring)) + ((|ring| - 1) as real) * (delta * delta)
  {
    hide Cross, CornerTerm, Manhattan, Within;
    if |ring| >= 2 {
      var n := |ring| - 1;
      DriftBound(ring[1..], moved[1..], delta);
      EdgeDriftBound(ring[0], ring[1], moved[0], moved[1], delta);
      Gather(delta, Manhattan(Minus(ring[1], ring[0])), Girth(ring[1..]));
      assert (n as real) * (delta * delta) == ((n - 1) as real) * (delta * delta) + delta * delta;
    }
  }

  // Moving each vertex of a closed ring of n edges by at most delta changes its
  // signed area by at most delta * Girth + n * delta^2 / 2.
  lemma AreaBound(ring: Ring, moved: Ring, delta: real)
    requires Closed(ring) && Closed(moved) && delta >= 0.0 && MovedWithin(ring, moved, delta)
    ensures Abs(Area(moved) - Area(ring))
         <= delta * Girth(ring) + ((|ring| - 1) as real) * (delta * delta) / 2.0
  {
    hide CornerTerm, Girth, CrossSum, Within;
    DriftBound(ring, moved, delta);
  }
}

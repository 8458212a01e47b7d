// Points, distances and projection onto a segment: the pure part of
// backend/internal/geometry/geometry.go. Coordinates are reals and distances
// are compared through their squares, which orders them the same way.

module Planar {

  datatype Point = Point(x: real, y: real)

  datatype Segment = Segment(start: Point, end: Point)

  function Square(t: real): real {
    t * t
  }

  // Points double as displacement vectors.
  function Minus(a: Point, b: Point): Point {
    Point(a.x - b.x, a.y - b.y)
  }

  function Dot(a: Point, b: Point): real {
    a.x * b.x + a.y * b.y
  }

  function Norm2(v: Point): real {
    Square(v.x) + Square(v.y)
  }

  function Dist2(a: Point, b: Point): real {
    Norm2(Minus(a, b))
  }

  // pointDistance(a, b) <= tolerance, for a tolerance that is not negative.
  predicate Within(a: Point, b: Point, tolerance: real) {
    Dist2(a, b) <= tolerance * tolerance
  }

  function Span(s: Segment): Point {
    Minus(s.end, s.start)
  }

  function Along(s: Segment, t: real): Point {
    Point(s.start.x + t * Span(s).x, s.start.y + t * Span(s).y)
  }

  // min(1, t) first, then max(0, .), as the source nests them.
  function Clamp01(t: real): real {
    var capped := if t < 1.0 then t else 1.0;
    if capped > 0.0 then capped else 0.0
  }

  function Ratio(p: Point, s: Segment): real
    requires Norm2(Span(s)) != 0.0
  {
    Clamp01(Dot(Minus(p, s.start), Span(s)) / Norm2(Span(s)))
  }

  function Project(p: Point, s: Segment): Point {
    if Norm2(Span(s)) == 0.0 then s.start else Along(s, Ratio(p, s))
  }

  // ---------------------------------------------------------------- distances

  lemma ProductPositive(a: real, b: real, c: real)
    requires a > 0.0 && b > 0.0 && c == a * b
    ensures c > 0.0
  {
  }

  lemma SquareFacts(t: real)
    ensures Square(t) == Square(-t)
    ensures if t == 0.0 then Square(t) == 0.0 else Square(t) > 0.0
  {
    var u := -t;
    assert u * u == t * t;
    if t < 0.0 {
      ProductPositive(u, u, Square(t));
    } else if t > 0.0 {
      ProductPositive(t, t, Square(t));
    } else {
      assert t == 0.0;
    }
  }

  lemma Norm2Facts(v: Point)
    ensures Norm2(v) >= 0.0
    ensures if v == Point(0.0, 0.0) then Norm2(v) == 0.0 else Norm2(v) > 0.0
  {
    SquareFacts(v.x);
    SquareFacts(v.y);
  }

  lemma Norm2Even(v: Point, w: Point)
    requires w.x == -v.x && w.y == -v.y
    ensures Norm2(v) == Norm2(w)
  {
    SquareFacts(v.x);
    SquareFacts(v.y);
  }

  lemma MinusFacts(a: Point, b: Point)
    ensures Minus(b, a).x == -Minus(a, b).x && Minus(b, a).y == -Minus(a, b).y
    ensures a == b <==> Minus(a, b) == Point(0.0, 0.0)
  {
  }

  lemma Dist2Facts(a: Point, b: Point)
    ensures Dist2(a, b) >= 0.0
    ensures Dist2(a, b) == Dist2(b, a)
    ensures if a == b then Dist2(a, b) == 0.0 else Dist2(a, b) > 0.0
  {
    hide Square, Norm2, Minus;
    MinusFacts(a, b);
    Norm2Facts(Minus(a, b));
    Norm2Even(Minus(a, b), Minus(b, a));
  }

  // The closed disc of the given radius.
  lemma WithinExactly(a: Point, b: Point, tolerance: real)
    ensures Within(a, b, tolerance) <==>
            (a.x - b.x) * (a.x - b.x) + (a.y - b.y) * (a.y - b.y) <= tolerance * tolerance
  {
  }

  lemma SpanFacts(s: Segment)
    ensures Norm2(Span(s)) >= 0.0
    ensures if s.start == s.end then Norm2(Span(s)) == 0.0 else Norm2(Span(s)) > 0.0
  {
    hide Square, Norm2, Minus;
    MinusFacts(s.end, s.start);
    Norm2Facts(Span(s));
  }

  // --------------------------------------------------------------- projection

  lemma Gather(t: real, a: real, b: real)
    ensures t * (a + b) == t * a + t * b
  {
  }

  lemma ExpandSquare(w: real, d: real, t: real)
    ensures Square(w - t * d) == Square(w) - 2.0 * t * (w * d) + t * t * Square(d)
  {
    var u := t * d;
    assert (w - u) * (w - u) == w * w - 2.0 * (w * u) + u * u;
    assert w * u == t * (w * d);
    assert u * u == t * t * (d * d);
  }

  lemma ExpandSquares(wx: real, wy: real, dx: real, dy: real, t: real, dot: real, norm: real)
    requires dot == wx * dx + wy * dy && norm == Square(dx) + Square(dy)
    ensures Square(wx - t * dx) + Square(wy - t * dy) == Square(wx) + Square(wy) - 2.0 * t * dot + t * t * norm
  {
    hide Square;
    ExpandSquare(wx, dx, t);
    ExpandSquare(wy, dy, t);
    Gather(t, wx * dx, wy * dy);
    Gather(t * t, Square(dx), Square(dy));
  }

  lemma Norm2OfDifference(w: Point, t: real, d: Point, v: Point)
    requires v == Point(w.x - t * d.x, w.y - t * d.y)
    ensures Norm2(v) == Norm2(w) - 2.0 * t * Dot(w, d) + t * t * Norm2(d)
  {
    hide Square;
    ExpandSquares(w.x, w.y, d.x, d.y, t, Dot(w, d), Norm2(d));
  }

  // Squared distance to the point at parameter t is a parabola in t.
  lemma DistanceAlong(p: Point, s: Segment, t: real)
    ensures Dist2(p, Along(s, t))
         == Dist2(p, s.start) - 2.0 * t * Dot(Minus(p, s.start), Span(s)) + t * t * Norm2(Span(s))
  {
    hide Norm2, Dot, Span;
    var w, d := Minus(p, s.start), Span(s);
    assert Minus(p, Along(s, t)) == Point(w.x - t * d.x, w.y - t * d.y);
    Norm2OfDifference(w, t, d, Minus(p, Along(s, t)));
  }

  lemma SameSign(a: real, b: real, c: real)
    requires (a >= 0.0 && b >= 0.0) || (a <= 0.0 && b <= 0.0)
    requires c == a * b
    ensures c >= 0.0
  {
    if a <= 0.0 && b <= 0.0 {
      assert c == (-a) * (-b);
    }
  }

  // The clamped vertex minimises the parabola over [0, 1].
  lemma ParabolaMinimum(length: real, dot: real, t: real)
    requires length > 0.0 && 0.0 <= t <= 1.0
    ensures var r := Clamp01(dot / length);
            t * t * length - 2.0 * t * dot >= r * r * length - 2.0 * r * dot
  {
    var q := dot / length;
    assert q * length == dot;
    var r := Clamp01(q);
    var f := (t - r) * (t + r - 2.0 * q);
    SameSign(t - r, t + r - 2.0 * q, f);
    SameSign(f, length, f * length);
    assert f == t * t - r * r - 2.0 * (t - r) * q;
    assert f * length == t * t * length - r * r * length - 2.0 * (t - r) * (q * length);
  }

  lemma AlongEnds(s: Segment, t: real)
    ensures Along(s, 0.0) == s.start && Along(s, 1.0) == s.end
    ensures s.start == s.end ==> Along(s, t) == s.start
  {
    if s.start == s.end {
      assert t * Span(s).x == t * 0.0 == 0.0;
      assert t * Span(s).y == t * 0.0 == 0.0;
    }
  }

  // The projection is the point of the segment at some parameter in [0, 1].
  lemma ProjectOnSegment(p: Point, s: Segment)
    ensures exists u :: 0.0 <= u <= 1.0 && Project(p, s) == Along(s, u)
  {
    hide Square, Norm2, Dot, Minus, Along;
    AlongEnds(s, 0.0);
    if Norm2(Span(s)) == 0.0 {
      assert Project(p, s) == Along(s, 0.0);
    } else {
      var r := Ratio(p, s);
      assert 0.0 <= r <= 1.0 && Project(p, s) == Along(s, r);
    }
  }

  // No point of the segment is closer than the one projectOntoSegment returns.
  lemma ProjectIsClosest(p: Point, s: Segment, t: real)
    requires 0.0 <= t <= 1.0
    ensures Dist2(p, Project(p, s)) <= Dist2(p, Along(s, t))
  {
    hide Square, Norm2, Dot, Minus, Along, Span, Dist2, Clamp01;
    SpanFacts(s);
    AlongEnds(s, t);
    if s.start != s.end {
      var dot, length := Dot(Minus(p, s.start), Span(s)), Norm2(Span(s));
      ParabolaMinimum(length, dot, t);
      DistanceAlong(p, s, t);
      DistanceAlong(p, s, Ratio(p, s));
    }
  }

  // Every point of the segment projects to itself.
  lemma ProjectFixesSegment(s: Segment, t: real)
    requires 0.0 <= t <= 1.0
    ensures Project(Along(s, t), s) == Along(s, t)
  {
    hide Square, Norm2, Dot, Minus, Along, Span, Dist2, Project;
    var q := Along(s, t);
    ProjectIsClosest(q, s, t);
    Dist2Facts(q, q);
    Dist2Facts(q, Project(q, s));
  }

  lemma ProjectIdempotent(p: Point, s: Segment)
    ensures Project(Project(p, s), s) == Project(p, s)
  {
    hide Square, Norm2, Dot, Minus, Along, Span, Dist2, Project;
    ProjectOnSegment(p, s);
    var u :| 0.0 <= u <= 1.0 && Project(p, s) == Along(s, u);
    ProjectFixesSegment(s, u);
  }

  lemma PerpendicularAt(p: Point, s: Segment, t: real)
    ensures Dot(Minus(p, Along(s, t)), Span(s)) == Dot(Minus(p, s.start), Span(s)) - t * Norm2(Span(s))
  {
    var w, d := Minus(p, s.start), Span(s);
    assert Minus(p, Along(s, t)) == Point(w.x - t * d.x, w.y - t * d.y);
    assert (w.x - t * d.x) * d.x == w.x * d.x - t * (d.x * d.x);
    assert (w.y - t * d.y) * d.y == w.y * d.y - t * (d.y * d.y);
    Gather(t, Square(d.x), Square(d.y));
  }

  // A point strictly inside s, at the foot of the perpendicular from p.
  ghost predicate PerpendicularFoot(p: Point, s: Segment, q: Point) {
    && (exists t :: 0.0 < t < 1.0 && q == Along(s, t))
    && Dot(Minus(p, q), Span(s)) == 0.0
  }

  // A projection is an endpoint, or the foot of a perpendicular.
  lemma ProjectCases(p: Point, s: Segment)
    ensures Project(p, s) == s.start || Project(p, s) == s.end || PerpendicularFoot(p, s, Project(p, s))
  {
    hide Square, Norm2, Dot, Minus, Along, Span;
    SpanFacts(s);
    if s.start != s.end {
      var length, dot := Norm2(Span(s)), Dot(Minus(p, s.start), Span(s));
      var r := Ratio(p, s);
      AlongEnds(s, r);
      PerpendicularAt(p, s, r);
      if 0.0 < r < 1.0 {
        assert r == dot / length;
        assert r * length == dot;
      }
    }
  }

  // On a zero-length segment every point projects to its one point.
  lemma ProjectDegenerate(p: Point, s: Segment)
    requires s.start == s.end
    ensures Project(p, s) == s.start
  {
    hide Square, Norm2, Dot, Minus, Along;
    SpanFacts(s);
  }
}

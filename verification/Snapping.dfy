// SnapToReferences and nearestSnapTarget of
// backend/internal/geometry/geometry.go.

module Snapping {
  import opened Options
  import opened Planar
  import opened Shoelace

  datatype Kind = Vertex | Edge

  // Where a coordinate goes; a target equal to the source is no move.
  datatype Target = Unmoved | Moved(to: Point, kind: Kind)

  // The vertices and segments collected from the reference polygons.
  datatype References = References(vertices: seq<Point>, segments: seq<Segment>)

  // ------------------------------------------- the reference definition of snap

  // targets[i] is within tolerance, nothing is closer, and nothing earlier ties.
  ghost predicate FirstNearest(source: Point, targets: seq<Point>, tolerance: real, i: nat) {
    && i < |targets|
    && Within(source, targets[i], tolerance)
    && (forall j :: 0 <= j < |targets| ==> Dist2(source, targets[i]) <= Dist2(source, targets[j]))
    && (forall j :: 0 <= j < i ==> Dist2(source, targets[i]) < Dist2(source, targets[j]))
  }

  ghost predicate NoneWithin(source: Point, targets: seq<Point>, tolerance: real) {
    forall i :: 0 <= i < |targets| ==> !Within(source, targets[i], tolerance)
  }

  lemma {:induction false} FirstNearestExists(source: Point, targets: seq<Point>, tolerance: real)
    requires !NoneWithin(source, targets, tolerance)
    ensures exists i :: FirstNearest(source, targets, tolerance, i)
  {
    hide Dist2;
    var n := |targets| - 1;
    var front := targets[..n];
    if NoneWithin(source, front, tolerance) {
      assert FirstNearest(source, targets, tolerance, n);
    } else {
      FirstNearestExists(source, front, tolerance);
      var i: nat :| FirstNearest(source, front, tolerance, i);
      if Dist2(source, targets[n]) < Dist2(source, targets[i]) {
        assert FirstNearest(source, targets, tolerance, n);
      } else {
        assert FirstNearest(source, targets, tolerance, i);
      }
    }
  }

  lemma FirstNearestUnique(source: Point, targets: seq<Point>, tolerance: real, i: nat, j: nat)
    requires FirstNearest(source, targets, tolerance, i) && FirstNearest(source, targets, tolerance, j)
    ensures i == j
  {
    hide Dist2, Within;
  }

  ghost function Nearest(source: Point, targets: seq<Point>, tolerance: real): (r: Option<nat>)
    ensures r.None? <==> NoneWithin(source, targets, tolerance)
    ensures r.Some? ==> FirstNearest(source, targets, tolerance, r.value)
  {
    if NoneWithin(source, targets, tolerance) then None
    else
      FirstNearestExists(source, targets, tolerance);
      var i: nat :| FirstNearest(source, targets, tolerance, i);
      Some(i)
  }

  function Projections(source: Point, segments: seq<Segment>): (r: seq<Point>)
    ensures |r| == |segments|
  {
    seq(|segments|, i requires 0 <= i < |segments| => Project(source, segments[i]))
  }

  function MoveTo(source: Point, to: Point, kind: Kind): Target {
    if to == source then Unmoved else Moved(to, kind)
  }

  // The first nearest vertex within tolerance, else the first nearest segment
  // projection within tolerance, else no move.
  ghost function SnapTarget(source: Point, refs: References, tolerance: real): Target {
    match Nearest(source, refs.vertices, tolerance)
    case Some(i) => MoveTo(source, refs.vertices[i], Vertex)
    case None =>
      match Nearest(source, Projections(source, refs.segments), tolerance)
      case Some(i) => MoveTo(source, Project(source, refs.segments[i]), Edge)
      case None => Unmoved
  }

  ghost function Snap(source: Point, refs: References, tolerance: real): Point {
    match SnapTarget(source, refs, tolerance)
    case Unmoved => source
    case Moved(to, _) => to
  }

  // ------------------------------------------------------------ the two loops

  method ScanNearest(source: Point, targets: seq<Point>, tolerance: real) returns (best: Option<nat>)
    ensures best == Nearest(source, targets, tolerance)
  {
    hide Dist2;
    best := None;
    var bestDistance := 0.0;
    for i := 0 to |targets|
      invariant best.None? ==> NoneWithin(source, targets[..i], tolerance)
      invariant best.Some? ==> FirstNearest(source, targets[..i], tolerance, best.value)
      invariant best.Some? ==> bestDistance == Dist2(source, targets[best.value])
    {
      var distance := Dist2(source, targets[i]);
      if distance <= tolerance * tolerance && (best.None? || distance < bestDistance) {
        best, bestDistance := Some(i), distance;
      }
    }
    assert targets[..|targets|] == targets;
    if best.Some? {
      FirstNearestUnique(source, targets, tolerance, best.value, Nearest(source, targets, tolerance).value);
    }
  }

  // The vertex loop and, when it finds nothing, the segment loop.
  method NearestSnapTarget(source: Point, refs: References, tolerance: real)
    returns (target: Target, distance2: real)
    ensures target == SnapTarget(source, refs, tolerance)
    ensures target.Moved? ==> distance2 == Dist2(source, target.to)
  {
    hide Dist2, Within, Project;
    var best := ScanNearest(source, refs.vertices, tolerance);
    var to, kind := source, Vertex;
    if best.Some? {
      to := refs.vertices[best.value];
    } else {
      best := ScanNearest(source, Projections(source, refs.segments), tolerance);
      if best.Some? {
        to, kind := Project(source, refs.segments[best.value]), Edge;
      }
    }
    target := MoveTo(source, to, kind);
    distance2 := Dist2(source, to);
  }

  // ------------------------------------------------------ collecting references

  function RingSegments(ring: Ring): (r: seq<Segment>)
    ensures |r| == if |ring| == 0 then 0 else |ring| - 1
  {
    seq(if |ring| == 0 then 0 else |ring| - 1, i requires 0 <= i < |ring| - 1 => Segment(ring[i], ring[i + 1]))
  }

  function Join(left: References, right: References): References {
    References(left.vertices + right.vertices, left.segments + right.segments)
  }

  function RingReferences(ring: Ring): References {
    References(ring, RingSegments(ring))
  }

  function RingsReferences(rings: seq<Ring>): References {
    if rings == [] then References([], [])
    else Join(RingsReferences(rings[..|rings| - 1]), RingReferences(rings[|rings| - 1]))
  }

  function PolygonsReferences(polygons: seq<seq<Ring>>): References {
    if polygons == [] then References([], [])
    else Join(PolygonsReferences(polygons[..|polygons| - 1]), RingsReferences(polygons[|polygons| - 1]))
  }

  method CollectReferences(polygons: seq<seq<Ring>>) returns (refs: References)
    ensures refs == PolygonsReferences(polygons)
  {
    var vertices: seq<Point>, segments: seq<Segment> := [], [];
    for p := 0 to |polygons|
      invariant References(vertices, segments) == PolygonsReferences(polygons[..p])
    {
      var rings := polygons[p];
      ghost var before := References(vertices, segments);
      for r := 0 to |rings|
        invariant References(vertices, segments) == Join(before, RingsReferences(rings[..r]))
      {
        var ring := rings[r];
        ghost var vs, ss := vertices, segments;
        for index := 0 to |ring|
          invariant vertices == vs + ring[..index]
          invariant segments == ss + RingSegments(ring[..index])
        {
          vertices := vertices + [ring[index]];
          if index > 0 {
            segments := segments + [Segment(ring[index - 1], ring[index])];
          }
        }
        assert ring[..|ring|] == ring;
        assert rings[..r + 1][..r] == rings[..r];
        JoinAssociative(before, RingsReferences(rings[..r]), RingReferences(ring));
      }
      assert rings[..|rings|] == rings;
      assert polygons[..p + 1][..p] == polygons[..p];
    }
    assert polygons[..|polygons|] == polygons;
    refs := References(vertices, segments);
  }

  lemma JoinAssociative(a: References, b: References, c: References)
    ensures Join(Join(a, b), c) == Join(a, Join(b, c))
  {
    assert (a.vertices + b.vertices) + c.vertices == a.vertices + (b.vertices + c.vertices);
    assert (a.segments + b.segments) + c.segments == a.segments + (b.segments + c.segments);
  }

  // Both ends of every collected segment were collected as vertices.
  ghost predicate EndpointsCollected(refs: References) {
    forall s :: s in refs.segments ==> s.start in refs.vertices && s.end in refs.vertices
  }

  lemma {:induction false} RingsEndpoints(rings: seq<Ring>)
    ensures EndpointsCollected(RingsReferences(rings))
  {
    if rings != [] {
      RingsEndpoints(rings[..|rings| - 1]);
    }
  }

  lemma {:induction false} CollectedEndpoints(polygons: seq<seq<Ring>>)
    ensures EndpointsCollected(PolygonsReferences(polygons))
  {
    if polygons != [] {
      CollectedEndpoints(polygons[..|polygons| - 1]);
      RingsEndpoints(polygons[|polygons| - 1]);
    }
  }

  // --------------------------------------------------------- what a snap can be

  // Every move is non-zero and within tolerance.
  lemma SnapWithin(source: Point, refs: References, tolerance: real)
    ensures Within(source, Snap(source, refs, tolerance), tolerance)
    ensures SnapTarget(source, refs, tolerance).Moved? <==> Snap(source, refs, tolerance) != source
  {
    hide Dist2, Project;
    Dist2Facts(source, source);
    assert tolerance * tolerance >= 0.0 by {
      SquareFacts(tolerance);
    }
  }

  // A vertex snap lands on a collected vertex.
  lemma VertexSnap(source: Point, refs: References, tolerance: real)
    requires SnapTarget(source, refs, tolerance).Moved? && SnapTarget(source, refs, tolerance).kind == Vertex
    ensures Snap(source, refs, tolerance) in refs.vertices
  {
    hide Dist2, Project, Within;
  }

  // An edge snap lands strictly inside a segment, at the foot of the
  // perpendicular: a clamped or zero-length projection is an endpoint, and an
  // endpoint within tolerance would have won as a vertex.
  lemma EdgeSnapInterior(source: Point, refs: References, tolerance: real) returns (s: Segment)
    requires EndpointsCollected(refs)
    requires SnapTarget(source, refs, tolerance).Moved? && SnapTarget(source, refs, tolerance).kind == Edge
    ensures s in refs.segments && s.start != s.end
    ensures PerpendicularFoot(source, s, Snap(source, refs, tolerance))
    ensures Snap(source, refs, tolerance) == Project(source, s)
    ensures NoneWithin(source, refs.vertices, tolerance)
    ensures Snap(source, refs, tolerance) !in refs.vertices
  {
    hide Dist2, Project, Within, PerpendicularFoot;
    var i := Nearest(source, Projections(source, refs.segments), tolerance).value;
    s := refs.segments[i];
    assert NoneWithin(source, refs.vertices, tolerance);
    assert Within(source, Project(source, s), tolerance);
    assert s in refs.segments;
    ProjectCases(source, s);
    assert s.start != Project(source, s) && s.end != Project(source, s);
    if s.start == s.end {
      ProjectDegenerate(source, s);
      assert false;
    }
  }

  // ------------------------------------------------------------- stabilisation

  lemma ZeroIsNearest(source: Point, targets: seq<Point>, tolerance: real)
    requires source in targets
    ensures Nearest(source, targets, tolerance).Some?
    ensures targets[Nearest(source, targets, tolerance).value] == source
  {
    hide Dist2;
    var i :| 0 <= i < |targets| && targets[i] == source;
    Dist2Facts(source, source);
    assert tolerance * tolerance >= 0.0 by {
      SquareFacts(tolerance);
    }
    assert Within(source, targets[i], tolerance);
    Dist2Facts(source, targets[Nearest(source, targets, tolerance).value]);
  }

  // A collected vertex never moves.
  lemma VertexFixed(v: Point, refs: References, tolerance: real)
    requires v in refs.vertices
    ensures SnapTarget(v, refs, tolerance) == Unmoved
  {
    hide Within;
    ZeroIsNearest(v, refs.vertices, tolerance);
  }

  // A point of a segment moves exactly when a vertex it is not on is near, and
  // then onto that vertex.
  lemma OnSegmentSnap(q: Point, s: Segment, refs: References, tolerance: real)
    requires s in refs.segments && Project(q, s) == q && q !in refs.vertices
    ensures SnapTarget(q, refs, tolerance).Moved? <==> !NoneWithin(q, refs.vertices, tolerance)
    ensures SnapTarget(q, refs, tolerance).Moved? ==> SnapTarget(q, refs, tolerance).kind == Vertex
  {
    hide Within, Project;
    if NoneWithin(q, refs.vertices, tolerance) {
      var i :| 0 <= i < |refs.segments| && refs.segments[i] == s;
      assert Projections(q, refs.segments)[i] == q;
      ZeroIsNearest(q, Projections(q, refs.segments), tolerance);
    }
  }

  // What the second pass does to an edge-snapped point.
  lemma SecondPass(source: Point, refs: References, tolerance: real)
    requires EndpointsCollected(refs)
    requires SnapTarget(source, refs, tolerance).Moved? && SnapTarget(source, refs, tolerance).kind == Edge
    ensures var q := Snap(source, refs, tolerance);
            && (SnapTarget(q, refs, tolerance).Moved? <==> !NoneWithin(q, refs.vertices, tolerance))
            && (SnapTarget(q, refs, tolerance).Moved? ==> SnapTarget(q, refs, tolerance).kind == Vertex)
  {
    hide Within, Project, Nearest, PerpendicularFoot;
    var s := EdgeSnapInterior(source, refs, tolerance);
    ProjectIdempotent(source, s);
    OnSegmentSnap(Snap(source, refs, tolerance), s, refs, tolerance);
  }

  // Against fixed references a third pass changes nothing.
  lemma ThreePassesAreTwo(source: Point, refs: References, tolerance: real)
    requires EndpointsCollected(refs)
    ensures var twice := Snap(Snap(source, refs, tolerance), refs, tolerance);
            Snap(twice, refs, tolerance) == twice
  {
    hide Within, Project, Nearest;
    var once := Snap(source, refs, tolerance);
    match SnapTarget(source, refs, tolerance) {
      case Unmoved =>
      case Moved(_, Vertex) =>
        VertexSnap(source, refs, tolerance);
        VertexFixed(once, refs, tolerance);
      case Moved(_, Edge) =>
        SecondPass(source, refs, tolerance);
        if SnapTarget(once, refs, tolerance).Moved? {
          VertexSnap(once, refs, tolerance);
          VertexFixed(Snap(once, refs, tolerance), refs, tolerance);
        }
    }
  }

  // No vertex is near the source, the projection onto the first nearest segment is
  // another point, and a vertex is near that point.
  ghost predicate PulledTwice(source: Point, refs: References, tolerance: real) {
    && NoneWithin(source, refs.vertices, tolerance)
    && exists i :: 0 <= i < |refs.segments|
         && FirstNearest(source, Projections(source, refs.segments), tolerance, i)
         && Project(source, refs.segments[i]) != source
         && !NoneWithin(Project(source, refs.segments[i]), refs.vertices, tolerance)
  }

  lemma PulledTwiceExactly(source: Point, refs: References, tolerance: real)
    ensures PulledTwice(source, refs, tolerance) <==>
            && SnapTarget(source, refs, tolerance).Moved?
            && SnapTarget(source, refs, tolerance).kind == Edge
            && !NoneWithin(Snap(source, refs, tolerance), refs.vertices, tolerance)
  {
    hide Within, Project, Dist2;
    var targets := Projections(source, refs.segments);
    forall i, j | FirstNearest(source, targets, tolerance, i) && FirstNearest(source, targets, tolerance, j)
      ensures i == j {
      FirstNearestUnique(source, targets, tolerance, i, j);
    }
  }

  // One pass already is stable if and only if the source is not pulled twice.
  lemma OnePassIsTwoExactlyWhen(source: Point, refs: References, tolerance: real)
    requires EndpointsCollected(refs)
    ensures Snap(Snap(source, refs, tolerance), refs, tolerance) == Snap(source, refs, tolerance)
       <==> !PulledTwice(source, refs, tolerance)
  {
    hide Within, Project, Nearest, PulledTwice;
    PulledTwiceExactly(source, refs, tolerance);
    var once := Snap(source, refs, tolerance);
    SnapWithin(once, refs, tolerance);
    match SnapTarget(source, refs, tolerance) {
      case Unmoved =>
      case Moved(_, Vertex) =>
        VertexSnap(source, refs, tolerance);
        VertexFixed(once, refs, tolerance);
      case Moved(_, Edge) =>
        SecondPass(source, refs, tolerance);
    }
  }

  // A square reference, and a point below its lower edge.
  const SW := Point(0.0, 0.0)
  const SE := Point(100.0, 0.0)
  const NE := Point(100.0, 100.0)
  const NW := Point(0.0, 100.0)
  const SQUARE: Ring := [SW, SE, NE, NW, SW]
  const BELOW := Point(4.0, -4.0)
  const FOOT := Point(4.0, 0.0)

  lemma CrossSumStep(ring: Ring)
    requires |ring| >= 2
    ensures CrossSum(ring) == Cross(ring[0], ring[1]) + CrossSum(ring[1..])
  {
  }

  lemma CrossIs(a: Point, b: Point, c: real)
    requires c == a.x * b.y - b.x * a.y
    ensures Cross(a, b) == c
  {
  }

  lemma SquareCrosses()
    ensures Cross(SW, SE) == 0.0 && Cross(SE, NE) == 10000.0 && Cross(NE, NW) == 10000.0 && Cross(NW, SW) == 0.0
  {
    hide Cross;
    CrossIs(SW, SE, 0.0);
    CrossIs(SE, NE, 10000.0);
    CrossIs(NE, NW, 10000.0);
    CrossIs(NW, SW, 0.0);
  }

  lemma SquareIsExterior()
    ensures |SQUARE| >= 4 && Closed(SQUARE) && Area(SQUARE) == 10000.0
  {
    hide CrossSum, Cross;
    SquareCrosses();
    assert SQUARE[1..] == [SE, NE, NW, SW] && [SE, NE, NW, SW][1..] == [NE, NW, SW] && [NE, NW, SW][1..] == [NW, SW];
    CrossSumStep(SQUARE);
    CrossSumStep([SE, NE, NW, SW]);
    CrossSumStep([NE, NW, SW]);
    CrossSumPair(NW, SW);
  }

  lemma DistanceBetween(a: Point, b: Point, dx: real, dy: real)
    requires dx == a.x - b.x && dy == a.y - b.y
    ensures Dist2(a, b) == dx * dx + dy * dy
  {
    assert Minus(a, b) == Point(dx, dy);
  }

  lemma BelowDistances()
    ensures Dist2(BELOW, SW) == 32.0 && Dist2(BELOW, SE) == 9232.0 && Dist2(BELOW, NE) == 20032.0
    ensures Dist2(BELOW, NW) == 10832.0 && Dist2(BELOW, FOOT) == 16.0
  {
    hide Dist2;
    DistanceBetween(BELOW, SW, 4.0, -4.0);
    DistanceBetween(BELOW, SE, -96.0, -4.0);
    DistanceBetween(BELOW, NE, -96.0, -104.0);
    DistanceBetween(BELOW, NW, 4.0, -104.0);
    DistanceBetween(BELOW, FOOT, 0.0, -4.0);
  }

  lemma FootDistances()
    ensures Dist2(FOOT, SW) == 16.0 && Dist2(FOOT, SE) == 9216.0 && Dist2(FOOT, NE) == 19216.0
    ensures Dist2(FOOT, NW) == 10016.0
  {
    hide Dist2;
    DistanceBetween(FOOT, SW, 4.0, 0.0);
    DistanceBetween(FOOT, SE, -96.0, 0.0);
    DistanceBetween(FOOT, NE, -96.0, -100.0);
    DistanceBetween(FOOT, NW, 4.0, -100.0);
  }

  // Where the point projects on the four edges, by the ratio along each.
  lemma EdgeProjection(s: Segment, ratio: real, q: Point)
    requires Norm2(Span(s)) == 10000.0 && Dot(Minus(BELOW, s.start), Span(s)) == ratio * 10000.0
    requires q == Along(s, Clamp01(ratio))
    ensures Project(BELOW, s) == q
  {
    assert ratio * 10000.0 / 10000.0 == ratio;
  }

  lemma BelowProjections()
    ensures Project(BELOW, Segment(SW, SE)) == FOOT && Project(BELOW, Segment(SE, NE)) == SE
    ensures Project(BELOW, Segment(NE, NW)) == Point(4.0, 100.0) && Project(BELOW, Segment(NW, SW)) == SW
  {
    hide Project;
    EdgeProjection(Segment(SW, SE), 0.04, FOOT);
    EdgeProjection(Segment(SE, NE), -0.04, SE);
    EdgeProjection(Segment(NE, NW), 0.96, Point(4.0, 100.0));
    EdgeProjection(Segment(NW, SW), 1.04, SW);
  }

  lemma SquareReferences()
    ensures RingReferences(SQUARE)
         == References(SQUARE, [Segment(SW, SE), Segment(SE, NE), Segment(NE, NW), Segment(NW, SW)])
    ensures PolygonsReferences([[SQUARE]]) == RingReferences(SQUARE)
  {
    var none := References([], []);
    assert [[SQUARE]][..0] == [] && [SQUARE][..0] == [];
    assert RingsReferences([SQUARE]) == Join(none, RingReferences(SQUARE));
    assert PolygonsReferences([[SQUARE]]) == Join(none, RingsReferences([SQUARE]));
  }

  lemma NoCornerNear()
    ensures NoneWithin(BELOW, SQUARE, 5.0)
  {
    hide Dist2;
    BelowDistances();
  }

  lemma FootIsNearest()
    ensures FirstNearest(BELOW, [FOOT, SE, Point(4.0, 100.0), SW], 5.0, 0)
  {
    hide Dist2;
    BelowDistances();
    DistanceBetween(BELOW, Point(4.0, 100.0), 0.0, -104.0);
  }

  lemma FirstPass()
    ensures Snap(BELOW, RingReferences(SQUARE), 5.0) == FOOT
  {
    hide Dist2, Project, FirstNearest, NoneWithin, RingReferences;
    var refs := RingReferences(SQUARE);
    SquareReferences();
    BelowProjections();
    var targets := Projections(BELOW, refs.segments);
    assert targets == [FOOT, SE, Point(4.0, 100.0), SW];
    FootIsNearest();
    NoCornerNear();
    SomeWithin(BELOW, targets, 5.0, 0);
    FirstNearestUnique(BELOW, targets, 5.0, 0, Nearest(BELOW, targets, 5.0).value);
  }

  lemma SomeWithin(source: Point, targets: seq<Point>, tolerance: real, i: nat)
    requires FirstNearest(source, targets, tolerance, i)
    ensures !NoneWithin(source, targets, tolerance)
  {
    hide Dist2, Within;
  }

  lemma NextPass()
    ensures Snap(FOOT, RingReferences(SQUARE), 5.0) == SW
  {
    hide Dist2, Project;
    var refs := RingReferences(SQUARE);
    SquareReferences();
    FootDistances();
    assert FirstNearest(FOOT, refs.vertices, 5.0, 0);
    FirstNearestUnique(FOOT, refs.vertices, 5.0, 0, Nearest(FOOT, refs.vertices, 5.0).value);
  }

  // A point near an edge of an accepted square, just too far from its corner: the
  // first pass drops it onto the edge, the second pulls it to the corner.
  lemma TwoPassesCanDiffer()
    ensures |SQUARE| >= 4 && Closed(SQUARE) && Area(SQUARE) > 0.0
    ensures Snap(BELOW, PolygonsReferences([[SQUARE]]), 5.0) == FOOT
    ensures Snap(FOOT, PolygonsReferences([[SQUARE]]), 5.0) == SW
  {
    hide Snap, RingReferences;
    SquareIsExterior();
    SquareReferences();
    FirstPass();
    NextPass();
  }
}

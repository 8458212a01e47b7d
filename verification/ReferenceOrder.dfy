// Which vertices and segments SnapToReferences collects and in which order, and
// so where a coordinate is snapped to, in terms of the reference rings alone.

module ReferenceOrder {
  import opened Options
  import opened Planar
  import opened Shoelace
  import opened Snapping
  import opened Rings
  import opened SnapEvidence

  // A point of a ring of a polygon.
  datatype Position = Position(polygon: nat, ring: nat, index: nat)

  predicate Before(a: Position, b: Position) {
    || a.polygon < b.polygon
    || (a.polygon == b.polygon && a.ring < b.ring)
    || (a.polygon == b.polygon && a.ring == b.ring && a.index < b.index)
  }

  predicate IsVertex(polygons: seq<seq<Ring>>, q: Position) {
    q.polygon < |polygons| && q.ring < |polygons[q.polygon]| && q.index < |polygons[q.polygon][q.ring]|
  }

  // The edge from this vertex to the next one of its ring.
  predicate IsEdge(polygons: seq<seq<Ring>>, q: Position) {
    q.polygon < |polygons| && q.ring < |polygons[q.polygon]| && q.index + 1 < |polygons[q.polygon][q.ring]|
  }

  function VertexAt(polygons: seq<seq<Ring>>, q: Position): Point
    requires IsVertex(polygons, q)
  {
    polygons[q.polygon][q.ring][q.index]
  }

  function EdgeAt(polygons: seq<seq<Ring>>, q: Position): Segment
    requires IsEdge(polygons, q)
  {
    Segment(polygons[q.polygon][q.ring][q.index], polygons[q.polygon][q.ring][q.index + 1])
  }

  // ------------------------------------------------------- positions in order

  ghost predicate Ordered(qs: seq<Position>) {
    forall i, j :: 0 <= i < j < |qs| ==> Before(qs[i], qs[j])
  }

  function RingPositions(p: nat, r: nat, count: nat): (qs: seq<Position>)
    ensures |qs| == count && forall i :: 0 <= i < count ==> qs[i] == Position(p, r, i)
  {
    seq(count, i requires 0 <= i < count => Position(p, r, i))
  }

  function Count(ring: Ring, edges: bool): nat {
    if !edges then |ring| else if ring == [] then 0 else |ring| - 1
  }

  function RingsPositions(p: nat, rings: seq<Ring>, edges: bool): seq<Position> {
    if rings == [] then []
    else
      var r := |rings| - 1;
      RingsPositions(p, rings[..r], edges) + RingPositions(p, r, Count(rings[r], edges))
  }

  function Positions(polygons: seq<seq<Ring>>, edges: bool): seq<Position> {
    if polygons == [] then []
    else
      var p := |polygons| - 1;
      Positions(polygons[..p], edges) + RingsPositions(p, polygons[p], edges)
  }

  lemma OrderedJoin(front: seq<Position>, back: seq<Position>)
    requires Ordered(front) && Ordered(back)
    requires forall a, b :: a in front && b in back ==> Before(a, b)
    ensures Ordered(front + back)
  {
    forall i, j | 0 <= i < j < |front + back| ensures Before((front + back)[i], (front + back)[j]) {
      if i < |front| <= j {
        assert front[i] in front && back[j - |front|] in back;
      }
    }
  }

  lemma {:induction false} RingsPositionsExact(p: nat, rings: seq<Ring>, edges: bool)
    ensures Ordered(RingsPositions(p, rings, edges))
    ensures forall q :: q in RingsPositions(p, rings, edges) <==>
              q.polygon == p && q.ring < |rings| && q.index < Count(rings[q.ring], edges)
  {
    hide Count;
    if rings != [] {
      var r := |rings| - 1;
      RingsPositionsExact(p, rings[..r], edges);
      OrderedJoin(RingsPositions(p, rings[..r], edges), RingPositions(p, r, Count(rings[r], edges)));
      forall q ensures q in RingPositions(p, r, Count(rings[r], edges)) <==>
                       q.polygon == p && q.ring == r && q.index < Count(rings[r], edges) {
        if q.polygon == p && q.ring == r && q.index < Count(rings[r], edges) {
          assert RingPositions(p, r, Count(rings[r], edges))[q.index] == q;
        }
      }
    }
  }

  lemma {:induction false} PositionsExact(polygons: seq<seq<Ring>>, edges: bool)
    ensures Ordered(Positions(polygons, edges))
    ensures forall q :: q in Positions(polygons, edges) <==>
              q.polygon < |polygons| && q.ring < |polygons[q.polygon]|
              && q.index < Count(polygons[q.polygon][q.ring], edges)
  {
    hide Count, RingsPositions;
    if polygons != [] {
      var p := |polygons| - 1;
      PositionsExact(polygons[..p], edges);
      RingsPositionsExact(p, polygons[p], edges);
      OrderedJoin(Positions(polygons[..p], edges), RingsPositions(p, polygons[p], edges));
    }
  }

  // -------------------------------------------------- what is at the positions

  lemma {:induction false} RingsAt(rings: seq<Ring>, p: nat, k: nat)
    ensures |RingsPositions(p, rings, false)| == |RingsReferences(rings).vertices|
    ensures |RingsPositions(p, rings, true)| == |RingsReferences(rings).segments|
    ensures k < |RingsReferences(rings).vertices| ==>
              var q := RingsPositions(p, rings, false)[k];
              && q.polygon == p && q.ring < |rings| && q.index < |rings[q.ring]|
              && RingsReferences(rings).vertices[k] == rings[q.ring][q.index]
    ensures k < |RingsReferences(rings).segments| ==>
              var q := RingsPositions(p, rings, true)[k];
              && q.polygon == p && q.ring < |rings| && q.index + 1 < |rings[q.ring]|
              && RingsReferences(rings).segments[k] == Segment(rings[q.ring][q.index], rings[q.ring][q.index + 1])
  {
    if rings != [] {
      RingsAt(rings[..|rings| - 1], p, k);
    }
  }

  lemma {:induction false} ReferencesAt(polygons: seq<seq<Ring>>, k: nat)
    ensures |Positions(polygons, false)| == |PolygonsReferences(polygons).vertices|
    ensures |Positions(polygons, true)| == |PolygonsReferences(polygons).segments|
    ensures k < |PolygonsReferences(polygons).vertices| ==>
              var q := Positions(polygons, false)[k];
              IsVertex(polygons, q) && PolygonsReferences(polygons).vertices[k] == VertexAt(polygons, q)
    ensures k < |PolygonsReferences(polygons).segments| ==>
              var q := Positions(polygons, true)[k];
              IsEdge(polygons, q) && PolygonsReferences(polygons).segments[k] == EdgeAt(polygons, q)
  {
    hide RingsReferences, RingsPositions;
    if polygons != [] {
      var p := |polygons| - 1;
      var front := polygons[..p];
      ReferencesAt(front, k);
      RingsAt(polygons[p], p, 0);
      if k >= |PolygonsReferences(front).vertices| {
        RingsAt(polygons[p], p, k - |PolygonsReferences(front).vertices|);
      }
      if k >= |PolygonsReferences(front).segments| {
        RingsAt(polygons[p], p, k - |PolygonsReferences(front).segments|);
      }
    }
  }

  // The positions of all vertices, each once, in the order of polygon, ring and
  // index.
  ghost predicate AllVertices(polygons: seq<seq<Ring>>, qs: seq<Position>) {
    Ordered(qs) && forall q :: q in qs <==> IsVertex(polygons, q)
  }

  ghost predicate AllEdges(polygons: seq<seq<Ring>>, qs: seq<Position>) {
    Ordered(qs) && forall q :: q in qs <==> IsEdge(polygons, q)
  }

  // The collected vertices are all vertices of all rings of all polygons, in the
  // order of polygon, ring and index, and the collected segments all their edges.
  lemma CollectedExactly(polygons: seq<seq<Ring>>) returns (vs: seq<Position>, es: seq<Position>)
    ensures AllVertices(polygons, vs) && AllEdges(polygons, es)
    ensures |vs| == |PolygonsReferences(polygons).vertices| && |es| == |PolygonsReferences(polygons).segments|
    ensures forall k :: 0 <= k < |vs| ==>
              IsVertex(polygons, vs[k]) && PolygonsReferences(polygons).vertices[k] == VertexAt(polygons, vs[k])
    ensures forall k :: 0 <= k < |es| ==>
              IsEdge(polygons, es[k]) && PolygonsReferences(polygons).segments[k] == EdgeAt(polygons, es[k])
  {
    hide PolygonsReferences, Positions;
    vs, es := Positions(polygons, false), Positions(polygons, true);
    PositionsExact(polygons, false);
    PositionsExact(polygons, true);
    ReferencesAt(polygons, 0);
    forall k | 0 <= k < |vs|
      ensures IsVertex(polygons, vs[k]) && PolygonsReferences(polygons).vertices[k] == VertexAt(polygons, vs[k])
    {
      ReferencesAt(polygons, k);
    }
    forall k | 0 <= k < |es|
      ensures IsEdge(polygons, es[k]) && PolygonsReferences(polygons).segments[k] == EdgeAt(polygons, es[k])
    {
      ReferencesAt(polygons, k);
    }
  }

  lemma CollectedMembers(polygons: seq<seq<Ring>>, v: Point, s: Segment)
    ensures v in PolygonsReferences(polygons).vertices
       <==> exists q :: IsVertex(polygons, q) && VertexAt(polygons, q) == v
    ensures s in PolygonsReferences(polygons).segments <==> exists q :: IsEdge(polygons, q) && EdgeAt(polygons, q) == s
  {
    hide PolygonsReferences;
    var refs := PolygonsReferences(polygons);
    var vs, es := CollectedExactly(polygons);
    if v in refs.vertices {
      var k :| 0 <= k < |refs.vertices| && refs.vertices[k] == v;
      assert VertexAt(polygons, vs[k]) == v;
    }
    if q :| IsVertex(polygons, q) && VertexAt(polygons, q) == v {
      var k :| 0 <= k < |vs| && vs[k] == q;
      assert refs.vertices[k] == v;
    }
    if s in refs.segments {
      var k :| 0 <= k < |refs.segments| && refs.segments[k] == s;
      assert EdgeAt(polygons, es[k]) == s;
    }
    if q :| IsEdge(polygons, q) && EdgeAt(polygons, q) == s {
      var k :| 0 <= k < |es| && es[k] == q;
      assert refs.segments[k] == s;
    }
  }

  // ---------------------------------------------- where a coordinate is snapped to

  // The vertex at q is within tolerance, none is nearer, and every one before it
  // is farther.
  ghost predicate FirstVertex(source: Point, polygons: seq<seq<Ring>>, tolerance: real, q: Position) {
    && IsVertex(polygons, q)
    && Within(source, VertexAt(polygons, q), tolerance)
    && forall o :: IsVertex(polygons, o) ==>
         && Dist2(source, VertexAt(polygons, q)) <= Dist2(source, VertexAt(polygons, o))
         && (Before(o, q) ==> Dist2(source, VertexAt(polygons, q)) < Dist2(source, VertexAt(polygons, o)))
  }

  ghost predicate FirstEdge(source: Point, polygons: seq<seq<Ring>>, tolerance: real, q: Position) {
    && IsEdge(polygons, q)
    && Within(source, Project(source, EdgeAt(polygons, q)), tolerance)
    && forall o :: IsEdge(polygons, o) ==>
         && Dist2(source, Project(source, EdgeAt(polygons, q))) <= Dist2(source, Project(source, EdgeAt(polygons, o)))
         && (Before(o, q) ==>
               Dist2(source, Project(source, EdgeAt(polygons, q)))
                 < Dist2(source, Project(source, EdgeAt(polygons, o))))
  }

  ghost predicate NoVertexNear(source: Point, polygons: seq<seq<Ring>>, tolerance: real) {
    forall q :: IsVertex(polygons, q) ==> !Within(source, VertexAt(polygons, q), tolerance)
  }

  ghost predicate NoEdgeNear(source: Point, polygons: seq<seq<Ring>>, tolerance: real) {
    forall q :: IsEdge(polygons, q) ==> !Within(source, Project(source, EdgeAt(polygons, q)), tolerance)
  }

  // The target is the first nearest vertex, else the projection onto the first
  // nearest edge, else the source itself.
  ghost predicate SnapsTo(source: Point, polygons: seq<seq<Ring>>, tolerance: real, target: Point) {
    || (exists q :: FirstVertex(source, polygons, tolerance, q) && target == VertexAt(polygons, q))
    || (NoVertexNear(source, polygons, tolerance)
        && exists q :: FirstEdge(source, polygons, tolerance, q) && target == Project(source, EdgeAt(polygons, q)))
    || (NoVertexNear(source, polygons, tolerance) && NoEdgeNear(source, polygons, tolerance) && target == source)
  }

  lemma BeforeTotal(a: Position, b: Position)
    ensures a == b || Before(a, b) || Before(b, a)
  {
  }

  // There is only one such target.
  lemma SnapsToOne(source: Point, polygons: seq<seq<Ring>>, tolerance: real, t: Point, u: Point)
    requires SnapsTo(source, polygons, tolerance, t) && SnapsTo(source, polygons, tolerance, u)
    ensures t == u
  {
    hide Dist2, Within, Project, IsVertex, IsEdge, VertexAt, EdgeAt, Before;
    forall a, b | FirstVertex(source, polygons, tolerance, a) && FirstVertex(source, polygons, tolerance, b)
      ensures a == b {
      BeforeTotal(a, b);
    }
    forall a, b | FirstEdge(source, polygons, tolerance, a) && FirstEdge(source, polygons, tolerance, b)
      ensures a == b {
      BeforeTotal(a, b);
    }
  }

  lemma OrderedIndex(qs: seq<Position>, i: nat, j: nat)
    requires Ordered(qs) && i < |qs| && j < |qs| && Before(qs[i], qs[j])
    ensures i < j
  {
  }

  lemma VertexIsFirst(source: Point, polygons: seq<seq<Ring>>, tolerance: real, k: nat, vs: seq<Position>)
    requires AllVertices(polygons, vs) && |vs| == |PolygonsReferences(polygons).vertices|
    requires forall i :: 0 <= i < |vs| ==>
               IsVertex(polygons, vs[i]) && PolygonsReferences(polygons).vertices[i] == VertexAt(polygons, vs[i])
    requires FirstNearest(source, PolygonsReferences(polygons).vertices, tolerance, k)
    ensures FirstVertex(source, polygons, tolerance, vs[k])
  {
    hide Dist2, Within, IsVertex, PolygonsReferences, Before;
    var vertices := PolygonsReferences(polygons).vertices;
    forall o | IsVertex(polygons, o)
      ensures Dist2(source, vertices[k]) <= Dist2(source, VertexAt(polygons, o))
      ensures Before(o, vs[k]) ==> Dist2(source, vertices[k]) < Dist2(source, VertexAt(polygons, o))
    {
      var j :| 0 <= j < |vs| && vs[j] == o;
      assert vertices[j] == VertexAt(polygons, o);
      if Before(o, vs[k]) {
        OrderedIndex(vs, j, k);
      }
    }
  }

  lemma EdgeIsFirst(source: Point, polygons: seq<seq<Ring>>, tolerance: real, k: nat, es: seq<Position>)
    requires AllEdges(polygons, es) && |es| == |PolygonsReferences(polygons).segments|
    requires forall i :: 0 <= i < |es| ==>
               IsEdge(polygons, es[i]) && PolygonsReferences(polygons).segments[i] == EdgeAt(polygons, es[i])
    requires FirstNearest(source, Projections(source, PolygonsReferences(polygons).segments), tolerance, k)
    ensures FirstEdge(source, polygons, tolerance, es[k])
  {
    hide Dist2, Within, IsEdge, PolygonsReferences, Project, Before;
    var segments := PolygonsReferences(polygons).segments;
    var targets := Projections(source, segments);
    forall o | IsEdge(polygons, o)
      ensures Dist2(source, targets[k]) <= Dist2(source, Project(source, EdgeAt(polygons, o)))
      ensures Before(o, es[k]) ==> Dist2(source, targets[k]) < Dist2(source, Project(source, EdgeAt(polygons, o)))
    {
      var j :| 0 <= j < |es| && es[j] == o;
      assert targets[j] == Project(source, EdgeAt(polygons, o));
      if Before(o, es[k]) {
        OrderedIndex(es, j, k);
      }
    }
  }

  lemma NoVertexNearExactly(source: Point, polygons: seq<seq<Ring>>, tolerance: real)
    ensures NoneWithin(source, PolygonsReferences(polygons).vertices, tolerance)
       <==> NoVertexNear(source, polygons, tolerance)
  {
    hide Within, IsVertex, PolygonsReferences;
    var vertices := PolygonsReferences(polygons).vertices;
    var vs, es := CollectedExactly(polygons);
    if NoneWithin(source, vertices, tolerance) {
      forall q | IsVertex(polygons, q) ensures !Within(source, VertexAt(polygons, q), tolerance) {
        var k :| 0 <= k < |vs| && vs[k] == q;
        assert !Within(source, vertices[k], tolerance);
      }
    }
    if NoVertexNear(source, polygons, tolerance) {
      forall k | 0 <= k < |vertices| ensures !Within(source, vertices[k], tolerance) {
        assert IsVertex(polygons, vs[k]);
      }
    }
  }

  lemma NoEdgeNearExactly(source: Point, polygons: seq<seq<Ring>>, tolerance: real)
    ensures NoneWithin(source, Projections(source, PolygonsReferences(polygons).segments), tolerance)
       <==> NoEdgeNear(source, polygons, tolerance)
  {
    hide Within, IsEdge, PolygonsReferences, Project;
    var segments := PolygonsReferences(polygons).segments;
    var targets := Projections(source, segments);
    var vs, es := CollectedExactly(polygons);
    if NoneWithin(source, targets, tolerance) {
      forall q | IsEdge(polygons, q) ensures !Within(source, Project(source, EdgeAt(polygons, q)), tolerance) {
        var k :| 0 <= k < |es| && es[k] == q;
        assert segments[k] == EdgeAt(polygons, q);
        assert !Within(source, targets[k], tolerance);
      }
    }
    if NoEdgeNear(source, polygons, tolerance) {
      forall k | 0 <= k < |targets| ensures !Within(source, targets[k], tolerance) {
        assert IsEdge(polygons, es[k]) && segments[k] == EdgeAt(polygons, es[k]);
      }
    }
  }

  // A coordinate within tolerance of a vertex of any reference ring goes to the
  // first nearest such vertex, else to its projection on the first nearest edge
  // within tolerance, else nowhere.
  lemma SnapExactly(source: Point, polygons: seq<seq<Ring>>, tolerance: real)
    ensures SnapsTo(source, polygons, tolerance, Snap(source, PolygonsReferences(polygons), tolerance))
  {
    hide Dist2, Within, Project, IsVertex, IsEdge, PolygonsReferences, FirstVertex, FirstEdge, FirstNearest, NoneWithin,
         NoVertexNear, NoEdgeNear;
    var refs := PolygonsReferences(polygons);
    var vs, es := CollectedExactly(polygons);
    NoVertexNearExactly(source, polygons, tolerance);
    NoEdgeNearExactly(source, polygons, tolerance);
    var targets := Projections(source, refs.segments);
    match Nearest(source, refs.vertices, tolerance) {
      case Some(k) =>
        IndexOfFirst(source, refs.vertices, tolerance, k);
        VertexIsFirst(source, polygons, tolerance, k, vs);
      case None =>
        match Nearest(source, targets, tolerance) {
          case Some(k) =>
            IndexOfFirst(source, targets, tolerance, k);
            EdgeIsFirst(source, polygons, tolerance, k, es);
          case None =>
        }
    }
  }

  lemma IndexOfFirst(source: Point, targets: seq<Point>, tolerance: real, k: nat)
    requires FirstNearest(source, targets, tolerance, k)
    ensures k < |targets|
  {
  }

  // --------------------------------------------------------- the snapped polygon

  // The same rings with every coordinate snapped against the polygons.
  ghost predicate SnappedRings(rings: seq<Ring>, polygons: seq<seq<Ring>>, tolerance: real, moved: seq<Ring>) {
    && |moved| == |rings|
    && forall r :: 0 <= r < |rings| ==>
         && |moved[r]| == |rings[r]|
         && forall i :: 0 <= i < |rings[r]| ==> SnapsTo(rings[r][i], polygons, tolerance, moved[r][i])
  }

  lemma SnapRingsExactly(rings: seq<Ring>, polygons: seq<seq<Ring>>, tolerance: real)
    ensures SnappedRings(rings, polygons, tolerance, SnapRings(rings, PolygonsReferences(polygons), tolerance))
  {
    hide SnapsTo, Snap, PolygonsReferences;
    var moved := SnapRings(rings, PolygonsReferences(polygons), tolerance);
    forall r, i | 0 <= r < |rings| && 0 <= i < |rings[r]|
      ensures SnapsTo(rings[r][i], polygons, tolerance, moved[r][i]) {
      SnapExactly(rings[r][i], polygons, tolerance);
    }
  }

  lemma SnappedRingsOne(rings: seq<Ring>, polygons: seq<seq<Ring>>, tolerance: real, a: seq<Ring>, b: seq<Ring>)
    requires SnappedRings(rings, polygons, tolerance, a) && SnappedRings(rings, polygons, tolerance, b)
    ensures a == b
  {
    hide SnapsTo;
    forall r | 0 <= r < |rings| ensures a[r] == b[r] {
      forall i | 0 <= i < |rings[r]| ensures a[r][i] == b[r][i] {
        SnapsToOne(rings[r][i], polygons, tolerance, a[r][i], b[r][i]);
      }
    }
  }

  // What SnapToReferences accepts and returns: the candidate for a tolerance that
  // is not positive, and otherwise the polygon of the snapped rings, provided
  // that polygon is accepted by the same rules as any other.
  lemma SnappedExactly(
    candidate: Polygon, polygons: seq<seq<Ring>>, tolerance: real, library: Library, moved: seq<Ring>)
    requires tolerance > 0.0 ==> SnappedRings(candidate.rings, polygons, tolerance, moved)
    ensures tolerance <= 0.0 ==> Snapped(candidate, polygons, tolerance, library) == Success(SnapResult(candidate, []))
    ensures tolerance > 0.0 ==>
              && (Snapped(candidate, polygons, tolerance, library).Success? <==>
                  library.valid(moved) && Parse(PolygonShape(moved), library).Success?)
              && (Snapped(candidate, polygons, tolerance, library).Success? ==>
                  Snapped(candidate, polygons, tolerance, library).value
                  == SnapResult(Parse(PolygonShape(moved), library).value,
                                RingsChanges(candidate.rings, PolygonsReferences(polygons), tolerance)))
  {
    hide SnappedRings, Parse, SnapRings;
    if tolerance > 0.0 {
      SnapRingsExactly(candidate.rings, polygons, tolerance);
      SnappedRingsOne(candidate.rings, polygons, tolerance, moved,
                      SnapRings(candidate.rings, PolygonsReferences(polygons), tolerance));
    }
  }

  // ------------------------------------------------------ the recorded changes

  ghost function RingMoves(r: nat, ring: Ring, refs: References, tolerance: real): seq<Position> {
    if ring == [] then []
    else
      var i := |ring| - 1;
      RingMoves(r, ring[..i], refs, tolerance)
      + (if Snap(ring[i], refs, tolerance) != ring[i] then [Position(0, r, i)] else [])
  }

  ghost function RingsMoves(rings: seq<Ring>, refs: References, tolerance: real): seq<Position> {
    if rings == [] then []
    else
      var r := |rings| - 1;
      RingsMoves(rings[..r], refs, tolerance) + RingMoves(r, rings[r], refs, tolerance)
  }

  lemma {:induction false} RingMovesExact(r: nat, ring: Ring, refs: References, tolerance: real)
    ensures Ordered(RingMoves(r, ring, refs, tolerance))
    ensures forall q :: q in RingMoves(r, ring, refs, tolerance) <==>
              q.polygon == 0 && q.ring == r && q.index < |ring| && Snap(ring[q.index], refs, tolerance) != ring[q.index]
  {
    hide Snap;
    if ring != [] {
      var i := |ring| - 1;
      RingMovesExact(r, ring[..i], refs, tolerance);
      OrderedJoin(RingMoves(r, ring[..i], refs, tolerance),
                  if Snap(ring[i], refs, tolerance) != ring[i] then [Position(0, r, i)] else []);
    }
  }

  lemma {:induction false} RingsMovesExact(rings: seq<Ring>, refs: References, tolerance: real)
    ensures Ordered(RingsMoves(rings, refs, tolerance))
    ensures forall q :: q in RingsMoves(rings, refs, tolerance) <==>
              q.polygon == 0 && q.ring < |rings| && q.index < |rings[q.ring]|
              && Snap(rings[q.ring][q.index], refs, tolerance) != rings[q.ring][q.index]
  {
    hide Snap, RingMoves;
    if rings != [] {
      var r := |rings| - 1;
      RingsMovesExact(rings[..r], refs, tolerance);
      RingMovesExact(r, rings[r], refs, tolerance);
      OrderedJoin(RingsMoves(rings[..r], refs, tolerance), RingMoves(r, rings[r], refs, tolerance));
    }
  }

  ghost predicate Records(c: Change, p: Point, refs: References, tolerance: real) {
    && c.before == p && c.after == Snap(p, refs, tolerance) && c.distance2 == Dist2(p, c.after)
    && (c.kind == Vertex <==> !NoneWithin(p, refs.vertices, tolerance))
  }

  lemma PointChangesExact(p: Point, refs: References, tolerance: real)
    ensures |PointChanges(p, refs, tolerance)| == if Snap(p, refs, tolerance) != p then 1 else 0
    ensures forall c :: c in PointChanges(p, refs, tolerance) ==> Records(c, p, refs, tolerance)
  {
    hide Dist2, Within, Project;
    SnapWithin(p, refs, tolerance);
  }

  lemma {:induction false} RingChangesAt(r: nat, ring: Ring, refs: References, tolerance: real, k: nat)
    ensures |RingMoves(r, ring, refs, tolerance)| == |RingChanges(ring, refs, tolerance)|
    ensures k < |RingChanges(ring, refs, tolerance)| ==>
              var q := RingMoves(r, ring, refs, tolerance)[k];
              q.index < |ring| && Records(RingChanges(ring, refs, tolerance)[k], ring[q.index], refs, tolerance)
  {
    hide Snap, PointChanges, NoneWithin, Dist2;
    if ring != [] {
      var i := |ring| - 1;
      RingChangesAt(r, ring[..i], refs, tolerance, k);
      PointChangesExact(ring[i], refs, tolerance);
      var last := PointChanges(ring[i], refs, tolerance);
      if k == |RingChanges(ring[..i], refs, tolerance)| && |last| == 1 {
        assert last[0] in last;
      }
    }
  }

  lemma {:induction false} RingsChangesAt(rings: seq<Ring>, refs: References, tolerance: real, k: nat)
    ensures |RingsMoves(rings, refs, tolerance)| == |RingsChanges(rings, refs, tolerance)|
    ensures k < |RingsChanges(rings, refs, tolerance)| ==>
              var q := RingsMoves(rings, refs, tolerance)[k];
              && q.ring < |rings| && q.index < |rings[q.ring]|
              && Records(RingsChanges(rings, refs, tolerance)[k], rings[q.ring][q.index], refs, tolerance)
  {
    hide Records, RingMoves, RingChanges;
    if rings != [] {
      var r := |rings| - 1;
      RingsChangesAt(rings[..r], refs, tolerance, k);
      RingChangesAt(r, rings[r], refs, tolerance, 0);
      if k >= |RingsChanges(rings[..r], refs, tolerance)| {
        var j := k - |RingsChanges(rings[..r], refs, tolerance)|;
        RingChangesAt(r, rings[r], refs, tolerance, j);
        RingMovesExact(r, rings[r], refs, tolerance);
        if j < |RingMoves(r, rings[r], refs, tolerance)| {
          assert RingMoves(r, rings[r], refs, tolerance)[j] in RingMoves(r, rings[r], refs, tolerance);
        }
      }
    }
  }

  // The changes are one for each moved coordinate, in the order of ring and index,
  // with where it was, where it went, how far, and whether a vertex or an edge
  // attracted it.
  lemma ChangesInOrder(rings: seq<Ring>, polygons: seq<seq<Ring>>, tolerance: real) returns (qs: seq<Position>)
    ensures var refs := PolygonsReferences(polygons);
            var changes := RingsChanges(rings, refs, tolerance);
            && Ordered(qs) && |qs| == |changes|
            && (forall q :: q in qs <==> q.polygon == 0 && IsVertex([rings], q)
                                         && !SnapsTo(rings[q.ring][q.index], polygons, tolerance,
                                                     rings[q.ring][q.index]))
            && forall k :: 0 <= k < |changes| ==>
                 && IsVertex([rings], qs[k]) && changes[k].before == VertexAt([rings], qs[k])
                 && SnapsTo(changes[k].before, polygons, tolerance, changes[k].after)
                 && changes[k].distance2 == Dist2(changes[k].before, changes[k].after)
                 && (changes[k].kind == Vertex <==> !NoVertexNear(changes[k].before, polygons, tolerance))
  {
    hide SnapsTo, Snap, NoneWithin, NoVertexNear, PolygonsReferences, RingsMoves, RingsChanges, Dist2;
    var refs := PolygonsReferences(polygons);
    var changes := RingsChanges(rings, refs, tolerance);
    qs := RingsMoves(rings, refs, tolerance);
    RingsMovesExact(rings, refs, tolerance);
    RingsChangesAt(rings, refs, tolerance, 0);
    forall q: Position | q.polygon == 0 && IsVertex([rings], q)
      ensures q in qs <==> !SnapsTo(rings[q.ring][q.index], polygons, tolerance, rings[q.ring][q.index])
    {
      StaysExactly(rings[q.ring][q.index], polygons, tolerance);
    }
    forall k | 0 <= k < |changes|
      ensures IsVertex([rings], qs[k]) && changes[k].before == VertexAt([rings], qs[k])
      ensures SnapsTo(changes[k].before, polygons, tolerance, changes[k].after)
      ensures changes[k].distance2 == Dist2(changes[k].before, changes[k].after)
      ensures changes[k].kind == Vertex <==> !NoVertexNear(changes[k].before, polygons, tolerance)
    {
      RingsChangesAt(rings, refs, tolerance, k);
      assert qs[k] in qs;
      SnapExactly(changes[k].before, polygons, tolerance);
      NoVertexNearExactly(changes[k].before, polygons, tolerance);
    }
  }

  lemma StaysExactly(p: Point, polygons: seq<seq<Ring>>, tolerance: real)
    ensures Snap(p, PolygonsReferences(polygons), tolerance) == p <==> SnapsTo(p, polygons, tolerance, p)
  {
    hide SnapsTo, Snap, PolygonsReferences;
    SnapExactly(p, polygons, tolerance);
    if SnapsTo(p, polygons, tolerance, p) {
      SnapsToOne(p, polygons, tolerance, p, Snap(p, PolygonsReferences(polygons), tolerance));
    }
  }
}

// SnapToReferences of backend/internal/geometry/geometry.go: the snapped
// polygon, and the list of changes that goes with it as evidence.

module SnapEvidence {
  import opened Options
  import opened Planar
  import opened Shoelace
  import opened Rings
  import opened Snapping

  datatype Change = Change(before: Point, after: Point, kind: Kind, distance2: real)

  datatype SnapResult = SnapResult(polygon: Polygon, changes: seq<Change>)

  datatype SnapError = InvalidSnappedTopology | SnappedParse(error: ParseError)

  ghost function SnapRing(ring: Ring, refs: References, tolerance: real): (r: Ring)
    ensures |r| == |ring|
  {
    seq(|ring|, i requires 0 <= i < |ring| => Snap(ring[i], refs, tolerance))
  }

  ghost function SnapRings(rings: seq<Ring>, refs: References, tolerance: real): (r: seq<Ring>)
    ensures |r| == |rings|
  {
    seq(|rings|, i requires 0 <= i < |rings| => SnapRing(rings[i], refs, tolerance))
  }

  ghost function PointChanges(p: Point, refs: References, tolerance: real): seq<Change> {
    match SnapTarget(p, refs, tolerance)
    case Unmoved => []
    case Moved(to, kind) => [Change(p, to, kind, Dist2(p, to))]
  }

  ghost function RingChanges(ring: Ring, refs: References, tolerance: real): seq<Change> {
    if ring == [] then []
    else RingChanges(ring[..|ring| - 1], refs, tolerance) + PointChanges(ring[|ring| - 1], refs, tolerance)
  }

  ghost function RingsChanges(rings: seq<Ring>, refs: References, tolerance: real): seq<Change> {
    if rings == [] then []
    else RingsChanges(rings[..|rings| - 1], refs, tolerance) + RingChanges(rings[|rings| - 1], refs, tolerance)
  }

  method TransformRing(ring: Ring, refs: References, tolerance: real) returns (moved: Ring, changes: seq<Change>)
    ensures moved == SnapRing(ring, refs, tolerance)
    ensures changes == RingChanges(ring, refs, tolerance)
  {
    hide SnapTarget, Dist2;
    moved, changes := [], [];
    for i := 0 to |ring|
      invariant moved == SnapRing(ring[..i], refs, tolerance)
      invariant changes == RingChanges(ring[..i], refs, tolerance)
    {
      var from := ring[i];
      var target, distance2 := NearestSnapTarget(from, refs, tolerance);
      assert ring[..i + 1][..i] == ring[..i];
      match target {
        case Unmoved =>
          moved := moved + [from];
        case Moved(to, kind) =>
          changes := changes + [Change(from, to, kind, distance2)];
          moved := moved + [to];
      }
    }
    assert ring[..|ring|] == ring;
  }

  // A tolerance that is not positive returns the candidate as it is. Otherwise
  // every coordinate is snapped in order, and the result must parse again.
  ghost function Snapped(candidate: Polygon, polygons: seq<seq<Ring>>, tolerance: real, library: Library)
    : Result<SnapResult, SnapError>
  {
    if tolerance <= 0.0 then Success(SnapResult(candidate, []))
    else
      var refs := PolygonsReferences(polygons);
      var moved := SnapRings(candidate.rings, refs, tolerance);
      if !library.valid(moved) then Failure(InvalidSnappedTopology)
      else
        match Parse(PolygonShape(moved), library)
        case Failure(e) => Failure(SnappedParse(e))
        case Success(polygon) => Success(SnapResult(polygon, RingsChanges(candidate.rings, refs, tolerance)))
  }

  method SnapToReferences(candidate: Polygon, polygons: seq<seq<Ring>>, tolerance: real, library: Library)
    returns (r: Result<SnapResult, SnapError>)
    ensures r == Snapped(candidate, polygons, tolerance, library)
  {
    hide SnapRing, RingChanges, Parse;
    if tolerance <= 0.0 {
      return Success(SnapResult(candidate, []));
    }
    var refs := CollectReferences(polygons);
    var rings := candidate.rings;
    var moved: seq<Ring>, changes := [], [];
    for i := 0 to |rings|
      invariant moved == SnapRings(rings[..i], refs, tolerance)
      invariant changes == RingsChanges(rings[..i], refs, tolerance)
    {
      var ring, ringChanges := TransformRing(rings[i], refs, tolerance);
      assert rings[..i + 1][..i] == rings[..i];
      moved, changes := moved + [ring], changes + ringChanges;
    }
    assert rings[..|rings|] == rings;
    if !library.valid(moved) {
      return Failure(InvalidSnappedTopology);
    }
    var parsed := ParsePolygon(PolygonShape(moved), library);
    match parsed {
      case Failure(e) => return Failure(SnappedParse(e));
      case Success(polygon) => return Success(SnapResult(polygon, changes));
    }
  }

  // -------------------------------------------------- the evidence is complete

  predicate Occurs(p: Point, rings: seq<Ring>) {
    exists ring :: ring in rings && p in ring
  }

  lemma {:induction false} RingChangesExact(ring: Ring, refs: References, tolerance: real, c: Change)
    ensures c in RingChanges(ring, refs, tolerance) <==>
            && c.before in ring
            && SnapTarget(c.before, refs, tolerance) == Moved(c.after, c.kind)
            && c.distance2 == Dist2(c.before, c.after)
  {
    hide SnapTarget, Dist2;
    if ring != [] {
      var n := |ring| - 1;
      RingChangesExact(ring[..n], refs, tolerance, c);
      assert ring == ring[..n] + [ring[n]];
    }
  }

  // The changes are the moves of the coordinates that occur, no more, no less.
  lemma {:induction false} ChangesExact(rings: seq<Ring>, refs: References, tolerance: real, c: Change)
    ensures c in RingsChanges(rings, refs, tolerance) <==>
            && Occurs(c.before, rings)
            && SnapTarget(c.before, refs, tolerance) == Moved(c.after, c.kind)
            && c.distance2 == Dist2(c.before, c.after)
  {
    hide SnapTarget, Dist2, RingChanges;
    if rings != [] {
      var n := |rings| - 1;
      ChangesExact(rings[..n], refs, tolerance, c);
      RingChangesExact(rings[n], refs, tolerance, c);
      assert rings == rings[..n] + [rings[n]];
    }
  }

  // Each recorded move is a move, within tolerance, fixed by where it starts.
  lemma ChangeFacts(rings: seq<Ring>, refs: References, tolerance: real, c: Change, d: Change)
    requires c in RingsChanges(rings, refs, tolerance) && d in RingsChanges(rings, refs, tolerance)
    ensures c.before != c.after && Within(c.before, c.after, tolerance) && 0.0 < c.distance2 <= tolerance * tolerance
    ensures c.before == d.before ==> c == d
  {
    hide SnapTarget, Dist2, RingsChanges;
    ChangesExact(rings, refs, tolerance, c);
    ChangesExact(rings, refs, tolerance, d);
    SnapWithin(c.before, refs, tolerance);
    Dist2Facts(c.before, c.after);
  }

  // Looking a coordinate up among the recorded moves.
  function Substitute(p: Point, changes: seq<Change>): Point {
    if changes == [] then p
    else if changes[0].before == p then changes[0].after
    else Substitute(p, changes[1..])
  }

  function SubstituteRing(ring: Ring, changes: seq<Change>): Ring {
    seq(|ring|, i requires 0 <= i < |ring| => Substitute(ring[i], changes))
  }

  function SubstituteRings(rings: seq<Ring>, changes: seq<Change>): seq<Ring> {
    seq(|rings|, i requires 0 <= i < |rings| => SubstituteRing(rings[i], changes))
  }

  lemma {:induction false} SubstituteFinds(p: Point, changes: seq<Change>)
    ensures (exists c :: c in changes && c.before == p && c.after == Substitute(p, changes))
         || ((forall c :: c in changes ==> c.before != p) && Substitute(p, changes) == p)
  {
    if changes != [] && changes[0].before != p {
      SubstituteFinds(p, changes[1..]);
      assert changes == [changes[0]] + changes[1..];
    } else if changes != [] {
      assert changes[0] in changes;
    }
  }

  lemma SubstituteIsSnap(p: Point, rings: seq<Ring>, refs: References, tolerance: real)
    requires Occurs(p, rings)
    ensures Substitute(p, RingsChanges(rings, refs, tolerance)) == Snap(p, refs, tolerance)
  {
    hide SnapTarget, Dist2, RingsChanges, Substitute, Occurs;
    var changes := RingsChanges(rings, refs, tolerance);
    SubstituteFinds(p, changes);
    match SnapTarget(p, refs, tolerance) {
      case Moved(to, kind) =>
        ChangesExact(rings, refs, tolerance, Change(p, to, kind, Dist2(p, to)));
      case Unmoved =>
    }
    forall c | c in changes && c.before == p ensures c.after == Snap(p, refs, tolerance) {
      ChangesExact(rings, refs, tolerance, c);
    }
  }

  // Replaying the recorded moves on the original rings gives the snapped rings.
  lemma EvidenceReproducesSnap(rings: seq<Ring>, refs: References, tolerance: real)
    ensures SubstituteRings(rings, RingsChanges(rings, refs, tolerance)) == SnapRings(rings, refs, tolerance)
  {
    hide Snap, RingsChanges, Substitute;
    var changes := RingsChanges(rings, refs, tolerance);
    forall i | 0 <= i < |rings|
      ensures SubstituteRing(rings[i], changes) == SnapRing(rings[i], refs, tolerance)
    {
      forall k | 0 <= k < |rings[i]| ensures Substitute(rings[i][k], changes) == Snap(rings[i][k], refs, tolerance) {
        assert rings[i] in rings && rings[i][k] in rings[i];
        SubstituteIsSnap(rings[i][k], rings, refs, tolerance);
      }
    }
  }

  // ------------------------------------------------------ closed rings and area

  // A closed ring stays closed, and its signed area moves by at most
  // tolerance * Girth + n * tolerance^2 / 2.
  lemma SnapAreaBound(ring: Ring, refs: References, tolerance: real)
    requires Closed(ring) && tolerance > 0.0
    ensures Closed(SnapRing(ring, refs, tolerance))
    ensures Abs(Area(SnapRing(ring, refs, tolerance)) - Area(ring))
         <= tolerance * Girth(ring) + ((|ring| - 1) as real) * (tolerance * tolerance) / 2.0
  {
    hide Snap, Area, Girth, Within;
    var moved := SnapRing(ring, refs, tolerance);
    forall i | 0 <= i < |ring| ensures Within(ring[i], moved[i], tolerance) {
      SnapWithin(ring[i], refs, tolerance);
    }
    AreaBound(ring, moved, tolerance);
  }

  // A ring with more area than the bound keeps its orientation.
  lemma SnapKeepsOrientation(ring: Ring, refs: References, tolerance: real)
    requires Closed(ring) && tolerance > 0.0
    requires Abs(Area(ring)) > tolerance * Girth(ring) + ((|ring| - 1) as real) * (tolerance * tolerance) / 2.0
    ensures Area(SnapRing(ring, refs, tolerance)) > 0.0 <==> Area(ring) > 0.0
    ensures Area(SnapRing(ring, refs, tolerance)) != 0.0
  {
    hide SnapRing, Area, Girth;
    SnapAreaBound(ring, refs, tolerance);
  }

  ghost predicate Ample(ring: Ring, tolerance: real) {
    Abs(Area(ring)) > tolerance * Girth(ring) + ((|ring| - 1) as real) * (tolerance * tolerance) / 2.0
  }

  lemma RingStaysFaultless(ring: Ring, index: nat, refs: References, tolerance: real)
    requires tolerance > 0.0 && RingFault(ring, index).None? && Ample(ring, tolerance)
    ensures RingFault(SnapRing(ring, refs, tolerance), index).None?
  {
    hide SnapRing, Area, Girth;
    SnapAreaBound(ring, refs, tolerance);
    SnapKeepsOrientation(ring, refs, tolerance);
  }

  // Snapping a polygon that was accepted, with such rings, breaks no ring rule:
  // only the overlay library can still refuse the result.
  lemma SnapPassesRingRules(rings: seq<Ring>, refs: References, tolerance: real)
    requires tolerance > 0.0 && FirstFault(rings).None?
    requires forall i :: 0 <= i < |rings| ==> Ample(rings[i], tolerance)
    ensures FirstFault(SnapRings(rings, refs, tolerance)).None?
  {
    hide SnapRing, RingFault, FirstFault, Ample;
    NoFault(rings);
    var moved := SnapRings(rings, refs, tolerance);
    forall i | 0 <= i < |moved| ensures RingFault(moved[i], i).None? {
      RingStaysFaultless(rings[i], i, refs, tolerance);
    }
    NoFault(moved);
  }
}

// The ring rules of ParsePolygon in backend/internal/geometry/geometry.go:
// closed rings, a counter-clockwise exterior and clockwise interiors, as in
// section 3.1.6 of RFC 7946.

module Rings {
  import opened Options
  import opened Planar
  import opened Shoelace

  // What the GeoJSON decoder makes of the input text.
  datatype Document = Unreadable | OtherShape | PolygonShape(rings: seq<Ring>)

  // The overlay library's topology check and area, as functions of the rings.
  datatype Library = Library(valid: seq<Ring> -> bool, area: seq<Ring> -> real)

  datatype Polygon = Polygon(rings: seq<Ring>, area: real)

  datatype ParseError =
    | InvalidGeoJson
    | NotAPolygon
    | EmptyPolygon
    | InvalidTopology
    | RingNotClosed(ring: nat)
    | ExteriorNotCounterClockwise
    | InteriorNotClockwise(ring: nat)
    | AreaNotPositive

  function RingFault(ring: Ring, index: nat): Option<ParseError> {
    if |ring| < 4 || !Closed(ring) then Some(RingNotClosed(index))
    else if index == 0 && Area(ring) <= 0.0 then Some(ExteriorNotCounterClockwise)
    else if index > 0 && Area(ring) >= 0.0 then Some(InteriorNotClockwise(index))
    else None
  }

  // The fault of the first faulty ring.
  function FirstFault(rings: seq<Ring>): Option<ParseError> {
    if rings == [] then None
    else
      var n := |rings| - 1;
      var earlier := FirstFault(rings[..n]);
      if earlier.Some? then earlier else RingFault(rings[n], n)
  }

  function Parse(document: Document, library: Library): Result<Polygon, ParseError> {
    match document
    case Unreadable => Failure(InvalidGeoJson)
    case OtherShape => Failure(NotAPolygon)
    case PolygonShape(rings) =>
      if rings == [] then Failure(EmptyPolygon)
      else if !library.valid(rings) then Failure(InvalidTopology)
      else
        match FirstFault(rings)
        case Some(fault) => Failure(fault)
        case None =>
          if library.area(rings) <= 0.0 then Failure(AreaNotPositive) else Success(Polygon(rings, library.area(rings)))
  }

  method ParsePolygon(document: Document, library: Library) returns (r: Result<Polygon, ParseError>)
    ensures r == Parse(document, library)
  {
    hide Area;
    match document {
      case Unreadable => return Failure(InvalidGeoJson);
      case OtherShape => return Failure(NotAPolygon);
      case PolygonShape(shape) =>
        if shape == [] {
          return Failure(EmptyPolygon);
        }
        if !library.valid(shape) {
          return Failure(InvalidTopology);
        }
        var rings: seq<Ring> := [];
        for index := 0 to |shape|
          invariant rings == shape[..index]
          invariant FirstFault(rings) == None
        {
          var points := shape[index];
          assert shape[..index + 1][..index] == shape[..index];
          FaultStays(shape, index);
          if |points| < 4 || points[0] != points[|points| - 1] {
            return Failure(RingNotClosed(index));
          }
          var orientation := SignedArea(points);
          if index == 0 && orientation <= 0.0 {
            return Failure(ExteriorNotCounterClockwise);
          }
          if index > 0 && orientation >= 0.0 {
            return Failure(InteriorNotClockwise(index));
          }
          rings := rings + [points];
        }
        assert shape[..|shape|] == shape;
        var area := library.area(rings);
        if area <= 0.0 {
          return Failure(AreaNotPositive);
        }
        return Success(Polygon(rings, area));
    }
  }

  // Once a prefix has a fault, the whole has that fault.
  lemma {:induction false} FaultPrefix(rings: seq<Ring>, k: nat)
    requires k <= |rings| && FirstFault(rings[..k]).Some?
    ensures FirstFault(rings) == FirstFault(rings[..k])
  {
    hide RingFault;
    if k < |rings| {
      var front := rings[..|rings| - 1];
      assert front[..k] == rings[..k];
      FaultPrefix(front, k);
    } else {
      assert rings[..k] == rings;
    }
  }

  lemma FaultStays(rings: seq<Ring>, k: nat)
    requires k < |rings| && FirstFault(rings[..k]) == None
    ensures RingFault(rings[k], k).Some? ==> FirstFault(rings) == RingFault(rings[k], k)
    ensures RingFault(rings[k], k).None? ==> FirstFault(rings[..k + 1]) == None
  {
    hide RingFault;
    assert rings[..k + 1][..k] == rings[..k];
    if RingFault(rings[k], k).Some? {
      FaultPrefix(rings, k + 1);
    }
  }

  lemma {:induction false} NoFault(rings: seq<Ring>)
    ensures FirstFault(rings).None? <==> forall i :: 0 <= i < |rings| ==> RingFault(rings[i], i).None?
  {
    hide RingFault;
    if rings != [] {
      var n := |rings| - 1;
      NoFault(rings[..n]);
      if FirstFault(rings).None? {
        forall i | 0 <= i < |rings| ensures RingFault(rings[i], i).None? {
          if i < n {
            assert rings[..n][i] == rings[i];
          }
        }
      }
    }
  }

  // What an accepted polygon satisfies, and nothing else is accepted.
  lemma ParseAccepts(document: Document, library: Library)
    ensures Parse(document, library).Success? <==>
            && document.PolygonShape?
            && document.rings != []
            && library.valid(document.rings)
            && library.area(document.rings) > 0.0
            && (forall i :: 0 <= i < |document.rings| ==>
                  && |document.rings[i]| >= 4 && Closed(document.rings[i])
                  && (i == 0 ==> Area(document.rings[i]) > 0.0)
                  && (i > 0 ==> Area(document.rings[i]) < 0.0))
  {
    hide Area;
    if document.PolygonShape? {
      NoFault(document.rings);
    }
  }

  ghost predicate Faulty(ring: Ring, index: nat) {
    || |ring| < 4 || !Closed(ring)
    || (index == 0 && Area(ring) <= 0.0)
    || (index > 0 && Area(ring) >= 0.0)
  }

  // What is accepted keeps its rings and the library's area, and parses again.
  lemma ParseKeeps(document: Document, library: Library)
    requires Parse(document, library).Success?
    ensures document.PolygonShape?
    ensures Parse(document, library).value == Polygon(document.rings, library.area(document.rings))
    ensures Parse(PolygonShape(Parse(document, library).value.rings), library) == Parse(document, library)
  {
    hide Area;
  }

  // The error is that of the first check that fails; among the rings, that of the
  // first faulty one.
  lemma ParseRejects(document: Document, library: Library, first: nat)
    ensures document == Unreadable ==> Parse(document, library) == Failure(InvalidGeoJson)
    ensures document == OtherShape ==> Parse(document, library) == Failure(NotAPolygon)
    ensures document == PolygonShape([]) ==> Parse(document, library) == Failure(EmptyPolygon)
    ensures document.PolygonShape? && document.rings != [] && !library.valid(document.rings) ==>
              Parse(document, library) == Failure(InvalidTopology)
    ensures document.PolygonShape? && library.valid(document.rings) && first < |document.rings|
            && Faulty(document.rings[first], first)
            && (forall i :: 0 <= i < first ==> !Faulty(document.rings[i], i)) ==>
              var ring := document.rings[first];
              Parse(document, library) == Failure(
                if |ring| < 4 || ring[0] != ring[|ring| - 1] then RingNotClosed(first)
                else if first == 0 then ExteriorNotCounterClockwise else InteriorNotClockwise(first))
    ensures document.PolygonShape? && document.rings != [] && library.valid(document.rings)
            && (forall i :: 0 <= i < |document.rings| ==> !Faulty(document.rings[i], i))
            && library.area(document.rings) <= 0.0 ==>
              Parse(document, library) == Failure(AreaNotPositive)
  {
    hide Area, FirstFault;
    if document.PolygonShape? {
      NoFault(document.rings);
      if first < |document.rings| && (forall i :: 0 <= i < first ==> !Faulty(document.rings[i], i)) {
        NoFault(document.rings[..first]);
        FaultStays(document.rings, first);
      }
    }
  }

  // The verdict on a ring does not depend on where its listing starts.
  lemma OrientationIgnoresStart(ring: Ring, k: nat, index: nat)
    requires Closed(ring) && k < |ring|
    ensures RingFault(Rotate(ring, k), index) == RingFault(ring, index)
  {
    hide Area;
    AreaRotate(ring, k);
  }

  // A ring is a good exterior exactly when its reversal is a good interior.
  lemma ReversalSwapsRoles(ring: Ring, index: nat)
    requires Closed(ring) && index > 0
    ensures RingFault(ring, 0).None? <==> RingFault(Reverse(ring), index).None?
  {
    hide Area;
    AreaReverse(ring);
  }
}

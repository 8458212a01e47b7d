// The computation in the middle of DetectConflicts, from the stored texts to the
// findings: parsing, snapping against the parcel and its neighbours, overlay.

module Analysis {
  import opened Options
  import opened Shoelace
  import opened Rings
  import opened SnapEvidence
  import opened Topology
  import opened Repository
  import opened Detection
  import D = Domain
  import DB = Database
  import Services

  // The GeoJSON library: what a text decodes to, and how rings become shapes and
  // texts.
  datatype Codec = Codec(
    decode: string -> Document,
    encode: seq<Ring> -> Option<string>,
    rings: Library,
    shape: seq<Ring> -> Shape,
    lib: Overlay)

  function ParseText(c: Codec, raw: string): Result<Polygon, ParseError> {
    Parse(c.decode(raw), c.rings)
  }

  // The neighbours' polygons in order; None when one of them does not parse.
  function ParseNeighbours(c: Codec, parcels: seq<D.Parcel>, ids: seq<D.Id>): (r: Option<seq<Polygon>>)
    requires KnownIds(parcels, ids)
    ensures r.Some? ==> |r.value| == |ids|
    ensures r.None? <==> exists k :: 0 <= k < |ids| && ParseText(c, parcels[ids[k]].boundary).Failure?
  {
    if ids == [] then Some([])
    else
      var n := |ids| - 1;
      match ParseNeighbours(c, parcels, ids[..n])
      case None => None
      case Some(earlier) =>
        match ParseText(c, parcels[ids[n]].boundary)
        case Failure(_) => None
        case Success(polygon) => Some(earlier + [polygon])
  }

  function RingsOf(polygons: seq<Polygon>): seq<seq<Ring>> {
    seq(|polygons|, i requires 0 <= i < |polygons| => polygons[i].rings)
  }

  function NeighboursOf(c: Codec, ids: seq<D.Id>, polygons: seq<Polygon>): seq<Neighbour>
    requires |ids| == |polygons|
  {
    seq(|ids|, i requires 0 <= i < |ids| => Neighbour(ids[i], c.shape(polygons[i].rings)))
  }

  // Snapping against the parcel itself and then its neighbours, and the findings
  // for the snapped polygon.
  ghost function Compare(
    c: Codec, base: Polygon, proposed: Polygon, ids: seq<D.Id>, polygons: seq<Polygon>, tolerance: real)
    : Result<Found, D.AppError>
    requires |ids| == |polygons|
  {
    match Snapped(proposed, [base.rings] + RingsOf(polygons), tolerance, c.rings)
    case Failure(_) => Failure(D.GeometryInvalid)
    case Success(snapped) =>
      match c.encode(snapped.polygon.rings)
      case None => Failure(D.GeometryInvalid)
      case Some(text) =>
        var job := Job(c.lib, c.shape(base.rings), c.shape(snapped.polygon.rings), tolerance);
        match Detected(job, NeighboursOf(c, ids, polygons))
        case Failure(_) => Failure(D.Internal)
        case Success(findings) => Success(Found(Some(text), findings))
  }

  ghost function Analysed(c: Codec, parcels: seq<D.Parcel>, proposal: D.Proposal, tolerance: real)
    : Result<Found, D.AppError>
    requires proposal.parcelId < |parcels|
  {
    var parcel := parcels[proposal.parcelId];
    match ParseText(c, parcel.boundary)
    case Failure(_) => Failure(D.GeometryInvalid)
    case Success(base) =>
      match ParseText(c, proposal.geometry)
      case Failure(_) => Failure(D.GeometryInvalid)
      case Success(proposed) =>
        var ids := Neighbours(parcels, parcel.crs, proposal.parcelId);
        match ParseNeighbours(c, parcels, ids)
        case None => Failure(D.Internal)
        case Some(polygons) => Compare(c, base, proposed, ids, polygons, tolerance)
  }

  // What the computation comes to for the request.
  ghost function FoundFor(c: Codec, db: DB.Db, r: Services.Request): Result<Found, D.AppError>
    requires r.DetectConflicts?
  {
    if r.proposalId >= |db.proposals| || db.proposals[r.proposalId].parcelId >= |db.parcels| then Failure(D.NotFound)
    else
      var proposal := db.proposals[r.proposalId];
      Analysed(c, db.parcels, proposal, Services.EffectiveTolerance(r.tolerance, proposal))
  }

  method CompareGeometry(
    c: Codec, base: Polygon, proposed: Polygon, ids: seq<D.Id>, polygons: seq<Polygon>, tolerance: real)
    returns (r: Result<Found, D.AppError>)
    requires |ids| == |polygons|
    ensures r == Compare(c, base, proposed, ids, polygons, tolerance)
  {
    hide Snapped, Detected;
    var snapped := SnapToReferences(proposed, [base.rings] + RingsOf(polygons), tolerance, c.rings);
    if snapped.Failure? {
      return Failure(D.GeometryInvalid);
    }
    var text := c.encode(snapped.value.polygon.rings);
    if text.None? {
      return Failure(D.GeometryInvalid);
    }
    var job := Job(c.lib, c.shape(base.rings), c.shape(snapped.value.polygon.rings), tolerance);
    var findings := DetectTopology(job, NeighboursOf(c, ids, polygons));
    if findings.Failure? {
      return Failure(D.Internal);
    }
    return Success(Found(text, findings.value));
  }

  // ------------------------------------------------ the hash fixes the findings

  lemma {:induction false} SameNeighbourPolygons(
    c: Codec, parcels1: seq<D.Parcel>, parcels2: seq<D.Parcel>, ids: seq<D.Id>)
    requires KnownIds(parcels1, ids) && SameBoundaries(parcels1, parcels2, ids)
    ensures ParseNeighbours(c, parcels1, ids) == ParseNeighbours(c, parcels2, ids)
  {
    hide ParseText;
    if ids != [] {
      SameNeighbourPolygons(c, parcels1, parcels2, ids[..|ids| - 1]);
    }
  }

  // Two detections with the same tolerance whose input hashes agree come to the
  // same findings and the same suggestion, or to the same error.
  lemma HashFixesFindings(
    e: D.Engine, c: Codec, parcels1: seq<D.Parcel>, proposal1: D.Proposal,
    parcels2: seq<D.Parcel>, proposal2: D.Proposal, tolerance: real)
    requires proposal1.parcelId < |parcels1| && proposal2.parcelId < |parcels2| && Sound(e)
    requires Printable(e, parcels1, proposal1) && Printable(e, parcels2, proposal2)
    requires InputHash(e, parcels1, proposal1, tolerance) == InputHash(e, parcels2, proposal2, tolerance)
    ensures Analysed(c, parcels1, proposal1, tolerance) == Analysed(c, parcels2, proposal2, tolerance)
  {
    hide InputHash, ParseText, ParseNeighbours, Compare, Neighbours;
    InputHashExact(e, parcels1, proposal1, tolerance, parcels2, proposal2, tolerance);
    var parcel := parcels1[proposal1.parcelId];
    SameNeighbourPolygons(c, parcels1, parcels2, Neighbours(parcels1, parcel.crs, proposal1.parcelId));
  }
}

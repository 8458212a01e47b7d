// Everything the services have stored parses again, so detection on a stored
// proposal can only fail in snapping or in the overlay library.

module StoredGeometry {
  import opened Options
  import opened Domain
  import opened Database
  import opened Services
  import opened Repository
  import opened Interleaving
  import opened Evolution
  import opened Analysis
  import AreaHistory

  // The services and detection parse with the same parser.
  ghost predicate Agrees(e: Engine, c: Codec) {
    forall raw :: e.polygonArea(raw) == AreaOf(c, raw)
  }

  function AreaOf(c: Codec, raw: string): Option<real> {
    match ParseText(c, raw)
    case Failure(_) => None
    case Success(polygon) => Some(polygon.area)
  }

  ghost predicate AllParse(c: Codec, parcels: seq<Parcel>) {
    forall i :: 0 <= i < |parcels| ==>
      ParseText(c, parcels[i].boundary).Success? && ParseText(c, parcels[i].boundary).value.area == parcels[i].area
  }

  // In every run, every stored boundary parses to a polygon of the stored area.
  lemma ParcelsParse(e: Engine, c: Codec, actions: seq<Action>)
    requires Agrees(e, c)
    ensures AllParse(c, Run(e, actions).db.parcels)
  {
    hide Run, ParseText;
    forall i | 0 <= i < |Run(e, actions).db.parcels|
      ensures ParseText(c, Run(e, actions).db.parcels[i].boundary).Success?
      ensures ParseText(c, Run(e, actions).db.parcels[i].boundary).value.area == Run(e, actions).db.parcels[i].area
    {
      AreaHistory.ParcelAreas(e, actions, i);
      assert e.polygonArea(Run(e, actions).db.parcels[i].boundary) == AreaOf(c, Run(e, actions).db.parcels[i].boundary);
    }
  }

  // In every run, for every stored proposal, created or derived, detection finds
  // the parcel and parses the boundary, the proposal and all neighbours.
  lemma DetectionParses(e: Engine, c: Codec, actions: seq<Action>, i: Id)
    requires Agrees(e, c) && i < |Run(e, actions).db.proposals|
    ensures var db := Run(e, actions).db;
            var proposal := db.proposals[i];
            && proposal.parcelId < |db.parcels|
            && ParseText(c, db.parcels[proposal.parcelId].boundary).Success?
            && ParseText(c, proposal.geometry).Success?
            && ParseNeighbours(c, db.parcels,
                 Neighbours(db.parcels, db.parcels[proposal.parcelId].crs, proposal.parcelId)).Some?
  {
    hide Run, ParseText, Neighbours;
    ParcelsParse(e, c, actions);
    AreaHistory.ProposalDeltas(e, actions, i);
    var geometry := Run(e, actions).db.proposals[i].geometry;
    assert e.polygonArea(geometry) == AreaOf(c, geometry);
  }
}

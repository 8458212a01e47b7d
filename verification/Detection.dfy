// What detection reads and builds between its lookup and its transaction, in
// backend/internal/service/topology_conflict_service.go.

module Detection {
  import opened Options
  import opened Framing
  import opened Domain
  import opened Database
  import opened Services
  import opened Repository
  import Topology

  const ALGORITHM_VERSION := "parcelgraph-topology-2.0"

  // --------------------------------------------------------------- input hash

  function NeighbourParts(e: Engine, parcels: seq<Parcel>, ids: seq<Id>): (r: seq<string>)
    requires KnownIds(parcels, ids)
    ensures |r| == 2 * |ids|
    ensures forall k :: 0 <= k < |ids| ==>
              r[2 * k] == e.formatId(ids[k]) && r[2 * k + 1] == parcels[ids[k]].boundary
  {
    if ids == [] then []
    else
      var n := |ids| - 1;
      NeighbourParts(e, parcels, ids[..n]) + [e.formatId(ids[n]), parcels[ids[n]].boundary]
  }

  lemma NoNeighbourParts(e: Engine, parcels: seq<Parcel>)
    ensures NeighbourParts(e, parcels, []) == []
  {
  }

  lemma NeighbourPartsNext(e: Engine, parcels: seq<Parcel>, ids: seq<Id>, i: nat)
    requires KnownIds(parcels, ids) && i < |ids|
    ensures ids[i] < |parcels| && KnownIds(parcels, ids[..i]) && KnownIds(parcels, ids[..i + 1])
    ensures NeighbourParts(e, parcels, ids[..i + 1])
         == NeighbourParts(e, parcels, ids[..i]) + [e.formatId(ids[i]), parcels[ids[i]].boundary]
  {
    assert ids[..i + 1][..i] == ids[..i];
  }

  function HeadParts(e: Engine, parcel: Parcel, proposal: Proposal, tolerance: real): seq<string> {
    [parcel.boundary, proposal.geometry, parcel.crs, e.formatTolerance(tolerance), ALGORITHM_VERSION]
  }

  function InputParts(e: Engine, parcels: seq<Parcel>, proposal: Proposal, tolerance: real): seq<string>
    requires proposal.parcelId < |parcels|
  {
    var parcel := parcels[proposal.parcelId];
    HeadParts(e, parcel, proposal, tolerance)
    + NeighbourParts(e, parcels, Neighbours(parcels, parcel.crs, proposal.parcelId))
  }

  // The parts in their order: the five of the parcel and the proposal, then the id
  // and the boundary of each neighbour.
  lemma InputPartsExactly(e: Engine, parcels: seq<Parcel>, proposal: Proposal, tolerance: real)
    requires proposal.parcelId < |parcels|
    ensures var parcel := parcels[proposal.parcelId];
            var ids := Neighbours(parcels, parcel.crs, proposal.parcelId);
            var parts := InputParts(e, parcels, proposal, tolerance);
            && |parts| == 5 + 2 * |ids|
            && parts[0] == parcel.boundary && parts[1] == proposal.geometry && parts[2] == parcel.crs
            && parts[3] == e.formatTolerance(tolerance) && parts[4] == "parcelgraph-topology-2.0"
            && forall k :: 0 <= k < |ids| ==>
                 parts[5 + 2 * k] == e.formatId(ids[k]) && parts[6 + 2 * k] == parcels[ids[k]].boundary
  {
    hide Neighbours;
    var parcel := parcels[proposal.parcelId];
    var ids := Neighbours(parcels, parcel.crs, proposal.parcelId);
    var tail := NeighbourParts(e, parcels, ids);
    var parts := InputParts(e, parcels, proposal, tolerance);
    forall k | 0 <= k < |ids|
      ensures parts[5 + 2 * k] == e.formatId(ids[k]) && parts[6 + 2 * k] == parcels[ids[k]].boundary
    {
      assert parts[5 + 2 * k] == tail[2 * k] && parts[6 + 2 * k] == tail[2 * k + 1];
    }
  }

  function InputHash(e: Engine, parcels: seq<Parcel>, proposal: Proposal, tolerance: real): string
    requires proposal.parcelId < |parcels|
  {
    e.digest(Frame(InputParts(e, parcels, proposal, tolerance)))
  }

  ghost predicate Printable(e: Engine, parcels: seq<Parcel>, proposal: Proposal) {
    && (forall i :: 0 <= i < |parcels| ==> NUL !in parcels[i].boundary && NUL !in parcels[i].crs)
    && NUL !in proposal.geometry
  }

  // A digest without collisions, and faithful formatting of ids.
  ghost predicate Sound(e: Engine) {
    && (forall s, t :: e.digest(s) == e.digest(t) ==> s == t)
    && (forall i :: NUL !in e.formatId(i))
    && (forall x :: NUL !in e.formatTolerance(x))
    && (forall i, j :: e.formatId(i) == e.formatId(j) ==> i == j)
  }

  ghost predicate SameBoundaries(parcels1: seq<Parcel>, parcels2: seq<Parcel>, ids: seq<Id>)
    requires KnownIds(parcels1, ids)
  {
    KnownIds(parcels2, ids) && forall k :: 0 <= k < |ids| ==> parcels1[ids[k]].boundary == parcels2[ids[k]].boundary
  }

  // Two detections looked at the same geometry.
  ghost predicate SameInputs(
    e: Engine, parcels1: seq<Parcel>, proposal1: Proposal, tolerance1: real,
    parcels2: seq<Parcel>, proposal2: Proposal, tolerance2: real)
    requires proposal1.parcelId < |parcels1| && proposal2.parcelId < |parcels2|
  {
    var p1, p2 := parcels1[proposal1.parcelId], parcels2[proposal2.parcelId];
    var n1 := Neighbours(parcels1, p1.crs, proposal1.parcelId);
    var n2 := Neighbours(parcels2, p2.crs, proposal2.parcelId);
    && p1.boundary == p2.boundary && p1.crs == p2.crs
    && proposal1.geometry == proposal2.geometry
    && e.formatTolerance(tolerance1) == e.formatTolerance(tolerance2)
    && n1 == n2 && SameBoundaries(parcels1, parcels2, n1)
  }

  lemma NeighbourPartsFree(e: Engine, parcels: seq<Parcel>, ids: seq<Id>)
    requires KnownIds(parcels, ids) && Sound(e)
    requires forall i :: 0 <= i < |parcels| ==> NUL !in parcels[i].boundary
    ensures NulFree(NeighbourParts(e, parcels, ids))
  {
    var r := NeighbourParts(e, parcels, ids);
    forall k | 0 <= k < |r| ensures NUL !in r[k] {
      var h := k / 2;
      assert k == 2 * h || k == 2 * h + 1;
    }
  }

  lemma NeighbourPartsInjective(e: Engine, parcels1: seq<Parcel>, ids1: seq<Id>, parcels2: seq<Parcel>, ids2: seq<Id>)
    requires KnownIds(parcels1, ids1) && KnownIds(parcels2, ids2) && Sound(e)
    ensures NeighbourParts(e, parcels1, ids1) == NeighbourParts(e, parcels2, ids2)
       <==> ids1 == ids2 && SameBoundaries(parcels1, parcels2, ids1)
  {
    var r1, r2 := NeighbourParts(e, parcels1, ids1), NeighbourParts(e, parcels2, ids2);
    if r1 == r2 {
      assert |ids1| == |ids2|;
      forall k | 0 <= k < |ids1|
        ensures ids1[k] == ids2[k] && parcels1[ids1[k]].boundary == parcels2[ids1[k]].boundary {
        assert r1[2 * k] == r2[2 * k] && r1[2 * k + 1] == r2[2 * k + 1];
      }
    }
    if ids1 == ids2 && SameBoundaries(parcels1, parcels2, ids1) {
      forall k | 0 <= k < |r1| ensures r1[k] == r2[k] {
        var h := k / 2;
        assert k == 2 * h || k == 2 * h + 1;
        assert h < |ids1|;
        assert r1[2 * h] == r2[2 * h] && r1[2 * h + 1] == r2[2 * h + 1];
      }
    }
  }

  lemma InputPartsFree(e: Engine, parcels: seq<Parcel>, proposal: Proposal, tolerance: real)
    requires proposal.parcelId < |parcels| && Sound(e) && Printable(e, parcels, proposal)
    ensures NulFree(InputParts(e, parcels, proposal, tolerance))
  {
    hide Neighbours;
    var parcel := parcels[proposal.parcelId];
    var head := HeadParts(e, parcel, proposal, tolerance);
    NeighbourPartsFree(e, parcels, Neighbours(parcels, parcel.crs, proposal.parcelId));
    assert NulFree(head);
  }

  // Equal input hashes mean equal inputs: the boundary, the proposed geometry,
  // the coordinate system, the tolerance as printed, and every neighbour's id
  // and boundary. The parcel's own id takes no part.
  lemma InputHashExact(
    e: Engine, parcels1: seq<Parcel>, proposal1: Proposal, tolerance1: real,
    parcels2: seq<Parcel>, proposal2: Proposal, tolerance2: real)
    requires proposal1.parcelId < |parcels1| && proposal2.parcelId < |parcels2| && Sound(e)
    requires Printable(e, parcels1, proposal1) && Printable(e, parcels2, proposal2)
    ensures InputHash(e, parcels1, proposal1, tolerance1) == InputHash(e, parcels2, proposal2, tolerance2)
       <==> SameInputs(e, parcels1, proposal1, tolerance1, parcels2, proposal2, tolerance2)
  {
    hide Neighbours, NeighbourParts, Frame;
    var p1, p2 := parcels1[proposal1.parcelId], parcels2[proposal2.parcelId];
    var n1 := Neighbours(parcels1, p1.crs, proposal1.parcelId);
    var n2 := Neighbours(parcels2, p2.crs, proposal2.parcelId);
    var h1, h2 := HeadParts(e, p1, proposal1, tolerance1), HeadParts(e, p2, proposal2, tolerance2);
    var parts1 := InputParts(e, parcels1, proposal1, tolerance1);
    var parts2 := InputParts(e, parcels2, proposal2, tolerance2);
    NeighbourPartsInjective(e, parcels1, n1, parcels2, n2);
    if InputHash(e, parcels1, proposal1, tolerance1) == InputHash(e, parcels2, proposal2, tolerance2) {
      InputPartsFree(e, parcels1, proposal1, tolerance1);
      InputPartsFree(e, parcels2, proposal2, tolerance2);
      FrameInjective(parts1, parts2);
      assert parts1[..5] == h1 && parts2[..5] == h2;
      assert h1[0] == h2[0] && h1[1] == h2[1] && h1[2] == h2[2] && h1[3] == h2[3];
      assert parts1[5..] == NeighbourParts(e, parcels1, n1) && parts2[5..] == NeighbourParts(e, parcels2, n2);
    }
  }

  // -------------------------------------------------------- conflicts to store

  // The suggestion and the findings that snapping and overlay come to.
  datatype Found = Found(suggestion: Option<string>, findings: seq<Topology.Finding>)

  function Participants(parcelId: Id, f: Topology.Finding): seq<Id> {
    Compact(SortIds([parcelId] + f.parcelIds))
  }

  function DraftOf(parcelId: Id, suggestion: Option<string>, f: Topology.Finding): Draft {
    Draft.Draft(Participants(parcelId, f), f.kind, f.geometry, f.magnitude, suggestion)
  }

  function DraftsOf(parcelId: Id, found: Found): seq<Draft> {
    seq(|found.findings|, i requires 0 <= i < |found.findings| =>
        DraftOf(parcelId, found.suggestion, found.findings[i]))
  }

  // A conflict names the parcel and the finding's neighbours, each once, in order.
  lemma ParticipantsExact(parcelId: Id, f: Topology.Finding)
    ensures Increasing(Participants(parcelId, f))
    ensures forall i :: i in Participants(parcelId, f) <==> i == parcelId || i in f.parcelIds
  {
    hide Compact, SortIds;
    UniqueSorted([parcelId] + f.parcelIds);
  }

  datatype Computed = Computed(inputHash: string, drafts: seq<Draft>)

  // found is the outcome of parsing, snapping and overlay.
  function ComputeDetection(
    e: Engine, db: Db, proposal: Proposal, tolerance: real, found: Result<Found, AppError>): Result<Computed, AppError>
  {
    if proposal.parcelId >= |db.parcels| then Failure(NotFound)
    else
      match found
      case Failure(error) => Failure(error)
      case Success(f) =>
        Success(Computed(InputHash(e, db.parcels, proposal, tolerance), DraftsOf(proposal.parcelId, f)))
  }
}

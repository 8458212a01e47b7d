// What the stored conflicts were measured on: the row's own suggestion, which is
// the proposal snapped against the parcel and all its neighbours.

module DetectionEvidence {
  import opened Options
  import opened Domain
  import opened Database
  import opened Services
  import opened Repository
  import opened Detection
  import opened Analysis
  import opened Serving
  import opened Evolution
  import opened Rings
  import opened Shoelace
  import SnapEvidence
  import Snapping
  import ReferenceOrder
  import T = Topology

  // A report of any kind that is due for the neighbour.
  ghost predicate Due(job: T.Job, n: T.Neighbour, f: T.Finding) {
    f.parcelIds == [n.id] && (T.OverlapReport(job, n, f) || T.GapReport(job, n, f) || T.DanglingReport(job, n, f))
  }

  // ---------------------------------------------------------------- the findings

  lemma FindingIsDue(job: T.Job, ns: seq<T.Neighbour>, f: T.Finding) returns (k: nat)
    requires T.DistinctIds(ns) && T.Detected(job, ns).Success? && f in T.Detected(job, ns).value
    ensures k < |ns| && Due(job, ns[k], f)
  {
    hide T.Examine, T.ExamineAll, T.Deduplicated, Due;
    T.DeduplicatedExact(T.ExamineAll(job, T.SortById(ns)).value);
    var n := T.Origin(job, T.SortById(ns), f);
    k :| 0 <= k < |ns| && ns[k] == n;
    ExaminedIsDue(job, n, f);
  }

  lemma ExaminedIsDue(job: T.Job, n: T.Neighbour, f: T.Finding)
    requires T.Examine(job, n).Success?
    ensures f in T.Examine(job, n).value <==> Due(job, n, f)
  {
    hide T.Examine;
    T.ExamineExactly(job, n, f);
  }

  lemma DueIsFound(job: T.Job, ns: seq<T.Neighbour>, n: T.Neighbour, f: T.Finding) returns (g: T.Finding)
    requires T.DistinctIds(ns) && T.Detected(job, ns).Success? && n in ns && Due(job, n, f)
    ensures g in T.Detected(job, ns).value && g.kind == f.kind && g.geometry == f.geometry
  {
    hide T.Examine, T.ExamineAll, T.Deduplicated, Due, T.Key;
    var sorted := T.SortById(ns);
    var all := T.ExamineAll(job, sorted).value;
    T.DetectionFailsExactly(job, ns, n);
    ExaminedIsDue(job, n, f);
    var k :| 0 <= k < |sorted| && sorted[k] == n;
    var o :| 0 <= o < |T.Examine(job, n).value| && T.Examine(job, n).value[o] == f;
    T.FoundAt(job, sorted, k, o);
    var i := T.FirstWithKey(all, T.Offset(job, sorted, k) + o);
    var l, p := T.LocatedAt(job, sorted, i);
    T.DeduplicatedExact(all);
    g := all[i];
    T.SameKey(job, sorted[l], g, n, f);
  }

  // -------------------------------------------------------------- the comparison

  // What is written out can be read back.
  ghost predicate RoundTrips(c: Codec) {
    forall rings :: c.encode(rings).Some? ==> c.decode(c.encode(rings).value) == PolygonShape(rings)
  }

  // The snapped proposal: the proposal itself for a tolerance that is not
  // positive, else every coordinate snapped against the references.
  ghost predicate IsCandidate(proposed: seq<Ring>, refs: seq<seq<Ring>>, tolerance: real, rings: seq<Ring>) {
    if tolerance <= 0.0 then rings == proposed else ReferenceOrder.SnappedRings(proposed, refs, tolerance, rings)
  }

  lemma SnappedIsCandidate(c: Codec, proposed: Polygon, refs: seq<seq<Ring>>, tolerance: real)
    requires SnapEvidence.Snapped(proposed, refs, tolerance, c.rings).Success?
    requires Parse(PolygonShape(proposed.rings), c.rings) == Success(proposed)
    ensures var candidate := SnapEvidence.Snapped(proposed, refs, tolerance, c.rings).value.polygon;
            && IsCandidate(proposed.rings, refs, tolerance, candidate.rings)
            && Parse(PolygonShape(candidate.rings), c.rings) == Success(candidate)
  {
    hide ReferenceOrder.SnappedRings, Parse;
    if tolerance > 0.0 {
      var moved := SnapEvidence.SnapRings(proposed.rings, Snapping.PolygonsReferences(refs), tolerance);
      ReferenceOrder.SnapRingsExactly(proposed.rings, refs, tolerance);
      ParseKeeps(PolygonShape(moved), c.rings);
    }
  }

  lemma NeighbourIds(c: Codec, ids: seq<Id>, polygons: seq<Polygon>)
    requires |ids| == |polygons| && Increasing(ids)
    ensures T.DistinctIds(NeighboursOf(c, ids, polygons)) && T.Ascending(NeighboursOf(c, ids, polygons))
  {
  }

  // The neighbour at position k, as a shape.
  function NeighbourAt(c: Codec, ids: seq<Id>, polygons: seq<Polygon>, k: nat): T.Neighbour
    requires k < |ids| == |polygons|
  {
    T.Neighbour(ids[k], c.shape(polygons[k].rings))
  }

  ghost predicate Sources(
    c: Codec, job: T.Job, ids: seq<Id>, polygons: seq<Polygon>, findings: seq<T.Finding>, from: seq<nat>)
    requires |ids| == |polygons|
  {
    && |from| == |findings|
    && (forall i :: 0 <= i < |findings| ==>
          from[i] < |ids| && Due(job, NeighbourAt(c, ids, polygons, from[i]), findings[i]))
    && (forall i, j :: 0 <= i < j < |findings| ==> from[i] <= from[j])
  }

  ghost predicate Listed(findings: seq<T.Finding>, f: T.Finding) {
    exists i :: 0 <= i < |findings| && findings[i].kind == f.kind && findings[i].geometry == f.geometry
  }

  ghost predicate Complete(c: Codec, job: T.Job, ids: seq<Id>, polygons: seq<Polygon>, findings: seq<T.Finding>)
    requires |ids| == |polygons|
  {
    forall k, f :: 0 <= k < |ids| && Due(job, NeighbourAt(c, ids, polygons, k), f) ==> Listed(findings, f)
  }

  lemma FindingsSources(c: Codec, job: T.Job, ids: seq<Id>, polygons: seq<Polygon>) returns (from: seq<nat>)
    requires |ids| == |polygons| && Increasing(ids)
    requires T.Detected(job, NeighboursOf(c, ids, polygons)).Success?
    ensures Sources(c, job, ids, polygons, T.Detected(job, NeighboursOf(c, ids, polygons)).value, from)
    ensures Complete(c, job, ids, polygons, T.Detected(job, NeighboursOf(c, ids, polygons)).value)
  {
    hide T.Detected, Due, T.Follows;
    var ns := NeighboursOf(c, ids, polygons);
    var found := T.Detected(job, ns).value;
    NeighbourIds(c, ids, polygons);
    from := [];
    for m := 0 to |found|
      invariant |from| == m
      invariant forall i :: 0 <= i < m ==> from[i] < |ids| && Due(job, NeighbourAt(c, ids, polygons, from[i]), found[i])
    {
      var k := FindingIsDue(job, ns, found[m]);
      assert ns[k] == NeighbourAt(c, ids, polygons, k);
      from := from + [k];
    }
    forall i, j | 0 <= i < j < |found| ensures from[i] <= from[j] {
      T.FindingsInOrder(job, ns, i, j);
      FollowsIds(job, NeighbourAt(c, ids, polygons, from[i]),
                 NeighbourAt(c, ids, polygons, from[j]), found[i], found[j]);
    }
    forall k, f | 0 <= k < |ids| && Due(job, NeighbourAt(c, ids, polygons, k), f)
      ensures Listed(found, f)
    {
      assert ns[k] == NeighbourAt(c, ids, polygons, k);
      var g := DueIsFound(job, ns, ns[k], f);
    }
  }

  lemma FollowsIds(job: T.Job, n: T.Neighbour, m: T.Neighbour, f: T.Finding, g: T.Finding)
    requires Due(job, n, f) && Due(job, m, g) && T.Follows(f, g)
    ensures n.id <= m.id
  {
  }

  lemma ComparedEvidence(
    c: Codec, base: Polygon, proposed: Polygon, ids: seq<Id>, polygons: seq<Polygon>, tolerance: real)
    returns (candidate: Polygon, from: seq<nat>)
    requires |ids| == |polygons| && Increasing(ids) && RoundTrips(c)
    requires Parse(PolygonShape(proposed.rings), c.rings) == Success(proposed)
    requires Compare(c, base, proposed, ids, polygons, tolerance).Success?
    ensures var found := Compare(c, base, proposed, ids, polygons, tolerance).value;
            var job := T.Job(c.lib, c.shape(base.rings), c.shape(candidate.rings), tolerance);
            && IsCandidate(proposed.rings, [base.rings] + RingsOf(polygons), tolerance, candidate.rings)
            && found.suggestion.Some? && ParseText(c, found.suggestion.value) == Success(candidate)
            && Sources(c, job, ids, polygons, found.findings, from)
            && Complete(c, job, ids, polygons, found.findings)
  {
    hide SnapEvidence.Snapped, T.Detected, Sources, Complete, IsCandidate, Parse;
    var refs := [base.rings] + RingsOf(polygons);
    candidate := SnapEvidence.Snapped(proposed, refs, tolerance, c.rings).value.polygon;
    SnappedIsCandidate(c, proposed, refs, tolerance);
    var job := T.Job(c.lib, c.shape(base.rings), c.shape(candidate.rings), tolerance);
    from := FindingsSources(c, job, ids, polygons);
  }

  // ------------------------------------------------------------------ the errors

  lemma CandidateOne(proposed: seq<Ring>, refs: seq<seq<Ring>>, tolerance: real, a: seq<Ring>, b: seq<Ring>)
    requires IsCandidate(proposed, refs, tolerance, a) && IsCandidate(proposed, refs, tolerance, b)
    ensures a == b
  {
    hide ReferenceOrder.SnappedRings;
    if tolerance > 0.0 {
      ReferenceOrder.SnappedRingsOne(proposed, refs, tolerance, a, b);
    }
  }

  // Once everything parses, the computation fails if and only if the candidate is
  // not an acceptable polygon, cannot be written out, or makes the overlay with
  // some neighbour fail.
  lemma CompareFailsExactly(
    c: Codec, base: Polygon, proposed: Polygon, ids: seq<Id>, polygons: seq<Polygon>, tolerance: real, moved: seq<Ring>)
    requires |ids| == |polygons| && Increasing(ids)
    requires Parse(PolygonShape(proposed.rings), c.rings) == Success(proposed)
    requires IsCandidate(proposed.rings, [base.rings] + RingsOf(polygons), tolerance, moved)
    ensures var r := Compare(c, base, proposed, ids, polygons, tolerance);
            var acceptable := Parse(PolygonShape(moved), c.rings).Success?;
            var job := T.Job(c.lib, c.shape(base.rings), c.shape(moved), tolerance);
            && (r == Failure(GeometryInvalid) <==> !acceptable || c.encode(moved).None?)
            && (r == Failure(Internal) <==>
                acceptable && c.encode(moved).Some?
                && exists k :: 0 <= k < |ids| && T.Examine(job, NeighbourAt(c, ids, polygons, k)).Failure?)
            && (r.Failure? ==> r.error == GeometryInvalid || r.error == Internal)
  {
    hide T.Detected, T.Examine, Parse, ReferenceOrder.SnappedRings, SnapEvidence.Snapped;
    var refs := [base.rings] + RingsOf(polygons);
    var ns := NeighboursOf(c, ids, polygons);
    var job := T.Job(c.lib, c.shape(base.rings), c.shape(moved), tolerance);
    ReferenceOrder.SnappedExactly(proposed, refs, tolerance, c.rings, moved);
    AcceptedIsValid(c, moved);
    NeighbourIds(c, ids, polygons);
    T.DetectionFailsExactly(job, ns, T.Neighbour(0, c.shape([])));
    forall k | 0 <= k < |ids| ensures ns[k] == NeighbourAt(c, ids, polygons, k) && ns[k] in ns {
    }
    if Parse(PolygonShape(moved), c.rings).Success? {
      ParseKeeps(PolygonShape(moved), c.rings);
    }
  }

  lemma AcceptedIsValid(c: Codec, rings: seq<Ring>)
    ensures Parse(PolygonShape(rings), c.rings).Success? ==> c.rings.valid(rings)
  {
    hide Area, FirstFault;
  }

  // ------------------------------------------------------------- the stored rows

  // The parsed neighbours, in the order of their ids.
  ghost predicate ParsedNeighbours(c: Codec, parcels: seq<Parcel>, ids: seq<Id>, polygons: seq<Polygon>) {
    && |polygons| == |ids|
    && forall k :: 0 <= k < |ids| ==>
         ids[k] < |parcels| && ParseText(c, parcels[ids[k]].boundary) == Success(polygons[k])
  }

  lemma {:induction false} ParsedExactly(c: Codec, parcels: seq<Parcel>, ids: seq<Id>)
    requires KnownIds(parcels, ids) && ParseNeighbours(c, parcels, ids).Some?
    ensures ParsedNeighbours(c, parcels, ids, ParseNeighbours(c, parcels, ids).value)
  {
    hide ParseText;
    if ids != [] {
      ParsedExactly(c, parcels, ids[..|ids| - 1]);
    }
  }

  // A conflict row as a finding against the neighbour.
  function RowFinding(row: Conflict, n: Id): T.Finding {
    T.Finding(row.kind, row.geometry, row.magnitude, [n])
  }

  ghost predicate RowSources(
    c: Codec, job: T.Job, parcelId: Id, ids: seq<Id>, polygons: seq<Polygon>, rows: seq<Conflict>, from: seq<nat>)
    requires |ids| == |polygons|
  {
    && |from| == |rows|
    && (forall i :: 0 <= i < |rows| ==>
          && from[i] < |ids|
          && (forall x :: x in rows[i].parcelIds <==> x == parcelId || x == ids[from[i]])
          && Due(job, NeighbourAt(c, ids, polygons, from[i]), RowFinding(rows[i], ids[from[i]])))
    && (forall i, j :: 0 <= i < j < |rows| ==> from[i] <= from[j])
  }

  ghost predicate HasRow(rows: seq<Conflict>, f: T.Finding) {
    exists i :: 0 <= i < |rows| && rows[i].kind == f.kind && rows[i].geometry == f.geometry
  }

  ghost predicate RowsComplete(c: Codec, job: T.Job, ids: seq<Id>, polygons: seq<Polygon>, rows: seq<Conflict>)
    requires |ids| == |polygons|
  {
    forall k, f :: 0 <= k < |ids| && Due(job, NeighbourAt(c, ids, polygons, k), f) ==> HasRow(rows, f)
  }

  lemma RowsEvidence(
    c: Codec, job: T.Job, parcelId: Id, ids: seq<Id>, polygons: seq<Polygon>, found: Found, from: seq<nat>,
    proposalId: Id, inputHash: string)
    requires |ids| == |polygons|
    requires Sources(c, job, ids, polygons, found.findings, from) && Complete(c, job, ids, polygons, found.findings)
    ensures var rows := RowsOf(proposalId, inputHash, DraftsOf(parcelId, found));
            && RowSources(c, job, parcelId, ids, polygons, rows, from) && RowsComplete(c, job, ids, polygons, rows)
            && forall i :: 0 <= i < |rows| ==> rows[i].suggestion == found.suggestion
  {
    hide Due, Participants;
    var rows := RowsOf(proposalId, inputHash, DraftsOf(parcelId, found));
    forall i | 0 <= i < |rows|
      ensures forall x :: x in rows[i].parcelIds <==> x == parcelId || x == ids[from[i]]
      ensures Due(job, NeighbourAt(c, ids, polygons, from[i]), RowFinding(rows[i], ids[from[i]]))
    {
      ParticipantsExact(parcelId, found.findings[i]);
      DueNames(job, NeighbourAt(c, ids, polygons, from[i]), found.findings[i]);
      assert RowFinding(rows[i], ids[from[i]]) == found.findings[i];
    }
    forall k, f | 0 <= k < |ids| && Due(job, NeighbourAt(c, ids, polygons, k), f)
      ensures HasRow(rows, f)
    {
      assert Listed(found.findings, f);
      var i :| 0 <= i < |found.findings| && found.findings[i].kind == f.kind
                && found.findings[i].geometry == f.geometry;
      assert rows[i].kind == f.kind && rows[i].geometry == f.geometry;
    }
  }

  lemma DueNames(job: T.Job, n: T.Neighbour, f: T.Finding)
    requires Due(job, n, f)
    ensures f.parcelIds == [n.id]
  {
  }

  // The tolerance a detection works with: the request's, or the proposal's where
  // the request says 0.
  function ToleranceFor(r: Request, proposal: Proposal): real
    requires r.DetectConflicts?
  {
    if r.tolerance == 0.0 then proposal.tolerance else r.tolerance
  }

  lemma ChangedMeansAnalysed(e: Engine, c: Codec, db: Db, actor: Actor, r: Request)
    requires r.DetectConflicts? && DetectedConflicts(e, db, actor, r, FoundFor(c, db, r)).db != db
    ensures r.proposalId < |db.proposals| && db.proposals[r.proposalId].parcelId < |db.parcels|
    ensures var served := DetectedConflicts(e, db, actor, r, FoundFor(c, db, r));
            var proposal := db.proposals[r.proposalId];
            && Analysed(c, db.parcels, proposal, ToleranceFor(r, proposal)).Success?
            && served.reply.Success?
            && exists hash :: served.reply.value.rows == RowsOf(r.proposalId, hash,
                 DraftsOf(proposal.parcelId, Analysed(c, db.parcels, proposal, ToleranceFor(r, proposal)).value))
  {
    hide Trim, FindRun, Replay, RequestHash, CommitDetection, InputHash, Analysed, RowsOf, DraftsOf;
  }

  // Before that, the parsing errors: of the parcel or the proposal, then of a
  // neighbour.
  lemma ParsingErrors(c: Codec, parcels: seq<Parcel>, proposal: Proposal, tolerance: real)
    requires proposal.parcelId < |parcels|
    ensures var parcel := parcels[proposal.parcelId];
            var ids := Neighbours(parcels, parcel.crs, proposal.parcelId);
            var parsed := ParseText(c, parcel.boundary).Success? && ParseText(c, proposal.geometry).Success?;
            var broken := exists k :: 0 <= k < |ids| && ParseText(c, parcels[ids[k]].boundary).Failure?;
            && (!parsed ==> Analysed(c, parcels, proposal, tolerance) == Failure(GeometryInvalid))
            && (parsed && broken ==> Analysed(c, parcels, proposal, tolerance) == Failure(Internal))
            && (parsed && !broken ==>
                  exists polygons :: ParsedNeighbours(c, parcels, ids, polygons)
                    && Analysed(c, parcels, proposal, tolerance)
                       == Compare(c, ParseText(c, parcel.boundary).value, ParseText(c, proposal.geometry).value, ids,
                                  polygons, tolerance))
  {
    hide ParseText, Compare, Neighbours, ParsedNeighbours;
    var parcel := parcels[proposal.parcelId];
    var ids := Neighbours(parcels, parcel.crs, proposal.parcelId);
    if ParseNeighbours(c, parcels, ids).Some? {
      ParsedExactly(c, parcels, ids);
    }
  }

  // The rows of a detection that changes the store are the reports that are due,
  // in the order of the neighbours, measured on the candidate which is every row's
  // parsed suggestion and the proposal snapped against the parcel and all its
  // neighbours; and every report due for that candidate has a row of its kind and
  // geometry.
  lemma StoredEvidence(e: Engine, c: Codec, db: Db, actor: Actor, r: Request)
    returns (candidate: Polygon, polygons: seq<Polygon>, from: seq<nat>)
    requires r.DetectConflicts? && RoundTrips(c)
    requires DetectedConflicts(e, db, actor, r, FoundFor(c, db, r)).db != db
    ensures r.proposalId < |db.proposals| && db.proposals[r.proposalId].parcelId < |db.parcels|
    ensures var served := DetectedConflicts(e, db, actor, r, FoundFor(c, db, r));
            var proposal := db.proposals[r.proposalId];
            var parcel := db.parcels[proposal.parcelId];
            var tolerance := if r.tolerance == 0.0 then proposal.tolerance else r.tolerance;
            var ids := Neighbours(db.parcels, parcel.crs, proposal.parcelId);
            && ParseText(c, parcel.boundary).Success? && ParseText(c, proposal.geometry).Success?
            && ParsedNeighbours(c, db.parcels, ids, polygons)
            && var base, proposed := ParseText(c, parcel.boundary).value, ParseText(c, proposal.geometry).value;
            var job := T.Job(c.lib, c.shape(base.rings), c.shape(candidate.rings), tolerance);
            && IsCandidate(proposed.rings, [base.rings] + RingsOf(polygons), tolerance, candidate.rings)
            && served.reply.Success?
            && var rows := served.reply.value.rows;
            && (forall i :: 0 <= i < |rows| ==>
                  rows[i].suggestion.Some? && ParseText(c, rows[i].suggestion.value) == Success(candidate))
            && RowSources(c, job, proposal.parcelId, ids, polygons, rows, from)
            && RowsComplete(c, job, ids, polygons, rows)
  {
    hide DetectedConflicts, FoundFor, Neighbours, ParseNeighbours, Compare, IsCandidate, Sources, Complete, RowSources,
         RowsComplete, RowsOf, DraftsOf, Parse, ParsedNeighbours;
    ChangedMeansAnalysed(e, c, db, actor, r);
    var proposal := db.proposals[r.proposalId];
    var parcel := db.parcels[proposal.parcelId];
    var tolerance := ToleranceFor(r, proposal);
    var ids := Neighbours(db.parcels, parcel.crs, proposal.parcelId);
    var base, proposed := ParseText(c, parcel.boundary).value, ParseText(c, proposal.geometry).value;
    polygons := ParseNeighbours(c, db.parcels, ids).value;
    ParsedExactly(c, db.parcels, ids);
    ParseKeeps(c.decode(proposal.geometry), c.rings);
    candidate, from := ComparedEvidence(c, base, proposed, ids, polygons, tolerance);
    var job := T.Job(c.lib, c.shape(base.rings), c.shape(candidate.rings), tolerance);
    var found := Analysed(c, db.parcels, proposal, tolerance).value;
    var rows := DetectedConflicts(e, db, actor, r, FoundFor(c, db, r)).reply.value.rows;
    var hash :| rows == RowsOf(r.proposalId, hash, DraftsOf(proposal.parcelId, found));
    RowsEvidence(c, job, proposal.parcelId, ids, polygons, found, from, r.proposalId, hash);
  }
}

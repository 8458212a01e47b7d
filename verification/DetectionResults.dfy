// What a detection that goes through has stored.

module DetectionResults {
  import opened Options
  import opened Domain
  import opened Database
  import opened Services
  import opened Repository
  import opened Detection
  import opened Analysis
  import opened Serving
  import opened Evolution
  import T = Topology
  import SnapEvidence
  import opened Rings

  // A finding against one of the neighbours.
  ghost predicate Against(ids: seq<Id>, f: T.Finding) {
    exists n :: n in ids && f.parcelIds == [n]
  }

  ghost predicate OneGap(findings: seq<T.Finding>) {
    forall i, j :: 0 <= i < |findings| && 0 <= j < |findings| && findings[i].kind == T.GAP && findings[j].kind == T.GAP
      ==> i == j
  }

  ghost predicate NoRepeats(findings: seq<T.Finding>) {
    forall i, j :: 0 <= i < j < |findings| ==>
      !(findings[i].kind == findings[j].kind && findings[i].geometry == findings[j].geometry)
  }

  lemma FindingsOf(job: T.Job, ns: seq<T.Neighbour>)
    requires T.DistinctIds(ns) && T.Detected(job, ns).Success?
    ensures forall f :: f in T.Detected(job, ns).value ==> exists n :: n in ns && f.parcelIds == [n.id]
    ensures OneGap(T.Detected(job, ns).value) && NoRepeats(T.Detected(job, ns).value)
  {
    hide T.Examine, T.ExamineAll, T.Deduplicated, T.Key;
    var all := T.ExamineAll(job, T.SortById(ns)).value;
    var found := T.Detected(job, ns).value;
    T.DeduplicatedExact(all);
    forall f | f in found ensures exists n :: n in ns && f.parcelIds == [n.id] {
      var n := T.Origin(job, T.SortById(ns), f);
      T.ExamineExactly(job, n, f);
    }
    forall i, j | 0 <= i < |found| && 0 <= j < |found| && found[i].kind == T.GAP && found[j].kind == T.GAP
      ensures i == j {
      assert found[i] in found && found[j] in found;
      T.AtMostOneGap(job, ns, found[i], found[j]);
      assert T.Key(found[i]) == T.Key(found[j]);
    }
    forall i, j | 0 <= i < j < |found|
      ensures !(found[i].kind == found[j].kind && found[i].geometry == found[j].geometry)
    {
      SameKeyWhenSame(found[i], found[j]);
    }
  }

  lemma SameKeyWhenSame(f: T.Finding, g: T.Finding)
    requires T.Key(f) != T.Key(g)
    ensures !(f.kind == g.kind && f.geometry == g.geometry)
  {
  }

  lemma NeighbourIds(c: Codec, ids: seq<Id>, polygons: seq<Polygon>)
    requires |ids| == |polygons| && Increasing(ids)
    ensures T.DistinctIds(NeighboursOf(c, ids, polygons))
    ensures forall n :: n in NeighboursOf(c, ids, polygons) ==> n.id in ids
  {
  }

  lemma ComparedFindings(
    c: Codec, base: Polygon, proposed: Polygon, ids: seq<Id>, polygons: seq<Polygon>, tolerance: real)
    requires |ids| == |polygons| && Increasing(ids) && Compare(c, base, proposed, ids, polygons, tolerance).Success?
    ensures var found := Compare(c, base, proposed, ids, polygons, tolerance).value;
            && (forall f :: f in found.findings ==> Against(ids, f))
            && OneGap(found.findings) && NoRepeats(found.findings) && found.suggestion.Some?
  {
    hide T.Detected, SnapEvidence.Snapped, NeighboursOf, OneGap, NoRepeats;
    NeighbourIds(c, ids, polygons);
    var snapped := SnapEvidence.Snapped(proposed, [base.rings] + RingsOf(polygons), tolerance, c.rings).value;
    var job := T.Job(c.lib, c.shape(base.rings), c.shape(snapped.polygon.rings), tolerance);
    FindingsOf(job, NeighboursOf(c, ids, polygons));
  }

  lemma AnalysedFindings(c: Codec, parcels: seq<Parcel>, proposal: Proposal, tolerance: real)
    requires proposal.parcelId < |parcels| && Analysed(c, parcels, proposal, tolerance).Success?
    ensures var found := Analysed(c, parcels, proposal, tolerance).value;
            && (forall f :: f in found.findings ==>
                  Against(Neighbours(parcels, parcels[proposal.parcelId].crs, proposal.parcelId), f))
            && OneGap(found.findings) && NoRepeats(found.findings) && found.suggestion.Some?
  {
    hide Compare, ParseText, Neighbours, ParseNeighbours, OneGap, NoRepeats, Against;
    var parcel := parcels[proposal.parcelId];
    var ids := Neighbours(parcels, parcel.crs, proposal.parcelId);
    ComparedFindings(c, ParseText(c, parcel.boundary).value, ParseText(c, proposal.geometry).value, ids,
                     ParseNeighbours(c, parcels, ids).value, tolerance);
  }

  // A conflict between the parcel and exactly one of its active neighbours.
  ghost predicate Between(parcelId: Id, ids: seq<Id>, row: Conflict) {
    && Increasing(row.parcelIds)
    && exists n :: n in ids && forall x :: x in row.parcelIds <==> x == parcelId || x == n
  }

  lemma RowsBetween(parcelId: Id, ids: seq<Id>, proposalId: Id, inputHash: string, found: Found, i: nat)
    requires i < |found.findings| && Against(ids, found.findings[i])
    ensures Between(parcelId, ids, RowsOf(proposalId, inputHash, DraftsOf(parcelId, found))[i])
  {
    hide Participants;
    var f := found.findings[i];
    var n :| n in ids && f.parcelIds == [n];
    ParticipantsExact(parcelId, f);
  }

  // A detection that changes the store adds conflicts that each name the
  // proposal's parcel and exactly one active neighbour in its coordinate system;
  // all carry the input hash and a suggestion, no two have the same kind and
  // geometry, and at most one is a gap.
  lemma StoredConflicts(e: Engine, c: Codec, db: Db, actor: Actor, r: Request)
    requires r.DetectConflicts? && DetectedConflicts(e, db, actor, r, FoundFor(c, db, r)).db != db
    ensures r.proposalId < |db.proposals| && db.proposals[r.proposalId].parcelId < |db.parcels|
    ensures var served := DetectedConflicts(e, db, actor, r, FoundFor(c, db, r));
            var proposal := db.proposals[r.proposalId];
            var parcel := db.parcels[proposal.parcelId];
            && served.reply.Success?
            && var rows := served.reply.value.rows;
            && served.db.conflicts == db.conflicts + rows
            && (forall i :: 0 <= i < |rows| ==>
                  && rows[i].proposalId == r.proposalId && rows[i].state == Detected && rows[i].suggestion.Some?
                  && rows[i].inputHash == InputHash(e, db.parcels, proposal, EffectiveTolerance(r.tolerance, proposal))
                  && Between(proposal.parcelId, Neighbours(db.parcels, parcel.crs, proposal.parcelId), rows[i]))
            && (forall i, j :: 0 <= i < j < |rows| ==>
                 rows[i].kind != rows[j].kind || rows[i].geometry != rows[j].geometry)
            && (forall i, j :: 0 <= i < |rows| && 0 <= j < |rows| && rows[i].kind == rows[j].kind == T.GAP ==> i == j)
  {
    hide Trim, FindRun, Replay, RequestHash, InsertDetected, RunTaken, InputHash, Analysed, Neighbours,
         Between, Against,
         Participants;
    var proposal := db.proposals[r.proposalId];
    var parcel := db.parcels[proposal.parcelId];
    var tolerance := EffectiveTolerance(r.tolerance, proposal);
    var found := Analysed(c, db.parcels, proposal, tolerance).value;
    AnalysedFindings(c, db.parcels, proposal, tolerance);
    var ids := Neighbours(db.parcels, parcel.crs, proposal.parcelId);
    var hash := InputHash(e, db.parcels, proposal, tolerance);
    var rows := RowsOf(r.proposalId, hash, DraftsOf(proposal.parcelId, found));
    DetectedAppends(db, actor, rows);
    forall i | 0 <= i < |rows| ensures Between(proposal.parcelId, ids, rows[i]) {
      assert found.findings[i] in found.findings;
      RowsBetween(proposal.parcelId, ids, r.proposalId, hash, found, i);
    }
  }
}

// What each service operation accepts, refuses and stores, said of its request
// and the store it finds, condition by condition and field by field.

module Operations {
  import opened Options
  import opened Framing
  import opened Domain
  import opened Database
  import opened Services
  import opened Repository
  import opened Detection
  import opened Interleaving
  import opened Evolution
  import opened Serving

  // ------------------------------------------------------------------ the graphs

  ghost predicate ProposalEdge(from: ProposalState, to: ProposalState) {
    (from, to) in {
      (ProposalState.Draft, Validated), (Validated, Submitted), (Submitted, Reviewed), (Reviewed, Accepted),
      (Reviewed, Rejected), (Reviewed, Revision), (Revision, ProposalState.Draft)}
  }

  ghost predicate ConflictEdge(from: ConflictState, to: ConflictState) {
    (from, to) in {
      (Detected, Confirmed), (Detected, FalsePositive), (Confirmed, ResolutionProposed), (FalsePositive, Closed),
      (ResolutionProposed, Resolved), (Resolved, Closed)}
  }

  ghost predicate ObservationEdge(from: ObservationState, to: ObservationState) {
    (from, to) in {(ObsAccepted, ObsRejected), (ObsAccepted, ObsSuperseded), (ObsRejected, ObsAccepted)}
  }

  // Reviews are for reviewers and administrators other than the author, the other
  // moves for the author and administrators.
  ghost predicate MayMove(createdBy: Id, to: ProposalState, actor: Actor) {
    if to == Reviewed || to == Accepted || to == Rejected || to == Revision
    then (actor.role == Reviewer || actor.role == Admin) && actor.id != createdBy
    else actor.id == createdBy || actor.role == Admin
  }

  // -------------------------------------------------------------------- parcels

  lemma CreatingParcelExactly(e: Engine, db: Db, actor: Actor, r: Request)
    requires r.CreateParcel?
    ensures var served := CreatingParcel(e, db, actor, r);
            var placed := e.crsValid(r.crs) && e.polygonArea(r.boundary).Some?;
            var free := forall i :: 0 <= i < |db.parcels| ==> db.parcels[i].code != Trim(r.code);
            && (served.reply.Success? <==> placed && free && Trim(actor.requestId) != "")
            && (!placed ==> served.reply == Failure(GeometryInvalid))
            && (placed && !free ==> served.reply == Failure(StateConflict))
            && (placed && free && Trim(actor.requestId) == "" ==> served.reply == Failure(Internal))
            && (served.reply.Failure? ==> served.db == db)
    ensures var served := CreatingParcel(e, db, actor, r);
            served.reply.Success? ==>
              var Stored(id, row) := served.reply.value;
              && id == |db.parcels|
              && row.code == Trim(r.code) && row.name == Trim(r.name) && row.boundary == r.boundary
              && row.crs == Upper(Trim(r.crs)) && row.owner == Trim(r.owner) && row.version == 1
              && e.polygonArea(r.boundary) == Some(row.area)
              && row.state == (if r.parcelState == "" then "active" else r.parcelState)
              && served.db == db.(
                   parcels := db.parcels + [row],
                   audits := db.audits + [AuditLog(actor.id, actor.requestId, ParcelCreated(id, row))])
  {
    hide Trim, Upper;
  }

  ghost predicate Placeable(e: Engine, c: ParcelChanges) {
    && (c.crs.Some? ==> e.crsValid(c.crs.value))
    && (c.boundary.Some? ==> e.polygonArea(c.boundary.value).Some?)
  }

  // The row keeps what the request does not give.
  ghost predicate Changed(e: Engine, before: Parcel, c: ParcelChanges, row: Parcel) {
    && row.code == before.code
    && row.name == (if c.name.Some? then Trim(c.name.value) else before.name)
    && row.owner == (if c.owner.Some? then Trim(c.owner.value) else before.owner)
    && row.state == (if c.state.Some? then c.state.value else before.state)
    && row.crs == (if c.crs.Some? then Upper(Trim(c.crs.value)) else before.crs)
    && row.boundary == (if c.boundary.Some? then c.boundary.value else before.boundary)
    && (if c.boundary.Some? then e.polygonArea(c.boundary.value) == Some(row.area) else row.area == before.area)
  }

  lemma ChangeExactly(e: Engine, before: Parcel, c: ParcelChanges)
    ensures ChangedParcel(e, before, c) == Failure(GeometryInvalid) || ChangedParcel(e, before, c).Success?
    ensures ChangedParcel(e, before, c).Success? <==> Placeable(e, c)
    ensures ChangedParcel(e, before, c).Success? ==> Changed(e, before, c, ChangedParcel(e, before, c).value)
    ensures ChangedParcel(e, before, c).Success? ==> ChangedParcel(e, before, c).value.version == before.version
  {
    hide Trim, Upper;
  }

  lemma UpdatingParcelExactly(e: Engine, db: Db, actor: Actor, r: Request)
    requires r.UpdateParcel?
    ensures var served := UpdatingParcel(e, db, actor, r);
            && (r.id >= |db.parcels| ==> served.reply == Failure(NotFound))
            && (served.reply.Failure? ==> served.db == db)
            && (r.id < |db.parcels| ==>
                  var before := db.parcels[r.id];
                  var current := r.expected.None? || r.expected.value == before.version;
                  && (served.reply == Failure(GeometryInvalid) <==> !Placeable(e, r.changes))
                  && (served.reply == Failure(Internal) <==>
                      Placeable(e, r.changes) && !(current && Trim(actor.requestId) != ""))
                  && (served.reply.Success? <==> Placeable(e, r.changes) && current && Trim(actor.requestId) != ""))
    ensures var served := UpdatingParcel(e, db, actor, r);
            served.reply.Success? ==>
              var before, row := db.parcels[r.id], served.reply.value;
              && Changed(e, before, r.changes, row) && row.version == before.version + 1
              && served.db == db.(
                   parcels := db.parcels[r.id := row],
                   audits := db.audits + [AuditLog(actor.id, actor.requestId,
                                                   ParcelUpdated(r.id, before, row.(version := before.version)))])
  {
    hide Trim, Upper, ChangedParcel, Changed, Placeable;
    if r.id < |db.parcels| {
      ChangeExactly(e, db.parcels[r.id], r.changes);
      ChangeKeepsCode(e, db.parcels[r.id], r.changes);
      if ChangedParcel(e, db.parcels[r.id], r.changes).Success? {
        ChangeFollowsVersion(e, db.parcels[r.id], r.changes, db.parcels[r.id].version + 1);
      }
    }
  }

  lemma ChangeKeepsCode(e: Engine, before: Parcel, c: ParcelChanges)
    ensures ChangedParcel(e, before, c).Success? ==> ChangedParcel(e, before, c).value.code == before.code
  {
    hide Trim, Upper;
  }

  lemma ChangeFollowsVersion(e: Engine, before: Parcel, c: ParcelChanges, version: nat)
    requires ChangedParcel(e, before, c).Success?
    ensures Changed(e, before, c, ChangedParcel(e, before, c).value.(version := version))
  {
    hide Trim, Upper;
  }

  // --------------------------------------------------------------- observations

  lemma ImportingExactly(e: Engine, db: Db, actor: Actor, r: Request)
    requires r.ImportObservation?
    ensures var served := Importing(e, db, actor, r);
            var known := r.parcelId < |db.parcels|;
            var free := forall i :: 0 <= i < |db.observations| ==> db.observations[i].code != Trim(r.code);
            && (served.reply.Success? <==> known && e.pointValid(r.point) && free && Trim(actor.requestId) != "")
            && (!known ==> served.reply == Failure(NotFound))
            && (known && !e.pointValid(r.point) ==> served.reply == Failure(GeometryInvalid))
            && (known && e.pointValid(r.point) && !(free && Trim(actor.requestId) != "") ==>
                  served.reply == Failure(Internal))
            && (served.reply.Failure? ==> served.db == db)
    ensures var served := Importing(e, db, actor, r);
            served.reply.Success? ==>
              var Stored(id, row) := served.reply.value;
              && id == |db.observations|
              && row.parcelId == r.parcelId && row.code == Trim(r.code) && row.point == r.point
              && row.state == (if r.initial.Some? then r.initial.value else ObsAccepted)
              && row.version == 1 && row.replacedBy == None && row.note == Trim(r.note) && row.importedBy == actor.id
              && served.db == db.(
                   observations := db.observations + [row],
                   audits := db.audits + [AuditLog(actor.id, actor.requestId, ObservationImported(id, row))])
  {
    hide Trim;
  }

  // The replacement is wanted exactly for supersession, and then another
  // observation of the same parcel that is not superseded.
  ghost predicate Replaceable(db: Db, r: Request)
    requires r.TransitionObservation? && r.id < |db.observations| && r.toObservation.Some?
  {
    if r.toObservation.value != ObsSuperseded then r.replacement.None?
    else
      && r.replacement.Some? && r.replacement.value != r.id && r.replacement.value < |db.observations|
      && db.observations[r.replacement.value].parcelId == db.observations[r.id].parcelId
      && db.observations[r.replacement.value].state != ObsSuperseded
  }

  lemma MovingObservationExactly(db: Db, actor: Actor, r: Request)
    requires r.TransitionObservation?
    ensures var served := MovingObservation(db, actor, r);
            && (r.id >= |db.observations| ==> served.reply == Failure(NotFound))
            && (served.reply.Failure? ==> served.db == db)
            && (r.id < |db.observations| ==>
                  var item := db.observations[r.id];
                  var legal := item.version == r.version && r.toObservation.Some?
                               && ObservationEdge(item.state, r.toObservation.value);
                  var permitted := actor.role == Surveyor || actor.role == GisAnalyst || actor.role == Admin;
                  && (served.reply.Success? <==>
                      legal && permitted && Replaceable(db, r) && Trim(actor.requestId) != "")
                  && (!legal ==> served.reply == Failure(StateConflict))
                  && (served.reply == Failure(Forbidden) <==> legal && !permitted))
    ensures var served := MovingObservation(db, actor, r);
            served.reply.Success? ==>
              var item, to, note := db.observations[r.id], r.toObservation.value, Trim(r.note);
              var row := served.db.observations[r.id];
              && row == item.(state := to, version := item.version + 1, replacedBy := row.replacedBy, note := row.note)
              && row.note == (if note == "" then item.note else note)
              && row.replacedBy == (if to == ObsSuperseded then r.replacement else item.replacedBy)
              && served.reply.value == row.(replacedBy := r.replacement)
              && served.db == db.(
                   observations := db.observations[r.id := row],
                   audits := db.audits + [AuditLog(actor.id, actor.requestId,
                     ObservationChanged(r.id, item, to, item.version + 1, r.replacement, note))])
  {
    hide Trim;
    TrimTwice(r.note);
  }

  // Once legal and permitted, the errors about the replacement.
  lemma ReplacementErrors(db: Db, actor: Actor, r: Request)
    requires r.TransitionObservation? && r.id < |db.observations| && r.toObservation.Some?
    requires db.observations[r.id].version == r.version
    requires ObservationEdge(db.observations[r.id].state, r.toObservation.value)
    requires actor.role == Surveyor || actor.role == GisAnalyst || actor.role == Admin
    ensures var reply := MovingObservation(db, actor, r).reply;
            var superseding := r.toObservation.value == ObsSuperseded;
            && (reply == Failure(InvalidInput) <==>
                if superseding then r.replacement.None? || r.replacement.value == r.id else r.replacement.Some?)
            && (reply == Failure(NotFound) <==>
                superseding && r.replacement.Some? && r.replacement.value != r.id
                && r.replacement.value >= |db.observations|)
  {
    hide Trim;
  }

  // ------------------------------------------------------------------ proposals

  ghost predicate SameParcel(db: Db, ids: seq<Id>, parcelId: Id) {
    forall i :: 0 <= i < |ids| ==> ids[i] < |db.observations| && db.observations[ids[i]].parcelId == parcelId
  }

  lemma ProposingExactly(e: Engine, db: Db, actor: Actor, r: Request)
    requires r.CreateProposal?
    ensures var served := Proposing(e, db, actor, r);
            var known := r.parcelId < |db.parcels|;
            && (!known ==> served.reply == Failure(NotFound))
            && (served.reply.Failure? ==> served.db == db)
            && (known ==>
                  var current := r.baseVersion == db.parcels[r.parcelId].version;
                  var parsed := e.polygonArea(r.geometry).Some?;
                  var own := SameParcel(db, r.observationIds, r.parcelId);
                  && (served.reply == Failure(StateConflict) <==> !current)
                  && (served.reply == Failure(GeometryInvalid) <==> current && !parsed)
                  && (served.reply == Failure(InvalidInput) <==> current && parsed && !own)
                  && (served.reply == Failure(Internal) <==> current && parsed && own && Trim(actor.requestId) == "")
                  && (served.reply.Success? <==> current && parsed && own && Trim(actor.requestId) != ""))
    ensures var served := Proposing(e, db, actor, r);
            served.reply.Success? ==>
              var Stored(id, row) := served.reply.value;
              && id == |db.proposals|
              && row.parcelId == r.parcelId && row.baseVersion == db.parcels[r.parcelId].version
              && row.geometry == r.geometry && row.observationIds == r.observationIds && row.tolerance == r.tolerance
              && e.polygonArea(r.geometry) == Some(row.areaDelta + db.parcels[r.parcelId].area)
              && row.state == ProposalState.Draft && row.rationale == Trim(r.rationale)
              && row.version == 1 && row.createdBy == actor.id && row.reviewedBy == None
              && served.db == db.(
                   proposals := db.proposals + [row],
                   audits := db.audits + [AuditLog(actor.id, actor.requestId, ProposalCreated(id, row))])
  {
    hide Trim;
  }

  lemma MovingProposalExactly(db: Db, actor: Actor, r: Request)
    requires r.TransitionProposal?
    ensures var served := MovingProposal(db, actor, r);
            && (r.id >= |db.proposals| ==> served.reply == Failure(NotFound))
            && (served.reply.Failure? ==> served.db == db)
            && (r.id < |db.proposals| ==>
                  var item := db.proposals[r.id];
                  var legal := r.toProposal.Some? && ProposalEdge(item.state, r.toProposal.value);
                  && (served.reply == Failure(Forbidden) <==>
                      legal && !MayMove(item.createdBy, r.toProposal.value, actor))
                  && (served.reply.Success? <==>
                      legal && MayMove(item.createdBy, r.toProposal.value, actor) && Trim(actor.requestId) != "")
                  && (served.reply.Failure? && served.reply.error != Forbidden ==>
                      served.reply.error == StateConflict))
    ensures var served := MovingProposal(db, actor, r);
            served.reply.Success? ==>
              var item, to, row := db.proposals[r.id], r.toProposal.value, served.db.proposals[r.id];
              var review := to == Reviewed || to == Accepted || to == Rejected || to == Revision;
              && row == item.(state := to, version := item.version + 1, rationale := row.rationale,
                              reviewedBy := row.reviewedBy)
              && row.rationale == (if r.rationale == "" then item.rationale else r.rationale)
              && row.reviewedBy == (if review then Some(actor.id) else item.reviewedBy)
              && served.reply.value == row.(rationale := item.rationale)
              && served.db == db.(
                   proposals := db.proposals[r.id := row],
                   audits := db.audits + [AuditLog(actor.id, actor.requestId,
                                                   ProposalChanged(r.id, item, to, item.version + 1))])
  {
    hide Trim;
  }

  // In every reachable state, a proposal move that goes through follows an edge of
  // the graph and is made by one who may make it.
  lemma MovesAreAuthorized(e: Engine, s: Sys, c: Call)
    requires Reachable(e, s) && c in s.calls.Values && c.pending.ProposalMove? && Committed(s, c).Some?
    ensures c.pending.id < |s.db.proposals|
    ensures var row, to := s.db.proposals[c.pending.id], c.pending.toProposal;
            && ProposalEdge(row.state, to)
            && (to == Reviewed || to == Accepted || to == Rejected || to == Revision ==>
                  (c.actor.role == Reviewer || c.actor.role == Admin) && c.actor.id != row.createdBy)
            && (to == ProposalState.Draft || to == Validated || to == Submitted ==>
                  c.actor.id == row.createdBy || c.actor.role == Admin)
  {
    hide Trim, Reachable;
    ReachableCall(e, s, c);
    ProposalGuard(e, s, c);
  }

  // ------------------------------------------------------------------ conflicts

  lemma MovingConflictExactly(db: Db, actor: Actor, r: Request)
    requires r.TransitionConflict?
    ensures var served := MovingConflict(db, actor, r);
            && (r.id >= |db.conflicts| ==> served.reply == Failure(NotFound))
            && (served.reply.Failure? ==> served.db == db)
            && (r.id < |db.conflicts| ==>
                  && (served.reply.Success? <==>
                      r.toConflict.Some? && ConflictEdge(db.conflicts[r.id].state, r.toConflict.value)
                      && Trim(actor.requestId) != "")
                  && (served.reply.Failure? ==> served.reply.error == StateConflict))
    ensures var served := MovingConflict(db, actor, r);
            served.reply.Success? ==>
              var item, to, row := db.conflicts[r.id], r.toConflict.value, served.db.conflicts[r.id];
              && row == item.(state := to, resolvedBy := row.resolvedBy)
              && row.resolvedBy == (if to == Resolved || to == Closed then Some(actor.id) else item.resolvedBy)
              && served.reply.value == item.(
                   state := to, resolvedBy := if to == Resolved || to == Closed then Some(actor.id) else None)
              && served.db == db.(
                   conflicts := db.conflicts[r.id := row],
                   audits := db.audits + [AuditLog(actor.id, actor.requestId, ConflictChanged(r.id, item, to))])
  {
    hide Trim;
  }

  // The suggestion of the conflict can be applied: its source and parcel are
  // there, and it parses.
  ghost predicate Applicable(e: Engine, db: Db, id: Id)
    requires id < |db.conflicts|
  {
    var item := db.conflicts[id];
    && item.proposalId < |db.proposals|
    && item.suggestion.Some? && e.polygonArea(item.suggestion.value).Some?
    && db.proposals[item.proposalId].parcelId < |db.parcels|
  }

  lemma AppliedExactly(e: Engine, db: Db, actor: Actor, r: Request)
    requires r.ApplySuggestion?
    ensures var served := Applied(e, db, actor, r);
            var permitted := actor.role == Reviewer || actor.role == Admin;
            && (served.reply == Failure(Forbidden) <==> !permitted)
            && (permitted && r.id >= |db.conflicts| ==> served.reply == Failure(NotFound))
            && (served.reply.Failure? ==> served.db == db)
            && (permitted && r.id < |db.conflicts| ==>
                  var proposed := db.conflicts[r.id].state == ResolutionProposed;
                  && (!proposed ==> served.reply == Failure(StateConflict))
                  && (served.reply.Success? <==> proposed && Applicable(e, db, r.id) && Trim(actor.requestId) != ""))
    ensures var served := Applied(e, db, actor, r);
            served.reply.Success? ==>
              var item, Stored(id, row) := db.conflicts[r.id], served.reply.value;
              var source := db.proposals[item.proposalId];
              var parcel, text := db.parcels[source.parcelId], Trim(r.rationale);
              && id == |db.proposals|
              && item.suggestion == Some(row.geometry)
              && e.polygonArea(row.geometry) == Some(row.areaDelta + parcel.area)
              && row.parcelId == source.parcelId && row.baseVersion == parcel.version
              && row.observationIds == source.observationIds && row.tolerance == source.tolerance
              && row.state == ProposalState.Draft && row.reviewedBy == None
              && row.version == source.version + 1 && row.createdBy == actor.id
              && row.rationale ==
                 (if text != "" then text
                  else "Applied deterministic suggestion from topology conflict " + e.formatId(r.id) + ".")
              && served.db == db.(
                   proposals := db.proposals + [row],
                   conflicts := db.conflicts[r.id := item.(state := Resolved, resolvedBy := Some(actor.id))],
                   audits := db.audits + [
                     AuditLog(actor.id, actor.requestId, ProposalFromConflict(id, row)),
                     AuditLog(actor.id, actor.requestId, SuggestionApplied(r.id, item, id))])
  {
    hide Trim;
  }

  // The errors of a permitted application in the right state.
  lemma ApplicationErrors(e: Engine, db: Db, actor: Actor, r: Request)
    requires r.ApplySuggestion? && (actor.role == Reviewer || actor.role == Admin)
    requires r.id < |db.conflicts| && db.conflicts[r.id].state == ResolutionProposed
    ensures var reply, item := Applied(e, db, actor, r).reply, db.conflicts[r.id];
            var source, usable := item.proposalId < |db.proposals|, item.suggestion.Some?;
            var parsed := usable && e.polygonArea(item.suggestion.value).Some?;
            && (reply == Failure(NotFound) <==>
                !source || (parsed && db.proposals[item.proposalId].parcelId >= |db.parcels|))
            && (reply == Failure(StateConflict) <==> source && !usable)
            && (source && usable && !parsed ==> reply == Failure(Internal))
  {
    hide Trim;
  }

  // The two later reads of an application, each on the store as it is by then.
  lemma ReadsExactly(
    e: Engine, db: Db, actor: Actor, id: Id, conflict: Conflict, rationale: string,
    source: Proposal, geometry: string, area: real)
    ensures var read := LoadSource(e, db, id, conflict, rationale);
            && (read.Success? <==> conflict.proposalId < |db.proposals| && conflict.suggestion.Some?
                                   && e.polygonArea(conflict.suggestion.value).Some?)
            && (read.Success? ==>
                  && read.value.ApplyingFrom? && read.value.id == id && read.value.conflict == conflict
                  && read.value.rationale == rationale && read.value.source == db.proposals[conflict.proposalId]
                  && conflict.suggestion == Some(read.value.geometry)
                  && e.polygonArea(read.value.geometry) == Some(read.value.area))
    ensures var ready := LoadTarget(e, db, actor, id, conflict, rationale, source, geometry, area);
            && (ready.Success? <==> source.parcelId < |db.parcels|)
            && (ready.Success? ==>
                  && ready.value.ApplyReady? && ready.value.id == id && ready.value.conflict == conflict
                  && var row := ready.value.derived;
                  && row.geometry == geometry && row.areaDelta == area - db.parcels[source.parcelId].area
                  && row.baseVersion == db.parcels[source.parcelId].version && row.version == source.version + 1
                  && row.createdBy == actor.id)
  {
    hide Trim, DefaultRationale;
  }

  // ------------------------------------------------------------------ detection

  // The hash of the request, with the proposal's tolerance where it gives 0.
  function HashFor(e: Engine, db: Db, r: Request): string
    requires r.DetectConflicts? && r.proposalId < |db.proposals|
  {
    var tolerance := if r.tolerance == 0.0 then db.proposals[r.proposalId].tolerance else r.tolerance;
    e.digest(Frame([e.formatId(r.proposalId), e.formatTolerance(tolerance)]))
  }

  ghost predicate GoodKey(r: Request)
    requires r.DetectConflicts?
  {
    Trim(r.key) != "" && |Trim(r.key)| <= 128
  }

  lemma DetectionRefused(e: Engine, db: Db, actor: Actor, r: Request, found: Result<Found, AppError>)
    requires r.DetectConflicts?
    ensures var served := DetectedConflicts(e, db, actor, r, found);
            && (!GoodKey(r) ==> served == Served(db, Failure(InvalidInput)))
            && (GoodKey(r) && r.proposalId >= |db.proposals| ==> served == Served(db, Failure(NotFound)))
  {
    hide Trim;
  }

  // The key has a run, the first of which is at i: nothing is stored, and the
  // answer is the run's conflicts as they are now, or an error.
  lemma DetectionReplayed(e: Engine, db: Db, actor: Actor, r: Request, found: Result<Found, AppError>, i: nat)
    requires r.DetectConflicts? && GoodKey(r) && r.proposalId < |db.proposals|
    requires i < |db.runs| && db.runs[i].actorId == actor.id && db.runs[i].key == Trim(r.key)
    requires forall j :: 0 <= j < i ==> !(db.runs[j].actorId == actor.id && db.runs[j].key == Trim(r.key))
    ensures var served, run := DetectedConflicts(e, db, actor, r, found), db.runs[i];
            var present := forall n :: 0 <= n < |run.resultIds| ==> run.resultIds[n] < |db.conflicts|;
            && served.db == db
            && (run.requestHash != HashFor(e, db, r) ==> served.reply == Failure(StateConflict))
            && (run.requestHash == HashFor(e, db, r) && !present ==> served.reply == Failure(Internal))
            && (run.requestHash == HashFor(e, db, r) && present ==>
                  && served.reply.Success? && served.reply.value.ids == run.resultIds
                  && |served.reply.value.rows| == |run.resultIds|
                  && forall n :: 0 <= n < |run.resultIds| ==>
                       served.reply.value.rows[n] == db.conflicts[run.resultIds[n]])
  {
    hide Trim, FindRun;
    FirstRun(db.runs, actor.id, Trim(r.key), i);
  }

  lemma {:induction false} FirstRun(runs: seq<DetectionRun>, actorId: Id, key: string, i: nat)
    requires i < |runs| && IsRunOf(runs[i], actorId, key)
    requires forall j :: 0 <= j < i ==> !IsRunOf(runs[j], actorId, key)
    ensures FindRun(runs, actorId, key) == Some(runs[i])
  {
    if i > 0 {
      FirstRun(runs[1..], actorId, key, i - 1);
    }
  }

  // One entry for each new conflict.
  function DetectedLogs(actor: Actor, from: nat, rows: seq<Conflict>): seq<AuditLog> {
    seq(|rows|, i requires 0 <= i < |rows| =>
      AuditLog(actor.id, actor.requestId, ConflictDetected(from + i, rows[i])))
  }

  lemma NextLog(actor: Actor, from: nat, front: seq<Conflict>, row: Conflict)
    ensures DetectedLogs(actor, from, front + [row])
         == DetectedLogs(actor, from, front)
          + [AuditLog(actor.id, actor.requestId, ConflictDetected(from + |front|, row))]
  {
  }

  // Inserting one more conflict after the others.
  function WithDetected(db: Db, actor: Actor, rows: seq<Conflict>): Db {
    db.(conflicts := db.conflicts + rows, audits := db.audits + DetectedLogs(actor, |db.conflicts|, rows))
  }

  lemma OneMoreDetected(db: Db, actor: Actor, front: seq<Conflict>, row: Conflict)
    requires Trim(actor.requestId) != ""
    ensures var earlier := WithDetected(db, actor, front);
            WriteAudit(InsertConflict(earlier, row), actor, ConflictDetected(|earlier.conflicts|, row))
            == Some(WithDetected(db, actor, front + [row]))
  {
    hide Trim, DetectedLogs;
    NextLog(actor, |db.conflicts|, front, row);
    assert db.conflicts + front + [row] == db.conflicts + (front + [row]);
    var logs := DetectedLogs(actor, |db.conflicts|, front);
    var log := AuditLog(actor.id, actor.requestId, ConflictDetected(|db.conflicts| + |front|, row));
    assert db.audits + logs + [log] == db.audits + (logs + [log]);
  }

  lemma InsertStep(db: Db, actor: Actor, front: seq<Conflict>, row: Conflict)
    ensures InsertDetected(db, actor, front + [row]) ==
            match InsertDetected(db, actor, front)
            case None => None
            case Some(earlier) =>
              WriteAudit(InsertConflict(earlier, row), actor, ConflictDetected(|earlier.conflicts|, row))
  {
    hide WriteAudit, InsertConflict;
    assert (front + [row])[..|front|] == front;
  }

  lemma BlankRefused(db: Db, actor: Actor, event: AuditEvent)
    ensures WriteAudit(db, actor, event).Some? <==> Trim(actor.requestId) != ""
  {
    hide Trim;
  }

  lemma {:induction false} InsertedExactly(db: Db, actor: Actor, rows: seq<Conflict>)
    ensures InsertDetected(db, actor, rows).Some? <==> rows == [] || Trim(actor.requestId) != ""
    ensures InsertDetected(db, actor, rows).Some? ==>
              InsertDetected(db, actor, rows).value == WithDetected(db, actor, rows)
  {
    hide Trim, WithDetected, InsertDetected, WriteAudit, InsertConflict;
    if rows == [] {
      NoneDetected(db, actor);
    } else {
      var front, row := rows[..|rows| - 1], rows[|rows| - 1];
      InsertedExactly(db, actor, front);
      assert rows == front + [row];
      InsertStep(db, actor, front, row);
      if Trim(actor.requestId) != "" {
        OneMoreDetected(db, actor, front, row);
      } else if InsertDetected(db, actor, front).Some? {
        var earlier := InsertDetected(db, actor, front).value;
        BlankRefused(InsertConflict(earlier, row), actor, ConflictDetected(|earlier.conflicts|, row));
      }
    }
  }

  lemma NoneDetected(db: Db, actor: Actor)
    ensures InsertDetected(db, actor, []) == Some(db) && WithDetected(db, actor, []) == db
  {
  }

  // The row stored for a finding.
  ghost predicate RowFor(
    e: Engine, db: Db, r: Request, proposal: Proposal, tolerance: real, f: Found, i: nat, row: Conflict)
    requires r.DetectConflicts? && proposal.parcelId < |db.parcels| && i < |f.findings|
  {
    var finding := f.findings[i];
    && row.proposalId == r.proposalId && row.kind == finding.kind && row.geometry == finding.geometry
    && row.magnitude == finding.magnitude && row.suggestion == f.suggestion
    && row.inputHash == InputHash(e, db.parcels, proposal, tolerance)
    && row.state == Detected && row.resolvedBy == None
    && Increasing(row.parcelIds) && forall x :: x in row.parcelIds <==> x == proposal.parcelId || x in finding.parcelIds
  }

  lemma RowIsFor(e: Engine, db: Db, r: Request, proposal: Proposal, tolerance: real, f: Found, i: nat)
    requires r.DetectConflicts? && proposal.parcelId < |db.parcels| && i < |f.findings|
    ensures RowFor(e, db, r, proposal, tolerance, f, i,
      RowsOf(r.proposalId, InputHash(e, db.parcels, proposal, tolerance), DraftsOf(proposal.parcelId, f))[i])
  {
    hide Participants, InputHash;
    ParticipantsExact(proposal.parcelId, f.findings[i]);
  }

  // The key has no run: the findings are stored with a run that lists them and an
  // audit entry for each, or nothing is.
  lemma DetectionRecorded(e: Engine, db: Db, actor: Actor, r: Request, found: Result<Found, AppError>)
    requires r.DetectConflicts? && GoodKey(r) && r.proposalId < |db.proposals|
    requires forall j :: 0 <= j < |db.runs| ==> !(db.runs[j].actorId == actor.id && db.runs[j].key == Trim(r.key))
    ensures var served, proposal := DetectedConflicts(e, db, actor, r, found), db.proposals[r.proposalId];
            var tolerance := if r.tolerance == 0.0 then proposal.tolerance else r.tolerance;
            && (served.reply.Failure? ==> served.db == db)
            && (proposal.parcelId >= |db.parcels| ==> served.reply == Failure(NotFound))
            && (proposal.parcelId < |db.parcels| && found.Failure? ==> served.reply == Failure(found.error))
            && (proposal.parcelId < |db.parcels| && found.Success? && Trim(actor.requestId) == "" ==>
                  served.reply == Failure(Internal))
            && (proposal.parcelId < |db.parcels| && found.Success? && Trim(actor.requestId) != "" ==>
                  && served.reply.Success?
                  && var Answer(ids, rows) := served.reply.value;
                  var run := DetectionRun(r.proposalId, actor.id, Trim(r.key), HashFor(e, db, r),
                                          InputHash(e, db.parcels, proposal, tolerance), ids);
                  && |ids| == |rows| == |found.value.findings|
                  && (forall i :: 0 <= i < |rows| ==>
                        ids[i] == |db.conflicts| + i && RowFor(e, db, r, proposal, tolerance, found.value, i, rows[i]))
                  && served.db == db.(
                       conflicts := db.conflicts + rows,
                       runs := db.runs + [run],
                       audits := db.audits + DetectedLogs(actor, |db.conflicts|, rows)
                                 + [AuditLog(actor.id, actor.requestId, DetectionCompleted(|db.runs|, run))]))
  {
    hide Trim, FindRun, InsertDetected, InputHash, RowFor, DraftsOf;
    var proposal := db.proposals[r.proposalId];
    var tolerance := if r.tolerance == 0.0 then proposal.tolerance else r.tolerance;
    NoRunFound(db.runs, actor.id, Trim(r.key));
    if proposal.parcelId < |db.parcels| && found.Success? {
      var rows := RowsOf(r.proposalId, InputHash(e, db.parcels, proposal, tolerance),
                         DraftsOf(proposal.parcelId, found.value));
      InsertedExactly(db, actor, rows);
      CountRows(r.proposalId, InputHash(e, db.parcels, proposal, tolerance), proposal.parcelId, found.value);
      forall i | 0 <= i < |rows| ensures RowFor(e, db, r, proposal, tolerance, found.value, i, rows[i]) {
        RowIsFor(e, db, r, proposal, tolerance, found.value, i);
      }
    }
  }

  lemma CountRows(proposalId: Id, inputHash: string, parcelId: Id, f: Found)
    ensures |RowsOf(proposalId, inputHash, DraftsOf(parcelId, f))| == |f.findings|
  {
  }

  lemma NoRunFound(runs: seq<DetectionRun>, actorId: Id, key: string)
    requires forall j :: 0 <= j < |runs| ==> !(runs[j].actorId == actorId && runs[j].key == key)
    ensures FindRun(runs, actorId, key) == None
  {
  }
}

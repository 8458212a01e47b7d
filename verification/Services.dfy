// The service operations (backend/internal/service) as the steps another
// request can come between: what a call reads and checks, and what its
// transaction does when it is committed.

module Services {
  import opened Options
  import opened Domain
  import opened Database

  // ----------------------------------------------------------------- requests

  datatype ParcelChanges = ParcelChanges(
    name: Option<string>, owner: Option<string>, state: Option<string>,
    crs: Option<string>, boundary: Option<string>)

  // A target state that is none of the known ones is None.
  datatype Request =
    | CreateParcel(code: string, name: string, boundary: string, crs: string, owner: string, parcelState: string)
    | UpdateParcel(id: Id, changes: ParcelChanges, expected: Option<nat>)
    | ImportObservation(parcelId: Id, code: string, point: string, initial: Option<ObservationState>, note: string)
    | TransitionObservation(
        id: Id, toObservation: Option<ObservationState>, version: nat, replacement: Option<Id>, note: string)
    | CreateProposal(
        parcelId: Id, baseVersion: nat, geometry: string, observationIds: seq<Id>, tolerance: real, rationale: string)
    | TransitionProposal(id: Id, toProposal: Option<ProposalState>, rationale: string)
    | TransitionConflict(id: Id, toConflict: Option<ConflictState>)
    | ApplySuggestion(id: Id, rationale: string)
    | DetectConflicts(proposalId: Id, tolerance: real, key: string)

  // What detection computes before its transaction; parts of the stored row.
  datatype Draft = Draft(
    parcelIds: seq<Id>, kind: string, geometry: string, magnitude: real, suggestion: Option<string>)

  // Where a call stands between two of its steps, with what it has read so far.
  datatype Pending =
    | NewParcel(parcel: Parcel)
    | ParcelUpdate(id: Id, before: Parcel, after: Parcel, expected: nat)
    | NewObservation(observation: Observation)
    | Superseding(id: Id, loaded: Observation, replacementId: Id, note: string)
    | ObservationMove(id: Id, loaded: Observation, to: ObservationState, replacement: Option<Id>, note: string)
    | NewProposal(proposal: Proposal)
    | ProposalMove(id: Id, proposal: Proposal, toProposal: ProposalState, rationale: string)
    | ConflictMove(id: Id, conflict: Conflict, toConflict: ConflictState)
    | Applying(id: Id, conflict: Conflict, rationale: string)
    | ApplyingFrom(id: Id, conflict: Conflict, rationale: string, source: Proposal, geometry: string, area: real)
    | ApplyReady(id: Id, conflict: Conflict, derived: Proposal)
    | Detecting(proposalId: Id, key: string, requestHash: string)
    | DetectReady(proposalId: Id, key: string, requestHash: string, inputHash: string, rows: seq<Conflict>)
    | DetectAborted(key: string, requestHash: string)

  // ------------------------------------------------------------------ parcels

  function LoadCreateParcel(e: Engine, r: Request): Result<Pending, AppError>
    requires r.CreateParcel?
  {
    if !e.crsValid(r.crs) then Failure(GeometryInvalid)
    else
      match e.polygonArea(r.boundary)
      case None => Failure(GeometryInvalid)
      case Some(area) =>
        Success(NewParcel(Parcel(
          Trim(r.code), Trim(r.name), r.boundary, Upper(Trim(r.crs)), area, 1, Trim(r.owner),
          if r.parcelState == "" then "active" else r.parcelState)))
  }

  function CommitParcel(db: Db, actor: Actor, parcel: Parcel): Option<Db> {
    var inserted :- InsertParcel(db, parcel);
    WriteAudit(inserted, actor, ParcelCreated(|db.parcels|, parcel))
  }

  // The loaded row with the requested changes; the area follows the boundary.
  function ChangedParcel(e: Engine, before: Parcel, c: ParcelChanges): Result<Parcel, AppError> {
    var named := before.(
      name := if c.name.Some? then Trim(c.name.value) else before.name,
      owner := if c.owner.Some? then Trim(c.owner.value) else before.owner,
      state := if c.state.Some? then c.state.value else before.state);
    if c.crs.Some? && !e.crsValid(c.crs.value) then Failure(GeometryInvalid)
    else
      var placed := if c.crs.Some? then named.(crs := Upper(Trim(c.crs.value))) else named;
      if c.boundary.None? then Success(placed)
      else
        match e.polygonArea(c.boundary.value)
        case None => Failure(GeometryInvalid)
        case Some(area) => Success(placed.(boundary := c.boundary.value, area := area))
  }

  function LoadUpdateParcel(e: Engine, db: Db, r: Request): Result<Pending, AppError>
    requires r.UpdateParcel?
  {
    if r.id >= |db.parcels| then Failure(NotFound)
    else
      var before := db.parcels[r.id];
      var version := if r.expected.Some? then r.expected.value else before.version;
      var after :- ChangedParcel(e, before, r.changes);
      Success(ParcelUpdate(r.id, before, after, version))
  }

  function CommitParcelUpdate(db: Db, actor: Actor, id: Id, before: Parcel, after: Parcel, expected: nat): Option<Db> {
    var updated :- UpdateParcelRow(db, id, expected, after);
    WriteAudit(updated, actor, ParcelUpdated(id, before, after))
  }

  // The row the call returns.
  function ParcelResponse(after: Parcel, expected: nat): Parcel {
    after.(version := expected + 1)
  }

  // ------------------------------------------------------------- observations

  function LoadImport(e: Engine, db: Db, r: Request, actor: Actor): Result<Pending, AppError>
    requires r.ImportObservation?
  {
    if r.parcelId >= |db.parcels| then Failure(NotFound)
    else if !e.pointValid(r.point) then Failure(GeometryInvalid)
    else
      Success(NewObservation(Observation(
        r.parcelId, Trim(r.code), r.point,
        if r.initial.Some? then r.initial.value else ObsAccepted, 1, None, Trim(r.note), actor.id)))
  }

  function CommitImport(db: Db, actor: Actor, row: Observation): Option<Db> {
    var inserted :- InsertObservation(db, row);
    WriteAudit(inserted, actor, ObservationImported(|db.observations|, row))
  }

  // Up to the point where the replacement, if one is needed, has to be read.
  function LoadObservation(db: Db, r: Request, actor: Actor): Result<Pending, AppError>
    requires r.TransitionObservation?
  {
    if r.id >= |db.observations| then Failure(NotFound)
    else
      var item := db.observations[r.id];
      if item.version != r.version then Failure(StateConflict)
      else if r.toObservation.None? || !CanObservationTransition(item.state, r.toObservation.value)
      then Failure(StateConflict)
      else if actor.role != Surveyor && actor.role != GisAnalyst && actor.role != Admin then Failure(Forbidden)
      else if r.toObservation.value == ObsSuperseded then
        if r.replacement.None? || r.replacement.value == r.id then Failure(InvalidInput)
        else Success(Superseding(r.id, item, r.replacement.value, Trim(r.note)))
      else if r.replacement.Some? then Failure(InvalidInput)
      else Success(ObservationMove(r.id, item, r.toObservation.value, None, Trim(r.note)))
  }

  // The replacement check, outside the transaction.
  function CheckReplacement(db: Db, id: Id, loaded: Observation, replacement: Id, note: string)
    : Result<Pending, AppError> {
    if replacement >= |db.observations| then Failure(NotFound)
    else if db.observations[replacement].parcelId != loaded.parcelId
         || db.observations[replacement].state == ObsSuperseded then Failure(StateConflict)
    else Success(ObservationMove(id, loaded, ObsSuperseded, Some(replacement), note))
  }

  function CommitObservation(
    db: Db, actor: Actor, id: Id, loaded: Observation, to: ObservationState, replacement: Option<Id>, note: string)
    : Option<Db>
  {
    var moved :- MoveObservation(db, id, loaded.version, to, replacement, note);
    WriteAudit(moved, actor, ObservationChanged(id, loaded, to, loaded.version + 1, replacement, note))
  }

  function ObservationResponse(
    loaded: Observation, to: ObservationState, replacement: Option<Id>, note: string): Observation
  {
    loaded.(state := to, version := loaded.version + 1, replacedBy := replacement,
            note := if note != "" then note else loaded.note)
  }

  // ---------------------------------------------------------------- proposals

  function LoadCreateProposal(e: Engine, db: Db, r: Request, actor: Actor): Result<Pending, AppError>
    requires r.CreateProposal?
  {
    if r.parcelId >= |db.parcels| then Failure(NotFound)
    else
      var parcel := db.parcels[r.parcelId];
      if r.baseVersion != parcel.version then Failure(StateConflict)
      else
        match e.polygonArea(r.geometry)
        case None => Failure(GeometryInvalid)
        case Some(area) =>
          if exists i :: 0 <= i < |r.observationIds|
                         && (r.observationIds[i] >= |db.observations|
                             || db.observations[r.observationIds[i]].parcelId != r.parcelId)
          then Failure(InvalidInput)
          else
            Success(NewProposal(Proposal(
              r.parcelId, r.baseVersion, r.geometry, r.observationIds, r.tolerance, area - parcel.area,
              ProposalState.Draft, Trim(r.rationale), 1, actor.id, None)))
  }

  function CommitProposal(db: Db, actor: Actor, row: Proposal): Option<Db> {
    WriteAudit(InsertProposal(db, row), actor, ProposalCreated(|db.proposals|, row))
  }

  function LoadProposal(db: Db, r: Request, actor: Actor): Result<Pending, AppError>
    requires r.TransitionProposal?
  {
    if r.id >= |db.proposals| then Failure(NotFound)
    else
      var item := db.proposals[r.id];
      if r.toProposal.None? || !CanProposalTransition(item.state, r.toProposal.value) then Failure(StateConflict)
      else if !Authorized(item.createdBy, r.toProposal.value, actor) then Failure(Forbidden)
      else Success(ProposalMove(r.id, item, r.toProposal.value, r.rationale))
  }

  function UpdatesFor(to: ProposalState, rationale: string, actor: Actor): ProposalUpdates {
    ProposalUpdates(
      if rationale != "" then Some(rationale) else None,
      if IsReview(to) then Some(actor.id) else None)
  }

  function CommitProposalMove(
    db: Db, actor: Actor, id: Id, loaded: Proposal, to: ProposalState, rationale: string): Option<Db>
  {
    var moved :- MoveProposal(db, id, loaded.version, loaded.state, to, UpdatesFor(to, rationale, actor));
    WriteAudit(moved, actor, ProposalChanged(id, loaded, to, loaded.version + 1))
  }

  // The row the call returns: the rationale is not refreshed.
  function ProposalResponse(loaded: Proposal, to: ProposalState, actor: Actor): Proposal {
    loaded.(state := to, version := loaded.version + 1,
            reviewedBy := if IsReview(to) then Some(actor.id) else loaded.reviewedBy)
  }

  // ---------------------------------------------------------------- conflicts

  function LoadConflict(db: Db, r: Request): Result<Pending, AppError>
    requires r.TransitionConflict?
  {
    if r.id >= |db.conflicts| then Failure(NotFound)
    else
      var item := db.conflicts[r.id];
      if r.toConflict.None? || !CanConflictTransition(item.state, r.toConflict.value) then Failure(StateConflict)
      else Success(ConflictMove(r.id, item, r.toConflict.value))
  }

  function ResolverFor(to: ConflictState, actor: Actor): Option<Id> {
    if Settles(to) then Some(actor.id) else None
  }

  function CommitConflict(db: Db, actor: Actor, id: Id, loaded: Conflict, to: ConflictState): Option<Db> {
    var moved :- MoveConflict(db, id, loaded.state, to, ResolverFor(to, actor));
    WriteAudit(moved, actor, ConflictChanged(id, loaded, to))
  }

  function ConflictResponse(loaded: Conflict, to: ConflictState, actor: Actor): Conflict {
    loaded.(state := to, resolvedBy := ResolverFor(to, actor))
  }

  function LoadApply(db: Db, r: Request, actor: Actor): Result<Pending, AppError>
    requires r.ApplySuggestion?
  {
    if actor.role != Reviewer && actor.role != Admin then Failure(Forbidden)
    else if r.id >= |db.conflicts| then Failure(NotFound)
    else if db.conflicts[r.id].state != ResolutionProposed then Failure(StateConflict)
    else Success(Applying(r.id, db.conflicts[r.id], r.rationale))
  }

  // The source proposal, and the stored suggestion parsed.
  function LoadSource(e: Engine, db: Db, id: Id, conflict: Conflict, rationale: string): Result<Pending, AppError> {
    if conflict.proposalId >= |db.proposals| then Failure(NotFound)
    else if conflict.suggestion.None? then Failure(StateConflict)
    else
      match e.polygonArea(conflict.suggestion.value)
      case None => Failure(Internal)
      case Some(area) =>
        Success(ApplyingFrom(id, conflict, rationale, db.proposals[conflict.proposalId],
                conflict.suggestion.value, area))
  }

  function DefaultRationale(e: Engine, id: Id): string {
    "Applied deterministic suggestion from topology conflict " + e.formatId(id) + "."
  }

  // The parcel as it is now, and the proposal derived from all three.
  function LoadTarget(
    e: Engine, db: Db, actor: Actor, id: Id, conflict: Conflict, rationale: string,
    source: Proposal, geometry: string, area: real): Result<Pending, AppError>
  {
    if source.parcelId >= |db.parcels| then Failure(NotFound)
    else
      var parcel := db.parcels[source.parcelId];
      var text := Trim(rationale);
      Success(ApplyReady(id, conflict, Proposal(
        source.parcelId, parcel.version, geometry, source.observationIds, source.tolerance, area - parcel.area,
        ProposalState.Draft, if text == "" then DefaultRationale(e, id) else text,
        source.version + 1, actor.id, None)))
  }

  // The derived proposal and the resolved conflict appear together or not at all.
  function CommitApply(db: Db, actor: Actor, id: Id, loaded: Conflict, derived: Proposal): Option<Db> {
    var proposal := |db.proposals|;
    var created := InsertProposal(db, derived);
    var moved :- MoveConflict(created, id, loaded.state, Resolved, Some(actor.id));
    var first :- WriteAudit(moved, actor, ProposalFromConflict(proposal, derived));
    WriteAudit(first, actor, SuggestionApplied(id, loaded, proposal))
  }

  // ---------------------------------------------------------------- detection

  const MAX_KEY := 128

  // The ids of a response and the rows they name.
  datatype Answer = Answer(ids: seq<Id>, rows: seq<Conflict>)

  // A detection request is answered from its run, or goes on to be computed.
  datatype Looked = Answered(requestHash: string, answer: Result<Answer, AppError>) | ToCompute(pending: Pending)

  // replayDetectionRun.
  function Replay(db: Db, run: DetectionRun, requestHash: string): Result<Answer, AppError> {
    if run.requestHash != requestHash then Failure(StateConflict)
    else
      match ListConflicts(db, run.resultIds)
      case None => Failure(Internal)
      case Some(rows) => Success(Answer(run.resultIds, rows))
  }

  function EffectiveTolerance(requested: real, proposal: Proposal): real {
    if requested == 0.0 then proposal.tolerance else requested
  }

  function LoadDetection(e: Engine, db: Db, r: Request, actor: Actor): Result<Looked, AppError>
    requires r.DetectConflicts?
  {
    var key := Trim(r.key);
    if key == "" || |key| > MAX_KEY then Failure(InvalidInput)
    else if r.proposalId >= |db.proposals| then Failure(NotFound)
    else
      var hash := RequestHash(e, r.proposalId, EffectiveTolerance(r.tolerance, db.proposals[r.proposalId]));
      match FindRun(db.runs, actor.id, key)
      case Some(run) => Success(Answered(hash, Replay(db, run, hash)))
      case None => Success(ToCompute(Detecting(r.proposalId, key, hash)))
  }

  function RowOf(proposalId: Id, inputHash: string, d: Draft): Conflict {
    Conflict(proposalId, d.parcelIds, d.kind, d.geometry, d.magnitude, inputHash, d.suggestion, Detected, None)
  }

  function RowsOf(proposalId: Id, inputHash: string, drafts: seq<Draft>): seq<Conflict> {
    seq(|drafts|, i requires 0 <= i < |drafts| => RowOf(proposalId, inputHash, drafts[i]))
  }

  // The conflicts one by one, each with its audit entry.
  function InsertDetected(db: Db, actor: Actor, rows: seq<Conflict>): Option<Db> {
    if rows == [] then Some(db)
    else
      var earlier :- InsertDetected(db, actor, rows[..|rows| - 1]);
      var row := rows[|rows| - 1];
      WriteAudit(InsertConflict(earlier, row), actor, ConflictDetected(|earlier.conflicts|, row))
  }

  function NewIds(from: nat, count: nat): (r: seq<Id>)
    ensures |r| == count && forall i :: 0 <= i < count ==> r[i] == from + i
  {
    seq(count, i requires 0 <= i < count => from + i)
  }

  function RunOf(db: Db, actor: Actor, proposalId: Id, key: string, requestHash: string, inputHash: string, count: nat)
    : DetectionRun
  {
    DetectionRun(proposalId, actor.id, key, requestHash, inputHash, NewIds(|db.conflicts|, count))
  }

  function CommitDetection(
    db: Db, actor: Actor, proposalId: Id, key: string, requestHash: string, inputHash: string, rows: seq<Conflict>)
    : Option<Db>
  {
    var detected :- InsertDetected(db, actor, rows);
    var run := RunOf(db, actor, proposalId, key, requestHash, inputHash, |rows|);
    var recorded :- InsertRun(detected, run);
    WriteAudit(recorded, actor, DetectionCompleted(|db.runs|, run))
  }

  // After an aborted transaction the run is looked up once more.
  function Fallback(db: Db, actor: Actor, key: string, requestHash: string): Result<Answer, AppError> {
    match FindRun(db.runs, actor.id, key)
    case Some(run) => Replay(db, run, requestHash)
    case None => Failure(Internal)
  }
}

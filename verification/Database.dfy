// The store as a value, and what each repository operation does to it
// (backend/internal/repository). An operation that the database refuses, or
// that touches no row, is None.

module Database {
  import opened Options
  import opened Domain

  // The action of an audit entry with its before and after snapshots.
  datatype AuditEvent =
    | ParcelCreated(parcel: Id, newParcel: Parcel)
    | ParcelUpdated(parcel: Id, oldParcel: Parcel, newParcel: Parcel)
    | ObservationImported(observation: Id, newObservation: Observation)
    | ObservationChanged(
        observation: Id, oldObservation: Observation,
        toObservation: ObservationState, version: nat, replacedBy: Option<Id>, note: string)
    | ProposalCreated(proposal: Id, newProposal: Proposal)
    | ProposalChanged(proposal: Id, oldProposal: Proposal, toProposal: ProposalState, version: nat)
    | ProposalFromConflict(proposal: Id, newProposal: Proposal)
    | ConflictDetected(conflict: Id, newConflict: Conflict)
    | ConflictChanged(conflict: Id, oldConflict: Conflict, toConflict: ConflictState)
    | SuggestionApplied(conflict: Id, oldConflict: Conflict, proposal: Id)
    | DetectionCompleted(run: Id, newRun: DetectionRun)

  datatype AuditLog = AuditLog(actorId: Id, requestId: string, event: AuditEvent)

  datatype Db = Db(
    parcels: seq<Parcel>, observations: seq<Observation>, proposals: seq<Proposal>,
    conflicts: seq<Conflict>, runs: seq<DetectionRun>, audits: seq<AuditLog>)

  const EMPTY := Db([], [], [], [], [], [])

  // AuditRepository.Create requires a request id.
  function WriteAudit(db: Db, actor: Actor, event: AuditEvent): Option<Db> {
    if Trim(actor.requestId) == "" then None
    else Some(db.(audits := db.audits + [AuditLog(actor.id, actor.requestId, event)]))
  }

  // ------------------------------------------------------------------ parcels

  predicate ParcelCodeTaken(db: Db, code: string) {
    exists i :: 0 <= i < |db.parcels| && db.parcels[i].code == code
  }

  function InsertParcel(db: Db, row: Parcel): Option<Db> {
    if ParcelCodeTaken(db, row.code) then None else Some(db.(parcels := db.parcels + [row]))
  }

  // The guarded update: every mutable column is written, the code is not.
  function UpdatedParcel(row: Parcel, after: Parcel): Parcel {
    after.(code := row.code, version := row.version + 1)
  }

  function UpdateParcelRow(db: Db, id: Id, version: nat, after: Parcel): Option<Db> {
    if id < |db.parcels| && db.parcels[id].version == version
    then Some(db.(parcels := db.parcels[id := UpdatedParcel(db.parcels[id], after)]))
    else None
  }

  // ------------------------------------------------------------- observations

  predicate ObservationCodeTaken(db: Db, code: string) {
    exists i :: 0 <= i < |db.observations| && db.observations[i].code == code
  }

  function InsertObservation(db: Db, row: Observation): Option<Db> {
    if ObservationCodeTaken(db, row.code) then None else Some(db.(observations := db.observations + [row]))
  }

  function MovedObservation(row: Observation, to: ObservationState, replacement: Option<Id>, note: string)
    : Observation {
    row.(state := to, version := row.version + 1,
         replacedBy := if replacement.Some? then replacement else row.replacedBy,
         note := if Trim(note) != "" then note else row.note)
  }

  function MoveObservation(
    db: Db, id: Id, version: nat, to: ObservationState, replacement: Option<Id>, note: string): Option<Db>
  {
    if id < |db.observations| && db.observations[id].version == version
    then Some(db.(observations := db.observations[id := MovedObservation(db.observations[id], to, replacement, note)]))
    else None
  }

  // ---------------------------------------------------------------- proposals

  datatype ProposalUpdates = ProposalUpdates(rationale: Option<string>, reviewedBy: Option<Id>)

  function InsertProposal(db: Db, row: Proposal): Db {
    db.(proposals := db.proposals + [row])
  }

  function MovedProposal(row: Proposal, to: ProposalState, updates: ProposalUpdates): Proposal {
    row.(state := to, version := row.version + 1,
         rationale := if updates.rationale.Some? then updates.rationale.value else row.rationale,
         reviewedBy := if updates.reviewedBy.Some? then updates.reviewedBy else row.reviewedBy)
  }

  function MoveProposal(
    db: Db, id: Id, version: nat, from: ProposalState, to: ProposalState, updates: ProposalUpdates): Option<Db>
  {
    if id < |db.proposals| && db.proposals[id].version == version && db.proposals[id].state == from
    then Some(db.(proposals := db.proposals[id := MovedProposal(db.proposals[id], to, updates)]))
    else None
  }

  // ---------------------------------------------------------------- conflicts

  function InsertConflict(db: Db, row: Conflict): Db {
    db.(conflicts := db.conflicts + [row])
  }

  function MovedConflict(row: Conflict, to: ConflictState, resolvedBy: Option<Id>): Conflict {
    row.(state := to, resolvedBy := if resolvedBy.Some? then resolvedBy else row.resolvedBy)
  }

  function MoveConflict(
    db: Db, id: Id, from: ConflictState, to: ConflictState, resolvedBy: Option<Id>): Option<Db>
  {
    if id < |db.conflicts| && db.conflicts[id].state == from
    then Some(db.(conflicts := db.conflicts[id := MovedConflict(db.conflicts[id], to, resolvedBy)]))
    else None
  }

  // The rows with the given ids, in the order of the ids.
  function ListConflicts(db: Db, ids: seq<Id>): Option<seq<Conflict>> {
    if forall i :: 0 <= i < |ids| ==> ids[i] < |db.conflicts|
    then Some(seq(|ids|, i requires 0 <= i < |ids| && ids[i] < |db.conflicts| => db.conflicts[ids[i]]))
    else None
  }

  // ----------------------------------------------------------- detection runs

  predicate IsRunOf(run: DetectionRun, actorId: Id, key: string) {
    run.actorId == actorId && run.key == key
  }

  predicate RunTaken(db: Db, actorId: Id, key: string) {
    exists i :: 0 <= i < |db.runs| && IsRunOf(db.runs[i], actorId, key)
  }

  // The unique index on actor and key.
  function InsertRun(db: Db, row: DetectionRun): Option<Db> {
    if RunTaken(db, row.actorId, row.key) then None else Some(db.(runs := db.runs + [row]))
  }

  // First by primary key.
  function FindRun(runs: seq<DetectionRun>, actorId: Id, key: string): (r: Option<DetectionRun>)
    ensures r.None? <==> forall i :: 0 <= i < |runs| ==> !IsRunOf(runs[i], actorId, key)
    ensures r.Some? ==> r.value in runs && IsRunOf(r.value, actorId, key)
  {
    if runs == [] then None
    else if IsRunOf(runs[0], actorId, key) then Some(runs[0])
    else FindRun(runs[1..], actorId, key)
  }
}

// Any number of calls in flight over one store. Each step lets one call do its
// next read or its transaction; steps of different calls come in any order.

module Interleaving {
  import opened Options
  import opened Domain
  import opened Database
  import opened Services

  datatype Call = Call(actor: Actor, pending: Pending)

  // How a detection call ended, once it had been checked against a run, and how
  // many runs were stored by then.
  datatype Outcome = Outcome(
    actorId: Id, key: string, requestHash: string, result: Result<Answer, AppError>, stored: nat)

  // The store, the calls in flight, and what is remembered of the past:
  // births[p] is the version proposal p was created with, history[p] the
  // boundaries parcel p has had, derived the (conflict, proposal) pairs of
  // applied suggestions, retired the observations in the order in which they
  // were superseded, outcomes the answered detection calls.
  datatype Sys = Sys(
    db: Db, calls: map<nat, Call>,
    births: seq<nat>, history: seq<seq<string>>, derived: seq<(Id, Id)>, retired: seq<Id>, outcomes: seq<Outcome>)

  const INITIAL := Sys(EMPTY, map[], [], [], [], [], [])

  datatype Action =
    | Begin(call: nat, actor: Actor, request: Request)
    | Advance(call: nat)
    | Compute(call: nat, inputHash: string, drafts: seq<Draft>)
    | Commit(call: nat)
    | Fault(call: nat)
    | Relookup(call: nat)

  function Enter(s: Sys, k: nat, actor: Actor, loaded: Result<Pending, AppError>): Sys {
    match loaded
    case Failure(_) => s.(calls := s.calls - {k})
    case Success(p) => s.(calls := s.calls[k := Call(actor, p)])
  }

  function Answering(s: Sys, actor: Actor, key: string, requestHash: string, result: Result<Answer, AppError>): Sys {
    s.(outcomes := s.outcomes + [Outcome(actor.id, key, requestHash, result, |s.db.runs|)])
  }

  // The first step of a call: its first reads and checks.
  function Start(e: Engine, s: Sys, k: nat, actor: Actor, r: Request): Sys {
    match r
    case CreateParcel(_, _, _, _, _, _) => Enter(s, k, actor, LoadCreateParcel(e, r))
    case UpdateParcel(_, _, _) => Enter(s, k, actor, LoadUpdateParcel(e, s.db, r))
    case ImportObservation(_, _, _, _, _) => Enter(s, k, actor, LoadImport(e, s.db, r, actor))
    case TransitionObservation(_, _, _, _, _) => Enter(s, k, actor, LoadObservation(s.db, r, actor))
    case CreateProposal(_, _, _, _, _, _) => Enter(s, k, actor, LoadCreateProposal(e, s.db, r, actor))
    case TransitionProposal(_, _, _) => Enter(s, k, actor, LoadProposal(s.db, r, actor))
    case TransitionConflict(_, _) => Enter(s, k, actor, LoadConflict(s.db, r))
    case ApplySuggestion(_, _) => Enter(s, k, actor, LoadApply(s.db, r, actor))
    case DetectConflicts(_, _, key) =>
      match LoadDetection(e, s.db, r, actor)
      case Failure(_) => s
      case Success(ToCompute(pending)) => Enter(s, k, actor, Success(pending))
      case Success(Answered(hash, answer)) => Answering(s, actor, Trim(key), hash, answer)
  }

  // A further read between the first one and the transaction.
  function Next(e: Engine, s: Sys, k: nat, c: Call): Sys {
    match c.pending
    case Superseding(id, loaded, replacement, note) =>
      Enter(s, k, c.actor, CheckReplacement(s.db, id, loaded, replacement, note))
    case Applying(id, conflict, rationale) =>
      Enter(s, k, c.actor, LoadSource(e, s.db, id, conflict, rationale))
    case ApplyingFrom(id, conflict, rationale, source, geometry, area) =>
      Enter(s, k, c.actor, LoadTarget(e, s.db, c.actor, id, conflict, rationale, source, geometry, area))
    case _ => s
  }

  // Detection's computation, with whatever findings it comes to.
  function Computed(s: Sys, k: nat, c: Call, inputHash: string, drafts: seq<Draft>): Sys {
    match c.pending
    case Detecting(proposalId, key, hash) =>
      Enter(s, k, c.actor, Success(DetectReady(proposalId, key, hash, inputHash,
            RowsOf(proposalId, inputHash, drafts))))
    case _ => s
  }

  // Everything has been read; only the transaction is left.
  predicate Ready(p: Pending) {
    || p.NewParcel? || p.ParcelUpdate? || p.NewObservation? || p.ObservationMove? || p.NewProposal?
    || p.ProposalMove? || p.ConflictMove? || p.ApplyReady? || p.DetectReady?
  }

  // The transaction of a call that is ready for it; None when it is rolled back.
  function Committed(s: Sys, c: Call): Option<Sys> {
    match c.pending
    case NewParcel(parcel) =>
      var db :- CommitParcel(s.db, c.actor, parcel);
      Some(s.(db := db, history := s.history + [[parcel.boundary]]))
    case ParcelUpdate(id, before, after, expected) =>
      var db :- CommitParcelUpdate(s.db, c.actor, id, before, after, expected);
      Some(s.(db := db, history :=
        if id < |s.history| then s.history[id := s.history[id] + [after.boundary]] else s.history))
    case NewObservation(row) =>
      var db :- CommitImport(s.db, c.actor, row);
      Some(s.(db := db))
    case ObservationMove(id, loaded, to, replacement, note) =>
      var db :- CommitObservation(s.db, c.actor, id, loaded, to, replacement, note);
      Some(s.(db := db, retired := if to == ObsSuperseded then s.retired + [id] else s.retired))
    case NewProposal(row) =>
      var db :- CommitProposal(s.db, c.actor, row);
      Some(s.(db := db, births := s.births + [row.version]))
    case ProposalMove(id, loaded, to, rationale) =>
      var db :- CommitProposalMove(s.db, c.actor, id, loaded, to, rationale);
      Some(s.(db := db))
    case ConflictMove(id, loaded, to) =>
      var db :- CommitConflict(s.db, c.actor, id, loaded, to);
      Some(s.(db := db))
    case ApplyReady(id, loaded, derived) =>
      var db :- CommitApply(s.db, c.actor, id, loaded, derived);
      Some(s.(db := db, births := s.births + [derived.version], derived := s.derived + [(id, |s.db.proposals|)]))
    case DetectReady(proposalId, key, hash, inputHash, rows) =>
      var db :- CommitDetection(s.db, c.actor, proposalId, key, hash, inputHash, rows);
      Some(Answering(s.(db := db), c.actor, key, hash, Success(Answer(NewIds(|s.db.conflicts|, |rows|), rows))))
    case _ => None
  }

  // After a rollback, detection still has its second lookup to do.
  function Aborted(s: Sys, k: nat, c: Call): Sys {
    match c.pending
    case DetectReady(_, key, hash, _, _) => s.(calls := s.calls[k := Call(c.actor, DetectAborted(key, hash))])
    case DetectAborted(_, _) => s
    case _ => s.(calls := s.calls - {k})
  }

  function Second(s: Sys, k: nat, c: Call): Sys {
    match c.pending
    case DetectAborted(key, hash) =>
      Answering(s.(calls := s.calls - {k}), c.actor, key, hash, Fallback(s.db, c.actor, key, hash))
    case _ => s
  }

  function Step(e: Engine, s: Sys, a: Action): Sys {
    match a
    case Begin(k, actor, r) => if k in s.calls then s else Start(e, s, k, actor, r)
    case Advance(k) => if k in s.calls then Next(e, s, k, s.calls[k]) else s
    case Compute(k, inputHash, drafts) => if k in s.calls then Computed(s, k, s.calls[k], inputHash, drafts) else s
    case Commit(k) =>
      if k !in s.calls || !Ready(s.calls[k].pending) then s
      else
        (match Committed(s, s.calls[k])
         case Some(done) => done.(calls := s.calls - {k})
         case None => Aborted(s, k, s.calls[k]))
    case Fault(k) => if k in s.calls then Aborted(s, k, s.calls[k]) else s
    case Relookup(k) => if k in s.calls then Second(s, k, s.calls[k]) else s
  }

  // The state after a run from the empty store.
  function Run(e: Engine, actions: seq<Action>): Sys {
    if actions == [] then INITIAL
    else Step(e, Run(e, actions[..|actions| - 1]), actions[|actions| - 1])
  }
}

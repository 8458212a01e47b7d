// The audit log as a journal: replaying it rebuilds the store, and what each
// entry shows as the row before the change is the row there was.

module AuditJournal {
  import opened Options
  import opened Domain
  import opened Database
  import opened Services
  import opened Interleaving
  import opened Evolution
  import opened ConflictLifecycle

  // The entry of a proposal move shows the row before it, rationale included, but
  // not the rationale that the move writes; so the journal is compared with the
  // store up to rationales; module Rationales says where those differ.
  ghost predicate SameButRationale(rebuilt: Db, db: Db) {
    && rebuilt == db.(proposals := rebuilt.proposals, audits := [])
    && |rebuilt.proposals| == |db.proposals|
    && forall i :: 0 <= i < |db.proposals| ==>
         rebuilt.proposals[i] == db.proposals[i].(rationale := rebuilt.proposals[i].rationale)
  }

  // One entry applied to a rebuilt store; an entry about an unknown row has no
  // effect.
  function Apply(db: Db, log: AuditLog): Db {
    match log.event
    case ParcelCreated(_, row) => db.(parcels := db.parcels + [row])
    case ParcelUpdated(id, _, after) =>
      if id < |db.parcels| then db.(parcels := db.parcels[id := UpdatedParcel(db.parcels[id], after)]) else db
    case ObservationImported(_, row) => db.(observations := db.observations + [row])
    case ObservationChanged(id, _, to, version, replacement, note) =>
      if id < |db.observations| then
        var row := db.observations[id];
        db.(observations := db.observations[id := row.(
          state := to, version := version,
          replacedBy := if replacement.Some? then replacement else row.replacedBy,
          note := if Trim(note) != "" then note else row.note)])
      else db
    case ProposalCreated(_, row) => db.(proposals := db.proposals + [row])
    case ProposalFromConflict(_, row) => db.(proposals := db.proposals + [row])
    case ProposalChanged(id, before, to, version) =>
      if id < |db.proposals| then
        db.(proposals := db.proposals[id := before.(
          state := to, version := version,
          reviewedBy := if IsReview(to) then Some(log.actorId) else before.reviewedBy)])
      else db
    case ConflictDetected(_, row) => db.(conflicts := db.conflicts + [row])
    case ConflictChanged(id, _, to) =>
      if id < |db.conflicts| then
        var row := db.conflicts[id];
        db.(conflicts := db.conflicts[id := row.(
          state := to, resolvedBy := if Settles(to) then Some(log.actorId) else row.resolvedBy)])
      else db
    case SuggestionApplied(id, _, _) =>
      if id < |db.conflicts| then
        db.(conflicts := db.conflicts[id := db.conflicts[id].(state := Resolved, resolvedBy := Some(log.actorId))])
      else db
    case DetectionCompleted(_, run) => db.(runs := db.runs + [run])
  }

  function Rebuild(audits: seq<AuditLog>): Db {
    if audits == [] then EMPTY else Apply(Rebuild(audits[..|audits| - 1]), audits[|audits| - 1])
  }

  // What an entry shows of the past, against what the earlier entries rebuild:
  // created rows take the next position, and moves start, legally, from the row
  // there is. A parcel update may show an older row: see ParcelBeforeExactly.
  ghost predicate Faithful(db: Db, event: AuditEvent) {
    match event
    case ParcelCreated(id, _) => id == |db.parcels|
    case ParcelUpdated(id, before, after) => id < |db.parcels| && ParcelLater(before, db.parcels[id])
    case ObservationImported(id, _) => id == |db.observations|
    case ObservationChanged(id, before, to, version, _, _) =>
      && id < |db.observations| && db.observations[id] == before
      && CanObservationTransition(before.state, to) && version == before.version + 1
    case ProposalCreated(id, _) => id == |db.proposals|
    case ProposalFromConflict(id, _) => id == |db.proposals|
    case ProposalChanged(id, before, to, version) =>
      && id < |db.proposals| && before == db.proposals[id].(rationale := before.rationale)
      && CanProposalTransition(before.state, to) && version == before.version + 1
    case ConflictDetected(id, _) => id == |db.conflicts|
    case ConflictChanged(id, before, to) =>
      && id < |db.conflicts| && db.conflicts[id] == before && CanConflictTransition(before.state, to)
    case SuggestionApplied(id, before, proposal) =>
      && id < |db.conflicts| && db.conflicts[id] == before && before.state == ResolutionProposed
      && proposal == |db.proposals| - 1
    case DetectionCompleted(id, _) => id == |db.runs|
  }

  ghost predicate AllFaithful(audits: seq<AuditLog>) {
    forall n :: 0 <= n < |audits| ==> Faithful(Rebuild(audits[..n]), audits[n].event)
  }

  ghost predicate Journal(db: Db) {
    SameButRationale(Rebuild(db.audits), db) && AllFaithful(db.audits)
  }

  lemma Entry(audits: seq<AuditLog>, log: AuditLog)
    requires AllFaithful(audits) && Faithful(Rebuild(audits), log.event)
    ensures AllFaithful(audits + [log]) && Rebuild(audits + [log]) == Apply(Rebuild(audits), log)
  {
    hide Faithful, Apply;
    var longer := audits + [log];
    assert longer[..|audits|] == audits;
    forall n | 0 <= n < |longer| ensures Faithful(Rebuild(longer[..n]), longer[n].event) {
      if n < |audits| {
        assert longer[..n] == audits[..n];
      }
    }
  }

  // ------------------------------------------------------------- transactions

  // The entries of a transaction other than detection are faithful, and applying
  // them does to the journal what the transaction did to the store.
  lemma JournalParcels(e: Engine, s: Sys, c: Call)
    requires CallOk(e, s, c) && Journal(s.db) && Committed(s, c).Some?
    requires c.pending.NewParcel? || c.pending.ParcelUpdate?
    ensures Journal(Committed(s, c).value.db)
    ensures Rebuild(Committed(s, c).value.db.audits).proposals == Rebuild(s.db.audits).proposals
  {
    hide Trim, ParcelCodeTaken, Rebuild, AllFaithful;
    CommittedEntries(s, c);
    Entry(s.db.audits, Entries(s, c)[0]);
  }

  lemma JournalObservations(e: Engine, s: Sys, c: Call)
    requires CallOk(e, s, c) && Journal(s.db) && Committed(s, c).Some?
    requires c.pending.NewObservation? || c.pending.ObservationMove?
    ensures Journal(Committed(s, c).value.db)
    ensures Rebuild(Committed(s, c).value.db.audits).proposals == Rebuild(s.db.audits).proposals
  {
    hide Trim, ObservationCodeTaken, Rebuild, AllFaithful;
    CommittedEntries(s, c);
    if c.pending.ObservationMove? {
      ObservationGuard(e, s, c);
    }
    Entry(s.db.audits, Entries(s, c)[0]);
  }

  lemma JournalProposals(e: Engine, s: Sys, c: Call)
    requires CallOk(e, s, c) && Journal(s.db) && Committed(s, c).Some?
    requires c.pending.NewProposal? || c.pending.ProposalMove?
    ensures Journal(Committed(s, c).value.db)
    ensures Rebuild(Committed(s, c).value.db.audits).proposals ==
            if c.pending.NewProposal? then Rebuild(s.db.audits).proposals + [c.pending.proposal]
            else Rebuild(s.db.audits).proposals[c.pending.id :=
              Committed(s, c).value.db.proposals[c.pending.id].(rationale := c.pending.proposal.rationale)]
  {
    hide Trim, Rebuild, AllFaithful, DeltaOk;
    CommittedEntries(s, c);
    if c.pending.ProposalMove? {
      ProposalGuard(e, s, c);
    }
    Entry(s.db.audits, Entries(s, c)[0]);
  }

  lemma JournalConflictMove(e: Engine, s: Sys, c: Call)
    requires CallOk(e, s, c) && Journal(s.db) && Committed(s, c).Some? && c.pending.ConflictMove?
    ensures Journal(Committed(s, c).value.db)
    ensures Rebuild(Committed(s, c).value.db.audits).proposals == Rebuild(s.db.audits).proposals
  {
    hide Trim, Rebuild, AllFaithful;
    CommittedEntries(s, c);
    ConflictGuard(e, s, c);
    Entry(s.db.audits, Entries(s, c)[0]);
  }

  lemma JournalApply(e: Engine, s: Sys, c: Call)
    requires CallOk(e, s, c) && Journal(s.db) && Committed(s, c).Some? && c.pending.ApplyReady?
    ensures Journal(Committed(s, c).value.db)
    ensures Rebuild(Committed(s, c).value.db.audits).proposals == Rebuild(s.db.audits).proposals + [c.pending.derived]
  {
    hide Trim, Rebuild, AllFaithful, DeltaOk;
    CommittedEntries(s, c);
    ConflictGuard(e, s, c);
    var entries := Entries(s, c);
    Entry(s.db.audits, entries[0]);
    Entry(s.db.audits + [entries[0]], entries[1]);
    assert s.db.audits + entries == s.db.audits + [entries[0]] + [entries[1]];
  }

  lemma {:induction false} JournalDetected(db: Db, actor: Actor, rows: seq<Conflict>)
    requires Journal(db) && InsertDetected(db, actor, rows).Some?
    ensures Journal(InsertDetected(db, actor, rows).value)
    ensures Rebuild(InsertDetected(db, actor, rows).value.audits).proposals == Rebuild(db.audits).proposals
  {
    hide Trim, Rebuild, AllFaithful;
    if rows != [] {
      var front, last := rows[..|rows| - 1], rows[|rows| - 1];
      JournalDetected(db, actor, front);
      var t := InsertDetected(db, actor, front).value;
      Entry(t.audits, AuditLog(actor.id, actor.requestId, ConflictDetected(|t.conflicts|, last)));
    }
  }

  lemma JournalDetection(e: Engine, s: Sys, c: Call)
    requires Journal(s.db) && Committed(s, c).Some? && c.pending.DetectReady?
    ensures Journal(Committed(s, c).value.db)
    ensures Rebuild(Committed(s, c).value.db.audits).proposals == Rebuild(s.db.audits).proposals
  {
    hide Trim, Rebuild, AllFaithful, InsertDetected, RunTaken;
    var p := c.pending;
    JournalDetected(s.db, c.actor, p.rows);
    DetectedAppends(s.db, c.actor, p.rows);
    var d := InsertDetected(s.db, c.actor, p.rows).value;
    Entry(d.audits, AuditLog(c.actor.id, c.actor.requestId,
          DetectionCompleted(|s.db.runs|,
            RunOf(s.db, c.actor, p.proposalId, p.key, p.requestHash, p.inputHash, |p.rows|))));
  }

  lemma StepJournal(e: Engine, s: Sys, a: Action)
    requires Base(e, s) && Journal(s.db)
    ensures Journal(Step(e, s, a).db)
  {
    hide Committed, RowsOk, CallOk, Step, Journal;
    StepShape(e, s, a);
    if WillCommit(s, a) {
      var c := s.calls[a.call];
      match c.pending {
        case NewParcel(_) => JournalParcels(e, s, c);
        case ParcelUpdate(_, _, _, _) => JournalParcels(e, s, c);
        case NewObservation(_) => JournalObservations(e, s, c);
        case ObservationMove(_, _, _, _, _) => JournalObservations(e, s, c);
        case NewProposal(_) => JournalProposals(e, s, c);
        case ProposalMove(_, _, _, _) => JournalProposals(e, s, c);
        case ConflictMove(_, _, _) => JournalConflictMove(e, s, c);
        case ApplyReady(_, _, _) => JournalApply(e, s, c);
        case DetectReady(_, _, _, _, _) => JournalDetection(e, s, c);
        case _ =>
      }
    }
  }

  // Under any interleaving, replaying the audit log rebuilds every table, but for
  // a rationale that the last move of a proposal wrote, and every entry is
  // faithful to the row it was written about.
  lemma {:induction false} AuditRebuilds(e: Engine, actions: seq<Action>)
    ensures Journal(Run(e, actions).db)
  {
    hide Step, Journal;
    if actions != [] {
      var front := actions[..|actions| - 1];
      AuditRebuilds(e, front);
      RunBase(e, front);
      StepJournal(e, Run(e, front), actions[|actions| - 1]);
    } else {
      EmptyJournal();
    }
  }

  lemma EmptyJournal()
    ensures Journal(EMPTY)
  {
  }

  // --------------------------------------------------- where the log is silent

  // The before-snapshot of a committed parcel update is the stored row exactly
  // when the version it was guarded with is the one that had been read.
  lemma ParcelBeforeExactly(e: Engine, s: Sys, c: Call)
    requires Reachable(e, s) && c in s.calls.Values && c.pending.ParcelUpdate? && Committed(s, c).Some?
    ensures c.pending.before == s.db.parcels[c.pending.id] <==> c.pending.expected == c.pending.before.version
  {
    hide Trim, Reachable;
    ReachableCall(e, s, c);
  }
}

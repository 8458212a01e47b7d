// The life of a topology conflict, and the exactly-once application of its
// suggestion, under any interleaving of calls.

module ConflictLifecycle {
  import opened Options
  import opened Domain
  import opened Database
  import opened Services
  import opened Interleaving
  import opened Evolution

  // ------------------------------------------------ what the audit log counts

  // Moves of conflict i, by either route.
  function Moves(audits: seq<AuditLog>, i: Id): nat {
    if audits == [] then 0
    else
      var event := audits[|audits| - 1].event;
      Moves(audits[..|audits| - 1], i)
      + (if (event.ConflictChanged? || event.SuggestionApplied?) && event.conflict == i then 1 else 0)
  }

  // The (conflict, proposal) pairs of conflict.suggestion_applied entries.
  function Applications(audits: seq<AuditLog>): seq<(Id, Id)> {
    if audits == [] then []
    else
      var event := audits[|audits| - 1].event;
      Applications(audits[..|audits| - 1])
      + (if event.SuggestionApplied? then [(event.conflict, event.proposal)] else [])
  }

  // The proposals of proposal.created_from_conflict entries.
  function Derivations(audits: seq<AuditLog>): seq<Id> {
    if audits == [] then []
    else
      var event := audits[|audits| - 1].event;
      Derivations(audits[..|audits| - 1]) + (if event.ProposalFromConflict? then [event.proposal] else [])
  }

  lemma Append(audits: seq<AuditLog>, log: AuditLog, i: Id)
    ensures Moves(audits + [log], i) == Moves(audits, i)
            + (if (log.event.ConflictChanged? || log.event.SuggestionApplied?) && log.event.conflict == i then 1 else 0)
    ensures Applications(audits + [log]) == Applications(audits)
            + (if log.event.SuggestionApplied? then [(log.event.conflict, log.event.proposal)] else [])
    ensures Derivations(audits + [log]) == Derivations(audits)
            + (if log.event.ProposalFromConflict? then [log.event.proposal] else [])
  {
    assert (audits + [log])[..|audits + [log]| - 1] == audits;
  }

  // ----------------------------------------------------------------- invariants

  function Seconds(pairs: seq<(Id, Id)>): seq<Id> {
    seq(|pairs|, n requires 0 <= n < |pairs| => pairs[n].1)
  }

  // The resolver is recorded exactly on resolved and closed conflicts, and the
  // rank bounds the number of moves.
  ghost predicate ConflictOk(db: Db, i: Id)
    requires i < |db.conflicts|
  {
    && (db.conflicts[i].resolvedBy.Some? <==> Settles(db.conflicts[i].state))
    && Moves(db.audits, i) <= Rank(db.conflicts[i].state)
  }

  ghost predicate ConflictsOk(s: Sys) {
    && (forall i :: 0 <= i < |s.db.conflicts| ==> ConflictOk(s.db, i))
    && (forall i :: i >= |s.db.conflicts| ==> Moves(s.db.audits, i) == 0)
  }

  // Proposal p carries out the suggestion of conflict c, for the parcel and with
  // the observations and tolerance of the proposal the conflict was found in.
  ghost predicate CarriesOut(db: Db, c: Id, p: Id) {
    && c < |db.conflicts| && p < |db.proposals|
    && db.conflicts[c].suggestion == Some(db.proposals[p].geometry)
    && db.conflicts[c].proposalId < |db.proposals|
    && var source := db.proposals[db.conflicts[c].proposalId];
    && db.proposals[p].parcelId == source.parcelId
    && db.proposals[p].observationIds == source.observationIds
    && db.proposals[p].tolerance == source.tolerance
  }

  // Applied suggestions: no conflict twice, no proposal twice, each conflict
  // settled for good, and both kinds of audit entry tell the same story.
  ghost predicate DerivedOk(s: Sys) {
    && (forall n :: 0 <= n < |s.derived| ==>
          s.derived[n].0 < |s.db.conflicts| && Settles(s.db.conflicts[s.derived[n].0].state))
    && (forall n :: 0 <= n < |s.derived| ==> s.derived[n].1 < |s.db.proposals|)
    && (forall n :: 0 <= n < |s.derived| ==> CarriesOut(s.db, s.derived[n].0, s.derived[n].1))
    && (forall m, n :: 0 <= m < n < |s.derived| ==> s.derived[m].0 != s.derived[n].0 && s.derived[m].1 < s.derived[n].1)
    && Applications(s.db.audits) == s.derived
    && Derivations(s.db.audits) == Seconds(s.derived)
  }

  // --------------------------------------------------------- one transaction

  // Detection adds conflicts that have not moved.
  lemma {:induction false} DetectedCounts(db: Db, actor: Actor, rows: seq<Conflict>, i: Id)
    requires InsertDetected(db, actor, rows).Some?
    ensures var t := InsertDetected(db, actor, rows).value;
            && Moves(t.audits, i) == Moves(db.audits, i)
            && Applications(t.audits) == Applications(db.audits)
            && Derivations(t.audits) == Derivations(db.audits)
  {
    hide Trim;
    if rows != [] {
      var front, last := rows[..|rows| - 1], rows[|rows| - 1];
      DetectedCounts(db, actor, front, i);
      var t := InsertDetected(db, actor, front).value;
      Append(t.audits, AuditLog(actor.id, actor.requestId, ConflictDetected(|t.conflicts|, last)), i);
    }
  }

  lemma DetectionCounts(db: Db, c: Call, i: Id)
    requires c.pending.DetectReady?
    requires var p := c.pending;
             CommitDetection(db, c.actor, p.proposalId, p.key, p.requestHash, p.inputHash, p.rows).Some?
    ensures var p := c.pending;
            var t := CommitDetection(db, c.actor, p.proposalId, p.key, p.requestHash, p.inputHash, p.rows).value;
            && t.conflicts == db.conflicts + p.rows && t.proposals == db.proposals
            && Moves(t.audits, i) == Moves(db.audits, i)
            && Applications(t.audits) == Applications(db.audits)
            && Derivations(t.audits) == Derivations(db.audits)
  {
    hide Trim, InsertDetected, Moves, Applications, Derivations, RunTaken;
    var p := c.pending;
    DetectedAppends(db, c.actor, p.rows);
    DetectedCounts(db, c.actor, p.rows, i);
    var d := InsertDetected(db, c.actor, p.rows).value;
    Append(d.audits, AuditLog(c.actor.id, c.actor.requestId,
           DetectionCompleted(|db.runs|,
             RunOf(db, c.actor, p.proposalId, p.key, p.requestHash, p.inputHash, |p.rows|))), i);
  }

  // The entries a transaction other than detection writes.
  function Entries(s: Sys, c: Call): seq<AuditLog> {
    var log := (event: AuditEvent) => AuditLog(c.actor.id, c.actor.requestId, event);
    match c.pending
    case NewParcel(parcel) => [log(ParcelCreated(|s.db.parcels|, parcel))]
    case ParcelUpdate(id, before, after, _) => [log(ParcelUpdated(id, before, after))]
    case NewObservation(row) => [log(ObservationImported(|s.db.observations|, row))]
    case ObservationMove(id, loaded, to, replacement, note) =>
      [log(ObservationChanged(id, loaded, to, loaded.version + 1, replacement, note))]
    case NewProposal(row) => [log(ProposalCreated(|s.db.proposals|, row))]
    case ProposalMove(id, loaded, to, _) => [log(ProposalChanged(id, loaded, to, loaded.version + 1))]
    case ConflictMove(id, loaded, to) => [log(ConflictChanged(id, loaded, to))]
    case ApplyReady(id, loaded, derived) =>
      [log(ProposalFromConflict(|s.db.proposals|, derived)), log(SuggestionApplied(id, loaded, |s.db.proposals|))]
    case _ => []
  }

  lemma CommittedEntries(s: Sys, c: Call)
    requires Committed(s, c).Some? && !c.pending.DetectReady?
    ensures Ready(c.pending)
    ensures Committed(s, c).value.db.audits == s.db.audits + Entries(s, c)
  {
    hide Trim, ParcelCodeTaken, ObservationCodeTaken;
  }

  lemma EntriesCount(s: Sys, c: Call, i: Id)
    requires Committed(s, c).Some? && !c.pending.DetectReady?
    ensures var t := Committed(s, c).value;
            && Moves(t.db.audits, i) == Moves(s.db.audits, i)
               + (if (c.pending.ConflictMove? || c.pending.ApplyReady?) && c.pending.id == i then 1 else 0)
            && Applications(t.db.audits) == Applications(s.db.audits)
               + (if c.pending.ApplyReady? then [(c.pending.id, |s.db.proposals|)] else [])
            && Derivations(t.db.audits) == Derivations(s.db.audits)
               + (if c.pending.ApplyReady? then [|s.db.proposals|] else [])
  {
    hide Committed, Moves, Applications, Derivations;
    CommittedEntries(s, c);
    var entries := Entries(s, c);
    if c.pending.ApplyReady? {
      Append(s.db.audits, entries[0], i);
      Append(s.db.audits + [entries[0]], entries[1], i);
      assert s.db.audits + entries == s.db.audits + [entries[0]] + [entries[1]];
    } else {
      assert |entries| == 1;
      Append(s.db.audits, entries[0], i);
      assert entries == [entries[0]];
    }
  }

  lemma ConflictTable(s: Sys, c: Call)
    requires Committed(s, c).Some? && !c.pending.DetectReady?
    ensures if c.pending.ConflictMove? || c.pending.ApplyReady? then
              var to := if c.pending.ConflictMove? then c.pending.toConflict else Resolved;
              && c.pending.id < |s.db.conflicts|
              && Committed(s, c).value.db.conflicts ==
                   s.db.conflicts[c.pending.id :=
                     MovedConflict(s.db.conflicts[c.pending.id], to, ResolverFor(to, c.actor))]
            else Committed(s, c).value.db.conflicts == s.db.conflicts
  {
    hide Trim, ParcelCodeTaken, ObservationCodeTaken;
  }

  lemma CommittedConflict(e: Engine, s: Sys, c: Call, i: Id)
    requires CallOk(e, s, c) && ConflictsOk(s) && Committed(s, c).Some? && !c.pending.DetectReady?
    ensures |Committed(s, c).value.db.conflicts| == |s.db.conflicts|
    ensures if i < |s.db.conflicts| then ConflictOk(Committed(s, c).value.db, i)
            else Moves(Committed(s, c).value.db.audits, i) == 0
  {
    hide Committed, CallOk, Moves, RowsOk;
    EntriesCount(s, c, i);
    ConflictTable(s, c);
    if c.pending.ConflictMove? || c.pending.ApplyReady? {
      ConflictGuard(e, s, c);
      MoveLegal(e, s, c);
    }
    if i < |s.db.conflicts| {
      assert ConflictOk(s.db, i);
    }
  }

  lemma MoveLegal(e: Engine, s: Sys, c: Call)
    requires CallOk(e, s, c) && (c.pending.ConflictMove? || c.pending.ApplyReady?)
    ensures CanConflictTransition(c.pending.conflict.state,
      if c.pending.ConflictMove? then c.pending.toConflict else Resolved)
  {
    hide DeltaOk;
  }

  lemma CommittedConflictsOk(e: Engine, s: Sys, c: Call)
    requires CallOk(e, s, c) && ConflictsOk(s) && Committed(s, c).Some?
    ensures ConflictsOk(Committed(s, c).value)
  {
    hide Committed, CallOk, Moves;
    var t := Committed(s, c).value;
    if c.pending.DetectReady? {
      DetectionConflictsOk(e, s, c);
    } else {
      CommittedConflict(e, s, c, |s.db.conflicts|);
      forall i: Id | i < |t.db.conflicts| ensures ConflictOk(t.db, i) {
        CommittedConflict(e, s, c, i);
      }
      forall i: Id | i >= |t.db.conflicts| ensures Moves(t.db.audits, i) == 0 {
        CommittedConflict(e, s, c, i);
      }
    }
  }

  lemma DetectionConflictsOk(e: Engine, s: Sys, c: Call)
    requires CallOk(e, s, c) && ConflictsOk(s) && c.pending.DetectReady? && Committed(s, c).Some?
    ensures ConflictsOk(Committed(s, c).value)
  {
    hide CommitDetection, Moves;
    var t := Committed(s, c).value;
    forall i: Id ensures Moves(t.db.audits, i) == Moves(s.db.audits, i) {
      DetectionCounts(s.db, c, i);
    }
    DetectionCounts(s.db, c, 0);
    forall i: Id | i < |t.db.conflicts| ensures ConflictOk(t.db, i) {
      if i < |s.db.conflicts| {
        assert ConflictOk(s.db, i);
      } else {
        assert t.db.conflicts[i] == c.pending.rows[i - |s.db.conflicts|];
        assert Moves(s.db.audits, i) == 0;
      }
    }
  }

  lemma CarriesOutStable(s: Sys, t: Sys, c: Id, p: Id)
    requires Evolves(s, t) && CarriesOut(s.db, c, p)
    ensures CarriesOut(t.db, c, p)
  {
    assert ConflictLater(s.db.conflicts[c], t.db.conflicts[c]);
    assert ProposalLater(s.db.proposals[p], t.db.proposals[p]);
    var source := s.db.conflicts[c].proposalId;
    assert ProposalLater(s.db.proposals[source], t.db.proposals[source]);
  }

  lemma CommittedDerived(e: Engine, s: Sys, c: Call)
    requires RowsOk(e, s) && CallOk(e, s, c) && DerivedOk(s) && Committed(s, c).Some?
    ensures DerivedOk(Committed(s, c).value)
  {
    hide CallOk, Committed, Applications, Derivations, Moves, CarriesOut;
    var t := Committed(s, c).value;
    CommittedBase(e, s, c);
    forall n | 0 <= n < |s.derived| ensures CarriesOut(t.db, s.derived[n].0, s.derived[n].1) {
      CarriesOutStable(s, t, s.derived[n].0, s.derived[n].1);
    }
    if c.pending.DetectReady? {
      DetectionDerived(s, c);
    } else {
      EntriesCount(s, c, 0);
      DerivedField(s, c);
      if c.pending.ApplyReady? {
        ApplyFresh(e, s, c);
      }
    }
    forall n | 0 <= n < |s.derived| ensures Settles(t.db.conflicts[s.derived[n].0].state) {
      var i := s.derived[n].0;
      assert ConflictLater(s.db.conflicts[i], t.db.conflicts[i]);
    }
    assert Derivations(t.db.audits) == Seconds(t.derived);
  }

  lemma DetectionDerived(s: Sys, c: Call)
    requires c.pending.DetectReady? && Committed(s, c).Some?
    ensures Committed(s, c).value.derived == s.derived
    ensures Applications(Committed(s, c).value.db.audits) == Applications(s.db.audits)
    ensures Derivations(Committed(s, c).value.db.audits) == Derivations(s.db.audits)
  {
    hide CommitDetection, Applications, Derivations, Moves;
    DetectionCounts(s.db, c, 0);
  }

  lemma DerivedField(s: Sys, c: Call)
    requires Committed(s, c).Some?
    ensures Committed(s, c).value.derived
         == s.derived + (if c.pending.ApplyReady? then [(c.pending.id, |s.db.proposals|)] else [])
  {
    hide CommitParcel, CommitParcelUpdate, CommitImport, CommitObservation, CommitProposal, CommitProposalMove,
         CommitConflict, CommitApply, CommitDetection;
  }

  // The applied conflict was waiting for its resolution, so it was never
  // applied before.
  lemma ApplyFresh(e: Engine, s: Sys, c: Call)
    requires CallOk(e, s, c) && DerivedOk(s) && c.pending.ApplyReady? && Committed(s, c).Some?
    ensures c.pending.id < |s.db.conflicts| && !Settles(s.db.conflicts[c.pending.id].state)
    ensures var t := Committed(s, c).value;
            && |t.db.conflicts| == |s.db.conflicts| && Settles(t.db.conflicts[c.pending.id].state)
            && |t.db.proposals| == |s.db.proposals| + 1
    ensures forall n :: 0 <= n < |s.derived| ==> s.derived[n].0 != c.pending.id && s.derived[n].1 < |s.db.proposals|
    ensures CarriesOut(Committed(s, c).value.db, c.pending.id, |s.db.proposals|)
  {
    hide Trim, Applications, Derivations, DeltaOk;
    ConflictGuard(e, s, c);
  }

  // ---------------------------------------------------------------- every run

  lemma StepConflicts(e: Engine, s: Sys, a: Action)
    requires Base(e, s) && ConflictsOk(s) && DerivedOk(s)
    ensures ConflictsOk(Step(e, s, a)) && DerivedOk(Step(e, s, a))
  {
    hide Committed, RowsOk, CallOk, Step, Moves, Applications, Derivations;
    StepShape(e, s, a);
    if WillCommit(s, a) {
      var c := s.calls[a.call];
      CommittedConflictsOk(e, s, c);
      CommittedDerived(e, s, c);
    }
  }

  lemma {:induction false} ConflictInvariants(e: Engine, actions: seq<Action>)
    ensures ConflictsOk(Run(e, actions)) && DerivedOk(Run(e, actions))
  {
    hide Step;
    if actions != [] {
      var front := actions[..|actions| - 1];
      ConflictInvariants(e, front);
      RunBase(e, front);
      StepConflicts(e, Run(e, front), actions[|actions| - 1]);
    }
  }

  // No conflict moves more than four times.
  lemma AtMostFourMoves(e: Engine, actions: seq<Action>, i: Id)
    ensures Moves(Run(e, actions).db.audits, i) <= 4
  {
    hide Run, Moves;
    ConflictInvariants(e, actions);
    var s := Run(e, actions);
    if i < |s.db.conflicts| {
      assert ConflictOk(s.db, i);
    }
  }

  // At most one proposal is derived from a conflict, the conflict is then
  // settled, and there are as many derived proposals as entries of each kind.
  lemma AppliedOnce(e: Engine, actions: seq<Action>, m: nat, n: nat)
    requires m < |Run(e, actions).derived| && n < |Run(e, actions).derived|
    ensures var s := Run(e, actions);
            && (s.derived[m].0 == s.derived[n].0 ==> m == n)
            && (s.derived[m].1 == s.derived[n].1 ==> m == n)
            && s.derived[m].0 < |s.db.conflicts| && Settles(s.db.conflicts[s.derived[m].0].state)
            && |Applications(s.db.audits)| == |s.derived| == |Derivations(s.db.audits)|
  {
    hide Run, ConflictsOk;
    ConflictInvariants(e, actions);
  }

  // In every run a derived proposal still has the geometry its conflict suggests,
  // and the parcel, observations and tolerance of the source proposal.
  lemma SuggestionCarriedOut(e: Engine, actions: seq<Action>, n: nat)
    requires n < |Run(e, actions).derived|
    ensures var db, (c, p) := Run(e, actions).db, Run(e, actions).derived[n];
            && c < |db.conflicts| && p < |db.proposals| && db.conflicts[c].proposalId < |db.proposals|
            && var source := db.proposals[db.conflicts[c].proposalId];
            && db.conflicts[c].suggestion == Some(db.proposals[p].geometry)
            && db.proposals[p].parcelId == source.parcelId
            && db.proposals[p].observationIds == source.observationIds
            && db.proposals[p].tolerance == source.tolerance
  {
    hide Run, ConflictsOk;
    ConflictInvariants(e, actions);
    assert CarriesOut(Run(e, actions).db, Run(e, actions).derived[n].0, Run(e, actions).derived[n].1);
  }

  // Applying a suggestion adds one draft, resolves the conflict, and touches no
  // other row: not the source proposal, not the parcel.
  lemma ApplyTouchesOnly(e: Engine, s: Sys, c: Call)
    requires Reachable(e, s) && c in s.calls.Values && c.pending.ApplyReady? && Committed(s, c).Some?
    ensures c.pending.id < |s.db.conflicts|
    ensures var t, id := Committed(s, c).value, c.pending.id;
            && t.db == s.db.(
                 proposals := s.db.proposals + [c.pending.derived],
                 conflicts := s.db.conflicts[id :=
                   s.db.conflicts[id].(state := Resolved, resolvedBy := Some(c.actor.id))],
                 audits := t.db.audits)
            && c.pending.derived.state == ProposalState.Draft && c.pending.derived.reviewedBy == None
            && c.pending.derived.createdBy == c.actor.id
            && s.db.conflicts[id].suggestion == Some(c.pending.derived.geometry)
  {
    hide Trim, DeltaOk, Reachable;
    ReachableCall(e, s, c);
  }

  lemma ReachableConflict(e: Engine, s: Sys, i: Id)
    requires Reachable(e, s) && i < |s.db.conflicts|
    ensures ConflictOk(s.db, i)
  {
    hide Run, DerivedOk;
    var actions :| s == Run(e, actions);
    ConflictInvariants(e, actions);
  }

  // The row a transition returns is the stored one.
  lemma ConflictResponseExact(e: Engine, s: Sys, c: Call)
    requires Reachable(e, s) && c in s.calls.Values && c.pending.ConflictMove? && Committed(s, c).Some?
    ensures ConflictResponse(c.pending.conflict, c.pending.toConflict, c.actor)
         == Committed(s, c).value.db.conflicts[c.pending.id]
  {
    hide Trim, Moves, Reachable;
    ReachableCall(e, s, c);
    ConflictGuard(e, s, c);
    ReachableConflict(e, s, c.pending.id);
  }

  // Of two calls that have read the same conflict state, at most one commits.
  lemma LostRace(e: Engine, s: Sys, c: Call, d: Call)
    requires Reachable(e, s) && c in s.calls.Values && d in s.calls.Values
    requires c.pending.ConflictMove? || c.pending.ApplyReady?
    requires d.pending.ConflictMove? || d.pending.ApplyReady?
    requires c.pending.id == d.pending.id && c.pending.conflict.state == d.pending.conflict.state
    requires Committed(s, c).Some?
    ensures Committed(Committed(s, c).value, d).None?
  {
    hide Trim, DeltaOk, Reachable;
    ReachableCall(e, s, c);
    ReachableCall(e, s, d);
    ConflictGuard(e, s, c);
  }
}

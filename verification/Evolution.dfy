// What every step keeps about the rows and about what the calls in flight have
// read: rows only move forward, and a call whose guard still matches the stored
// row has read exactly that row.

module Evolution {
  import opened Options
  import opened Domain
  import opened Database
  import opened Services
  import opened Interleaving

  // ------------------------------------------------- how a row can change

  predicate SameProposal(p: Proposal, q: Proposal) {
    q == p.(state := q.state, version := q.version, rationale := q.rationale, reviewedBy := q.reviewedBy)
  }

  predicate SameObservation(p: Observation, q: Observation) {
    q == p.(state := q.state, version := q.version, replacedBy := q.replacedBy, note := q.note)
  }

  predicate SameConflict(p: Conflict, q: Conflict) {
    q == p.(state := q.state, resolvedBy := q.resolvedBy)
  }

  predicate ProposalLater(p: Proposal, q: Proposal) {
    q == p || (q.version > p.version && SameProposal(p, q))
  }

  // A superseded observation never moves, and one that becomes superseded has a
  // replacement.
  predicate ObservationLater(p: Observation, q: Observation) {
    || q == p
    || (q.version > p.version && SameObservation(p, q)
        && p.state != ObsSuperseded && (q.state == ObsSuperseded ==> q.replacedBy.Some?))
  }

  predicate ConflictLater(p: Conflict, q: Conflict) {
    q == p || (Rank(q.state) > Rank(p.state) && SameConflict(p, q))
  }

  predicate ParcelLater(p: Parcel, q: Parcel) {
    q == p || (q.version > p.version && q.code == p.code)
  }

  ghost predicate Evolves(s: Sys, t: Sys) {
    && |s.db.parcels| <= |t.db.parcels| && |s.db.observations| <= |t.db.observations|
    && |s.db.proposals| <= |t.db.proposals| && |s.db.conflicts| <= |t.db.conflicts|
    && (forall i :: 0 <= i < |s.db.parcels| ==> ParcelLater(s.db.parcels[i], t.db.parcels[i]))
    && (forall i :: 0 <= i < |s.db.observations| ==> ObservationLater(s.db.observations[i], t.db.observations[i]))
    && (forall i :: 0 <= i < |s.db.proposals| ==> ProposalLater(s.db.proposals[i], t.db.proposals[i]))
    && (forall i :: 0 <= i < |s.db.conflicts| ==> ConflictLater(s.db.conflicts[i], t.db.conflicts[i]))
    && |s.history| <= |t.history|
    && (forall i :: 0 <= i < |s.history| ==> s.history[i] <= t.history[i])
  }

  // ----------------------------------------------------- parcels and their past

  ghost predicate ParcelOk(e: Engine, parcel: Parcel, past: seq<string>) {
    && |past| == parcel.version >= 1
    && past[|past| - 1] == parcel.boundary
    && e.polygonArea(parcel.boundary) == Some(parcel.area)
  }

  // The area delta is taken against the boundary of the base version.
  ghost predicate DeltaOk(e: Engine, history: seq<seq<string>>, p: Proposal) {
    && p.parcelId < |history|
    && 1 <= p.baseVersion <= |history[p.parcelId]|
    && e.polygonArea(p.geometry).Some?
    && e.polygonArea(history[p.parcelId][p.baseVersion - 1]).Some?
    && p.areaDelta == e.polygonArea(p.geometry).value - e.polygonArea(history[p.parcelId][p.baseVersion - 1]).value
  }

  // ----------------------------------------------------- what a call has read

  ghost predicate ReadParcel(db: Db, id: Id, before: Parcel) {
    id < |db.parcels| && ParcelLater(before, db.parcels[id])
  }

  ghost predicate ReadObservation(db: Db, id: Id, loaded: Observation) {
    id < |db.observations| && ObservationLater(loaded, db.observations[id])
  }

  ghost predicate ReadProposal(db: Db, id: Id, loaded: Proposal) {
    id < |db.proposals| && ProposalLater(loaded, db.proposals[id])
  }

  ghost predicate ReadConflict(db: Db, id: Id, loaded: Conflict) {
    id < |db.conflicts| && ConflictLater(loaded, db.conflicts[id])
  }

  ghost predicate ReplacementOk(db: Db, id: Id, loaded: Observation, replacement: Id) {
    && replacement != id
    && replacement < |db.observations|
    && db.observations[replacement].parcelId == loaded.parcelId
    && (db.observations[replacement].state == ObsSuperseded ==> db.observations[replacement].replacedBy.Some?)
  }

  ghost predicate NewRow(p: Proposal) {
    p.state == ProposalState.Draft && p.reviewedBy == None
  }

  // The source of a suggestion as it was read.
  ghost predicate ReadSource(db: Db, loaded: Conflict, source: Proposal) {
    loaded.proposalId < |db.proposals| && ProposalLater(source, db.proposals[loaded.proposalId])
  }

  // The row derived from a suggestion: the suggested geometry, and what it takes
  // over from the source proposal, whose version it follows.
  ghost predicate DerivedFrom(db: Db, loaded: Conflict, derived: Proposal) {
    && loaded.suggestion == Some(derived.geometry)
    && loaded.proposalId < |db.proposals|
    && var source := db.proposals[loaded.proposalId];
    && derived.parcelId == source.parcelId && derived.observationIds == source.observationIds
    && derived.tolerance == source.tolerance && derived.version <= source.version + 1
  }

  ghost predicate CallOk(e: Engine, s: Sys, c: Call) {
    match c.pending
    case NewParcel(parcel) => parcel.version == 1 && e.polygonArea(parcel.boundary) == Some(parcel.area)
    case ParcelUpdate(id, before, after, expected) =>
      && ReadParcel(s.db, id, before)
      && after.code == before.code
      && e.polygonArea(after.boundary) == Some(after.area)
    case NewObservation(row) => row.version == 1 && row.replacedBy == None && row.parcelId < |s.db.parcels|
    case Superseding(id, loaded, replacement, note) =>
      ReadObservation(s.db, id, loaded) && loaded.state == ObsAccepted && replacement != id && Trim(note) == note
    case ObservationMove(id, loaded, to, replacement, note) =>
      && ReadObservation(s.db, id, loaded) && Trim(note) == note
      && CanObservationTransition(loaded.state, to)
      && (to == ObsSuperseded <==> replacement.Some?)
      && (replacement.Some? ==> ReplacementOk(s.db, id, loaded, replacement.value))
    case NewProposal(row) => row.version == 1 && NewRow(row) && DeltaOk(e, s.history, row)
    case ProposalMove(id, loaded, to, _) =>
      && ReadProposal(s.db, id, loaded)
      && CanProposalTransition(loaded.state, to)
      && Authorized(loaded.createdBy, to, c.actor)
    case ConflictMove(id, loaded, to) => ReadConflict(s.db, id, loaded) && CanConflictTransition(loaded.state, to)
    case Applying(id, loaded, _) => ReadConflict(s.db, id, loaded) && loaded.state == ResolutionProposed
    case ApplyingFrom(id, loaded, _, source, geometry, area) =>
      && ReadConflict(s.db, id, loaded) && loaded.state == ResolutionProposed
      && e.polygonArea(geometry) == Some(area) && loaded.suggestion == Some(geometry)
      && source.parcelId < |s.history| && ReadSource(s.db, loaded, source)
    case ApplyReady(id, loaded, derived) =>
      && ReadConflict(s.db, id, loaded) && loaded.state == ResolutionProposed
      && NewRow(derived) && DeltaOk(e, s.history, derived)
      && DerivedFrom(s.db, loaded, derived) && derived.createdBy == c.actor.id
    case DetectReady(_, _, _, _, rows) =>
      forall i :: 0 <= i < |rows| ==> rows[i].state == Detected && rows[i].resolvedBy == None
    case _ => true
  }

  ghost predicate RowsOk(e: Engine, s: Sys) {
    && |s.history| == |s.db.parcels|
    && |s.births| == |s.db.proposals|
    && (forall i :: 0 <= i < |s.db.parcels| ==> ParcelOk(e, s.db.parcels[i], s.history[i]))
    && (forall i :: 0 <= i < |s.db.proposals| ==> DeltaOk(e, s.history, s.db.proposals[i]))
  }

  ghost predicate CallsOk(e: Engine, s: Sys) {
    forall k :: k in s.calls ==> CallOk(e, s, s.calls[k])
  }

  ghost predicate Base(e: Engine, s: Sys) {
    RowsOk(e, s) && CallsOk(e, s)
  }

  // ----------------------------------------------------------------- stability

  lemma DeltaStable(e: Engine, h: seq<seq<string>>, g: seq<seq<string>>, p: Proposal)
    requires |h| <= |g| && forall i :: 0 <= i < |h| ==> h[i] <= g[i]
    requires DeltaOk(e, h, p)
    ensures DeltaOk(e, g, p)
  {
  }

  // What a call has read stays true of it while other calls go on.
  lemma CallStable(e: Engine, s: Sys, t: Sys, c: Call)
    requires Evolves(s, t) && CallOk(e, s, c)
    ensures CallOk(e, t, c)
  {
    hide DeltaOk;
    match c.pending {
      case NewProposal(row) => DeltaStable(e, s.history, t.history, row);
      case ApplyReady(_, _, derived) => DeltaStable(e, s.history, t.history, derived);
      case ParcelUpdate(id, before, _, _) => assert ParcelLater(s.db.parcels[id], t.db.parcels[id]);
      case Superseding(id, _, _, _) => assert ObservationLater(s.db.observations[id], t.db.observations[id]);
      case ObservationMove(id, _, _, replacement, _) =>
        assert ObservationLater(s.db.observations[id], t.db.observations[id]);
        if replacement.Some? {
          assert ObservationLater(s.db.observations[replacement.value], t.db.observations[replacement.value]);
        }
      case ProposalMove(id, _, _, _) => assert ProposalLater(s.db.proposals[id], t.db.proposals[id]);
      case ConflictMove(id, _, _) => assert ConflictLater(s.db.conflicts[id], t.db.conflicts[id]);
      case Applying(id, _, _) => assert ConflictLater(s.db.conflicts[id], t.db.conflicts[id]);
      case ApplyingFrom(id, loaded, _, _, _, _) =>
        assert ConflictLater(s.db.conflicts[id], t.db.conflicts[id]);
        assert ProposalLater(s.db.proposals[loaded.proposalId], t.db.proposals[loaded.proposalId]);
      case _ =>
    }
    if c.pending.ApplyReady? {
      var source := c.pending.conflict.proposalId;
      assert ConflictLater(s.db.conflicts[c.pending.id], t.db.conflicts[c.pending.id]);
      assert ProposalLater(s.db.proposals[source], t.db.proposals[source]);
    }
  }

  lemma CallsStable(e: Engine, s: Sys, t: Sys)
    requires Evolves(s, t) && CallsOk(e, s) && t.calls.Keys <= s.calls.Keys
    requires forall k :: k in t.calls ==> t.calls[k] == s.calls[k]
    ensures CallsOk(e, t)
  {
    hide CallOk, Evolves;
    forall k | k in t.calls ensures CallOk(e, t, t.calls[k]) {
      CallStable(e, s, t, s.calls[k]);
    }
  }

  // ----------------------------------------------------- the guards are exact

  // An update guarded by version finds the very row it was computed from.
  lemma ObservationGuard(e: Engine, s: Sys, c: Call)
    requires CallOk(e, s, c) && c.pending.ObservationMove? && Committed(s, c).Some?
    ensures s.db.observations[c.pending.id] == c.pending.loaded
  {
  }

  lemma ProposalGuard(e: Engine, s: Sys, c: Call)
    requires CallOk(e, s, c) && c.pending.ProposalMove? && Committed(s, c).Some?
    ensures s.db.proposals[c.pending.id] == c.pending.proposal
  {
  }

  // A conflict has no version, but no state is ever entered twice.
  lemma ConflictGuard(e: Engine, s: Sys, c: Call)
    requires CallOk(e, s, c) && (c.pending.ConflictMove? || c.pending.ApplyReady?) && Committed(s, c).Some?
    ensures s.db.conflicts[c.pending.id] == c.pending.conflict
  {
  }

  // ------------------------------------------------------- each transaction

  lemma EvolvesReflexive(s: Sys, t: Sys)
    requires t.db == s.db && t.history == s.history
    ensures Evolves(s, t)
  {
  }

  lemma DeltasStable(e: Engine, s: Sys, t: Sys)
    requires RowsOk(e, s) && Evolves(s, t) && t.db.proposals == s.db.proposals
    ensures forall i :: 0 <= i < |t.db.proposals| ==> DeltaOk(e, t.history, t.db.proposals[i])
  {
    hide DeltaOk;
    forall i | 0 <= i < |t.db.proposals| ensures DeltaOk(e, t.history, t.db.proposals[i]) {
      DeltaStable(e, s.history, t.history, s.db.proposals[i]);
    }
  }

  lemma CommittedParcel(e: Engine, s: Sys, c: Call)
    requires RowsOk(e, s) && CallOk(e, s, c) && c.pending.NewParcel? && Committed(s, c).Some?
    ensures Evolves(s, Committed(s, c).value) && RowsOk(e, Committed(s, c).value)
  {
    hide DeltaOk, ParcelCodeTaken, Trim;
    DeltasStable(e, s, Committed(s, c).value);
  }

  lemma CommittedUpdate(e: Engine, s: Sys, c: Call)
    requires RowsOk(e, s) && CallOk(e, s, c) && c.pending.ParcelUpdate? && Committed(s, c).Some?
    ensures Evolves(s, Committed(s, c).value) && RowsOk(e, Committed(s, c).value)
  {
    hide DeltaOk, Trim;
    var t := Committed(s, c).value;
    assert Evolves(s, t);
    DeltasStable(e, s, t);
  }

  lemma CommittedObservations(e: Engine, s: Sys, c: Call)
    requires RowsOk(e, s) && CallOk(e, s, c) && Committed(s, c).Some?
    requires c.pending.NewObservation? || c.pending.ObservationMove?
    ensures Evolves(s, Committed(s, c).value) && RowsOk(e, Committed(s, c).value)
  {
    hide DeltaOk, ParcelOk, ObservationCodeTaken, Trim;
  }

  lemma MovedDelta(e: Engine, history: seq<seq<string>>, p: Proposal, to: ProposalState, updates: ProposalUpdates)
    requires DeltaOk(e, history, p)
    ensures DeltaOk(e, history, MovedProposal(p, to, updates))
  {
  }

  lemma CommittedProposal(e: Engine, s: Sys, c: Call)
    requires RowsOk(e, s) && CallOk(e, s, c) && Committed(s, c).Some? && c.pending.NewProposal?
    ensures Evolves(s, Committed(s, c).value) && RowsOk(e, Committed(s, c).value)
  {
    hide ParcelOk, DeltaOk, Trim;
  }

  lemma CommittedProposalMove(e: Engine, s: Sys, c: Call)
    requires RowsOk(e, s) && CallOk(e, s, c) && Committed(s, c).Some? && c.pending.ProposalMove?
    ensures Evolves(s, Committed(s, c).value) && RowsOk(e, Committed(s, c).value)
  {
    hide ParcelOk, DeltaOk, Trim;
    ProposalGuard(e, s, c);
    var p := c.pending;
    MovedDelta(e, s.history, p.proposal, p.toProposal, UpdatesFor(p.toProposal, p.rationale, c.actor));
  }

  lemma CommittedConflicts(e: Engine, s: Sys, c: Call)
    requires RowsOk(e, s) && CallOk(e, s, c) && Committed(s, c).Some?
    requires c.pending.ConflictMove? || c.pending.ApplyReady?
    ensures Evolves(s, Committed(s, c).value) && RowsOk(e, Committed(s, c).value)
  {
    hide ParcelOk, DeltaOk, Trim;
    ConflictGuard(e, s, c);
  }

  // Recording detected conflicts only appends to the conflicts and the audit.
  lemma {:induction false} DetectedAppends(db: Db, actor: Actor, rows: seq<Conflict>)
    requires InsertDetected(db, actor, rows).Some?
    ensures var t := InsertDetected(db, actor, rows).value;
            t == db.(conflicts := db.conflicts + rows, audits := t.audits) && db.audits <= t.audits
  {
    hide Trim;
    if rows != [] {
      DetectedAppends(db, actor, rows[..|rows| - 1]);
      assert rows == rows[..|rows| - 1] + [rows[|rows| - 1]];
    }
  }

  lemma CommittedDetection(e: Engine, s: Sys, c: Call)
    requires RowsOk(e, s) && CallOk(e, s, c) && c.pending.DetectReady? && Committed(s, c).Some?
    ensures Evolves(s, Committed(s, c).value) && RowsOk(e, Committed(s, c).value)
  {
    hide ParcelOk, DeltaOk, Trim, InsertDetected, RunTaken;
    DetectedAppends(s.db, c.actor, c.pending.rows);
  }

  lemma CommittedBase(e: Engine, s: Sys, c: Call)
    requires RowsOk(e, s) && CallOk(e, s, c) && Committed(s, c).Some?
    ensures Evolves(s, Committed(s, c).value) && RowsOk(e, Committed(s, c).value)
    ensures Committed(s, c).value.calls == s.calls
  {
    hide RowsOk, CallOk, Evolves, CommitParcel, CommitParcelUpdate, CommitImport, CommitObservation, CommitProposal,
         CommitProposalMove, CommitConflict, CommitApply, CommitDetection;
    match c.pending {
      case NewParcel(_) => CommittedParcel(e, s, c);
      case ParcelUpdate(_, _, _, _) => CommittedUpdate(e, s, c);
      case NewObservation(_) => CommittedObservations(e, s, c);
      case ObservationMove(_, _, _, _, _) => CommittedObservations(e, s, c);
      case NewProposal(_) => CommittedProposal(e, s, c);
      case ProposalMove(_, _, _, _) => CommittedProposalMove(e, s, c);
      case ConflictMove(_, _, _) => CommittedConflicts(e, s, c);
      case ApplyReady(_, _, _) => CommittedConflicts(e, s, c);
      case DetectReady(_, _, _, _, _) => CommittedDetection(e, s, c);
      case _ =>
    }
  }

  // -------------------------------------------------------------- each read

  lemma StartOk(e: Engine, s: Sys, k: nat, actor: Actor, r: Request)
    requires Base(e, s) && k !in s.calls
    ensures Base(e, Start(e, s, k, actor, r)) && Evolves(s, Start(e, s, k, actor, r))
    ensures Start(e, s, k, actor, r).db == s.db
  {
    hide FindRun, Replay, RequestHash, Trim, Upper;
    var t := Start(e, s, k, actor, r);
    EvolvesReflexive(s, t);
    forall j | j in t.calls && j != k ensures CallOk(e, t, t.calls[j]) {
      CallStable(e, s, t, s.calls[j]);
    }
    if k in t.calls {
      StartCallOk(e, s, k, actor, r);
    }
  }

  lemma StartCallOk(e: Engine, s: Sys, k: nat, actor: Actor, r: Request)
    requires RowsOk(e, s) && k !in s.calls && k in Start(e, s, k, actor, r).calls
    ensures CallOk(e, Start(e, s, k, actor, r), Start(e, s, k, actor, r).calls[k])
  {
    hide FindRun, Replay, RequestHash, Trim, Upper;
    if r.TransitionObservation? {
      TrimTwice(r.note);
    }
  }

  lemma NextOk(e: Engine, s: Sys, k: nat)
    requires Base(e, s) && k in s.calls
    ensures Base(e, Next(e, s, k, s.calls[k])) && Evolves(s, Next(e, s, k, s.calls[k]))
    ensures Next(e, s, k, s.calls[k]).db == s.db
  {
    hide Trim, DefaultRationale;
    var t := Next(e, s, k, s.calls[k]);
    EvolvesReflexive(s, t);
    forall j | j in t.calls && j != k ensures CallOk(e, t, t.calls[j]) {
      CallStable(e, s, t, s.calls[j]);
    }
    if k in t.calls {
      NextCallOk(e, s, k);
    }
  }

  lemma NextCallOk(e: Engine, s: Sys, k: nat)
    requires Base(e, s) && k in s.calls && k in Next(e, s, k, s.calls[k]).calls
    ensures CallOk(e, Next(e, s, k, s.calls[k]), Next(e, s, k, s.calls[k]).calls[k])
  {
    hide Trim, DefaultRationale;
  }

  // ------------------------------------------------------------- every step

  // Nothing stored has changed, though a call may have read or been answered.
  ghost predicate Quiet(s: Sys, t: Sys) {
    && t.db == s.db && t.births == s.births && t.history == s.history
    && t.derived == s.derived && t.retired == s.retired
  }

  // The step is a transaction that goes through.
  ghost predicate WillCommit(s: Sys, a: Action) {
    && a.Commit? && a.call in s.calls
    && Ready(s.calls[a.call].pending) && Committed(s, s.calls[a.call]).Some?
  }

  lemma StepShape(e: Engine, s: Sys, a: Action)
    ensures if WillCommit(s, a)
            then Step(e, s, a) == Committed(s, s.calls[a.call]).value.(calls := s.calls - {a.call})
            else Quiet(s, Step(e, s, a))
  {
    hide Committed, Fallback, LoadDetection, LoadCreateParcel, LoadUpdateParcel, LoadImport, LoadObservation,
         LoadCreateProposal, LoadProposal, LoadConflict, LoadApply, CheckReplacement, LoadSource, LoadTarget;
  }

  lemma StepBase(e: Engine, s: Sys, a: Action)
    requires Base(e, s)
    ensures Base(e, Step(e, s, a)) && Evolves(s, Step(e, s, a))
  {
    hide RowsOk, CallOk, Start, Next, Evolves, Committed;
    var t := Step(e, s, a);
    match a {
      case Begin(k, actor, r) =>
        EvolvesReflexive(s, s);
        if k !in s.calls {
          StartOk(e, s, k, actor, r);
        }
      case Advance(k) =>
        EvolvesReflexive(s, s);
        if k in s.calls {
          NextOk(e, s, k);
        }
      case Commit(k) =>
        if k in s.calls && Ready(s.calls[k].pending) && Committed(s, s.calls[k]).Some? {
          CommittedBase(e, s, s.calls[k]);
          var done := Committed(s, s.calls[k]).value;
          SameRows(e, done, t);
          SameEvolution(s, done, t);
          CallsStable(e, s, t);
        } else {
          QuietStep(e, s, a);
        }
      case _ => QuietStep(e, s, a);
    }
  }

  lemma SameRows(e: Engine, s: Sys, t: Sys)
    requires t.db == s.db && t.history == s.history && t.births == s.births && RowsOk(e, s)
    ensures RowsOk(e, t)
  {
  }

  lemma SameEvolution(s: Sys, t: Sys, u: Sys)
    requires u.db == t.db && u.history == t.history && Evolves(s, t)
    ensures Evolves(s, u)
  {
  }

  // A step that neither reads nor goes through with a transaction.
  ghost predicate NoRead(s: Sys, a: Action) {
    !a.Begin? && !a.Advance? && !WillCommit(s, a)
  }

  // A call that such a step changes has at most been given its rows.
  lemma QuietCall(e: Engine, s: Sys, a: Action, j: nat)
    requires NoRead(s, a)
    requires j in Step(e, s, a).calls
    ensures (j in s.calls && Step(e, s, a).calls[j] == s.calls[j]) || CallOk(e, Step(e, s, a), Step(e, s, a).calls[j])
  {
    hide Committed, Fallback, FindRun;
  }

  lemma QuietShape(e: Engine, s: Sys, a: Action)
    requires NoRead(s, a)
    ensures Quiet(s, Step(e, s, a))
  {
    hide Committed, Fallback;
  }

  lemma QuietStep(e: Engine, s: Sys, a: Action)
    requires Base(e, s)
    requires NoRead(s, a)
    ensures Base(e, Step(e, s, a)) && Evolves(s, Step(e, s, a))
  {
    hide RowsOk, Committed, CallOk, Step, Evolves;
    var t := Step(e, s, a);
    QuietShape(e, s, a);
    EvolvesReflexive(s, t);
    SameRows(e, s, t);
    forall j | j in t.calls ensures CallOk(e, t, t.calls[j]) {
      QuietCall(e, s, a, j);
      if j in s.calls && t.calls[j] == s.calls[j] {
        CallStable(e, s, t, s.calls[j]);
      }
    }
  }

  lemma {:induction false} RunBase(e: Engine, actions: seq<Action>)
    ensures Base(e, Run(e, actions))
  {
    hide Step;
    if actions != [] {
      RunBase(e, actions[..|actions| - 1]);
      StepBase(e, Run(e, actions[..|actions| - 1]), actions[|actions| - 1]);
    }
  }

  ghost predicate Reachable(e: Engine, s: Sys) {
    exists actions :: s == Run(e, actions)
  }

  lemma ReachableCall(e: Engine, s: Sys, c: Call)
    requires Reachable(e, s) && c in s.calls.Values
    ensures CallOk(e, s, c)
  {
    hide Run, RowsOk, CallOk;
    var actions :| s == Run(e, actions);
    RunBase(e, actions);
  }

  // In every reachable state, a guarded update that goes through replaces the
  // very row the call had loaded.
  lemma CommitFindsWhatWasRead(e: Engine, s: Sys, c: Call)
    requires Reachable(e, s) && c in s.calls.Values && Committed(s, c).Some?
    ensures match c.pending
            case ObservationMove(id, loaded, _, _, _) => id < |s.db.observations| && s.db.observations[id] == loaded
            case ProposalMove(id, loaded, _, _) => id < |s.db.proposals| && s.db.proposals[id] == loaded
            case ConflictMove(id, loaded, _) => id < |s.db.conflicts| && s.db.conflicts[id] == loaded
            case ApplyReady(id, loaded, _) => id < |s.db.conflicts| && s.db.conflicts[id] == loaded
            case _ => true
  {
    hide Reachable, DeltaOk, Trim;
    ReachableCall(e, s, c);
    match c.pending {
      case ObservationMove(_, _, _, _, _) => ObservationGuard(e, s, c);
      case ProposalMove(_, _, _, _) => ProposalGuard(e, s, c);
      case ConflictMove(_, _, _) => ConflictGuard(e, s, c);
      case ApplyReady(_, _, _) => ConflictGuard(e, s, c);
      case _ =>
    }
  }

  // A guarded update of a proposal, an observation or a conflict goes through if
  // and only if the stored row is the one the call had loaded and the request has
  // an id; a parcel update, if and only if the version it names is the stored one.
  lemma CommitsExactly(e: Engine, s: Sys, c: Call)
    requires Reachable(e, s) && c in s.calls.Values
    ensures match c.pending
            case ObservationMove(id, loaded, _, _, _) =>
              && id < |s.db.observations|
              && (Committed(s, c).Some? <==> s.db.observations[id] == loaded && Trim(c.actor.requestId) != "")
            case ProposalMove(id, loaded, _, _) =>
              && id < |s.db.proposals|
              && (Committed(s, c).Some? <==> s.db.proposals[id] == loaded && Trim(c.actor.requestId) != "")
            case ConflictMove(id, loaded, _) =>
              && id < |s.db.conflicts|
              && (Committed(s, c).Some? <==> s.db.conflicts[id] == loaded && Trim(c.actor.requestId) != "")
            case ApplyReady(id, loaded, _) =>
              && id < |s.db.conflicts|
              && (Committed(s, c).Some? <==> s.db.conflicts[id] == loaded && Trim(c.actor.requestId) != "")
            case ParcelUpdate(id, _, _, expected) =>
              && id < |s.db.parcels|
              && (Committed(s, c).Some? <==> s.db.parcels[id].version == expected && Trim(c.actor.requestId) != "")
            case _ => true
  {
    hide Reachable, DeltaOk, Trim;
    ReachableCall(e, s, c);
  }

  // Both calls have read the same row.
  ghost predicate ReadSameRow(c: Call, d: Call) {
    match (c.pending, d.pending)
    case (ObservationMove(id, loaded, _, _, _), ObservationMove(other, row, _, _, _)) => id == other && loaded == row
    case (ProposalMove(id, loaded, _, _), ProposalMove(other, row, _, _)) => id == other && loaded == row
    case _ => false
  }

  // Of two calls that have read the same row, at most one commits.
  lemma SecondCommitFails(e: Engine, s: Sys, c: Call, d: Call)
    requires Reachable(e, s) && c in s.calls.Values && d in s.calls.Values && ReadSameRow(c, d)
    requires Committed(s, c).Some?
    ensures Committed(Committed(s, c).value, d).None?
  {
    hide Reachable, DeltaOk, Trim;
    ReachableCall(e, s, c);
    match c.pending {
      case ObservationMove(_, _, _, _, _) => ObservationGuard(e, s, c);
      case ProposalMove(_, _, _, _) => ProposalGuard(e, s, c);
      case _ =>
    }
  }

  lemma EvolvesTransitive(s: Sys, t: Sys, u: Sys)
    requires Evolves(s, t) && Evolves(t, u)
    ensures Evolves(s, u)
  {
    forall i | 0 <= i < |s.db.parcels| ensures ParcelLater(s.db.parcels[i], u.db.parcels[i]) {
      assert ParcelLater(s.db.parcels[i], t.db.parcels[i]) && ParcelLater(t.db.parcels[i], u.db.parcels[i]);
    }
    forall i | 0 <= i < |s.db.observations| ensures ObservationLater(s.db.observations[i], u.db.observations[i]) {
      assert ObservationLater(s.db.observations[i], t.db.observations[i]);
      assert ObservationLater(t.db.observations[i], u.db.observations[i]);
    }
    forall i | 0 <= i < |s.db.proposals| ensures ProposalLater(s.db.proposals[i], u.db.proposals[i]) {
      assert ProposalLater(s.db.proposals[i], t.db.proposals[i]) && ProposalLater(t.db.proposals[i], u.db.proposals[i]);
    }
    forall i | 0 <= i < |s.db.conflicts| ensures ConflictLater(s.db.conflicts[i], u.db.conflicts[i]) {
      assert ConflictLater(s.db.conflicts[i], t.db.conflicts[i]) && ConflictLater(t.db.conflicts[i], u.db.conflicts[i]);
    }
    forall i | 0 <= i < |s.history| ensures s.history[i] <= u.history[i] {
      assert s.history[i] <= t.history[i] && t.history[i] <= u.history[i];
    }
  }

  // As a run goes on, no row is lost, and rows only move forward.
  lemma {:induction false} RowsMoveForward(e: Engine, actions: seq<Action>, more: seq<Action>)
    ensures Evolves(Run(e, actions), Run(e, actions + more))
    decreases more
  {
    hide Step, Base, Evolves;
    if more == [] {
      assert actions + more == actions;
      EvolvesReflexive(Run(e, actions), Run(e, actions));
    } else {
      var front := more[..|more| - 1];
      RowsMoveForward(e, actions, front);
      assert (actions + more)[..|actions + more| - 1] == actions + front;
      RunBase(e, actions + front);
      StepBase(e, Run(e, actions + front), more[|more| - 1]);
      EvolvesTransitive(Run(e, actions), Run(e, actions + front), Run(e, actions + more));
    }
  }
}

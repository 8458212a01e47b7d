// The review life of a proposal under any interleaving of calls.

module ProposalLifecycle {
  import opened Options
  import opened Domain
  import opened Database
  import opened Services
  import opened Interleaving
  import opened Evolution

  // Steps since the last draft.
  function Phase(state: ProposalState): nat {
    match state
    case Draft => 0
    case Validated => 1
    case Submitted => 2
    case Reviewed => 3
    case Accepted => 4
    case Rejected => 4
    case Revision => 4
  }

  // The version counts the moves since birth; a review has happened exactly when
  // there were three of them, and never by the author.
  ghost predicate PhaseOk(p: Proposal, birth: nat) {
    && p.version >= birth
    && (p.version - birth) % 5 == Phase(p.state)
    && (p.reviewedBy.Some? <==> p.version - birth >= 3)
    && p.reviewedBy != Some(p.createdBy)
  }

  ghost predicate PhasesOk(s: Sys) {
    && |s.births| == |s.db.proposals|
    && forall i :: 0 <= i < |s.db.proposals| ==> PhaseOk(s.db.proposals[i], s.births[i])
  }

  lemma MovedPhase(p: Proposal, birth: nat, to: ProposalState, rationale: string, actor: Actor)
    requires PhaseOk(p, birth) && CanProposalTransition(p.state, to) && Authorized(p.createdBy, to, actor)
    ensures PhaseOk(MovedProposal(p, to, UpdatesFor(to, rationale, actor)), birth)
  {
    var n := p.version - birth;
    assert (n + 1) % 5 == (n % 5 + 1) % 5;
  }

  lemma CommittedPhases(e: Engine, s: Sys, c: Call)
    requires PhasesOk(s) && CallOk(e, s, c) && Committed(s, c).Some?
    ensures PhasesOk(Committed(s, c).value)
  {
    hide PhaseOk, DeltaOk, Trim, InsertDetected, RunTaken, ParcelCodeTaken, ObservationCodeTaken;
    var t := Committed(s, c).value;
    match c.pending {
      case ProposalMove(id, loaded, to, rationale) =>
        ProposalGuard(e, s, c);
        MovedPhase(loaded, s.births[id], to, rationale, c.actor);
      case NewProposal(row) => NewPhase(row);
      case ApplyReady(_, _, derived) => NewPhase(derived);
      case DetectReady(_, _, _, _, rows) => DetectedAppends(s.db, c.actor, rows);
      case _ =>
    }
  }

  lemma NewPhase(p: Proposal)
    requires NewRow(p)
    ensures PhaseOk(p, p.version)
  {
  }

  lemma StepPhases(e: Engine, s: Sys, a: Action)
    requires Base(e, s) && PhasesOk(s)
    ensures PhasesOk(Step(e, s, a))
  {
    hide PhaseOk, Committed, RowsOk, CallOk, Step;
    StepShape(e, s, a);
    if WillCommit(s, a) {
      var c := s.calls[a.call];
      CommittedPhases(e, s, c);
    }
  }

  // In every reachable state of every interleaving.
  lemma {:induction false} ProposalPhases(e: Engine, actions: seq<Action>)
    ensures PhasesOk(Run(e, actions))
  {
    hide Step, PhaseOk;
    if actions != [] {
      var front := actions[..|actions| - 1];
      ProposalPhases(e, front);
      RunBase(e, front);
      StepPhases(e, Run(e, front), actions[|actions| - 1]);
    }
  }

  // ---------------------------------------------------- what one step can do

  ghost predicate LegalMove(p: Proposal, q: Proposal) {
    || q == p
    || (CanProposalTransition(p.state, q.state) && q.version == p.version + 1 && SameProposal(p, q)
        && (if IsReview(q.state) then q.reviewedBy.Some? && q.reviewedBy != Some(p.createdBy)
            else q.reviewedBy == p.reviewedBy))
  }

  lemma CommittedMoves(e: Engine, s: Sys, c: Call, i: Id)
    requires CallOk(e, s, c) && Committed(s, c).Some? && i < |s.db.proposals|
    ensures i < |Committed(s, c).value.db.proposals|
    ensures LegalMove(s.db.proposals[i], Committed(s, c).value.db.proposals[i])
  {
    hide DeltaOk, Trim, InsertDetected, RunTaken, ParcelCodeTaken, ObservationCodeTaken;
    match c.pending {
      case ProposalMove(id, loaded, to, rationale) => ProposalGuard(e, s, c);
      case DetectReady(_, _, _, _, rows) => DetectedAppends(s.db, c.actor, rows);
      case _ =>
    }
  }

  lemma NoMove(p: Proposal)
    ensures LegalMove(p, p)
  {
  }

  lemma StepMoves(e: Engine, s: Sys, a: Action, i: Id)
    requires Base(e, s) && i < |s.db.proposals|
    ensures i < |Step(e, s, a).db.proposals| && LegalMove(s.db.proposals[i], Step(e, s, a).db.proposals[i])
  {
    hide LegalMove, Committed, RowsOk, CallOk, Step;
    StepShape(e, s, a);
    NoMove(s.db.proposals[i]);
    if WillCommit(s, a) {
      var c := s.calls[a.call];
      CommittedMoves(e, s, c, i);
    }
  }

  // An accepted or rejected proposal is never changed again.
  lemma {:induction false} FinalForever(e: Engine, actions: seq<Action>, more: seq<Action>, i: Id)
    requires i < |Run(e, actions).db.proposals|
    requires Run(e, actions).db.proposals[i].state == Accepted || Run(e, actions).db.proposals[i].state == Rejected
    ensures i < |Run(e, actions + more).db.proposals|
    ensures Run(e, actions + more).db.proposals[i] == Run(e, actions).db.proposals[i]
    decreases more
  {
    hide Step;
    if more == [] {
      assert actions + more == actions;
    } else {
      var front, last := more[..|more| - 1], more[|more| - 1];
      FinalForever(e, actions, front, i);
      assert (actions + more)[..|actions + more| - 1] == actions + front;
      RunBase(e, actions + front);
      StepMoves(e, Run(e, actions + front), last, i);
    }
  }

  ghost predicate MovedExactly(s: Sys, c: Call, t: Sys)
    requires c.pending.ProposalMove?
  {
    var id, to := c.pending.id, c.pending.toProposal;
    && id < |s.db.proposals|
    && var row := s.db.proposals[id];
    && CanProposalTransition(row.state, to)
    && Authorized(row.createdBy, to, c.actor)
    && t.db == s.db.(
         proposals := s.db.proposals[id := MovedProposal(row, to, UpdatesFor(to, c.pending.rationale, c.actor))],
         audits := s.db.audits + [AuditLog(c.actor.id, c.actor.requestId,
           ProposalChanged(id, row, to, row.version + 1))])
  }

  lemma CommitMovesExactly(e: Engine, s: Sys, c: Call)
    requires CallOk(e, s, c) && c.pending.ProposalMove? && Committed(s, c).Some?
    ensures MovedExactly(s, c, Committed(s, c).value)
  {
    hide Trim;
    ProposalGuard(e, s, c);
  }

  // A committed move was decided on the stored row itself: it was legal and
  // permitted for that row, changed that row only, and its audit entry shows it.
  lemma MoveExact(e: Engine, actions: seq<Action>, k: nat)
    requires k in Run(e, actions).calls && Run(e, actions).calls[k].pending.ProposalMove?
    requires Committed(Run(e, actions), Run(e, actions).calls[k]).Some?
    ensures MovedExactly(Run(e, actions), Run(e, actions).calls[k],
                Committed(Run(e, actions), Run(e, actions).calls[k]).value)
  {
    hide RowsOk, CallOk, Run, Committed, MovedExactly;
    RunBase(e, actions);
    CommitMovesExactly(e, Run(e, actions), Run(e, actions).calls[k]);
  }

  // The returned row is the stored one exactly when the request did not change
  // the rationale: the response keeps the one that was loaded.
  lemma ResponseExactlyWhen(e: Engine, s: Sys, c: Call)
    requires Reachable(e, s) && c in s.calls.Values && c.pending.ProposalMove? && Committed(s, c).Some?
    ensures ProposalResponse(c.pending.proposal, c.pending.toProposal, c.actor)
       == Committed(s, c).value.db.proposals[c.pending.id]
       <==> c.pending.rationale == "" || c.pending.rationale == c.pending.proposal.rationale
  {
    hide Trim, Reachable;
    ReachableCall(e, s, c);
    ProposalGuard(e, s, c);
  }
}

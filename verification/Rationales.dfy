// What the audit log tells about the rationale of a proposal: the one it was
// created with and the one each move found, but not the one a move wrote.

module Rationales {
  import opened Options
  import opened Domain
  import opened Database
  import opened Services
  import opened Interleaving
  import opened Evolution
  import opened AuditJournal
  import opened SerialRuns

  // The log rebuilds the store completely.
  ghost predicate Exact(db: Db) {
    Rebuild(db.audits) == db.(audits := [])
  }

  // The move leaves the rationale it found.
  predicate KeepsRationale(c: Call)
    requires c.pending.ProposalMove?
  {
    c.pending.rationale == "" || c.pending.rationale == c.pending.proposal.rationale
  }

  lemma ReachableJournal(e: Engine, s: Sys)
    requires Reachable(e, s)
    ensures Journal(s.db)
  {
    hide Run, Journal;
    var actions :| s == Run(e, actions);
    AuditRebuilds(e, actions);
  }

  // After any committed move the rebuilt row is the stored one with the rationale
  // the move had found. So it is the stored row exactly when the move keeps the
  // rationale, and no other rebuilt proposal is affected.
  lemma MovedRowExactly(e: Engine, s: Sys, c: Call)
    requires Reachable(e, s) && c in s.calls.Values && c.pending.ProposalMove? && Committed(s, c).Some?
    ensures var t, id := Committed(s, c).value, c.pending.id;
            var rebuilt := Rebuild(t.db.audits).proposals;
            && id < |Rebuild(s.db.audits).proposals| == |rebuilt| == |t.db.proposals|
            && rebuilt == Rebuild(s.db.audits).proposals[id :=
                 t.db.proposals[id].(rationale := c.pending.proposal.rationale)]
            && (rebuilt[id] == t.db.proposals[id] <==> KeepsRationale(c))
  {
    hide Trim, Reachable, Rebuild, AllFaithful;
    ReachableCall(e, s, c);
    ReachableJournal(e, s);
    ProposalGuard(e, s, c);
    JournalProposals(e, s, c);
  }

  // A move keeps an exact log exact if and only if it keeps the rationale.
  lemma MoveStaysExactly(e: Engine, s: Sys, c: Call)
    requires Reachable(e, s) && c in s.calls.Values && c.pending.ProposalMove? && Committed(s, c).Some?
    requires Exact(s.db)
    ensures Exact(Committed(s, c).value.db) <==> KeepsRationale(c)
  {
    hide Trim, Reachable, Rebuild, AllFaithful;
    ReachableCall(e, s, c);
    ReachableJournal(e, s);
    ProposalGuard(e, s, c);
    JournalProposals(e, s, c);
    MovedRowExactly(e, s, c);
  }

  lemma ExactRows(db: Db)
    requires Journal(db)
    ensures Exact(db) <==> Rebuild(db.audits).proposals == db.proposals
  {
    hide Rebuild, AllFaithful;
  }

  // Every other transaction leaves the log as exact as it was.
  lemma OthersStayExactly(e: Engine, s: Sys, c: Call)
    requires Reachable(e, s) && c in s.calls.Values && !c.pending.ProposalMove? && Committed(s, c).Some?
    ensures Exact(Committed(s, c).value.db) <==> Exact(s.db)
  {
    hide Trim, Reachable, Rebuild, AllFaithful, DeltaOk, InsertDetected, RunTaken, ParcelCodeTaken,
         ObservationCodeTaken, Exact, SameButRationale;
    ReachableCall(e, s, c);
    ReachableJournal(e, s);
    ExactRows(s.db);
    match c.pending {
      case NewParcel(_) => JournalParcels(e, s, c);
      case ParcelUpdate(_, _, _, _) => JournalParcels(e, s, c);
      case NewObservation(_) => JournalObservations(e, s, c);
      case ObservationMove(_, _, _, _, _) => JournalObservations(e, s, c);
      case NewProposal(row) =>
        JournalProposals(e, s, c);
        AppendCancels(Rebuild(s.db.audits).proposals, s.db.proposals, row);
      case ConflictMove(_, _, _) => JournalConflictMove(e, s, c);
      case ApplyReady(_, _, derived) =>
        JournalApply(e, s, c);
        AppendCancels(Rebuild(s.db.audits).proposals, s.db.proposals, derived);
      case DetectReady(_, _, _, _, rows) =>
        JournalDetection(e, s, c);
        DetectedAppends(s.db, c.actor, rows);
      case _ =>
    }
    ExactRows(Committed(s, c).value.db);
  }

  lemma AppendCancels(xs: seq<Proposal>, ys: seq<Proposal>, p: Proposal)
    ensures xs + [p] == ys + [p] <==> xs == ys
  {
    assert (xs + [p])[..|xs|] == xs && (ys + [p])[..|ys|] == ys;
  }

  // Of two moves that differ only in their rationale the log tells nothing, while
  // the stored rows differ exactly when the rationales written do.
  lemma RationaleUnlogged(e: Engine, s: Sys, c: Call, d: Call)
    requires Reachable(e, s) && c in s.calls.Values && c.pending.ProposalMove? && Committed(s, c).Some?
    requires d.pending.ProposalMove?
    requires d == Call(c.actor,
      ProposalMove(c.pending.id, c.pending.proposal, c.pending.toProposal, d.pending.rationale))
    ensures Committed(s, d).Some?
    ensures Committed(s, d).value.db.audits == Committed(s, c).value.db.audits
    ensures Committed(s, d).value.db.proposals == Committed(s, c).value.db.proposals <==> Written(c) == Written(d)
  {
    hide Trim, Reachable;
    ReachableCall(e, s, c);
    ProposalGuard(e, s, c);
    assert Committed(s, c).value.db.proposals[c.pending.id].rationale == Written(c);
    assert Committed(s, d).value.db.proposals[c.pending.id].rationale == Written(d);
  }

  function Written(c: Call): string
    requires c.pending.ProposalMove?
  {
    if c.pending.rationale != "" then c.pending.rationale else c.pending.proposal.rationale
  }

  // ------------------------------------------------------------ runs that stay exact

  ghost predicate Keeping(e: Engine, actions: seq<Action>) {
    forall n :: 0 <= n < |actions| ==> KeepingStep(Run(e, actions[..n]), actions[n])
  }

  ghost predicate KeepingStep(s: Sys, a: Action) {
    WillCommit(s, a) && s.calls[a.call].pending.ProposalMove? ==> KeepsRationale(s.calls[a.call])
  }

  lemma StepExact(e: Engine, s: Sys, a: Action)
    requires Reachable(e, s) && Exact(s.db) && KeepingStep(s, a)
    ensures Exact(Step(e, s, a).db)
  {
    hide Committed, Step, Reachable, Exact;
    StepShape(e, s, a);
    if WillCommit(s, a) {
      var c := s.calls[a.call];
      if c.pending.ProposalMove? {
        MoveStaysExactly(e, s, c);
      } else {
        OthersStayExactly(e, s, c);
      }
      SameExact(Committed(s, c).value.db, Step(e, s, a).db);
    } else {
      SameExact(s.db, Step(e, s, a).db);
    }
  }

  lemma SameExact(db: Db, other: Db)
    requires db == other
    ensures Exact(db) <==> Exact(other)
  {
  }

  // A run whose moves all keep the rationale has a complete log.
  lemma {:induction false} KeepingRunsExact(e: Engine, actions: seq<Action>)
    requires Keeping(e, actions)
    ensures Exact(Run(e, actions).db)
  {
    hide Step, KeepingStep, Rebuild;
    if actions != [] {
      var n := |actions| - 1;
      var front := actions[..n];
      forall m | 0 <= m < |front| ensures KeepingStep(Run(e, front[..m]), front[m]) {
        assert front[..m] == actions[..m];
        assert KeepingStep(Run(e, actions[..m]), actions[m]);
      }
      KeepingRunsExact(e, front);
      assert KeepingStep(Run(e, actions[..n]), actions[n]);
      StepExact(e, Run(e, front), actions[n]);
    } else {
      EmptyExact();
    }
  }

  lemma EmptyExact()
    ensures Exact(EMPTY)
  {
  }

  // ------------------------------------------------------- a run that loses one

  const DRAFT := Proposal(0, 1, "{polygon}", [], 0.5, 0.0, ProposalState.Draft, "Resurveyed", 1, 7, None)

  const PROPOSE := CreateProposal(0, 1, "{polygon}", [], 0.5, "Resurveyed")

  const VALIDATE := TransitionProposal(0, Some(Validated), "Checked")

  const EDIT: seq<Action> := [
    Begin(0, SURVEYOR, CREATE_PARCEL), Commit(0),
    Begin(0, SURVEYOR, PROPOSE), Commit(0),
    Begin(0, SURVEYOR, VALIDATE), Commit(0)]

  lemma Proposed(e: Engine, s: Sys)
    requires e == EXAMPLE && s.calls == map[] && s.db.parcels == [PARCEL] && s.db.proposals == []
    ensures var t := Step(e, Step(e, s, EDIT[2]), EDIT[3]);
            t.calls == map[] && t.db.proposals == [DRAFT]
  {
    hide Trim;
    ExampleTrims();
    TrimStays("Resurveyed");
    var t := Step(e, s, EDIT[2]);
    assert t == s.(calls := map[0 := Call(SURVEYOR, NewProposal(DRAFT))]);
  }

  lemma Edited(e: Engine, s: Sys)
    requires s.calls == map[] && s.db.proposals == [DRAFT]
    ensures var t := Step(e, s, EDIT[4]);
            && t == s.(calls := map[0 := Call(SURVEYOR, ProposalMove(0, DRAFT, Validated, "Checked"))])
            && Committed(t, t.calls[0]).Some?
            && Step(e, t, EDIT[5]).db == Committed(t, t.calls[0]).value.db
            && Step(e, t, EDIT[5]).db.proposals == [DRAFT.(state := Validated, rationale := "Checked", version := 2)]
  {
    hide Trim;
    ExampleTrims();
  }

  // A proposal validated with a new rationale: the store has the new one, and the
  // store rebuilt from the log has the old one.
  lemma RationaleLost()
    ensures var db := Run(EXAMPLE, EDIT).db;
            && db.proposals == [DRAFT.(state := Validated, rationale := "Checked", version := 2)]
            && Rebuild(db.audits).proposals == [DRAFT.(state := Validated, version := 2)]
            && !Exact(db)
  {
    hide Step, After, Run, Rebuild, Committed, Reachable;
    var e := EXAMPLE;
    RunAppend(e, [], EDIT);
    RunAppend(e, [], EDIT[..5]);
    assert [] + EDIT == EDIT && [] + EDIT[..5] == EDIT[..5];
    RunEmpty(e);
    SixSteps(e, INITIAL, EDIT);
    AfterStep(e, INITIAL, EDIT[..5], EDIT[5]);
    assert EDIT == EDIT[..5] + [EDIT[5]];
    ExampleParcel(e);
    var s := Step(e, Step(e, INITIAL, EDIT[0]), EDIT[1]);
    Proposed(e, s);
    var t := Step(e, Step(e, s, EDIT[2]), EDIT[3]);
    Edited(e, t);
    FiveSteps(e, INITIAL, EDIT);
    var u := Run(e, EDIT[..5]);
    RunReachable(e, EDIT[..5]);
    var c := u.calls[0];
    assert c == Call(SURVEYOR, ProposalMove(0, DRAFT, Validated, "Checked"));
    MovedRowExactly(e, u, c);
    var db := Run(e, EDIT).db;
    assert db == Committed(u, c).value.db;
    assert Rebuild(db.audits).proposals[0] == db.proposals[0].(rationale := "Resurveyed");
  }

  lemma RunReachable(e: Engine, actions: seq<Action>)
    ensures Reachable(e, Run(e, actions))
  {
  }

  lemma RunEmpty(e: Engine)
    ensures Run(e, []) == INITIAL
  {
  }

  lemma FiveSteps(e: Engine, s: Sys, a: seq<Action>)
    requires |a| == 6
    ensures After(e, s, a[..5]) == Step(e, Step(e, Step(e, Step(e, Step(e, s, a[0]), a[1]), a[2]), a[3]), a[4])
  {
    hide Step, After;
    AfterNone(e, s);
    AfterStep(e, s, a[..0], a[0]);
    AfterStep(e, s, a[..1], a[1]);
    AfterStep(e, s, a[..2], a[2]);
    AfterStep(e, s, a[..3], a[3]);
    AfterStep(e, s, a[..4], a[4]);
    assert a[..0] == [] && a[..1] == a[..0] + [a[0]] && a[..2] == a[..1] + [a[1]] && a[..3] == a[..2] + [a[2]];
    assert a[..4] == a[..3] + [a[3]] && a[..5] == a[..4] + [a[4]];
  }
}

// The Idempotency-Key protocol of DetectConflicts under any interleaving:
// lookup, computation, a transaction guarded by the unique index on actor and
// key, and a second lookup when that transaction is rolled back.

module DetectionIdempotency {
  import opened Options
  import opened Domain
  import opened Database
  import opened Services
  import opened Interleaving
  import opened Evolution

  // ----------------------------------------------------------------- invariants

  ghost predicate OneRunPerKey(runs: seq<DetectionRun>) {
    forall i, j :: 0 <= i < j < |runs| ==> !(runs[i].actorId == runs[j].actorId && runs[i].key == runs[j].key)
  }

  // The result ids of all runs, one after the other.
  function AllResults(runs: seq<DetectionRun>): seq<Id> {
    if runs == [] then [] else AllResults(runs[..|runs| - 1]) + runs[|runs| - 1].resultIds
  }

  // Every conflict is listed by exactly one run, exactly once, in creation order.
  ghost predicate NoOrphans(db: Db) {
    AllResults(db.runs) == NewIds(0, |db.conflicts|)
  }

  ghost predicate RowsNamed(db: Db, answer: Answer) {
    && |answer.rows| == |answer.ids|
    && forall n :: 0 <= n < |answer.ids| ==>
         answer.ids[n] < |db.conflicts| && ConflictLater(answer.rows[n], db.conflicts[answer.ids[n]])
  }

  ghost predicate Backed(db: Db, o: Outcome, run: DetectionRun) {
    && run in db.runs && IsRunOf(run, o.actorId, o.key)
    && match o.result
       case Success(answer) => run.requestHash == o.requestHash && answer.ids == run.resultIds && RowsNamed(db, answer)
       case Failure(error) => error == StateConflict && run.requestHash != o.requestHash
  }

  // Every answer is decided by the run of its actor and key among those stored by
  // then; only without one, after a faulty transaction, is it an internal error.
  ghost predicate OutcomeOk(db: Db, o: Outcome) {
    && o.stored <= |db.runs|
    && match FindRun(db.runs[..o.stored], o.actorId, o.key)
       case None => o.result == Failure(Internal)
       case Some(run) => Backed(db, o, run)
  }

  ghost predicate DetectionOk(s: Sys) {
    && OneRunPerKey(s.db.runs)
    && NoOrphans(s.db)
    && (forall n :: 0 <= n < |s.outcomes| ==> OutcomeOk(s.db, s.outcomes[n]))
    && StoredInOrder(s)
  }

  ghost predicate StoredInOrder(s: Sys) {
    && (forall n :: 0 <= n < |s.outcomes| ==> s.outcomes[n].stored <= |s.db.runs|)
    && forall m, n :: 0 <= m < n < |s.outcomes| ==> s.outcomes[m].stored <= s.outcomes[n].stored
  }

  // -------------------------------------------------------------------- replay

  lemma {:induction false} ResultsInRange(runs: seq<DetectionRun>, count: nat, run: DetectionRun)
    requires run in runs && forall i :: 0 <= i < |AllResults(runs)| ==> AllResults(runs)[i] < count
    ensures forall n :: 0 <= n < |run.resultIds| ==> run.resultIds[n] < count
  {
    var front, last := runs[..|runs| - 1], runs[|runs| - 1];
    var all := AllResults(runs);
    assert all == AllResults(front) + last.resultIds;
    if run == last {
      forall n | 0 <= n < |run.resultIds| ensures run.resultIds[n] < count {
        assert all[|AllResults(front)| + n] == run.resultIds[n];
      }
    } else {
      assert runs == front + [last];
      assert forall i :: 0 <= i < |AllResults(front)| ==> AllResults(front)[i] == all[i];
      ResultsInRange(front, count, run);
    }
  }

  // A stored run can always be replayed: none of its conflicts is missing.
  lemma ReplayAnswers(s: Sys, run: DetectionRun, o: Outcome)
    requires NoOrphans(s.db) && run in s.db.runs && IsRunOf(run, o.actorId, o.key)
    requires o.result == Replay(s.db, run, o.requestHash)
    ensures Backed(s.db, o, run)
    ensures o.result.Success? <==> run.requestHash == o.requestHash
  {
    ResultsInRange(s.db.runs, |s.db.conflicts|, run);
  }

  // ---------------------------------------------------------- one transaction

  lemma OutcomeStable(s: Sys, t: Sys, o: Outcome)
    requires OutcomeOk(s.db, o) && Evolves(s, t) && s.db.runs <= t.db.runs
    ensures OutcomeOk(t.db, o)
  {
    assert t.db.runs[..o.stored] == s.db.runs[..o.stored];
    var found := FindRun(s.db.runs[..o.stored], o.actorId, o.key);
    if found.Some? {
      var run := found.value;
      assert run in t.db.runs;
      if o.result.Success? {
        var answer := o.result.value;
        forall n | 0 <= n < |answer.ids|
          ensures ConflictLater(answer.rows[n], t.db.conflicts[answer.ids[n]])
        {
          assert ConflictLater(s.db.conflicts[answer.ids[n]], t.db.conflicts[answer.ids[n]]);
        }
      }
      assert Backed(t.db, o, run);
    }
  }

  lemma OtherRunsSame(s: Sys, c: Call)
    requires Committed(s, c).Some? && !c.pending.DetectReady?
    ensures Committed(s, c).value.db.runs == s.db.runs && Committed(s, c).value.outcomes == s.outcomes
    ensures |Committed(s, c).value.db.conflicts| == |s.db.conflicts|
  {
    hide Trim, ParcelCodeTaken, ObservationCodeTaken;
  }

  function NewRun(s: Sys, c: Call): DetectionRun
    requires c.pending.DetectReady?
  {
    RunOf(s.db, c.actor, c.pending.proposalId, c.pending.key, c.pending.requestHash,
          c.pending.inputHash, |c.pending.rows|)
  }

  lemma DetectionEffect(s: Sys, c: Call)
    requires c.pending.DetectReady? && Committed(s, c).Some?
    ensures !RunTaken(s.db, c.actor.id, c.pending.key)
    ensures var t := Committed(s, c).value;
            && t.db.runs == s.db.runs + [NewRun(s, c)]
            && t.db.conflicts == s.db.conflicts + c.pending.rows
            && t.outcomes == s.outcomes + [Outcome(c.actor.id, c.pending.key, c.pending.requestHash,
                 Success(Answer(NewRun(s, c).resultIds, c.pending.rows)), |s.db.runs| + 1)]
  {
    hide Trim, InsertDetected, IsRunOf;
    DetectedAppends(s.db, c.actor, c.pending.rows);
  }

  lemma CommittedRuns(e: Engine, s: Sys, c: Call)
    requires DetectionOk(s) && c.pending.DetectReady? && Committed(s, c).Some?
    ensures OneRunPerKey(Committed(s, c).value.db.runs) && NoOrphans(Committed(s, c).value.db)
  {
    hide Committed, OutcomeOk;
    DetectionEffect(s, c);
    var t := Committed(s, c).value;
    assert t.db.runs[..|t.db.runs| - 1] == s.db.runs;
    forall i | 0 <= i < |s.db.runs| ensures !(s.db.runs[i].actorId == c.actor.id && s.db.runs[i].key == c.pending.key) {
      assert !IsRunOf(s.db.runs[i], c.actor.id, c.pending.key);
    }
  }

  lemma CommittedOutcomesOk(e: Engine, s: Sys, c: Call)
    requires RowsOk(e, s) && CallOk(e, s, c) && DetectionOk(s) && Committed(s, c).Some?
    ensures DetectionOk(Committed(s, c).value)
  {
    hide Committed, OutcomeOk, RowsOk, CallOk, Evolves, OneRunPerKey;
    CommittedBase(e, s, c);
    var t := Committed(s, c).value;
    if c.pending.DetectReady? {
      DetectionEffect(s, c);
      CommittedRuns(e, s, c);
      var o := t.outcomes[|s.outcomes|];
      NewOutcome(s, c, t.db, o);
    } else {
      OtherRunsSame(s, c);
    }
    forall n | 0 <= n < |s.outcomes| ensures OutcomeOk(t.db, s.outcomes[n]) {
      OutcomeStable(s, t, s.outcomes[n]);
    }
  }

  lemma {:induction false} FindsAppended(runs: seq<DetectionRun>, run: DetectionRun)
    requires forall i :: 0 <= i < |runs| ==> !IsRunOf(runs[i], run.actorId, run.key)
    ensures FindRun(runs + [run], run.actorId, run.key) == Some(run)
  {
    if runs == [] {
      assert [] + [run] == [run];
    } else {
      assert (runs + [run])[1..] == runs[1..] + [run];
      FindsAppended(runs[1..], run);
    }
  }

  lemma NewOutcome(s: Sys, c: Call, db: Db, o: Outcome)
    requires c.pending.DetectReady? && !RunTaken(s.db, c.actor.id, c.pending.key)
    requires db.runs == s.db.runs + [NewRun(s, c)] && db.conflicts == s.db.conflicts + c.pending.rows
    requires o == Outcome(c.actor.id, c.pending.key, c.pending.requestHash,
                          Success(Answer(NewRun(s, c).resultIds, c.pending.rows)), |db.runs|)
    ensures OutcomeOk(db, o)
  {
    hide FindRun;
    assert Backed(db, o, NewRun(s, c));
    assert db.runs[..o.stored] == db.runs;
    FindsAppended(s.db.runs, NewRun(s, c));
  }

  // ------------------------------------------------------------- quiet answers

  // The outcome, if any, that a step other than a commit adds.
  lemma QuietOutcome(e: Engine, s: Sys, a: Action)
    requires NoOrphans(s.db) && !WillCommit(s, a)
    ensures var t := Step(e, s, a);
            t.outcomes == s.outcomes
            || exists o :: t.outcomes == s.outcomes + [o] && OutcomeOk(s.db, o) && o.stored == |s.db.runs|
  {
    hide NoOrphans, OutcomeOk, Committed, LoadCreateParcel, LoadUpdateParcel, LoadImport, LoadObservation,
         LoadCreateProposal, LoadProposal, LoadConflict, LoadApply, CheckReplacement, LoadSource, LoadTarget;
    var t := Step(e, s, a);
    match a {
      case Begin(k, actor, r) =>
        if k !in s.calls && r.DetectConflicts? {
          StartOutcome(e, s, k, actor, r);
        }
      case Relookup(k) =>
        if k in s.calls && s.calls[k].pending.DetectAborted? {
          RelookupOutcome(s, k);
        }
      case _ =>
    }
  }

  lemma StartOutcome(e: Engine, s: Sys, k: nat, actor: Actor, r: Request)
    requires NoOrphans(s.db) && k !in s.calls && r.DetectConflicts?
    ensures var t := Start(e, s, k, actor, r);
            t.outcomes == s.outcomes
            || exists o :: t.outcomes == s.outcomes + [o] && OutcomeOk(s.db, o) && o.stored == |s.db.runs|
  {
    hide NoOrphans, Replay, RequestHash, Trim;
    var t := Start(e, s, k, actor, r);
    var loaded := LoadDetection(e, s.db, r, actor);
    if loaded.Success? && loaded.value.Answered? {
      var o := Outcome(actor.id, Trim(r.key), loaded.value.requestHash, loaded.value.answer, |s.db.runs|);
      assert s.db.runs[..o.stored] == s.db.runs;
      var run := FindRun(s.db.runs, actor.id, Trim(r.key)).value;
      ReplayAnswers(s, run, o);
      assert t.outcomes == s.outcomes + [o] && OutcomeOk(s.db, o);
    }
  }

  lemma RelookupOutcome(s: Sys, k: nat)
    requires NoOrphans(s.db) && k in s.calls && s.calls[k].pending.DetectAborted?
    ensures var t := Second(s, k, s.calls[k]);
            exists o :: t.outcomes == s.outcomes + [o] && OutcomeOk(s.db, o) && o.stored == |s.db.runs|
  {
    hide NoOrphans, Replay;
    var t, c := Second(s, k, s.calls[k]), s.calls[k];
    var o := t.outcomes[|s.outcomes|];
    assert s.db.runs[..o.stored] == s.db.runs;
    var found := FindRun(s.db.runs, c.actor.id, c.pending.key);
    if found.Some? {
      ReplayAnswers(s, found.value, o);
    }
    assert t.outcomes == s.outcomes + [o] && OutcomeOk(s.db, o);
  }

  // ---------------------------------------------------------------- every run

  lemma StepDetection(e: Engine, s: Sys, a: Action)
    requires Base(e, s) && DetectionOk(s)
    ensures DetectionOk(Step(e, s, a))
  {
    hide Committed, RowsOk, CallOk, Step, OutcomeOk, OneRunPerKey, NoOrphans;
    StepShape(e, s, a);
    if WillCommit(s, a) {
      var c := s.calls[a.call];
      CommittedOutcomesOk(e, s, c);
    } else {
      QuietOutcome(e, s, a);
    }
  }

  lemma {:induction false} DetectionInvariant(e: Engine, actions: seq<Action>)
    ensures DetectionOk(Run(e, actions))
  {
    hide Step;
    if actions != [] {
      var front := actions[..|actions| - 1];
      DetectionInvariant(e, front);
      RunBase(e, front);
      StepDetection(e, Run(e, front), actions[|actions| - 1]);
    }
  }

  // All successful responses to one actor and key carry the same request hash
  // and the same conflict ids in the same order, whichever call came first.
  lemma SameAnswer(e: Engine, actions: seq<Action>, m: nat, n: nat)
    requires m < |Run(e, actions).outcomes| && n < |Run(e, actions).outcomes|
    requires var o, p := Run(e, actions).outcomes[m], Run(e, actions).outcomes[n];
             o.actorId == p.actorId && o.key == p.key && o.result.Success? && p.result.Success?
    ensures var o, p := Run(e, actions).outcomes[m], Run(e, actions).outcomes[n];
            o.requestHash == p.requestHash && o.result.value.ids == p.result.value.ids
  {
    hide Run, NoOrphans;
    DetectionInvariant(e, actions);
    var s := Run(e, actions);
    var run := FindRun(s.db.runs[..s.outcomes[m].stored], s.outcomes[m].actorId, s.outcomes[m].key).value;
    var other := FindRun(s.db.runs[..s.outcomes[n].stored], s.outcomes[n].actorId, s.outcomes[n].key).value;
    var i :| 0 <= i < |s.db.runs| && s.db.runs[i] == run;
    var j :| 0 <= j < |s.db.runs| && s.db.runs[j] == other;
    assert i == j;
  }

  // Once the key has a run, a request is answered from it exactly when its hash
  // is the run's; otherwise it is a conflict.
  lemma AnsweredExactlyWhen(e: Engine, actions: seq<Action>, run: DetectionRun, hash: string)
    requires run in Run(e, actions).db.runs
    ensures var db := Run(e, actions).db;
            && FindRun(db.runs, run.actorId, run.key) == Some(run)
            && (if hash == run.requestHash
                then Replay(db, run, hash).Success? && Replay(db, run, hash).value.ids == run.resultIds
                else Replay(db, run, hash) == Failure(StateConflict))
  {
    hide Run, OutcomeOk, NoOrphans;
    DetectionInvariant(e, actions);
    var s := Run(e, actions);
    var i :| 0 <= i < |s.db.runs| && s.db.runs[i] == run;
    assert IsRunOf(s.db.runs[i], run.actorId, run.key);
    var found := FindRun(s.db.runs, run.actorId, run.key).value;
    var j :| 0 <= j < |s.db.runs| && s.db.runs[j] == found;
    assert i == j;
    ReplayAnswers(s, run, Outcome(run.actorId, run.key, hash, Replay(s.db, run, hash), |s.db.runs|));
  }

  // Once an actor's key has been answered with success, every later answer for it
  // is decided: with the same request hash it is a success with the same ids, and
  // with any other it is the conflict error.
  lemma AnsweredForGood(e: Engine, actions: seq<Action>, m: nat, n: nat)
    requires m < n < |Run(e, actions).outcomes|
    requires var o, p := Run(e, actions).outcomes[m], Run(e, actions).outcomes[n];
             o.actorId == p.actorId && o.key == p.key && o.result.Success?
    ensures var o, p := Run(e, actions).outcomes[m], Run(e, actions).outcomes[n];
            if p.requestHash == o.requestHash
            then p.result.Success? && p.result.value.ids == o.result.value.ids
            else p.result == Failure(StateConflict)
  {
    hide Run, NoOrphans;
    DetectionInvariant(e, actions);
    var s := Run(e, actions);
    var o, p := s.outcomes[m], s.outcomes[n];
    var run := FindRun(s.db.runs[..o.stored], o.actorId, o.key).value;
    var i :| 0 <= i < o.stored && s.db.runs[i] == run;
    assert s.db.runs[..p.stored][i] == run;
    var other := FindRun(s.db.runs[..p.stored], p.actorId, p.key).value;
    var j :| 0 <= j < p.stored && s.db.runs[j] == other;
    assert i == j;
  }

  // In every run, an answer that a step gives while a run of its key is stored is
  // decided by that run.
  lemma AnswerFollowsRun(e: Engine, actions: seq<Action>, a: Action, o: Outcome, run: DetectionRun)
    requires Run(e, actions + [a]).outcomes == Run(e, actions).outcomes + [o]
    requires run in Run(e, actions + [a]).db.runs && IsRunOf(run, o.actorId, o.key)
    ensures if o.requestHash == run.requestHash
            then o.result.Success? && o.result.value.ids == run.resultIds
            else o.result == Failure(StateConflict)
  {
    hide Step, NoOrphans, OutcomeOk;
    assert (actions + [a])[..|actions + [a]| - 1] == actions;
    var s, t := Run(e, actions), Run(e, actions + [a]);
    DetectionInvariant(e, actions);
    DetectionInvariant(e, actions + [a]);
    RunBase(e, actions);
    NewOutcomeSeesAll(e, s, a, o);
    assert t.outcomes[|s.outcomes|] == o;
    FoundIsRun(t.db, o, run);
  }

  lemma FoundIsRun(db: Db, o: Outcome, run: DetectionRun)
    requires OneRunPerKey(db.runs) && OutcomeOk(db, o) && o.stored == |db.runs|
    requires run in db.runs && IsRunOf(run, o.actorId, o.key)
    ensures Backed(db, o, run)
  {
    assert db.runs[..o.stored] == db.runs;
    var other := FindRun(db.runs, o.actorId, o.key).value;
    var i :| 0 <= i < |db.runs| && db.runs[i] == run;
    var j :| 0 <= j < |db.runs| && db.runs[j] == other;
    assert i == j;
  }

  lemma NewOutcomeSeesAll(e: Engine, s: Sys, a: Action, o: Outcome)
    requires NoOrphans(s.db) && Step(e, s, a).outcomes == s.outcomes + [o]
    ensures o.stored == |Step(e, s, a).db.runs|
  {
    hide Committed, Step, NoOrphans, OutcomeOk;
    StepShape(e, s, a);
    if WillCommit(s, a) {
      var c := s.calls[a.call];
      if c.pending.DetectReady? {
        DetectionEffect(s, c);
        assert Step(e, s, a).outcomes[|s.outcomes|] == o;
      } else {
        OtherRunsSame(s, c);
      }
    } else {
      QuietOutcome(e, s, a);
      var p :| Step(e, s, a).outcomes == s.outcomes + [p] && p.stored == |s.db.runs|;
      assert (s.outcomes + [o])[|s.outcomes|] == (s.outcomes + [p])[|s.outcomes|];
    }
  }

  lemma {:induction false} ListedAt(runs: seq<DetectionRun>, n: nat) returns (i: nat, j: nat)
    requires n < |AllResults(runs)|
    ensures i < |runs| && j < |runs[i].resultIds| && runs[i].resultIds[j] == AllResults(runs)[n]
  {
    var front, last := runs[..|runs| - 1], runs[|runs| - 1];
    assert AllResults(runs) == AllResults(front) + last.resultIds;
    if n < |AllResults(front)| {
      i, j := ListedAt(front, n);
      assert runs[i] == front[i];
    } else {
      i, j := |runs| - 1, n - |AllResults(front)|;
    }
  }

  function Offset(runs: seq<DetectionRun>, i: nat): nat
    requires i <= |runs|
  {
    |AllResults(runs[..i])|
  }

  lemma {:induction false} ResultPosition(runs: seq<DetectionRun>, i: nat, j: nat)
    requires i < |runs| && j < |runs[i].resultIds|
    ensures Offset(runs, i) + j < |AllResults(runs)|
    ensures AllResults(runs)[Offset(runs, i) + j] == runs[i].resultIds[j]
  {
    var front, last := runs[..|runs| - 1], runs[|runs| - 1];
    assert AllResults(runs) == AllResults(front) + last.resultIds;
    if i < |runs| - 1 {
      assert front[..i] == runs[..i] && front[i] == runs[i];
      ResultPosition(front, i, j);
    } else {
      assert runs[..i] == front;
    }
  }

  lemma {:induction false} OffsetsGrow(runs: seq<DetectionRun>, i: nat, k: nat)
    requires i < k <= |runs|
    ensures Offset(runs, i) + |runs[i].resultIds| <= Offset(runs, k)
    decreases k
  {
    assert runs[..k][..k - 1] == runs[..k - 1];
    assert Offset(runs, k) == Offset(runs, k - 1) + |runs[k - 1].resultIds|;
    if i < k - 1 {
      OffsetsGrow(runs, i, k - 1);
    }
  }

  ghost predicate Lists(runs: seq<DetectionRun>, i: nat, j: nat, id: Id) {
    i < |runs| && j < |runs[i].resultIds| && runs[i].resultIds[j] == id
  }

  // Every conflict is in the results of one run, at one position; in particular
  // a rolled-back detection leaves none behind.
  lemma ListedExactlyOnce(e: Engine, actions: seq<Action>, id: Id)
    requires id < |Run(e, actions).db.conflicts|
    ensures exists i, j :: Lists(Run(e, actions).db.runs, i, j, id)
    ensures forall i, j, k, l ::
              Lists(Run(e, actions).db.runs, i, j, id) && Lists(Run(e, actions).db.runs, k, l, id) ==> i == k && j == l
  {
    hide Run, OutcomeOk, AllResults, Offset;
    DetectionInvariant(e, actions);
    var s := Run(e, actions);
    var runs := s.db.runs;
    var a, b := ListedAt(runs, id);
    assert Lists(runs, a, b, id);
    forall i, j, k, l | Lists(runs, i, j, id) && Lists(runs, k, l, id) ensures i == k && j == l {
      ResultPosition(runs, i, j);
      ResultPosition(runs, k, l);
      if i < k {
        OffsetsGrow(runs, i, k);
      } else if k < i {
        OffsetsGrow(runs, k, i);
      }
    }
  }
}

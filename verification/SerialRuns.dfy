// Calls served one at a time are a special interleaving, in which supersession
// stays acyclic; two overlapping calls are enough to close a cycle.

module SerialRuns {
  import opened Options
  import opened Domain
  import opened Database
  import opened Services
  import opened Interleaving
  import opened Evolution
  import opened ObservationLifecycle

  // A request with what detection would find, should it be one.
  datatype Errand = Errand(actor: Actor, request: Request, inputHash: string, drafts: seq<Draft>)

  // All the steps a request can need, uninterrupted.
  function Serve(j: Errand): seq<Action> {
    [Begin(0, j.actor, j.request), Advance(0), Advance(0), Compute(0, j.inputHash, j.drafts), Commit(0), Relookup(0)]
  }

  function Script(errands: seq<Errand>): seq<Action> {
    if errands == [] then [] else Script(errands[..|errands| - 1]) + Serve(errands[|errands| - 1])
  }

  function After(e: Engine, s: Sys, actions: seq<Action>): Sys {
    if actions == [] then s else Step(e, After(e, s, actions[..|actions| - 1]), actions[|actions| - 1])
  }

  lemma {:induction false} RunAppend(e: Engine, xs: seq<Action>, ys: seq<Action>)
    ensures Run(e, xs + ys) == After(e, Run(e, xs), ys)
    decreases ys
  {
    hide Step;
    if ys == [] {
      assert xs + ys == xs;
    } else {
      var front := ys[..|ys| - 1];
      RunAppend(e, xs, front);
      assert (xs + ys)[..|xs + ys| - 1] == xs + front;
    }
  }

  lemma AfterStep(e: Engine, s: Sys, actions: seq<Action>, a: Action)
    ensures After(e, s, actions + [a]) == Step(e, After(e, s, actions), a)
  {
    assert (actions + [a])[..|actions + [a]| - 1] == actions;
  }

  // The only call in flight, if any, at this stage of being served.
  ghost predicate Alone(s: Sys) {
    s.calls.Keys <= {0}
  }

  // Nothing has been written since the replacement was found active.
  ghost predicate Checked(s: Sys) {
    0 in s.calls && s.calls[0].pending.ObservationMove? && s.calls[0].pending.replacement.Some? ==>
      var r := s.calls[0].pending.replacement.value;
      r < |s.db.observations| && s.db.observations[r].state != ObsSuperseded
  }

  lemma ServeReads(e: Engine, s: Sys, j: Errand)
    requires s.calls == map[]
    ensures var t := Step(e, s, Serve(j)[0]);
            Alone(t) && Checked(t) && t.db == s.db
            && (0 in t.calls ==>
                  && !t.calls[0].pending.ApplyingFrom?
                  && !t.calls[0].pending.DetectAborted?
                  && !t.calls[0].pending.DetectReady?)
  {
    hide FindRun, Replay, RequestHash, Trim, Upper;
  }

  // Reads still outstanding, as a number of Advance steps.
  function Outstanding(s: Sys): nat {
    if 0 !in s.calls then 0
    else if s.calls[0].pending.Applying? then 2
    else if s.calls[0].pending.ApplyingFrom? || s.calls[0].pending.Superseding? then 1
    else 0
  }

  lemma AdvanceChecked(e: Engine, s: Sys)
    requires Alone(s) && Checked(s) &&
    (0 in s.calls ==> !s.calls[0].pending.DetectAborted? && !s.calls[0].pending.DetectReady?)
    ensures var t := Step(e, s, Advance(0));
            && Alone(t) && Checked(t)
            && Outstanding(t) <= (if Outstanding(s) == 0 then 0 else Outstanding(s) - 1)
            && (0 in t.calls ==> !t.calls[0].pending.DetectAborted? && !t.calls[0].pending.DetectReady?)
  {
    hide Trim, DefaultRationale;
  }

  lemma ComputeChecked(e: Engine, s: Sys, j: Errand)
    requires Alone(s) && Checked(s) && Outstanding(s) == 0 && (0 in s.calls ==> !s.calls[0].pending.DetectAborted?)
    ensures var t := Step(e, s, Serve(j)[3]);
            Alone(t) && Checked(t) && (0 in t.calls ==> Ready(t.calls[0].pending))
  {
    hide RowsOf;
  }

  lemma CommitClears(e: Engine, s: Sys)
    requires Alone(s) && (0 in s.calls ==> Ready(s.calls[0].pending))
    ensures Step(e, Step(e, s, Commit(0)), Relookup(0)).calls == map[]
  {
    hide CommitParcel, CommitParcelUpdate, CommitImport, CommitObservation, CommitProposal, CommitProposalMove,
         CommitConflict, CommitApply, CommitDetection, Fallback;
    var t := Step(e, s, Commit(0));
    assert t.calls.Keys <= {0};
    assert 0 in t.calls ==> t.calls[0].pending.DetectAborted?;
  }

  ghost predicate FreshFrom(e: Engine, s: Sys, actions: seq<Action>) {
    forall n :: 0 <= n < |actions| ==> FreshStep(After(e, s, actions[..n]), actions[n])
  }

  lemma ServeFresh(e: Engine, s: Sys, j: Errand)
    requires s.calls == map[]
    ensures FreshFrom(e, s, Serve(j)) && After(e, s, Serve(j)).calls == map[]
  {
    hide Step, Checked, After;
    var a := Serve(j);
    AfterNone(e, s);
    assert a[..0] == [];
    AfterStep(e, s, a[..0], a[0]);
    AfterStep(e, s, a[..1], a[1]);
    AfterStep(e, s, a[..2], a[2]);
    AfterStep(e, s, a[..3], a[3]);
    AfterStep(e, s, a[..4], a[4]);
    AfterStep(e, s, a[..5], a[5]);
    assert a[..1] == a[..0] + [a[0]] && a[..2] == a[..1] + [a[1]] && a[..3] == a[..2] + [a[2]];
    assert a[..4] == a[..3] + [a[3]] && a[..5] == a[..4] + [a[4]] && a == a[..5] + [a[5]];
    ServeReads(e, s, j);
    AdvanceChecked(e, After(e, s, a[..1]));
    AdvanceChecked(e, After(e, s, a[..2]));
    ComputeChecked(e, After(e, s, a[..3]), j);
    CommitClears(e, After(e, s, a[..4]));
    forall n | 0 <= n < |a| ensures FreshStep(After(e, s, a[..n]), a[n]) {
      if n == 4 {
        CheckedIsFresh(After(e, s, a[..4]));
      }
    }
  }

  lemma AfterNone(e: Engine, s: Sys)
    ensures After(e, s, []) == s
  {
  }

  lemma CheckedIsFresh(s: Sys)
    requires Checked(s)
    ensures FreshStep(s, Commit(0))
  {
    hide Committed;
  }

  lemma {:induction false} SerialIsFresh(e: Engine, errands: seq<Errand>)
    ensures FreshRun(e, Script(errands)) && Run(e, Script(errands)).calls == map[]
  {
    hide Step, After, FreshStep;
    if errands != [] {
      var front, last := Script(errands[..|errands| - 1]), Serve(errands[|errands| - 1]);
      SerialIsFresh(e, errands[..|errands| - 1]);
      var s := Run(e, front);
      ServeFresh(e, s, errands[|errands| - 1]);
      var all := Script(errands);
      assert all == front + last;
      RunAppend(e, front, last);
      forall n | 0 <= n < |all| ensures FreshStep(Run(e, all[..n]), all[n]) {
        if n < |front| {
          assert all[..n] == front[..n] && all[n] == front[n];
          assert FreshStep(Run(e, front[..n]), front[n]);
        } else {
          var m := n - |front|;
          assert all[..n] == front + last[..m] && all[n] == last[m];
          RunAppend(e, front, last[..m]);
          assert FreshStep(After(e, s, last[..m]), last[m]);
        }
      }
    }
  }

  // In every serial run the replacements are ranked by order of supersession, so
  // following them from any observation terminates, on the same parcel, at one
  // that is not superseded unless the start was imported as superseded.
  lemma SerialAcyclic(e: Engine, errands: seq<Errand>, i: Id)
    requires i < |Run(e, Script(errands)).db.observations|
    ensures var s := Run(e, Script(errands));
            && Ordered(s)
            && var obs := s.db.observations;
            var end := Follow(obs, Depths(obs, s.retired), i);
            && end < |obs| && obs[end].parcelId == obs[i].parcelId
            && (obs[end].state != ObsSuperseded <==> !(obs[i].state == ObsSuperseded && obs[i].version == 1))
  {
    hide Run, Depths, LinksOk, Follow;
    SerialIsFresh(e, errands);
    FreshRunsAcyclic(e, Script(errands));
    ObservationLinks(e, Script(errands));
    var s := Run(e, Script(errands));
    FollowEnds(s.db.observations, Depths(s.db.observations, s.retired), i);
  }

  // ---------------------------------------------------------- two overlapping calls

  function Supersede(id: Id, version: nat, replacement: Id): Request {
    TransitionObservation(id, Some(ObsSuperseded), version, Some(replacement), "")
  }

  // Calls k and l supersede a and b by each other; each call finds the other's
  // observation active before either commits.
  function Overlap(obs: seq<Observation>, actor: Actor, a: Id, b: Id, k: nat, l: nat): seq<Action>
    requires a < |obs| && b < |obs|
  {
    [Begin(k, actor, Supersede(a, obs[a].version, b)), Begin(l, actor, Supersede(b, obs[b].version, a)),
     Advance(k), Advance(l), Commit(k), Commit(l)]
  }

  // Two accepted observations of one parcel, and an actor who may supersede them.
  ghost predicate Supersedable(s: Sys, actor: Actor, a: Id, b: Id) {
    && a != b && a < |s.db.observations| && b < |s.db.observations|
    && s.db.observations[a].state == ObsAccepted && s.db.observations[b].state == ObsAccepted
    && s.db.observations[a].parcelId == s.db.observations[b].parcelId
    && (actor.role == Surveyor || actor.role == GisAnalyst || actor.role == Admin)
    && Trim(actor.requestId) != ""
  }

  lemma OneLoads(e: Engine, s: Sys, actor: Actor, a: Id, b: Id, k: nat)
    requires Supersedable(s, actor, a, b) && k !in s.calls
    ensures Step(e, s, Begin(k, actor, Supersede(a, s.db.observations[a].version, b)))
         == s.(calls := s.calls[k := Call(actor, Superseding(a, s.db.observations[a], b, ""))])
  {
    hide Trim;
    TrimStays("");
  }

  lemma OneChecks(e: Engine, s: Sys, actor: Actor, a: Id, b: Id, k: nat)
    requires Supersedable(s, actor, a, b)
    requires k in s.calls && s.calls[k] == Call(actor, Superseding(a, s.db.observations[a], b, ""))
    ensures Step(e, s, Advance(k))
         == s.(calls := s.calls[k := Call(actor, ObservationMove(a, s.db.observations[a], ObsSuperseded, Some(b), ""))])
  {
  }

  lemma OneCommits(e: Engine, s: Sys, actor: Actor, a: Id, b: Id, k: nat)
    requires a < |s.db.observations| && Trim(actor.requestId) != ""
    requires k in s.calls
    requires s.calls[k] == Call(actor, ObservationMove(a, s.db.observations[a], ObsSuperseded, Some(b), ""))
    ensures var t := Step(e, s, Commit(k));
            && t.calls == s.calls - {k}
            && t.db.observations == s.db.observations[a :=
                 MovedObservation(s.db.observations[a], ObsSuperseded, Some(b), "")]
  {
    hide Trim, MovedObservation;
  }

  lemma BothLoaded(e: Engine, s: Sys, actor: Actor, a: Id, b: Id, k: nat, l: nat)
    requires Supersedable(s, actor, a, b) && k != l && k !in s.calls && l !in s.calls
    ensures var obs := s.db.observations;
            var steps := Overlap(obs, actor, a, b, k, l);
            var t := Step(e, Step(e, Step(e, Step(e, s, steps[0]), steps[1]), steps[2]), steps[3]);
            && t.db == s.db
            && k in t.calls && t.calls[k] == Call(actor, ObservationMove(a, obs[a], ObsSuperseded, Some(b), ""))
            && l in t.calls && t.calls[l] == Call(actor, ObservationMove(b, obs[b], ObsSuperseded, Some(a), ""))
  {
    hide Trim, Step;
    var steps := Overlap(s.db.observations, actor, a, b, k, l);
    OneLoads(e, s, actor, a, b, k);
    var s1 := Step(e, s, steps[0]);
    OneLoads(e, s1, actor, b, a, l);
    var s2 := Step(e, s1, steps[1]);
    OneChecks(e, s2, actor, a, b, k);
    OneChecks(e, Step(e, s2, steps[2]), actor, b, a, l);
  }

  lemma BothCommit(e: Engine, s: Sys, actor: Actor, a: Id, b: Id, k: nat, l: nat)
    requires Supersedable(s, actor, a, b) && k != l && k in s.calls && l in s.calls
    requires s.calls[k] == Call(actor, ObservationMove(a, s.db.observations[a], ObsSuperseded, Some(b), ""))
    requires s.calls[l] == Call(actor, ObservationMove(b, s.db.observations[b], ObsSuperseded, Some(a), ""))
    ensures Linked(Step(e, Step(e, s, Commit(k)), Commit(l)).db.observations, a, b)
  {
    hide Trim, Step;
    OneCommits(e, s, actor, a, b, k);
    OneCommits(e, Step(e, s, Commit(k)), actor, b, a, l);
  }

  ghost predicate Linked(obs: seq<Observation>, a: Id, b: Id) {
    a < |obs| && b < |obs| && obs[a].replacedBy == Some(b) && obs[b].replacedBy == Some(a)
  }

  lemma LinkedIsCyclic(obs: seq<Observation>, a: Id, b: Id)
    requires Linked(obs, a, b)
    ensures Walk(obs, [a, b, a]) && !Acyclic(obs)
  {
    forall rank ensures !Ranked(obs, rank) {
    }
  }

  // From any state, for any two accepted observations of one parcel, two
  // overlapping calls that supersede each by the other both commit, and leave a
  // cycle.
  lemma OverlapMakesCycle(e: Engine, s: Sys, actor: Actor, a: Id, b: Id, k: nat, l: nat)
    requires Supersedable(s, actor, a, b) && k != l && k !in s.calls && l !in s.calls
    ensures var obs := After(e, s, Overlap(s.db.observations, actor, a, b, k, l)).db.observations;
            Walk(obs, [a, b, a]) && !Acyclic(obs)
  {
    hide Step, After, Trim, Linked;
    var steps := Overlap(s.db.observations, actor, a, b, k, l);
    SixSteps(e, s, steps);
    BothLoaded(e, s, actor, a, b, k, l);
    var t := Step(e, Step(e, Step(e, Step(e, s, steps[0]), steps[1]), steps[2]), steps[3]);
    SameTable(s, t, actor, a, b);
    BothCommit(e, t, actor, a, b, k, l);
    LinkedIsCyclic(After(e, s, steps).db.observations, a, b);
  }

  lemma SameTable(s: Sys, t: Sys, actor: Actor, a: Id, b: Id)
    requires Supersedable(s, actor, a, b) && t.db == s.db
    ensures Supersedable(t, actor, a, b)
  {
  }

  lemma SixSteps(e: Engine, s: Sys, a: seq<Action>)
    requires |a| == 6
    ensures After(e, s, a)
       == Step(e, Step(e, Step(e, Step(e, Step(e, Step(e, s, a[0]), a[1]), a[2]), a[3]), a[4]), a[5])
  {
    hide Step, After;
    AfterNone(e, s);
    AfterStep(e, s, a[..0], a[0]);
    AfterStep(e, s, a[..1], a[1]);
    AfterStep(e, s, a[..2], a[2]);
    AfterStep(e, s, a[..3], a[3]);
    AfterStep(e, s, a[..4], a[4]);
    AfterStep(e, s, a[..5], a[5]);
    assert a[..0] == [] && a[..1] == a[..0] + [a[0]] && a[..2] == a[..1] + [a[1]] && a[..3] == a[..2] + [a[2]];
    assert a[..4] == a[..3] + [a[3]] && a[..5] == a[..4] + [a[4]] && a == a[..5] + [a[5]];
  }

  // --------------------------------------------------------------- one such run

  const EXAMPLE := Engine(_ => Some(1.0), _ => true, _ => true, s => s, _ => "n", _ => "t")

  const SURVEYOR := Actor(7, Surveyor, "req-1")

  const PARCEL := Parcel("P1", "Field", "{polygon}", "EPSG:3857", 1.0, 1, "Owner", "active")

  const CREATE_PARCEL := CreateParcel("P1", "Field", "{polygon}", "EPSG:3857", "Owner", "active")

  function Import(code: string): Request {
    ImportObservation(0, code, "{point}", None, "")
  }

  function Imported(code: string): Observation {
    Observation(0, code, "{point}", ObsAccepted, 1, None, "", 7)
  }

  const SETUP: seq<Action> := [
    Begin(0, SURVEYOR, CREATE_PARCEL), Commit(0),
    Begin(0, SURVEYOR, Import("O1")), Commit(0),
    Begin(0, SURVEYOR, Import("O2")), Commit(0)]

  lemma ExampleTrims()
    ensures Trim("") == "" && Trim("P1") == "P1" && Trim("Field") == "Field" && Trim("Owner") == "Owner"
    ensures Trim("O1") == "O1" && Trim("O2") == "O2" && Trim("req-1") == "req-1"
    ensures Upper(Trim("EPSG:3857")) == "EPSG:3857"
  {
    hide Trim, Upper;
    TrimStays("");
    TrimStays("P1");
    TrimStays("Field");
    TrimStays("Owner");
    TrimStays("O1");
    TrimStays("O2");
    TrimStays("req-1");
    TrimStays("EPSG:3857");
    UpperStays("EPSG:3857");
  }

  lemma ExampleParcel(e: Engine)
    requires e == EXAMPLE
    ensures var t := Step(e, Step(e, INITIAL, SETUP[0]), SETUP[1]);
            && t.calls == map[] && t.db.parcels == [PARCEL] && t.db.observations == [] && t.db.proposals == []
            && t.db.audits == [AuditLog(7, "req-1", ParcelCreated(0, PARCEL))]
  {
    hide Trim, Upper;
    ExampleTrims();
  }

  lemma ExampleImport(e: Engine, s: Sys, code: string)
    requires e == EXAMPLE && s.calls == map[] && |s.db.parcels| > 0
    requires code == "O1" || code == "O2"
    requires forall i :: 0 <= i < |s.db.observations| ==> s.db.observations[i].code != code
    ensures var t := Step(e, Step(e, s, Begin(0, SURVEYOR, Import(code))), Commit(0));
            && t.calls == map[] && t.db.parcels == s.db.parcels
            && t.db.observations == s.db.observations + [Imported(code)]
  {
    hide Trim;
    ExampleTrims();
  }

  lemma SetupState(e: Engine)
    requires e == EXAMPLE
    ensures After(e, INITIAL, SETUP).calls == map[]
    ensures After(e, INITIAL, SETUP).db.observations == [Imported("O1"), Imported("O2")]
  {
    hide Step, After;
    var a := SETUP;
    SixSteps(e, INITIAL, a);
    ExampleParcel(e);
    var s := Step(e, Step(e, INITIAL, a[0]), a[1]);
    ExampleImport(e, s, "O1");
    ExampleImport(e, Step(e, Step(e, s, a[2]), a[3]), "O2");
  }

  const OVERLAP: seq<Action> := Overlap([Imported("O1"), Imported("O2")], SURVEYOR, 0, 1, 1, 2)

  // A run from the empty store that ends in a cycle.
  lemma CyclicRun()
    ensures var obs := Run(EXAMPLE, SETUP + OVERLAP).db.observations;
            Walk(obs, [0, 1, 0]) && !Acyclic(obs)
  {
    hide After, Step, Trim;
    ExampleTrims();
    RunAppend(EXAMPLE, [], SETUP);
    assert [] + SETUP == SETUP;
    RunAppend(EXAMPLE, SETUP, OVERLAP);
    SetupState(EXAMPLE);
    OverlapMakesCycle(EXAMPLE, Run(EXAMPLE, SETUP), SURVEYOR, 0, 1, 1, 2);
  }
}

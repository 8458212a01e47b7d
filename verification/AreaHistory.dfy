// Areas across parcel updates and both ways of creating proposals, and what an
// update guarded by a version it did not read can do.

module AreaHistory {
  import opened Options
  import opened Domain
  import opened Database
  import opened Services
  import opened Interleaving
  import opened Evolution
  import opened SerialRuns

  // A parcel's stored area is the area of its stored boundary, and its version
  // counts the boundaries it has had.
  lemma ParcelAreas(e: Engine, actions: seq<Action>, i: Id)
    requires i < |Run(e, actions).db.parcels|
    ensures var s := Run(e, actions);
            && e.polygonArea(s.db.parcels[i].boundary) == Some(s.db.parcels[i].area)
            && i < |s.history| && |s.history[i]| == s.db.parcels[i].version >= 1
            && s.history[i][s.db.parcels[i].version - 1] == s.db.parcels[i].boundary
  {
    hide Run, CallOk, DeltaOk;
    RunBase(e, actions);
    assert ParcelOk(e, Run(e, actions).db.parcels[i], Run(e, actions).history[i]);
  }

  // A proposal's area delta is its area minus the area of the parcel's boundary
  // as it stood at the base version, which the parcel has reached.
  lemma ProposalDeltas(e: Engine, actions: seq<Action>, i: Id)
    requires i < |Run(e, actions).db.proposals|
    ensures var s := Run(e, actions);
            && DeltaOk(e, s.history, s.db.proposals[i])
            && s.db.proposals[i].parcelId < |s.db.parcels|
            && 1 <= s.db.proposals[i].baseVersion <= s.db.parcels[s.db.proposals[i].parcelId].version
  {
    hide Run, CallOk;
    RunBase(e, actions);
    var s := Run(e, actions);
    var p := s.db.proposals[i].parcelId;
    assert DeltaOk(e, s.history, s.db.proposals[i]);
    assert ParcelOk(e, s.db.parcels[p], s.history[p]);
  }

  // The past of a parcel is never rewritten.
  lemma {:induction false} HistoryKept(e: Engine, actions: seq<Action>, more: seq<Action>, i: Id)
    requires i < |Run(e, actions).history|
    ensures i < |Run(e, actions + more).history| && Run(e, actions).history[i] <= Run(e, actions + more).history[i]
    decreases more
  {
    hide Step, Base;
    if more == [] {
      assert actions + more == actions;
    } else {
      var front := more[..|more| - 1];
      HistoryKept(e, actions, front, i);
      assert (actions + more)[..|actions + more| - 1] == actions + front;
      RunBase(e, actions + front);
      StepBase(e, Run(e, actions + front), more[|more| - 1]);
    }
  }

  // A committed update stores, and returns, what was computed from the row it had
  // read, one version on; it writes every column, requested or not.
  lemma UpdateStores(e: Engine, s: Sys, c: Call)
    requires Reachable(e, s) && c in s.calls.Values && c.pending.ParcelUpdate? && Committed(s, c).Some?
    ensures c.pending.id < |Committed(s, c).value.db.parcels|
    ensures Committed(s, c).value.db.parcels[c.pending.id] == c.pending.after.(version := c.pending.expected + 1)
    ensures ParcelResponse(c.pending.after, c.pending.expected) == Committed(s, c).value.db.parcels[c.pending.id]
  {
    hide Trim, Reachable;
    ReachableCall(e, s, c);
  }

  // ------------------------------------------------------- a guessed version

  const NO_CHANGE := ParcelChanges(None, None, None, None, None)

  const RENAME := UpdateParcel(0, NO_CHANGE.(name := Some("North")), None)

  // Asks for the version that the parcel will have after the other update.
  const REASSIGN := UpdateParcel(0, NO_CHANGE.(owner := Some("City")), Some(2))

  const CREATE: seq<Action> := [Begin(0, SURVEYOR, CREATE_PARCEL), Commit(0)]

  const GUESS: seq<Action> := [Begin(1, SURVEYOR, RENAME), Begin(2, SURVEYOR, REASSIGN), Commit(1), Commit(2)]

  lemma GuessSteps(e: Engine, s: Sys)
    requires e == EXAMPLE && s.calls == map[] && s.db.parcels == [PARCEL]
    ensures var t := Step(e, Step(e, Step(e, s, GUESS[0]), GUESS[1]), GUESS[2]);
            && t.db.parcels == [PARCEL.(name := "North", version := 2)]
            && Step(e, t, GUESS[3]).db.parcels == [PARCEL.(owner := "City", version := 3)]
  {
    hide Trim;
    ExampleTrims();
    NameTrims();
    var s1 := Step(e, s, GUESS[0]);
    assert s1.calls == map[1 := Call(SURVEYOR, ParcelUpdate(0, PARCEL, PARCEL.(name := "North"), 1))];
    var s2 := Step(e, s1, GUESS[1]);
    assert s2.calls == s1.calls[2 := Call(SURVEYOR, ParcelUpdate(0, PARCEL, PARCEL.(owner := "City"), 2))];
    var t := Step(e, s2, GUESS[2]);
    assert t.calls == map[2 := s2.calls[2]];
  }

  lemma NameTrims()
    ensures Trim("North") == "North" && Trim("City") == "City"
  {
    hide Trim;
    TrimStays("North");
    TrimStays("City");
  }

  // The update that guesses the next version commits after the other one and
  // undoes it: the new name is gone.
  lemma GuessedVersionUndoes()
    ensures Run(EXAMPLE, CREATE + GUESS[..3]).db.parcels == [PARCEL.(name := "North", version := 2)]
    ensures Run(EXAMPLE, CREATE + GUESS).db.parcels == [PARCEL.(owner := "City", version := 3)]
  {
    hide Step, After;
    var e := EXAMPLE;
    AfterNone(e, INITIAL);
    AfterStep(e, INITIAL, CREATE[..0], CREATE[0]);
    AfterStep(e, INITIAL, CREATE[..1], CREATE[1]);
    assert CREATE[..0] == [] && CREATE[..1] == CREATE[..0] + [CREATE[0]] && CREATE == CREATE[..1] + [CREATE[1]];
    ExampleParcel(e);
    RunAppend(e, [], CREATE);
    assert [] + CREATE == CREATE;
    var s := Run(e, CREATE);
    AfterNone(e, s);
    AfterStep(e, s, GUESS[..0], GUESS[0]);
    AfterStep(e, s, GUESS[..1], GUESS[1]);
    AfterStep(e, s, GUESS[..2], GUESS[2]);
    AfterStep(e, s, GUESS[..3], GUESS[3]);
    assert GUESS[..0] == [] && GUESS[..1] == GUESS[..0] + [GUESS[0]] && GUESS[..2] == GUESS[..1] + [GUESS[1]];
    assert GUESS[..3] == GUESS[..2] + [GUESS[2]] && GUESS == GUESS[..3] + [GUESS[3]];
    GuessSteps(e, s);
    RunAppend(e, CREATE, GUESS[..3]);
    RunAppend(e, CREATE, GUESS);
  }
}

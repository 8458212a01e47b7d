// The supersession graph of survey observations: what holds under any
// interleaving, when it stays acyclic, and where following it leads.

module ObservationLifecycle {
  import opened Options
  import opened Domain
  import opened Database
  import opened Services
  import opened Interleaving
  import opened Evolution

  // -------------------------------------------------- links, in any interleaving

  // Only superseded observations have a replacement: another observation of the
  // same parcel, itself with a replacement if superseded. A superseded one
  // without a replacement was imported that way.
  ghost predicate LinkOk(obs: seq<Observation>, i: Id)
    requires i < |obs|
  {
    && obs[i].version >= 1
    && (obs[i].replacedBy.Some? ==>
          && obs[i].state == ObsSuperseded && obs[i].version > 1
          && obs[i].replacedBy.value < |obs|
          && obs[i].replacedBy.value != i
          && obs[obs[i].replacedBy.value].parcelId == obs[i].parcelId
          && (obs[obs[i].replacedBy.value].state == ObsSuperseded ==> obs[obs[i].replacedBy.value].replacedBy.Some?))
    && (obs[i].state == ObsSuperseded && obs[i].replacedBy.None? ==> obs[i].version == 1)
  }

  ghost predicate LinksOk(obs: seq<Observation>) {
    forall i :: 0 <= i < |obs| ==> LinkOk(obs, i)
  }

  ghost predicate RetiredOk(s: Sys) {
    && (forall i :: i in s.retired ==> i < |s.db.observations|)
    && (forall i :: 0 <= i < |s.db.observations| ==> (i in s.retired <==> s.db.observations[i].replacedBy.Some?))
  }

  lemma CommittedLinks(e: Engine, s: Sys, c: Call)
    requires CallOk(e, s, c) && LinksOk(s.db.observations) && RetiredOk(s) && Committed(s, c).Some?
    ensures LinksOk(Committed(s, c).value.db.observations) && RetiredOk(Committed(s, c).value)
  {
    hide Trim, DeltaOk, ParcelCodeTaken, ObservationCodeTaken, InsertDetected, RunTaken, LinkOk;
    var t := Committed(s, c).value;
    match c.pending {
      case NewObservation(row) =>
        forall i | 0 <= i < |t.db.observations| ensures LinkOk(t.db.observations, i) {
          ImportLink(s.db.observations, row, i);
        }
      case ObservationMove(id, loaded, to, replacement, note) =>
        ObservationGuard(e, s, c);
        forall i | 0 <= i < |t.db.observations| ensures LinkOk(t.db.observations, i) {
          MoveLink(e, s, c, i);
        }
        MoveRetired(e, s, c);
      case DetectReady(_, _, _, _, rows) => DetectedAppends(s.db, c.actor, rows);
      case _ =>
    }
  }

  lemma ImportLink(obs: seq<Observation>, row: Observation, i: Id)
    requires LinksOk(obs) && row.version == 1 && row.replacedBy == None && i <= |obs|
    ensures LinkOk(obs + [row], i)
  {
    if i < |obs| {
      assert LinkOk(obs, i);
    }
  }

  lemma MoveLink(e: Engine, s: Sys, c: Call, i: Id)
    requires CallOk(e, s, c) && LinksOk(s.db.observations) && c.pending.ObservationMove? && Committed(s, c).Some?
    requires i < |s.db.observations|
    ensures |Committed(s, c).value.db.observations| == |s.db.observations|
    ensures LinkOk(Committed(s, c).value.db.observations, i)
  {
    hide Trim;
    ObservationGuard(e, s, c);
    assert LinkOk(s.db.observations, i);
    assert LinkOk(s.db.observations, c.pending.id);
  }

  lemma MoveRetired(e: Engine, s: Sys, c: Call)
    requires CallOk(e, s, c) && LinksOk(s.db.observations) && RetiredOk(s)
    requires c.pending.ObservationMove? && Committed(s, c).Some?
    ensures RetiredOk(Committed(s, c).value)
  {
    hide Trim;
    ObservationGuard(e, s, c);
    assert LinkOk(s.db.observations, c.pending.id);
  }

  lemma StepLinks(e: Engine, s: Sys, a: Action)
    requires Base(e, s) && LinksOk(s.db.observations) && RetiredOk(s)
    ensures LinksOk(Step(e, s, a).db.observations) && RetiredOk(Step(e, s, a))
  {
    hide Committed, RowsOk, CallOk, Step, LinksOk;
    StepShape(e, s, a);
    if WillCommit(s, a) {
      CommittedLinks(e, s, s.calls[a.call]);
    }
  }

  lemma {:induction false} ObservationLinks(e: Engine, actions: seq<Action>)
    ensures LinksOk(Run(e, actions).db.observations) && RetiredOk(Run(e, actions))
  {
    hide Step;
    if actions != [] {
      var front := actions[..|actions| - 1];
      ObservationLinks(e, front);
      RunBase(e, front);
      StepLinks(e, Run(e, front), actions[|actions| - 1]);
    }
  }

  lemma ReachableLinks(e: Engine, s: Sys)
    requires Reachable(e, s)
    ensures LinksOk(s.db.observations)
  {
    hide Run;
    var actions :| s == Run(e, actions);
    ObservationLinks(e, actions);
  }

  // The row a transition returns is the stored one.
  lemma ObservationResponseExact(e: Engine, s: Sys, c: Call)
    requires Reachable(e, s) && c in s.calls.Values
    requires c.pending.ObservationMove? && Committed(s, c).Some?
    ensures ObservationResponse(c.pending.loaded, c.pending.to, c.pending.replacement, c.pending.note)
         == Committed(s, c).value.db.observations[c.pending.id]
  {
    hide Trim, Reachable, LinkOk;
    ReachableCall(e, s, c);
    ReachableLinks(e, s);
    ObservationGuard(e, s, c);
    ActiveHasNoLink(s.db.observations, c.pending.id);
  }

  // ------------------------------------------------------------ ranked graphs

  // A rank that falls along every replacement.
  ghost predicate Ranked(obs: seq<Observation>, rank: seq<nat>) {
    && |rank| == |obs|
    && forall i :: 0 <= i < |obs| && obs[i].replacedBy.Some? ==>
         obs[i].replacedBy.value < |obs| && rank[obs[i].replacedBy.value] < rank[i]
  }

  ghost predicate Acyclic(obs: seq<Observation>) {
    exists rank :: Ranked(obs, rank)
  }

  // The observation at the end of the chain of replacements.
  ghost function Follow(obs: seq<Observation>, rank: seq<nat>, i: Id): Id
    requires Ranked(obs, rank) && i < |obs|
    decreases rank[i]
  {
    if obs[i].replacedBy.None? then i else Follow(obs, rank, obs[i].replacedBy.value)
  }

  // A walk along replacements.
  ghost predicate Walk(obs: seq<Observation>, path: seq<Id>) {
    && (forall n :: 0 <= n < |path| ==> path[n] < |obs|)
    && (forall n :: 0 <= n < |path| - 1 ==> obs[path[n]].replacedBy == Some(path[n + 1]))
  }

  lemma {:induction false} RanksFall(obs: seq<Observation>, rank: seq<nat>, path: seq<Id>)
    requires Ranked(obs, rank) && Walk(obs, path) && |path| > 1
    ensures rank[path[|path| - 1]] < rank[path[0]]
  {
    if |path| > 2 {
      RanksFall(obs, rank, path[1..]);
    }
  }

  // In an acyclic graph no walk returns to where it started.
  lemma NoCycle(obs: seq<Observation>, path: seq<Id>)
    requires Acyclic(obs) && Walk(obs, path) && |path| > 1
    ensures path[0] != path[|path| - 1]
  {
    var rank :| Ranked(obs, rank);
    RanksFall(obs, rank, path);
  }

  // Following replacements ends on the same parcel. It ends at an observation
  // that is not superseded, unless it starts at one imported as superseded.
  lemma {:induction false} FollowEnds(obs: seq<Observation>, rank: seq<nat>, i: Id)
    requires LinksOk(obs) && Ranked(obs, rank) && i < |obs|
    ensures var end := Follow(obs, rank, i);
            && end < |obs|
            && obs[end].replacedBy.None?
            && obs[end].parcelId == obs[i].parcelId
            && (obs[end].state != ObsSuperseded <==> !(obs[i].state == ObsSuperseded && obs[i].version == 1))
    decreases rank[i]
  {
    assert LinkOk(obs, i);
    if obs[i].replacedBy.Some? {
      FollowEnds(obs, rank, obs[i].replacedBy.value);
      assert LinkOk(obs, obs[i].replacedBy.value);
    }
  }

  lemma {:induction false} FollowRank(
    obs: seq<Observation>, rank: seq<nat>, later: seq<Observation>, other: seq<nat>, i: Id)
    requires Ranked(obs, rank) && Ranked(later, other) && |obs| <= |later| && i < |obs|
    requires forall j :: 0 <= j < |obs| && obs[j].replacedBy.Some? ==> later[j].replacedBy == obs[j].replacedBy
    ensures Follow(obs, rank, i) < |obs| && other[Follow(obs, rank, i)] <= other[i]
    decreases rank[i]
  {
    if obs[i].replacedBy.Some? {
      FollowRank(obs, rank, later, other, obs[i].replacedBy.value);
    }
  }

  function Sum(rank: seq<nat>): nat {
    if rank == [] then 0 else Sum(rank[..|rank| - 1]) + rank[|rank| - 1]
  }

  lemma {:induction false} SumBounds(rank: seq<nat>, i: nat)
    requires i < |rank|
    ensures rank[i] <= Sum(rank)
  {
    if i < |rank| - 1 {
      SumBounds(rank[..|rank| - 1], i);
    }
  }

  // Linking id to replacement closes a cycle exactly when the chain from the
  // replacement already ends at id.
  lemma LinkAcyclicExactly(obs: seq<Observation>, rank: seq<nat>, id: Id, replacement: Id, linked: seq<Observation>)
    requires Ranked(obs, rank) && id < |obs| && replacement < |obs| && obs[id].replacedBy.None?
    requires |linked| == |obs| && linked[id].replacedBy == Some(replacement)
    requires forall j :: 0 <= j < |obs| && j != id ==> linked[j].replacedBy == obs[j].replacedBy
    ensures Acyclic(linked) <==> Follow(obs, rank, replacement) != id
  {
    if Follow(obs, rank, replacement) != id {
      var high := Sum(rank) + 1;
      var lifted: seq<nat> := seq(|rank|, j requires 0 <= j < |rank| =>
        rank[j] + (if Follow(obs, rank, j) == id then high else 0));
      SumBounds(rank, replacement);
      assert Ranked(linked, lifted);
    }
    if Acyclic(linked) {
      var other :| Ranked(linked, other);
      FollowRank(obs, rank, linked, other, replacement);
    }
  }

  // The supersession a call commits keeps the graph acyclic exactly when, at
  // that moment, the chain from the replacement does not end at the observation
  // being superseded.
  lemma SupersedeAcyclicExactly(e: Engine, s: Sys, c: Call, rank: seq<nat>)
    requires Reachable(e, s) && c in s.calls.Values && Ranked(s.db.observations, rank)
    requires c.pending.ObservationMove? && c.pending.replacement.Some? && Committed(s, c).Some?
    ensures c.pending.replacement.value < |s.db.observations|
    ensures Acyclic(Committed(s, c).value.db.observations)
       <==> Follow(s.db.observations, rank, c.pending.replacement.value) != c.pending.id
  {
    hide Trim, Ranked, Acyclic, LinkOk, Reachable;
    ReachableCall(e, s, c);
    ReachableLinks(e, s);
    ObservationGuard(e, s, c);
    ActiveHasNoLink(s.db.observations, c.pending.id);
    LinkAcyclicExactly(s.db.observations, rank, c.pending.id, c.pending.replacement.value,
                       Committed(s, c).value.db.observations);
  }

  lemma ActiveHasNoLink(obs: seq<Observation>, i: Id)
    requires LinksOk(obs) && i < |obs| && obs[i].state != ObsSuperseded
    ensures obs[i].replacedBy.None?
  {
    assert LinkOk(obs, i);
  }

  // --------------------------------------------- the order of supersession ranks

  // 0 if never superseded by a call; else how many supersessions ago it was.
  function Depth(retired: seq<Id>, i: Id): nat {
    if retired == [] then 0
    else if retired[|retired| - 1] == i then 1
    else
      var earlier := Depth(retired[..|retired| - 1], i);
      if earlier == 0 then 0 else earlier + 1
  }

  lemma {:induction false} DepthZero(retired: seq<Id>, i: Id)
    ensures Depth(retired, i) == 0 <==> i !in retired
  {
    if retired != [] {
      DepthZero(retired[..|retired| - 1], i);
      assert retired == retired[..|retired| - 1] + [retired[|retired| - 1]];
    }
  }

  function Depths(obs: seq<Observation>, retired: seq<Id>): seq<nat> {
    seq(|obs|, i requires 0 <= i < |obs| => Depth(retired, i))
  }

  ghost predicate Ordered(s: Sys) {
    Ranked(s.db.observations, Depths(s.db.observations, s.retired))
  }

  // When this step supersedes, the replacement has not been superseded itself.
  ghost predicate FreshStep(s: Sys, a: Action) {
    WillCommit(s, a) && s.calls[a.call].pending.ObservationMove? && s.calls[a.call].pending.replacement.Some? ==>
      var replacement := s.calls[a.call].pending.replacement.value;
      replacement < |s.db.observations| && s.db.observations[replacement].state != ObsSuperseded
  }

  ghost predicate FreshRun(e: Engine, actions: seq<Action>) {
    forall n :: 0 <= n < |actions| ==> FreshStep(Run(e, actions[..n]), actions[n])
  }

  lemma DepthAppend(retired: seq<Id>, id: Id, i: Id)
    ensures Depth(retired + [id], i)
         == if i == id then 1 else if Depth(retired, i) == 0 then 0 else Depth(retired, i) + 1
  {
    assert (retired + [id])[..|retired + [id]| - 1] == retired;
  }

  lemma SupersedeOrdered(e: Engine, s: Sys, c: Call)
    requires CallOk(e, s, c) && LinksOk(s.db.observations) && RetiredOk(s) && Ordered(s)
    requires c.pending.ObservationMove? && c.pending.replacement.Some? && Committed(s, c).Some?
    requires s.db.observations[c.pending.replacement.value].state != ObsSuperseded
    ensures Ordered(Committed(s, c).value)
  {
    hide Trim, Depth, LinkOk;
    ObservationGuard(e, s, c);
    var t, id, target := Committed(s, c).value, c.pending.id, c.pending.replacement.value;
    ActiveHasNoLink(s.db.observations, target);
    forall i | 0 <= i < |t.db.observations| && t.db.observations[i].replacedBy.Some?
      ensures t.db.observations[i].replacedBy.value < |t.db.observations|
      ensures Depth(t.retired, t.db.observations[i].replacedBy.value) < Depth(t.retired, i)
    {
      var r := t.db.observations[i].replacedBy.value;
      DepthAppend(s.retired, id, i);
      DepthAppend(s.retired, id, r);
      DepthZero(s.retired, target);
      if i != id {
        assert s.db.observations[i].replacedBy == Some(r);
        assert Depths(s.db.observations, s.retired)[r] < Depths(s.db.observations, s.retired)[i];
        DepthZero(s.retired, id);
        ActiveHasNoLink(s.db.observations, id);
      }
    }
  }

  lemma CommittedOrdered(e: Engine, s: Sys, c: Call)
    requires CallOk(e, s, c) && LinksOk(s.db.observations) && RetiredOk(s) && Ordered(s) && Committed(s, c).Some?
    requires c.pending.ObservationMove? && c.pending.replacement.Some? ==>
               s.db.observations[c.pending.replacement.value].state != ObsSuperseded
    ensures Ordered(Committed(s, c).value)
  {
    hide Trim, Depth, LinkOk, DeltaOk, ParcelCodeTaken, ObservationCodeTaken, InsertDetected, RunTaken;
    var t := Committed(s, c).value;
    match c.pending {
      case ObservationMove(id, _, _, replacement, _) =>
        if replacement.Some? {
          SupersedeOrdered(e, s, c);
        } else {
          ObservationGuard(e, s, c);
          assert Depths(t.db.observations, t.retired) == Depths(s.db.observations, s.retired);
        }
      case NewObservation(row) => ImportOrdered(s, t, row);
      case DetectReady(_, _, _, _, rows) => DetectedAppends(s.db, c.actor, rows);
      case _ =>
    }
  }

  lemma ImportOrdered(s: Sys, t: Sys, row: Observation)
    requires Ordered(s) && row.replacedBy.None?
    requires t.retired == s.retired && t.db.observations == s.db.observations + [row]
    ensures Ordered(t)
  {
    hide Depth;
    var before, after := Depths(s.db.observations, s.retired), Depths(t.db.observations, t.retired);
    assert forall i :: 0 <= i < |s.db.observations| ==> after[i] == before[i];
  }

  lemma StepOrdered(e: Engine, s: Sys, a: Action)
    requires Base(e, s) && LinksOk(s.db.observations) && RetiredOk(s) && Ordered(s) && FreshStep(s, a)
    ensures Ordered(Step(e, s, a))
  {
    hide Committed, RowsOk, CallOk, Step, LinksOk, Ranked, Depths;
    StepShape(e, s, a);
    if WillCommit(s, a) {
      CommittedOrdered(e, s, s.calls[a.call]);
    }
  }

  // If no supersession picks an already superseded replacement at its commit,
  // the replacements form an acyclic graph, ranked by order of supersession.
  lemma {:induction false} FreshRunsAcyclic(e: Engine, actions: seq<Action>)
    requires FreshRun(e, actions)
    ensures Ordered(Run(e, actions))
  {
    hide Step, FreshStep, Ranked;
    if actions != [] {
      var n := |actions| - 1;
      var front := actions[..n];
      assert FreshStep(Run(e, front), actions[n]);
      forall m | 0 <= m < |front| ensures FreshStep(Run(e, front[..m]), front[m]) {
        assert front[..m] == actions[..m];
        assert FreshStep(Run(e, actions[..m]), actions[m]);
      }
      FreshRunsAcyclic(e, front);
      RunBase(e, front);
      ObservationLinks(e, front);
      StepOrdered(e, Run(e, front), actions[n]);
    } else {
      EmptyOrdered();
    }
  }

  lemma EmptyOrdered()
    ensures Ordered(INITIAL)
  {
  }
}

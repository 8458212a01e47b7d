// The store as the repositories of backend/internal/repository use it: tables
// that inserts and guarded updates change in place.

module Repository {
  import opened Options
  import opened Domain
  import opened Database

  // sort.Slice on ids.
  function InsertId(id: Id, ids: seq<Id>): (r: seq<Id>)
    ensures |r| == |ids| + 1 && forall x :: x in r <==> x == id || x in ids
  {
    if ids == [] then [id] else if id <= ids[0] then [id] + ids else [ids[0]] + InsertId(id, ids[1..])
  }

  function SortIds(ids: seq<Id>): (r: seq<Id>)
    ensures |r| == |ids| && forall x :: x in r <==> x in ids
  {
    if ids == [] then [] else InsertId(ids[0], SortIds(ids[1..]))
  }

  ghost predicate NonDecreasing(ids: seq<Id>) {
    forall i, j :: 0 <= i < j < |ids| ==> ids[i] <= ids[j]
  }

  ghost predicate Increasing(ids: seq<Id>) {
    forall i, j :: 0 <= i < j < |ids| ==> ids[i] < ids[j]
  }

  lemma HeadBelow(head: Id, rest: seq<Id>)
    requires NonDecreasing(rest) && forall x :: x in rest ==> head <= x
    ensures NonDecreasing([head] + rest)
  {
    assert forall k :: 0 <= k < |rest| ==> rest[k] in rest;
  }

  lemma {:induction false} InsertSorted(id: Id, ids: seq<Id>)
    requires NonDecreasing(ids)
    ensures NonDecreasing(InsertId(id, ids))
  {
    if ids != [] && id > ids[0] {
      InsertSorted(id, ids[1..]);
      HeadBelow(ids[0], InsertId(id, ids[1..]));
    }
  }

  lemma {:induction false} SortIdsSorted(ids: seq<Id>)
    ensures NonDecreasing(SortIds(ids))
  {
    hide InsertId;
    if ids != [] {
      SortIdsSorted(ids[1..]);
      InsertSorted(ids[0], SortIds(ids[1..]));
    }
  }

  // Equal neighbours merged.
  function Compact(ids: seq<Id>): seq<Id> {
    if ids == [] then []
    else
      var n := |ids| - 1;
      var front := Compact(ids[..n]);
      if front != [] && front[|front| - 1] == ids[n] then front else front + [ids[n]]
  }

  ghost predicate EndsWith(ids: seq<Id>, id: Id) {
    ids != [] && ids[|ids| - 1] == id
  }

  lemma {:induction false} CompactMembers(ids: seq<Id>)
    ensures ids != [] ==> EndsWith(Compact(ids), ids[|ids| - 1])
    ensures forall x :: x in Compact(ids) <==> x in ids
  {
    if ids != [] {
      var n := |ids| - 1;
      CompactMembers(ids[..n]);
      assert ids == ids[..n] + [ids[n]];
    }
  }

  lemma {:induction false} CompactIncreasing(ids: seq<Id>)
    requires NonDecreasing(ids)
    ensures Increasing(Compact(ids))
  {
    if ids != [] {
      var n := |ids| - 1;
      CompactIncreasing(ids[..n]);
      CompactMembers(ids[..n]);
      BelowLast(ids, Compact(ids[..n]));
    }
  }

  // An id above all but the last of an increasing list, and not the last, extends it.
  lemma BelowLast(ids: seq<Id>, front: seq<Id>)
    requires ids != [] && NonDecreasing(ids) && Increasing(front)
    requires forall x :: x in front ==> x in ids[..|ids| - 1]
    ensures EndsWith(front, ids[|ids| - 1]) || Increasing(front + [ids[|ids| - 1]])
  {
    var last := ids[|ids| - 1];
    forall k | 0 <= k < |front| ensures front[k] <= last {
      assert front[k] in front;
    }
  }

  // What uniqueSortedIDs returns: the given ids, each once, in order.
  lemma UniqueSorted(ids: seq<Id>)
    ensures Increasing(Compact(SortIds(ids)))
    ensures forall x :: x in Compact(SortIds(ids)) <==> x in ids
  {
    hide SortIds, Compact;
    SortIdsSorted(ids);
    CompactMembers(SortIds(ids));
    CompactIncreasing(SortIds(ids));
    assert forall x :: x in SortIds(ids) <==> x in ids by {
      SortIdsMembers(ids);
    }
  }

  lemma SortIdsMembers(ids: seq<Id>)
    ensures forall x :: x in SortIds(ids) <==> x in ids
  {
  }

  lemma CompactNext(sorted: seq<Id>, i: nat)
    requires i < |sorted|
    ensures Compact(sorted[..i + 1]) ==
            (var front := Compact(sorted[..i]);
             if front != [] && front[|front| - 1] == sorted[i] then front else front + [sorted[i]])
  {
    assert sorted[..i + 1][..i] == sorted[..i];
  }

  // sort.Slice.
  method SortInPlace(ids: array<Id>)
    modifies ids
    ensures ids[..] == SortIds(old(ids[..]))
  {
    hide SortIds;
    var sorted := SortIds(ids[..]);
    forall i | 0 <= i < ids.Length {
      ids[i] := sorted[i];
    }
    assert ids[..] == sorted;
  }

  // The kept ids share the array with the ones still to be looked at.
  method CompactInPlace(ids: array<Id>) returns (n: nat)
    modifies ids
    ensures n <= ids.Length
    ensures ids[..n] == Compact(old(ids[..]))
  {
    hide Compact;
    ghost var given := ids[..];
    n := 0;
    CompactEmpty();
    assert given[..0] == [];
    for i := 0 to ids.Length
      invariant n <= i
      invariant ids[..n] == Compact(given[..i])
      invariant forall k :: i <= k < ids.Length ==> ids[k] == given[k]
    {
      CompactNext(given, i);
      ghost var kept := ids[..n];
      if n == 0 || ids[n - 1] != ids[i] {
        ids[n] := ids[i];
        n := n + 1;
        assert ids[..n] == kept + [given[i]];
      }
    }
    assert given[..ids.Length] == given;
  }

  lemma CompactEmpty()
    ensures Compact([]) == []
  {
  }

  // uniqueSortedIDs; the result is the first n elements.
  method UniqueSortedIds(ids: array<Id>) returns (n: nat)
    modifies ids
    ensures n <= ids.Length
    ensures ids[..n] == Compact(SortIds(old(ids[..])))
  {
    SortInPlace(ids);
    n := CompactInPlace(ids);
  }

  const ACTIVE := "active"

  predicate IsNeighbour(parcel: Parcel, crs: string) {
    parcel.crs == crs && parcel.state == ACTIVE
  }

  ghost predicate KnownIds(parcels: seq<Parcel>, ids: seq<Id>) {
    forall k :: 0 <= k < |ids| ==> ids[k] < |parcels|
  }

  // ListActiveByCoordinateSystem: the other active parcels in id order.
  function Neighbours(parcels: seq<Parcel>, crs: string, exclude: Id): (r: seq<Id>)
    ensures forall i: Id :: i in r <==>
            i < |parcels| && i != exclude && parcels[i].crs == crs && parcels[i].state == "active"
    ensures Increasing(r) && KnownIds(parcels, r)
  {
    if parcels == [] then []
    else
      var n := |parcels| - 1;
      var earlier := Neighbours(parcels[..n], crs, exclude);
      assert forall k :: 0 <= k < |earlier| ==> earlier[k] in earlier;
      if n != exclude && IsNeighbour(parcels[n], crs) then earlier + [n] else earlier
  }

  lemma NoNeighbours(crs: string, exclude: Id)
    ensures Neighbours([], crs, exclude) == []
  {
  }

  lemma NextNeighbour(parcels: seq<Parcel>, crs: string, exclude: Id, i: nat)
    requires i < |parcels|
    ensures Neighbours(parcels[..i + 1], crs, exclude)
         == Neighbours(parcels[..i], crs, exclude) + (if i != exclude && IsNeighbour(parcels[i], crs) then [i] else [])
  {
    assert parcels[..i + 1][..i] == parcels[..i];
  }

  class Store {
    var parcels: seq<Parcel>
    var observations: seq<Observation>
    var proposals: seq<Proposal>
    var conflicts: seq<Conflict>
    var runs: seq<DetectionRun>
    var audits: seq<AuditLog>

    function Tables(): Db
      reads this
    {
      Db(parcels, observations, proposals, conflicts, runs, audits)
    }

    constructor ()
      ensures Tables() == EMPTY
    {
      parcels, observations, proposals := [], [], [];
      conflicts, runs, audits := [], [], [];
    }

    // Transaction rolls back by putting the tables back.
    method Rollback(saved: Db)
      modifies this
      ensures Tables() == saved
    {
      parcels, observations, proposals := saved.parcels, saved.observations, saved.proposals;
      conflicts, runs, audits := saved.conflicts, saved.runs, saved.audits;
    }

    method CreateAudit(actor: Actor, event: AuditEvent) returns (ok: bool)
      modifies this`audits
      ensures ok <==> WriteAudit(old(Tables()), actor, event).Some?
      ensures Tables() == if ok then WriteAudit(old(Tables()), actor, event).value else old(Tables())
    {
      if Trim(actor.requestId) == "" {
        return false;
      }
      audits := audits + [AuditLog(actor.id, actor.requestId, event)];
      return true;
    }

    method CreateParcel(row: Parcel) returns (ok: bool)
      modifies this`parcels
      ensures ok <==> InsertParcel(old(Tables()), row).Some?
      ensures Tables() == if ok then InsertParcel(old(Tables()), row).value else old(Tables())
    {
      for i := 0 to |parcels|
        invariant forall j :: 0 <= j < i ==> parcels[j].code != row.code
      {
        if parcels[i].code == row.code {
          return false;
        }
      }
      parcels := parcels + [row];
      return true;
    }

    method GetParcelByCode(code: string) returns (r: Option<Parcel>)
      ensures r.Some? <==> ParcelCodeTaken(Tables(), code)
      ensures r.Some? ==> r.value in parcels && r.value.code == code
    {
      for i := 0 to |parcels|
        invariant forall j :: 0 <= j < i ==> parcels[j].code != code
      {
        if parcels[i].code == code {
          return Some(parcels[i]);
        }
      }
      return None;
    }

    method ListActiveByCoordinateSystem(crs: string, exclude: Id) returns (ids: seq<Id>)
      ensures ids == Neighbours(parcels, crs, exclude)
    {
      hide Neighbours;
      ids := [];
      NoNeighbours(crs, exclude);
      assert parcels[..0] == [];
      for i := 0 to |parcels|
        invariant ids == Neighbours(parcels[..i], crs, exclude)
      {
        NextNeighbour(parcels, crs, exclude, i);
        if i != exclude && IsNeighbour(parcels[i], crs) {
          ids := ids + [i];
        }
      }
      assert parcels[..|parcels|] == parcels;
    }

    method UpdateParcel(id: Id, version: nat, after: Parcel) returns (ok: bool)
      modifies this`parcels
      ensures ok <==> UpdateParcelRow(old(Tables()), id, version, after).Some?
      ensures Tables() == if ok then UpdateParcelRow(old(Tables()), id, version, after).value else old(Tables())
    {
      if id >= |parcels| || parcels[id].version != version {
        return false;
      }
      parcels := parcels[id := parcels[id].(
        name := after.name, boundary := after.boundary, crs := after.crs, owner := after.owner,
        state := after.state, area := after.area, version := parcels[id].version + 1)];
      return true;
    }

    method CreateObservation(row: Observation) returns (ok: bool)
      modifies this`observations
      ensures ok <==> InsertObservation(old(Tables()), row).Some?
      ensures Tables() == if ok then InsertObservation(old(Tables()), row).value else old(Tables())
    {
      for i := 0 to |observations|
        invariant forall j :: 0 <= j < i ==> observations[j].code != row.code
      {
        if observations[i].code == row.code {
          return false;
        }
      }
      observations := observations + [row];
      return true;
    }

    method TransitionObservation(id: Id, version: nat, to: ObservationState, replacement: Option<Id>, note: string)
      returns (ok: bool)
      modifies this`observations
      ensures ok <==> MoveObservation(old(Tables()), id, version, to, replacement, note).Some?
      ensures Tables() ==
        if ok then MoveObservation(old(Tables()), id, version, to, replacement, note).value else old(Tables())
    {
      if id >= |observations| || observations[id].version != version {
        return false;
      }
      var row := observations[id].(state := to, version := observations[id].version + 1);
      if replacement.Some? {
        row := row.(replacedBy := replacement);
      }
      if Trim(note) != "" {
        row := row.(note := note);
      }
      observations := observations[id := row];
      return true;
    }

    method CreateProposal(row: Proposal) returns (id: Id)
      modifies this`proposals
      ensures Tables() == InsertProposal(old(Tables()), row) && id == |old(proposals)|
    {
      id := |proposals|;
      proposals := proposals + [row];
    }

    method TransitionProposal(id: Id, version: nat, from: ProposalState, to: ProposalState, updates: ProposalUpdates)
      returns (ok: bool)
      modifies this`proposals
      ensures ok <==> MoveProposal(old(Tables()), id, version, from, to, updates).Some?
      ensures Tables() ==
        if ok then MoveProposal(old(Tables()), id, version, from, to, updates).value else old(Tables())
    {
      if id >= |proposals| || proposals[id].version != version || proposals[id].state != from {
        return false;
      }
      var row := proposals[id].(state := to, version := proposals[id].version + 1);
      if updates.rationale.Some? {
        row := row.(rationale := updates.rationale.value);
      }
      if updates.reviewedBy.Some? {
        row := row.(reviewedBy := updates.reviewedBy);
      }
      proposals := proposals[id := row];
      return true;
    }

    method CreateConflict(row: Conflict) returns (id: Id)
      modifies this`conflicts
      ensures Tables() == InsertConflict(old(Tables()), row) && id == |old(conflicts)|
    {
      id := |conflicts|;
      conflicts := conflicts + [row];
    }

    method TransitionConflict(id: Id, from: ConflictState, to: ConflictState, resolvedBy: Option<Id>)
      returns (ok: bool)
      modifies this`conflicts
      ensures ok <==> MoveConflict(old(Tables()), id, from, to, resolvedBy).Some?
      ensures Tables() == if ok then MoveConflict(old(Tables()), id, from, to, resolvedBy).value else old(Tables())
    {
      if id >= |conflicts| || conflicts[id].state != from {
        return false;
      }
      var row := conflicts[id].(state := to);
      if resolvedBy.Some? {
        row := row.(resolvedBy := resolvedBy);
      }
      conflicts := conflicts[id := row];
      return true;
    }

    // The rows found are indexed by id, then read off in the order asked for.
    method ListByIDs(ids: seq<Id>) returns (r: Option<seq<Conflict>>)
      ensures r == ListConflicts(Tables(), ids)
    {
      var byID: map<Id, Conflict> := map[];
      for id := 0 to |conflicts|
        invariant forall k :: k in byID <==> 0 <= k < id && k in ids
        invariant forall k :: k in byID ==> byID[k] == conflicts[k]
      {
        if id in ids {
          byID := byID[id := conflicts[id]];
        }
      }
      var ordered: seq<Conflict> := [];
      for i := 0 to |ids|
        invariant |ordered| == i
        invariant forall k :: 0 <= k < i ==> ids[k] < |conflicts| && ordered[k] == conflicts[ids[k]]
      {
        if ids[i] !in byID {
          assert ids[i] in ids && ids[i] >= |conflicts|;
          return None;
        }
        ordered := ordered + [byID[ids[i]]];
      }
      assert ordered == ListConflicts(Tables(), ids).value;
      return Some(ordered);
    }

    method GetByActorKey(actorId: Id, key: string) returns (r: Option<DetectionRun>)
      ensures r == FindRun(runs, actorId, key)
    {
      for i := 0 to |runs|
        invariant FindRun(runs[i..], actorId, key) == FindRun(runs, actorId, key)
      {
        assert runs[i..][1..] == runs[i + 1..];
        if IsRunOf(runs[i], actorId, key) {
          return Some(runs[i]);
        }
      }
      return None;
    }

    method CreateRun(row: DetectionRun) returns (ok: bool)
      modifies this`runs
      ensures ok <==> InsertRun(old(Tables()), row).Some?
      ensures Tables() == if ok then InsertRun(old(Tables()), row).value else old(Tables())
    {
      for i := 0 to |runs|
        invariant forall j :: 0 <= j < i ==> !IsRunOf(runs[j], row.actorId, row.key)
      {
        if IsRunOf(runs[i], row.actorId, row.key) {
          return false;
        }
      }
      runs := runs + [row];
      return true;
    }
  }
}

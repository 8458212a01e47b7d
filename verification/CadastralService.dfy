// The service methods of backend/internal/service over the mutable store. Each
// transaction keeps the tables it started from, and puts them back when one of
// its writes is refused.

module CadastralServices {
  import opened Options
  import opened Framing
  import opened Domain
  import opened Database
  import opened Services
  import opened Repository
  import opened Detection
  import opened Analysis
  import opened Serving
  import opened Rings

  class CadastralService {
    const store: Store
    const engine: Engine
    const codec: Codec

    constructor (store: Store, engine: Engine, codec: Codec)
      ensures this.store == store && this.engine == engine && this.codec == codec
    {
      this.store, this.engine, this.codec := store, engine, codec;
    }

    // ----------------------------------------------------------------- parcels

    method CreateParcel(request: Request, actor: Actor) returns (r: Result<Stored<Parcel>, AppError>)
      requires request.CreateParcel?
      modifies store
      ensures Served(store.Tables(), r) == CreatingParcel(engine, old(store.Tables()), actor, request)
    {
      hide Trim, Upper;
      if !engine.crsValid(request.crs) {
        return Failure(GeometryInvalid);
      }
      var area := engine.polygonArea(request.boundary);
      if area.None? {
        return Failure(GeometryInvalid);
      }
      var state := request.parcelState;
      if state == "" {
        state := "active";
      }
      var item := Parcel(
        Trim(request.code), Trim(request.name), request.boundary, Upper(Trim(request.crs)), area.value, 1,
        Trim(request.owner), state);
      var saved := store.Tables();
      var taken := store.GetParcelByCode(item.code);
      if taken.Some? {
        return Failure(StateConflict);
      }
      var id := |store.parcels|;
      var ok := store.CreateParcel(item);
      if ok {
        ok := store.CreateAudit(actor, ParcelCreated(id, item));
      }
      if !ok {
        store.Rollback(saved);
        return Failure(Internal);
      }
      return Success(Stored(id, item));
    }

    // The field assignments of an update.
    method ChangeParcel(before: Parcel, changes: ParcelChanges) returns (r: Result<Parcel, AppError>)
      ensures r == ChangedParcel(engine, before, changes)
    {
      hide Trim, Upper;
      var after := before;
      if changes.name.Some? {
        after := after.(name := Trim(changes.name.value));
      }
      if changes.owner.Some? {
        after := after.(owner := Trim(changes.owner.value));
      }
      if changes.state.Some? {
        after := after.(state := changes.state.value);
      }
      if changes.crs.Some? {
        if !engine.crsValid(changes.crs.value) {
          return Failure(GeometryInvalid);
        }
        after := after.(crs := Upper(Trim(changes.crs.value)));
      }
      if changes.boundary.Some? {
        var area := engine.polygonArea(changes.boundary.value);
        if area.None? {
          return Failure(GeometryInvalid);
        }
        after := after.(boundary := changes.boundary.value, area := area.value);
      }
      return Success(after);
    }

    method UpdateParcel(request: Request, actor: Actor) returns (r: Result<Parcel, AppError>)
      requires request.UpdateParcel?
      modifies store
      ensures Served(store.Tables(), r) == UpdatingParcel(engine, old(store.Tables()), actor, request)
    {
      hide Trim, ChangedParcel;
      if request.id >= |store.parcels| {
        return Failure(NotFound);
      }
      var before := store.parcels[request.id];
      var version := before.version;
      if request.expected.Some? {
        version := request.expected.value;
      }
      var changed := ChangeParcel(before, request.changes);
      if changed.Failure? {
        return Failure(changed.error);
      }
      var after := changed.value;
      var saved := store.Tables();
      var ok := store.UpdateParcel(request.id, version, after);
      if ok {
        ok := store.CreateAudit(actor, ParcelUpdated(request.id, before, after));
      }
      if !ok {
        store.Rollback(saved);
        return Failure(Internal);
      }
      return Success(after.(version := version + 1));
    }

    // ------------------------------------------------------------ observations

    method ImportObservation(request: Request, actor: Actor) returns (r: Result<Stored<Observation>, AppError>)
      requires request.ImportObservation?
      modifies store
      ensures Served(store.Tables(), r) == Importing(engine, old(store.Tables()), actor, request)
    {
      hide Trim;
      if request.parcelId >= |store.parcels| {
        return Failure(NotFound);
      }
      if !engine.pointValid(request.point) {
        return Failure(GeometryInvalid);
      }
      var state := ObsAccepted;
      if request.initial.Some? {
        state := request.initial.value;
      }
      var item := Observation(
        request.parcelId, Trim(request.code), request.point, state, 1, None, Trim(request.note), actor.id);
      var saved := store.Tables();
      var id := |store.observations|;
      var ok := store.CreateObservation(item);
      if ok {
        ok := store.CreateAudit(actor, ObservationImported(id, item));
      }
      if !ok {
        store.Rollback(saved);
        return Failure(Internal);
      }
      return Success(Stored(id, item));
    }

    method TransitionObservation(request: Request, actor: Actor) returns (r: Result<Observation, AppError>)
      requires request.TransitionObservation?
      modifies store
      ensures Served(store.Tables(), r) == MovingObservation(old(store.Tables()), actor, request)
    {
      hide Trim;
      if request.id >= |store.observations| {
        return Failure(NotFound);
      }
      var item := store.observations[request.id];
      if item.version != request.version {
        return Failure(StateConflict);
      }
      if request.toObservation.None? || !CanObservationTransition(item.state, request.toObservation.value) {
        return Failure(StateConflict);
      }
      var to := request.toObservation.value;
      if actor.role != Surveyor && actor.role != GisAnalyst && actor.role != Admin {
        return Failure(Forbidden);
      }
      if to == ObsSuperseded {
        if request.replacement.None? || request.replacement.value == request.id {
          return Failure(InvalidInput);
        }
        if request.replacement.value >= |store.observations| {
          return Failure(NotFound);
        }
        var replacement := store.observations[request.replacement.value];
        if replacement.parcelId != item.parcelId || replacement.state == ObsSuperseded {
          return Failure(StateConflict);
        }
      } else if request.replacement.Some? {
        return Failure(InvalidInput);
      }
      var note := Trim(request.note);
      assert CheckedObservation(store.Tables(), actor, request)
          == Success(ObservationMove(request.id, item, to, request.replacement, note));
      var saved := store.Tables();
      var ok := store.TransitionObservation(request.id, item.version, to, request.replacement, note);
      if ok {
        ok := store.CreateAudit(
          actor, ObservationChanged(request.id, item, to, item.version + 1, request.replacement, note));
      }
      if !ok {
        store.Rollback(saved);
        return Failure(StateConflict);
      }
      item := item.(state := to, version := item.version + 1, replacedBy := request.replacement);
      if note != "" {
        item := item.(note := note);
      }
      return Success(item);
    }

    // --------------------------------------------------------------- proposals

    method CreateProposal(request: Request, actor: Actor) returns (r: Result<Stored<Proposal>, AppError>)
      requires request.CreateProposal?
      modifies store
      ensures Served(store.Tables(), r) == Proposing(engine, old(store.Tables()), actor, request)
    {
      hide Trim;
      if request.parcelId >= |store.parcels| {
        return Failure(NotFound);
      }
      var parcel := store.parcels[request.parcelId];
      if request.baseVersion != parcel.version {
        return Failure(StateConflict);
      }
      var area := engine.polygonArea(request.geometry);
      if area.None? {
        return Failure(GeometryInvalid);
      }
      for i := 0 to |request.observationIds|
        invariant store.Tables() == old(store.Tables())
        invariant forall k :: 0 <= k < i ==>
          && request.observationIds[k] < |store.observations|
          && store.observations[request.observationIds[k]].parcelId == request.parcelId
      {
        var id := request.observationIds[i];
        if id >= |store.observations| || store.observations[id].parcelId != request.parcelId {
          return Failure(InvalidInput);
        }
      }
      var item := Proposal(
        request.parcelId, request.baseVersion, request.geometry, request.observationIds, request.tolerance,
        area.value - parcel.area, ProposalState.Draft, Trim(request.rationale), 1, actor.id, None);
      var saved := store.Tables();
      var id := store.CreateProposal(item);
      var ok := store.CreateAudit(actor, ProposalCreated(id, item));
      if !ok {
        store.Rollback(saved);
        return Failure(Internal);
      }
      return Success(Stored(id, item));
    }

    method TransitionProposal(request: Request, actor: Actor) returns (r: Result<Proposal, AppError>)
      requires request.TransitionProposal?
      modifies store
      ensures Served(store.Tables(), r) == MovingProposal(old(store.Tables()), actor, request)
    {
      if request.id >= |store.proposals| {
        return Failure(NotFound);
      }
      var item := store.proposals[request.id];
      if request.toProposal.None? || !CanProposalTransition(item.state, request.toProposal.value) {
        return Failure(StateConflict);
      }
      var to := request.toProposal.value;
      if !Authorized(item.createdBy, to, actor) {
        return Failure(Forbidden);
      }
      var updates := ProposalUpdates(None, None);
      if request.rationale != "" {
        updates := updates.(rationale := Some(request.rationale));
      }
      if IsReview(to) {
        updates := updates.(reviewedBy := Some(actor.id));
      }
      var saved := store.Tables();
      var ok := store.TransitionProposal(request.id, item.version, item.state, to, updates);
      if ok {
        ok := store.CreateAudit(actor, ProposalChanged(request.id, item, to, item.version + 1));
      }
      if !ok {
        store.Rollback(saved);
        return Failure(StateConflict);
      }
      item := item.(state := to, version := item.version + 1);
      if IsReview(to) {
        item := item.(reviewedBy := Some(actor.id));
      }
      return Success(item);
    }

    // --------------------------------------------------------------- conflicts

    method TransitionConflict(request: Request, actor: Actor) returns (r: Result<Conflict, AppError>)
      requires request.TransitionConflict?
      modifies store
      ensures Served(store.Tables(), r) == MovingConflict(old(store.Tables()), actor, request)
    {
      if request.id >= |store.conflicts| {
        return Failure(NotFound);
      }
      var item := store.conflicts[request.id];
      if request.toConflict.None? || !CanConflictTransition(item.state, request.toConflict.value) {
        return Failure(StateConflict);
      }
      var to := request.toConflict.value;
      var resolved := None;
      if to == Resolved || to == Closed {
        resolved := Some(actor.id);
      }
      var saved := store.Tables();
      var ok := store.TransitionConflict(request.id, item.state, to, resolved);
      if ok {
        ok := store.CreateAudit(actor, ConflictChanged(request.id, item, to));
      }
      if !ok {
        store.Rollback(saved);
        return Failure(StateConflict);
      }
      return Success(item.(state := to, resolvedBy := resolved));
    }

    method ApplyConflictSuggestion(request: Request, actor: Actor) returns (r: Result<Stored<Proposal>, AppError>)
      requires request.ApplySuggestion?
      modifies store
      ensures Served(store.Tables(), r) == Applied(engine, old(store.Tables()), actor, request)
    {
      hide Trim, DefaultRationale;
      if actor.role != Reviewer && actor.role != Admin {
        return Failure(Forbidden);
      }
      if request.id >= |store.conflicts| {
        return Failure(NotFound);
      }
      var item := store.conflicts[request.id];
      if item.state != ResolutionProposed {
        return Failure(StateConflict);
      }
      if item.proposalId >= |store.proposals| {
        return Failure(NotFound);
      }
      var proposal := store.proposals[item.proposalId];
      if item.suggestion.None? {
        return Failure(StateConflict);
      }
      var area := engine.polygonArea(item.suggestion.value);
      if area.None? {
        return Failure(Internal);
      }
      if proposal.parcelId >= |store.parcels| {
        return Failure(NotFound);
      }
      var parcel := store.parcels[proposal.parcelId];
      var rationale := Trim(request.rationale);
      if rationale == "" {
        rationale := DefaultRationale(engine, request.id);
      }
      var derived := Proposal(
        proposal.parcelId, parcel.version, item.suggestion.value, proposal.observationIds, proposal.tolerance,
        area.value - parcel.area, ProposalState.Draft, rationale, proposal.version + 1, actor.id, None);
      assert DerivedProposal(engine, store.Tables(), actor, request) == Success(ApplyReady(request.id, item, derived));
      var saved := store.Tables();
      var id := store.CreateProposal(derived);
      var ok := store.TransitionConflict(request.id, item.state, Resolved, Some(actor.id));
      if ok {
        ok := store.CreateAudit(actor, ProposalFromConflict(id, derived));
      }
      if ok {
        ok := store.CreateAudit(actor, SuggestionApplied(request.id, item, id));
      }
      if !ok {
        store.Rollback(saved);
        return Failure(Internal);
      }
      return Success(Stored(id, derived));
    }

    // --------------------------------------------------------------- detection

    method ReplayDetectionRun(run: DetectionRun, requestHash: string) returns (r: Result<Answer, AppError>)
      ensures r == Replay(store.Tables(), run, requestHash)
    {
      if run.requestHash != requestHash {
        return Failure(StateConflict);
      }
      var items := store.ListByIDs(run.resultIds);
      if items.None? {
        return Failure(Internal);
      }
      return Success(Answer(run.resultIds, items.value));
    }

    // The neighbours' polygons and the parts of the input hash; None when a stored
    // neighbour does not parse.
    method CollectInputs(proposal: Proposal, tolerance: real, ids: seq<Id>)
      returns (r: Option<(seq<Polygon>, seq<string>)>)
      requires proposal.parcelId < |store.parcels|
      requires ids == Neighbours(store.parcels, store.parcels[proposal.parcelId].crs, proposal.parcelId)
      ensures var polygons := ParseNeighbours(codec, store.parcels, ids);
              r == if polygons.None? then None
                   else Some((polygons.value, InputParts(engine, store.parcels, proposal, tolerance)))
    {
      hide Neighbours, NeighbourParts, Parse;
      var parcel := store.parcels[proposal.parcelId];
      var head := [parcel.boundary, proposal.geometry, parcel.crs,
        engine.formatTolerance(tolerance), ALGORITHM_VERSION];
      assert head == HeadParts(engine, parcel, proposal, tolerance);
      var polygons: seq<Polygon>, parts := [], head;
      NoNeighbourParts(engine, store.parcels);
      assert ids[..0] == [] && head + [] == head;
      for i := 0 to |ids|
        invariant KnownIds(store.parcels, ids[..i])
        invariant ParseNeighbours(codec, store.parcels, ids[..i]) == Some(polygons)
        invariant parts == head + NeighbourParts(engine, store.parcels, ids[..i])
      {
        NeighbourPartsNext(engine, store.parcels, ids, i);
        assert ids[..i + 1][..i] == ids[..i];
        var neighbour := store.parcels[ids[i]];
        var polygon := ParsePolygon(codec.decode(neighbour.boundary), codec.rings);
        if polygon.Failure? {
          return None;
        }
        polygons := polygons + [polygon.value];
        parts := parts + [engine.formatId(ids[i]), neighbour.boundary];
      }
      assert ids[..|ids|] == ids;
      return Some((polygons, parts));
    }

    method BuildItems(proposalId: Id, parcelId: Id, inputHash: string, found: Found) returns (items: seq<Conflict>)
      ensures items == RowsOf(proposalId, inputHash, DraftsOf(parcelId, found))
    {
      items := [];
      for i := 0 to |found.findings|
        invariant |items| == i
        invariant forall k :: 0 <= k < i ==>
          items[k] == RowOf(proposalId, inputHash, DraftOf(parcelId, found.suggestion, found.findings[k]))
      {
        var finding := found.findings[i];
        var given := [parcelId] + finding.parcelIds;
        var ids := new Id[|given|](k requires 0 <= k < |given| => given[k]);
        assert ids[..] == given;
        var n := UniqueSortedIds(ids);
        items := items + [Conflict(
          proposalId, ids[..n], finding.kind, finding.geometry, finding.magnitude, inputHash, found.suggestion,
          Detected, None)];
      }
    }

    // The transaction of detection: the conflicts, their audit entries and the
    // run, or nothing.
    method RecordRun(
      actor: Actor, proposalId: Id, key: string, requestHash: string, inputHash: string, items: seq<Conflict>)
      returns (r: Option<seq<Id>>)
      modifies store
      ensures var was := old(store.Tables());
              var done := CommitDetection(was, actor, proposalId, key, requestHash, inputHash, items);
              && store.Tables() == (if done.Some? then done.value else was)
              && r == (if done.Some? then Some(NewIds(|was.conflicts|, |items|)) else None)
    {
      hide InsertDetected, Trim, RunTaken;
      var saved := store.Tables();
      var resultIds: seq<Id> := [];
      NothingDetected(saved, actor);
      assert items[..0] == [];
      for index := 0 to |items|
        invariant InsertDetected(saved, actor, items[..index]) == Some(store.Tables())
        invariant resultIds == NewIds(|saved.conflicts|, index)
        invariant |store.conflicts| == |saved.conflicts| + index && store.runs == saved.runs
      {
        NextDetected(saved, actor, items, index);
        var id := store.CreateConflict(items[index]);
        var ok := store.CreateAudit(actor, ConflictDetected(id, items[index]));
        if !ok {
          DetectedFails(saved, actor, items, index + 1);
          store.Rollback(saved);
          return None;
        }
        resultIds := resultIds + [id];
      }
      assert items[..|items|] == items;
      var run := DetectionRun(proposalId, actor.id, key, requestHash, inputHash, resultIds);
      var runId := |store.runs|;
      var ok := store.CreateRun(run);
      if ok {
        ok := store.CreateAudit(actor, DetectionCompleted(runId, run));
      }
      if !ok {
        store.Rollback(saved);
        return None;
      }
      return Some(resultIds);
    }

    // The end of detection, whatever other requests have done to the store since
    // the lookup: the transaction, and after a rollback the second lookup.
    method RecordOrReplay(
      actor: Actor, proposalId: Id, key: string, requestHash: string, inputHash: string, items: seq<Conflict>)
      returns (r: Result<Answer, AppError>)
      modifies store
      ensures var was := old(store.Tables());
              Served(store.Tables(), r) ==
              FinishDetection(was, CommitDetection(was, actor, proposalId, key, requestHash, inputHash, items),
                              items, actor, key, requestHash)
    {
      hide Replay, CommitDetection;
      var resultIds := RecordRun(actor, proposalId, key, requestHash, inputHash, items);
      if resultIds.None? {
        var existing := store.GetByActorKey(actor.id, key);
        if existing.Some? {
          r := ReplayDetectionRun(existing.value, requestHash);
          return;
        }
        return Failure(Internal);
      }
      return Success(Answer(resultIds.value, items));
    }

    method DetectConflicts(request: Request, actor: Actor) returns (r: Result<Answer, AppError>)
      requires request.DetectConflicts?
      modifies store
      ensures var was := old(store.Tables());
              Served(store.Tables(), r) ==
              DetectedConflicts(engine, was, actor, request, FoundFor(codec, was, request))
    {
      hide Trim, FindRun, Replay, RowsOf, RequestHash, CommitDetection, Neighbours, InputParts, DraftsOf,
           Parse, Compare,
           ParseNeighbours;
      var key := Trim(request.key);
      if key == "" || |key| > MAX_KEY {
        return Failure(InvalidInput);
      }
      if request.proposalId >= |store.proposals| {
        return Failure(NotFound);
      }
      var proposal := store.proposals[request.proposalId];
      var tolerance := request.tolerance;
      if tolerance == 0.0 {
        tolerance := proposal.tolerance;
      }
      var requestHash := RequestHash(engine, request.proposalId, tolerance);
      var existing := store.GetByActorKey(actor.id, key);
      if existing.Some? {
        r := ReplayDetectionRun(existing.value, requestHash);
        return;
      }
      assert LoadDetection(engine, store.Tables(), request, actor)
          == Success(ToCompute(Pending.Detecting(request.proposalId, key, requestHash)));
      if proposal.parcelId >= |store.parcels| {
        return Failure(NotFound);
      }
      var parcel := store.parcels[proposal.parcelId];
      var base := ParsePolygon(codec.decode(parcel.boundary), codec.rings);
      if base.Failure? {
        return Failure(GeometryInvalid);
      }
      var proposed := ParsePolygon(codec.decode(proposal.geometry), codec.rings);
      if proposed.Failure? {
        return Failure(GeometryInvalid);
      }
      var ids := store.ListActiveByCoordinateSystem(parcel.crs, proposal.parcelId);
      var inputs := CollectInputs(proposal, tolerance, ids);
      if inputs.None? {
        return Failure(Internal);
      }
      var found := CompareGeometry(codec, base.value, proposed.value, ids, inputs.value.0, tolerance);
      assert found == FoundFor(codec, store.Tables(), request);
      if found.Failure? {
        return Failure(found.error);
      }
      var preimage := Preimage(inputs.value.1);
      var inputHash := engine.digest(preimage);
      var items := BuildItems(request.proposalId, proposal.parcelId, inputHash, found.value);
      r := RecordOrReplay(actor, request.proposalId, key, requestHash, inputHash, items);
    }
  }

  lemma NothingDetected(db: Db, actor: Actor)
    ensures InsertDetected(db, actor, []) == Some(db)
  {
  }

  lemma NextDetected(db: Db, actor: Actor, rows: seq<Conflict>, i: nat)
    requires i < |rows|
    ensures InsertDetected(db, actor, rows[..i + 1]) ==
            match InsertDetected(db, actor, rows[..i])
            case None => None
            case Some(earlier) =>
              WriteAudit(InsertConflict(earlier, rows[i]), actor, ConflictDetected(|earlier.conflicts|, rows[i]))
  {
    assert rows[..i + 1][..i] == rows[..i];
  }

  lemma {:induction false} DetectedFails(db: Db, actor: Actor, rows: seq<Conflict>, k: nat)
    requires k <= |rows| && InsertDetected(db, actor, rows[..k]).None?
    ensures InsertDetected(db, actor, rows).None?
  {
    if k == |rows| {
      assert rows[..k] == rows;
    } else {
      assert rows[..|rows| - 1][..k] == rows[..k];
      DetectedFails(db, actor, rows[..|rows| - 1], k);
    }
  }
}

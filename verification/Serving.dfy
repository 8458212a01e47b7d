// A call served without interruption: the store it leaves and its reply. This
// is what the methods of CadastralService are held to, and it is the outcome of
// the call's steps when no other call comes between them.

module Serving {
  import opened Options
  import opened Domain
  import opened Database
  import opened Services
  import opened Detection
  import opened Interleaving
  import opened SerialRuns

  datatype Served<+T> = Served(db: Db, reply: Result<T, AppError>)

  // A stored row with its id.
  datatype Stored<+T> = Stored(id: Id, row: T)

  // The transaction's store, or the old one and the error.
  function Finish<T>(db: Db, committed: Option<Db>, reply: T, error: AppError): Served<T> {
    match committed
    case None => Served(db, Failure(error))
    case Some(next) => Served(next, Success(reply))
  }

  function CreatingParcel(e: Engine, db: Db, actor: Actor, r: Request): Served<Stored<Parcel>>
    requires r.CreateParcel?
  {
    match LoadCreateParcel(e, r)
    case Failure(error) => Served(db, Failure(error))
    case Success(p) =>
      Finish(db, CommitParcel(db, actor, p.parcel), Stored(|db.parcels|, p.parcel),
             if ParcelCodeTaken(db, p.parcel.code) then StateConflict else Internal)
  }

  function UpdatingParcel(e: Engine, db: Db, actor: Actor, r: Request): Served<Parcel>
    requires r.UpdateParcel?
  {
    match LoadUpdateParcel(e, db, r)
    case Failure(error) => Served(db, Failure(error))
    case Success(p) =>
      Finish(db, CommitParcelUpdate(db, actor, p.id, p.before, p.after, p.expected),
             ParcelResponse(p.after, p.expected), Internal)
  }

  function Importing(e: Engine, db: Db, actor: Actor, r: Request): Served<Stored<Observation>>
    requires r.ImportObservation?
  {
    match LoadImport(e, db, r, actor)
    case Failure(error) => Served(db, Failure(error))
    case Success(p) =>
      Finish(db, CommitImport(db, actor, p.observation), Stored(|db.observations|, p.observation), Internal)
  }

  function CheckedObservation(db: Db, actor: Actor, r: Request): Result<Pending, AppError>
    requires r.TransitionObservation?
  {
    match LoadObservation(db, r, actor)
    case Success(Superseding(id, loaded, replacement, note)) => CheckReplacement(db, id, loaded, replacement, note)
    case other => other
  }

  function MovingObservation(db: Db, actor: Actor, r: Request): Served<Observation>
    requires r.TransitionObservation?
  {
    match CheckedObservation(db, actor, r)
    case Failure(error) => Served(db, Failure(error))
    case Success(p) =>
      Finish(db, CommitObservation(db, actor, p.id, p.loaded, p.to, p.replacement, p.note),
             ObservationResponse(p.loaded, p.to, p.replacement, p.note), StateConflict)
  }

  function Proposing(e: Engine, db: Db, actor: Actor, r: Request): Served<Stored<Proposal>>
    requires r.CreateProposal?
  {
    match LoadCreateProposal(e, db, r, actor)
    case Failure(error) => Served(db, Failure(error))
    case Success(p) =>
      Finish(db, CommitProposal(db, actor, p.proposal), Stored(|db.proposals|, p.proposal), Internal)
  }

  function MovingProposal(db: Db, actor: Actor, r: Request): Served<Proposal>
    requires r.TransitionProposal?
  {
    match LoadProposal(db, r, actor)
    case Failure(error) => Served(db, Failure(error))
    case Success(p) =>
      Finish(db, CommitProposalMove(db, actor, p.id, p.proposal, p.toProposal, p.rationale),
             ProposalResponse(p.proposal, p.toProposal, actor), StateConflict)
  }

  function MovingConflict(db: Db, actor: Actor, r: Request): Served<Conflict>
    requires r.TransitionConflict?
  {
    match LoadConflict(db, r)
    case Failure(error) => Served(db, Failure(error))
    case Success(p) =>
      Finish(db, CommitConflict(db, actor, p.id, p.conflict, p.toConflict),
             ConflictResponse(p.conflict, p.toConflict, actor), StateConflict)
  }

  function DerivedProposal(e: Engine, db: Db, actor: Actor, r: Request): Result<Pending, AppError>
    requires r.ApplySuggestion?
  {
    match LoadApply(db, r, actor)
    case Failure(error) => Failure(error)
    case Success(p) =>
      match LoadSource(e, db, p.id, p.conflict, p.rationale)
      case Failure(error) => Failure(error)
      case Success(q) => LoadTarget(e, db, actor, q.id, q.conflict, q.rationale, q.source, q.geometry, q.area)
  }

  function Applied(e: Engine, db: Db, actor: Actor, r: Request): Served<Stored<Proposal>>
    requires r.ApplySuggestion?
  {
    match DerivedProposal(e, db, actor, r)
    case Failure(error) => Served(db, Failure(error))
    case Success(p) =>
      Finish(db, CommitApply(db, actor, p.id, p.conflict, p.derived), Stored(|db.proposals|, p.derived), Internal)
  }

  function FinishDetection(
    db: Db, committed: Option<Db>, rows: seq<Conflict>, actor: Actor, key: string, requestHash: string): Served<Answer>
  {
    match committed
    case None => Served(db, Fallback(db, actor, key, requestHash))
    case Some(next) => Served(next, Success(Answer(NewIds(|db.conflicts|, |rows|), rows)))
  }

  function RecordDetection(
    db: Db, actor: Actor, proposalId: Id, key: string, requestHash: string, computed: Result<Computed, AppError>)
    : Served<Answer>
  {
    match computed
    case Failure(error) => Served(db, Failure(error))
    case Success(c) =>
      var rows := RowsOf(proposalId, c.inputHash, c.drafts);
      FinishDetection(db, CommitDetection(db, actor, proposalId, key, requestHash, c.inputHash, rows),
                      rows, actor, key, requestHash)
  }

  function ComputedFor(e: Engine, db: Db, r: Request, found: Result<Found, AppError>): Result<Computed, AppError>
    requires r.DetectConflicts? && r.proposalId < |db.proposals|
  {
    var proposal := db.proposals[r.proposalId];
    ComputeDetection(e, db, proposal, EffectiveTolerance(r.tolerance, proposal), found)
  }

  function DetectedConflicts(e: Engine, db: Db, actor: Actor, r: Request, found: Result<Found, AppError>)
    : Served<Answer>
    requires r.DetectConflicts?
  {
    match LoadDetection(e, db, r, actor)
    case Failure(error) => Served(db, Failure(error))
    case Success(Answered(_, answer)) => Served(db, answer)
    case Success(ToCompute(p)) =>
      RecordDetection(db, actor, p.proposalId, p.key, p.requestHash, ComputedFor(e, db, r, found))
  }

  // ------------------------------------------------ uninterrupted calls as runs

  // The store after the call.
  function StoreAfter(e: Engine, db: Db, actor: Actor, r: Request, found: Result<Found, AppError>): Db {
    match r
    case CreateParcel(_, _, _, _, _, _) => CreatingParcel(e, db, actor, r).db
    case UpdateParcel(_, _, _) => UpdatingParcel(e, db, actor, r).db
    case ImportObservation(_, _, _, _, _) => Importing(e, db, actor, r).db
    case TransitionObservation(_, _, _, _, _) => MovingObservation(db, actor, r).db
    case CreateProposal(_, _, _, _, _, _) => Proposing(e, db, actor, r).db
    case TransitionProposal(_, _, _) => MovingProposal(db, actor, r).db
    case TransitionConflict(_, _) => MovingConflict(db, actor, r).db
    case ApplySuggestion(_, _) => Applied(e, db, actor, r).db
    case DetectConflicts(_, _, _) => DetectedConflicts(e, db, actor, r, found).db
  }

  // The findings come to what the errand says.
  ghost predicate Comes(e: Engine, db: Db, j: Errand, found: Result<Found, AppError>) {
    j.request.DetectConflicts? && j.request.proposalId < |db.proposals| ==>
      ComputedFor(e, db, j.request, found) == Success(Computed(j.inputHash, j.drafts))
  }

  // What is ready to be committed once everything has been read.
  function Prepared(e: Engine, db: Db, j: Errand): Option<Pending> {
    match j.request
    case CreateParcel(_, _, _, _, _, _) => Kept(LoadCreateParcel(e, j.request))
    case UpdateParcel(_, _, _) => Kept(LoadUpdateParcel(e, db, j.request))
    case ImportObservation(_, _, _, _, _) => Kept(LoadImport(e, db, j.request, j.actor))
    case TransitionObservation(_, _, _, _, _) => Kept(CheckedObservation(db, j.actor, j.request))
    case CreateProposal(_, _, _, _, _, _) => Kept(LoadCreateProposal(e, db, j.request, j.actor))
    case TransitionProposal(_, _, _) => Kept(LoadProposal(db, j.request, j.actor))
    case TransitionConflict(_, _) => Kept(LoadConflict(db, j.request))
    case ApplySuggestion(_, _) => Kept(DerivedProposal(e, db, j.actor, j.request))
    case DetectConflicts(_, _, _) =>
      match LoadDetection(e, db, j.request, j.actor)
      case Success(ToCompute(p)) =>
        Some(DetectReady(p.proposalId, p.key, p.requestHash, j.inputHash, RowsOf(p.proposalId, j.inputHash, j.drafts)))
      case _ => None
  }

  function Kept(loaded: Result<Pending, AppError>): Option<Pending> {
    match loaded
    case Failure(_) => None
    case Success(p) => Some(p)
  }

  function InFlight(actor: Actor, pending: Option<Pending>): map<nat, Call> {
    if pending.None? then map[] else map[0 := Call(actor, pending.value)]
  }

  // The reading steps of a call.
  function Read(e: Engine, s: Sys, j: Errand): Sys {
    var a := Serve(j);
    Step(e, Step(e, Step(e, Step(e, s, a[0]), a[1]), a[2]), a[3])
  }

  lemma ReadsInOne(e: Engine, s: Sys, j: Errand)
    requires s.calls == map[]
    requires !j.request.TransitionObservation? && !j.request.ApplySuggestion? && !j.request.DetectConflicts?
    ensures Read(e, s, j) == s.(calls := InFlight(j.actor, Prepared(e, s.db, j)))
  {
    hide Trim, Upper;
    var t := Step(e, s, Serve(j)[0]);
    assert t == s.(calls := InFlight(j.actor, Prepared(e, s.db, j)));
    assert t.calls.Keys <= {0};
  }

  lemma ReadsObservation(e: Engine, s: Sys, j: Errand)
    requires s.calls == map[] && j.request.TransitionObservation?
    ensures Read(e, s, j) == s.(calls := InFlight(j.actor, Prepared(e, s.db, j)))
  {
    hide Trim;
    var loaded := LoadObservation(s.db, j.request, j.actor);
    var t := Step(e, s, Serve(j)[0]);
    assert t == s.(calls := InFlight(j.actor, Kept(loaded)));
    var u := Step(e, t, Serve(j)[1]);
    assert u == s.(calls := InFlight(j.actor, Prepared(e, s.db, j)));
  }

  lemma ReadsApply(e: Engine, s: Sys, j: Errand)
    requires s.calls == map[] && j.request.ApplySuggestion?
    ensures Read(e, s, j) == s.(calls := InFlight(j.actor, Prepared(e, s.db, j)))
  {
    hide LoadTarget;
    var loaded := LoadApply(s.db, j.request, j.actor);
    var t := Step(e, s, Serve(j)[0]);
    assert t == s.(calls := InFlight(j.actor, Kept(loaded)));
    if loaded.Success? {
      var p := loaded.value;
      var sourced := LoadSource(e, s.db, p.id, p.conflict, p.rationale);
      var u := Step(e, t, Serve(j)[1]);
      assert u == s.(calls := InFlight(j.actor, Kept(sourced)));
      ReadsTarget(e, s, j, u);
    }
  }

  lemma ReadsTarget(e: Engine, s: Sys, j: Errand, u: Sys)
    requires j.request.ApplySuggestion? && LoadApply(s.db, j.request, j.actor).Success?
    requires var p := LoadApply(s.db, j.request, j.actor).value;
             u == s.(calls := InFlight(j.actor, Kept(LoadSource(e, s.db, p.id, p.conflict, p.rationale))))
    ensures Step(e, Step(e, u, Serve(j)[2]), Serve(j)[3]) == s.(calls := InFlight(j.actor, Prepared(e, s.db, j)))
  {
    hide Trim, DefaultRationale;
    var v := Step(e, u, Serve(j)[2]);
    assert v == s.(calls := InFlight(j.actor, Prepared(e, s.db, j)));
  }

  lemma ReadsDetection(e: Engine, s: Sys, j: Errand)
    requires s.calls == map[] && j.request.DetectConflicts?
    ensures var t := Read(e, s, j);
            && t.db == s.db && t.calls == InFlight(j.actor, Prepared(e, s.db, j))
            && t.outcomes == match LoadDetection(e, s.db, j.request, j.actor)
                             case Success(Answered(hash, answer)) =>
                               s.outcomes + [Outcome(j.actor.id, Trim(j.request.key), hash, answer, |s.db.runs|)]
                             case _ => s.outcomes
  {
    hide Trim, FindRun, Replay, RequestHash, RowsOf;
    var t := Step(e, s, Serve(j)[0]);
    assert Step(e, Step(e, t, Serve(j)[1]), Serve(j)[2]) == t;
  }

  lemma AfterServe(e: Engine, s: Sys, j: Errand)
    ensures After(e, s, Serve(j)) == Step(e, Step(e, Read(e, s, j), Commit(0)), Relookup(0))
  {
    hide Step, After;
    var a := Serve(j);
    AfterNone(e, s);
    AfterStep(e, s, [], a[0]);
    AfterStep(e, s, a[..1], a[1]);
    AfterStep(e, s, a[..2], a[2]);
    AfterStep(e, s, a[..3], a[3]);
    AfterStep(e, s, a[..4], a[4]);
    AfterStep(e, s, a[..5], a[5]);
    assert a[..1] == [] + [a[0]] && a[..2] == a[..1] + [a[1]] && a[..3] == a[..2] + [a[2]];
    assert a[..4] == a[..3] + [a[3]] && a[..5] == a[..4] + [a[4]] && a == a[..5] + [a[5]];
  }

  lemma PreparedReady(e: Engine, db: Db, j: Errand)
    requires Prepared(e, db, j).Some?
    ensures Ready(Prepared(e, db, j).value)
  {
    hide Trim, Upper, FindRun, Replay, RequestHash, RowsOf, DefaultRationale;
  }

  // The transaction alone decides about the store.
  lemma CommitDecides(e: Engine, t: Sys, c: Call)
    requires t.calls == map[0 := c] && Ready(c.pending)
    ensures var u := Step(e, Step(e, t, Commit(0)), Relookup(0));
            u.db == if Committed(t, c).Some? then Committed(t, c).value.db else t.db
  {
    hide Committed, Fallback;
  }

  lemma PreparedStore(e: Engine, t: Sys, j: Errand, found: Result<Found, AppError>)
    requires Prepared(e, t.db, j).Some? && Comes(e, t.db, j, found)
    ensures var done := Committed(t, Call(j.actor, Prepared(e, t.db, j).value));
            StoreAfter(e, t.db, j.actor, j.request, found) == if done.Some? then done.value.db else t.db
  {
    hide CommitParcel, CommitParcelUpdate, CommitImport, CommitObservation, CommitProposal, CommitProposalMove,
         CommitConflict, CommitApply, CommitDetection, Fallback, Trim, Upper, FindRun, Replay, RequestHash, RowsOf,
         DefaultRationale, ComputedFor;
  }

  lemma UnpreparedStore(e: Engine, db: Db, j: Errand, found: Result<Found, AppError>)
    requires Prepared(e, db, j).None?
    ensures StoreAfter(e, db, j.actor, j.request, found) == db
  {
    hide Trim, Upper, FindRun, Replay, RequestHash, RowsOf, DefaultRationale, ComputedFor;
  }

  // Served with no other call in between, the steps of a call leave the very
  // store the service method leaves.
  lemma ServedAlone(e: Engine, s: Sys, j: Errand, found: Result<Found, AppError>)
    requires s.calls == map[] && Comes(e, s.db, j, found)
    ensures After(e, s, Serve(j)).db == StoreAfter(e, s.db, j.actor, j.request, found)
  {
    hide Read, Prepared, After, StoreAfter, Comes, Ready, Committed;
    AfterServe(e, s, j);
    match j.request {
      case TransitionObservation(_, _, _, _, _) => ReadsObservation(e, s, j);
      case ApplySuggestion(_, _) => ReadsApply(e, s, j);
      case DetectConflicts(_, _, _) => ReadsDetection(e, s, j);
      case _ => ReadsInOne(e, s, j);
    }
    var t := Read(e, s, j);
    assert t.db == s.db && t.calls == InFlight(j.actor, Prepared(e, s.db, j));
    if Prepared(e, s.db, j).Some? {
      PreparedReady(e, s.db, j);
      CommitDecides(e, t, t.calls[0]);
      PreparedStore(e, t, j, found);
    } else {
      UnpreparedStore(e, s.db, j, found);
    }
  }

  lemma DetectionDecides(e: Engine, t: Sys, j: Errand, p: Pending, found: Result<Found, AppError>)
    requires j.request.DetectConflicts? && Comes(e, t.db, j, found)
    requires LoadDetection(e, t.db, j.request, j.actor) == Success(ToCompute(p))
    requires t.calls == InFlight(j.actor, Prepared(e, t.db, j))
    ensures Step(e, Step(e, t, Commit(0)), Relookup(0)).outcomes ==
            t.outcomes + [Outcome(j.actor.id, p.key, p.requestHash,
                                  DetectedConflicts(e, t.db, j.actor, j.request, found).reply,
                                  |DetectedConflicts(e, t.db, j.actor, j.request, found).db.runs|)]
  {
    hide LoadDetection, CommitDetection, FindRun, Replay, RequestHash, RowsOf, ComputedFor, Fallback, Trim;
    DetectionLoads(e, t.db, j.request, j.actor);
    var u := Step(e, t, Commit(0));
    assert 0 in t.calls;
  }

  lemma DetectionLoads(e: Engine, db: Db, r: Request, actor: Actor)
    requires r.DetectConflicts? && LoadDetection(e, db, r, actor).Success?
    ensures r.proposalId < |db.proposals|
    ensures LoadDetection(e, db, r, actor).value.ToCompute? ==>
            var p := LoadDetection(e, db, r, actor).value.pending;
            p == Pending.Detecting(r.proposalId, Trim(r.key), DetectionHash(e, db, r))
    ensures LoadDetection(e, db, r, actor).value.Answered? ==>
            LoadDetection(e, db, r, actor).value.requestHash == DetectionHash(e, db, r)
  {
    hide Trim, FindRun, Replay, RequestHash;
  }

  function DetectionHash(e: Engine, db: Db, r: Request): string
    requires r.DetectConflicts? && r.proposalId < |db.proposals|
  {
    RequestHash(e, r.proposalId, EffectiveTolerance(r.tolerance, db.proposals[r.proposalId]))
  }

  // And a detection that gets past its checks is recorded with the reply of the
  // service method.
  lemma DetectionReplies(e: Engine, s: Sys, j: Errand, found: Result<Found, AppError>)
    requires s.calls == map[] && j.request.DetectConflicts? && Comes(e, s.db, j, found)
    requires LoadDetection(e, s.db, j.request, j.actor).Success? && j.request.proposalId < |s.db.proposals|
    ensures After(e, s, Serve(j)).outcomes ==
            s.outcomes + [Outcome(j.actor.id, Trim(j.request.key), DetectionHash(e, s.db, j.request),
                                  DetectedConflicts(e, s.db, j.actor, j.request, found).reply,
                                  |DetectedConflicts(e, s.db, j.actor, j.request, found).db.runs|)]
  {
    hide Read, Prepared, After, Comes, LoadDetection, FindRun, Replay, RequestHash, Trim, RecordDetection, ComputedFor;
    AfterServe(e, s, j);
    ReadsDetection(e, s, j);
    DetectionLoads(e, s.db, j.request, j.actor);
    match LoadDetection(e, s.db, j.request, j.actor).value {
      case ToCompute(p) => DetectionDecides(e, Read(e, s, j), j, p, found);
      case Answered(_, _) => AnsweredIsDone(e, s.db, j);
    }
  }

  lemma AnsweredIsDone(e: Engine, db: Db, j: Errand)
    requires j.request.DetectConflicts?
    requires LoadDetection(e, db, j.request, j.actor).Success?
      && LoadDetection(e, db, j.request, j.actor).value.Answered?
    ensures Prepared(e, db, j).None?
  {
    hide LoadDetection;
  }

  // ---------------------------------------------- any sequence of service calls

  // A call of a service method, with what detection would find, should it be one.
  datatype Use = Use(actor: Actor, request: Request, found: Result<Found, AppError>)

  function StoresAfter(e: Engine, uses: seq<Use>): Db {
    if uses == [] then EMPTY
    else
      var last := uses[|uses| - 1];
      StoreAfter(e, StoresAfter(e, uses[..|uses| - 1]), last.actor, last.request, last.found)
  }

  lemma FailedComputation(e: Engine, db: Db, u: Use)
    requires u.request.DetectConflicts? && u.request.proposalId < |db.proposals|
    requires ComputedFor(e, db, u.request, u.found).Failure?
    ensures StoreAfter(e, db, u.actor, u.request, u.found) == db
  {
    hide ComputedFor, LoadDetection;
  }

  lemma OneMoreServed(e: Engine, errands: seq<Errand>, j: Errand, found: Result<Found, AppError>)
    requires Comes(e, Run(e, Script(errands)).db, j, found)
    ensures Run(e, Script(errands + [j])).db == StoreAfter(e, Run(e, Script(errands)).db, j.actor, j.request, found)
  {
    hide Step, After, Run, StoreAfter, Comes;
    assert (errands + [j])[..|errands + [j]| - 1] == errands;
    SerialIsFresh(e, errands);
    RunAppend(e, Script(errands), Serve(j));
    ServedAlone(e, Run(e, Script(errands)), j, found);
  }

  // Whatever service methods are called one after the other on a new store, the
  // store they leave is the store of some run, so all that holds in every run
  // holds of it.
  lemma {:induction false} ServiceCallsAreRuns(e: Engine, uses: seq<Use>) returns (errands: seq<Errand>)
    ensures Run(e, Script(errands)).db == StoresAfter(e, uses)
  {
    hide Step, StoreAfter, ComputedFor, Run;
    if uses == [] {
      errands := [];
      NothingServed(e);
    } else {
      var last := uses[|uses| - 1];
      var earlier := ServiceCallsAreRuns(e, uses[..|uses| - 1]);
      var db := Run(e, Script(earlier)).db;
      if last.request.DetectConflicts? && last.request.proposalId < |db.proposals| {
        match ComputedFor(e, db, last.request, last.found) {
          case Failure(_) =>
            FailedComputation(e, db, last);
            errands := earlier;
          case Success(c) =>
            var j := Errand(last.actor, last.request, c.inputHash, c.drafts);
            OneMoreServed(e, earlier, j, last.found);
            errands := earlier + [j];
        }
      } else {
        var j := Errand(last.actor, last.request, "", []);
        OneMoreServed(e, earlier, j, last.found);
        errands := earlier + [j];
      }
    }
  }

  lemma NothingServed(e: Engine)
    ensures Run(e, Script([])).db == EMPTY
  {
  }
}

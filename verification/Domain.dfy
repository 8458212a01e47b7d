// The stored entities (backend/internal/model), their state graphs
// (backend/internal/constants) and who may move them.

module Domain {
  import opened Options
  import opened Framing

  // A row's identity is its position in its table; rows are never deleted.
  type Id = nat

  datatype Role = Surveyor | GisAnalyst | Reviewer | Auditor | Admin | OtherRole

  datatype Actor = Actor(id: Id, role: Role, requestId: string)

  datatype Parcel = Parcel(
    code: string, name: string, boundary: string, crs: string,
    area: real, version: nat, owner: string, state: string)

  datatype ObservationState = ObsAccepted | ObsRejected | ObsSuperseded

  datatype Observation = Observation(
    parcelId: Id, code: string, point: string,
    state: ObservationState, version: nat, replacedBy: Option<Id>, note: string, importedBy: Id)

  datatype ProposalState = Draft | Validated | Submitted | Reviewed | Revision | Accepted | Rejected

  datatype Proposal = Proposal(
    parcelId: Id, baseVersion: nat, geometry: string, observationIds: seq<Id>,
    tolerance: real, areaDelta: real,
    state: ProposalState, rationale: string, version: nat, createdBy: Id, reviewedBy: Option<Id>)

  datatype ConflictState = Detected | Confirmed | FalsePositive | ResolutionProposed | Resolved | Closed

  // suggestion is the snapped boundary of the suggested resolution, when usable.
  datatype Conflict = Conflict(
    proposalId: Id, parcelIds: seq<Id>, kind: string, geometry: string, magnitude: real,
    inputHash: string, suggestion: Option<string>,
    state: ConflictState, resolvedBy: Option<Id>)

  datatype DetectionRun = DetectionRun(
    proposalId: Id, actorId: Id, key: string, requestHash: string, inputHash: string, resultIds: seq<Id>)

  // ------------------------------------------------------------- state graphs

  predicate CanProposalTransition(from: ProposalState, to: ProposalState) {
    match from
    case Draft => to == Validated
    case Validated => to == Submitted
    case Submitted => to == Reviewed
    case Reviewed => to == Accepted || to == Rejected || to == Revision
    case Revision => to == Draft
    case Accepted => false
    case Rejected => false
  }

  predicate CanConflictTransition(from: ConflictState, to: ConflictState) {
    match from
    case Detected => to == Confirmed || to == FalsePositive
    case Confirmed => to == ResolutionProposed
    case FalsePositive => to == Closed
    case ResolutionProposed => to == Resolved
    case Resolved => to == Closed
    case Closed => false
  }

  predicate CanObservationTransition(from: ObservationState, to: ObservationState) {
    || (from == ObsAccepted && (to == ObsRejected || to == ObsSuperseded))
    || (from == ObsRejected && to == ObsAccepted)
  }

  // The longest way from detection to the state.
  function Rank(state: ConflictState): nat {
    match state
    case Detected => 0
    case Confirmed => 1
    case FalsePositive => 1
    case ResolutionProposed => 2
    case Resolved => 3
    case Closed => 4
  }

  predicate IsReview(to: ProposalState) {
    to == Reviewed || to == Accepted || to == Rejected || to == Revision
  }

  predicate Settles(to: ConflictState) {
    to == Resolved || to == Closed
  }

  // authorizeProposalTransition.
  predicate Authorized(createdBy: Id, to: ProposalState, actor: Actor) {
    if IsReview(to) then (actor.role == Reviewer || actor.role == Admin) && actor.id != createdBy
    else actor.id == createdBy || actor.role == Admin
  }

  // ------------------------------------------------------------------- errors

  datatype AppError =
    | InvalidInput
    | NotFound
    | StateConflict
    | Forbidden
    | GeometryInvalid
    | Internal

  // ------------------------------------------------- code the model cannot see

  // Parsing, hashing and formatting are parameters of everything that uses them.
  datatype Engine = Engine(
    polygonArea: string -> Option<real>,
    pointValid: string -> bool,
    crsValid: string -> bool,
    digest: string -> string,
    formatId: Id -> string,
    formatTolerance: real -> string)

  // The hash of a detection request: geometry.Hash of its two parts.
  function RequestHash(e: Engine, proposalId: Id, tolerance: real): string {
    e.digest(Frame([e.formatId(proposalId), e.formatTolerance(tolerance)]))
  }

  // With a collision-free digest, equal hashes mean the same proposal and the
  // same formatted tolerance.
  lemma RequestHashExact(e: Engine, id1: Id, tol1: real, id2: Id, tol2: real)
    requires forall s, t :: e.digest(s) == e.digest(t) ==> s == t
    requires forall i :: NUL !in e.formatId(i)
    requires forall x :: NUL !in e.formatTolerance(x)
    requires forall i, j :: e.formatId(i) == e.formatId(j) ==> i == j
    ensures RequestHash(e, id1, tol1) == RequestHash(e, id2, tol2)
       <==> id1 == id2 && e.formatTolerance(tol1) == e.formatTolerance(tol2)
  {
    var a := [e.formatId(id1), e.formatTolerance(tol1)];
    var b := [e.formatId(id2), e.formatTolerance(tol2)];
    if RequestHash(e, id1, tol1) == RequestHash(e, id2, tol2) {
      assert Frame(a) == Frame(b);
      FrameInjective(a, b);
      assert a[0] == b[0] && a[1] == b[1];
    }
  }

  // ----------------------------------------------------------------- trimming

  // Unicode's white space.
  predicate IsSpace(c: char) {
    var n := c as int;
    || 9 <= n <= 13 || n == 32 || n == 0x85 || n == 0xA0 || n == 0x1680 || 0x2000 <= n <= 0x200A
    || n == 0x2028 || n == 0x2029 || n == 0x202F || n == 0x205F || n == 0x3000
  }

  function TrimLeft(s: string): string {
    if s != [] && IsSpace(s[0]) then TrimLeft(s[1..]) else s
  }

  function TrimRight(s: string): string {
    if s != [] && IsSpace(s[|s| - 1]) then TrimRight(s[..|s| - 1]) else s
  }

  function Trim(s: string): string {
    TrimRight(TrimLeft(s))
  }

  function Upper(s: string): string {
    seq(|s|, i requires 0 <= i < |s| => if 'a' <= s[i] <= 'z' then (s[i] as int - 32) as char else s[i])
  }

  lemma {:induction false} TrimRightEnds(s: string)
    ensures TrimRight(s) <= s
    ensures TrimRight(s) == [] || !IsSpace(TrimRight(s)[|TrimRight(s)| - 1])
  {
    if s != [] && IsSpace(s[|s| - 1]) {
      TrimRightEnds(s[..|s| - 1]);
    }
  }

  lemma {:induction false} TrimLeftStarts(s: string)
    ensures TrimLeft(s) == [] || !IsSpace(TrimLeft(s)[0])
  {
    if s != [] && IsSpace(s[0]) {
      TrimLeftStarts(s[1..]);
    }
  }

  lemma TrimTwice(s: string)
    ensures Trim(Trim(s)) == Trim(s)
  {
    TrimLeftStarts(s);
    TrimRightEnds(TrimLeft(s));
  }

  ghost predicate AllSpace(s: string) {
    forall i :: 0 <= i < |s| ==> IsSpace(s[i])
  }

  lemma {:induction false} TrimLeftCuts(s: string) returns (before: string)
    ensures s == before + TrimLeft(s) && AllSpace(before)
  {
    before := [];
    if s != [] && IsSpace(s[0]) {
      var rest := TrimLeftCuts(s[1..]);
      before := [s[0]] + rest;
    }
  }

  lemma {:induction false} TrimRightCuts(s: string) returns (after: string)
    ensures s == TrimRight(s) + after && AllSpace(after)
  {
    after := [];
    if s != [] && IsSpace(s[|s| - 1]) {
      var rest := TrimRightCuts(s[..|s| - 1]);
      after := rest + [s[|s| - 1]];
    }
  }

  // What trimming cuts off is white space, and what is left neither begins nor
  // ends with any.
  lemma TrimExactly(s: string) returns (before: string, after: string)
    ensures s == before + Trim(s) + after && AllSpace(before) && AllSpace(after)
    ensures Trim(s) == "" || (!IsSpace(Trim(s)[0]) && !IsSpace(Trim(s)[|Trim(s)| - 1]))
  {
    before := TrimLeftCuts(s);
    after := TrimRightCuts(TrimLeft(s));
    TrimLeftStarts(s);
    TrimRightEnds(TrimLeft(s));
  }

  lemma TrimStays(s: string)
    requires s == "" || (!IsSpace(s[0]) && !IsSpace(s[|s| - 1]))
    ensures Trim(s) == s
  {
  }

  lemma UpperStays(s: string)
    requires forall i :: 0 <= i < |s| ==> !('a' <= s[i] <= 'z')
    ensures Upper(s) == s
  {
  }
}

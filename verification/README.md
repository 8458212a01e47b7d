# Cadastral boundary topology resolution: a verified model

The repository keeps land parcels, survey observations of them, proposals to
change a parcel's boundary, and the topology conflicts that such a proposal
would cause with neighbouring parcels. Every change is audited. This project
models its four hardest parts in Dafny and proves what they promise.

- **Geometry** (`Planar`, `Shoelace`, `Snapping`, `Rings`, `SnapEvidence`,
  `ReferenceOrder`, `Topology`, `Framing`): projection onto a segment, the
  shoelace loop, snapping to reference vertices and edges with its list of
  changes, the ring rules of section 3.1.6 of RFC 7946, the detection loop over
  neighbours, and the framing of hashed parts.
- **Services over a transactional store** (`Domain`, `Database`, `Repository`,
  `Services`, `Detection`, `Analysis`, `DetectionResults`, `DetectionEvidence`,
  `Serving`, `CadastralServices`, `Operations`). The class `Repository.Store`
  updates its tables in place; the methods of `CadastralService` follow the
  source branch by branch, with a rollback on failure. `Services` holds the
  specification they meet: for each operation what it reads and checks, and what
  its transaction does to a store. `Operations` states what that comes to for the
  caller, without these functions.
- **All interleavings** (`Interleaving`, `Evolution`, `ProposalLifecycle`,
  `ObservationLifecycle`, `SerialRuns`, `ConflictLifecycle`,
  `DetectionIdempotency`, `AuditJournal`, `Rationales`, `AreaHistory`,
  `StoredGeometry`). A state is a store with any number of calls in flight, each
  remembering what it has read. A step lets one call start, read on, finish
  computing, commit, fail, or look up again. `Interleaving.Run` is the state after
  any list of steps, and the main results are about every such list.
  `Serving.ServedAlone` and `Serving.ServiceCallsAreRuns` tie this machine to the
  service methods.
- **Rate limiting and redaction** (`RateLimiting`, `Redaction`): the fixed-window
  limiter with its sweep, and the scrubbing of audit snapshots.

Parsing, validity, area, overlay, hashing and formatting are functions supplied
from outside (`Domain.Engine`, `Rings.Library`, `Analysis.Codec`,
`Topology.Overlay`), about which nothing is assumed except where a lemma says so.

## What the code does that its users may not expect

- One snapping pass is not idempotent: see `Snapping.TwoPassesCanDiffer`, and
  `Snapping.OnePassIsTwoExactlyWhen` for exactly when it is.
- Findings of one kind with the same evidence are reported for one neighbour only
  (`Topology.SurvivesExactly`). All gaps share one evidence geometry, so only the
  gap with the lowest neighbour id is reported (`Topology.GapNamesExactly`,
  `Topology.GapLost`); dangling edges without any shared boundary share the empty
  one (`Topology.DanglingEdgeLost`).
- The replacement of an observation is checked outside the transaction. Serial
  runs are acyclic, overlapping calls can make a cycle
  (`SerialRuns.OverlapMakesCycle`).
- An observation can be imported as superseded; it then has no replacement, and
  a chain that starts there ends there. A rejected observation may serve as a
  replacement: the check only refuses superseded ones.
- The audit entry of a proposal move does not record the rationale it writes
  (`Rationales.RationaleLost`, and `Rationales.MovedRowExactly` for exactly when
  that matters), and the response keeps the old one
  (`ProposalLifecycle.ResponseExactlyWhen`).
- A parcel update may name a version it has not read. The before-snapshot is then
  not the row at commit (`AuditJournal.ParcelBeforeExactly`), and such an update
  can undo another one (`AreaHistory.GuessedVersionUndoes`).
- A proposal transition takes no notice of the version in its request: its guard
  uses the version it has loaded.
- A first detection answers with the new rows; a replay answers with the same
  ids and the rows as they are by then.
- The limiter reads the time before it takes its lock, so calls may enter out of
  the order of their times. A call that precedes the last sweep can be admitted
  although its window is full (`RateLimiting.LateCallBreaksBound`); without such
  calls the sweep is invisible (`RateLimiting.SweepInvisible`).
- With a positive limit, a key whose calls are in time order is admitted at most
  `2 * limit - 1` times within one window's length, one fewer than two full
  windows.

## Model

| member | source | states |
|---|---|---|
| `Planar.ProjectIsClosest` | backend/internal/geometry/geometry.go:238-247 | No point of the segment is closer to the given point than the projection, for every segment, zero-length ones included |
| `Planar.ProjectOnSegment` | backend/internal/geometry/geometry.go:238-247 | The projection is a point of the segment |
| `Planar.ProjectIdempotent` | backend/internal/geometry/geometry.go:238-247 | Projecting a projection onto the same segment changes nothing |
| `Planar.ProjectFixesSegment` | backend/internal/geometry/geometry.go:238-247 | Every point of a segment projects to itself |
| `Planar.ProjectCases` | backend/internal/geometry/geometry.go:244-246 | A projection is an endpoint or lies strictly inside the segment with a displacement perpendicular to it |
| `Planar.WithinExactly` | backend/internal/geometry/geometry.go:249-251 | A point is within tolerance when its squared distance is at most the squared tolerance, so at exactly the tolerance too |
| `Shoelace.SignedArea` | backend/internal/geometry/geometry.go:135-141 | The loop computes half the sum of the cross products of consecutive points, also on empty and one-point rings |
| `Shoelace.AreaRotate` | backend/internal/geometry/geometry.go:135-141 | The signed area of a closed ring does not depend on its starting vertex |
| `Shoelace.AreaReverse` | backend/internal/geometry/geometry.go:76-82 | Reversing a ring negates its signed area |
| `Shoelace.AreaTranslate` | backend/internal/geometry/geometry.go:135-141 | The signed area of a closed ring is invariant under translation |
| `Shoelace.AreaChord` | backend/internal/geometry/geometry.go:135-141 | Cutting a closed ring along the chord between any two vertices splits its signed area into the sum of the two parts |
| `Shoelace.AreaTriangle` | backend/internal/geometry/geometry.go:135-141 | The signed area of a triangle is half the cross product of its sides, positive counter-clockwise; with AreaChord this fixes the area of every closed ring |
| `Shoelace.AreaBound` | backend/internal/geometry/geometry.go:135-141 | Moving every vertex of a closed ring of n edges by at most d changes the signed area by at most d times the sum of abs(dx) + abs(dy) over the edges, plus n d^2 / 2 |
| `Snapping.ScanNearest` | backend/internal/geometry/geometry.go:217-222 | One scan with strict comparison finds the first of the nearest targets within tolerance, or none when none is within tolerance |
| `Snapping.NearestSnapTarget` | backend/internal/geometry/geometry.go:213-236 | The two loops compute: the first nearest vertex within tolerance, else the first nearest segment projection within tolerance, else no move; a target equal to the source is no move; the distance is that of the move |
| `Snapping.CollectReferences` | backend/internal/geometry/geometry.go:177-188 | The nested loops collect every ring vertex and every pair of consecutive vertices, polygon by polygon and in order |
| `ReferenceOrder.CollectedExactly` | backend/internal/geometry/geometry.go:177-188 | The collected vertices are all vertices of all rings of all polygons and the segments all their edges, each once, in the order of polygon, ring and index |
| `ReferenceOrder.CollectedMembers` | backend/internal/geometry/geometry.go:179-188 | A point is collected if and only if it is a vertex of some ring of some polygon, a segment if and only if it is an edge of one |
| `ReferenceOrder.SnapExactly` | backend/internal/geometry/geometry.go:177-236 | A coordinate within tolerance of a vertex of any reference ring goes to the first nearest such vertex in the order of polygon, ring and index, else to its projection on the first nearest edge within tolerance, else nowhere |
| `ReferenceOrder.SnapsToOne` | backend/internal/geometry/geometry.go:213-236 | There is only one such target |
| `Snapping.CollectedEndpoints` | backend/internal/geometry/geometry.go:179-187 | Both ends of every collected segment have been collected as vertices |
| `Snapping.SnapWithin` | backend/internal/geometry/geometry.go:232-235 | A snapped coordinate stays within tolerance, and a recorded move is never a zero move |
| `Snapping.EdgeSnapInterior` | backend/internal/geometry/geometry.go:223-231 | An edge snap lands strictly inside a segment of non-zero length, perpendicular to it, never on a vertex, and only when no vertex is within tolerance |
| `Snapping.VertexFixed` | backend/internal/geometry/geometry.go:213-236 | A reference vertex is never moved, whatever the tolerance |
| `Snapping.SecondPass` | backend/internal/geometry/geometry.go:213-236 | A second pass moves an edge-snapped point exactly when a vertex is within tolerance of it, and then onto a vertex |
| `Snapping.ThreePassesAreTwo` | backend/internal/geometry/geometry.go:172-198 | Against fixed references three passes equal two, for every point |
| `Snapping.OnePassIsTwoExactlyWhen` | backend/internal/geometry/geometry.go:172-198 | One pass already is stable unless, and only unless, no vertex is within tolerance of the source, the projection onto its first nearest segment within tolerance is another point, and a vertex is within tolerance of that point |
| `Snapping.TwoPassesCanDiffer` | backend/internal/geometry/geometry.go:213-236 | Against an accepted square, a point that the first pass drops onto an edge and the second pulls to a corner: a single pass is not idempotent |
| `Rings.ParsePolygon` | backend/internal/geometry/geometry.go:48-97 | The loop over rings returns the polygon or the error of the first faulty ring, in the order of the checks |
| `Rings.ParseAccepts` | backend/internal/geometry/geometry.go:65-95 | A polygon is accepted if and only if it is valid, non-empty, of positive area, and every ring is closed with at least four points, counter-clockwise outside and clockwise inside |
| `Rings.ParseKeeps` | backend/internal/geometry/geometry.go:86-96 | An accepted polygon has the rings of the input and the library's area, and parses again to itself |
| `Rings.ParseRejects` | backend/internal/geometry/geometry.go:48-96 | Each error is that of the first check that fails, and among the rings that of the first faulty one |
| `Rings.OrientationIgnoresStart` | backend/internal/geometry/geometry.go:72-82 | The verdict on a ring does not depend on where its listing starts |
| `Rings.ReversalSwapsRoles` | backend/internal/geometry/geometry.go:76-82 | A ring is a good exterior exactly when its reversal is a good interior |
| `SnapEvidence.SnapToReferences` | backend/internal/geometry/geometry.go:172-211 | Without a positive tolerance the candidate comes back as it is; otherwise every coordinate is snapped in order, invalid results and results that do not parse are errors, and the changes list the moves in order |
| `ReferenceOrder.SnappedExactly` | backend/internal/geometry/geometry.go:172-211 | The result is the candidate for a tolerance that is not positive, else the polygon of the rings so snapped, with their changes, if and only if that polygon is accepted |
| `ReferenceOrder.ChangesInOrder` | backend/internal/geometry/geometry.go:189-198 | There is one change for each moved coordinate, in the order of ring and index, with its target, its distance and whether a vertex or an edge attracted it |
| `SnapEvidence.ChangesExact` | backend/internal/geometry/geometry.go:190-198 | The recorded changes are exactly the moves of the coordinates that occur, with kind and distance |
| `SnapEvidence.ChangeFacts` | backend/internal/geometry/geometry.go:196-197 | Every recorded move is non-zero and within tolerance, and Before determines the whole record |
| `SnapEvidence.EvidenceReproducesSnap` | backend/internal/geometry/geometry.go:189-198 | Substituting Before by After in the original rings gives exactly the snapped rings |
| `SnapEvidence.SnapAreaBound` | backend/internal/geometry/geometry.go:190-198 | Snapping keeps a closed ring closed and changes its signed area within the bound of AreaBound |
| `SnapEvidence.SnapKeepsOrientation` | backend/internal/geometry/geometry.go:190-206 | A ring with more area than that bound keeps its orientation when snapped |
| `SnapEvidence.SnapPassesRingRules` | backend/internal/geometry/geometry.go:199-209 | Snapping an accepted polygon with such rings breaks no ring rule: only the overlay library can still refuse it |
| `Topology.DetectTopology` | backend/internal/geometry/geometry.go:269-309 | The loop examines the neighbours in id order, stops at the first error, and returns the deduplicated findings |
| `Topology.ExamineExactly` | backend/internal/geometry/geometry.go:273-306 | A neighbour contributes a finding if and only if it is the overlap, gap or dangling-edge report that is due, with the measured magnitude and encoded evidence; each kind at most once, all naming that neighbour, and never a dangling edge where there is a gap |
| `Topology.ExamineFailsExactly` | backend/internal/geometry/geometry.go:273-306 | A neighbour fails with the first of its overlay, the encoding of an overlap or gap that is due, the boundary overlay, and the encoding of a dangling edge that is due, and with nothing else |
| `Topology.DetectionFailsExactly` | backend/internal/geometry/geometry.go:269-309 | Detection fails if and only if some neighbour does, with the error of the failing one that has the lowest id |
| `Topology.FindingsInOrder` | backend/internal/geometry/geometry.go:271-308 | The findings come in the order of the neighbours' ids, and for one neighbour as overlap, gap, dangling edge |
| `Topology.OrderIndependent` | backend/internal/geometry/geometry.go:271-271 | With distinct ids the result does not depend on the order in which neighbours are supplied |
| `Topology.DeduplicateFindings` | backend/internal/geometry/geometry.go:315-327 | The loop with the seen map keeps the first finding of every key |
| `Topology.DeduplicatedExact` | backend/internal/geometry/geometry.go:315-327 | No key is kept twice, the first finding of every key is kept, and nothing else is |
| `Topology.DeduplicateIdempotent` | backend/internal/geometry/geometry.go:315-327 | Deduplicating twice is deduplicating once |
| `Topology.KeyInjective` | backend/internal/geometry/geometry.go:319-319 | For types without the separator, which all of them are, joined keys are equal exactly when type and geometry are |
| `Topology.GapOrDanglingEdge` | backend/internal/geometry/geometry.go:285-306 | No neighbour is reported both as a gap and as a dangling edge |
| `Topology.AtMostOneGap` | backend/internal/geometry/geometry.go:287-308 | At most one gap survives, because every gap carries the candidate boundary as evidence |
| `Topology.GapNamesLowest` | backend/internal/geometry/geometry.go:287-308 | A surviving gap names a gapped neighbour with the lowest id |
| `Topology.GapReportedExactlyWhen` | backend/internal/geometry/geometry.go:287-308 | A gap is reported if and only if some neighbour was within tolerance of the base and is not of the candidate |
| `Topology.GapNamesExactly` | backend/internal/geometry/geometry.go:287-308 | With distinct ids a gap that names n is reported if and only if n is the gapped neighbour with the lowest id |
| `Topology.SurvivesExactly` | backend/internal/geometry/geometry.go:269-327 | For every kind: a neighbour's finding is in the result if and only if no neighbour with a lower id reports the same kind with the same geometry |
| `Topology.GapLost` | backend/internal/geometry/geometry.go:287-308 | Two gapped neighbours of which one is reported |
| `Topology.DanglingEdgeLost` | backend/internal/geometry/geometry.go:295-308 | Two neighbours that are dangling edges with the same empty evidence, of which one is reported |
| `Framing.Preimage` | backend/internal/geometry/geometry.go:118-125 | The loop writes every part followed by a NUL |
| `Framing.HeadEnds` | backend/internal/geometry/geometry.go:120-123 | For NUL-free parts the preimage is the first part, a NUL, and the preimage of the rest |
| `Framing.FrameInjective` | backend/internal/geometry/geometry.go:118-125 | Different lists of NUL-free parts have different preimages |
| `Framing.NulCollides` | backend/internal/geometry/geometry.go:118-125 | A part with an embedded NUL collides with two parts |
| `RateLimiting.RateLimiter.Allow` | backend/internal/middleware/auth.go:50-71 | The method with its in-place sweep decides and updates as the specification says, and returns the end of the window that decided; a refusal stores nothing for the key |
| `RateLimiting.RateLimiter.Sweep` | backend/internal/middleware/auth.go:54-58 | Deleting in a loop over the map removes exactly the visitors that have expired |
| `RateLimiting.AllowExactly` | backend/internal/middleware/auth.go:50-71 | Entry by entry: a call is admitted in an open window with room and in a new one, and counted there; the expired visitors go exactly when more than a window has passed since the last sweep |
| `RateLimiting.WindowServes` | backend/internal/middleware/auth.go:61-70 | A call that finds no open window opens one of the full length, and in it exactly the first limit calls are admitted |
| `RateLimiting.RetryExactly` | backend/internal/middleware/auth.go:65-70 | A refused key is admitted again exactly when the returned end of the window has passed |
| `RateLimiting.CallDiffersExactly` | backend/internal/middleware/auth.go:53-70 | The sweep changes the decision of a call if and only if it had removed a visitor that is at its limit and still live at the time of the call |
| `RateLimiting.SweepInvisible` | backend/internal/middleware/auth.go:53-60 | As long as no call's time precedes the last executed sweep, every sequence of calls gets the decisions of a limiter that never deletes |
| `RateLimiting.LateCallExactly` | backend/internal/middleware/auth.go:53-70 | For limit 1, a call with an earlier time than the sweep before it is admitted although its window is open; without sweeping, exactly when the window is over |
| `RateLimiting.LateCallBreaksBound` | backend/internal/middleware/auth.go:53-75 | Such a call makes the decisions differ and admits a key twice within one window for limit 1 |
| `RateLimiting.InOrder` | backend/internal/middleware/auth.go:75-75 | Calls that enter in the order of their times meet the conditions of the bounds |
| `RateLimiting.KeysIndependent` | backend/internal/middleware/auth.go:61-70 | As long as no call precedes the last sweep, the answers to a key are a function of that key's call times alone, in whatever order they come |
| `RateLimiting.NothingLongExpired` | backend/internal/middleware/auth.go:53-63 | After a call at t no stored visitor has been expired for longer than a window |
| `RateLimiting.AdmissionBound` | backend/internal/middleware/auth.go:61-70 | If no call precedes the last sweep and no call of the key is more than d before an earlier one of the key, then in a closed interval [a, b] the key is admitted at most (ceil((b + d - a) / window) + 1) * limit times, and one fewer when a < b + d; d is 0 for calls in time order |
| `RateLimiting.CeilIsCeiling` | backend/internal/middleware/auth.go:61-70 | The rounding used in the bound is the ceiling of the quotient |
| `RateLimiting.OneWindowBound` | backend/internal/middleware/auth.go:61-70 | If the key's own calls are in time order and no call precedes the last sweep, the key is admitted fewer than 2 * limit times in any interval of one window |
| `RateLimiting.BoundAttained` | backend/internal/middleware/auth.go:61-70 | The bound is reached by a concrete sequence of calls |
| `RateLimiting.NoLimitNoAdmission` | backend/internal/middleware/auth.go:65-67 | With a limit of zero or less no call is admitted, in whatever order calls come |
| `Redaction.ScrubSnapshot` | backend/internal/service/support_service.go:187-203 | The recursive walk, field by field and item by item, gives the scrubbed tree, and terminates on every tree |
| `Redaction.SensitiveExactly` | backend/internal/service/support_service.go:177-185 | A key is sensitive if and only if somewhere it reads as one of the nine tokens, whatever the case, with - and space for _ |
| `Redaction.CleanPathsKept` | backend/internal/service/support_service.go:187-203 | Along every path without a sensitive key the same paths exist after scrubbing and lead to the scrubbed value |
| `Redaction.SensitiveReplaced` | backend/internal/service/support_service.go:191-194 | A sensitive key reached through clean keys holds the marker afterwards exactly when it was there before |
| `Redaction.NothingSensitiveLeft` | backend/internal/service/support_service.go:187-203 | At no depth does a sensitive key hold anything but the marker |
| `Redaction.ScrubIdempotent` | backend/internal/service/support_service.go:187-203 | Scrubbing twice is scrubbing once |
| `Domain.RequestHashExact` | backend/internal/service/topology_conflict_service.go:36-36 | Request hashes agree if and only if the proposal and the printed tolerance do, for a collision-free digest |
| `Domain.TrimExactly` | backend/internal/service/topology_conflict_service.go:21-24 | What trimming cuts off is white space, and what is left neither begins nor ends with any |
| `Repository.UniqueSortedIds` | backend/internal/service/topology_conflict_service.go:290-299 | Sorting and compacting within the same array leaves the specified prefix |
| `Repository.UniqueSorted` | backend/internal/service/topology_conflict_service.go:290-299 | That prefix holds exactly the given ids, strictly increasing |
| `Repository.Neighbours` | backend/internal/repository/land_parcel_repository.go:65-72 | The other active parcels of the coordinate system, all of them, in id order |
| `Repository.Store.ListActiveByCoordinateSystem` | backend/internal/repository/land_parcel_repository.go:65-72 | The query loop returns those neighbours |
| `Repository.Store.ListByIDs` | backend/internal/repository/topology_conflict_repository.go:33-54 | The rows come back in the order of the ids, through a map; one missing id fails the whole list |
| `Repository.Store.GetByActorKey` | backend/internal/repository/topology_conflict_repository.go:96-105 | Finds the first run of the actor and key, or none |
| `Repository.Store.CreateRun` | backend/internal/repository/topology_conflict_repository.go:107-112 | Inserts a run unless the unique index on actor and key holds one |
| `Repository.Store.TransitionConflict` | backend/internal/repository/topology_conflict_repository.go:78-91 | Compare-and-set on the state alone; the resolver is written only when given; nothing else changes |
| `Repository.Store.TransitionProposal` | backend/internal/repository/boundary_proposal_repository.go:53-64 | Compare-and-set on version and state; the version is incremented; only the supplied columns change |
| `Repository.Store.TransitionObservation` | backend/internal/repository/survey_observation_repository.go:53-69 | Compare-and-set on the version alone; replacement and note are written only when given |
| `Repository.Store.UpdateParcel` | backend/internal/repository/land_parcel_repository.go:74-88 | Compare-and-set on the version; every mutable column is written, the code is not |
| `Repository.Store.CreateAudit` | backend/internal/repository/support_repository.go:152-160 | An audit entry is refused without a request id, otherwise appended |
| `CadastralServices.CadastralService.CreateParcel` | backend/internal/service/land_parcel_service.go:22-54 | Error by error what the method returns, and the store it leaves: the row and its audit entry, or the store unchanged |
| `Operations.CreatingParcelExactly` | backend/internal/service/land_parcel_service.go:22-54 | When parcel creation succeeds and with which error it fails, and on success every field of the row, the tables and the audit entry |
| `CadastralServices.CadastralService.UpdateParcel` | backend/internal/service/land_parcel_service.go:76-124 | The updated row is derived from the loaded one, guarded by the requested version or else the loaded one; a failed transaction leaves the store unchanged |
| `Operations.UpdatingParcelExactly` | backend/internal/service/land_parcel_service.go:76-124 | When an update succeeds and with which error it fails; every field is the requested value, trimmed, upper-cased or parsed, where one is given, and the loaded one where none is; the area is that of a new boundary |
| `CadastralServices.CadastralService.ImportObservation` | backend/internal/service/survey_observation_service.go:14-42 | As CreateParcel, for an imported observation of an existing parcel |
| `Operations.ImportingExactly` | backend/internal/service/survey_observation_service.go:14-42 | When an import succeeds and with which error it fails, and every field of the row |
| `CadastralServices.CadastralService.TransitionObservation` | backend/internal/service/survey_observation_service.go:64-118 | The checks in the order of the source, the replacement rules, then the guarded update with its audit entry, or the store unchanged |
| `Operations.MovingObservationExactly` | backend/internal/service/survey_observation_service.go:64-118 | A transition succeeds if and only if the version is current, the edge is in the graph, the role is permitted and the replacement rules hold; and every field it stores, replies and logs |
| `Operations.ReplacementErrors` | backend/internal/service/survey_observation_service.go:82-98 | The errors about the replacement of a legal and permitted transition |
| `CadastralServices.CadastralService.CreateProposal` | backend/internal/service/boundary_proposal_service.go:16-56 | The loop over observations refuses the first that is missing or belongs to another parcel; the draft and its audit entry appear together |
| `Operations.ProposingExactly` | backend/internal/service/boundary_proposal_service.go:16-56 | A proposal is created if and only if the base version is current, the geometry parses and every observation is there and belongs to the parcel; each error; every field of the row |
| `CadastralServices.CadastralService.TransitionProposal` | backend/internal/service/boundary_proposal_service.go:78-115 | State graph, authorisation, then the guarded update; the request's own version takes no part |
| `Operations.MovingProposalExactly` | backend/internal/service/boundary_proposal_service.go:78-141 | For a legal target the reply is Forbidden if and only if the actor may not make the move, with roles and authorship written out; and every field stored, replied and logged |
| `Operations.MovesAreAuthorized` | backend/internal/service/boundary_proposal_service.go:117-136 | Under every interleaving a committed review is by a reviewer or administrator who is not the author, and any other move by the author or an administrator |
| `CadastralServices.CadastralService.TransitionConflict` | backend/internal/service/topology_conflict_service.go:157-184 | State graph, then the state-guarded update with its audit entry, or the store unchanged |
| `Operations.MovingConflictExactly` | backend/internal/service/topology_conflict_service.go:157-184 | A transition succeeds if and only if its edge is one of the six of the graph; and every field stored, replied and logged |
| `CadastralServices.CadastralService.ApplyConflictSuggestion` | backend/internal/service/topology_conflict_service.go:186-250 | Derived proposal, conflict and both audit entries appear together or not at all |
| `Operations.AppliedExactly` | backend/internal/service/topology_conflict_service.go:186-250 | When an application succeeds, and every field of the derived row: the suggested geometry, its area against the parcel's, what it takes over from the source, the parcel's version, the source's version plus one, the actor, the rationale; and both audit entries |
| `Operations.ApplicationErrors` | backend/internal/service/topology_conflict_service.go:200-223 | The errors of a permitted application in the right state |
| `Operations.ReadsExactly` | backend/internal/service/topology_conflict_service.go:200-232 | What each of the later reads of an application takes from the store as it is by then |
| `ConflictLifecycle.SuggestionCarriedOut` | backend/internal/service/topology_conflict_service.go:207-245 | In every run a derived proposal has the geometry its conflict suggests, and the parcel, observations and tolerance of the source proposal |
| `CadastralServices.CadastralService.ReplayDetectionRun` | backend/internal/service/topology_conflict_service.go:252-265 | A different request hash is a conflict; otherwise the run's conflicts in the run's order |
| `CadastralServices.CadastralService.CollectInputs` | backend/internal/service/topology_conflict_service.go:58-73 | The loop over neighbours collects their polygons and the parts of the input hash, and fails on a stored neighbour that does not parse |
| `DetectionResults.StoredConflicts` | backend/internal/service/topology_conflict_service.go:58-127 | A detection that changes the store adds conflicts that each name the proposal's parcel and exactly one active neighbour in its coordinate system, all with the input hash and a suggestion, no two with the same kind and geometry, and at most one of them a gap |
| `Analysis.HashFixesFindings` | backend/internal/service/topology_conflict_service.go:50-83 | Two detections with the same tolerance and the same input hash come to the same findings and suggestion, or to the same error |
| `StoredGeometry.ParcelsParse` | backend/internal/service/topology_conflict_service.go:50-69 | In every run every stored boundary parses again, to a polygon of the stored area |
| `StoredGeometry.DetectionParses` | backend/internal/service/topology_conflict_service.go:43-69 | In every run detection on any stored proposal, created or derived, finds its parcel and parses the boundary, the proposal and all neighbours |
| `CadastralServices.CadastralService.BuildItems` | backend/internal/service/topology_conflict_service.go:91-104 | One conflict for each finding, with its sorted participants |
| `CadastralServices.CadastralService.RecordRun` | backend/internal/service/topology_conflict_service.go:105-127 | The transaction stores all conflicts, their audit entries, the run and its entry, or leaves the store unchanged |
| `CadastralServices.CadastralService.RecordOrReplay` | backend/internal/service/topology_conflict_service.go:105-134 | On any store: the stored result, or after a rollback the replay of the run that is there, or an internal error |
| `CadastralServices.CadastralService.DetectConflicts` | backend/internal/service/topology_conflict_service.go:20-135 | The whole protocol: key check, lookup and replay, computation, transaction, fallback |
| `Operations.DetectionRefused` | backend/internal/service/topology_conflict_service.go:20-31 | A blank or too long key and an unknown proposal are refused, in this order |
| `Operations.DetectionReplayed` | backend/internal/service/topology_conflict_service.go:32-41 | With a run for the key nothing is stored, and the answer is its conflicts as they are now for the same request hash, where a tolerance of 0 means the proposal's, and the conflict error for another |
| `Operations.DetectionRecorded` | backend/internal/service/topology_conflict_service.go:91-135 | Without one, either nothing is stored or a row for each finding, a run that lists them, and all their audit entries, field by field |
| `DetectionEvidence.StoredEvidence` | backend/internal/service/topology_conflict_service.go:43-104 | The stored rows are the reports due for the candidate that is their own parsed suggestion, against one neighbour each, in the order of the neighbours; the candidate is the proposal snapped against the parcel and all neighbours; every report due has a row of its kind and geometry |
| `DetectionEvidence.CompareFailsExactly` | backend/internal/service/topology_conflict_service.go:75-82 | Once everything parses, the computation fails if and only if the candidate is not acceptable, cannot be written out, or makes the overlay with some neighbour fail |
| `DetectionEvidence.ParsingErrors` | backend/internal/service/topology_conflict_service.go:50-69 | The parsing errors: of the parcel or the proposal, then of a neighbour |
| `Detection.ParticipantsExact` | backend/internal/service/topology_conflict_service.go:94-94 | A conflict names the parcel and the finding's neighbours, each once, in increasing order |
| `Detection.InputHashExact` | backend/internal/service/topology_conflict_service.go:58-83 | Input hashes agree if and only if boundary, proposed geometry, coordinate system, printed tolerance and every neighbour's id and boundary agree; the parcel's own id takes no part |
| `Detection.InputPartsExactly` | backend/internal/service/topology_conflict_service.go:64-73 | The parts that are hashed, in their order, the algorithm version among them |
| `Serving.ServedAlone` | backend/internal/repository/support_repository.go:66-68 | The interleaved steps of a call, with no other call in between, leave exactly the store that the service method leaves |
| `Serving.ServiceCallsAreRuns` | backend/internal/repository/support_repository.go:66-68 | Whatever service methods are called one after the other, the store they leave is that of some run, so every result about runs holds of it |
| `Serving.DetectionReplies` | backend/internal/service/topology_conflict_service.go:20-135 | Such a detection is answered with the reply of the service method |
| `Evolution.RunBase` | backend/internal/service/boundary_proposal_service.go:100-105 | In every run of interleaved calls, what each call in flight has read is an earlier form of the stored row |
| `Evolution.RowsMoveForward` | backend/internal/repository/boundary_proposal_repository.go:53-64 | As a run goes on no row is lost and every row only moves forward: versions and conflict ranks never fall, a superseded observation stays as it is |
| `Evolution.CommitsExactly` | backend/internal/repository/topology_conflict_repository.go:78-91 | In every reachable state a guarded update of a proposal, observation or conflict goes through if and only if the stored row is the one loaded and the request has an id; a parcel update, if and only if the version it names is the stored one |
| `Evolution.SecondCommitFails` | backend/internal/service/boundary_proposal_service.go:100-108 | Of two calls that have read the same proposal or observation row at most one commits |
| `Evolution.CommitFindsWhatWasRead` | backend/internal/repository/topology_conflict_repository.go:78-91 | Under every interleaving a guarded update that goes through replaces the very row the call had loaded: for proposals and observations because a version names one row, for conflicts because no state is entered twice |
| `ProposalLifecycle.ProposalPhases` | backend/internal/service/boundary_proposal_service.go:78-141 | Under every interleaving (version - version at creation) mod 5 is the phase of the state; ReviewedBy is set exactly from the third move on and is never the author |
| `ProposalLifecycle.StepMoves` | backend/internal/service/boundary_proposal_service.go:89-105 | A step changes a proposal only by one legal move of one version, writing the reviewer exactly on review moves |
| `ProposalLifecycle.MoveExact` | backend/internal/service/boundary_proposal_service.go:85-105 | A committed move was legal and authorised for the row at commit, changed only that row, and its audit entry shows that row |
| `ProposalLifecycle.FinalForever` | backend/internal/constants/proposal_state.go:16-23 | An accepted or rejected proposal never changes again |
| `ProposalLifecycle.ResponseExactlyWhen` | backend/internal/service/boundary_proposal_service.go:93-114 | The returned row is the stored one if and only if the request left the rationale as it was |
| `ObservationLifecycle.ObservationLinks` | backend/internal/service/survey_observation_service.go:82-98 | Under every interleaving only superseded observations have a replacement, another one on the same parcel; a superseded one without replacement was imported that way |
| `ObservationLifecycle.ObservationResponseExact` | backend/internal/service/survey_observation_service.go:111-117 | The row a transition returns is the stored row |
| `ObservationLifecycle.NoCycle` | backend/internal/service/survey_observation_service.go:82-98 | In a ranked graph no walk along replacements returns to its start |
| `ObservationLifecycle.FollowEnds` | backend/internal/service/survey_observation_service.go:82-98 | Following replacements terminates on the same parcel, at an active observation unless the start was imported as superseded |
| `ObservationLifecycle.SupersedeAcyclicExactly` | backend/internal/service/survey_observation_service.go:86-107 | A committed supersession keeps the graph acyclic if and only if the chain from the replacement does not end at the superseded observation |
| `ObservationLifecycle.FreshRunsAcyclic` | backend/internal/service/survey_observation_service.go:86-107 | Any run in which replacements are still active at commit is acyclic, ranked by order of supersession |
| `SerialRuns.SerialIsFresh` | backend/internal/service/survey_observation_service.go:64-118 | Calls served one at a time are such a run |
| `SerialRuns.SerialAcyclic` | backend/internal/service/survey_observation_service.go:64-118 | Every serial run is acyclic, and following replacements from any observation ends on its parcel at an active one, unless it was imported as superseded |
| `SerialRuns.OverlapMakesCycle` | backend/internal/service/survey_observation_service.go:86-107 | From any state, for any two accepted observations of one parcel, two overlapping calls that supersede each by the other both commit and leave a two-cycle |
| `SerialRuns.CyclicRun` | backend/internal/service/survey_observation_service.go:86-107 | A concrete run from the empty store that ends in such a cycle |
| `ConflictLifecycle.ConflictInvariants` | backend/internal/service/topology_conflict_service.go:157-250 | Under every interleaving ResolvedBy is set exactly on resolved and closed conflicts, and applied suggestions agree with both kinds of audit entry |
| `ConflictLifecycle.AtMostFourMoves` | backend/internal/constants/conflict_type.go:22-29 | No conflict makes more than four transitions |
| `ConflictLifecycle.AppliedOnce` | backend/internal/service/topology_conflict_service.go:186-250 | At most one proposal is derived from a conflict, which is then resolved or closed; there are as many derived proposals as apply entries of each kind |
| `ConflictLifecycle.ApplyTouchesOnly` | backend/internal/service/topology_conflict_service.go:228-245 | Applying adds one draft and resolves the conflict; the source proposal, the parcel and every other row stay as they are |
| `ConflictLifecycle.ConflictResponseExact` | backend/internal/service/topology_conflict_service.go:181-183 | The row a transition returns is the stored row, although the response clears a resolver that the update would keep |
| `ConflictLifecycle.LostRace` | backend/internal/service/topology_conflict_service.go:172-180 | Of two calls that have read the same state of a conflict at most one commits |
| `DetectionIdempotency.DetectionInvariant` | backend/internal/service/topology_conflict_service.go:105-134 | Under every interleaving there is one run for each actor and key, every conflict is listed by the runs once and in creation order, and every answer is decided by the run of its key stored by then: success with its ids, the conflict error for another hash, and an internal error only without a run |
| `DetectionIdempotency.SameAnswer` | backend/internal/service/topology_conflict_service.go:36-41 | All successful responses for an actor and key carry the same request hash and the same conflict ids in the same order |
| `DetectionIdempotency.AnsweredForGood` | backend/internal/service/topology_conflict_service.go:36-41 | After a success for an actor and key, every later answer in the run is a success with the same ids for the same hash, and the conflict error for any other |
| `DetectionIdempotency.AnswerFollowsRun` | backend/internal/service/topology_conflict_service.go:128-134 | In every run, an answer that a step gives while a run of its key is stored is decided by that run |
| `DetectionIdempotency.AnsweredExactlyWhen` | backend/internal/service/topology_conflict_service.go:252-265 | Once a run exists, a request is answered from it if and only if its hash matches; any other hash is a conflict error |
| `DetectionIdempotency.ListedExactlyOnce` | backend/internal/service/topology_conflict_service.go:105-134 | Every stored conflict is listed by exactly one run at exactly one position: a rolled-back transaction leaves no orphan |
| `AuditJournal.AuditRebuilds` | backend/internal/service/support_service.go:206-218 | Under every interleaving, replaying the audit log rebuilds all tables up to the rationale of proposals, creation rationales included, and each entry's before-value is the row at commit |
| `AuditJournal.ParcelBeforeExactly` | backend/internal/service/land_parcel_service.go:84-117 | The before-snapshot of a parcel update is the stored row if and only if the guarding version is the loaded one |
| `Rationales.MovedRowExactly` | backend/internal/service/boundary_proposal_service.go:93-105 | After any committed move the rebuilt row is the stored one with the rationale the move had found; it is the stored row if and only if the request has no rationale or repeats it |
| `Rationales.MoveStaysExactly` | backend/internal/service/boundary_proposal_service.go:93-105 | From an exact log, the log stays exact if and only if the move has no rationale or repeats the one it found |
| `Rationales.OthersStayExactly` | backend/internal/service/boundary_proposal_service.go:41-46 | Every other transaction leaves the log exact if and only if it was |
| `Rationales.KeepingRunsExact` | backend/internal/service/boundary_proposal_service.go:93-105 | A run whose moves all keep the rationale has a log that rebuilds the whole store |
| `Rationales.RationaleLost` | backend/internal/service/boundary_proposal_service.go:93-105 | A concrete run: a proposal validated with a new rationale, which the store has and the rebuilt store has not |
| `Rationales.RationaleUnlogged` | backend/internal/service/boundary_proposal_service.go:93-105 | Two moves that differ in their rationale leave the same audit log, while the stored rows differ exactly when the rationales written do |
| `AreaHistory.ParcelAreas` | backend/internal/service/land_parcel_service.go:104-112 | In every run a parcel's stored area is the area of its stored boundary, and its version counts its boundaries |
| `AreaHistory.ProposalDeltas` | backend/internal/service/boundary_proposal_service.go:24-45 | In every run a proposal's area delta is its area minus that of the parcel's boundary at BaseVersion, which never exceeds the parcel's version; also for derived proposals |
| `AreaHistory.HistoryKept` | backend/internal/repository/land_parcel_repository.go:74-88 | The past boundaries of a parcel are never rewritten |
| `AreaHistory.UpdateStores` | backend/internal/service/land_parcel_service.go:88-121 | A committed update stores the row computed from what had been loaded, one version on, and the reply is that row |
| `AreaHistory.GuessedVersionUndoes` | backend/internal/service/land_parcel_service.go:84-112 | A concrete run in which an update that guesses the next version undoes the update it never saw |

## Left out

- Floating point: coordinates, distances and areas are reals, distances are compared through their squares, and the `DistanceM` of a change is kept as its square; `%.6f` is some function of the tolerance.
- The overlay library, GeoJSON and JSON encoding and SHA-256 are parameters; stored id lists are modelled as lists, so encoding and decoding them are taken to be inverse.
- Bounding boxes and the retained library shape of a parsed polygon.
- `DetectionEvidence.StoredEvidence`: for a GeoJSON library that reads back the rings it has written.
- `Analysis.HashFixesFindings`: for equal tolerances; the hash itself covers a tolerance only as printed.
- In the interleaved runs detection may come to any findings (`Interleaving.Compute`), so those results do not depend on the geometry; `CadastralServices.CadastralService.DetectConflicts` computes them. The stored suggestion is the snapped geometry, without the list of changes beside it.
- `Redaction.ScrubSnapshot`: the decoded tree is a value that the walk rebuilds, so sharing between nested maps, which decoding never produces, is not captured; lower-casing is that of ASCII.
- `Topology.DetectTopology`: sorting the neighbours is a function of the list, so the caller's slice is not seen to be reordered; `sort.Slice` is not stable, which only matters for repeated ids.
- `RateLimiting.RateLimiter.Allow`: it returns the end of the window, from which the source subtracts the wall clock to get its retry hint; the mutex makes each call one step; times are integers with 0 as the zero time, and durations do not saturate.
- `RateLimiting.AdmissionBound`: for a positive window and limit and times that are not negative; `RateLimiting.NoLimitNoAdmission` covers the other limits, and `RateLimiting.LateCallBreaksBound` shows why calls before the last sweep are excluded.
- Row ids are positions in their tables: the gaps that rolled-back inserts leave in a sequence, and ids of deleted rows, do not occur. Rows of these tables are never deleted by the program.
- Database faults: any call may fail before its transaction (`Interleaving.Fault`); in the service methods reads do not fail, and a transaction fails only where the program or an index refuses.
- Reads of one call that come directly after each other and concern data that never changes afterwards are one step: the observations named in a new proposal, and the proposal together with the run lookup in detection. The replacement check, the source proposal and the parcel of an applied suggestion are steps of their own.
- A request's target state is one of the known states or absent; upper-casing is that of ASCII, and the key length is counted in characters of the model's strings.
- Severity, explanations, timestamps, algorithm version columns, and the observation's method, accuracy, checksum and time of observation.
- Error messages: an error is its kind. A geometry error (422) is kept apart from other invalid input (400), which share one code in the source.
- `AuditJournal.AuditRebuilds`: audit snapshots are the rows themselves, before encoding and redaction; rationales are left to `Rationales.MovedRowExactly`, and a parcel update's before-value is an earlier form of the row, for which `AuditJournal.ParcelBeforeExactly` says when it is the row itself.
- HTTP routing and middleware other than the limiter, roles checked by the router, login, tokens, configuration, migrations, the PostGIS triggers, list queries with paging, the coordinate-system allow-list, and the frontend.

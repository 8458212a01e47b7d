// DetectTopology and deduplicateFindings of
// backend/internal/geometry/geometry.go, over any overlay library.

module Topology {
  import opened Options
  import opened Planar
  import opened Shoelace

  datatype Shape = Points(points: seq<Point>) | Lines(lines: seq<seq<Point>>) | Polygons(polygons: seq<seq<Ring>>)

  // The overlay operations, each of which may fail where the library can.
  datatype Overlay = Overlay(
    intersection: (Shape, Shape) -> Option<Shape>,
    distance: (Shape, Shape) -> Option<real>,
    area: Shape -> real,
    length: Shape -> real,
    boundary: Shape -> Shape,
    encode: Shape -> Option<string>)

  datatype Neighbour = Neighbour(id: nat, shape: Shape)

  datatype Finding = Finding(kind: string, geometry: string, magnitude: real, parcelIds: seq<nat>)

  datatype DetectError = OverlayFailed(id: nat) | BoundaryOverlayFailed(id: nat) | EncodeFailed

  const OVERLAP := "overlap"
  const GAP := "gap"
  const DANGLING_EDGE := "dangling_edge"

  function AreaThreshold(tolerance: real): real {
    var scaled := tolerance * tolerance * 0.0001;
    if 0.000001 > scaled then 0.000001 else scaled
  }

  // The inputs that one call of DetectTopology fixes.
  datatype Job = Job(lib: Overlay, base: Shape, candidate: Shape, tolerance: real)

  predicate Overlapping(job: Job, overlap: Shape) {
    job.lib.area(overlap) > AreaThreshold(job.tolerance)
  }

  // Touching before, and no longer touching.
  predicate Gapped(job: Job, n: Neighbour) {
    var before, after := job.lib.distance(job.base, n.shape), job.lib.distance(job.candidate, n.shape);
    before.Some? && after.Some? && before.value <= job.tolerance && after.value > job.tolerance
  }

  predicate Dangling(job: Job, n: Neighbour, shared: Shape) {
    var after := job.lib.distance(job.candidate, n.shape);
    after.Some? && after.value <= job.tolerance && job.lib.length(shared) <= job.tolerance
  }

  function Report(job: Job, due: bool, kind: string, shape: Shape, magnitude: real, id: nat)
    : Result<seq<Finding>, DetectError>
  {
    if !due then Success([])
    else
      match job.lib.encode(shape)
      case None => Failure(EncodeFailed)
      case Some(geometry) => Success([Finding(kind, geometry, magnitude, [id])])
  }

  // The magnitudes and evidence of one neighbour, in the order they are added.
  function Examine(job: Job, n: Neighbour): Result<seq<Finding>, DetectError> {
    match job.lib.intersection(job.candidate, n.shape)
    case None => Failure(OverlayFailed(n.id))
    case Some(overlap) =>
      match Report(job, Overlapping(job, overlap), OVERLAP, overlap, job.lib.area(overlap), n.id)
      case Failure(e) => Failure(e)
      case Success(first) =>
        var after := job.lib.distance(job.candidate, n.shape);
        var width := if after.Some? then after.value else 0.0;
        match Report(job, Gapped(job, n), GAP, job.lib.boundary(job.candidate), width, n.id)
        case Failure(e) => Failure(e)
        case Success(second) =>
          match job.lib.intersection(job.lib.boundary(job.candidate), job.lib.boundary(n.shape))
          case None => Failure(BoundaryOverlayFailed(n.id))
          case Some(shared) =>
            var missing := job.tolerance - job.lib.length(shared);
            var magnitude := if missing > 0.0 then missing else 0.0;
            match Report(job, Dangling(job, n, shared), DANGLING_EDGE, shared, magnitude, n.id)
            case Failure(e) => Failure(e)
            case Success(third) => Success(first + second + third)
  }

  // The findings of the neighbours in order, or the first error.
  function ExamineAll(job: Job, ns: seq<Neighbour>): Result<seq<Finding>, DetectError> {
    if ns == [] then Success([])
    else
      match ExamineAll(job, ns[..|ns| - 1])
      case Failure(e) => Failure(e)
      case Success(earlier) =>
        match Examine(job, ns[|ns| - 1])
        case Failure(e) => Failure(e)
        case Success(found) => Success(earlier + found)
  }

  // -------------------------------------------------------------- sorting by id

  ghost predicate Ascending(ns: seq<Neighbour>) {
    forall i, j :: 0 <= i < j < |ns| ==> ns[i].id <= ns[j].id
  }

  ghost predicate DistinctIds(ns: seq<Neighbour>) {
    forall i, j :: 0 <= i < j < |ns| ==> ns[i].id != ns[j].id
  }

  function InsertById(n: Neighbour, ns: seq<Neighbour>): (r: seq<Neighbour>)
    ensures forall m :: m in r <==> m == n || m in ns
  {
    if ns == [] then [n]
    else if n.id <= ns[0].id then [n] + ns
    else [ns[0]] + InsertById(n, ns[1..])
  }

  // sort.Slice by id.
  function SortById(ns: seq<Neighbour>): (r: seq<Neighbour>)
    ensures forall m :: m in r <==> m in ns
  {
    if ns == [] then [] else InsertById(ns[0], SortById(ns[1..]))
  }

  lemma {:induction false} InsertAscending(n: Neighbour, ns: seq<Neighbour>)
    requires Ascending(ns)
    ensures Ascending(InsertById(n, ns))
  {
    if ns != [] && n.id > ns[0].id {
      InsertAscending(n, ns[1..]);
      var rest := InsertById(n, ns[1..]);
      forall k | 0 <= k < |rest| ensures ns[0].id <= rest[k].id {
        assert rest[k] in rest;
      }
    }
  }

  lemma {:induction false} InsertPermutes(n: Neighbour, ns: seq<Neighbour>)
    ensures multiset(InsertById(n, ns)) == multiset(ns) + multiset{n}
  {
    if ns != [] && n.id > ns[0].id {
      InsertPermutes(n, ns[1..]);
      assert ns == [ns[0]] + ns[1..];
    }
  }

  lemma {:induction false} SortFacts(ns: seq<Neighbour>)
    ensures Ascending(SortById(ns)) && multiset(SortById(ns)) == multiset(ns)
  {
    hide InsertById;
    if ns != [] {
      SortFacts(ns[1..]);
      InsertAscending(ns[0], SortById(ns[1..]));
      InsertPermutes(ns[0], SortById(ns[1..]));
      assert ns == [ns[0]] + ns[1..];
    }
  }

  lemma SameHead(a: seq<Neighbour>, b: seq<Neighbour>)
    requires a != [] && b != [] && Ascending(a) && DistinctIds(a) && Ascending(b)
    requires forall m :: m in a <==> m in b
    ensures a[0] == b[0]
  {
    assert a[0] in b && b[0] in a;
    var i :| 0 <= i < |a| && a[i] == b[0];
    var j :| 0 <= j < |b| && b[j] == a[0];
  }

  lemma TailMultiset(a: seq<Neighbour>)
    requires a != []
    ensures multiset(a[1..]) == multiset(a) - multiset{a[0]}
  {
    assert a == [a[0]] + a[1..];
  }

  lemma {:induction false} SortedUnique(a: seq<Neighbour>, b: seq<Neighbour>)
    requires Ascending(a) && DistinctIds(a) && Ascending(b) && multiset(a) == multiset(b)
    ensures a == b
  {
    assert |a| == |multiset(a)| == |multiset(b)| == |b|;
    if a != [] {
      SameMembers(a, b);
      SameHead(a, b);
      TailMultiset(a);
      TailMultiset(b);
      SortedUnique(a[1..], b[1..]);
      assert a == [a[0]] + a[1..] && b == [b[0]] + b[1..];
    }
  }

  lemma SameMembers<T>(a: seq<T>, b: seq<T>)
    requires multiset(a) == multiset(b)
    ensures forall x :: x in a <==> x in b
  {
    forall x ensures x in a <==> x in b {
      assert x in a <==> x in multiset(a);
      assert x in b <==> x in multiset(b);
    }
  }

  lemma {:induction false} DistinctPermutation(a: seq<Neighbour>, b: seq<Neighbour>)
    requires DistinctIds(a) && multiset(a) == multiset(b)
    ensures DistinctIds(b)
  {
    forall i, j | 0 <= i < j < |b| ensures b[i].id != b[j].id {
      if b[i].id == b[j].id {
        SplitTwo(b, i, j);
        var p :| 0 <= p < |a| && a[p] == b[i] by { assert b[i] in multiset(a); }
        var q :| 0 <= q < |a| && a[q] == b[j] by { assert b[j] in multiset(a); }
        assert p == q;
        OneOccurrence(a, p);
      }
    }
  }

  lemma SplitTwo<T>(s: seq<T>, i: nat, j: nat)
    requires i < j < |s|
    ensures s[i] == s[j] ==> multiset(s)[s[i]] >= 2
  {
    assert s == s[..i] + [s[i]] + s[i + 1..j] + [s[j]] + s[j + 1..];
  }

  lemma OneOccurrence(a: seq<Neighbour>, p: nat)
    requires DistinctIds(a) && p < |a|
    ensures multiset(a)[a[p]] == 1
  {
    assert a == a[..p] + [a[p]] + a[p + 1..];
    assert a[p] !in a[..p] && a[p] !in a[p + 1..];
  }

  // -------------------------------------------------------------- deduplication

  function Key(f: Finding): string {
    f.kind + "|" + f.geometry
  }

  // The separator makes the key as good as the pair, for kinds without it.
  lemma KeyInjective(f: Finding, g: Finding)
    requires '|' !in f.kind && '|' !in g.kind
    ensures Key(f) == Key(g) <==> f.kind == g.kind && f.geometry == g.geometry
  {
    assert Key(f)[|f.kind|] == '|' && Key(g)[|g.kind|] == '|';
    if |f.kind| < |g.kind| {
      assert Key(g)[|f.kind|] == g.kind[|f.kind|];
    } else if |g.kind| < |f.kind| {
      assert Key(f)[|g.kind|] == f.kind[|g.kind|];
    } else {
      assert f.kind == Key(f)[..|f.kind|] && g.kind == Key(g)[..|g.kind|];
      assert f.geometry == Key(f)[|f.kind| + 1..] && g.geometry == Key(g)[|g.kind| + 1..];
    }
  }

  predicate FirstOf(input: seq<Finding>, i: nat)
    requires i < |input|
  {
    forall j :: 0 <= j < i ==> Key(input[j]) != Key(input[i])
  }

  // The positions of the first finding of each key, in order.
  function FirstIndices(input: seq<Finding>): (r: seq<nat>)
    ensures forall i :: i in r <==> 0 <= i < |input| && FirstOf(input, i)
    ensures forall k, l :: 0 <= k < l < |r| ==> r[k] < r[l]
  {
    if input == [] then []
    else
      var n := |input| - 1;
      var front := FirstIndices(input[..n]);
      assert forall i :: 0 <= i < n ==> (FirstOf(input, i) <==> FirstOf(input[..n], i));
      assert forall k :: 0 <= k < |front| ==> front[k] in front;
      if FirstOf(input, n) then front + [n] else front
  }

  function Pick(input: seq<Finding>, indices: seq<nat>): seq<Finding>
    requires forall k :: 0 <= k < |indices| ==> indices[k] < |input|
  {
    seq(|indices|, k requires 0 <= k < |indices| => input[indices[k]])
  }

  function Deduplicated(input: seq<Finding>): seq<Finding> {
    var indices := FirstIndices(input);
    assert forall k :: 0 <= k < |indices| ==> indices[k] in indices;
    Pick(input, indices)
  }

  lemma DeduplicatedStep(input: seq<Finding>, n: nat)
    requires n < |input|
    ensures Deduplicated(input[..n + 1]) ==
            Deduplicated(input[..n]) + (if FirstOf(input, n) then [input[n]] else [])
  {
    hide Key;
    assert input[..n + 1][..n] == input[..n];
    assert FirstOf(input[..n + 1], n) <==> FirstOf(input, n);
    var indices := FirstIndices(input[..n]);
    assert forall k :: 0 <= k < |indices| ==> indices[k] in indices;
  }

  method DeduplicateFindings(input: seq<Finding>) returns (output: seq<Finding>)
    ensures output == Deduplicated(input)
  {
    hide Key;
    var seen: map<string, bool> := map[];
    output := [];
    for n := 0 to |input|
      invariant output == Deduplicated(input[..n])
      invariant forall key :: key in seen <==> exists j :: 0 <= j < n && Key(input[j]) == key
    {
      var key := Key(input[n]);
      DeduplicatedStep(input, n);
      assert FirstOf(input, n) <==> key !in seen;
      if key !in seen {
        seen := seen[key := true];
        output := output + [input[n]];
      }
    }
    assert input[..|input|] == input;
  }

  // Nothing is lost or repeated: every finding has exactly one survivor of its
  // key, the first.
  lemma DeduplicatedExact(input: seq<Finding>)
    ensures forall k, l :: 0 <= k < l < |Deduplicated(input)| ==>
      Key(Deduplicated(input)[k]) != Key(Deduplicated(input)[l])
    ensures forall i :: 0 <= i < |input| && FirstOf(input, i) ==> input[i] in Deduplicated(input)
    ensures forall f :: f in Deduplicated(input) ==> exists i :: 0 <= i < |input| && FirstOf(input, i) && input[i] == f
  {
    hide Key;
    var indices, output := FirstIndices(input), Deduplicated(input);
    forall k, l | 0 <= k < l < |output| ensures Key(output[k]) != Key(output[l]) {
      assert indices[l] in indices;
    }
    forall i | 0 <= i < |input| && FirstOf(input, i) ensures input[i] in output {
      assert i in indices;
      var k :| 0 <= k < |indices| && indices[k] == i;
      assert output[k] == input[i];
    }
    forall f | f in output ensures exists i :: 0 <= i < |input| && FirstOf(input, i) && input[i] == f {
      var k :| 0 <= k < |output| && output[k] == f;
      assert indices[k] in indices && input[indices[k]] == f;
    }
  }

  lemma {:induction false} AllFirst(input: seq<Finding>)
    requires forall k, l :: 0 <= k < l < |input| ==> Key(input[k]) != Key(input[l])
    ensures |FirstIndices(input)| == |input| && forall i :: 0 <= i < |input| ==> FirstIndices(input)[i] == i
  {
    hide Key;
    if input != [] {
      AllFirst(input[..|input| - 1]);
      assert FirstOf(input, |input| - 1);
    }
  }

  lemma DeduplicateIdempotent(input: seq<Finding>)
    ensures Deduplicated(Deduplicated(input)) == Deduplicated(input)
  {
    hide Key, FirstIndices;
    DeduplicatedExact(input);
    AllFirst(Deduplicated(input));
  }

  // ------------------------------------------------------------------ detection

  function Detected(job: Job, ns: seq<Neighbour>): Result<seq<Finding>, DetectError> {
    match ExamineAll(job, SortById(ns))
    case Failure(e) => Failure(e)
    case Success(found) => Success(Deduplicated(found))
  }

  method DetectTopology(job: Job, neighbours: seq<Neighbour>) returns (r: Result<seq<Finding>, DetectError>)
    ensures r == Detected(job, neighbours)
  {
    hide Examine;
    var findings: seq<Finding> := [];
    var sorted := SortById(neighbours);
    for i := 0 to |sorted|
      invariant ExamineAll(job, sorted[..i]) == Success(findings)
    {
      assert sorted[..i + 1][..i] == sorted[..i];
      var examined := ExamineNeighbour(job, sorted[i]);
      match examined {
        case Failure(e) =>
          FirstError(job, sorted, i + 1);
          return Failure(e);
        case Success(found) =>
          findings := findings + found;
      }
    }
    assert sorted[..|sorted|] == sorted;
    var output := DeduplicateFindings(findings);
    return Success(output);
  }

  // The body of the loop over neighbours.
  method ExamineNeighbour(job: Job, n: Neighbour) returns (r: Result<seq<Finding>, DetectError>)
    ensures r == Examine(job, n)
  {
    hide AreaThreshold;
    var findings: seq<Finding> := [];
    var overlap := job.lib.intersection(job.candidate, n.shape);
    if overlap.None? {
      return Failure(OverlayFailed(n.id));
    }
    var area := job.lib.area(overlap.value);
    if area > AreaThreshold(job.tolerance) {
      var evidence := job.lib.encode(overlap.value);
      if evidence.None? {
        return Failure(EncodeFailed);
      }
      findings := findings + [Finding(OVERLAP, evidence.value, area, [n.id])];
      assert findings == [Finding(OVERLAP, evidence.value, area, [n.id])];
    }
    ghost var first := findings;
    assert Report(job, Overlapping(job, overlap.value), OVERLAP, overlap.value, area, n.id) == Success(first);
    var baseDistance := job.lib.distance(job.base, n.shape);
    var candidateDistance := job.lib.distance(job.candidate, n.shape);
    if baseDistance.Some? && candidateDistance.Some? && baseDistance.value <= job.tolerance
       && candidateDistance.value > job.tolerance {
      var evidence := job.lib.encode(job.lib.boundary(job.candidate));
      if evidence.None? {
        return Failure(EncodeFailed);
      }
      findings := findings + [Finding(GAP, evidence.value, candidateDistance.value, [n.id])];
    }
    ghost var width := if candidateDistance.Some? then candidateDistance.value else 0.0;
    ghost var second := Report(job, Gapped(job, n), GAP, job.lib.boundary(job.candidate), width, n.id);
    assert second.Success? && findings == first + second.value;
    var shared := job.lib.intersection(job.lib.boundary(job.candidate), job.lib.boundary(n.shape));
    if shared.None? {
      return Failure(BoundaryOverlayFailed(n.id));
    }
    var sharedLength := job.lib.length(shared.value);
    if candidateDistance.Some? && candidateDistance.value <= job.tolerance && sharedLength <= job.tolerance {
      var evidence := job.lib.encode(shared.value);
      if evidence.None? {
        return Failure(EncodeFailed);
      }
      var missing := job.tolerance - sharedLength;
      findings := findings + [Finding(DANGLING_EDGE, evidence.value, if missing > 0.0 then missing else 0.0, [n.id])];
    }
    ghost var third := Report(job, Dangling(job, n, shared.value), DANGLING_EDGE, shared.value,
                              if job.tolerance - sharedLength > 0.0 then job.tolerance - sharedLength else 0.0, n.id);
    assert third.Success? && findings == first + second.value + third.value;
    return Success(findings);
  }

  // ------------------------------------------------- what one neighbour contributes

  predicate OverlapReport(job: Job, n: Neighbour, f: Finding) {
    match job.lib.intersection(job.candidate, n.shape)
    case None => false
    case Some(overlap) =>
      && job.lib.area(overlap) > 0.000001
      && job.lib.area(overlap) > job.tolerance * job.tolerance * 0.0001
      && f.kind == OVERLAP && f.magnitude == job.lib.area(overlap) && Some(f.geometry) == job.lib.encode(overlap)
  }

  predicate GapReport(job: Job, n: Neighbour, f: Finding) {
    match (job.lib.distance(job.base, n.shape), job.lib.distance(job.candidate, n.shape))
    case (Some(before), Some(after)) =>
      && before <= job.tolerance < after
      && f.kind == GAP && f.magnitude == after && Some(f.geometry) == job.lib.encode(job.lib.boundary(job.candidate))
    case _ => false
  }

  predicate DanglingReport(job: Job, n: Neighbour, f: Finding) {
    match (job.lib.distance(job.candidate, n.shape),
           job.lib.intersection(job.lib.boundary(job.candidate), job.lib.boundary(n.shape)))
    case (Some(after), Some(shared)) =>
      && after <= job.tolerance && job.lib.length(shared) <= job.tolerance
      && f.kind == DANGLING_EDGE && f.magnitude == job.tolerance - job.lib.length(shared)
      && Some(f.geometry) == job.lib.encode(shared)
    case _ => false
  }

  // A neighbour's findings are the three reports that are due, each at most once,
  // and all name that neighbour; so a dangling edge always has a magnitude that
  // is not negative.
  lemma ExamineExactly(job: Job, n: Neighbour, f: Finding)
    requires Examine(job, n).Success?
    ensures f in Examine(job, n).value <==>
            f.parcelIds == [n.id] && (OverlapReport(job, n, f) || GapReport(job, n, f) || DanglingReport(job, n, f))
    ensures forall a, b :: 0 <= a < b < |Examine(job, n).value| ==>
              Examine(job, n).value[a].kind != Examine(job, n).value[b].kind
    ensures DanglingReport(job, n, f) ==> f.magnitude >= 0.0 && !Gapped(job, n)
  {
    assert OVERLAP[0] == 'o' && GAP[0] == 'g' && DANGLING_EDGE[0] == 'd';
    var overlap := job.lib.intersection(job.candidate, n.shape).value;
    var shared := job.lib.intersection(job.lib.boundary(job.candidate), job.lib.boundary(n.shape)).value;
    var after := job.lib.distance(job.candidate, n.shape);
    var width := if after.Some? then after.value else 0.0;
    var missing := job.tolerance - job.lib.length(shared);
    var magnitude := if missing > 0.0 then missing else 0.0;
    var first := Report(job, Overlapping(job, overlap), OVERLAP, overlap, job.lib.area(overlap), n.id).value;
    var second := Report(job, Gapped(job, n), GAP, job.lib.boundary(job.candidate), width, n.id).value;
    var third := Report(job, Dangling(job, n, shared), DANGLING_EDGE, shared, magnitude, n.id).value;
    assert Examine(job, n).value == first + second + third;
    assert f in first <==> f.parcelIds == [n.id] && OverlapReport(job, n, f);
    assert f in second <==> f.parcelIds == [n.id] && GapReport(job, n, f);
    assert f in third <==> f.parcelIds == [n.id] && DanglingReport(job, n, f);
  }

  lemma {:induction false} FirstError(job: Job, ns: seq<Neighbour>, k: nat)
    requires k <= |ns| && ExamineAll(job, ns[..k]).Failure?
    ensures ExamineAll(job, ns) == ExamineAll(job, ns[..k])
  {
    hide Examine;
    if k < |ns| {
      var front := ns[..|ns| - 1];
      assert front[..k] == ns[..k];
      FirstError(job, front, k);
    } else {
      assert ns[..k] == ns;
    }
  }

  // The findings do not depend on the order in which neighbours are supplied.
  lemma OrderIndependent(job: Job, ns: seq<Neighbour>, ms: seq<Neighbour>)
    requires DistinctIds(ns) && multiset(ns) == multiset(ms)
    ensures Detected(job, ns) == Detected(job, ms)
  {
    hide ExamineAll, Deduplicated;
    SortFacts(ns);
    SortFacts(ms);
    DistinctPermutation(ns, SortById(ns));
    SortedUnique(SortById(ns), SortById(ms));
  }

  // ----------------------------------------------------------------------- gaps

  ghost predicate GapOf(job: Job, f: Finding, n: Neighbour) {
    f.kind == GAP && f.parcelIds == [n.id] && Some(f.geometry) == job.lib.encode(job.lib.boundary(job.candidate))
  }

  // What one neighbour contributes: a gap finding exactly when it is gapped, and
  // then no dangling edge.
  lemma ExamineGaps(job: Job, n: Neighbour)
    requires Examine(job, n).Success?
    ensures forall f :: f in Examine(job, n).value ==> f.parcelIds == [n.id] && f.kind in {OVERLAP, GAP, DANGLING_EDGE}
    ensures forall f :: f in Examine(job, n).value && f.kind == GAP ==> GapOf(job, f, n)
    ensures (exists f :: f in Examine(job, n).value && f.kind == GAP) <==> Gapped(job, n)
    ensures forall f, g :: f in Examine(job, n).value && g in Examine(job, n).value && f.kind == GAP ==>
              g.kind != DANGLING_EDGE
  {
    var found := Examine(job, n).value;
    assert OVERLAP[0] == 'o' && GAP[0] == 'g' && DANGLING_EDGE[0] == 'd';
    if Gapped(job, n) {
      var after := job.lib.distance(job.candidate, n.shape).value;
      var f := Finding(GAP, job.lib.encode(job.lib.boundary(job.candidate)).value, after, [n.id]);
      assert f in found;
    }
  }

  // Every finding comes from one of the neighbours, and a gapped one is found.
  lemma {:induction false} AllGaps(job: Job, ns: seq<Neighbour>, i: nat)
    requires ExamineAll(job, ns).Success? && i < |ExamineAll(job, ns).value|
    ensures ExamineAll(job, ns).value[i].kind in {OVERLAP, GAP, DANGLING_EDGE}
    ensures ExamineAll(job, ns).value[i].kind == GAP ==>
              exists k :: 0 <= k < |ns| && Gapped(job, ns[k]) && GapOf(job, ExamineAll(job, ns).value[i], ns[k])
                     && forall m :: 0 <= m < k && Gapped(job, ns[m]) ==>
                          exists j :: 0 <= j < i && GapOf(job, ExamineAll(job, ns).value[j], ns[m])
  {
    hide Examine, Gapped;
    var n := |ns| - 1;
    var front := ns[..n];
    var earlier := ExamineAll(job, front).value;
    var all := ExamineAll(job, ns).value;
    assert all == earlier + Examine(job, ns[n]).value;
    if i < |earlier| {
      AllGaps(job, front, i);
      assert all[i] == earlier[i];
      if all[i].kind == GAP {
        var k :| 0 <= k < |front| && Gapped(job, front[k]) && GapOf(job, earlier[i], front[k])
                 && forall m :: 0 <= m < k && Gapped(job, front[m]) ==>
                      exists j :: 0 <= j < i && GapOf(job, earlier[j], front[m]);
        assert ns[k] == front[k];
        forall m | 0 <= m < k && Gapped(job, ns[m]) ensures exists j :: 0 <= j < i && GapOf(job, all[j], ns[m]) {
          assert front[m] == ns[m];
          var j :| 0 <= j < i && GapOf(job, earlier[j], front[m]);
          assert all[j] == earlier[j];
        }
      }
    } else {
      ExamineGaps(job, ns[n]);
      assert all[i] in Examine(job, ns[n]).value;
      if all[i].kind == GAP {
        forall m | 0 <= m < n && Gapped(job, ns[m]) ensures exists j :: 0 <= j < i && GapOf(job, all[j], ns[m]) {
          var j := GapFound(job, front, m);
          assert all[j] == earlier[j];
        }
      }
    }
  }

  lemma {:induction false} GapFound(job: Job, ns: seq<Neighbour>, m: nat) returns (j: nat)
    requires ExamineAll(job, ns).Success? && m < |ns| && Gapped(job, ns[m])
    ensures j < |ExamineAll(job, ns).value| && GapOf(job, ExamineAll(job, ns).value[j], ns[m])
  {
    hide Examine, Gapped;
    var n := |ns| - 1;
    var earlier, found := ExamineAll(job, ns[..n]).value, Examine(job, ns[n]).value;
    assert ExamineAll(job, ns).value == earlier + found;
    if m < n {
      j := GapFound(job, ns[..n], m);
    } else {
      ExamineGaps(job, ns[n]);
      var f :| f in found && f.kind == GAP;
      var k :| 0 <= k < |found| && found[k] == f;
      j := |earlier| + k;
    }
  }

  lemma {:induction false} Origin(job: Job, ns: seq<Neighbour>, f: Finding) returns (n: Neighbour)
    requires ExamineAll(job, ns).Success? && f in ExamineAll(job, ns).value
    ensures n in ns && Examine(job, n).Success? && f in Examine(job, n).value
  {
    hide Examine;
    var last := |ns| - 1;
    if f in Examine(job, ns[last]).value {
      n := ns[last];
    } else {
      n := Origin(job, ns[..last], f);
    }
  }

  // --------------------------------------------------------- which findings survive

  function Offset(job: Job, ns: seq<Neighbour>, k: nat): nat
    requires k <= |ns| && ExamineAll(job, ns[..k]).Success?
  {
    |ExamineAll(job, ns[..k]).value|
  }

  // The findings of ns[k] are those from position Offset(k) on.
  lemma {:induction false} FoundAt(job: Job, ns: seq<Neighbour>, k: nat, o: nat)
    requires ExamineAll(job, ns).Success? && k < |ns|
    ensures Examine(job, ns[k]).Success? && ExamineAll(job, ns[..k]).Success? && ExamineAll(job, ns[..k + 1]).Success?
    ensures Offset(job, ns, k + 1) == Offset(job, ns, k) + |Examine(job, ns[k]).value| <= |ExamineAll(job, ns).value|
    ensures o < |Examine(job, ns[k]).value| ==>
              ExamineAll(job, ns).value[Offset(job, ns, k) + o] == Examine(job, ns[k]).value[o]
  {
    hide Examine;
    var n := |ns| - 1;
    var front := ns[..n];
    if k < n {
      assert front[..k] == ns[..k] && front[..k + 1] == ns[..k + 1] && front[k] == ns[k];
      FoundAt(job, front, k, o);
    } else {
      assert ns[..k] == front && ns[..k + 1] == ns;
    }
  }

  lemma {:induction false} LocatedAt(job: Job, ns: seq<Neighbour>, i: nat) returns (k: nat, o: nat)
    requires ExamineAll(job, ns).Success? && i < |ExamineAll(job, ns).value|
    ensures k < |ns| && ExamineAll(job, ns[..k]).Success? && Examine(job, ns[k]).Success?
    ensures o < |Examine(job, ns[k]).value| && i == Offset(job, ns, k) + o
    ensures ExamineAll(job, ns).value[i] == Examine(job, ns[k]).value[o]
  {
    hide Examine;
    var n := |ns| - 1;
    var front := ns[..n];
    var earlier := ExamineAll(job, front).value;
    if i < |earlier| {
      k, o := LocatedAt(job, front, i);
      assert front[..k] == ns[..k] && front[k] == ns[k];
    } else {
      k, o := n, i - |earlier|;
    }
  }

  lemma {:induction false} OffsetsGrow(job: Job, ns: seq<Neighbour>, l: nat, k: nat)
    requires ExamineAll(job, ns).Success? && l < k <= |ns|
    ensures ExamineAll(job, ns[..k]).Success? && ExamineAll(job, ns[..l + 1]).Success?
    ensures Offset(job, ns, l + 1) <= Offset(job, ns, k)
    decreases k
  {
    hide ExamineAll, Examine;
    FoundAt(job, ns, l, 0);
    FoundAt(job, ns, k - 1, 0);
    if l + 1 < k {
      OffsetsGrow(job, ns, l, k - 1);
    }
  }

  ghost predicate SameReport(f: Finding, g: Finding) {
    f.kind == g.kind && f.geometry == g.geometry
  }

  // A neighbour with a lower id reports the same kind and geometry.
  ghost predicate Preceded(job: Job, ns: seq<Neighbour>, n: Neighbour, f: Finding) {
    exists m, g :: m in ns && m.id < n.id && Examine(job, m).Success? && g in Examine(job, m).value && SameReport(f, g)
  }

  lemma SameKey(job: Job, n: Neighbour, f: Finding, m: Neighbour, g: Finding)
    requires Examine(job, n).Success? && f in Examine(job, n).value
    requires Examine(job, m).Success? && g in Examine(job, m).value
    ensures Key(f) == Key(g) <==> SameReport(f, g)
    ensures f.parcelIds == [n.id]
  {
    hide Examine, Key;
    ExamineExactly(job, n, f);
    ExamineExactly(job, m, g);
    KindsHaveNoBar();
    KeyInjective(f, g);
  }

  lemma SurvivorUnpreceded(job: Job, ns: seq<Neighbour>, n: Neighbour, f: Finding)
    requires DistinctIds(ns) && Ascending(ns) && ExamineAll(job, ns).Success? && n in ns
    requires Examine(job, n).Success? && f in Examine(job, n).value && f in Deduplicated(ExamineAll(job, ns).value)
    ensures !Preceded(job, ns, n, f)
  {
    hide Examine, ExamineAll, Deduplicated, Key, SameReport;
    var all := ExamineAll(job, ns).value;
    DeduplicatedExact(all);
    var i :| 0 <= i < |all| && FirstOf(all, i) && all[i] == f;
    var k, o := LocatedAt(job, ns, i);
    SameKey(job, n, f, n, f);
    SameKey(job, ns[k], f, ns[k], f);
    assert ns[k] == n;
    forall m, g | m in ns && m.id < n.id && Examine(job, m).Success? && g in Examine(job, m).value
      ensures !SameReport(f, g)
    {
      var l :| 0 <= l < |ns| && ns[l] == m;
      var p :| 0 <= p < |Examine(job, m).value| && Examine(job, m).value[p] == g;
      FoundAt(job, ns, l, p);
      OffsetsGrow(job, ns, l, k);
      SameKey(job, n, f, m, g);
    }
  }

  lemma UnprecededSurvives(job: Job, ns: seq<Neighbour>, n: Neighbour, f: Finding)
    requires DistinctIds(ns) && Ascending(ns) && ExamineAll(job, ns).Success? && n in ns
    requires Examine(job, n).Success? && f in Examine(job, n).value && !Preceded(job, ns, n, f)
    ensures f in Deduplicated(ExamineAll(job, ns).value)
  {
    hide Examine, ExamineAll, Deduplicated, Key, SameReport;
    var all := ExamineAll(job, ns).value;
    DeduplicatedExact(all);
    var k :| 0 <= k < |ns| && ns[k] == n;
    var o :| 0 <= o < |Examine(job, n).value| && Examine(job, n).value[o] == f;
    FoundAt(job, ns, k, o);
    var i := Offset(job, ns, k) + o;
    forall j | 0 <= j < i ensures Key(all[j]) != Key(all[i]) {
      var l, p := LocatedAt(job, ns, j);
      SameKey(job, n, f, ns[l], all[j]);
      if l < k {
        assert ns[l] in ns && ns[l].id < n.id;
      } else if l == k {
        ExamineExactly(job, n, f);
        KindsDiffer(f, all[j]);
      } else {
        OffsetsGrow(job, ns, k, l);
        assert false;
      }
    }
    assert FirstOf(all, i);
  }

  lemma KindsDiffer(f: Finding, g: Finding)
    requires f.kind != g.kind
    ensures !SameReport(f, g)
  {
  }

  // A neighbour's finding is in the result if and only if no neighbour with a
  // lower id reports the same kind with the same geometry.
  lemma SurvivesExactly(job: Job, ns: seq<Neighbour>, n: Neighbour, f: Finding)
    requires DistinctIds(ns) && Detected(job, ns).Success? && n in ns
    requires Examine(job, n).Success? && f in Examine(job, n).value
    ensures f in Detected(job, ns).value <==> !Preceded(job, ns, n, f)
  {
    hide Examine, ExamineAll, Deduplicated, SameReport;
    var sorted := SortById(ns);
    SortFacts(ns);
    DistinctPermutation(ns, sorted);
    if f in Detected(job, ns).value {
      SurvivorUnpreceded(job, sorted, n, f);
    } else if !Preceded(job, ns, n, f) {
      UnprecededSurvives(job, sorted, n, f);
    }
  }

  // Overlap, gap, dangling edge.
  function KindRank(kind: string): nat {
    if kind == OVERLAP then 0 else if kind == GAP then 1 else 2
  }

  lemma KindsInOrder(job: Job, n: Neighbour, a: nat, b: nat)
    requires Examine(job, n).Success? && a < b < |Examine(job, n).value|
    ensures KindRank(Examine(job, n).value[a].kind) < KindRank(Examine(job, n).value[b].kind)
  {
    assert OVERLAP[0] == 'o' && GAP[0] == 'g' && DANGLING_EDGE[0] == 'd';
  }

  ghost predicate Follows(f: Finding, g: Finding) {
    && |f.parcelIds| == 1 && |g.parcelIds| == 1
    && (f.parcelIds[0] < g.parcelIds[0] || (f.parcelIds == g.parcelIds && KindRank(f.kind) < KindRank(g.kind)))
  }

  lemma AllInOrder(job: Job, ns: seq<Neighbour>, i: nat, j: nat)
    requires DistinctIds(ns) && Ascending(ns) && ExamineAll(job, ns).Success?
    requires i < j < |ExamineAll(job, ns).value|
    ensures Follows(ExamineAll(job, ns).value[i], ExamineAll(job, ns).value[j])
  {
    hide Examine, ExamineAll, KindRank;
    var all := ExamineAll(job, ns).value;
    var k, o := LocatedAt(job, ns, i);
    var l, p := LocatedAt(job, ns, j);
    ExamineExactly(job, ns[k], all[i]);
    ExamineExactly(job, ns[l], all[j]);
    assert all[i] in Examine(job, ns[k]).value && all[j] in Examine(job, ns[l]).value;
    if k == l {
      KindsInOrder(job, ns[k], o, p);
    } else if l < k {
      FoundAt(job, ns, l, p);
      OffsetsGrow(job, ns, l, k);
      assert false;
    }
  }

  // The findings come in the order of the neighbours' ids, and for one neighbour
  // as overlap, gap, dangling edge.
  lemma FindingsInOrder(job: Job, ns: seq<Neighbour>, a: nat, b: nat)
    requires DistinctIds(ns) && Detected(job, ns).Success? && a < b < |Detected(job, ns).value|
    ensures Follows(Detected(job, ns).value[a], Detected(job, ns).value[b])
  {
    hide Examine, ExamineAll, FirstIndices, Follows;
    var sorted := SortById(ns);
    SortFacts(ns);
    DistinctPermutation(ns, sorted);
    var all := ExamineAll(job, sorted).value;
    var indices := FirstIndices(all);
    assert indices[a] in indices && indices[b] in indices;
    AllInOrder(job, sorted, indices[a], indices[b]);
  }

  // ------------------------------------------------------------------- failures

  predicate OverlapUnencoded(job: Job, n: Neighbour) {
    match job.lib.intersection(job.candidate, n.shape)
    case None => false
    case Some(overlap) =>
      && job.lib.area(overlap) > 0.000001
      && job.lib.area(overlap) > job.tolerance * job.tolerance * 0.0001
      && job.lib.encode(overlap).None?
  }

  predicate GapUnencoded(job: Job, n: Neighbour) {
    match (job.lib.distance(job.base, n.shape), job.lib.distance(job.candidate, n.shape))
    case (Some(before), Some(after)) =>
      before <= job.tolerance < after && job.lib.encode(job.lib.boundary(job.candidate)).None?
    case _ => false
  }

  predicate EdgeUnencoded(job: Job, n: Neighbour) {
    match (job.lib.distance(job.candidate, n.shape),
           job.lib.intersection(job.lib.boundary(job.candidate), job.lib.boundary(n.shape)))
    case (Some(after), Some(shared)) =>
      after <= job.tolerance && job.lib.length(shared) <= job.tolerance && job.lib.encode(shared).None?
    case _ => false
  }

  // One neighbour fails with the first of: its overlay, the encoding of an overlap
  // or a gap that is due, the overlay of the boundaries, the encoding of a
  // dangling edge that is due.
  lemma ExamineFailsExactly(job: Job, n: Neighbour)
    ensures Examine(job, n) ==
              (if job.lib.intersection(job.candidate, n.shape).None? then Failure(OverlayFailed(n.id))
               else if OverlapUnencoded(job, n) || GapUnencoded(job, n) then Failure(EncodeFailed)
               else if job.lib.intersection(job.lib.boundary(job.candidate), job.lib.boundary(n.shape)).None?
               then Failure(BoundaryOverlayFailed(n.id))
               else if EdgeUnencoded(job, n) then Failure(EncodeFailed)
               else Examine(job, n))
    ensures Examine(job, n).Failure? ==>
              || job.lib.intersection(job.candidate, n.shape).None?
              || job.lib.intersection(job.lib.boundary(job.candidate), job.lib.boundary(n.shape)).None?
              || OverlapUnencoded(job, n) || GapUnencoded(job, n) || EdgeUnencoded(job, n)
  {
    hide AreaThreshold;
    var overlap := job.lib.intersection(job.candidate, n.shape);
    if overlap.Some? {
      ThresholdExactly(job.lib.area(overlap.value), job.tolerance);
    }
  }

  lemma ThresholdExactly(area: real, tolerance: real)
    ensures area > AreaThreshold(tolerance) <==> area > 0.000001 && area > tolerance * tolerance * 0.0001
  {
  }

  lemma {:induction false} AllFailExactly(job: Job, ns: seq<Neighbour>)
    ensures ExamineAll(job, ns).Failure? <==> exists n :: n in ns && Examine(job, n).Failure?
  {
    hide Examine;
    if ns != [] {
      var last := |ns| - 1;
      AllFailExactly(job, ns[..last]);
      assert ns == ns[..last] + [ns[last]];
    }
  }

  // Detection fails if and only if some neighbour does, with the error of the
  // failing neighbour that has the lowest id.
  lemma DetectionFailsExactly(job: Job, ns: seq<Neighbour>, n: Neighbour)
    requires DistinctIds(ns)
    ensures Detected(job, ns).Failure? <==> exists m :: m in ns && Examine(job, m).Failure?
    ensures n in ns && Examine(job, n).Failure? &&
            (forall m :: m in ns && Examine(job, m).Failure? ==> n.id <= m.id) ==>
              Detected(job, ns) == Failure(Examine(job, n).error)
  {
    hide Examine, ExamineAll, Deduplicated;
    var sorted := SortById(ns);
    SortFacts(ns);
    DistinctPermutation(ns, sorted);
    AllFailExactly(job, sorted);
    if n in ns && Examine(job, n).Failure? && (forall m :: m in ns && Examine(job, m).Failure? ==> n.id <= m.id) {
      var k :| 0 <= k < |sorted| && sorted[k] == n;
      AllFailExactly(job, sorted[..k]);
      forall m | m in sorted[..k] ensures Examine(job, m).Success? {
        var l :| 0 <= l < k && sorted[l] == m;
        assert sorted[l].id < sorted[k].id && sorted[l] in sorted;
      }
      FailsAt(job, sorted, k);
    }
  }

  lemma FailsAt(job: Job, ns: seq<Neighbour>, k: nat)
    requires k < |ns| && ExamineAll(job, ns[..k]).Success? && Examine(job, ns[k]).Failure?
    ensures ExamineAll(job, ns) == Failure(Examine(job, ns[k]).error)
  {
    hide Examine;
    assert ns[..k + 1][..k] == ns[..k];
    FirstError(job, ns, k + 1);
  }

  // No neighbour is reported both as a gap and as a dangling edge.
  lemma GapOrDanglingEdge(job: Job, ns: seq<Neighbour>, f: Finding, g: Finding)
    requires DistinctIds(ns) && Detected(job, ns).Success?
    requires f in Detected(job, ns).value && f.kind == GAP
    requires g in Detected(job, ns).value && g.kind == DANGLING_EDGE
    ensures f.parcelIds != g.parcelIds
  {
    hide Examine, ExamineAll, Deduplicated, Gapped;
    var all := ExamineAll(job, SortById(ns)).value;
    DeduplicatedExact(all);
    var n := Origin(job, SortById(ns), f);
    var m := Origin(job, SortById(ns), g);
    ExamineGaps(job, n);
    ExamineGaps(job, m);
    assert n in ns && m in ns && n != m;
  }

  ghost predicate FirstGapped(job: Job, ns: seq<Neighbour>, n: Neighbour) {
    n in ns && Gapped(job, n) && forall m :: m in ns && Gapped(job, m) ==> n.id <= m.id
  }

  // All gaps share the candidate's boundary as evidence, so at most one survives
  // deduplication.
  lemma AtMostOneGap(job: Job, ns: seq<Neighbour>, f: Finding, g: Finding)
    requires Detected(job, ns).Success?
    requires f in Detected(job, ns).value && f.kind == GAP
    requires g in Detected(job, ns).value && g.kind == GAP
    ensures f == g
  {
    hide Examine, Gapped, ExamineAll, FirstIndices;
    var sorted := SortById(ns);
    var all := ExamineAll(job, sorted).value;
    DeduplicatedExact(all);
    var i :| 0 <= i < |all| && FirstOf(all, i) && all[i] == f;
    var j :| 0 <= j < |all| && FirstOf(all, j) && all[j] == g;
    AllGaps(job, sorted, i);
    AllGaps(job, sorted, j);
    assert Key(all[i]) == Key(all[j]);
  }

  lemma AscendingIndex(ns: seq<Neighbour>, k: nat, m: Neighbour) returns (l: nat)
    requires k < |ns| && Ascending(ns) && m in ns && m.id < ns[k].id
    ensures l < k && ns[l] == m
  {
    l :| 0 <= l < |ns| && ns[l] == m;
  }

  lemma NoEarlierGap(job: Job, all: seq<Finding>, i: nat)
    requires i < |all| && FirstOf(all, i) && exists n :: GapOf(job, all[i], n)
    ensures forall j, m :: 0 <= j < i ==> !GapOf(job, all[j], m)
  {
    forall j, m | 0 <= j < i ensures !GapOf(job, all[j], m) {
      assert Key(all[j]) != Key(all[i]);
    }
  }

  // The gap that survives names the gapped neighbour with the lowest id; the
  // gaps against the others are not reported.
  lemma GapNamesLowest(job: Job, ns: seq<Neighbour>, f: Finding)
    requires Detected(job, ns).Success?
    requires f in Detected(job, ns).value && f.kind == GAP
    ensures exists n :: FirstGapped(job, ns, n) && GapOf(job, f, n)
  {
    hide Examine, Gapped, ExamineAll, FirstIndices;
    var sorted := SortById(ns);
    var all := ExamineAll(job, sorted).value;
    SortFacts(ns);
    DeduplicatedExact(all);
    var i :| 0 <= i < |all| && FirstOf(all, i) && all[i] == f;
    AllGaps(job, sorted, i);
    var k :| 0 <= k < |sorted| && Gapped(job, sorted[k]) && GapOf(job, f, sorted[k])
             && forall m :: 0 <= m < k && Gapped(job, sorted[m]) ==>
                  exists j :: 0 <= j < i && GapOf(job, all[j], sorted[m]);
    NoEarlierGap(job, all, i);
    forall m | m in ns && Gapped(job, m) ensures sorted[k].id <= m.id {
      if m.id < sorted[k].id {
        var l := AscendingIndex(sorted, k, m);
        assert false;
      }
    }
    assert FirstGapped(job, ns, sorted[k]);
  }

  // Some gap is reported exactly when some neighbour is gapped.
  lemma GapReportedExactlyWhen(job: Job, ns: seq<Neighbour>)
    requires Detected(job, ns).Success?
    ensures (exists f :: f in Detected(job, ns).value && f.kind == GAP) <==> (exists n :: n in ns && Gapped(job, n))
  {
    hide Examine, Gapped, ExamineAll, FirstIndices;
    var sorted := SortById(ns);
    var all := ExamineAll(job, sorted).value;
    if n :| n in ns && Gapped(job, n) {
      var m :| 0 <= m < |sorted| && sorted[m] == n;
      var j := GapFound(job, sorted, m);
      GapSurvivor(job, sorted, all, j);
    }
    if f :| f in Detected(job, ns).value && f.kind == GAP {
      GapNamesLowest(job, ns, f);
    }
  }

  lemma GapSurvivor(job: Job, sorted: seq<Neighbour>, all: seq<Finding>, j: nat)
    requires ExamineAll(job, sorted) == Success(all) && j < |all| && all[j].kind == GAP
    ensures exists f :: f in Deduplicated(all) && f.kind == GAP
  {
    hide Examine, Gapped, ExamineAll, FirstIndices, Key;
    DeduplicatedExact(all);
    var i := FirstWithKey(all, j);
    AllGaps(job, sorted, i);
    KindsHaveNoBar();
    KeyInjective(all[i], all[j]);
  }

  lemma FirstWithKey(input: seq<Finding>, j: nat) returns (i: nat)
    requires j < |input|
    ensures i <= j && FirstOf(input, i) && Key(input[i]) == Key(input[j])
    decreases j
  {
    hide Key;
    i := j;
    if !FirstOf(input, j) {
      var k :| 0 <= k < j && Key(input[k]) == Key(input[j]);
      i := FirstWithKey(input, k);
    }
  }

  lemma KindsHaveNoBar()
    ensures '|' !in OVERLAP && '|' !in GAP && '|' !in DANGLING_EDGE
  {
  }

  // A gap that names n is reported if and only if n is the gapped neighbour with
  // the lowest id.
  lemma GapNamesExactly(job: Job, ns: seq<Neighbour>, n: Neighbour)
    requires DistinctIds(ns) && Detected(job, ns).Success? && n in ns
    ensures (exists f :: f in Detected(job, ns).value && f.kind == GAP && f.parcelIds == [n.id])
       <==> FirstGapped(job, ns, n)
  {
    hide Examine, Gapped, ExamineAll, Deduplicated, Detected;
    GapReportedExactlyWhen(job, ns);
    if f :| f in Detected(job, ns).value && f.kind == GAP && f.parcelIds == [n.id] {
      GapNamesLowest(job, ns, f);
      var m :| FirstGapped(job, ns, m) && GapOf(job, f, m);
      assert m == n;
    }
    if FirstGapped(job, ns, n) {
      var f :| f in Detected(job, ns).value && f.kind == GAP;
      GapNamesLowest(job, ns, f);
      var m :| FirstGapped(job, ns, m) && GapOf(job, f, m);
      assert m == n;
    }
  }

  // ------------------------------------------------------------ findings that are lost

  const BASE := Polygons([])

  const WEST := Neighbour(1, Points([Point(0.0, 0.0)]))

  const EAST := Neighbour(2, Points([Point(9.0, 0.0)]))

  // Everything lies at distance 0 from the base and at the given distance from
  // the candidate; nothing overlaps, and no boundary is shared.
  function Apart(distance: real): Job {
    Job(Overlay((_, _) => Some(Lines([])),
                (from: Shape, _) => Some(if from == BASE then 0.0 else distance),
                _ => 0.0, _ => 0.0, s => s, s => Some(if s == Lines([]) then "empty" else "candidate")),
        BASE, Polygons([[]]), 1.0)
  }

  lemma SortedPair()
    ensures SortById([WEST, EAST]) == [WEST, EAST] && DistinctIds([WEST, EAST])
  {
    assert [WEST, EAST][1..] == [EAST] && [EAST][1..] == [];
    assert SortById([EAST]) == [EAST];
  }

  lemma PairFound(job: Job, f: Finding, g: Finding)
    requires Examine(job, WEST) == Success([f]) && Examine(job, EAST) == Success([g]) && Key(f) == Key(g)
    ensures Detected(job, [WEST, EAST]) == Success([f])
  {
    hide Examine, Key, SortById;
    SortedPair();
    assert [WEST, EAST][..1] == [WEST] && [WEST][..0] == [];
    assert ExamineAll(job, [WEST]) == Success([] + [f]);
    assert [] + [f] == [f];
    assert ExamineAll(job, [WEST, EAST]) == Success([f] + [g]);
    var all := [f] + [g];
    assert Deduplicated(all[..0]) == [];
    assert all[..0] == [] && all[..1] == [f] && all[..2] == all;
    DeduplicatedStep(all, 0);
    DeduplicatedStep(all, 1);
    assert Key(all[0]) == Key(all[1]);
    assert FirstOf(all, 0) && !FirstOf(all, 1);
    assert Deduplicated(all) == [] + [f] + [];
    assert [] + [f] + [] == [f];
    assert Detected(job, [WEST, EAST]) == Success(Deduplicated(all));
  }

  // Two neighbours that the candidate has moved away from: both are gapped, and
  // one gap is reported.
  lemma GapLost()
    ensures var job := Apart(2.0);
            && Gapped(job, WEST) && Gapped(job, EAST)
            && Detected(job, [WEST, EAST]) == Success([Finding(GAP, "candidate", 2.0, [1])])
  {
    hide Detected;
    var job := Apart(2.0);
    var f, g := Finding(GAP, "candidate", 2.0, [1]), Finding(GAP, "candidate", 2.0, [2]);
    assert [] + [f] + [] == [f] && [] + [g] + [] == [g];
    PairFound(job, f, g);
  }

  // Two neighbours within tolerance without a shared boundary: both would be
  // dangling edges with the same empty evidence, and one is reported.
  lemma DanglingEdgeLost()
    ensures var job := Apart(1.0);
            && Dangling(job, WEST, Lines([])) && Dangling(job, EAST, Lines([]))
            && Detected(job, [WEST, EAST]) == Success([Finding(DANGLING_EDGE, "empty", 1.0, [1])])
  {
    hide Detected;
    var job := Apart(1.0);
    var f, g := Finding(DANGLING_EDGE, "empty", 1.0, [1]), Finding(DANGLING_EDGE, "empty", 1.0, [2]);
    assert [] + [] + [f] == [f] && [] + [] + [g] == [g];
    PairFound(job, f, g);
  }
}

// The fixed-window RateLimiter of backend/internal/middleware/auth.go. Time is
// in nanoseconds; 0 is the zero time that marks an absent visitor.

module RateLimiting {
  import opened Options

  datatype Config = Config(limit: int, window: int)

  datatype Visitor = Visitor(count: nat, expiresAt: int)

  const ABSENT := Visitor(0, 0)

  datatype Call = Call(key: string, now: int)

  datatype Limiter = Limiter(visitors: map<string, Visitor>, lastSweep: int)

  // ------------------------------------------------------------ specification

  function Current(cfg: Config, entry: Visitor, now: int): Visitor {
    if entry.expiresAt == 0 || now > entry.expiresAt then Visitor(0, now + cfg.window) else entry
  }

  // One key's entry: a fresh window when there is none or it has expired, then
  // admission while the count is below the limit. A refusal stores nothing.
  function Touch(cfg: Config, entry: Visitor, now: int): (Visitor, bool) {
    var current := Current(cfg, entry, now);
    if current.count >= cfg.limit then (entry, false) else (Visitor(current.count + 1, current.expiresAt), true)
  }

  function Entry(visitors: map<string, Visitor>, key: string): Visitor {
    if key in visitors then visitors[key] else ABSENT
  }

  // A call to a limiter that never deletes.
  function UnsweptCall(cfg: Config, visitors: map<string, Visitor>, c: Call): (map<string, Visitor>, bool) {
    var (entry, allowed) := Touch(cfg, Entry(visitors, c.key), c.now);
    (if allowed then visitors[c.key := entry] else visitors, allowed)
  }

  function Swept(visitors: map<string, Visitor>, now: int): map<string, Visitor> {
    map key | key in visitors && now <= visitors[key].expiresAt :: visitors[key]
  }

  predicate SweepDue(cfg: Config, l: Limiter, now: int) {
    now - l.lastSweep > cfg.window
  }

  function SweepIfDue(cfg: Config, l: Limiter, now: int): Limiter {
    if SweepDue(cfg, l, now) then Limiter(Swept(l.visitors, now), now) else l
  }

  function AllowCall(cfg: Config, l: Limiter, c: Call): (Limiter, bool) {
    var ready := SweepIfDue(cfg, l, c.now);
    var (visitors, allowed) := UnsweptCall(cfg, ready.visitors, c);
    (Limiter(visitors, ready.lastSweep), allowed)
  }

  // The end of the window that decided the call.
  function Until(cfg: Config, l: Limiter, c: Call): int {
    Current(cfg, Entry(SweepIfDue(cfg, l, c.now).visitors, c.key), c.now).expiresAt
  }

  // What a call does, entry by entry: it is admitted in an open window with room
  // and in a new one, and counted there; when more than a window has passed since
  // the last sweep, the expired visitors go.
  lemma AllowExactly(cfg: Config, l: Limiter, c: Call, other: string)
    ensures var (next, allowed) := AllowCall(cfg, l, c);
            var live := c.key in l.visitors && l.visitors[c.key].expiresAt != 0 && c.now <= l.visitors[c.key].expiresAt;
            var swept := c.now - l.lastSweep > cfg.window;
            && (allowed <==> if live then l.visitors[c.key].count < cfg.limit else 0 < cfg.limit)
            && (allowed ==>
                  && c.key in next.visitors
                  && next.visitors[c.key] ==
                       (if live then Visitor(l.visitors[c.key].count + 1, l.visitors[c.key].expiresAt)
                                              else Visitor(1, c.now + cfg.window)))
            && (other != c.key || !allowed ==>
                  && (other in next.visitors <==>
                      other in l.visitors && !(swept && c.now > l.visitors[other].expiresAt))
                  && (other in next.visitors ==> next.visitors[other] == l.visitors[other]))
            && next.lastSweep == if swept then c.now else l.lastSweep
  {
  }

  // ---------------------------------------------------------------- the class

  class RateLimiter {
    const cfg: Config
    var visitors: map<string, Visitor>
    var lastSweep: int

    function State(): Limiter
      reads this
    {
      Limiter(visitors, lastSweep)
    }

    constructor (limit: int, window: int, created: int)
      ensures cfg == Config(limit, window) && State() == Limiter(map[], created)
    {
      cfg := Config(limit, window);
      visitors := map[];
      lastSweep := created;
    }

    method Sweep(now: int)
      modifies this`visitors
      ensures visitors == Swept(old(visitors), now)
    {
      var pending := visitors.Keys;
      while pending != {}
        invariant pending <= old(visitors).Keys
        invariant forall k :: k in pending ==> k in visitors && visitors[k] == old(visitors)[k]
        invariant forall k :: k in visitors <==>
          k in old(visitors) && (k in pending || now <= old(visitors)[k].expiresAt)
        invariant forall k :: k in visitors ==> visitors[k] == old(visitors)[k]
        decreases pending
      {
        var k :| k in pending;
        if now > visitors[k].expiresAt {
          visitors := visitors - {k};
        }
        pending := pending - {k};
      }
    }

    // The retry hint is the time left until the window ends.
    method Allow(key: string, now: int) returns (allowed: bool, until: int)
      modifies this
      ensures (State(), allowed) == AllowCall(cfg, old(State()), Call(key, now))
      ensures until == Until(cfg, old(State()), Call(key, now))
    {
      if now - lastSweep > cfg.window {
        Sweep(now);
        lastSweep := now;
      }
      var current := if key in visitors then visitors[key] else ABSENT;
      if current.expiresAt == 0 || now > current.expiresAt {
        current := Visitor(0, now + cfg.window);
      }
      if current.count >= cfg.limit {
        return false, current.expiresAt;
      }
      current := current.(count := current.count + 1);
      visitors := visitors[key := current];
      return true, current.expiresAt;
    }
  }

  // --------------------------------------------------------------------- runs

  ghost predicate Monotone(calls: seq<Call>, from: int) {
    forall i :: 0 <= i < |calls| ==>
      from <= calls[i].now && forall j :: i <= j < |calls| ==> calls[i].now <= calls[j].now
  }

  function Final(cfg: Config, l: Limiter, calls: seq<Call>): Limiter
    decreases calls
  {
    if calls == [] then l else Final(cfg, AllowCall(cfg, l, calls[0]).0, calls[1..])
  }

  function Decisions(cfg: Config, l: Limiter, calls: seq<Call>): (r: seq<bool>)
    ensures |r| == |calls|
    decreases calls
  {
    if calls == [] then []
    else
      var (next, allowed) := AllowCall(cfg, l, calls[0]);
      [allowed] + Decisions(cfg, next, calls[1..])
  }

  function UnsweptDecisions(cfg: Config, visitors: map<string, Visitor>, calls: seq<Call>): (r: seq<bool>)
    ensures |r| == |calls|
    decreases calls
  {
    if calls == [] then []
    else
      var (next, allowed) := UnsweptCall(cfg, visitors, calls[0]);
      [allowed] + UnsweptDecisions(cfg, next, calls[1..])
  }

  // ------------------------------------------------------ sweeping is invisible

  // What sweeping has removed had expired before the last sweep, if there was one.
  ghost predicate SweptFrom(swept: map<string, Visitor>, full: map<string, Visitor>, last: Option<int>) {
    forall key :: key in full || key in swept ==>
      && key in full
      && (if key in swept then swept[key] == full[key] else last.Some? && full[key].expiresAt < last.value)
  }

  function LastSweep(cfg: Config, l: Limiter, last: Option<int>, now: int): Option<int> {
    if SweepDue(cfg, l, now) then Some(now) else last
  }

  // No call's time precedes the last sweep executed before it. The time is read
  // before the lock is taken, so calls need not enter in the order of their times.
  ghost predicate Timely(cfg: Config, l: Limiter, last: Option<int>, calls: seq<Call>)
    decreases calls
  {
    calls == [] ||
    ((last.Some? ==> last.value <= calls[0].now)
     && Timely(cfg, AllowCall(cfg, l, calls[0]).0, LastSweep(cfg, l, last, calls[0].now), calls[1..]))
  }

  // The sweep changes the decision of a call exactly when it had removed a
  // visitor that is at its limit and, at the time of the call, still live.
  lemma CallDiffersExactly(cfg: Config, l: Limiter, full: map<string, Visitor>, last: Option<int>, c: Call)
    requires SweptFrom(l.visitors, full, last)
    ensures AllowCall(cfg, l, c).1 != UnsweptCall(cfg, full, c).1 <==>
            && c.key in full && c.key !in l.visitors
            && full[c.key].expiresAt != 0 && c.now <= full[c.key].expiresAt
            && 0 < cfg.limit <= full[c.key].count
  {
  }

  lemma SameCall(cfg: Config, l: Limiter, full: map<string, Visitor>, last: Option<int>, c: Call)
    requires SweptFrom(l.visitors, full, last) && (last.Some? ==> last.value <= c.now)
    ensures AllowCall(cfg, l, c).1 == UnsweptCall(cfg, full, c).1
    ensures SweptFrom(AllowCall(cfg, l, c).0.visitors, UnsweptCall(cfg, full, c).0, LastSweep(cfg, l, last, c.now))
  {
    var ready := SweepIfDue(cfg, l, c.now);
    assert SweptFrom(ready.visitors, full, LastSweep(cfg, l, last, c.now));
  }

  lemma {:induction false} SweepInvisibleFrom(
    cfg: Config, l: Limiter, full: map<string, Visitor>, last: Option<int>, calls: seq<Call>)
    requires Timely(cfg, l, last, calls) && SweptFrom(l.visitors, full, last)
    ensures Decisions(cfg, l, calls) == UnsweptDecisions(cfg, full, calls)
    decreases calls
  {
    hide AllowCall, UnsweptCall, SweptFrom, LastSweep;
    if calls != [] {
      var c := calls[0];
      SameCall(cfg, l, full, last, c);
      SweepInvisibleFrom(
        cfg, AllowCall(cfg, l, c).0, UnsweptCall(cfg, full, c).0, LastSweep(cfg, l, last, c.now), calls[1..]);
    }
  }

  // As long as no call precedes the last sweep, deleting expired visitors changes
  // no decision.
  lemma SweepInvisible(cfg: Config, created: int, calls: seq<Call>)
    requires Timely(cfg, Limiter(map[], created), None, calls)
    ensures Decisions(cfg, Limiter(map[], created), calls) == UnsweptDecisions(cfg, map[], calls)
  {
    hide Timely;
    SweepInvisibleFrom(cfg, Limiter(map[], created), map[], None, calls);
  }

  // Calls that enter in the order of their times are such calls.
  lemma {:induction false} MonotoneIsTimely(cfg: Config, l: Limiter, last: Option<int>, calls: seq<Call>, from: int)
    requires Monotone(calls, from) && (last.Some? ==> last.value <= from)
    ensures Timely(cfg, l, last, calls)
    decreases calls
  {
    hide AllowCall;
    if calls != [] {
      MonotoneIsTimely(
        cfg, AllowCall(cfg, l, calls[0]).0, LastSweep(cfg, l, last, calls[0].now), calls[1..], calls[0].now);
    }
  }

  // A sweep at s, and then a call with the earlier time t.
  function LateCalls(k: string, j: string, t0: int, s: int, t: int): seq<Call> {
    [Call(k, t0)] + ([Call(j, s)] + ([Call(k, t)] + []))
  }

  lemma DecisionsStep(cfg: Config, l: Limiter, full: map<string, Visitor>, c: Call, rest: seq<Call>)
    ensures Decisions(cfg, l, [c] + rest) == [AllowCall(cfg, l, c).1] + Decisions(cfg, AllowCall(cfg, l, c).0, rest)
    ensures UnsweptDecisions(cfg, full, [c] + rest)
         == [UnsweptCall(cfg, full, c).1] + UnsweptDecisions(cfg, UnsweptCall(cfg, full, c).0, rest)
  {
    hide AllowCall, UnsweptCall;
    assert ([c] + rest)[1..] == rest;
  }

  // With limit 1: the late call is admitted again although its window is open,
  // and without sweeping it would be admitted exactly when the window is over.
  lemma LateCallExactly(window: int, created: int, k: string, j: string, t0: int, s: int, t: int)
    requires window > 0 && k != j && created <= t0 && 0 < t0 && t0 + window < s
    ensures var calls := LateCalls(k, j, t0, s, t);
            && Decisions(Config(1, window), Limiter(map[], created), calls) == [true, true, true]
            && UnsweptDecisions(Config(1, window), map[], calls) == [true, true, t > t0 + window]
  {
    hide Decisions, UnsweptDecisions;
    var cfg, l := Config(1, window), Limiter(map[], created);
    var c0, c1, c2 := Call(k, t0), Call(j, s), Call(k, t);
    var l1, f1 := AllowCall(cfg, l, c0).0, UnsweptCall(cfg, map[], c0).0;
    var l2, f2 := AllowCall(cfg, l1, c1).0, UnsweptCall(cfg, f1, c1).0;
    assert l1.visitors == f1 == map[k := Visitor(1, t0 + window)];
    assert k !in l2.visitors && f2[k] == Visitor(1, t0 + window);
    DecisionsStep(cfg, l, map[], c0, [c1] + ([c2] + []));
    DecisionsStep(cfg, l1, f1, c1, [c2] + []);
    DecisionsStep(cfg, l2, f2, c2, []);
    NoDecisions(cfg, AllowCall(cfg, l2, c2).0, UnsweptCall(cfg, f2, c2).0);
  }

  lemma NoDecisions(cfg: Config, l: Limiter, full: map<string, Visitor>)
    ensures Decisions(cfg, l, []) == [] && UnsweptDecisions(cfg, full, []) == []
  {
  }

  // A refused key is admitted again exactly when the returned time has passed.
  lemma RetryExactly(cfg: Config, l: Limiter, c: Call, now: int)
    requires cfg.limit > 0 && !AllowCall(cfg, l, c).1
    ensures AllowCall(cfg, AllowCall(cfg, l, c).0, Call(c.key, now)).1 <==> now > Until(cfg, l, c)
  {
  }

  // ------------------------------------------------------------ bounded memory

  ghost predicate Retained(l: Limiter, now: int, window: int) {
    && l.lastSweep <= now <= l.lastSweep + window
    && forall key :: key in l.visitors ==> l.lastSweep <= l.visitors[key].expiresAt
  }

  lemma {:induction false} RetainedAfter(cfg: Config, l: Limiter, calls: seq<Call>, from: int)
    requires cfg.window >= 0 && Monotone(calls, from) && calls != []
    requires l.lastSweep <= from && forall key :: key in l.visitors ==> l.lastSweep <= l.visitors[key].expiresAt
    ensures Retained(Final(cfg, l, calls), calls[|calls| - 1].now, cfg.window)
    decreases calls
  {
    var next := AllowCall(cfg, l, calls[0]).0;
    assert Retained(next, calls[0].now, cfg.window);
    if |calls| > 1 {
      RetainedAfter(cfg, next, calls[1..], calls[0].now);
    } else {
      assert calls[1..] == [];
    }
  }

  // After a call at t, no stored visitor expired more than a window ago.
  lemma NothingLongExpired(cfg: Config, created: int, calls: seq<Call>)
    requires cfg.window >= 0 && Monotone(calls, created) && calls != []
    ensures var l := Final(cfg, Limiter(map[], created), calls);
            forall key :: key in l.visitors ==> l.visitors[key].expiresAt >= calls[|calls| - 1].now - cfg.window
  {
    RetainedAfter(cfg, Limiter(map[], created), calls, created);
  }

  // ---------------------------------------------------------- key independence

  function TimesOf(calls: seq<Call>, key: string): seq<int> {
    if calls == [] then []
    else (if calls[0].key == key then [calls[0].now] else []) + TimesOf(calls[1..], key)
  }

  function DecisionsOf(calls: seq<Call>, decisions: seq<bool>, key: string): seq<bool>
    requires |calls| == |decisions|
  {
    if calls == [] then []
    else (if calls[0].key == key then [decisions[0]] else []) + DecisionsOf(calls[1..], decisions[1..], key)
  }

  function KeyDecisions(cfg: Config, entry: Visitor, times: seq<int>): (r: seq<bool>)
    ensures |r| == |times|
    decreases times
  {
    if times == [] then []
    else
      var (next, allowed) := Touch(cfg, entry, times[0]);
      [allowed] + KeyDecisions(cfg, next, times[1..])
  }

  lemma {:induction false} UnsweptIndependent(
    cfg: Config, visitors: map<string, Visitor>, calls: seq<Call>, key: string)
    ensures DecisionsOf(calls, UnsweptDecisions(cfg, visitors, calls), key)
         == KeyDecisions(cfg, Entry(visitors, key), TimesOf(calls, key))
    decreases calls
  {
    hide Touch;
    if calls != [] {
      var (next, allowed) := UnsweptCall(cfg, visitors, calls[0]);
      UnsweptIndependent(cfg, next, calls[1..], key);
      RefusalKeeps(cfg, Entry(visitors, calls[0].key), calls[0].now);
      var rest := UnsweptDecisions(cfg, next, calls[1..]);
      assert UnsweptDecisions(cfg, visitors, calls) == [allowed] + rest;
      assert ([allowed] + rest)[1..] == rest;
      if calls[0].key == key {
        var times := TimesOf(calls, key);
        assert times[1..] == TimesOf(calls[1..], key);
        assert KeyDecisions(cfg, Entry(visitors, key), times)
            == [allowed] + KeyDecisions(cfg, Entry(next, key), TimesOf(calls[1..], key));
      } else {
        assert Entry(next, key) == Entry(visitors, key);
        assert TimesOf(calls, key) == TimesOf(calls[1..], key);
      }
    }
  }

  lemma RefusalKeeps(cfg: Config, entry: Visitor, now: int)
    ensures !Touch(cfg, entry, now).1 ==> Touch(cfg, entry, now).0 == entry
  {
  }

  // What a key is answered depends only on that key's own calls.
  lemma KeysIndependent(cfg: Config, created: int, calls: seq<Call>, key: string)
    requires Timely(cfg, Limiter(map[], created), None, calls)
    ensures DecisionsOf(calls, Decisions(cfg, Limiter(map[], created), calls), key)
         == KeyDecisions(cfg, ABSENT, TimesOf(calls, key))
  {
    hide Timely;
    SweepInvisible(cfg, created, calls);
    UnsweptIndependent(cfg, map[], calls, key);
  }

  // ------------------------------------------------------------ admission bound

  // How many calls of the key at times in [a, b] were admitted.
  function Admitted(calls: seq<Call>, decisions: seq<bool>, key: string, a: int, b: int): nat
    requires |calls| == |decisions|
  {
    if calls == [] then 0
    else (if decisions[0] && calls[0].key == key && a <= calls[0].now <= b then 1 else 0)
         + Admitted(calls[1..], decisions[1..], key, a, b)
  }

  function KeyAdmitted(cfg: Config, entry: Visitor, times: seq<int>, a: int, b: int): nat
    decreases times
  {
    if times == [] then 0
    else
      var (next, allowed) := Touch(cfg, entry, times[0]);
      (if allowed && a <= times[0] <= b then 1 else 0) + KeyAdmitted(cfg, next, times[1..], a, b)
  }

  function CountIn(times: seq<int>, decisions: seq<bool>, a: int, b: int): nat
    requires |times| == |decisions|
  {
    if times == [] then 0
    else (if decisions[0] && a <= times[0] <= b then 1 else 0) + CountIn(times[1..], decisions[1..], a, b)
  }

  lemma {:induction false} AdmittedByKey(calls: seq<Call>, decisions: seq<bool>, key: string, a: int, b: int)
    requires |calls| == |decisions|
    ensures |TimesOf(calls, key)| == |DecisionsOf(calls, decisions, key)|
    ensures Admitted(calls, decisions, key, a, b)
       == CountIn(TimesOf(calls, key), DecisionsOf(calls, decisions, key), a, b)
  {
    if calls != [] {
      AdmittedByKey(calls[1..], decisions[1..], key, a, b);
      if calls[0].key == key {
        assert TimesOf(calls, key)[1..] == TimesOf(calls[1..], key);
        assert DecisionsOf(calls, decisions, key)[1..] == DecisionsOf(calls[1..], decisions[1..], key);
      } else {
        assert TimesOf(calls, key) == TimesOf(calls[1..], key);
        assert DecisionsOf(calls, decisions, key) == DecisionsOf(calls[1..], decisions[1..], key);
      }
    }
  }

  lemma {:induction false} CountKeyDecisions(cfg: Config, entry: Visitor, times: seq<int>, a: int, b: int)
    ensures CountIn(times, KeyDecisions(cfg, entry, times), a, b) == KeyAdmitted(cfg, entry, times, a, b)
    decreases times
  {
    hide Touch;
    if times != [] {
      var (next, allowed) := Touch(cfg, entry, times[0]);
      CountKeyDecisions(cfg, next, times[1..], a, b);
      assert KeyDecisions(cfg, entry, times)[1..] == KeyDecisions(cfg, next, times[1..]);
    }
  }

  // Times that are not negative, none more than late before an earlier one.
  ghost predicate Orderly(times: seq<int>, late: int) {
    forall i :: 0 <= i < |times| ==> 0 <= times[i] && forall j :: i <= j < |times| ==> times[i] - late <= times[j]
  }

  lemma {:induction false} TimesSorted(calls: seq<Call>, key: string, from: int)
    requires Monotone(calls, from)
    ensures forall i :: 0 <= i < |TimesOf(calls, key)| ==>
              from <= TimesOf(calls, key)[i]
              && forall j :: i <= j < |TimesOf(calls, key)| ==> TimesOf(calls, key)[i] <= TimesOf(calls, key)[j]
  {
    if calls != [] {
      TimesSorted(calls[1..], key, calls[0].now);
    }
  }

  // x / w rounded up, and 0 for an x that is not positive.
  function Ceil(x: int, w: int): nat
    requires w > 0
    decreases x
  {
    if x <= 0 then 0 else 1 + Ceil(x - w, w)
  }

  lemma {:induction false} CeilIsCeiling(x: int, w: int)
    requires w > 0 && x > 0
    ensures (Ceil(x, w) - 1) * w < x <= Ceil(x, w) * w
    decreases x
  {
    if x > w {
      CeilIsCeiling(x - w, w);
      var c := Ceil(x - w, w);
      assert Ceil(x, w) == c + 1;
      assert c * w == (c - 1) * w + w;
      assert (c + 1) * w == c * w + w;
    }
  }

  lemma {:induction false} CeilMonotone(x: int, y: int, w: int)
    requires w > 0 && x <= y
    ensures Ceil(x, w) <= Ceil(y, w)
    decreases x
  {
    if 0 < x {
      CeilMonotone(x - w, y - w, w);
    }
  }

  lemma TimesMonotone(limit: int, p: int, q: int)
    requires limit >= 0 && p <= q
    ensures limit * p <= limit * q
  {
    assert limit * (q - p) >= 0;
  }

  // Admissions from now until b: what is left of the current window, and a full
  // limit for every window that can still start. Windows start after expiry, so
  // consecutive starts lie more than a window apart.
  function Allowance(cfg: Config, entry: Visitor, b: int): int
    requires cfg.window > 0
  {
    (cfg.limit - entry.count) + cfg.limit * Ceil(b - entry.expiresAt, cfg.window)
  }

  lemma WindowSpend(cfg: Config, entry: Visitor, t: int, b: int)
    requires cfg.window > 0 && cfg.limit > 0 && entry.count <= cfg.limit
    requires entry.expiresAt < t <= b
    ensures Allowance(cfg, Visitor(0, t + cfg.window), b) <= Allowance(cfg, entry, b)
  {
    var w := cfg.window;
    CeilMonotone(b - (t + w), b - entry.expiresAt - w, w);
    var p, q := Ceil(b - (t + w), w), Ceil(b - entry.expiresAt - w, w);
    assert Ceil(b - entry.expiresAt, w) == q + 1;
    TimesMonotone(cfg.limit, p, q);
    assert cfg.limit * (q + 1) == cfg.limit * q + cfg.limit;
  }

  lemma {:induction false} FutureBound(cfg: Config, entry: Visitor, times: seq<int>, late: int, a: int, b: int)
    requires cfg.window > 0 && cfg.limit > 0 && late >= 0 && Orderly(times, late)
    requires entry.expiresAt > 0 && entry.count <= cfg.limit
    ensures KeyAdmitted(cfg, entry, times, a, b) <= Allowance(cfg, entry, b + late)
    decreases times
  {
    hide Ceil;
    assert cfg.limit * Ceil(b + late - entry.expiresAt, cfg.window) >= 0;
    if times != [] {
      var t := times[0];
      var (next, allowed) := Touch(cfg, entry, t);
      FutureBound(cfg, next, times[1..], late, a, b);
      if t > b + late {
        NoneAfter(cfg, next, times[1..], a, b);
      } else if t > entry.expiresAt {
        WindowSpend(cfg, entry, t, b + late);
      }
    }
  }

  lemma {:induction false} NoneAfter(cfg: Config, entry: Visitor, times: seq<int>, a: int, b: int)
    requires forall i :: 0 <= i < |times| ==> b < times[i]
    ensures KeyAdmitted(cfg, entry, times, a, b) == 0
    decreases times
  {
    hide Touch;
    if times != [] {
      NoneAfter(cfg, Touch(cfg, entry, times[0]).0, times[1..], a, b);
    }
  }

  // A key's stored entry: none yet, or one that has admitted at least one call.
  ghost predicate Stored(cfg: Config, entry: Visitor) {
    entry == ABSENT || (entry.expiresAt > 0 && 1 <= entry.count <= cfg.limit)
  }

  ghost predicate WithinBound(cfg: Config, admitted: int, a: int, b: int)
    requires cfg.window > 0
  {
    && admitted <= (Ceil(b - a, cfg.window) + 1) * cfg.limit
    && (a < b ==> admitted <= (Ceil(b - a, cfg.window) + 1) * cfg.limit - 1)
  }

  lemma LiveWindow(cfg: Config, entry: Visitor, a: int, b: int)
    requires cfg.window > 0 && cfg.limit > 0 && entry.count >= 1 && entry.expiresAt >= a
    ensures Allowance(cfg, entry, b) <= (Ceil(b - a, cfg.window) + 1) * cfg.limit - 1
  {
    var p, q := Ceil(b - entry.expiresAt, cfg.window), Ceil(b - a, cfg.window);
    CeilMonotone(b - entry.expiresAt, b - a, cfg.window);
    TimesMonotone(cfg.limit, p, q);
    assert (q + 1) * cfg.limit == cfg.limit * q + cfg.limit;
  }

  lemma FreshWindow(cfg: Config, t: int, a: int, b: int)
    requires cfg.window > 0 && cfg.limit > 0 && a <= t <= b
    ensures WithinBound(cfg, Allowance(cfg, Visitor(0, t + cfg.window), b), a, b)
  {
    var w := cfg.window;
    var p, q, m := Ceil(b - (t + w), w), Ceil(b - a - w, w), Ceil(b - a, w);
    CeilMonotone(b - (t + w), b - a - w, w);
    TimesMonotone(cfg.limit, p, q);
    assert (m + 1) * cfg.limit == cfg.limit * m + cfg.limit;
    if a < b {
      assert m == q + 1;
      assert cfg.limit * (q + 1) == cfg.limit * q + cfg.limit;
    } else {
      assert m == 0 && q == 0;
    }
  }

  lemma {:induction false} KeyBound(cfg: Config, entry: Visitor, times: seq<int>, late: int, a: int, b: int)
    requires cfg.window > 0 && cfg.limit > 0 && late >= 0 && Orderly(times, late) && a <= b
    requires Stored(cfg, entry)
    ensures WithinBound(cfg, KeyAdmitted(cfg, entry, times, a, b), a, b + late)
    decreases times
  {
    hide Ceil;
    var c := Ceil(b + late - a, cfg.window);
    assert c * cfg.limit >= 0;
    assert (c + 1) * cfg.limit == c * cfg.limit + cfg.limit;
    if times != [] {
      var t := times[0];
      var (next, allowed) := Touch(cfg, entry, t);
      if t < a {
        KeyBound(cfg, next, times[1..], late, a, b);
      } else if t > b + late {
        NoneAfter(cfg, next, times[1..], a, b);
      } else if entry == ABSENT || t > entry.expiresAt {
        FutureBound(cfg, next, times[1..], late, a, b);
        FreshWindow(cfg, t, a, b + late);
        assert KeyAdmitted(cfg, entry, times, a, b) <= Allowance(cfg, Visitor(0, t + cfg.window), b + late);
      } else {
        FutureBound(cfg, entry, times, late, a, b);
        LiveWindow(cfg, entry, a, b + late);
      }
    }
  }

  // If no call precedes the last sweep, and no call of the key is more than late
  // before an earlier one, then in any closed interval [a, b] the key is admitted
  // at most (ceil((b + late - a) / window) + 1) * limit times, and one fewer if
  // a < b + late: a window that was open before a spent an admission on opening.
  // For calls in the order of their times, late is 0.
  lemma AdmissionBound(cfg: Config, created: int, calls: seq<Call>, key: string, late: int, a: int, b: int)
    requires cfg.window > 0 && cfg.limit > 0 && a <= b && late >= 0
    requires Timely(cfg, Limiter(map[], created), None, calls) && Orderly(TimesOf(calls, key), late)
    ensures WithinBound(cfg, Admitted(calls, Decisions(cfg, Limiter(map[], created), calls), key, a, b), a, b + late)
  {
    hide Decisions, WithinBound, Timely, Orderly;
    var decisions := Decisions(cfg, Limiter(map[], created), calls);
    KeysIndependent(cfg, created, calls, key);
    AdmittedByKey(calls, decisions, key, a, b);
    CountKeyDecisions(cfg, ABSENT, TimesOf(calls, key), a, b);
    KeyBound(cfg, ABSENT, TimesOf(calls, key), late, a, b);
  }

  // Calls that enter in the order of their times meet both conditions.
  lemma InOrder(cfg: Config, created: int, calls: seq<Call>, key: string)
    requires Monotone(calls, 0)
    ensures Timely(cfg, Limiter(map[], created), None, calls) && Orderly(TimesOf(calls, key), 0)
  {
    hide Timely;
    MonotoneIsTimely(cfg, Limiter(map[], created), None, calls, 0);
    TimesSorted(calls, key, 0);
  }

  // Within one window's length, fewer than twice the limit.
  lemma OneWindowBound(cfg: Config, created: int, calls: seq<Call>, key: string, a: int)
    requires cfg.window > 0 && cfg.limit > 0
    requires Timely(cfg, Limiter(map[], created), None, calls) && Orderly(TimesOf(calls, key), 0)
    ensures Admitted(calls, Decisions(cfg, Limiter(map[], created), calls), key, a, a + cfg.window) < 2 * cfg.limit
  {
    hide Timely, Orderly, Decisions, Admitted;
    AdmissionBound(cfg, created, calls, key, 0, a, a + cfg.window);
    assert Ceil(cfg.window, cfg.window) == 1 + Ceil(0, cfg.window);
  }

  // With a call that precedes the last sweep this fails: two admissions within
  // one window's length, for limit 1.
  lemma LateCallBreaksBound(window: int, created: int, k: string, j: string, t0: int, s: int, t: int)
    requires window > 0 && k != j && created <= t0 && 0 < t0 && t0 + window < s && t0 <= t <= t0 + window
    ensures var calls := LateCalls(k, j, t0, s, t);
            && Decisions(Config(1, window), Limiter(map[], created), calls)
               != UnsweptDecisions(Config(1, window), map[], calls)
            && Admitted(calls, Decisions(Config(1, window), Limiter(map[], created), calls), k, t0, t0 + window) == 2
  {
    hide Decisions, UnsweptDecisions;
    LateCallExactly(window, created, k, j, t0, s, t);
    var calls := LateCalls(k, j, t0, s, t);
    assert Decisions(Config(1, window), Limiter(map[], created), calls)[2] == true;
    assert calls[1..] == [Call(j, s), Call(k, t)] && calls[1..][1..] == [Call(k, t)] && calls[1..][1..][1..] == [];
    assert [true, true, true][1..] == [true, true] && [true, true][1..] == [true];
    assert Admitted([Call(k, t)], [true], k, t0, t0 + window) == 1;
    assert Admitted(calls[1..], [true, true], k, t0, t0 + window) == 1;
  }

  lemma {:induction false} OpenWindowServes(cfg: Config, entry: Visitor, times: seq<int>, from: int)
    requires cfg.limit > 0 && entry.expiresAt > 0 && entry.count <= cfg.limit
    requires forall i :: 0 <= i < |times| ==> from <= times[i] <= entry.expiresAt
    ensures KeyAdmitted(cfg, entry, times, from, entry.expiresAt)
         == if entry.count + |times| <= cfg.limit then |times| else cfg.limit - entry.count
    decreases times
  {
    if times != [] {
      OpenWindowServes(cfg, Touch(cfg, entry, times[0]).0, times[1..], from);
    }
  }

  // A call that finds no open window opens one, of the full length, and in it
  // exactly the first limit calls are admitted.
  lemma WindowServes(cfg: Config, entry: Visitor, t: int, times: seq<int>)
    requires cfg.limit > 0 && cfg.window > 0 && t > 0 && (entry.expiresAt == 0 || t > entry.expiresAt)
    requires forall i :: 0 <= i < |times| ==> t <= times[i] <= t + cfg.window
    ensures KeyAdmitted(cfg, entry, [t] + times, t, t + cfg.window)
         == if 1 + |times| <= cfg.limit then 1 + |times| else cfg.limit
  {
    hide KeyAdmitted;
    OpenWindowServes(cfg, Touch(cfg, entry, t).0, times, t);
    KeyAdmittedStep(cfg, entry, t, times, t, t + cfg.window);
  }

  // Without a positive limit no call is admitted, in whatever order they come.
  lemma {:induction false} NoLimitNoAdmission(cfg: Config, l: Limiter, calls: seq<Call>)
    requires cfg.limit <= 0
    ensures forall i :: 0 <= i < |calls| ==> !Decisions(cfg, l, calls)[i]
    decreases calls
  {
    if calls != [] {
      NoLimitNoAdmission(cfg, AllowCall(cfg, l, calls[0]).0, calls[1..]);
    }
  }

  lemma KeyAdmittedStep(cfg: Config, entry: Visitor, t: int, rest: seq<int>, a: int, b: int)
    ensures KeyAdmitted(cfg, entry, [t] + rest, a, b)
         == (if Touch(cfg, entry, t).1 && a <= t <= b then 1 else 0)
            + KeyAdmitted(cfg, Touch(cfg, entry, t).0, rest, a, b)
  {
    assert ([t] + rest)[1..] == rest;
  }

  lemma ExampleAdmitted(cfg: Config)
    requires cfg == Config(2, 10)
    ensures KeyAdmitted(cfg, ABSENT, [1] + ([11] + ([12] + ([12] + []))), 11, 12) == 3
  {
    hide KeyAdmitted;
    KeyAdmittedStep(cfg, ABSENT, 1, [11] + ([12] + ([12] + [])), 11, 12);
    KeyAdmittedStep(cfg, Visitor(1, 11), 11, [12] + ([12] + []), 11, 12);
    KeyAdmittedStep(cfg, Visitor(2, 11), 12, [12] + [], 11, 12);
    KeyAdmittedStep(cfg, Visitor(1, 22), 12, [], 11, 12);
    assert KeyAdmitted(cfg, Visitor(2, 22), [], 11, 12) == 0 by {
      NoneAfter(cfg, Visitor(2, 22), [], 11, 12);
    }
  }

  lemma TimesStep(key: string, now: int, rest: seq<Call>)
    ensures TimesOf([Call(key, now)] + rest, key) == [now] + TimesOf(rest, key)
  {
    assert ([Call(key, now)] + rest)[1..] == rest;
  }

  function ExampleCalls(key: string): seq<Call> {
    [Call(key, 1)] + ([Call(key, 11)] + ([Call(key, 12)] + ([Call(key, 12)] + [])))
  }

  // The bound is attained: with limit 2 and window 10, three calls at times in
  // [11, 12] are admitted, and no interval of that length can admit four.
  lemma BoundAttained(key: string)
    ensures Monotone(ExampleCalls(key), 0)
    ensures Admitted(ExampleCalls(key), Decisions(Config(2, 10), Limiter(map[], 0), ExampleCalls(key)),
             key, 11, 12) == 3
    ensures (Ceil(12 - 11, 10) + 1) * 2 - 1 == 3
  {
    hide Decisions, KeyAdmitted, TimesOf;
    var cfg, calls := Config(2, 10), ExampleCalls(key);
    var decisions := Decisions(cfg, Limiter(map[], 0), calls);
    InOrder(cfg, 0, calls, key);
    KeysIndependent(cfg, 0, calls, key);
    AdmittedByKey(calls, decisions, key, 11, 12);
    CountKeyDecisions(cfg, ABSENT, TimesOf(calls, key), 11, 12);
    TimesStep(key, 1, [Call(key, 11)] + ([Call(key, 12)] + ([Call(key, 12)] + [])));
    TimesStep(key, 11, [Call(key, 12)] + ([Call(key, 12)] + []));
    TimesStep(key, 12, [Call(key, 12)] + []);
    TimesStep(key, 12, []);
    NoTimes(key);
    ExampleAdmitted(cfg);
    assert Ceil(1, 10) == 1 + Ceil(-9, 10);
  }

  lemma NoTimes(key: string)
    ensures TimesOf([], key) == []
  {
  }
}

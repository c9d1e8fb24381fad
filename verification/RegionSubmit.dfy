/** Submission across regions (src/multi_region.rs): the fallback strategies as traces of
    attempts, and broadcast to the fastest regions. */
module RegionSubmit {
  import opened Prelude
  import opened Types
  import opened StableSort
  import Router

  type Answer = Result<TransactionResult, SdkError>

  // ------------------------------------------------------------------ broadcast regions

  function RegionSet(workers: seq<WorkerEndpoint>): set<Name> {
    set i | 0 <= i < |workers| :: workers[i].region
  }

  predicate Reached(latencies: map<Name, Measurement>, w: WorkerEndpoint, region: Name) {
    w.region == region && w.id in latencies && latencies[w.id].reachable
  }

  /** The least reachable round-trip time among the region's workers, or u64::MAX. */
  function RegionRtt(workers: seq<WorkerEndpoint>, latencies: map<Name, Measurement>, region: Name): (r: nat)
    ensures forall i :: 0 <= i < |workers| && workers[i].region == region && workers[i].id in latencies ==>
              latencies[workers[i].id].reachable ==> r <= latencies[workers[i].id].rttMs
    ensures r == U64_MAX
            || exists i :: 0 <= i < |workers| && workers[i].region == region && workers[i].id in latencies
                 && latencies[workers[i].id].reachable && r == latencies[workers[i].id].rttMs
  {
    if workers == [] then U64_MAX
    else
      var rest := RegionRtt(workers[1..], latencies, region);
      if Reached(latencies, workers[0], region) then Min(latencies[workers[0].id].rttMs, rest) else rest
  }

  function RttKey(workers: seq<WorkerEndpoint>, latencies: map<Name, Measurement>): Name -> int {
    region => RegionRtt(workers, latencies, region)
  }

  predicate NoDuplicates<T(==)>(s: seq<T>) {
    forall i, j :: 0 <= i < j < |s| ==> s[i] != s[j]
  }

  function SetOf<T>(s: seq<T>): set<T> {
    set x | x in s
  }

  /** The `maxRegions` fastest regions, fastest first. */
  ghost predicate FastestRegions(workers: seq<WorkerEndpoint>, latencies: map<Name, Measurement>, maxRegions: nat,
                                 regions: seq<Name>) {
    && NoDuplicates(regions)
    && |regions| == Min(maxRegions, |RegionSet(workers)|)
    && SetOf(regions) <= RegionSet(workers)
    && (forall i, j :: 0 <= i < j < |regions| ==>
          RegionRtt(workers, latencies, regions[i]) <= RegionRtt(workers, latencies, regions[j]))
    && (forall out, r :: out in RegionSet(workers) && out !in regions && r in regions ==>
          RegionRtt(workers, latencies, r) <= RegionRtt(workers, latencies, out))
  }

  /** The regions sent to: the set iterates in an arbitrary order, is sorted by latency and cut. */
  method GetBroadcastRegions(workers: seq<WorkerEndpoint>, latencies: map<Name, Measurement>, maxRegions: nat)
    returns (regions: seq<Name>)
    ensures FastestRegions(workers, latencies, maxRegions, regions)
  {
    hide RegionRtt, SortBy, RegionSet, SetOf, NoDuplicates, Ascending;
    var all := CollectRegions(workers);
    var key := RttKey(workers, latencies);
    SortIsTopK(all, key, maxRegions);
    var sorted := SortBy(all, key);
    regions := if maxRegions < |sorted| then sorted[..maxRegions] else sorted;
    forall out, r | out in RegionSet(workers) && out !in regions && r in regions
      ensures RegionRtt(workers, latencies, r) <= RegionRtt(workers, latencies, out)
    {
      assert key(r) <= key(out);
    }
    AscendingMeans(regions, key);
    forall i, j | 0 <= i < j < |regions|
      ensures RegionRtt(workers, latencies, regions[i]) <= RegionRtt(workers, latencies, regions[j])
    {
      assert key(regions[i]) <= key(regions[j]);
    }
  }

  lemma AscendingMeans<T>(s: seq<T>, key: T -> int)
    requires Ascending(s, key)
    ensures forall i, j :: 0 <= i < j < |s| ==> key(s[i]) <= key(s[j])
  {
  }

  /** The iteration order of the hash set is arbitrary. */
  method CollectRegions(workers: seq<WorkerEndpoint>) returns (all: seq<Name>)
    ensures NoDuplicates(all) && SetOf(all) == RegionSet(workers) && |all| == |RegionSet(workers)|
    ensures forall x :: x in RegionSet(workers) ==> x in all
  {
    hide RegionSet;
    var pending := RegionSet(workers);
    all := [];
    while pending != {}
      invariant SetOf(all) + pending == RegionSet(workers) && SetOf(all) !! pending
      invariant NoDuplicates(all) && |all| + |pending| == |RegionSet(workers)|
      decreases |pending|
    {
      var r :| r in pending;
      assert SetOf(all + [r]) == SetOf(all) + {r};
      assert r !in all by { assert r !in SetOf(all); }
      pending, all := pending - {r}, all + [r];
    }
    forall x | x in RegionSet(workers) ensures x in all { assert x in SetOf(all); }
  }

  /** Sorting and truncating keeps the least keys. */
  lemma SortIsTopK<T>(all: seq<T>, key: T -> int, k: nat)
    requires NoDuplicates(all)
    ensures var sorted := SortBy(all, key);
            var kept := if k < |sorted| then sorted[..k] else sorted;
            && NoDuplicates(kept) && |kept| == Min(k, |all|) && SetOf(kept) <= SetOf(all) && Ascending(kept, key)
            && forall out, r :: out in all && out !in kept && r in kept ==> key(r) <= key(out)
  {
    hide SortBy;
    SortedPermutation(all, key);
    var sorted := SortBy(all, key);
    PermutationKeepsElements(all, sorted);
    var kept := if k < |sorted| then sorted[..k] else sorted;
    forall out, r | out in all && out !in kept && r in kept ensures key(r) <= key(out) {
      assert out in SetOf(all);
      var i :| 0 <= i < |kept| && kept[i] == r;
      var j :| 0 <= j < |sorted| && sorted[j] == out;
      assert forall m :: 0 <= m < |kept| ==> kept[m] == sorted[m] && kept[m] != out;
    }
    forall x | x in SetOf(kept) ensures x in SetOf(all) { assert x in sorted; }
  }

  lemma PermutationKeepsElements<T>(s: seq<T>, t: seq<T>)
    requires multiset(s) == multiset(t)
    ensures SetOf(s) == SetOf(t)
    ensures NoDuplicates(s) ==> NoDuplicates(t)
  {
    forall x ensures x in s <==> x in t { assert x in multiset(s) <==> x in multiset(t); }
    if NoDuplicates(s) && !NoDuplicates(t) {
      var i, j :| 0 <= i < j < |t| && t[i] == t[j];
      OccursTwice(t, i, j);
      OccursOnce(s, t[i]);
    }
  }

  lemma OccursTwice<T>(t: seq<T>, i: nat, j: nat)
    requires i < j < |t| && t[i] == t[j]
    ensures multiset(t)[t[i]] >= 2
  {
    assert t == t[..j] + t[j..];
    assert t[..j][i] == t[i] && t[j..][0] == t[j];
    assert t[i] in multiset(t[..j]) && t[i] in multiset(t[j..]);
  }

  lemma {:induction false} OccursOnce<T>(s: seq<T>, x: T)
    requires NoDuplicates(s)
    ensures multiset(s)[x] <= 1
  {
    if s != [] {
      OccursOnce(s[1..], x);
      assert s == [s[0]] + s[1..];
      if s[0] == x { assert x !in s[1..]; }
    }
  }

  // ------------------------------------------------------------------ broadcast

  /** How one spawned job ends. */
  datatype Job = Finished(answer: Answer) | Panicked

  /** The workers with their cached pings, the regions with a live client, and what the job for
      each region would end with. */
  datatype Fleet = Fleet(
    workers: seq<WorkerEndpoint>,
    latencies: map<Name, Measurement>,
    maxRegions: nat,
    connected: set<Name>,
    jobs: Name -> Job)

  predicate Delivers(f: Fleet, region: Name) {
    region in f.connected && f.jobs(region).Finished? && f.jobs(region).answer.Ok?
  }

  /** Success is the earliest Ok in region order (whichever job finishes first); failure is that
      of all regions. */
  ghost predicate EndsOver(f: Fleet, regions: seq<Name>, r: Answer) {
    if regions == [] then r == Err(SdkError.Config)
    else if r.Ok? then exists i: nat :: EarliestOk(f, regions, r, i)
    else r == Err(Transaction) && forall i :: 0 <= i < |regions| ==> !Delivers(f, regions[i])
  }

  ghost predicate EarliestOk(f: Fleet, regions: seq<Name>, r: Answer, i: nat) {
    i < |regions| && Delivers(f, regions[i]) && r == f.jobs(regions[i]).answer
    && forall k :: 0 <= k < i ==> !Delivers(f, regions[k])
  }

  ghost predicate BroadcastEnds(f: Fleet, r: Answer) {
    exists regions :: FastestRegions(f.workers, f.latencies, f.maxRegions, regions) && EndsOver(f, regions, r)
  }

  method BroadcastTransaction(f: Fleet) returns (r: Answer)
    ensures BroadcastEnds(f, r)
  {
    hide FastestRegions;
    var regions := GetBroadcastRegions(f.workers, f.latencies, f.maxRegions);
    if |regions| == 0 {
      r := Err(SdkError.Config);
      assert EndsOver(f, regions, r);
      return;
    }
    var handles: seq<Job> := [];
    for i := 0 to |regions|
      invariant |handles| == i
      invariant forall k :: 0 <= k < i ==>
        handles[k] == if regions[k] in f.connected then f.jobs(regions[k]) else Finished(Err(Connection))
    {
      handles := handles + [if regions[i] in f.connected then f.jobs(regions[i]) else Finished(Err(Connection))];
    }
    for i := 0 to |handles|
      invariant forall k :: 0 <= k < i ==> !Delivers(f, regions[k])
    {
      if handles[i].Finished? && handles[i].answer.Ok? {
        r := handles[i].answer;
        assert EarliestOk(f, regions, r, i);
        assert EndsOver(f, regions, r);
        return;
      }
    }
    r := Err(Transaction);
    assert EndsOver(f, regions, r);
  }

  /** The region answered the broadcast: it has a client, and its job ended with Ok. */
  predicate Answered(f: Fleet, region: Name) {
    region in f.connected && match f.jobs(region) case Finished(Ok(_)) => true case _ => false
  }

  /** A broadcast succeeds iff one of the fastest regions answers, with the answer of the fastest of
      these; without regions it is a configuration error, and otherwise a transaction error. */
  lemma BroadcastOutcome(f: Fleet, r: Answer) returns (regions: seq<Name>)
    requires BroadcastEnds(f, r)
    ensures FastestRegions(f.workers, f.latencies, f.maxRegions, regions)
    ensures r.Ok? <==> exists i :: 0 <= i < |regions| && Answered(f, regions[i])
    ensures r.Ok? ==> exists i :: 0 <= i < |regions| && f.jobs(regions[i]) == Finished(r) && Answered(f, regions[i])
                                  && forall k :: 0 <= k < i ==> !Answered(f, regions[k])
    ensures r.Err? ==> r.error == if f.workers == [] || f.maxRegions == 0 then SdkError.Config else Transaction
  {
    hide RegionRtt;
    regions :| FastestRegions(f.workers, f.latencies, f.maxRegions, regions) && EndsOver(f, regions, r);
    assert f.workers != [] ==> f.workers[0].region in RegionSet(f.workers);
    assert f.workers == [] ==> RegionSet(f.workers) == {};
    if r.Ok? {
      var i: nat :| EarliestOk(f, regions, r, i);
      assert Answered(f, regions[i]);
    }
  }

  /** So a broadcast can succeed only in a region that already has a client: unlike the other
      strategies it opens no connection. */
  lemma BroadcastNeedsAConnectedRegion(f: Fleet, r: Answer)
    requires BroadcastEnds(f, r) && r.Ok?
    ensures exists region :: region in RegionSet(f.workers) && region in f.connected && f.jobs(region) == Finished(r)
  {
    hide RegionSet, RegionRtt;
    var regions :| FastestRegions(f.workers, f.latencies, f.maxRegions, regions) && EndsOver(f, regions, r);
    var i: nat :| EarliestOk(f, regions, r, i);
    assert regions[i] in SetOf(regions);
  }

  // ------------------------------------------------------------------ strategies

  /** One submission to one region, after sleeping `delayMs`. */
  datatype Try = Try(region: Name, delayMs: nat)

  /** `100 * (1 << attempt)` in u64: a release build masks the shift and wraps the product. */
  function RetryDelay(attempt: nat): nat {
    100 * Pow2(attempt % 64) % U64_MODULUS
  }

  function Retries(region: Name, first: nat, last: nat): (s: seq<Try>)
    requires first <= last + 1
    ensures |s| == last + 1 - first
    ensures forall i :: 0 <= i < |s| ==> s[i] == Try(region, RetryDelay(first + i))
    decreases last + 1 - first
  {
    if first > last then [] else [Try(region, RetryDelay(first))] + Retries(region, first + 1, last)
  }

  /** All attempts a strategy is prepared to make, if none succeeds. */
  function Plan(strategy: FallbackStrategy, best: Name, fallbacks: seq<Name>, maxRetries: nat): seq<Try> {
    [Try(best, 0)] +
    match strategy
    case Sequential => seq(|fallbacks|, i requires 0 <= i < |fallbacks| => Try(fallbacks[i], 0))
    case Retry => Retries(best, 1, maxRetries)
    case _ => []
  }

  predicate AllFail(oracle: nat -> Answer, n: nat) {
    forall k :: 0 <= k < n ==> oracle(k).Err?
  }

  /** The plan is followed up to the first success, or to its end. */
  predicate FollowsPlan(plan: seq<Try>, oracle: nat -> Answer, trace: seq<Try>) {
    && 1 <= |trace| <= |plan| && trace == plan[..|trace|] && AllFail(oracle, |trace| - 1)
    && (oracle(|trace| - 1).Err? ==> trace == plan)
  }

  /** `oracle(k)` is what the k-th submission of this call returns. */
  method SubmitTransaction(route: Option<Recommendation>, broadcastMode: bool,
                           maxRetries: nat, oracle: nat -> Answer, fleet: Fleet)
    returns (r: Answer, trace: seq<Try>)
    ensures var best := if route.Some? then route.value.bestRegion else DefaultRegion(fleet.workers);
            var strategy := if route.Some? then route.value.fallbackStrategy else Sequential;
            var plan := Plan(strategy, best, if route.Some? then route.value.fallbackRegions else [], maxRetries);
            if broadcastMode then trace == [] && BroadcastEnds(fleet, r)
            else
              && |trace| > 0 && trace[0] == Try(best, 0)
              && FollowsPlan(plan, oracle, trace)
              && (oracle(|trace| - 1).Ok? ==> r == oracle(|trace| - 1))
              && (oracle(|trace| - 1).Err? ==>
                    if strategy.Broadcast? then BroadcastEnds(fleet, r) else r == Err(Transaction))
  {
    hide Plan, RetryDelay, DefaultRegion, BroadcastEnds;
    trace := [];
    if broadcastMode {
      r := BroadcastTransaction(fleet);
      return;
    }
    var best := if route.Some? then route.value.bestRegion else DefaultRegion(fleet.workers);
    var strategy := if route.Some? then route.value.fallbackStrategy else Sequential;
    var fallbacks: seq<Name> := if route.Some? then route.value.fallbackRegions else [];
    ghost var plan := Plan(strategy, best, fallbacks, maxRetries);
    PlanShape(strategy, best, fallbacks, maxRetries);

    trace := [Try(best, 0)];
    if oracle(0).Ok? { return oracle(0), trace; }
    match strategy {
      case Sequential =>
        for i := 0 to |fallbacks|
          invariant trace == plan[..i + 1] && AllFail(oracle, i + 1)
        {
          trace := trace + [Try(fallbacks[i], 0)];
          assert plan[i + 1] == Try(fallbacks[i], 0);
          if oracle(i + 1).Ok? { return oracle(i + 1), trace; }
        }
      case Broadcast =>
        r := BroadcastTransaction(fleet);
        return;
      case Retry =>
        for attempt := 1 to maxRetries + 1
          invariant trace == plan[..attempt] && AllFail(oracle, attempt)
        {
          trace := trace + [Try(best, RetryDelay(attempt))];
          assert plan[attempt] == Try(best, RetryDelay(attempt));
          if oracle(attempt).Ok? { return oracle(attempt), trace; }
        }
      case NoFallback =>
    }
    r := Err(Transaction);
  }

  lemma PlanShape(strategy: FallbackStrategy, best: Name, fallbacks: seq<Name>, maxRetries: nat)
    ensures var plan := Plan(strategy, best, fallbacks, maxRetries);
            && |plan| == 1 + (if strategy.Sequential? then |fallbacks| else if strategy.Retry? then maxRetries else 0)
            && plan[0] == Try(best, 0)
            && (strategy.Sequential? ==> forall i :: 1 <= i < |plan| ==> plan[i] == Try(fallbacks[i - 1], 0))
            && (strategy.Retry? ==> forall i :: 1 <= i < |plan| ==> plan[i] == Try(best, RetryDelay(i)))
  {
    hide RetryDelay;
    var first, plan := [Try(best, 0)], Plan(strategy, best, fallbacks, maxRetries);
    if strategy.Retry? {
      var more := Retries(best, 1, maxRetries);
      assert plan == first + more;
      assert forall i :: 1 <= i < |plan| ==> plan[i] == more[i - 1];
    }
  }

  function DefaultRegion(workers: seq<WorkerEndpoint>): Name {
    if workers != [] then workers[0].region else Ascii("unknown")
  }

  // ------------------------------------------------------------------ what the strategies promise

  /** Without a route the first attempt goes to the region of the first worker. */
  lemma DefaultIsFirstWorker(workers: seq<WorkerEndpoint>)
    ensures workers != [] ==> DefaultRegion(workers) == workers[0].region
    ensures workers == [] ==> DefaultRegion(workers) == Ascii("unknown")
  {
  }

  /** A trace that follows a plan goes to these regions, with these delays. */
  lemma TraceIsAsPlanned(strategy: FallbackStrategy, best: Name, fallbacks: seq<Name>, maxRetries: nat,
                         oracle: nat -> Answer, trace: seq<Try>)
    requires FollowsPlan(Plan(strategy, best, fallbacks, maxRetries), oracle, trace)
    ensures trace[0] == Try(best, 0)
    ensures strategy.Sequential? ==>
              |trace| <= 1 + |fallbacks| && forall k :: 1 <= k < |trace| ==> trace[k] == Try(fallbacks[k - 1], 0)
    ensures strategy.Retry? ==>
              && |trace| <= 1 + maxRetries
              && forall k :: 1 <= k < |trace| && k <= 57 ==> trace[k] == Try(best, 100 * Pow2(k))
    ensures !strategy.Sequential? && !strategy.Retry? ==> |trace| == 1
    ensures forall k :: 0 <= k < |trace| - 1 ==> oracle(k).Err?
  {
    hide Pow2, RetryDelay;
    PlanShape(strategy, best, fallbacks, maxRetries);
    forall k | 1 <= k < |trace| && k <= 57 ensures RetryDelay(k) == 100 * Pow2(k) { RetryDelayExact(k); }
  }

  /** From the 58th retry on the delay wraps as u64 does, and from the 64th the shift starts over. */
  lemma RetryDelayWraps(k: nat)
    ensures k < 64 ==> RetryDelay(k) == 100 * Pow2(k) % U64_MODULUS
    ensures RetryDelay(k + 64) == RetryDelay(k)
  {
    assert (k + 64) % 64 == k % 64;
  }

  lemma {:induction false} Pow2Grows(m: nat, n: nat)
    requires m <= n
    ensures Pow2(m) <= Pow2(n)
  {
    if m < n { Pow2Grows(m, n - 1); }
  }

  lemma {:induction false} Pow2Adds(m: nat, n: nat)
    ensures Pow2(m + n) == Pow2(m) * Pow2(n)
  {
    if n > 0 {
      Pow2Adds(m, n - 1);
      assert Pow2(m + n) == 2 * Pow2(m + (n - 1));
      assert Pow2(m) * (2 * Pow2(n - 1)) == 2 * (Pow2(m) * Pow2(n - 1));
    }
  }

  lemma Pow2Of57()
    ensures Pow2(57) == 144_115_188_075_855_872 && Pow2(58) == 2 * Pow2(57)
  {
    hide Pow2;
    SmallPowers();
    Pow2Adds(8, 8); Pow2Adds(16, 16); Pow2Adds(32, 16); Pow2Adds(48, 8); Pow2Adds(56, 1); Pow2Adds(57, 1);
  }

  lemma SmallPowers()
    ensures Pow2(1) == 2 && Pow2(8) == 256
  {
    assert Pow2(4) == 16;
  }

  /** The backoff before retry k is 100 * 2^k ms exactly for k <= 57. */
  lemma RetryDelayExact(k: nat)
    ensures RetryDelay(k) == 100 * Pow2(k) <==> k <= 57
  {
    hide Pow2;
    Pow2Of57();
    if k <= 57 {
      Pow2Grows(k, 57);
      assert k % 64 == k && 100 * Pow2(k) < U64_MODULUS;
    } else {
      Pow2Grows(58, k);
      assert RetryDelay(k) < U64_MODULUS < 100 * Pow2(k);
    }
  }

  function SumDelays(s: seq<Try>): nat {
    if s == [] then 0 else SumDelays(s[..|s| - 1]) + s[|s| - 1].delayMs
  }

  /** Retry makes at most 1 + max_retries attempts, all on one region, and by the k-th retry it
      has slept 100 * (2^(k+1) - 2) ms. */
  lemma {:induction false} RetryBudget(best: Name, fallbacks: seq<Name>, maxRetries: nat, k: nat)
    requires k <= maxRetries && k <= 57
    ensures |Plan(Retry, best, fallbacks, maxRetries)| == 1 + maxRetries
    ensures forall t :: t in Plan(Retry, best, fallbacks, maxRetries) ==> t.region == best
    ensures SumDelays(Plan(Retry, best, fallbacks, maxRetries)[..k + 1]) == 100 * (Pow2(k + 1) - 2)
  {
    var plan := Plan(Retry, best, fallbacks, maxRetries);
    if k == 0 {
      assert plan[..1] == [Try(best, 0)] && Pow2(1) == 2;
    } else {
      RetryBudget(best, fallbacks, maxRetries, k - 1);
      RetryDelayExact(k);
      assert plan[..k + 1][..k] == plan[..k] && plan[k] == Try(best, RetryDelay(k));
    }
  }

  /** Over every hint run the installed strategy is Sequential, so a routed submission tries the
      best region and then the hint's backups, and never retries or fans out on its own. */
  lemma RoutedSubmissionsAreSequential(cfg: Router.Config, hints: seq<Router.Arrival>, maxRetries: nat)
    requires Router.Run(cfg, Router.NO_ROUTE, hints).current.Some?
    ensures var route := Router.Run(cfg, Router.NO_ROUTE, hints).current.value;
            Plan(route.fallbackStrategy, route.bestRegion, route.fallbackRegions, maxRetries) ==
            Plan(Sequential, route.bestRegion, route.fallbackRegions, 0)
  {
    Router.RouteInvariant(cfg, hints);
  }
}

/** Worker selection (src/connection/selector.rs): an argmin over a cache of measurements that
    expire, and the cascade of regions for a leader hint. */
module WorkerSelection {
  import opened Prelude
  import opened Types

  /** One pass over the workers reads the clock once for each of them. */
  type Clock = nat -> int

  predicate IsFresh(m: Measurement, ttl: int, now: int) {
    now - m.measuredAt < ttl
  }

  /** The i-th worker has a fresh reachable measurement at its clock reading. */
  predicate Usable(workers: seq<WorkerEndpoint>, latencies: map<Name, Measurement>, ttl: int, clock: Clock, i: nat)
    requires i < |workers|
  {
    workers[i].id in latencies && latencies[workers[i].id].reachable && IsFresh(latencies[workers[i].id], ttl, clock(i))
  }

  function Rtt(workers: seq<WorkerEndpoint>, latencies: map<Name, Measurement>, i: nat): nat
    requires i < |workers| && workers[i].id in latencies
  {
    latencies[workers[i].id].rttMs
  }

  /** `i` is the first usable worker of least round-trip time. */
  ghost predicate FirstBest(workers: seq<WorkerEndpoint>, latencies: map<Name, Measurement>, ttl: int, clock: Clock,
                            i: nat) {
    && i < |workers| && Usable(workers, latencies, ttl, clock, i)
    && (forall k :: 0 <= k < |workers| && Usable(workers, latencies, ttl, clock, k) ==>
          Rtt(workers, latencies, i) <= Rtt(workers, latencies, k))
    && (forall k :: 0 <= k < i && Usable(workers, latencies, ttl, clock, k) ==>
          Rtt(workers, latencies, i) < Rtt(workers, latencies, k))
  }

  /** The selection among `workers` (never empty): the first best, or the first worker when no
      measurement is usable. */
  ghost predicate Selected(workers: seq<WorkerEndpoint>, latencies: map<Name, Measurement>, ttl: int, clock: Clock,
                           w: WorkerEndpoint) {
    if exists i :: 0 <= i < |workers| && Usable(workers, latencies, ttl, clock, i) then
      exists i: nat :: FirstBest(workers, latencies, ttl, clock, i) && w == workers[i]
    else workers != [] && w == workers[0]
  }

  /** The usable winner is unique, so a selection is a function of cache and clock. */
  lemma SelectionIsUnique(workers: seq<WorkerEndpoint>, latencies: map<Name, Measurement>, ttl: int, clock: Clock,
                          w: WorkerEndpoint, w': WorkerEndpoint)
    requires Selected(workers, latencies, ttl, clock, w) && Selected(workers, latencies, ttl, clock, w')
    ensures w == w' && w in workers
  {
    if exists i :: 0 <= i < |workers| && Usable(workers, latencies, ttl, clock, i) {
      var i: nat :| FirstBest(workers, latencies, ttl, clock, i) && w == workers[i];
      var j: nat :| FirstBest(workers, latencies, ttl, clock, j) && w' == workers[j];
      assert i == j;
    }
  }

  /** A ping; a worker without an HTTP endpoint counts as unreachable without one. */
  function Ping(w: WorkerEndpoint, answer: Measurement): Measurement {
    if w.http.None? then Measurement(U64_MAX, answer.measuredAt, false) else answer
  }

  /** `after` is `before` with one ping result stored for every pinged id. */
  ghost predicate Measured(before: map<Name, Measurement>, after: map<Name, Measurement>, pinged: seq<WorkerEndpoint>,
                           pings: nat -> Measurement) {
    && (forall k :: k in after <==> k in before || exists i :: 0 <= i < |pinged| && pinged[i].id == k)
    && (forall k :: k in after ==>
          || (k in before && after[k] == before[k] && forall i :: 0 <= i < |pinged| ==> pinged[i].id != k)
          || exists i :: 0 <= i < |pinged| && pinged[i].id == k && after[k] == Ping(pinged[i], pings(i)))
  }

  function Below(n: nat): (s: set<nat>)
    ensures forall i :: i in s <==> 0 <= i < n
  {
    if n == 0 then {} else Below(n - 1) + {n - 1}
  }

  predicate Staffed(workers: seq<WorkerEndpoint>, region: Name) {
    exists i :: 0 <= i < |workers| && workers[i].region == region
  }

  function InRegion(workers: seq<WorkerEndpoint>, region: Name): (ws: seq<WorkerEndpoint>)
    ensures forall w :: w in ws <==> w in workers && w.region == region
  {
    if workers == [] then []
    else (if workers[0].region == region then [workers[0]] else []) + InRegion(workers[1..], region)
  }

  // ------------------------------------------------------------------ the cascade

  ghost predicate IsNearest(rtts: map<Name, nat>, region: Name) {
    region in rtts && forall r :: r in rtts ==> rtts[region] <= rtts[r]
  }

  /** The first staffed region among the preferred one and the backups. */
  function HintedRegion(hint: LeaderHint, workers: seq<WorkerEndpoint>): Option<Name> {
    FirstStaffed([hint.preferredRegion] + hint.backupRegions, workers)
  }

  function FirstStaffed(regions: seq<Name>, workers: seq<WorkerEndpoint>): Option<Name> {
    if regions == [] then None
    else if Staffed(workers, regions[0]) then Some(regions[0])
    else FirstStaffed(regions[1..], workers)
  }

  /** The region chosen for a leader: the one nearest to it by the hint's round-trip times (any of
      them on a tie) if it is staffed, or else the hinted one; None means any region. */
  ghost predicate LeaderRegion(hint: LeaderHint, workers: seq<WorkerEndpoint>, pick: Option<Name>) {
    if hint.regionRttMs.Some? && hint.regionRttMs.value != map[] then
      exists nearest ::
        IsNearest(hint.regionRttMs.value, nearest)
        && pick == if Staffed(workers, nearest) then Some(nearest) else HintedRegion(hint, workers)
    else pick == HintedRegion(hint, workers)
  }

  lemma {:induction false} FirstStaffedIsFirst(regions: seq<Name>, workers: seq<WorkerEndpoint>)
    ensures match FirstStaffed(regions, workers)
            case None => forall r :: r in regions ==> !Staffed(workers, r)
            case Some(r) =>
              Staffed(workers, r)
              && exists i :: 0 <= i < |regions| && regions[i] == r
                   && forall k :: 0 <= k < i ==> !Staffed(workers, regions[k])
  {
    if regions != [] && !Staffed(workers, regions[0]) {
      FirstStaffedIsFirst(regions[1..], workers);
      match FirstStaffed(regions[1..], workers) {
        case None =>
        case Some(r) =>
          var i :| 0 <= i < |regions[1..]| && regions[1..][i] == r
            && forall k :: 0 <= k < i ==> !Staffed(workers, regions[1..][k]);
          assert regions[i + 1] == r;
          forall k | 0 <= k < i + 1 ensures !Staffed(workers, regions[k]) {
            if k > 0 { assert regions[k] == regions[1..][k - 1]; }
          }
      }
    }
  }

  /** The cascade ends in "any region" only when none of the regions it looks at is staffed, and
      otherwise in a staffed one. */
  lemma LeaderRegionIsStaffed(hint: LeaderHint, workers: seq<WorkerEndpoint>, pick: Option<Name>)
    requires LeaderRegion(hint, workers, pick)
    ensures match pick
            case Some(region) => InRegion(workers, region) != []
            case None =>
              && !Staffed(workers, hint.preferredRegion)
              && (forall r :: r in hint.backupRegions ==> !Staffed(workers, r))
              && (hint.regionRttMs.Some? && hint.regionRttMs.value != map[] ==>
                    exists r :: IsNearest(hint.regionRttMs.value, r) && !Staffed(workers, r))
  {
    var regions := [hint.preferredRegion] + hint.backupRegions;
    FirstStaffedIsFirst(regions, workers);
    assert forall r :: r in regions <==> r == hint.preferredRegion || r in hint.backupRegions;
    match pick {
      case Some(region) =>
        var i :| 0 <= i < |workers| && workers[i].region == region;
        assert workers[i] in InRegion(workers, region);
      case None =>
    }
  }

  // ------------------------------------------------------------------ the selector

  /** The clock readings and ping answers of one selection. */
  datatype Readings = Readings(check: Clock, pings: nat -> Measurement, select: Clock)

  /** Either a measurement was usable and the cache is untouched, or all candidates are pinged. */
  ghost predicate Refreshed(before: map<Name, Measurement>, after: map<Name, Measurement>,
                            candidates: seq<WorkerEndpoint>, ttl: int, rd: Readings) {
    if exists i :: 0 <= i < |candidates| && Usable(candidates, before, ttl, rd.check, i)
    then after == before
    else Measured(before, after, candidates, rd.pings)
  }

  /** The next selection from an emptied cache pings every candidate, and selects by these pings
      alone: a reachable candidate of least pinged time, or the first one when none can be used. */
  lemma SelectionAfterInvalidateAll(after: map<Name, Measurement>, candidates: seq<WorkerEndpoint>, ttl: int,
                                    rd: Readings, w: WorkerEndpoint)
    requires Refreshed(map[], after, candidates, ttl, rd) && Selected(candidates, after, ttl, rd.select, w)
    ensures forall k :: k in after <==> exists i :: 0 <= i < |candidates| && candidates[i].id == k
    ensures forall k :: k in after ==>
              exists i :: 0 <= i < |candidates| && candidates[i].id == k && after[k] == Ping(candidates[i], rd.pings(i))
    ensures if exists i :: 0 <= i < |candidates| && Usable(candidates, after, ttl, rd.select, i) then
              exists i :: 0 <= i < |candidates| && candidates[i].id == w.id
                && Ping(candidates[i], rd.pings(i)).reachable
                && forall k :: 0 <= k < |candidates| && Usable(candidates, after, ttl, rd.select, k) ==>
                     Ping(candidates[i], rd.pings(i)).rttMs <= Rtt(candidates, after, k)
            else w == candidates[0]
  {
    AllMeasuredAnew(after, candidates, ttl, rd);
    hide Refreshed;
    if exists i :: 0 <= i < |candidates| && Usable(candidates, after, ttl, rd.select, i) {
      var i: nat :| FirstBest(candidates, after, ttl, rd.select, i) && w == candidates[i];
      var j :| 0 <= j < |candidates| && candidates[j].id == w.id && after[w.id] == Ping(candidates[j], rd.pings(j));
    }
  }

  lemma AllMeasuredAnew(after: map<Name, Measurement>, candidates: seq<WorkerEndpoint>, ttl: int, rd: Readings)
    requires Refreshed(map[], after, candidates, ttl, rd)
    ensures forall k :: k in after <==> exists i :: 0 <= i < |candidates| && candidates[i].id == k
    ensures forall k :: k in after ==>
              exists i :: 0 <= i < |candidates| && candidates[i].id == k && after[k] == Ping(candidates[i], rd.pings(i))
  {
    assert forall i :: 0 <= i < |candidates| ==> !Usable(candidates, map[], ttl, rd.check, i);
    hide Ping, Usable;
  }

  predicate OtherUsable(latencies: map<Name, Measurement>, candidates: seq<WorkerEndpoint>, ttl: int, clock: Clock,
                        id: Name) {
    exists i :: 0 <= i < |candidates| && candidates[i].id != id && Usable(candidates, latencies, ttl, clock, i)
  }

  /** A worker whose measurement was forgotten is not selected while another one can be used; with
      nothing else usable the selection pings it again. */
  lemma SelectionAfterInvalidate(before: map<Name, Measurement>, after: map<Name, Measurement>,
                                 candidates: seq<WorkerEndpoint>, ttl: int, rd: Readings, id: Name, w: WorkerEndpoint)
    requires Refreshed(before - {id}, after, candidates, ttl, rd) && Selected(candidates, after, ttl, rd.select, w)
    ensures if OtherUsable(before, candidates, ttl, rd.check, id) then
              && after == before - {id}
              && (w.id == id ==> w == candidates[0]
                                 && forall i :: 0 <= i < |candidates| ==> !Usable(candidates, after, ttl, rd.select, i))
            else
              (exists i :: 0 <= i < |candidates| && candidates[i].id == id) ==>
                exists i :: 0 <= i < |candidates| && candidates[i].id == id
                  && id in after && after[id] == Ping(candidates[i], rd.pings(i))
  {
    var forgot := before - {id};
    forall i | 0 <= i < |candidates|
      ensures Usable(candidates, forgot, ttl, rd.check, i) <==>
              candidates[i].id != id && Usable(candidates, before, ttl, rd.check, i)
    {
    }
  }

  /** A measurement that is reachable and less than `ttl` old. */
  predicate Recent(latencies: map<Name, Measurement>, id: Name, ttl: int, now: int) {
    id in latencies && latencies[id].reachable && now - latencies[id].measuredAt < ttl
  }

  /** Old or unreachable measurements count for nothing: without a recent one all candidates are pinged,
      with one none is, and a selected worker other than the first candidate has a recent one. */
  lemma OldMeasurementsDoNotCount(before: map<Name, Measurement>, after: map<Name, Measurement>,
                                  candidates: seq<WorkerEndpoint>, ttl: int, rd: Readings, w: WorkerEndpoint)
    requires Refreshed(before, after, candidates, ttl, rd) && Selected(candidates, after, ttl, rd.select, w)
    ensures if forall i :: 0 <= i < |candidates| ==> !Recent(before, candidates[i].id, ttl, rd.check(i))
            then Measured(before, after, candidates, rd.pings) else after == before
    ensures candidates != [] && w != candidates[0] ==>
              exists i :: 0 <= i < |candidates| && candidates[i] == w && Recent(after, w.id, ttl, rd.select(i))
  {
    forall i | 0 <= i < |candidates|
      ensures Recent(before, candidates[i].id, ttl, rd.check(i)) == Usable(candidates, before, ttl, rd.check, i)
    {
    }
    hide Measured;
    if exists i :: 0 <= i < |candidates| && Usable(candidates, after, ttl, rd.select, i) {
      var i: nat :| FirstBest(candidates, after, ttl, rd.select, i) && w == candidates[i];
      assert Recent(after, w.id, ttl, rd.select(i));
    }
  }

  /** The candidates of a region are its workers in the order of the list. */
  lemma {:induction false} RegionKeepsOrder(workers: seq<WorkerEndpoint>, region: Name)
    ensures InRegion(workers, region) == Filter((w: WorkerEndpoint) => w.region == region, workers)
  {
    hide Filter;
    var p := (w: WorkerEndpoint) => w.region == region;
    FilterNil(p);
    if workers != [] {
      RegionKeepsOrder(workers[1..], region);
      assert workers == [workers[0]] + workers[1..] && [] + [workers[0]] == [workers[0]];
      FilterConcat(p, [workers[0]], workers[1..]);
      FilterSnoc(p, [], workers[0]);
    }
  }

  /** So the regional fallback is the first worker of the region. */
  lemma {:induction false} RegionalFallbackIsFirst(workers: seq<WorkerEndpoint>, region: Name)
    requires InRegion(workers, region) != []
    ensures exists i :: 0 <= i < |workers| && workers[i] == InRegion(workers, region)[0]
                        && workers[i].region == region && forall k :: 0 <= k < i ==> workers[k].region != region
  {
    if workers[0].region != region {
      var rest := workers[1..];
      RegionalFallbackIsFirst(rest, region);
      var i :| 0 <= i < |rest| && rest[i] == InRegion(rest, region)[0]
        && rest[i].region == region && forall k :: 0 <= k < i ==> rest[k].region != region;
      assert workers[i + 1] == rest[i];
      forall k | 0 <= k < i + 1 ensures workers[k].region != region {
        if k > 0 { assert workers[k] == rest[k - 1]; }
      }
    }
  }

  /** A pinged worker without an HTTP endpoint counts as unreachable, and one with it as it answers. */
  lemma PingsAreStored(before: map<Name, Measurement>, after: map<Name, Measurement>, pinged: seq<WorkerEndpoint>,
                       pings: nat -> Measurement, i: nat)
    requires Measured(before, after, pinged, pings) && i < |pinged|
    requires forall k :: 0 <= k < |pinged| && pinged[k].id == pinged[i].id ==> k == i
    ensures pinged[i].id in after
    ensures pinged[i].http.None? ==> !after[pinged[i].id].reachable
    ensures pinged[i].http.Some? ==> after[pinged[i].id] == pings(i)
  {
  }

  class WorkerSelector {
    const workers: seq<WorkerEndpoint>
    const ttl: int
    var latencies: map<Name, Measurement>

    constructor (workers: seq<WorkerEndpoint>, ttl: int)
      ensures this.workers == workers && this.ttl == ttl && latencies == map[]
    {
      this.workers, this.ttl := workers, ttl;
      latencies := map[];
    }

    method Invalidate(id: Name)
      modifies this
      ensures latencies == old(latencies) - {id}
    {
      latencies := latencies - {id};
    }

    method InvalidateAll()
      modifies this
      ensures latencies == map[]
    {
      latencies := map[];
    }

    /** The pings run in parallel and store their results in whatever order they finish. */
    method MeasureWorkers(pinged: seq<WorkerEndpoint>, pings: nat -> Measurement)
      modifies this
      ensures Measured(old(latencies), latencies, pinged, pings)
    {
      var running := Below(|pinged|);
      while running != {}
        invariant forall i :: i in running ==> 0 <= i < |pinged|
        invariant forall k :: k in latencies <==>
          k in old(latencies) || exists i :: 0 <= i < |pinged| && i !in running && pinged[i].id == k
        invariant forall k :: k in latencies ==>
          || (k in old(latencies) && latencies[k] == old(latencies)[k]
              && forall i :: 0 <= i < |pinged| && i !in running ==> pinged[i].id != k)
          || exists i ::
               0 <= i < |pinged| && i !in running && pinged[i].id == k && latencies[k] == Ping(pinged[i], pings(i))
        decreases |running|
      {
        var i :| i in running;
        running := running - {i};
        latencies := latencies[pinged[i].id := Ping(pinged[i], pings(i))];
      }
    }

    /** The scan for a fresh reachable measurement. */
    method HaveFreshCache(candidates: seq<WorkerEndpoint>, clock: Clock) returns (fresh_: bool)
      ensures fresh_ <==> exists i :: 0 <= i < |candidates| && Usable(candidates, latencies, ttl, clock, i)
    {
      for i := 0 to |candidates|
        invariant forall k :: 0 <= k < i ==> !Usable(candidates, latencies, ttl, clock, k)
      {
        if Usable(candidates, latencies, ttl, clock, i) { return true; }
      }
      return false;
    }

    /** The loop that keeps the best so far. */
    method LowestLatency(candidates: seq<WorkerEndpoint>, clock: Clock) returns (best: Option<WorkerEndpoint>)
      ensures best.None? ==> forall i :: 0 <= i < |candidates| ==> !Usable(candidates, latencies, ttl, clock, i)
      ensures best.Some? ==>
                exists i: nat :: FirstBest(candidates, latencies, ttl, clock, i) && best.value == candidates[i]
    {
      var bestRtt := 0;
      ghost var at: nat := 0;
      best := None;
      for i := 0 to |candidates|
        invariant best.None? ==> forall k :: 0 <= k < i ==> !Usable(candidates, latencies, ttl, clock, k)
        invariant best.Some? ==>
            && at < i && Usable(candidates, latencies, ttl, clock, at) && best.value == candidates[at]
            && bestRtt == Rtt(candidates, latencies, at)
            && (forall k :: 0 <= k < i && Usable(candidates, latencies, ttl, clock, k) ==>
                 bestRtt <= Rtt(candidates, latencies, k))
            && (forall k :: 0 <= k < at && Usable(candidates, latencies, ttl, clock, k) ==>
                 bestRtt < Rtt(candidates, latencies, k))
      {
        var worker := candidates[i];
        if worker.id in latencies {
          var m := latencies[worker.id];
          if m.reachable && IsFresh(m, ttl, clock(i)) {
            if best.None? || m.rttMs < bestRtt {
              best, bestRtt, at := Some(worker), m.rttMs, i;
            }
          }
        }
      }
      if best.Some? { assert FirstBest(candidates, latencies, ttl, clock, at); }
    }

    method SelectBest(rd: Readings) returns (r: Result<WorkerEndpoint, SdkError>)
      modifies this
      ensures workers == [] ==> r == Err(SdkError.Config) && latencies == old(latencies)
      ensures workers != [] ==>
                && Refreshed(old(latencies), latencies, workers, ttl, rd) && r.Ok?
                && Selected(workers, latencies, ttl, rd.select, r.value)
    {
      if |workers| == 0 {
        return Err(SdkError.Config);
      }
      var have := HaveFreshCache(workers, rd.check);
      if !have {
        MeasureWorkers(workers, rd.pings);
      }
      var best := LowestLatency(workers, rd.select);
      match best {
        case Some(w) => r := Ok(w);
        case None => r := Ok(workers[0]);
      }
    }

    method SelectBestInRegion(region: Name, rd: Readings) returns (r: Result<WorkerEndpoint, SdkError>)
      modifies this
      ensures InRegion(workers, region) == [] ==> r == Err(SdkError.Config) && latencies == old(latencies)
      ensures InRegion(workers, region) != [] ==>
                && Refreshed(old(latencies), latencies, InRegion(workers, region), ttl, rd) && r.Ok?
                && Selected(InRegion(workers, region), latencies, ttl, rd.select, r.value)
    {
      var regional := InRegion(workers, region);
      if |regional| == 0 {
        return Err(SdkError.Config);
      }
      var have := HaveFreshCache(regional, rd.check);
      if !have {
        MeasureWorkers(regional, rd.pings);
      }
      var best := LowestLatency(regional, rd.select);
      match best {
        case Some(w) => r := Ok(w);
        case None => r := Ok(regional[0]);
      }
    }

    method SelectForLeader(hint: LeaderHint, rd: Readings)
      returns (r: Result<WorkerEndpoint, SdkError>, ghost pick: Option<Name>)
      modifies this
      ensures r.Ok? <==> workers != []
      ensures LeaderRegion(hint, workers, pick)
      ensures var candidates := if pick.Some? then InRegion(workers, pick.value) else workers;
              r.Ok? ==>
                && Refreshed(old(latencies), latencies, candidates, ttl, rd)
                && Selected(candidates, latencies, ttl, rd.select, r.value)
    {
      if hint.regionRttMs.Some? && hint.regionRttMs.value != map[] {
        var nearest := Nearest(hint.regionRttMs.value);
        if Staffed(workers, nearest) {
          pick := Some(nearest);
          LeaderRegionIsStaffed(hint, workers, pick);
          r := SelectBestInRegion(nearest, rd);
          return;
        }
      }
      pick := HintedRegion(hint, workers);
      assert LeaderRegion(hint, workers, pick);
      LeaderRegionIsStaffed(hint, workers, pick);
      assert ([hint.preferredRegion] + hint.backupRegions)[1..] == hint.backupRegions;
      if Staffed(workers, hint.preferredRegion) {
        r := SelectBestInRegion(hint.preferredRegion, rd);
        return;
      }
      var i := 0;
      while i < |hint.backupRegions|
        invariant i <= |hint.backupRegions| && latencies == old(latencies)
        invariant pick == FirstStaffed(hint.backupRegions[i..], workers)
      {
        assert hint.backupRegions[i..][1..] == hint.backupRegions[i + 1..];
        if Staffed(workers, hint.backupRegions[i]) {
          r := SelectBestInRegion(hint.backupRegions[i], rd);
          return;
        }
        i := i + 1;
      }
      r := SelectBest(rd);
    }
  }

  /** The least value of a hash map, by an iteration in arbitrary order. */
  method Nearest(rtts: map<Name, nat>) returns (region: Name)
    requires rtts != map[]
    ensures IsNearest(rtts, region)
  {
    region :| region in rtts;
    var pending := rtts.Keys - {region};
    while pending != {}
      invariant pending <= rtts.Keys && region in rtts
      invariant forall r :: r in rtts && r !in pending ==> rtts[region] <= rtts[r]
      decreases |pending|
    {
      var r :| r in pending;
      pending := pending - {r};
      if rtts[r] < rtts[region] {
        region := r;
      }
    }
  }
}

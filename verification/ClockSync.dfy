/** Clock synchronisation: the ping arithmetic of src/connection/quic.rs and the sliding
    window of src/client.rs. Clocks are unix milliseconds. */
module ClockSync {
  import opened Prelude
  import opened StableSort

  datatype PingResult = PingResult(seqNo: nat, rttMs: nat, offsetMs: int, serverTime: nat)

  /** `as i64` and the wrap of i64 arithmetic. */
  function AsI64(x: int): (r: int)
    ensures -I64_LIMIT <= r < I64_LIMIT
    ensures -I64_LIMIT <= x < I64_LIMIT ==> r == x
  {
    var m := x % U64_MODULUS;
    if m < I64_LIMIT then m else m - U64_MODULUS
  }

  /** Rust's `/ 2` on i64 truncates toward zero. */
  function Half(x: int): int {
    if x >= 0 then x / 2 else -(-x / 2)
  }

  function Pong(seqNo: nat, sent: nat, received: nat, serverTime: nat): PingResult {
    var rtt := Max(0, received - sent);
    PingResult(seqNo, rtt, AsI64(AsI64(serverTime) - AsI64(AsI64(sent) + Half(AsI64(rtt)))), serverTime)
  }

  /** The client keeps the last `maxSamples` results. */
  class TimeSyncState {
    var samples: seq<PingResult>
    const maxSamples: nat
    ghost var log: seq<PingResult>

    ghost predicate Valid()
      reads this
    {
      maxSamples > 0 && samples == Window(log, maxSamples)
    }

    constructor (maxSamples: nat)
      requires maxSamples > 0
      ensures Valid() && log == [] && this.maxSamples == maxSamples
    {
      this.maxSamples := maxSamples;
      samples, log := [], [];
    }

    method Record(result: PingResult)
      requires Valid()
      modifies this
      ensures Valid() && log == old(log) + [result]
      ensures samples == Window(old(log) + [result], maxSamples)
    {
      if |samples| >= maxSamples {
        samples := samples[1..];
      }
      samples := samples + [result];
      log := log + [result];
    }

    method MedianRtt() returns (m: Option<int>)
      requires Valid()
      ensures m == RttMedian(samples)
    {
      if |samples| == 0 { return None; }
      var rtts := seq(|samples|, i requires 0 <= i < |samples| reads this => samples[i].rttMs);
      assert rtts == Rtts(samples);
      SortedPermutation(rtts, x => x);
      MedianIsElement(rtts);
      rtts := SortBy(rtts, x => x);
      return Some(rtts[|rtts| / 2]);
    }

    method MedianOffset() returns (m: Option<int>)
      requires Valid()
      ensures m == OffsetMedian(samples)
    {
      if |samples| == 0 { return None; }
      var offsets := seq(|samples|, i requires 0 <= i < |samples| reads this => samples[i].offsetMs);
      assert offsets == Offsets(samples);
      SortedPermutation(offsets, x => x);
      offsets := SortBy(offsets, x => x);
      return Some(offsets[|offsets| / 2]);
    }
  }

  function Window<T>(log: seq<T>, n: nat): seq<T> {
    if |log| <= n then log else log[|log| - n..]
  }

  function Rtts(samples: seq<PingResult>): (r: seq<nat>)
    ensures |r| == |samples|
  {
    seq(|samples|, i requires 0 <= i < |samples| => samples[i].rttMs)
  }

  function Offsets(samples: seq<PingResult>): (r: seq<int>)
    ensures |r| == |samples|
  {
    seq(|samples|, i requires 0 <= i < |samples| => samples[i].offsetMs)
  }

  function OffsetMedian(samples: seq<PingResult>): Option<int> {
    if samples == [] then None else Some(Median(Offsets(samples)))
  }

  function RttMedian(samples: seq<PingResult>): Option<nat> {
    if samples == [] then None else MedianIsElement(Rtts(samples)); Some(Median(Rtts(samples)))
  }

  /** The client's estimates: one-way latency, and the server's clock. */
  function LatencyMs(samples: seq<PingResult>): Option<nat> {
    match RttMedian(samples) case None => None case Some(rtt) => Some(rtt / 2)
  }

  function ServerTime(now: nat, samples: seq<PingResult>): nat {
    var offset := match OffsetMedian(samples) case None => 0 case Some(m) => m;
    AsI64(AsI64(now) + offset) % U64_MODULUS
  }

  // ------------------------------------------------------------------ the error bound

  /** A sample taken within round-trip time `r` of a server whose clock is `theta` ahead of the
      client's, and which stamped the reply between sending and receiving. */
  ghost predicate Honest(p: PingResult, theta: int, r: nat) {
    exists sent: nat, stamped: nat, received: nat ::
      HonestExchange(p, theta, r, sent, stamped, received)
  }

  ghost predicate HonestExchange(p: PingResult, theta: int, r: nat, sent: nat, stamped: nat, received: nat) {
    && sent <= stamped <= received < I64_LIMIT && received - sent <= r
    && 0 <= stamped + theta < I64_LIMIT
    && p == Pong(p.seqNo, sent, received, stamped + theta)
  }

  ghost function CountHonest(samples: seq<PingResult>, theta: int, r: nat): nat {
    if samples == [] then 0
    else (if Honest(samples[0], theta, r) then 1 else 0) + CountHonest(samples[1..], theta, r)
  }

  function HalfUp(r: nat): nat {
    (r + 1) / 2
  }

  lemma HonestSampleError(p: PingResult, theta: int, r: nat)
    requires Honest(p, theta, r)
    ensures theta - HalfUp(r) <= p.offsetMs <= theta + HalfUp(r) && p.rttMs <= r
  {
    var sent: nat, stamped: nat, received: nat :| HonestExchange(p, theta, r, sent, stamped, received);
    var rtt := received - sent;
    assert AsI64(rtt) == rtt && AsI64(sent + rtt / 2) == sent + rtt / 2;
    assert p.offsetMs == stamped + theta - (sent + rtt / 2);
  }

  lemma {:induction false} HonestSamplesCluster(samples: seq<PingResult>, theta: int, r: nat)
    ensures CountHonest(samples, theta, r) <= CountIn(Offsets(samples), theta - HalfUp(r), theta + HalfUp(r))
    ensures CountHonest(samples, theta, r) <= CountIn(Rtts(samples), 0, r)
  {
    if samples != [] {
      HonestSamplesCluster(samples[1..], theta, r);
      assert Offsets(samples)[1..] == Offsets(samples[1..]) && Rtts(samples)[1..] == Rtts(samples[1..]);
      if Honest(samples[0], theta, r) { HonestSampleError(samples[0], theta, r); }
    }
  }

  /** Clock sync: with a strict majority of honest samples of round-trip time at most `r`, the
      median offset is within half of `r` (rounded up) of the true offset, whatever the other
      samples claim; and the reported latency is at most half of `r`. */
  lemma MedianOffsetErrorBound(samples: seq<PingResult>, theta: int, r: nat)
    requires 2 * CountHonest(samples, theta, r) > |samples|
    ensures OffsetMedian(samples).Some? && theta - HalfUp(r) <= OffsetMedian(samples).value <= theta + HalfUp(r)
    ensures LatencyMs(samples).Some? && LatencyMs(samples).value <= r / 2
  {
    HonestSamplesCluster(samples, theta, r);
    assert samples != [];
    MajorityBoundsMedian(Offsets(samples), theta - HalfUp(r), theta + HalfUp(r));
    MajorityBoundsMedian(Rtts(samples), 0, r);
  }

  /** So the server time the client reports is as good as the offset. */
  lemma ServerTimeErrorBound(now: nat, samples: seq<PingResult>, theta: int, r: nat)
    requires 2 * CountHonest(samples, theta, r) > |samples|
    requires now < I64_LIMIT && HalfUp(r) <= now + theta && now + theta + HalfUp(r) < I64_LIMIT
    ensures now + theta - HalfUp(r) <= ServerTime(now, samples) <= now + theta + HalfUp(r)
  {
    MedianOffsetErrorBound(samples, theta, r);
  }

  /** The bound is tight: one honest sample stamped at reception attains it. */
  lemma ErrorBoundIsAttained(theta: nat, r: nat)
    requires r + theta < I64_LIMIT
    ensures var p := Pong(0, 0, r, r + theta);
            Honest(p, theta, r) && OffsetMedian([p]) == Some(theta + HalfUp(r))
  {
    var p := Pong(0, 0, r, r + theta);
    assert HonestExchange(p, theta, r, 0, r, r);
    assert p.offsetMs == theta + HalfUp(r);
    MedianIsElement(Offsets([p]));
  }

  /** A strict majority is needed: when only half of the samples are honest, the other half can
      move the median by any distance. */
  lemma HalfIsNotEnough(error: nat)
    requires error > 0
    ensures exists samples :: 2 * CountHonest(samples, 0, 0) == |samples| && OffsetMedian(samples) == Some(error)
  {
    var honest, liar := Pong(0, 0, 0, 0), PingResult(1, 0, error, error);
    assert HonestExchange(honest, 0, 0, 0, 0, 0);
    assert !Honest(liar, 0, 0) by { if Honest(liar, 0, 0) { HonestSampleError(liar, 0, 0); } }
    var samples := [honest, liar];
    assert samples[1..] == [liar] && CountHonest([liar], 0, 0) == 0;
    assert 2 * CountHonest(samples, 0, 0) == |samples|;
    assert Offsets(samples) == [0, error];
    MedianOfTwo(0, error);
  }

  // ------------------------------------------------------------------ what is measured

  /** `as i64` keeps the 64 bits. */
  lemma AsI64KeepsBits(x: int)
    ensures (AsI64(x) - x) % U64_MODULUS == 0
  {
  }

  /** A ping measures the time between sending and receiving, never a negative one. */
  lemma PingMeasures(seqNo: nat, sent: nat, received: nat, serverTime: nat)
    ensures var p := Pong(seqNo, sent, received, serverTime);
            && p.seqNo == seqNo && p.serverTime == serverTime
            && (sent <= received ==> p.rttMs == received - sent) && (received <= sent ==> p.rttMs == 0)
            && (sent <= received < I64_LIMIT && serverTime < I64_LIMIT ==>
                  2 * (serverTime - p.offsetMs) <= sent + received <= 2 * (serverTime - p.offsetMs) + 1)
  {
    if sent <= received < I64_LIMIT && serverTime < I64_LIMIT {
      var rtt := received - sent;
      assert AsI64(rtt) == rtt && AsI64(sent + rtt / 2) == sent + rtt / 2;
    }
  }

  /** The latency is half of the median round trip, rounded down. */
  lemma LatencyIsHalfTheMedian(samples: seq<PingResult>)
    ensures LatencyMs(samples).Some? <==> samples != []
    ensures samples != [] ==>
              var rtt, latency := Median(Rtts(samples)), LatencyMs(samples).value; 2 * latency <= rtt <= 2 * latency + 1
  {
  }

  /** The server time is the local time plus the median offset, or the local time without samples. */
  lemma ServerTimeIsCorrected(now: nat, samples: seq<PingResult>)
    requires now < I64_LIMIT
    ensures samples == [] ==> ServerTime(now, samples) == now
    ensures samples != [] && 0 <= now + Median(Offsets(samples)) < I64_LIMIT ==>
              ServerTime(now, samples) == now + Median(Offsets(samples))
  {
  }

  /** The window holds the latest results of the log, in their order. */
  lemma WindowIsTheLatest<T>(log: seq<T>, n: nat)
    ensures |Window(log, n)| == if |log| <= n then |log| else n
    ensures forall i :: 0 <= i < |Window(log, n)| ==> Window(log, n)[i] == log[|log| - |Window(log, n)| + i]
  {
  }
}

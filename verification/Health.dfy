/** Reconnecting after an outage (src/connection/health.rs): jittered capped exponential backoff,
    the failure counter and resubscription; and what the monitor can notice at all. */
module Health {
  import opened Prelude
  import opened Types
  import opened FallbackChain
  import opened WorkerConnect
  import WsDemux
  import WsSharing

  // ------------------------------------------------------------------ backoff

  /** The delay before jitter: 2 s for the first failure, doubling up to the cap of 60 s. */
  function CappedDelay(attempt: nat): (ms: nat)
    ensures 1000 <= ms <= 60_000 && ms % 4 == 0
  {
    match Min(attempt, 6)
    case 0 => 1_000
    case 1 => 2_000
    case 2 => 4_000
    case 3 => 8_000
    case 4 => 16_000
    case 5 => 32_000
    case _ => 60_000
  }

  /** `draw` is the random u64. */
  function Backoff(attempt: nat, draw: nat): (ms: nat)
    ensures 3 * CappedDelay(attempt) <= 4 * ms < 5 * CappedDelay(attempt)
  {
    var exp := Min(attempt, 6);
    var baseMs := 1000 * Pow2(exp);
    var cappedMs := Min(baseMs, 60_000);
    Doublings();
    assert cappedMs == CappedDelay(attempt);
    var jitterRange := cappedMs / 4;
    var jitter := if jitterRange > 0 then draw % (jitterRange * 2) - jitterRange else 0;
    Max(cappedMs + jitter, 100)
  }

  lemma Doublings()
    ensures Pow2(0) == 1 && Pow2(1) == 2 && Pow2(2) == 4 && Pow2(3) == 8
    ensures Pow2(4) == 16 && Pow2(5) == 32 && Pow2(6) == 64
  {
    assert Pow2(3) == 8;
    assert Pow2(5) == 32;
  }

  /** Whatever is drawn, each of the first six failures waits strictly longer than the one before. */
  lemma BackoffStrictlyIncreases(k: nat, draw: nat, draw': nat)
    requires k < 6
    ensures Backoff(k, draw) < Backoff(k + 1, draw')
  {
    assert 5 * CappedDelay(k) <= 3 * CappedDelay(k + 1);
  }

  /** The waits after the first five failures, to the millisecond: each draw falls into these ranges, and
      their ends are drawn. */
  lemma BackoffTable(draw: nat)
    ensures 1_500 <= Backoff(1, draw) <= 2_499 && Backoff(1, 0) == 1_500 && Backoff(1, 999) == 2_499
    ensures 3_000 <= Backoff(2, draw) <= 4_999 && Backoff(2, 0) == 3_000 && Backoff(2, 1_999) == 4_999
    ensures 6_000 <= Backoff(3, draw) <= 9_999 && Backoff(3, 0) == 6_000 && Backoff(3, 3_999) == 9_999
    ensures 12_000 <= Backoff(4, draw) <= 19_999 && Backoff(4, 0) == 12_000 && Backoff(4, 7_999) == 19_999
    ensures 24_000 <= Backoff(5, draw) <= 39_999 && Backoff(5, 0) == 24_000 && Backoff(5, 15_999) == 39_999
  {
    Doublings();
  }

  /** From the sixth failure on the wait stays in this range, and both ends are drawn. */
  lemma BackoffPlateau(k: nat, draw: nat)
    requires k >= 6
    ensures 45_000 <= Backoff(k, draw) <= 74_999
    ensures Backoff(k, 0) == 45_000 && Backoff(k, 29_999) == 74_999
  {
    Doublings();
  }

  // ------------------------------------------------------------------ the connected flag

  /** What happens to a transport. Losing the connection is not a call, and no call notices it. */
  datatype LinkEvent = Connecting(ok: bool) | Disconnecting | PeerCloses

  /** The flag that a health check reads, after `events`: set by a successful connect, cleared by a
      disconnect and by nothing else. */
  function Flag(connected: bool, events: seq<LinkEvent>): bool {
    if events == [] then connected
    else
      var before := Flag(connected, events[..|events| - 1]);
      match events[|events| - 1]
      case Connecting(ok) => ok || before
      case Disconnecting => false
      case PeerCloses => before
  }

  predicate DisconnectedSince(events: seq<LinkEvent>, i: nat) {
    exists k :: i <= k < |events| && events[k].Disconnecting?
  }

  /** A check finds a transport down iff every successful connect was followed by a disconnect, the
      one before these events included. */
  lemma {:induction false} DownIffDisconnected(connected: bool, events: seq<LinkEvent>)
    ensures !Flag(connected, events) <==>
            && (connected ==> DisconnectedSince(events, 0))
            && forall i :: 0 <= i < |events| && events[i] == Connecting(true) ==> DisconnectedSince(events, i)
  {
    if events != [] {
      var n := |events| - 1;
      var before := events[..n];
      DownIffDisconnected(connected, before);
      forall i | 0 <= i <= n
        ensures DisconnectedSince(events, i) <==> DisconnectedSince(before, i) || events[n].Disconnecting?
      {
        if k :| i <= k < |before| && before[k].Disconnecting? { assert events[k].Disconnecting?; }
        if k :| i <= k < |events| && events[k].Disconnecting? { assert k == n || before[k].Disconnecting?; }
      }
    }
  }

  function Disconnects(events: seq<LinkEvent>): nat {
    if events == [] then 0
    else Disconnects(events[..|events| - 1]) + if events[|events| - 1].Disconnecting? then 1 else 0
  }

  lemma {:induction false} DownNeedsADisconnect(connected: bool, events: seq<LinkEvent>)
    ensures connected && Disconnects(events) == 0 ==> Flag(connected, events)
  {
    if events != [] {
      DownNeedsADisconnect(connected, events[..|events| - 1]);
    }
  }

  // ------------------------------------------------------------------ the monitor

  class SubscriptionTracker {
    var active: set<StreamKind>

    constructor ()
      ensures active == {}
    {
      active := {};
    }

    method Track(stream: StreamKind)
      modifies this
      ensures active == old(active) + {stream}
    {
      active := active + {stream};
    }
  }

  /** One health check: what happened to the transport since the last one, and, should it be down,
      the network a reconnect meets, the draw for the jitter and the streams tracked by then. */
  datatype Tick = Tick(events: seq<LinkEvent>, peer: Peer, draw: nat, active: set<StreamKind>)

  /** Whether a reconnect against this network succeeds. */
  type Reach = Peer -> bool

  /** That of the source: the fallback chain and a second connect. */
  function Reaches(cfg: Config): Reach {
    (peer: Peer) => Establishment(cfg, peer).Ok?
  }

  /** A reconnect succeeds iff some dial does, and then the second connect where it is made. */
  lemma ReachesIff(cfg: Config, peer: Peer)
    ensures Reaches(cfg)(peer) <==>
            var t := ConnectTrace(cfg, peer.dials);
            t != [] && t[|t| - 1].result.Ok? && (t[|t| - 1].protocol == Quic || peer.second.Ok?)
  {
    hide ConnectTrace;
  }

  /** The flag after the checks so far; a successful reconnect installs a connected transport. The
      monitor starts with one. */
  function ConnectedAfter(up: Reach, ticks: seq<Tick>): bool {
    if ticks == [] then true
    else
      var before, last := ConnectedAfter(up, ticks[..|ticks| - 1]), ticks[|ticks| - 1];
      Flag(before, last.events) || up(last.peer)
  }

  /** The next check finds the transport down. */
  predicate FindsDown(up: Reach, before: seq<Tick>, t: Tick) {
    !Flag(ConnectedAfter(up, before), t.events)
  }

  predicate Fails(up: Reach, before: seq<Tick>, t: Tick) {
    FindsDown(up, before, t) && !up(t.peer)
  }

  predicate Reconnects(up: Reach, before: seq<Tick>, t: Tick) {
    FindsDown(up, before, t) && up(t.peer)
  }

  /** The current run of failed reconnects. */
  function FailureRun(up: Reach, ticks: seq<Tick>): (n: nat)
    ensures n <= |ticks|
  {
    if ticks == [] || !Fails(up, ticks[..|ticks| - 1], ticks[|ticks| - 1]) then 0
    else FailureRun(up, ticks[..|ticks| - 1]) + 1
  }

  /** The sleeps of a run, in order: one for every failed reconnect. */
  function Sleeps(up: Reach, ticks: seq<Tick>): seq<nat> {
    if ticks == [] then []
    else
      var before, last := ticks[..|ticks| - 1], ticks[|ticks| - 1];
      Sleeps(up, before) +
      if Fails(up, before, last) then [Backoff(FailureRun(up, ticks) % U32_MODULUS, last.draw)] else []
  }

  /** The streams to restore, for every successful reconnect of the run. */
  function Restored(up: Reach, ticks: seq<Tick>): seq<set<StreamKind>> {
    if ticks == [] then []
    else
      var before, last := ticks[..|ticks| - 1], ticks[|ticks| - 1];
      Restored(up, before) + if Reconnects(up, before, last) then [last.active] else []
  }

  /** What one more health check adds. */
  lemma OneMoreTick(up: Reach, before: seq<Tick>, t: Tick)
    ensures ConnectedAfter(up, before + [t]) == (!FindsDown(up, before, t) || Reconnects(up, before, t))
    ensures FailureRun(up, before + [t]) == if Fails(up, before, t) then FailureRun(up, before) + 1 else 0
    ensures Restored(up, before + [t]) == Restored(up, before) + if Reconnects(up, before, t) then [t.active] else []
    ensures Sleeps(up, before + [t]) ==
            Sleeps(up, before) +
            if Fails(up, before, t) then [Backoff((FailureRun(up, before) + 1) % U32_MODULUS, t.draw)] else []
  {
    hide Backoff, Flag;
    assert (before + [t])[..|before|] == before;
  }

  lemma NoTicks(up: Reach)
    ensures ConnectedAfter(up, []) && FailureRun(up, []) == 0 && Sleeps(up, []) == [] && Restored(up, []) == []
  {
  }

  /** The counter is the number of checks since the last one that did not fail. */
  lemma {:induction false} FailureRunIsSinceLastGood(up: Reach, ticks: seq<Tick>)
    ensures var n := |ticks| - FailureRun(up, ticks);
            && (forall i :: n <= i < |ticks| ==>
                  !Flag(ConnectedAfter(up, ticks[..i]), ticks[i].events) && !up(ticks[i].peer))
            && (n > 0 ==> Flag(ConnectedAfter(up, ticks[..n - 1]), ticks[n - 1].events) || up(ticks[n - 1].peer))
  {
    hide Flag, ConnectedAfter;
    if ticks != [] {
      var m := |ticks| - 1;
      if Fails(up, ticks[..m], ticks[m]) {
        FailureRunIsSinceLastGood(up, ticks[..m]);
        forall i | 0 <= i < m ensures ticks[..m][..i] == ticks[..i] && ticks[..m][i] == ticks[i] { }
      }
    }
  }

  lemma WrapIncrement(n: nat)
    ensures (n % U32_MODULUS + 1) % U32_MODULUS == (n + 1) % U32_MODULUS
  {
  }

  /** Every tracked stream is subscribed again exactly once, in the arbitrary order of a hash set;
      `outcomes` says which of the calls fail, and no failure stops the others. Each new receiver
      is dropped on the spot, so `renewed` are subscriptions that deliver nothing
      (`WsSharing.DroppedAtOnceDeliversNothing`). */
  method Resubscribe(active: set<StreamKind>, outcomes: nat -> bool, ghost consumers: nat)
    returns (attempted: seq<StreamKind>, renewed: seq<StreamKind>, ghost actions: seq<WsDemux.Action>)
    ensures |attempted| == |active| && forall s :: s in attempted <==> s in active
    ensures forall i :: 0 <= i < |attempted| ==> (attempted[i] in renewed <==> outcomes(i))
    ensures forall i, j :: 0 <= i < j < |renewed| ==> renewed[i] != renewed[j]
    ensures forall s :: s in renewed ==> s in active
    ensures actions == WsSharing.DroppedAtOnce(consumers, renewed)
  {
    hide WsSharing.DroppedAtOnce;
    assert WsSharing.DroppedAtOnce(consumers, []) == [] by { WsSharing.NoneDropped(consumers); }
    var pending := active;
    attempted, renewed, actions := [], [], [];
    while pending != {}
      invariant pending <= active && |attempted| + |pending| == |active|
      invariant forall s :: s in attempted <==> s in active && s !in pending
      invariant forall i :: 0 <= i < |attempted| ==> (attempted[i] in renewed <==> outcomes(i))
      invariant forall s :: s in renewed ==> s in active && s !in pending
      invariant forall i, j :: 0 <= i < j < |renewed| ==> renewed[i] != renewed[j]
      invariant actions == WsSharing.DroppedAtOnce(consumers, renewed)
      decreases |pending|
    {
      var s :| s in pending;
      pending := pending - {s};
      if outcomes(|attempted|) {
        ghost var c := consumers + |renewed|;
        actions := actions + [WsDemux.Subscribe(WsDemux.Pushed(s))] + [WsDemux.AppClose(c)];
        WsSharing.DroppedSnoc(consumers, renewed, s);
        renewed := renewed + [s];
      }
      attempted := attempted + [s];
    }
  }

  /** The monitor over the health checks made so far; its counter is a u32. */
  method MonitorLoop(cfg: Config, ticks: seq<Tick>, outcomes: nat -> bool)
    returns (consecutiveFailures: nat, sleeps: seq<nat>, resubscribed: seq<set<StreamKind>>)
    ensures consecutiveFailures == FailureRun(Reaches(cfg), ticks) % U32_MODULUS
    ensures sleeps == Sleeps(Reaches(cfg), ticks)
    ensures resubscribed == Restored(Reaches(cfg), ticks)
  {
    hide Establishment, Backoff, FailureRun, Sleeps, Restored, ConnectedAfter, Flag;
    NoTicks(Reaches(cfg));
    var connected := true;
    consecutiveFailures, sleeps, resubscribed := 0, [], [];
    for i := 0 to |ticks|
      invariant connected == ConnectedAfter(Reaches(cfg), ticks[..i])
      invariant consecutiveFailures == FailureRun(Reaches(cfg), ticks[..i]) % U32_MODULUS
      invariant sleeps == Sleeps(Reaches(cfg), ticks[..i])
      invariant resubscribed == Restored(Reaches(cfg), ticks[..i])
    {
      var tick := ticks[i];
      OneMoreTick(Reaches(cfg), ticks[..i], tick);
      WrapIncrement(FailureRun(Reaches(cfg), ticks[..i]));
      assert ticks[..i + 1] == ticks[..i] + [tick];
      connected := Flag(connected, tick.events);
      if !connected {
        var outcome := Establish(cfg, tick.peer);
        if outcome.Ok? {
          connected := true;
          consecutiveFailures := 0;
          var attempted, _, _ := Resubscribe(tick.active, outcomes, 0);
          var restored := set s | s in attempted;
          assert restored == tick.active;
          resubscribed := resubscribed + [restored];
        } else {
          consecutiveFailures := (consecutiveFailures + 1) % U32_MODULUS;
          sleeps := sleeps + [Backoff(consecutiveFailures, tick.draw)];
        }
      } else {
        consecutiveFailures := 0;
      }
    }
    assert ticks[..|ticks|] == ticks;
  }

  // ------------------------------------------------------------------ what the monitor repairs

  /** The calls of `disconnect` over a run. */
  function AllDisconnects(ticks: seq<Tick>): nat {
    if ticks == [] then 0 else AllDisconnects(ticks[..|ticks| - 1]) + Disconnects(ticks[|ticks| - 1].events)
  }

  /** The monitor acts on the application's own disconnects and on nothing else: there are at most
      as many reconnects as disconnects, and without a disconnect no reconnect is even attempted,
      however often the peer closed the connection. */
  lemma {:induction false} OnlyDisconnectsAreRepaired(up: Reach, ticks: seq<Tick>)
    ensures |Restored(up, ticks)| + (if ConnectedAfter(up, ticks) then 0 else 1) <= AllDisconnects(ticks)
    ensures AllDisconnects(ticks) == 0 ==> Sleeps(up, ticks) == [] && FailureRun(up, ticks) == 0
  {
    hide Backoff, Sleeps, FailureRun, Restored, ConnectedAfter, Flag;
    if ticks == [] {
      NoTicks(up);
    } else {
      var before, t := ticks[..|ticks| - 1], ticks[|ticks| - 1];
      OnlyDisconnectsAreRepaired(up, before);
      assert ticks == before + [t];
      OneMoreTick(up, before, t);
      DownNeedsADisconnect(ConnectedAfter(up, before), t.events);
    }
  }

  /** A disconnect that is the last thing before a check is undone by it when the network is up: the
      tracked streams are restored on a new transport. */
  lemma DisconnectIsUndone(up: Reach, before: seq<Tick>, t: Tick)
    requires t.events != [] && t.events[|t.events| - 1].Disconnecting? && up(t.peer)
    ensures ConnectedAfter(up, before + [t]) && Restored(up, before + [t]) == Restored(up, before) + [t.active]
  {
    OneMoreTick(up, before, t);
  }

  // ------------------------------------------------------------------ outages

  function Sum(s: seq<nat>): nat {
    if s == [] then 0 else Sum(s[..|s| - 1]) + s[|s| - 1]
  }

  /** The delays of the first n failures, before jitter. */
  function CappedSum(n: nat): nat {
    if n == 0 then 0 else CappedSum(n - 1) + CappedDelay(n)
  }

  lemma SumOfSnoc(s: seq<nat>, x: nat)
    ensures Sum(s + [x]) == Sum(s) + x
  {
    assert (s + [x])[..|s|] == s;
  }

  /** Every check of the outage finds the transport down and fails to reconnect. */
  predicate Outage(up: Reach, before: seq<Tick>, outage: seq<Tick>) {
    forall i :: 0 <= i < |outage| ==> Fails(up, before + outage[..i], outage[i])
  }

  /** Over an outage of n failed reconnects the counter ends at n, and the monitor has slept between
      3/4 and 5/4 of the summed delays, whatever came before and whatever is drawn. */
  lemma {:induction false} OutageSleep(up: Reach, before: seq<Tick>, outage: seq<Tick>)
    requires FailureRun(up, before) == 0 && |outage| < U32_MODULUS && Outage(up, before, outage)
    ensures var n, all := |outage|, before + outage;
            && FailureRun(up, all) == n
            && Sleeps(up, before) <= Sleeps(up, all) && |Sleeps(up, all)| == |Sleeps(up, before)| + n
            && 3 * CappedSum(n) <= 4 * (Sum(Sleeps(up, all)) - Sum(Sleeps(up, before))) <= 5 * CappedSum(n)
  {
    hide Backoff, CappedDelay, Sleeps, FailureRun, Sum, Fails;
    if outage == [] {
      assert before + outage == before;
    } else {
      var n := |outage|;
      var shorter, last := before + outage[..n - 1], outage[n - 1];
      assert forall i :: 0 <= i < n - 1 ==> outage[..n - 1][..i] == outage[..i];
      OutageSleep(up, before, outage[..n - 1]);
      OneMoreTick(up, shorter, last);
      assert before + outage == shorter + [last];
      SumOfSnoc(Sleeps(up, shorter), Backoff(n, last.draw));
    }
  }

  /** After the fifth failure an outage grows by a minute per failure before jitter. */
  lemma {:induction false} LongOutage(n: nat)
    requires n >= 5
    ensures CappedSum(n) == 62_000 + 60_000 * (n - 5)
  {
    if n == 5 {
      assert CappedSum(2) == 6_000;
      assert CappedSum(4) == 30_000;
    } else {
      LongOutage(n - 1);
    }
  }

  /** In closed form: n >= 5 failures sleep within a quarter of 62 s and a minute for each one after
      the fifth. */
  lemma LongOutageSleep(up: Reach, before: seq<Tick>, outage: seq<Tick>)
    requires FailureRun(up, before) == 0 && 5 <= |outage| < U32_MODULUS && Outage(up, before, outage)
    ensures var minutes := |outage| - 5;
            var slept := Sum(Sleeps(up, before + outage)) - Sum(Sleeps(up, before));
            46_500 + 45_000 * minutes <= slept <= 77_500 + 75_000 * minutes
  {
    hide Sleeps, FailureRun, Sum, Outage;
    OutageSleep(up, before, outage);
    LongOutage(|outage|);
  }
}

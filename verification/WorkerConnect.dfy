/** Connecting through discovery (src/client.rs, `connect`): workers ranked by latency, tried in
    that order until one accepts both the fallback chain and the second connect call. */
module WorkerConnect {
  import opened Prelude
  import opened Types
  import opened StableSort
  import opened FallbackChain

  function RankKey(latencies: map<Name, Measurement>): WorkerEndpoint -> int {
    (w: WorkerEndpoint) => if w.id in latencies && latencies[w.id].reachable then latencies[w.id].rttMs else U64_MAX
  }

  function Ranked(workers: seq<WorkerEndpoint>, latencies: map<Name, Measurement>): seq<WorkerEndpoint> {
    SortBy(workers, RankKey(latencies))
  }

  predicate Reachable(latencies: map<Name, Measurement>, w: WorkerEndpoint) {
    w.id in latencies && latencies[w.id].reachable
  }

  /** The ranking is a stable permutation, ascending by reachable round-trip time; a worker that
      did not answer comes after every worker that answered in less than u64::MAX ms. */
  lemma RankingIsStableAndAscending(workers: seq<WorkerEndpoint>, latencies: map<Name, Measurement>)
    ensures var ranked := Ranked(workers, latencies);
            && multiset(ranked) == multiset(workers) && |ranked| == |workers|
            && (forall k :: WithKey(ranked, RankKey(latencies), k) == WithKey(workers, RankKey(latencies), k))
            && (forall i, j ::
                  0 <= i < j < |ranked| && Reachable(latencies, ranked[i]) && Reachable(latencies, ranked[j]) ==>
                  latencies[ranked[i].id].rttMs <= latencies[ranked[j].id].rttMs)
            && (forall i, j ::
                  && 0 <= i < j < |ranked| && Reachable(latencies, ranked[j])
                  && latencies[ranked[j].id].rttMs < U64_MAX ==>
                  Reachable(latencies, ranked[i]))
  {
    hide SortBy, WithKey;
    var key := RankKey(latencies);
    SortedPermutation(workers, key);
    var ranked := Ranked(workers, latencies);
    forall i, j | 0 <= i < j < |ranked|
      ensures Reachable(latencies, ranked[i]) && Reachable(latencies, ranked[j]) ==>
                latencies[ranked[i].id].rttMs <= latencies[ranked[j].id].rttMs
      ensures Reachable(latencies, ranked[j]) && latencies[ranked[j].id].rttMs < U64_MAX ==>
                Reachable(latencies, ranked[i])
    {
      assert key(ranked[i]) <= key(ranked[j]);
    }
  }

  /** The network as one worker shows it: the dials of the chain, and the second connect call. */
  datatype Peer = Peer(dials: Network, second: Result<(), SdkError>)

  datatype Connected = Connected(config: Config, protocol: Protocol)

  /** The configuration for one worker: its endpoints and its region, and all else as given. */
  function WorkerConfig(config: Config, region: Name, w: WorkerEndpoint): (c: Config)
    ensures c.selectedWorker == Some(w) && c.region == Some(region)
    ensures c.endpoint == config.endpoint && c.preferredProtocol == config.preferredProtocol
    ensures c.timeouts == config.timeouts
  {
    config.(selectedWorker := Some(w), region := Some(region))
  }

  /** What the chain followed by a second connect call comes to. A QUIC transport is already
      connected by the chain and answers the second call from its session; the others connect again. */
  function Establishment(cfg: Config, peer: Peer): Result<Protocol, SdkError> {
    var t := ConnectTrace(cfg, peer.dials);
    match LastResult(t)
    case Err(e) => Err(e)
    case Ok(_) =>
      var p := t[|t| - 1].protocol;
      if p.Quic? || peer.second.Ok? then Ok(p) else Err(peer.second.error)
  }

  /** The chain reaches the worker over `p`, and the second connect does not fail it: over QUIC it is
      answered from the session, over any other protocol by the peer. */
  predicate Accepts(cfg: Config, peer: Peer, p: Protocol) {
    var t := ConnectTrace(cfg, peer.dials);
    && t != [] && t[|t| - 1].result.Ok? && t[|t| - 1].protocol == p
    && (p != Quic ==> peer.second.Ok?)
  }

  /** It fails with the error of the last dial, with that of the second connect if that dial went
      well, or for want of any dial. */
  predicate Fails(cfg: Config, peer: Peer, e: SdkError) {
    var t := ConnectTrace(cfg, peer.dials);
    if t == [] then e == AllProtocolsFailed
    else if t[|t| - 1].result.Err? then e == t[|t| - 1].result.error
    else t[|t| - 1].protocol != Quic && peer.second == Err(e)
  }

  predicate Rejects(cfg: Config, peer: Peer) {
    var t := ConnectTrace(cfg, peer.dials);
    t == [] || t[|t| - 1].result.Err? || (t[|t| - 1].protocol != Quic && peer.second.Err?)
  }

  lemma EstablishmentIs(cfg: Config, peer: Peer, p: Protocol, e: SdkError)
    ensures Establishment(cfg, peer) == Ok(p) <==> Accepts(cfg, peer, p)
    ensures Establishment(cfg, peer) == Err(e) <==> Fails(cfg, peer, e)
  {
    hide ConnectTrace;
  }

  method Establish(cfg: Config, peer: Peer) returns (r: Result<Protocol, SdkError>)
    ensures r == Establishment(cfg, peer)
    ensures match r case Ok(p) => Accepts(cfg, peer, p) case Err(e) => Rejects(cfg, peer) && Fails(cfg, peer, e)
  {
    hide ConnectTrace;
    var outcome, trace := ConnectChain(cfg, peer.dials);
    match outcome {
      case Ok(protocol) =>
        var second := if protocol.Quic? then Ok(()) else peer.second;
        match second {
          case Ok(_) => r := Ok(protocol);
          case Err(e) => r := Err(e);
        }
      case Err(e) =>
        r := Err(e);
    }
  }

  function Trial(config: Config, region: Name, w: WorkerEndpoint, peer: Peer): Result<Protocol, SdkError> {
    Establishment(WorkerConfig(config, region, w), peer)
  }

  method Connect(config: Config, region: Name, endpoints: seq<WorkerEndpoint>, latencies: map<Name, Measurement>,
                 peers: nat -> Peer)
    returns (r: Result<Connected, SdkError>, tried: nat)
    ensures var ranked := Ranked(endpoints, latencies);
            && tried <= |ranked|
            && (forall k :: 0 <= k < tried - 1 ==> Rejects(WorkerConfig(config, region, ranked[k]), peers(k)))
            && (r.Ok? ==>
                  && tried > 0
                  && Accepts(WorkerConfig(config, region, ranked[tried - 1]), peers(tried - 1), r.value.protocol)
                  && r.value.config == WorkerConfig(config, region, ranked[tried - 1]))
            && (r.Err? ==>
                  && tried == |ranked|
                  && if tried == 0 then r.error == Connection
                     else Fails(WorkerConfig(config, region, ranked[tried - 1]), peers(tried - 1), r.error))
  {
    hide Ranked, Establishment, Accepts, Fails, Rejects;
    if |endpoints| == 0 {
      EmptyRanking(latencies);
      return Err(Connection), 0;
    }
    var ranked := Ranked(endpoints, latencies);
    var cfg := config;
    var lastError: Option<SdkError> := None;
    tried := 0;
    while tried < |ranked|
      invariant tried <= |ranked|
      invariant cfg == config.(selectedWorker := cfg.selectedWorker, region := cfg.region)
      invariant forall k :: 0 <= k < tried ==> Rejects(WorkerConfig(config, region, ranked[k]), peers(k))
      invariant if tried == 0 then lastError == None
                else
                  && lastError.Some?
                  && Fails(WorkerConfig(config, region, ranked[tried - 1]), peers(tried - 1), lastError.value)
    {
      var worker := ranked[tried];
      cfg := cfg.(selectedWorker := Some(worker), region := Some(region));
      var outcome := Establish(cfg, peers(tried));
      tried := tried + 1;
      match outcome {
        case Ok(protocol) =>
          return Ok(Connected(cfg, protocol)), tried;
        case Err(e) =>
          lastError := Some(e);
      }
    }
    r := Err(if lastError.Some? then lastError.value else Connection);
  }

  lemma EmptyRanking(latencies: map<Name, Measurement>)
    ensures Ranked([], latencies) == []
  {
  }

  /** A worker that answers its first QUIC dial in time is accepted by that one dial alone,
      whatever a second connect would have said. */
  lemma QuicWorkerNeedsOneDial(config: Config, region: Name, w: WorkerEndpoint, peer: Peer)
    requires config.preferredProtocol.None? && w.quic.Some?
    requires peer.dials(0).result.Ok? && peer.dials(0).takesMs <= config.timeouts.quic
    ensures Trial(config, region, w, peer) == Ok(Quic)
    ensures |ConnectTrace(WorkerConfig(config, region, w), peer.dials)| == 1
  {
    var cfg := WorkerConfig(config, region, w);
    assert Resolve(cfg) == cfg;
    assert ChainTrace(cfg, FALLBACK_ORDER, peer.dials, 0) == TryTrace(cfg, Quic, peer.dials, 0);
  }
}

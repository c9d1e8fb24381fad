/** The connection fallback chain (src/connection/mod.rs): protocols in a fixed order, each
    dialed at its primary endpoint and at most once more at a legacy endpoint. */
module FallbackChain {
  import opened Prelude
  import opened Types

  datatype Timeouts = Timeouts(quic: nat, grpc: nat, websocket: nat, http: nat)

  datatype Config = Config(
    endpoint: Option<Name>,
    region: Option<Name>,
    selectedWorker: Option<WorkerEndpoint>,
    preferredProtocol: Option<Protocol>,
    timeouts: Timeouts)

  const FALLBACK_ORDER: seq<Protocol> := [Quic, Grpc, WebSocket, Http]

  function TimeoutFor(t: Timeouts, p: Protocol): nat {
    match p case Quic => t.quic case Grpc => t.grpc case WebSocket => t.websocket case Http => t.http
  }

  function Endpoint(w: WorkerEndpoint, p: Protocol): Option<Name> {
    match p case Quic => w.quic case Grpc => w.grpc case WebSocket => w.websocket case Http => w.http
  }

  function LegacyEndpoint(w: WorkerEndpoint, p: Protocol): Option<Name> {
    match p case Quic => w.legacyQuic case Grpc => w.legacyGrpc case WebSocket => w.legacyWebsocket case Http => None
  }

  function WithPrimaryEndpoint(w: WorkerEndpoint, p: Protocol, e: Option<Name>): WorkerEndpoint {
    match p
    case Quic => w.(quic := e)
    case Grpc => w.(grpc := e)
    case WebSocket => w.(websocket := e)
    case Http => w.(http := e)
  }

  function DefaultEndpoint(p: Protocol): Name {
    match p
    case Quic => Ascii("quic://localhost:4433")
    case Grpc => Ascii("http://localhost:10000")
    case WebSocket => Ascii("ws://localhost:9000/ws")
    case Http => Ascii("http://localhost:9091")
  }

  /** The address a transport dials under a configuration. */
  function Address(cfg: Config, p: Protocol): Name {
    if cfg.selectedWorker.Some? && Endpoint(cfg.selectedWorker.value, p).Some? then
      Endpoint(cfg.selectedWorker.value, p).value
    else if cfg.endpoint.Some? then cfg.endpoint.value
    else DefaultEndpoint(p)
  }

  function WithLegacyEndpoint(cfg: Config, p: Protocol): Option<Config> {
    if cfg.selectedWorker.None? then None
    else
      var w := cfg.selectedWorker.value;
      var legacy := LegacyEndpoint(w, p);
      if legacy.None? || legacy == Endpoint(w, p) then None
      else Some(cfg.(selectedWorker := Some(WithPrimaryEndpoint(w, p, legacy))))
  }

  /** How the network would answer one dial, were there no deadline. */
  datatype Connect = Connect(result: Result<(), SdkError>, takesMs: nat)

  /** The k-th dial of a call gets the k-th answer. */
  type Network = nat -> Connect

  datatype Dial = Dial(protocol: Protocol, address: Name, legacy: bool, result: Result<(), SdkError>, elapsedMs: nat)

  function Attempt(cfg: Config, p: Protocol, legacy: bool, c: Connect): Dial {
    var timeout := TimeoutFor(cfg.timeouts, p);
    if c.takesMs <= timeout then Dial(p, Address(cfg, p), legacy, c.result, c.takesMs)
    else Dial(p, Address(cfg, p), legacy, Err(Timeout(timeout)), timeout)
  }

  predicate IsConnectFailure(r: Result<(), SdkError>) {
    r.Err? && (r.error.Connection? || r.error.Timeout?)
  }

  /** The dials for one protocol. */
  function TryTrace(cfg: Config, p: Protocol, net: Network, k: nat): (t: seq<Dial>)
    ensures 1 <= |t| <= 2
  {
    var primary := Attempt(cfg, p, false, net(k));
    if IsConnectFailure(primary.result) && WithLegacyEndpoint(cfg, p).Some? then
      [primary, Attempt(WithLegacyEndpoint(cfg, p).value, p, true, net(k + 1))]
    else [primary]
  }

  function LastResult(t: seq<Dial>): Result<(), SdkError> {
    if t == [] then Err(AllProtocolsFailed) else t[|t| - 1].result
  }

  predicate Skipped(cfg: Config, p: Protocol) {
    cfg.selectedWorker.Some? && Endpoint(cfg.selectedWorker.value, p).None?
  }

  /** The dials for the protocols `ps`, up to the first success. */
  function ChainTrace(cfg: Config, ps: seq<Protocol>, net: Network, k: nat): seq<Dial> {
    if ps == [] then []
    else if Skipped(cfg, ps[0]) then ChainTrace(cfg, ps[1..], net, k)
    else
      var t := TryTrace(cfg, ps[0], net, k);
      if LastResult(t).Ok? then t else t + ChainTrace(cfg, ps[1..], net, k + |t|)
  }

  /** The worker of last resort when nothing is configured. */
  function LocalWorker(): WorkerEndpoint {
    WorkerEndpoint(Ascii("local-1"), Ascii("us-east"), Some(Ascii("127.0.0.1:4433")),
                   Some(Ascii("http://127.0.0.1:10000")), Some(Ascii("ws://127.0.0.1:9000/ws")),
                   Some(Ascii("http://127.0.0.1:9000")), None, None, None)
  }

  function Resolve(cfg: Config): Config {
    if cfg.endpoint.None? && cfg.selectedWorker.None? then cfg.(selectedWorker := Some(LocalWorker())) else cfg
  }

  function ConnectTrace(cfg: Config, net: Network): seq<Dial> {
    var resolved := Resolve(cfg);
    if resolved.preferredProtocol.Some? then TryTrace(resolved, resolved.preferredProtocol.value, net, 0)
    else ChainTrace(resolved, FALLBACK_ORDER, net, 0)
  }

  method TryProtocolWith(cfg: Config, p: Protocol, net: Network, k: nat)
    returns (r: Result<(), SdkError>, trace: seq<Dial>)
    ensures trace == TryTrace(cfg, p, net, k) && r == LastResult(trace)
  {
    var primary := Attempt(cfg, p, false, net(k));
    if primary.result.Ok? {
      return primary.result, [primary];
    }
    if IsConnectFailure(primary.result) {
      var legacy := WithLegacyEndpoint(cfg, p);
      if legacy.Some? {
        var second := Attempt(legacy.value, p, true, net(k + 1));
        return second.result, [primary, second];
      }
    }
    return primary.result, [primary];
  }

  /** On success, `connected` is the protocol of the transport returned. */
  method ConnectChain(config: Config, net: Network) returns (r: Result<Protocol, SdkError>, trace: seq<Dial>)
    ensures trace == ConnectTrace(config, net)
    ensures match LastResult(trace)
            case Ok(_) => trace != [] && r == Ok(trace[|trace| - 1].protocol)
            case Err(e) => r == Err(e)
  {
    hide TryTrace, LocalWorker, Ascii, ChainTrace, LastResult, TimeoutFor;
    LastOfNone();
    var cfg := config;
    if cfg.endpoint.None? && cfg.selectedWorker.None? {
      cfg := cfg.(selectedWorker := Some(LocalWorker()));
    }
    if cfg.preferredProtocol.Some? {
      var outcome;
      outcome, trace := TryProtocolWith(cfg, cfg.preferredProtocol.value, net, 0);
      TryTraceProtocol(cfg, cfg.preferredProtocol.value, net, 0);
      return if outcome.Ok? then Ok(cfg.preferredProtocol.value) else Err(outcome.error), trace;
    }
    var lastError: Option<SdkError> := None;
    trace := [];
    var i := 0;
    while i < |FALLBACK_ORDER|
      invariant i <= |FALLBACK_ORDER|
      invariant ConnectTrace(config, net) == trace + ChainTrace(cfg, FALLBACK_ORDER[i..], net, |trace|)
      invariant LastResult(trace) == Err(if lastError.Some? then lastError.value else AllProtocolsFailed)
    {
      var p := FALLBACK_ORDER[i];
      ChainStep(cfg, FALLBACK_ORDER, i, net, |trace|);
      i := i + 1;
      if cfg.selectedWorker.Some? {
        if Endpoint(cfg.selectedWorker.value, p).None? {
          continue;
        }
      }
      var outcome, t := TryProtocolWith(cfg, p, net, |trace|);
      TryTraceProtocol(cfg, p, net, |trace|);
      LastOfConcat(trace, t);
      trace := trace + t;
      if outcome.Ok? {
        return Ok(p), trace;
      }
      lastError := Some(outcome.error);
    }
    ChainStep(cfg, FALLBACK_ORDER, i, net, |trace|);
    r := Err(if lastError.Some? then lastError.value else AllProtocolsFailed);
  }

  lemma ChainStep(cfg: Config, ps: seq<Protocol>, i: nat, net: Network, k: nat)
    requires i <= |ps|
    ensures ChainTrace(cfg, ps[i..], net, k) ==
            if i == |ps| then []
            else if Skipped(cfg, ps[i]) then ChainTrace(cfg, ps[i + 1..], net, k)
            else
              var t := TryTrace(cfg, ps[i], net, k);
              if LastResult(t).Ok? then t else t + ChainTrace(cfg, ps[i + 1..], net, k + |t|)
  {
    hide TryTrace, LastResult;
    if i < |ps| { assert ps[i..][1..] == ps[i + 1..]; }
  }

  lemma LastOfNone()
    ensures LastResult([]) == Err(AllProtocolsFailed)
  {
  }

  lemma LastOfConcat(s: seq<Dial>, t: seq<Dial>)
    requires t != []
    ensures LastResult(s + t) == LastResult(t) == t[|t| - 1].result
  {
  }

  lemma TryTraceProtocol(cfg: Config, p: Protocol, net: Network, k: nat)
    ensures var t := TryTrace(cfg, p, net, k);
            LastResult(t) == t[|t| - 1].result && t[|t| - 1].protocol == p
  {
  }

  // ------------------------------------------------------------------ what the trace looks like

  function Bearing(cfg: Config, ps: seq<Protocol>): seq<Protocol> {
    if ps == [] then [] else (if Skipped(cfg, ps[0]) then [] else [ps[0]]) + Bearing(cfg, ps[1..])
  }

  /** The protocols dialed at their primary endpoint, in order. */
  function Primaries(t: seq<Dial>): seq<Protocol> {
    if t == [] then [] else (if t[0].legacy then [] else [t[0].protocol]) + Primaries(t[1..])
  }

  lemma {:induction false} PrimariesConcat(s: seq<Dial>, t: seq<Dial>)
    ensures Primaries(s + t) == Primaries(s) + Primaries(t)
  {
    if s == [] {
      assert s + t == t;
    } else {
      assert (s + t)[1..] == s[1..] + t;
      PrimariesConcat(s[1..], t);
    }
  }

  /** A dial answers from its own slot of the network, within its deadline. */
  predicate Answers(cfg: Config, d: Dial, c: Connect) {
    var timeout := TimeoutFor(cfg.timeouts, d.protocol);
    && d.elapsedMs == Min(c.takesMs, timeout)
    && d.result == if c.takesMs <= timeout then c.result else Err(Timeout(timeout))
  }

  /** All dials do, and only the last one can succeed. */
  predicate Faithful(cfg: Config, t: seq<Dial>, net: Network, k: nat) {
    forall i :: 0 <= i < |t| ==> Answers(cfg, t[i], net(k + i)) && (i < |t| - 1 ==> t[i].result.Err?)
  }

  /** A legacy dial follows a primary dial of the same protocol that failed to connect, and goes
      to the worker's other address; it is made whenever those conditions hold. */
  predicate LegacyRule(cfg: Config, t: seq<Dial>, i: nat)
    requires i < |t|
  {
    if t[i].legacy then
      && i > 0 && !t[i - 1].legacy && t[i - 1].protocol == t[i].protocol && t[i - 1].result.Err?
      && (t[i - 1].result.error.Connection? || t[i - 1].result.error.Timeout?)
      && cfg.selectedWorker.Some? && LegacyEndpoint(cfg.selectedWorker.value, t[i].protocol) == Some(t[i].address)
      && Endpoint(cfg.selectedWorker.value, t[i].protocol) != Some(t[i].address)
    else
      && t[i].address == Address(cfg, t[i].protocol)
      && (&& t[i].result.Err? && (t[i].result.error.Connection? || t[i].result.error.Timeout?)
          && HasOtherLegacy(cfg, t[i].protocol) ==>
            i + 1 < |t| && t[i + 1].legacy)
  }

  predicate HasOtherLegacy(cfg: Config, p: Protocol) {
    cfg.selectedWorker.Some?
    && LegacyEndpoint(cfg.selectedWorker.value, p).Some?
    && LegacyEndpoint(cfg.selectedWorker.value, p) != Endpoint(cfg.selectedWorker.value, p)
  }

  predicate LegacyDiscipline(cfg: Config, t: seq<Dial>) {
    forall i :: 0 <= i < |t| ==> LegacyRule(cfg, t, i)
  }

  function Elapsed(t: seq<Dial>): nat {
    if t == [] then 0 else t[0].elapsedMs + Elapsed(t[1..])
  }

  lemma {:induction false} ElapsedConcat(s: seq<Dial>, t: seq<Dial>)
    ensures Elapsed(s + t) == Elapsed(s) + Elapsed(t)
  {
    if s == [] {
      assert s + t == t;
    } else {
      assert (s + t)[1..] == s[1..] + t;
      ElapsedConcat(s[1..], t);
    }
  }

  function DialBudget(ps: seq<Protocol>): nat {
    if ps == [] then 0 else (if ps[0].Http? then 1 else 2) + DialBudget(ps[1..])
  }

  function TimeBudget(t: Timeouts, ps: seq<Protocol>): nat {
    if ps == [] then 0 else (if ps[0].Http? then 1 else 2) * TimeoutFor(t, ps[0]) + TimeBudget(t, ps[1..])
  }

  lemma TryIsFaithful(cfg: Config, p: Protocol, net: Network, k: nat)
    ensures Faithful(cfg, TryTrace(cfg, p, net, k), net, k) && LegacyDiscipline(cfg, TryTrace(cfg, p, net, k))
  {
    hide DefaultEndpoint, Ascii;
  }

  lemma TryDials(cfg: Config, p: Protocol, net: Network, k: nat)
    ensures var t := TryTrace(cfg, p, net, k);
            && |t| <= (if p.Http? then 1 else 2) && t[0].protocol == p && !t[0].legacy
            && (|t| == 2 ==> t[1].protocol == p && t[1].legacy)
            && forall i :: 0 <= i < |t| ==> t[i].elapsedMs <= TimeoutFor(cfg.timeouts, p)
  {
    hide DefaultEndpoint, Ascii, Address;
  }

  lemma TryShape(cfg: Config, p: Protocol, net: Network, k: nat)
    ensures var t := TryTrace(cfg, p, net, k);
            && Primaries(t) == [p] && Faithful(cfg, t, net, k) && LegacyDiscipline(cfg, t)
            && |t| <= (if p.Http? then 1 else 2)
            && Elapsed(t) <= (if p.Http? then 1 else 2) * TimeoutFor(cfg.timeouts, p)
  {
    TryIsFaithful(cfg, p, net, k);
    TryDials(cfg, p, net, k);
    hide Elapsed, Primaries, TryTrace, Faithful, LegacyDiscipline;
    var t := TryTrace(cfg, p, net, k);
    SingleDial(t[0]);
    if |t| == 2 {
      SingleDial(t[1]);
      assert t == [t[0]] + [t[1]];
      PrimariesConcat([t[0]], [t[1]]);
      ElapsedConcat([t[0]], [t[1]]);
    } else {
      assert t == [t[0]];
    }
  }

  lemma SingleDial(d: Dial)
    ensures Elapsed([d]) == d.elapsedMs && Primaries([d]) == if d.legacy then [] else [d.protocol]
  {
    assert [d][1..] == [];
  }

  /** The trace, for all networks: primaries are dialed in the given order over the protocols with
      an endpoint, all of them unless one succeeds, and the legacy rule and the budgets hold. */
  lemma {:induction false} ChainShape(cfg: Config, ps: seq<Protocol>, net: Network, k: nat)
    ensures var t := ChainTrace(cfg, ps, net, k);
            && Primaries(t) <= Bearing(cfg, ps)
            && (LastResult(t).Err? ==> Primaries(t) == Bearing(cfg, ps))
            && Faithful(cfg, t, net, k) && LegacyDiscipline(cfg, t)
            && |t| <= DialBudget(ps) && Elapsed(t) <= TimeBudget(cfg.timeouts, ps)
  {
    hide TryTrace, Skipped, LegacyDiscipline, Faithful, Primaries, Elapsed;
    ChainShapeNil(cfg, net, k);
    if ps != [] {
      if Skipped(cfg, ps[0]) {
        ChainShape(cfg, ps[1..], net, k);
      } else {
        var t := TryTrace(cfg, ps[0], net, k);
        TryShape(cfg, ps[0], net, k);
        if LastResult(t).Err? {
          var rest := ChainTrace(cfg, ps[1..], net, k + |t|);
          ChainShape(cfg, ps[1..], net, k + |t|);
          PrimariesConcat(t, rest);
          ElapsedConcat(t, rest);
          FaithfulConcat(cfg, t, rest, net, k);
          DisciplineConcat(cfg, t, rest);
          assert LastResult(t + rest) == if rest == [] then LastResult(t) else LastResult(rest);
        }
      }
    }
  }

  lemma ChainShapeNil(cfg: Config, net: Network, k: nat)
    ensures Primaries([]) == [] && Elapsed([]) == 0 && Faithful(cfg, [], net, k) && LegacyDiscipline(cfg, [])
  {
  }

  lemma FaithfulConcat(cfg: Config, s: seq<Dial>, t: seq<Dial>, net: Network, k: nat)
    requires Faithful(cfg, s, net, k) && Faithful(cfg, t, net, k + |s|) && LastResult(s).Err?
    ensures Faithful(cfg, s + t, net, k)
  {
    var u := s + t;
    forall i | 0 <= i < |u| ensures Answers(cfg, u[i], net(k + i)) && (i < |u| - 1 ==> u[i].result.Err?) {
      if i >= |s| { assert u[i] == t[i - |s|] && k + i == k + |s| + (i - |s|); }
    }
  }

  lemma DisciplineConcat(cfg: Config, s: seq<Dial>, t: seq<Dial>)
    requires LegacyDiscipline(cfg, s) && LegacyDiscipline(cfg, t)
    ensures LegacyDiscipline(cfg, s + t)
  {
    var u := s + t;
    forall i | 0 <= i < |u| ensures LegacyRule(cfg, u, i) {
      if i < |s| {
        assert LegacyRule(cfg, s, i) && u[i] == s[i];
      } else {
        assert LegacyRule(cfg, t, i - |s|) && u[i] == t[i - |s|];
      }
    }
  }

  /** The whole call, when no protocol is preferred: the dials are those of the four protocols,
      at most seven, within twice the first three deadlines plus the last; the error is that of the
      last dial, and AllProtocolsFailed exactly without any dial, unless the network itself says so. */
  lemma ConnectTraceShape(config: Config, net: Network)
    requires config.preferredProtocol.None?
    ensures var cfg, t := Resolve(config), ConnectTrace(config, net);
            && Primaries(t) <= Bearing(cfg, [Quic, Grpc, WebSocket, Http])
            && (LastResult(t).Err? ==> Primaries(t) == Bearing(cfg, [Quic, Grpc, WebSocket, Http]))
            && Faithful(cfg, t, net, 0) && LegacyDiscipline(cfg, t)
            && |t| <= 7
            && Elapsed(t) <= 2 * (cfg.timeouts.quic + cfg.timeouts.grpc + cfg.timeouts.websocket) + cfg.timeouts.http
            && (t == [] <==> forall p :: Skipped(cfg, p))
            && ((forall k :: net(k).result != Err(AllProtocolsFailed)) ==>
                  (LastResult(t) == Err(AllProtocolsFailed) <==> t == []))
  {
    hide ChainTrace, LocalWorker;
    var cfg := Resolve(config);
    ChainShape(cfg, FALLBACK_ORDER, net, 0);
    Budgets(cfg.timeouts);
    BearingAll(cfg);
    var t := ConnectTrace(config, net);
    if t != [] {
      assert LegacyRule(cfg, t, 0);
      assert Primaries(t) != [];
      assert Answers(cfg, t[|t| - 1], net(|t| - 1));
    }
  }

  lemma Budgets(t: Timeouts)
    ensures DialBudget(FALLBACK_ORDER) == 7
    ensures TimeBudget(t, FALLBACK_ORDER) == 2 * (t.quic + t.grpc + t.websocket) + t.http
  {
    assert FALLBACK_ORDER[1..] == [Grpc, WebSocket, Http] && FALLBACK_ORDER[1..][1..] == [WebSocket, Http];
    assert [WebSocket, Http][1..] == [Http] && [Http][1..] == [];
    assert DialBudget([Http]) == 1 && DialBudget([WebSocket, Http]) == 3;
    assert TimeBudget(t, [Http]) == t.http && TimeBudget(t, [WebSocket, Http]) == 2 * t.websocket + t.http;
  }

  lemma BearingAll(cfg: Config)
    ensures Bearing(cfg, FALLBACK_ORDER) == [] <==> forall p :: Skipped(cfg, p)
  {
    assert FALLBACK_ORDER[1..] == [Grpc, WebSocket, Http] && FALLBACK_ORDER[1..][1..] == [WebSocket, Http];
    assert [WebSocket, Http][1..] == [Http];
    assert Bearing(cfg, [Http]) == [] <==> Skipped(cfg, Http);
    assert Bearing(cfg, [WebSocket, Http]) == [] <==> Skipped(cfg, WebSocket) && Skipped(cfg, Http);
  }

  // ------------------------------------------------------------------ addresses and deadlines

  /** One dial, given the worker's entries for its protocol: where it goes, and how it ends by its deadline. */
  predicate DialIs(cfg: Config, d: Dial, c: Connect, deadline: nat, own: Option<Name>, legacy: Option<Name>,
                   default: string) {
    && (if c.takesMs <= deadline then d.elapsedMs == c.takesMs && d.result == c.result
        else d.elapsedMs == deadline && d.result == Err(Timeout(deadline)))
    && (if d.legacy then legacy == Some(d.address)
        else if own.Some? then own == Some(d.address)
        else if cfg.endpoint.Some? then d.address == cfg.endpoint.value
        else d.address == Ascii(default))
  }

  /** Without a worker there are no entries. */
  const NOWHERE: WorkerEndpoint := WorkerEndpoint([], [], None, None, None, None, None, None, None)

  predicate DialIsByProtocol(cfg: Config, d: Dial, c: Connect) {
    var w, t := GetOr(cfg.selectedWorker, NOWHERE), cfg.timeouts;
    match d.protocol
    case Quic => DialIs(cfg, d, c, t.quic, w.quic, w.legacyQuic, "quic://localhost:4433")
    case Grpc => DialIs(cfg, d, c, t.grpc, w.grpc, w.legacyGrpc, "http://localhost:10000")
    case WebSocket => DialIs(cfg, d, c, t.websocket, w.websocket, w.legacyWebsocket, "ws://localhost:9000/ws")
    case Http => DialIs(cfg, d, c, t.http, w.http, None, "http://localhost:9091")
  }

  /** The protocols to dial, in order: those that the worker has an entry for, or all without a worker. */
  function Entries(cfg: Config): seq<Protocol> {
    match cfg.selectedWorker
    case None => [Quic, Grpc, WebSocket, Http]
    case Some(w) =>
      (if w.quic.Some? then [Quic] else []) + (if w.grpc.Some? then [Grpc] else [])
      + (if w.websocket.Some? then [WebSocket] else []) + (if w.http.Some? then [Http] else [])
  }

  lemma BearingIsEntries(cfg: Config)
    ensures Bearing(cfg, [Quic, Grpc, WebSocket, Http]) == Entries(cfg)
  {
    assert [Quic, Grpc, WebSocket, Http][1..] == [Grpc, WebSocket, Http];
    assert [Grpc, WebSocket, Http][1..] == [WebSocket, Http] && [WebSocket, Http][1..] == [Http] && [Http][1..] == [];
    assert Bearing(cfg, [Http]) == if Skipped(cfg, Http) then [] else [Http];
    assert Bearing(cfg, [WebSocket, Http]) ==
           (if Skipped(cfg, WebSocket) then [] else [WebSocket]) + Bearing(cfg, [Http]);
  }

  lemma DialFollowsRules(cfg: Config, t: seq<Dial>, net: Network, i: nat)
    requires Faithful(cfg, t, net, 0) && LegacyDiscipline(cfg, t) && i < |t|
    ensures DialIsByProtocol(cfg, t[i], net(i))
  {
    hide Ascii;
    assert Answers(cfg, t[i], net(0 + i)) && LegacyRule(cfg, t, i);
  }

  /** Every dial of a call goes to the address of its protocol and is cut at the deadline of its
      protocol; with a preferred protocol there are one or two, both of that protocol. */
  lemma EveryDialIs(config: Config, net: Network)
    ensures var cfg, t := Resolve(config), ConnectTrace(config, net);
            && (forall i :: 0 <= i < |t| ==> DialIsByProtocol(cfg, t[i], net(i)))
            && (config.preferredProtocol.Some? ==>
                  && 1 <= |t| <= 2 && (forall i :: 0 <= i < |t| ==> t[i].protocol == config.preferredProtocol.value)
                  && LegacyDiscipline(cfg, t))
            && (config.preferredProtocol.None? ==>
                  Primaries(t) <= Entries(cfg) && (LastResult(t).Err? ==> Primaries(t) == Entries(cfg)))
  {
    hide TryTrace, ChainTrace, LocalWorker, DialIsByProtocol, Faithful, LegacyDiscipline, Bearing, Entries;
    var cfg, t := Resolve(config), ConnectTrace(config, net);
    if config.preferredProtocol.Some? {
      TryShape(cfg, config.preferredProtocol.value, net, 0);
      TryDials(cfg, config.preferredProtocol.value, net, 0);
    } else {
      ConnectTraceShape(config, net);
      BearingIsEntries(cfg);
    }
    forall i | 0 <= i < |t| ensures DialIsByProtocol(cfg, t[i], net(i)) { DialFollowsRules(cfg, t, net, i); }
  }

  /** With neither an endpoint nor a worker configured, the worker is the local one; otherwise the
      configuration stands. */
  lemma ResolvesToLocal(cfg: Config)
    ensures cfg.endpoint.Some? || cfg.selectedWorker.Some? ==> Resolve(cfg) == cfg
    ensures cfg.endpoint.None? && cfg.selectedWorker.None? ==>
              && Resolve(cfg).selectedWorker.Some?
              && Resolve(cfg) == cfg.(selectedWorker := Resolve(cfg).selectedWorker)
              && var w := Resolve(cfg).selectedWorker.value;
                 && w.id == Ascii("local-1") && w.region == Ascii("us-east")
                 && w.quic == Some(Ascii("127.0.0.1:4433")) && w.grpc == Some(Ascii("http://127.0.0.1:10000"))
                 && w.websocket == Some(Ascii("ws://127.0.0.1:9000/ws"))
                 && w.http == Some(Ascii("http://127.0.0.1:9000"))
                 && w.legacyQuic == w.legacyGrpc == w.legacyWebsocket == None
  {
    hide Ascii;
  }
}

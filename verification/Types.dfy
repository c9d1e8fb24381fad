/** The SDK records that several components exchange (src/types.rs). */
module Types {
  import opened Prelude

  /** Texts are byte strings: UTF-8 decoding and base58 are taken as the identity. */
  type Name = seq<byte>

  /** A seven-bit text constant. */
  function Ascii(s: string): (name: Name)
    ensures |name| == |s| && forall i :: 0 <= i < |s| && (s[i] as int) < 128 ==> name[i] == s[i] as int
  {
    seq(|s|, i requires 0 <= i < |s| => (s[i] as int) % 128)
  }

  datatype LeaderHint = LeaderHint(
    timestamp: nat,
    slot: nat,
    expiresAtSlot: nat,
    preferredRegion: Name,
    backupRegions: seq<Name>,
    confidence: nat,
    leaderPubkey: Name,
    tpuRttMs: nat,
    regionRttMs: Option<map<Name, nat>>)

  /** The five push streams, on every transport. */
  datatype StreamKind = LeaderHints | TipInstructions | PriorityFees | LatestBlockhash | LatestSlot

  datatype TransactionStatus =
    | Pending | Processing | Sent | Confirmed | Failed | Duplicate | RateLimited | InsufficientTokens

  datatype RoutingInfo = RoutingInfo(
    region: Name,
    sender: Name,
    routingLatencyMs: nat,
    senderLatencyMs: nat,
    totalLatencyMs: nat)

  datatype TransactionResult = TransactionResult(
    transactionId: Name,
    signature: Option<Name>,
    status: TransactionStatus,
    slot: Option<nat>,
    slotSent: Option<nat>,
    slotAccepted: Option<nat>,
    slotLanded: Option<nat>,
    slotDelta: Option<nat>,
    routing: Option<RoutingInfo>,
    error: Option<Name>)

  datatype Protocol = Quic | Grpc | WebSocket | Http

  datatype WorkerEndpoint = WorkerEndpoint(
    id: Name,
    region: Name,
    quic: Option<Name>,
    grpc: Option<Name>,
    websocket: Option<Name>,
    http: Option<Name>,
    legacyQuic: Option<Name>,
    legacyGrpc: Option<Name>,
    legacyWebsocket: Option<Name>)

  datatype FallbackStrategy = Sequential | Broadcast | Retry | NoFallback

  datatype Recommendation = Recommendation(
    bestRegion: Name,
    leaderPubkey: Name,
    slot: nat,
    confidence: nat,
    expectedRttMs: Option<nat>,
    fallbackRegions: seq<Name>,
    fallbackStrategy: FallbackStrategy,
    validForMs: nat)

  /** One cached ping of a worker (src/connection/selector.rs). */
  datatype Measurement = Measurement(rttMs: nat, measuredAt: int, reachable: bool)
}

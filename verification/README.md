# Slipstream SDK verification

A Dafny model of the stateful and protocol-level parts of the Slipstream client SDK, with proofs.
`dafny verify dfyconfig.toml` checks all of it. Each file models one component:

- `Wire`, `QuicStreams`, `QuicFraming`, `QuicResponse`: the QUIC binary codec. Cursor methods over
  arbitrary bytes, an encoder for each layout, the framing loop of a subscription, and the reply parser
  that degrades gracefully.
- `WsSubmit`, `WsDemux`, `WsHistory`: the WebSocket submission loop, the step system of one receiver and any
  number of consumers that share its queue under a lock, and what a run says about each consumer.
- `WsSharing`, `WsHeartbeat`, `WsDeadline`, `WsClock`, `WsSession`: what sharing the queue and its lock costs,
  when heartbeats are answered, when a submission can end without a message, how long after its deadline it
  returns, and its outcome.
- `ClockSync`, `Dedup`, `ClientSubmit`: ping arithmetic and the sliding window, the deduplication cache,
  and serialized submissions with their counters.
- `Router`, `RegionSubmit`, `MultiRegion`: the leader-following router, the fallback strategies as traces of
  attempts, broadcast to the fastest regions, and repeated submissions over the clients of the regions.
- `FallbackChain`, `WorkerConnect`, `WorkerSelection`, `Health`: dialing, ranking and trying workers,
  worker selection from a cache of pings, and the monitor that reconnects with backoff.
- `Prelude`, `Types`, `BigEndian`, `StableSort`: shared types, integer encodings and the stable sort.

Conventions. Time is an integer clock in milliseconds, read where the source reads it and passed in by
the caller. Network results, random draws and ping answers are parameters; hash-map iteration is a
nondeterministic choice. Machine integers are unbounded, and every place where the source can wrap
(u64 products and counters, i64 offsets, the u32 failure counter, masked shifts) is written out as in a
release build. Texts are byte strings. A functional specification stands beside each method that loops or
changes state; the method is proved equal to it and the laws below are proved about it.

What the proofs found where the code differs from what its comments or documentation suggest:

- A reply longer than 1024 bytes (a long error message) is never parsed; the round trip holds exactly up
  to that size (`QuicResponse.ReplyReceivedIffItFits`).
- The client remembers and counts as confirmed every Ok reply, also one whose status is Failed. A QUIC
  reply therefore blocks the retry of the same bytes for a minute iff it fits the 1024 bytes; a longer one ends in
  a connection error, which blocks nothing (`ClientSubmit.ReplyBlocksRetryIff`). For a server error without
  other fields that is a text of at most 1004 bytes (`ClientSubmit.ServerErrorBlocksRetry`).
  The cache is keyed by the transaction bytes; `dedup_id`, which README.md of the SDK describes, plays no part in it.
- A WebSocket update with status "confirmed" or "failed" ends the wait with the status of the message
  before it; only the dedicated messages set Confirmed or Failed (`WsSubmit.ResultShape`,
  `WsSubmit.ConfirmedUpdateIsNotConfirmed`).
- The TTL of the deduplication cache holds for one region only: a multi-region client keeps a cache for each,
  and takes a duplicate for a failed region. The same bytes sent again within the minute are not stopped but
  served by the next region of the plan, until each region has served them once
  (`MultiRegion.ServedIff`, `MultiRegion.ResubmissionMovesOn`); a broadcast can be served by all of its regions
  in one call (`MultiRegion.BroadcastServesEach`).
- WebSocket subscriptions and submissions are not independent: another consumer can take and drop a message
  for good (`WsSharing.DiscardedIsNeverDelivered`). Subscriptions and submissions, with receivers open or
  dropped, share the queue without loss in every run iff no receiver is open, or all are open and want the same
  (`WsSharing.SharingIsLosslessIff`). Each open one is given all that it wants itself only if it has the queue
  to itself (`WsSharing.IndependentIff`).
- So a subscription can take the confirmation of a submission: the submission times out, and the client
  lets the same bytes be sent again (`WsSession.StolenConfirmation`).
- A submission can outlast its deadline, whoever holds the lock of the queue: the time that remains is computed
  before the wait for the lock. A submission that times out in its wait for a message returns at its deadline
  plus the lock wait of that round, so on time iff it got the lock at once, and none returns later than that
  (`WsClock.TimedOutAt`, `WsClock.ReturnsBy`). Behind another submission the two deadlines add up, behind an idle
  subscription there is no bound (`WsClock.LateBehindSubmission`, `WsClock.LateBehindSubscription`). While
  nothing arrives, it can end by itself iff it does not wait for the lock of the empty queue behind another
  consumer (`WsDeadline.EndsAloneIff`).
- A QUIC subscription reads whatever stream the server opened next. It delivers what was sent there iff that
  stream is of its own kind, or empty, and otherwise nothing (`QuicFraming.TasksDeliverIff`).
- A heartbeat is answered without the help of a consumer iff the messages before it fit into the queue
  (`WsHeartbeat.HeartbeatAnsweredIff`); without consumers, 257 of them are too many
  (`WsHeartbeat.BacklogBlocksHeartbeatIff`). With one subscription that the application does not read, it is
  answered iff what comes after the 33rd wanted message fits into the queue (`WsHeartbeat.UnreadAnsweredIff`);
  290 messages of its kind are too many (`WsHeartbeat.UnreadBacklogIff`).
- The health monitor sees only the `connected` flag, which nothing but `disconnect` clears
  (`Health.DownIffDisconnected`). It never notices a connection closed by the peer, and all that it repairs
  are the application's own disconnects (`Health.OnlyDisconnectsAreRepaired`, `Health.DisconnectIsUndone`).
- It drops each receiver it gets from subscribing again. These subscriptions deliver nothing
  (`WsSharing.DroppedAtOnceDeliversNothing`), but each costs at most one message of its
  own kind, and any number of others until then (`WsHistory.AtMostOneWantedLoss`, `WsSharing.DroppedStillSwallows`).
- The fee cost product, the retry delay and `valid_for_ms` are exact under the conditions of
  `QuicStreams.FeeCostExact`, `RegionSubmit.RetryDelayExact` and `Router.ValidForIsExact` and wrap otherwise.
- The router only ever installs the Sequential strategy, so Broadcast, Retry and None are never reached through
  leader hints (`RegionSubmit.RoutedSubmissionsAreSequential`); a broadcast opens no connection
  (`RegionSubmit.BroadcastNeedsAConnectedRegion`), and it returns the earliest success in region order, not in time.
- The first reconnect failure waits about 2 s, not 1 s as the comment at src/connection/health.rs:164 says.

## Model

| member | source | states |
|---|---|---|
| `Wire.DecodeExact` | src/connection/quic.rs:746-821 | bytes decode to given fields iff they begin with the tag and the encoding of these fields |
| `Wire.StrictPrefixRejected` | src/connection/quic.rs:746-821 | encodings are prefix-free: no proper prefix of one is accepted |
| `BigEndian.FirstByteIsMostSignificant` | src/connection/quic.rs:304 | integers are read with the most significant byte first |
| `QuicStreams.DecodeLeaderHint` | src/connection/quic.rs:757-829 | on every byte string the cursor stays in bounds and yields the hint whose encoding the bytes begin with, or nothing |
| `QuicStreams.DecodeTipInstruction` | src/connection/quic.rs:852-975 | the same for tip instructions, with their three texts and five numbers |
| `QuicStreams.DecodePriorityFee` | src/connection/quic.rs:993-1039 | the same for priority fees |
| `QuicStreams.DecodeLatestBlockhash` | src/connection/quic.rs:1059-1087 | the same for blockhashes |
| `QuicStreams.DecodeLatestSlot` | src/connection/quic.rs:1105-1121 | the same for slots |
| `QuicStreams.AcceptsExactlyEncodings` | src/connection/quic.rs:746-1122 | each decoder accepts exactly the strings that begin with an encoding, whatever follows, and returns that record |
| `QuicStreams.TruncatedEncodingRejected` | src/connection/quic.rs:746-1122 | every strict prefix of an encoding is rejected |
| `QuicStreams.NoByteStringAcceptedTwice` | src/connection/quic.rs:746-1122 | no byte string is accepted by two of the five decoders |
| `QuicStreams.LeaderHintOnTheWire` | src/connection/quic.rs:747-829 | a hint laid out byte by byte comes back with its texts; slot, confidence and expiry are the rounded-down quotients and the exact sum |
| `QuicStreams.TipInstructionOnTheWire` | src/connection/quic.rs:839-975 | a tip laid out byte by byte comes back field by field |
| `QuicStreams.PriorityFeeOnTheWire` | src/connection/quic.rs:986-1039 | a fee laid out byte by byte comes back with its numbers, the tiers by their thresholds (50, 75; 25, 50, 75, 90; 10000, 100000) and the cost for 200000 units modulo 2^64 |
| `QuicStreams.LatestBlockhashOnTheWire` | src/connection/quic.rs:1052-1087 | the same for a blockhash |
| `QuicStreams.LatestSlotOnTheWire` | src/connection/quic.rs:1100-1121 | the same for a slot |
| `QuicStreams.DecodedHintExpiry` | src/connection/quic.rs:812-818 | a decoded hint never expires before its slot, the difference fits u32 and nothing overflows |
| `QuicStreams.FeeCostExact` | src/connection/quic.rs:1018-1021 | the u64 cost product is the true one iff the price is at most 92233720368547 |
| `QuicStreams.EncodingsFitAFrame` | src/connection/quic.rs:304-305 | every encoding has a legal frame length |
| `QuicFraming.ReadSubscription` | src/connection/quic.rs:277-347 | the loop delivers the decodable messages of the complete frames in order, until the receiver is dropped |
| `QuicFraming.UndecodableIsSkipped` | src/connection/quic.rs:331-346 | a message that does not decode is passed over and the others are delivered |
| `QuicFraming.MessagesInvertFrames` | src/connection/quic.rs:277-347 | unframing inverts framing, for any messages of 1 to 4096 bytes and any stuck rest |
| `QuicFraming.EveryStreamSplits` | src/connection/quic.rs:277-347 | every byte stream is good frames followed by a rest at which the loop stops |
| `QuicFraming.CutStreamDeliversWholeFrames` | src/connection/quic.rs:283-330 | wherever the stream is cut, exactly the complete frames are delivered |
| `QuicFraming.BadLengthStopsDelivery` | src/connection/quic.rs:304-312 | a zero or oversized length delivers exactly the good prefix and stops |
| `QuicFraming.FrameDeliveredIff` | src/connection/quic.rs:304-330 | a frame is delivered iff its length is 1 to 4096; any other length ends the stream |
| `QuicFraming.SubscriptionDeliversEveryRecord` | src/connection/quic.rs:277-347 | on an accepted stream of the task's own kind, the records encoded and framed are the records delivered, for all five kinds |
| `QuicFraming.CrossedStreamDeliversNothing` | src/connection/quic.rs:252-255 | on an accepted stream of another kind nothing is delivered |
| `QuicFraming.TasksDeliverIff` | src/connection/quic.rs:205-352 | for any assignment of the server's streams to the tasks, each task delivers the records of its stream iff that is of its kind, or has none, and otherwise nothing |
| `QuicResponse.ParseReply` | src/connection/quic.rs:543-739 | on every byte string all indices and the remaining-length subtraction are safe, and the reply is the specified one |
| `QuicResponse.ParseText` | src/connection/quic.rs:585-631 | the text step reads a whole non-empty text or skips what is there |
| `QuicResponse.ParseSlot` | src/connection/quic.rs:633-671 | the slot step reads a flagged slot or only its flag |
| `QuicResponse.RoundTrip` | src/connection/quic.rs:554-686 | parsing the encoding of any reply returns it unchanged |
| `QuicResponse.AnyMarksAreRead` | src/connection/quic.rs:556-671 | any non-zero byte announces a signature and only 1 announces a slot: with any other marks the reply is read the same |
| `QuicResponse.TruncatedReply` | src/connection/quic.rs:549-686 | a reply cut after k >= 6 bytes yields exactly the fields that end within k, although a cut slot is read again as a flag |
| `QuicResponse.LongerCutsRefine` | src/connection/quic.rs:549-686 | fields present after a cut stay present and equal after every longer cut and in the original |
| `QuicResponse.TruncatedRouting` | src/connection/quic.rs:699-711 | a cut reply shows no routing text the server did not send, and its three latencies are those sent or all zero |
| `QuicResponse.ReplyReceivedIffItFits` | src/connection/quic.rs:543-551 | the reply is received intact iff it has at most 1024 bytes |
| `QuicResponse.ReceivedReplyFields` | src/connection/quic.rs:688-739 | the result carries the fields as sent; Sent, Duplicate and RateLimited are the status bytes 1, 2 and 3, Failed any other; the routing latencies add up |
| `QuicResponse.ReplyKinds` | src/connection/quic.rs:543-551 | on every byte string: a connection error over 1024 bytes, a protocol error under 6, a result otherwise |
| `ClockSync.TimeSyncState.Record` | src/client.rs:60-66 | the window is always the last max_samples results of everything recorded |
| `ClockSync.TimeSyncState.MedianOffset` | src/client.rs:78-86 | the upper median of the window's offsets |
| `ClockSync.TimeSyncState.MedianRtt` | src/client.rs:68-76 | the upper median of the window's round-trip times |
| `ClockSync.PingMeasures` | src/connection/quic.rs:1179-1187 | the round trip is the time between sending and receiving, zero if that is negative; the offset is from the middle of the two |
| `ClockSync.WindowIsTheLatest` | src/client.rs:60-66 | the window holds the latest results of the log, in their order |
| `ClockSync.LatencyIsHalfTheMedian` | src/client.rs:1125-1127 | the latency is half the median round trip, rounded down |
| `ClockSync.ServerTimeIsCorrected` | src/client.rs:1135-1142 | the server time is the local time plus the median offset, or the local time without samples |
| `StableSort.MajorityBoundsMedian` | src/client.rs:78-86 | when a strict majority lies in an interval, so does the median |
| `StableSort.MedianSplits` | src/client.rs:68-86 | at most half of the values are below the median and more than half are not above it |
| `ClockSync.MedianOffsetErrorBound` | src/connection/quic.rs:1179-1180 | with a strict majority of honest samples of round trip at most R, the median offset is within ceil(R/2) of the true one, and the latency at most R/2 |
| `ClockSync.ServerTimeErrorBound` | src/client.rs:1135-1142 | the reported server time has the same error bound |
| `ClockSync.ErrorBoundIsAttained` | src/connection/quic.rs:1179-1180 | the bound is tight |
| `ClockSync.HalfIsNotEnough` | src/client.rs:78-86 | with only half of the samples honest the median can be off by any amount |
| `Dedup.DedupCache.IsDuplicate` | src/client.rs:107-114 | the answer is that of the unbounded log |
| `Dedup.DuplicateIff` | src/client.rs:107-114 | the bytes are a duplicate iff their last record is less than 60000 ms old |
| `Dedup.DedupCache.Record` | src/client.rs:117-126 | the record is logged and the agreement with the log survives the cleanup |
| `Dedup.Put` | src/client.rs:117-126 | times are kept; above 1000 entries an entry stays iff it has not expired when the sweep looks at it, below all stay |
| `Dedup.CacheRefinesLog` | src/client.rs:107-126 | over every run of records, queries and clock advances, eviction never changes an answer |
| `ClientSubmit.SlipstreamClient.Submit` | src/client.rs:424-459 | one submission updates log and counters as the step function says |
| `ClientSubmit.BlockedIff` | src/client.rs:424-459 | a call is blocked iff an earlier Ok call with the same bytes was recorded less than 60 s before; failed calls never block |
| `ClientSubmit.AnswerIsPassedOn` | src/client.rs:424-459 | over every run the result of a call is the transport's answer as it is, unless an earlier Ok call with the same bytes was recorded less than 60000 ms before, and then the client's own error |
| `ClientSubmit.AtMostOncePerTtl` | src/client.rs:424-459 | on one client, two Ok results for identical bytes are at least 60 s apart |
| `ClientSubmit.MetricsAreCounts` | src/client.rs:449-456 | submitted, confirmed and total latency are the counts and sums over the run modulo 2^64, and confirmed never exceeds submitted |
| `ClientSubmit.LastLatencyIsOfLastSent` | src/client.rs:449 | the last latency is that of the last call that reached the transport |
| `ClientSubmit.ReplyBlocksRetryIff` | src/client.rs:453-456 | every well-formed server reply blocks the retry of the same bytes iff its encoding has at most 1024 bytes and the TTL has not passed; a longer one is a connection error |
| `ClientSubmit.ServerErrorBlocksRetry` | src/client.rs:453-456 | a server error without other fields is an Ok reply with status Failed up to a text of 1004 bytes, and blocks the retry exactly then and within the TTL |
| `Router.RoutingState.UpdateFromHint` | src/multi_region.rs:359-413 | one hint moves the route and the sent recommendations as the step function says |
| `Router.RoutingState.Listen` | src/multi_region.rs:433-472 | the listener's inline copy is the fold of that same step |
| `Router.RouteInvariant` | src/multi_region.rs:359-413 | after every run: a route exists iff a switch time does, it is the last one sent, every installed route meets the threshold, and switch times count exactly the region changes |
| `Router.HintTakesEffectIff` | src/multi_region.rs:359-413 | from every state, a hint becomes the route, with its fields, iff it meets the threshold outside the cooldown; otherwise nothing changes; the switch time moves only with the region |
| `Router.SwitchesAreSpaced` | src/multi_region.rs:370-376 | the i-th and j-th switch are at least (j - i) cooldowns apart |
| `Router.SwitchRateBound` | src/multi_region.rs:370-376 | at most T / cooldown + 1 switches in time T |
| `Router.FrozenDuringCooldown` | src/multi_region.rs:370-376 | no hint checked during a cooldown changes or sends anything |
| `Router.ValidForIsExact` | src/multi_region.rs:386 | valid_for_ms is 400 ms per slot iff the hint does not expire before its slot and the product fits |
| `Router.QuicHintsAreValidExactly` | src/multi_region.rs:386 | every hint from the QUIC decoder is of that kind |
| `RegionSubmit.GetBroadcastRegions` | src/multi_region.rs:478-519 | no duplicates, min(max, distinct) regions, ascending by least reachable round trip, and no excluded region faster than an included one |
| `RegionSubmit.RegionRtt` | src/multi_region.rs:491-499 | the least reachable round trip of the region's workers, or u64::MAX |
| `RegionSubmit.BroadcastTransaction` | src/multi_region.rs:257-292 | the earliest Ok in region order, a configuration error without regions, failure iff all regions fail |
| `RegionSubmit.BroadcastOutcome` | src/multi_region.rs:257-292 | it succeeds iff one of the fastest regions answers, with the answer of the first of these; a configuration error iff there is no region, else a transaction error |
| `RegionSubmit.BroadcastNeedsAConnectedRegion` | src/multi_region.rs:267-281 | a broadcast succeeds only in a region that already has a client |
| `RegionSubmit.SubmitTransaction` | src/multi_region.rs:176-254 | the trace is the prefix of the strategy's plan up to the first success, which is the result; an error iff all attempts fail |
| `RegionSubmit.TraceIsAsPlanned` | src/multi_region.rs:206-250 | the first attempt goes to the best region, then the fallbacks in order, or the same region after 100 * 2^k ms, each only after a failure |
| `RegionSubmit.DefaultIsFirstWorker` | src/multi_region.rs:522-528 | without a route the best region is that of the first worker |
| `RegionSubmit.RetryDelayExact` | src/multi_region.rs:231-233 | the delay before retry k is 100 * 2^k ms iff k <= 57 |
| `RegionSubmit.RetryDelayWraps` | src/multi_region.rs:231-233 | beyond that it is the product modulo 2^64, and starts over with the 64th retry |
| `RegionSubmit.RetryBudget` | src/multi_region.rs:229-247 | at most 1 + max_retries attempts on one region, with cumulative delay 100 * (2^(k+1) - 2) ms before retry k |
| `RegionSubmit.RoutedSubmissionsAreSequential` | src/multi_region.rs:378-387 | over every hint run the routed plan is the best region and then the backups |
| `MultiRegion.ServedIff` | src/client.rs:424-459 | over every history, a region serves the bytes iff its transport does and that region returned no Ok for them within the TTL |
| `MultiRegion.OncePerRegion` | src/multi_region.rs:294-308 | two Ok results for the same bytes within the TTL come from different regions |
| `MultiRegion.SubmissionFlows` | src/multi_region.rs:206-227 | the trace of a sequential submission whose answers come from the regions' clients is, region by region, the flow up to the first served one, and it is Ok iff the last is served |
| `MultiRegion.CallEndsAtFirst` | src/multi_region.rs:206-227 | it ends at the first region of the plan without a recent Ok whose transport answers, a blocked duplicate counting as a failed region |
| `MultiRegion.ResubmissionMovesOn` | src/multi_region.rs:206-227 | sent again within the TTL, the c-th call with the same bytes is served by the c-th region, and refused only when all have served |
| `MultiRegion.ResubmissionsExist` | src/multi_region.rs:206-227 | there are such runs for every plan and any number of calls |
| `MultiRegion.BroadcastServesEach` | src/multi_region.rs:257-283 | each region of a broadcast serves the bytes iff it could before the call, whatever the others do |
| `FallbackChain.TryProtocolWith` | src/connection/mod.rs:168-198 | the dials of one protocol and the result of the last |
| `FallbackChain.ConnectChain` | src/connection/mod.rs:91-143 | the whole trace; the first success or the last dial's error, AllProtocolsFailed without dials |
| `FallbackChain.TryShape` | src/connection/mod.rs:168-214 | one protocol: a primary dial, a legacy dial under the legacy rule only, within one or two deadlines |
| `FallbackChain.ChainShape` | src/connection/mod.rs:118-142 | primaries are dialed in order over the protocols with an endpoint up to the first success, legacy exactly after a failed connect with a different legacy endpoint, each dial within its deadline |
| `FallbackChain.ConnectTraceShape` | src/connection/mod.rs:91-143 | at most 7 dials, total time within 2(quic+grpc+ws)+http; no dial iff every protocol lacks an endpoint, and AllProtocolsFailed iff no dial unless a dial itself reports it |
| `FallbackChain.EveryDialIs` | src/connection/mod.rs:91-214 | each dial goes to the primary or legacy address of its protocol and is cut at its own deadline; the primaries are those of QUIC, gRPC, WebSocket and HTTP that the worker has, in this order, or only the preferred one |
| `FallbackChain.ResolvesToLocal` | src/connection/mod.rs:93-115 | the local worker is used iff neither an endpoint nor a worker is configured |
| `WorkerConnect.RankingIsStableAndAscending` | src/client.rs:205-212 | the ranking is a stable permutation ascending by reachable round trip, unreachable workers last |
| `WorkerConnect.EstablishmentIs` | src/client.rs:236-250 | Ok over p iff the last dial succeeded over p and, unless p is QUIC, the second connect did; otherwise the error of the last dial, or of the second connect |
| `WorkerConnect.Establish` | src/client.rs:236-250 | the chain and then the second connect, which QUIC answers from its session, end in just that |
| `WorkerConnect.Connect` | src/client.rs:205-262 | workers are tried in rank order up to the first whose dials and second connect succeed, and its configuration names it and the region; otherwise the last worker's error |
| `WorkerConnect.QuicWorkerNeedsOneDial` | src/connection/quic.rs:363-378 | a worker that answers its first QUIC dial is accepted by that dial alone |
| `WorkerSelection.SelectionIsUnique` | src/connection/selector.rs:110-140 | cache and clock determine the selected worker |
| `WorkerSelection.FirstStaffedIsFirst` | src/connection/selector.rs:224-247 | the hinted region is the first staffed one among preferred and backups |
| `WorkerSelection.LeaderRegionIsStaffed` | src/connection/selector.rs:200-253 | the cascade ends in a staffed region, or in any region only when none it looks at is staffed |
| `WorkerSelection.WorkerSelector.MeasureWorkers` | src/connection/selector.rs:278-298 | every pinged id gets one of its ping results, all others keep theirs |
| `WorkerSelection.WorkerSelector.LowestLatency` | src/connection/selector.rs:111-126 | the first worker of least round trip among the fresh reachable ones |
| `WorkerSelection.WorkerSelector.SelectBest` | src/connection/selector.rs:85-140 | an error iff there are no workers; pings exactly when nothing usable is cached; the first best, or the first worker |
| `WorkerSelection.WorkerSelector.SelectBestInRegion` | src/connection/selector.rs:143-194 | the same within one region |
| `WorkerSelection.WorkerSelector.SelectForLeader` | src/connection/selector.rs:200-253 | succeeds iff a worker exists and selects within the cascade's region |
| `WorkerSelection.Nearest` | src/connection/selector.rs:204-207 | a region of least round trip, any of them on a tie |
| `WorkerSelection.SelectionAfterInvalidate` | src/connection/selector.rs:368-371 | after one measurement is forgotten, that worker is selected only as the first of unusable ones; if nothing else was usable, it is pinged again |
| `WorkerSelection.SelectionAfterInvalidateAll` | src/connection/selector.rs:374-377 | the next selection pings every candidate, keeps nothing older, and selects a least reachable ping, or the first candidate when none is usable |
| `WorkerSelection.OldMeasurementsDoNotCount` | src/connection/selector.rs:91-126 | a measurement at least ttl old, or unreachable, is never selected on; pings are made iff there is no other; a selected worker that is not the first candidate has a recent one |
| `WorkerSelection.RegionKeepsOrder` | src/connection/selector.rs:143-151 | the candidates of a region are its workers in list order |
| `WorkerSelection.RegionalFallbackIsFirst` | src/connection/selector.rs:187-193 | the regional fallback is the first worker of the region in the list |
| `WorkerSelection.PingsAreStored` | src/connection/selector.rs:278-298 | a ping is stored as answered; a worker without an HTTP endpoint counts as unreachable |
| `Health.Backoff` | src/connection/health.rs:163-179 | for all draws the delay is at least 3/4 and less than 5/4 of the capped delay |
| `Health.BackoffStrictlyIncreases` | src/connection/health.rs:163-179 | for all draws failure k waits strictly less than failure k + 1 while k < 6 |
| `Health.BackoffPlateau` | src/connection/health.rs:163-179 | from the sixth failure the delay is within 45000 to 74999 ms, and both ends occur |
| `Health.BackoffTable` | src/connection/health.rs:163-179 | the exact range of each of the first five waits, with both ends drawn |
| `Health.DownIffDisconnected` | src/connection/quic.rs:462 | a check finds a transport down iff every successful connect was followed by a disconnect |
| `Health.MonitorLoop` | src/connection/health.rs:80-119 | over checks of the flag, the counter is the current run of failed reconnects modulo 2^32, one sleep per failure, one resubscription per success |
| `Health.FailureRunIsSinceLastGood` | src/connection/health.rs:80-119 | the counter counts the checks since the last one that did not fail |
| `Health.ReachesIff` | src/connection/health.rs:182-198 | a reconnect succeeds iff a dial does and then the second connect, where QUIC needs none |
| `Health.OnlyDisconnectsAreRepaired` | src/connection/health.rs:84-92 | over every run, at most as many reconnects as disconnects, and not even an attempt without one, whatever the peer closes |
| `Health.DisconnectIsUndone` | src/client.rs:392-398 | a disconnect right before a check is undone by it when the network is up, with the tracked streams |
| `Health.OutageSleep` | src/connection/health.rs:80-119 | an outage of n failures sleeps between 3/4 and 5/4 of the summed capped delays |
| `Health.LongOutageSleep` | src/connection/health.rs:163-179 | for n >= 5 these bounds in closed form, 3/4 and 5/4 of 62 s plus a minute for each failure after the fifth |
| `Health.Resubscribe` | src/connection/health.rs:127-160 | every tracked stream is subscribed once again, whichever of the calls fail, and each new receiver is dropped at once |
| `WsSubmit.SubmitLoop` | src/connection/websocket.rs:585-702 | the loop is the fold that stops at the first decisive round |
| `WsSubmit.OutcomeInFull` | src/connection/websocket.rs:597-702 | the first round that is late, silent, closed or ends the wait decides: timeout, connection error, or a result whose transaction id, signature, slots, status, routing and error are each the last reported up to it |
| `WsSubmit.LastWriteIsNewest` | src/connection/websocket.rs:612-672 | the last reported value is that of the newest own message that has one |
| `WsSubmit.OutcomeStable` | src/connection/websocket.rs:598-673 | nothing that arrives after the decision matters |
| `WsSubmit.OutcomeIgnoresOthers` | src/connection/websocket.rs:612-672 | messages of other requests and pushed items do not change the outcome |
| `WsSubmit.FoldKeepsLastReported` | src/connection/websocket.rs:612-672 | every field of the result is the last value reported for it |
| `WsSubmit.OkMeansCompleted` | src/connection/websocket.rs:598-673 | an Ok result comes from exactly the rounds up to the first terminal message in time |
| `WsSubmit.ResultShape` | src/connection/websocket.rs:675-702 | Failed iff an error, Confirmed iff a confirmation ended it, landed slot only then, sent plus delta is landed |
| `WsSubmit.ConfirmedUpdateIsNotConfirmed` | src/connection/websocket.rs:634-641 | an update that says confirmed ends the wait without that status |
| `WsDemux.EveryMessageIsInOnePlace` | src/connection/websocket.rs:293-346 | at all times each received non-heartbeat message is in exactly one of queue, hand, output and discards |
| `WsDemux.RunsKeepOrder` | src/connection/websocket.rs:719-740 | every run keeps queue and outputs in input order and within their capacities |
| `WsDemux.OutputsAreSubsequences` | src/connection/websocket.rs:719-740 | each output is an order-preserving subsequence of the wanted input; each discard is explained |
| `WsDemux.SoleConsumerGetsEverything` | src/connection/websocket.rs:719-740 | a sole open consumer, once drained, has delivered exactly the filtered input |
| `WsHistory.RunsKeepAccounts` | src/connection/websocket.rs:719-740 | in every run the state of each consumer is an account of the actions: what it took is delivered, dropped or in hand, what it locked it waited for, and its loop runs iff it has not met a dropped receiver, given up, or been given a terminal message |
| `WsHistory.NothingAfterTheEnd` | src/connection/websocket.rs:731-737 | after a failed send, a terminal message or a timeout the loop does nothing more in any continuation |
| `WsHistory.AtMostOneWantedLoss` | src/connection/websocket.rs:731-733 | a consumer drops a message that it wants at most once, and only when its receiver is gone and its loop ends |
| `WsHistory.HandDecides` | src/connection/websocket.rs:729-737 | the item in hand is delivered, refused or passed over as want, receiver and the 32 places of the channel say |
| `WsHistory.EmptyHandsDecide` | src/connection/websocket.rs:299-318 | a message is received while fewer than 256 are queued, a heartbeat always; the lock goes to a waiter when free, and its holder takes |
| `WsSharing.DiscardedIsNeverDelivered` | src/connection/websocket.rs:719-740 | a discarded message is delivered in no continuation |
| `WsSharing.SameWantLosesNothing` | src/connection/websocket.rs:719-740 | while all consumers are open and want the same, every wanted message is delivered once drained |
| `WsSharing.SharingIsLosslessIff` | src/connection/websocket.rs:719-740 | for any list of subscriptions and submissions, receivers open or dropped: in every drained run each message that an open one wants is delivered to some consumer iff none is open, or all are open and want the same |
| `WsSharing.OpenSharingIsLosslessIff` | src/connection/websocket.rs:719-740 | for receivers that stay open: between them nothing wanted is lost iff all want the same |
| `WsSharing.IndependentIff` | src/connection/websocket.rs:719-740 | each open one is given all that it wants itself in every drained run iff none is open or there is only one |
| `WsSharing.OtherPartyTakesIt` | src/connection/websocket.rs:595-672 | any consumer that differs from an open one, in its want or by a dropped receiver, can take a message of the latter, and no continuation delivers it |
| `WsSharing.DroppedAtOnceDeliversNothing` | src/connection/health.rs:137-153 | subscriptions whose receivers are dropped at once deliver nothing in any run |
| `WsSharing.DroppedDeliversNoMore` | src/connection/websocket.rs:719-740 | once its receiver is dropped, a consumer delivers nothing more in any continuation |
| `WsSharing.DroppedStillSwallows` | src/connection/websocket.rs:731-733 | next to a dropped receiver the others share without loss iff none of them is open |
| `WsHeartbeat.PongsAnswerHeartbeats` | src/connection/websocket.rs:299-309 | in every run each heartbeat received has been answered: all messages received are the pongs sent and the other messages |
| `WsHeartbeat.HeartbeatAnsweredIff` | src/connection/websocket.rs:299-318 | from any state, a heartbeat can be answered without a take iff the messages before it fit into the queue |
| `WsHeartbeat.BacklogBlocksHeartbeatIff` | src/connection/websocket.rs:299-318 | from the start, a heartbeat behind n messages can be answered without consumers iff n <= 256; beyond that the full queue is reached |
| `WsHeartbeat.FullQueueStopsHeartbeats` | src/connection/websocket.rs:299-318 | with a full queue and a message next, nothing is received, queued or answered until a consumer takes |
| `WsHeartbeat.UnreadAnsweredIff` | src/connection/websocket.rs:716-740 | while the application does not read its one subscription, a heartbeat can be answered iff at most 256 messages come after the 33rd wanted one |
| `WsHeartbeat.UnreadBacklogIff` | src/connection/websocket.rs:716-740 | behind n messages, all wanted, iff n <= 289: channel, hand and queue |
| `WsDeadline.RunsAreWellLocked` | src/connection/websocket.rs:722-728 | in every run the holder of the lock is running with empty hands, and so is everyone who waits for it |
| `WsDeadline.EndsAloneIff` | src/connection/websocket.rs:597-611 | from any state, a submission can end while nothing arrives and no other submission gives up iff it does not wait for the lock of the empty queue behind another consumer |
| `WsDeadline.EndsWithHelpIff` | src/connection/websocket.rs:597-611 | when other submissions may give up first, iff that other consumer is not a subscription |
| `WsClock.TimedOutAt` | src/connection/websocket.rs:597-611 | in every timed run a submission that times out in the receive returns at its deadline plus the lock wait of that round, on time iff that is zero; at the top of the loop it returns when the last message came, between these times, and never before its deadline |
| `WsClock.ReturnsBy` | src/connection/websocket.rs:597-673 | however it ends, a submission returns at most the lock wait of its last round after its deadline |
| `WsClock.WaitsBehindHolder` | src/connection/websocket.rs:603-608 | a wait for the lock takes time only while another consumer holds it and the queue is empty |
| `WsClock.LateBehindSubmission` | src/connection/websocket.rs:597-611 | for all deadlines d1 and d2 there is a timed run in which the second of two submissions returns at d1 + d2 |
| `WsClock.LateBehindSubscription` | src/connection/websocket.rs:722-728 | for every timeout and every delay there is a timed run in which a submission behind a subscription returns late by that delay |
| `WsClock.PlayIsExec` | src/connection/websocket.rs:597-673 | timed runs are runs of the step system |
| `WsDeadline.OneSubscriptionSuffices` | src/connection/websocket.rs:603-608 | such a state is reached with a single subscription |
| `WsSession.OwnTakenIsDelivered` | src/connection/websocket.rs:595-672 | a submission is given, in order, exactly its own messages among those its consumer takes |
| `WsSession.OutcomeIsThatOfOut` | src/connection/websocket.rs:585-702 | whatever the schedule and arrival times, the outcome is that of the messages delivered to the submission, and open iff none is terminal |
| `WsSession.StolenConfirmation` | src/connection/websocket.rs:719-740 | a subscription of any kind can take the terminal message: no schedule delivers it later, the submission times out, and the same bytes are not blocked |

## Left out

- Sockets, TLS, authentication, DNS and endpoint strings: replaced by an outcome for each dial or call.
- REST calls, gRPC and HTTP transports, serde derivations, builders and setters: field copies without an invariant.
- Floating-point fields (SOL amounts, region score, success rate): the integer lamports and counters are kept.
- Lossy UTF-8, base58, UUIDs, logging, the message texts of errors.
- Interleaved submits between duplicate check and record, and callers of the router beside its listener: the laws are about serialized runs.
- Debug builds, where a wrapping operation panics instead.
- The handshake message of the WebSocket connection, and the close of its stream: the transport keeps a sender of its own queue, so the queue never closes while the transport lives.
- `WsDemux.OutputsAreSubsequences`: which waiting consumer gets the lock next is left to the schedule.
- `WorkerSelection.WorkerSelector.LowestLatency`: the two identical selection loops of the source are one method here.
- `QuicResponse.ParseText`: the three inline text steps of the source, which differ in the width of the length, are one method here.
- `FallbackChain.ConnectChain`: an answer that arrives exactly at the deadline counts as in time.
- `WorkerConnect.Connect`: the setup after a connection (health monitor, keepalive, webhook, first tip) and discovery itself.
- `WsSharing.DroppedAtOnceDeliversNothing`: the drop follows the subscription without a step in between; after any gap nothing more is delivered, and what the gap delivered is never read (`WsSharing.DroppedDeliversNoMore`).
- The ticks of the health monitor (every 5 s): a tick missed during a longer sleep is made up at once, so they add to the sleeps of an outage only where a sleep is shorter.
- The worker selection inside `FallbackChain::connect` when nothing is configured: its only worker is the local one, and the time of its ping (up to 2 s) is not part of the total of `FallbackChain.ConnectTraceShape`.
- `WsClock.ReturnsBy`: delays of the scheduler count as zero; `WsClock.TimedOutAt` says when a submission returns, the time that its task needs to wake up comes on top.
- `MultiRegion.ResubmissionMovesOn`: `disconnect_all` forgets the clients and so the caches of all regions; calls are serialized, the concurrent jobs of a broadcast in some order.

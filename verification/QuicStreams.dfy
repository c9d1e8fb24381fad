/** The five push-stream decoders of src/connection/quic.rs, each a cursor over arbitrary
    bytes, specified by one field grammar. */
module QuicStreams {
  import opened Prelude
  import opened BigEndian
  import opened Types
  import opened Wire

  datatype Tier = Low | Medium | High

  datatype Record =
    | Hint(hint: LeaderHint)
    | Tip(sender: Name, wallet: Name, lamports: nat, tier: Name, expectedLatencyMs: nat,
          confidence: nat, validUntilSlot: nat, timestamp: nat)
    | Fee(price: nat, costNumerator: nat, speed: Tier, landingProbability: nat, congestion: Tier,
          sampleCount: nat, timestamp: nat)
    | Blockhash(hash: Name, lastValidHeight: nat, timestamp: nat)
    | Slot(slot: nat, timestamp: nat)

  const COMPUTE_UNIT_LIMIT: nat := 200_000

  function Tag(s: StreamKind): byte {
    match s
    case LeaderHints => 0x02
    case TipInstructions => 0x03
    case PriorityFees => 0x04
    case LatestBlockhash => 0x06
    case LatestSlot => 0x07
  }

  /** The layouts of the wire-format comments, after the stream type byte. */
  function Fields(s: StreamKind): seq<Kind> {
    match s
    case LeaderHints => [Text, Num(2), Num(4), Text, Num(8)]
    case TipInstructions => [Text, Text, Num(8), Text, Num(4), Num(4), Num(8), Num(8)]
    case PriorityFees => [Num(8), Num(1), Num(4), Num(8)]
    case LatestBlockhash => [Text, Num(8), Num(8)]
    case LatestSlot => [Num(8), Num(8)]
  }

  function Speed(percentile: nat): Tier {
    if percentile <= 50 then Low else if percentile <= 75 then Medium else High
  }

  function LandingProbability(percentile: nat): nat {
    if percentile <= 25 then 50
    else if percentile <= 50 then 70
    else if percentile <= 75 then 85
    else if percentile <= 90 then 95
    else 99
  }

  function Congestion(price: nat): Tier {
    if price > 100_000 then High else if price > 10_000 then Medium else Low
  }

  function MakeHint(region: Name, confidence: nat, slotsRemaining: nat, pubkey: Name, timestamp: nat): LeaderHint {
    LeaderHint(timestamp, timestamp / 400, timestamp / 400 + slotsRemaining, region, [], confidence / 100, pubkey, 0,
               None)
  }

  function MakeFee(price: nat, percentile: nat, samples: nat, timestamp: nat): Record {
    Fee(price, price * COMPUTE_UNIT_LIMIT % U64_MODULUS, Speed(percentile), LandingProbability(percentile),
        Congestion(price), samples, timestamp)
  }

  function Interpret(s: StreamKind, vs: seq<Val>): Record
    requires FitsAll(Fields(s), vs)
  {
    match s
    case LeaderHints => Hint(MakeHint(vs[0].text, vs[1].n, vs[2].n, vs[3].text, vs[4].n))
    case TipInstructions =>
      Tip(vs[0].text, vs[1].text, vs[2].n, vs[3].text, vs[4].n, vs[5].n, vs[6].n, vs[7].n)
    case PriorityFees => MakeFee(vs[0].n, vs[1].n, vs[2].n, vs[3].n)
    case LatestBlockhash => Blockhash(vs[0].text, vs[1].n, vs[2].n)
    case LatestSlot => Slot(vs[0].n, vs[1].n)
  }

  function Encode(s: StreamKind, vs: seq<Val>): seq<byte>
    requires FitsAll(Fields(s), vs)
  {
    Message(Tag(s), Fields(s), vs)
  }

  /** The specification of every decoder: the record whose encoding `data` begins with. */
  function DecodeStream(s: StreamKind, data: seq<byte>): Option<Record> {
    match Decode(Tag(s), Fields(s), data)
    case None => None
    case Some(vs) => DecodeExact(Tag(s), Fields(s), data, vs); Some(Interpret(s, vs))
  }

  // ------------------------------------------------------------------ the cursors

  method DecodeLeaderHint(data: seq<byte>) returns (r: Option<LeaderHint>)
    ensures DecodeStream(LeaderHints, data) == if r.Some? then Some(Hint(r.value)) else None
  {
    hide Continue;
    ghost var ks := Fields(LeaderHints);
    if |data| < 2 || data[0] != 0x02 {
      if data == [0x02] { AdvanceText([], ks, 0, data, 1); }
      return None;
    }
    var offset := 1;
    AdvanceText([], ks, 0, data, offset);
    var regionLen: int := data[offset];
    offset := offset + 1;
    if |data| < offset + regionLen + 7 {
      assert MinLength(ks, 3) == 9;
      if |data| >= offset + regionLen {
        NeedsRoom([] + [T(data[offset..offset + regionLen])], ks, 1, data[offset + regionLen..]);
      }
      return None;
    }
    var region := data[offset..offset + regionLen];
    offset := offset + regionLen;
    ghost var done := [] + [T(region)];

    AdvanceNum(done, ks, 1, data, offset);
    var confidence := FromBE(data[offset..offset + 2]);
    offset := offset + 2;
    done := done + [N(confidence)];

    AdvanceNum(done, ks, 2, data, offset);
    var slotsRemaining := FromBE(data[offset..offset + 4]);
    offset := offset + 4;
    done := done + [N(slotsRemaining)];

    AdvanceText(done, ks, 3, data, offset);
    var pubkeyLen: int := data[offset];
    ghost var present := |data| >= offset + 1 + pubkeyLen;
    offset := offset + 1;
    var pubkey: Name := [];
    if pubkeyLen > 0 && offset + pubkeyLen <= |data| {
      pubkey := data[offset..offset + pubkeyLen];
      offset := offset + pubkeyLen;
    } else {
      offset := offset + Min(pubkeyLen, |data| - offset);
    }
    assert present ==> pubkey == data[offset - pubkeyLen..offset];
    done := done + [T(pubkey)];
    assert Decode(0x02, ks, data) == if present then Continue(done, ks, 4, data[offset..]) else None;

    AdvanceNum(done, ks, 4, data, offset);
    if |data| < offset + 8 {
      return None;
    }
    var timestamp := FromBE(data[offset..offset + 8]);
    Finish(done + [N(timestamp)], ks, data[offset + 8..]);
    r := Some(MakeHint(region, confidence, slotsRemaining, pubkey, timestamp));
  }

  method DecodeTipInstruction(data: seq<byte>) returns (r: Option<Record>)
    ensures r == DecodeStream(TipInstructions, data)
  {
    hide Continue, FromBE;
    ghost var ks := Fields(TipInstructions);
    if |data| < 2 || data[0] != 0x03 {
      if data == [0x03] { AdvanceText([], ks, 0, data, 1); }
      return None;
    }
    var offset := 1;
    AdvanceText([], ks, 0, data, offset);
    var senderLen: int := data[offset];
    offset := offset + 1;
    if |data| < offset + senderLen { return None; }
    var sender := data[offset..offset + senderLen];
    offset := offset + senderLen;
    ghost var done := [] + [T(sender)];

    AdvanceText(done, ks, 1, data, offset);
    if |data| < offset + 1 { return None; }
    var walletLen: int := data[offset];
    offset := offset + 1;
    if |data| < offset + walletLen { return None; }
    var wallet := data[offset..offset + walletLen];
    offset := offset + walletLen;
    done := done + [T(wallet)];

    AdvanceNum(done, ks, 2, data, offset);
    if |data| < offset + 8 { return None; }
    var lamports := FromBE(data[offset..offset + 8]);
    offset := offset + 8;
    done := done + [N(lamports)];

    AdvanceText(done, ks, 3, data, offset);
    if |data| < offset + 1 { return None; }
    var tierLen: int := data[offset];
    offset := offset + 1;
    if |data| < offset + tierLen { return None; }
    var tier := data[offset..offset + tierLen];
    offset := offset + tierLen;
    done := done + [T(tier)];

    AdvanceNum(done, ks, 4, data, offset);
    if |data| < offset + 4 { return None; }
    var expectedLatency := FromBE(data[offset..offset + 4]);
    offset := offset + 4;
    done := done + [N(expectedLatency)];

    AdvanceNum(done, ks, 5, data, offset);
    if |data| < offset + 4 { return None; }
    var confidence := FromBE(data[offset..offset + 4]);
    offset := offset + 4;
    done := done + [N(confidence)];

    AdvanceNum(done, ks, 6, data, offset);
    if |data| < offset + 8 { return None; }
    var validUntil := FromBE(data[offset..offset + 8]);
    offset := offset + 8;
    done := done + [N(validUntil)];

    AdvanceNum(done, ks, 7, data, offset);
    if |data| < offset + 8 { return None; }
    var timestamp := FromBE(data[offset..offset + 8]);
    Finish(done + [N(timestamp)], ks, data[offset + 8..]);
    r := Some(Tip(sender, wallet, lamports, tier, expectedLatency, confidence, validUntil, timestamp));
  }

  /** Fixed layout: the source indexes the bytes directly. */
  function DecodePriorityFee(data: seq<byte>): (r: Option<Record>)
    ensures r == DecodeStream(PriorityFees, data)
  {
    FeeLayout(data);
    if |data| < 22 || data[0] != 0x04 then None
    else Some(MakeFee(FromBE(data[1..9]), data[9], FromBE(data[10..14]), FromBE(data[14..22])))
  }

  method DecodeLatestBlockhash(data: seq<byte>) returns (r: Option<Record>)
    ensures r == DecodeStream(LatestBlockhash, data)
  {
    ghost var ks := Fields(LatestBlockhash);
    if |data| < 2 || data[0] != 0x06 {
      if data == [0x06] { AdvanceText([], ks, 0, data, 1); }
      return None;
    }
    var offset := 1;
    AdvanceText([], ks, 0, data, offset);
    var hashLen: int := data[offset];
    offset := offset + 1;
    if |data| < offset + hashLen + 16 {
      if |data| >= offset + hashLen {
        NeedsRoom([] + [T(data[offset..offset + hashLen])], ks, 1, data[offset + hashLen..]);
      }
      return None;
    }
    var hash := data[offset..offset + hashLen];
    offset := offset + hashLen;
    ghost var done := [] + [T(hash)];

    AdvanceNum(done, ks, 1, data, offset);
    var height := FromBE(data[offset..offset + 8]);
    offset := offset + 8;
    done := done + [N(height)];

    AdvanceNum(done, ks, 2, data, offset);
    var timestamp := FromBE(data[offset..offset + 8]);
    Finish(done + [N(timestamp)], ks, data[offset + 8..]);
    r := Some(Blockhash(hash, height, timestamp));
  }

  function DecodeLatestSlot(data: seq<byte>): (r: Option<Record>)
    ensures r == DecodeStream(LatestSlot, data)
  {
    SlotLayout(data);
    if |data| < 17 || data[0] != 0x07 then None
    else Some(Slot(FromBE(data[1..9]), FromBE(data[9..17])))
  }

  lemma SlotLayout(data: seq<byte>)
    ensures Decode(0x07, Fields(LatestSlot), data) ==
            if |data| < 17 || data[0] != 0x07 then None else Some([N(FromBE(data[1..9])), N(FromBE(data[9..17]))])
  {
    hide Continue;
    var ks := Fields(LatestSlot);
    if data != [] && data[0] == 0x07 {
      AdvanceNum([], ks, 0, data, 1);
      if |data| >= 9 {
        var done := [] + [N(FromBE(data[1..9]))];
        AdvanceNum(done, ks, 1, data, 9);
        if |data| >= 17 {
          Finish(done + [N(FromBE(data[9..17]))], ks, data[17..]);
          assert done + [N(FromBE(data[9..17]))] == [N(FromBE(data[1..9])), N(FromBE(data[9..17]))];
        }
      }
    }
  }

  lemma FeeLayout(data: seq<byte>)
    ensures Decode(0x04, Fields(PriorityFees), data) ==
            if |data| < 22 || data[0] != 0x04 then None
            else Some([N(FromBE(data[1..9])), N(data[9]), N(FromBE(data[10..14])), N(FromBE(data[14..22]))])
  {
    hide Continue;
    var ks := Fields(PriorityFees);
    if data != [] && data[0] == 0x04 {
      AdvanceNum([], ks, 0, data, 1);
      if |data| >= 9 {
        var done := [] + [N(FromBE(data[1..9]))];
        AdvanceNum(done, ks, 1, data, 9);
        if |data| >= 10 {
          assert FromBE(data[9..10]) == data[9] by { assert data[9..10] == [data[9]]; assert FromBE([]) == 0; }
          done := done + [N(FromBE(data[9..10]))];
          AdvanceNum(done, ks, 2, data, 10);
          if |data| >= 14 {
            done := done + [N(FromBE(data[10..14]))];
            AdvanceNum(done, ks, 3, data, 14);
            if |data| >= 22 {
              done := done + [N(FromBE(data[14..22]))];
              Finish(done, ks, data[22..]);
              assert done == [N(FromBE(data[1..9])), N(data[9]), N(FromBE(data[10..14])), N(FromBE(data[14..22]))];
            }
          }
        }
      }
    }
  }

  // ------------------------------------------------------------------ main results

  /** A decoder accepts exactly the byte strings that begin with an encoding, whatever
      follows it, and returns the record that was encoded. */
  lemma AcceptsExactlyEncodings(s: StreamKind, data: seq<byte>)
    ensures forall vs :: FitsAll(Fields(s), vs) && Encode(s, vs) <= data ==>
              DecodeStream(s, data) == Some(Interpret(s, vs))
    ensures DecodeStream(s, data).Some? ==> exists vs :: FitsAll(Fields(s), vs) && Encode(s, vs) <= data
  {
    forall vs | FitsAll(Fields(s), vs) && Encode(s, vs) <= data
      ensures DecodeStream(s, data) == Some(Interpret(s, vs))
    {
      DecodeExact(Tag(s), Fields(s), data, vs);
    }
    if DecodeStream(s, data).Some? {
      var vs := Decode(Tag(s), Fields(s), data).value;
      DecodeExact(Tag(s), Fields(s), data, vs);
      assert FitsAll(Fields(s), vs) && Encode(s, vs) <= data;
    }
  }

  lemma TruncatedEncodingRejected(s: StreamKind, vs: seq<Val>, cut: nat)
    requires FitsAll(Fields(s), vs) && cut < |Encode(s, vs)|
    ensures DecodeStream(s, Encode(s, vs)[..cut]).None?
  {
    StrictPrefixRejected(Tag(s), Fields(s), vs, cut);
  }

  lemma NoByteStringAcceptedTwice(s: StreamKind, s': StreamKind, data: seq<byte>)
    requires DecodeStream(s, data).Some? && DecodeStream(s', data).Some?
    ensures s == s'
  {
    assert data[0] == Tag(s) == Tag(s');
  }

  // ------------------------------------------------------------------ byte by byte

  /** A length-prefixed text, as the wire comments write it. */
  function Prefixed(text: Name): seq<byte>
    requires |text| < 256
  {
    [|text|] + text
  }

  predicate Bits(n: nat, bytes: nat) {
    n < Pow256(bytes)
  }

  lemma WriteText(ks: seq<Kind>, vs: seq<Val>, text: Name)
    requires |text| < 256 && FitsAll(ks, vs)
    ensures FitsAll([Text] + ks, [T(text)] + vs)
    ensures Write([Text] + ks, [T(text)] + vs) == Prefixed(text) + Write(ks, vs)
  {
    assert ([Text] + ks)[1..] == ks && ([T(text)] + vs)[1..] == vs;
  }

  lemma WriteNum(ks: seq<Kind>, vs: seq<Val>, w: nat, n: nat)
    requires Bits(n, w) && FitsAll(ks, vs)
    ensures FitsAll([Num(w)] + ks, [N(n)] + vs)
    ensures Write([Num(w)] + ks, [N(n)] + vs) == ToBE(n, w) + Write(ks, vs)
  {
    assert ([Num(w)] + ks)[1..] == ks && ([N(n)] + vs)[1..] == vs;
  }

  /** A leader hint keeps its texts and timestamp; the slot is the timestamp in 400 ms units, the
      confidence the hundredth of the raw one, and it expires the given number of slots later,
      which always fits u64. */
  lemma LeaderHintOnTheWire(region: Name, confidence: nat, slots: nat, pubkey: Name, timestamp: nat, rest: seq<byte>)
    requires |region| < 256 && |pubkey| < 256 && Bits(confidence, 2) && Bits(slots, 4) && Bits(timestamp, 8)
    ensures var r := DecodeStream(LeaderHints, [0x02] + (Prefixed(region) + (ToBE(confidence, 2) + (ToBE(slots, 4) +
                                               (Prefixed(pubkey) + ToBE(timestamp, 8))))) + rest);
            && r.Some? && r.value.hint.preferredRegion == region && r.value.hint.leaderPubkey == pubkey
            && r.value.hint.timestamp == timestamp && r.value.hint.backupRegions == []
            && r.value.hint.tpuRttMs == 0 && r.value.hint.regionRttMs == None
            && 400 * r.value.hint.slot <= timestamp < 400 * r.value.hint.slot + 400
            && 100 * r.value.hint.confidence <= confidence < 100 * r.value.hint.confidence + 100
            && r.value.hint.expiresAtSlot == r.value.hint.slot + slots < U64_MODULUS
  {
    hide ToBE, FromBE, Write, Prefixed, Decode;
    WriteNothing();
    WriteNum([], [], 8, timestamp);
    var ks, vs := [Num(8)] + [], [N(timestamp)] + [];
    WriteText(ks, vs, pubkey);
    ks, vs := [Text] + ks, [T(pubkey)] + vs;
    WriteNum(ks, vs, 4, slots);
    ks, vs := [Num(4)] + ks, [N(slots)] + vs;
    WriteNum(ks, vs, 2, confidence);
    ks, vs := [Num(2)] + ks, [N(confidence)] + vs;
    WriteText(ks, vs, region);
    ks, vs := [Text] + ks, [T(region)] + vs;
    assert ks == Fields(LeaderHints);
    assert ToBE(timestamp, 8) + [] == ToBE(timestamp, 8);
    assert Encode(LeaderHints, vs) <= Encode(LeaderHints, vs) + rest;
    AcceptsExactlyEncodings(LeaderHints, Encode(LeaderHints, vs) + rest);
    Widths();
  }

  lemma TipInstructionOnTheWire(sender: Name, wallet: Name, lamports: nat, tier: Name, latency: nat, confidence: nat,
                                validUntil: nat, timestamp: nat, rest: seq<byte>)
    requires |sender| < 256 && |wallet| < 256 && |tier| < 256
    requires Bits(lamports, 8) && Bits(latency, 4) && Bits(confidence, 4) && Bits(validUntil, 8) && Bits(timestamp, 8)
    ensures DecodeStream(TipInstructions,
                         [0x03] + (Prefixed(sender) + (Prefixed(wallet) + (ToBE(lamports, 8) + (Prefixed(tier) +
                         (ToBE(latency, 4) + (ToBE(confidence, 4) +
                         (ToBE(validUntil, 8) + ToBE(timestamp, 8)))))))) + rest)
            == Some(Tip(sender, wallet, lamports, tier, latency, confidence, validUntil, timestamp))
  {
    hide ToBE, FromBE, Write, Prefixed, Decode, FitsAll;
    TipNumbers(latency, confidence, validUntil, timestamp);
    var ks: seq<Kind>, vs := [Num(4), Num(4), Num(8), Num(8)], [N(latency), N(confidence), N(validUntil), N(timestamp)];
    WriteText(ks, vs, tier);
    ks, vs := [Text] + ks, [T(tier)] + vs;
    WriteNum(ks, vs, 8, lamports);
    ks, vs := [Num(8)] + ks, [N(lamports)] + vs;
    WriteText(ks, vs, wallet);
    ks, vs := [Text] + ks, [T(wallet)] + vs;
    WriteText(ks, vs, sender);
    ks, vs := [Text] + ks, [T(sender)] + vs;
    assert ks == Fields(TipInstructions);
    assert Encode(TipInstructions, vs) <= Encode(TipInstructions, vs) + rest;
    AcceptsExactlyEncodings(TipInstructions, Encode(TipInstructions, vs) + rest);
  }

  lemma TipNumbers(latency: nat, confidence: nat, validUntil: nat, timestamp: nat)
    requires Bits(latency, 4) && Bits(confidence, 4) && Bits(validUntil, 8) && Bits(timestamp, 8)
    ensures var ks: seq<Kind> := [Num(4), Num(4), Num(8), Num(8)];
            var vs := [N(latency), N(confidence), N(validUntil), N(timestamp)];
            FitsAll(ks, vs)
            && Write(ks, vs) == ToBE(latency, 4) + (ToBE(confidence, 4) + (ToBE(validUntil, 8) + ToBE(timestamp, 8)))
  {
    hide ToBE, Write, FitsAll;
    WriteNothing();
    WriteNum([], [], 8, timestamp);
    var ks, vs := [Num(8)] + [], [N(timestamp)] + [];
    WriteNum(ks, vs, 8, validUntil);
    ks, vs := [Num(8)] + ks, [N(validUntil)] + vs;
    WriteNum(ks, vs, 4, confidence);
    ks, vs := [Num(4)] + ks, [N(confidence)] + vs;
    WriteNum(ks, vs, 4, latency);
    ks, vs := [Num(4)] + ks, [N(latency)] + vs;
    assert ks == [Num(4), Num(4), Num(8), Num(8)] && vs == [N(latency), N(confidence), N(validUntil), N(timestamp)];
    assert ToBE(timestamp, 8) + [] == ToBE(timestamp, 8);
  }

  lemma WriteNothing()
    ensures FitsAll([], []) && Write([], []) == []
  {
  }

  lemma LatestBlockhashOnTheWire(hash: Name, height: nat, timestamp: nat, rest: seq<byte>)
    requires |hash| < 256 && Bits(height, 8) && Bits(timestamp, 8)
    ensures DecodeStream(LatestBlockhash, [0x06] + (Prefixed(hash) + (ToBE(height, 8) + ToBE(timestamp, 8))) + rest)
            == Some(Blockhash(hash, height, timestamp))
  {
    hide ToBE, FromBE, Write, Prefixed, Decode;
    WriteNothing();
    WriteNum([], [], 8, timestamp);
    var ks, vs := [Num(8)] + [], [N(timestamp)] + [];
    WriteNum(ks, vs, 8, height);
    ks, vs := [Num(8)] + ks, [N(height)] + vs;
    WriteText(ks, vs, hash);
    ks, vs := [Text] + ks, [T(hash)] + vs;
    assert ks == Fields(LatestBlockhash);
    assert ToBE(timestamp, 8) + [] == ToBE(timestamp, 8);
    assert Encode(LatestBlockhash, vs) <= Encode(LatestBlockhash, vs) + rest;
    AcceptsExactlyEncodings(LatestBlockhash, Encode(LatestBlockhash, vs) + rest);
  }

  /** Slots and fees have no texts, so they sit at fixed offsets. */
  lemma LatestSlotOnTheWire(slot: nat, timestamp: nat, rest: seq<byte>)
    requires Bits(slot, 8) && Bits(timestamp, 8)
    ensures DecodeStream(LatestSlot, [0x07] + (ToBE(slot, 8) + ToBE(timestamp, 8)) + rest) ==
            Some(Slot(slot, timestamp))
  {
    hide ToBE, FromBE;
    var data := [0x07] + (ToBE(slot, 8) + ToBE(timestamp, 8)) + rest;
    assert data[1..9] == ToBE(slot, 8) && data[9..17] == ToBE(timestamp, 8);
    FromTo(slot, 8);
    FromTo(timestamp, 8);
    SlotLayout(data);
  }

  lemma PriorityFeeOnTheWire(price: nat, percentile: byte, samples: nat, timestamp: nat, rest: seq<byte>)
    requires Bits(price, 8) && Bits(samples, 4) && Bits(timestamp, 8)
    ensures DecodeStream(PriorityFees,
                         [0x04] + (ToBE(price, 8) + ([percentile] + (ToBE(samples, 4) + ToBE(timestamp, 8)))) + rest)
            == Some(Fee(price, price * 200_000 % U64_MODULUS,
                        if percentile <= 50 then Low else if percentile <= 75 then Medium else High,
                        if percentile <= 25 then 50 else if percentile <= 50 then 70 else if percentile <= 75 then 85
                        else if percentile <= 90 then 95 else 99,
                        if price > 100_000 then High else if price > 10_000 then Medium else Low,
                        samples, timestamp))
  {
    hide ToBE, FromBE;
    var data := [0x04] + (ToBE(price, 8) + ([percentile] + (ToBE(samples, 4) + ToBE(timestamp, 8)))) + rest;
    assert data[1..9] == ToBE(price, 8) && data[10..14] == ToBE(samples, 4) && data[14..22] == ToBE(timestamp, 8);
    FromTo(price, 8);
    FromTo(samples, 4);
    FromTo(timestamp, 8);
    FeeLayout(data);
  }

  /** What the router relies on: a decoded hint never expires before its slot, and both fit u64. */
  lemma DecodedHintExpiry(data: seq<byte>)
    requires DecodeStream(LeaderHints, data).Some?
    ensures var h := DecodeStream(LeaderHints, data).value.hint;
            h.slot <= h.expiresAtSlot < U64_MODULUS && h.expiresAtSlot - h.slot < U32_MODULUS
            && h.confidence <= 655
  {
    var vs := Decode(0x02, Fields(LeaderHints), data).value;
    DecodeExact(0x02, Fields(LeaderHints), data, vs);
    Widths();
    assert Fits(Num(2), vs[1]) && Fits(Num(4), vs[2]) && Fits(Num(8), vs[4]);
  }

  /** The u64 product behind the cost estimate is the true one exactly up to this price; above it
      a release build wraps (a debug build panics). */
  lemma FeeCostExact(vs: seq<Val>)
    requires FitsAll(Fields(PriorityFees), vs)
    ensures Interpret(PriorityFees, vs).costNumerator == vs[0].n * COMPUTE_UNIT_LIMIT <==> vs[0].n <= 92_233_720_368_547
  {
    var product := vs[0].n * COMPUTE_UNIT_LIMIT;
    if vs[0].n <= 92_233_720_368_547 {
      assert product < U64_MODULUS;
    } else {
      assert product >= U64_MODULUS > product % U64_MODULUS;
    }
  }

  /** Every message a server can encode is within the framing limit of 4096 bytes. */
  lemma EncodingsFitAFrame(s: StreamKind, vs: seq<Val>)
    requires FitsAll(Fields(s), vs)
    ensures 1 <= |Encode(s, vs)| <= 4096
  {
    WriteLength(Fields(s), vs);
  }

  lemma {:induction false} WriteLength(ks: seq<Kind>, vs: seq<Val>)
    requires FitsAll(ks, vs)
    requires forall k :: k in ks && k.Num? ==> k.width <= 8
    ensures |Write(ks, vs)| <= 256 * |ks|
  {
    if ks != [] {
      assert Fits(ks[0], vs[0]) && ks[0] in ks;
      forall k | k in ks[1..] && k.Num? ensures k.width <= 8 { assert k in ks; }
      WriteLength(ks[1..], vs[1..]);
    }
  }
}

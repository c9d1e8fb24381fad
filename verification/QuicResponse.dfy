/** The QUIC submission reply (src/connection/quic.rs, `submit_transaction`): a cursor that
    degrades gracefully on short or odd input. */
module QuicResponse {
  import opened Prelude
  import opened BigEndian
  import opened Types

  const MAX_REPLY: nat := 1024

  /** The fields on the wire, before they are mapped to a `TransactionResult`. */
  datatype Fields = Fields(
    status: byte,
    signature: Option<Name>,
    error: Option<Name>,
    sender: Option<Name>,
    region: Option<Name>,
    slotSent: Option<nat>,
    slotAccepted: Option<nat>,
    latencyMs: nat,
    senderLatencyMs: nat)

  predicate TextFits(t: Option<Name>, limit: nat) {
    t.Some? ==> 1 <= |t.value| < limit
  }

  predicate SlotFits(v: Option<nat>) {
    v.Some? ==> v.value < U64_MODULUS
  }

  predicate WellFormed(f: Fields) {
    && (f.signature.Some? ==> |f.signature.value| == 64)
    && TextFits(f.error, 0x1_0000) && TextFits(f.sender, 256) && TextFits(f.region, 256)
    && SlotFits(f.slotSent) && SlotFits(f.slotAccepted)
    && f.latencyMs < U32_MODULUS && f.senderLatencyMs < U32_MODULUS
  }

  // ------------------------------------------------------------------ the encoder

  function EncSignature(t: Option<Name>): seq<byte> {
    if t.Some? then t.value else []
  }

  function EncText(w: nat, t: Option<Name>): seq<byte> {
    if t.Some? then ToBE(|t.value|, w) + t.value else ToBE(0, w)
  }

  function EncSlot(v: Option<nat>): seq<byte> {
    if v.Some? then [1] + ToBE(v.value, 8) else [0]
  }

  function EncLatencies(f: Fields): seq<byte> {
    ToBE(f.latencyMs, 4) + ToBE(f.senderLatencyMs, 4)
  }

  function FromAccepted(f: Fields): seq<byte> {
    EncSlot(f.slotAccepted) + EncLatencies(f)
  }

  function FromRegion(f: Fields): seq<byte> {
    EncText(1, f.region) + (EncSlot(f.slotSent) + FromAccepted(f))
  }

  function Body(f: Fields): seq<byte> {
    EncSignature(f.signature) + (EncText(2, f.error) + (EncText(1, f.sender) + FromRegion(f)))
  }

  /** The reply a server writes for request `id`. */
  function Encode(id: nat, f: Fields): seq<byte> {
    ToBE(id, 4) + [f.status, if f.signature.Some? then 1 else 0] + Body(f)
  }

  // ------------------------------------------------------------------ what each step reads

  function TakeSignature(has: bool, s: seq<byte>): (Option<Name>, seq<byte>) {
    if has && |s| >= 64 then (Some(s[..64]), s[64..])
    else (None, if has then [] else s)
  }

  function TakeText(w: nat, s: seq<byte>): (Option<Name>, seq<byte>) {
    if |s| < w then (None, s)
    else
      var len := FromBE(s[..w]);
      if len > 0 && |s| - w >= len then (Some(s[w..w + len]), s[w + len..])
      else (None, s[w + Min(len, |s| - w)..])
  }

  function TakeSlot(s: seq<byte>): (Option<nat>, seq<byte>) {
    if s == [] then (None, [])
    else if s[0] == 1 then
      if |s| >= 9 then (Some(FromBE(s[1..9])), s[9..]) else (None, s[1..])
    else (None, s[1..])
  }

  function TakeLatencies(s: seq<byte>): (nat, nat) {
    if |s| >= 8 then (FromBE(s[..4]), FromBE(s[4..8])) else (0, 0)
  }

  function ParseFields(buf: seq<byte>): Fields
    requires |buf| >= 6
  {
    var (signature, s1) := TakeSignature(buf[5] != 0, buf[6..]);
    var (error, s2) := TakeText(2, s1);
    var (sender, s3) := TakeText(1, s2);
    var (region, s4) := TakeText(1, s3);
    var (slotSent, s5) := TakeSlot(s4);
    var (slotAccepted, s6) := TakeSlot(s5);
    var (latency, senderLatency) := TakeLatencies(s6);
    Fields(buf[4], signature, error, sender, region, slotSent, slotAccepted, latency, senderLatency)
  }

  function StatusOf(b: byte): TransactionStatus {
    match b
    case 0x01 => Sent
    case 0x02 => Duplicate
    case 0x03 => TransactionStatus.RateLimited
    case _ => Failed
  }

  function RoutingOf(f: Fields): Option<RoutingInfo> {
    if f.sender.Some? || f.region.Some? || f.latencyMs > 0 then
      Some(RoutingInfo(
             if f.region.Some? then f.region.value else [],
             if f.sender.Some? then f.sender.value else [],
             Max(0, f.latencyMs - f.senderLatencyMs), f.senderLatencyMs, f.latencyMs))
    else None
  }

  function ToResult(transactionId: Name, f: Fields): TransactionResult {
    TransactionResult(transactionId, f.signature, StatusOf(f.status), None, f.slotSent, f.slotAccepted,
                      None, None, RoutingOf(f), f.error)
  }

  /** What a reply stream of these bytes makes of the submission. */
  function Reply(transactionId: Name, stream: seq<byte>): Result<TransactionResult, SdkError> {
    if |stream| > MAX_REPLY then Err(Connection)
    else if |stream| < 6 then Err(Protocol)
    else Ok(ToResult(transactionId, ParseFields(stream)))
  }

  // ------------------------------------------------------------------ the cursor

  method ParseSignature(buf: seq<byte>, start: nat, has: bool) returns (t: Option<Name>, offset: nat)
    requires start <= |buf|
    ensures offset <= |buf|
    ensures t == TakeSignature(has, buf[start..]).0 && buf[offset..] == TakeSignature(has, buf[start..]).1
  {
    offset := start;
    if has && |buf| >= offset + 64 {
      t := Some(buf[offset..offset + 64]);
      assert buf[start..][..64] == t.value && buf[start..][64..] == buf[start + 64..];
      offset := offset + 64;
    } else {
      if has { offset := Min(|buf|, offset + 64); }
      t := None;
    }
  }

  /** The error message (`w` = 2), the sender and the region (`w` = 1). */
  method ParseText(buf: seq<byte>, start: nat, w: nat) returns (t: Option<Name>, offset: nat)
    requires start <= |buf|
    ensures offset <= |buf|
    ensures t == TakeText(w, buf[start..]).0 && buf[offset..] == TakeText(w, buf[start..]).1
  {
    hide FromBE;
    offset := start;
    if |buf| >= offset + w {
      assert buf[start..][..w] == buf[start..start + w];
      var len := FromBE(buf[offset..offset + w]);
      offset := offset + w;
      if len > 0 && |buf| >= offset + len {
        t := Some(buf[offset..offset + len]);
        offset := offset + len;
        assert buf[start..][w..w + len] == t.value;
      } else {
        var left: nat := |buf| - offset;
        offset := offset + Min(len, left);
        t := None;
      }
    } else {
      t := None;
    }
  }

  method ParseSlot(buf: seq<byte>, start: nat) returns (v: Option<nat>, offset: nat)
    requires start <= |buf|
    ensures offset <= |buf|
    ensures v == TakeSlot(buf[start..]).0 && buf[offset..] == TakeSlot(buf[start..]).1
  {
    hide FromBE;
    offset := start;
    v := None;
    if |buf| > offset && buf[offset] == 1 {
      offset := offset + 1;
      if |buf| >= offset + 8 {
        assert buf[start..][1..9] == buf[offset..offset + 8];
        v := Some(FromBE(buf[offset..offset + 8]));
        offset := offset + 8;
      }
    } else {
      if |buf| > offset { offset := offset + 1; }
    }
  }

  /** On every byte string the cursor stays inside the buffer, and the reply is the one specified. */
  method ParseReply(transactionId: Name, stream: seq<byte>) returns (r: Result<TransactionResult, SdkError>)
    ensures r == Reply(transactionId, stream)
  {
    hide FromBE, TakeText, TakeSlot, TakeSignature;
    if |stream| > MAX_REPLY { return Err(Connection); }
    var n := |stream|;
    if n < 6 { return Err(Protocol); }
    var statusByte := stream[4];
    var hasSignature := stream[5] != 0;
    var offset := 6;
    var signature, error, sender, region, slotSent, slotAccepted;
    signature, offset := ParseSignature(stream, offset, hasSignature);
    error, offset := ParseText(stream, offset, 2);
    sender, offset := ParseText(stream, offset, 1);
    region, offset := ParseText(stream, offset, 1);
    slotSent, offset := ParseSlot(stream, offset);
    slotAccepted, offset := ParseSlot(stream, offset);
    var latency, senderLatency := 0, 0;
    if n >= offset + 8 {
      assert stream[offset..][..4] == stream[offset..offset + 4];
      assert stream[offset..][4..8] == stream[offset + 4..offset + 8];
      latency := FromBE(stream[offset..offset + 4]);
      senderLatency := FromBE(stream[offset + 4..offset + 8]);
    }
    r := Ok(ToResult(transactionId,
                     Fields(statusByte, signature, error, sender, region, slotSent, slotAccepted, latency,
                            senderLatency)));
  }

  // ------------------------------------------------------------------ one step on a cut encoding

  /** On a prefix of an encoded text, the step reads the whole text or nothing; when it reads
      nothing it leaves at most one byte. */
  lemma TextCut(w: nat, t: Option<Name>, rest: seq<byte>, s: seq<byte>)
    requires w == 1 || w == 2
    requires TextFits(t, if w == 1 then 256 else 0x1_0000)
    requires s <= EncText(w, t) + rest
    ensures |s| >= |EncText(w, t)| ==>
              TakeText(w, s) == (t, s[|EncText(w, t)|..]) && s[|EncText(w, t)|..] <= rest
    ensures |s| < |EncText(w, t)| ==> TakeText(w, s).0 == None && |TakeText(w, s).1| <= 1
  {
    hide FromBE, ToBE;
    Widths();
    var len := if t.Some? then |t.value| else 0;
    FromTo(len, w);
    if |s| >= w {
      assert s[..w] == ToBE(len, w);
      if |s| >= w + len && t.Some? { assert s[w..w + len] == t.value; }
    }
  }

  lemma TextDead(w: nat, s: seq<byte>)
    requires (w == 1 || w == 2) && |s| <= 1
    ensures TakeText(w, s).0 == None && |TakeText(w, s).1| <= 1
  {
  }

  lemma SlotCut(v: Option<nat>, rest: seq<byte>, s: seq<byte>)
    requires SlotFits(v) && s <= EncSlot(v) + rest
    ensures |s| >= |EncSlot(v)| ==> TakeSlot(s) == (v, s[|EncSlot(v)|..]) && s[|EncSlot(v)|..] <= rest
    ensures |s| < |EncSlot(v)| ==> TakeSlot(s).0 == None && |TakeSlot(s).1| <= 7
  {
    hide FromBE, ToBE;
    Widths();
    if v.Some? && |s| >= 9 {
      FromTo(v.value, 8);
      assert s[1..9] == ToBE(v.value, 8);
    }
  }

  /** A cut slot is read again as a later flag, but too few bytes are left to make a slot of. */
  lemma SlotDead(s: seq<byte>)
    requires |s| <= 7
    ensures TakeSlot(s).0 == None && |TakeSlot(s).1| <= 7
  {
  }

  lemma LatenciesCut(f: Fields, s: seq<byte>)
    requires WellFormed(f) && s <= EncLatencies(f)
    ensures TakeLatencies(s) == if |s| >= 8 then (f.latencyMs, f.senderLatencyMs) else (0, 0)
  {
    hide FromBE, ToBE;
    Widths();
    FromTo(f.latencyMs, 4);
    FromTo(f.senderLatencyMs, 4);
    if |s| >= 8 {
      assert s[..4] == ToBE(f.latencyMs, 4) && s[4..8] == ToBE(f.senderLatencyMs, 4);
    }
  }

  // ------------------------------------------------------------------ main results

  /** The fields of `f` that end within the first `k` bytes of its encoding; the others absent. */
  function Cut(f: Fields, k: nat): Fields {
    var e1 := 6 + |EncSignature(f.signature)|;
    var e2 := e1 + |EncText(2, f.error)|;
    var e3 := e2 + |EncText(1, f.sender)|;
    var e4 := e3 + |EncText(1, f.region)|;
    var e5 := e4 + |EncSlot(f.slotSent)|;
    var e6 := e5 + |EncSlot(f.slotAccepted)|;
    Fields(f.status,
           if k >= e1 then f.signature else None,
           if k >= e2 then f.error else None,
           if k >= e3 then f.sender else None,
           if k >= e4 then f.region else None,
           if k >= e5 then f.slotSent else None,
           if k >= e6 then f.slotAccepted else None,
           if k >= e6 + 8 then f.latencyMs else 0,
           if k >= e6 + 8 then f.senderLatencyMs else 0)
  }

  /** Truncation: parsing the first `k` bytes of an encoded reply yields exactly the fields that
      end within them. */
  lemma TruncatedReply(id: nat, f: Fields, k: nat)
    requires WellFormed(f) && 6 <= k <= |Encode(id, f)|
    ensures ParseFields(Encode(id, f)[..k]) == Cut(f, k)
  {
    hide FromBE, ToBE, TakeSignature, TakeTexts, TakeTail, EncText, EncSlot, EncLatencies, WellFormed;
    var buf := Encode(id, f)[..k];
    var s0 := buf[6..];
    assert s0 <= Body(f) && |s0| == k - 6 && buf[4] == f.status && (buf[5] != 0 <==> f.signature.Some?);
    ParseInParts(buf);
    SignatureCut(f, s0);
    var s1 := TakeSignature(f.signature.Some?, s0).1;
    if |s0| < |EncSignature(f.signature)| {
      TextsDead(s1);
      TailDead(TakeTexts(s1).3);
    } else {
      TextsCut(f, s1);
      var s4 := TakeTexts(s1).3;
      if |s1| >= |EncText(2, f.error)| + |EncText(1, f.sender)| + |EncText(1, f.region)| {
        TailCut(f, s4);
      } else {
        TailDead(s4);
      }
    }
  }

  /** The three texts, and what follows them. */
  function TakeTexts(s: seq<byte>): (Option<Name>, Option<Name>, Option<Name>, seq<byte>) {
    var (error, s2) := TakeText(2, s);
    var (sender, s3) := TakeText(1, s2);
    var (region, s4) := TakeText(1, s3);
    (error, sender, region, s4)
  }

  /** The two slots and the two latencies. */
  function TakeTail(s: seq<byte>): (Option<nat>, Option<nat>, nat, nat) {
    var (slotSent, s5) := TakeSlot(s);
    var (slotAccepted, s6) := TakeSlot(s5);
    var (latency, senderLatency) := TakeLatencies(s6);
    (slotSent, slotAccepted, latency, senderLatency)
  }

  lemma ParseInParts(buf: seq<byte>)
    requires |buf| >= 6
    ensures var (signature, s1) := TakeSignature(buf[5] != 0, buf[6..]);
            var (error, sender, region, s4) := TakeTexts(s1);
            var (slotSent, slotAccepted, latency, senderLatency) := TakeTail(s4);
            ParseFields(buf) ==
            Fields(buf[4], signature, error, sender, region, slotSent, slotAccepted, latency, senderLatency)
  {
    hide TakeSignature, TakeText, TakeSlot, TakeLatencies;
  }

  lemma TextsCut(f: Fields, s: seq<byte>)
    requires WellFormed(f) && s <= EncText(2, f.error) + (EncText(1, f.sender) + FromRegion(f))
    ensures var n2 := |EncText(2, f.error)|;
            var n3 := n2 + |EncText(1, f.sender)|;
            var n4 := n3 + |EncText(1, f.region)|;
            var (error, sender, region, rest) := TakeTexts(s);
            && error == (if |s| >= n2 then f.error else None)
            && sender == (if |s| >= n3 then f.sender else None)
            && region == (if |s| >= n4 then f.region else None)
            && (if |s| >= n4 then rest == s[n4..] && rest <= EncSlot(f.slotSent) + FromAccepted(f) else |rest| <= 1)
  {
    hide FromBE, ToBE, TakeText, EncText, EncSlot, FromAccepted;
    TextCut(2, f.error, EncText(1, f.sender) + FromRegion(f), s);
    var s2 := TakeText(2, s).1;
    var live2 := |s| >= |EncText(2, f.error)|;
    if live2 { TextCut(1, f.sender, FromRegion(f), s2); } else { TextDead(1, s2); }
    var s3 := TakeText(1, s2).1;
    if live2 && |s2| >= |EncText(1, f.sender)| {
      TextCut(1, f.region, EncSlot(f.slotSent) + FromAccepted(f), s3);
    } else {
      TextDead(1, s3);
    }
  }

  lemma TextsDead(s: seq<byte>)
    requires |s| <= 1
    ensures var (error, sender, region, rest) := TakeTexts(s);
            error == sender == region == None && |rest| <= 1
  {
    hide TakeText;
    TextDead(2, s);
    TextDead(1, TakeText(2, s).1);
    TextDead(1, TakeText(1, TakeText(2, s).1).1);
  }

  lemma TailCut(f: Fields, s: seq<byte>)
    requires WellFormed(f) && s <= EncSlot(f.slotSent) + FromAccepted(f)
    ensures var n5 := |EncSlot(f.slotSent)|;
            var n6 := n5 + |EncSlot(f.slotAccepted)|;
            TakeTail(s) ==
            (if |s| >= n5 then f.slotSent else None, if |s| >= n6 then f.slotAccepted else None,
             if |s| >= n6 + 8 then f.latencyMs else 0, if |s| >= n6 + 8 then f.senderLatencyMs else 0)
  {
    hide FromBE, ToBE, TakeSlot, TakeLatencies, EncSlot, EncLatencies;
    SlotCut(f.slotSent, FromAccepted(f), s);
    var s5 := TakeSlot(s).1;
    var live5 := |s| >= |EncSlot(f.slotSent)|;
    if live5 { SlotCut(f.slotAccepted, EncLatencies(f), s5); } else { SlotDead(s5); }
    var s6 := TakeSlot(s5).1;
    if live5 && |s5| >= |EncSlot(f.slotAccepted)| { LatenciesCut(f, s6); } else { LatenciesDead(s6); }
  }

  lemma TailDead(s: seq<byte>)
    requires |s| <= 7
    ensures TakeTail(s) == (None, None, 0, 0)
  {
    hide TakeSlot, TakeLatencies;
    SlotDead(s);
    SlotDead(TakeSlot(s).1);
    LatenciesDead(TakeSlot(TakeSlot(s).1).1);
  }

  lemma SignatureCut(f: Fields, s: seq<byte>)
    requires WellFormed(f) && s <= Body(f)
    ensures |s| >= |EncSignature(f.signature)| ==>
              TakeSignature(f.signature.Some?, s) == (f.signature, s[|EncSignature(f.signature)|..])
              && s[|EncSignature(f.signature)|..] <= EncText(2, f.error) + (EncText(1, f.sender) + FromRegion(f))
    ensures |s| < |EncSignature(f.signature)| ==> TakeSignature(f.signature.Some?, s) == (None, [])
  {
    hide EncText, FromRegion;
    if f.signature.Some? && |s| >= 64 { assert s[..64] == f.signature.value; }
  }

  lemma LatenciesDead(s: seq<byte>)
    requires |s| <= 7
    ensures TakeLatencies(s) == (0, 0)
  {
  }

  predicate Refines<T(==)>(a: Option<T>, b: Option<T>) {
    a.Some? ==> a == b
  }

  predicate FieldsRefine(a: Fields, b: Fields) {
    && a.status == b.status
    && Refines(a.signature, b.signature) && Refines(a.error, b.error)
    && Refines(a.sender, b.sender) && Refines(a.region, b.region)
    && Refines(a.slotSent, b.slotSent) && Refines(a.slotAccepted, b.slotAccepted)
    && ((a.latencyMs == b.latencyMs && a.senderLatencyMs == b.senderLatencyMs)
        || (a.latencyMs == 0 && a.senderLatencyMs == 0))
  }

  /** More bytes never change or lose a field: cut replies refine longer cuts and the original. */
  lemma LongerCutsRefine(id: nat, f: Fields, k: nat, k': nat)
    requires WellFormed(f) && 6 <= k <= k' <= |Encode(id, f)|
    ensures FieldsRefine(ParseFields(Encode(id, f)[..k]), ParseFields(Encode(id, f)[..k']))
    ensures FieldsRefine(ParseFields(Encode(id, f)[..k']), f)
  {
    TruncatedReply(id, f, k);
    TruncatedReply(id, f, k');
  }

  /** Parsing an encoded reply returns it unchanged, whatever its optional fields. */
  lemma RoundTrip(id: nat, f: Fields)
    requires WellFormed(f)
    ensures ParseFields(Encode(id, f)) == f
  {
    var whole := Encode(id, f);
    assert whole[..|whole|] == whole;
    TruncatedReply(id, f, |whole|);
  }

  /** A slot that is absent may be marked with any byte but 1. */
  function MarkedSlot(v: Option<nat>, mark: byte): seq<byte> {
    if v.Some? then EncSlot(v) else [mark]
  }

  /** The reply as another server may write it: any non-zero byte announces the signature. */
  function EncodeMarked(id: nat, f: Fields, signed: byte, noSent: byte, noAccepted: byte): seq<byte> {
    ToBE(id, 4) + [f.status, if f.signature.Some? then signed else 0] +
    (EncSignature(f.signature) + (EncText(2, f.error) + (EncText(1, f.sender) + (EncText(1, f.region) +
    (MarkedSlot(f.slotSent, noSent) + (MarkedSlot(f.slotAccepted, noAccepted) + EncLatencies(f)))))))
  }

  lemma TextWhole(w: nat, t: Option<Name>, rest: seq<byte>)
    requires w == 1 || w == 2
    requires TextFits(t, if w == 1 then 256 else 0x1_0000)
    ensures TakeText(w, EncText(w, t) + rest) == (t, rest)
  {
    hide TakeText, EncText;
    var s := EncText(w, t) + rest;
    TextCut(w, t, rest, s);
    assert s[|EncText(w, t)|..] == rest;
  }

  lemma MarkedSlotWhole(v: Option<nat>, mark: byte, rest: seq<byte>)
    requires SlotFits(v) && mark != 1
    ensures TakeSlot(MarkedSlot(v, mark) + rest) == (v, rest)
  {
    hide FromBE, ToBE;
    var s := MarkedSlot(v, mark) + rest;
    if v.Some? { SlotCut(v, rest, s); }
    assert s[|MarkedSlot(v, mark)|..] == rest;
  }

  /** The marks make no difference: only 1 announces a slot, and only 0 says that there is no signature. */
  lemma AnyMarksAreRead(id: nat, f: Fields, signed: byte, noSent: byte, noAccepted: byte)
    requires WellFormed(f) && signed != 0 && noSent != 1 && noAccepted != 1
    ensures ParseFields(EncodeMarked(id, f, signed, noSent, noAccepted)) == f
  {
    hide FromBE, ToBE, TakeSignature, TakeText, TakeSlot, TakeLatencies;
    hide EncText, MarkedSlot, EncLatencies, EncSignature;
    var r6 := EncLatencies(f);
    var r5 := MarkedSlot(f.slotAccepted, noAccepted) + r6;
    var r4 := MarkedSlot(f.slotSent, noSent) + r5;
    var r3 := EncText(1, f.region) + r4;
    var r2 := EncText(1, f.sender) + r3;
    var r1 := EncText(2, f.error) + r2;
    var buf := EncodeMarked(id, f, signed, noSent, noAccepted);
    assert buf[4] == f.status && (buf[5] != 0 <==> f.signature.Some?) && buf[6..] == EncSignature(f.signature) + r1;
    SignatureWhole(f.signature, r1);
    TextWhole(2, f.error, r2);
    TextWhole(1, f.sender, r3);
    TextWhole(1, f.region, r4);
    MarkedSlotWhole(f.slotSent, noSent, r5);
    MarkedSlotWhole(f.slotAccepted, noAccepted, r6);
    LatenciesWhole(f);
  }

  lemma LatenciesWhole(f: Fields)
    requires WellFormed(f)
    ensures TakeLatencies(EncLatencies(f)) == (f.latencyMs, f.senderLatencyMs)
  {
    hide ToBE, FromBE;
    LatenciesCut(f, EncLatencies(f));
  }

  lemma SignatureWhole(t: Option<Name>, rest: seq<byte>)
    requires t.Some? ==> |t.value| == 64
    ensures TakeSignature(t.Some?, EncSignature(t) + rest) == (t, rest)
  {
    var s := EncSignature(t) + rest;
    assert s[|EncSignature(t)|..] == rest && s[..|EncSignature(t)|] == EncSignature(t);
  }

  /** The client gets the server's reply back exactly when it fits the read limit; a longer one
      (a long error message) turns into a connection error. */
  lemma ReplyReceivedIffItFits(id: nat, f: Fields, transactionId: Name)
    requires WellFormed(f)
    ensures Reply(transactionId, Encode(id, f)) == Ok(ToResult(transactionId, f)) <==> |Encode(id, f)| <= MAX_REPLY
    ensures |Encode(id, f)| > MAX_REPLY ==> Reply(transactionId, Encode(id, f)) == Err(Connection)
  {
    RoundTrip(id, f);
  }

  /** On every byte string: more than 1024 bytes are a connection error, fewer than 6 a protocol error,
      and anything else is a result. */
  lemma ReplyKinds(transactionId: Name, stream: seq<byte>)
    ensures match Reply(transactionId, stream)
            case Err(e) => if |stream| > 1024 then e == Connection else |stream| < 6 && e == Protocol
            case Ok(r) => 6 <= |stream| <= 1024 && r.transactionId == transactionId
  {
  }

  /** What the application sees of a reply that fits: the optional fields as sent, Sent only for
      an accepted transaction, and a routing whose parts add up, present iff something is known. */
  lemma ReceivedReplyFields(id: nat, f: Fields, transactionId: Name)
    requires WellFormed(f) && |Encode(id, f)| <= MAX_REPLY
    ensures var r := Reply(transactionId, Encode(id, f)).value;
            && r.signature == f.signature && r.error == f.error && r.transactionId == transactionId
            && r.slotSent == f.slotSent && r.slotAccepted == f.slotAccepted
            && r.slot == r.slotLanded == r.slotDelta == None
            && (r.status == Sent <==> f.status == 0x01) && (r.status == Duplicate <==> f.status == 0x02)
            && (r.status == TransactionStatus.RateLimited <==> f.status == 0x03)
            && (r.status == Failed <==> f.status !in {0x01, 0x02, 0x03})
            && (r.routing.None? <==> f.sender.None? && f.region.None? && f.latencyMs == 0)
            && (r.routing.Some? ==>
                  && r.routing.value.region == GetOr(f.region, []) && r.routing.value.sender == GetOr(f.sender, [])
                  && r.routing.value.totalLatencyMs == f.latencyMs
                  && r.routing.value.senderLatencyMs == f.senderLatencyMs
                  && r.routing.value.routingLatencyMs + Min(f.senderLatencyMs, f.latencyMs) == f.latencyMs)
  {
    ReplyReceivedIffItFits(id, f, transactionId);
  }

  /** A cut reply never shows a routing text the server did not send, and no invented latency. */
  lemma TruncatedRouting(id: nat, f: Fields, k: nat)
    requires WellFormed(f) && 6 <= k <= |Encode(id, f)|
    ensures var cut, full := RoutingOf(ParseFields(Encode(id, f)[..k])), RoutingOf(f);
            cut.Some? ==>
              && full.Some?
              && (cut.value.region == [] || cut.value.region == full.value.region)
              && (cut.value.sender == [] || cut.value.sender == full.value.sender)
              && (cut == full
                  || cut.value.totalLatencyMs == cut.value.senderLatencyMs == cut.value.routingLatencyMs == 0)
  {
    TruncatedReply(id, f, k);
  }
}

/** The length-prefixed subscription stream (src/connection/quic.rs, `subscribe_stream`). */
module QuicFraming {
  import opened Prelude
  import opened BigEndian
  import opened Types
  import opened Wire
  import opened QuicStreams

  const MAX_MESSAGE: nat := 4096

  predicate Framable(ms: seq<seq<byte>>) {
    forall m :: m in ms ==> 1 <= |m| <= MAX_MESSAGE
  }

  /** What a server writes: every message behind its two-byte length. */
  function Frames(ms: seq<seq<byte>>): seq<byte>
    requires Framable(ms)
  {
    if ms == [] then [] else ToBE(|ms[0]|, 2) + ms[0] + Frames(ms[1..])
  }

  /** Nothing can be framed at the head of `s`: it is too short for a length, states a bad
      length, or is too short for the stated body. */
  predicate Stuck(s: seq<byte>) {
    |s| < 2 || var len := FromBE(s[..2]); len == 0 || len > MAX_MESSAGE || |s| < 2 + len
  }

  /** The messages of the complete frames at the front of `s`. */
  function Messages(s: seq<byte>): seq<seq<byte>> {
    if Stuck(s) then [] else [s[2..2 + FromBE(s[..2])]] + Messages(s[2 + FromBE(s[..2])..])
  }

  function Decoded<T>(decoder: seq<byte> -> Option<T>, ms: seq<seq<byte>>): seq<T> {
    if ms == [] then []
    else (match decoder(ms[0]) case Some(x) => [x] case None => []) + Decoded(decoder, ms[1..])
  }

  function Take<T>(s: seq<T>, n: nat): (t: seq<T>)
    ensures t <= s && |t| == if n <= |s| then n else |s|
  {
    if n <= |s| then s[..n] else s
  }

  /** A frame is delivered iff its length is 1 to 4096; any other length ends the stream. */
  lemma FrameDeliveredIff(m: seq<byte>, rest: seq<byte>)
    requires |m| < 0x1_0000
    ensures Messages(ToBE(|m|, 2) + m + rest) == if 1 <= |m| <= 4096 then [m] + Messages(rest) else []
  {
    hide FromBE, ToBE;
    Widths();
    FromTo(|m|, 2);
    var s := ToBE(|m|, 2) + m + rest;
    assert s[..2] == ToBE(|m|, 2) && s[2..2 + |m|] == m && s[2 + |m|..] == rest;
  }

  /** One round of the reader, at any offset of the stream. */
  lemma MessagesAt(stream: seq<byte>, offset: nat)
    requires offset <= |stream|
    ensures Messages(stream[offset..]) ==
            if |stream| < offset + 2 then []
            else
              var len := FromBE(stream[offset..offset + 2]);
              if len == 0 || len > MAX_MESSAGE || |stream| < offset + 2 + len then []
              else [stream[offset + 2..offset + 2 + len]] + Messages(stream[offset + 2 + len..])
  {
    hide FromBE;
    var s := stream[offset..];
    if |stream| >= offset + 2 {
      assert s[..2] == stream[offset..offset + 2];
      var len := FromBE(s[..2]);
      if |stream| >= offset + 2 + len {
        assert s[2..2 + len] == stream[offset + 2..offset + 2 + len];
        assert s[2 + len..] == stream[offset + 2 + len..];
      }
    }
  }

  lemma DecodedNil<T>(decoder: seq<byte> -> Option<T>)
    ensures Decoded(decoder, []) == []
  {
  }

  lemma DecodedStep<T>(decoder: seq<byte> -> Option<T>, m: seq<byte>, ms: seq<seq<byte>>)
    ensures Decoded(decoder, [m] + ms) == (match decoder(m) case Some(x) => [x] case None => []) + Decoded(decoder, ms)
  {
    assert ([m] + ms)[1..] == ms;
  }

  /** A message that does not decode is passed over, and the subscription goes on with the next. */
  lemma {:induction false} UndecodableIsSkipped<T>(decoder: seq<byte> -> Option<T>, ms: seq<seq<byte>>, m: seq<byte>,
                                                   rest: seq<seq<byte>>)
    ensures Decoded(decoder, ms + [m] + rest) ==
            Decoded(decoder, ms) + (match decoder(m) case Some(x) => [x] case None => []) + Decoded(decoder, rest)
  {
    hide Decoded;
    DecodedNil(decoder);
    if ms == [] {
      assert [] + [m] + rest == [m] + rest;
      DecodedStep(decoder, m, rest);
    } else {
      assert ms + [m] + rest == [ms[0]] + (ms[1..] + [m] + rest) && ms == [ms[0]] + ms[1..];
      DecodedStep(decoder, ms[0], ms[1..] + [m] + rest);
      DecodedStep(decoder, ms[0], ms[1..]);
      UndecodableIsSkipped(decoder, ms[1..], m, rest);
    }
  }

  /** The spawned reader, over everything the stream carries before it ends. The application's
      receiver accepts `accepts` items and is dropped after that. */
  method ReadSubscription<T>(stream: seq<byte>, decoder: seq<byte> -> Option<T>, accepts: nat)
    returns (delivered: seq<T>)
    ensures delivered == Take(Decoded(decoder, Messages(stream)), accepts)
  {
    hide FromBE, Messages, Decoded;
    DecodedNil(decoder);
    delivered := [];
    var offset := 0;
    assert stream[0..] == stream;
    while true
      invariant offset <= |stream| && |delivered| <= accepts
      invariant Decoded(decoder, Messages(stream)) == delivered + Decoded(decoder, Messages(stream[offset..]))
      decreases |stream| - offset
    {
      MessagesAt(stream, offset);
      if |stream| < offset + 2 {
        break;
      }
      var lenBuf := stream[offset..offset + 2];
      offset := offset + 2;
      var msgLen := FromBE(lenBuf);
      if msgLen == 0 || msgLen > 4096 {
        break;
      }
      if |stream| < offset + msgLen {
        break;
      }
      var msgBuf := stream[offset..offset + msgLen];
      offset := offset + msgLen;
      DecodedStep(decoder, msgBuf, Messages(stream[offset..]));
      match decoder(msgBuf) {
        case Some(data) =>
          if |delivered| == accepts {
            break;
          }
          Associate(delivered, [data], Decoded(decoder, Messages(stream[offset..])));
          delivered := delivered + [data];
        case None =>
          assert [] + Decoded(decoder, Messages(stream[offset..])) == Decoded(decoder, Messages(stream[offset..]));
      }
    }
  }

  lemma MessagesOfFrame(m: seq<byte>, rest: seq<byte>)
    requires 1 <= |m| <= MAX_MESSAGE
    ensures Messages(ToBE(|m|, 2) + m + rest) == [m] + Messages(rest)
  {
    hide FromBE, ToBE;
    Widths();
    FromTo(|m|, 2);
    var s := ToBE(|m|, 2) + m + rest;
    assert s[..2] == ToBE(|m|, 2) && s[2..2 + |m|] == m && s[2 + |m|..] == rest;
  }

  /** Unframing inverts framing: from any good messages followed by bytes at which the reader
      is stuck, exactly those messages come back. */
  lemma {:induction false} MessagesInvertFrames(ms: seq<seq<byte>>, tail: seq<byte>)
    requires Framable(ms) && Stuck(tail)
    ensures Messages(Frames(ms) + tail) == ms
  {
    hide FromBE, ToBE;
    if ms == [] {
      assert Frames(ms) + tail == tail;
    } else {
      assert ms[0] in ms;
      MessagesOfFrame(ms[0], Frames(ms[1..]) + tail);
      assert Frames(ms) + tail == ToBE(|ms[0]|, 2) + ms[0] + (Frames(ms[1..]) + tail);
      MessagesInvertFrames(ms[1..], tail);
      assert ms == [ms[0]] + ms[1..];
    }
  }

  lemma FramesCons(m: seq<byte>, ms: seq<seq<byte>>)
    requires 1 <= |m| <= MAX_MESSAGE && Framable(ms)
    ensures Framable([m] + ms) && Frames([m] + ms) == ToBE(|m|, 2) + m + Frames(ms)
  {
    hide ToBE;
    assert ([m] + ms)[1..] == ms;
  }

  /** The bytes at which the reader ends. */
  function Rest(s: seq<byte>): seq<byte> {
    if Stuck(s) then s else Rest(s[2 + FromBE(s[..2])..])
  }

  /** Where the reader is not stuck, a frame is ahead. */
  lemma FrameAhead(s: seq<byte>) returns (m: seq<byte>, rest: seq<byte>)
    requires !Stuck(s)
    ensures 1 <= |m| <= MAX_MESSAGE && s == ToBE(|m|, 2) + m + rest
    ensures Messages(s) == [m] + Messages(rest) && Rest(s) == Rest(rest)
  {
    hide FromBE, ToBE;
    var len := FromBE(s[..2]);
    m, rest := s[2..2 + len], s[2 + len..];
    ToFrom(s[..2]);
    assert s == s[..2] + m + rest;
  }

  /** Every byte stream is good frames followed by bytes at which the reader is stuck, so
      together with MessagesInvertFrames it has exactly one reading. */
  lemma {:induction false} EveryStreamSplits(s: seq<byte>)
    ensures Framable(Messages(s)) && Stuck(Rest(s)) && s == Frames(Messages(s)) + Rest(s)
    decreases |s|
  {
    hide Stuck, ToBE, Frames, Messages, Rest;
    if Stuck(s) {
      FramesNil();
      StuckRest(s);
    } else {
      var m, rest := FrameAhead(s);
      EveryStreamSplits(rest);
      FramesCons(m, Messages(rest));
      Associate(ToBE(|m|, 2) + m, Frames(Messages(rest)), Rest(rest));
    }
  }

  lemma StuckRest(s: seq<byte>)
    requires Stuck(s)
    ensures Messages(s) == [] && Rest(s) == s
  {
  }

  lemma Associate<T>(a: seq<T>, b: seq<T>, c: seq<T>)
    ensures a + b + c == a + (b + c)
  {
  }

  lemma FramesNil()
    ensures Frames([]) == []
  {
  }

  /** How many whole frames of `ms` fit in the first `cut` bytes. */
  function WholeFrames(ms: seq<seq<byte>>, cut: nat): (n: nat)
    ensures n <= |ms|
  {
    if ms == [] || cut < 2 + |ms[0]| then 0 else 1 + WholeFrames(ms[1..], cut - 2 - |ms[0]|)
  }

  /** Wherever the stream is cut, exactly the complete frames are delivered. */
  lemma {:induction false} CutStreamDeliversWholeFrames(ms: seq<seq<byte>>, cut: nat)
    requires Framable(ms) && cut <= |Frames(ms)|
    ensures Messages(Frames(ms)[..cut]) == ms[..WholeFrames(ms, cut)]
  {
    hide FromBE, ToBE, Frames, Messages;
    if ms == [] {
      FramesNil();
      MessagesAt([], 0);
      assert Frames(ms)[..cut] == [][0..];
    } else {
      var head, rest, len := ms[0], ms[1..], |ms[0]|;
      var s := Frames(ms)[..cut];
      assert head in ms && ms == [head] + rest;
      FramesCons(head, rest);
      if cut >= 2 + len {
        var rest' := Frames(rest)[..cut - 2 - len];
        MessagesOfFrame(head, rest');
        assert s == ToBE(len, 2) + head + rest';
        CutStreamDeliversWholeFrames(rest, cut - 2 - len);
        assert ms[..WholeFrames(ms, cut)] == [head] + rest[..WholeFrames(rest, cut - 2 - len)];
      } else {
        MessagesAt(s, 0);
        assert s[0..] == s;
        if cut >= 2 {
          Widths();
          FromTo(len, 2);
          assert s[..2] == ToBE(len, 2);
        }
      }
    }
  }

  /** A frame with a bad length ends the subscription: the good prefix is delivered and nothing after. */
  lemma BadLengthStopsDelivery(ms: seq<seq<byte>>, badLength: nat, after: seq<byte>)
    requires Framable(ms)
    requires badLength == 0 || MAX_MESSAGE < badLength < 0x1_0000
    ensures Messages(Frames(ms) + (ToBE(badLength, 2) + after)) == ms
  {
    Widths();
    FromTo(badLength, 2);
    var tail := ToBE(badLength, 2) + after;
    assert tail[..2] == ToBE(badLength, 2);
    MessagesInvertFrames(ms, tail);
  }

  function Encodings(s: StreamKind, records: seq<seq<Val>>): seq<seq<byte>>
    requires forall vs :: vs in records ==> FitsAll(Fields(s), vs)
  {
    seq(|records|, i requires 0 <= i < |records| => assert records[i] in records; Encode(s, records[i]))
  }

  function Interpretations(s: StreamKind, records: seq<seq<Val>>): seq<Record>
    requires forall vs :: vs in records ==> FitsAll(Fields(s), vs)
  {
    seq(|records|, i requires 0 <= i < |records| => assert records[i] in records; Interpret(s, records[i]))
  }

  /** One stream of the server: it frames the records of one kind. */
  datatype ServerStream = ServerStream(kind: StreamKind, records: seq<seq<Val>>)

  predicate Sendable(sent: ServerStream) {
    forall vs :: vs in sent.records ==> FitsAll(Fields(sent.kind), vs)
  }

  function OnStream(sent: ServerStream): seq<byte>
    requires Sendable(sent)
  {
    EncodingsAreFramable(sent.kind, sent.records);
    Frames(Encodings(sent.kind, sent.records))
  }

  /** What the task of a subscription makes of the stream it has accepted. */
  function Received(task: StreamKind, sent: ServerStream): seq<Record>
    requires Sendable(sent)
  {
    Decoded(d => DecodeStream(task, d), Messages(OnStream(sent)))
  }

  lemma EncodingsAreFramable(s: StreamKind, records: seq<seq<Val>>)
    requires forall vs :: vs in records ==> FitsAll(Fields(s), vs)
    ensures Framable(Encodings(s, records))
  {
    var ms := Encodings(s, records);
    forall m | m in ms ensures 1 <= |m| <= MAX_MESSAGE {
      var i :| 0 <= i < |ms| && ms[i] == m;
      assert records[i] in records;
      EncodingsFitAFrame(s, records[i]);
    }
  }

  /** End to end, on a stream of its own kind: the records a server encodes and frames are the records
      the application gets. */
  lemma SubscriptionDeliversEveryRecord(s: StreamKind, records: seq<seq<Val>>)
    requires Sendable(ServerStream(s, records))
    ensures Received(s, ServerStream(s, records)) == Interpretations(s, records)
  {
    StreamCarriesEncodings(ServerStream(s, records));
    DecodedEncodings(s, records, d => DecodeStream(s, d));
  }

  /** What a task finds on a stream are the encodings that were sent there. */
  lemma StreamCarriesEncodings(sent: ServerStream)
    requires Sendable(sent)
    ensures Messages(OnStream(sent)) == Encodings(sent.kind, sent.records)
  {
    hide Messages, Frames, Encodings, Sendable;
    assert forall vs :: vs in sent.records ==> FitsAll(Fields(sent.kind), vs) by { EachFits(sent); }
    EncodingsAreFramable(sent.kind, sent.records);
    var ms := Encodings(sent.kind, sent.records);
    MessagesInvertFrames(ms, []);
    assert Frames(ms) + [] == Frames(ms);
  }

  lemma EachFits(sent: ServerStream)
    requires Sendable(sent)
    ensures forall vs :: vs in sent.records ==> FitsAll(Fields(sent.kind), vs)
  {
  }

  lemma OtherKindRejects(task: StreamKind, kind: StreamKind, vs: seq<Val>)
    requires task != kind && FitsAll(Fields(kind), vs)
    ensures DecodeStream(task, Encode(kind, vs)).None?
  {
    hide DecodeStream, Encode, FitsAll;
    AcceptsExactlyEncodings(kind, Encode(kind, vs));
    if DecodeStream(task, Encode(kind, vs)).Some? { NoByteStringAcceptedTwice(task, kind, Encode(kind, vs)); }
  }

  /** On a stream of another kind the application gets nothing at all. */
  lemma CrossedStreamDeliversNothing(task: StreamKind, sent: ServerStream)
    requires Sendable(sent) && task != sent.kind
    ensures Received(task, sent) == []
  {
    hide DecodeStream, Encode, FitsAll, Messages, OnStream, Decoded;
    StreamCarriesEncodings(sent);
    var ms := Encodings(sent.kind, sent.records);
    forall m | m in ms ensures DecodeStream(task, m).None? {
      var i :| 0 <= i < |ms| && ms[i] == m;
      assert sent.records[i] in sent.records;
      OtherKindRejects(task, sent.kind, sent.records[i]);
    }
    AllRejected(d => DecodeStream(task, d), ms);
  }

  lemma {:induction false} AllRejected<T>(decoder: seq<byte> -> Option<T>, ms: seq<seq<byte>>)
    requires forall m :: m in ms ==> decoder(m).None?
    ensures Decoded(decoder, ms) == []
  {
    if ms != [] {
      assert ms[0] in ms;
      forall m | m in ms[1..] ensures decoder(m).None? { assert m in ms; }
      AllRejected(decoder, ms[1..]);
    }
  }

  /** The tasks accept the server's streams in whatever order these come, so for any assignment: each
      task delivers what was sent on the stream it got iff that is of its own kind, or empty. */
  lemma TasksDeliverIff(tasks: seq<StreamKind>, streams: seq<ServerStream>, accepted: seq<nat>)
    requires |accepted| == |tasks| && forall i :: 0 <= i < |accepted| ==> accepted[i] < |streams|
    requires forall sent :: sent in streams ==> Sendable(sent)
    ensures forall i :: 0 <= i < |tasks| ==>
              var sent := streams[accepted[i]];
              && Sendable(sent)
              && Received(tasks[i], sent) ==
                 (if sent.kind == tasks[i] then Interpretations(sent.kind, sent.records) else [])
              && (Received(tasks[i], sent) == Interpretations(sent.kind, sent.records) <==>
                  sent.kind == tasks[i] || sent.records == [])
  {
    hide Received;
    forall i | 0 <= i < |tasks|
      ensures var sent := streams[accepted[i]];
              && Sendable(sent)
              && Received(tasks[i], sent) ==
                 if sent.kind == tasks[i] then Interpretations(sent.kind, sent.records) else []
    {
      var sent := streams[accepted[i]];
      assert sent in streams;
      if sent.kind == tasks[i] {
        SubscriptionDeliversEveryRecord(sent.kind, sent.records);
      } else {
        CrossedStreamDeliversNothing(tasks[i], sent);
      }
    }
  }

  lemma {:induction false} DecodedEncodings(s: StreamKind, records: seq<seq<Val>>, decoder: seq<byte> -> Option<Record>)
    requires forall vs :: vs in records ==> FitsAll(Fields(s), vs)
    requires forall d :: decoder(d) == DecodeStream(s, d)
    ensures Decoded(decoder, Encodings(s, records)) == Interpretations(s, records)
  {
    hide DecodeStream, Encode, Interpret, Decoded, Encodings, Interpretations, FitsAll;
    DecodedNil(decoder);
    if records == [] {
      NoRecords(s);
    } else {
      var vs := records[0];
      assert vs in records;
      forall us | us in records[1..] ensures FitsAll(Fields(s), us) { assert us in records; }
      RecordsCons(s, records);
      AcceptsExactlyEncodings(s, Encode(s, vs));
      DecodedStep(decoder, Encode(s, vs), Encodings(s, records[1..]));
      DecodedEncodings(s, records[1..], decoder);
    }
  }

  lemma NoRecords(s: StreamKind)
    ensures Encodings(s, []) == [] && Interpretations(s, []) == []
  {
  }

  lemma RecordsCons(s: StreamKind, records: seq<seq<Val>>)
    requires records != [] && forall vs :: vs in records ==> FitsAll(Fields(s), vs)
    ensures records[0] in records && forall vs :: vs in records[1..] ==> vs in records
    ensures Encodings(s, records) == [Encode(s, records[0])] + Encodings(s, records[1..])
    ensures Interpretations(s, records) == [Interpret(s, records[0])] + Interpretations(s, records[1..])
  {
    hide Encode, Interpret, FitsAll;
  }
}

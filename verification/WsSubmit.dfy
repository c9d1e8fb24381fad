/** The WebSocket submission (src/connection/websocket.rs, `submit_transaction`): a fold over the
    server messages that stops at the first terminal one, under a deadline. */
module WsSubmit {
  import opened Prelude
  import opened Types

  /** The server messages; the payload of a pushed item is kept abstract. */
  datatype ServerMessage =
    | Connected
    | ServerError
    | LeaderHintMessage(payload: nat)
    | TipInstructionMessage(payload: nat)
    | PriorityFeeMessage(payload: nat)
    | LatestBlockhashMessage(payload: nat)
    | LatestSlotMessage(payload: nat)
    | TransactionAccepted(rid: Name, tid: Name)
    | TransactionUpdate(rid: Name, tid: Name, statusText: string, signature: Option<Name>, slot: Option<nat>,
                        slotSent: Option<nat>, slotAccepted: Option<nat>, routing: Option<RoutingInfo>)
    | TransactionConfirmed(rid: Name, tid: Name, signature: Option<Name>, slot: Option<nat>,
                           slotSent: Option<nat>, slotAccepted: Option<nat>, routing: Option<RoutingInfo>)
    | TransactionFailed(rid: Name, tid: Name, message: Name)
    | Heartbeat

  predicate Own(rid: Name, m: ServerMessage) {
    (m.TransactionAccepted? || m.TransactionUpdate? || m.TransactionConfirmed? || m.TransactionFailed?) && m.rid == rid
  }

  /** The messages that end the loop: also an update that says "confirmed" or "failed". */
  predicate Terminal(rid: Name, m: ServerMessage) {
    Own(rid, m) &&
    (m.TransactionConfirmed? || m.TransactionFailed?
     || (m.TransactionUpdate? && (m.statusText == "confirmed" || m.statusText == "failed")))
  }

  /** The local variables of the loop. */
  datatype Progress = Progress(
    transactionId: Name,
    signature: Option<Name>,
    slot: Option<nat>,
    slotSent: Option<nat>,
    slotAccepted: Option<nat>,
    status: TransactionStatus,
    routing: Option<RoutingInfo>,
    error: Option<Name>)

  const START: Progress := Progress([], None, None, None, None, Pending, None, None)

  function Or<T>(a: Option<T>, b: Option<T>): Option<T> {
    if a.Some? then a else b
  }

  function UpdateStatus(text: string, otherwise: TransactionStatus): TransactionStatus {
    if text == "pending" then Pending
    else if text == "processing" then Processing
    else if text == "sent" then Sent
    else if text == "confirmed" || text == "failed" then otherwise
    else Processing
  }

  function Absorb(rid: Name, p: Progress, m: ServerMessage): Progress {
    if !Own(rid, m) then p
    else
      match m
      case TransactionAccepted(_, tid) => p.(transactionId := tid, status := Processing)
      case TransactionUpdate(_, tid, text, sig, sl, ss, sa, ri) =>
        Progress(if tid != [] then tid else p.transactionId, Or(sig, p.signature), Or(sl, p.slot), Or(ss, p.slotSent),
                 Or(sa, p.slotAccepted), UpdateStatus(text, p.status), Or(ri, p.routing), p.error)
      case TransactionConfirmed(_, tid, sig, sl, ss, sa, ri) =>
        Progress(tid, Or(sig, p.signature), Or(sl, p.slot), Or(ss, p.slotSent), Or(sa, p.slotAccepted), Confirmed, ri,
                 p.error)
      case TransactionFailed(_, tid, message) =>
        p.(transactionId := tid, status := Failed, error := Some(message))
      case _ => p
  }

  function Finish(p: Progress): TransactionResult {
    var landed := if p.status == Confirmed then p.slot else None;
    var delta :=
      if p.slotSent.Some? && landed.Some? && landed.value >= p.slotSent.value
      then Some(landed.value - p.slotSent.value)
      else None;
    TransactionResult(p.transactionId, p.signature, p.status, p.slot, p.slotSent, p.slotAccepted, landed, delta,
                      p.routing, p.error)
  }

  /** One round: the clock at the top of the loop, and how the receive ends. */
  datatype Recv = Message(message: ServerMessage) | TimedOut | ChannelClosed

  datatype Event = Event(now: nat, recv: Recv)

  predicate Decisive(rid: Name, deadline: nat, e: Event) {
    e.now >= deadline || !e.recv.Message? || Terminal(rid, e.recv.message)
  }

  function Fold(rid: Name, events: seq<Event>): Progress {
    if events == [] then START
    else
      var last := events[|events| - 1];
      var p := Fold(rid, events[..|events| - 1]);
      if last.recv.Message? then Absorb(rid, p, last.recv.message) else p
  }

  type Verdict = Result<TransactionResult, SdkError>

  /** What the submission comes to after these rounds; None while it is still waiting. */
  function Outcome(rid: Name, deadline: nat, timeoutMs: nat, events: seq<Event>): Option<Verdict> {
    if events == [] then None
    else
      var last, before := events[|events| - 1], events[..|events| - 1];
      var earlier := Outcome(rid, deadline, timeoutMs, before);
      if earlier.Some? then earlier
      else if last.now >= deadline || last.recv.TimedOut? then Some(Err(Timeout(timeoutMs)))
      else if last.recv.ChannelClosed? then Some(Err(Connection))
      else if Terminal(rid, last.recv.message) then Some(Ok(Finish(Fold(rid, events))))
      else None
  }

  lemma FoldSnoc(rid: Name, before: seq<Event>, last: Event)
    ensures Fold(rid, before + [last]) ==
            if last.recv.Message? then Absorb(rid, Fold(rid, before), last.recv.message) else Fold(rid, before)
  {
    hide Absorb;
    assert (before + [last])[..|before|] == before;
  }

  lemma OutcomeSnoc(rid: Name, deadline: nat, timeoutMs: nat, before: seq<Event>, last: Event)
    ensures Outcome(rid, deadline, timeoutMs, before + [last]) ==
            if Outcome(rid, deadline, timeoutMs, before).Some? then Outcome(rid, deadline, timeoutMs, before)
            else if last.now >= deadline || last.recv.TimedOut? then Some(Err(Timeout(timeoutMs)))
            else if last.recv.ChannelClosed? then Some(Err(Connection))
            else if Terminal(rid, last.recv.message) then Some(Ok(Finish(Fold(rid, before + [last]))))
            else None
  {
    hide Fold, Finish;
    assert (before + [last])[..|before|] == before;
  }

  lemma Undecided(rid: Name, deadline: nat, timeoutMs: nat)
    ensures Outcome(rid, deadline, timeoutMs, []) == None && Fold(rid, []) == START
  {
  }

  method SubmitLoop(rid: Name, start: nat, timeoutMs: nat, events: seq<Event>) returns (r: Option<Verdict>)
    ensures r == Outcome(rid, start + timeoutMs, timeoutMs, events)
  {
    hide Outcome, Fold;
    var deadline := start + timeoutMs;
    Undecided(rid, deadline, timeoutMs);
    var transactionId: Name := [];
    var signature: Option<Name> := None;
    var slot: Option<nat> := None;
    var slotSent: Option<nat> := None;
    var slotAccepted: Option<nat> := None;
    var status := Pending;
    var routing: Option<RoutingInfo> := None;
    var error: Option<Name> := None;
    var i := 0;
    var done := false;
    assert events[..0] == [];
    while i < |events|
      invariant i <= |events| && Outcome(rid, deadline, timeoutMs, events[..i]) == None
      invariant Fold(rid, events[..i]) ==
                Progress(transactionId, signature, slot, slotSent, slotAccepted, status, routing, error)
    {
      var e := events[i];
      OutcomeSnoc(rid, deadline, timeoutMs, events[..i], e);
      FoldSnoc(rid, events[..i], e);
      assert events[..i + 1] == events[..i] + [e];
      if e.now >= deadline || e.recv.TimedOut? {
        OutcomeStable(rid, deadline, timeoutMs, events, i + 1);
        return Some(Err(Timeout(timeoutMs)));
      }
      if e.recv.ChannelClosed? {
        OutcomeStable(rid, deadline, timeoutMs, events, i + 1);
        return Some(Err(Connection));
      }
      match e.recv.message {
        case TransactionAccepted(id, tid) =>
          if id == rid {
            transactionId := tid;
            status := Processing;
          }
        case TransactionUpdate(id, tid, s, sig, sl, ss, sa, ri) =>
          if id == rid {
            if tid != [] { transactionId := tid; }
            if sig.Some? { signature := sig; }
            if sl.Some? { slot := sl; }
            slotSent := Or(ss, slotSent);
            slotAccepted := Or(sa, slotAccepted);
            if ri.Some? { routing := ri; }
            if s == "pending" { status := Pending; }
            else if s == "processing" { status := Processing; }
            else if s == "sent" { status := Sent; }
            else if s == "confirmed" || s == "failed" { done := true; }
            else { status := Processing; }
          }
        case TransactionConfirmed(id, tid, sig, sl, ss, sa, ri) =>
          if id == rid {
            transactionId := tid;
            if sig.Some? { signature := sig; }
            if sl.Some? { slot := sl; }
            slotSent := Or(ss, slotSent);
            slotAccepted := Or(sa, slotAccepted);
            status := Confirmed;
            routing := ri;
            done := true;
          }
        case TransactionFailed(id, tid, message) =>
          if id == rid {
            transactionId := tid;
            status := Failed;
            error := Some(message);
            done := true;
          }
        case _ =>
      }
      i := i + 1;
      if done {
        OutcomeStable(rid, deadline, timeoutMs, events, i);
        var slotLanded := if status == Confirmed then slot else None;
        var slotDelta: Option<nat> := None;
        if slotSent.Some? && slotLanded.Some? {
          if slotLanded.value >= slotSent.value {
            slotDelta := Some(slotLanded.value - slotSent.value);
          }
        }
        return Some(Ok(TransactionResult(transactionId, signature, status, slot, slotSent, slotAccepted, slotLanded,
                                         slotDelta, routing, error)));
      }
    }
    assert events[..|events|] == events;
    return None;
  }

  // ------------------------------------------------------------------ main results

  /** Once decided, nothing that arrives later matters. */
  lemma {:induction false} OutcomeStable(rid: Name, deadline: nat, timeoutMs: nat, events: seq<Event>, n: nat)
    requires n <= |events| && Outcome(rid, deadline, timeoutMs, events[..n]).Some?
    ensures Outcome(rid, deadline, timeoutMs, events) == Outcome(rid, deadline, timeoutMs, events[..n])
    decreases |events|
  {
    if n == |events| {
      assert events[..n] == events;
    } else {
      var shorter := events[..|events| - 1];
      assert shorter[..n] == events[..n];
      OutcomeStable(rid, deadline, timeoutMs, shorter, n);
    }
  }

  /** What the loop can react to: its own messages, and the ways a receive can fail. */
  predicate Relevant(rid: Name, deadline: nat, e: Event) {
    e.now >= deadline || !e.recv.Message? || Own(rid, e.recv.message)
  }

  /** Non-interference: messages of other requests and pushed items change nothing. */
  lemma {:induction false} OutcomeIgnoresOthers(rid: Name, deadline: nat, timeoutMs: nat, events: seq<Event>)
    ensures var own := Filter(e => Relevant(rid, deadline, e), events);
            && Outcome(rid, deadline, timeoutMs, own) == Outcome(rid, deadline, timeoutMs, events)
            && (Outcome(rid, deadline, timeoutMs, events).None? ==> Fold(rid, own) == Fold(rid, events))
  {
    hide Absorb, Finish, Outcome, Fold, Filter;
    var p := e => Relevant(rid, deadline, e);
    if events == [] {
      FilterNil(p);
    } else {
      var before, last := events[..|events| - 1], events[|events| - 1];
      OutcomeIgnoresOthers(rid, deadline, timeoutMs, before);
      var own := Filter(p, before);
      FilterSnoc(p, before, last);
      assert events == before + [last];
      OutcomeSnoc(rid, deadline, timeoutMs, before, last);
      FoldSnoc(rid, before, last);
      if Relevant(rid, deadline, last) {
        OutcomeSnoc(rid, deadline, timeoutMs, own, last);
        FoldSnoc(rid, own, last);
      } else {
        ForeignIsIgnored(rid, Fold(rid, before), last.recv.message);
      }
    }
  }

  lemma ForeignIsIgnored(rid: Name, p: Progress, m: ServerMessage)
    requires !Own(rid, m)
    ensures Absorb(rid, p, m) == p
  {
  }

  /** The last reported value: what `write` extracts from the latest own message that has one. */
  function LastWrite<T>(rid: Name, events: seq<Event>, write: ServerMessage -> Option<T>): Option<T> {
    if events == [] then None
    else
      var last := events[|events| - 1];
      if last.recv.Message? && Own(rid, last.recv.message) && write(last.recv.message).Some?
      then write(last.recv.message)
      else LastWrite(rid, events[..|events| - 1], write)
  }

  function SignatureOf(m: ServerMessage): Option<Name> {
    if m.TransactionUpdate? || m.TransactionConfirmed? then m.signature else None
  }

  function SlotOf(m: ServerMessage): Option<nat> {
    if m.TransactionUpdate? || m.TransactionConfirmed? then m.slot else None
  }

  function SlotSentOf(m: ServerMessage): Option<nat> {
    if m.TransactionUpdate? || m.TransactionConfirmed? then m.slotSent else None
  }

  function SlotAcceptedOf(m: ServerMessage): Option<nat> {
    if m.TransactionUpdate? || m.TransactionConfirmed? then m.slotAccepted else None
  }

  function StatusOf(m: ServerMessage): Option<TransactionStatus> {
    match m
    case TransactionAccepted(_, _) => Some(Processing)
    case TransactionConfirmed(_, _, _, _, _, _, _) => Some(Confirmed)
    case TransactionFailed(_, _, _) => Some(Failed)
    case TransactionUpdate(_, _, text, _, _, _, _, _) =>
      if text == "confirmed" || text == "failed" then None
      else Some(if text == "pending" then Pending else if text == "sent" then Sent else Processing)
    case _ => None
  }

  function ErrorOf(m: ServerMessage): Option<Name> {
    if m.TransactionFailed? then Some(m.message) else None
  }

  function IdOf(m: ServerMessage): Option<Name> {
    match m
    case TransactionAccepted(_, tid) => Some(tid)
    case TransactionUpdate(_, tid, _, _, _, _, _, _) => if tid != [] then Some(tid) else None
    case TransactionConfirmed(_, tid, _, _, _, _, _) => Some(tid)
    case TransactionFailed(_, tid, _) => Some(tid)
    case _ => None
  }

  /** A confirmation replaces the routing even when it carries none. */
  function RoutingOf(m: ServerMessage): Option<Option<RoutingInfo>> {
    if m.TransactionUpdate? && m.routing.Some? then Some(m.routing)
    else if m.TransactionConfirmed? then Some(m.routing)
    else None
  }

  /** Every field of the result is the last value reported for it. */
  lemma {:induction false} FoldKeepsLastReported(rid: Name, events: seq<Event>)
    ensures Fold(rid, events) ==
            Progress(GetOr(LastWrite(rid, events, IdOf), []), LastWrite(rid, events, SignatureOf),
                     LastWrite(rid, events, SlotOf), LastWrite(rid, events, SlotSentOf),
                     LastWrite(rid, events, SlotAcceptedOf),
                     GetOr(LastWrite(rid, events, StatusOf), Pending), GetOr(LastWrite(rid, events, RoutingOf), None),
                     LastWrite(rid, events, ErrorOf))
  {
    if events != [] {
      FoldKeepsLastReported(rid, events[..|events| - 1]);
    }
  }

  /** `events` ends with the first decisive round, and that round is a terminal message. */
  predicate Completes(rid: Name, deadline: nat, events: seq<Event>) {
    events != []
    && (forall i :: 0 <= i < |events| - 1 ==> !Decisive(rid, deadline, events[i]))
    && events[|events| - 1].now < deadline
    && events[|events| - 1].recv.Message? && Terminal(rid, events[|events| - 1].recv.message)
  }

  /** An Ok result comes from exactly the rounds up to the first terminal message in time. */
  lemma {:induction false} OkMeansCompleted(rid: Name, deadline: nat, timeoutMs: nat, events: seq<Event>, n: nat)
    requires n <= |events|
    ensures Completes(rid, deadline, events[..n]) ==>
              Outcome(rid, deadline, timeoutMs, events) == Some(Ok(Finish(Fold(rid, events[..n]))))
    ensures Outcome(rid, deadline, timeoutMs, events).Some? && Outcome(rid, deadline, timeoutMs, events).value.Ok? ==>
              exists k :: 0 < k <= |events| && Completes(rid, deadline, events[..k])
    ensures Outcome(rid, deadline, timeoutMs, events).None? <==>
              forall i :: 0 <= i < |events| ==> !Decisive(rid, deadline, events[i])
    decreases |events|
  {
    hide Finish, Fold;
    if events != [] {
      var m := |events| - 1;
      var before := events[..m];
      OkMeansCompleted(rid, deadline, timeoutMs, before, Min(n, m));
      if Completes(rid, deadline, events[..n]) && n <= m {
        assert before[..n] == events[..n];
      }
      if n == m + 1 {
        assert events[..n] == events;
      }
      if k :| 0 < k <= m && Completes(rid, deadline, before[..k]) {
        assert events[..k] == before[..k];
      }
      assert events[..m + 1] == events;
    }
  }

  /** The shape of every Ok result: Failed iff it carries an error, Confirmed iff the terminal
      message was a confirmation, a landed slot exactly on a confirmation that knows the slot, and a
      delta that makes up the difference. An update that says "confirmed" or "failed" ends the
      wait without either status. */
  lemma ResultShape(rid: Name, deadline: nat, events: seq<Event>)
    requires Completes(rid, deadline, events)
    ensures var r, last := Finish(Fold(rid, events)), events[|events| - 1].recv.message;
            && (r.status == Failed <==> r.error.Some?)
            && (r.status == Failed <==> last.TransactionFailed?)
            && (r.status == Confirmed <==> last.TransactionConfirmed?)
            && (last.TransactionUpdate? ==> r.status in {Pending, Processing, Sent})
            && r.slotLanded == (if r.status == Confirmed then r.slot else None)
            && (r.slotDelta.Some? ==> r.slotDelta.value + r.slotSent.value == r.slotLanded.value)
            && (r.slotDelta.Some? <==> r.slotSent.Some? && r.slotLanded.Some? && r.slotSent.value <= r.slotLanded.value)
  {
    var n := |events| - 1;
    NoTerminalYet(rid, deadline, events[..n]);
  }

  lemma {:induction false} NoTerminalYet(rid: Name, deadline: nat, events: seq<Event>)
    requires forall i :: 0 <= i < |events| ==> !Decisive(rid, deadline, events[i])
    ensures Fold(rid, events).error == None && Fold(rid, events).status in {Pending, Processing, Sent}
  {
    if events != [] {
      assert !Decisive(rid, deadline, events[|events| - 1]);
      NoTerminalYet(rid, deadline, events[..|events| - 1]);
    }
  }

  /** So a server that reports the confirmation as an update leaves the client with the status of
      the message before it, and no landed slot. */
  lemma ConfirmedUpdateIsNotConfirmed(rid: Name, tid: Name, slot: nat, deadline: nat, timeoutMs: nat)
    requires deadline > 0
    ensures var update := TransactionUpdate(rid, tid, "confirmed", None, Some(slot), None, None, None);
            var r := Outcome(rid, deadline, timeoutMs, [Event(0, Message(update))]);
            r.Some? && r.value.Ok? && r.value.value.status == Pending && r.value.value.slot == Some(slot)
            && r.value.value.slotLanded == None
  {
    var events := [Event(0, Message(TransactionUpdate(rid, tid, "confirmed", None, Some(slot), None, None, None)))];
    assert events[..0] == [];
    assert Fold(rid, events[..0]) == START;
  }

  // ------------------------------------------------------------------ the result in full

  /** What ends the wait for good: a confirmation, a failure, or an update that says so. */
  predicate EndsIt(rid: Name, m: ServerMessage) {
    || (m.TransactionConfirmed? && m.rid == rid)
    || (m.TransactionFailed? && m.rid == rid)
    || (m.TransactionUpdate? && m.rid == rid && m.statusText in {"confirmed", "failed"})
  }

  /** The first `n` rounds each began in time and received a message, and none of these ends the wait. */
  predicate GoesOn(rid: Name, deadline: nat, events: seq<Event>, n: nat) {
    n <= |events| && forall i :: 0 <= i < n ==>
      events[i].now < deadline && events[i].recv.Message? && !EndsIt(rid, events[i].recv.message)
  }

  /** The n-th round is the one that decides. */
  predicate DecidedBy(rid: Name, deadline: nat, events: seq<Event>, n: nat) {
    && n < |events| && GoesOn(rid, deadline, events, n)
    && (events[n].now >= deadline || !events[n].recv.Message? || EndsIt(rid, events[n].recv.message))
  }

  lemma {:induction false} UndecidedWhileItGoesOn(rid: Name, deadline: nat, timeoutMs: nat, events: seq<Event>, n: nat)
    requires GoesOn(rid, deadline, events, n)
    ensures Outcome(rid, deadline, timeoutMs, events[..n]) == None
  {
    hide Fold, Finish;
    if n > 0 {
      UndecidedWhileItGoesOn(rid, deadline, timeoutMs, events, n - 1);
      assert events[..n][..n - 1] == events[..n - 1];
    }
  }

  /** The whole outcome: late or silent rounds time out, a closed channel is a connection error, and the
      message that ends the wait yields a result whose every field is the last value reported for it up
      to then, with the landed slot and the delta worked out from those. */
  lemma OutcomeInFull(rid: Name, deadline: nat, timeoutMs: nat, events: seq<Event>, n: nat)
    requires DecidedBy(rid, deadline, events, n)
    ensures var outcome, e, seen := Outcome(rid, deadline, timeoutMs, events), events[n], events[..n + 1];
            if e.now >= deadline || e.recv.TimedOut? then outcome == Some(Err(Timeout(timeoutMs)))
            else if e.recv.ChannelClosed? then outcome == Some(Err(Connection))
            else
              && outcome.Some? && outcome.value.Ok?
              && var r := outcome.value.value;
                 && r.transactionId == GetOr(LastWrite(rid, seen, IdOf), [])
                 && r.signature == LastWrite(rid, seen, SignatureOf)
                 && r.slot == LastWrite(rid, seen, SlotOf)
                 && r.slotSent == LastWrite(rid, seen, SlotSentOf)
                 && r.slotAccepted == LastWrite(rid, seen, SlotAcceptedOf)
                 && r.status == GetOr(LastWrite(rid, seen, StatusOf), Pending)
                 && r.routing == GetOr(LastWrite(rid, seen, RoutingOf), None)
                 && r.error == LastWrite(rid, seen, ErrorOf)
                 && r.slotLanded == (if r.status == Confirmed then r.slot else None)
                 && (r.slotDelta.Some? <==>
                       r.slotSent.Some? && r.slotLanded.Some? && r.slotSent.value <= r.slotLanded.value)
                 && (r.slotDelta.Some? ==> r.slotSent.value + r.slotDelta.value == r.slotLanded.value)
  {
    hide Fold, LastWrite;
    UndecidedWhileItGoesOn(rid, deadline, timeoutMs, events, n);
    assert events[..n + 1] == events[..n] + [events[n]];
    OutcomeSnoc(rid, deadline, timeoutMs, events[..n], events[n]);
    OutcomeStable(rid, deadline, timeoutMs, events, n + 1);
    FoldKeepsLastReported(rid, events[..n + 1]);
  }

  lemma LastWriteStep<T>(rid: Name, events: seq<Event>, write: ServerMessage -> Option<T>)
    requires events != []
    ensures var last := events[|events| - 1];
            LastWrite(rid, events, write) ==
            if Reports(rid, last, write) then write(last.recv.message)
            else LastWrite(rid, events[..|events| - 1], write)
  {
  }

  /** The i-th round reports a value, and none after it does. */
  predicate Newest<T>(rid: Name, events: seq<Event>, write: ServerMessage -> Option<T>, i: nat) {
    i < |events| && Reports(rid, events[i], write) && forall k :: i < k < |events| ==> !Reports(rid, events[k], write)
  }

  /** The last reported value: the newest message of the submission that has one. */
  lemma {:induction false} LastWriteIsNewest<T>(rid: Name, events: seq<Event>, write: ServerMessage -> Option<T>, v: T)
    ensures LastWrite(rid, events, write) == Some(v) <==>
            exists i :: 0 <= i < |events| && Newest(rid, events, write, i)
                        && events[i].recv.Message? && write(events[i].recv.message) == Some(v)
  {
    hide LastWrite, Reports;
    if events == [] {
      assert LastWrite(rid, [], write) == None by { NothingReported(rid, write); }
    } else {
      var n := |events| - 1;
      var before, last := events[..n], events[n];
      LastWriteStep(rid, events, write);
      LastWriteIsNewest(rid, before, write, v);
      if Reports(rid, last, write) {
        assert Newest(rid, events, write, n) && last.recv.Message? by { ReportsAMessage(rid, last, write); }
        assert forall i :: 0 <= i < n ==> !Newest(rid, events, write, i);
      } else {
        forall i | 0 <= i < n ensures Newest(rid, events, write, i) == Newest(rid, before, write, i) {
          assert forall k :: 0 <= k < n ==> events[k] == before[k];
        }
        assert !Newest(rid, events, write, n);
        if LastWrite(rid, before, write) == Some(v) {
          var i :| 0 <= i < n && Newest(rid, before, write, i)
            && before[i].recv.Message? && write(before[i].recv.message) == Some(v);
          assert events[i] == before[i];
        }
      }
    }
  }

  lemma NothingReported<T>(rid: Name, write: ServerMessage -> Option<T>)
    ensures LastWrite(rid, [], write) == None
  {
  }

  lemma ReportsAMessage<T>(rid: Name, e: Event, write: ServerMessage -> Option<T>)
    requires Reports(rid, e, write)
    ensures e.recv.Message?
  {
  }

  predicate Reports<T>(rid: Name, e: Event, write: ServerMessage -> Option<T>) {
    e.recv.Message? && write(e.recv.message).Some?
    && (e.recv.message.TransactionAccepted? || e.recv.message.TransactionUpdate?
        || e.recv.message.TransactionConfirmed? || e.recv.message.TransactionFailed?)
    && e.recv.message.rid == rid
  }
}

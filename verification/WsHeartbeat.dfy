/** When the WebSocket receiver, which must put each message into the bounded queue before it reads
    on, stops answering heartbeats. */
module WsHeartbeat {
  import opened Prelude
  import opened Types
  import opened WsSubmit
  import opened WsDemux
  import opened WsSharing

  predicate NoTake(run: seq<Action>) {
    forall i :: 0 <= i < |run| ==> !run[i].Take?
  }

  /** Every heartbeat received has been answered: pongs and queued messages account for all arrivals. */
  lemma {:induction false} PongsAnswerHeartbeats(input: seq<ServerMessage>, run: seq<Action>)
    requires Exec(input, run).Some?
    ensures var s := Exec(input, run).value;
            s.arrived <= |input| && s.pongs + |Items(input, s.arrived)| == s.arrived
  {
    if run != [] {
      hide Items, Step, Enabled;
      PongsAnswerHeartbeats(input, run[..|run| - 1]);
      PongsStep(input, Exec(input, run[..|run| - 1]).value, run[|run| - 1]);
    }
  }

  lemma PongsStep(input: seq<ServerMessage>, s: State, a: Action)
    requires Enabled(input, s, a) && s.arrived <= |input| && s.pongs + |Items(input, s.arrived)| == s.arrived
    ensures var s' := Step(input, s, a);
            s'.arrived <= |input| && s'.pongs + |Items(input, s'.arrived)| == s'.arrived
  {
    hide Wants, Own, Terminal;
    if a.Receive? && !input[s.arrived].Heartbeat? {
      OneMoreItem(input, s.arrived);
    }
  }

  lemma {:induction false} ItemsGrow(input: seq<ServerMessage>, m: nat, n: nat)
    requires m <= n <= |input|
    ensures |Items(input, m)| <= |Items(input, n)|
  {
    if m < n {
      ItemsGrow(input, m, n - 1);
    }
  }

  /** As long as nobody takes, the queue only grows, by exactly the messages that arrive. */
  lemma {:induction false} QueueGrowsByArrivals(input: seq<ServerMessage>, run: seq<Action>, more: seq<Action>)
    requires Exec(input, run).Some? && Exec(input, run + more).Some? && NoTake(more)
    ensures var s, s' := Exec(input, run).value, Exec(input, run + more).value;
            && s.arrived <= s'.arrived <= |input| && s.queue <= s'.queue
            && |s'.queue| - |s.queue| == |Items(input, s'.arrived)| - |Items(input, s.arrived)|
  {
    hide Exec, Enabled, Step, Items;
    PongsAnswerHeartbeats(input, run);
    if more == [] {
      assert run + more == run;
    } else {
      var n := |more| - 1;
      ExecSnoc(input, run + more[..n], more[n]);
      assert run + more == run + more[..n] + [more[n]];
      QueueGrowsByArrivals(input, run, more[..n]);
      PongsAnswerHeartbeats(input, run + more[..n]);
      QueueGrowsStep(input, Exec(input, run + more[..n]).value, more[n]);
    }
  }

  lemma QueueGrowsStep(input: seq<ServerMessage>, s: State, a: Action)
    requires Enabled(input, s, a) && !a.Take? && s.arrived <= |input|
    ensures var s' := Step(input, s, a);
            && s.arrived <= s'.arrived <= |input| && s.queue <= s'.queue
            && |s'.queue| - |s.queue| == |Items(input, s'.arrived)| - |Items(input, s.arrived)|
  {
    hide Wants, Terminal;
    if a.Receive? && !input[s.arrived].Heartbeat? {
      OneMoreItem(input, s.arrived);
    }
  }

  function Receives(n: nat): seq<Action> {
    if n == 0 then [] else Receives(n - 1) + [Receive]
  }

  lemma {:induction false} NoTakeInReceives(n: nat)
    ensures NoTake(Receives(n))
  {
    if n > 0 {
      NoTakeInReceives(n - 1);
    }
  }

  /** The receiver gets on by itself while what arrives fits the queue. */
  lemma {:induction false} RoomLetsReceive(input: seq<ServerMessage>, run: seq<Action>, n: nat)
    requires Exec(input, run).Some?
    requires var s := Exec(input, run).value;
             s.arrived + n <= |input|
             && |s.queue| + |Items(input, s.arrived + n)| - |Items(input, s.arrived)| <= QUEUE_CAPACITY
    ensures Exec(input, run + Receives(n)).Some?
    ensures Exec(input, run + Receives(n)).value.arrived == Exec(input, run).value.arrived + n
  {
    hide Exec, Wants, Own, Terminal;
    if n == 0 {
      assert run + Receives(0) == run;
    } else {
      var s := Exec(input, run).value;
      ItemsGrow(input, s.arrived + n - 1, s.arrived + n);
      RoomLetsReceive(input, run, n - 1);
      NoTakeInReceives(n - 1);
      QueueGrowsByArrivals(input, run, Receives(n - 1));
      ExecSnoc(input, run + Receives(n - 1), Receive);
      assert run + Receives(n) == run + Receives(n - 1) + [Receive];
    }
  }

  /** Some continuation in which no consumer takes gets past the heartbeat at `h`, that is, answers it. */
  ghost predicate AnsweredWithoutTake(input: seq<ServerMessage>, run: seq<Action>, h: nat) {
    exists more :: NoTake(more) && Exec(input, run + more).Some? && Exec(input, run + more).value.arrived > h
  }

  /** The exact condition for a heartbeat to be answered without the help of a consumer: the messages
      ahead of it fit into the queue. */
  lemma HeartbeatAnsweredIff(input: seq<ServerMessage>, run: seq<Action>, h: nat)
    requires Exec(input, run).Some? && Exec(input, run).value.arrived <= h < |input| && input[h].Heartbeat?
    ensures var s := Exec(input, run).value;
            s.arrived <= |input|
            && (AnsweredWithoutTake(input, run, h) <==>
                |s.queue| + |Items(input, h)| - |Items(input, s.arrived)| <= QUEUE_CAPACITY)
  {
    hide Exec, InOrder;
    var s := Exec(input, run).value;
    if AnsweredWithoutTake(input, run, h) {
      var more :| NoTake(more) && Exec(input, run + more).Some? && Exec(input, run + more).value.arrived > h;
      var s' := Exec(input, run + more).value;
      QueueGrowsByArrivals(input, run, more);
      ItemsGrow(input, h, s'.arrived);
      RunsKeepOrder(input, run + more);
      QueueIsBounded(s');
    }
    if |s.queue| + |Items(input, h)| - |Items(input, s.arrived)| <= QUEUE_CAPACITY {
      var n := h + 1 - s.arrived;
      assert Items(input, h + 1) == Items(input, h);
      RoomLetsReceive(input, run, n);
      NoTakeInReceives(n);
      assert NoTake(Receives(n));
    }
  }

  lemma QueueIsBounded(s: State)
    requires InOrder(s)
    ensures |s.queue| <= QUEUE_CAPACITY
  {
  }

  lemma OneMoreItem(input: seq<ServerMessage>, n: nat)
    requires n < |input| && !input[n].Heartbeat?
    ensures |Items(input, n + 1)| == |Items(input, n)| + 1
  {
  }

  /** With the queue full and a message next, the receiver is stuck until some consumer takes:
      nothing more is received, queued or answered, whatever else happens. */
  lemma FullQueueStopsHeartbeats(input: seq<ServerMessage>, run: seq<Action>, more: seq<Action>)
    requires Exec(input, run + more).Some? && Exec(input, run).Some?
    requires var s := Exec(input, run).value;
             |s.queue| == QUEUE_CAPACITY && s.arrived < |input| && !input[s.arrived].Heartbeat?
    requires NoTake(more)
    ensures var s, s' := Exec(input, run).value, Exec(input, run + more).value;
            s'.arrived == s.arrived && s'.pongs == s.pongs && s'.queue == s.queue
  {
    hide Exec, InOrder;
    var s, s' := Exec(input, run).value, Exec(input, run + more).value;
    QueueGrowsByArrivals(input, run, more);
    RunsKeepOrder(input, run + more);
    QueueIsBounded(s');
    OneMoreItem(input, s.arrived);
    if s'.arrived > s.arrived {
      ItemsGrow(input, s.arrived + 1, s'.arrived);
      assert false;
    }
    PongsAnswerHeartbeats(input, run);
    PongsAnswerHeartbeats(input, run + more);
  }

  /** `n` messages with nobody listening, and then a heartbeat. */
  function Backlog(n: nat): seq<ServerMessage> {
    seq(n, _ => LatestSlotMessage(0)) + [Heartbeat]
  }

  lemma {:induction false} BacklogItems(n: nat, k: nat)
    requires k <= n
    ensures |Items(Backlog(n), k)| == k
  {
    if k > 0 {
      BacklogItems(n, k - 1);
      assert Backlog(n)[k - 1] == LatestSlotMessage(0);
    }
  }

  /** Without consumers, from the start: a heartbeat behind `n` pushed messages can be answered iff
      at most 256 of them are ahead of it; with more, the full queue is reached. */
  lemma BacklogBlocksHeartbeatIff(n: nat)
    ensures AnsweredWithoutTake(Backlog(n), [], n) <==> n <= QUEUE_CAPACITY
    ensures n > QUEUE_CAPACITY ==>
              && Exec(Backlog(n), Receives(QUEUE_CAPACITY)).Some?
              && |Exec(Backlog(n), Receives(QUEUE_CAPACITY)).value.queue| == QUEUE_CAPACITY
              && Exec(Backlog(n), Receives(QUEUE_CAPACITY)).value.arrived == QUEUE_CAPACITY < n
  {
    hide Exec;
    var input := Backlog(n);
    ExecNil(input);
    BacklogItems(n, n);
    BacklogItems(n, 0);
    HeartbeatAnsweredIff(input, [], n);
    if n > QUEUE_CAPACITY {
      BacklogItems(n, QUEUE_CAPACITY);
      RoomLetsReceive(input, [], QUEUE_CAPACITY);
      NoTakeInReceives(QUEUE_CAPACITY);
      QueueGrowsByArrivals(input, [], Receives(QUEUE_CAPACITY));
      assert [] + Receives(QUEUE_CAPACITY) == Receives(QUEUE_CAPACITY);
    }
  }

  // ------------------------------------------------------------------ a subscription nobody reads

  /** The part of a schedule in which the one subscription neither ends nor is read by the application. */
  predicate Unread(run: seq<Action>) {
    forall i :: 0 <= i < |run| ==> Undisturbed(run[i]) && !run[i].AppRead?
  }

  /** Some schedule of one subscription that is never read gets past the heartbeat at `h`. */
  ghost predicate AnsweredUnread(input: seq<ServerMessage>, w: Want, h: nat) {
    exists early: nat, run ::
      && Unread(run) && Exec(input, Schedule(early, w, run)).Some?
      && Exec(input, Schedule(early, w, run)).value.arrived > h
  }

  /** As many wanted messages fill the channel, and one more the hand of the loop. */
  const STALL: nat := CHANNEL_CAPACITY + 1

  /** How many of the items come after the wanted one that stalls the loop. */
  function Behind(w: Want, items: seq<Item>): nat {
    if items == [] then 0
    else
      var before := items[..|items| - 1];
      if |OfKind(w, before)| < STALL then 0 else Behind(w, before) + 1
  }

  lemma OfKindSnoc(w: Want, items: seq<Item>, item: Item)
    ensures OfKind(w, items + [item]) == OfKind(w, items) + if Wants(w, item.message) then [item] else []
  {
    FilterSnoc((i: Item) => Wants(w, i.message), items, item);
  }

  lemma BehindSnoc(w: Want, items: seq<Item>, item: Item)
    ensures Behind(w, items + [item]) == if |OfKind(w, items)| < STALL then 0 else Behind(w, items) + 1
  {
    assert (items + [item])[..|items|] == items;
  }

  /** Nothing before the stalling item counts. */
  lemma {:induction false} BehindIsAfter(w: Want, items: seq<Item>, k: nat)
    requires k < |items| && |OfKind(w, items[..k])| < STALL
    ensures Behind(w, items) <= |items| - (k + 1)
  {
    hide OfKind;
    var n := |items| - 1;
    if k < n {
      assert items[..n][..k] == items[..k];
      BehindIsAfter(w, items[..n], k);
    } else {
      assert items[..n] == items[..k];
    }
  }

  lemma {:induction false} BehindGrows(input: seq<ServerMessage>, w: Want, m: nat, n: nat)
    requires m <= n <= |input|
    ensures Behind(w, Items(input, m)) <= Behind(w, Items(input, n))
  {
    hide OfKind, Behind;
    if m < n {
      BehindGrows(input, w, m, n - 1);
      if !input[n - 1].Heartbeat? {
        var items, item := Items(input, n - 1), Item(n - 1, input[n - 1]);
        BehindSnoc(w, items, item);
        if |OfKind(w, items)| < STALL && items != [] { NotYetStalled(w, items); }
        if items == [] { assert Behind(w, []) == 0 by { NothingBehind(w); } }
      } else {
        assert Items(input, n) == Items(input, n - 1);
      }
    }
  }

  lemma NothingBehind(w: Want)
    ensures Behind(w, []) == 0 && OfKind(w, []) == []
  {
  }

  lemma {:induction false} NotYetStalled(w: Want, items: seq<Item>)
    requires |OfKind(w, items)| < STALL
    ensures Behind(w, items) == 0
  {
    hide OfKind;
    if items != [] {
      var n := |items| - 1;
      OfKindSnoc(w, items[..n], items[n]);
      assert items == items[..n] + [items[n]];
    }
  }

  lemma {:induction false} NothingRead(input: seq<ServerMessage>, early: nat, w: Want, run: seq<Action>)
    requires w.Pushed? && Unread(run) && Exec(input, Schedule(early, w, run)).Some?
    ensures var s := Exec(input, Schedule(early, w, run)).value;
            |s.consumers| == 1 && s.consumers[0].read == 0
  {
    hide Exec, Wants, Terminal;
    if run == [] {
      var before := seq(early, _ => Receive);
      assert Schedule(early, w, []) == before + [Subscribe(w)];
      ExecSnoc(input, before, Subscribe(w));
      OnlyReceived(input, early);
    } else {
      var n := |run| - 1;
      assert Schedule(early, w, run) == Schedule(early, w, run[..n]) + [run[n]];
      ExecSnoc(input, Schedule(early, w, run[..n]), run[n]);
      NothingRead(input, early, w, run[..n]);
    }
  }

  /** While nobody reads, everything behind the stalling message stays in the queue. */
  lemma BehindStaysQueued(input: seq<ServerMessage>, early: nat, w: Want, run: seq<Action>)
    requires w.Pushed? && Unread(run) && Exec(input, Schedule(early, w, run)).Some?
    ensures var s := Exec(input, Schedule(early, w, run)).value;
            s.arrived <= |input| && Behind(w, Items(input, s.arrived)) <= |s.queue| <= QUEUE_CAPACITY
  {
    hide Exec, OfKind, Behind, InOrder;
    var all := Schedule(early, w, run);
    var s := Exec(input, all).value;
    SoleConsumerGetsEverything(input, early, w, run);
    NothingRead(input, early, w, run);
    RunsKeepOrder(input, all);
    QueueIsBounded(s);
    ChannelIsBounded(s, 0);
    var items, x := Items(input, s.arrived), s.consumers[0];
    var taken := |items| - |s.queue|;
    if |OfKind(w, items[..taken])| < STALL {
      if taken < |items| {
        BehindIsAfter(w, items, taken);
      } else {
        assert items[..taken] == items;
        NotYetStalled(w, items);
      }
    } else {
      assert x.inflight.Some? && |OfKind(w, items[..taken])| == STALL;
      assert items[..taken] == items[..taken - 1] + [items[taken - 1]];
      OfKindSnoc(w, items[..taken - 1], items[taken - 1]);
      BehindIsAfter(w, items, taken - 1);
    }
  }

  lemma ChannelIsBounded(s: State, c: nat)
    requires InOrder(s) && c < |s.consumers| && s.consumers[c].want.Pushed?
    ensures |s.consumers[c].out| <= s.consumers[c].read + CHANNEL_CAPACITY
  {
    assert ConsumerInOrder(s.consumers[c], Front(s));
  }

  /** The loop takes each message at once, as long as it can. */
  function Drive(input: seq<ServerMessage>, w: Want, n: nat): seq<Action>
    requires n <= |input|
  {
    if n == 0 then [] else Drive(input, w, n - 1) + [Receive] + Serve(input, w, n - 1)
  }

  /** What it does with the n-th message. */
  function Serve(input: seq<ServerMessage>, w: Want, n: nat): seq<Action>
    requires n < |input|
  {
    var wanted := |OfKind(w, Items(input, n))|;
    if input[n].Heartbeat? || wanted >= STALL then []
    else if !Wants(w, input[n]) then Fetch(0) + [Discard(0)]
    else if wanted < CHANNEL_CAPACITY then Fetch(0) + [Deliver(0)]
    else Fetch(0)
  }

  /** Where that leads: with nothing left behind, or with channel and hand full and the rest queued. */
  predicate DrivenTo(input: seq<ServerMessage>, w: Want, n: nat, s: State)
    requires n <= |input|
  {
    var items := Items(input, n);
    var wanted := |OfKind(w, items)|;
    && s.arrived == n && s.lock.None? && |s.consumers| == 1
    && var x := s.consumers[0];
       && x.want == w && x.running && x.open && !x.waiting && x.read == 0
       && if wanted < STALL then s.queue == [] && x.inflight.None? && |x.out| == wanted
          else |s.queue| == Behind(w, items)
  }

  /** One more message: the loop serves it if it can. */
  lemma DriveStep(input: seq<ServerMessage>, w: Want, n: nat, run: seq<Action>)
    requires w.Pushed? && n < |input| && Behind(w, Items(input, n + 1)) <= QUEUE_CAPACITY
    requires Exec(input, run).Some? && DrivenTo(input, w, n, Exec(input, run).value)
    ensures var run' := run + [Receive] + Serve(input, w, n);
            Exec(input, run').Some? && DrivenTo(input, w, n + 1, Exec(input, run').value)
  {
    hide Exec, Wants, OfKind, Behind;
    var s, items, m := Exec(input, run).value, Items(input, n), input[n];
    ExecSnoc(input, run, Receive);
    var r1 := run + [Receive];
    if m.Heartbeat? {
      assert r1 + [] == r1 && Items(input, n + 1) == items;
    } else {
      var item := Item(n, m);
      OfKindSnoc(w, items, item);
      BehindSnoc(w, items, item);
      if |OfKind(w, items)| >= STALL {
        assert r1 + [] == r1;
      } else {
        Fetches(input, r1, 0);
        var r2 := r1 + Fetch(0);
        ExecSnoc(input, r2, Discard(0));
        ExecSnoc(input, r2, Deliver(0));
        assert r1 + (Fetch(0) + [Discard(0)]) == r2 + [Discard(0)];
        assert r1 + (Fetch(0) + [Deliver(0)]) == r2 + [Deliver(0)];
      }
    }
  }

  lemma {:induction false} DriveReaches(input: seq<ServerMessage>, w: Want, n: nat)
    requires w.Pushed? && n <= |input| && Behind(w, Items(input, n)) <= QUEUE_CAPACITY
    ensures var run := [Subscribe(w)] + Drive(input, w, n);
            Exec(input, run).Some? && DrivenTo(input, w, n, Exec(input, run).value)
  {
    hide Exec, Wants, OfKind, Behind, Serve;
    if n == 0 {
      NothingBehind(w);
      ExecNil(input);
      ExecSnoc(input, [], Subscribe(w));
      assert [Subscribe(w)] + Drive(input, w, 0) == [] + [Subscribe(w)];
    } else {
      BehindGrows(input, w, n - 1, n);
      DriveReaches(input, w, n - 1);
      var before := [Subscribe(w)] + Drive(input, w, n - 1);
      DriveStep(input, w, n - 1, before);
      assert [Subscribe(w)] + Drive(input, w, n) == before + [Receive] + Serve(input, w, n - 1);
    }
  }

  lemma {:induction false} DriveIsUnread(input: seq<ServerMessage>, w: Want, n: nat)
    requires n <= |input|
    ensures Unread(Drive(input, w, n))
  {
    hide Serve;
    if n > 0 {
      DriveIsUnread(input, w, n - 1);
      ServeIsUnread(input, w, n - 1);
    }
  }

  lemma ServeIsUnread(input: seq<ServerMessage>, w: Want, n: nat)
    requires n < |input|
    ensures Unread(Serve(input, w, n))
  {
    hide Wants, OfKind;
  }

  /** The exact condition for a heartbeat to be answered while the application does not read its one
      subscription: what comes after the 33rd message it should have read fits into the queue. */
  lemma UnreadAnsweredIff(input: seq<ServerMessage>, w: Want, h: nat)
    requires w.Pushed? && h < |input| && input[h].Heartbeat?
    ensures AnsweredUnread(input, w, h) <==> Behind(w, Items(input, h)) <= QUEUE_CAPACITY
  {
    hide AnsweredUnread;
    if AnsweredUnread(input, w, h) { AnsweredFits(input, w, h); }
    if Behind(w, Items(input, h)) <= QUEUE_CAPACITY { FitIsAnswered(input, w, h); }
  }

  lemma AnsweredFits(input: seq<ServerMessage>, w: Want, h: nat)
    requires w.Pushed? && h < |input| && AnsweredUnread(input, w, h)
    ensures Behind(w, Items(input, h)) <= QUEUE_CAPACITY
  {
    hide Exec, OfKind, Behind, Schedule;
    var early: nat, run :|
      && Unread(run) && Exec(input, Schedule(early, w, run)).Some?
      && Exec(input, Schedule(early, w, run)).value.arrived > h;
    BehindStaysQueued(input, early, w, run);
    BehindGrows(input, w, h, Exec(input, Schedule(early, w, run)).value.arrived);
  }

  lemma FitIsAnswered(input: seq<ServerMessage>, w: Want, h: nat)
    requires w.Pushed? && h < |input| && input[h].Heartbeat?
    requires Behind(w, Items(input, h)) <= QUEUE_CAPACITY
    ensures AnsweredUnread(input, w, h)
  {
    hide Exec, OfKind, Behind, Drive, Unread;
    assert Items(input, h + 1) == Items(input, h);
    DriveReaches(input, w, h + 1);
    DriveIsUnread(input, w, h + 1);
    var run := Drive(input, w, h + 1);
    assert Schedule(0, w, run) == [Subscribe(w)] + run;
    assert Unread(run) && Exec(input, Schedule(0, w, run)).Some? && Exec(input, Schedule(0, w, run)).value.arrived > h;
  }

  /** Behind `n` messages of one kind, all for a subscription that is not read, the heartbeat can be
      answered iff they fit into channel, hand and queue: 32 + 1 + 256. */
  lemma UnreadBacklogIff(n: nat)
    ensures AnsweredUnread(Backlog(n), Pushed(LatestSlot), n) <==> n <= STALL + QUEUE_CAPACITY == 289
  {
    hide AnsweredUnread, OfKind;
    UnreadAnsweredIff(Backlog(n), Pushed(LatestSlot), n);
    AllWanted(n, n);
  }

  lemma {:induction false} AllWanted(n: nat, k: nat)
    requires k <= n
    ensures var w, items := Pushed(LatestSlot), Items(Backlog(n), k);
            |OfKind(w, items)| == k && Behind(w, items) == Max(0, k - STALL)
  {
    hide OfKind, Behind;
    var w := Pushed(LatestSlot);
    if k == 0 {
      NothingBehind(w);
    } else {
      AllWanted(n, k - 1);
      var items, item := Items(Backlog(n), k - 1), Item(k - 1, LatestSlotMessage(0));
      assert Backlog(n)[k - 1] == LatestSlotMessage(0);
      OfKindSnoc(w, items, item);
      BehindSnoc(w, items, item);
    }
  }
}

/** The WebSocket demultiplexer (src/connection/websocket.rs): one receiver fills a bounded
    queue, and any number of consumers drain it under an exclusive lock, each discarding what it does
    not want. Modelled as a step system over the atomic actions of these spawned loops. */
module WsDemux {
  import opened Prelude
  import opened Types
  import opened WsSubmit

  const QUEUE_CAPACITY: nat := 256
  const CHANNEL_CAPACITY: nat := 32

  /** A subscription forwards one kind; a submission keeps the messages of its request. */
  datatype Want = Pushed(kind: StreamKind) | Submission(rid: Name)

  predicate Wants(w: Want, m: ServerMessage) {
    match w
    case Submission(rid) => Own(rid, m)
    case Pushed(LeaderHints) => m.LeaderHintMessage?
    case Pushed(TipInstructions) => m.TipInstructionMessage?
    case Pushed(PriorityFees) => m.PriorityFeeMessage?
    case Pushed(LatestBlockhash) => m.LatestBlockhashMessage?
    case Pushed(LatestSlot) => m.LatestSlotMessage?
  }

  /** A server message with its position in the input. */
  datatype Item = Item(index: nat, message: ServerMessage)

  /** `waiting` for the lock of the queue; `inflight` is the item taken off the queue after the lock
      was released; `out` is everything delivered, of which the application has read the first `read`. */
  datatype Consumer = Consumer(
    want: Want,
    running: bool,
    open: bool,
    waiting: bool,
    inflight: Option<Item>,
    out: seq<Item>,
    read: nat)

  function Fresh(w: Want): Consumer {
    Consumer(w, true, true, false, None, [], 0)
  }

  datatype Loss = Loss(item: Item, taker: nat)

  /** `lock` is the consumer that holds the lock of the queue; `discarded` is a history variable. */
  datatype State = State(
    arrived: nat,
    pongs: nat,
    queue: seq<Item>,
    lock: Option<nat>,
    consumers: seq<Consumer>,
    discarded: seq<Loss>)

  const INIT: State := State(0, 0, [], None, [], [])

  datatype Action =
    | Receive
    | Subscribe(want: Want)
    | Await(c: nat)
    | Lock(c: nat)
    | Take(c: nat)
    | Deliver(c: nat)
    | Discard(c: nat)
    | Refuse(c: nat)
    | AppRead(c: nat)
    | AppClose(c: nat)
    | GiveUp(c: nat)

  predicate Holding(s: State, c: nat) {
    c < |s.consumers| && s.consumers[c].inflight.Some?
  }

  predicate Wanted(s: State, c: nat)
    requires Holding(s, c)
  {
    Wants(s.consumers[c].want, s.consumers[c].inflight.value.message)
  }

  /** Between two rounds of its loop: nothing in hand, not waiting for the lock and not holding it. */
  predicate AtLoopTop(s: State, c: nat) {
    && c < |s.consumers| && s.consumers[c].running && s.consumers[c].inflight.None?
    && !s.consumers[c].waiting && s.lock != Some(c)
  }

  predicate HoldsLock(s: State, c: nat) {
    && c < |s.consumers| && s.consumers[c].running && s.consumers[c].inflight.None?
    && s.lock == Some(c)
  }

  /** A submission can give up at its deadline before it waits for the lock, or while it holds it:
      the wait for the lock itself has no deadline. */
  predicate Enabled(input: seq<ServerMessage>, s: State, a: Action) {
    match a
    case Receive => s.arrived < |input| && (input[s.arrived].Heartbeat? || |s.queue| < QUEUE_CAPACITY)
    case Subscribe(_) => true
    case Await(c) => AtLoopTop(s, c)
    case Lock(c) => c < |s.consumers| && s.consumers[c].waiting && s.lock.None?
    case Take(c) => HoldsLock(s, c) && s.queue != []
    case Deliver(c) =>
      Holding(s, c) && Wanted(s, c) && s.consumers[c].open
      && (s.consumers[c].want.Pushed? ==> |s.consumers[c].out| < s.consumers[c].read + CHANNEL_CAPACITY)
    case Discard(c) => Holding(s, c) && !Wanted(s, c)
    case Refuse(c) => Holding(s, c) && Wanted(s, c) && !s.consumers[c].open
    case AppRead(c) => c < |s.consumers| && s.consumers[c].read < |s.consumers[c].out|
    case AppClose(c) => c < |s.consumers| && s.consumers[c].want.Pushed?
    case GiveUp(c) => (AtLoopTop(s, c) || HoldsLock(s, c)) && s.consumers[c].want.Submission?
  }

  function Put(s: State, c: nat, x: Consumer): State
    requires c < |s.consumers|
  {
    s.(consumers := s.consumers[c := x])
  }

  function Step(input: seq<ServerMessage>, s: State, a: Action): State
    requires Enabled(input, s, a)
  {
    match a
    case Receive =>
      if input[s.arrived].Heartbeat? then s.(arrived := s.arrived + 1, pongs := s.pongs + 1)
      else s.(arrived := s.arrived + 1, queue := s.queue + [Item(s.arrived, input[s.arrived])])
    case Subscribe(w) => s.(consumers := s.consumers + [Fresh(w)])
    case Await(c) => Put(s, c, s.consumers[c].(waiting := true))
    case Lock(c) => Put(s.(lock := Some(c)), c, s.consumers[c].(waiting := false))
    case Take(c) => Put(s.(queue := s.queue[1..], lock := None), c, s.consumers[c].(inflight := Some(s.queue[0])))
    case Deliver(c) =>
      var x := s.consumers[c];
      var item := x.inflight.value;
      var stops := x.want.Submission? && Terminal(x.want.rid, item.message);
      Put(s, c, x.(inflight := None, out := x.out + [item], running := x.running && !stops))
    case Discard(c) =>
      var x := s.consumers[c];
      Put(s.(discarded := s.discarded + [Loss(x.inflight.value, c)]), c, x.(inflight := None))
    case Refuse(c) =>
      var x := s.consumers[c];
      Put(s.(discarded := s.discarded + [Loss(x.inflight.value, c)]), c, x.(inflight := None, running := false))
    case AppRead(c) => Put(s, c, s.consumers[c].(read := s.consumers[c].read + 1))
    case AppClose(c) => Put(s, c, s.consumers[c].(open := false))
    case GiveUp(c) =>
      Put(s.(lock := if s.lock == Some(c) then None else s.lock), c, s.consumers[c].(running := false))
  }

  /** The state after a schedule of actions; None if it is not a run. */
  function Exec(input: seq<ServerMessage>, run: seq<Action>): Option<State> {
    if run == [] then Some(INIT)
    else
      match Exec(input, run[..|run| - 1])
      case None => None
      case Some(s) =>
        if Enabled(input, s, run[|run| - 1]) then Some(Step(input, s, run[|run| - 1])) else None
  }

  lemma ExecSnoc(input: seq<ServerMessage>, run: seq<Action>, a: Action)
    ensures Exec(input, run + [a]) ==
            match Exec(input, run)
            case None => None
            case Some(s) => if Enabled(input, s, a) then Some(Step(input, s, a)) else None
  {
    hide Enabled, Step;
    assert (run + [a])[..|run|] == run;
  }

  lemma ExecNil(input: seq<ServerMessage>)
    ensures Exec(input, []) == Some(INIT)
  {
  }

  // ------------------------------------------------------------------ conservation

  function Copies(items: seq<Item>, item: Item): nat {
    multiset(items)[item]
  }

  function Held(x: Consumer, item: Item): nat {
    Copies(x.out, item) + if x.inflight == Some(item) then 1 else 0
  }

  function HeldByAll(xs: seq<Consumer>, item: Item): nat {
    if xs == [] then 0 else HeldByAll(xs[..|xs| - 1], item) + Held(xs[|xs| - 1], item)
  }

  function Lost(losses: seq<Loss>, item: Item): nat {
    if losses == [] then 0
    else Lost(losses[..|losses| - 1], item) + if losses[|losses| - 1].item == item then 1 else 0
  }

  /** In how many places the item is: queued, in flight, delivered or discarded. */
  function Places(s: State, item: Item): nat {
    Copies(s.queue, item) + HeldByAll(s.consumers, item) + Lost(s.discarded, item)
  }

  /** The item is one of the non-heartbeat messages received so far. */
  predicate Received(input: seq<ServerMessage>, n: nat, item: Item)
    requires n <= |input|
  {
    item.index < n && item.message == input[item.index] && !item.message.Heartbeat?
  }

  lemma CopiesSnoc(items: seq<Item>, x: Item, item: Item)
    ensures Copies(items + [x], item) == Copies(items, item) + if x == item then 1 else 0
  {
  }

  lemma CopiesTail(items: seq<Item>, item: Item)
    requires items != []
    ensures Copies(items, item) == Copies(items[1..], item) + if items[0] == item then 1 else 0
  {
    assert items == [items[0]] + items[1..];
  }

  lemma {:induction false} HeldUpdate(xs: seq<Consumer>, c: nat, x: Consumer, item: Item)
    requires c < |xs|
    ensures HeldByAll(xs[c := x], item) + Held(xs[c], item) == HeldByAll(xs, item) + Held(x, item)
  {
    hide Held;
    var n := |xs| - 1;
    if c == n {
      assert xs[c := x][..n] == xs[..n];
    } else {
      assert xs[c := x][..n] == xs[..n][c := x];
      HeldUpdate(xs[..n], c, x, item);
    }
  }

  lemma HeldSnoc(xs: seq<Consumer>, x: Consumer, item: Item)
    ensures HeldByAll(xs + [x], item) == HeldByAll(xs, item) + Held(x, item)
  {
    assert (xs + [x])[..|xs|] == xs;
  }

  lemma LostSnoc(losses: seq<Loss>, l: Loss, item: Item)
    ensures Lost(losses + [l], item) == Lost(losses, item) + if l.item == item then 1 else 0
  {
    assert (losses + [l])[..|losses|] == losses;
  }

  predicate Touches(a: Action, c: nat) {
    !a.Receive? && !a.Subscribe? && a.c == c
  }

  /** An action of one consumer moves its item between queue, hand, output and losses. */
  lemma ConsumerActionBalances(input: seq<ServerMessage>, s: State, a: Action, c: nat, item: Item)
    requires Enabled(input, s, a) && Touches(a, c)
    ensures var s' := Step(input, s, a);
            && c < |s.consumers| && s'.consumers == s.consumers[c := s'.consumers[c]] && s'.arrived == s.arrived
            && Copies(s.queue, item) + Held(s.consumers[c], item) + Lost(s.discarded, item) ==
               Copies(s'.queue, item) + Held(s'.consumers[c], item) + Lost(s'.discarded, item)
  {
    hide Wants, Own, Terminal, Lost, Copies;
    var x := s.consumers[c];
    if a.Take? {
      CopiesTail(s.queue, item);
    } else if a.Deliver? {
      CopiesSnoc(x.out, x.inflight.value, item);
    } else if a.Discard? || a.Refuse? {
      LostSnoc(s.discarded, Loss(x.inflight.value, c), item);
    }
  }

  lemma StepConserves(input: seq<ServerMessage>, s: State, a: Action, item: Item)
    requires s.arrived <= |input| && Enabled(input, s, a)
    requires Places(s, item) == if Received(input, s.arrived, item) then 1 else 0
    ensures Step(input, s, a).arrived <= |input|
    ensures Places(Step(input, s, a), item) == if Received(input, Step(input, s, a).arrived, item) then 1 else 0
  {
    hide Wants, Own, Terminal, HeldByAll, Lost, Copies;
    var s' := Step(input, s, a);
    if a.Receive? {
      if !input[s.arrived].Heartbeat? { CopiesSnoc(s.queue, Item(s.arrived, input[s.arrived]), item); }
    } else if a.Subscribe? {
      HeldSnoc(s.consumers, Fresh(a.want), item);
      NewConsumerHoldsNothing(a.want, item);
    } else {
      ConsumerActionBalances(input, s, a, a.c, item);
      HeldUpdate(s.consumers, a.c, s'.consumers[a.c], item);
    }
  }

  lemma NewConsumerHoldsNothing(w: Want, item: Item)
    ensures Held(Fresh(w), item) == 0
  {
  }

  /** Conservation: at all times every non-heartbeat message received so far is in exactly one
      place (queued, in flight in one consumer, delivered to one, or discarded), and nothing else
      is anywhere. */
  lemma {:induction false} EveryMessageIsInOnePlace(input: seq<ServerMessage>, run: seq<Action>, item: Item)
    requires Exec(input, run).Some?
    ensures var s := Exec(input, run).value;
            s.arrived <= |input| && Places(s, item) == if Received(input, s.arrived, item) then 1 else 0
  {
    hide Step, Enabled;
    if run != [] {
      EveryMessageIsInOnePlace(input, run[..|run| - 1], item);
      StepConserves(input, Exec(input, run[..|run| - 1]).value, run[|run| - 1], item);
    }
  }

  /** The non-heartbeat messages among the first `n`, in order. */
  function Items(input: seq<ServerMessage>, n: nat): (items: seq<Item>)
    requires n <= |input|
    ensures forall item :: item in items <==> Received(input, n, item)
    ensures forall i :: 0 <= i < |items| ==> items[i].index < n
    ensures forall i, j :: 0 <= i < j < |items| ==> items[i].index < items[j].index
  {
    if n == 0 then []
    else Items(input, n - 1) + (if input[n - 1].Heartbeat? then [] else [Item(n - 1, input[n - 1])])
  }

  // ------------------------------------------------------------------ order and losses

  predicate Ascending(items: seq<Item>) {
    forall i, j :: 0 <= i < j < |items| ==> items[i].index < items[j].index
  }

  function Taken(x: Consumer): seq<Item> {
    x.out + (if x.inflight.Some? then [x.inflight.value] else [])
  }

  /** Everything taken so far precedes everything still queued. */
  function Front(s: State): nat {
    if s.queue == [] then s.arrived else s.queue[0].index
  }

  predicate ConsumerInOrder(x: Consumer, front: nat) {
    && Ascending(Taken(x)) && (forall i :: 0 <= i < |Taken(x)| ==> Taken(x)[i].index < front)
    && (forall i :: 0 <= i < |x.out| ==> Wants(x.want, x.out[i].message))
    && x.read <= |x.out| && (x.want.Pushed? ==> |x.out| <= x.read + CHANNEL_CAPACITY)
  }

  predicate LossExplained(s: State, l: Loss) {
    l.taker < |s.consumers|
    && (!Wants(s.consumers[l.taker].want, l.item.message) || !s.consumers[l.taker].open)
  }

  predicate InOrder(s: State) {
    && Ascending(s.queue) && (forall i :: 0 <= i < |s.queue| ==> s.queue[i].index < s.arrived)
    && |s.queue| <= QUEUE_CAPACITY
    && (forall c :: 0 <= c < |s.consumers| ==> ConsumerInOrder(s.consumers[c], Front(s)))
    && (forall i :: 0 <= i < |s.discarded| ==> LossExplained(s, s.discarded[i]))
  }

  lemma FrontAdvances(input: seq<ServerMessage>, s: State, a: Action)
    requires InOrder(s) && Enabled(input, s, a)
    ensures Front(s) <= Front(Step(input, s, a))
    ensures a.Take? ==> Front(s) == s.queue[0].index < Front(Step(input, s, a))
  {
    hide Wants, Own, Terminal, LossExplained, ConsumerInOrder;
  }

  lemma TakingKeepsOrder(x: Consumer, item: Item, front: nat, front': nat)
    requires ConsumerInOrder(x, front) && x.inflight.None? && front <= item.index < front'
    ensures ConsumerInOrder(x.(inflight := Some(item)), front')
  {
    hide Wants;
    var x' := x.(inflight := Some(item));
    assert Taken(x') == Taken(x) + [item];
  }

  lemma DeliveringKeepsOrder(x: Consumer, running: bool, front: nat)
    requires ConsumerInOrder(x, front) && x.inflight.Some? && Wants(x.want, x.inflight.value.message)
    requires x.want.Pushed? ==> |x.out| < x.read + CHANNEL_CAPACITY
    ensures ConsumerInOrder(x.(inflight := None, out := x.out + [x.inflight.value], running := running), front)
  {
    hide Wants;
    var x' := x.(inflight := None, out := x.out + [x.inflight.value], running := running);
    assert Taken(x') == Taken(x);
  }

  lemma DroppingKeepsOrder(x: Consumer, x': Consumer, front: nat, front': nat)
    requires ConsumerInOrder(x, front) && front <= front'
    requires x'.out == x.out && (x'.inflight == x.inflight || x'.inflight.None?) && x'.want == x.want
    requires x.read <= x'.read <= |x.out|
    ensures ConsumerInOrder(x', front')
  {
    hide Wants;
    assert Taken(x') <= Taken(x);
  }

  /** What the actions other than a take or a delivery of its own can change in a consumer. */
  lemma OtherActionsOnlyDrop(input: seq<ServerMessage>, s: State, a: Action, c: nat)
    requires Enabled(input, s, a) && c < |s.consumers| && s.consumers[c].read <= |s.consumers[c].out|
    requires !((a.Take? || a.Deliver?) && a.c == c)
    ensures var x, x' := s.consumers[c], Step(input, s, a).consumers[c];
            && x'.out == x.out && (x'.inflight == x.inflight || x'.inflight.None?) && x'.want == x.want
            && x.read <= x'.read <= |x.out|
  {
    hide Wants, Own, Terminal;
  }

  lemma FreshKeepsOrder(w: Want, front: nat)
    ensures ConsumerInOrder(Fresh(w), front)
  {
    hide Wants;
  }

  lemma ConsumerKeepsOrder(input: seq<ServerMessage>, s: State, a: Action, c: nat)
    requires InOrder(s) && Enabled(input, s, a) && c < |Step(input, s, a).consumers|
    ensures ConsumerInOrder(Step(input, s, a).consumers[c], Front(Step(input, s, a)))
  {
    hide Wants, Own, Terminal, LossExplained, Front;
    var s' := Step(input, s, a);
    FrontAdvances(input, s, a);
    if c >= |s.consumers| {
      FreshKeepsOrder(a.want, Front(s'));
    } else {
      var x := s.consumers[c];
      assert ConsumerInOrder(x, Front(s));
      assert x.read <= |x.out|;
      hide InOrder, ConsumerInOrder;
      if a.Take? && a.c == c {
        TakingKeepsOrder(x, s.queue[0], Front(s), Front(s'));
      } else if a.Deliver? && a.c == c {
        DroppingKeepsOrder(x, x, Front(s), Front(s'));
        DeliveringKeepsOrder(x, s'.consumers[c].running, Front(s'));
      } else {
        OtherActionsOnlyDrop(input, s, a, c);
        hide Step, Enabled;
        DroppingKeepsOrder(x, s'.consumers[c], Front(s), Front(s'));
      }
    }
  }

  lemma StepKeepsOrder(input: seq<ServerMessage>, s: State, a: Action)
    requires InOrder(s) && Enabled(input, s, a)
    ensures InOrder(Step(input, s, a))
  {
    hide Wants, Own, Terminal, ConsumerInOrder;
    var s' := Step(input, s, a);
    forall c | 0 <= c < |s'.consumers| ensures ConsumerInOrder(s'.consumers[c], Front(s')) {
      ConsumerKeepsOrder(input, s, a, c);
    }
    forall i | 0 <= i < |s'.discarded| ensures LossExplained(s', s'.discarded[i]) {
      if i < |s.discarded| { assert LossExplained(s, s.discarded[i]); }
    }
  }

  lemma {:induction false} RunsKeepOrder(input: seq<ServerMessage>, run: seq<Action>)
    requires Exec(input, run).Some?
    ensures InOrder(Exec(input, run).value)
  {
    hide Step, Enabled, ConsumerInOrder, LossExplained;
    if run != [] {
      RunsKeepOrder(input, run[..|run| - 1]);
      StepKeepsOrder(input, Exec(input, run[..|run| - 1]).value, run[|run| - 1]);
    }
  }

  /** Each consumer's output is an order-preserving subsequence of the input messages it wants,
      never more than a channel ahead of the application, and every discarded message was taken by
      a consumer that did not want it or whose receiver is closed. */
  lemma OutputsAreSubsequences(input: seq<ServerMessage>, run: seq<Action>, c: nat)
    requires Exec(input, run).Some? && c < |Exec(input, run).value.consumers|
    ensures var s := Exec(input, run).value;
            var x := s.consumers[c];
            && Ascending(x.out)
            && (forall i :: 0 <= i < |x.out| ==>
                  && x.out[i].index < |input| && input[x.out[i].index] == x.out[i].message
                  && Wants(x.want, x.out[i].message))
            && (x.want.Pushed? ==> |x.out| <= x.read + CHANNEL_CAPACITY)
            && (forall i :: 0 <= i < |s.discarded| ==> LossExplained(s, s.discarded[i]))
  {
    hide Wants, LossExplained;
    RunsKeepOrder(input, run);
    var s := Exec(input, run).value;
    var x := s.consumers[c];
    assert ConsumerInOrder(x, Front(s));
    forall i | 0 <= i < |x.out| ensures x.out[i].index < |input| && input[x.out[i].index] == x.out[i].message {
      assert x.out[i] in multiset(x.out);
      HeldMember(s.consumers, c, x.out[i]);
      EveryMessageIsInOnePlace(input, run, x.out[i]);
    }
    forall i, j | 0 <= i < j < |x.out| ensures x.out[i].index < x.out[j].index {
      assert Taken(x)[i] == x.out[i] && Taken(x)[j] == x.out[j];
    }
  }

  lemma {:induction false} HeldMember(xs: seq<Consumer>, c: nat, item: Item)
    requires c < |xs| && Held(xs[c], item) > 0
    ensures HeldByAll(xs, item) > 0
  {
    hide Held;
    if c < |xs| - 1 {
      HeldMember(xs[..|xs| - 1], c, item);
    }
  }

  // ------------------------------------------------------------------ a sole consumer

  /** The part of the schedule in which the one consumer neither gets company nor ends. */
  predicate Undisturbed(a: Action) {
    !a.Subscribe? && !a.AppClose? && !a.GiveUp?
  }

  function OfKind(w: Want, items: seq<Item>): seq<Item> {
    Filter((item: Item) => Wants(w, item.message), items)
  }

  function WantedInHand(x: Consumer): seq<Item> {
    if x.inflight.Some? && Wants(x.want, x.inflight.value.message) then [x.inflight.value] else []
  }

  /** The consumer has taken the items before the queue, in order: what it wants of them it has
      delivered or holds, and the rest it has dropped, except perhaps the last. */
  predicate TookInOrder(items: seq<Item>, queue: seq<Item>, x: Consumer) {
    && |queue| <= |items|
    && var taken := |items| - |queue|;
       && queue == items[taken..]
       && OfKind(x.want, items[..taken]) == x.out + WantedInHand(x)
       && (x.inflight.Some? ==> taken > 0 && x.inflight.value == items[taken - 1])
  }

  predicate Alone(input: seq<ServerMessage>, s: State, w: Want) {
    && s.arrived <= |input| && |s.consumers| == 1
    && s.consumers[0].want == w && s.consumers[0].open && s.consumers[0].running
    && TookInOrder(Items(input, s.arrived), s.queue, s.consumers[0])
  }

  lemma ArrivalKeepsTaken(items: seq<Item>, queue: seq<Item>, x: Consumer, item: Item)
    requires TookInOrder(items, queue, x)
    ensures TookInOrder(items + [item], queue + [item], x)
  {
    hide OfKind, WantedInHand;
    var taken := |items| - |queue|;
    assert (items + [item])[..taken] == items[..taken];
  }

  lemma TakeKeepsTaken(items: seq<Item>, queue: seq<Item>, x: Consumer)
    requires TookInOrder(items, queue, x) && x.inflight.None? && queue != []
    ensures TookInOrder(items, queue[1..], x.(inflight := Some(queue[0])))
  {
    hide Wants, Filter;
    var taken := |items| - |queue|;
    FilterSnoc((item: Item) => Wants(x.want, item.message), items[..taken], queue[0]);
    assert items[..taken + 1] == items[..taken] + [queue[0]];
  }

  lemma AloneStep(input: seq<ServerMessage>, s: State, w: Want, a: Action)
    requires w.Pushed? && Alone(input, s, w) && Enabled(input, s, a) && Undisturbed(a)
    ensures Alone(input, Step(input, s, a), w)
  {
    hide Wants, OfKind, TookInOrder, Terminal;
    var x, s' := s.consumers[0], Step(input, s, a);
    var items := Items(input, s.arrived);
    if a.Receive? {
      if input[s.arrived].Heartbeat? {
        assert Items(input, s'.arrived) == items;
      } else {
        ArrivalKeepsTaken(items, s.queue, x, Item(s.arrived, input[s.arrived]));
      }
    } else if a.Take? {
      TakeKeepsTaken(items, s.queue, x);
    } else {
      HandKeepsTaken(items, s.queue, x, s'.consumers[0]);
    }
  }

  /** Delivering what is wanted and dropping what is not leave the order as it is. */
  lemma HandKeepsTaken(items: seq<Item>, queue: seq<Item>, x: Consumer, x': Consumer)
    requires TookInOrder(items, queue, x) && x'.want == x.want
    requires x'.inflight == x.inflight || x'.inflight.None?
    requires x'.out + WantedInHand(x') == x.out + WantedInHand(x)
    ensures TookInOrder(items, queue, x')
  {
  }

  /** A sole subscription whose receiver stays open, once drained, has delivered exactly the input
      messages of its kind, in order, also those that were queued before it subscribed. */
  lemma {:induction false} SoleConsumerGetsEverything(input: seq<ServerMessage>, early: nat, w: Want, run: seq<Action>)
    requires w.Pushed? && (forall i :: 0 <= i < |run| ==> Undisturbed(run[i]))
    requires Exec(input, Schedule(early, w, run)).Some?
    ensures var s := Exec(input, Schedule(early, w, run)).value;
            && Alone(input, s, w)
            && (s.queue == [] && s.consumers[0].inflight.None? ==>
                 s.consumers[0].out == OfKind(w, Items(input, s.arrived)))
  {
    hide Wants, Filter, Step, Enabled;
    var all := Schedule(early, w, run);
    if run == [] {
      FreshConsumer(input, early, w);
    } else {
      var n := |run| - 1;
      assert all[..|all| - 1] == Schedule(early, w, run[..n]) && all[|all| - 1] == run[n];
      SoleConsumerGetsEverything(input, early, w, run[..n]);
      AloneStep(input, Exec(input, Schedule(early, w, run[..n])).value, w, run[n]);
    }
    var s := Exec(input, all).value;
    var items := Items(input, s.arrived);
    assert items[..|items|] == items;
  }

  /** Some messages arrive, the consumer subscribes, and the rest of the schedule follows. */
  function Schedule(early: nat, w: Want, run: seq<Action>): seq<Action> {
    seq(early, _ => Receive) + [Subscribe(w)] + run
  }

  lemma {:induction false} OnlyReceived(input: seq<ServerMessage>, n: nat)
    requires Exec(input, seq(n, _ => Receive)).Some?
    ensures var s := Exec(input, seq(n, _ => Receive)).value;
            s.arrived == n <= |input| && s.queue == Items(input, n) && s.consumers == []
  {
    var run := seq(n, _ => Receive);
    if n > 0 {
      assert run[..n - 1] == seq(n - 1, _ => Receive);
      OnlyReceived(input, n - 1);
    }
  }

  lemma FreshConsumer(input: seq<ServerMessage>, n: nat, w: Want)
    requires Exec(input, Schedule(n, w, [])).Some?
    ensures Alone(input, Exec(input, Schedule(n, w, [])).value, w)
  {
    hide Wants, Filter;
    var run, before := Schedule(n, w, []), seq(n, _ => Receive);
    assert run[..|run| - 1] == before && run[|run| - 1] == Subscribe(w);
    OnlyReceived(input, n);
    var s := Exec(input, run).value;
    assert Items(input, n)[..0] == [] && Items(input, n)[0..] == Items(input, n);
    FilterNil((item: Item) => Wants(w, item.message));
  }
}

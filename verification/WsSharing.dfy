/** What it costs that all WebSocket consumers share one bounded queue: which subscriptions and
    submissions lose messages to each other, and when the receiver stops answering heartbeats. */
module WsSharing {
  import opened Prelude
  import opened Types
  import opened WsSubmit
  import opened WsDemux

  // ------------------------------------------------------------------ losses

  /** A discarded message is gone for good: in no continuation is a discarded message delivered to anyone. */
  lemma DiscardedIsNeverDelivered(input: seq<ServerMessage>, run: seq<Action>, more: seq<Action>, item: Item, c: nat)
    requires Exec(input, run).Some? && Exec(input, run + more).Some?
    requires Lost(Exec(input, run).value.discarded, item) > 0
    requires c < |Exec(input, run + more).value.consumers|
    ensures item !in Exec(input, run + more).value.consumers[c].out
  {
    hide Exec, Held, Lost;
    LossesStay(input, run, more, item);
    EveryMessageIsInOnePlace(input, run + more, item);
    var xs := Exec(input, run + more).value.consumers;
    if item in xs[c].out {
      DeliveredIsHeld(xs[c], item);
      HeldMember(xs, c, item);
      assert false;
    }
  }

  lemma DeliveredIsHeld(x: Consumer, item: Item)
    requires item in x.out
    ensures Held(x, item) > 0
  {
    assert item in multiset(x.out);
  }

  lemma {:induction false} LossesStay(input: seq<ServerMessage>, run: seq<Action>, more: seq<Action>, item: Item)
    requires Exec(input, run).Some? && Exec(input, run + more).Some?
    ensures Lost(Exec(input, run).value.discarded, item) <= Lost(Exec(input, run + more).value.discarded, item)
  {
    hide Wants, Own, Exec, Lost;
    if more == [] {
      assert run + more == run;
    } else {
      var n := |more| - 1;
      assert run + more == run + more[..n] + [more[n]];
      ExecSnoc(input, run + more[..n], more[n]);
      LossesStay(input, run, more[..n], item);
      var s, a := Exec(input, run + more[..n]).value, more[n];
      if a.Discard? || a.Refuse? {
        LostSnoc(s.discarded, Loss(s.consumers[a.c].inflight.value, a.c), item);
      }
    }
  }

  /** As long as all consumers are open and want the same, no message they want is ever discarded,
      so once drained each of them has been delivered. */
  lemma SameWantLosesNothing(input: seq<ServerMessage>, run: seq<Action>, w: Want, k: nat)
    requires Exec(input, run).Some?
    requires var s := Exec(input, run).value;
             && (forall c :: 0 <= c < |s.consumers| ==>
                   s.consumers[c].want == w && s.consumers[c].open && s.consumers[c].inflight.None?)
             && s.queue == [] && k < s.arrived <= |input|
    requires Wants(w, input[k])
    ensures var s := Exec(input, run).value;
            exists c :: 0 <= c < |s.consumers| && Item(k, input[k]) in s.consumers[c].out
  {
    hide Exec, Terminal, ConsumerInOrder, HeldByAll, Lost, Held;
    var s, item := Exec(input, run).value, Item(k, input[k]);
    RunsKeepOrder(input, run);
    EveryMessageIsInOnePlace(input, run, item);
    if Lost(s.discarded, item) > 0 {
      var i := LostMember(s.discarded, item);
      Explained(s, i);
      assert false;
    }
    assert !input[k].Heartbeat? && Copies(s.queue, item) == 0;
    var c := HeldSomewhere(s.consumers, item);
    HandsEmpty(s.consumers[c], item);
  }

  lemma Explained(s: State, i: nat)
    requires InOrder(s) && i < |s.discarded|
    ensures LossExplained(s, s.discarded[i])
  {
  }

  lemma HandsEmpty(x: Consumer, item: Item)
    requires x.inflight.None? && Held(x, item) > 0
    ensures item in x.out
  {
    assert item in multiset(x.out);
  }

  lemma {:induction false} LostMember(losses: seq<Loss>, item: Item) returns (i: nat)
    requires Lost(losses, item) > 0
    ensures i < |losses| && losses[i].item == item
  {
    if losses[|losses| - 1].item == item {
      i := |losses| - 1;
    } else {
      i := LostMember(losses[..|losses| - 1], item);
    }
  }

  lemma {:induction false} HeldSomewhere(xs: seq<Consumer>, item: Item) returns (c: nat)
    requires HeldByAll(xs, item) > 0
    ensures c < |xs| && Held(xs[c], item) > 0
  {
    hide Held;
    if Held(xs[|xs| - 1], item) > 0 {
      c := |xs| - 1;
    } else {
      c := HeldSomewhere(xs[..|xs| - 1], item);
    }
  }

  // ------------------------------------------------------------------ parties

  /** A consumer as it ends up: still open, or a subscription whose receiver was dropped. */
  datatype Party = Open(want: Want) | Dropped(kind: StreamKind)

  function WantOf(p: Party): Want {
    match p case Open(w) => w case Dropped(k) => Pushed(k)
  }

  /** The consumers are exactly those parties, and everything received has been drained. */
  predicate Drained(s: State, ps: seq<Party>) {
    && s.queue == [] && |s.consumers| == |ps|
    && forall c :: 0 <= c < |ps| ==>
         s.consumers[c].want == WantOf(ps[c]) && s.consumers[c].open == ps[c].Open? && s.consumers[c].inflight.None?
  }

  predicate WantedByOpen(ps: seq<Party>, m: ServerMessage) {
    exists c :: 0 <= c < |ps| && ps[c].Open? && Wants(ps[c].want, m)
  }

  predicate Delivered(s: State, item: Item) {
    exists c :: 0 <= c < |s.consumers| && item in s.consumers[c].out
  }

  ghost predicate DeliversAllWanted(input: seq<ServerMessage>, s: State, ps: seq<Party>) {
    forall i :: 0 <= i < s.arrived <= |input| && WantedByOpen(ps, input[i]) ==> Delivered(s, Item(i, input[i]))
  }

  /** In every drained run, each message that some open party wants is delivered to one of them. */
  ghost predicate NoLoss(ps: seq<Party>) {
    forall input: seq<ServerMessage>, run: seq<Action> ::
      Exec(input, run).Some? && Drained(Exec(input, run).value, ps) ==>
        DeliversAllWanted(input, Exec(input, run).value, ps)
  }

  ghost predicate EachDeliversItsOwn(input: seq<ServerMessage>, s: State, ps: seq<Party>) {
    forall c, i ::
      && 0 <= c < |ps| == |s.consumers| && ps[c].Open?
      && 0 <= i < s.arrived <= |input| && Wants(ps[c].want, input[i]) ==>
      Item(i, input[i]) in s.consumers[c].out
  }

  /** In every drained run, each open party is given all that it wants itself. */
  ghost predicate Independent(ps: seq<Party>) {
    forall input: seq<ServerMessage>, run: seq<Action> ::
      Exec(input, run).Some? && Drained(Exec(input, run).value, ps) ==>
        EachDeliversItsOwn(input, Exec(input, run).value, ps)
  }

  predicate NoneOpen(ps: seq<Party>) {
    forall c :: 0 <= c < |ps| ==> ps[c].Dropped?
  }

  predicate AllOpen(ps: seq<Party>) {
    forall c :: 0 <= c < |ps| ==> ps[c].Open?
  }

  predicate AllTheSame<T(==)>(ws: seq<T>) {
    forall i, j :: 0 <= i < |ws| && 0 <= j < |ws| ==> ws[i] == ws[j]
  }

  // ------------------------------------------------------------------ when sharing is lossless

  /** The exact condition for any subscriptions and submissions to share the queue without loss,
      with receivers open or dropped: nobody is left to lose anything, or all are open and want the same. */
  lemma SharingIsLosslessIff(ps: seq<Party>)
    ensures NoLoss(ps) <==> NoneOpen(ps) || (AllOpen(ps) && AllTheSame(ps))
  {
    if NoneOpen(ps) || (AllOpen(ps) && AllTheSame(ps)) {
      forall input: seq<ServerMessage>, run: seq<Action> | Exec(input, run).Some? && Drained(Exec(input, run).value, ps)
        ensures DeliversAllWanted(input, Exec(input, run).value, ps)
      {
        SamePartiesDeliverAll(input, run, ps);
      }
    } else {
      var i: nat :| i < |ps| && ps[i].Open?;
      var j: nat :| j < |ps| && ps[j] != ps[i];
      OtherPartyTakesIt(ps, i, j, []);
      var input, run := [SampleFor(ps[i].want)], TakenByOther(ps, SampleFor(ps[i].want), j);
      assert run + [] == run;
      assert Exec(input, run).Some? && Drained(Exec(input, run).value, ps);
      assert WantedByOpen(ps, input[0]) && !Delivered(Exec(input, run).value, Item(0, input[0]));
    }
  }

  lemma SamePartiesDeliverAll(input: seq<ServerMessage>, run: seq<Action>, ps: seq<Party>)
    requires NoneOpen(ps) || (AllOpen(ps) && AllTheSame(ps))
    requires Exec(input, run).Some? && Drained(Exec(input, run).value, ps)
    ensures DeliversAllWanted(input, Exec(input, run).value, ps)
  {
    hide Exec, Wants;
    var s := Exec(input, run).value;
    forall i | 0 <= i < s.arrived <= |input| && WantedByOpen(ps, input[i]) ensures Delivered(s, Item(i, input[i])) {
      var c :| 0 <= c < |ps| && ps[c].Open? && Wants(ps[c].want, input[i]);
      assert forall k :: 0 <= k < |ps| ==> ps[k] == ps[c];
      SameWantLosesNothing(input, run, ps[c].want, i);
    }
  }

  /** Receivers that stay open share without loss iff they all want the same. */
  lemma OpenSharingIsLosslessIff(ws: seq<Want>)
    ensures NoLoss(Opened(ws)) <==> AllTheSame(ws)
  {
    var ps := Opened(ws);
    SharingIsLosslessIff(ps);
    if AllTheSame(ps) {
      forall i, j | 0 <= i < |ws| && 0 <= j < |ws| ensures ws[i] == ws[j] { assert ps[i] == ps[j]; }
    }
    if ws != [] { assert ps[0].Open?; }
  }

  function Opened(ws: seq<Want>): seq<Party> {
    seq(|ws|, i requires 0 <= i < |ws| => Open(ws[i]))
  }

  /** Being given all that one wants oneself takes more: a party is independent of the others only
      when there are none, or when no receiver is left. */
  lemma IndependentIff(ps: seq<Party>)
    ensures Independent(ps) <==> NoneOpen(ps) || |ps| <= 1
  {
    if NoneOpen(ps) || |ps| <= 1 {
      forall input: seq<ServerMessage>, run: seq<Action> | Exec(input, run).Some? && Drained(Exec(input, run).value, ps)
        ensures EachDeliversItsOwn(input, Exec(input, run).value, ps)
      {
        LonePartyGetsItsOwn(input, run, ps);
      }
    } else {
      var i: nat :| i < |ps| && ps[i].Open?;
      var j: nat := if i == 0 then 1 else 0;
      var m := SampleFor(ps[i].want);
      SampleIsWanted(ps[i].want);
      OtherPartyTakes(ps, m, j);
      var s := Exec([m], TakenByOther(ps, m, j)).value;
      assert Item(0, [m][0]) !in s.consumers[i].out;
      assert !EachDeliversItsOwn([m], s, ps);
    }
  }

  lemma LonePartyGetsItsOwn(input: seq<ServerMessage>, run: seq<Action>, ps: seq<Party>)
    requires NoneOpen(ps) || |ps| <= 1
    requires Exec(input, run).Some? && Drained(Exec(input, run).value, ps)
    ensures EachDeliversItsOwn(input, Exec(input, run).value, ps)
  {
    hide Exec, Wants;
    var s := Exec(input, run).value;
    forall c, i | 0 <= c < |ps| && ps[c].Open? && 0 <= i < s.arrived <= |input| && Wants(ps[c].want, input[i])
      ensures Item(i, input[i]) in s.consumers[c].out
    {
      SameWantLosesNothing(input, run, ps[c].want, i);
    }
  }

  // ------------------------------------------------------------------ one message, taken by the wrong party

  /** A message that this consumer wants, and no consumer with another want. */
  function SampleFor(w: Want): ServerMessage {
    match w
    case Submission(rid) => TransactionAccepted(rid, [])
    case Pushed(LeaderHints) => LeaderHintMessage(0)
    case Pushed(TipInstructions) => TipInstructionMessage(0)
    case Pushed(PriorityFees) => PriorityFeeMessage(0)
    case Pushed(LatestBlockhash) => LatestBlockhashMessage(0)
    case Pushed(LatestSlot) => LatestSlotMessage(0)
  }

  lemma SampleIsWanted(w: Want)
    ensures Wants(w, SampleFor(w)) && !SampleFor(w).Heartbeat?
    ensures forall w' :: Wants(w', SampleFor(w)) ==> w' == w
  {
  }

  /** The parties subscribe one after the other, and a receiver that is to be dropped is dropped as
      soon as it is made; the first of them becomes consumer `first`. */
  function Enter(first: nat, ps: seq<Party>): seq<Action> {
    if ps == [] then []
    else
      var n := |ps| - 1;
      Enter(first, ps[..n]) + [Subscribe(WantOf(ps[n]))] + if ps[n].Open? then [] else [AppClose(first + n)]
  }

  function Entrants(ps: seq<Party>): (xs: seq<Consumer>)
    ensures |xs| == |ps|
  {
    seq(|ps|, c requires 0 <= c < |ps| => Fresh(WantOf(ps[c])).(open := ps[c].Open?))
  }

  lemma {:induction false} AllEntered(input: seq<ServerMessage>, run: seq<Action>, ps: seq<Party>)
    requires Exec(input, run).Some?
    ensures var s := Exec(input, run).value;
            Exec(input, run + Enter(|s.consumers|, ps)) == Some(s.(consumers := s.consumers + Entrants(ps)))
  {
    hide Exec;
    var s := Exec(input, run).value;
    var first := |s.consumers|;
    if ps == [] {
      assert run + Enter(first, ps) == run && s.consumers + Entrants(ps) == s.consumers;
    } else {
      var n := |ps| - 1;
      AllEntered(input, run, ps[..n]);
      var before, w := run + Enter(first, ps[..n]), WantOf(ps[n]);
      var xs := s.consumers + Entrants(ps[..n]);
      assert Entrants(ps) == Entrants(ps[..n]) + [Fresh(w).(open := ps[n].Open?)];
      ExecSnoc(input, before, Subscribe(w));
      ExecSnoc(input, before + [Subscribe(w)], AppClose(first + n));
      if ps[n].Open? {
        assert run + Enter(first, ps) == before + [Subscribe(w)];
        assert s.consumers + Entrants(ps) == xs + [Fresh(w)];
      } else {
        assert run + Enter(first, ps) == before + [Subscribe(w)] + [AppClose(first + n)];
        assert s.consumers + Entrants(ps) == (xs + [Fresh(w)])[first + n := Fresh(w).(open := false)];
      }
    }
  }

  /** One round of a consumer, up to the item in its hand. */
  function Fetch(c: nat): seq<Action> {
    [Await(c), Lock(c), Take(c)]
  }

  lemma Fetches(input: seq<ServerMessage>, run: seq<Action>, c: nat)
    requires Exec(input, run).Some?
    requires var s := Exec(input, run).value; AtLoopTop(s, c) && s.lock.None? && s.queue != []
    ensures var s := Exec(input, run).value;
            Exec(input, run + Fetch(c)) ==
            Some(Put(s.(queue := s.queue[1..]), c, s.consumers[c].(inflight := Some(s.queue[0]))))
  {
    hide Exec;
    var s := Exec(input, run).value;
    ExecSnoc(input, run, Await(c));
    ExecSnoc(input, run + [Await(c)], Lock(c));
    ExecSnoc(input, run + [Await(c)] + [Lock(c)], Take(c));
    assert run + Fetch(c) == run + [Await(c)] + [Lock(c)] + [Take(c)];
    var x, xs := s.consumers[c], s.consumers;
    var x' := x.(inflight := Some(s.queue[0]));
    assert xs[c := x.(waiting := true)][c := x][c := x'] == xs[c := x'];
  }

  /** What a party does with an item in its hand. */
  function Settle(p: Party, m: ServerMessage, c: nat): Action {
    if !Wants(WantOf(p), m) then Discard(c) else if p.Open? then Deliver(c) else Refuse(c)
  }

  /** All parties enter, one message arrives, and the j-th takes it. */
  function TakenByOther(ps: seq<Party>, m: ServerMessage, j: nat): seq<Action>
    requires j < |ps|
  {
    Enter(0, ps) + [Receive] + Fetch(j) + [Settle(ps[j], m, j)]
  }

  function InHandOf(ps: seq<Party>, j: nat, item: Item): State
    requires j < |ps|
  {
    var xs := Entrants(ps);
    INIT.(arrived := 1, consumers := xs[j := xs[j].(inflight := Some(item))])
  }

  lemma OtherPartyFetches(ps: seq<Party>, m: ServerMessage, j: nat)
    requires j < |ps| && !m.Heartbeat?
    ensures Exec([m], Enter(0, ps) + [Receive] + Fetch(j)) == Some(InHandOf(ps, j, Item(0, m)))
  {
    hide Exec, Fetch, Enter;
    var input, item := [m], Item(0, m);
    ExecNil(input);
    AllEntered(input, [], ps);
    var r1, entered := Enter(0, ps), INIT.(consumers := Entrants(ps));
    assert [] + r1 == r1 && [] + Entrants(ps) == Entrants(ps);
    ExecSnoc(input, r1, Receive);
    assert Step(input, entered, Receive) == entered.(arrived := 1, queue := [item]);
    Fetches(input, r1 + [Receive], j);
    assert [item][1..] == [];
  }

  lemma SettleStep(input: seq<ServerMessage>, ps: seq<Party>, m: ServerMessage, j: nat)
    requires j < |ps|
    ensures var before, a := InHandOf(ps, j, Item(0, m)), Settle(ps[j], m, j);
            && Enabled(input, before, a)
            && var s := Step(input, before, a);
               && s.arrived == 1 && s.lock.None? && Drained(s, ps)
               && s.discarded == (if a.Deliver? then [] else [Loss(Item(0, m), j)])
               && forall c :: 0 <= c < |ps| && c != j ==> s.consumers[c] == Entrants(ps)[c]
  {
    hide Wants, Terminal;
  }

  /** What that schedule comes to: everything is drained, and nobody else has seen the message. */
  lemma OtherPartyTakes(ps: seq<Party>, m: ServerMessage, j: nat)
    requires j < |ps| && !m.Heartbeat?
    ensures Exec([m], TakenByOther(ps, m, j)).Some?
    ensures var s := Exec([m], TakenByOther(ps, m, j)).value;
            && s.arrived == 1 && s.lock.None? && Drained(s, ps)
            && s.discarded == (if Settle(ps[j], m, j).Deliver? then [] else [Loss(Item(0, m), j)])
            && forall c :: 0 <= c < |ps| && c != j ==> s.consumers[c] == Entrants(ps)[c]
  {
    hide Exec, Settle, InHandOf, Enabled, Step, Drained, Entrants;
    OtherPartyFetches(ps, m, j);
    SettleStep([m], ps, m, j);
    ExecSnoc([m], Enter(0, ps) + [Receive] + Fetch(j), Settle(ps[j], m, j));
  }

  /** A party that is different from an open one can take a message of the latter, and no schedule
      delivers it later. */
  lemma OtherPartyTakesIt(ps: seq<Party>, i: nat, j: nat, more: seq<Action>)
    requires i < |ps| && j < |ps| && ps[i].Open? && ps[j] != ps[i]
    ensures var m := SampleFor(ps[i].want);
            var run := TakenByOther(ps, m, j);
            && Exec([m], run).Some? && Exec([m], run).value.arrived == 1 && Drained(Exec([m], run).value, ps)
            && WantedByOpen(ps, m)
            && (Exec([m], run + more).Some? ==> !Delivered(Exec([m], run + more).value, Item(0, m)))
  {
    hide Exec, Wants, SampleFor;
    var m := SampleFor(ps[i].want);
    SampleIsWanted(ps[i].want);
    OtherPartyTakes(ps, m, j);
    var input, item, run := [m], Item(0, m), TakenByOther(ps, m, j);
    OnlyLoss(Exec(input, run).value, item, j);
    if Exec(input, run + more).Some? {
      var s := Exec(input, run + more).value;
      forall c | 0 <= c < |s.consumers| ensures item !in s.consumers[c].out {
        DiscardedIsNeverDelivered(input, run, more, item, c);
      }
    }
  }

  lemma OnlyLoss(s: State, item: Item, taker: nat)
    requires s.discarded == [Loss(item, taker)]
    ensures Lost(s.discarded, item) == 1
  {
    assert s.discarded[..0] == [];
  }

  // ------------------------------------------------------------------ subscriptions dropped at once

  /** Once its receiver is dropped, a subscription delivers nothing more in any continuation. */
  lemma {:induction false} DroppedDeliversNoMore(input: seq<ServerMessage>, run: seq<Action>, c: nat, more: seq<Action>)
    requires Exec(input, run).Some? && Exec(input, run + more).Some?
    requires c < |Exec(input, run).value.consumers| && !Exec(input, run).value.consumers[c].open
    ensures var x, xs := Exec(input, run).value.consumers[c], Exec(input, run + more).value.consumers;
            c < |xs| && xs[c].out == x.out && !xs[c].open && xs[c].want == x.want
  {
    hide Exec, Wants, Own, Terminal;
    if more == [] {
      assert run + more == run;
    } else {
      var n := |more| - 1;
      assert run + more == run + more[..n] + [more[n]];
      ExecSnoc(input, run + more[..n], more[n]);
      DroppedDeliversNoMore(input, run, c, more[..n]);
    }
  }

  /** Subscriptions whose receivers are dropped as soon as they are made. */
  function AllDropped(kinds: seq<StreamKind>): seq<Party> {
    seq(|kinds|, i requires 0 <= i < |kinds| => Dropped(kinds[i]))
  }

  function DroppedAtOnce(first: nat, kinds: seq<StreamKind>): seq<Action> {
    Enter(first, AllDropped(kinds))
  }

  lemma NoneDropped(first: nat)
    ensures DroppedAtOnce(first, []) == []
  {
  }

  lemma DroppedSnoc(first: nat, kinds: seq<StreamKind>, k: StreamKind)
    ensures DroppedAtOnce(first, kinds + [k]) ==
            DroppedAtOnce(first, kinds) + [Subscribe(Pushed(k))] + [AppClose(first + |kinds|)]
  {
    assert AllDropped(kinds + [k])[..|kinds|] == AllDropped(kinds);
  }

  /** Such subscriptions deliver nothing in any run. */
  lemma DroppedAtOnceDeliversNothing(input: seq<ServerMessage>, run: seq<Action>, kinds: seq<StreamKind>,
                                     more: seq<Action>, i: nat)
    requires Exec(input, run).Some? && i < |kinds|
    requires Exec(input, run + DroppedAtOnce(|Exec(input, run).value.consumers|, kinds) + more).Some?
    ensures var first := |Exec(input, run).value.consumers|;
            var xs := Exec(input, run + DroppedAtOnce(first, kinds) + more).value.consumers;
            first + i < |xs| && xs[first + i].want == Pushed(kinds[i]) && xs[first + i].out == []
  {
    hide Exec;
    var first := |Exec(input, run).value.consumers|;
    AllEntered(input, run, AllDropped(kinds));
    var s := Exec(input, run + DroppedAtOnce(first, kinds)).value;
    assert s.consumers[first + i] == Entrants(AllDropped(kinds))[i];
    DroppedDeliversNoMore(input, run + DroppedAtOnce(first, kinds), first + i, more);
  }

  /** Yet they still take: next to an open subscription of the same kind they are a loss. */
  lemma DroppedStillSwallows(ps: seq<Party>, k: StreamKind)
    requires Dropped(k) in ps
    ensures NoLoss(ps) <==> NoneOpen(ps)
  {
    var j :| 0 <= j < |ps| && ps[j] == Dropped(k);
    SharingIsLosslessIff(ps);
  }
}

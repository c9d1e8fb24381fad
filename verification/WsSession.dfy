/** A WebSocket submission on the shared queue: its outcome as a function of what its consumer was
    given, and what a stolen confirmation leads to. */
module WsSession {
  import opened Prelude
  import opened Types
  import opened WsSubmit
  import opened WsDemux
  import opened WsSharing
  import opened ClientSubmit

  /** The messages that consumer `c` took off the queue, in order: what its loop receives. */
  function TakenBy(input: seq<ServerMessage>, run: seq<Action>, c: nat): seq<ServerMessage> {
    if run == [] then []
    else
      var before, a := run[..|run| - 1], run[|run| - 1];
      var s := Exec(input, before);
      TakenBy(input, before, c) +
      if a == Take(c) && s.Some? && s.value.queue != [] then [s.value.queue[0].message] else []
  }

  function OwnOnly(rid: Name, ms: seq<ServerMessage>): seq<ServerMessage> {
    Filter((m: ServerMessage) => Own(rid, m), ms)
  }

  function MessagesOf(items: seq<Item>): (ms: seq<ServerMessage>)
    ensures |ms| == |items|
  {
    seq(|items|, i requires 0 <= i < |items| => items[i].message)
  }

  /** What a submission's consumer still has in its hand, if it is its own. */
  function InHand(rid: Name, x: Consumer): seq<ServerMessage> {
    if x.inflight.Some? && Own(rid, x.inflight.value.message) then [x.inflight.value.message] else []
  }

  lemma TakenBySnoc(input: seq<ServerMessage>, before: seq<Action>, a: Action, c: nat)
    ensures TakenBy(input, before + [a], c) ==
            TakenBy(input, before, c) +
            if a == Take(c) && Exec(input, before).Some? && Exec(input, before).value.queue != []
            then [Exec(input, before).value.queue[0].message] else []
  {
    hide Exec;
    assert (before + [a])[..|before|] == before;
  }

  lemma {:induction false} NothingTakenBefore(input: seq<ServerMessage>, run: seq<Action>, c: nat)
    requires Exec(input, run).Some? && c >= |Exec(input, run).value.consumers|
    ensures TakenBy(input, run, c) == []
  {
    hide Exec, Wants, Own, Terminal;
    if run != [] {
      var before, a := run[..|run| - 1], run[|run| - 1];
      assert run == before + [a];
      ExecSnoc(input, before, a);
      TakenBySnoc(input, before, a, c);
      NothingTakenBefore(input, before, c);
    }
  }

  /** A submission is given exactly its own messages among those its consumer takes. */
  lemma {:induction false} OwnTakenIsDelivered(input: seq<ServerMessage>, run: seq<Action>, c: nat, rid: Name)
    requires Exec(input, run).Some? && c < |Exec(input, run).value.consumers|
    requires Exec(input, run).value.consumers[c].want == Submission(rid)
    ensures var x := Exec(input, run).value.consumers[c];
            x.open && OwnOnly(rid, TakenBy(input, run, c)) == MessagesOf(x.out) + InHand(rid, x)
  {
    hide Exec, Own, Terminal, Filter, WsDemux.Step, Enabled;
    var own := (m: ServerMessage) => Own(rid, m);
    if run == [] {
      ExecNil(input);
      assert false;
    } else {
      var before, a := run[..|run| - 1], run[|run| - 1];
      assert run == before + [a];
      ExecSnoc(input, before, a);
      TakenBySnoc(input, before, a, c);
      var s := Exec(input, before).value;
      FilterNil(own);
      if c >= |s.consumers| {
        NothingTakenBefore(input, before, c);
        EntersEmpty(input, s, a, c);
      } else {
        WantStays(input, s, a, c);
        OwnTakenIsDelivered(input, before, c, rid);
        var t := TakenBy(input, before, c);
        assert t + [] == t;
        if a == Take(c) {
          TakeMoves(input, s, c);
          FilterSnoc(own, t, s.queue[0].message);
        } else {
          HandMoves(input, s, a, c, rid);
        }
      }
    }
  }

  lemma EntersEmpty(input: seq<ServerMessage>, s: WsDemux.State, a: Action, c: nat)
    requires Enabled(input, s, a) && |s.consumers| <= c < |WsDemux.Step(input, s, a).consumers|
    ensures !a.Take? && WsDemux.Step(input, s, a).consumers[c] == Fresh(WsDemux.Step(input, s, a).consumers[c].want)
  {
    hide Wants, Terminal;
  }

  lemma WantStays(input: seq<ServerMessage>, s: WsDemux.State, a: Action, c: nat)
    requires Enabled(input, s, a) && c < |s.consumers|
    ensures c < |WsDemux.Step(input, s, a).consumers|
    ensures WsDemux.Step(input, s, a).consumers[c].want == s.consumers[c].want
  {
    hide Wants, Terminal;
  }

  lemma TakeMoves(input: seq<ServerMessage>, s: WsDemux.State, c: nat)
    requires Enabled(input, s, Take(c))
    ensures s.queue != [] && s.consumers[c].inflight.None?
    ensures WsDemux.Step(input, s, Take(c)).consumers[c] == s.consumers[c].(inflight := Some(s.queue[0]))
  {
  }

  /** Only a take changes what a submission has been given or holds of its own. */
  lemma HandMoves(input: seq<ServerMessage>, s: WsDemux.State, a: Action, c: nat, rid: Name)
    requires Enabled(input, s, a) && c < |s.consumers| && s.consumers[c].want == Submission(rid)
    requires a != Take(c) && s.consumers[c].open
    ensures var x, x' := s.consumers[c], WsDemux.Step(input, s, a).consumers[c];
            x'.open && x'.want == x.want && MessagesOf(x'.out) + InHand(rid, x') == MessagesOf(x.out) + InHand(rid, x)
  {
    hide Own, Terminal;
    var x, x' := s.consumers[c], WsDemux.Step(input, s, a).consumers[c];
    if a == Deliver(c) {
      assert MessagesOf(x'.out) == MessagesOf(x.out) + [x.inflight.value.message];
      assert MessagesOf(x'.out) + [] == MessagesOf(x'.out);
    }
  }

  // ------------------------------------------------------------------ the outcome

  /** The rounds of a submission loop that received `ms`, each before the deadline. */
  predicate InTime(deadline: nat, events: seq<Event>, ms: seq<ServerMessage>) {
    |events| == |ms| && forall i :: 0 <= i < |ms| ==> events[i].now < deadline && events[i].recv == Message(ms[i])
  }

  /** The same messages received without any wait. */
  function Prompt(ms: seq<ServerMessage>): seq<Event> {
    seq(|ms|, i requires 0 <= i < |ms| => Event(0, Message(ms[i])))
  }

  lemma {:induction false} OutcomeOfOwn(rid: Name, deadline: nat, timeoutMs: nat, events: seq<Event>,
                                        ms: seq<ServerMessage>)
    requires InTime(deadline, events, ms)
    ensures var own := Prompt(OwnOnly(rid, ms));
            && Outcome(rid, deadline, timeoutMs, events) == Outcome(rid, 1, timeoutMs, own)
            && (Outcome(rid, deadline, timeoutMs, events).None? ==> Fold(rid, events) == Fold(rid, own))
  {
    hide Outcome, Fold, Own, Absorb, Finish, Filter;
    var p := (m: ServerMessage) => Own(rid, m);
    if ms == [] {
      FilterNil(p);
      Undecided(rid, deadline, timeoutMs);
      Undecided(rid, 1, timeoutMs);
      assert events == [] && Prompt(OwnOnly(rid, [])) == [];
    } else {
      var n := |ms| - 1;
      var before, last, m := events[..n], events[n], ms[n];
      OutcomeOfOwn(rid, deadline, timeoutMs, before, ms[..n]);
      var own := OwnOnly(rid, ms[..n]);
      FilterSnoc(p, ms[..n], m);
      assert ms == ms[..n] + [m] && events == before + [last];
      OutcomeSnoc(rid, deadline, timeoutMs, before, last);
      FoldSnoc(rid, before, last);
      if Own(rid, m) {
        assert Prompt(own + [m]) == Prompt(own) + [Event(0, Message(m))];
        OutcomeSnoc(rid, 1, timeoutMs, Prompt(own), Event(0, Message(m)));
        FoldSnoc(rid, Prompt(own), Event(0, Message(m)));
      } else {
        ForeignIsIgnored(rid, Fold(rid, before), m);
      }
    }
  }

  /** A submission's outcome is a function of what its consumer was given: whatever the schedule, the
      other consumers and the arrival times before the deadline, it is that of the delivered
      messages received at once, and it is still open iff none of them is terminal. */
  lemma OutcomeIsThatOfOut(input: seq<ServerMessage>, run: seq<Action>, c: nat, rid: Name, deadline: nat,
                           timeoutMs: nat, events: seq<Event>)
    requires Exec(input, run).Some? && c < |Exec(input, run).value.consumers|
    requires Exec(input, run).value.consumers[c].want == Submission(rid)
    requires Exec(input, run).value.consumers[c].inflight.None?
    requires InTime(deadline, events, TakenBy(input, run, c))
    ensures var out := Exec(input, run).value.consumers[c].out;
            && Outcome(rid, deadline, timeoutMs, events) == Outcome(rid, 1, timeoutMs, Prompt(MessagesOf(out)))
            && (Outcome(rid, deadline, timeoutMs, events).None? <==>
                forall i :: 0 <= i < |out| ==> !Terminal(rid, out[i].message))
  {
    hide Exec, Outcome, Terminal;
    OwnTakenIsDelivered(input, run, c, rid);
    OutcomeOfOwn(rid, deadline, timeoutMs, events, TakenBy(input, run, c));
    var out := Exec(input, run).value.consumers[c].out;
    assert MessagesOf(out) + [] == MessagesOf(out);
    var prompt := Prompt(MessagesOf(out));
    OkMeansCompleted(rid, 1, timeoutMs, prompt, 0);
    forall i | 0 <= i < |out| ensures Decisive(rid, 1, prompt[i]) == Terminal(rid, out[i].message) {
    }
  }

  /** If it is still open at the deadline, the submission times out. */
  lemma OpenAtDeadlineTimesOut(rid: Name, deadline: nat, timeoutMs: nat, events: seq<Event>, now: nat)
    requires Outcome(rid, deadline, timeoutMs, events).None?
    ensures Outcome(rid, deadline, timeoutMs, events + [Event(now, TimedOut)]) == Some(Err(Timeout(timeoutMs)))
  {
    OutcomeSnoc(rid, deadline, timeoutMs, events, Event(now, TimedOut));
  }

  // ------------------------------------------------------------------ the stolen confirmation

  /** Calls that ended in an error leave the same bytes free to be sent again. */
  lemma FailedCallsDoNotBlock(calls: seq<Attempt>, j: nat)
    requires Serialized(calls) && j < |calls|
    requires forall i :: 0 <= i < j && calls[i].tx == calls[j].tx ==> calls[i].answer.Err?
    ensures !At(calls, j).blocked
  {
    BlockedIff(calls, j);
  }

  /** An idle subscription of any kind can take the message that ends a submission. The transaction is
      confirmed (or rejected) and the client has received the news, but the submission runs into its
      deadline, no later schedule delivers the message, and the client lets the same bytes be sent again. */
  lemma StolenConfirmation(k: StreamKind, rid: Name, m: ServerMessage, deadline: nat, timeoutMs: nat,
                           more: seq<Action>, calls: seq<Attempt>, j: nat)
    requires Terminal(rid, m)
    requires Serialized(calls) && j < |calls|
    requires forall i :: 0 <= i < j && calls[i].tx == calls[j].tx ==>
                           Some(calls[i].answer) == Outcome(rid, deadline, timeoutMs, [Event(deadline, TimedOut)])
    ensures var run := TakenByOther([Open(Pushed(k)), Open(Submission(rid))], m, 0) + [GiveUp(1)];
            && Exec([m], run).Some? && Exec([m], run).value.arrived == 1
            && TakenBy([m], run, 1) == [] && Exec([m], run).value.consumers[1].out == []
            && (Exec([m], run + more).Some? && |Exec([m], run + more).value.consumers| > 1 ==>
                  Item(0, m) !in Exec([m], run + more).value.consumers[1].out)
    ensures Outcome(rid, deadline, timeoutMs, [Event(deadline, TimedOut)]) == Some(Err(Timeout(timeoutMs)))
    ensures !At(calls, j).blocked
  {
    hide Exec, Outcome, At, Terminal, TakenBy, Filter, TakenByOther;
    TerminalIsOwn(rid, m);
    var ps := [Open(Pushed(k)), Open(Submission(rid))];
    var taken := TakenByOther(ps, m, 0);
    OtherPartyTakes(ps, m, 0);
    ExecSnoc([m], taken, GiveUp(1));
    var run := taken + [GiveUp(1)];
    NeverTakes(ps, m, 0, 1);
    TakenBySnoc([m], taken, GiveUp(1), 1);
    OnlyLoss(Exec([m], run).value, Item(0, m), 0);
    if Exec([m], run + more).Some? && |Exec([m], run + more).value.consumers| > 1 {
      DiscardedIsNeverDelivered([m], run, more, Item(0, m), 1);
    }
    Undecided(rid, deadline, timeoutMs);
    OpenAtDeadlineTimesOut(rid, deadline, timeoutMs, [], deadline);
    assert [] + [Event(deadline, TimedOut)] == [Event(deadline, TimedOut)];
    FailedCallsDoNotBlock(calls, j);
  }

  lemma TerminalIsOwn(rid: Name, m: ServerMessage)
    requires Terminal(rid, m)
    ensures !m.Heartbeat? && forall k :: !Wants(Pushed(k), m)
  {
  }

  lemma NeverTakes(ps: seq<Party>, m: ServerMessage, j: nat, c: nat)
    requires j < |ps| && c != j
    ensures TakenBy([m], TakenByOther(ps, m, j), c) == []
  {
    hide Exec, TakenBy, Settle;
    var input := [m];
    EnteringTakesNothing(ps, input, c);
    var r1 := Enter(0, ps) + [Receive];
    TakenBySnoc(input, Enter(0, ps), Receive, c);
    TakenBySnoc(input, r1, Await(j), c);
    TakenBySnoc(input, r1 + [Await(j)], Lock(j), c);
    TakenBySnoc(input, r1 + [Await(j)] + [Lock(j)], Take(j), c);
    assert r1 + Fetch(j) == r1 + [Await(j)] + [Lock(j)] + [Take(j)];
    SettlingIsNoTake(ps[j], m, j, c);
    TakenBySnoc(input, r1 + Fetch(j), Settle(ps[j], m, j), c);
  }

  lemma SettlingIsNoTake(p: Party, m: ServerMessage, j: nat, c: nat)
    ensures Settle(p, m, j) != Take(c)
  {
  }

  lemma {:induction false} EnteringTakesNothing(ps: seq<Party>, input: seq<ServerMessage>, c: nat)
    ensures TakenBy(input, Enter(0, ps), c) == []
  {
    hide Exec;
    if ps != [] {
      var n := |ps| - 1;
      EnteringTakesNothing(ps[..n], input, c);
      var before, subscribe := Enter(0, ps[..n]), Subscribe(WantOf(ps[n]));
      TakenBySnoc(input, before, subscribe, c);
      TakenBySnoc(input, before + [subscribe], AppClose(n), c);
      if ps[n].Open? {
        assert Enter(0, ps) == before + [subscribe];
      } else {
        assert Enter(0, ps) == before + [subscribe] + [AppClose(n)];
      }
    }
  }
}

/** What a run of the WebSocket demultiplexer says about each consumer: its state is an account of the
    actions so far, and once its loop has ended it takes no further part (src/connection/websocket.rs). */
module WsHistory {
  import opened Prelude
  import opened Types
  import opened WsSubmit
  import opened WsDemux
  import opened WsDeadline

  /** How often an action occurs in a run. */
  function Times(run: seq<Action>, a: Action): nat {
    multiset(run)[a]
  }

  lemma TimesSnoc(run: seq<Action>, last: Action, a: Action)
    ensures Times(run + [last], a) == Times(run, a) + if last == a then 1 else 0
  {
  }

  /** The consumers of a run in the order in which they subscribed. */
  function Joined(run: seq<Action>): seq<Want> {
    if run == [] then []
    else Joined(run[..|run| - 1]) + if run[|run| - 1].Subscribe? then [run[|run| - 1].want] else []
  }

  lemma JoinedSnoc(run: seq<Action>, last: Action)
    ensures Joined(run + [last]) == Joined(run) + if last.Subscribe? then [last.want] else []
  {
    assert (run + [last])[..|run|] == run;
  }

  /** A submission has been given a message that ends it. */
  predicate Completed(x: Consumer) {
    x.want.Submission? && exists i :: 0 <= i < |x.out| && EndsIt(x.want.rid, x.out[i].message)
  }

  /** The loop runs until it finds its receiver dropped, gives up, or is given the message that ends it. */
  predicate LoopAccount(run: seq<Action>, s: State, c: nat)
    requires c < |s.consumers|
  {
    var x := s.consumers[c];
    && (x.running <==> Times(run, Refuse(c)) == 0 && Times(run, GiveUp(c)) == 0 && !Completed(x))
    && (!x.running ==> x.inflight.None? && !x.waiting && s.lock != Some(c))
  }

  /** Every item taken is delivered, dropped or in the hand; every lock was waited for, and is held, has
      led to a take, or was given up; and the application sees to the rest. */
  predicate ItemAccount(run: seq<Action>, s: State, c: nat)
    requires c < |s.consumers|
  {
    var x := s.consumers[c];
    && |x.out| == Times(run, Deliver(c)) && x.read == Times(run, AppRead(c))
    && (x.open <==> Times(run, AppClose(c)) == 0)
    && Times(run, Take(c)) ==
       Times(run, Deliver(c)) + Times(run, Discard(c)) + Times(run, Refuse(c)) + (if x.inflight.Some? then 1 else 0)
    && Times(run, Await(c)) == Times(run, Lock(c)) + (if x.waiting then 1 else 0)
    && Times(run, Take(c)) + (if s.lock == Some(c) then 1 else 0) <= Times(run, Lock(c))
    && Times(run, Lock(c)) <= Times(run, Take(c)) + (if s.lock == Some(c) then 1 else 0) + Times(run, GiveUp(c))
  }

  predicate AboutConsumer(a: Action) {
    !a.Receive? && !a.Subscribe?
  }

  /** Nothing is said in the run about a consumer that has not subscribed. */
  lemma {:induction false} UnbornIsUnmentioned(input: seq<ServerMessage>, run: seq<Action>, a: Action)
    requires Exec(input, run).Some? && AboutConsumer(a) && a.c >= |Exec(input, run).value.consumers|
    ensures Times(run, a) == 0 && Exec(input, run).value.lock != Some(a.c)
  {
    hide Exec, Wants, Terminal, Times;
    if run == [] {
      ExecNil(input);
      assert Times([], a) == 0 by { NoTimes(a); }
    } else {
      var n := |run| - 1;
      assert run == run[..n] + [run[n]];
      ExecSnoc(input, run[..n], run[n]);
      UnbornIsUnmentioned(input, run[..n], a);
      TimesSnoc(run[..n], run[n], a);
    }
  }

  lemma NoTimes(a: Action)
    ensures Times([], a) == 0
  {
  }

  lemma EntersWithCleanAccount(input: seq<ServerMessage>, run: seq<Action>, w: Want)
    requires Exec(input, run).Some?
    ensures var s := Exec(input, run).value;
            var s', c := Step(input, s, Subscribe(w)), |s.consumers|;
            LoopAccount(run + [Subscribe(w)], s', c) && ItemAccount(run + [Subscribe(w)], s', c)
  {
    hide Exec, Times;
    var c := |Exec(input, run).value.consumers|;
    forall a | AboutConsumer(a) && a.c == c ensures Times(run + [Subscribe(w)], a) == 0 {
      UnbornIsUnmentioned(input, run, a);
      TimesSnoc(run, Subscribe(w), a);
    }
    UnbornIsUnmentioned(input, run, Take(c));
  }

  lemma StepKeepsItemAccount(input: seq<ServerMessage>, run: seq<Action>, s: State, a: Action, c: nat)
    requires c < |s.consumers| && ItemAccount(run, s, c) && Enabled(input, s, a)
    ensures ItemAccount(run + [a], Step(input, s, a), c)
  {
    hide Times, Wants, Terminal;
    TimesSnoc(run, a, Deliver(c));
    TimesSnoc(run, a, AppRead(c));
    TimesSnoc(run, a, AppClose(c));
    TimesSnoc(run, a, Take(c));
    TimesSnoc(run, a, Discard(c));
    TimesSnoc(run, a, Refuse(c));
    TimesSnoc(run, a, Await(c));
    TimesSnoc(run, a, Lock(c));
    TimesSnoc(run, a, GiveUp(c));
  }

  lemma TerminalEndsIt(rid: Name, m: ServerMessage)
    ensures Terminal(rid, m) <==> EndsIt(rid, m)
  {
  }

  /** An output grows by at most one item, and what was delivered stays. */
  lemma CompletedGrows(x: Consumer, x': Consumer, item: Item)
    requires x'.want == x.want && x'.out == x.out + [item]
    ensures Completed(x') <==> Completed(x) || (x.want.Submission? && EndsIt(x.want.rid, item.message))
  {
    hide EndsIt;
    if Completed(x) {
      var i :| 0 <= i < |x.out| && EndsIt(x.want.rid, x.out[i].message);
      assert EndsIt(x'.want.rid, x'.out[i].message);
    }
    if x.want.Submission? && EndsIt(x.want.rid, item.message) { assert x'.out[|x.out|] == item; }
  }

  lemma StepKeepsLoopAccount(input: seq<ServerMessage>, run: seq<Action>, s: State, a: Action, c: nat)
    requires c < |s.consumers| && LoopAccount(run, s, c) && Enabled(input, s, a) && WellLocked(s)
    ensures LoopAccount(run + [a], Step(input, s, a), c)
  {
    hide Times, Wants, Terminal, EndsIt, Completed;
    TimesSnoc(run, a, Refuse(c));
    TimesSnoc(run, a, GiveUp(c));
    var x, x' := s.consumers[c], Step(input, s, a).consumers[c];
    if a == Deliver(c) {
      CompletedGrows(x, x', x.inflight.value);
      if x.want.Submission? { TerminalEndsIt(x.want.rid, x.inflight.value.message); }
    } else {
      assert x'.out == x.out && x'.want == x.want;
      assert Completed(x') == Completed(x) by { SameOutput(x, x'); }
    }
  }

  lemma SameOutput(x: Consumer, x': Consumer)
    requires x'.out == x.out && x'.want == x.want
    ensures Completed(x') == Completed(x)
  {
  }

  /** In every run the consumers are those that subscribed, each as the account of the actions says. */
  lemma {:induction false} RunsKeepAccounts(input: seq<ServerMessage>, run: seq<Action>)
    requires Exec(input, run).Some?
    ensures var s := Exec(input, run).value;
            && s.arrived == Times(run, Receive) && |s.consumers| == |Joined(run)|
            && forall c :: 0 <= c < |s.consumers| ==>
                 s.consumers[c].want == Joined(run)[c] && LoopAccount(run, s, c) && ItemAccount(run, s, c)
  {
    hide Exec, Times, LoopAccount, ItemAccount, Wants, Terminal, WellLocked;
    if run == [] {
      ExecNil(input);
      NoTimes(Receive);
    } else {
      var n := |run| - 1;
      var before, a := run[..n], run[n];
      assert run == before + [a];
      ExecSnoc(input, before, a);
      RunsKeepAccounts(input, before);
      TimesSnoc(before, a, Receive);
      JoinedSnoc(before, a);
      RunsAreWellLocked(input, before);
      var s := Exec(input, before).value;
      if a.Subscribe? { EntersWithCleanAccount(input, before, a.want); }
      forall c | 0 <= c < |s.consumers|
        ensures LoopAccount(run, Step(input, s, a), c) && ItemAccount(run, Step(input, s, a), c)
      {
        StepKeepsLoopAccount(input, before, s, a, c);
        StepKeepsItemAccount(input, before, s, a, c);
      }
    }
  }

  // ------------------------------------------------------------------ the end of a loop

  lemma {:induction false} PrefixesRun(input: seq<ServerMessage>, run: seq<Action>, n: nat)
    requires Exec(input, run).Some? && n <= |run|
    ensures Exec(input, run[..n]).Some?
    decreases |run|
  {
    hide Enabled, Step;
    if n < |run| {
      assert run[..|run| - 1][..n] == run[..n];
      PrefixesRun(input, run[..|run| - 1], n);
    } else {
      assert run[..n] == run;
    }
  }

  /** What a consumer's own loop does. */
  predicate OfLoop(a: Action, c: nat) {
    a in {Await(c), Lock(c), Take(c), Deliver(c), Discard(c), Refuse(c), GiveUp(c)}
  }

  /** The action ends the loop of consumer `c`: its receiver is gone, its deadline has passed, or it is
      given the message that ends the submission. */
  predicate EndsLoop(input: seq<ServerMessage>, before: seq<Action>, a: Action, c: nat) {
    || a == Refuse(c)
    || a == GiveUp(c)
    || (a == Deliver(c) && Exec(input, before).Some? && Holding(Exec(input, before).value, c)
        && var x := Exec(input, before).value.consumers[c];
           x.want.Submission? && EndsIt(x.want.rid, x.inflight.value.message))
  }

  /** A loop that has ended does nothing more: in no continuation does it wait, lock, take, deliver, drop or
      give up again. */
  lemma NothingAfterTheEnd(input: seq<ServerMessage>, run: seq<Action>, c: nat, i: nat, j: nat)
    requires Exec(input, run).Some? && i < j < |run| && EndsLoop(input, run[..i], run[i], c)
    ensures !OfLoop(run[j], c)
  {
    hide Exec, Times, Wants, Terminal, EndsIt;
    PrefixesRun(input, run, i + 1);
    PrefixesRun(input, run, j);
    PrefixesRun(input, run, j + 1);
    assert run[..i + 1] == run[..i] + [run[i]] && run[..j + 1] == run[..j] + [run[j]];
    ExecSnoc(input, run[..i], run[i]);
    ExecSnoc(input, run[..j], run[j]);
    EndedAt(input, run[..i], run[i], c);
    assert run[..j] == run[..i + 1] + run[i + 1..j];
    StaysEnded(input, run[..i + 1], run[i + 1..j], c);
  }

  lemma EndedAt(input: seq<ServerMessage>, before: seq<Action>, a: Action, c: nat)
    requires Exec(input, before + [a]).Some? && EndsLoop(input, before, a, c)
    ensures var s := Exec(input, before + [a]).value;
            c < |s.consumers| && !s.consumers[c].running
  {
    hide Exec, Wants, EndsIt, Times;
    ExecSnoc(input, before, a);
    RunsKeepAccounts(input, before + [a]);
    var s, s' := Exec(input, before).value, Exec(input, before + [a]).value;
    TimesSnoc(before, a, a);
    if a == Deliver(c) {
      CompletedGrows(s.consumers[c], s'.consumers[c], s.consumers[c].inflight.value);
    }
    assert LoopAccount(before + [a], s', c);
  }

  lemma {:induction false} StaysEnded(input: seq<ServerMessage>, run: seq<Action>, more: seq<Action>, c: nat)
    requires Exec(input, run).Some? && Exec(input, run + more).Some?
    requires c < |Exec(input, run).value.consumers| && !Exec(input, run).value.consumers[c].running
    ensures var s := Exec(input, run + more).value;
            && c < |s.consumers| && !s.consumers[c].running
            && s.consumers[c].inflight.None? && !s.consumers[c].waiting && s.lock != Some(c)
  {
    hide Exec, Wants, Terminal, Times, Completed;
    RunsKeepAccounts(input, run + more);
    if more == [] {
      assert run + more == run;
      assert LoopAccount(run, Exec(input, run).value, c);
    } else {
      var n := |more| - 1;
      assert run + more == run + more[..n] + [more[n]];
      ExecSnoc(input, run + more[..n], more[n]);
      StaysEnded(input, run, more[..n], c);
      assert LoopAccount(run + more, Exec(input, run + more).value, c);
    }
  }

  // ------------------------------------------------------------------ what a dropped receiver costs

  predicate WantedLoss(s: State, i: nat, c: nat) {
    && i < |s.discarded| && c < |s.consumers| && s.discarded[i].taker == c
    && Wants(s.consumers[c].want, s.discarded[i].item.message)
  }

  /** A consumer has dropped a message that it wants at most once, and only at its end. */
  ghost predicate OneWantedLoss(s: State, c: nat) {
    && (forall i :: WantedLoss(s, i, c) ==> !s.consumers[c].running && !s.consumers[c].open)
    && forall i, j :: WantedLoss(s, i, c) && WantedLoss(s, j, c) ==> i == j
  }

  lemma StepKeepsOneLoss(input: seq<ServerMessage>, run: seq<Action>, s: State, a: Action, c: nat)
    requires Exec(input, run) == Some(s) && Enabled(input, s, a) && OneWantedLoss(s, c)
    requires c < |s.consumers| ==> LoopAccount(run, s, c)
    requires forall i :: 0 <= i < |s.discarded| ==> s.discarded[i].taker < |s.consumers|
    ensures OneWantedLoss(Step(input, s, a), c)
  {
    hide Exec, Wants, Terminal, Times, Completed;
    var s' := Step(input, s, a);
    forall i: nat | WantedLoss(s', i, c) && i < |s.discarded| ensures WantedLoss(s, i, c) { }
  }

  lemma {:induction false} AtMostOneWantedLoss(input: seq<ServerMessage>, run: seq<Action>, c: nat)
    requires Exec(input, run).Some?
    ensures OneWantedLoss(Exec(input, run).value, c)
  {
    hide Exec, Wants, Terminal, Times, Completed, Enabled, Step, InOrder;
    if run == [] {
      ExecNil(input);
    } else {
      var n := |run| - 1;
      assert run == run[..n] + [run[n]];
      ExecSnoc(input, run[..n], run[n]);
      AtMostOneWantedLoss(input, run[..n], c);
      RunsKeepAccounts(input, run[..n]);
      RunsKeepOrder(input, run[..n]);
      TakersExist(Exec(input, run[..n]).value);
      StepKeepsOneLoss(input, run[..n], Exec(input, run[..n]).value, run[n], c);
    }
  }

  lemma TakersExist(s: State)
    requires InOrder(s)
    ensures forall i :: 0 <= i < |s.discarded| ==> s.discarded[i].taker < |s.consumers|
  {
    forall i | 0 <= i < |s.discarded| ensures s.discarded[i].taker < |s.consumers| {
      assert LossExplained(s, s.discarded[i]);
    }
  }

  // ------------------------------------------------------------------ what a loop does with its item

  /** The item in the hand decides how the round can end: what is wanted is delivered while the receiver
      is there and, for a subscription, fewer than 32 are unread; without a receiver it ends the loop;
      and only what is not wanted is passed over. */
  lemma HandDecides(input: seq<ServerMessage>, run: seq<Action>, c: nat)
    requires Exec(input, run).Some? && Holding(Exec(input, run).value, c)
    ensures var x := Exec(input, run).value.consumers[c];
            var wanted := Wants(x.want, x.inflight.value.message);
            && (Exec(input, run + [Discard(c)]).Some? <==> !wanted)
            && (Exec(input, run + [Refuse(c)]).Some? <==> wanted && !x.open)
            && (Exec(input, run + [Deliver(c)]).Some? <==>
                  wanted && x.open && (x.want.Pushed? ==> |x.out| - x.read < 32))
            && Exec(input, run + [Take(c)]).None? && Exec(input, run + [Await(c)]).None?
  {
    hide Exec, Wants;
    ExecSnoc(input, run, Discard(c));
    ExecSnoc(input, run, Refuse(c));
    ExecSnoc(input, run, Deliver(c));
    ExecSnoc(input, run, Take(c));
    ExecSnoc(input, run, Await(c));
  }

  /** With empty hands a running loop waits for the lock, gets it when it is free, and takes when it holds
      it and something is queued; a message is received while fewer than 256 are queued, a heartbeat always. */
  lemma EmptyHandsDecide(input: seq<ServerMessage>, run: seq<Action>, c: nat)
    requires Exec(input, run).Some?
    ensures var s := Exec(input, run).value;
            && (Exec(input, run + [Receive]).Some? <==>
                  s.arrived < |input| && (input[s.arrived].Heartbeat? || |s.queue| < 256))
            && (c < |s.consumers| && s.consumers[c].running && s.consumers[c].inflight.None? ==>
                  && (Exec(input, run + [Await(c)]).Some? <==> !s.consumers[c].waiting && s.lock != Some(c))
                  && (Exec(input, run + [Lock(c)]).Some? <==> s.consumers[c].waiting && s.lock.None?)
                  && (Exec(input, run + [Take(c)]).Some? <==> s.lock == Some(c) && s.queue != [])
                  && (Exec(input, run + [GiveUp(c)]).Some? <==>
                        s.consumers[c].want.Submission? && !s.consumers[c].waiting))
  {
    hide Exec, Wants, WellLocked;
    ExecSnoc(input, run, Receive);
    ExecSnoc(input, run, Await(c));
    ExecSnoc(input, run, Lock(c));
    ExecSnoc(input, run, Take(c));
    ExecSnoc(input, run, GiveUp(c));
    RunsAreWellLocked(input, run);
    LockIsFreeOrHeld(Exec(input, run).value);
  }

  lemma LockIsFreeOrHeld(s: State)
    requires WellLocked(s)
    ensures s.lock.Some? ==> HoldsLock(s, s.lock.value) && !s.consumers[s.lock.value].waiting
  {
  }
}

/** When a WebSocket submission can end although nothing arrives: its deadline bounds the wait for a
    message, but not the wait for the lock of the queue (src/connection/websocket.rs,
    `submit_transaction`). What the clocks say about it is in `WsClock`. */
module WsDeadline {
  import opened Prelude
  import opened Types
  import opened WsSubmit
  import opened WsDemux
  import opened WsSharing

  // ------------------------------------------------------------------ what the lock guarantees

  predicate WellLocked(s: State) {
    && (s.lock.Some? ==> HoldsLock(s, s.lock.value) && !s.consumers[s.lock.value].waiting)
    && forall c :: 0 <= c < |s.consumers| ==>
         && (s.consumers[c].waiting ==> s.consumers[c].running && s.consumers[c].inflight.None?)
         && (s.consumers[c].want.Submission? ==> s.consumers[c].open)
  }

  lemma LockStep(input: seq<ServerMessage>, s: State, a: Action)
    requires WellLocked(s) && Enabled(input, s, a)
    ensures WellLocked(Step(input, s, a))
  {
    hide Wants, Terminal;
  }

  /** In every run at most one consumer holds the lock, and the holder is between two messages. */
  lemma {:induction false} RunsAreWellLocked(input: seq<ServerMessage>, run: seq<Action>)
    requires Exec(input, run).Some?
    ensures WellLocked(Exec(input, run).value)
  {
    hide Step, Enabled;
    if run != [] {
      RunsAreWellLocked(input, run[..|run| - 1]);
      LockStep(input, Exec(input, run[..|run| - 1]).value, run[|run| - 1]);
    }
  }

  // ------------------------------------------------------------------ ending without a message

  predicate NothingArrives(run: seq<Action>) {
    forall i :: 0 <= i < |run| ==> !run[i].Receive?
  }

  predicate Ended(s: Option<State>, c: nat) {
    s.Some? && c < |s.value.consumers| && !s.value.consumers[c].running
  }

  /** Some schedule ends the submission of consumer `c` although nothing more arrives. */
  ghost predicate CanEnd(input: seq<ServerMessage>, run: seq<Action>, c: nat) {
    exists more :: NothingArrives(more) && Ended(Exec(input, run + more), c)
  }

  predicate NoOtherGivesUp(run: seq<Action>, c: nat) {
    forall i :: 0 <= i < |run| ==> run[i].GiveUp? ==> run[i].c == c
  }

  /** It can do so by itself, without another submission giving up first at a deadline of its own. */
  ghost predicate CanEndAlone(input: seq<ServerMessage>, run: seq<Action>, c: nat) {
    exists more :: NothingArrives(more) && NoOtherGivesUp(more, c) && Ended(Exec(input, run + more), c)
  }

  /** The submission waits for the lock, which somebody holds who waits for a message. */
  predicate BehindHolder(s: State, c: nat) {
    && c < |s.consumers| && s.consumers[c].running && s.consumers[c].waiting && s.queue == []
    && s.lock.Some?
  }

  /** And that is a subscription, which has no deadline. */
  predicate BehindIdle(s: State, c: nat) {
    BehindHolder(s, c) && s.lock.value < |s.consumers| && s.consumers[s.lock.value].want.Pushed?
  }

  lemma HolderStep(input: seq<ServerMessage>, s: State, a: Action, c: nat)
    requires WellLocked(s) && BehindHolder(s, c) && Enabled(input, s, a) && !a.Receive?
    requires a.GiveUp? ==> a.c == c
    ensures BehindHolder(Step(input, s, a), c)
  {
    hide Wants, Terminal;
  }

  lemma {:induction false} HolderStays(input: seq<ServerMessage>, run: seq<Action>, more: seq<Action>, c: nat)
    requires Exec(input, run).Some? && BehindHolder(Exec(input, run).value, c)
    requires NothingArrives(more) && NoOtherGivesUp(more, c) && Exec(input, run + more).Some?
    ensures BehindHolder(Exec(input, run + more).value, c)
  {
    hide Exec, WellLocked, BehindHolder, Step, Enabled;
    if more == [] {
      assert run + more == run;
    } else {
      var n := |more| - 1;
      assert run + more == run + more[..n] + [more[n]];
      ExecSnoc(input, run + more[..n], more[n]);
      HolderStays(input, run, more[..n], c);
      RunsAreWellLocked(input, run + more[..n]);
      HolderStep(input, Exec(input, run + more[..n]).value, more[n], c);
    }
  }

  lemma IdleStep(input: seq<ServerMessage>, s: State, a: Action, c: nat)
    requires WellLocked(s) && BehindIdle(s, c) && Enabled(input, s, a) && !a.Receive?
    ensures BehindIdle(Step(input, s, a), c)
  {
    hide Wants, Terminal;
  }

  /** As long as nothing arrives, a submission behind an idle subscription waits, whoever else gives up. */
  lemma {:induction false} IdleStays(input: seq<ServerMessage>, run: seq<Action>, more: seq<Action>, c: nat)
    requires Exec(input, run).Some? && BehindIdle(Exec(input, run).value, c)
    requires NothingArrives(more) && Exec(input, run + more).Some?
    ensures BehindIdle(Exec(input, run + more).value, c)
  {
    hide Exec, WellLocked, BehindIdle, Step, Enabled;
    if more == [] {
      assert run + more == run;
    } else {
      var n := |more| - 1;
      assert run + more == run + more[..n] + [more[n]];
      ExecSnoc(input, run + more[..n], more[n]);
      IdleStays(input, run, more[..n], c);
      RunsAreWellLocked(input, run + more[..n]);
      IdleStep(input, Exec(input, run + more[..n]).value, more[n], c);
    }
  }

  /** What has to happen for the submission to end, from any state but that one. */
  function Ending(s: State, c: nat): seq<Action>
    requires c < |s.consumers|
  {
    var x := s.consumers[c];
    if x.inflight.Some? then
      if !Wanted(s, c) then [Discard(c)] + [GiveUp(c)]
      else if x.want.Submission? && Terminal(x.want.rid, x.inflight.value.message) then [Deliver(c)]
      else [Deliver(c)] + [GiveUp(c)]
    else if !x.waiting then [GiveUp(c)]
    else if s.lock.None? then [Lock(c)] + [GiveUp(c)]
    else if s.queue != [] then [Take(s.lock.value)] + [Lock(c)] + [GiveUp(c)]
    else [GiveUp(s.lock.value)] + [Lock(c)] + [GiveUp(c)]
  }

  lemma TwoMore(input: seq<ServerMessage>, run: seq<Action>, a: Action, b: Action)
    requires Exec(input, run).Some? && Enabled(input, Exec(input, run).value, a)
    requires Enabled(input, Step(input, Exec(input, run).value, a), b)
    ensures Exec(input, run + ([a] + [b])) == Some(Step(input, Step(input, Exec(input, run).value, a), b))
  {
    hide Exec, Enabled, Step;
    ExecSnoc(input, run, a);
    ExecSnoc(input, run + [a], b);
    assert run + ([a] + [b]) == run + [a] + [b];
  }

  lemma ThreeMore(input: seq<ServerMessage>, run: seq<Action>, a: Action, b: Action, d: Action)
    requires Exec(input, run).Some? && Enabled(input, Exec(input, run).value, a)
    requires Enabled(input, Step(input, Exec(input, run).value, a), b)
    requires Enabled(input, Step(input, Step(input, Exec(input, run).value, a), b), d)
    ensures Exec(input, run + ([a] + [b] + [d])) ==
            Some(Step(input, Step(input, Step(input, Exec(input, run).value, a), b), d))
  {
    hide Exec, Enabled, Step;
    TwoMore(input, run, a, b);
    ExecSnoc(input, run + ([a] + [b]), d);
    assert run + ([a] + [b] + [d]) == run + ([a] + [b]) + [d];
  }

  /** With an item in its hand the submission first settles that. */
  lemma HandEnds(input: seq<ServerMessage>, run: seq<Action>, c: nat)
    requires Exec(input, run).Some? && WellLocked(Exec(input, run).value)
    requires var s := Exec(input, run).value;
             && c < |s.consumers| && s.consumers[c].running && s.consumers[c].want.Submission?
             && s.consumers[c].inflight.Some?
    ensures Ended(Exec(input, run + Ending(Exec(input, run).value, c)), c)
  {
    hide Exec, Wants, Terminal;
    var s := Exec(input, run).value;
    if !Wanted(s, c) {
      TwoMore(input, run, Discard(c), GiveUp(c));
    } else {
      ExecSnoc(input, run, Deliver(c));
      if Step(input, s, Deliver(c)).consumers[c].running {
        TwoMore(input, run, Deliver(c), GiveUp(c));
      }
    }
  }

  /** Otherwise it may have to get the lock first. */
  lemma LoopEnds(input: seq<ServerMessage>, run: seq<Action>, c: nat)
    requires Exec(input, run).Some? && WellLocked(Exec(input, run).value)
    requires var s := Exec(input, run).value;
             && c < |s.consumers| && s.consumers[c].running && s.consumers[c].want.Submission?
             && s.consumers[c].inflight.None? && !BehindIdle(s, c)
    ensures Ended(Exec(input, run + Ending(Exec(input, run).value, c)), c)
  {
    hide Exec, Wants, Terminal;
    var s := Exec(input, run).value;
    if !s.consumers[c].waiting {
      ExecSnoc(input, run, GiveUp(c));
    } else if s.lock.None? {
      TwoMore(input, run, Lock(c), GiveUp(c));
    } else if s.queue != [] {
      ThreeMore(input, run, Take(s.lock.value), Lock(c), GiveUp(c));
    } else {
      ThreeMore(input, run, GiveUp(s.lock.value), Lock(c), GiveUp(c));
    }
  }

  lemma EndingIsQuiet(s: State, c: nat)
    requires c < |s.consumers|
    ensures NothingArrives(Ending(s, c))
    ensures !BehindHolder(s, c) && s.consumers[c].running ==> NoOtherGivesUp(Ending(s, c), c)
  {
    hide Wants, Terminal;
  }

  /** The exact condition for a submission to end by itself while nothing arrives: it does not wait
      for the lock of the empty queue behind another consumer, of whatever kind. */
  lemma EndsAloneIff(input: seq<ServerMessage>, run: seq<Action>, c: nat)
    requires Exec(input, run).Some?
    requires var s := Exec(input, run).value;
             c < |s.consumers| && s.consumers[c].running && s.consumers[c].want.Submission?
    ensures var s := Exec(input, run).value;
            CanEndAlone(input, run, c) <==> !(s.consumers[c].waiting && s.queue == [] && s.lock.Some?)
  {
    hide Exec, WellLocked, Ending;
    var s := Exec(input, run).value;
    if BehindHolder(s, c) && CanEndAlone(input, run, c) {
      var more :| NothingArrives(more) && NoOtherGivesUp(more, c) && Ended(Exec(input, run + more), c);
      HolderStays(input, run, more, c);
      assert false;
    }
    if !BehindHolder(s, c) {
      EndingEnds(input, run, c);
    }
  }

  /** With the help of other submissions that give up before it: it does not wait behind a subscription. */
  lemma EndsWithHelpIff(input: seq<ServerMessage>, run: seq<Action>, c: nat)
    requires Exec(input, run).Some?
    requires var s := Exec(input, run).value;
             c < |s.consumers| && s.consumers[c].running && s.consumers[c].want.Submission?
    ensures CanEnd(input, run, c) <==> !BehindIdle(Exec(input, run).value, c)
  {
    hide Exec, WellLocked, Ending;
    var s := Exec(input, run).value;
    if BehindIdle(s, c) && CanEnd(input, run, c) {
      var more :| NothingArrives(more) && Ended(Exec(input, run + more), c);
      IdleStays(input, run, more, c);
      assert false;
    }
    if !BehindIdle(s, c) {
      EndingEnds(input, run, c);
    }
  }

  lemma EndingEnds(input: seq<ServerMessage>, run: seq<Action>, c: nat)
    requires Exec(input, run).Some?
    requires var s := Exec(input, run).value;
             && c < |s.consumers| && s.consumers[c].running && s.consumers[c].want.Submission?
             && !BehindIdle(s, c)
    ensures var s := Exec(input, run).value;
            && NothingArrives(Ending(s, c)) && Ended(Exec(input, run + Ending(s, c)), c)
            && (!BehindHolder(s, c) ==> NoOtherGivesUp(Ending(s, c), c))
  {
    hide Exec, WellLocked, Ending;
    var s := Exec(input, run).value;
    RunsAreWellLocked(input, run);
    EndingIsQuiet(s, c);
    if s.consumers[c].inflight.Some? { HandEnds(input, run, c); } else { LoopEnds(input, run, c); }
  }

  /** It happens with one subscription that was there first, until a message arrives. */
  lemma OneSubscriptionSuffices(input: seq<ServerMessage>, k: StreamKind, rid: Name)
    ensures var run := [Subscribe(Pushed(k)), Await(0), Lock(0), Subscribe(Submission(rid)), Await(1)];
            && Exec(input, run).Some? && BehindIdle(Exec(input, run).value, 1) && !CanEnd(input, run, 1)
  {
    hide Exec;
    ExecNil(input);
    ExecSnoc(input, [], Subscribe(Pushed(k)));
    var r1 := [] + [Subscribe(Pushed(k))];
    ExecSnoc(input, r1, Await(0));
    ExecSnoc(input, r1 + [Await(0)], Lock(0));
    var r3 := r1 + [Await(0)] + [Lock(0)];
    ExecSnoc(input, r3, Subscribe(Submission(rid)));
    ExecSnoc(input, r3 + [Subscribe(Submission(rid))], Await(1));
    var run := [Subscribe(Pushed(k)), Await(0), Lock(0), Subscribe(Submission(rid)), Await(1)];
    assert r3 + [Subscribe(Submission(rid))] + [Await(1)] == run;
    EndsWithHelpIff(input, run, 1);
  }
}

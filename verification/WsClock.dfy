/** The clocks of a WebSocket submission (src/connection/websocket.rs, `submit_transaction`): each round
    computes the time that remains before it waits for the lock, and grants that time to the wait for a
    message only after it has got the lock. */
module WsClock {
  import opened Prelude
  import opened Types
  import opened WsSubmit
  import opened WsDemux
  import opened WsSharing
  import opened WsDeadline

  // ------------------------------------------------------------------ timed schedules

  /** An action and the time at which it takes place. */
  datatype Timed = Timed(action: Action, at: int)

  function Untimed(run: seq<Timed>): (actions: seq<Action>)
    ensures |actions| == |run|
  {
    seq(|run|, i requires 0 <= i < |run| => run[i].action)
  }

  /** The clock readings of the last round a consumer began: at the top of the loop, when it got the
      lock, and when it received a message. */
  datatype Round = Round(top: int, locked: int, received: Option<int>)

  function LastRound(run: seq<Timed>, c: nat): Round {
    if run == [] then Round(0, 0, None)
    else
      var before, last := LastRound(run[..|run| - 1], c), run[|run| - 1];
      match last.action
      case Await(d) => if d == c then Round(last.at, last.at, None) else before
      case Lock(d) => if d == c then before.(locked := last.at) else before
      case Take(d) => if d == c then before.(received := Some(last.at)) else before
      case _ => before
  }

  function LockWait(run: seq<Timed>, c: nat): int {
    LastRound(run, c).locked - LastRound(run, c).top
  }

  /** The deadline of each submission, by its consumer. */
  type Deadlines = nat -> int

  /** When the timer of the receive runs out: the time that remained at the top of the loop, counted
      from when the lock was got. */
  function Expiry(deadline: Deadlines, run: seq<Timed>, c: nat): int {
    LastRound(run, c).locked + (deadline(c) - LastRound(run, c).top)
  }

  function Now(run: seq<Timed>, at: int): int {
    if run == [] then at else run[|run| - 1].at
  }

  /** What the code compares with the clock: the clock does not run backwards, a deadline is not before
      its submission, a round begins before the deadline, and a submission gives up at the top of the
      loop from the deadline on, or when the timer of the receive has run out. */
  predicate ClockAllows(deadline: Deadlines, before: seq<Timed>, s: State, t: Timed) {
    && Now(before, t.at) <= t.at
    && match t.action
       case Subscribe(w) => w.Submission? ==> t.at <= deadline(|s.consumers|)
       case Await(c) => c < |s.consumers| && s.consumers[c].want.Submission? ==> t.at < deadline(c)
       case GiveUp(c) => t.at >= if s.lock == Some(c) then Expiry(deadline, before, c) else deadline(c)
       case _ => true
  }

  /** Between two rounds, or with a message in its hand. */
  predicate Busy(s: State, c: nat) {
    c < |s.consumers| && s.consumers[c].running && !s.consumers[c].waiting && s.lock != Some(c)
  }

  /** Nothing that can go on is delayed: a submission does not dwell between its rounds, a free lock is
      handed to whoever waits for it, its holder takes what is queued, and timers go off in time. */
  predicate Prompt(deadline: Deadlines, before: seq<Timed>, s: State, t: Timed) {
    && (forall c :: 0 <= c < |s.consumers| && s.consumers[c].want.Submission? ==>
          && (Busy(s, c) ==> t.at == Now(before, t.at))
          && (s.consumers[c].running && s.lock == Some(c) ==> t.at <= Expiry(deadline, before, c)))
    && (s.lock.None? && (exists c :: 0 <= c < |s.consumers| && s.consumers[c].waiting) ==> t.at == Now(before, t.at))
    && (s.lock.Some? && s.queue != [] ==> t.at == Now(before, t.at))
  }

  /** The state after a timed schedule; None if it is not a run, or against the clock. */
  function Play(deadline: Deadlines, input: seq<ServerMessage>, run: seq<Timed>): Option<State> {
    if run == [] then Some(INIT)
    else
      var before, last := run[..|run| - 1], run[|run| - 1];
      match Play(deadline, input, before)
      case None => None
      case Some(s) =>
        if Enabled(input, s, last.action) && ClockAllows(deadline, before, s, last) && Prompt(deadline, before, s, last)
        then Some(Step(input, s, last.action)) else None
  }

  lemma PlaySnoc(deadline: Deadlines, input: seq<ServerMessage>, run: seq<Timed>, t: Timed)
    ensures Play(deadline, input, run + [t]) ==
            match Play(deadline, input, run)
            case None => None
            case Some(s) =>
              if Enabled(input, s, t.action) && ClockAllows(deadline, run, s, t) && Prompt(deadline, run, s, t)
              then Some(Step(input, s, t.action)) else None
  {
    hide Enabled, Step, ClockAllows, Prompt;
    assert (run + [t])[..|run|] == run;
  }

  lemma RoundSnoc(run: seq<Timed>, t: Timed, c: nat)
    ensures LastRound(run + [t], c) ==
            var before := LastRound(run, c);
            match t.action
            case Await(d) => if d == c then Round(t.at, t.at, None) else before
            case Lock(d) => if d == c then before.(locked := t.at) else before
            case Take(d) => if d == c then before.(received := Some(t.at)) else before
            case _ => before
  {
    assert (run + [t])[..|run|] == run;
  }

  /** Timed schedules are schedules, so that whatever holds of all runs holds of them. */
  lemma {:induction false} PlayIsExec(deadline: Deadlines, input: seq<ServerMessage>, run: seq<Timed>)
    requires Play(deadline, input, run).Some?
    ensures Exec(input, Untimed(run)) == Play(deadline, input, run)
  {
    hide Enabled, Step, ClockAllows, Prompt, Exec;
    if run == [] {
      ExecNil(input);
    } else {
      var n := |run| - 1;
      PlayIsExec(deadline, input, run[..n]);
      assert Untimed(run) == Untimed(run[..n]) + [run[n].action];
      ExecSnoc(input, Untimed(run[..n]), run[n].action);
    }
  }

  // ------------------------------------------------------------------ when a submission returns

  /** What the clock readings of a submission say, phase by phase. */
  predicate OnClock(deadline: Deadlines, run: seq<Timed>, s: State, c: nat, now: int)
    requires c < |s.consumers|
  {
    var x, r := s.consumers[c], LastRound(run, c);
    && r.top <= r.locked
    && (x.waiting || s.lock == Some(c) ==> r.top < deadline(c) && r.top <= now)
    && (s.lock == Some(c) ==> r.locked <= now)
    && (Busy(s, c) ==>
          && now <= deadline(c) + (r.locked - r.top)
          && (r.received.Some? ==> r.received.value == now)
          && (r.received.None? ==> r.top == r.locked))
  }

  lemma {:induction false} UnseenHasNoRound(deadline: Deadlines, input: seq<ServerMessage>, run: seq<Timed>, c: nat)
    requires Play(deadline, input, run).Some? && c >= |Play(deadline, input, run).value.consumers|
    ensures LastRound(run, c) == Round(0, 0, None)
  {
    hide Play, ClockAllows, Prompt, Wants, Terminal;
    if run != [] {
      var before, t := run[..|run| - 1], run[|run| - 1];
      assert run == before + [t];
      PlaySnoc(deadline, input, before, t);
      RoundSnoc(before, t, c);
      UnseenHasNoRound(deadline, input, before, c);
    }
  }

  predicate Submits(s: State, c: nat) {
    c < |s.consumers| && s.consumers[c].running && s.consumers[c].want.Submission?
  }

  lemma EntersOnClock(deadline: Deadlines, input: seq<ServerMessage>, run: seq<Timed>, s: State, t: Timed)
    requires t.action.Subscribe? && t.action.want.Submission? && ClockAllows(deadline, run, s, t)
    requires LastRound(run + [t], |s.consumers|) == Round(0, 0, None) && WellLocked(s)
    ensures OnClock(deadline, run + [t], Step(input, s, t.action), |s.consumers|, t.at)
  {
  }

  /** The phases follow each other as the clock readings say. */
  lemma StaysOnClock(deadline: Deadlines, input: seq<ServerMessage>, run: seq<Timed>, s: State, t: Timed, c: nat)
    requires Enabled(input, s, t.action) && ClockAllows(deadline, run, s, t) && Prompt(deadline, run, s, t)
    requires WellLocked(s) && Submits(s, c) && OnClock(deadline, run, s, c, Now(run, t.at))
    requires Submits(Step(input, s, t.action), c)
    ensures OnClock(deadline, run + [t], Step(input, s, t.action), c, t.at)
  {
    hide Wants, Terminal, LastRound;
    RoundSnoc(run, t, c);
  }

  lemma {:induction false} RunsAreOnClock(deadline: Deadlines, input: seq<ServerMessage>, run: seq<Timed>, c: nat,
                                          at: int)
    requires Play(deadline, input, run).Some? && Submits(Play(deadline, input, run).value, c)
    ensures OnClock(deadline, run, Play(deadline, input, run).value, c, Now(run, at))
    ensures WellLocked(Play(deadline, input, run).value)
  {
    hide Play, ClockAllows, Prompt, OnClock, Enabled, Step, WellLocked;
    PlayIsExec(deadline, input, run);
    RunsAreWellLocked(input, Untimed(run));
    if run == [] {
      NothingPlayed(deadline, input);
      assert false;
    } else {
      var before, t := run[..|run| - 1], run[|run| - 1];
      assert run == before + [t];
      PlaySnoc(deadline, input, before, t);
      var s := Play(deadline, input, before).value;
      PlayIsExec(deadline, input, before);
      RunsAreWellLocked(input, Untimed(before));
      if c < |s.consumers| {
        StillSubmits(input, s, t.action, c);
        RunsAreOnClock(deadline, input, before, c, t.at);
        StaysOnClock(deadline, input, before, s, t, c);
      } else {
        OnlySubscribersEnter(input, s, t.action, c);
        UnseenHasNoRound(deadline, input, before, c);
        RoundSnoc(before, t, c);
        EntersOnClock(deadline, input, before, s, t);
      }
    }
  }

  lemma NothingPlayed(deadline: Deadlines, input: seq<ServerMessage>)
    ensures Play(deadline, input, []) == Some(INIT)
  {
  }

  lemma StillSubmits(input: seq<ServerMessage>, s: State, a: Action, c: nat)
    requires Enabled(input, s, a) && c < |s.consumers| && Submits(Step(input, s, a), c)
    ensures Submits(s, c)
  {
    hide Wants, Terminal;
  }

  lemma OnlySubscribersEnter(input: seq<ServerMessage>, s: State, a: Action, c: nat)
    requires Enabled(input, s, a) && |s.consumers| <= c && Submits(Step(input, s, a), c)
    ensures a.Subscribe? && a.want.Submission? && c == |s.consumers|
  {
    hide Wants, Terminal;
  }

  /** When a submission times out. In its wait for a message it does so at its deadline plus the time it
      waited for the lock in that round, so on time iff it got the lock at once. At the top of the loop
      it does so when the message before came, which is between these two times, or at the deadline
      itself if there was no round. */
  lemma TimedOutAt(deadline: Deadlines, input: seq<ServerMessage>, run: seq<Timed>, c: nat, at: int)
    requires Play(deadline, input, run + [Timed(GiveUp(c), at)]).Some?
    ensures var s, w, received := Play(deadline, input, run).value, LockWait(run, c), LastRound(run, c).received;
            && Play(deadline, input, run).Some? && 0 <= w && deadline(c) <= at <= deadline(c) + w
            && (s.lock == Some(c) ==> at == deadline(c) + w && (at == deadline(c) <==> w == 0))
            && (s.lock != Some(c) ==> at == if received.Some? then received.value else deadline(c))
  {
    hide Play, Wants, Terminal;
    PlaySnoc(deadline, input, run, Timed(GiveUp(c), at));
    RunsAreOnClock(deadline, input, run, c, at);
  }

  /** However it ends, a submission returns at most that much after its deadline. */
  lemma ReturnsBy(deadline: Deadlines, input: seq<ServerMessage>, run: seq<Timed>, t: Timed, c: nat)
    requires Play(deadline, input, run).Some? && Submits(Play(deadline, input, run).value, c)
    requires Play(deadline, input, run + [t]).Some? && !Submits(Play(deadline, input, run + [t]).value, c)
    ensures 0 <= LockWait(run, c) && t.at <= deadline(c) + LockWait(run, c)
  {
    hide Play, Wants, Terminal;
    PlaySnoc(deadline, input, run, t);
    RunsAreOnClock(deadline, input, run, c, t.at);
  }

  /** And time passes in that wait only while another consumer holds the lock of the empty queue. */
  lemma WaitsBehindHolder(deadline: Deadlines, input: seq<ServerMessage>, run: seq<Timed>, t: Timed, c: nat)
    requires Play(deadline, input, run + [t]).Some? && Play(deadline, input, run).Some?
    requires var s := Play(deadline, input, run).value;
             c < |s.consumers| && s.consumers[c].waiting && Now(run, t.at) < t.at
    ensures var s := Play(deadline, input, run).value; BehindHolder(s, c) && s.lock != Some(c)
  {
    hide Play, Wants, Terminal;
    PlaySnoc(deadline, input, run, t);
    PlayIsExec(deadline, input, run);
    RunsAreWellLocked(input, Untimed(run));
  }

  // ------------------------------------------------------------------ how late it can be

  /** A consumer takes the lock of the empty queue, and a submission waits behind it. */
  function Queueing(w: Want, rid: Name): seq<Timed> {
    [Timed(Subscribe(w), 0)] + [Timed(Await(0), 0)] + [Timed(Lock(0), 0)]
    + [Timed(Subscribe(Submission(rid)), 0)] + [Timed(Await(1), 0)]
  }

  function QueueingState(w: Want, rid: Name): State {
    INIT.(lock := Some(0), consumers := [Fresh(w), Fresh(Submission(rid)).(waiting := true)])
  }

  lemma QueueingPlays(deadline: Deadlines, input: seq<ServerMessage>, w: Want, rid: Name)
    requires deadline(0) > 0 && deadline(1) > 0
    ensures Play(deadline, input, Queueing(w, rid)) == Some(QueueingState(w, rid))
    ensures LastRound(Queueing(w, rid), 0) == LastRound(Queueing(w, rid), 1) == Round(0, 0, None)
  {
    hide Play, LastRound, Wants, Terminal;
    NothingPlayed(deadline, input);
    NoRounds(0);
    NoRounds(1);
    var r0: seq<Timed> := [];
    var s := Moves(deadline, input, r0, Timed(Subscribe(w), 0));
    var r1 := r0 + [Timed(Subscribe(w), 0)];
    s := Moves(deadline, input, r1, Timed(Await(0), 0));
    var r2 := r1 + [Timed(Await(0), 0)];
    s := Moves(deadline, input, r2, Timed(Lock(0), 0));
    var r3 := r2 + [Timed(Lock(0), 0)];
    s := Moves(deadline, input, r3, Timed(Subscribe(Submission(rid)), 0));
    var r4 := r3 + [Timed(Subscribe(Submission(rid)), 0)];
    s := Moves(deadline, input, r4, Timed(Await(1), 0));
    assert r4 + [Timed(Await(1), 0)] == Queueing(w, rid);
    assert s.consumers == QueueingState(w, rid).consumers;
  }

  lemma NoRounds(c: nat)
    ensures LastRound([], c) == Round(0, 0, None)
  {
  }

  /** One step of a timed schedule, with what it does to the clock readings of the first two. */
  lemma Moves(deadline: Deadlines, input: seq<ServerMessage>, run: seq<Timed>, t: Timed) returns (s': State)
    requires Play(deadline, input, run).Some?
    requires var s := Play(deadline, input, run).value;
             Enabled(input, s, t.action) && ClockAllows(deadline, run, s, t) && Prompt(deadline, run, s, t)
    ensures Play(deadline, input, run + [t]) == Some(s')
    ensures s' == Step(input, Play(deadline, input, run).value, t.action)
    ensures Now(run + [t], 0) == t.at
    ensures forall c: nat ::
              LastRound(run + [t], c) ==
              var before := LastRound(run, c);
              match t.action
              case Await(d) => if d == c then Round(t.at, t.at, None) else before
              case Lock(d) => if d == c then before.(locked := t.at) else before
              case Take(d) => if d == c then before.(received := Some(t.at)) else before
              case _ => before
  {
    hide Play, Enabled, ClockAllows, Prompt, LastRound, Step;
    PlaySnoc(deadline, input, run, t);
    s' := Step(input, Play(deadline, input, run).value, t.action);
    forall c: nat ensures LastRound(run + [t], c) ==
                          var before := LastRound(run, c);
                          match t.action
                          case Await(d) => if d == c then Round(t.at, t.at, None) else before
                          case Lock(d) => if d == c then before.(locked := t.at) else before
                          case Take(d) => if d == c then before.(received := Some(t.at)) else before
                          case _ => before
    {
      RoundSnoc(run, t, c);
    }
  }

  /** Behind another submission: the deadlines add up. */
  lemma LateBehindSubmission(input: seq<ServerMessage>, first: Name, second: Name, d1: int, d2: int)
    requires d1 > 0 && d2 > 0
    ensures var deadline: Deadlines := (c: nat) => if c == 0 then d1 else d2;
            var run := Queueing(Submission(first), second) + [Timed(GiveUp(0), d1)] + [Timed(Lock(1), d1)];
            Play(deadline, input, run + [Timed(GiveUp(1), d1 + d2)]).Some?
  {
    hide Play, LastRound, Wants, Terminal;
    var deadline: Deadlines := (c: nat) => if c == 0 then d1 else d2;
    QueueingPlays(deadline, input, Submission(first), second);
    var r1 := Queueing(Submission(first), second);
    assert Now(r1, 0) == 0;
    var s := Moves(deadline, input, r1, Timed(GiveUp(0), d1));
    var r2 := r1 + [Timed(GiveUp(0), d1)];
    s := Moves(deadline, input, r2, Timed(Lock(1), d1));
    var r3 := r2 + [Timed(Lock(1), d1)];
    s := Moves(deadline, input, r3, Timed(GiveUp(1), d1 + d2));
  }

  /** Behind a subscription there is no bound: it is late by as long as no message comes. */
  lemma LateBehindSubscription(k: StreamKind, m: ServerMessage, rid: Name, timeout: int, late: int)
    requires timeout > 0 && late >= 0 && !m.Heartbeat?
    ensures var deadline: Deadlines := (c: nat) => timeout;
            var run := Queueing(Pushed(k), rid)
                       + [Timed(Receive, late)] + [Timed(Take(0), late)] + [Timed(Lock(1), late)];
            Play(deadline, [m], run + [Timed(GiveUp(1), timeout + late)]).Some?
  {
    hide Play, LastRound, Wants, Terminal;
    var deadline: Deadlines := (c: nat) => timeout;
    QueueingPlays(deadline, [m], Pushed(k), rid);
    var r1 := Queueing(Pushed(k), rid);
    assert Now(r1, 0) == 0;
    var s := Moves(deadline, [m], r1, Timed(Receive, late));
    var r2 := r1 + [Timed(Receive, late)];
    s := Moves(deadline, [m], r2, Timed(Take(0), late));
    var r3 := r2 + [Timed(Take(0), late)];
    s := Moves(deadline, [m], r3, Timed(Lock(1), late));
    var r4 := r3 + [Timed(Lock(1), late)];
    s := Moves(deadline, [m], r4, Timed(GiveUp(1), timeout + late));
  }
}

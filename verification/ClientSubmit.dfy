/** Serialized submissions on one client (src/client.rs, `submit_transaction_with_options`):
    deduplication and the metrics counters. */
module ClientSubmit {
  import opened Prelude
  import opened Types
  import opened Dedup
  import QuicResponse

  /** One call: the clock readings it makes, and what the transport answers if it is asked. */
  datatype Attempt = Attempt(
    tx: Name,
    checkAt: int,
    answer: Result<TransactionResult, SdkError>,
    elapsedMs: nat,
    recordAt: int,
    sweep: Sweep,
    end: int)

  ghost predicate Timely(a: Attempt) {
    a.checkAt <= a.recordAt <= a.end && (forall k :: a.recordAt <= a.sweep(k) <= a.end) && a.elapsedMs < U64_MODULUS
  }

  datatype State = State(log: seq<Entry>, submitted: nat, confirmed: nat, totalLatencyMs: nat, lastLatencyMs: nat)

  const INITIAL: State := State([], 0, 0, 0, 0)

  /** `blocked` tells the client's own duplicate error from an error of the transport. */
  datatype Verdict = Verdict(blocked: bool, result: Result<TransactionResult, SdkError>)

  function Step(s: State, a: Attempt): (State, Verdict) {
    if LogLookup(s.log, a.tx, a.checkAt) then (s, Verdict(true, Err(Transaction)))
    else
      var counted := s.(submitted := (s.submitted + 1) % U64_MODULUS,
                        totalLatencyMs := (s.totalLatencyMs + a.elapsedMs) % U64_MODULUS,
                        lastLatencyMs := a.elapsedMs);
      (if a.answer.Ok?
       then counted.(confirmed := (s.confirmed + 1) % U64_MODULUS, log := s.log + [Entry(a.tx, a.recordAt)])
       else counted,
       Verdict(false, a.answer))
  }

  class SlipstreamClient {
    const dedup: DedupCache
    var submitted: nat
    var confirmed: nat
    var totalLatencyMs: nat
    var lastLatencyMs: nat

    ghost predicate Valid()
      reads this, dedup
    {
      dedup.Valid()
    }

    ghost function Abstract(): State
      reads this, dedup
    {
      State(dedup.log, submitted, confirmed, totalLatencyMs, lastLatencyMs)
    }

    constructor (ghost now: int)
      ensures Valid() && fresh(dedup) && Abstract() == INITIAL && dedup.clock == now
    {
      dedup := new DedupCache(now);
      submitted, confirmed, totalLatencyMs, lastLatencyMs := 0, 0, 0, 0;
    }

    method Submit(a: Attempt) returns (r: Result<TransactionResult, SdkError>)
      requires Valid() && dedup.clock <= a.checkAt && Timely(a)
      modifies this, dedup
      ensures Valid() && old(dedup.clock) <= dedup.clock <= a.end
      ensures (Abstract(), r) == (Step(old(Abstract()), a).0, Step(old(Abstract()), a).1.result)
    {
      var dup := dedup.IsDuplicate(a.tx, a.checkAt);
      if dup {
        return Err(Transaction);
      }
      r := a.answer;
      lastLatencyMs := a.elapsedMs;
      submitted := (submitted + 1) % U64_MODULUS;
      totalLatencyMs := (totalLatencyMs + a.elapsedMs) % U64_MODULUS;
      if r.Ok? {
        confirmed := (confirmed + 1) % U64_MODULUS;
        dedup.Record(a.tx, a.recordAt, a.sweep, a.end);
      }
    }
  }

  // ------------------------------------------------------------------ serialized runs

  ghost predicate Serialized(run: seq<Attempt>) {
    && (forall i :: 0 <= i < |run| ==> Timely(run[i]))
    && (forall i, j :: 0 <= i < j < |run| ==> run[i].end <= run[j].checkAt)
  }

  function After(run: seq<Attempt>): State {
    if run == [] then INITIAL else Step(After(run[..|run| - 1]), run[|run| - 1]).0
  }

  /** What the j-th call of the run gets. */
  function At(run: seq<Attempt>, j: nat): Verdict
    requires j < |run|
  {
    Step(After(run[..j]), run[j]).1
  }

  predicate OkAt(run: seq<Attempt>, i: nat)
    requires i < |run|
  {
    At(run, i).result.Ok?
  }

  lemma AtPrefix(run: seq<Attempt>, n: nat, i: nat)
    requires i < n <= |run|
    ensures At(run[..n], i) == At(run, i)
  {
    assert run[..n][..i] == run[..i];
  }

  /** The log holds exactly the successful calls, and its latest entry for a transaction is the
      latest successful call with it. */
  lemma {:induction false} LatestIsLastOk(run: seq<Attempt>, tx: Name)
    requires Serialized(run)
    ensures match Latest(After(run).log, tx)
            case None => forall i :: 0 <= i < |run| && run[i].tx == tx ==> !OkAt(run, i)
            case Some(at) =>
              && (exists i :: 0 <= i < |run| && run[i].tx == tx && OkAt(run, i) && run[i].recordAt == at)
              && (forall i :: 0 <= i < |run| && run[i].tx == tx && OkAt(run, i) ==> run[i].recordAt <= at)
  {
    hide Step, After;
    if run == [] {
      assert After(run).log == [] by { EmptyRun(); }
    } else {
      var n := |run| - 1;
      var before, a := run[..n], run[n];
      LatestIsLastOk(before, tx);
      LatestStep(run, tx);
      forall i | 0 <= i < n
        ensures before[i] == run[i] && OkAt(before, i) == OkAt(run, i) && run[i].recordAt <= a.recordAt
      {
        AtPrefix(run, n, i);
        assert Timely(run[i]) && Timely(a);
      }
      if Latest(After(before).log, tx).Some? {
        var i :| 0 <= i < n && before[i].tx == tx && OkAt(before, i)
          && before[i].recordAt == Latest(After(before).log, tx).value;
        assert run[i].tx == tx && OkAt(run, i);
      }
    }
  }

  lemma EmptyRun()
    ensures After([]).log == []
  {
  }

  lemma LatestStep(run: seq<Attempt>, tx: Name)
    requires run != []
    ensures var n := |run| - 1;
            Latest(After(run).log, tx) ==
            if run[n].tx == tx && OkAt(run, n) then Some(run[n].recordAt) else Latest(After(run[..n]).log, tx)
  {
    var n := |run| - 1;
    var log := After(run[..n]).log;
    assert (log + [Entry(run[n].tx, run[n].recordAt)])[..|log|] == log;
  }

  /** A call is blocked exactly when an earlier call with the same bytes returned Ok and was
      recorded less than 60 s before the check. Calls that returned Err never block. */
  lemma BlockedIff(run: seq<Attempt>, j: nat)
    requires Serialized(run) && j < |run|
    ensures At(run, j).blocked <==>
            exists i :: 0 <= i < j && run[i].tx == run[j].tx && OkAt(run, i)
              && run[j].checkAt - run[i].recordAt < 60_000
  {
    var before := run[..j];
    LatestIsLastOk(before, run[j].tx);
    forall i | 0 <= i < j ensures At(before, i) == At(run, i) && before[i] == run[i] { AtPrefix(run, j, i); }
    if At(run, j).blocked {
      var at := Latest(After(before).log, run[j].tx).value;
      var i :| 0 <= i < j && before[i].tx == run[j].tx && OkAt(before, i) && before[i].recordAt == at;
      assert run[i].tx == run[j].tx && OkAt(run, i);
    }
    if i :| 0 <= i < j && run[i].tx == run[j].tx && OkAt(run, i) && run[j].checkAt - run[i].recordAt < TTL_MS {
      assert before[i].tx == run[j].tx && OkAt(before, i);
    }
  }

  /** At most once: two Ok results for identical bytes are at least 60 s apart. */
  lemma AtMostOncePerTtl(run: seq<Attempt>, i: nat, j: nat)
    requires Serialized(run) && i < j < |run| && run[i].tx == run[j].tx && OkAt(run, i) && OkAt(run, j)
    ensures run[j].checkAt - run[i].recordAt >= 60_000
  {
    BlockedIff(run, j);
  }

  /** The client passes on what the transport answers, unless it has itself returned Ok for the same
      bytes less than 60 s before; then it answers with an error of its own. */
  lemma AnswerIsPassedOn(run: seq<Attempt>, j: nat)
    requires Serialized(run) && j < |run|
    ensures At(run, j).result ==
            if exists i :: 0 <= i < j && run[i].tx == run[j].tx && OkAt(run, i)
                 && run[j].checkAt - run[i].recordAt < 60_000
            then Err(Transaction)
            else run[j].answer
  {
    BlockedIff(run, j);
  }

  // ------------------------------------------------------------------ metrics

  function CountSent(run: seq<Attempt>): nat {
    if run == [] then 0
    else CountSent(run[..|run| - 1]) + (if At(run, |run| - 1).blocked then 0 else 1)
  }

  function CountOk(run: seq<Attempt>): nat {
    if run == [] then 0
    else CountOk(run[..|run| - 1]) + (if At(run, |run| - 1).result.Ok? then 1 else 0)
  }

  function SumElapsed(run: seq<Attempt>): nat {
    if run == [] then 0
    else SumElapsed(run[..|run| - 1]) + (if At(run, |run| - 1).blocked then 0 else run[|run| - 1].elapsedMs)
  }

  /** The counters are exactly the counts over the run, modulo the width of the atomics; below
      2^64 calls, confirmations never exceed submissions. */
  lemma {:induction false} MetricsAreCounts(run: seq<Attempt>)
    ensures After(run).submitted == CountSent(run) % U64_MODULUS
    ensures After(run).confirmed == CountOk(run) % U64_MODULUS
    ensures After(run).totalLatencyMs == SumElapsed(run) % U64_MODULUS
    ensures CountOk(run) == |After(run).log| <= CountSent(run) <= |run|
    ensures |run| < U64_MODULUS ==> After(run).confirmed <= After(run).submitted
  {
    hide Step;
    if run != [] {
      MetricsAreCounts(run[..|run| - 1]);
      CountersStep(After(run[..|run| - 1]), run[|run| - 1], CountSent(run[..|run| - 1]), CountOk(run[..|run| - 1]),
                   SumElapsed(run[..|run| - 1]));
    }
  }

  /** The last latency is that of the last call that reached the transport. */
  lemma {:induction false} LastLatencyIsOfLastSent(run: seq<Attempt>)
    ensures (forall i :: 0 <= i < |run| ==> At(run, i).blocked) ==> After(run).lastLatencyMs == 0
    ensures forall j :: 0 <= j < |run| && !At(run, j).blocked && (forall i :: j < i < |run| ==> At(run, i).blocked) ==>
              After(run).lastLatencyMs == run[j].elapsedMs
  {
    hide Step, At;
    if run != [] {
      var n := |run| - 1;
      var before := run[..n];
      LastLatencyIsOfLastSent(before);
      LatencyStep(run);
      forall i | 0 <= i < n ensures At(before, i) == At(run, i) { AtPrefix(run, n, i); }
    }
  }

  lemma LatencyStep(run: seq<Attempt>)
    requires run != []
    ensures After(run).lastLatencyMs ==
            if At(run, |run| - 1).blocked then After(run[..|run| - 1]).lastLatencyMs else run[|run| - 1].elapsedMs
  {
    hide LogLookup;
  }

  lemma CountersStep(s: State, a: Attempt, sent: nat, ok: nat, sum: nat)
    requires s.submitted == sent % U64_MODULUS && s.confirmed == ok % U64_MODULUS
    requires s.totalLatencyMs == sum % U64_MODULUS
    ensures var (s', v) := Step(s, a);
            && s'.submitted == (sent + if v.blocked then 0 else 1) % U64_MODULUS
            && s'.confirmed == (ok + if v.result.Ok? then 1 else 0) % U64_MODULUS
            && s'.totalLatencyMs == (sum + if v.blocked then 0 else a.elapsedMs) % U64_MODULUS
            && |s'.log| == |s.log| + (if v.result.Ok? then 1 else 0)
            && (v.result.Ok? ==> !v.blocked)
  {
    hide LogLookup;
    ModAdd(sent, 1);
    ModAdd(ok, 1);
    ModAdd(sum, a.elapsedMs);
  }

  lemma ModAdd(x: nat, y: nat)
    ensures (x % U64_MODULUS + y) % U64_MODULUS == (x + y) % U64_MODULUS
  {
    assert x == x / U64_MODULUS * U64_MODULUS + x % U64_MODULUS;
  }

  /** One call at time zero and a retry of the same bytes, with the same answer. */
  function Retried(tx: Name, answer: Result<TransactionResult, SdkError>, sweep: Sweep, retryAt: int): seq<Attempt> {
    [Attempt(tx, 0, answer, 1, 0, sweep, 0), Attempt(tx, retryAt, answer, 1, retryAt, sweep, retryAt)]
  }

  /** The retry is blocked exactly after an Ok answer and within the TTL. */
  lemma RetryBlockedIff(tx: Name, answer: Result<TransactionResult, SdkError>, sweep: Sweep, retryAt: int)
    ensures At(Retried(tx, answer, sweep, retryAt), 1).blocked <==> answer.Ok? && retryAt < TTL_MS
  {
    var run := Retried(tx, answer, sweep, retryAt);
    var first := run[0];
    assert run[..1] == [first] && [first][..0] == [];
    assert After([]).log == [];
    assert After([first]).log == if answer.Ok? then [Entry(tx, 0)] else [];
  }

  /** An Ok reply is remembered whatever the server's verdict in it, so a reply that the server sends
      blocks the retry of the same bytes for a minute iff it fits the read limit. A longer one ends the
      call in a connection error, and nothing blocks the retry. */
  lemma ReplyBlocksRetryIff(id: nat, tx: Name, f: QuicResponse.Fields, sweep: Sweep, retryAt: int)
    requires QuicResponse.WellFormed(f)
    ensures var reply := QuicResponse.Reply([], QuicResponse.Encode(id, f));
            var fits := |QuicResponse.Encode(id, f)| <= QuicResponse.MAX_REPLY;
            && (if fits then reply == Ok(QuicResponse.ToResult([], f)) else reply == Err(Connection))
            && (At(Retried(tx, reply, sweep, retryAt), 1).blocked <==> fits && retryAt < TTL_MS)
  {
    hide At, QuicResponse.ParseFields;
    QuicResponse.ReplyReceivedIffItFits(id, f, []);
    RetryBlockedIff(tx, QuicResponse.Reply([], QuicResponse.Encode(id, f)), sweep, retryAt);
  }

  /** So does a server error: without other fields, iff its text has at most 1004 bytes. */
  lemma ServerErrorBlocksRetry(id: nat, tx: Name, message: Name, sweep: Sweep, retryAt: int)
    requires 1 <= |message| < 0x1_0000
    ensures var f := QuicResponse.Fields(0x04, None, Some(message), None, None, None, None, 0, 0);
            var reply := QuicResponse.Reply([], QuicResponse.Encode(id, f));
            && (if |message| <= 1004
                then reply.Ok? && reply.value.status == Failed && reply.value.error == Some(message)
                else reply == Err(Connection))
            && (At(Retried(tx, reply, sweep, retryAt), 1).blocked <==> |message| <= 1004 && retryAt < TTL_MS)
  {
    hide At, QuicResponse.ParseFields;
    var f := QuicResponse.Fields(0x04, None, Some(message), None, None, None, None, 0, 0);
    ReplyBlocksRetryIff(id, tx, f, sweep, retryAt);
  }
}

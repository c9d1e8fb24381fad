/** Repeated submissions through a multi-region client (src/multi_region.rs): it keeps one client, and
    so one deduplication cache, for each region, and a duplicate is to it one more failed region. */
module MultiRegion {
  import opened Prelude
  import opened Types
  import opened Dedup
  import opened ClientSubmit
  import RegionSubmit

  /** A submission to the client of one region. A region that cannot be connected answers with an
      error, which like all errors leaves nothing in its cache. */
  datatype Routed = Routed(region: Name, attempt: Attempt)

  /** The submissions that one region has seen. */
  function Of(h: seq<Routed>, region: Name): seq<Attempt> {
    if h == [] then []
    else Of(h[..|h| - 1], region) + if h[|h| - 1].region == region then [h[|h| - 1].attempt] else []
  }

  /** What the client of the region answers after the submissions `h`. */
  function Answer(h: seq<Routed>, a: Routed): Result<TransactionResult, SdkError> {
    Step(After(Of(h, a.region)), a.attempt).1.result
  }

  predicate Served(h: seq<Routed>, a: Routed) {
    Answer(h, a).Ok?
  }

  predicate ServedAt(h: seq<Routed>, i: nat)
    requires i < |h|
  {
    Served(h[..i], h[i])
  }

  ghost predicate Ordered(h: seq<Routed>) {
    && (forall i :: 0 <= i < |h| ==> Timely(h[i].attempt))
    && (forall i, j :: 0 <= i < j < |h| ==> h[i].attempt.end <= h[j].attempt.checkAt)
  }

  /** The region returned Ok for these bytes less than the TTL before `now`. */
  predicate RecentOk(h: seq<Routed>, region: Name, tx: Name, now: int) {
    exists i :: 0 <= i < |h| && h[i].region == region && h[i].attempt.tx == tx && ServedAt(h, i)
                && now - h[i].attempt.recordAt < 60_000
  }

  lemma OfSnoc(h: seq<Routed>, a: Routed, region: Name)
    ensures Of(h + [a], region) == Of(h, region) + if a.region == region then [a.attempt] else []
  {
    assert (h + [a])[..|h|] == h;
  }

  /** What the cache of the region knows of these bytes. */
  function Logged(h: seq<Routed>, region: Name, tx: Name): Option<int> {
    Latest(After(Of(h, region)).log, tx)
  }

  lemma LoggedSnoc(h: seq<Routed>, a: Routed, region: Name, tx: Name)
    ensures Logged(h + [a], region, tx) ==
            if a.region == region && a.attempt.tx == tx && Served(h, a) then Some(a.attempt.recordAt)
            else Logged(h, region, tx)
  {
    hide Step, After, Latest, Of;
    OfSnoc(h, a, region);
    if a.region == region {
      var run := Of(h, region);
      var run' := run + [a.attempt];
      assert Of(h + [a], region) == run' && run'[..|run|] == run && run'[|run|] == a.attempt;
      LatestStep(run', tx);
      assert OkAt(run', |run|) == Served(h, a);
    } else {
      assert Of(h + [a], region) == Of(h, region);
    }
  }

  lemma ServedAtPrefix(h: seq<Routed>, a: Routed, i: nat)
    requires i < |h|
    ensures ServedAt(h + [a], i) == ServedAt(h, i)
  {
    assert (h + [a])[..i] == h[..i];
  }

  /** That is the latest Ok of that region. */
  lemma {:induction false} RegionLog(h: seq<Routed>, region: Name, tx: Name)
    requires Ordered(h)
    ensures match Logged(h, region, tx)
            case None => forall i :: 0 <= i < |h| && h[i].region == region && h[i].attempt.tx == tx ==> !ServedAt(h, i)
            case Some(at) =>
              && (exists i :: 0 <= i < |h| && h[i].region == region && h[i].attempt.tx == tx && ServedAt(h, i)
                              && h[i].attempt.recordAt == at)
              && (forall i :: 0 <= i < |h| && h[i].region == region && h[i].attempt.tx == tx && ServedAt(h, i) ==>
                    h[i].attempt.recordAt <= at)
  {
    hide Logged, Served, ServedAt;
    if h == [] {
      assert Logged([], region, tx).None? by { NothingLogged(region, tx); }
    } else {
      var n := |h| - 1;
      var before, a := h[..n], h[n];
      assert h == before + [a];
      RegionLog(before, region, tx);
      LoggedSnoc(before, a, region, tx);
      LastServed(h);
      forall i | 0 <= i < n
        ensures ServedAt(h, i) == ServedAt(before, i) && h[i] == before[i]
        ensures h[i].attempt.recordAt <= a.attempt.recordAt
      {
        ServedAtPrefix(before, a, i);
        assert Timely(h[i].attempt) && Timely(a.attempt);
      }
      if Logged(before, region, tx).Some? {
        var i :| 0 <= i < n && before[i].region == region && before[i].attempt.tx == tx && ServedAt(before, i)
          && before[i].attempt.recordAt == Logged(before, region, tx).value;
        assert h[i].region == region && ServedAt(h, i);
      }
    }
  }

  lemma LastServed(h: seq<Routed>)
    requires h != []
    ensures ServedAt(h, |h| - 1) == Served(h[..|h| - 1], h[|h| - 1])
  {
  }

  lemma NothingLogged(region: Name, tx: Name)
    ensures Logged([], region, tx).None?
  {
    EmptyRun();
  }

  /** The exact condition, over every history: a region serves the bytes iff its transport does and
      it did not return Ok for them within the TTL; what other regions returned makes no difference. */
  lemma ServedIff(h: seq<Routed>, a: Routed)
    requires Ordered(h + [a])
    ensures Served(h, a) <==>
            a.attempt.answer.Ok? && !RecentOk(h, a.region, a.attempt.tx, a.attempt.checkAt)
    ensures Answer(h, a) ==
            if RecentOk(h, a.region, a.attempt.tx, a.attempt.checkAt) then Err(Transaction) else a.attempt.answer
  {
    forall i | 0 <= i < |h| ensures h[i] == (h + [a])[i] { }
    assert Ordered(h);
    RegionLog(h, a.region, a.attempt.tx);
  }

  /** Two Ok results for the same bytes within the TTL come from two regions. */
  lemma OncePerRegion(h: seq<Routed>, i: nat, j: nat)
    requires Ordered(h) && i < j < |h| && h[i].attempt.tx == h[j].attempt.tx && ServedAt(h, i) && ServedAt(h, j)
    requires h[j].attempt.checkAt - h[i].attempt.recordAt < TTL_MS
    ensures h[i].region != h[j].region
  {
    var before := h[..j];
    assert h[..j + 1] == before + [h[j]];
    assert Ordered(h[..j + 1]);
    ServedIff(before, h[j]);
    assert before[..i] == h[..i] && ServedAt(before, i);
  }

  // ------------------------------------------------------------------ one call

  /** What a call makes of its plan: one region after the other up to the first Ok. */
  function Flow(h: seq<Routed>, tries: seq<Routed>): seq<Routed>
    decreases tries
  {
    if tries == [] then []
    else if Served(h, tries[0]) then [tries[0]]
    else [tries[0]] + Flow(h + [tries[0]], tries[1..])
  }

  function Regions(tries: seq<Routed>): (regions: seq<Name>)
    ensures |regions| == |tries|
  {
    seq(|tries|, k requires 0 <= k < |tries| => tries[k].region)
  }

  /** The k-th answer of a call is that of the region's client after the tries before it. */
  ghost predicate AnsweredByRegions(h: seq<Routed>, tries: seq<Routed>, oracle: nat -> RegionSubmit.Answer) {
    forall k: nat :: k < |tries| ==> oracle(k) == Answer(h + tries[..k], tries[k])
  }

  /** Tries in order, all failing but perhaps the last of them, are the flow of the call. */
  lemma {:induction false} TriesFlow(h: seq<Routed>, tries: seq<Routed>, oracle: nat -> RegionSubmit.Answer, n: nat)
    requires 1 <= n <= |tries| && RegionSubmit.AllFail(oracle, n - 1) && (n == |tries| || oracle(n - 1).Ok?)
    requires AnsweredByRegions(h, tries, oracle)
    ensures Flow(h, tries) == tries[..n]
    ensures oracle(n - 1).Ok? <==> Served(h + tries[..n - 1], tries[n - 1])
    decreases tries
  {
    hide Answer;
    assert h + tries[..0] == h && oracle(0) == Answer(h, tries[0]);
    if n > 1 {
      assert oracle(0).Err?;
      var next: nat -> RegionSubmit.Answer := (k: nat) => oracle(k + 1);
      forall k: nat | k < |tries[1..]| ensures next(k) == Answer(h + [tries[0]] + tries[1..][..k], tries[1..][k]) {
        assert h + [tries[0]] + tries[1..][..k] == h + tries[..k + 1];
      }
      TriesFlow(h + [tries[0]], tries[1..], next, n - 1);
      assert tries[..n] == [tries[0]] + tries[1..][..n - 1];
    } else {
      if !Served(h, tries[0]) { assert tries[1..] == [] && Flow(h + [tries[0]], []) == []; }
      assert tries[..1] == [tries[0]];
    }
  }

  /** A sequential submission over the clients of the regions: the trace it leaves is its flow, region by
      region, and it is Ok iff the last region is served. */
  lemma SubmissionFlows(h: seq<Routed>, best: Name, fallbacks: seq<Name>, maxRetries: nat, tries: seq<Routed>,
                        oracle: nat -> RegionSubmit.Answer, trace: seq<RegionSubmit.Try>)
    requires Regions(tries) == [best] + fallbacks && AnsweredByRegions(h, tries, oracle)
    requires RegionSubmit.FollowsPlan(RegionSubmit.Plan(Sequential, best, fallbacks, maxRetries), oracle, trace)
    ensures var flow := Flow(h, tries);
            && |trace| == |flow| <= |tries| && flow == tries[..|flow|]
            && (forall k :: 0 <= k < |trace| ==> trace[k] == RegionSubmit.Try(flow[k].region, 0))
            && (oracle(|trace| - 1).Ok? <==> Served(h + tries[..|trace| - 1], tries[|trace| - 1]))
  {
    hide Served, Flow, Answer, RegionSubmit.Plan, AnsweredByRegions;
    PlanOf(best, fallbacks, maxRetries, tries);
    TriesFlow(h, tries, oracle, |trace|);
  }

  /** The plan of such a submission. */
  lemma PlanOf(best: Name, fallbacks: seq<Name>, maxRetries: nat, tries: seq<Routed>)
    requires Regions(tries) == [best] + fallbacks
    ensures var plan := RegionSubmit.Plan(Sequential, best, fallbacks, maxRetries);
            |plan| == |tries| && forall k :: 0 <= k < |plan| ==> plan[k] == RegionSubmit.Try(tries[k].region, 0)
  {
    RegionSubmit.PlanShape(Sequential, best, fallbacks, maxRetries);
    forall k | 0 <= k < |tries| ensures tries[k].region == ([best] + fallbacks)[k] {
      assert Regions(tries)[k] == tries[k].region;
    }
  }

  predicate CanServe(h: seq<Routed>, a: Routed) {
    a.attempt.answer.Ok? && !RecentOk(h, a.region, a.attempt.tx, a.attempt.checkAt)
  }

  /** A try that is not served leaves no trace. */
  lemma FailureLeavesNoTrace(h: seq<Routed>, failed: Routed, a: Routed)
    requires !Served(h, failed)
    ensures CanServe(h + [failed], a) == CanServe(h, a)
  {
    hide Served;
    var h' := h + [failed];
    forall i | 0 <= i < |h| ensures ServedAt(h', i) == ServedAt(h, i) && h'[i] == h[i] { ServedAtPrefix(h, failed, i); }
    assert ServedAt(h', |h|) == Served(h, failed) by { assert h'[..|h|] == h; }
    var region, tx, now := a.region, a.attempt.tx, a.attempt.checkAt;
    if RecentOk(h, region, tx, now) {
      var i :| 0 <= i < |h| && h[i].region == region && h[i].attempt.tx == tx && ServedAt(h, i)
        && now - h[i].attempt.recordAt < TTL_MS;
      assert h'[i].region == region && ServedAt(h', i);
    }
    hide ServedAt;
    if RecentOk(h', region, tx, now) {
      var i :| 0 <= i < |h'| && h'[i].region == region && h'[i].attempt.tx == tx && ServedAt(h', i)
        && now - h'[i].attempt.recordAt < TTL_MS;
      assert i < |h| && h[i].region == region && ServedAt(h, i);
    }
  }

  /** The n-th try is the first of the plan that can serve, or there is none and n is the length. */
  predicate FirstServer(h: seq<Routed>, tries: seq<Routed>, n: nat) {
    && n <= |tries| && (forall k :: 0 <= k < n ==> !CanServe(h, tries[k]))
    && (n < |tries| ==> CanServe(h, tries[n]))
  }

  /** The call makes the tries up to the n-th, the only one that is served, or all of them in vain. */
  ghost predicate EndsAt(h: seq<Routed>, tries: seq<Routed>, n: nat) {
    && n <= |tries| && Flow(h, tries) == (if n < |tries| then tries[..n + 1] else tries)
    && (forall k :: 0 <= k < n ==> !Served(h + tries[..k], tries[k]))
    && (n < |tries| ==> Served(h + tries[..n], tries[n]))
  }

  /** A call ends at the first region of its plan that can serve it, and is Ok iff there is one. */
  lemma {:induction false} CallEndsAtFirst(h: seq<Routed>, tries: seq<Routed>, n: nat)
    requires Ordered(h + tries) && FirstServer(h, tries, n)
    ensures EndsAt(h, tries, n)
    decreases tries
  {
    hide Served, CanServe, Ordered, EndsAt;
    if tries == [] {
      NothingToTry(h);
    } else {
      var a, h' := tries[0], h + [tries[0]];
      FirstIsOrdered(h, tries);
      ServedIsCanServe(h, a);
      if n == 0 {
        EndsAtOnce(h, tries);
      } else {
        assert h' + tries[1..] == h + tries;
        forall k | 0 <= k < |tries[1..]| ensures CanServe(h', tries[1..][k]) == CanServe(h, tries[k + 1]) {
          FailureLeavesNoTrace(h, a, tries[k + 1]);
        }
        CallEndsAtFirst(h', tries[1..], n - 1);
        EndsLater(h, tries, n);
      }
    }
  }

  lemma NothingToTry(h: seq<Routed>)
    ensures EndsAt(h, [], 0)
  {
  }

  lemma FirstIsOrdered(h: seq<Routed>, tries: seq<Routed>)
    requires tries != [] && Ordered(h + tries)
    ensures Ordered(h + [tries[0]])
  {
    assert h + [tries[0]] == (h + tries)[..|h| + 1];
  }

  lemma EndsAtOnce(h: seq<Routed>, tries: seq<Routed>)
    requires tries != [] && Served(h, tries[0])
    ensures EndsAt(h, tries, 0)
  {
    hide Served;
    assert h + tries[..0] == h && tries[..1] == [tries[0]];
  }

  lemma EndsLater(h: seq<Routed>, tries: seq<Routed>, n: nat)
    requires tries != [] && n > 0 && !Served(h, tries[0]) && EndsAt(h + [tries[0]], tries[1..], n - 1)
    ensures EndsAt(h, tries, n)
  {
    hide Served;
    var a, h', rest := tries[0], h + [tries[0]], tries[1..];
    assert h + tries[..0] == h;
    forall k | 0 < k <= |rest| ensures h + tries[..k] == h' + rest[..k - 1] {
      assert tries[..k] == [a] + rest[..k - 1];
    }
    forall k | 0 <= k < n ensures !Served(h + tries[..k], tries[k]) {
      if k > 0 { assert !Served(h' + rest[..k - 1], rest[k - 1]); }
    }
    if n < |tries| {
      assert tries[..n + 1] == [a] + rest[..n];
      assert Served(h' + rest[..n - 1], rest[n - 1]);
    } else {
      assert tries == [a] + rest;
    }
  }

  lemma ServedIsCanServe(h: seq<Routed>, a: Routed)
    requires Ordered(h + [a])
    ensures Served(h, a) == CanServe(h, a)
  {
    ServedIff(h, a);
  }

  // ------------------------------------------------------------------ resubmitting the same bytes

  /** All submissions of a run of calls. */
  function History(calls: seq<seq<Routed>>): seq<Routed> {
    if calls == [] then []
    else History(calls[..|calls| - 1]) + Flow(History(calls[..|calls| - 1]), calls[|calls| - 1])
  }

  /** Calls one after the other with the same bytes and the same plan of different regions, all of
      whose transports answer Ok, the whole within the TTL. */
  ghost predicate Resubmits(calls: seq<seq<Routed>>, regions: seq<Name>, tx: Name) {
    && (forall k, l :: 0 <= k < l < |regions| ==> regions[k] != regions[l])
    && (forall c :: 0 <= c < |calls| ==> Ordered(History(calls[..c]) + calls[c]))
    && (forall c :: 0 <= c < |calls| ==> |calls[c]| == |regions|)
    && (forall c, k :: 0 <= c < |calls| && 0 <= k < |regions| ==>
          && calls[c][k].region == regions[k] && calls[c][k].attempt.tx == tx && calls[c][k].attempt.answer.Ok?)
    && (forall c, d, k, l :: 0 <= c < |calls| && 0 <= d < |calls| && 0 <= k < |regions| && 0 <= l < |regions| ==>
          calls[d][l].attempt.checkAt - calls[c][k].attempt.recordAt < TTL_MS)
  }

  /** The client does not stop a resubmission, it moves on: the c-th call is served by the c-th region
      of the plan, and a call is refused only when every region has served one before. */
  lemma ResubmissionMovesOn(calls: seq<seq<Routed>>, regions: seq<Name>, tx: Name, c: nat)
    requires Resubmits(calls, regions, tx) && c < |calls|
    ensures var h, tries := History(calls[..c]), calls[c];
            if c < |regions| then
              && Flow(h, tries) == tries[..c + 1] && tries[c].region == regions[c]
              && Served(h + tries[..c], tries[c])
            else
              && Flow(h, tries) == tries
              && forall k :: 0 <= k < |regions| ==> !Served(h + tries[..k], tries[k])
  {
    hide Served, Flow;
    OneCall(calls, regions, tx, c);
    if c < |regions| { EachTry(calls, regions, tx, c, c); }
  }

  /** Such runs exist for any plan and number of calls: here everything takes place in one millisecond. */
  lemma ResubmissionsExist(regions: seq<Name>, tx: Name, answer: Result<TransactionResult, SdkError>, m: nat)
    requires answer.Ok? && forall k, l :: 0 <= k < l < |regions| ==> regions[k] != regions[l]
    ensures Resubmits(AtOnce(regions, tx, answer, m), regions, tx)
  {
    var calls := AtOnce(regions, tx, answer, m);
    forall c, k | 0 <= c < |calls| && 0 <= k < |regions|
      ensures |calls[c]| == |regions| && calls[c][k] == Routed(regions[k], Instant(tx, answer))
    {
    }
    hide Flow, AtOnce;
    forall c | 0 <= c < |calls| ensures Ordered(History(calls[..c]) + calls[c]) {
      FewerAtOnce(regions, tx, answer, m, c);
      HistoryAtOnce(regions, tx, answer, c);
      var h := History(calls[..c]) + calls[c];
      assert forall i :: 0 <= i < |h| ==> h[i].attempt == Instant(tx, answer);
    }
  }

  lemma FewerAtOnce(regions: seq<Name>, tx: Name, answer: Result<TransactionResult, SdkError>, m: nat, c: nat)
    requires c < m
    ensures AtOnce(regions, tx, answer, m)[..c] == AtOnce(regions, tx, answer, c)
    ensures |AtOnce(regions, tx, answer, m)[c]| == |regions|
    ensures forall k :: 0 <= k < |regions| ==>
              AtOnce(regions, tx, answer, m)[c][k] == Routed(regions[k], Instant(tx, answer))
  {
  }

  function Instant(tx: Name, answer: Result<TransactionResult, SdkError>): Attempt {
    Attempt(tx, 0, answer, 0, 0, _ => 0, 0)
  }

  function AtOnce(regions: seq<Name>, tx: Name, answer: Result<TransactionResult, SdkError>, m: nat): seq<seq<Routed>> {
    seq(m, _ => seq(|regions|, k requires 0 <= k < |regions| => Routed(regions[k], Instant(tx, answer))))
  }

  lemma {:induction false} HistoryAtOnce(regions: seq<Name>, tx: Name, answer: Result<TransactionResult, SdkError>,
                                         m: nat)
    ensures forall i :: 0 <= i < |History(AtOnce(regions, tx, answer, m))| ==>
              History(AtOnce(regions, tx, answer, m))[i].attempt == Instant(tx, answer)
  {
    hide Flow;
    if m > 0 {
      var calls := AtOnce(regions, tx, answer, m);
      HistoryAtOnce(regions, tx, answer, m - 1);
      assert calls[..m - 1] == AtOnce(regions, tx, answer, m - 1);
      FlowIsPrefix(History(calls[..m - 1]), calls[m - 1]);
    }
  }

  lemma {:induction false} FlowIsPrefix(h: seq<Routed>, tries: seq<Routed>)
    ensures Flow(h, tries) <= tries
    decreases tries
  {
    hide Served;
    if tries != [] {
      FlowIsPrefix(h + [tries[0]], tries[1..]);
    }
  }

  lemma EachTry(calls: seq<seq<Routed>>, regions: seq<Name>, tx: Name, c: nat, k: nat)
    requires Resubmits(calls, regions, tx) && c < |calls| && k < |regions|
    ensures |calls[c]| == |regions| && calls[c][k].region == regions[k]
    ensures calls[c][k].attempt.tx == tx && calls[c][k].attempt.answer.Ok?
  {
  }

  lemma AnyTwoTries(calls: seq<seq<Routed>>, regions: seq<Name>, tx: Name, c: nat, k: nat, d: nat, l: nat)
    requires Resubmits(calls, regions, tx) && c < |calls| && k < |regions| && d < |calls| && l < |regions|
    ensures |calls[c]| == |calls[d]| == |regions|
    ensures calls[d][l].attempt.checkAt - calls[c][k].attempt.recordAt < TTL_MS
    ensures k != l ==> regions[k] != regions[l]
  {
  }

  /** Before the c-th call the first c regions cannot serve these bytes, and the others can. */
  lemma {:induction false} ServedSoFar(calls: seq<seq<Routed>>, regions: seq<Name>, tx: Name, c: nat, d: nat, k: nat)
    requires Resubmits(calls, regions, tx) && c <= |calls| && d < |calls| && k < |regions|
    ensures |calls[d]| == |regions|
    ensures CanServe(History(calls[..c]), calls[d][k]) <==> k >= c
    decreases c, 0
  {
    hide Served, Flow, CanServe, Resubmits;
    EachTry(calls, regions, tx, d, k);
    if c == 0 {
      FirstIsServed(calls[d][k]);
    } else {
      var e := c - 1;
      var h, tries := History(calls[..e]), calls[e];
      var n := if e < |regions| then e else |regions|;
      OneCall(calls, regions, tx, e);
      ServedSoFar(calls, regions, tx, e, d, k);
      assert calls[..c][..e] == calls[..e] && calls[..c][e] == calls[e];
      assert History(calls[..c]) == h + Flow(h, tries);
      if n < |tries| {
        EachTry(calls, regions, tx, e, n);
        AnyTwoTries(calls, regions, tx, e, n, d, k);
      }
      AfterTheCall(h, tries, n, calls[d][k]);
    }
  }

  /** The c-th call, given what the regions can serve by then. */
  lemma OneCall(calls: seq<seq<Routed>>, regions: seq<Name>, tx: Name, c: nat)
    requires Resubmits(calls, regions, tx) && c < |calls|
    ensures var h, tries := History(calls[..c]), calls[c];
            |tries| == |regions| && EndsAt(h, tries, if c < |regions| then c else |regions|)
    decreases c, 1
  {
    hide Served, Flow, CanServe;
    var h, tries := History(calls[..c]), calls[c];
    var n := if c < |regions| then c else |regions|;
    assert |tries| == |regions| && Ordered(h + tries);
    hide Resubmits;
    forall k | 0 <= k < |regions| ensures CanServe(h, tries[k]) <==> k >= c {
      ServedSoFar(calls, regions, tx, c, c, k);
    }
    CallEndsAtFirst(h, tries, n);
  }

  lemma FirstIsServed(a: Routed)
    requires a.attempt.answer.Ok?
    ensures CanServe([], a)
  {
  }

  /** After a call, its region can no longer serve the bytes, and nothing else has changed. */
  lemma AfterTheCall(h: seq<Routed>, tries: seq<Routed>, n: nat, a: Routed)
    requires n <= |tries| && a.attempt.answer.Ok?
    requires forall k :: 0 <= k < n ==> !Served(h + tries[..k], tries[k])
    requires n < |tries| ==>
               && Served(h + tries[..n], tries[n]) && tries[n].attempt.tx == a.attempt.tx
               && a.attempt.checkAt - tries[n].attempt.recordAt < TTL_MS
    ensures var after := h + if n < |tries| then tries[..n + 1] else tries;
            CanServe(after, a) <==> CanServe(h, a) && (n < |tries| ==> a.region != tries[n].region)
  {
    hide Served, CanServe;
    FailuresLeaveNoTrace(h, tries, n, a);
    if n < |tries| {
      SuccessCounts(h + tries[..n], tries[n], a);
      assert h + tries[..n + 1] == h + tries[..n] + [tries[n]];
    } else {
      assert tries[..n] == tries;
    }
  }

  lemma {:induction false} FailuresLeaveNoTrace(h: seq<Routed>, tries: seq<Routed>, n: nat, a: Routed)
    requires n <= |tries| && forall k :: 0 <= k < n ==> !Served(h + tries[..k], tries[k])
    ensures CanServe(h + tries[..n], a) == CanServe(h, a)
  {
    hide Served, CanServe;
    if n == 0 {
      assert h + tries[..0] == h;
    } else {
      FailuresLeaveNoTrace(h, tries, n - 1, a);
      FailureLeavesNoTrace(h + tries[..n - 1], tries[n - 1], a);
      assert h + tries[..n] == h + tries[..n - 1] + [tries[n - 1]];
    }
  }

  lemma SuccessCounts(h: seq<Routed>, served: Routed, a: Routed)
    requires Served(h, served) && served.attempt.tx == a.attempt.tx && a.attempt.answer.Ok?
    requires a.attempt.checkAt - served.attempt.recordAt < TTL_MS
    ensures CanServe(h + [served], a) <==> CanServe(h, a) && a.region != served.region
  {
    hide Served;
    var h' := h + [served];
    forall i | 0 <= i < |h| ensures ServedAt(h', i) == ServedAt(h, i) && h'[i] == h[i] { ServedAtPrefix(h, served, i); }
    assert ServedAt(h', |h|) by { assert h'[..|h|] == h; }
    hide ServedAt;
    var region, tx, now := a.region, a.attempt.tx, a.attempt.checkAt;
    if RecentOk(h, region, tx, now) {
      var i :| 0 <= i < |h| && h[i].region == region && h[i].attempt.tx == tx && ServedAt(h, i)
        && now - h[i].attempt.recordAt < TTL_MS;
      assert h'[i].region == region && ServedAt(h', i);
    }
    if RecentOk(h', region, tx, now) && region != served.region {
      var i :| 0 <= i < |h'| && h'[i].region == region && h'[i].attempt.tx == tx && ServedAt(h', i)
        && now - h'[i].attempt.recordAt < TTL_MS;
      assert i < |h| && h[i].region == region && ServedAt(h, i);
    }
    if region == served.region { assert h'[|h|] == served; }
  }

  // ------------------------------------------------------------------ broadcast

  /** A broadcast submits to every one of its regions, whatever the others answer: each serves the
      bytes iff it could before the call, so a single call can be served many times over. */
  lemma BroadcastServesEach(h: seq<Routed>, tries: seq<Routed>, k: nat)
    requires Ordered(h + tries) && k < |tries|
    requires forall i, j :: 0 <= i < j < |tries| ==> tries[i].region != tries[j].region
    ensures Served(h + tries[..k], tries[k]) <==> CanServe(h, tries[k])
  {
    hide Served, CanServe, Answer;
    OthersAreUnseen(h, tries, k, k);
    ServedElsewhere(h, tries, k);
  }

  lemma {:induction false} OthersAreUnseen(h: seq<Routed>, tries: seq<Routed>, k: nat, n: nat)
    requires n <= k < |tries| && forall i :: 0 <= i < k ==> tries[i].region != tries[k].region
    ensures Of(h + tries[..n], tries[k].region) == Of(h, tries[k].region)
  {
    hide Of;
    if n == 0 {
      assert h + tries[..0] == h;
    } else {
      OthersAreUnseen(h, tries, k, n - 1);
      OfSnoc(h + tries[..n - 1], tries[n - 1], tries[k].region);
      assert h + tries[..n] == h + tries[..n - 1] + [tries[n - 1]];
    }
  }

  lemma ServedElsewhere(h: seq<Routed>, tries: seq<Routed>, k: nat)
    requires Ordered(h + tries) && k < |tries|
    requires Of(h + tries[..k], tries[k].region) == Of(h, tries[k].region)
    ensures Served(h + tries[..k], tries[k]) <==> CanServe(h, tries[k])
  {
    var skipping := h + [tries[k]];
    assert Ordered(skipping) by {
      forall i, j | 0 <= i < j < |skipping| ensures skipping[i].attempt.end <= skipping[j].attempt.checkAt {
        assert skipping[i] == (h + tries)[i];
        assert skipping[j] == (h + tries)[if j < |h| then j else j + k];
      }
      forall i | 0 <= i < |skipping| ensures Timely(skipping[i].attempt) {
        assert skipping[i] == (h + tries)[if i < |h| then i else i + k];
      }
    }
    ServedIff(h, tries[k]);
  }
}

/** The client-side deduplication cache (src/client.rs, `DedupCache`). Instants are integer
    milliseconds of one monotone clock, passed in by the caller. */
module Dedup {
  import opened Prelude
  import opened Types

  const TTL_MS: int := 60_000
  const CLEANUP_SIZE: nat := 1000

  /** A retain sweep reads the clock once for every entry it looks at. */
  type Sweep = Name -> int

  function Lookup(entries: map<Name, int>, tx: Name, now: int): bool {
    tx in entries && now - entries[tx] < TTL_MS
  }

  function Put(entries: map<Name, int>, tx: Name, now: int, sweep: Sweep): (r: map<Name, int>)
    ensures forall k :: k in r ==> k in entries[tx := now] && r[k] == entries[tx := now][k]
    ensures forall k :: k in entries[tx := now] ==>
              (k in r <==> |entries[tx := now]| <= 1000 || sweep(k) - entries[tx := now][k] < 60_000)
  {
    var all := entries[tx := now];
    if |all| > CLEANUP_SIZE then map k | k in all && sweep(k) - all[k] < TTL_MS :: all[k] else all
  }

  // ------------------------------------------------------------------ the unbounded log

  datatype Entry = Entry(tx: Name, at: int)

  /** The most recent record of `tx`. */
  function Latest(log: seq<Entry>, tx: Name): Option<int> {
    if log == [] then None
    else if log[|log| - 1].tx == tx then Some(log[|log| - 1].at)
    else Latest(log[..|log| - 1], tx)
  }

  function LogLookup(log: seq<Entry>, tx: Name, now: int): bool {
    match Latest(log, tx) case None => false case Some(at) => now - at < TTL_MS
  }

  /** The bytes are a duplicate iff their last record is less than 60 s old. */
  lemma {:induction false} DuplicateIff(log: seq<Entry>, tx: Name, now: int)
    ensures LogLookup(log, tx, now) <==>
            exists i :: 0 <= i < |log| && log[i].tx == tx && now - log[i].at < 60_000
                        && forall k :: i < k < |log| ==> log[k].tx != tx
  {
    if log != [] {
      var n := |log| - 1;
      if log[n].tx != tx {
        var before := log[..n];
        DuplicateIff(before, tx, now);
        if LogLookup(before, tx, now) {
          var i :| 0 <= i < n && before[i].tx == tx && now - before[i].at < 60_000
            && forall k :: i < k < n ==> before[k].tx != tx;
          assert log[i].tx == tx && forall k :: i < k < |log| ==> log[k].tx != tx;
        }
        if i :| 0 <= i < |log| && log[i].tx == tx && now - log[i].at < 60_000
                && forall k :: i < k < |log| ==> log[k].tx != tx {
          assert before[i].tx == tx && forall k :: i < k < n ==> before[k].tx != tx;
        }
      }
    }
  }

  /** The cache holds the most recent record of every transaction, except records that had
      already expired by `clock`. */
  ghost predicate Agrees(entries: map<Name, int>, log: seq<Entry>, clock: int) {
    forall tx: Name ::
      match Latest(log, tx)
      case None => tx !in entries
      case Some(at) => at <= clock && if tx in entries then entries[tx] == at else clock - at >= TTL_MS
  }

  lemma LookupAgrees(entries: map<Name, int>, log: seq<Entry>, clock: int, tx: Name, now: int)
    requires Agrees(entries, log, clock) && clock <= now
    ensures Lookup(entries, tx, now) <==> LogLookup(log, tx, now)
  {
    var latest := Latest(log, tx);
  }

  /** Recording keeps the agreement, cleanup or not. */
  lemma PutAgrees(entries: map<Name, int>, log: seq<Entry>, clock: int, tx: Name, now: int, sweep: Sweep, end: int)
    requires Agrees(entries, log, clock) && clock <= now <= end
    requires forall k :: now <= sweep(k) <= end
    ensures Agrees(Put(entries, tx, now, sweep), log + [Entry(tx, now)], end)
  {
    var log' := log + [Entry(tx, now)];
    assert log'[..|log|] == log;
    forall k: Name
      ensures match Latest(log', k)
              case None => k !in Put(entries, tx, now, sweep)
              case Some(at) =>
                at <= end
                && if k in Put(entries, tx, now, sweep)
                   then Put(entries, tx, now, sweep)[k] == at
                   else end - at >= TTL_MS
    {
      assert Latest(log', k) == if k == tx then Some(now) else Latest(log, k);
      assert match Latest(log, k)
             case None => k !in entries
             case Some(at) => at <= clock && if k in entries then entries[k] == at else clock - at >= TTL_MS;
    }
  }

  class DedupCache {
    var entries: map<Name, int>
    ghost var log: seq<Entry>
    ghost var clock: int

    ghost predicate Valid()
      reads this
    {
      Agrees(entries, log, clock)
    }

    constructor (ghost now: int)
      ensures Valid() && log == [] && clock == now
    {
      entries, log, clock := map[], [], now;
    }

    method IsDuplicate(tx: Name, now: int) returns (dup: bool)
      requires Valid() && clock <= now
      ensures dup <==> LogLookup(log, tx, now)
    {
      LookupAgrees(entries, log, clock, tx, now);
      if tx in entries {
        dup := now - entries[tx] < TTL_MS;
      } else {
        dup := false;
      }
    }

    method Record(tx: Name, now: int, sweep: Sweep, ghost end: int)
      requires Valid() && clock <= now <= end
      requires forall k :: now <= sweep(k) <= end
      modifies this
      ensures Valid() && log == old(log) + [Entry(tx, now)] && clock == end
      ensures entries == Put(old(entries), tx, now, sweep)
    {
      PutAgrees(entries, log, clock, tx, now, sweep, end);
      entries := entries[tx := now];
      if |entries| > CLEANUP_SIZE {
        entries := map k | k in entries && sweep(k) - entries[k] < TTL_MS :: entries[k];
      }
      log, clock := log + [Entry(tx, now)], end;
    }
  }

  // ------------------------------------------------------------------ whole runs

  datatype Op = Query(tx: Name, at: int) | Store(tx: Name, at: int, sweep: Sweep, end: int)

  /** The operations in clock order, from `clock` on. */
  ghost predicate InClockOrder(clock: int, ops: seq<Op>)
    decreases ops
  {
    ops == [] ||
    match ops[0]
    case Query(_, at) => clock <= at && InClockOrder(at, ops[1..])
    case Store(_, at, sweep, end) =>
      clock <= at <= end && (forall k :: at <= sweep(k) <= end) && InClockOrder(end, ops[1..])
  }

  function CacheAnswers(entries: map<Name, int>, ops: seq<Op>): seq<bool>
    decreases ops
  {
    if ops == [] then []
    else
      match ops[0]
      case Query(tx, at) => [Lookup(entries, tx, at)] + CacheAnswers(entries, ops[1..])
      case Store(tx, at, sweep, _) => CacheAnswers(Put(entries, tx, at, sweep), ops[1..])
  }

  function LogAnswers(log: seq<Entry>, ops: seq<Op>): seq<bool>
    decreases ops
  {
    if ops == [] then []
    else
      match ops[0]
      case Query(tx, at) => [LogLookup(log, tx, at)] + LogAnswers(log, ops[1..])
      case Store(tx, at, _, _) => LogAnswers(log + [Entry(tx, at)], ops[1..])
  }

  /** Eviction is invisible: over every run, every query is answered as by the full log. */
  lemma {:induction false} CacheRefinesLog(entries: map<Name, int>, log: seq<Entry>, clock: int, ops: seq<Op>)
    requires Agrees(entries, log, clock) && InClockOrder(clock, ops)
    ensures CacheAnswers(entries, ops) == LogAnswers(log, ops)
    decreases ops
  {
    if ops != [] {
      match ops[0] {
        case Query(tx, at) =>
          LookupAgrees(entries, log, clock, tx, at);
          assert Agrees(entries, log, at) by { LaterClock(entries, log, clock, at); }
          CacheRefinesLog(entries, log, at, ops[1..]);
        case Store(tx, at, sweep, end) =>
          PutAgrees(entries, log, clock, tx, at, sweep, end);
          CacheRefinesLog(Put(entries, tx, at, sweep), log + [Entry(tx, at)], end, ops[1..]);
      }
    }
  }

  lemma LaterClock(entries: map<Name, int>, log: seq<Entry>, clock: int, later: int)
    requires Agrees(entries, log, clock) && clock <= later
    ensures Agrees(entries, log, later)
  {
    forall tx: Name
      ensures match Latest(log, tx)
              case None => tx !in entries
              case Some(at) => at <= later && if tx in entries then entries[tx] == at else later - at >= TTL_MS
    {
      assert match Latest(log, tx)
             case None => tx !in entries
             case Some(at) => at <= clock && if tx in entries then entries[tx] == at else clock - at >= TTL_MS;
    }
  }
}

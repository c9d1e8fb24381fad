/** The leader-following router (src/multi_region.rs): a cooldown and confidence state machine
    over a serial stream of leader hints. */
module Router {
  import opened Prelude
  import opened Types
  import QuicStreams

  datatype Config = Config(minConfidence: nat, cooldownMs: nat)

  datatype Route = Route(current: Option<Recommendation>, lastSwitch: Option<int>)

  const NO_ROUTE: Route := Route(None, None)

  /** A hint with the two clock readings made for it: at the cooldown test, and at the switch. */
  datatype Arrival = Arrival(hint: LeaderHint, checkAt: int, installAt: int)

  /** The u64 arithmetic of `valid_for_ms` wraps in a release build. */
  function Recommend(h: LeaderHint): Recommendation {
    Recommendation(h.preferredRegion, h.leaderPubkey, h.slot, h.confidence, Some(h.tpuRttMs), h.backupRegions,
                   Sequential, (h.expiresAtSlot - h.slot) % U64_MODULUS * 400 % U64_MODULUS)
  }

  predicate Accepts(cfg: Config, s: Route, a: Arrival) {
    && a.hint.confidence >= cfg.minConfidence
    && (s.lastSwitch.Some? ==> a.checkAt - s.lastSwitch.value >= cfg.cooldownMs)
  }

  predicate Switches(s: Route, a: Arrival) {
    s.current.Some? ==> s.current.value.bestRegion != a.hint.preferredRegion
  }

  function Step(cfg: Config, s: Route, a: Arrival): Route {
    if !Accepts(cfg, s, a) then s
    else Route(Some(Recommend(a.hint)), if Switches(s, a) then Some(a.installAt) else s.lastSwitch)
  }

  function Run(cfg: Config, s: Route, hints: seq<Arrival>): Route {
    if hints == [] then s else Step(cfg, Run(cfg, s, hints[..|hints| - 1]), hints[|hints| - 1])
  }

  /** Everything installed by the run, in order. */
  function Installed(cfg: Config, s: Route, hints: seq<Arrival>): seq<Recommendation> {
    if hints == [] then []
    else
      var a, before := hints[|hints| - 1], hints[..|hints| - 1];
      Installed(cfg, s, before) + (if Accepts(cfg, Run(cfg, s, before), a) then [Recommend(a.hint)] else [])
  }

  class RoutingState {
    const cfg: Config
    var current: Option<Recommendation>
    var lastSwitch: Option<int>
    /** What was sent on the broadcast channel. */
    ghost var sent: seq<Recommendation>

    ghost function Abstract(): Route
      reads this
    {
      Route(current, lastSwitch)
    }

    constructor (cfg: Config)
      ensures this.cfg == cfg && Abstract() == NO_ROUTE && sent == []
    {
      this.cfg := cfg;
      current, lastSwitch, sent := None, None, [];
    }

    method UpdateFromHint(a: Arrival)
      modifies this
      ensures Abstract() == Step(cfg, old(Abstract()), a)
      ensures sent == old(sent) + (if Accepts(cfg, old(Abstract()), a) then [Recommend(a.hint)] else [])
    {
      if a.hint.confidence < cfg.minConfidence {
        return;
      }
      if lastSwitch.Some? {
        if a.checkAt - lastSwitch.value < cfg.cooldownMs {
          return;
        }
      }
      var recommendation := Recommend(a.hint);
      var shouldSwitch := if current.Some? then current.value.bestRegion != recommendation.bestRegion else true;
      if shouldSwitch {
        lastSwitch := Some(a.installAt);
      }
      current := Some(recommendation);
      sent := sent + [recommendation];
    }

    /** The spawned listener repeats that logic inline for every hint of the stream. */
    method Listen(hints: seq<Arrival>)
      modifies this
      ensures Abstract() == Run(cfg, old(Abstract()), hints)
      ensures sent == old(sent) + Installed(cfg, old(Abstract()), hints)
    {
      ghost var start := Abstract();
      var i := 0;
      assert hints[..0] == [];
      while i < |hints|
        invariant i <= |hints|
        invariant Abstract() == Run(cfg, start, hints[..i])
        invariant sent == old(sent) + Installed(cfg, start, hints[..i])
      {
        var a := hints[i];
        assert hints[..i + 1][..i] == hints[..i];
        i := i + 1;
        if a.hint.confidence < cfg.minConfidence {
          continue;
        }
        if lastSwitch.Some? {
          if a.checkAt - lastSwitch.value < cfg.cooldownMs {
            continue;
          }
        }
        var recommendation := Recommend(a.hint);
        var shouldSwitch := if current.Some? then current.value.bestRegion != recommendation.bestRegion else true;
        if shouldSwitch {
          lastSwitch := Some(a.installAt);
        }
        current := Some(recommendation);
        sent := sent + [recommendation];
      }
      assert hints[..|hints|] == hints;
    }
  }

  // ------------------------------------------------------------------ safety over runs

  predicate Timely(hints: seq<Arrival>) {
    && (forall i :: 0 <= i < |hints| ==> hints[i].checkAt <= hints[i].installAt)
    && (forall i, j :: 0 <= i < j < |hints| ==> hints[i].installAt <= hints[j].checkAt)
  }

  /** The times at which the run switched regions. */
  function SwitchTimes(cfg: Config, hints: seq<Arrival>): seq<int> {
    if hints == [] then []
    else
      var a, before := hints[|hints| - 1], hints[..|hints| - 1];
      var s := Run(cfg, NO_ROUTE, before);
      SwitchTimes(cfg, before) + (if Accepts(cfg, s, a) && Switches(s, a) then [a.installAt] else [])
  }

  /** The changes of region seen in a sequence of installed routes; the first one counts. */
  function RegionChanges(routes: seq<Recommendation>): nat {
    if routes == [] then 0
    else
      var n := |routes| - 1;
      RegionChanges(routes[..n]) + (if n > 0 && routes[n - 1].bestRegion == routes[n].bestRegion then 0 else 1)
  }

  lemma RegionChangesSnoc(routes: seq<Recommendation>, next: Recommendation)
    ensures RegionChanges(routes + [next]) ==
            RegionChanges(routes) + if routes != [] && routes[|routes| - 1].bestRegion == next.bestRegion then 0 else 1
  {
    assert (routes + [next])[..|routes|] == routes;
  }

  /** A route exists iff a switch time does, the route is the last one sent and its time the last
      switch, every installed route meets the threshold and falls back sequentially, and the switch
      times mark exactly the region changes of what was sent. */
  predicate Coherent(cfg: Config, s: Route, sent: seq<Recommendation>, times: seq<int>) {
    && (s.current.Some? <==> s.lastSwitch.Some?)
    && (s.current == if sent == [] then None else Some(sent[|sent| - 1]))
    && (s.lastSwitch == if times == [] then None else Some(times[|times| - 1]))
    && (forall i :: 0 <= i < |sent| ==>
          sent[i].confidence >= cfg.minConfidence && sent[i].fallbackStrategy == Sequential)
    && |times| == RegionChanges(sent)
  }

  lemma StepKeepsCoherence(cfg: Config, s: Route, a: Arrival, sent: seq<Recommendation>, times: seq<int>)
    requires Coherent(cfg, s, sent, times)
    ensures Coherent(cfg, Step(cfg, s, a), sent + (if Accepts(cfg, s, a) then [Recommend(a.hint)] else []),
                     times + (if Accepts(cfg, s, a) && Switches(s, a) then [a.installAt] else []))
  {
    hide Recommend, RegionChanges;
    RecommendKeeps(a.hint);
    RegionChangesSnoc(sent, Recommend(a.hint));
    assert sent + [] == sent && times + [] == times;
  }

  lemma {:induction false} RouteInvariant(cfg: Config, hints: seq<Arrival>)
    ensures Coherent(cfg, Run(cfg, NO_ROUTE, hints), Installed(cfg, NO_ROUTE, hints), SwitchTimes(cfg, hints))
  {
    hide Coherent, Step, Accepts, Switches;
    if hints == [] {
      NothingInstalled(cfg);
    } else {
      var before, a := hints[..|hints| - 1], hints[|hints| - 1];
      RouteInvariant(cfg, before);
      StepKeepsCoherence(cfg, Run(cfg, NO_ROUTE, before), a, Installed(cfg, NO_ROUTE, before),
                         SwitchTimes(cfg, before));
    }
  }

  lemma NothingInstalled(cfg: Config)
    ensures Coherent(cfg, NO_ROUTE, [], [])
  {
  }

  lemma RecommendKeeps(h: LeaderHint)
    ensures var r := Recommend(h);
            r.bestRegion == h.preferredRegion && r.confidence == h.confidence && r.fallbackStrategy == Sequential
  {
  }

  /** A hint takes effect iff it meets the threshold outside the cooldown, and then the route is what
      the hint says; the time of the switch moves only with the region. */
  lemma HintTakesEffectIff(cfg: Config, start: Route, hints: seq<Arrival>, a: Arrival)
    ensures var s, s', h := Run(cfg, start, hints), Run(cfg, start, hints + [a]), a.hint;
            var sent, sent' := Installed(cfg, start, hints), Installed(cfg, start, hints + [a]);
            if h.confidence >= cfg.minConfidence
               && (s.lastSwitch.None? || a.checkAt >= s.lastSwitch.value + cfg.cooldownMs)
            then
              && s'.current.Some? && sent' == sent + [s'.current.value]
              && var r := s'.current.value;
                 && r.bestRegion == h.preferredRegion && r.fallbackRegions == h.backupRegions
                 && r.slot == h.slot && r.leaderPubkey == h.leaderPubkey && r.confidence == h.confidence
                 && r.expectedRttMs == Some(h.tpuRttMs) && r.fallbackStrategy == Sequential
                 && (h.slot <= h.expiresAtSlot && (h.expiresAtSlot - h.slot) * 400 < U64_MODULUS ==>
                       r.validForMs == (h.expiresAtSlot - h.slot) * 400)
                 && s'.lastSwitch == if s.current.Some? && s.current.value.bestRegion == h.preferredRegion
                                     then s.lastSwitch else Some(a.installAt)
            else s' == s && sent' == sent
  {
    assert (hints + [a])[..|hints|] == hints;
    var d := a.hint.expiresAtSlot - a.hint.slot;
    if 0 <= d && d * 400 < U64_MODULUS { assert d % U64_MODULUS == d; }
  }

  predicate Spaced(times: seq<int>, gap: nat) {
    forall i, j :: 0 <= i <= j < |times| ==> times[j] - times[i] >= (j - i) * gap
  }

  lemma SpacedSnoc(times: seq<int>, gap: nat, t: int)
    requires Spaced(times, gap) && (times != [] ==> t - times[|times| - 1] >= gap)
    ensures Spaced(times + [t], gap)
  {
    var n := |times|;
    forall i | 0 <= i < n ensures t - times[i] >= (n - i) * gap {
      assert times[n - 1] - times[i] >= (n - 1 - i) * gap;
      assert (n - i) * gap == (n - 1 - i) * gap + gap;
    }
  }

  /** Region switches are at least the cooldown apart, each from each. */
  lemma {:induction false} SwitchesAreSpaced(cfg: Config, hints: seq<Arrival>)
    requires Timely(hints)
    ensures Spaced(SwitchTimes(cfg, hints), cfg.cooldownMs)
  {
    hide Spaced, Switches;
    if hints == [] {
      NoTimesSpaced(cfg.cooldownMs);
    } else {
      var before, a := hints[..|hints| - 1], hints[|hints| - 1];
      SwitchesAreSpaced(cfg, before);
      RouteInvariant(cfg, before);
      var s, times := Run(cfg, NO_ROUTE, before), SwitchTimes(cfg, before);
      if Accepts(cfg, s, a) && Switches(s, a) {
        SpacedSnoc(times, cfg.cooldownMs, a.installAt);
      } else {
        assert times + [] == times;
      }
    }
  }

  lemma NoTimesSpaced(gap: nat)
    ensures Spaced([], gap)
  {
  }

  /** So in any window of `span` ms there are at most span / cooldown + 1 switches. */
  lemma SwitchRateBound(cfg: Config, hints: seq<Arrival>, i: nat, j: nat, span: nat)
    requires Timely(hints) && cfg.cooldownMs > 0
    requires i <= j < |SwitchTimes(cfg, hints)|
    requires SwitchTimes(cfg, hints)[j] - SwitchTimes(cfg, hints)[i] <= span
    ensures j - i + 1 <= span / cfg.cooldownMs + 1
  {
    hide SwitchTimes, Timely;
    SwitchesAreSpaced(cfg, hints);
    DivideBound(j - i, cfg.cooldownMs, span);
  }

  lemma DivideBound(n: nat, c: nat, span: nat)
    requires c > 0 && n * c <= span
    ensures n <= span / c
  {
    if n >= span / c + 1 {
      TimesMonotone(span / c + 1, n, c);
      assert false;
    }
  }

  lemma TimesMonotone(a: nat, b: nat, c: nat)
    requires a <= b
    ensures a * c <= b * c
  {
  }

  /** During a cooldown the route is frozen: no hint checked before it ends has any effect,
      not even one for the region already chosen. */
  lemma {:induction false} FrozenDuringCooldown(cfg: Config, s: Route, hints: seq<Arrival>)
    requires s.lastSwitch.Some?
    requires forall i :: 0 <= i < |hints| ==> hints[i].checkAt < s.lastSwitch.value + cfg.cooldownMs
    ensures Run(cfg, s, hints) == s && Installed(cfg, s, hints) == []
  {
    if hints != [] {
      FrozenDuringCooldown(cfg, s, hints[..|hints| - 1]);
    }
  }

  /** `valid_for_ms` is 400 ms per slot exactly when the hint does not expire before its slot and
      the product fits; every hint the QUIC decoder yields is of that kind. */
  lemma ValidForIsExact(h: LeaderHint)
    requires h.slot < U64_MODULUS && h.expiresAtSlot < U64_MODULUS
    ensures Recommend(h).validForMs == (h.expiresAtSlot - h.slot) * 400 <==>
            h.slot <= h.expiresAtSlot && (h.expiresAtSlot - h.slot) * 400 < U64_MODULUS
  {
    var d := h.expiresAtSlot - h.slot;
    if d >= 0 {
      assert d % U64_MODULUS == d;
    }
  }

  lemma QuicHintsAreValidExactly(data: seq<byte>)
    requires QuicStreams.DecodeStream(LeaderHints, data).Some?
    ensures var h := QuicStreams.DecodeStream(LeaderHints, data).value.hint;
            Recommend(h).validForMs == (h.expiresAtSlot - h.slot) * 400
  {
    QuicStreams.DecodedHintExpiry(data);
    ValidForIsExact(QuicStreams.DecodeStream(LeaderHints, data).value.hint);
  }
}

// How often a room broadcasts, despite the truncated ratio of the two rates.

module Cadence {
  import opened Common
  import opened Arithmetic
  import opened RoomModel

  /** Broadcasts in the n ticks from `from` on; the counter wraps from 2^32 - 1 to 0. */
  ghost function BroadcastsIn(cfg: RoomConfig, from: nat, n: nat): nat
    decreases n
  {
    if n == 0 then 0 else (if IsBroadcastTick(cfg, from) then 1 else 0) + BroadcastsIn(cfg, Succ32(from), n - 1)
  }

  /** Multiples of r below x. */
  ghost function MultiplesBelow(r: nat, x: nat): int
    requires r > 0
  {
    (x + r - 1) / r
  }

  lemma NextMultiple(r: nat, x: nat)
    requires r > 0
    ensures MultiplesBelow(r, x + 1) == MultiplesBelow(r, x) + if x % r == 0 then 1 else 0
  {
    var q, m := x / r, x % r;
    assert x == q * r + m;
    if m == 0 {
      QuotientIs(x + r - 1, r, q, r - 1);
      QuotientIs(x + r, r, q + 1, 0);
    } else {
      QuotientIs(x + r - 1, r, q + 1, m - 1);
      QuotientIs(x + r, r, q + 1, m);
    }
  }

  lemma QuotientIs(x: int, r: nat, q: int, m: nat)
    requires r > 0 && m < r && x == q * r + m
    ensures x / r == q
  {
    var d := x / r - q;
    assert d * r == m - x % r;
    SmallMultiple(d, r);
  }

  lemma {:induction false} CountIsDifference(cfg: RoomConfig, r: nat, from: nat, n: nat)
    requires r > 0 && forall t: nat :: IsBroadcastTick(cfg, t) <==> t % r == 0
    requires from + n <= UINT32
    ensures BroadcastsIn(cfg, from, n) == MultiplesBelow(r, from + n) - MultiplesBelow(r, from)
    decreases n
  {
    hide IsBroadcastTick, MultiplesBelow;
    if n > 1 {
      CountIsDifference(cfg, r, from + 1, n - 1);
    }
    if n > 0 {
      NextMultiple(r, from);
    }
  }

  // A window that wraps is counted up to the wrap and again from zero.
  lemma {:induction false} CountSplits(cfg: RoomConfig, from: nat, before: nat, after: nat)
    requires from + before == UINT32 && before > 0
    ensures BroadcastsIn(cfg, from, before + after) == BroadcastsIn(cfg, from, before) + BroadcastsIn(cfg, 0, after)
    decreases before
  {
    hide IsBroadcastTick;
    if before > 1 {
      CountSplits(cfg, from + 1, before - 1, after);
    } else {
      assert Succ32(from) == 0;
    }
  }

  lemma ShiftedQuotient(x: int, r: nat, k: int)
    requires r > 0
    ensures (x + k * r) / r == x / r + k
  {
    var q, m := x / r, x % r;
    assert x + k * r == (q + k) * r + m;
    QuotientIs(x + k * r, r, q + k, m);
  }

  lemma QuotientMonotone(x: int, y: int, r: nat)
    requires r > 0 && x <= y
    ensures x / r <= y / r
  {
    var d := x / r - y / r;
    assert d * r == (x - x % r) - (y - y % r);
    assert d >= 1 ==> (d - 1) * r >= 0;
  }

  lemma RatioFacts(t: nat, b: nat, r: nat)
    requires 1 <= b <= t && r == t / b
    ensures r > 0 && b * r <= t <= (2 * b - 1) * r
  {
    var rest := t % b;
    assert t == b * r + rest;
    assert r > 0 by {
      QuotientMonotone(b, t, b);
      QuotientIs(b, b, 1, 0);
    }
    SlackFits(b, r);
  }

  lemma SlackFits(b: nat, r: nat)
    requires b > 0 && r > 0
    ensures b * r + b - 1 <= (2 * b - 1) * r
  {
    var extra := (b - 1) * (r - 1);
    NonNegativeProduct(b - 1, r - 1);
    assert (2 * b - 1) * r == b * r + (b - 1) + extra;
  }

  // T ticks hold at least b and at most 2b - 1 multiples of T / b.
  lemma WindowBounds(t: nat, b: nat, r: nat, from: nat)
    requires b > 0 && r > 0 && b * r <= t <= (2 * b - 1) * r
    ensures b <= MultiplesBelow(r, from + t) - MultiplesBelow(r, from) <= 2 * b - 1
  {
    var x, low, high := from + r - 1, b * r, (2 * b - 1) * r;
    ShiftedQuotient(x, r, b);
    ShiftedQuotient(x, r, 2 * b - 1);
    QuotientMonotone(x + low, x + t, r);
    QuotientMonotone(x + t, x + high, r);
  }

  // Rounding up twice instead of once loses nothing and gains at most one.
  lemma CeilingsAdd(r: nat, x: nat, y: nat)
    requires r > 0
    ensures (x + y) / r <= x / r + MultiplesBelow(r, y)
    ensures MultiplesBelow(r, x) + MultiplesBelow(r, y) <= MultiplesBelow(r, x + y) + 1
  {
    var up := MultiplesBelow(r, y);
    assert up * r == y + r - 1 - (y + r - 1) % r;
    QuotientMonotone(x + y, x + up * r, r);
    ShiftedQuotient(x, r, up);
    FloorUnderCeilings(r, x, y);
    CeilingOf(r, y);
  }

  lemma CeilingOf(r: nat, x: nat)
    requires r > 0
    ensures MultiplesBelow(r, x) == x / r + if x % r == 0 then 0 else 1
  {
    var q, m := x / r, x % r;
    assert x == q * r + m;
    if m == 0 {
      QuotientIs(x + r - 1, r, q, r - 1);
    } else {
      assert (q + 1) * r == q * r + r;
      QuotientIs(x + r - 1, r, q + 1, m - 1);
    }
  }

  lemma QuotientAtLeastWhen(x: int, r: nat, q: int)
    requires r > 0 && q * r <= x
    ensures q <= x / r
  {
    QuotientMonotone(q * r, x, r);
    QuotientIs(q * r, r, q, 0);
  }

  // T ticks across the wrap: `before` of them up to it, `after` from zero on.
  lemma WrappedWindowBounds(t: nat, b: nat, r: nat, before: nat, after: nat)
    requires b > 0 && r > 0 && b * r <= t <= b * r + b - 1 && before + after == t && before <= UINT32
    ensures var n := MultiplesBelow(r, UINT32) - MultiplesBelow(r, UINT32 - before) + MultiplesBelow(r, after);
      b <= n <= 2 * b && (b > 1 ==> n < 2 * b)
  {
    var sum := MultiplesBelow(r, before) + MultiplesBelow(r, after);
    CeilingsAdd(r, before, after);
    FloorUnderCeilings(r, UINT32 - before, before);
    QuotientAtLeastWhen(t, r, b);
    CeilingSum(r, before, after, sum, 2 * b);
    CeilingSum(r, before, after, sum, 3);
    hide MultiplesBelow;
    if b > 1 {
      TooFewTicks(t, b, r);
    }
  }

  // 2b broadcasts need more ticks than there are, unless b is 1.
  lemma TooFewTicks(t: nat, b: nat, r: nat)
    requires b > 1 && r > 0 && t <= b * r + b - 1
    ensures t + 2 * r - 2 < 2 * b * r
  {
    NonNegativeProduct(b - 2, r - 1);
    assert (b - 2) * (r - 1) == b * r - b - 2 * r + 2;
  }

  lemma CeilingTimes(r: nat, x: nat)
    requires r > 0
    ensures MultiplesBelow(r, x) * r <= x + r - 1
  {
    assert MultiplesBelow(r, x) * r == x + r - 1 - (x + r - 1) % r;
  }

  // Two ceilings reach `goal` only if their parts are long enough.
  lemma CeilingSum(r: nat, x: nat, y: nat, sum: int, goal: nat)
    requires r > 0 && sum == MultiplesBelow(r, x) + MultiplesBelow(r, y)
    ensures sum >= goal ==> goal * r <= x + y + 2 * r - 2
  {
    CeilingTimes(r, x);
    CeilingTimes(r, y);
    assert sum * r == MultiplesBelow(r, x) * r + MultiplesBelow(r, y) * r;
    if sum >= goal {
      NonNegativeProduct(sum - goal, r);
      assert (sum - goal) * r == sum * r - goal * r;
    }
  }

  // Between x and x + n lie at least n / r multiples, and at most that rounded up.
  lemma FloorUnderCeilings(r: nat, x: nat, n: nat)
    requires r > 0
    ensures n / r <= MultiplesBelow(r, x + n) - MultiplesBelow(r, x) <= MultiplesBelow(r, n)
  {
    var q, m := n / r, n % r;
    assert n == q * r + m;
    ShiftedQuotient(x + r - 1, r, q);
    QuotientMonotone(x + r - 1 + q * r, x + r - 1 + n, r);
    CeilingOf(r, n);
    if m != 0 {
      ShiftedQuotient(x + r - 1, r, q + 1);
      assert (q + 1) * r == q * r + r;
      QuotientMonotone(x + r - 1 + n, x + r - 1 + (q + 1) * r, r);
    }
  }

  // With one broadcast per window of t ticks: the window across the wrap holds tick 0, and a second
  // broadcast if the last multiple of t before the wrap is in it.
  lemma SingleAcrossWrap(t: nat, from: nat)
    requires 0 < t < UINT32 && from < UINT32 < from + t
    ensures MultiplesBelow(t, from + t - UINT32) == 1
    ensures MultiplesBelow(t, UINT32) - MultiplesBelow(t, from) >= 1 <==> UINT32 - from > (UINT32 - 1) % t
  {
    var after := from + t - UINT32;
    QuotientIs(after + t - 1, t, 1, after - 1);
    var k, m := (UINT32 - 1) / t, (UINT32 - 1) % t;
    assert UINT32 - 1 == k * t + m;
    ShiftedQuotient(UINT32 - 1, t, 1);
    ShiftedQuotient(from - 1, t, 1);
    assert MultiplesBelow(t, UINT32) == k + 1 && MultiplesBelow(t, from) == (from - 1) / t + 1;
    if UINT32 - from > m {
      assert k * t > from - 1;
      QuotientBelow(from - 1, t, k);
    } else {
      QuotientAtLeastWhen(from - 1, t, k);
      QuotientMonotone(from - 1, UINT32 - 1, t);
    }
  }

  lemma QuotientBelow(x: int, r: nat, q: int)
    requires r > 0 && x < q * r
    ensures x / r < q
  {
    assert x == x / r * r + x % r;
    CancelFactor(x / r, q, r);
  }

  lemma RestBound(t: nat, b: nat, r: nat)
    requires 1 <= b <= t && r == t / b
    ensures b * r <= t <= b * r + b - 1
  {
    assert t == b * r + t % b;
  }

  /** Any TickRateHz consecutive ticks, the counter wrapping at 2^32, hold at least BroadcastRateHz and at
      most twice BroadcastRateHz broadcasts, despite the truncating division. Twice is reached if and only if
      there is one broadcast a second and the window crosses the wrap, holding the last multiple of
      TickRateHz before it. */
  lemma BroadcastCadence(cfg: RoomConfig, from: nat)
    requires 1 <= cfg.broadcastRateHz <= cfg.tickRateHz < UINT32 && from < UINT32
    ensures var t, b := cfg.tickRateHz, cfg.broadcastRateHz;
      var n := BroadcastsIn(cfg, from, t);
      && b <= n <= 2 * b
      && (n == 2 * b <==> b == 1 && from + t > UINT32 && UINT32 - from > (UINT32 - 1) % t)
  {
    var t, b := cfg.tickRateHz, cfg.broadcastRateHz;
    var r := t / b;
    RatioFacts(t, b, r);
    RestBound(t, b, r);
    BroadcastTicksAreMultiples(cfg, r);
    WindowBounds(t, b, r, from);
    hide IsBroadcastTick, MultiplesBelow;
    if from + t <= UINT32 {
      CountIsDifference(cfg, r, from, t);
    } else {
      var before := UINT32 - from;
      var after := t - before;
      CountSplits(cfg, from, before, after);
      CountIsDifference(cfg, r, from, before);
      CountIsDifference(cfg, r, 0, after);
      NoneBelowZero(r);
      WrappedWindowBounds(t, b, r, before, after);
      if b == 1 {
        QuotientIs(t, 1, t, 0);
        SingleAcrossWrap(t, from);
      }
    }
  }

  lemma NoneBelowZero(r: nat)
    requires r > 0
    ensures MultiplesBelow(r, 0) == 0
  {
    QuotientIs(r - 1, r, 0, r - 1);
  }

  /** The wrap can add one broadcast: at 3 ticks and 1 broadcast a second, ticks 2^32 - 1 and 0 both broadcast. */
  lemma WrapAddsOne(cfg: RoomConfig)
    requires cfg.tickRateHz == 3 && cfg.broadcastRateHz == 1
    ensures BroadcastsIn(cfg, UINT32 - 1, 3) == 2
  {
    BroadcastCadence(cfg, UINT32 - 1);
  }

  // A whole number of periods holds exactly that many multiples, also across a wrap that is one.
  lemma WholePeriods(r: nat, b: nat, from: nat)
    requires r > 0 && from < UINT32 && b * r < UINT32
    ensures MultiplesBelow(r, from + b * r) - MultiplesBelow(r, from) == b
    ensures UINT32 % r == 0 && from + b * r > UINT32 ==>
      MultiplesBelow(r, UINT32) - MultiplesBelow(r, from) + MultiplesBelow(r, from + b * r - UINT32) == b
  {
    ShiftedQuotient(from + r - 1, r, b);
    if UINT32 % r == 0 && from + b * r > UINT32 {
      var k := UINT32 / r;
      assert UINT32 == k * r;
      CeilingOf(r, UINT32);
      ShiftedQuotient(from + b * r - UINT32 + r - 1, r, k);
    }
  }

  // Broadcasts on every r-th tick: b periods hold b of them.
  lemma PeriodsHold(cfg: RoomConfig, r: nat, b: nat, n: nat, from: nat)
    requires r > 0 && from < UINT32 && n == b * r < UINT32
    requires forall t: nat :: IsBroadcastTick(cfg, t) <==> t % r == 0
    requires from + n <= UINT32 || UINT32 % r == 0
    ensures BroadcastsIn(cfg, from, n) == b
  {
    hide IsBroadcastTick, MultiplesBelow, BroadcastsIn;
    WholePeriods(r, b, from);
    if from + n <= UINT32 {
      CountIsDifference(cfg, r, from, n);
    } else {
      CountSplits(cfg, from, UINT32 - from, from + n - UINT32);
      CountIsDifference(cfg, r, from, UINT32 - from);
      CountIsDifference(cfg, r, 0, from + n - UINT32);
      NoneBelowZero(r);
    }
  }

  lemma RatioExact(t: nat, b: nat, r: nat)
    requires 1 <= b <= t && t % b == 0 && r == t / b
    ensures r > 0 && t == b * r
  {
    RatioFacts(t, b, r);
    assert t == b * (t / b) + t % b;
  }

  /** When BroadcastRateHz divides TickRateHz, TickRateHz consecutive ticks hold exactly BroadcastRateHz
      broadcasts, also across the wrap if the ratio divides 2^32. */
  lemma ExactCadence(cfg: RoomConfig, from: nat)
    requires 1 <= cfg.broadcastRateHz <= cfg.tickRateHz < UINT32 && from < UINT32
    requires cfg.tickRateHz % cfg.broadcastRateHz == 0
    requires from + cfg.tickRateHz <= UINT32 || UINT32 % (cfg.tickRateHz / cfg.broadcastRateHz) == 0
    ensures BroadcastsIn(cfg, from, cfg.tickRateHz) == cfg.broadcastRateHz
  {
    var r := cfg.tickRateHz / cfg.broadcastRateHz;
    RatioExact(cfg.tickRateHz, cfg.broadcastRateHz, r);
    BroadcastTicksAreMultiples(cfg, r);
    hide IsBroadcastTick, BroadcastsIn;
    PeriodsHold(cfg, r, cfg.broadcastRateHz, cfg.tickRateHz, from);
  }

  /** A room built without rates runs at 20 ticks and broadcasts on every second one, 10 in any 20, wrap
      included. */
  lemma DefaultCadence(spec: RoomConfig, from: nat)
    requires spec.tickRateHz <= 0 && spec.broadcastRateHz <= 0 && from < UINT32
    ensures BroadcastsIn(Effective(spec), from, 20) == 10
    ensures forall t: nat :: IsBroadcastTick(Effective(spec), t) <==> t % 2 == 0
  {
    ExactCadence(Effective(spec), from);
    BroadcastTicksAreMultiples(Effective(spec), 2);
  }

  /** A room asked to broadcast at least as often as it ticks does so on every tick; one with a rate that is
      not positive never does. */
  lemma {:induction false} ExtremeCadence(cfg: RoomConfig, from: nat, n: nat)
    ensures cfg.broadcastRateHz >= cfg.tickRateHz > 0 ==> BroadcastsIn(cfg, from, n) == n
    ensures cfg.broadcastRateHz <= 0 || cfg.tickRateHz <= 0 ==> BroadcastsIn(cfg, from, n) == 0
    decreases n
  {
    if n > 0 {
      ExtremeCadence(cfg, Succ32(from), n - 1);
    }
  }

  lemma BroadcastTicksAreMultiples(cfg: RoomConfig, r: nat)
    requires 1 <= cfg.broadcastRateHz <= cfg.tickRateHz < UINT32 && r > 0 && r == cfg.tickRateHz / cfg.broadcastRateHz
    ensures forall t: nat :: IsBroadcastTick(cfg, t) <==> t % r == 0
  {
    RatioInRange(cfg.tickRateHz, cfg.broadcastRateHz);
    if cfg.broadcastRateHz == cfg.tickRateHz {
      QuotientIs(cfg.tickRateHz, cfg.tickRateHz, 1, 0);
    }
  }

  lemma RatioInRange(t: nat, b: nat)
    requires 1 <= b <= t < UINT32
    ensures (t / b) % UINT32 == t / b
  {
    QuotientAtMost(t, b);
    Unwrapped(t / b);
  }

  lemma QuotientAtMost(t: nat, b: nat)
    requires 1 <= b
    ensures 0 <= t / b <= t
  {
    QuotientMonotone(0, t, b);
    QuotientMonotone(t, t * b, b) by { assert t * (b - 1) >= 0; }
    ShiftedQuotient(0, b, t);
  }

  lemma Unwrapped(q: nat)
    requires q < UINT32
    ensures q % UINT32 == q
  {
  }
}

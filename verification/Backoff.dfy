/** The probe backoff of internal/proxy/grafana_monitor.go:149-183 and 202-211.
    Durations are integer nanoseconds. */
module Backoff {
  import opened Common

  /** Up to this number float64 represents every integer. */
  const EXACT_LIMIT: nat := 0x20_0000_0000_0000

  /** By how many bits a number is too long for the 53 bits of a float64. */
  function ExcessBits(n: nat): nat {
    if n < EXACT_LIMIT then 0 else 1 + ExcessBits(n / 2)
  }

  function Pow2(k: nat): (p: nat)
    ensures p > 0
  {
    if k == 0 then 1 else 2 * Pow2(k - 1)
  }

  /** The float64 nearest to an integer; of two equally near ones the even one. */
  function Float64(n: nat): nat {
    var unit := Pow2(ExcessBits(n));
    var q, r := n / unit, n % unit;
    if 2 * r > unit || (2 * r == unit && q % 2 == 1) then (q + 1) * unit else q * unit
  }

  lemma Float64Exact(n: nat)
    requires n <= EXACT_LIMIT
    ensures Float64(n) == n
  {
    if n == EXACT_LIMIT {
      assert ExcessBits(n) == 1;
      assert Pow2(1) == 2;
    } else {
      assert Pow2(0) == 1;
    }
  }

  /** `Float64(n)` is a multiple of a power of two of which `n` holds less than
      2^53, and no other multiple is nearer to `n`. */
  lemma Float64Nearest(n: nat, k: nat) returns (unit: nat, q: nat)
    ensures unit == Pow2(ExcessBits(n)) && n < EXACT_LIMIT * unit && Float64(n) == q * unit
    ensures Apart(Float64(n), n) <= Apart(k * unit, n)
  {
    unit := Pow2(ExcessBits(n));
    SignificantBits(n);
    var low, r := n / unit, n % unit;
    q := if 2 * r > unit || (2 * r == unit && low % 2 == 1) then low + 1 else low;
    DivMod(n, unit);
    NearestMultiple(n, unit, low, r, k);
  }

  lemma NearestMultiple(n: nat, unit: nat, low: nat, r: nat, k: nat)
    requires n == low * unit + r && r < unit
    ensures 2 * r >= unit ==> Apart((low + 1) * unit, n) <= Apart(k * unit, n)
    ensures 2 * r <= unit ==> Apart(low * unit, n) <= Apart(k * unit, n)
  {
    Next(low, unit);
    if k <= low {
      Monotone(k, low, unit);
    } else {
      Monotone(low + 1, k, unit);
    }
  }

  function Apart(a: int, b: int): int {
    if a <= b then b - a else a - b
  }

  lemma Next(q: nat, m: nat)
    ensures (q + 1) * m == q * m + m
  {
  }

  lemma DivMod(n: nat, m: nat)
    requires m > 0
    ensures n == n / m * m + n % m
  {
  }

  lemma {:induction false} Monotone(a: nat, b: nat, m: nat)
    requires a <= b
    ensures a * m <= b * m
  {
    if a < b {
      Monotone(a, b - 1, m);
      Next(b - 1, m);
    }
  }

  lemma {:induction false} SignificantBits(n: nat)
    ensures n < EXACT_LIMIT * Pow2(ExcessBits(n))
  {
    if n >= EXACT_LIMIT {
      SignificantBits(n / 2);
    } else {
      assert Pow2(0) == 1;
    }
  }

  /** The capped interval before jitter; doubling a float64 is exact. */
  function Capped(current: nat, max: nat): nat {
    var next := 2 * Float64(current);
    if next > max then max else next
  }

  /** `wait` is a possible result of nextInterval(current). */
  predicate IsNext(current: nat, max: nat, wait: nat) {
    var next := Capped(current, max);
    next <= wait < next + next / 2
  }

  /** The random generator panics unless its argument is positive. */
  predicate DrawIsLegal(current: nat, max: nat) {
    0 < Capped(current, max) / 2
  }

  /** `draw` is what the random generator returns for half the capped interval. */
  method NextInterval(current: nat, max: nat, draw: nat) returns (wait: nat)
    requires draw < Capped(current, max) / 2
    ensures IsNext(current, max, wait)
    ensures current <= EXACT_LIMIT ==> wait == (if 2 * current < max then 2 * current else max) + draw
  {
    Float64IsExact(current);
    var next := 2 * Float64(current);
    if next > max {
      next := max;
    }
    var jitter := draw;
    wait := next + jitter;
  }

  lemma Float64IsExact(n: nat)
    ensures n <= EXACT_LIMIT ==> Float64(n) == n
  {
    if n <= EXACT_LIMIT {
      Float64Exact(n);
    }
  }

  /** The possible waits are the capped double of the interval and up to half of
      it more. */
  lemma NextRange(current: nat, max: nat, wait: nat)
    requires current <= EXACT_LIMIT
    ensures var next := if 2 * current < max then 2 * current else max;
      IsNext(current, max, wait) <==> next <= wait < next + next / 2
  {
    Float64Exact(current);
  }

  /** Intervals for which all products of the loop stay exact. */
  predicate Sane(base: nat, max: nat) {
    1 <= base <= EXACT_LIMIT && 2 <= max && 3 * max <= 2 * EXACT_LIMIT
  }

  /** `base` multiplied `n` times by `k`. */
  function Scaled(k: nat, n: nat, base: nat): nat {
    if n == 0 then base else k * Scaled(k, n - 1, base)
  }

  /** The wait after `n` consecutive failures lies between the capped power of
      two and both the power of three and one and a half times the cap. */
  predicate WaitBounds(base: nat, max: nat, n: nat, wait: nat) {
    && (wait >= Scaled(2, n, base) || wait >= max)
    && wait < Scaled(3, n, base)
    && 2 * wait < 3 * max
  }

  /** The interval that the probe loop holds after `n` consecutive failures. */
  predicate IntervalAfter(base: nat, max: nat, n: nat, interval: nat) {
    if n == 0 then interval == base else WaitBounds(base, max, n, interval)
  }

  lemma ScaledStep(n: nat, base: nat)
    ensures Scaled(2, n + 1, base) == 2 * Scaled(2, n, base)
    ensures Scaled(3, n + 1, base) == 3 * Scaled(3, n, base)
  {
  }

  /** One more failure: the draw is legal, the product exact, the bounds kept. */
  lemma NextKeepsBounds(base: nat, max: nat, n: nat, interval: nat, wait: nat)
    requires Sane(base, max) && IntervalAfter(base, max, n, interval)
    ensures interval <= EXACT_LIMIT && DrawIsLegal(interval, max)
    ensures IsNext(interval, max, wait) ==> WaitBounds(base, max, n + 1, wait)
  {
    ScaledStep(n, base);
    if n == 0 {
      Float64Exact(base);
    } else {
      BoundsArePositive(base, max, n, interval);
      Float64Exact(interval);
    }
  }

  lemma {:induction false} ScaledPositive(k: nat, n: nat, base: nat)
    requires base >= 1 && k >= 1
    ensures Scaled(k, n, base) >= 1
  {
    if n > 0 {
      ScaledPositive(k, n - 1, base);
    }
  }

  lemma BoundsArePositive(base: nat, max: nat, n: nat, interval: nat)
    requires Sane(base, max) && WaitBounds(base, max, n, interval)
    ensures 1 <= interval <= EXACT_LIMIT
  {
    ScaledPositive(2, n, base);
  }

  /** Successive waits of one probe loop. */
  ghost predicate WaitsFrom(base: nat, max: nat, waits: seq<nat>) {
    forall n | 0 <= n < |waits| :: WaitFollows(base, max, waits, n)
  }

  ghost predicate WaitFollows(base: nat, max: nat, waits: seq<nat>, n: nat)
    requires n < |waits|
  {
    IsNext(if n == 0 then base else waits[n - 1], max, waits[n])
  }

  lemma OneMoreWait(base: nat, max: nat, waits: seq<nat>, wait: nat)
    requires IsNext(if waits == [] then base else waits[|waits| - 1], max, wait)
    ensures WaitsFrom(base, max, waits) <==> WaitsFrom(base, max, waits + [wait])
  {
    var all := waits + [wait];
    forall n | 0 <= n < |waits| ensures WaitFollows(base, max, all, n) <==> WaitFollows(base, max, waits, n) {}
    assert WaitFollows(base, max, all, |waits|);
  }

  /** The part of probeLoop that runs while probes keep failing: the interval
      is updated in place and waited for once per failure. */
  method FailedProbes(base: nat, max: nat, failures: nat) returns (waits: seq<nat>)
    requires Sane(base, max)
    ensures |waits| == failures && WaitsFrom(base, max, waits)
    ensures forall n | 0 <= n < failures :: WaitBounds(base, max, n + 1, waits[n])
  {
    waits := [];
    var interval := base;
    while |waits| < failures
      invariant |waits| <= failures && WaitsFrom(base, max, waits)
      invariant interval == if waits == [] then base else waits[|waits| - 1]
      invariant IntervalAfter(base, max, |waits|, interval)
      invariant forall n | 0 <= n < |waits| :: WaitBounds(base, max, n + 1, waits[n])
    {
      NextKeepsBounds(base, max, |waits|, interval, 0);
      var random: nat := *;
      var next := NextInterval(interval, max, random % (Capped(interval, max) / 2));
      NextKeepsBounds(base, max, |waits|, interval, next);
      OneMoreWait(base, max, waits, next);
      interval := next;
      waits := waits + [interval];
    }
  }

  // --------------------------------------------------------- the default constants

  const BASE: nat := SECOND
  const MAX: nat := 10 * SECOND

  function Total(waits: seq<nat>): nat {
    if waits == [] then 0 else Total(waits[..|waits| - 1]) + waits[|waits| - 1]
  }

  /** With the default constants a probe loop that has failed `n >= 3` times has
      waited at least 14s + 10s * (n - 3) and less than 15s * n. */
  lemma {:induction false} DefaultTotal(waits: seq<nat>)
    requires WaitsFrom(1_000_000_000, 10_000_000_000, waits) && |waits| >= 3
    ensures 14_000_000_000 + 10_000_000_000 * (|waits| - 3) <= Total(waits) < 15_000_000_000 * |waits|
  {
    var n := |waits| - 1;
    var front := waits[..n];
    assert waits == front + [waits[n]] && WaitFollows(BASE, MAX, waits, n);
    OneMoreWait(BASE, MAX, front, waits[n]);
    WaitsAreBounded(waits, n);
    if n > 2 {
      DefaultTotal(front);
      AtLeastCap(n + 1);
    } else {
      WaitsAreBounded(waits, 0);
      WaitsAreBounded(waits, 1);
      assert front[..1][..0] == [] && waits[..2][..1] == waits[..1];
      assert Total(front) == Total(front[..1]) + front[1] && Total(front[..1]) == front[0];
      assert Scaled(2, 1, BASE) == 2 * SECOND;
      assert Scaled(2, 2, BASE) == 4 * SECOND;
      assert Scaled(2, 3, BASE) == 8 * SECOND;
    }
  }

  lemma {:induction false} WaitsAreBounded(waits: seq<nat>, n: nat)
    requires WaitsFrom(BASE, MAX, waits) && n < |waits|
    ensures WaitBounds(BASE, MAX, n + 1, waits[n])
  {
    assert WaitFollows(BASE, MAX, waits, n);
    if n > 0 {
      WaitsAreBounded(waits, n - 1);
      NextKeepsBounds(BASE, MAX, n, waits[n - 1], waits[n]);
    } else {
      NextKeepsBounds(BASE, MAX, 0, BASE, waits[0]);
    }
  }

  lemma {:induction false} AtLeastCap(n: nat)
    requires n >= 4
    ensures Scaled(2, n, BASE) >= MAX
  {
    if n == 4 {
      assert Scaled(2, 2, BASE) == 4 * SECOND;
      assert Scaled(2, 3, BASE) == 8 * SECOND;
    } else {
      AtLeastCap(n - 1);
    }
  }
}

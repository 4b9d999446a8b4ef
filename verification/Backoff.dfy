/**
 The two exponential-backoff schedules of the NSSF outbound paths: the retry queue's
 delay (with "equal jitter") and the token client's delay.

 Machine integers are newtypes, so the verifier also proves that no intermediate
 value of either doubling loop leaves its C type.
 */
module Backoff {

  const LONG_MAX := 0x7fff_ffff_ffff_ffff

  newtype long = x: int | -0x8000_0000_0000_0000 <= x <= 0x7fff_ffff_ffff_ffff
  newtype int32 = x: int | -0x8000_0000 <= x <= 0x7fff_ffff
  newtype uint32 = x: int | 0 <= x <= 0xffff_ffff
  newtype uint64 = x: int | 0 <= x <= 0xffff_ffff_ffff_ffff

  function Min(a: int, b: int): int { if a <= b then a else b }

  function Max(a: int, b: int): int { if a <= b then b else a }

  function Pow2(n: nat): nat {
    if n == 0 then 1 else 2 * Pow2(n - 1)
  }

  /** The closed form both loops are measured against: min(base * 2^n, max). */
  function Capped(base: nat, n: nat, max: nat): nat {
    Min(base * Pow2(n), max)
  }

  /** The retry queue clamps its inputs first: base to 0, max up to base, n to 0. */
  function RetryFloor(attempts: int, base: int, max: int): nat {
    var b := Max(base, 0);
    Capped(b, Max(attempts, 0), Max(max, b))
  }

  /** Random draw after clamping to [0, 0.999999]. */
  function ClampUnit(r: real): real {
    if r < 0.0 then 0.0 else if r >= 1.0 then 0.999999 else r
  }

  function Scaled(u: real, h: nat): int { (u * h as real).Floor }

  function Jitter(floor: nat, r: real): int { Scaled(ClampUnit(r), floor / 2) }

  function RetryDelay(attempts: int, base: int, max: int, r: real): int {
    var floor := RetryFloor(attempts, base, max);
    floor + Jitter(floor, r)
  }

  lemma {:induction false} DoublingStep(base: nat, n: nat)
    ensures base * Pow2(n + 1) == 2 * (base * Pow2(n))
  {
    calc {
      base * Pow2(n + 1);
      base * (2 * Pow2(n));
      2 * (base * Pow2(n));
    }
  }

  /** Once base * 2^i has passed a bound it stays past it. */
  lemma {:induction false} DoublingMonotone(base: nat, i: nat, n: nat)
    requires i <= n
    ensures base * Pow2(i) <= base * Pow2(n)
    decreases n - i
  {
    if i < n {
      DoublingStep(base, i);
      DoublingMonotone(base, i + 1, n);
    }
  }

  /** The doubling loop of nssf_retry_backoff_delay_ms, which stops at the cap. */
  method ComputeRetryFloor(attempts: int32, base: long, max: long) returns (capped: long)
    requires 0 <= attempts && 0 <= base <= max
    ensures capped as int == Capped(base as nat, attempts as nat, max as nat)
  {
    var step := base;
    var i: int32 := 0;
    while i < attempts
      invariant 0 <= i <= attempts
      invariant 0 <= step <= max
      invariant step as int == (base as int) * Pow2(i as nat)
    {
      DoublingStep(base as nat, i as nat);
      if step >= max || step > max / 2 {
        DoublingMonotone(base as nat, i as nat, attempts as nat);
        DoublingMonotone(base as nat, i as nat + 1, attempts as nat);
        return max;
      }
      step := step * 2;
      i := i + 1;
    }
    capped := step;
  }

  /** nssf_retry_backoff_delay_ms. */
  method ComputeRetryDelay(attemptCount: int32, baseMs: long, maxMs: long, randUnit: real) returns (delay: long)
    requires Max(maxMs as int, Max(baseMs as int, 0)) + Max(maxMs as int, Max(baseMs as int, 0)) / 2 <= LONG_MAX
    ensures delay as int == RetryDelay(attemptCount as int, baseMs as int, maxMs as int, randUnit)
  {
    var base := if baseMs < 0 then 0 else baseMs;
    var max := if maxMs < base then base else maxMs;
    var attempts := if attemptCount < 0 then 0 else attemptCount;
    var capped := ComputeRetryFloor(attempts, base, max);
    JitterRange(capped as nat, randUnit);
    var jitter := Jitter(capped as nat, randUnit) as long;
    delay := capped + jitter;
  }

  lemma ScaledRange(u: real, h: nat)
    requires 0.0 <= u < 1.0
    ensures 0 <= Scaled(u, h) <= h && (h > 0 ==> Scaled(u, h) < h)
  {
    var x := u * h as real;
    assert 0.0 <= x;
    if h > 0 {
      assert (1.0 - u) * h as real > 0.0;
      assert x < h as real;
    }
  }

  lemma ScaledMonotone(u: real, g: nat, h: nat)
    requires 0.0 <= u && g <= h
    ensures Scaled(u, g) <= Scaled(u, h) && Scaled(0.0, g) == 0
  {
    var d := (h - g) as real;
    assert u * d >= 0.0;
    assert u * h as real == u * g as real + u * d;
    assert 0.0 * g as real == 0.0;
  }

  lemma JitterRange(floor: nat, r: real)
    ensures 0 <= Jitter(floor, r) <= floor / 2
    ensures Jitter(floor, r) < floor / 2 <==> floor >= 2
  {
    ScaledRange(ClampUnit(r), floor / 2);
  }

  /** The delay grows with the draw: it is the floor plus the whole part of the draw times half the floor. */
  lemma DelayFollowsDraw(attempts: int, base: int, max: int, r: real)
    ensures var floor := RetryFloor(attempts, base, max);
      var extra := RetryDelay(attempts, base, max, r) - floor;
      && (0.0 <= r < 1.0 ==> extra as real <= r * (floor / 2) as real < extra as real + 1.0)
      && (r < 0.0 ==> extra == 0)
      && (r >= 1.0 ==> extra as real <= 0.999999 * (floor / 2) as real < extra as real + 1.0)
  {
    var floor := RetryFloor(attempts, base, max);
    if r < 0.0 {
      ScaledMonotone(0.0, floor / 2, floor / 2);
    }
  }

  /** backoff_delay_ms of the token client: 64-bit doubling, returned early at the cap. */
  method ComputeTokenDelay(baseMs: uint32, maxMs: uint32, retryIndex: uint32) returns (delay: uint32)
    ensures delay as int == Capped(baseMs as nat, retryIndex as nat, maxMs as nat)
  {
    var d: uint64 := baseMs as uint64;
    var i: uint32 := 0;
    while i < retryIndex
      invariant i <= retryIndex
      invariant d as int == (baseMs as int) * Pow2(i as nat)
      invariant i > 0 ==> d < maxMs as uint64
      invariant d <= 0xffff_ffff
    {
      DoublingStep(baseMs as nat, i as nat);
      d := d * 2;
      if d >= maxMs as uint64 {
        DoublingMonotone(baseMs as nat, i as nat + 1, retryIndex as nat);
        return maxMs;
      }
      i := i + 1;
    }
    if d > maxMs as uint64 {
      d := maxMs as uint64;
    }
    delay := d as uint32;
  }

  /** The two schedules use the same floor exactly when the base does not exceed the cap. */
  lemma SchedulesAgree(base: nat, max: nat, n: nat)
    ensures RetryFloor(n, base, max) == Capped(base, n, max) <==> base <= max
  {
    DoublingMonotone(base, 0, n);
  }

  /** The floor never shrinks from one attempt to the next, and never leaves [base, max]. */
  lemma FloorMonotone(m: int, n: int, base: int, max: int)
    requires m <= n
    ensures Max(base, 0) <= RetryFloor(m, base, max) <= RetryFloor(n, base, max) <= Max(max, Max(base, 0))
  {
    DoublingMonotone(Max(base, 0), 0, Max(m, 0));
    DoublingMonotone(Max(base, 0), Max(m, 0), Max(n, 0));
  }

  /** For one draw the delay is monotone in the attempt count, and stays in [floor, floor + floor/2]. */
  lemma DelayMonotone(m: int, n: int, base: int, max: int, r: real)
    requires m <= n
    ensures RetryDelay(m, base, max, r) <= RetryDelay(n, base, max, r)
    ensures RetryFloor(m, base, max) <= RetryDelay(m, base, max, r)
         <= RetryFloor(m, base, max) + RetryFloor(m, base, max) / 2
    ensures RetryDelay(n, base, max, r) <= Max(max, Max(base, 0)) + Max(max, Max(base, 0)) / 2
    ensures RetryDelay(m, base, max, 0.0) == RetryFloor(m, base, max)
  {
    FloorMonotone(m, n, base, max);
    var f, g := RetryFloor(m, base, max), RetryFloor(n, base, max);
    JitterRange(f, r);
    JitterRange(g, r);
    ScaledMonotone(ClampUnit(r), f / 2, g / 2);
  }
}

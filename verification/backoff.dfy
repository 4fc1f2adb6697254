/** The capped exponential backoff both retry paths use: on attempt `a`
    (counted from 1) the script waits `min(base * 2^(a-1), cap)` ms. */
module Backoff {

  /** Attempt numbers start at 1 (the default parameter `a = 1`). */
  type Attempt = a: int | a >= 1 witness 1

  function Pow2(n: nat): (r: nat)
    ensures r >= 1
  {
    if n == 0 then 1 else 2 * Pow2(n - 1)
  }

  lemma {:induction false} Pow2Monotone(m: nat, n: nat)
    requires m <= n
    ensures Pow2(m) <= Pow2(n)
  {
    if m < n {
      Pow2Monotone(m, n - 1);
    }
  }

  /** `Math.min(base * 2 ** (a - 1), cap)`. */
  function CappedDelay(base: nat, cap: nat, a: Attempt): (d: nat)
    ensures d <= cap && d <= base * Pow2(a - 1)
    ensures d == cap || d == base * Pow2(a - 1)
  {
    var raw := base * Pow2(a - 1);
    if raw <= cap then raw else cap
  }

  /** The delay starts at the base (when the base is within the cap), never
      decreases from one attempt to a later one, and never exceeds the cap. */
  lemma CappedDelayShape(base: nat, cap: nat, a: Attempt, b: Attempt)
    requires a <= b
    ensures base <= cap ==> CappedDelay(base, cap, 1) == base
    ensures CappedDelay(base, cap, a) <= CappedDelay(base, cap, b) <= cap
  {
    Pow2Monotone(a - 1, b - 1);
    assert base * Pow2(a - 1) <= base * Pow2(b - 1) by {
      MultiplyMonotone(base, Pow2(a - 1), Pow2(b - 1));
    }
  }

  lemma MultiplyMonotone(k: nat, x: nat, y: nat)
    requires x <= y
    ensures k * x <= k * y
  {}

  /** Once `base * 2^(a-1)` reaches the cap, every later attempt waits
      exactly the cap. */
  lemma {:induction false} CappedDelaySaturates(base: nat, cap: nat, a: Attempt, b: Attempt)
    requires cap <= base * Pow2(a - 1) && a <= b
    ensures CappedDelay(base, cap, b) == cap
  {
    CappedDelayShape(base, cap, a, b);
  }

  /** The wait before each score request (`fetchScore`, line 20). */
  const FetchBaseMs := 100
  const FetchCapMs := 5000

  function FetchDelay(a: Attempt): (d: nat)
    ensures FetchBaseMs <= d <= FetchCapMs
  {
    FetchCapReached(a);
    CappedDelay(FetchBaseMs, FetchCapMs, a)
  }

  /** The fetch delay starts at 100 ms and reaches its cap exactly on the
      seventh attempt, after 3200 ms on the sixth. */
  lemma FetchCapReached(a: Attempt)
    ensures FetchBaseMs <= CappedDelay(FetchBaseMs, FetchCapMs, a) <= FetchCapMs
    ensures CappedDelay(FetchBaseMs, FetchCapMs, a) == FetchCapMs <==> a >= 7
  {
    CappedDelayShape(FetchBaseMs, FetchCapMs, 1, a);
    assert Pow2(5) == 32 && Pow2(6) == 64;
    if a >= 7 {
      CappedDelaySaturates(FetchBaseMs, FetchCapMs, 7, a);
    } else {
      CappedDelayShape(FetchBaseMs, FetchCapMs, a, 6);
    }
  }

  /** The wait after clicking the edit and save buttons (`update`, line 60). */
  const UpdateBaseMs := 1000
  const UpdateCapMs := 2000

  function UpdateDelay(a: Attempt): (d: nat)
    ensures a == 1 ==> d == UpdateBaseMs
    ensures a >= 2 ==> d == UpdateCapMs
  {
    if a >= 2 then
      CappedDelaySaturates(UpdateBaseMs, UpdateCapMs, 2, a);
      CappedDelay(UpdateBaseMs, UpdateCapMs, a)
    else
      CappedDelay(UpdateBaseMs, UpdateCapMs, a)
  }

  /** The fetch delays run 100, 200, 400, 800, 1600, 3200 ms and then stay at
      5000 ms from the seventh attempt on; they never decrease and never
      exceed 5000 ms. */
  lemma FetchDelaySchedule(a: Attempt, b: Attempt)
    requires a <= b
    ensures FetchDelay(1) == 100 && FetchDelay(2) == 200 && FetchDelay(3) == 400
    ensures FetchDelay(6) == 3200
    ensures a >= 7 ==> FetchDelay(a) == 5000
    ensures FetchDelay(a) <= FetchDelay(b) <= 5000
  {
    CappedDelayShape(FetchBaseMs, FetchCapMs, a, b);
    assert Pow2(5) == 32 && Pow2(6) == 64;
    if a >= 7 {
      CappedDelaySaturates(FetchBaseMs, FetchCapMs, 7, a);
    }
  }

  /** The update delays are 1000 ms on the first attempt and 2000 ms on the
      second and third, and never exceed 2000 ms. */
  lemma UpdateDelaySchedule(a: Attempt)
    ensures UpdateDelay(1) == 1000 && UpdateDelay(2) == 2000 && UpdateDelay(3) == 2000
    ensures a >= 2 ==> UpdateDelay(a) == 2000
    ensures UpdateDelay(a) <= 2000
  {
    CappedDelayShape(UpdateBaseMs, UpdateCapMs, 1, a);
    if a >= 2 {
      CappedDelaySaturates(UpdateBaseMs, UpdateCapMs, 2, a);
    }
  }
}

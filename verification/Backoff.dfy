/** The retry delays: `retryDelay * time.Duration(1<<uint(attempt-1))` in wrapping 64-bit
    arithmetic. */
module Backoff {
  const TWO_TO_63: int := 0x8000_0000_0000_0000
  const INT64_MAX: int := TWO_TO_63 - 1

  function WrapInt64(n: int): (r: int)
    ensures -TWO_TO_63 <= r <= INT64_MAX
    ensures -TWO_TO_63 <= n <= INT64_MAX ==> r == n
    ensures (n - r) % (2 * TWO_TO_63) == 0
  {
    (n + TWO_TO_63) % (2 * TWO_TO_63) - TWO_TO_63
  }

  function Pow2(n: nat): (r: nat)
    ensures r >= 1
  {
    if n == 0 then 1 else 2 * Pow2(n - 1)
  }

  /** The delay before attempt `a`, counting attempts from 0. */
  function Delay(retryDelay: int, a: nat): int
    requires a >= 1
  {
    WrapInt64(retryDelay * WrapInt64(Pow2(a - 1)))
  }

  /** The delays scheduled before attempts 1 to `a`. */
  function Delays(retryDelay: int, a: nat): (ds: seq<int>)
    ensures |ds| == a
  {
    if a == 0 then [] else Delays(retryDelay, a - 1) + [Delay(retryDelay, a)]
  }

  function Sum(ds: seq<int>): int {
    if ds == [] then 0 else Sum(ds[..|ds| - 1]) + ds[|ds| - 1]
  }

  lemma {:induction false} Pow2Monotonic(m: nat, n: nat)
    requires m <= n
    ensures Pow2(m) <= Pow2(n)
    decreases n - m
  {
    if m < n {
      Pow2Monotonic(m + 1, n);
    }
  }

  lemma ProductMonotonic(d: int, x: int, y: int)
    requires d >= 1 && 0 <= x <= y
    ensures 0 <= d * x <= d * y && x <= d * x
  {
    assert d * y - d * x == d * (y - x) >= 0;
    assert d * x - x == (d - 1) * x >= 0;
  }

  /** If the largest product fits, the delay before attempt `a` is exact. */
  lemma DelayIsExact(d: int, a: nat, n: nat)
    requires d >= 1 && 1 <= a <= n && d * Pow2(n - 1) <= INT64_MAX
    ensures Delay(d, a) == d * Pow2(a - 1)
  {
    Pow2Monotonic(a - 1, n - 1);
    ProductMonotonic(d, Pow2(a - 1), Pow2(n - 1));
  }

  /** With `maxRetries` attempts there are `n = maxRetries - 1` delays.  None of them wraps
      exactly when the last product fits in 64 bits. */
  lemma NoDelayWraps(d: int, n: nat)
    requires d >= 1 && n >= 1
    ensures (forall a | 1 <= a <= n :: Delay(d, a) == d * Pow2(a - 1)) <==> d * Pow2(n - 1) <= INT64_MAX
  {
    if d * Pow2(n - 1) <= INT64_MAX {
      forall a | 1 <= a <= n ensures Delay(d, a) == d * Pow2(a - 1) {
        DelayIsExact(d, a, n);
      }
    } else {
      assert Delay(d, n) <= INT64_MAX;
    }
  }

  /** The waiting scheduled before attempt `a` sums to `retryDelay * (2^a - 1)`. */
  lemma {:induction false} BackoffSum(d: int, a: nat, n: nat)
    requires d >= 1 && a <= n && n >= 1 && d * Pow2(n - 1) <= INT64_MAX
    ensures Sum(Delays(d, a)) == d * (Pow2(a) - 1)
  {
    if a > 0 {
      BackoffSum(d, a - 1, n);
      DelayIsExact(d, a, n);
      var ds := Delays(d, a);
      assert ds[..|ds| - 1] == Delays(d, a - 1);
      Doubling(d, Pow2(a - 1));
    }
  }

  /** For a positive delay unit none of the delays of `maxRetries` attempts wraps. */
  predicate DelaysFit(retryDelay: int, maxRetries: int) {
    retryDelay >= 1 && (maxRetries >= 2 ==> retryDelay * Pow2(maxRetries - 2) <= INT64_MAX)
  }

  /** The delays double from `retryDelay` on, and sum accordingly. */
  predicate IsDoubling(ds: seq<int>, retryDelay: int) {
    && (forall i | 0 <= i < |ds| :: ds[i] == retryDelay * Pow2(i))
    && Sum(ds) == retryDelay * (Pow2(|ds|) - 1)
  }

  lemma {:induction false} DelaysAt(d: int, a: nat, i: nat)
    requires i < a
    ensures Delays(d, a)[i] == Delay(d, i + 1)
  {
    if i < a - 1 {
      DelaysAt(d, a - 1, i);
    }
  }

  lemma Doubling(d: int, x: int)
    ensures d * (x - 1) + d * x == d * (2 * x - 1)
  {
  }

  /** If the last possible delay fits, every schedule within the limit is exact. */
  lemma ScheduleIsDoubling(d: int, a: nat, maxRetries: int)
    requires DelaysFit(d, maxRetries) && (a > 0 ==> a < maxRetries)
    ensures IsDoubling(Delays(d, a), d)
  {
    if a == 0 {
      assert Pow2(0) - 1 == 0;
    } else {
      hide Delay, Delays, Pow2, Sum;
      BackoffSum(d, a, maxRetries - 1);
      forall i: nat | i < a ensures Delays(d, a)[i] == d * Pow2(i) {
        DelaysAt(d, a, i);
        DelayIsExact(d, i + 1, maxRetries - 1);
      }
    }
  }

  /** Past the limit the promise does fail: one wrapped product can be negative. */
  lemma WrappedDelayIsNegative()
    ensures Delay(TWO_TO_63 / 2, 2) == -TWO_TO_63
  {
    assert Pow2(1) == 2 * Pow2(0) == 2;
    assert WrapInt64(Pow2(1)) == 2;
  }
}

/**
  The exponential backoff of the connection manager, in Go's 64-bit arithmetic: a shift
  of an int64 keeps the low 64 bits, so the interval wraps once enough attempts failed.
  Durations are nanoseconds.
 */
module Backoff {
  import opened Values

  function Pow2(k: nat): (p: nat)
    ensures p > 0
  {
    if k == 0 then 1 else 2 * Pow2(k - 1)
  }

  /** What the comment on the algorithm promises: three tries each, doubling up to the cap. */
  function Promised(unit: int, cap: int, attempts: nat): int {
    Min(unit * Pow2(attempts / 3), cap)
  }

  /** The interval the code computes, before the random part. */
  function Base(unit: int, cap: int, attempts: nat): int {
    var next := Wrap64(unit * Pow2(attempts / 3));
    if next > cap then cap else next
  }

  lemma Wrap64Small(x: int)
    requires 0 <= x < TWO_63
    ensures Wrap64(x) == x
  {
  }

  /**
    The code meets the promise exactly when the doubled interval fits in 63 bits, or the
    bits left after wrapping happen not to be below the cap.
   */
  lemma BaseIsPromised(unit: int, cap: int, attempts: nat)
    requires unit > 0 && 0 <= cap < TWO_63
    ensures Base(unit, cap, attempts) == Promised(unit, cap, attempts) <==>
            unit * Pow2(attempts / 3) < TWO_63 || Wrap64(unit * Pow2(attempts / 3)) >= cap
  {
    var x := unit * Pow2(attempts / 3);
    assert x > 0;
    if x < TWO_63 {
      Wrap64Small(x);
    }
  }

  lemma {:induction false} Pow2Monotone(a: nat, b: nat)
    requires a <= b
    ensures Pow2(a) <= Pow2(b)
    decreases b - a
  {
    if a < b {
      Pow2Monotone(a, b - 1);
    }
  }

  lemma ScaleOrder(u: int, x: int, y: int)
    requires u > 0 && x <= y
    ensures u * x <= u * y
  {
  }

  /** Within the 63-bit range a further failure never shortens the interval. */
  lemma BaseGrows(unit: int, cap: int, a: nat, b: nat)
    requires unit > 0 && 0 <= cap < TWO_63 && a <= b && unit * Pow2(b / 3) < TWO_63
    ensures Base(unit, cap, a) <= Base(unit, cap, b) <= cap
  {
    Pow2Monotone(a / 3, b / 3);
    ScaleOrder(unit, Pow2(a / 3), Pow2(b / 3));
    assert unit * Pow2(a / 3) > 0;
    Wrap64Small(unit * Pow2(a / 3));
    Wrap64Small(unit * Pow2(b / 3));
  }

  // ---------------------------------------------------------------- the production constants

  const SECOND: int := 1_000_000_000
  const MAX_BACKOFF: int := 1800 * SECOND

  lemma {:induction false} Pow2Add(a: nat, b: nat)
    ensures Pow2(a + b) == Pow2(a) * Pow2(b)
  {
    if a > 0 {
      Pow2Add(a - 1, b);
    }
  }

  lemma Pow2Values()
    ensures Pow2(33) == 0x2_0000_0000 && Pow2(34) == 0x4_0000_0000 && Pow2(55) == 0x80_0000_0000_0000
  {
    assert Pow2(7) == 128 && Pow2(8) == 256;
    Pow2Add(8, 8);
    Pow2Add(16, 16);
    Pow2Add(16, 7);
    Pow2Add(32, 23);
    assert Pow2(32) == 0x1_0000_0000 && Pow2(23) == 0x80_0000;
  }

  lemma WrapMultiple(m: nat)
    ensures Wrap64(TWO_64 * m) == 0
  {
  }

  /** From 55 doublings on, every bit of a second has been shifted out. */
  lemma SecondShiftedOut(k: nat)
    requires k >= 55
    ensures Wrap64(SECOND * Pow2(k)) == 0
  {
    Pow2Add(55, k - 55);
    Pow2Values();
    var m := 1_953_125 * Pow2(k - 55);
    assert SECOND * Pow2(k) == TWO_64 * m;
    WrapMultiple(m);
  }

  /** Up to 101 attempts the interval is exact; on the 102nd it is negative; from the 165th it is zero. */
  lemma ExactUpTo101()
    ensures forall n: nat :: n <= 101 ==> Base(SECOND, MAX_BACKOFF, n) == Promised(SECOND, MAX_BACKOFF, n)
    ensures Promised(SECOND, MAX_BACKOFF, 102) == MAX_BACKOFF && Base(SECOND, MAX_BACKOFF, 102) < 0
    ensures forall n: nat :: n >= 165 ==> Base(SECOND, MAX_BACKOFF, n) == 0
  {
    Pow2Values();
    forall n: nat | n <= 101 ensures Base(SECOND, MAX_BACKOFF, n) == Promised(SECOND, MAX_BACKOFF, n) {
      Pow2Monotone(n / 3, 33);
      ScaleOrder(SECOND, Pow2(n / 3), Pow2(33));
      BaseIsPromised(SECOND, MAX_BACKOFF, n);
    }
    assert 102 / 3 == 34;
    forall n: nat | n >= 165 ensures Base(SECOND, MAX_BACKOFF, n) == 0 {
      SecondShiftedOut(n / 3);
    }
  }

  // ---------------------------------------------------------------- the object

  datatype Waited = NoWait | Slept(duration: int) | Cancelled

  class ExpBackoff {
    const smallestUnit: int
    const maxBackoff: int
    var attempts: nat
    var interval: int
    var randomInterval: int

    constructor (unit: int, cap: int)
      ensures smallestUnit == unit && maxBackoff == cap && attempts == 0
    {
      smallestUnit, maxBackoff, attempts, interval, randomInterval := unit, cap, 0, 0, 0;
    }

    /**
      `random` is the random number scaled to one unit and truncated.  The result is the
      base interval plus a random part of less than five units.
     */
    method GetExponentialBackoffTime(random: int) returns (wait: int)
      requires 0 <= random < smallestUnit
      requires maxBackoff + 5 * smallestUnit < TWO_63 && maxBackoff >= 0
      modifies `randomInterval
      ensures randomInterval == 5 * random
      ensures 0 <= randomInterval < 5 * smallestUnit
      ensures wait == Base(smallestUnit, maxBackoff, attempts) + randomInterval
      ensures smallestUnit * Pow2(attempts / 3) < TWO_63 ==>
                wait == Promised(smallestUnit, maxBackoff, attempts) + randomInterval
    {
      BaseIsPromised(smallestUnit, maxBackoff, attempts);
      randomInterval := random * 5;
      var nextInterval := Wrap64(smallestUnit * Pow2(attempts / 3));
      if nextInterval > maxBackoff {
        return maxBackoff + randomInterval;
      }
      return nextInterval + randomInterval;
    }

    /** The first attempt after a reset never waits; every later one sleeps the interval unless cancelled. */
    method WaitForBackoff(random: int, cancelled: bool) returns (waited: Waited)
      requires 0 <= random < smallestUnit
      requires maxBackoff + 5 * smallestUnit < TWO_63 && maxBackoff >= 0
      modifies this
      ensures attempts == old(attempts) + 1
      ensures randomInterval == 5 * random
      ensures interval == Base(smallestUnit, maxBackoff, attempts) + randomInterval
      ensures waited == if old(attempts) == 0 then NoWait else if cancelled then Cancelled else Slept(interval)
    {
      attempts := attempts + 1;
      interval := GetExponentialBackoffTime(random);
      if attempts <= 1 {
        return NoWait;
      }
      return if cancelled then Cancelled else Slept(interval);
    }

    method ResetBackoff()
      modifies `attempts
      ensures attempts == 0
    {
      attempts := 0;
    }

    /** The backoff in `connect`: only a connection that is established resets it. */
    method Connect(random: int, cancelled: bool, dialOk: bool) returns (connected: bool)
      requires 0 <= random < smallestUnit
      requires maxBackoff + 5 * smallestUnit < TWO_63 && maxBackoff >= 0
      modifies this
      ensures connected <==> dialOk && (old(attempts) == 0 || !cancelled)
      ensures attempts == if connected then 0 else old(attempts) + 1
    {
      var waited := WaitForBackoff(random, cancelled);
      if waited == Cancelled || !dialOk {
        return false;
      }
      ResetBackoff();
      return true;
    }
  }
}

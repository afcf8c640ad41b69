/**
 How long the agent waits before it looks again at a volume that is not mounted yet. Durations are int64
 nanoseconds.
 */
module Backoff {
  import Limits

  const BASE: int := 2_000_000_000
  const TWO_63: int := 0x8000_0000_0000_0000

  predicate IsInt64(n: int) { -TWO_63 <= n < TWO_63 }

  /** `interval * 2` in 64-bit two's complement. */
  function Twice(interval: int): (r: int)
    requires IsInt64(interval)
    ensures IsInt64(r) && (IsInt64(2 * interval) ==> r == 2 * interval)
  {
    if 2 * interval >= TWO_63 then 2 * interval - Limits.TWO_64
    else if 2 * interval < -TWO_63 then 2 * interval + Limits.TWO_64
    else 2 * interval
  }

  function Ceiling(max: int): int { if max <= 0 || max < BASE then BASE else max }

  function Min(a: int, b: int): int { if a < b then a else b }

  function Pow2(k: nat): (r: int)
    ensures r >= 1
  {
    if k == 0 then 1 else 2 * Pow2(k - 1)
  }

  /** BASE doubled 32 times: the largest doubling that an int64 holds. */
  const LAST: int := 8_589_934_592_000_000_000

  /** Each of the `k` doublings was due by `elapsed` and started below the ceiling; no further one was. */
  ghost predicate IsStep(k: nat, elapsed: int, max: int) {
    && (k > 0 ==> BASE * Pow2(k) <= elapsed && BASE * Pow2(k - 1) < Ceiling(max))
    && (elapsed < BASE * Pow2(k + 1) || BASE * Pow2(k) >= Ceiling(max))
  }

  ghost predicate IsBackoff(elapsed: int, max: int, interval: int) {
    exists k: nat :: IsStep(k, elapsed, max) && interval == Min(BASE * Pow2(k), Ceiling(max))
  }

  /** The loop's condition. */
  predicate Continues(elapsed: int, max: int, interval: int)
    requires IsInt64(interval)
  {
    elapsed >= Twice(interval) && interval < Ceiling(max)
  }

  /** reconciler.go's pendingBackoff, on exactly the arguments it stops for (see StopsExactly). */
  method PendingBackoff(elapsed: int, max: int) returns (interval: int)
    requires IsInt64(elapsed) && IsInt64(max)
    requires elapsed < LAST || max <= LAST
    ensures IsBackoff(elapsed, max, interval)
    ensures BASE <= interval <= Ceiling(max)
  {
    var ceiling := max;
    if ceiling <= 0 || ceiling < BASE {
      ceiling := BASE;
    }
    interval := BASE;
    ghost var k: nat := 0;
    while elapsed >= Twice(interval) && interval < ceiling
      invariant interval == BASE * Pow2(k) && BASE <= interval <= LAST
      invariant k > 0 ==> interval <= elapsed && BASE * Pow2(k - 1) < ceiling
      decreases LAST - interval
    {
      OneMore(k, elapsed, max, interval);
      interval := Twice(interval);
      k := k + 1;
    }
    Reached(k, elapsed, max, interval);
    if interval > ceiling {
      interval := ceiling;
    }
  }

  lemma OneMore(k: nat, elapsed: int, max: int, interval: int)
    requires interval == BASE * Pow2(k) && BASE <= interval <= LAST
    requires IsInt64(elapsed) && IsInt64(max) && (elapsed < LAST || max <= LAST)
    requires k > 0 ==> interval <= elapsed
    requires elapsed >= Twice(interval) && interval < Ceiling(max)
    ensures Twice(interval) == BASE * Pow2(k + 1) && interval < Twice(interval) <= LAST
  {
    Doubles(k);
  }

  lemma Reached(k: nat, elapsed: int, max: int, interval: int)
    requires interval == BASE * Pow2(k) && BASE <= interval <= LAST
    requires k > 0 ==> interval <= elapsed && BASE * Pow2(k - 1) < Ceiling(max)
    requires elapsed < LAST || max <= LAST
    requires !(elapsed >= Twice(interval) && interval < Ceiling(max))
    ensures IsBackoff(elapsed, max, Min(interval, Ceiling(max)))
  {
    Doubles(k);
    assert BASE * Pow2(k + 1) == 2 * interval;
    assert IsStep(k, elapsed, max);
  }

  lemma Pow2Of32()
    ensures Pow2(32) == 0x1_0000_0000
  {
    assert Pow2(8) == 0x100;
    assert Pow2(16) == 0x1_0000;
    assert Pow2(24) == 0x100_0000;
  }

  lemma {:induction false} Pow2Grows(a: nat, b: nat)
    requires a <= b
    ensures Pow2(a) <= Pow2(b)
    ensures a < b ==> 2 * Pow2(a) <= Pow2(b)
  {
    if a < b {
      Pow2Grows(a, b - 1);
    }
  }

  /** A doubling of BASE that stays within LAST either reaches LAST or leaves room for one more. */
  lemma Doubles(k: nat)
    ensures BASE * Pow2(k) < LAST ==> 2 * BASE * Pow2(k) <= LAST
    ensures BASE * Pow2(k) <= LAST ==> k <= 32
    ensures k <= 32 ==> BASE * Pow2(k) <= LAST
    ensures k == 32 ==> BASE * Pow2(k) == LAST
  {
    Pow2Of32();
    if k < 32 {
      Pow2Grows(k, 32);
    } else {
      Pow2Grows(32, k);
    }
  }

  lemma Pow2Jumps(a: nat, b: nat)
    requires a < b
    ensures Pow2(a) <= Pow2(b - 1) && Pow2(a + 1) <= Pow2(b)
  {
    Pow2Grows(a, b - 1);
    Pow2Grows(a + 1, b);
  }

  lemma StepsInOrder(k: nat, elapsed: int, k': nat, later: int, max: int)
    requires elapsed <= later && IsStep(k, elapsed, max) && IsStep(k', later, max)
    ensures k <= k'
  {
    if k' < k {
      Pow2Jumps(k', k);
      assert false;
    }
  }

  /** Waiting longer never shortens the interval, and the interval is determined by the arguments. */
  lemma BackoffIsMonotone(elapsed: int, later: int, max: int, interval: int, interval': int)
    requires elapsed <= later && IsBackoff(elapsed, max, interval) && IsBackoff(later, max, interval')
    ensures interval <= interval'
    ensures elapsed == later ==> interval == interval'
  {
    var k: nat :| IsStep(k, elapsed, max) && interval == Min(BASE * Pow2(k), Ceiling(max));
    var k': nat :| IsStep(k', later, max) && interval' == Min(BASE * Pow2(k'), Ceiling(max));
    StepsInOrder(k, elapsed, k', later, max);
    Pow2Grows(k, k');
    if elapsed == later {
      StepsInOrder(k', later, k, elapsed, max);
    }
  }

  /**
   In nanoseconds: two seconds at first and under small ceilings; afterwards no longer than the volume has
   already waited and, below the ceiling, longer than half of that.
   */
  lemma BackoffInSeconds(elapsed: int, max: int, interval: int)
    requires IsBackoff(elapsed, max, interval)
    ensures if elapsed < 4_000_000_000 || max <= 2_000_000_000 then interval == 2_000_000_000
            else 2_000_000_000 <= interval <= elapsed && interval <= max && (interval == max || elapsed < 2 * interval)
  {
    var k: nat :| IsStep(k, elapsed, max) && interval == Min(BASE * Pow2(k), Ceiling(max));
    if k > 0 {
      assert BASE * Pow2(k) == 2 * (BASE * Pow2(k - 1)) && Pow2(k - 1) >= 1;
    }
  }

  // ---------- when the loop stops ----------

  function IntervalAfter(n: nat): (r: int)
    ensures IsInt64(r)
  {
    if n == 0 then BASE else Twice(IntervalAfter(n - 1))
  }

  /** Some iteration finds the loop's condition false. */
  ghost predicate Stops(elapsed: int, max: int) {
    exists n: nat :: !Continues(elapsed, max, IntervalAfter(n))
  }

  lemma {:induction false} BeforeOverflow(n: nat)
    requires n <= 32
    ensures IntervalAfter(n) == BASE * Pow2(n) && IntervalAfter(n) <= LAST
    ensures n < 32 ==> Twice(IntervalAfter(n)) <= LAST
    ensures n == 32 ==> IntervalAfter(n) == LAST
  {
    Doubles(n);
    if n > 0 {
      BeforeOverflow(n - 1);
      Doubles(n - 1);
    }
  }

  /** What the doubling passes through once it has overflowed, down to the zero it ends in. */
  const WRAPPED: seq<int> := [
    8589934592000000000, -1266874889709551616, -2533749779419103232, -5067499558838206464, 8311744956033138688,
    -1823254161643274240, -3646508323286548480, -7293016646573096960, 3860710780563357696, 7721421561126715392,
    -3003900951456120832, -6007801902912241664, 6431140267885068288, -5584463537939415040, 7277816997830721536,
    -3891110078048108544, -7782220156096217088, 2882303761517117440, 5764607523034234880, -6917529027641081856,
    4611686018427387904, -9223372036854775808, 0]

  lemma {:induction false} AfterOverflow(n: nat)
    requires n >= 32
    ensures IntervalAfter(n) == if n - 32 < |WRAPPED| then WRAPPED[n - 32] else 0
    ensures IntervalAfter(n) <= LAST
  {
    if n == 32 {
      BeforeOverflow(32);
    } else {
      AfterOverflow(n - 1);
    }
  }

  /**
   Doubling stops, for every pair of arguments, unless both are beyond its last 64-bit value; then it goes on for
   ever at 0.
   */
  lemma StopsExactly(elapsed: int, max: int)
    requires IsInt64(elapsed) && IsInt64(max)
    ensures Stops(elapsed, max) <==> elapsed < LAST || max <= LAST
  {
    if elapsed < LAST {
      BeforeOverflow(31);
      BeforeOverflow(32);
      assert !Continues(elapsed, max, IntervalAfter(31));
    } else if max <= LAST {
      BeforeOverflow(32);
      assert !Continues(elapsed, max, IntervalAfter(32));
    } else {
      forall n: nat ensures Continues(elapsed, max, IntervalAfter(n)) {
        if n <= 32 {
          BeforeOverflow(n);
        } else {
          AfterOverflow(n);
        }
        if n >= 32 {
          AfterOverflow(n + 1);
        }
      }
    }
  }

  /** With the largest durations the loop never ends. */
  lemma LargestDurationsNeverEnd()
    ensures !Stops(TWO_63 - 1, TWO_63 - 1)
  {
    StopsExactly(TWO_63 - 1, TWO_63 - 1);
  }
}

/**
 * The tick delay of js/modules/Speed.mjs, in milliseconds between moves. A
 * smaller delay is a faster snake: `minSpeed` (300 by default) is the longest
 * delay and `maxSpeed` (32 by default) the shortest. Arithmetic is exact
 * (`real`), not IEEE doubles.
 */
module Speeds {
  import MathUtils

  /** The delay after `increase`: 30% shorter, but never below `maxSpeed`. */
  function Increased(current: real, maxSpeed: real): real {
    var step := MathUtils.Percent(current, 30.0);
    if current - step > maxSpeed then current - step else maxSpeed
  }

  /** The delay after `decrease`: 30% longer, but never above `minSpeed`. */
  function Decreased(current: real, minSpeed: real): real {
    var step := MathUtils.Percent(current, 30.0);
    if current + step < minSpeed then current + step else minSpeed
  }

  class Speed {
    /** `#MIN_SPEED`: the longest delay. */
    const minSpeed: real
    /** `#MAX_SPEED`: the shortest delay. */
    const maxSpeed: real
    var current: real

    /** The delay lies between the two bounds, which are ordered and non-negative. */
    ghost predicate InRange()
      reads this
    {
      0.0 <= maxSpeed <= current <= minSpeed
    }

    /** `new Speed(min = 300, max = 32)`: the snake starts at the longest delay. */
    constructor (min: real := 300.0, max: real := 32.0)
      ensures minSpeed == min && maxSpeed == max && current == min
      ensures 0.0 <= max <= min ==> InRange()
    {
      minSpeed := min;
      maxSpeed := max;
      current := min;
    }

    /** `increase`: shortens the delay by 30%, clamped to `maxSpeed`. */
    method Increase()
      modifies this
      ensures current == Increased(old(current), maxSpeed)
      ensures old(InRange()) ==> InRange() && current <= old(current)
    {
      var increase := MathUtils.Percent(current, 30.0);
      if current - increase > maxSpeed {
        current := current - increase;
      } else {
        current := maxSpeed;
      }
      if old(InRange()) {
        IncreasedBounds(old(current), maxSpeed);
      }
    }

    /** `decrease`: lengthens the delay by 30%, clamped to `minSpeed`. */
    method Decrease()
      modifies this
      ensures current == Decreased(old(current), minSpeed)
      ensures old(InRange()) ==> InRange() && current >= old(current)
    {
      var decrease := MathUtils.Percent(current, 30.0);
      if current + decrease < minSpeed {
        current := current + decrease;
      } else {
        current := minSpeed;
      }
      if old(InRange()) {
        DecreasedBounds(old(current), minSpeed);
      }
    }

    /** `reset`: the shortest delay. */
    method Reset()
      modifies this
      ensures current == maxSpeed
      ensures 0.0 <= maxSpeed <= minSpeed ==> InRange()
    {
      current := maxSpeed;
    }
  }

  /** `increase` multiplies the delay by 0.7 unless that would pass `maxSpeed`. */
  lemma IncreasedClosedForm(current: real, maxSpeed: real)
    ensures Increased(current, maxSpeed) ==
            if current * 7.0 / 10.0 > maxSpeed then current * 7.0 / 10.0 else maxSpeed
  {
  }

  /** `decrease` multiplies the delay by 1.3 unless that would pass `minSpeed`. */
  lemma DecreasedClosedForm(current: real, minSpeed: real)
    ensures Decreased(current, minSpeed) ==
            if current * 13.0 / 10.0 < minSpeed then current * 13.0 / 10.0 else minSpeed
  {
  }

  /** From a delay no shorter than `maxSpeed`, `increase` never lengthens it nor passes `maxSpeed`. */
  lemma IncreasedBounds(current: real, maxSpeed: real)
    requires 0.0 <= maxSpeed <= current
    ensures maxSpeed <= Increased(current, maxSpeed) <= current
  {
  }

  /** From a non-negative delay no longer than `minSpeed`, `decrease` never shortens it nor passes `minSpeed`. */
  lemma DecreasedBounds(current: real, minSpeed: real)
    requires 0.0 <= current <= minSpeed
    ensures current <= Decreased(current, minSpeed) <= minSpeed
  {
  }

  /** At the bounds the ramp stops: `increase` keeps `maxSpeed`, `decrease` keeps `minSpeed`. */
  lemma RampFixpoints(minSpeed: real, maxSpeed: real)
    requires 0.0 <= maxSpeed && 0.0 <= minSpeed
    ensures Increased(maxSpeed, maxSpeed) == maxSpeed
    ensures Decreased(minSpeed, minSpeed) == minSpeed
  {
  }

  /** The delay after `n` calls of `increase`. */
  function IncreasedTimes(current: real, maxSpeed: real, n: nat): real
    decreases n
  {
    if n == 0 then current else IncreasedTimes(Increased(current, maxSpeed), maxSpeed, n - 1)
  }

  /** The delay after `n` calls of `decrease`. */
  function DecreasedTimes(current: real, minSpeed: real, n: nat): real
    decreases n
  {
    if n == 0 then current else DecreasedTimes(Decreased(current, minSpeed), minSpeed, n - 1)
  }

  /**
   * Repeated `increase` reaches `maxSpeed` within `k` calls when the delay
   * exceeds it by at most `k` times 30% of `maxSpeed`: each call above it
   * shortens the delay by at least that much.
   */
  lemma {:induction false} IncreaseReachesMaxWithin(current: real, maxSpeed: real, k: nat)
    requires 0.0 < maxSpeed <= current <= maxSpeed + k as real * (0.3 * maxSpeed)
    ensures exists n: nat :: n <= k && IncreasedTimes(current, maxSpeed, n) == maxSpeed
    decreases k
  {
    var next := Increased(current, maxSpeed);
    if current == maxSpeed {
      assert IncreasedTimes(current, maxSpeed, 0) == maxSpeed;
    } else if next == maxSpeed {
      assert k != 0;
      assert IncreasedTimes(current, maxSpeed, 1) == maxSpeed;
    } else {
      assert k != 0;
      assert next == current * 0.7 && next <= current - 0.3 * maxSpeed;
      assert k as real * (0.3 * maxSpeed) == (k - 1) as real * (0.3 * maxSpeed) + 0.3 * maxSpeed;
      IncreaseReachesMaxWithin(next, maxSpeed, k - 1);
      var n: nat :| n <= k - 1 && IncreasedTimes(next, maxSpeed, n) == maxSpeed;
      assert IncreasedTimes(current, maxSpeed, n + 1) == maxSpeed;
    }
  }

  /** The product of two non-negative reals is non-negative. */
  lemma PositiveProduct(a: real, b: real)
    requires 0.0 <= a && 0.0 <= b
    ensures 0.0 <= a * b
  {
  }

  /** Repeated `increase` reaches a positive `maxSpeed` after finitely many calls. */
  lemma IncreaseReachesMax(current: real, maxSpeed: real)
    requires 0.0 < maxSpeed <= current
    ensures exists n: nat :: IncreasedTimes(current, maxSpeed, n) == maxSpeed
  {
    var q := 0.3 * maxSpeed;
    var x := (current - maxSpeed) / q;
    var k: nat := x.Floor + 1;
    assert x * q == current - maxSpeed;
    assert k as real > x;
    PositiveProduct(k as real - x, q);
    assert k as real * q - x * q == (k as real - x) * q;
    IncreaseReachesMaxWithin(current, maxSpeed, k);
  }

  /**
   * Repeated `decrease` reaches `minSpeed` within `k` calls when the delay
   * falls short of it by at most `k` times 30% of `low`, a positive lower
   * bound of the delay: each call below it lengthens the delay by at least
   * that much.
   */
  lemma {:induction false} DecreaseReachesMinWithin(current: real, minSpeed: real, low: real, k: nat)
    requires 0.0 < low <= current <= minSpeed <= current + k as real * (0.3 * low)
    ensures exists n: nat :: n <= k && DecreasedTimes(current, minSpeed, n) == minSpeed
    decreases k
  {
    var next := Decreased(current, minSpeed);
    if current == minSpeed {
      assert DecreasedTimes(current, minSpeed, 0) == minSpeed;
    } else if next == minSpeed {
      assert k != 0;
      assert DecreasedTimes(current, minSpeed, 1) == minSpeed;
    } else {
      assert k != 0;
      assert next == current * 1.3 && next >= current + 0.3 * low;
      assert k as real * (0.3 * low) == (k - 1) as real * (0.3 * low) + 0.3 * low;
      DecreaseReachesMinWithin(next, minSpeed, low, k - 1);
      var n: nat :| n <= k - 1 && DecreasedTimes(next, minSpeed, n) == minSpeed;
      assert DecreasedTimes(current, minSpeed, n + 1) == minSpeed;
    }
  }

  /** Repeated `decrease` reaches `minSpeed` after finitely many calls from a positive delay. */
  lemma DecreaseReachesMin(current: real, minSpeed: real)
    requires 0.0 < current <= minSpeed
    ensures exists n: nat :: DecreasedTimes(current, minSpeed, n) == minSpeed
  {
    var q := 0.3 * current;
    var x := (minSpeed - current) / q;
    var k: nat := x.Floor + 1;
    assert x * q == minSpeed - current;
    assert k as real > x;
    PositiveProduct(k as real - x, q);
    assert k as real * q - x * q == (k as real - x) * q;
    DecreaseReachesMinWithin(current, minSpeed, current, k);
  }

  /** Repeated `increase` and `decrease` never leave the range: `maxSpeed <= delay <= minSpeed`. */
  lemma {:induction false} RepeatedStaysInRange(current: real, minSpeed: real, maxSpeed: real, n: nat)
    requires 0.0 <= maxSpeed <= current <= minSpeed
    ensures maxSpeed <= IncreasedTimes(current, maxSpeed, n) <= current
    ensures current <= DecreasedTimes(current, minSpeed, n) <= minSpeed
    decreases n
  {
    if n > 0 {
      IncreasedBounds(current, maxSpeed);
      DecreasedBounds(current, minSpeed);
      RepeatedStaysInRange(Increased(current, maxSpeed), minSpeed, maxSpeed, n - 1);
      RepeatedStaysInRange(Decreased(current, minSpeed), minSpeed, maxSpeed, n - 1);
    }
  }

  /** A positive delay strictly above `maxSpeed` strictly shrinks under `increase`. */
  lemma IncreaseProgresses(current: real, maxSpeed: real)
    requires 0.0 <= maxSpeed < current
    ensures Increased(current, maxSpeed) < current
  {
  }
}

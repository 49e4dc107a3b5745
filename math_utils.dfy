/**
 * Numeric helpers of js/modules/utils/MathUtils.mjs. `Math.random` is not
 * modelled: the two random draws are nondeterministic choices constrained by
 * what the source guarantees about their result.
 */
module MathUtils {

  /** `Math.ceil` on an exact rational. */
  function Ceil(x: real): (r: int)
    ensures x <= r as real < x + 1.0
  {
    -((-x).Floor)
  }

  /**
   * `getRandomInt(from, to)`: `ceil(from) + floor(u * n)` for some `u` in
   * [0, 1), where `n = floor(to) - ceil(from) + 1`. For a non-empty range that
   * is an integer between `ceil(from)` and `floor(to)`, both included; for an
   * empty one (`n <= 0`) it is between `floor(to) + 1` and `ceil(from)`.
   */
  method RandomInt(from: real, to: real) returns (r: int)
    ensures Ceil(from) <= to.Floor ==> Ceil(from) <= r <= to.Floor && from <= r as real <= to
    ensures Ceil(from) > to.Floor ==> to.Floor + 1 <= r <= Ceil(from)
  {
    var lo, hi := Ceil(from), to.Floor;
    if lo <= hi {
      r :| lo <= r <= hi;
    } else {
      r :| hi + 1 <= r <= lo;
    }
  }

  /**
   * `getRandomWithoutExcluded(from, to, excluded)`: the source retries
   * `getRandomInt(from, to)` until the draw is not excluded. For integer
   * bounds a draw lies in [from, to] when `from <= to`, and in
   * [to + 1, from] otherwise (see `RandomInt`); the loop returns only when
   * such a draw is not excluded, and runs forever otherwise.
   */
  method RandomWithoutExcluded(from: int, to: int, excluded: set<int>) returns (r: int)
    requires exists x :: (if from <= to then from <= x <= to else to + 1 <= x <= from) && x !in excluded
    ensures from <= to ==> from <= r <= to
    ensures from > to ==> to + 1 <= r <= from
    ensures r !in excluded
  {
    r :| (if from <= to then from <= r <= to else to + 1 <= r <= from) && r !in excluded;
  }

  /**
   * `getListNumbers(from, to)`: the generator's values, in the order it
   * yields them: from, from + 1, ..., to.
   */
  method ListNumbers(from: int, to: int) returns (xs: seq<int>)
    ensures |xs| == if from <= to then to - from + 1 else 0
    ensures forall k :: 0 <= k < |xs| ==> xs[k] == from + k
  {
    xs := [];
    var i := from;
    while i <= to
      invariant from <= i <= if from <= to then to + 1 else from
      invariant |xs| == i - from
      invariant forall k :: 0 <= k < |xs| ==> xs[k] == from + k
    {
      xs := xs + [i];
      i := i + 1;
    }
  }

  /** `percent(value, percent)`: `percent` per cent of `value`. */
  function Percent(value: real, percent: real): (r: real)
    ensures r * 100.0 == value * percent
    ensures 0.0 <= value && 0.0 <= percent <= 100.0 ==> 0.0 <= r <= value
  {
    value * percent / 100.0
  }
}

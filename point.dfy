/**
 * The score counter of js/modules/Point.mjs. The `onBroadcast` callback that
 * `increment` and `decrement` notify is not modelled.
 */
module Points {

  class Point {
    var point: int

    /** `new Point(point = 0)`. */
    constructor (point: int := 0)
      ensures this.point == point
    {
      this.point := point;
    }

    /** `valueOf()` and the `point` getter: the stored count. */
    function ValueOf(): (v: int)
      reads this
      ensures v == point
    {
      point
    }

    /** `increment`: one more. */
    method Increment()
      modifies this
      ensures point == old(point) + 1
    {
      point := point + 1;
    }

    /** `decrement`: one fewer. */
    method Decrement()
      modifies this
      ensures point == old(point) - 1
    {
      point := point - 1;
    }
  }

  /** An `increment` followed by a `decrement` gives back the count it started from. */
  method IncrementThenDecrement(p: Point)
    modifies p
    ensures p.ValueOf() == old(p.ValueOf())
  {
    p.Increment();
    p.Decrement();
  }
}

/**
 * The per-snake input buffer (js/modules/Direction.mjs). `#directions` holds
 * pending directions newest first; the oldest entry, at the end, is the one
 * the snake moves in next.
 */
module Directions {
  import opened Wrappers

  datatype Dir = Left | Right | Up | Down

  function Opposite(d: Dir): Dir {
    match d
    case Left => Right
    case Right => Left
    case Up => Down
    case Down => Up
  }

  /** Two directions at a right angle: neither the same nor opposite. */
  predicate Perpendicular(a: Dir, b: Dir) {
    a != b && a != Opposite(b)
  }

  /** Adjacent entries of the buffer are at right angles. */
  ghost predicate Chain(ds: seq<Dir>) {
    forall i, j :: 0 <= i && j == i + 1 && j < |ds| ==> Perpendicular(ds[i], ds[j])
  }

  /** The buffer after `add(d)`: `d` is prepended unless it repeats or reverses the newest entry. */
  function Added(ds: seq<Dir>, d: Dir): seq<Dir>
    requires |ds| > 0
  {
    if d == ds[0] || d == Opposite(ds[0]) then ds else [d] + ds
  }

  /** The buffer after `removeLast()`: the oldest entry goes unless it is the only one. */
  function Popped(ds: seq<Dir>): seq<Dir> {
    if |ds| > 1 then ds[..|ds| - 1] else ds
  }

  /** The entry the snake executes next: the oldest. */
  function Oldest(ds: seq<Dir>): Dir
    requires |ds| > 0
  {
    ds[|ds| - 1]
  }

  class Direction {
    var directions: seq<Dir>
    var size: int

    /** `#size` counts the entries, there is at least one, and adjacent entries are at right angles. */
    ghost predicate Valid()
      reads this
    {
      size == |directions| && size >= 1 && Chain(directions)
    }

    /** `new Direction(defaultDirection = Right)`. */
    constructor (defaultDirection: Dir := Right)
      ensures Valid() && directions == [defaultDirection] && size == 1
    {
      directions := [defaultDirection];
      size := 1;
    }

    /** `#push`: `unshift` plus the size counter. */
    method Push(d: Dir)
      requires size == |directions|
      modifies this
      ensures directions == [d] + old(directions) && size == |directions|
    {
      directions := [d] + directions;
      size := size + 1;
    }

    /** `#pop`: `pop` plus the size counter. */
    method Pop() returns (d: Dir)
      requires size == |directions| && size >= 1
      modifies this
      ensures d == Oldest(old(directions))
      ensures directions == old(directions)[..old(size) - 1] && size == |directions|
    {
      size := size - 1;
      d := directions[|directions| - 1];
      directions := directions[..|directions| - 1];
    }

    /** `add(direction)`, checked against the newest entry `#first()`. */
    method Add(direction: Dir)
      requires Valid()
      modifies this
      ensures Valid() && directions == Added(old(directions), direction)
    {
      var nextDirection := directions[0];
      if nextDirection != direction {
        if nextDirection == Left && direction != Right { Push(direction); }
        if nextDirection == Right && direction != Left { Push(direction); }
        if nextDirection == Up && direction != Down { Push(direction); }
        if nextDirection == Down && direction != Up { Push(direction); }
      }
      AddedKeepsChain(old(directions), direction);
    }

    /** `removeLast()`: drops the oldest entry when there is more than one. */
    method RemoveLast()
      requires Valid()
      modifies this
      ensures Valid() && directions == Popped(old(directions))
    {
      if size > 1 {
        var _ := Pop();
      }
    }

    /** `peek(level = -1)`: `Array.prototype.at`, so a negative level counts from the end. */
    function Peek(level: int := -1): (r: Option<Dir>)
      reads this
      ensures r.Some? <==> -|directions| <= level < |directions|
      ensures level == -1 && |directions| > 0 ==> r == Some(Oldest(directions))
    {
      var k := if level < 0 then |directions| + level else level;
      if 0 <= k < |directions| then Some(directions[k]) else None
    }
  }

  /** `add` keeps adjacent entries at right angles. */
  lemma AddedKeepsChain(ds: seq<Dir>, d: Dir)
    requires |ds| > 0 && Chain(ds)
    ensures Chain(Added(ds, d)) && |Added(ds, d)| > 0
  {
    if !(d == ds[0] || d == Opposite(ds[0])) {
      var r := [d] + ds;
      forall i, j | 0 <= i && j == i + 1 && j < |r|
        ensures Perpendicular(r[i], r[j])
      {
        if i > 0 {
          assert r[i] == ds[i - 1] && r[j] == ds[j - 1];
        } else {
          assert Opposite(Opposite(ds[0])) == ds[0];
        }
      }
    }
  }

  /** One call to the buffer: `add(d)` or the `removeLast()` of a move. */
  datatype Call = Add(d: Dir) | RemoveLast

  function Apply(ds: seq<Dir>, call: Call): (r: seq<Dir>)
    requires |ds| > 0
    ensures |r| > 0
  {
    match call
    case Add(d) => Added(ds, d)
    case RemoveLast => Popped(ds)
  }

  /** The buffer after a sequence of calls, oldest call first. */
  function Run(ds: seq<Dir>, calls: seq<Call>): (r: seq<Dir>)
    requires |ds| > 0
    ensures |r| > 0
  {
    if |calls| == 0 then ds else Apply(Run(ds, calls[..|calls| - 1]), calls[|calls| - 1])
  }

  /** Any sequence of calls keeps adjacent entries at right angles. */
  lemma {:induction false} RunKeepsChain(ds: seq<Dir>, calls: seq<Call>)
    requires |ds| > 0 && Chain(ds)
    ensures Chain(Run(ds, calls))
  {
    if |calls| > 0 {
      var before := Run(ds, calls[..|calls| - 1]);
      RunKeepsChain(ds, calls[..|calls| - 1]);
      match calls[|calls| - 1]
      case Add(d) => AddedKeepsChain(before, d);
      case RemoveLast =>
    }
  }

  /** However many directions are added, the one executed next does not change. */
  lemma {:induction false} AddsKeepOldest(ds: seq<Dir>, adds: seq<Dir>)
    requires |ds| > 0
    ensures Oldest(Run(ds, seq(|adds|, k requires 0 <= k < |adds| => Add(adds[k])))) == Oldest(ds)
  {
    if |adds| > 0 {
      var init := adds[..|adds| - 1];
      AddsKeepOldest(ds, init);
      var calls := seq(|adds|, k requires 0 <= k < |adds| => Add(adds[k]));
      assert calls[..|calls| - 1] == seq(|init|, k requires 0 <= k < |init| => Add(init[k]));
    }
  }

  /** One call never turns the executed direction into its opposite. */
  lemma ApplyNeverReverses(ds: seq<Dir>, call: Call)
    requires |ds| > 0 && Chain(ds)
    ensures Oldest(Apply(ds, call)) != Opposite(Oldest(ds))
  {
    var n := |ds|;
    if call.RemoveLast? && n > 1 {
      assert Perpendicular(ds[n - 2], ds[n - 1]);
      assert Opposite(Opposite(ds[n - 2])) == ds[n - 2];
    }
  }

  /**
   * Anti-reversal: whatever calls arrive, starting from a valid buffer, the
   * direction executed next never turns into its opposite in one call.
   */
  lemma NeverReverses(ds: seq<Dir>, calls: seq<Call>, k: nat)
    requires |ds| > 0 && Chain(ds) && k < |calls|
    ensures Oldest(Run(ds, calls[..k + 1])) != Opposite(Oldest(Run(ds, calls[..k])))
  {
    RunKeepsChain(ds, calls[..k]);
    assert calls[..k + 1][..k] == calls[..k];
    ApplyNeverReverses(Run(ds, calls[..k]), calls[k]);
  }
}

/**
 * The wall layouts of js/modules/Levels.mjs. Each getter builds a fresh set of
 * linear cell indices with loops; `Level01` .. `Level03` below are the
 * closed forms of those sets, and the `Build` methods are the getters' loops,
 * proved to produce them.
 */
module Levels {
  import MathUtils

  /** Whether `i` is reached from `start` in steps of `step`. */
  predicate OnStep(start: int, step: int, i: int)
    requires step > 0
  {
    (i - start) % step == 0
  }

  /**
   * The indices visited by `for (i = start; i <= limit; i += step)`;
   * `getListNumbers(from, to)` is the case `step == 1`.
   */
  function Stride(start: int, limit: int, step: int): set<int>
    requires step > 0
  {
    set i | start <= i <= limit && OnStep(start, step, i)
  }

  /** The door cells carved into `Level03`. */
  function Doors(): set<int> {
    {367, 368, 399, 400}
  }

  /** The cells `Level03` adds to `Level02`. */
  function Pillars(): set<int> {
    {133, 165, 154, 186, 581, 613, 602, 634}
  }

  /** Level 1: no walls. */
  function Level01(): (walls: set<int>)
    ensures |walls| == 0
  {
    {}
  }

  /** Level 2: two horizontal bars and two adjacent vertical columns. */
  function Level02(): set<int> {
    Stride(101, 122, 1) + Stride(645, 666, 1) + Stride(144, 624, 32) + Stride(143, 624, 32)
  }

  /** Level 3: level 2 with eight more cells and four door cells removed. */
  function Level03(): set<int> {
    (Level02() + Pillars()) - Doors()
  }

  /** The levels in ordinal order: ordinal 0 is `Level01`. */
  function Catalog(): (levels: seq<set<int>>)
    ensures |levels| == 3
  {
    [Level01(), Level02(), Level03()]
  }

  /** One `for (const i of getListNumbers(lo, hi))` loop of `Level02`: adds every index from `lo` to `hi`. */
  method AddSpan(blocks: set<int>, lo: int, hi: int) returns (r: set<int>)
    requires lo <= hi
    ensures r == blocks + Stride(lo, hi, 1)
  {
    r := blocks;
    var xs := MathUtils.ListNumbers(lo, hi);
    for k := 0 to |xs|
      invariant r == blocks + Stride(lo, lo - 1 + k, 1)
    {
      StrideExtend(lo, lo - 1 + k, 1);
      r := r + {xs[k]};
    }
  }

  /** One `for (block = start; block <= 624; block += 32)` loop of `Level02`: adds a column. */
  method AddColumn(blocks: set<int>, start: int) returns (r: set<int>)
    requires start <= 624
    ensures r == blocks + Stride(start, 624, 32)
  {
    r := blocks;
    var block := start;
    while block <= 624
      invariant start <= block <= 656 && OnStep(start, 32, block)
      invariant r == blocks + Stride(start, block - 1, 32)
    {
      StrideExtend(start, block - 1, 32);
      r := r + {block};
      StrideGap(start, block);
      block := block + 32;
    }
    assert Stride(start, block - 1, 32) == Stride(start, 624, 32);
  }

  /** The getter `Level02`: two rows, then two columns. */
  method BuildLevel02() returns (blocks: set<int>)
    ensures blocks == Level02()
  {
    blocks := AddSpan({}, 101, 122);
    blocks := AddSpan(blocks, 645, 666);
    blocks := AddColumn(blocks, 144);
    blocks := AddColumn(blocks, 143);
  }

  /** The getter `Level03`: a copy of level 2, eight additions, four deletions. */
  method BuildLevel03() returns (blocks: set<int>)
    ensures blocks == Level03()
  {
    blocks := BuildLevel02();
    blocks := blocks + {133};
    blocks := blocks + {165};
    blocks := blocks + {154};
    blocks := blocks + {186};
    blocks := blocks + {581};
    blocks := blocks + {613};
    blocks := blocks + {602};
    blocks := blocks + {634};
    blocks := blocks - {368};
    blocks := blocks - {400};
    blocks := blocks - {367};
    blocks := blocks - {399};
  }

  /** One more iteration of a stepping loop adds its next index, if that index is on the step. */
  lemma StrideExtend(start: int, limit: int, step: int)
    requires step > 0
    ensures Stride(start, limit + 1, step) ==
            Stride(start, limit, step) + (if start <= limit + 1 && OnStep(start, step, limit + 1) then {limit + 1} else {})
  {
  }

  /** Between two consecutive indices of a column loop no index is visited. */
  lemma StrideGap(start: int, last: int)
    requires OnStep(start, 32, last)
    ensures Stride(start, last + 31, 32) == Stride(start, last, 32)
  {
    assert forall i :: last < i <= last + 31 ==> !OnStep(start, 32, i);
  }

  /** `getListNumbers(lo, hi)` visits `hi - lo + 1` distinct values. */
  lemma {:induction false} SpanSize(lo: int, hi: int)
    requires lo <= hi + 1
    ensures |Stride(lo, hi, 1)| == hi - lo + 1
    decreases hi - lo + 1
  {
    if lo <= hi {
      SpanSize(lo, hi - 1);
      StrideExtend(lo, hi - 1, 1);
    } else {
      assert Stride(lo, hi, 1) == {};
    }
  }

  /** `n` steps of 32 from `start`, the last at `start + 32 (n - 1)`, visit `n` distinct cells. */
  lemma {:induction false} StrideSize(start: int, n: nat)
    ensures |Stride(start, start + 32 * n - 32, 32)| == n
  {
    if n == 0 {
      assert Stride(start, start - 32, 32) == {};
    } else {
      StrideSize(start, n - 1);
      var last := start + 32 * (n - 1);
      assert forall i :: last - 32 < i < last ==> !OnStep(start, 32, i);
      assert Stride(start, last, 32) == Stride(start, last - 32, 32) + {last};
    }
  }

  /** The column loops of `Level02` each add 16 cells. */
  lemma ColumnsOfLevel02()
    ensures |Stride(144, 624, 32)| == 16 && |Stride(143, 624, 32)| == 16
  {
    StrideSize(144, 16);
    StrideSize(143, 16);
    StrideExtend(143, 623, 32);
    assert !OnStep(143, 32, 624);
  }

  /** `Level02` has 22 + 22 + 16 + 16 = 76 cells: the four loops never add a cell twice. */
  lemma Level02Size()
    ensures 101 in Level02() && 122 in Level02() && 645 in Level02() && 666 in Level02()
    ensures |Level02()| == 76
  {
    SpanSize(101, 122);
    SpanSize(645, 666);
    ColumnsOfLevel02();
    var a, b, c, d := Stride(101, 122, 1), Stride(645, 666, 1), Stride(144, 624, 32), Stride(143, 624, 32);
    assert OnStep(101, 1, 101) && OnStep(101, 1, 122) && OnStep(645, 1, 645) && OnStep(645, 1, 666);
    assert a * b == {};
    assert (a + b) * c == {};
    assert (a + b + c) * d == {};
  }

  /** Every door cell is a wall of `Level02`. */
  lemma DoorsInLevel02()
    ensures Doors() <= Level02()
  {
    assert OnStep(143, 32, 367) && OnStep(143, 32, 399);
    assert OnStep(144, 32, 368) && OnStep(144, 32, 400);
  }

  /** No cell that `Level03` adds is already a wall of `Level02`. */
  lemma PillarsOutsideLevel02()
    ensures Pillars() * Level02() == {}
  {
    forall x | x in Pillars()
      ensures x !in Level02()
    {
      assert !OnStep(144, 32, x) && !OnStep(143, 32, x);
    }
  }

  /** The four doors and the eight added cells are distinct cells. */
  lemma DoorsAndPillarsSize()
    ensures |Doors()| == 4 && |Pillars()| == 8
  {
  }

  /** Removing `k` cells that a set holds shrinks it by `k`; adding `k` it lacks grows it by `k`. */
  lemma PatchSize(base: set<int>, added: set<int>, removed: set<int>)
    requires added * base == {} && removed <= base
    ensures |(base + added) - removed| == |base| + |added| - |removed|
  {
    assert (base + added) * removed == removed;
  }

  /** `Level03` has 76 + 8 - 4 = 80 cells. */
  lemma Level03Size()
    ensures |Level03()| == 80
  {
    Level02Size();
    DoorsInLevel02();
    PillarsOutsideLevel02();
    DoorsAndPillarsSize();
    PatchSize(Level02(), Pillars(), Doors());
  }
}

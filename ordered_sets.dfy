/**
 * A JavaScript `Set` of numbers keeps its elements in insertion order. The
 * snake's body is such a set; here it is a sequence without repetitions.
 */
module OrderedSets {

  ghost predicate Distinct(s: seq<int>) {
    forall i, j :: 0 <= i < j < |s| ==> s[i] != s[j]
  }

  /** `Set.prototype.add`: a new element goes last; a present one stays where it is. */
  function Insert(s: seq<int>, x: int): (r: seq<int>)
    ensures Distinct(s) ==> Distinct(r)
    ensures forall y :: y in r <==> y in s || y == x
    ensures x in s ==> r == s
    ensures x !in s ==> r == s + [x]
  {
    if x in s then s else s + [x]
  }

  /**
   * `new Set(xs)`: the elements of `xs` in order of first occurrence, so no
   * element twice, exactly the elements of `xs`, and no more of them than `xs` has.
   */
  function FromSeq(xs: seq<int>): (r: seq<int>)
    ensures Distinct(r)
    ensures forall y :: y in r <==> y in xs
    ensures |r| <= |xs|
  {
    if |xs| == 0 then []
    else
      var init := xs[..|xs| - 1];
      assert xs == init + [xs[|xs| - 1]];
      Insert(FromSeq(init), xs[|xs| - 1])
  }

  /** The position of the first occurrence of `x` in `xs`. */
  function FirstIndex(xs: seq<int>, x: int): (i: nat)
    requires x in xs
    ensures i < |xs| && xs[i] == x && forall j :: 0 <= j < i ==> xs[j] != x
  {
    if xs[0] == x then 0 else 1 + FirstIndex(xs[1..], x)
  }

  /** Appending to a sequence moves no first occurrence of an element it already has. */
  lemma FirstIndexPrefix(p: seq<int>, q: seq<int>, x: int)
    requires x in p
    ensures FirstIndex(p + q, x) == FirstIndex(p, x)
  {
    var k := FirstIndex(p, x);
    assert (p + q)[k] == x;
  }

  /** `new Set(xs)` lists the elements of `xs` in the order of their first occurrence in `xs`. */
  lemma {:induction false} FromSeqFirstOccurrence(xs: seq<int>)
    ensures forall i, j :: 0 <= i < j < |FromSeq(xs)| ==>
              FirstIndex(xs, FromSeq(xs)[i]) < FirstIndex(xs, FromSeq(xs)[j])
  {
    if |xs| > 0 {
      var init, x := xs[..|xs| - 1], xs[|xs| - 1];
      assert xs == init + [x];
      FromSeqFirstOccurrence(init);
      var r0, r := FromSeq(init), FromSeq(xs);
      forall k | 0 <= k < |r0|
        ensures FirstIndex(xs, r0[k]) == FirstIndex(init, r0[k]) < |init|
      {
        FirstIndexPrefix(init, [x], r0[k]);
      }
      if x !in init {
        assert r == r0 + [x] && FirstIndex(xs, x) == |init|;
      }
    }
  }

  /** Building a set from a sequence without repetitions keeps the sequence as it is. */
  lemma {:induction false} FromDistinct(xs: seq<int>)
    requires Distinct(xs)
    ensures FromSeq(xs) == xs
  {
    if |xs| > 0 {
      var init := xs[..|xs| - 1];
      FromDistinct(init);
      assert xs[|xs| - 1] !in init;
      assert init + [xs[|xs| - 1]] == xs;
    }
  }
}

/**
 * Python's `range(start, start + amount)` over article IDs, shared by both
 * macro variants, with the two facts about prefixes that the loops over a
 * range use to grow their results.
 */
module Ranges {

  /** The number of IDs `range(start, start + amount)` yields: none for a
      count that is zero or negative. */
  function Count(amount: int): nat { if amount > 0 then amount else 0 }

  /** `range(start, start + amount)` as a sequence. */
  function IdRange(start: int, amount: int): (ids: seq<int>)
    ensures |ids| == Count(amount)
    ensures forall k :: 0 <= k < |ids| ==> ids[k] == start + k
  {
    seq(Count(amount), k requires 0 <= k < Count(amount) => start + k)
  }

  /** The range holds exactly the IDs `start .. start + amount - 1`, each once,
      in increasing order. */
  lemma IdRangeMembers(start: int, amount: int)
    ensures forall x :: x in IdRange(start, amount) <==> start <= x < start + amount
    ensures forall k, l :: 0 <= k < l < |IdRange(start, amount)| ==>
              IdRange(start, amount)[k] < IdRange(start, amount)[l]
  {
    var ids := IdRange(start, amount);
    forall x | start <= x < start + amount
      ensures x in ids
    {
      assert ids[x - start] == x;
    }
  }

  /** The first `k + 1` elements of any sequence extend the first `k` by the
      element at `k`; the loops over a range grow their results this way. */
  lemma PrefixSnoc<T>(s: seq<T>, k: nat)
    requires k < |s|
    ensures s[..k + 1] == s[..k] + [s[k]]
  {
  }

  /** Any sequence is its first `k` elements followed by the rest. */
  lemma PrefixSplit<T>(s: seq<T>, k: nat)
    requires k <= |s|
    ensures s == s[..k] + s[k..]
  {
  }

  /** A range of `a + b` IDs is its first `a` IDs followed by the next `b`. */
  lemma IdRangeSplit(start: int, a: nat, b: nat)
    ensures IdRange(start, a + b) == IdRange(start, a) + IdRange(start + a, b)
  {
    var whole, left, right := IdRange(start, a + b), IdRange(start, a), IdRange(start + a, b);
    assert forall k :: a <= k < a + b ==> whole[k] == right[k - a];
  }
}

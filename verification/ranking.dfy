/** The concentration analysis of `getTopHolders` (src/index.ts:229-286):
    holders sorted by percentage, largest first, and the percentages of the
    first ten added up. */
module Ranking {
  import opened Common
  import opened Holders

  /** Field `f` never increases along `hs`. */
  predicate SortedDesc(hs: seq<Holder>, f: Field) {
    forall i, j :: 0 <= i < j < |hs| ==> Key(hs[i], f) >= Key(hs[j], f)
  }

  predicate NonIncreasing(xs: seq<real>) {
    forall i, j :: 0 <= i < j < |xs| ==> xs[i] >= xs[j]
  }

  /** Places `h` into a sorted sequence after every element whose field is
      at least as large, so that an element inserted later stays behind its
      equals. */
  function Insert(h: Holder, s: seq<Holder>, f: Field): (r: seq<Holder>)
    requires SortedDesc(s, f)
    ensures SortedDesc(r, f)
    ensures multiset(r) == multiset(s) + multiset{h}
  {
    if |s| == 0 then [h]
    else if Key(h, f) > Key(s[0], f) then [h] + s
    else
      var tail := Insert(h, s[1..], f);
      assert s == [s[0]] + s[1..];
      BelowHead(s, h, tail, f);
      [s[0]] + tail
  }

  /** Putting `s[0]` in front of a rearrangement of the rest of `s` plus a
      holder no larger than `s[0]` keeps the order. */
  lemma BelowHead(s: seq<Holder>, h: Holder, tail: seq<Holder>, f: Field)
    requires |s| > 0 && SortedDesc(s, f) && SortedDesc(tail, f)
    requires Key(h, f) <= Key(s[0], f)
    requires multiset(tail) == multiset(s[1..]) + multiset{h}
    ensures SortedDesc([s[0]] + tail, f)
  {
    forall k | 0 <= k < |tail|
      ensures Key(tail[k], f) <= Key(s[0], f)
    {
      assert tail[k] in multiset(tail);
      if tail[k] != h {
        assert tail[k] in multiset(s[1..]);
        var m :| 0 <= m < |s[1..]| && s[1..][m] == tail[k];
        assert s[m + 1] == tail[k];
      }
    }
  }

  /** `Array.prototype.sort` with the comparator `(a, b) => b.f - a.f`: a
      stable insertion sort, largest field first. */
  function SortDesc(s: seq<Holder>, f: Field): (r: seq<Holder>)
    ensures SortedDesc(r, f)
    ensures multiset(r) == multiset(s)
    decreases |s|
  {
    if |s| == 0 then []
    else
      var n := |s| - 1;
      assert s == s[..n] + [s[n]];
      Insert(s[n], SortDesc(s[..n], f), f)
  }

  /** The number of holders the concentration signal adds up. */
  const TopCount: nat := 10

  /** The sum of the `n` largest percentages; 0 when there are no holders
      (src/index.ts:238-272). */
  function TopPercentage(holders: seq<Holder>, n: nat): (r: real)
    ensures |holders| == 0 ==> r == 0.0
    ensures |holders| <= n ==> r == Sum(holders, Share)
    ensures (forall i :: 0 <= i < |holders| ==> holders[i].percentage >= 0.0) ==> r >= 0.0
  {
    if |holders| == 0 then 0.0
    else
      var sorted := SortDesc(holders, Share);
      var k := Min(n, |sorted|);
      assert |sorted| == |multiset(sorted)| == |holders|;
      assert |holders| <= n ==> sorted[..k] == sorted;
      SumPermutation(sorted, holders, Share);
      PrefixSumNonNegative(holders, k);
      Sum(sorted[..k], Share)
  }

  /** `getTopHolders` after the ledger query. */
  function Top10Percentage(holders: seq<Holder>): (r: real)
    ensures |holders| == 0 ==> r == 0.0
    ensures |holders| <= TopCount ==> r == Sum(holders, Share)
  {
    TopPercentage(holders, TopCount)
  }

  /** A prefix of the sorted non-negative percentages has a non-negative
      sum. */
  lemma PrefixSumNonNegative(holders: seq<Holder>, k: nat)
    requires k <= |holders|
    ensures |SortDesc(holders, Share)| == |holders|
    ensures (forall i :: 0 <= i < |holders| ==> holders[i].percentage >= 0.0) ==>
      Sum(SortDesc(holders, Share)[..k], Share) >= 0.0
  {
    var q := SortDesc(holders, Share);
    assert |q| == |multiset(q)| == |holders|;
    if |holders| > 0 && forall i :: 0 <= i < |holders| ==> holders[i].percentage >= 0.0 {
      SortedShares(holders);
      SumNonNegative(q[..k], Share);
    }
  }

  // ---------------------------------------------------------------------

  lemma SortedKeys(hs: seq<Holder>, f: Field)
    requires SortedDesc(hs, f)
    ensures NonIncreasing(Keys(hs, f))
  {
  }

  /** Two non-increasing sequences holding the same values are equal. */
  lemma {:induction false} NonIncreasingUnique(xs: seq<real>, ys: seq<real>)
    requires NonIncreasing(xs) && NonIncreasing(ys)
    requires multiset(xs) == multiset(ys)
    ensures xs == ys
    decreases |xs|
  {
    if |xs| == 0 {
      assert |multiset(ys)| == 0;
    } else {
      SameHead(xs, ys);
      NonIncreasingUnique(xs[1..], ys[1..]);
      assert xs == [xs[0]] + xs[1..];
      assert ys == [ys[0]] + ys[1..];
    }
  }

  /** The induction step: the heads agree, and the tails again satisfy the
      hypotheses. */
  lemma SameHead(xs: seq<real>, ys: seq<real>)
    requires |xs| > 0
    requires NonIncreasing(xs) && NonIncreasing(ys)
    requires multiset(xs) == multiset(ys)
    ensures |ys| > 0 && xs[0] == ys[0]
    ensures NonIncreasing(xs[1..]) && NonIncreasing(ys[1..])
    ensures multiset(xs[1..]) == multiset(ys[1..])
  {
    assert |ys| == |multiset(ys)| == |multiset(xs)| == |xs|;
    HeadIsLargest(xs, ys[0]);
    HeadIsLargest(ys, xs[0]);
    MultisetTail(xs);
    MultisetTail(ys);
    NonIncreasingTail(xs);
    NonIncreasingTail(ys);
  }

  /** The head of a non-increasing sequence is at least each of its values. */
  lemma HeadIsLargest(xs: seq<real>, v: real)
    requires |xs| > 0 && NonIncreasing(xs)
    requires v in multiset(xs)
    ensures xs[0] >= v
  {
    var i :| 0 <= i < |xs| && xs[i] == v;
  }

  lemma NonIncreasingTail(xs: seq<real>)
    requires |xs| > 0 && NonIncreasing(xs)
    ensures NonIncreasing(xs[1..])
  {
  }

  lemma MultisetTail(xs: seq<real>)
    requires |xs| > 0
    ensures multiset(xs[1..]) == multiset(xs) - multiset{xs[0]}
  {
    assert xs == [xs[0]] + xs[1..];
  }

  /** Sorting only decides the order of holders with equal percentages, and
      the sum of the first `k` does not depend on that choice: any sorted
      rearrangement of the holders gives the same top-`n` sum. */
  lemma TopPercentageTieIndependent(holders: seq<Holder>, p: seq<Holder>, n: nat)
    requires multiset(p) == multiset(holders)
    requires SortedDesc(p, Share)
    ensures TopPercentage(holders, n) == Sum(p[..Min(n, |p|)], Share)
  {
    var q := SortDesc(holders, Share);
    KeysPermutation(p, q, Share);
    SortedKeys(p, Share);
    SortedKeys(q, Share);
    NonIncreasingUnique(Keys(p, Share), Keys(q, Share));
    assert |p| == |multiset(p)| == |holders|;
    var k := Min(n, |p|);
    KeysPrefix(p, k, Share);
    KeysPrefix(q, k, Share);
    if |holders| == 0 {
      assert p[..k] == [];
    }
  }

  /** Every element of a rearrangement of `hs` occurs in `hs`. */
  lemma PermutationMembers(hs: seq<Holder>, q: seq<Holder>)
    requires multiset(q) == multiset(hs)
    ensures forall k :: 0 <= k < |q| ==> q[k] in hs
    ensures forall i :: 0 <= i < |hs| ==> hs[i] in q
  {
    forall k | 0 <= k < |q|
      ensures q[k] in hs
    {
      assert q[k] in multiset(hs);
    }
    forall i | 0 <= i < |hs|
      ensures hs[i] in q
    {
      assert hs[i] in multiset(q);
    }
  }

  lemma TopAtLeastFirst(q: seq<Holder>, k: nat)
    requires 1 <= k <= |q|
    requires forall m :: 0 <= m < |q| ==> Key(q[m], Share) >= 0.0
    ensures Key(q[0], Share) <= Sum(q[..k], Share)
  {
    SumPrefixMonotone(q, 1, k, Share);
    SumSingleton(q[0], Share);
    assert q[..1] == [q[0]];
  }

  lemma TopAtMostAll(q: seq<Holder>, k: nat)
    requires k <= |q|
    requires forall m :: 0 <= m < |q| ==> Key(q[m], Share) >= 0.0
    ensures Sum(q[..k], Share) <= Sum(q, Share)
  {
    SumPrefixMonotone(q, k, |q|, Share);
    assert q[..|q|] == q;
  }

  /** Sorting non-negative percentages: the result has the same length and
      sum, only non-negative percentages, and the largest one first. */
  lemma SortedShares(hs: seq<Holder>)
    requires |hs| > 0
    requires forall i :: 0 <= i < |hs| ==> hs[i].percentage >= 0.0
    ensures var q := SortDesc(hs, Share);
      |q| == |hs| &&
      (forall m :: 0 <= m < |q| ==> Key(q[m], Share) >= 0.0) &&
      (forall i :: 0 <= i < |hs| ==> hs[i].percentage <= Key(q[0], Share)) &&
      Sum(q, Share) == Sum(hs, Share)
  {
    var q := SortDesc(hs, Share);
    assert |q| == |multiset(q)| == |hs|;
    PermutationMembers(hs, q);
    forall m | 0 <= m < |q|
      ensures Key(q[m], Share) >= 0.0
    {
      var i :| 0 <= i < |hs| && hs[i] == q[m];
    }
    forall i | 0 <= i < |hs|
      ensures hs[i].percentage <= Key(q[0], Share)
    {
      var m :| 0 <= m < |q| && q[m] == hs[i];
    }
    SumPermutation(q, hs, Share);
  }

  lemma TopOfSorted(hs: seq<Holder>, n: nat)
    requires |hs| > 0
    ensures var q := SortDesc(hs, Share);
      TopPercentage(hs, n) == Sum(q[..Min(n, |q|)], Share)
  {
  }

  /** For non-negative percentages, the top-ten sum lies between the largest
      single percentage and the sum of all of them, and is that sum when
      there are at most ten holders. */
  lemma TopBetweenLargestAndAll(hs: seq<Holder>)
    requires forall i :: 0 <= i < |hs| ==> hs[i].percentage >= 0.0
    ensures forall i :: 0 <= i < |hs| ==>
      hs[i].percentage <= Top10Percentage(hs) <= Sum(hs, Share)
    ensures |hs| <= TopCount ==> Top10Percentage(hs) == Sum(hs, Share)
  {
    if |hs| > 0 {
      var q := SortDesc(hs, Share);
      SortedShares(hs);
      var k := Min(TopCount, |q|);
      TopOfSorted(hs, TopCount);
      TopAtLeastFirst(q, k);
      TopAtMostAll(q, k);
      if |hs| <= TopCount {
        assert q[..k] == q;
      }
    } else {
      assert Sum(hs, Share) == 0.0;
    }
  }

  /** For a distribution the enumerator produces: the top-ten sum is 0
      without holders; otherwise it is at least the largest single
      percentage and at most 100, and exactly 100 when there are at most
      ten holders. */
  lemma TopPercentageBounds(d: Distribution)
    requires Valid(d)
    ensures |d.holders| == 0 ==> Top10Percentage(d.holders) == 0.0
    ensures forall i :: 0 <= i < |d.holders| ==>
      d.holders[i].percentage <= Top10Percentage(d.holders) <= 100.0
    ensures 0 < |d.holders| <= TopCount ==> Top10Percentage(d.holders) == 100.0
  {
    ValidPercentageBounds(d);
    if |d.holders| > 0 {
      ValidSharesSumTo100(d);
    }
    TopBetweenLargestAndAll(d.holders);
  }

  /** Adding up more of the largest holders never gives less (for
      non-negative percentages). */
  lemma TopPercentageMonotone(holders: seq<Holder>, n: nat, m: nat)
    requires n <= m
    requires forall i :: 0 <= i < |holders| ==> holders[i].percentage >= 0.0
    ensures TopPercentage(holders, n) <= TopPercentage(holders, m)
  {
    if |holders| > 0 {
      var q := SortDesc(holders, Share);
      SortedShares(holders);
      SumPrefixMonotone(q, Min(n, |q|), Min(m, |q|), Share);
    }
  }
}

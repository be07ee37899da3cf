/** The bundled-wallet grouping of `analyzeBundledHoldings`
    (src/index.ts:289-310): holders at or above a percentage threshold,
    ranked by amount, and their combined amount and share of supply. */
module Bundling {
  import opened Common
  import opened Holders
  import opened Ranking

  /** `BundledHoldings`. The percentage is a JavaScript number: the source
      divides by the supply without checking it for zero. */
  datatype BundledHoldings = BundledHoldings(
    totalBundledAmount: real,
    bundledPercentage: Number,
    bundledWallets: seq<Holder>)

  /** The default value of the `threshold` parameter, in percent. */
  const DefaultThreshold: real := 1.0

  /** `holders.filter(h => h.percentage >= threshold)`: the significant
      holders, in their original order. */
  function Significant(hs: seq<Holder>, threshold: real): (r: seq<Holder>)
    ensures forall h :: h in r <==> h in hs && h.percentage >= threshold
    ensures |r| <= |hs|
    decreases |hs|
  {
    if |hs| == 0 then []
    else
      var n := |hs| - 1;
      var init := Significant(hs[..n], threshold);
      assert hs == hs[..n] + [hs[n]];
      if hs[n].percentage >= threshold then init + [hs[n]] else init
  }

  /** The filter keeps every significant holder as often as it occurs, and
      no other. */
  lemma {:induction false} SignificantCounts(hs: seq<Holder>, threshold: real)
    ensures forall h ::
      multiset(Significant(hs, threshold))[h] == (if h.percentage >= threshold then multiset(hs)[h] else 0)
    decreases |hs|
  {
    if |hs| > 0 {
      var n := |hs| - 1;
      SignificantCounts(hs[..n], threshold);
      assert hs == hs[..n] + [hs[n]];
      assert multiset(hs) == multiset(hs[..n]) + multiset{hs[n]};
    }
  }

  /** The filter keeps input order: filtering `s + t` gives the significant
      holders of `s`, then those of `t`. */
  lemma {:induction false} SignificantAppend(s: seq<Holder>, t: seq<Holder>, threshold: real)
    ensures Significant(s + t, threshold) == Significant(s, threshold) + Significant(t, threshold)
    decreases |t|
  {
    if |t| == 0 {
      assert s + t == s;
    } else {
      var n := |t| - 1;
      var last := t[n];
      assert (s + t)[..|s + t| - 1] == s + t[..n];
      assert (s + t)[|s + t| - 1] == last;
      SignificantAppend(s, t[..n], threshold);
      if last.percentage >= threshold {
        assert Significant(s + t, threshold) == Significant(s + t[..n], threshold) + [last];
        assert Significant(t, threshold) == Significant(t[..n], threshold) + [last];
      } else {
        assert Significant(s + t, threshold) == Significant(s + t[..n], threshold);
        assert Significant(t, threshold) == Significant(t[..n], threshold);
      }
    }
  }

  /** `analyzeBundledHoldings` after the ledger query: the significant holders
      sorted by amount, largest first, their summed amount, and that sum as a
      percentage of the supply. */
  function AnalyzeBundledHoldings(d: Distribution, threshold: real): (r: BundledHoldings)
    ensures forall h :: h in r.bundledWallets <==> h in d.holders && h.percentage >= threshold
    ensures multiset(r.bundledWallets) == multiset(Significant(d.holders, threshold))
    ensures SortedDesc(r.bundledWallets, Amount)
    ensures r.totalBundledAmount == Sum(Significant(d.holders, threshold), Amount)
  {
    var significant := Significant(d.holders, threshold);
    var wallets := SortDesc(significant, Amount);
    var total := Sum(wallets, Amount);
    SumPermutation(wallets, significant, Amount);
    assert forall h :: h in wallets <==> h in multiset(significant);
    BundledHoldings(total, Percent(total, d.totalSupply), wallets)
  }

  // ---------------------------------------------------------------------

  /** Leaving holders out of a sum of non-negative amounts never increases
      it. */
  lemma {:induction false} SignificantSumAtMost(hs: seq<Holder>, threshold: real)
    requires forall i :: 0 <= i < |hs| ==> hs[i].amount >= 0.0
    ensures 0.0 <= Sum(Significant(hs, threshold), Amount) <= Sum(hs, Amount)
    decreases |hs|
  {
    if |hs| == 0 {
    } else {
      var n := |hs| - 1;
      SignificantSumAtMost(hs[..n], threshold);
      assert hs == hs[..n] + [hs[n]];
      SumAppend(hs[..n], [hs[n]], Amount);
      SumSingleton(hs[n], Amount);
      if hs[n].percentage >= threshold {
        SumAppend(Significant(hs[..n], threshold), [hs[n]], Amount);
      }
    }
  }

  /** For a distribution the enumerator produces: the bundled amount lies
      between 0 and the supply, and the percentage is NaN exactly when the
      supply is zero (there are then no holders, and the source computes
      0 / 0). */
  lemma BundledBounds(d: Distribution, threshold: real)
    requires Valid(d)
    ensures 0.0 <= AnalyzeBundledHoldings(d, threshold).totalBundledAmount <= d.totalSupply
    ensures AnalyzeBundledHoldings(d, threshold).bundledPercentage.NaN? <==> d.totalSupply == 0.0
    ensures d.totalSupply == 0.0 ==>
      AnalyzeBundledHoldings(d, threshold) == BundledHoldings(0.0, NaN, [])
  {
    var r := AnalyzeBundledHoldings(d, threshold);
    var significant := Significant(d.holders, threshold);
    assert r.totalBundledAmount == Sum(significant, Amount);
    assert forall i :: 0 <= i < |d.holders| ==> d.holders[i].amount >= 0.0;
    SignificantSumAtMost(d.holders, threshold);
    ValidSupply(d);
    assert r.bundledPercentage == Percent(r.totalBundledAmount, d.totalSupply);
    if d.totalSupply == 0.0 {
      assert |significant| == 0;
      assert |r.bundledWallets| == |multiset(r.bundledWallets)| == 0;
    }
  }

  /** With a positive supply, the bundled percentage is the bundled amount's
      share of the supply, between 0 and 100. */
  lemma BundledShare(d: Distribution, threshold: real)
    requires Valid(d)
    requires d.totalSupply > 0.0
    ensures var r := AnalyzeBundledHoldings(d, threshold);
      r.bundledPercentage.Finite? &&
      0.0 <= r.bundledPercentage.value <= 100.0 &&
      r.bundledPercentage.value == r.totalBundledAmount / d.totalSupply * 100.0
  {
    BundledBounds(d, threshold);
    var r := AnalyzeBundledHoldings(d, threshold);
    assert r.bundledPercentage == Percent(r.totalBundledAmount, d.totalSupply);
    PercentBounds(r.bundledPercentage, r.totalBundledAmount, d.totalSupply);
  }

  lemma PercentBounds(p: Number, part: real, whole: real)
    requires 0.0 <= part <= whole && whole > 0.0
    requires p == Percent(part, whole)
    ensures p.Finite? && 0.0 <= p.value <= 100.0 && p.value == part / whole * 100.0
  {
    assert part / whole <= 1.0;
  }

  /** A threshold no holder falls below bundles every holder: the whole
      supply, 100 percent of it when there is any. */
  lemma BundledEverything(d: Distribution, threshold: real)
    requires Valid(d)
    requires forall i :: 0 <= i < |d.holders| ==> d.holders[i].percentage >= threshold
    ensures var r := AnalyzeBundledHoldings(d, threshold);
      r.totalBundledAmount == d.totalSupply &&
      multiset(r.bundledWallets) == multiset(d.holders) &&
      (|d.holders| > 0 ==> r.bundledPercentage == Finite(100.0))
  {
    SignificantAll(d.holders, threshold);
    ValidSupply(d);
    var r := AnalyzeBundledHoldings(d, threshold);
    assert r.totalBundledAmount == d.totalSupply;
    assert r.bundledPercentage == Percent(d.totalSupply, d.totalSupply);
    if |d.holders| > 0 {
      PercentOfWhole(d.totalSupply);
    }
  }

  lemma PercentOfWhole(whole: real)
    requires whole > 0.0
    ensures Percent(whole, whole) == Finite(100.0)
  {
    assert whole / whole == 1.0;
  }

  lemma {:induction false} SignificantAll(hs: seq<Holder>, threshold: real)
    requires forall i :: 0 <= i < |hs| ==> hs[i].percentage >= threshold
    ensures Significant(hs, threshold) == hs
    decreases |hs|
  {
    if |hs| > 0 {
      var n := |hs| - 1;
      SignificantAll(hs[..n], threshold);
      assert hs[n].percentage >= threshold;
      assert Significant(hs, threshold) == Significant(hs[..n], threshold) + [hs[n]];
      assert hs == hs[..n] + [hs[n]];
    }
  }
}

/** Two worked distributions: three holders of 60, 30 and 10 tokens, and no
    holder at all. */
module Scenarios {
  import opened Common
  import opened Holders
  import opened Ranking
  import opened Bundling

  function ThreeAccounts(): seq<TokenAccount> {
    [TokenAccount("A", 60, 0), TokenAccount("B", 30, 0), TokenAccount("C", 10, 0)]
  }

  function ThreeHolders(): seq<Holder> {
    [Holder("A", 60.0, 60.0), Holder("B", 30.0, 30.0), Holder("C", 10.0, 10.0)]
  }

  /** Three holders of 60, 30 and 10 tokens: a supply of 100 and
      percentages 60, 30 and 10. */
  lemma ThreeHoldersDistribution()
    ensures Distribute(ThreeAccounts()) == Distribution(100.0, ThreeHolders())
  {
    var accounts := ThreeAccounts();
    assert accounts[..2][..1] == accounts[..1];
    assert accounts[..1][..0] == [];
    assert Kept(accounts[..1]) == [Holder("A", 60.0, 0.0)];
    assert Kept(accounts[..2]) == [Holder("A", 60.0, 0.0), Holder("B", 30.0, 0.0)];
    var kept := Kept(accounts);
    assert kept == [Holder("A", 60.0, 0.0), Holder("B", 30.0, 0.0), Holder("C", 10.0, 0.0)];
    SumThree(kept, Amount);
  }

  lemma SumThree(hs: seq<Holder>, f: Field)
    requires |hs| == 3
    ensures Sum(hs, f) == Key(hs[0], f) + Key(hs[1], f) + Key(hs[2], f)
  {
    assert hs == [hs[0]] + [hs[1]] + [hs[2]];
    SumAppend([hs[0]] + [hs[1]], [hs[2]], f);
    SumAppend([hs[0]], [hs[1]], f);
    SumSingleton(hs[0], f);
    SumSingleton(hs[1], f);
    SumSingleton(hs[2], f);
  }

  lemma ThreeHoldersSorted()
    ensures SortedDesc(ThreeHolders(), Share)
  {
  }

  /** The top-two sum of these holders is 90. */
  lemma ThreeHoldersTopTwo()
    ensures TopPercentage(ThreeHolders(), 2) == 90.0
  {
    ThreeHoldersSorted();
    TopTwoOfSorted(ThreeHolders());
  }

  /** The top two of a sorted list are its first two. */
  lemma TopTwoOfSorted(hs: seq<Holder>)
    requires SortedDesc(hs, Share) && |hs| >= 2
    ensures TopPercentage(hs, 2) == hs[0].percentage + hs[1].percentage
  {
    TopPercentageTieIndependent(hs, hs, 2);
    assert hs[..Min(2, |hs|)] == [hs[0]] + [hs[1]];
    SumAppend([hs[0]], [hs[1]], Share);
    SumSingleton(hs[0], Share);
    SumSingleton(hs[1], Share);
  }

  /** The top-ten sum of these holders is 100. */
  lemma ThreeHoldersTopTen()
    ensures Top10Percentage(ThreeHolders()) == 100.0
  {
    var hs := ThreeHolders();
    ThreeHoldersSorted();
    TopOfFewSorted(hs, TopCount);
    SumThree(hs, Share);
  }

  /** A sorted list no longer than n is its own top n. */
  lemma TopOfFewSorted(hs: seq<Holder>, n: nat)
    requires SortedDesc(hs, Share) && |hs| <= n
    ensures TopPercentage(hs, n) == Sum(hs, Share)
  {
    TopPercentageTieIndependent(hs, hs, n);
    assert hs[..Min(n, |hs|)] == hs;
  }

  /** At the default threshold all three are bundled, in the same order:
      100 tokens, 100 percent. */
  lemma ThreeHoldersBundled()
    ensures var b := AnalyzeBundledHoldings(Distribution(100.0, ThreeHolders()), DefaultThreshold);
      b.totalBundledAmount == 100.0 && b.bundledPercentage == Finite(100.0) &&
      b.bundledWallets == ThreeHolders()
  {
    var d := Distribution(100.0, ThreeHolders());
    ThreeHoldersDistribution();
    DistributeValid(ThreeAccounts());
    BundledEverything(d, DefaultThreshold);
    var b := AnalyzeBundledHoldings(d, DefaultThreshold);
    SortedPermutationOfDistinct(b.bundledWallets, d.holders);
  }

  /** No holder: a supply of 0, a top-ten sum of 0, and a bundled result of
      0 tokens with a NaN percentage (0 / 0). */
  lemma NoHolders()
    ensures var d := Distribute([]);
      d == Distribution(0.0, []) &&
      Top10Percentage(d.holders) == 0.0 &&
      AnalyzeBundledHoldings(d, DefaultThreshold) == BundledHoldings(0.0, NaN, [])
  {
    DistributeValid([]);
    BundledBounds(Distribute([]), DefaultThreshold);
  }

  /** Three holders with distinct, strictly decreasing amounts have only one
      ordering by amount. */
  lemma SortedPermutationOfDistinct(p: seq<Holder>, hs: seq<Holder>)
    requires |hs| == 3
    requires hs[0].amount > hs[1].amount > hs[2].amount
    requires multiset(p) == multiset(hs)
    requires SortedDesc(p, Amount)
    ensures p == hs
  {
    assert |p| == |multiset(p)| == 3;
    KeysPermutation(p, hs, Amount);
    SortedKeys(p, Amount);
    assert SortedDesc(hs, Amount);
    SortedKeys(hs, Amount);
    NonIncreasingUnique(Keys(p, Amount), Keys(hs, Amount));
    forall i | 0 <= i < 3
      ensures p[i] == hs[i]
    {
      assert p[i] in multiset(hs);
      var j :| 0 <= j < 3 && hs[j] == p[i];
      assert Keys(p, Amount)[i] == Keys(hs, Amount)[i];
    }
  }
}

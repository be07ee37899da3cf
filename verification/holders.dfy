/** The holder enumerator and distribution calculator of `getTokenHolders`
    (src/index.ts:172-226): every token account of a mint, already fetched,
    becomes a holder with a decimal-normalised amount; empty accounts are
    dropped; each holder's share of the summed supply is set once the whole
    list is known. */
module Holders {
  import opened Common

  /** A parsed token account as the ledger query returns it: the account's
      address, its raw integer amount and the mint's decimals. */
  datatype TokenAccount = TokenAccount(address: string, rawAmount: nat, decimals: nat)

  /** `TokenHolder`: a holder's normalised amount and its percentage of the
      total supply. */
  datatype Holder = Holder(address: string, amount: real, percentage: real)

  /** `TokenDistribution`: the summed supply and the holders, in the order the
      accounts were enumerated. */
  datatype Distribution = Distribution(totalSupply: real, holders: seq<Holder>)

  /** The numeric field of a holder that a sum or a sort looks at. */
  datatype Field = Amount | Share

  function Key(h: Holder, f: Field): real {
    match f
    case Amount => h.amount
    case Share => h.percentage
  }

  /** The values of field `f`, holder by holder. */
  function Keys(hs: seq<Holder>, f: Field): (ks: seq<real>)
    ensures |ks| == |hs|
    ensures forall i :: 0 <= i < |hs| ==> ks[i] == Key(hs[i], f)
  {
    seq(|hs|, i requires 0 <= i < |hs| => Key(hs[i], f))
  }

  /** The sum of a sequence of reals, added left to right as the source's
      loops and `reduce` do. */
  function Total(xs: seq<real>): real
    decreases |xs|
  {
    if |xs| == 0 then 0.0 else Total(xs[..|xs| - 1]) + xs[|xs| - 1]
  }

  /** The sum of field `f` over `hs`. */
  function Sum(hs: seq<Holder>, f: Field): real {
    Total(Keys(hs, f))
  }

  /** `amount / Math.pow(10, decimals)` (src/index.ts:200-202). */
  function UiAmount(a: TokenAccount): (r: real)
    ensures r >= 0.0
    ensures r > 0.0 <==> a.rawAmount > 0
    ensures r * Pow10(a.decimals) as real == a.rawAmount as real
  {
    a.rawAmount as real / Pow10(a.decimals) as real
  }

  /** The holder pushed for account `a`, before its percentage is known. */
  function Pushed(a: TokenAccount): Holder {
    Holder(a.address, UiAmount(a), 0.0)
  }

  /** The holders the enumeration loop pushes (src/index.ts:198-212): one per
      account with a positive normalised amount, in account order. */
  function Kept(accounts: seq<TokenAccount>): (r: seq<Holder>)
    ensures |r| <= |accounts|
    ensures forall k :: 0 <= k < |r| ==> r[k].amount > 0.0 && r[k].percentage == 0.0
    decreases |accounts|
  {
    if |accounts| == 0 then []
    else
      var a := accounts[|accounts| - 1];
      var init := Kept(accounts[..|accounts| - 1]);
      if UiAmount(a) > 0.0 then init + [Pushed(a)] else init
  }

  /** The second pass (src/index.ts:214-216): every holder's percentage
      becomes `amount / totalSupply * 100`, nothing else changes. */
  function WithPercentages(hs: seq<Holder>, totalSupply: real): (r: seq<Holder>)
    requires |hs| > 0 ==> totalSupply != 0.0
    ensures |r| == |hs|
    ensures forall i :: 0 <= i < |hs| ==>
      r[i].address == hs[i].address && r[i].amount == hs[i].amount &&
      r[i].percentage * totalSupply == hs[i].amount * 100.0
  {
    seq(|hs|, i requires 0 <= i < |hs| =>
      hs[i].(percentage := hs[i].amount / totalSupply * 100.0))
  }

  /** The reference definition of `getTokenHolders` over fetched accounts. */
  function Distribute(accounts: seq<TokenAccount>): (d: Distribution)
    ensures d.totalSupply == Sum(Kept(accounts), Amount)
    ensures d.totalSupply == 0.0 <==> |d.holders| == 0
    ensures |d.holders| == |Kept(accounts)|
    ensures forall i :: 0 <= i < |d.holders| ==>
      d.holders[i].address == Kept(accounts)[i].address &&
      d.holders[i].amount == Kept(accounts)[i].amount
  {
    var hs := Kept(accounts);
    SumPositive(hs, Amount);
    var total := Sum(hs, Amount);
    var withShares := WithPercentages(hs, total);
    Distribution(total, withShares)
  }

  /** What every distribution the enumerator produces satisfies: the supply is
      the sum of the amounts and is positive when there is any holder, every
      amount is positive, and every percentage is the holder's share of that
      supply. */
  ghost predicate Valid(d: Distribution) {
    d.totalSupply == Sum(d.holders, Amount) &&
    (|d.holders| > 0 ==> d.totalSupply > 0.0) &&
    forall i :: 0 <= i < |d.holders| ==>
      d.holders[i].amount > 0.0 &&
      d.holders[i].percentage == d.holders[i].amount / d.totalSupply * 100.0
  }

  // ---------------------------------------------------------------------
  // Sums

  lemma {:induction false} TotalAppend(xs: seq<real>, ys: seq<real>)
    ensures Total(xs + ys) == Total(xs) + Total(ys)
    decreases |ys|
  {
    if |ys| == 0 {
      assert xs + ys == xs;
    } else {
      var n := |ys| - 1;
      assert (xs + ys)[..|xs + ys| - 1] == xs + ys[..n];
      TotalAppend(xs, ys[..n]);
    }
  }

  lemma KeysAppend(a: seq<Holder>, b: seq<Holder>, f: Field)
    ensures Keys(a + b, f) == Keys(a, f) + Keys(b, f)
  {
  }

  lemma KeysPrefix(a: seq<Holder>, k: nat, f: Field)
    requires k <= |a|
    ensures Keys(a[..k], f) == Keys(a, f)[..k]
  {
  }

  lemma SumAppend(a: seq<Holder>, b: seq<Holder>, f: Field)
    ensures Sum(a + b, f) == Sum(a, f) + Sum(b, f)
  {
    KeysAppend(a, b, f);
    TotalAppend(Keys(a, f), Keys(b, f));
  }

  /** A sum of non-negative values is non-negative, and positive as soon as
      some value is positive. */
  lemma {:induction false} TotalNonNegative(xs: seq<real>)
    requires forall i :: 0 <= i < |xs| ==> xs[i] >= 0.0
    ensures Total(xs) >= 0.0
    ensures (exists i :: 0 <= i < |xs| && xs[i] > 0.0) ==> Total(xs) > 0.0
    decreases |xs|
  {
    if |xs| > 0 {
      TotalNonNegative(xs[..|xs| - 1]);
      if exists i :: 0 <= i < |xs| && xs[i] > 0.0 {
        var i :| 0 <= i < |xs| && xs[i] > 0.0;
        if i < |xs| - 1 {
          assert xs[..|xs| - 1][i] > 0.0;
        }
      }
    }
  }

  lemma SumSingleton(h: Holder, f: Field)
    ensures Sum([h], f) == Key(h, f)
  {
    var ks := Keys([h], f);
    assert ks[..0] == [];
    assert Total(ks) == Total(ks[..0]) + ks[0];
  }

  /** With non-negative values, no single value exceeds the sum. */
  lemma SumAtLeastElement(hs: seq<Holder>, i: nat, f: Field)
    requires i < |hs|
    requires forall k :: 0 <= k < |hs| ==> Key(hs[k], f) >= 0.0
    ensures Key(hs[i], f) <= Sum(hs, f)
  {
    assert hs == hs[..i] + [hs[i]] + hs[i + 1..];
    SumAppend(hs[..i] + [hs[i]], hs[i + 1..], f);
    SumAppend(hs[..i], [hs[i]], f);
    SumNonNegative(hs[..i], f);
    SumNonNegative(hs[i + 1..], f);
    SumSingleton(hs[i], f);
  }

  lemma SumPositive(hs: seq<Holder>, f: Field)
    requires forall i :: 0 <= i < |hs| ==> Key(hs[i], f) > 0.0
    ensures |hs| > 0 ==> Sum(hs, f) > 0.0
    ensures Sum(hs, f) >= 0.0
  {
    var ks := Keys(hs, f);
    if |hs| > 0 {
      assert ks[0] > 0.0;
    }
    TotalNonNegative(ks);
  }

  lemma SumNonNegative(hs: seq<Holder>, f: Field)
    requires forall i :: 0 <= i < |hs| ==> Key(hs[i], f) >= 0.0
    ensures Sum(hs, f) >= 0.0
  {
    TotalNonNegative(Keys(hs, f));
  }

  /** Taking one summand out of a sum. */
  lemma TotalRemove(ys: seq<real>, j: nat)
    requires j < |ys|
    ensures Total(ys) == Total(ys[..j] + ys[j + 1..]) + ys[j]
  {
    var a, y, b := ys[..j], ys[j], ys[j + 1..];
    assert ys == a + ([y] + b);
    TotalAppend(a, [y] + b);
    TotalAppend([y], b);
    TotalAppend(a, b);
    TotalSingleton(y);
  }

  lemma TotalSingleton(y: real)
    ensures Total([y]) == y
  {
    assert [y][..0] == [];
  }

  /** Sums do not depend on the order of the summands. */
  lemma {:induction false} TotalPermutation(xs: seq<real>, ys: seq<real>)
    requires multiset(xs) == multiset(ys)
    ensures Total(xs) == Total(ys)
    decreases |xs|
  {
    if |xs| > 0 {
      var n := |xs| - 1;
      var x := xs[n];
      assert x in multiset(ys);
      var j :| 0 <= j < |ys| && ys[j] == x;
      var rest := ys[..j] + ys[j + 1..];
      assert ys == ys[..j] + [x] + ys[j + 1..];
      assert xs == xs[..n] + [x];
      assert multiset(xs[..n]) == multiset(xs) - multiset{x};
      assert multiset(rest) == multiset(ys) - multiset{x};
      TotalPermutation(xs[..n], rest);
      TotalRemove(ys, j);
    }
  }

  /** Rearranging holders rearranges their field values the same way. */
  lemma {:induction false} KeysPermutation(a: seq<Holder>, b: seq<Holder>, f: Field)
    requires multiset(a) == multiset(b)
    ensures multiset(Keys(a, f)) == multiset(Keys(b, f))
    decreases |a|
  {
    if |a| > 0 {
      var n := |a| - 1;
      var x := a[n];
      assert x in multiset(b);
      var j :| 0 <= j < |b| && b[j] == x;
      var rest := b[..j] + b[j + 1..];
      assert b == b[..j] + [x] + b[j + 1..];
      assert a == a[..n] + [x];
      assert multiset(a[..n]) == multiset(a) - multiset{x};
      assert multiset(rest) == multiset(b) - multiset{x};
      KeysPermutation(a[..n], rest, f);
      KeysAppend(a[..n], [x], f);
      KeysAppend(b[..j] + [x], b[j + 1..], f);
      KeysAppend(b[..j], [x], f);
      KeysAppend(b[..j], b[j + 1..], f);
    }
  }

  lemma SumPermutation(a: seq<Holder>, b: seq<Holder>, f: Field)
    requires multiset(a) == multiset(b)
    ensures Sum(a, f) == Sum(b, f)
  {
    KeysPermutation(a, b, f);
    TotalPermutation(Keys(a, f), Keys(b, f));
  }

  /** With non-negative values, a longer prefix never sums to less. */
  lemma SumPrefixMonotone(hs: seq<Holder>, i: nat, j: nat, f: Field)
    requires i <= j <= |hs|
    requires forall k :: 0 <= k < |hs| ==> Key(hs[k], f) >= 0.0
    ensures Sum(hs[..i], f) <= Sum(hs[..j], f)
  {
    assert hs[..j] == hs[..i] + hs[i..j];
    SumAppend(hs[..i], hs[i..j], f);
    SumNonNegative(hs[i..j], f);
  }

  // ---------------------------------------------------------------------
  // Enumeration

  /** The enumeration keeps exactly the accounts with a positive normalised
      amount, which are exactly those with a positive raw amount. */
  lemma {:induction false} KeptMembers(accounts: seq<TokenAccount>, h: Holder)
    ensures h in Kept(accounts) <==>
      exists i :: 0 <= i < |accounts| && accounts[i].rawAmount > 0 && h == Pushed(accounts[i])
    decreases |accounts|
  {
    if |accounts| > 0 {
      var n := |accounts| - 1;
      KeptMembers(accounts[..n], h);
      if exists i :: 0 <= i < n && accounts[..n][i].rawAmount > 0 && h == Pushed(accounts[..n][i]) {
        var i :| 0 <= i < n && accounts[..n][i].rawAmount > 0 && h == Pushed(accounts[..n][i]);
        assert accounts[i] == accounts[..n][i];
      }
      if exists i :: 0 <= i < |accounts| && accounts[i].rawAmount > 0 && h == Pushed(accounts[i]) {
        var i :| 0 <= i < |accounts| && accounts[i].rawAmount > 0 && h == Pushed(accounts[i]);
        if i < n {
          assert accounts[..n][i] == accounts[i];
        }
      }
    }
  }

  /** The enumeration keeps input order: enumerating two batches one after
      the other gives the holders of the first batch, then those of the
      second. */
  lemma {:induction false} KeptAppend(s: seq<TokenAccount>, t: seq<TokenAccount>)
    ensures Kept(s + t) == Kept(s) + Kept(t)
    decreases |t|
  {
    if |t| == 0 {
      assert s + t == s;
    } else {
      var n := |t| - 1;
      assert (s + t)[..|s + t| - 1] == s + t[..n];
      assert (s + t)[|s + t| - 1] == t[n];
      KeptAppend(s, t[..n]);
    }
  }

  /** The enumeration loop (src/index.ts:195-216), run over fetched accounts:
      it computes the reference distribution, which is valid. */
  method GetTokenHolders(accounts: seq<TokenAccount>) returns (d: Distribution)
    ensures d == Distribute(accounts)
    ensures Valid(d)
  {
    var holders, totalSupply := EnumerateHolders(accounts);
    SumPositive(holders, Amount);
    var result := SetPercentages(holders, totalSupply);
    d := Distribution(totalSupply, result);
    DistributeValid(accounts);
  }

  /** The first loop of `getTokenHolders` (src/index.ts:198-212). */
  method EnumerateHolders(accounts: seq<TokenAccount>) returns (holders: seq<Holder>, totalSupply: real)
    ensures holders == Kept(accounts)
    ensures totalSupply == Sum(holders, Amount)
  {
    holders := [];
    totalSupply := 0.0;
    var i := 0;
    while i < |accounts|
      invariant 0 <= i <= |accounts|
      invariant holders == Kept(accounts[..i])
      invariant totalSupply == Sum(holders, Amount)
    {
      var a := accounts[i];
      var uiAmount := a.rawAmount as real / Pow10(a.decimals) as real;
      assert uiAmount == UiAmount(a);
      assert accounts[..i + 1][..i] == accounts[..i];
      if uiAmount > 0.0 {
        SumAppend(holders, [Pushed(a)], Amount);
        SumSingleton(Pushed(a), Amount);
        holders := holders + [Holder(a.address, uiAmount, 0.0)];
        totalSupply := totalSupply + uiAmount;
      }
      i := i + 1;
    }
    assert accounts[..i] == accounts;
  }

  /** The second loop of `getTokenHolders` (src/index.ts:214-216). */
  method SetPercentages(holders: seq<Holder>, totalSupply: real) returns (result: seq<Holder>)
    requires |holders| > 0 ==> totalSupply != 0.0
    ensures result == WithPercentages(holders, totalSupply)
  {
    var j := 0;
    result := [];
    while j < |holders|
      invariant 0 <= j <= |holders|
      invariant result == WithPercentages(holders, totalSupply)[..j]
    {
      result := result + [holders[j].(percentage := holders[j].amount / totalSupply * 100.0)];
      j := j + 1;
    }
  }

  /** Every distribution the enumerator produces is valid. */
  lemma DistributeValid(accounts: seq<TokenAccount>)
    ensures Valid(Distribute(accounts))
  {
    var hs := Kept(accounts);
    SumPositive(hs, Amount);
    var d := Distribute(accounts);
    assert Keys(d.holders, Amount) == Keys(hs, Amount);
  }

  /** The supply is zero exactly when no holder was kept, and positive
      otherwise. */
  lemma ValidSupply(d: Distribution)
    requires Valid(d)
    ensures d.totalSupply >= 0.0
    ensures d.totalSupply == 0.0 <==> |d.holders| == 0
  {
    SumPositive(d.holders, Amount);
  }

  /** Every holder's percentage lies in (0, 100]. */
  lemma ValidPercentageBounds(d: Distribution)
    requires Valid(d)
    ensures forall i :: 0 <= i < |d.holders| ==>
      0.0 < d.holders[i].percentage <= 100.0
  {
    forall i | 0 <= i < |d.holders|
      ensures 0.0 < d.holders[i].percentage <= 100.0
    {
      SumAtLeastElement(d.holders, i, Amount);
      ShareAtMostWhole(d.holders[i].amount, d.totalSupply);
    }
  }

  lemma ShareAtMostWhole(part: real, whole: real)
    requires 0.0 < part <= whole
    ensures 0.0 < part / whole * 100.0 <= 100.0
  {
    assert part / whole <= 1.0;
  }

  /** Percentages of holders that all share one supply add up to the share
      of their summed amount. */
  lemma {:induction false} SharesAdd(hs: seq<Holder>, total: real)
    requires total > 0.0
    requires forall i :: 0 <= i < |hs| ==> hs[i].percentage == hs[i].amount / total * 100.0
    ensures Sum(hs, Share) == Sum(hs, Amount) / total * 100.0
    decreases |hs|
  {
    if |hs| > 0 {
      var n := |hs| - 1;
      SharesAdd(hs[..n], total);
      assert hs == hs[..n] + [hs[n]];
      SumAppend(hs[..n], [hs[n]], Share);
      SumAppend(hs[..n], [hs[n]], Amount);
      SumSingleton(hs[n], Share);
      SumSingleton(hs[n], Amount);
      SharesAddStep(Sum(hs[..n], Amount), hs[n].amount, total);
    }
  }

  lemma SharesAddStep(a: real, b: real, total: real)
    requires total > 0.0
    ensures a / total * 100.0 + b / total * 100.0 == (a + b) / total * 100.0
  {
  }

  /** The percentages of a non-empty distribution add up to exactly 100. */
  lemma ValidSharesSumTo100(d: Distribution)
    requires Valid(d)
    requires |d.holders| > 0
    ensures Sum(d.holders, Share) == 100.0
  {
    ValidSupply(d);
    SharesAdd(d.holders, d.totalSupply);
    assert d.totalSupply / d.totalSupply == 1.0;
  }
}

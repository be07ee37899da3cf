/** The decision logic of the two developer signals: `hasDevSoldToken`
    (src/index.ts:111-168), which scans the developer's recent transactions
    for a drop in their balance of the mint, and `getDevHoldingAmount`
    (src/index.ts:70-108), which decodes the developer's balance from raw
    token-account bytes and relates it to the mint's supply. The RPC answers
    are parameters. */
module DevSignals {
  import opened Common
  import opened Ledger

  // ---------------------------------------------------------------------
  // hasDevSoldToken

  /** The `limit` passed to `getSignaturesForAddress`. */
  const SignatureLimit: nat := 50

  /** The predicate given to `find`: the balance of wallet `owner` in `mint`. */
  predicate OwnedBy(b: TokenBalance, owner: string, mint: string) {
    b.owner == Some(owner) && b.mint == mint
  }

  /** `balances[i]` is the first balance of `owner` in `mint`. */
  predicate FirstOwnedBy(balances: seq<TokenBalance>, i: nat, owner: string, mint: string)
    requires i < |balances|
  {
    OwnedBy(balances[i], owner, mint) &&
    forall j :: 0 <= j < i ==> !OwnedBy(balances[j], owner, mint)
  }

  /** `balances.find(...)?.uiTokenAmount?.uiAmount ?? 0`
      (src/index.ts:139-151). */
  function BalanceOf(balances: seq<TokenBalance>, owner: string, mint: string): (r: real)
    ensures (forall i :: 0 <= i < |balances| ==> !OwnedBy(balances[i], owner, mint)) ==> r == 0.0
    ensures forall i :: 0 <= i < |balances| && FirstOwnedBy(balances, i, owner, mint) ==>
      r == balances[i].uiAmount.GetOr(0.0)
  {
    match FindFirst(balances, b => OwnedBy(b, owner, mint))
    case None => 0.0
    case Some(i) =>
      assert forall k :: 0 <= k < |balances| && FirstOwnedBy(balances, k, owner, mint) ==> k == i;
      balances[i].uiAmount.GetOr(0.0)
  }

  /** One transaction shows the developer selling (src/index.ts:131-156): it
      was returned, has a meta, succeeded, and the developer's balance of the
      mint before it exceeds the balance after it. */
  predicate ShowsSale(tx: Option<ParsedTransaction>, devWallet: string, mint: string) {
    tx.Some? && tx.value.meta.Some? && tx.value.meta.value.err.None? &&
    var meta := tx.value.meta.value;
    BalanceOf(meta.preTokenBalances.GetOr([]), devWallet, mint) >
    BalanceOf(meta.postTokenBalances.GetOr([]), devWallet, mint)
  }

  /** The transactions the check looks at: at most `SignatureLimit`. */
  function Scanned(history: seq<TxFetch>): seq<TxFetch> {
    history[..Min(SignatureLimit, |history|)]
  }

  /** No transaction fetch before position `i` threw. */
  predicate NoFailureBefore(s: seq<TxFetch>, i: nat)
    requires i <= |s|
  {
    forall j :: 0 <= j < i ==> s[j].Fetched?
  }

  /** The reference meaning of `hasDevSoldToken`: the signature list was
      fetched, and some scanned transaction that the loop reaches before any
      fetch throws shows a sale. `None` stands for a failed
      `getSignaturesForAddress`. */
  predicate DevHasSold(history: Option<seq<TxFetch>>, devWallet: string, mint: string) {
    history.Some? &&
    var s := Scanned(history.value);
    exists i :: 0 <= i < |s| && NoFailureBefore(s, i) && s[i].Fetched? &&
      ShowsSale(s[i].tx, devWallet, mint)
  }

  /** The loop of `hasDevSoldToken`: returns true at the first sale, false
      when a fetch throws (the catch block) or the list runs out. */
  method HasDevSoldToken(history: Option<seq<TxFetch>>, devWallet: string, mint: string)
    returns (sold: bool)
    ensures sold == DevHasSold(history, devWallet, mint)
  {
    if history.None? {
      return false;
    }
    var s := Scanned(history.value);
    var i := 0;
    while i < |s|
      invariant 0 <= i <= |s|
      invariant NoFailureBefore(s, i)
      invariant forall k :: 0 <= k < i ==> !ShowsSale(s[k].tx, devWallet, mint)
    {
      match s[i]
      case FetchFailed =>
        forall k | i < k < |s|
          ensures !NoFailureBefore(s, k)
        {
          assert !s[i].Fetched?;
        }
        return false;
      case Fetched(tx) =>
        if ShowsSale(tx, devWallet, mint) {
          return true;
        }
      i := i + 1;
    }
    return false;
  }

  // ---------------------------------------------------------------------
  // getDevHoldingAmount

  newtype byte = x: int | 0 <= x < 256

  /** What `getMint` returns that is used: the raw supply and the decimals. */
  datatype MintInfo = MintInfo(supply: nat, decimals: nat)

  /** Layout of a token account's data: the mint key is bytes [0, 32), the
      amount a little-endian integer from byte 64. */
  const MintKeyLength: nat := 32
  const AmountOffset: nat := 64

  const TwoTo32: nat := 0x1_0000_0000

  /** `Buffer.readUInt32LE(offset)`. */
  function ReadU32LE(data: seq<byte>, offset: nat): (v: nat)
    requires offset + 4 <= |data|
    ensures v < TwoTo32
  {
    data[offset] as nat + 0x100 * data[offset + 1] as nat +
    0x1_0000 * data[offset + 2] as nat + 0x100_0000 * data[offset + 3] as nat
  }

  /** The four little-endian bytes of a 32-bit value. */
  function EncodeU32LE(v: nat): (bytes: seq<byte>)
    requires v < TwoTo32
    ensures |bytes| == 4
  {
    var v1 := v / 0x100;
    var v2 := v1 / 0x100;
    var v3 := v2 / 0x100;
    [(v % 0x100) as byte, (v1 % 0x100) as byte, (v2 % 0x100) as byte, (v3 % 0x100) as byte]
  }

  /** Splitting off the low byte of `v`. */
  lemma SplitByte(v: nat, lo: nat, hi: nat)
    requires lo < 0x100 && v == lo + 0x100 * hi
    ensures v % 0x100 == lo && v / 0x100 == hi
  {
  }

  lemma ReadEncodeU32(v: nat)
    requires v < TwoTo32
    ensures ReadU32LE(EncodeU32LE(v), 0) == v
  {
    var v1 := v / 0x100;
    var v2 := v1 / 0x100;
    var v3 := v2 / 0x100;
    SplitByte(v, v % 0x100, v1);
    SplitByte(v1, v1 % 0x100, v2);
    SplitByte(v2, v2 % 0x100, v3);
    assert v1 < 0x100_0000;
    assert v2 < 0x1_0000;
    assert v3 < 0x100;
    assert v3 % 0x100 == v3;
  }

  lemma EncodeReadU32(data: seq<byte>, offset: nat)
    requires offset + 4 <= |data|
    ensures EncodeU32LE(ReadU32LE(data, offset)) == data[offset..offset + 4]
  {
    var v := ReadU32LE(data, offset);
    var b0, b1, b2, b3 := data[offset] as nat, data[offset + 1] as nat, data[offset + 2] as nat, data[offset + 3] as nat;
    SplitByte(b2 + 0x100 * b3, b2, b3);
    SplitByte(b1 + 0x100 * (b2 + 0x100 * b3), b1, b2 + 0x100 * b3);
    SplitByte(v, b0, b1 + 0x100 * (b2 + 0x100 * b3));
    assert b3 % 0x100 == b3;
  }

  /** The account's first 32 bytes are the mint's key: the comparison of
      `new PublicKey(accountData.slice(0, 32))` with the mint. */
  predicate HoldsMint(data: seq<byte>, mint: seq<byte>) {
    data[..Min(MintKeyLength, |data|)] == mint
  }

  /** `accounts[i]` is the first account of the mint. */
  predicate FirstHolding(accounts: seq<seq<byte>>, i: nat, mint: seq<byte>)
    requires i < |accounts|
  {
    HoldsMint(accounts[i], mint) &&
    forall j :: 0 <= j < i ==> !HoldsMint(accounts[j], mint)
  }

  /** `walletBalance` after the loop of src/index.ts:79-92: the 32-bit value
      at byte 64 of the first account of the mint, 0 when there is none;
      `None` when that account is too short to read, where
      `readUInt32LE` throws. */
  function WalletBalance(accounts: seq<seq<byte>>, mint: seq<byte>): (r: Option<nat>)
    ensures (forall i :: 0 <= i < |accounts| ==> !HoldsMint(accounts[i], mint)) ==> r == Some(0)
    ensures forall i :: 0 <= i < |accounts| && FirstHolding(accounts, i, mint) ==>
      if |accounts[i]| >= AmountOffset + 4
      then r == Some(ReadU32LE(accounts[i], AmountOffset))
      else r.None?
  {
    match FindFirst(accounts, d => HoldsMint(d, mint))
    case None => Some(0)
    case Some(i) =>
      assert forall k :: 0 <= k < |accounts| && FirstHolding(accounts, k, mint) ==> k == i;
      if |accounts[i]| >= AmountOffset + 4 then Some(ReadU32LE(accounts[i], AmountOffset))
      else None
  }

  /** `totalSupply`: the supply in tokens, `supply / 10^decimals`. */
  function TokenSupply(info: MintInfo): (r: real)
    ensures r >= 0.0
    ensures r == 0.0 <==> info.supply == 0
    ensures r * Pow10(info.decimals) as real == info.supply as real
  {
    info.supply as real / Pow10(info.decimals) as real
  }

  /** `walletBalance / totalSupply * 100` with `totalSupply` the supply
      scaled down by `10^decimals`. */
  function PercentOfSupply(balance: nat, info: MintInfo): (r: real)
    requires info.supply > 0
    ensures r >= 0.0
    ensures r * info.supply as real == balance as real * Pow10(info.decimals) as real * 100.0
  {
    var scale := Pow10(info.decimals) as real;
    var totalSupply := info.supply as real / scale;
    assert balance as real / totalSupply == balance as real * scale / info.supply as real;
    balance as real / totalSupply * 100.0
  }

  /** `getDevHoldingAmount` over the answers of `getTokenAccountsByOwner`
      (the accounts' data, `None` when the call threw) and `getMint` (`None`
      when it threw): every failure gives 0, as the catch block does; a zero
      supply gives 0; otherwise the balance read from the first account of
      the mint as a percentage of `supply / 10^decimals`. */
  function DevHoldingPercentage(
    accounts: Option<seq<seq<byte>>>, mint: seq<byte>, mintInfo: Option<MintInfo>): (r: real)
    ensures r >= 0.0
    ensures accounts.None? || mintInfo.None? ==> r == 0.0
    ensures mintInfo.Some? && mintInfo.value.supply == 0 ==> r == 0.0
    ensures accounts.Some? &&
      (forall i :: 0 <= i < |accounts.value| ==> !HoldsMint(accounts.value[i], mint))
      ==> r == 0.0
    ensures accounts.Some? && mintInfo.Some? && mintInfo.value.supply > 0 ==>
      forall i :: (0 <= i < |accounts.value| && FirstHolding(accounts.value, i, mint) &&
        |accounts.value[i]| >= AmountOffset + 4)
        ==> r == PercentOfSupply(ReadU32LE(accounts.value[i], AmountOffset), mintInfo.value)
    ensures accounts.Some? && mintInfo.Some? ==>
      forall i :: (0 <= i < |accounts.value| && FirstHolding(accounts.value, i, mint) &&
        |accounts.value[i]| < AmountOffset + 4)
        ==> r == 0.0
  {
    if accounts.None? || mintInfo.None? then 0.0
    else match WalletBalance(accounts.value, mint)
      case None => 0.0
      case Some(walletBalance) =>
        if TokenSupply(mintInfo.value) == 0.0 then 0.0
        else PercentOfSupply(walletBalance, mintInfo.value)
  }

  // ---------------------------------------------------------------------
  // The balance decode as evidently intended

  const TwoTo64: nat := TwoTo32 * TwoTo32

  /** The 64-bit little-endian amount at `offset`: the width of the amount
      field of a token account. */
  function ReadU64LE(data: seq<byte>, offset: nat): (v: nat)
    requires offset + 8 <= |data|
    ensures v < TwoTo64
  {
    ReadU32LE(data, offset) + TwoTo32 * ReadU32LE(data, offset + 4)
  }

  function EncodeU64LE(v: nat): (bytes: seq<byte>)
    requires v < TwoTo64
    ensures |bytes| == 8
  {
    EncodeU32LE(v % TwoTo32) + EncodeU32LE(v / TwoTo32)
  }

  lemma ReadEncodeU64(v: nat)
    requires v < TwoTo64
    ensures ReadU64LE(EncodeU64LE(v), 0) == v
  {
    var e := EncodeU64LE(v);
    ReadEncodeU32(v % TwoTo32);
    ReadEncodeU32(v / TwoTo32);
    assert e[0..4] == EncodeU32LE(v % TwoTo32);
    assert e[4..8] == EncodeU32LE(v / TwoTo32);
    ReadWindow(e, 0);
    ReadWindow(e, 4);
  }

  /** A read at `offset` sees only the four bytes there. */
  lemma ReadWindow(data: seq<byte>, offset: nat)
    requires offset + 4 <= |data|
    ensures ReadU32LE(data, offset) == ReadU32LE(data[offset..offset + 4], 0)
  {
  }

  /** The first 64-bit amount of the mint, or 0 when no account holds it;
      `None` when the account is too short to hold an amount. */
  function WalletAmount(accounts: seq<seq<byte>>, mint: seq<byte>): (r: Option<nat>)
    ensures (forall i :: 0 <= i < |accounts| ==> !HoldsMint(accounts[i], mint)) ==> r == Some(0)
    ensures forall i :: 0 <= i < |accounts| && FirstHolding(accounts, i, mint) ==>
      if |accounts[i]| >= AmountOffset + 8
      then r == Some(ReadU64LE(accounts[i], AmountOffset))
      else r.None?
  {
    match FindFirst(accounts, d => HoldsMint(d, mint))
    case None => Some(0)
    case Some(i) =>
      assert forall k :: 0 <= k < |accounts| && FirstHolding(accounts, k, mint) ==> k == i;
      if |accounts[i]| >= AmountOffset + 8 then Some(ReadU64LE(accounts[i], AmountOffset))
      else None
  }

  /** The developer's holding with both quantities in the same unit: the
      full 64-bit amount, scaled by `10^decimals` like the supply, as a
      percentage of the supply; every failure and a zero supply give 0. */
  function DevHoldingPercentageCorrected(
    accounts: Option<seq<seq<byte>>>, mint: seq<byte>, mintInfo: Option<MintInfo>): (r: real)
    ensures r >= 0.0
    ensures accounts.None? || mintInfo.None? ==> r == 0.0
    ensures mintInfo.Some? && mintInfo.value.supply == 0 ==> r == 0.0
    ensures accounts.Some? &&
      (forall i :: 0 <= i < |accounts.value| ==> !HoldsMint(accounts.value[i], mint))
      ==> r == 0.0
    ensures accounts.Some? && mintInfo.Some? && mintInfo.value.supply > 0 ==>
      forall i :: (0 <= i < |accounts.value| && FirstHolding(accounts.value, i, mint) &&
        |accounts.value[i]| >= AmountOffset + 8)
        ==> r == AmountPercentOfSupply(ReadU64LE(accounts.value[i], AmountOffset), mintInfo.value)
    ensures accounts.Some? && mintInfo.Some? ==>
      forall i :: (0 <= i < |accounts.value| && FirstHolding(accounts.value, i, mint) &&
        |accounts.value[i]| < AmountOffset + 8)
        ==> r == 0.0
  {
    if accounts.None? || mintInfo.None? then 0.0
    else match WalletAmount(accounts.value, mint)
      case None => 0.0
      case Some(amount) =>
        if TokenSupply(mintInfo.value) == 0.0 then 0.0
        else AmountPercentOfSupply(amount, mintInfo.value)
  }

  /** `(amount / 10^decimals) / (supply / 10^decimals) * 100`: both sides in
      tokens, so the scale cancels. */
  function AmountPercentOfSupply(amount: nat, info: MintInfo): (r: real)
    requires info.supply > 0
    ensures r >= 0.0
    ensures r * info.supply as real == amount as real * 100.0
    ensures amount <= info.supply ==> r <= 100.0
  {
    var scale := Pow10(info.decimals) as real;
    CancelScale(amount as real, info.supply as real, scale);
    (amount as real / scale) / (info.supply as real / scale) * 100.0
  }

  /** Dividing both sides of a ratio by the same scale leaves it unchanged,
      and a ratio of a part to its positive whole is at most 1. */
  lemma CancelScale(a: real, whole: real, scale: real)
    requires a >= 0.0 && whole > 0.0 && scale > 0.0
    ensures (a / scale) / (whole / scale) == a / whole
    ensures a / whole >= 0.0
    ensures a / whole * 100.0 * whole == a * 100.0
    ensures a <= whole ==> a / whole <= 1.0
  {
    var q := a / whole;
    assert q * whole == a;
    assert (a / scale) == q * (whole / scale);
  }

  /** The corrected holding never exceeds 100 percent while no account of
      the mint holds more than its supply; accounts of other mints may hold
      any amount. */
  lemma CorrectedHoldingBounded(accounts: seq<seq<byte>>, mint: seq<byte>, info: MintInfo)
    requires info.supply > 0
    requires forall i ::
      (0 <= i < |accounts| && HoldsMint(accounts[i], mint) && |accounts[i]| >= AmountOffset + 8)
      ==> ReadU64LE(accounts[i], AmountOffset) <= info.supply
    ensures DevHoldingPercentageCorrected(Some(accounts), mint, Some(info)) <= 100.0
  {
    match FindFirst(accounts, d => HoldsMint(d, mint))
    case None =>
    case Some(i) =>
      assert FirstHolding(accounts, i, mint);
  }

  /** 165 bytes of token-account data: the mint key, an owner key of zeros,
      the 64-bit amount, and zeros for the remaining fields. */
  function AccountData(mint: seq<byte>, amount: nat): (data: seq<byte>)
    requires |mint| == MintKeyLength && amount < TwoTo64
    ensures |data| == 165
  {
    mint + seq(32, _ => 0 as byte) + EncodeU64LE(amount) + seq(93, _ => 0 as byte)
  }

  lemma AccountDataReads(mint: seq<byte>, amount: nat)
    requires |mint| == MintKeyLength && amount < TwoTo64
    ensures HoldsMint(AccountData(mint, amount), mint)
    ensures ReadU32LE(AccountData(mint, amount), AmountOffset) == amount % TwoTo32
    ensures ReadU64LE(AccountData(mint, amount), AmountOffset) == amount
  {
    var data := AccountData(mint, amount);
    assert data[..32] == mint;
    assert data[64..72] == EncodeU64LE(amount);
    assert data[64..68] == EncodeU32LE(amount % TwoTo32);
    assert data[68..72] == EncodeU32LE(amount / TwoTo32);
    ReadWindow(data, 64);
    ReadWindow(data, 68);
    ReadEncodeU32(amount % TwoTo32);
    ReadEncodeU32(amount / TwoTo32);
  }

  /** As written, a developer holding the whole supply of a six-decimal mint
      (1 000 000 base units, one token) is reported as holding 100 000 000
      percent: the balance is in base units, the supply in tokens. The
      corrected holding is 100 percent. */
  lemma DevHoldingUnitMismatch()
    ensures var mint := seq(32, _ => 7 as byte);
      var accounts := Some([AccountData(mint, 1_000_000)]);
      var info := Some(MintInfo(1_000_000, 6));
      DevHoldingPercentage(accounts, mint, info) == 100_000_000.0 &&
      DevHoldingPercentageCorrected(accounts, mint, info) == 100.0
  {
    var mint := seq(32, _ => 7 as byte);
    var data := AccountData(mint, 1_000_000);
    AccountDataReads(mint, 1_000_000);
    assert FirstHolding([data], 0, mint);
    assert Pow10(6) == 1_000_000;
  }

  /** As written, a developer holding the whole supply of 2^32 base units of
      a mint without decimals is reported as holding 0 percent: only the low
      32 bits of the 64-bit amount are read. The corrected holding is 100
      percent. */
  lemma DevHoldingTruncatesAmount()
    ensures var mint := seq(32, _ => 7 as byte);
      var accounts := Some([AccountData(mint, TwoTo32)]);
      var info := Some(MintInfo(TwoTo32, 0));
      DevHoldingPercentage(accounts, mint, info) == 0.0 &&
      DevHoldingPercentageCorrected(accounts, mint, info) == 100.0
  {
    var mint := seq(32, _ => 7 as byte);
    var data := AccountData(mint, TwoTo32);
    AccountDataReads(mint, TwoTo32);
    assert FirstHolding([data], 0, mint);
  }
}

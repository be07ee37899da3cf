# Holder-distribution analysis of a Solana launch monitor, in Dafny

The monitor watches the ledger for new liquidity pools. For each launch it
reads the pool's base token and asks RugCheck for a risk score. It then
enumerates every account holding the token and turns the balances into
holder percentages. From those it derives two signals: the share held by the
ten largest holders, and the "bundled" holders at or above a 1 % threshold.
It also scans the creator's recent transactions for a sale. Finally it
stores one record per launch.

This project models that logic as pure functions over RPC answers that have
already been fetched, and proves properties of it. Every call to the ledger
or to RugCheck is an input. JavaScript numbers are exact `real`s, so sums
and percentages hold exactly.

Modules, one per component of `src/index.ts`:

- `Common`: `Option` for `null`/`undefined`, and `Number`, which holds the
  non-finite results of a JavaScript division by zero. Also `FindFirst`
  (`Array.prototype.find`), `Pow10` and `Min`.
- `Holders`: `getTokenHolders`. It normalises amounts, drops empty accounts,
  sums the supply and sets percentages. It also defines the sums used
  everywhere else.
- `Ranking`: the stable descending sort and `getTopHolders`.
- `Bundling`: `analyzeBundledHoldings`.
- `Ledger`: the parsed-transaction records the callbacks read.
- `DevSignals`: `hasDevSoldToken` and `getDevHoldingAmount`. This includes
  the byte decode and a corrected variant of it (see Findings).
- `Launch`: the record assembly of the `onLogs` callback.
- `Scenarios`: two worked distributions, three holders and none.

Four behaviours of the code that a reader may not expect, all modelled as written:

- The bundled percentage is not guarded against a zero supply. With no
  holders the code computes `0 / 0`, which is NaN, not 0.
- A failed holder query or a missing rug report does not get a default
  value. The event is dropped: the error reaches the catch block at
  src/index.ts:404.
- The developer holding percentage is computed but never stored.
- The holder list is queried twice, once for the bundled analysis and once
  for the top-ten sum. The calls run one after another, not concurrently.

## Model

| member | source | states |
|---|---|---|
| `Holders.UiAmount` | src/index.ts:200-204 | the normalised amount is non-negative, positive exactly when the raw amount is positive, and times `10^decimals` gives back the raw amount |
| `Holders.Kept` | src/index.ts:198-211 | the enumeration loop keeps at most one holder per account; every kept holder has a positive amount and a percentage still 0 |
| `Holders.Distribute` | src/index.ts:195-216 | the reference `getTokenHolders`: the supply is the sum of the kept amounts and is 0 exactly when nothing was kept; the holders are the kept ones, in order, with their addresses and amounts unchanged |
| `Holders.EnumerateHolders` | src/index.ts:198-212 | the first loop pushes exactly the kept holders and accumulates their summed amount |
| `Holders.SetPercentages` | src/index.ts:214-216 | the second loop sets exactly the percentages of the reference second pass |
| `Holders.KeptMembers` | src/index.ts:198-211 | a holder is kept iff it comes from an account with a positive raw amount, carrying that account's address and normalised amount |
| `Holders.KeptAppend` | src/index.ts:198-211 | enumeration keeps input order: enumerating `s + t` gives the holders of `s`, then those of `t` |
| `Holders.WithPercentages` | src/index.ts:214-216 | the second pass keeps every address and amount and sets each percentage so that `percentage * totalSupply == amount * 100` |
| `Holders.GetTokenHolders` | src/index.ts:195-221 | the two loops compute the reference distribution, and that distribution is valid: supply is the sum of the kept amounts, and every amount is positive with percentage `amount / totalSupply * 100` |
| `Holders.DistributeValid` | src/index.ts:195-216 | every distribution the enumerator produces satisfies that validity invariant |
| `Holders.ValidSupply` | src/index.ts:196-211 | the supply is non-negative, and zero exactly when no holder was kept |
| `Holders.ValidPercentageBounds` | src/index.ts:214-216 | every holder's percentage lies in (0, 100] |
| `Holders.ValidSharesSumTo100` | src/index.ts:214-216 | the percentages of a non-empty distribution add up to exactly 100 |
| `Holders.SumPermutation` | src/index.ts:298 | a sum does not depend on the order of its summands |
| `Ranking.SortDesc` | src/index.ts:255 | the sort returns a rearrangement (same multiset) of its input, ordered by the field non-increasingly |
| `Ranking.TopPercentage` | src/index.ts:238-272 | the top-n sum is 0 for no holders, is the sum of all percentages when there are at most n holders, and is non-negative for non-negative percentages |
| `Ranking.Top10Percentage` | src/index.ts:238-272 | `getTopHolders` returns 0 for no holders and the sum of all percentages for at most ten holders |
| `Ranking.TopPercentageTieIndependent` | src/index.ts:255-272 | the top-n sum equals the sum of the first min(n, length) entries of ANY sorted rearrangement, so the tie order of the sort does not matter |
| `Ranking.TopBetweenLargestAndAll` | src/index.ts:255-276 | for non-negative percentages, the top-ten sum is at least every single percentage and at most the sum of all, and equals that sum with at most ten holders |
| `Ranking.TopPercentageBounds` | src/index.ts:238-276 | for an enumerated distribution the top-ten sum is 0 without holders, otherwise at least the largest percentage and at most 100, and exactly 100 with at most ten holders |
| `Ranking.TopPercentageMonotone` | src/index.ts:257-272 | summing more of the largest holders never gives less |
| `Bundling.Significant` | src/index.ts:296 | the filter keeps exactly the holders whose percentage is at least the threshold, and never lengthens the list |
| `Bundling.SignificantCounts` | src/index.ts:296 | every holder at or above the threshold is kept as many times as it occurs, and every other holder not at all |
| `Bundling.SignificantAppend` | src/index.ts:296 | the filter keeps input order: filtering `s + t` gives the kept holders of `s`, then those of `t` |
| `Bundling.AnalyzeBundledHoldings` | src/index.ts:295-305 | the bundled wallets are a rearrangement of exactly the significant holders, ordered by amount non-increasingly, and the bundled amount is the sum of their amounts |
| `Bundling.SignificantSumAtMost` | src/index.ts:296-298 | the bundled amount lies between 0 and the sum of all amounts |
| `Bundling.BundledBounds` | src/index.ts:298-299 | for an enumerated distribution the bundled amount lies in [0, totalSupply], and the percentage is NaN exactly when the supply is zero (the unguarded `0 / 0`) |
| `Bundling.BundledShare` | src/index.ts:299 | with a positive supply the bundled percentage is `totalBundledAmount / totalSupply * 100` and lies in [0, 100] |
| `Bundling.BundledEverything` | src/index.ts:292-299 | a threshold no holder falls below bundles every holder: the whole supply, 100 % when there is any holder |
| `DevSignals.BalanceOf` | src/index.ts:139-151 | the balance is the `uiAmount` of the first balance with the developer as owner and the mint, where a null amount counts as 0; it is 0 when no balance matches |
| `DevSignals.ShowsSale` | src/index.ts:131-156 | a transaction shows a sale when it is non-null, has a meta with `err == null`, and the developer's pre-balance in the mint exceeds the post-balance, a missing balance list counting as empty |
| `DevSignals.DevHasSold` | src/index.ts:121-161 | the reference meaning of the scan: the signature list was fetched and some transaction among the first 50 shows a sale before any fetch throws |
| `DevSignals.HasDevSoldToken` | src/index.ts:121-167 | the scan returns true iff the signature list was fetched and some transaction among the first 50 shows a sale before any fetch throws; a sale means the transaction is non-null, has a meta, `err == null`, and pre-balance > post-balance |
| `DevSignals.ReadU32LE` | src/index.ts:87 | `readUInt32LE` gives a value below 2^32 |
| `DevSignals.ReadEncodeU32` | src/index.ts:87 | decoding the four little-endian bytes of a 32-bit value gives the value back |
| `DevSignals.EncodeReadU32` | src/index.ts:87 | re-encoding a decoded 32-bit value gives back the four bytes it was read from |
| `DevSignals.WalletBalance` | src/index.ts:79-92 | the balance is the u32 at byte 64 of the first account whose bytes [0, 32) are the mint, or 0 if there is none; it is missing (the read throws) when that account is too short |
| `DevSignals.TokenSupply` | src/index.ts:94 | the supply in tokens is non-negative, 0 exactly when the raw supply is 0, and times `10^decimals` gives back the raw supply |
| `DevSignals.PercentOfSupply` | src/index.ts:94-98 | `walletBalance / (supply / 10^decimals) * 100` is non-negative and times the supply gives `balance * 10^decimals * 100` |
| `DevSignals.DevHoldingPercentage` | src/index.ts:79-107 | the holding is 0 when a call fails, when the supply is 0 or when no account holds the mint; it is also 0 when the first account of the mint is shorter than 68 bytes (the read throws and the catch returns 0); otherwise it is that account's u32 balance as a percentage of the decimal-scaled supply |
| `DevSignals.DevHoldingUnitMismatch` | src/index.ts:87-98 | as written, a developer holding the whole supply of a six-decimal mint is reported at 100 000 000 %; the corrected holding is 100 % |
| `DevSignals.DevHoldingTruncatesAmount` | src/index.ts:87 | as written, a developer holding the whole supply of 2^32 base units is reported at 0 %; the corrected holding is 100 % |
| `DevSignals.DevHoldingPercentageCorrected` | src/index.ts:79-100 | same failure and zero cases as the original, including 0 when the first account of the mint is shorter than 72 bytes, but the holding is that account's full u64 amount as a percentage of the raw supply |
| `DevSignals.CorrectedHoldingBounded` | src/index.ts:79-100 | the corrected holding never exceeds 100 % while no account of the mint holds more than its supply; accounts of other mints may hold any amount |
| `Common.FindFirst` | src/index.ts:347-351 | `find` returns the index of the first element satisfying the predicate, or nothing when no element does |
| `Common.Percent` | src/index.ts:299 | `part / whole * 100` is finite with `value * whole == part * 100` for a non-zero whole; NaN exactly for `0 / 0`; positive infinity for a positive part over 0 |
| `Launch.FindBaseInfo` | src/index.ts:345-351 | the base balance is found iff some post balance is owned by the pool authority with a mint other than wrapped SOL, and it is the first such balance |
| `Launch.BaseFields` | src/index.ts:328-331 | without a base balance the fields keep their initial `''`, 0 and 0; otherwise they are the base's mint, its decimals, and its `uiAmount`, or 0 when that is null |
| `Launch.Stored` | src/index.ts:319-404 | the callback reaches `storeData` when the notification has no error, the transaction was fetched and is non-null with no meta error, it has a first account key, a rug report exists whenever a base token was found, and both holder queries succeeded |
| `Launch.ProcessLaunch` | src/index.ts:319-406 | a record is stored exactly when every early return and throw is avoided. Its signature, creator (account key 0), rug flag (base found and score ≥ 10000), base fields, dev-sold flag and distribution signals are as the callback computes them |
| `Launch.MissingRugReportDropsLaunch` | src/index.ts:359-363 | when a base token is found but RugCheck returned null, no record is stored |
| `Launch.StoredSignalBounds` | src/index.ts:376-399 | in every stored record the top-ten sum lies in [0, 100]; the bundled amount lies in [0, supply]; the bundled percentage is NaN iff the query found no holder, and otherwise lies in [0, 100] |
| `Scenarios.ThreeHoldersDistribution` | src/index.ts:195-216 | accounts of 60, 30 and 10 tokens give a supply of 100 and percentages 60, 30, 10 |
| `Scenarios.ThreeHoldersTopTwo` | src/index.ts:255-272 | those holders' top-two sum is 90 |
| `Scenarios.ThreeHoldersTopTen` | src/index.ts:255-272 | those holders' top-ten sum is 100 |
| `Scenarios.ThreeHoldersBundled` | src/index.ts:295-299 | at the default threshold all three are bundled, in order, 100 tokens, 100 % |
| `Scenarios.NoHolders` | src/index.ts:238-243 | no accounts give supply 0, no holders, a top-ten sum of 0 and a bundled result of 0 tokens with a NaN percentage |

## Left out

- RPC and HTTP calls become inputs. The calls are `getParsedProgramAccounts`, `getTokenAccountsByOwner`, `getMint`, `getSignaturesForAddress`, `getParsedTransaction`, the RugCheck request and the `onLogs` subscription. Each answer is a parameter, and `None` or `FetchFailed` stands for a call that threw or returned null.
- The `dataSize: 165` and `memcmp` filters of the holder query run on the server. The model takes the accounts as already filtered.
- `storeData`, the data file path, console and chalk logging are not modelled. They are output only. The `new Date().toISOString()` timestamp is a parameter.
- src/config.ts is not part of this model. It only loads the environment and builds the connection and a fee-account constant.
- IEEE-754 behaviour is not modelled: rounding, and the precision lost by `Number()` and `parseInt` on large u64 amounts. `Common.Number` keeps only the non-finite results of a division by zero.
- The `typeof holder.percentage === 'number'` filter is not modelled. On typed holders it keeps every element.
- The developer holding computed inside the callback (src/index.ts:366-371) is left out of `Launch.ProcessLaunch`. `getDevHoldingAmount` catches every error, and its result is only logged.
- Holder queries for a launch without a base token are not modelled separately. The callback then queries the empty mint `''`. Whether that query fails is decided by the client library, which is not part of this model; the query inputs cover both outcomes.
- `DevSignals.HoldsMint` compares raw key bytes where the source compares base58 strings of `PublicKey` objects. It compares the first min(32, length) bytes of the account data with the mint's key. So for a 32-byte key, account data shorter than 32 bytes never matches. What `new PublicKey` does with such a short buffer is up to the client library, which is not part of this model.
- `Ranking.SortDesc`: its contract states sorted-and-rearranged but not stability (ties keeping input order), though the insertion sort is stable. The top-ten sum is proved independent of tie order, and the bundled wallet list is not stored.
- `DevSignals.HasDevSoldToken`: the limit of 50 signatures is modelled by scanning only the first 50 entries of the answer. The order of the answer (newest first) is the server's.

## Findings

| source | as written | input that shows it | evidently intended | confidence | as-written member | corrected member |
|---|---|---|---|---|---|---|
| src/index.ts:87-98 | the balance is read in base units and divided by a supply already scaled down by `10^decimals` | a six-decimal mint with a supply of 1 000 000 base units, all held by the developer: reported as 100 000 000 % | both quantities in the same unit: `amount / supply * 100`, 100 % here | high (not executed) | `DevSignals.DevHoldingUnitMismatch` | `DevSignals.DevHoldingPercentageCorrected` |
| src/index.ts:87 | `readUInt32LE(64)` reads only the low 32 bits of the 64-bit amount field | a mint without decimals and a supply of 2^32 base units, all held by the developer: reported as 0 % | the full 64-bit amount at byte 64, giving 100 % | high (not executed) | `DevSignals.DevHoldingTruncatesAmount` | `DevSignals.DevHoldingPercentageCorrected` |

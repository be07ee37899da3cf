/** The record assembly of the `onLogs` callback in `monitorNewTokens`
    (src/index.ts:319-407): from one log notification and the answers of
    the calls it makes, the `NewTokenData` record that is stored, or nothing
    when the callback returns early or throws. */
module Launch {
  import opened Common
  import opened Ledger
  import opened Holders
  import opened Ranking
  import opened Bundling
  import opened DevSignals

  /** The wallet that owns a new pool's token vaults. */
  const PoolAuthority: string := "5Q544fKrFoe6tsEbD7S8EmxGTJYAKtTVhAW5Q5pge4j1"

  /** The wrapped-SOL mint: the quote side of a pool, never its base. */
  const WrappedSol: string := "So11111111111111111111111111111111111111112"

  /** Rug scores at or above this mark the creator as a rug risk. */
  const HighRiskScore: real := 10000.0

  /** The RugCheck summary; only its `score` is read, and it may be
      missing. */
  datatype RugReport = RugReport(score: Option<real>)

  datatype BaseInfo = BaseInfo(baseAddress: string, baseDecimals: nat, baseLpAmount: real)

  datatype BundledSummary = BundledSummary(totalBundledAmount: real, bundledPercentage: Number)

  datatype DistributionSummary = DistributionSummary(
    bundledHoldings: BundledSummary,
    top10Percente: real)

  /** `NewTokenData` as the callback builds it. */
  datatype NewTokenData = NewTokenData(
    lpSignature: string,
    creator: string,
    creatorRugHistory: bool,
    timestamp: string,
    baseInfo: BaseInfo,
    devHasSoldTokens: bool,
    tokenDistribution: DistributionSummary)

  /** What the callback receives and learns for one notification. Each
      holder query is `None` when `getTokenHolders` threw (its error is
      rethrown); `rugReport` is `None` when `checkRug` returned `null`;
      `timestamp` is the clock reading. */
  datatype LaunchInputs = LaunchInputs(
    signature: string,
    notificationErr: Option<string>,
    transaction: TxFetch,
    rugReport: Option<RugReport>,
    bundledQuery: Option<seq<TokenAccount>>,
    topQuery: Option<seq<TokenAccount>>,
    devHistory: Option<seq<TxFetch>>,
    timestamp: string)

  /** The predicate given to `find` at src/index.ts:347-351. */
  predicate IsPoolBase(b: TokenBalance) {
    b.owner == Some(PoolAuthority) && b.mint != WrappedSol
  }

  /** `postTokenBalances?.find(...)`: the first post balance owned by the pool
      authority whose mint is not wrapped SOL. */
  function FindBaseInfo(post: Option<seq<TokenBalance>>): (r: Option<TokenBalance>)
    ensures r.Some? <==>
      post.Some? && exists i :: 0 <= i < |post.value| && IsPoolBase(post.value[i])
    ensures r.Some? ==>
      exists i :: 0 <= i < |post.value| && post.value[i] == r.value && IsPoolBase(r.value) &&
        (forall j :: 0 <= j < i ==> !IsPoolBase(post.value[j]))
  {
    if post.None? then None
    else match FindFirst(post.value, IsPoolBase)
      case None => None
      case Some(i) => Some(post.value[i])
  }

  /** The base-token fields: those of the pool's base balance, or the
      initial `''`, 0 and 0 when there is none. */
  function BaseFields(base: Option<TokenBalance>): (r: BaseInfo)
    ensures base.None? ==> r == BaseInfo("", 0, 0.0)
    ensures base.Some? ==> r.baseAddress == base.value.mint && r.baseDecimals == base.value.decimals
    ensures base.Some? ==> r.baseLpAmount == base.value.uiAmount.GetOr(0.0)
    ensures base.Some? && base.value.uiAmount.None? ==> r.baseLpAmount == 0.0
  {
    match base
    case None => BaseInfo("", 0, 0.0)
    case Some(b) => BaseInfo(b.mint, b.decimals, b.uiAmount.GetOr(0.0))
  }

  /** `rugHistory.score >= 10000`; a missing score compares false. */
  predicate IsHighRisk(report: RugReport) {
    report.score.Some? && report.score.value >= HighRiskScore
  }

  /** The transaction's post balances, if it has a meta. */
  function PostBalances(tx: ParsedTransaction): Option<seq<TokenBalance>> {
    if tx.meta.Some? then tx.meta.value.postTokenBalances else None
  }

  /** The conditions under which the callback reaches `storeData`: the
      notification has no error; the transaction was fetched, is not null,
      and its meta (if any) has no error; it has a first account key; the
      rug report is there whenever a base token was found (otherwise
      reading its `score` throws); both holder queries succeeded. */
  predicate Stored(input: LaunchInputs) {
    input.notificationErr.None? &&
    input.transaction.Fetched? && input.transaction.tx.Some? &&
    var tx := input.transaction.tx.value;
    (tx.meta.None? || tx.meta.value.err.None?) &&
    |tx.accountKeys| > 0 &&
    (FindBaseInfo(PostBalances(tx)).Some? ==> input.rugReport.Some?) &&
    input.bundledQuery.Some? && input.topQuery.Some?
  }

  /** The callback for one notification. The developer holding of
      src/index.ts:366-371 is left out: `getDevHoldingAmount` never throws
      and its result is only logged, so it cannot change the outcome. */
  function ProcessLaunch(input: LaunchInputs): (r: Option<NewTokenData>)
    ensures r.Some? <==> Stored(input)
    ensures r.Some? ==>
      var tx := input.transaction.tx.value;
      var base := FindBaseInfo(PostBalances(tx));
      var rec := r.value;
      rec.lpSignature == input.signature &&
      rec.creator == tx.accountKeys[0] &&
      rec.timestamp == input.timestamp &&
      (rec.creatorRugHistory <==> base.Some? && IsHighRisk(input.rugReport.value)) &&
      rec.baseInfo == BaseFields(base) &&
      rec.devHasSoldTokens == DevHasSold(input.devHistory, rec.creator, rec.baseInfo.baseAddress) &&
      rec.tokenDistribution.top10Percente == Top10Percentage(Distribute(input.topQuery.value).holders) &&
      var bundled := AnalyzeBundledHoldings(Distribute(input.bundledQuery.value), DefaultThreshold);
      rec.tokenDistribution.bundledHoldings ==
        BundledSummary(bundled.totalBundledAmount, bundled.bundledPercentage)
  {
    if input.notificationErr.Some? then None
    else match input.transaction
      case FetchFailed => None
      case Fetched(None) => None
      case Fetched(Some(tx)) =>
        if tx.meta.Some? && tx.meta.value.err.Some? then None
        else if |tx.accountKeys| == 0 then None
        else
          var signer := tx.accountKeys[0];
          var base := FindBaseInfo(PostBalances(tx));
          if base.Some? && input.rugReport.None? then None
          else if input.bundledQuery.None? || input.topQuery.None? then None
          else
            var baseInfo := BaseFields(base);
            var creatorRug := base.Some? && IsHighRisk(input.rugReport.value);
            var bundled := AnalyzeBundledHoldings(Distribute(input.bundledQuery.value), DefaultThreshold);
            var top := Top10Percentage(Distribute(input.topQuery.value).holders);
            var devSold := DevHasSold(input.devHistory, signer, baseInfo.baseAddress);
            Some(NewTokenData(
              input.signature, signer, creatorRug, input.timestamp, baseInfo, devSold,
              DistributionSummary(
                BundledSummary(bundled.totalBundledAmount, bundled.bundledPercentage),
                top)))
  }

  /** A launch whose base token has no rug report is dropped: the callback
      throws on `rugHistory.score` and the catch block discards the event. */
  lemma MissingRugReportDropsLaunch(input: LaunchInputs)
    requires input.transaction.Fetched? && input.transaction.tx.Some?
    requires FindBaseInfo(PostBalances(input.transaction.tx.value)).Some?
    requires input.rugReport.None?
    ensures ProcessLaunch(input).None?
  {
  }

  /** The concentration signals of every stored record: the top-ten sum lies
      in [0, 100]; the bundled amount lies between 0 and the queried supply;
      the bundled percentage is NaN exactly when that query found no holder,
      and otherwise lies in [0, 100]. */
  lemma StoredSignalBounds(input: LaunchInputs)
    requires Stored(input)
    ensures var rec := ProcessLaunch(input).value;
      var top := rec.tokenDistribution.top10Percente;
      var bundled := rec.tokenDistribution.bundledHoldings;
      var d := Distribute(input.bundledQuery.value);
      0.0 <= top <= 100.0 &&
      0.0 <= bundled.totalBundledAmount <= d.totalSupply &&
      (bundled.bundledPercentage.NaN? <==> |d.holders| == 0) &&
      (|d.holders| > 0 ==>
        bundled.bundledPercentage.Finite? &&
        0.0 <= bundled.bundledPercentage.value <= 100.0)
  {
    var d := Distribute(input.bundledQuery.value);
    var t := Distribute(input.topQuery.value);
    DistributeValid(input.bundledQuery.value);
    DistributeValid(input.topQuery.value);
    TopPercentageBounds(t);
    ValidPercentageBounds(t);
    if |t.holders| > 0 {
      assert 0.0 <= t.holders[0].percentage;
    }
    BundledBounds(d, DefaultThreshold);
    ValidSupply(d);
    if |d.holders| > 0 {
      BundledShare(d, DefaultThreshold);
    }
  }
}

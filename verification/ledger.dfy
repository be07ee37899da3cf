/** The parts of a parsed ledger transaction that the analysis reads, as the
    RPC client returns them; fields the client may leave out are `Option`s. */
module Ledger {
  import opened Common

  /** One entry of `meta.preTokenBalances` or `meta.postTokenBalances`: the
      owning wallet, the mint, and the `uiTokenAmount` fields used. */
  datatype TokenBalance = TokenBalance(
    owner: Option<string>,
    mint: string,
    decimals: nat,
    uiAmount: Option<real>)

  /** A transaction's `meta`: its error (`None` when it succeeded) and its
      token balances before and after. */
  datatype TxMeta = TxMeta(
    err: Option<string>,
    preTokenBalances: Option<seq<TokenBalance>>,
    postTokenBalances: Option<seq<TokenBalance>>)

  /** A parsed transaction: its account keys, signer first, and its meta. */
  datatype ParsedTransaction = ParsedTransaction(accountKeys: seq<string>, meta: Option<TxMeta>)

  /** The outcome of one `getParsedTransaction` call: it threw, or it
      returned a transaction or `null`. */
  datatype TxFetch = FetchFailed | Fetched(tx: Option<ParsedTransaction>)
}

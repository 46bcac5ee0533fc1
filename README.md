# Polymarket liquidity bot core, modelled in Dafny

This project models the decision logic of a Polymarket market-making and
liquidity-reward bot. It does not model the bot's network, spreadsheet or
terminal code. The model covers:

- **Liquidity scoring** (`data_updater/liquidity_score.py`). This is the
  quadratic utility of an order at a given spread, the per-side score of a
  book, and the Qmin rule that combines the two sides. It also covers the
  ladder of bid and ask rungs that `propose_orders` builds around the
  midpoint, the even split of a budget over the rungs, and the page-by-page
  market lookups.
- **Transaction submission** (`poly_data/utils.py`). This is the retry
  loop that resends a signed transaction, the ordered classification of
  node errors, the back-off pauses, and the final wait. It also covers the
  raw-bytes, nonce, EIP-1559 fee, parameter and gas-limit helpers. The
  hyperparameter fold that groups sheet rows by type is modelled too.
- **Market listing** (`data_updater/list_markets.py`). This covers reading
  and shaping a market record and the USDC reward rate. It covers paging
  through the sampling endpoint, the end-date window, and fetching order
  books in batches. It also covers merging the books into the records.
- **Ending markets** (`data_updater/get_ending_markets.py`). This is the
  local filter on closed flag, liquidity and end date, and the ascending
  sort by end date.
- **Slug extraction** (`data_updater/print_market_by_slug.py`). This is the
  leftmost match of `/(event|market)/([^/?#]+)`.

Everything outside the process is a parameter of the model:

- The RPC node, the HTTP endpoints, the order-book client and the
  sampling client are oracles (`Network`, `Node`, `fetch`, `Client`,
  `sample`).
- Python's `str()` of a non-string is `show: Value -> string`.
- `float()` of a string is `parse: string -> Option<real>`.
- The ISO-8601 parsers are `fromIso` and `strptime`, giving timestamps or
  `None`.

Python's dynamic values are the datatype `PyValue.Value`. Python's
truthiness, `or` and `dict.get` are `Truthy`, `Or` and `Get`. A call that
would raise becomes an `Err`/`None` result where the source catches it or
where the caller can see it.

Modules:

| file | module | source |
|---|---|---|
| py_value.dfy | PyValue | Python values, truthiness, `str.strip`, substring test |
| liquidity_score.dfy | LiquidityScore | data_updater/liquidity_score.py (scoring, rungs, allocation) |
| market_lookup.dfy | MarketLookup | data_updater/liquidity_score.py (market searches) |
| tx_submit.dfy | TxSubmit | poly_data/utils.py, send_signed_transaction_with_receipt |
| tx_params.dfy | TxParams | poly_data/utils.py, transaction helpers |
| hyperparams.dfy | Hyperparams | poly_data/utils.py, hyperparameter rows |
| order_books.dfy | OrderBooks | data_updater/list_markets.py, fetch_order_books_bulk |
| list_markets.dfy | ListMarkets | data_updater/list_markets.py, records, sampling, main |
| ending_markets.dfy | EndingMarkets | data_updater/get_ending_markets.py |
| market_slug.dfy | MarketSlug | data_updater/print_market_by_slug.py |

Three places where the code does something other than one might expect
from its purpose; the model follows the code:

- **Gas limit.** The attached gas limit is `int(estimate * ratio)`, which
  truncates. It is not rounded up.
- **Nonce.** The retry loop resends the same raw bytes. It does not
  re-fetch a nonce.
- **Negative spread.** `utility_score` clamps a negative spread to 0 and so
  returns the full multiplier for it. It does not return 0.

## Model

| member | source | states |
|---|---|---|
| PyValue.StripSound | poly_data/utils.py:53-54 | `str.strip()`: the result is the infix of the text after its leading whitespace, and neither end of it is whitespace |
| PyValue.StripLeftSound | poly_data/utils.py:53-54 | lstrip drops exactly the leading whitespace: everything dropped is whitespace and what is kept does not start with any |
| PyValue.StripRightSound | poly_data/utils.py:53-54 | rstrip drops exactly the trailing whitespace |
| LiquidityScore.Utility | data_updater/liquidity_score.py:35-42 | 0 once the clamped spread exceeds v. The full multiplier b at or below spread 0, 0 at spread v, and within [0, b] for v > 0, b >= 0 |
| LiquidityScore.UtilityMonotone | data_updater/liquidity_score.py:35-42 | A wider spread never scores more |
| LiquidityScore.UtilityHalfway | data_updater/liquidity_score.py:35-42 | Halfway to v the utility is b/4 |
| LiquidityScore.ScoreSide | data_updater/liquidity_score.py:45-58 | The accumulating loop returns the sum of utility x size over the orders |
| LiquidityScore.SideScoreAppend | data_updater/liquidity_score.py:45-58 | The score of a concatenation is the sum of the scores |
| LiquidityScore.SideScoreRemove | data_updater/liquidity_score.py:45-58 | Removing one order removes exactly its term |
| LiquidityScore.SideScorePermutation | data_updater/liquidity_score.py:45-58 | The score does not depend on the order of the orders |
| LiquidityScore.SideScoreNonNegative | data_updater/liquidity_score.py:45-58 | Non-negative sizes and multiplier give a non-negative score |
| LiquidityScore.Qmin | data_updater/liquidity_score.py:61-71 | ZeroDivisionError exactly when mid is in [0.10, 0.90] and c is 0. Outside the band it is min(q1, q2). Inside it is the larger of min(q1, q2), q1/c and q2/c |
| LiquidityScore.QminSymmetric | data_updater/liquidity_score.py:220-224 | The rule, also used as compute_qmin_tokens, is symmetric in the two sides |
| LiquidityScore.QminAtMostLargerSide | data_updater/liquidity_score.py:68-69 | With c >= 1 and non-negative scores, Qmin never exceeds the larger side |
| LiquidityScore.QminExamples | data_updater/liquidity_score.py:61-71 | Inside the band a one-sided book earns a third of its side. Outside it earns only the smaller side |
| LiquidityScore.StepCount | data_updater/liquidity_score.py:81-83 | ZeroDivisionError exactly when the tick is 0. Otherwise at least one step and at least floor(v/100/tick), and exactly that floor when it exceeds 1 |
| LiquidityScore.StepCountWithinSpread | data_updater/liquidity_score.py:81-83 | No tried rung is farther than v cents from mid, unless only the single forced rung is tried |
| LiquidityScore.BidRungs | data_updater/liquidity_score.py:87-91 | Every bid rung lies strictly inside (0, 1) |
| LiquidityScore.AskRungs | data_updater/liquidity_score.py:87-93 | Every ask rung lies inside (0, 1] |
| LiquidityScore.BidRungsMembers | data_updater/liquidity_score.py:87-91 | A price is a bid rung iff it is mid - k*tick for some 1 <= k <= n and lies inside (0, 1) |
| LiquidityScore.AskRungsMembers | data_updater/liquidity_score.py:87-93 | A price is an ask rung iff it is mid + k*tick for some 1 <= k <= n and lies inside (0, 1] |
| LiquidityScore.MidpointNeverARung | data_updater/liquidity_score.py:82-93 | With a non-zero tick the midpoint is never a rung |
| LiquidityScore.BidRungsFalling | data_updater/liquidity_score.py:87-91 | Bid rungs come out in increasing k, so strictly falling |
| LiquidityScore.AskRungsRising | data_updater/liquidity_score.py:87-93 | Ask rungs come out in increasing k, so strictly rising |
| LiquidityScore.GenerateRungs | data_updater/liquidity_score.py:83-93 | ZeroDivisionError exactly when the tick is 0. Otherwise the rung loop produces exactly the bid and ask ladders |
| LiquidityScore.QualifyingMembers | data_updater/liquidity_score.py:112-117 | An order is kept iff it sits on a rung, is sized budget/len/price, and reaches min_size |
| LiquidityScore.ClosestIndex | data_updater/liquidity_score.py:121 | The first rung at least as close to mid as every other, as Python's min with a key picks |
| LiquidityScore.Allocate | data_updater/liquidity_score.py:109-126 | The allocate loop and its fallback compute the allocation function |
| LiquidityScore.AllocateMinSize | data_updater/liquidity_score.py:109-126 | Every allocated order reaches min_size. A non-positive budget or no rungs gives nothing |
| LiquidityScore.AllocateEvenSplit | data_updater/liquidity_score.py:112-117 | When some rung qualifies, the result is the qualifying rungs, each with price x size = budget/len. Failing rungs are not redistributed |
| LiquidityScore.AllocateFallback | data_updater/liquidity_score.py:119-125 | When none qualifies, the result is the one order of the whole budget at the rung closest to mid when budget/price reaches min_size, and nothing otherwise |
| LiquidityScore.BudgetSplit | data_updater/liquidity_score.py:98-106 | The side budgets add up to usdc, and "both" halves it |
| LiquidityScore.ProposeOrders | data_updater/liquidity_score.py:74-130 | ZeroDivisionError exactly when the tick is 0. Otherwise each side is the allocation of its ladder and budget. "bid" gives no asks, and any other non-"both" side gives no bids |
| LiquidityScore.AllocatePricesOnRungs | data_updater/liquidity_score.py:109-126 | Every allocated order sits on one of its rungs |
| LiquidityScore.ProposalSound | data_updater/liquidity_score.py:74-130 | For every tick that yields a proposal: proposed bids lie inside (0, 1) and asks inside (0, 1]. None is at the midpoint, and every size reaches min_size |
| LiquidityScore.ProposalExampleRungs | data_updater/liquidity_score.py:81-93 | mid 0.5, tick 0.01, v 3 cents gives rungs 0.49/0.48/0.47 and 0.51/0.52/0.53 |
| LiquidityScore.EligibleLevels | data_updater/liquidity_score.py:141-142 | Keeps exactly the levels with size >= min_size within v cents of mid; one level is kept or dropped by that test, so with EligibleLevelsConcat every copy is kept in order |
| LiquidityScore.EligibleLevelsConcat | data_updater/liquidity_score.py:141-142 | Filtering a concatenation filters the parts in order, so repeated levels are all kept and all scored |
| LiquidityScore.SizedLevels | data_updater/liquidity_score.py:211-212 | Keeps exactly the levels with size >= min_size; one level is kept or dropped by that test, so with SizedLevelsConcat every copy is kept in order |
| LiquidityScore.SizedLevelsConcat | data_updater/liquidity_score.py:211-212 | Filtering a concatenation filters the parts in order |
| LiquidityScore.SpreadFilterRedundant | data_updater/liquidity_score.py:141-144 | The spread filter never changes the score; only the size filter matters |
| LiquidityScore.TokenContribution | data_updater/liquidity_score.py:207-217 | The side scores of the eligible levels and q_token = q_bids + q_asks, all non-negative under non-negative inputs |
| LiquidityScore.SummarizeCurrentBook | data_updater/liquidity_score.py:133-147 | The side scores of the eligible levels and their Qmin with c = 3 |
| MarketLookup.TokenIdsOf | data_updater/liquidity_score.py:171 | clobTokenIds if truthy, else clob_token_ids |
| MarketLookup.FirstIn | data_updater/liquidity_score.py:170-173 | None iff no market of the page matches; else a matching market of the page |
| MarketLookup.FirstInIsFirst | data_updater/liquidity_score.py:170-173 | The market found is the first match of the page |
| MarketLookup.SearchOffsets | data_updater/liquidity_score.py:165-175 | At most max_pages pages are read, at offsets 0, size, 2*size, ... |
| MarketLookup.SearchStopsAtFirstMatch | data_updater/liquidity_score.py:165-175 | Every page before the last read was non-empty and held no match |
| MarketLookup.SearchMissesOnlyWithoutMatch | data_updater/liquidity_score.py:165-175 | A search that finds nothing saw no match on any page. It ran out of pages or met an empty one |
| MarketLookup.FirstMatchIn | data_updater/liquidity_score.py:170-173 | The scan of one page computes its first match |
| MarketLookup.SearchPages | data_updater/liquidity_score.py:164-190 | The page loop computes the search specification |
| MarketLookup.FindMarketByTokenId | data_updater/liquidity_score.py:164-175 | The result holds the token id. Between 1 and max_pages pages are read |
| MarketLookup.FindMarketByIdOrSlug | data_updater/liquidity_score.py:178-190 | The result has the given id or slug. Between 1 and max_pages pages are read |
| MarketLookup.FirstTwo | data_updater/liquidity_score.py:204 | `token_ids[:2]`: exactly the first two ids, or characters of text |
| MarketLookup.GetMarketAndTokens | data_updater/liquidity_score.py:193-204 | ValueError iff no market is found, or iff it has fewer than two ids. Otherwise the chosen market and its first two ids |
| MarketLookup.EncodedIdsYieldCharacters | data_updater/liquidity_score.py:201-204 | Ids given as JSON text yield two characters, not two ids |
| TxSubmit.AlreadyKnownIsKnown | poly_data/utils.py:171 | A message with "already known" contains "known" |
| TxSubmit.Classify | poly_data/utils.py:167-187 | A ValueError containing "known" is tested first, so "unknown" counts. An error aborts iff it is a ValueError with "insufficient funds" that neither mentions "known" nor a nonce or underpricing complaint. Every other error is recorded and retried |
| TxSubmit.Backoff | poly_data/utils.py:189-190 | The pause after the k-th failed attempt is poll x k |
| TxSubmit.Handle | poly_data/utils.py:167-187 | A recorded error is remembered and retried, a fatal one raised, both without a call. A "known" error with no hash yet retries with the state unchanged. With a hash it waits on that hash once, returning the receipt or remembering the wait's error |
| TxSubmit.HandleError | poly_data/utils.py:167-187 | The except-clauses compute the handler specification |
| TxSubmit.TryOnce | poly_data/utils.py:163-166 | One attempt sends the raw bytes, then waits on the returned hash |
| TxSubmit.SendSignedTransactionWithReceipt | poly_data/utils.py:153-199 | The method's result and call trace equal the exchange specification |
| TxSubmit.Schedule | poly_data/utils.py:189-190 | The pauses after attempts from+1 .. from+n |
| TxSubmit.HandleQuiet | poly_data/utils.py:167-187 | The handler neither sends nor pauses |
| TxSubmit.AttemptSendsOnce | poly_data/utils.py:163-187 | An attempt sends exactly once and never pauses |
| TxSubmit.AttemptRaisesOnlyFunds | poly_data/utils.py:167-187 | The only failure an attempt raises is the insufficient-funds error |
| TxSubmit.FinalQuiet | poly_data/utils.py:192-199 | The final wait neither sends nor pauses |
| TxSubmit.LoopCounts | poly_data/utils.py:162-190 | The pauses follow the back-off schedule. There are as many sends as pauses, or one more, and at most one per remaining attempt. Exhausted only after every attempt was sent |
| TxSubmit.LoopSendsRaw | poly_data/utils.py:164 | Every send carries the same raw bytes |
| TxSubmit.LoopAbortsOnlyOnFunds | poly_data/utils.py:182-183 | The loop re-raises only an insufficient-funds error that no earlier test claims |
| TxSubmit.FatalSendAborts | poly_data/utils.py:162-183 | A send failing with such an error is re-raised at once: one send, no pause, no wait |
| TxSubmit.FatalWaitAborts | poly_data/utils.py:162-183 | A receipt wait failing with such an error is re-raised after that send and wait |
| TxSubmit.AbortAfterRetries | poly_data/utils.py:162-190 | k sends failing with retried errors, then a fatal one: the error is raised after exactly k + 1 sends and the pauses poll, 2 poll, ..., k poll |
| TxSubmit.ExchangeSchedule | poly_data/utils.py:153-199 | Missing raw bytes iff raw is None/empty. At most max_retries sends; pauses poll, 2*poll, ... |
| TxSubmit.NoAttempts | poly_data/utils.py:162-199 | max_retries <= 0: no send, immediate RuntimeError |
| TxSubmit.TimeoutsThenMined | poly_data/utils.py:162-190 | Two timeouts then a receipt: pauses 2 s and 4 s, receipt returned |
| TxSubmit.KnownWaitsOnEarlierHash | poly_data/utils.py:171-175 | For any node: a "known" rejection after an earlier send returned a hash waits on that hash, and its receipt ends the exchange with no further send |
| TxSubmit.KnownWithoutHashRetries | poly_data/utils.py:171-189 | For any node: a "known" rejection before any hash keeps the last error and goes on to the next attempt after the usual pause |
| TxSubmit.AlreadyKnownWaitsOnEarlierHash | poly_data/utils.py:171-175 | Worked example with a scripted node: a resend answered "already known" waits on the first send's hash and returns its receipt |
| TxParams.GetRawTxBytes | poly_data/utils.py:76-80 | rawTransaction, falling back to raw_transaction only when it is None |
| TxParams.SignedTxMissingBytes | poly_data/utils.py:154-156 | No bytes under either name: ValueError before any call. Otherwise every send carries rawTransaction's bytes |
| TxParams.GetPendingNonce | poly_data/utils.py:83-87 | The pending count; the confirmed count only if that raises; failure iff both raise |
| TxParams.Trunc | poly_data/utils.py:108 | Python's int() of a float truncates toward zero |
| TxParams.BuildEip1559Fees | poly_data/utils.py:90-119 | Priority is the node's or gwei x 1e9. Cap is int(m x base) + priority, else gas_price + priority, else priority |
| TxParams.FeeCapCoversPriority | poly_data/utils.py:107-118 | Non-negative inputs give cap >= priority. With m = 2, cap = 2 x base + priority |
| TxParams.DefaultFees | poly_data/utils.py:104-114 | With nothing from the node, both fields are 30 gwei |
| TxParams.BuildTxParams | poly_data/utils.py:122-141 | Nonce fetched only when none is given. Key set and values for the EIP-1559 and legacy cases |
| TxParams.BufferedGasBounds | poly_data/utils.py:147 | int(estimate x ratio) is at least the estimate and is the floor of the product |
| TxParams.BufferedGasExamples | poly_data/utils.py:144-147 | 21000 -> 25200 and 7 -> 8 at ratio 1.2 |
| TxParams.Transaction.EstimateAndAttachGas | poly_data/utils.py:144-150 | Only "gas" changes, to the buffered estimate; nothing changes when estimation raises |
| TxParams.AttachGasKeepsOtherFields | poly_data/utils.py:144-150 | Every other key keeps its value, and gas >= estimate |
| Hyperparams.RowType | poly_data/utils.py:52-54 | A row opens group t iff its type is truthy, non-blank and not "nan". t is the stripped text |
| Hyperparams.Convert | poly_data/utils.py:59-67 | Ints and bools become the equal float, floats, None and containers are kept. A numeric-looking string float() accepts becomes that float; any other string is kept |
| Hyperparams.ConvertIdempotent | poly_data/utils.py:59-67 | Converting twice is converting once |
| Hyperparams.GroupRows | poly_data/utils.py:47-69 | The loop computes the grouping specification Group, which the lemmas below characterize |
| Hyperparams.CurrentTypeIsLastOpened | poly_data/utils.py:53-57 | The current type is the type of the last row that opened a group |
| Hyperparams.NoTypeNoGroups | poly_data/utils.py:56-57 | Rows before any typed row store nothing |
| Hyperparams.LastWriteWins | poly_data/utils.py:69 | The stored value for (t, p) is the converted value of the last row writing it |
| Hyperparams.StoredWasWritten | poly_data/utils.py:69 | Everything stored was written by some row |
| Hyperparams.NumericExamples | poly_data/utils.py:62 | "0.5" and "-3" look numeric. A word does not, and neither does ".-", which leaves nothing for isdigit |
| Hyperparams.GroupExample | poly_data/utils.py:47-69 | A typed row, then a blank-typed and an empty-typed row: one group. The repeated param keeps the later value, and the int 20 is stored as 20.0 |
| OrderBooks.LevelsOf | data_updater/list_markets.py:131-141 | One element gives its level as text when price and size are both non-None, and nothing otherwise |
| OrderBooks.LevelsOfConcat | data_updater/list_markets.py:131-141 | The levels of a concatenation are the levels of the parts in order; with the one-element case this fixes the result |
| OrderBooks.LevelsOfMembers | data_updater/list_markets.py:131-141 | A level is kept iff some element is a complete level with that text; with every element complete none is dropped |
| OrderBooks.CoerceLevels | data_updater/list_markets.py:126-142 | Falsy gives []. A list gives its levels. Text and dicts iterate to items without price and size, giving []. A truthy number raises |
| OrderBooks.BooksArray | data_updater/list_markets.py:193-198 | A list is the books. A dict gives the first truthy of "books", "data" and "orderbooks", failing when that is not a list, and [] when none is truthy. Other values give [] |
| OrderBooks.ApplyBook | data_updater/list_markets.py:207-214 | A non-dict book raises. A book without a truthy id leaves the map as it is. Otherwise it raises iff its bids or asks cannot be coerced, and else stores the coerced bids and asks under str(id), changing no other entry |
| OrderBooks.ApplyBooksKeys | data_updater/list_markets.py:207-214 | Only ids of the response are added, and nothing is removed |
| OrderBooks.LaterBookWins | data_updater/list_markets.py:207-214 | A later book for the same id overwrites an earlier one |
| OrderBooks.StoresLikeEmpty | data_updater/list_markets.py:207-214 | Whether a book stores, and what, does not depend on the map |
| OrderBooks.KeptUnlessOverwritten | data_updater/list_markets.py:207-214 | An entry survives books without its id |
| OrderBooks.ApplyBatch | data_updater/list_markets.py:182-218 | A request that raises, or a response whose chosen books are a truthy non-list, leaves the result as it was; otherwise the books are stored in order |
| OrderBooks.ClientBook | data_updater/list_markets.py:158-169 | Anything that is not a book, or a book without an id, is skipped. Otherwise it raises iff a side cannot be coerced, and else stores both sides under str(id), changing no other entry |
| OrderBooks.ClientBooks | data_updater/list_markets.py:158-169 | The client loop completes iff no book raises, keeping what it stored before a raise |
| OrderBooks.ClientBookLikeHttp | data_updater/list_markets.py:158-169 | On a dict, the client path stores what the HTTP path stores |
| OrderBooks.ClientBooksLikeHttp | data_updater/list_markets.py:158-169 | When all books are dicts, the client loop leaves the map the HTTP book loop gives |
| OrderBooks.ClientSkipsNonBooks | data_updater/list_markets.py:158-164 | The client skips a non-book where the HTTP path stops the batch |
| OrderBooks.Batch | data_updater/list_markets.py:150-218 | With a client, its books; when the client raises, the HTTP request for the same batch from what the client stored; without a client, HTTP only |
| OrderBooks.StoreClientBooks | data_updater/list_markets.py:158-169 | The client's book loop computes the client-storing specification |
| OrderBooks.CleanIds | data_updater/list_markets.py:125 | One id gives its text when truthy and nothing when falsy |
| OrderBooks.CleanIdsConcat | data_updater/list_markets.py:125 | Cleaning a concatenation cleans the parts in order; with the one-id case this fixes the result |
| OrderBooks.CleanIdsMembers | data_updater/list_markets.py:125 | An id is sent iff it is the text of a truthy input id; with every id truthy none is dropped |
| OrderBooks.BatchesConcat | data_updater/list_markets.py:144-145 | The batches concatenate to the ids |
| OrderBooks.BatchesSizes | data_updater/list_markets.py:144-147 | Batches are non-empty with at most size ids, all but the last full. There are ceil(n/size) of them |
| OrderBooks.BulkFromSkipsFailures | data_updater/list_markets.py:215-218 | Batches on which the client, if any, and the HTTP request both raise leave the result as it was |
| OrderBooks.AllBatchesFail | data_updater/list_markets.py:144-219 | When every client call and every HTTP request raises, the result is empty |
| OrderBooks.Bulk | data_updater/list_markets.py:144 | range() with step 0 raises, and a negative step gives {} |
| OrderBooks.FetchOrderBooksBulk | data_updater/list_markets.py:117-219 | The batch loop, the client's book loop and the HTTP book loop compute the bulk specification |
| OrderBooks.StoreBooks | data_updater/list_markets.py:207-214 | The book loop computes the book-storing specification |
| ListMarkets.Pick | data_updater/list_markets.py:28-32 | The value of a present, non-None key, else the default |
| ListMarkets.PickFirstPresent | data_updater/list_markets.py:28-32 | The first present key wins |
| ListMarkets.EndDateFallsThrough | data_updater/list_markets.py:59 | A None end_date_iso falls through to endDateIso |
| ListMarkets.FirstUsdcRateIsFirst | data_updater/list_markets.py:41-44 | The rate is the first USDC entry's, and None iff there is no USDC entry |
| ListMarkets.Iterated | data_updater/list_markets.py:69 | A `for` over `x or []` with `.get` raises unless x is a list or falsy |
| ListMarkets.ExtractRewardFields | data_updater/list_markets.py:35-49 | min_size and max_spread copied. Missing rewards give None for all three |
| ListMarkets.ExtractRewardFieldsRate | data_updater/list_markets.py:35-49 | Dict-shaped rewards give the first USDC rate, or None iff there is none |
| ListMarkets.RewardFieldsExample | data_updater/list_markets.py:39-44 | A non-USDC rate before the USDC one is skipped |
| ListMarkets.BuildMarketRecord | data_updater/list_markets.py:52-78 | One token entry per token, in order, token_id falling back to tokenId, with empty levels. Raises iff the rewards or a token are ill-shaped |
| ListMarkets.SamplingPrefix | data_updater/list_markets.py:81-96 | Reading more pages only extends the listing |
| ListMarkets.SamplingEndsOnItsOwn | data_updater/list_markets.py:91-95 | A listing that ended is unaffected by more pages |
| ListMarkets.GetAllMarketsSampling | data_updater/list_markets.py:81-96 | The page loop computes the sampling specification |
| ListMarkets.RewriteZ | data_updater/list_markets.py:104-105 | A trailing Z becomes +00:00; anything else is unchanged |
| ListMarkets.ParseIsoToUtc | data_updater/list_markets.py:99-114 | A falsy value gives None |
| ListMarkets.RewriteZUtc | data_updater/list_markets.py:104-105 | "...Z" and "...+00:00" parse the same text |
| ListMarkets.Filter | data_updater/list_markets.py:273-279 | Keeps exactly the accepting markets whose end lies in [now-24h, now+max(0,h)]; one market is kept or dropped by that test |
| ListMarkets.FilterConcat | data_updater/list_markets.py:273-279 | Filtering a concatenation filters the parts in order, so order and duplicates are kept |
| ListMarkets.NegativeHoursIsZero | data_updater/list_markets.py:270 | A negative window forward is the same as 0 |
| ListMarkets.WiderWindowKeepsMore | data_updater/list_markets.py:270-278 | A wider window keeps every market a narrower one keeps |
| ListMarkets.FilterMarkets | data_updater/list_markets.py:273-279 | The loop computes the filter |
| ListMarkets.TokenIdsMembers | data_updater/list_markets.py:288-291 | An id is collected iff some token has it, truthy |
| ListMarkets.AllTokenIdsMembers | data_updater/list_markets.py:286-291 | An id is collected iff some record's token has it |
| ListMarkets.CollectTokenIds | data_updater/list_markets.py:286-291 | The loops compute the id collection |
| ListMarkets.RecordTokenIds | data_updater/list_markets.py:289-291 | The inner loop yields the stringified truthy token ids of one record, in order |
| ListMarkets.MergeToken | data_updater/list_markets.py:306-311 | Only bids and asks change |
| ListMarkets.MergeRecordSound | data_updater/list_markets.py:305-311 | Tokens with a book get its levels, and the others are unchanged. Merging again changes nothing |
| ListMarkets.MergeBooks | data_updater/list_markets.py:305-311 | Every record is merged with the books |
| EndingMarkets.Results | data_updater/get_ending_markets.py:61-68 | A list as is. A dict gives a truthy "markets", else "results". Whichever is chosen gives [] when it is not a list, and other values give [] |
| EndingMarkets.NonListMarketsHidesResults | data_updater/get_ending_markets.py:62-68 | A truthy non-list "markets" gives [] even when "results" has data |
| EndingMarkets.FloatOf | data_updater/get_ending_markets.py:104-106 | float() of ints, floats and bools (1.0 or 0.0), of text through the parser, and raising on None and containers |
| EndingMarkets.Liquidity | data_updater/get_ending_markets.py:102-106 | A truthy liquidityNum is used, else a truthy liquidity_num, else 0. The chosen value counts as its float(), or as 0 when float() raises |
| EndingMarkets.RewriteUtc | data_updater/get_ending_markets.py:78-79 | A trailing Z or z becomes +00:00 |
| EndingMarkets.ParseEndDate | data_updater/get_ending_markets.py:71-93 | Missing gives datetime.max. Otherwise the ISO parse of the stripped, Z-rewritten text if it succeeds, else strptime's value if that succeeds, else datetime.max |
| EndingMarkets.Kept | data_updater/get_ending_markets.py:95-115 | No more markets than the response |
| EndingMarkets.KeptMembers | data_updater/get_ending_markets.py:95-115 | Raises iff some item is not a dict. Otherwise keeps exactly the passing markets |
| EndingMarkets.KeptEndsInWindow | data_updater/get_ending_markets.py:98-113 | Kept markets are not closed and end in [now, now+hours], not [now-hours, ...] |
| EndingMarkets.UndatedDropped | data_updater/get_ending_markets.py:72-112 | A market without a readable end date is dropped |
| EndingMarkets.OnlyTrueCloses | data_updater/get_ending_markets.py:98-99 | A missing closed field, or closed == 1, does not drop a market |
| EndingMarkets.SortByEnd | data_updater/get_ending_markets.py:118 | The in-place sort leaves the array sorted by end date, a permutation of its input |
| EndingMarkets.InsertAt | data_updater/get_ending_markets.py:118 | One insertion pass: a sorted prefix of length i becomes a sorted prefix of length i + 1, and the array stays a permutation of itself |
| EndingMarkets.FilterAndSort | data_updater/get_ending_markets.py:60-119 | The result is sorted by end date and a permutation of the kept markets |
| MarketSlug.KeywordAt | data_updater/print_market_by_slug.py:16 | The `/event/` or `/market/` alternative, ending inside the text |
| MarketSlug.KeywordStartsWithSlash | data_updater/print_market_by_slug.py:16 | A keyword starts with '/' |
| MarketSlug.RunSound | data_updater/print_market_by_slug.py:16 | `[^/?#]+` is greedy: no separator inside, and a separator or the end after |
| MarketSlug.SearchFindsLeftmost | data_updater/print_market_by_slug.py:16 | re.search returns the leftmost match |
| MarketSlug.SearchMissesOnlyWithoutMatch | data_updater/print_market_by_slug.py:16-19 | No match is found only when there is none |
| MarketSlug.SearchIsLeftmost | data_updater/print_market_by_slug.py:16 | Both directions: a found match is the leftmost, and None means no match |
| MarketSlug.SlugAt | data_updater/print_market_by_slug.py:16-18 | The group is non-empty, has no '/', '?' or '#', is a contiguous piece of raw, and is maximal |
| MarketSlug.SlugIsMaximalRun | data_updater/print_market_by_slug.py:16-18 | A match yields the group of the leftmost match |
| MarketSlug.NoMatchUnchanged | data_updater/print_market_by_slug.py:19 | Without a match raw is returned |
| MarketSlug.NoSlashNoMatch | data_updater/print_market_by_slug.py:16 | Text without '/' never matches |
| MarketSlug.ExtractSlug | data_updater/print_market_by_slug.py:13-19 | The text itself when nothing matches, else a non-empty slug without '/', '?' or '#', shorter than the text |
| MarketSlug.ExtractSlugIdempotent | data_updater/print_market_by_slug.py:13-19 | extract_slug(extract_slug(x)) == extract_slug(x) |
| MarketSlug.SlugOfUrl | data_updater/print_market_by_slug.py:16-18 | prefix + keyword + slug + separator-or-end yields slug |
| MarketSlug.SlugAfterKeyword | data_updater/print_market_by_slug.py:16-18 | A keyword followed by the slug and then a separator or the end is a match whose group is that slug |
| MarketSlug.DocumentedExample | data_updater/print_market_by_slug.py:15 | The docstring's URL yields will-bitcoin-reach-100k-in-2025 |

## Left out

- Network, RPC and HTTP calls, proxies, argparse, printing and JSON files
  are outside the model. Their answers are parameters: `Network`, `Node`,
  `fetch`, `Client`, `sample`, and the page oracle of the market searches.
- OrderBooks: `client.get_order_books` is taken to return a list. Its book
  objects are modelled as dicts whose keys are their attributes, so the
  `getattr` and `.get` reads are one lookup.
- Floating point: prices, sizes, budgets and multipliers are exact `real`
  numbers. `floor(v/100/tick)` and `int(gas*1.2)` can differ by one at
  boundary values in binary floating point.
- Books enter LiquidityScore already converted: `Order` and `Book` hold
  reals. The `to_float(e.get(...))` reads with their 0.0 default and
  `ob.get("bids", [])` in token_contribution and summarize_current_book are
  outside the model.
- `float()` of text, `str()` of non-strings and the ISO-8601 and
  strptime parsers are parameters. `isdigit` is modelled on ASCII digits;
  the other Unicode digits it accepts are not.
- Sleeping and timeouts are recorded as `Sleep` and `WaitReceipt` calls in
  a trace. They are not performed.
- ListMarkets.GetAllMarketsSampling: the source loops until the endpoint
  stops. The model reads at most `maxPages` pages, because termination is
  not guaranteed otherwise.
- ListMarkets.FilterMarkets: items of the sampling listing are taken to be
  dicts. A non-dict would make main raise.
- ListMarkets timestamps are whole seconds. EndingMarkets timestamps are
  microseconds, so datetime.max is exact there.
- EndingMarkets.SortByEnd: the proof states sorted and a permutation. It
  does not state the stability of Python's sort among equal end dates.
- EndingMarkets: the OverflowError that `now + timedelta(hours)` raises
  past datetime.max is not modelled.
- ListMarkets.Filter: the OverflowError that `now_utc + timedelta(hours=forward_hours)`
  raises past datetime.max is not modelled; the window end is an
  unbounded number.
- Hyperparams: the spreadsheet access and the pandas merge of get_sheet_df
  are left out, as are NaN cells other than the "nan" type text.
- Hyperparams: param keys are `Value`s, which tell Int(1), Float(1.0) and
  Bool(true) apart where a Python dict treats them as one key.
- Hyperparams.Convert: `float()` of an int too large for a float raises
  OverflowError, which the source does not catch. Integers are unbounded
  here, so that failure is not modelled.
- EndingMarkets.FloatOf: `float()` of an int too large for a float raises
  OverflowError, which get_ending_markets.py catches to give a liquidity of
  0.0. Integers are unbounded here, so the model returns the exact real.
- EndingMarkets.Liquidity: a NaN liquidity passes the `liq < min_liquidity`
  test in the source; liquidities are exact reals here, without NaN.
- LiquidityScore.Utility: it requires that v is not zero when the clamped
  spread is not positive. That input makes the source raise
  ZeroDivisionError, which is not modelled. ScoreSide (through Scorable),
  TokenContribution and SummarizeCurrentBook (through BookScorable) carry
  the same exclusion.
- poly_data/websocket_handlers.py and data_updater/trading_utils.py are not
  part of this model. They are reconnect loops and foreign client calls.
- The fetch helpers in liquidity_score.py (fetch_orderbook_summary,
  fetch_midpoint, fetch_markets_page) and to_iso_z are I/O or date
  formatting. The page oracle stands for fetch_markets_page.

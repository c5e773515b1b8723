# Hyperliquid market-data assistant: a Dafny model of its pure core

This project models the deterministic logic of a Hyperliquid market-data assistant and proves properties about it. The parts modelled are:

- **MCP server analytics.** The TTL cache, order-book metrics, trade metrics, the rule-based signal, the depth walk behind slippage, the cumulative liquidity profile, the SMA trend and the open-interest delta.
- **Shared WebSocket session.** The endpoint choice, the canonical subscription key, message routing into bounded queues, the `collect` drain, and book selection plus normalisation in `fetch_orderbook_snapshot`.
- **Prompt-side parsers.** Ticker extraction, keyword tests, the target-price parser, the tool-gating table, the line accounting and asks-to-price summation of the tool selector, and the slippage builder's arguments.
- **RAG chat helpers.** The context budget, identifier extraction and the exact-match merge.
- **Text tools.**
  - The markdown chunker: paragraphs, heading boundaries, hard wrap and overlap.
  - Title inference.
  - The `group_texts` block chunker of the pretraining script.
  - The GitBook scraper's file-name cleaning.

Python values are modelled explicitly:

- **Absent values.** Absent keys and `None` are `Option`.
- **Decoded JSON.** Decoded JSON is a small `Json` datatype with Python truthiness, `dict.get` and `a or b`.
- **Floats.** Floats are `real`.
- **Strings.** Strings are `seq<char>`.
- **Slicing and stripping.** Python slicing with negative bounds is `PyTake`/`PyDrop`, and `str.strip` with a character set is `StripChars`.
- **Time and configuration.** Time, TTLs, the signal threshold and the number of polling turns before a deadline are parameters.

Every operation comes with a partner: an independent reading, an inverse, or an invariant, together with a lemma that ties the two together.

Files:

- `common.dfy`: `Wrappers`, `Seqs`, `Text`.
- `json.dfy`: `Json`.
- `book_metrics.dfy`: `Book`, `BookMetrics`.
- `trade_metrics.dfy`: `TradeMetrics`, `Trend`.
- `signal.dfy`: `Signal`.
- `slippage.dfy`: `Slippage`, `Liquidity`.
- `cache_oi.dfy`: `TtlCache`, `OpenInterest`.
- `ws_session.dfy`: `WsSession`.
- `snapshot.dfy`: `Snapshot`.
- `tickers.dfy`: `Tickers`.
- `router.dfy`: `MarketRouter`.
- `target_price.dfy`: `TargetPrice`.
- `tool_selector.dfy`: `ToolSelector`.
- `rag_context.dfy`: `RagContext`.
- `md_chunker.dfy`: `MarkdownChunker`.
- `group_texts.dfy`: `GroupTexts`.
- `scraper_names.dfy`: `ScraperNames`.

## Model

| member | source | states |
|---|---|---|
| TtlCache.Get | src/mcp_hyperliquid.py:267-274 | a value is returned iff the key is present and no more than `ttlMs` ms have passed since it was stored; expired entries stay in the map |
| TtlCache.Set | src/mcp_hyperliquid.py:277-278 | only the written key changes; it is stamped with `now` |
| TtlCache.SetThenGet | src/mcp_hyperliquid.py:267-278 | a value just stored is read back exactly while `later - now <= ttlMs` |
| TtlCache.SetKeepsOthers | src/mcp_hyperliquid.py:277-278 | storing under one key never changes what another key reads |
| TtlCache.ExpiryIsPermanent | src/mcp_hyperliquid.py:271-273 | once an entry reads as absent, it stays absent at every later time |
| TtlCache.GetOrFetch | src/mcp_hyperliquid.py:281-312 | a live value is returned with the cache unchanged; otherwise the fetched value is returned and stored with the given TTL; either way, with a non-negative TTL the key reads back the returned value, and every other key reads as before at every time |
| TtlCache.GetOrFetchThenGet | src/mcp_hyperliquid.py:281-312 | right after a cached read, with a non-negative TTL, the key reads back the returned value |
| Book.SumSizesNonNegative | src/mcp_hyperliquid.py:323-324 | summed sizes of non-negative levels are non-negative |
| Book.SumSizesPrefixMonotone | src/mcp_hyperliquid.py:323-324 | a longer prefix of non-negative levels never sums to less |
| Book.Imbalance | src/mcp_hyperliquid.py:325-329 | with a positive top-N total, the imbalance times the total is bid size minus ask size; it is 0 when that total is not positive, and lies in [-1, 1] for non-negative sizes |
| Book.ImbalanceBounded | src/mcp_hyperliquid.py:328-329 | with a positive total and non-negative sizes, (bid − ask) / (bid + ask) lies within [-1, 1] |
| Book.ImbalanceAntisymmetric | src/mcp_hyperliquid.py:326-329 | swapping bids and asks negates the imbalance |
| BookMetrics.Compute | src/mcp_hyperliquid.py:315-337 | mid is the average of two truthy best prices or else whichever is truthy; spread exists iff both are truthy; spreadBps exists iff spread and mid are truthy; top-of-book sizes are 0 for an empty side; depth and imbalance use the first 10 levels |
| BookMetrics.MidWithinTouch | src/mcp_hyperliquid.py:318-322 | on an uncrossed book with a positive best bid, the mid lies between best bid and best ask, and the spread is non-negative |
| BookMetrics.ExampleBook | src/mcp_hyperliquid.py:315-337 | worked example: bids (100,2),(99,5) and asks (101,3),(102,4) give mid 100.5, spread 1 and imbalance 0 |
| TradeMetrics.ParseRow | src/mcp_hyperliquid.py:345-362 | a row is read through `data or t` with the px/price, sz/size and side/aggressor aliases; only a non-dict row is an error, and a row missing a field or failing `float()` is skipped |
| TradeMetrics.FillsFailIff | src/mcp_hyperliquid.py:345-349 | the trades loop raises iff some trade's row is not a dict |
| TradeMetrics.NotDictFailsFills | src/mcp_hyperliquid.py:346-348 | one non-dict row is enough to make the loop raise |
| TradeMetrics.FillsFailureHasCause | src/mcp_hyperliquid.py:346-348 | a raise always has a non-dict row as its cause |
| TradeMetrics.Vwap | src/mcp_hyperliquid.py:363-365 | VWAP is present iff the total parsed size is positive |
| TradeMetrics.NotionalBetween | src/mcp_hyperliquid.py:363-364 | with prices in [lo, hi] and non-negative sizes, notional lies between lo·volume and hi·volume |
| TradeMetrics.VwapWithinPriceRange | src/mcp_hyperliquid.py:363-365 | a present VWAP lies within the range of the fill prices |
| TradeMetrics.SideImbalance | src/mcp_hyperliquid.py:366 | trade imbalance is (buys − sells)/(buys + sells), 0 with no sided trades, and always within [-1, 1] |
| TradeMetrics.RelativeChange | src/mcp_hyperliquid.py:367 | drift times the reference mid is vwap − mid |
| TradeMetrics.Stats | src/mcp_hyperliquid.py:363-368 | count is buys plus sells; drift exists iff both VWAP and reference mid are truthy (present and non-zero) |
| TradeMetrics.Compute | src/mcp_hyperliquid.py:340-368 | the metrics fail iff the loop raises, and otherwise are the statistics of the parsed fills |
| TradeMetrics.NoFillsNoVwap | src/mcp_hyperliquid.py:363-368 | with every row skipped: no VWAP, imbalance 0, no drift, count 0 |
| Signal.LabelOf | src/mcp_hyperliquid.py:391-396 | buy iff score > θ; sell iff the score is not above θ and is below −θ; neutral otherwise |
| Signal.Confidence | src/mcp_hyperliquid.py:397 | confidence is abs(score) capped at 0.99, so it lies in [0, 0.99] |
| Signal.ScoreSignal | src/mcp_hyperliquid.py:371-398 | score = 0.5·imb + 3·drift − 0.2·funding, with missing terms adding nothing; at most 4 reasons, with an imbalance reason iff abs(imb) > 0.05, a drift reason iff drift is numeric, and a funding reason iff funding converts |
| Signal.ScoreAntisymmetric | src/mcp_hyperliquid.py:373-390 | negating every feature negates the score |
| Signal.LabelMirror | src/mcp_hyperliquid.py:392-396 | with θ ≥ 0, negating the score swaps buy and sell and keeps neutral |
| Signal.LabelMonotone | src/mcp_hyperliquid.py:392-396 | raising the score never loses a buy, and lowering it never loses a sell |
| Signal.ScoreMonotoneInImbalance | src/mcp_hyperliquid.py:375-376 | more order-book imbalance never lowers the score |
| Signal.ExampleFullyBidBook | src/mcp_hyperliquid.py:371-398 | worked example: imbalance 1 alone scores 0.5 and gives buy at θ = 0.15 |
| Slippage.WalkConserves | src/mcp_hyperliquid.py:481-496 | cost + remaining is invariant along the depth walk |
| Slippage.NothingToSpend | src/mcp_hyperliquid.py:488-495 | with nothing left to spend, the walk changes nothing |
| Slippage.WalkStaysWithinBudget | src/mcp_hyperliquid.py:481-496 | with positive prices, remaining stays within [0, start], and cost and filled never decrease |
| Slippage.FilledWithinDepth | src/mcp_hyperliquid.py:486-493 | units filled never exceed the total size of the side walked |
| Slippage.WalkFollowsTrace | src/mcp_hyperliquid.py:486-495 | the walk's cost and filled equal the sums over the independently listed per-level takes |
| Slippage.CostAtLeast | src/mcp_hyperliquid.py:486-493 | if every price is ≥ lo, cost ≥ lo·filled |
| Slippage.CostAtMost | src/mcp_hyperliquid.py:486-493 | if every price is ≤ hi, cost ≤ hi·filled |
| Slippage.FromScratchBounds | src/mcp_hyperliquid.py:481-496 | from a fresh start: a non-positive notional fills nothing; with positive prices 0 ≤ cost ≤ max(notional, 0) and filled ≥ 0; with non-negative sizes filled is at most the side's total size |
| Slippage.ConsumeDepth | src/mcp_hyperliquid.py:481-496 | asks are walked for buy and bids otherwise, in list order; a non-positive notional buys nothing; cost is within the notional and filled within the side's depth |
| Slippage.AvgPrice | src/mcp_hyperliquid.py:513 | the average price times filled is the cost |
| Slippage.SlippageBps | src/mcp_hyperliquid.py:514 | bps·mid = (avg − mid)·1e4 for buy and (mid − avg)·1e4 for sell |
| Slippage.GetSlippage | src/mcp_hyperliquid.py:500-515 | errors with no mid exactly when the book has none, and with a bad side exactly when the lower-cased side is neither buy nor sell; with a mid and a valid side, insufficient depth exactly when nothing fills, and the division error exactly when something fills at a zero mid; otherwise the estimate holds the average price, bps and units filled |
| Slippage.BpsNonNegative | src/mcp_hyperliquid.py:513-514 | a buy whose cost is at least mid·filled has non-negative slippage |
| Slippage.SellBpsNonNegative | src/mcp_hyperliquid.py:513-514 | a sell whose proceeds are at most mid·filled has non-negative slippage |
| Slippage.BuySlippageNonNegative | src/mcp_hyperliquid.py:500-515 | when every ask is at or above a positive mid, buy slippage is ≥ 0 |
| Slippage.SellSlippageNonNegative | src/mcp_hyperliquid.py:500-515 | when every bid is at or below a positive mid, sell slippage is ≥ 0 |
| Slippage.ExampleBuy | src/mcp_hyperliquid.py:500-515 | worked example: buying 300 USD against asks (101,3),(102,4) with mid 100.5 fills at 101 |
| Liquidity.Cumulative | src/mcp_hyperliquid.py:524-530 | output has the input's length, prices are kept, and the i-th size is the sum of the first i+1 sizes |
| Liquidity.CumulativeShape | src/mcp_hyperliquid.py:524-531 | with non-negative sizes the profile never decreases, and its last entry is the side total |
| Trend.PricesFailIff | src/mcp_hyperliquid.py:560-568 | the price loop raises iff some trade's row is not a dict |
| Trend.Sma | src/mcp_hyperliquid.py:569-570 | the SMA exists iff there are at least n prices; it is the sum of the last n divided by n |
| Trend.SmaWithinRange | src/mcp_hyperliquid.py:569-570 | the SMA lies within the range of the last n prices |
| Trend.SmaIsMean | src/mcp_hyperliquid.py:569-570 | the SMA is the mean of the last n prices |
| Trend.CrossOf | src/mcp_hyperliquid.py:573 | bullish iff both SMAs are truthy with short > long; bearish iff both are truthy with short < long; neutral otherwise |
| Trend.CrossSwap | src/mcp_hyperliquid.py:573 | swapping the two SMAs swaps bullish and bearish |
| Trend.TrendOf | src/mcp_hyperliquid.py:557-574 | the trend fails iff the price loop raises; each SMA is present iff there are enough prices; the cross is computed from the two SMAs |
| Trend.MeanSquareReturn | src/mcp_hyperliquid.py:547-552 | the mean square of the returns is non-negative, and 0 when there are no returns |
| Trend.FlatSeriesZeroVolatility | src/mcp_hyperliquid.py:547-552 | a constant positive price series has zero mean square return |
| OpenInterest.IndexOf | src/mcp_hyperliquid.py:597-599 | the name map picks the last universe entry that is a dict naming the coin |
| OpenInterest.CurrentOi | src/mcp_hyperliquid.py:600-601 | a non-dict context raises; a number is read as itself, a bool as 1 or 0, and a string through `float()`, whose failure raises; a missing, `null`, list or dict value counts as 0 |
| OpenInterest.Universe | src/mcp_hyperliquid.py:596-597 | a missing key or a non-dict gives an empty universe, a list gives its items, a string or dict iterates to no entries, and `null`, a number or a bool raise |
| OpenInterest.OiTrend | src/mcp_hyperliquid.py:592-604 | raises, storing nothing, when `universe` cannot be enumerated, a name is unhashable, or the context or its open interest cannot be read; otherwise the previous reading is read before the current one is stored under the coin's key with a 60 s TTL, and delta exists iff a live previous reading existed, and is current − previous |
| OpenInterest.ExampleNullUniverseRaises | src/mcp_hyperliquid.py:596-597 | an explicit `null` universe raises, while a missing one reports open interest 0 with no delta |
| OpenInterest.FirstCallHasNoDelta | src/mcp_hyperliquid.py:595-603 | the first call for a coin reports no delta |
| OpenInterest.NextCallReportsChange | src/mcp_hyperliquid.py:595-603 | a call within 60 s of the previous one reports the change since then, and stores the new reading |
| OpenInterest.StaleReadingGivesNoDelta | src/mcp_hyperliquid.py:595-603 | more than 60 s later, no delta is reported |
| OpenInterest.ExampleDelta | src/mcp_hyperliquid.py:592-604 | worked example: 1000, then 1050 ten seconds later, gives delta 50 |
| WsSession.SelectWsBase | src/ws_hyperliquid.py:22-26 | testnet iff `(network or "mainnet").strip().lower()` is "testnet" or "test" |
| WsSession.EmptyNetworkIsMainnet | src/ws_hyperliquid.py:23 | an empty network name selects mainnet |
| WsSession.SelectIgnoresCase | src/ws_hyperliquid.py:23-24 | upper-casing the network name never changes the endpoint |
| WsSession.StripCommutesWithUpper | src/ws_hyperliquid.py:23 | stripping whitespace commutes with case mapping |
| WsSession.CanonFields | src/ws_hyperliquid.py:46-47 | each field of a descriptor keeps its name and gets its canonical value |
| WsSession.ToMapAt | src/ws_hyperliquid.py:46-47 | the canonical map holds exactly the object's keys, each with the canonical form of the value `dict` keeps for it |
| WsSession.KeyIgnoresFieldOrder | src/ws_hyperliquid.py:46-47 | descriptors with the same key/value pairs get the same key, whatever their order |
| WsSession.SameKeySameFields | src/ws_hyperliquid.py:46-47 | descriptors with the same key have the same keys and canonically equal values |
| WsSession.ExampleKeyOrder | src/ws_hyperliquid.py:46-47 | worked example: `{type, coin}` and `{coin, type}` share a key |
| WsSession.Push | src/ws_hyperliquid.py:36 | appending to a `deque(maxlen=200)` keeps the last 200 messages |
| WsSession.PushEvictsOldest | src/ws_hyperliquid.py:36 | below capacity the message is appended; at capacity the oldest is evicted and the rest keep their order |
| WsSession.Route | src/ws_hyperliquid.py:69-80 | non-dict messages are dropped; a message whose first truthy subscription/channel/type is a dict is pushed onto that key's queue, which is created if needed, and no other queue changes; any other message is pushed onto every existing queue; every queue stays within 200 |
| WsSession.BroadcastToNoQueues | src/ws_hyperliquid.py:77-80 | a broadcast with no queues creates none |
| WsSession.Collect | src/ws_hyperliquid.py:95-113 | with max_messages ≤ 0 nothing is taken and nothing changes; otherwise it takes min(max, polls, queue length) messages from the front of the key's queue, so returned followed by remaining is the old queue; other queues are untouched |
| WsSession.CollectTwice | src/ws_hyperliquid.py:95-113 | two drains in a row return a prefix of the queue, in order, and their combined count is what the two budgets allow |
| Snapshot.LastWhere | src/ws_hyperliquid.py:178-185 | finds the last message satisfying the test, scanning in reverse |
| Snapshot.SelectFirstMatch | src/ws_hyperliquid.py:174-187 | the first variant whose batch holds a book message wins, and the last such message of that batch is chosen |
| Snapshot.SelectMatchIff | src/ws_hyperliquid.py:174-191 | the selection satisfies the test iff some variant delivered a message that does |
| Snapshot.SelectBookIsBookIff | src/ws_hyperliquid.py:174-191 | the selected message looks like a book iff some variant delivered one |
| Snapshot.SelectFallback | src/ws_hyperliquid.py:190-191 | with no book message, the last message of the last non-failing batch is used |
| Snapshot.SelectNoneRaised | src/ws_hyperliquid.py:172-191 | when every collect raised, the fallback is the last message of the initial list, if there is one |
| Snapshot.SelectFrom | src/ws_hyperliquid.py:172-191 | the chosen message is `{}`, a message of the batch the loop holds at the end, or a message some variant delivered |
| Snapshot.SelectBook | src/ws_hyperliquid.py:171-191 | starting from an empty `ob` and `msgs`, the chosen message is `{}` or a message some variant delivered |
| Snapshot.Snapshot | src/ws_hyperliquid.py:162-212 | for a non-negative depth, at most `depth` rows a side; both sides are empty when no variant delivered a message, and more generally whenever the chosen message is the initial `{}` |
| Snapshot.NormaliseBook | src/ws_hyperliquid.py:193-196 | a book message is read from its `data`, which is truthy because it holds `bids`, and never from its top level |
| Snapshot.SnapshotOfFirstBook | src/ws_hyperliquid.py:172-212 | when a variant delivered a book message, both sides come from the `data` of the newest book message of the first such variant, cut to `depth` rows |
| Snapshot.RowOf | src/ws_hyperliquid.py:201-205 | a row is kept iff it is a list of at least two entries whose first two convert with `float()` |
| Snapshot.Normalise | src/ws_hyperliquid.py:193-212 | if either side is not a list, both outputs are empty; otherwise each side keeps, in order, the parsable rows among its first `depth` rows; there is no sorting |
| Snapshot.RowsEncode | src/ws_hyperliquid.py:200-211 | reading encoded `[px, sz]` rows gives the levels back |
| Snapshot.NormaliseEncoded | src/ws_hyperliquid.py:193-212 | a snapshot message carrying encoded sides normalises to the first `depth` levels of each side, in order (a round trip) |
| Snapshot.ExampleUnsortedKept | src/ws_hyperliquid.py:200-205 | unsorted rows stay unsorted, and a malformed row is skipped |
| Tickers.FindAll | src/market_data_router.py:18-22 | every match is 2-10 upper-case letters |
| Tickers.FindAllIff | src/market_data_router.py:18-22 | a string is found iff it is matched at some position after a `$` that has no word character before it |
| Tickers.ExtractTickers | src/market_data_router.py:21-30 | the output has no duplicates, and each item is a ticker |
| Tickers.ExtractTickersIff | src/market_data_router.py:21-30 | a ticker is reported iff the upper-cased text holds a match for it |
| Tickers.ExtractTickersOrder | src/market_data_router.py:24-29 | tickers are listed in the order of their first match |
| Tickers.ExtractTickersIgnoresCase | src/market_data_router.py:22 | upper-casing the text first changes nothing |
| Tickers.ExampleGluedToWord | nl_tool_selector.py:17 | a `$` right after a word character starts no ticker |
| Tickers.ExampleDigitAfter | nl_tool_selector.py:17 | a ticker directly followed by a digit does not match |
| Tickers.ExampleParenthesised | nl_tool_selector.py:17 | `($ETH)` yields ETH |
| MarketRouter.ContainsAll | src/market_data_router.py:40-42 | true iff every needle occurs in the lower-cased text |
| MarketRouter.ContainsAny | src/market_data_router.py:45-47 | true iff some needle occurs in the lower-cased text |
| MarketRouter.CapitalNeedleNeverFound | src/market_data_router.py:41-47 | only the haystack is lower-cased, so a needle holding a capital letter never matches |
| MarketRouter.EmptyNeedles | src/market_data_router.py:40-47 | an empty needle list is all found and never any found |
| MarketRouter.LoadUniverseAndCtxs | src/market_data_router.py:50-61 | succeeds iff `data` is a 2-element list whose universe (defaulting to `[]`) and ctxs are both lists, and then returns them |
| MarketRouter.UniverseOf | src/market_data_router.py:58 | the universe of a dict, with `[]` when the key is missing, and `[]` for a non-dict |
| MarketRouter.ExampleNullUniverse | src/market_data_router.py:58-60 | an explicit null universe is rejected, while a missing one is empty |
| MarketRouter.OrderbookImbalance | src/market_data_router.py:64-70 | 0 when the top-20 total is not positive, within [-1, 1] for non-negative sizes, and (bid − ask)/total otherwise |
| MarketRouter.ImbalanceIgnoresDeepLevels | src/market_data_router.py:65-66 | levels past the twentieth never change the imbalance |
| MarketRouter.FallbackLabel | src/market_data_router.py:217-218 | buy iff imb > 0.1; sell iff imb < −0.1; neutral otherwise |
| ToolSelector.TimeWindowDays | nl_tool_selector.py:36-44 | the result is in {1, 7, 30}; 7 iff a week word occurs; 30 iff a month word occurs but no week word |
| ToolSelector.DayWordsAreTheDefault | nl_tool_selector.py:42-44 | without week or month words the window is 1, whether or not a day word occurs |
| ToolSelector.ExampleWeekBeatsMonth | nl_tool_selector.py:38-41 | "weekly or monthly" gives 7 |
| ToolSelector.SlippageSide | nl_tool_selector.py:143 | the side is sell iff the lower-cased prompt holds "sell" but not "buy", and buy otherwise |
| ToolSelector.AmountValue | nl_tool_selector.py:145-146 | the captured 2-9 digit amount is below 10^9 |
| ToolSelector.FirstMatch | nl_tool_selector.py:145 | the search returns the leftmost match, or none when there is no match |
| ToolSelector.Notional | nl_tool_selector.py:145-146 | the notional is 10000 when no amount matches in the lower-cased prompt, and otherwise the value of the digits of the leftmost match |
| ToolSelector.SlippageArgs | nl_tool_selector.py:139-147 | no call iff there is no ticker; otherwise the first ticker, the chosen side and the notional |
| ToolSelector.ExampleNotional | nl_tool_selector.py:145-146 | "sell 25000 usdc" gives 25000 |
| ToolSelector.UpperUnitNeverMatches | nl_tool_selector.py:145 | the `USD` alternative can never match, because the prompt is lower-cased first |
| ToolSelector.TrailingDollarIsNoAmount | nl_tool_selector.py:145 | "500$" is no amount: `\b` after `$` needs a word character next |
| ToolSelector.Allowed | nl_tool_selector.py:312-327 | address and ticker allow user-only ∪ ticker tools; address alone allows user-only; ticker alone allows ticker tools; neither allows global-only |
| ToolSelector.GroupsDisjoint | nl_tool_selector.py:313-319 | the three tool groups are pairwise disjoint |
| ToolSelector.GlobalOnlyWithoutContext | nl_tool_selector.py:312-327 | a global tool is never allowed once an address or a ticker is present |
| ToolSelector.DictKeys | nl_tool_selector.py:372 | a dict of asks iterates over each of its keys exactly once |
| ToolSelector.AsksToPrice | nl_tool_selector.py:366-384 | with no target, both totals are 0 |
| ToolSelector.StopIndex | nl_tool_selector.py:372-380 | the longest prefix of levels priced at or below the target |
| ToolSelector.SumToIsPrefixSum | nl_tool_selector.py:372-380 | when every level parses, the loop sums size and price·size over exactly that prefix |
| ToolSelector.BadLevelResets | nl_tool_selector.py:371-383 | a level that fails to parse before the stop wipes out the whole sum |
| ToolSelector.BadAskResets | nl_tool_selector.py:371-383 | then both totals read 0 |
| ToolSelector.StopIgnoresTail | nl_tool_selector.py:376-380 | levels after the first ask above the target are never read |
| ToolSelector.AsksToPriceIsPrefixSum | nl_tool_selector.py:364-384 | with a target, and levels that all parse, the totals are the prefix sums up to the stop |
| ToolSelector.AsksOf | nl_tool_selector.py:367-368 | the asks are those of a dict `data`, and `[]` otherwise |
| ToolSelector.SummaryFor | nl_tool_selector.py:367-383 | the payload carries the given target; with no target both totals are 0 |
| ToolSelector.AsksSummary | nl_tool_selector.py:364-384 | the target is the one `_parse_target_price` reads as written; with no target, or no keyword, both totals are 0 |
| ToolSelector.AsksSummaryCorrectionConservative | nl_tool_selector.py:366 | when the prompt's first number starts with at most three digits, the corrected target parse gives the same payload |
| ToolSelector.AsksToPriceCoin | nl_tool_selector.py:115-121 | an order-book call happens iff there is a ticker and the as-written parse finds a target price; it uses the first ticker |
| ToolSelector.Candidates | nl_tool_selector.py:332-351 | the lines the allowed tools give, in ranking order, ignoring the cap |
| ToolSelector.EmitFromTakesCandidates | nl_tool_selector.py:331-514 | from any count, the loop emits as many lines as it counts, and they are the first candidates up to the cap |
| ToolSelector.EmitCounts | nl_tool_selector.py:331-514 | the number of lines is `used`, which is at most `max_tools`; tools not allowed, without a call, or with `ok` false are skipped without counting |
| Text.DigitRun | nl_tool_selector.py:18 | the maximal run of digits at a position |
| TargetPrice.FirstDigit | nl_tool_selector.py:51 | the first digit of the text, where the leftmost match begins; none when there is no digit |
| TargetPrice.ParseTargetPriceAsWritten | nl_tool_selector.py:47-58 | as written: nothing unless "until", "up to" or "to " occurs in the lower-cased text, and nothing without a digit |
| TargetPrice.ParseTargetPrice | nl_tool_selector.py:47-58 | the same gate, reading the longer of the two alternatives with commas removed |
| TargetPrice.ParseTargetPriceAt | nl_tool_selector.py:49-55 | with a keyword, both parses read the number at the first digit |
| TargetPrice.GroupDigits | nl_tool_selector.py:55 | a plain run of digits converts to its value |
| TargetPrice.AsWrittenTruncatesPlainNumbers | nl_tool_selector.py:18 | as written, a plain number of more than three digits reads as its first three |
| TargetPrice.CorrectedReadsPlainNumbers | nl_tool_selector.py:18 | corrected, a plain run of digits followed by neither a comma nor a point reads as its whole value |
| TargetPrice.CorrectedAgreesOnGrouped | nl_tool_selector.py:18 | with at most three leading digits, for example comma-grouped numbers, the correction changes nothing |
| RagContext.Pieces | rag_chat.py:80 | one piece per chunk, in order |
| RagContext.LengthAppend | rag_chat.py:84 | running lengths add up over concatenation |
| RagContext.Kept | rag_chat.py:79-84 | the first piece is always kept; a later piece is kept only while the running length stays ≤ max_chars; the loop stops at the first piece that overflows |
| RagContext.ContextPieces | rag_chat.py:76-85 | the kept pieces are a prefix of the chunks' pieces, never empty for non-empty input, and within budget once there are two or more |
| RagContext.BuildContext | rag_chat.py:76-85 | the kept pieces joined by "\n\n---\n\n" |
| RagContext.ContextIsLargestFit | rag_chat.py:79-84 | the first m chunks are kept iff m ≤ 1 or their pieces fit in max_chars |
| RagContext.FindWhereIff | rag_chat.py:94-97 | `findall` finds a string iff it matches at some position |
| RagContext.Hashes | rag_chat.py:89-94 | every 66-character `0x` + 64-hex match |
| RagContext.Addresses | rag_chat.py:88-97 | every 42-character `0x` + 40-hex match |
| RagContext.Unlisted | rag_chat.py:96-99 | keeps exactly the items not in the hash list |
| RagContext.Identifiers | rag_chat.py:92-107 | distinct identifiers, each 66 or 42 characters long |
| RagContext.AddressesNeverFiltered | rag_chat.py:95-99 | the hash filter never removes an address, because the lengths differ |
| RagContext.IdentifiersIff | rag_chat.py:92-107 | an identifier is reported iff the text holds a hash or address match for it |
| RagContext.HashesBeforeAddresses | rag_chat.py:94-99 | every hash precedes every address |
| Json.NatStr | rag_chat.py:122 | `str()` of a natural number is a non-empty run of digits |
| Json.NatStrRoundTrip | rag_chat.py:122 | reading back the digits `str(n)` prints gives `n` |
| RagContext.KeyOf | rag_chat.py:121-122 | the key is the id when it is set and non-empty, and otherwise the printed document path, `#`, and the printed chunk index, with `None` for a missing field |
| RagContext.PathKeysDistinguish | rag_chat.py:122 | two chunks without an id, whose paths contain no `#`, share a key iff their paths and chunk indexes print alike |
| RagContext.ExampleKeysCollide | rag_chat.py:122 | an id "a#1" collides with document "a", chunk 1; a missing path collides with the path "None" |
| RagContext.Keys | rag_chat.py:123 | the set of `_key_of` keys of the retrieved items |
| RagContext.Promote | rag_chat.py:129-132 | an exact match gets score 1.1 and keeps its key |
| RagContext.PickerPicksHits | rag_chat.py:124-131 | only chunks that mention an identifier in text, title or meta are picked, and they are promoted |
| RagContext.Scan | rag_chat.py:124-137 | matches have keys not already seen and distinct from each other; each comes from a picked chunk; there are at most top_k, with the early exit still admitting one |
| RagContext.ScanPicksInOrder | rag_chat.py:124-137 | the matches are a subsequence of the picked chunks, in chunk order |
| RagContext.Ranked | rag_chat.py:140-142 | each match gets its position as its rank |
| RagContext.Fill | rag_chat.py:145-151 | what the fill loop appends extends the output, up to top_k |
| RagContext.FillTakesInOrder | rag_chat.py:145-151 | the appended items are a subsequence of `retrieved`, in order |
| RagContext.FillKeepsKeysDistinct | rag_chat.py:146-148 | the fill never repeats a key |
| RagContext.MergeExactMatches | rag_chat.py:116-118 | with no identifiers the result is `retrieved[:top_k]` |
| RagContext.MatchesArePromotedHits | rag_chat.py:124-135 | every exact match is one of the chunks that mentions an identifier in its text, title or meta, promoted |
| RagContext.MergeBound | rag_chat.py:136-151 | with identifiers and top_k ≥ 1, at most top_k items |
| RagContext.MergeMatchesFirst | rag_chat.py:139-144 | with identifiers, the ranked exact matches come first |
| RagContext.MergeOrderAndKeys | rag_chat.py:121-151 | with identifiers, the retrieved items follow in their own order, and no two items share a key |
| RagContext.NonPositiveTopKKeepsOne | rag_chat.py:116-151 | with top_k ≤ 0: one item when there are identifiers, and none when there are none and top_k is 0 |
| MarkdownChunker.FirstBlank | src/build_from_markdown_dir.py:30 | the next `\n\n` separator, or the end |
| MarkdownChunker.Blocks | src/build_from_markdown_dir.py:30 | `re.split(r"\n\n+")` gives at least one block, and no block holds a blank line |
| MarkdownChunker.BlocksCharsFromText | src/build_from_markdown_dir.py:30 | every character of a block comes from the text |
| MarkdownChunker.StripBlock | src/build_from_markdown_dir.py:31-33 | a kept block is stripped and non-empty |
| MarkdownChunker.Paragraphs | src/build_from_markdown_dir.py:29-34 | every paragraph is stripped and non-empty |
| MarkdownChunker.ParagraphsHaveNoBlankLine | src/build_from_markdown_dir.py:29-34 | no paragraph holds a blank line |
| MarkdownChunker.ParagraphCharsFromText | src/build_from_markdown_dir.py:29-34 | every character of a paragraph comes from the text |
| MarkdownChunker.BlankTextHasNoParagraphs | src/build_from_markdown_dir.py:29-34 | whitespace-only text has no paragraphs |
| MarkdownChunker.Flush | src/build_from_markdown_dir.py:40-48 | closes the open chunk, keeps it only when it is not blank, and resets the length; with nothing open it changes nothing |
| MarkdownChunker.HardWrap | src/build_from_markdown_dir.py:64-69 | every slice is non-empty and at most max_chars long |
| MarkdownChunker.HardWrapCoversParagraph | src/build_from_markdown_dir.py:64-69 | with overlap ≥ 0 the slices are consecutive and concatenate to the paragraph |
| MarkdownChunker.NegativeOverlapSkips | src/build_from_markdown_dir.py:69 | with a negative overlap the second slice starts `-overlap` characters past the end of the first, so those characters are lost |
| MarkdownChunker.PackedPartsFit | src/build_from_markdown_dir.py:40-74 | before overlap, no chunk is longer than max_chars |
| MarkdownChunker.HeadingStartsChunk | src/build_from_markdown_dir.py:51-55 | a heading paragraph is never second or later in a packed chunk |
| MarkdownChunker.PackedPartsKeepText | src/build_from_markdown_dir.py:50-74 | with overlap ≥ 0 the chunks hold every paragraph, in order, with nothing lost |
| MarkdownChunker.JoinedRendersAsJoin | src/build_from_markdown_dir.py:44 | a packed chunk of stripped paragraphs renders as their "\n\n" join, which the final strip leaves unchanged |
| MarkdownChunker.AddOverlap | src/build_from_markdown_dir.py:77-87 | the count is unchanged and chunk 0 is unchanged |
| MarkdownChunker.Tail | src/build_from_markdown_dir.py:84-85 | the carried tail is at most overlap + 1 characters |
| MarkdownChunker.OverlapPrefixesTail | src/build_from_markdown_dir.py:83-86 | for a chunk i with no leading or trailing whitespace, as every packed paragraph chunk is, chunk i is chunk i itself preceded by a suffix of the last `overlap` characters of the original chunk i−1 and the newline, so it grows by at most overlap + 1 |
| MarkdownChunker.ChunkMarkdown | src/build_from_markdown_dir.py:23-88 | one chunk per packed part; with overlap ≤ 0 the parts are returned as built |
| MarkdownChunker.ChunksFit | src/build_from_markdown_dir.py:23-88 | without overlap every chunk fits max_chars |
| MarkdownChunker.OverlappedChunksFit | src/build_from_markdown_dir.py:77-88 | with overlap, a chunk is at most max_chars + overlap + 1 |
| MarkdownChunker.LineEnd | src/build_from_markdown_dir.py:104 | the end of the line at a position: the next line break, or the end |
| MarkdownChunker.LinesFrom | src/build_from_markdown_dir.py:104 | the lines hold no line breaks |
| MarkdownChunker.InferTitle | src/build_from_markdown_dir.py:103-109 | the fallback when no title line exists; anything else comes from a title line |
| MarkdownChunker.InferTitleIsFirstHeading | src/build_from_markdown_dir.py:104-108 | the title is the heading text of the first stripped line that starts with `#` and is longer than 1, and it has no surrounding whitespace |
| MarkdownChunker.TitleAfterLoneHash | src/build_from_markdown_dir.py:104-108 | a lone `#` line is skipped, and the next `# w` line gives w, for a stripped, non-empty w that does not start with `#` |
| MarkdownChunker.ExampleTitle | src/build_from_markdown_dir.py:103-109 | "#\n# A\nb" gives "A" |
| GroupTexts.Concatenated | src/train_qlora_cpt.py:125 | one concatenated column per key |
| GroupTexts.Chop | src/train_qlora_cpt.py:130 | no block is longer than the block size |
| GroupTexts.ChopBlocks | src/train_qlora_cpt.py:129-130 | cutting n whole blocks gives n blocks of exactly the block size, which concatenate to the cut-out stretch |
| GroupTexts.Group | src/train_qlora_cpt.py:124-132 | it fails iff `input_ids` is missing or the block size is 0; a full batch gains a `labels` key; a short batch keeps its keys |
| GroupTexts.ShortBatchIsEmptied | src/train_qlora_cpt.py:126-128 | fewer tokens than one block: every key maps to `[]`, and no labels are added |
| GroupTexts.FullBlocks | src/train_qlora_cpt.py:126-130 | each column yields total // size blocks of exactly size tokens, which concatenate to its first (total // size)·size tokens; the rest is dropped |
| GroupTexts.LabelsCopyInputIds | src/train_qlora_cpt.py:131 | `labels` equals `input_ids`, block for block |
| ScraperNames.DropMd | src/gitbookScraper/scraper.py:39-40 | one trailing ".md" is removed if present, and the string is otherwise unchanged |
| ScraperNames.GetOriginalUrl | src/gitbookScraper/scraper.py:56-60 | the URL, or the URL minus a trailing ".md" |
| ScraperNames.OriginalUrlUndoesSuffix | src/gitbookScraper/scraper.py:56-60 | appending ".md" and converting back gives the URL again |
| ScraperNames.OriginalUrlKeepsPlainUrls | src/gitbookScraper/scraper.py:60 | a URL without ".md" is left as it is |
| ScraperNames.Sanitize | src/gitbookScraper/scraper.py:46 | same length; allowed characters are kept, and every other character becomes `_` |
| ScraperNames.Squeeze | src/gitbookScraper/scraper.py:47 | no doubled underscore; no new characters; the first and last characters are kept |
| ScraperNames.SqueezeKeepsSingles | src/gitbookScraper/scraper.py:47 | a string with no doubled underscore is left unchanged |
| ScraperNames.SqueezeDropsOnlyUnderscores | src/gitbookScraper/scraper.py:47 | squeezing removes underscores only: the other characters stay, in order |
| ScraperNames.CleanFilename | src/gitbookScraper/scraper.py:33-54 | the name always ends in ".md" and has a non-empty stem |
| ScraperNames.TidyIsClean | src/gitbookScraper/scraper.py:43-48 | a tidied stem has only allowed characters, no `/`, no "__", and no `_` at either end |
| ScraperNames.CleanFilenameStem | src/gitbookScraper/scraper.py:39-54 | the stem is clean and non-empty; it is "index" iff cleaning leaves nothing, and otherwise the tidied path without ".md" |
| ScraperNames.TidyKeepsCleanStems | src/gitbookScraper/scraper.py:43-48 | a clean stem is its own tidy form |
| ScraperNames.TidyIsIdempotent | src/gitbookScraper/scraper.py:43-48 | tidying twice equals tidying once |
| ScraperNames.RootPathIsIndex | src/gitbookScraper/scraper.py:50-52 | a path made only of slashes, such as the site root, names "index.md" |

## Left out

- HTTP and WebSocket I/O are outside the model. This covers `_post_info`, `websockets.connect`, `_ensure_connected`, the reconnect loop of `_reader` apart from its routing step, and the single-use `collect_subscription` fallback. Collected batches and decoded messages are inputs; a raising collect is a `None` batch. The `ctxs` half of `metaAndAssetCtxs` is taken to be a list (`seq<Json>`); a non-list there would make `len(ctxs)` or `ctxs[idx]` in `get_oi_trend` behave differently, and that is not modelled.
- MarkdownChunker.OverlapPrefixesTail: stated only for a chunk with no leading or trailing whitespace. A hard-wrapped slice such as `"abc "` (from `"x\n\nabc defgh"` with max_chars 4) loses its trailing space to the final strip, so it is not the tail followed by the unchanged chunk; for such chunks only the length bound of `OverlappedChunksFit` is promised.
- RagContext.Chunk: retrieved chunks are assumed to carry `title`, `text` and `source_url` as strings. In `build_context` a missing one raises `KeyError` and a non-string prints through `str()`; neither is modelled.
- Threads, the event loop and clocks are outside the model. The `collect` deadline is abstracted as a number of polling turns, and `now` is a parameter of the cache and the open-interest delta. `os.getenv` settings (θ, TTLs, message budgets) are parameters too.
- Floating point is modelled as exact `real` arithmetic. The `round(…, 3)` of score and confidence and the `math.sqrt` of the realised volatility are left out. The depth walk keeps the source's `1e-9` constants: it divides by `max(px, 1e-9)` and stops once the remainder is at most `1e-9`. Its budget bounds are stated for positive prices. The volatility is modelled up to its mean square return.
- `float()` on strings is a small decimal parser: sign, digits, one point, surrounding whitespace. Exponents, `inf`, `nan` and underscores count as failures.
- Character classes and case mapping are ASCII-only: `\w`, `\b`, `str.lower`/`str.upper`, and the word characters `clean_filename` keeps. A non-ASCII letter therefore counts as disallowed, where Python keeps it. `\d` and `[0-9]` are likewise ASCII digits only. Python's `\d` in the amount pattern of `_b_slippage` also matches other Unicode decimal digits, which the model does not. `_PRICE_RE` itself writes `[0-9]`.
- Trend.Sma: stated for `n >= 1`. With `n == 0`, `px[-0:]` is the whole list and the mean divides by zero; a negative `n` slices from the front and divides by a negative count. Trend.TrendOf inherits the bound.
- `str.splitlines` is modelled without treating "\r\n" as one break. A text ending in a newline gets a trailing empty line. Neither difference can change `_infer_title`, because it skips empty lines.
- `clean_filename` takes the URL's path component; `urlparse` is not part of this model.
- The subscription key is kept as a canonical JSON value, with objects sorted by key, rather than the string `json.dumps(..., sort_keys=True)` prints. JSON numbers are exact reals, so the model does not tell `1` from `1.0`, or `0.0` from `-0.0`. `json.dumps` prints each pair differently. Two subscriptions that differ only in such a number therefore share one queue in the model, where the program keeps two.
- WsSession.CanonFields: numbers are compared as reals, so integer and float spellings of one value give the same key; see the line above.
- Embedding similarity, `cos_sim` and the retriever are outside the model. The ranked tool list and the retrieved chunks are inputs. Each ranked tool's outcome is an input: no call, an `ok: false` response, or one line. That outcome covers the builder, the remote call and the payload formatting.
- `get_full_market_picture`, `get_batch_full_market_picture`, `get_premium_monitor`, `get_user_pnl_summary`, `get_metrics`, the remaining branches of `get_market_data_summary`, and the MCP tool wrappers are dictionary assembly around the modelled functions. They are not modelled.
- `extract_eth_addresses` and `_extract_address` are modelled only as the hex-id predicate behind `HasAddress`/`AddressAt`.
- MarkdownChunker.ChunkMarkdown: stated for `max_chars >= 1` only. With `max_chars <= 0` the source's hard-wrap loop emits empty slices or does not terminate.
- MarkdownChunker.PackedPartsKeepText: stated for `overlap >= 0` only. A negative overlap skips characters, as `NegativeOverlapSkips` shows.
- MarkdownChunker.Step: the `para_len` that includes the 2-character separator is computed before a heading flushes the open chunk. It is modelled as written, so a heading may be placed under a budget 2 characters tighter than needed.
- GroupTexts.FullBlocks: requires every column to have as many tokens as `input_ids`, as a tokenizer produces them. It excludes a `labels` column already present in the batch, since the result overwrites that column.
- TradeMetrics.Fills: a failing `float()` skips the row, as the source's `except` does. The `side` match is exact on the six spellings the source lists.
- RagContext.Scan: the per-chunk `c.copy()` and the in-place `rank` assignment are modelled as value updates.
- Snapshot.SelectFrom: `m.get("data")` on a dict message cannot raise, so the inner `except` of the selection loop is not modelled.

## Findings

| source | as written | input that shows it | evidently intended | confidence | as-written member | corrected member |
|---|---|---|---|---|---|---|
| nl_tool_selector.py:18 | the alternative `[0-9]{1,3}(?:,[0-9]{3})*…` is tried first, and it always succeeds on a digit, so a plain number is cut after three digits | "up to 115000" reads as 115.0 | read the whole number, 115000.0, as the second alternative `[0-9]+(?:\.[0-9]+)?` is meant to | high (not executed) | TargetPrice.AsWrittenTruncatesPlainNumbers | TargetPrice.CorrectedReadsPlainNumbers |

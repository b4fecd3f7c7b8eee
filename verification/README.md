# Verified model of ScreenerCD

ScreenerCD collects quotes from centralized exchanges and Uniswap pools, prices DEX tokens in USD through a
graph of quotes, and writes every quote to Redis. This project models the parts of it that keep state or search,
in Dafny, and proves what they promise.

* **Quote graph and USD pricer** (`QuoteGraph`, `Routes`, `Search`, `GraphPricer`, `OneHop`, `TightLoss`, `FairValue`,
  `FairFeeds`). `UpdatePair` feeds quotes into a directed graph in both directions; `ResolveUSD` runs a FIFO search for
  the widest route (heaviest lightest edge) to a stable within a hop limit, comparing weights with a tolerance. The
  search is the loop of the source; map iteration order is nondeterministic. `Search` holds the invariant of one step
  and what a run is, `Routes` what a route is worth and what choosing among candidates can lose, `OneHop` exactly when
  nothing is lost behind one edge, `TightLoss` a run that loses as much as any can, `FairValue` and `FairFeeds` the
  consequence that consistent quotes, and pools in balance, give consistent answers.
* **Line-limited log** (`LogWriter`). The chunked backward scan that keeps the last lines of a file, for any buffer
  size, and the whole run of a writer.
* **Uniswap connectors** (`SignedWords`, `SqrtPrices`, `V2Pools`, `Weights`, `PriceFilter`, `V2Connector`,
  `V3Connector`, `V4Once`, `V4Acks`). Word decoding, exact prices, token order, quote weights, the one-basis-point
  filter, V3's lazily fetched metadata, V4's once mode and its acknowledgement protocol. All three connectors drive the
  pricer class itself.
* **Redis** (`ExchangeKeys`, `KeyMigration`, `RedisClient`, `Pipeline`, `Workers`, `Interleavings`). Where legacy keys
  go, what a scan over any list of keys leaves behind, how batches become commands, and what a pool of workers leaves
  in the store and in its counters. A flush is not one step: the worker sends its commands, the server comes to them
  one at a time, between those of other workers, and the pipeline returns. `Interleavings` says which runs there are
  and what they can do to the two keys of a pair.
* **Symbols** (`Text`, `Symbols`). The ids each venue is asked for and the canonical symbol they come back to.

`Options`, `Sequences`, `Bytes` and `Rationals` are shared vocabulary.

Modelling choices:

* Prices and weights are reals. `math.MaxFloat64` is its exact value and a larger real stands for an infinite
  weight; rounding, NaN and overflow of prices do not arise.
* Times are integers, with Go's zero time as 0; the clock is a parameter.
* Addresses are their normalized text, empty for the zero address. Strings are ASCII.
* Decoded events, RPC answers, acknowledgement outcomes, scan pages and pipeline failures are parameters. I/O errors
  of the log file and of single Redis calls are not part of this model.
* A loop body or a closure that is long in the source is a method of its own here (`FollowEdges`, `ScanChunk`,
  `CollectFields`, `Retry`, `AcquireMeta`).

Where code and comments disagree the code is followed. `ResolveUSD` is described as finding the shortest route; it
takes the widest one within the hop limit (`graph_pricer.go:225`). `NormalizeExchangeKeys` is described as merging
mixed-case exchange names; only Gate aliases and Gate symbols are rewritten, which `PriceTargetIff` states exactly
(`normalize.go:11`). A stable one edge away is found even with a hop limit below one, hence `Query.Bound`.

Claims that fail, with the exact condition under which they hold: an update keeps the graph reciprocal
(`ReciprocalKeptIff`); a stored edge is current (`CurrentKeptIff`, `OlderHeavierQuoteWins`); the answer is a widest
route (`SeparatedAnswerIsWidest`, exactly `AlwaysWidestIff` behind one edge, `LossBoundIsTight` for how far it can
miss); V3 and V4 price alike (`V3AgreesWithV4Iff`); exchanging the tokens exchanges the prices
(`SwappedTokensSwapPrices`); token order is invisible in a finalized pool (`FinalizeCommutesIff`); a merge keeps the
later time (`MergedTimeIff`); Gate's and OKX's ids split a pair between base and quote (`GateSplitsIff`: "XDAI" stays
whole; `OkxSplitsIff`); the raw and the canonical key of a pair hold the same quote
(`PairAlwaysAgreesIff`, with `DisagreeingRun` as a run that breaks it); a fair V3 pool quotes a fair price
(`V3FairIff`).

## Model

| member | source | states |
|---|---|---|
| GraphPricer.GraphPricer.ResolveUSD | internal/dex/pricing/graph_pricer.go:226-330 | Terminates; stables answer 1; any other token gets the answer of a run of the search, whose edge orders are the map's choice, and it satisfies `Answers`: success iff a stable is within the hop limit, the quote kept among distinct simple routes that include every direct one, and a weight within a stated loss of every route |
| GraphPricer.GraphPricer.FollowEdges | internal/dex/pricing/graph_pricer.go:270-326 | Following one item's edges, each once in any order, is the fold of the search step over that order and keeps the whole search invariant and the best candidate so far |
| GraphPricer.GraphPricer.Traverse | internal/dex/pricing/graph_pricer.go:279-295 | Price, bottleneck, freshness, path and hops one edge further |
| GraphPricer.GraphPricer.UpdatePair | internal/dex/pricing/graph_pricer.go:194-223 | An accepted quote extends the history by exactly one quote with defaulted weight and time, and the graph stays the replay of its history |
| GraphPricer.GraphPricer.SetEdgeLocked | internal/dex/pricing/graph_pricer.go:363-376 | The edge is replaced exactly when the new one is fresher or heavier by more than the tolerance; no other edge changes |
| GraphPricer.GraphPricer.RegisterStable | internal/dex/pricing/graph_pricer.go:177-191 | Marks the anchor and its display symbol, and nothing else |
| GraphPricer.SymbolDisplayed | internal/dex/pricing/graph_pricer.go:167-170 | The symbol shown is the token's own one trimmed and upper-cased, changed in nothing but case, or its address if it has none |
| GraphPricer.GraphPricer.constructor | internal/dex/pricing/graph_pricer.go:61-102 | An empty graph whose anchors are exactly the known addresses given, three hops |
| GraphPricer.AnswerHasWitness | internal/dex/pricing/graph_pricer.go:297-306 | One simple route within the limit accounts for price, weight and freshness of an answer, and the names listed are the registered symbols of its addresses, or the addresses themselves |
| Routes.MinimaOverEdges | internal/dex/pricing/graph_pricer.go:283-293 | The weight and time of a route are the minima over its edges, and are attained |
| Routes.RouteConnected | internal/dex/pricing/graph_pricer.go:297-307 | A route starts at the token, follows stored edges and meets a stable only at its end |
| Routes.ReachableIff | internal/dex/pricing/graph_pricer.go:270-326 | The routes the search may take are exactly the walks from the token along stored edges of positive price and weight that first meet a stable at their end, with at most `maxHops` edges or a single one |
| GraphPricer.AnswerLoss | internal/dex/pricing/graph_pricer.go:253-361 | For every graph and order, the answer is at most one epsilon per inner edge and per further route compared lighter than any route |
| GraphPricer.SeparatedAnswerIsWidest | internal/dex/pricing/graph_pricer.go:253-361 | When different edge weights differ by more than epsilon, the answer's weight is the maximum over all routes of the minimum edge weight |
| GraphPricer.SeparatedAnswerIsFreshest | internal/dex/pricing/graph_pricer.go:353-361 | Under separation no equally wide route that was compared is fresher than the answer |
| GraphPricer.AnswerIndependentOfOrder | internal/dex/pricing/graph_pricer.go:275-329 | Under separation success and weight do not depend on map iteration order |
| OneHop.AlwaysWidestIff | internal/dex/pricing/graph_pricer.go:253-361 | A token whose edges all lead to stables, any number of them at any times, is answered the widest route in every iteration order iff some heaviest edge is strictly fresher than every edge lighter by at most epsilon |
| OneHop.TwoAnchors | internal/dex/pricing/graph_pricer.go:353-361 | In the graph two quotes leave, at any times: which of the two is the answer, for all weights and orders |
| TightLoss.LossBoundIsTight | internal/dex/pricing/graph_pricer.go:253-361 | For any number of anchors there are a history of quotes in time order and an iteration order with which the answer loses exactly the bound, three hops and all |
| Routes.KeptLoss | internal/dex/pricing/graph_pricer.go:297-306 | Keeping one of n candidates loses at most n - 1 tolerances |
| Routes.LastOfDriftIsKept | internal/dex/pricing/graph_pricer.go:353-361 | Of ever fresher near-ties the last is kept, n - 1 epsilons lighter than the first |
| Routes.KeptIsFreshestHeaviest | internal/dex/pricing/graph_pricer.go:353-361 | Under separation the kept candidate is the freshest of the heaviest |
| Search.OnlyHeavierIsRevisited | internal/dex/pricing/graph_pricer.go:337-351 | In FIFO order the fewer-hops clause never fires, and the zero visitInfo means unvisited |
| Search.VisitIsNew | internal/dex/pricing/graph_pricer.go:314-317 | A visit never repeats an address of the current path and never lowers a visited weight |
| Search.ExtendFollowsEdge | internal/dex/pricing/graph_pricer.go:279-295 | The running product, minimum and oldest time are those of the longer walk |
| Search.FollowKeeps | internal/dex/pricing/graph_pricer.go:275-326 | Every branch of the loop body keeps levels, distinct paths, visited weights, candidates and progress |
| Search.TakeNext | internal/dex/pricing/graph_pricer.go:266-268 | Queue hops span two adjacent levels; each pop decreases (levels left, items of the level), so the loop ends |
| Search.CoverOneMore | internal/dex/pricing/graph_pricer.go:310-325 | A finished level covers every walk one edge longer, exactly at the first edge, up to one more tolerance at a later one |
| Search.Finished | internal/dex/pricing/graph_pricer.go:266-329 | With the queue empty, every route within the limit is matched by a candidate up to one tolerance for each of its inner edges |
| QuoteGraph.ReplayReciprocal | internal/dex/pricing/graph_pricer.go:194-223 | After any run of quotes between distinct tokens, a to b exists iff b to a does, prices multiply to 1, weights and times agree |
| QuoteGraph.ReciprocalKeptIff | internal/dex/pricing/graph_pricer.go:217-221 | One update keeps reciprocity iff it is not an accepted self-quote at a price other than 1 |
| QuoteGraph.ReversedQuoteIsIdle | internal/dex/Etherium/Uniswap/v4_connector.go:1331-1338 | The reversed quote with the same weight and time never changes the graph |
| QuoteGraph.StoredEdgesWereQuoted | internal/dex/pricing/graph_pricer.go:363-376 | An edge exists iff its pair was quoted, and is one of those quotes, whatever the order of times |
| QuoteGraph.CurrentKeptIff | internal/dex/pricing/graph_pricer.go:369-375 | A further quote of the pair keeps the edge current iff it is not older yet clearly heavier |
| QuoteGraph.StoredEdgesAreCurrent | internal/dex/pricing/graph_pricer.go:363-376 | With times in order, each edge has the latest time quoted for its pair and a weight within epsilon of the heaviest quoted then |
| QuoteGraph.OlderHeavierQuoteWins | internal/dex/pricing/graph_pricer.go:370-375 | Out of order, a heavier but older quote displaces a newer one |
| FairValue.FairReplay | internal/dex/pricing/graph_pricer.go:194-223 | Quotes that agree with one valuation leave a graph that does |
| FairValue.AnswerIsFair | internal/dex/pricing/graph_pricer.go:226-330 | Then every answer is exactly the token's value, whichever route was chosen |
| FairFeeds.SyncQuoteIsFair | internal/dex/Etherium/Uniswap/v2_connector.go:583-609 | A V2 pool with equal value on both sides tells the pricer the ratio of its tokens' values |
| FairFeeds.SwapQuotesAreFair | internal/dex/Etherium/Uniswap/v4_connector.go:1321-1338 | So do both quotes of a V4 pool whose square root is that of its tokens' value ratio |
| FairFeeds.V3QuoteIsFairIff | internal/dex/Etherium/Uniswap/connect_uniswap_v3_all.go:796-818 | A V3 pool with a fair square root tells the pricer a fair quote iff both decimals are positive or equal |
| FairFeeds.FeedAndResolve | internal/dex/Etherium/Uniswap/v4_connector.go:1162-1338 | Over any interleaving of V2, V3 and V4 events of pools in balance, every token found is priced at exactly its value, whichever route is chosen |
| LogWriter.LineLimitedWriter.TrimUnlocked | internal/util/logger.go:66-131 | For every content, buffer size and limit, the file becomes its last lines |
| LogWriter.LineLimitedWriter.ScanChunk | internal/util/logger.go:93-101 | One chunk either adds its newlines to the count or finds the cut |
| LogWriter.LastLinesIsLongest | internal/util/logger.go:84-129 | What is kept is the longest line-aligned suffix with at most the allowed newlines, and everything iff the content has no more |
| LogWriter.TrimEarly | internal/util/logger.go:41-52 | Trimming before an append keeps exactly what trimming once afterwards keeps |
| LogWriter.LineLimitedWriter.Write | internal/util/logger.go:41-52 | After any run of writes the file is the last lines of everything ever written |
| LogWriter.LineLimitedWriter.constructor | internal/util/logger.go:28-39 | Opening trims what the file already held |
| SignedWords.DecodedIsTheResidue | internal/dex/Etherium/Uniswap/connect_uniswap_v3_all.go:822-832 | The decoded word is the unique number in two's-complement range congruent to the unsigned value (Solidity Contract ABI Specification, Formal Specification of the Encoding) |
| SignedWords.DecodeEncoded | internal/dex/Etherium/Uniswap/connect_uniswap_v3_all.go:822-832 | Decoding inverts two's-complement encoding, for every length |
| SignedWords.EncodeDecoded | internal/dex/Etherium/Uniswap/connect_uniswap_v3_all.go:822-832 | Encoding inverts decoding |
| SignedWords.HalfIsPowerOfTwo | internal/dex/Etherium/Uniswap/connect_uniswap_v3_all.go:827-830 | The range of an n-byte word is bounded by 2^(8n-1) |
| SqrtPrices.V4Succeeds | internal/dex/Etherium/Uniswap/v4_connector.go:1414-1437 | V4 prices exactly the positive square roots, and the two directions multiply to 1 |
| SqrtPrices.V3AgreesWithV4Iff | internal/dex/Etherium/Uniswap/connect_uniswap_v3_all.go:796-807 | V3 and V4 agree on a pool iff its decimals are known and positive, or equal |
| SqrtPrices.V3FairIff | internal/dex/Etherium/Uniswap/connect_uniswap_v3_all.go:796-807 | With a fair square root V3's price is fair iff both decimals are positive or equal |
| SqrtPrices.PricesIncrease | internal/dex/Etherium/Uniswap/v4_connector.go:1414-1425 | Prices grow strictly with the square root, inverses fall |
| SqrtPrices.SwappedTokensSwapPrices | internal/dex/Etherium/Uniswap/v4_connector.go:1414-1425 | Exchanging the tokens exchanges the two directions up to the product of the raw prices, for all square roots, and exactly iff their product is 2^192 (section 6.2.1 of the Uniswap v3 Core whitepaper) |
| SqrtPrices.RoundedInverseError | internal/dex/Etherium/Uniswap/v4_connector.go:1414-1425 | With the inverse square root rounded down, the exchanged price is lower by less than a share of 2s/2^192 |
| SqrtPrices.FairSqrtIsFairPrice | internal/dex/Etherium/Uniswap/v4_connector.go:1414-1425 | A square root that is fair for raw units gives a price that is fair for whole tokens |
| SqrtPrices.TwoPow192 | internal/dex/Etherium/Uniswap/v4_connector.go:35 | The scale constant is 2 to the 192 |
| V2Pools.SwapKeepsPrice | internal/dex/Etherium/Uniswap/v2_connector.go:748-783 | Swapping the tokens together with the reserves keeps price, base, quote and pair |
| V2Pools.SnapshotOfWords | internal/dex/Etherium/Uniswap/v2_connector.go:748-783 | A payload of words r0 and r1, and anything after them, is worth nothing iff one is zero, and else has these reserves in this order and a price that turns the base's reserve into the quote's, in whole tokens |
| V2Pools.PayloadIsWords | internal/dex/Etherium/Uniswap/v2_connector.go:748-758 | A payload is rejected iff it is shorter than two words; any other is two words and a rest |
| V2Pools.PublishedIsBasePrice | internal/dex/Etherium/Uniswap/v2_connector.go:406-416 | Of a pool in balance the base's price in units of the quote is published, under its name or else base before quote |
| Weights.LargerSideOfWords | internal/dex/Etherium/Uniswap/v2_connector.go:633-663 | The weight is the larger of two word-sized amounts in whole tokens and without signs, whichever comes first, and 1e-9 of two zeros |
| Weights.TokensTimesScale | internal/dex/Etherium/Uniswap/v2_connector.go:654-657 | Whole tokens times ten to the decimals are the raw amount |
| V2Pools.SwapTwice | internal/dex/Etherium/Uniswap/v2_connector.go:1129-1132 | Swapping twice is the identity, once never is |
| V2Pools.OrderEnsured | internal/dex/Etherium/Uniswap/v2_connector.go:1075-1089 | The check succeeds iff the chain names the same two tokens, then matches the chain's order, keeps base, quote and pair, and is idempotent; otherwise nothing changes |
| V2Pools.OrderedPoolPricesChainOrder | internal/dex/Etherium/Uniswap/v2_connector.go:1080-1087 | A reordered pool prices the chain's reserves as the original order would price them exchanged |
| V2Pools.FinalizedPool | internal/dex/Etherium/Uniswap/v2_connector.go:49-63 | Flags and stable symbol are those of the pool's tokens, a pair keeps its name or gets base and quote, nothing else changes, and finalizing twice is finalizing once |
| V2Pools.FinalizeCommutesIff | internal/dex/Etherium/Uniswap/v2_connector.go:1084-1085 | Finalizing commutes with swapping the tokens iff the pool does not pair two stables of different symbols |
| V2Pools.PricerQuote | internal/dex/Etherium/Uniswap/v2_connector.go:583-600 | Whichever token is the base, the pricer is told the positive ratio (r1/10^d1)/(r0/10^d0) |
| V2Pools.BalancedPoolIsFair | internal/dex/Etherium/Uniswap/v2_connector.go:583-609 | A pool with equal value on both sides quotes the ratio of its tokens' values |
| V2Connector.PoolState.EnsurePoolOrder | internal/dex/Etherium/Uniswap/v2_connector.go:1075-1089 | The pool updated in place is the specified one |
| V2Connector.PoolState.FinalizePool | internal/dex/Etherium/Uniswap/v2_connector.go:49-63 | The pool updated in place is the one `FinalizedPool` describes |
| V2Connector.PoolState.ShouldDrop | internal/dex/Etherium/Uniswap/v2_connector.go:544-559 | The last published price stays the last one accepted from the pool's whole price history; dropped iff nothing is accepted |
| V2Connector.PoolState.HandleSync | internal/dex/Etherium/Uniswap/v2_connector.go:506-520 | Publishes iff the filter accepts the payload's price, and then extends the pricer's history by exactly the token0 to token1 quote at (r1/10^d1)/(r0/10^d0), with the larger reserve as its weight, and registers both tokens' symbols |
| V3Connector.PoolMeta.HandleSwap | internal/dex/Etherium/Uniswap/connect_uniswap_v3_all.go:753-818 | A priced swap gets missing metadata, registers tokens and anchors once, and tells the pricer exactly one quote, of tokens with metadata only; any other payload changes nothing |
| V3Connector.QuoteOfWords | internal/dex/Etherium/Uniswap/connect_uniswap_v3_all.go:765-807 | Of a payload of five words and anything after them, the third is the square root whose price is quoted, adjusted iff both decimals are positive, and the larger of the first two, in whole tokens and without signs, is the weight |
| V3Connector.PoolMeta.UpdatePricing | internal/dex/Etherium/Uniswap/connect_uniswap_v3_all.go:930-948 | The quote is of the price V3 gives, with the larger amount as its weight |
| PriceFilter.FilterBounds | internal/dex/Etherium/Uniswap/v2_connector.go:544-559 | The newest price is strictly within 1 bp of the accepted one; accepted prices are at least 1 bp apart |
| PriceFilter.MovesWithinVariation | internal/dex/Etherium/Uniswap/v2_connector.go:544-559 | The minimum moves of the accepted prices add up to at most the stream's total variation |
| PriceFilter.AcceptedCount | internal/dex/Etherium/Uniswap/v2_connector.go:544-559 | A stream above a floor is published at most once per basis point of the floor it travels |
| V4Once.V4Connector.StoreSwapMetrics | internal/dex/Etherium/Uniswap/v4_connector.go:1109-1160 | Unknown pools change nothing; a pool is marked once, on its first swap; `remaining` counts the pools not yet seen |
| V4Once.V4Connector.HandleSwapEvent | internal/dex/Etherium/Uniswap/v4_connector.go:1162-1319 | Over whole runs, completion is reported by exactly the one event that makes the seen pools all the pools; a stored swap extends the pricer's history by its quote and the reversed one, any other event by nothing |
| V4Once.StoredIff | internal/dex/Etherium/Uniswap/v4_connector.go:1162-1219 | Exactly the decodable swaps of configured pools with a positive square root are stored |
| V4Once.RecordedIsBasePrice | internal/dex/Etherium/Uniswap/v4_connector.go:1220-1223 | A stored swap keeps tokens and earlier mark and sets the rest; at fair prices the last price turns the quote's value into the base's |
| V4Once.SwapIsWeighed | internal/dex/Etherium/Uniswap/v4_connector.go:1528-1557 | The weight of a swap is its larger amount in whole tokens and without sign, 1e-9 if both are zero |
| V4Once.V4Connector.UpdatePricing | internal/dex/Etherium/Uniswap/v4_connector.go:1321-1338 | For known tokens the history grows by the quote and its reverse; between distinct tokens of a reciprocal graph both together leave it as the first one alone |
| V4Once.CountUnmarked | internal/dex/Etherium/Uniswap/v4_connector.go:1151-1155 | The loop over the pools counts the unmarked ones, in any order |
| V4Acks.RunStream | internal/dex/Etherium/Uniswap/v4_connector.go:911-1037 | Alive exactly through the histories of `OngoingIff`: then fewer than 5 failures, timer armed iff waiting, one retry per failure. Otherwise it ends with the first event that ends it, for the reason `EndsBecause` gives. At most 4 retries per success, none when told to stop |
| V4Acks.EndsIff | internal/dex/Etherium/Uniswap/v4_connector.go:970-1034 | An event ends the stream iff it is a cancelled context, a read error, a closed reader or a failing frame, or a failed acknowledgement while told to stop, after four in a row, or whose sleep or resubscription fails; any other frame does not |
| V4Acks.EndsBecause | internal/dex/Etherium/Uniswap/v4_connector.go:970-1034 | Each reason has its own condition; giving up names the number of failures |
| V4Acks.OngoingIff | internal/dex/Etherium/Uniswap/v4_connector.go:970-1034 | The stream goes on iff there was no cancelled context, read error, closed reader or failing frame, no five failures in a row, and every failure came without being told to stop and had its retry slept and subscribed |
| V4Acks.AllFailuresCount | internal/dex/Etherium/Uniswap/v4_connector.go:978-1013 | Failures are the rejections, and the timeouts while an acknowledgement is outstanding |
| V4Acks.SuccessesCount | internal/dex/Etherium/Uniswap/v4_connector.go:1006-1011 | Successes are the acknowledgements |
| V4Acks.FailuresInARow | internal/dex/Etherium/Uniswap/v4_connector.go:1006-1013 | The failures in a row are those since the last success |
| V4Acks.FailuresPerSuccess | internal/dex/Etherium/Uniswap/v4_connector.go:982-1034 | Over any history without five failures in a row, failures are at most 4 x (successes + 1) |
| V4Acks.DelayBound | internal/dex/Etherium/Uniswap/v4_connector.go:951-960 | Delays since the last success total n(n+1) seconds, at most 20 |
| V4Acks.WaitingIff | internal/dex/Etherium/Uniswap/v4_connector.go:923-949 | An acknowledgement is outstanding iff every success so far was followed by a rejection |
| ExchangeKeys.PriceTargetIff | internal/redisclient/normalize.go:62-79 | A price key is rewritten iff its exchange, trimmed and in lower case, is gateio, gate-io, gate_io, gate-spot or gate.io, or is gate with a symbol lacking an underscore |
| ExchangeKeys.CanonTargetIff | internal/redisclient/normalize.go:80-91 | A canonical key is rewritten iff its exchange is one of those five aliases |
| ExchangeKeys.TargetOfKey | internal/redisclient/normalize.go:52-95 | A price key is read as exchange and symbol, a canonical one as symbol and exchange, where only the exchange may have colons |
| ExchangeKeys.CanonDestination | internal/redisclient/normalize.go:80-91 | A moved canonical key goes to the key that splits into price_canon, its own symbol and gate |
| ExchangeKeys.CanonDestinationsMeetIff | internal/redisclient/normalize.go:89-91 | Two moved canonical keys go to one key iff their symbols agree |
| ExchangeKeys.PriceDestination | internal/redisclient/normalize.go:68-79 | A moved price key goes to the key that splits into price, gate and its trimmed symbol, in Gate's form unless it has an underscore, with the same letters |
| ExchangeKeys.DestinationsStay | internal/redisclient/normalize.go:52-95 | No destination key is itself rewritten |
| KeyMigration.TimestampRoundTrip | internal/redisclient/normalize.go:142-149 | A timestamp the workers write reads back |
| KeyMigration.SignedDecimals | internal/redisclient/normalize.go:144 | Signed decimals are read exactly within 64 bits, and none beyond |
| KeyMigration.ParsedHasDigits | internal/redisclient/normalize.go:144 | Whatever is read is digits after at most one sign |
| KeyMigration.MergedFields | internal/redisclient/normalize.go:97-134 | Field by field: the exchange is the new one, the symbol the new one unless a later destination had that exchange already, any other field that of a source at least as late, or else the destination's |
| KeyMigration.MergedTimeIff | internal/redisclient/normalize.go:118-124 | A merge of any two hashes ends up with the later time iff the source has a time or the destination's is not negative |
| KeyMigration.MergedIsNewest | internal/redisclient/normalize.go:118-134 | A merge of two hashes with prices, whatever other fields they lack, keeps the newer one's time and price |
| KeyMigration.ScanKeepsNewest | internal/redisclient/normalize.go:27-140 | Any list of keys, in any order and with repeats, leaves a settled key with the newest timestamp of all it and its sources held, and a price of that time, whatever the rest of the store holds |
| KeyMigration.ScanRemovesSources | internal/redisclient/normalize.go:97-140 | Every scanned key that moves is gone, from any store |
| KeyMigration.ScanTouchesOnly | internal/redisclient/normalize.go:27-140 | No other key changes |
| KeyMigration.SecondScanIsIdle | internal/redisclient/normalize.go:27-50 | After a scan that missed no movable key of its group another one changes nothing |
| KeyMigration.RunKeepsNewest | internal/redisclient/normalize.go:12-25 | Normalizing both groups leaves each settled key of either with the newest of what its group's scan brings to it |
| KeyMigration.SecondRunIsIdle | internal/redisclient/normalize.go:12-25 | After complete scans of both groups nothing is left to move and a second run of both changes nothing |
| RedisClient.FlattenFields | internal/redisclient/normalize.go:151-168 | Writing the flattened fields to any hash adds exactly the given fields |
| RedisClient.RedisClient.MergeAndDelete | internal/redisclient/normalize.go:97-140 | The store after the calls is the specified merge |
| RedisClient.RedisClient.NormalizeKeyGroup | internal/redisclient/normalize.go:27-50 | The pages of a scan act as the one list of their keys |
| Sequences.ConcatOf | internal/redisclient/normalize.go:31-48 | The list of all keys is that of the first pages followed by that of the rest |
| RedisClient.RedisClient.NormalizeExchangeKeys | internal/redisclient/normalize.go:12-25 | The store after both scans is that of the specified run |
| Pipeline.QueueBatch | internal/redisclient/client.go:70-106 | Exactly the well-formed entries become commands, in order, whatever stands between them |
| Pipeline.CollectFields | internal/redisclient/client.go:85-100 | Fields are collected iff the entry is well-formed |
| Pipeline.EntrySends | internal/redisclient/client.go:74-106 | An entry becomes a command iff it is a string key and one or more string names, each with a value, and the command sets each name to its value's text |
| Pipeline.CommandsConcat | internal/redisclient/client.go:74-106 | Entries become commands one by one |
| Pipeline.MessageCommands | cmd/screener-core/main.go:298-308 | A message is two well-formed HSETs of its four fields, the raw key's first, then the canonical key's |
| Pipeline.MessageKeys | cmd/screener-core/main.go:298-306 | Without colons in its names, a message's keys split into price, exchange and symbol, and into price_canon, the trimmed letters of the symbol, and exchange |
| Pipeline.VenuesMeet | cmd/screener-core/main.go:303-306 | Messages that carry any two venues' ids of one configured pair write canonical keys of one symbol, the trimmed letters of the pair |
| Pipeline.WrittenQuoteReadsBack | internal/redisclient/normalize.go:142-149 | The time and price a worker has written are read back from the hash |
| Pipeline.MessagesCommands | cmd/screener-core/main.go:298-308 | The commands of any run of messages are their HSETs, in order |
| Pipeline.LastQuoteWins | internal/redisclient/client.go:104-107 | After any commands that write whole quotes, a hash is the one found with the last quote written to it on top |
| Workers.WorkerPool.StartFlush | cmd/screener-core/main.go:278-282 | The batch goes onto a pipeline as the commands of its entries, and every worker stays in order with what the server has run |
| Workers.WorkerPool.Serve | internal/redisclient/client.go:105-107 | The server comes to the next command of any worker's pipeline, runs or refuses it, and the store stays what the commands run make of it |
| Workers.WorkerPool.ServeAbandoned | internal/redisclient/client.go:107-115 | A command of a failed pipeline may still run, at any later time and out of order |
| Workers.WorkerPool.EndFlush | cmd/screener-core/main.go:282-289 | A pipeline that returns is counted as written or failed; written plus failed plus batched entries stay twice the messages processed |
| Workers.WorkerPool.Receive | cmd/screener-core/main.go:293-322 | Any worker that is not flushing may take the next message; its batch is sent as soon as it reaches the pipeline size |
| Workers.WorkerPool.Tick | cmd/screener-core/main.go:323-326 | A timer, or the closed channel, sends the pending batch |
| Workers.BatchingIsInvisible | cmd/screener-core/main.go:273-329 | Once all is flushed without errors, the store is that of an interleaving of the workers' single HSETs, each worker's in the order of its messages, and every message is counted twice |
| Workers.QuotesAreNeverTorn | cmd/screener-core/main.go:297-308 | At any moment, under any interleaving and any failures, a hash is the one found or has exactly one received message's four fields on top |
| Workers.OthersDoNotInterfere | cmd/screener-core/main.go:271-329 | A key that one worker alone writes ends up as that worker's messages, in order, leave it |
| Workers.WorkersWriteQuotes | cmd/screener-core/main.go:296-304 | A store of quotes that workers write messages with rendered times to stays one: no empty hash, every hash with a price and a time that is not negative |
| Workers.NormalizingKeepsNewest | internal/redisclient/normalize.go:12-25 | So normalizing what workers have written leaves each settled key with the newest of what its group's scan brings to it |
| Workers.OneWorkerWritesItsMessages | cmd/screener-core/main.go:291-327 | One worker, fully flushed, has written its messages' HSETs in order |
| Interleavings.RunInterleaving | cmd/screener-core/main.go:271-329 | Every interleaving of the workers' HSETs, each worker's in the order of its messages, is the run of some pool that ends drained and without errors |
| Interleavings.PoolInterleaves | cmd/screener-core/main.go:271-329 | And every such pool has run such an interleaving |
| Interleavings.PairAlwaysAgreesIff | cmd/screener-core/main.go:297-308 | The raw and the canonical key of a pair hold the same quote after every interleaving iff the last messages for them, of any two workers that may end a run, carry the same fields |
| Interleavings.PoolAgrees | cmd/screener-core/main.go:297-308 | So under that condition the keys of a drained pool without errors agree |
| Interleavings.SoleWriterAgreesIff | cmd/screener-core/main.go:297-308 | Keys only one worker writes agree iff its last messages for them carry the same fields |
| Interleavings.OnePairAgrees | cmd/screener-core/main.go:297-308 | They agree when every message for either key is of one worker, exchange and symbol |
| Interleavings.DisagreeingRun | internal/redisclient/client.go:74-107 | Two workers that take one quote each of a pair: a run, drained and without errors, after which the two keys hold different quotes |
| Interleavings.TurnsDisagree | internal/redisclient/client.go:74-107 | Two differing quotes of a pair flushed in turns leave its keys different; flushed one after the other they do not |
| Symbols.NormalizeIsLetters | internal/util/helpers.go:53-62 | Upper-casing and the four replacements amount to keeping the upper-case letters, then trimming blanks |
| Symbols.LettersOfOne | internal/util/helpers.go:54-59 | A dash, underscore, slash or dot has no letters, any other character its upper case |
| Symbols.LettersConcat | internal/util/helpers.go:53-62 | Letters are taken one by one |
| Symbols.NormalizeDropsOnlyBlanks | internal/util/helpers.go:53-62 | The canonical symbol is the letters of the raw one but for blanks at the ends |
| Text.TrimSpaceDropsBlanks | internal/util/helpers.go:60 | Trimming removes blanks at the two ends and nothing else |
| Text.OnlyBlanksTrimAway | internal/util/helpers.go:60 | Exactly a string of blanks trims to nothing |
| Text.UpperKeeps | internal/util/helpers.go:54 | Upper-casing leaves no lower-case letter and changes nothing but case |
| Text.UpperCase | internal/util/helpers.go:54 | The upper case of the alphabet; no other character changes |
| Text.LowerCase | internal/util/helpers.go:17 | The lower case of the alphabet; no other character changes |
| Text.Blanks | internal/util/helpers.go:60 | Space, tab, line feed, vertical tab, form feed and carriage return are blanks |
| Symbols.NormalizeIsIdempotent | internal/util/helpers.go:53-62 | A canonical symbol is its own canonical form, trimmed, without lower-case letters and without dash, underscore, slash and dot |
| Symbols.VenuesAgree | internal/launcher/register_cex.go:72-170 | The id each venue is asked for normalizes to the same symbol as the configured pair, for every string |
| Symbols.VenueForms | internal/launcher/register_cex.go:72-170 | Of a pair in a common four-letter quote, Gate is asked with an underscore, Bitget in upper case, OKX in upper case with a dash, Bybit as configured |
| Symbols.SeparatedVenueForms | internal/launcher/register_cex.go:119-170 | A pair configured with a separator keeps its place of separation at OKX, and loses a dash or an underscore at Bitget |
| Symbols.GateKeepsLetters | internal/util/helpers.go:32-49 | Converting to Gate's form adds only a separator |
| Symbols.GateSplitsIff | internal/util/helpers.go:32-49 | For every base and quote without an underscore, Gate's form separates them iff the pair has five letters and the quote has the length that is cut off |
| Symbols.GateSplitsCommonQuotes | internal/util/helpers.go:36-43 | Each common quote is split off every base, but for a one-letter base before DAI |
| Symbols.OkxSplitsIff | internal/launcher/register_cex.go:167-170 | OKX's id separates an unseparated pair between base and quote iff the quote has four letters |
| Symbols.SubscribeAll | internal/launcher/register_cex.go:109-125 | The requests sent list every id once, in order, in full batches but for the last |

## Left out

- WebSocket dialing, ping and read loops, JSON, ABI and YAML parsing, `eth_call` fetches: foreign I/O.
- IEEE rounding, NaN and infinite prices, underflow of `1/price`: prices are positive reals here.
- The caches of powers of ten (`pow10Int`, `v3Pow10`): transparent memoisation.
- `updateTokenDecimals`, the token registry, asset providers, config defaults, symbol loaders, supervisors and reconnect backoff: only easy members.
- `v3DeriveUSD`, the WETHUSD cache, `emitUSD`, `emitSpot` and all log text: output formatting around the modelled values.
- The guard against fetching one V3 pool's metadata twice at a time: its swaps are handled one after the other.
- Freshness across routes that visit pruning never reaches: the answer is only the freshest of the routes it compared.
- Ordering between different workers for the same symbol: the shared channel does not promise any.
- Retries inside the Redis client library: the commands of a pipeline are sent once here.
- `registerToken` on a pool's first swap: the tokens of every pool have been registered when the pools were prepared, so it finds them there.
- The counts `normalizeKeyGroup` logs: a key the scan repeats is counted again.
- Aliasing of the batch slices handed to `SubscribeBatch`: batches are values here.
- The mutexes: each locked section is one method call.

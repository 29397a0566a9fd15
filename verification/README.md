# Verified model of the k4 market-data gateway

A market-data gateway receives quotes, trades and depth over redundant WebSocket connections,
decodes them, drops duplicates, and publishes what remains in shared-memory rings and over UDP. This
project models the stateful parts of that chain and of the order client beside it, and proves what
each of them keeps over every run:

| files | component |
|---|---|
| `Bytes`, `Multiples`, `Symbols`, `MarketData`, `Streams` | little-endian integers, byte ranges, fixed 32-byte symbols, the records that flow through the chain |
| `ShmLayout`, `ShmStore` | the ring store as a class over one flat byte array, and its refinement of append-only histories |
| `ShmProtocol`, `ShmReloadCheck`, `ShmWords`, `ShmCopies` | the same store under concurrency: writer and reader steps word by word, what a reader may rely on, the steps as stores to the bytes, and readers' copies as bytes |
| `BookSide`, `BookTruth`, `BookLimit`, `BookCanonical`, `BookAsks`, `OrderBook`, `AskTruth`, `BybitFeed` | the bounded incremental order book against the unbounded map of everything quoted |
| `Dedup`, `RedundantFeeds`, `DedupRules`, `DedupWorker`, `DedupEndToEnd`, `DedupRings`, `RecordImages` | the deduplicators, what is promised of each kind of record in terms of its fields, the dedup loop, the chain from arrivals to the bytes of the rings, and byte images of the records |
| `SbeParser`, `SbeCodec`, `SbeCuts`, `SbeExamples` | the binary parser, an encoder, decode after encode, frames that are cut off, and three frames byte by byte |
| `Pipeline` | the binary stream from encoded frames to what readers of the rings find |
| `Latency`, `RedundantClient` | the latency histogram against order statistics, and the choice of the connection to replace |
| `WsApi` | requests and responses over one WebSocket as a step protocol |

Conventions. Where the original changes state step by step, a `method` or a `class` does the same and
its `ensures` equates the new state with a specification function; lemmas about that function carry
the properties. Prices, volumes, averages and percentiles are `real`. Integer widths are subset types
and wrap-around is written out. `Times` and `Wrap` (in `Multiples`) are `*` and `%` by run-time sizes,
built up by addition; `TimesIsProduct` and `WrapIsRemainder` say so. The clock, the network and the hash
functions are parameters.

## What the code does that its documentation does not say

Each of these is proved; the model follows the code.

- `ShmMdStore::write` promises that readers always see a consistent snapshot (`crates/k4-core/src/shm.rs:218-221`).
  A reader that is lapped mixes words of two data points: `ShmReloadCheck.ReloadCheck` says exactly what
  a reader may conclude from loading the index again, and `ShmReloadCheck.TornRun` builds the bad run.
- The average latency wraps around with its sum in a release build: `Latency.AverageIsTrue` says exactly when it does not, `Latency.AverageWraps` shows two samples with a reported average of zero.
- `ShmHeader.update_num` is documented as the number of updates written (`crates/k4-core/src/shm.rs:38-39`); nothing ever bumps it.
- `OrderBook` claims to maintain the sorted book (`crates/k4-md/src/bybit/order_book.rs:3-6`). A level that was
  pushed out does not come back when others are removed: `BookTruth.BookAgreesBeyondFrontier` says what remains
  true, `BookLimit.TopIsTrueExactly` exactly how many removals the best levels survive.
- `set_snapshot` says levels are re-sorted and trimmed (`crates/k4-md/src/bybit/order_book.rs:35-36`); it trims first and sorts afterwards,
  so a snapshot of more than `N` levels may lose its best ones (`BookCanonical.SnapshotLosesBest`). The two agree
  exactly under `KeepsBest`, which the results about the best levels therefore ask for (`BookCanonical.SnapshotTrimsWorst`).
- `UpdateIdDedup` says that a new id is accepted; the id 0 never is (`Dedup.AcceptedAreRecords`, `DedupEndToEnd.RecordsPositive`).
- `parse_depth` stays inside a truncated group. In the bids it then reads the asks header from a level:
  `SbeParser.AsksFoundBehindBids` says exactly when it does not. The symbol is read behind both groups if and only if
  the first five levels of each end within the body or have no length (`SbeParser.SymbolFoundBehindGroups`).
  `SbeParser.CutBodyIsMisread` and `SbeParser.CutAskIsMisread` show records under a symbol that was read out of a
  price, one with the bids cut and one with the asks cut.
- A well-formed depth frame that is cut off inside one of its first five bids can make `parse_depth` panic: the
  beginning of a price is taken for a group header whose levels are shorter than what is read from them.
  `SbeCuts.CutThatPanics` shows one, `SbeCuts.CutIsReadable` says of every cut of every well-formed frame whether it is
  read, and `SbeParser.DepthReadableExactly` and `SbeParser.TradesReadableExactly` say it of every body.
- `ensure_ws_api` hands out a connection whose reader has died, and no request on it is answered again;
  entries of the pending map are removed by responses alone, never by time-outs
  (`WsApi.NobodyAnsweredAfterDeath`, `WsApi.RegisteredIsPendingOrRemoved`).

## Model

| member | source | states |
|---|---|---|
| ShmLayout.CalcSizeIsLayout | crates/k4-core/src/shm.rs:91-95 | the requested size is where a slot after the last one would begin |
| ShmLayout.SlotsTileRegion | crates/k4-core/src/shm.rs:91-168 | every byte behind the global header belongs to exactly one instrument slot; the slots end where `calc_size` ends |
| ShmLayout.WriteAppends | crates/k4-core/src/shm.rs:223-236 | storing the cell and then the index turns the ring image of a history into that of the history with the data point appended, at any number of laps |
| ShmLayout.WriteKeepsOthers | crates/k4-core/src/shm.rs:223-236 | a write leaves the ring image of every other slot as it was |
| ShmLayout.WriteKeepsBytes | crates/k4-core/src/shm.rs:223-236 | no byte outside the written slot changes |
| ShmStore.ShmMdStore.Create | crates/k4-core/src/shm.rs:104-172 | the layout loop and index map: every configured symbol gets an intact header with index -1, under duplicate symbols too (the last slot wins) |
| ShmStore.ShmMdStore.Write | crates/k4-core/src/shm.rs:223-240 | appends to the history of a configured symbol, changes no byte of another slot, and is false without effect for other symbols; its effect on the bytes is a function of the bytes and the index map alone |
| ShmStore.ShmMdStore.ReadLatest | crates/k4-core/src/shm.rs:246-257 | the last data point ever written for the symbol, as its bytes represent it; none for an unknown or unwritten symbol |
| ShmStore.WriteBytesIs | crates/k4-core/src/shm.rs:223-240 | a write that takes its position from the published index in memory appends to the history of its symbol |
| ShmStore.RunRefinesHistories | crates/k4-core/src/shm.rs:223-240 | any sequence of such writes to any symbols, a function of the bytes alone, refines independent append-only histories |
| ShmStore.RunKeepsOtherSlots | crates/k4-core/src/shm.rs:223-240 | a run that does not write a symbol changes no byte of its header or cells |
| ShmStore.MemoryShowsIndex | crates/k4-core/src/shm.rs:248-250 | the index bytes of a symbol read as the number of writes less one |
| ShmStore.MemoryShowsSizes | crates/k4-core/src/shm.rs:147-151 | the global header reads as no updates, the number of symbols and the ring size |
| ShmStore.MemoryShowsHeader | crates/k4-core/src/shm.rs:158-161 | a configured symbol's header reads as its ring size and, if and only if it fits the buffer, its name |
| ShmStore.MemoryShowsCell | crates/k4-core/src/shm.rs:254-255 | each of the last `buffer_size` data points is in its cell |
| ShmProtocol.StepKeepsInv | crates/k4-core/src/shm.rs:223-257 | one micro-step of the writer or of a reader keeps the invariant that ties cells, index and partial copies to the written values |
| ShmProtocol.RunKeepsInv | crates/k4-core/src/shm.rs:223-257 | so does every interleaving |
| ShmProtocol.ReadBeforeLapIsExact | crates/k4-core/src/shm.rs:223-257 | a reader that loaded index i and finishes before write i + buffer_size begins holds exactly the i-th value |
| ShmProtocol.ReadWordsAreNeverStale | crates/k4-core/src/shm.rs:223-257 | overtaken or not, every word read comes from the write asked for or a later one to that cell |
| ShmProtocol.LoadsNeverGoBack | crates/k4-core/src/shm.rs:233-250 | the indices one reader loads never decrease |
| ShmReloadCheck.TornRun | crates/k4-core/src/shm.rs:218-257 | for cells of two words or more, a run in which a reader's copy mixes two values, and where the index stands by then |
| ShmReloadCheck.OvertakenRun | crates/k4-core/src/shm.rs:223-257 | for cells of any size, a run in which a reader that loaded index 0 ends with a later value |
| ShmReloadCheck.ReloadCheck | crates/k4-core/src/shm.rs:218-257 | for cells of any size, a copy after which the index is found d further on is right in every run if and only if d + 2 <= buffer_size |
| ShmWords.StepRepresents | crates/k4-core/src/shm.rs:223-257 | each micro-step of the protocol is one store to (or no change of) the memory of the slot |
| ShmWords.LoadsAreMemory | crates/k4-core/src/shm.rs:250-255 | the index and words that readers load are those in memory |
| ShmWords.RunRepresents | crates/k4-core/src/shm.rs:223-257 | in every interleaving the memory goes along with the protocol state |
| ShmWords.WriteIsItsSteps | crates/k4-core/src/shm.rs:227-234 | the micro-steps of one write do to the bytes exactly what `write` does |
| ShmCopies.NewSlotRepresents | crates/k4-core/src/shm.rs:142-163 | a slot of a created store that nothing was written to is the protocol's initial state: index -1 and zero words |
| ShmCopies.CreateForProtocol | crates/k4-core/src/shm.rs:104-172 | so is every slot that a created store's index map points at |
| ShmCopies.CopyIsReader | crates/k4-core/src/shm.rs:246-257 | in every interleaving the index and the bytes that a reader copies out of memory are those of the protocol's reader |
| ShmCopies.CopyBeforeLapIsExact | crates/k4-core/src/shm.rs:223-257 | bytes copied before the write one lap on begins decode to the data point whose position the reader found in the index bytes |
| Symbols.SymbolRoundTrip | crates/k4-core/src/types/symbol.rs:15-32 | a symbol survives the fixed buffer if and only if it has at most 32 bytes and no NUL |
| Symbols.SymbolReadBack | crates/k4-core/src/types/symbol.rs:15-32 | what comes back for every string, including a 32-byte cut inside a character |
| Symbols.Utf8Exactly | crates/k4-core/src/types/symbol.rs:23-32 | what counts as text is exactly the UTF-8 encodings of sequences of Unicode scalar values |
| Symbols.SymbolKeysDistinct | crates/k4-core/src/types/symbol.rs:15-20 | different symbols that fit never share a buffer |
| OrderBook.OrderBook.SetSnapshot | crates/k4-md/src/bybit/order_book.rs:37-45 | clear, cut to N, sort: both sides become the specified snapshot |
| OrderBook.OrderBook.Update | crates/k4-md/src/bybit/order_book.rs:56-63 | the two loops over a delta fold the side updates in order |
| OrderBook.OrderBook.GetDepth5 | crates/k4-md/src/bybit/order_book.rs:68-87 | five-slot arrays with the best levels first and zeros behind, and the level counts |
| OrderBook.PositionNear | crates/k4-md/src/bybit/order_book.rs:108 | the search loop finds the first level within the tolerance |
| OrderBook.PositionBelow | crates/k4-md/src/bybit/order_book.rs:116 | the search loop finds the first bid below the price |
| OrderBook.PositionAbove | crates/k4-md/src/bybit/order_book.rs:134 | the search loop finds the first ask above the price |
| OrderBook.UpdateSideDesc | crates/k4-md/src/bybit/order_book.rs:106-122 | tolerance match, removal, volume change, insertion and eviction on a bid side |
| OrderBook.UpdateSideAsc | crates/k4-md/src/bybit/order_book.rs:125-140 | the same on an ask side |
| BookSide.MirrorUpdate | crates/k4-md/src/bybit/order_book.rs:106-140 | the ask update is the bid update under negation of prices |
| BookSide.MirrorDelta | crates/k4-md/src/bybit/order_book.rs:56-63 | so is a whole delta |
| BookSide.MirrorSnapshot | crates/k4-md/src/bybit/order_book.rs:37-45 | so is a snapshot |
| BookSide.SortIsStable | crates/k4-md/src/bybit/order_book.rs:38-40 | sorting bids leaves the levels of each price as they were listed and puts higher prices first |
| BookSide.AskSortIsStable | crates/k4-md/src/bybit/order_book.rs:42-44 | so with asks, lower prices first |
| BookSide.UpdateKeepsOrder | crates/k4-md/src/bybit/order_book.rs:106-122 | an update keeps a side strictly sorted with neighbours at least PRICE_EPS apart, volumes positive, at most N levels |
| BookSide.DeltaKeepsOrder | crates/k4-md/src/bybit/order_book.rs:56-63 | so does every delta of non-negative volumes |
| BookSide.NegativeVolumeKeepsPrices | crates/k4-md/src/bybit/order_book.rs:106-140 | a negative volume neither inserts nor removes a level |
| BookSide.SnapshotOrders | crates/k4-md/src/bybit/order_book.rs:37-45 | a snapshot of separated positive levels, in any order, gives such a side |
| OrderBook.RunKeepsOrder | crates/k4-md/src/bybit/order_book.rs:37-140 | every run of snapshots and deltas keeps both sides so |
| BookTruth.UpdateKeepsAgreement | crates/k4-md/src/bybit/order_book.rs:106-122 | one update keeps the agreement of the bounded side and the unbounded map beyond the eviction frontier |
| BookTruth.EightDecimalsAreGridded | crates/k4-md/src/bybit/order_book.rs:25 | prices of at most eight decimals are such a grid: the tolerance never takes two of them for one |
| BookTruth.BookAgreesBeyondFrontier | crates/k4-md/src/bybit/order_book.rs:37-140 | after every run: same prices and volumes strictly beyond the frontier, every held level is in the map, equal while nothing was evicted |
| BookTruth.RemovalShortens | crates/k4-md/src/bybit/order_book.rs:106-122 | a removal is counted exactly when an update makes the side shorter |
| BookTruth.UpdateKeepsDeep | crates/k4-md/src/bybit/order_book.rs:106-122 | once something was evicted at least N - r levels lie beyond the frontier, r the removals since the snapshot |
| BookTruth.RunDeep | crates/k4-md/src/bybit/order_book.rs:37-140 | so after every run |
| BookTruth.TopIsTrue | crates/k4-md/src/bybit/order_book.rs:37-140 | while r + k <= N the best k levels are the best k of the unbounded map |
| BookLimit.TopIsTrueExactly | crates/k4-md/src/bybit/order_book.rs:37-140 | that holds of every run with r removals if and only if r + k <= N |
| OrderBook.Depth5IsTrue | crates/k4-md/src/bybit/order_book.rs:68-87 | while r <= N - 5 on each side the depth record shows the true five best quotes of both sides |
| BookCanonical.DeltaOrderIrrelevant | crates/k4-md/src/bybit/order_book.rs:56-63 | a delta of separated grid prices that cannot overflow the book gives the same side under every permutation |
| BookCanonical.DeltaIdempotent | crates/k4-md/src/bybit/order_book.rs:56-63 | applying it twice equals applying it once |
| BookCanonical.SnapshotEqualsReplay | crates/k4-md/src/bybit/order_book.rs:37-63 | sorting a snapshot and inserting its levels one by one into an empty book give the identical side, for every input order |
| BookCanonical.SnapshotTrimsWorst | crates/k4-md/src/bybit/order_book.rs:35-43 | cutting and then sorting is what sorting and then trimming would give if and only if the levels listed first are the best |
| BookCanonical.SnapshotLosesBest | crates/k4-md/src/bybit/order_book.rs:35-43 | two levels and a book of one: the better is lost |
| BookAsks.AskDeltaOrderIrrelevant | crates/k4-md/src/bybit/order_book.rs:60-62 | a delta of asks under the same conditions gives the same side under every permutation |
| BookAsks.AskDeltaIdempotent | crates/k4-md/src/bybit/order_book.rs:60-62 | applying it twice equals applying it once |
| BookAsks.AskSnapshotEqualsReplay | crates/k4-md/src/bybit/order_book.rs:41-62 | sorting a snapshot of asks and inserting them one by one give the identical side |
| BookAsks.AskSnapshotTrimsWorst | crates/k4-md/src/bybit/order_book.rs:35-44 | cutting and then sorting asks is sorting and then trimming if and only if the ones listed first are the lowest |
| AskTruth.AsksAgreeBeyondFrontier | crates/k4-md/src/bybit/order_book.rs:37-140 | after every run the asks and the map of quoted asks agree strictly below the frontier, every held ask is in the map, and all of the map is held while nothing was evicted |
| AskTruth.LowestAsksAreTrue | crates/k4-md/src/bybit/order_book.rs:37-140 | while r + k <= N the first k asks are the k lowest of that map |
| OrderBook.SnapshotForgets | crates/k4-md/src/bybit/order_book.rs:37-45 | what a book shows depends on the messages since the last snapshot alone |
| BybitFeed.DepthParser.ParseDepth | crates/k4-md/src/bybit/mod.rs:147-199 | each depth record of an interleaved multi-symbol run carries its own frame's symbol, update id and times (in microseconds, `cts` or else `ts`), comes from replaying only that symbol's messages since its last snapshot, and shows the five highest bids and five lowest asks of all that the symbol's frames quote when these removed at most 45 levels a side; frames without data or symbol give nothing |
| BybitFeed.FeedsAre | crates/k4-md/src/bybit/mod.rs:147-176 | what a symbol's book is given, side by side, is what its frames say since the last snapshot; a frame without a type is a snapshot |
| BybitFeed.TruthsAre | crates/k4-md/src/bybit/mod.rs:147-176 | the unbounded maps beside the two sides are the fold of the quotes in those frames |
| BybitFeed.RecordIsTrue | crates/k4-md/src/bybit/mod.rs:178-198 | the emitted record of a replay of the frames holds the five highest bids and five lowest asks of all that they quote |
| Dedup.UpdateIdDedup.CheckAndUpdate | crates/k4-core/src/dedup.rs:45-53 | true exactly for an id above the symbol's last one, which it then replaces; a rejected first id still leaves an entry |
| Dedup.LastIdIs | crates/k4-core/src/dedup.rs:56-58 | for every stream of arrivals `last_id` is none exactly for a symbol of which nothing came, and otherwise the largest id that came for it, rejected ones included |
| Dedup.AcceptedAreRecords | crates/k4-core/src/dedup.rs:45-53 | for every interleaving of symbols the ids let through for one symbol are the strict left-to-right maxima of its own arrivals |
| RedundantFeeds.AcceptedIsPrefix | crates/k4-core/src/dedup.rs:45-53 | redundant in-order connections: the accepted ids are the feed up to the furthest connection, in order, without gaps or duplicates |
| RedundantFeeds.FurthestReached | crates/k4-core/src/dedup.rs:45-53 | some connection has delivered exactly the part of the feed that was accepted |
| RedundantFeeds.AcceptedIsPrefixAmongSymbols | crates/k4-core/src/dedup.rs:45-53 | the same for each symbol of a mixed stream |
| RedundantFeeds.LossyAcceptedIsSubsequence | crates/k4-md/src/ws_helper.rs:33-40 | when connections drop messages the accepted ids are still a strictly increasing subsequence of the feed |
| Dedup.UuidDedup.CheckAndInsert | crates/k4-core/src/dedup.rs:109-119 | rejects an id exactly when the last earlier hash with the same low 13 bits is its own, or there is none and its hash is 0 |
| Dedup.SeenIsLast | crates/k4-core/src/dedup.rs:79-113 | that is what the slot of the low 13 bits in the table of 8192 says |
| Dedup.RepeatNeedsEviction | crates/k4-core/src/dedup.rs:83-119 | a repeated id is let through only after a different hash with the same low 13 bits |
| Dedup.FirstTimeIsNew | crates/k4-core/src/dedup.rs:104-119 | a hash that has not come before is turned away only if it is 0 and none with 13 low zero bits has come |
| DedupWorker.Deduplicators.Check | crates/k4-md/src/dedup_worker.rs:53-97 | four separate filters, on the update id of quotes and depth, the aggregate trade id and the trade id, by the symbol text; trades through the custom deduplicator when there is one |
| DedupWorker.HandleMessage | crates/k4-md/src/dedup_worker.rs:52-104 | one turn of the loop, on filters, stores and output together, in terms of each kind's own fields |
| DedupWorker.LoopNext | crates/k4-md/src/dedup_worker.rs:52-104 | one more message carries filter histories, store histories and output forward together |
| DedupWorker.LoopAfterIs | crates/k4-md/src/dedup_worker.rs:52-104 | after every message sequence the filters hold the history of their kind, the stores and the output exactly the accepted messages |
| DedupWorker.LetThroughIsNew | crates/k4-md/src/dedup_worker.rs:52-104 | a quote is let through if and only if its update id exceeds 0 and that of every earlier quote of the same symbol text; so for aggregate trades, trades and depth with their ids; with a custom deduplicator a trade unless the last earlier trade whose hash agrees in the low 13 bits has the same hash |
| DedupWorker.AcceptedIsNew | crates/k4-md/src/dedup_worker.rs:52-104 | the accepted messages are those that are new when they come, in order |
| DedupWorker.RunDedupLoop | crates/k4-md/src/dedup_worker.rs:34-107 | the UDP output is the messages that are new when they come, in arrival order; each store's histories grew by those of its kind |
| DedupEndToEnd.AcceptedByKind | crates/k4-md/src/dedup_worker.rs:44-47 | the filter of one kind lets through what it would on that kind's messages alone |
| DedupEndToEnd.AcceptedForSymbol | crates/k4-md/src/dedup_worker.rs:52-104 | per kind and symbol the ids let through are the strict maxima of the arrivals, none exactly if every id is zero, and the last message let through is the first-arrived one with the highest id |
| DedupEndToEnd.RecordsPositive | crates/k4-core/src/dedup.rs:46-52 | no id 0 is ever let through, and nothing is exactly if all ids are 0 |
| DedupEndToEnd.FeedLetThrough | crates/k4-md/src/ws_helper.rs:33-40 | redundant connections that deliver one feed, each with its own reception times: the messages let through are the feed up to the furthest connection, in order, without gaps or duplicates |
| DedupRings.RingsHoldAccepted | crates/k4-md/src/dedup_worker.rs:52-104 | per kind and configured symbol the ring's history is the accepted messages of that kind and symbol, in order |
| DedupRings.RingHoldsFeed | crates/k4-md/src/dedup_worker.rs:52-104 | with redundant connections it is the feed up to the furthest one |
| DedupRings.RunOnNewStores | crates/k4-md/src/dedup_worker.rs:34-107 | after the loop the bytes of every ring of every store show it: the index is the number accepted less one, the cells hold the last `buffer_size` of them |
| DedupRings.ReadFrom | crates/k4-core/src/shm.rs:246-257 | reading one store after the loop gives the first-arrived message bearing the highest id of its kind and symbol, or none exactly if no id was above zero |
| DedupRings.LatestAreNewest | crates/k4-md/src/dedup_worker.rs:52-104 | in terms of the fields of each kind: a reader finds the first-arrived quote with the symbol's highest update id (aggregate trade id, trade id, depth update id), nothing exactly if all are 0 |
| DedupRings.LatestOfEachKind | crates/k4-md/src/dedup_worker.rs:34-107 | so for each of the four kinds at once |
| RecordImages.RunOnFourStores | crates/k4-md/src/dedup_worker.rs:34-107 | the same on four stores created for the four record types: the requirements can be met |
| RecordImages.ReadFourStores | crates/k4-md/src/dedup_worker.rs:34-107 | and there each kind's latest message comes back unchanged |
| Pipeline.OnBinary | crates/k4-md/src/ws_helper.rs:77-83 | the callback sends the messages of a frame in order, without those that find the channel full |
| Pipeline.PassedPositions | crates/k4-md/src/ws_helper.rs:77-83 | what is sent are exactly the messages at the other positions, in order |
| Pipeline.ArrivedIsSaid | crates/k4-md/src/ws_helper.rs:77-83 | encoded frames of any kinds arrive at the dedup loop as the messages they encode |
| Pipeline.FramesToReaders | crates/k4-md/src/pipeline.rs:144-188 | encoded frames through parser, channel, dedup loop and rings: a reader of a configured symbol finds the message of the first frame to say the highest id of its kind and symbol, unchanged when numbers have eight decimals; nothing exactly if no id above zero was said |
| Pipeline.NewestDepthFrame | crates/k4-md/src/pipeline.rs:144-188 | for depth and a channel with room that message is all that the first depth frame with the symbol's highest update id says |
| Pipeline.NewestQuoteFrame | crates/k4-md/src/pipeline.rs:144-188 | so for quotes |
| Pipeline.NewestTradeEntry | crates/k4-md/src/pipeline.rs:144-188 | and for trades it is an entry with the symbol's highest trade id, of the first frame that holds one |
| RecordImages.BboKept | crates/k4-core/src/types/market_data.rs:23-36 | a quote whose numbers its byte image can represent comes back from it, field by field |
| RecordImages.AggKept | crates/k4-core/src/types/market_data.rs:67-80 | so does an aggregated trade |
| RecordImages.TradeKept | crates/k4-core/src/types/market_data.rs:45-55 | so does a trade |
| RecordImages.DepthKept | crates/k4-core/src/types/market_data.rs:92-108 | so does a depth record |
| Bytes.LeRoundTrip | crates/k4-md/src/binance/sbe_parser.rs:76-88 | reading the little-endian bytes of a number gives the number, for every width |
| Bytes.ByteWeight | crates/k4-md/src/binance/sbe_parser.rs:76-88 | byte k of a little-endian number has the weight 256^k |
| Bytes.TwosComplement | crates/k4-md/src/binance/sbe_parser.rs:76-78 | the casts between signed and unsigned keep values modulo 2^64 and 2^8 |
| SbeParser.TableIsPowers | crates/k4-md/src/binance/sbe_parser.rs:60-69 | the entry for an exponent is that power of ten |
| SbeParser.DecimalIsScaled | crates/k4-md/src/binance/sbe_parser.rs:65-69 | the decoded number is the mantissa times ten to the exponent, for every mantissa and every exponent from -18 to 18 |
| SbeParser.ParseTrades | crates/k4-md/src/binance/sbe_parser.rs:175-229 | one trade per group entry in order, all or none |
| SbeParser.ReadTrades | crates/k4-md/src/binance/sbe_parser.rs:200-228 | the loop reads every entry of a group that fits; its own bounds check never stops it |
| SbeParser.LevelIsRead | crates/k4-md/src/binance/sbe_parser.rs:290-298 | a level is read if and only if it ends within the body |
| SbeParser.ReadGroup | crates/k4-md/src/binance/sbe_parser.rs:285-302 | at most five levels in place, zeros behind, and the offset behind the levels read and those skipped |
| SbeParser.ParseDepth | crates/k4-md/src/binance/sbe_parser.rs:249-332 | the record of every readable body, truncated ones included |
| SbeParser.AsksFoundBehindBids | crates/k4-md/src/binance/sbe_parser.rs:289-305 | the asks header is looked for behind the bids group if the first five bids (or all, of fewer) end within the body or have no length, and inside the group otherwise |
| SbeParser.CutBodyIsMisread | crates/k4-md/src/binance/sbe_parser.rs:289-329 | a body cut inside its second bid from which an asks header and a symbol are read out of that bid |
| SbeParser.SymbolFoundBehindGroups | crates/k4-md/src/binance/sbe_parser.rs:285-329 | the symbol is looked for behind both groups if and only if of each the first five levels (or all, of fewer) end within the body or have no length, and earlier otherwise |
| SbeParser.CutAskIsMisread | crates/k4-md/src/binance/sbe_parser.rs:307-329 | a body cut inside its only ask from which the symbol is read out of that ask |
| SbeParser.DepthReadableExactly | crates/k4-md/src/binance/sbe_parser.rs:249-332 | the depth parser does not panic if and only if in both group headers that it finds every level that is read holds its sixteen bytes, with both exponents within 18 if there is one |
| SbeParser.TradesReadableExactly | crates/k4-md/src/binance/sbe_parser.rs:175-229 | the trades parser does not panic if and only if, for a non-empty group that fits, both exponents are within 18 and the last entry's 24 bytes lie in the body |
| SbeParser.BlocksAreReadable | crates/k4-md/src/binance/sbe_parser.rs:40-54 | it is enough that exponents are within 18 and that each group header which the parser finds, be it bytes of a level that was cut off, gives a block length that holds the fields |
| SbeCuts.CutDepthReadable | crates/k4-md/src/binance/sbe_parser.rs:285-320 | a well-formed depth body cut anywhere is read without a panic if and only if the bids that are read are whole, or there are more than five, or no header fits behind the whole ones, or the price there, read as a header, announces levels that hold their fields |
| SbeCuts.CutIsReadable | crates/k4-md/src/binance/sbe_parser.rs:40-332 | so for whole frames: best-bid-ask and trades frames are read wherever they are cut off, depth frames exactly under that condition |
| SbeCuts.CutThatPanics | crates/k4-md/src/binance/sbe_parser.rs:307-317 | a well-formed depth body that makes the parser panic when cut in the middle of its second bid |
| SbeCuts.CutQuote | crates/k4-md/src/binance/sbe_parser.rs:119-153 | a quote cut off before its symbol gives nothing, one cut off in it the quote under what is left of the symbol |
| SbeCuts.CutTrades | crates/k4-md/src/binance/sbe_parser.rs:175-229 | trades cut off before their symbol give nothing, otherwise all of them under what is left of it |
| SbeCuts.CutBeforeAsks | crates/k4-md/src/binance/sbe_parser.rs:285-306 | depth cut off between the bids that are read and the asks header gives the bids alone, under an empty symbol |
| SbeCuts.CutBehindAsks | crates/k4-md/src/binance/sbe_parser.rs:307-332 | depth cut off behind the asks that are read gives both sides, under what is left of the symbol |
| SbeExamples.QuoteFrameDecodes | crates/k4-md/src/binance/sbe_parser.rs:391-428 | the quote frame of the repository's tests, byte by byte, is decoded to 30000.50 / 1.5 and 30001.00 / 2 |
| SbeExamples.TradesFrameDecodes | crates/k4-md/src/binance/sbe_parser.rs:430-488 | so is its frame of two trades |
| SbeExamples.DepthFrameDecodes | crates/k4-md/src/binance/sbe_parser.rs:506-566 | and a depth frame with two bids and an ask like the one of the tests |
| SbeParser.ParseSbeMessage | crates/k4-md/src/binance/sbe_parser.rs:40-54 | dispatch on the template id; short frames and unknown templates give nothing |
| SbeCodec.BestBidAskReadsBack | crates/k4-md/src/binance/sbe_parser.rs:119-153 | an encoded quote is decoded to what it says |
| SbeCodec.TradesReadBack | crates/k4-md/src/binance/sbe_parser.rs:175-229 | any number of trades, any block length from 25 with any padding, any symbol: the same trades in order with the shared fields |
| SbeCodec.DepthReadsBack | crates/k4-md/src/binance/sbe_parser.rs:249-332 | any level counts, any block lengths from 16: the first min(5, n) levels of each side, the counts, and the symbol behind the skipped levels |
| SbeCodec.DecodeEncode | crates/k4-md/src/binance/sbe_parser.rs:40-332 | decode after encode on whole frames of all three kinds, whatever header fields and trailing bytes |
| SbeCodec.SymbolSurvives | crates/k4-core/src/types/symbol.rs:15-32 | the decoded record's symbol reads as the encoded one if and only if it fits the buffer |
| Latency.LatencyCollector.Record | crates/k4-core/src/latency.rs:57-67 | bins, count, wrapping sum, minimum and maximum follow the history of samples |
| Latency.AverageIsTrue | crates/k4-core/src/latency.rs:60-80 | the reported average is the average if and only if the sum of the samples is below 2^64 |
| Latency.AverageWraps | crates/k4-core/src/latency.rs:60-80 | the samples 2^64 - 1 and 1 are reported with an average of zero |
| Latency.LatencyCollector.Reset | crates/k4-core/src/latency.rs:97-103 | the collector of no samples |
| Latency.LatencyCollector.Percentile | crates/k4-core/src/latency.rs:106-117 | for q in (0, 1] the lower edge (in tens, at most 29990) of the sample x with fewer than q n samples below it and at least q n no larger; 0 for q <= 0, the maximum for q > 1 |
| Latency.PercentileUnique | crates/k4-core/src/latency.rs:106-117 | there is one such sample |
| Latency.LatencyCollector.Stats | crates/k4-core/src/latency.rs:75-94 | none exactly without samples; otherwise count, extremes and average of the history and, for 0.50, 0.90 and 0.99, the lower edge of that sample; p50 <= p90 <= p99 <= max |
| Latency.KthUnique | crates/k4-core/src/latency.rs:106-117 | a rank has one sample |
| Latency.KthInOrder | crates/k4-core/src/latency.rs:106-117 | it is the one at that position in any ascending order of the samples |
| Latency.BinOfKth | crates/k4-core/src/latency.rs:109-114 | the bin where the running count reaches k is the bin of the k-th smallest sample |
| Latency.ReportedIsClose | crates/k4-core/src/latency.rs:106-117 | for q in (0, 1] the rank is among the samples, result <= x, and x < result + 10 if and only if x < 30000 |
| Latency.PercentilesInOrder | crates/k4-core/src/latency.rs:81-83 | a larger percentile never reports less |
| RedundantClient.RedundantWsClient.constructor | crates/k4-core/src/ws/redundant.rs:43-51 | no connections, one empty collector for each configured one |
| RedundantClient.RedundantWsClient.StartAll | crates/k4-core/src/ws/redundant.rs:54-58 | consecutive new ids for all connections |
| RedundantClient.RedundantWsClient.RecordLatency | crates/k4-core/src/ws/redundant.rs:61-65 | one more sample at that position, none out of range |
| RedundantClient.RedundantWsClient.FindSlowest | crates/k4-core/src/ws/redundant.rs:79-95 | the loop finds the leftmost largest positive average |
| RedundantClient.RedundantWsClient.EvaluateAndReset | crates/k4-core/src/ws/redundant.rs:70-128 | replaces that connection, or clears all collectors, or does nothing with fewer than two connections |
| RedundantClient.RedundantWsClient.StopAll | crates/k4-core/src/ws/redundant.rs:131-136 | no connections are left; collectors and ids stay |
| RedundantClient.EvaluateReplacesSlowest | crates/k4-core/src/ws/redundant.rs:70-128 | exactly the slowest connection gets a new id and an empty collector, everything else stays; or every average is zero and all samples go |
| RedundantClient.SlowestUnique | crates/k4-core/src/ws/redundant.rs:80-95 | there is no other leftmost largest positive average |
| RedundantClient.RunKeepsManaged | crates/k4-core/src/ws/redundant.rs:54-151 | ids in use stay distinct and below the next one in every run of all operations |
| RedundantClient.IdsGivenOutOnce | crates/k4-core/src/ws/redundant.rs:54-151 | the ids that ever appear among the connections of a run are 0, 1, 2, ..., each of them once, also after their connections were stopped or replaced |
| RedundantClient.RunKeepsCount | crates/k4-core/src/ws/redundant.rs:54-128 | after one start the number of connections is constant, and every id given out is from the start or from one replacement |
| WsApi.StepKeepsInv | crates/k4-td/src/binance/spot.rs:57-72 | every step with fresh ids keeps pending map, slots and phases in agreement |
| WsApi.SlotFilledBy | crates/k4-td/src/binance/spot.rs:386-394 | a response in a slot came from a frame handled by the live reader after registration, bearing the request's id |
| WsApi.AnswersAreOwn | crates/k4-td/src/binance/spot.rs:57-72 | each request is answered only by a frame with its own id, no frame answers two, and none is dropped |
| WsApi.RunMoves | crates/k4-td/src/binance/spot.rs:66-71 | an outcome never changes, so a request is answered at most once; a response in the slot stays |
| WsApi.OutcomeIsItsStep | crates/k4-td/src/binance/spot.rs:64-71 | a request has been sent, refused, answered, timed out or dropped if and only if a step of its caller did exactly that |
| WsApi.RunLeaves | crates/k4-td/src/binance/spot.rs:58-64 | one request for each registration, under its id; one payload on the wire for each write; the reader lives until its loop ends, and then the channel is empty |
| WsApi.FrameReachesRequest | crates/k4-td/src/binance/spot.rs:57-72 | a matching frame handled before the request has ended reaches it in every continuation: it cannot time out any more |
| WsApi.TimeOutMeansNoFrame | crates/k4-td/src/binance/spot.rs:66-69 | a request times out only if no frame with its id was handled since it was registered |
| WsApi.RegisteredIsPendingOrRemoved | crates/k4-td/src/binance/spot.rs:59-62 | every registered id is pending or was removed by exactly one frame; time-outs and failed sends remove nothing |
| WsApi.SeenIsPending | crates/k4-td/src/binance/spot.rs:57-64 | registration precedes sending: an id the server has seen and not answered is pending |
| WsApi.WireIsPrefixOfSent | crates/k4-td/src/binance/spot.rs:368-383 | payloads reach the socket in sending order, nothing twice |
| WsApi.NobodyAnsweredAfterDeath | crates/k4-td/src/binance/spot.rs:375-411 | after the reader's end nothing leaves the pending map, open requests stay unanswered, unsent ones can only fail |
| WsApi.ReusedIdDropsFirst | crates/k4-td/src/binance/spot.rs:59-62 | without fresh ids the first of two requests under one id is dropped |
| WsApi.WsApiInner.Insert | crates/k4-td/src/binance/spot.rs:58-62 | registration is the specified step |
| WsApi.WsApiInner.SendPayload | crates/k4-td/src/binance/spot.rs:64 | sending succeeds exactly while the reader lives |
| WsApi.WsApiInner.Poll | crates/k4-td/src/binance/spot.rs:66-71 | a response that is there is taken even when the time is up |
| WsApi.WsApiInner.HandleFrame | crates/k4-td/src/binance/spot.rs:386-394 | a frame with a pending id removes it and fills the slot if the caller still waits; others change nothing |
| WsApi.WsApiInner.WriteNext | crates/k4-td/src/binance/spot.rs:378-383 | the oldest payload of the channel goes to the wire |
| WsApi.WsApiInner.End | crates/k4-td/src/binance/spot.rs:379-410 | the loop ends and what is in the channel is lost |
| WsApi.SpotClient.EnsureWsApi | crates/k4-td/src/binance/spot.rs:246-256 | at most one connection is ever made, and all later callers get it |

## Left out

- Sockets, TLS, scheduling, `mmap`, CPU pinning, logging and clocks: only the state they touch is modelled; the clock is the parameter `now`.
- JSON and `rkyv` encoding: the Bybit model starts from decoded levels, the UDP output is the sequence of messages handed to the sender.
- xxHash64 and the printing of trade ids: arbitrary functions, constant for the life of a table.
- IEEE-754 rounding, infinities and NaN: prices, volumes, averages, the powers of ten and the percentile target are exact.
- Weak memory: `ShmProtocol` interleaves word-sized steps under release and acquire as if memory were sequentially consistent for the cell and its index.
- Alignment and padding of the `repr(C)` records: a record is any fixed-size byte image. Stores are proved for every image; what is read is what the bytes represent, which is the record itself when they can represent it. `RecordImages` gives one image for each record, with prices in units of 10^-8 in place of `f64` (`RecordImages.UnitsFit` says which numbers those represent).
- Failures of `shm_open`, `ftruncate` and `mmap` in `create`, and the heap fallback on other systems.
- REST calls, signing, order payloads, listen keys and `shutdown` of the spot client; other exchanges' parsers, `SymbolMapper`, configuration and the runner.
- Ping and reconnect timing of `ws/client.rs`: a connection is its id.
- Allocation limits: `Vec::with_capacity(num_trades)` always succeeds.
- ShmStore.ShmMdStore.Write: a ring of no cells and an index past the largest `i64` are excluded, where the original divides by zero or overflows.
- Latency.LatencyCollector.Record: fewer than 2^64 samples, where the original's count overflows; a debug build stops when the sum overflows.
- SbeParser.ParseTrades: bodies on which the original panics (exponents without a table entry, reads past the end under short blocks) are excluded by `TradesReadable`.
- SbeParser.ParseDepth: the same, by `DepthReadable`.
- RecordImages.BboKept: prices and volumes are in units of 10^-8, 64 bits wide, where the original keeps the bits of an `f64`.
- RecordImages.AggKept: the same for prices and volumes.
- RecordImages.TradeKept: the same for prices and volumes.
- RecordImages.DepthKept: the same for prices and volumes.
- Pipeline.FramesToReaders: frames are well-formed encodings followed by any bytes; a frame that is not ends the callback with a panic or with the records that `SbeParser.ParseDepth` and `SbeParser.ParseTrades` describe.
- WsApi.SpotClient.EnsureWsApi: the mutex around it makes calls sequential; waiting for the lock is not modelled.
- WsApi.WsApiInner.SendPayload: waiting for room in the channel is a step that is not enabled yet.

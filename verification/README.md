# A verified model of a trading exchange

The exchange matches orders in one process per shard, tells the rest of the system about it in
events, and keeps balances in a ledger. This project models the path that state takes through it
and proves what the parts keep, alone and together.

- **Matching.** `SkipList`, `Orders`, `Matcher`, `BookInvariant`, `Priority`, `OrderBook`, `Convert`,
  `Snapshot`: a randomised skip list of linked nodes refines a strictly sorted sequence; an order
  book on two of them refines a pure matching function; that function is price-time priority; every
  reachable book is sound and survives a snapshot.
- **Durability.** `Bytes`, `Framing`, `WalRecord`, `OutboxRecord`, `SegmentedLog`, `LogRuns`, `Logs`:
  bytes, frames, and segments with sync, rotation and crashes at any byte. `Recovery`,
  `HalfSnapshots`, `GroupCommit`, `Engine`, `EngineRuns`, `DiskRuns`, `EngineOnDisk`, `Shard`,
  `ShardRecovery`, `ShardRuns`, `ShardOnDisk`: the log first, memory after it, group commit,
  snapshots and recovery, over runs in which everything may fail, down to the bytes on disk.
  `CommandConsumer`, `ShardCommands`, `TradesSent`, `Outbound`, `Relay`, `RelayProgress`: from the
  command topic through log and memory to the outbox, and from there to Kafka.
- **Downstream.** `Events`, `MatchHandler`, `MarketStore`, `MirrorRefinement`, `RelayMirror`,
  `Depth`, `KLine`: the market-data mirror refines the book, also behind a relay that sends again,
  depth deltas rebuild the levels, fine bars add up to coarse ones. `OrderStatus`, `Freeze`,
  `Settlement`, `Ledger`, `LedgerGuards`, `LedgerRuns`, `LedgerEffects`, `LedgerFunds`, `LedgerEvents`,
  `Repository`: transactions on orders and balances conserve assets and have their effects once, and it is stated
  when exactly what is frozen covers what the open orders need.

Code that updates state in place is a class here, proved against functions on values; the laws are
lemmas about those functions and about runs of them. Decimals are integers on a fixed grid: prices
and quantities count units of 10^-18 in the ledger, amounts units of 10^-36, so that products are
exact. Readings of the clock, the heights of skip-list nodes, and the outcomes of appends, syncs,
writes, fetches and commits are parameters that range over all possibilities, in the runs as well.
Checksums are any function of the bytes. A database transaction is one atomic step, with a rollback
on every error.

Where a property holds only under a condition, the lemma named "...ExactlyWhen" states it with both
directions, or a lemma with a concrete input shows the failure:

- recovery indexes the whole log, so it drops every new order behind the snapshot
  (`Recovery.RecoveryAppliesOnlyCancels`, `ShardRecovery.RecoveryExactlyWhen`);
- memory follows the log only as long as nothing is logged and then not applied
  (`EngineRuns.AsReplayedExactlyWhen`, `RefusedOrderStops`), and a batch that was committed half way
  is applied again with the next commit (`AppliedOnceExactlyWhen`, `CommittedAgainAppliesTwice`);
- a snapshot taken while commands are staged makes recovery skip them
  (`ShardRecovery.SnapshotWhileStagedExactlyWhen`, `EngineRuns.LabelledExactlyWhen`);
- an id that is new twice in a batch is logged twice (`GroupCommit.LogsAgreeExactlyWhen`);
- a snapshot that is written for some symbols only mixes books of two moments
  (`HalfSnapshots.HalfWrittenRecovers`);
- an order that is logged without its events reaching the outbox never gets them
  (`CommandConsumer.MirrorsExactlyWhen`, `ShardCommands.OrderWithoutEvents`);
- numbers repeat after a restart with an empty newest segment (`LogRuns.NumbersRepeat`), and a lost
  body behind its length prefix hides what is appended next (`LogRuns.WorksExactlyWhen`,
  `Framing.GoesOnExactlyWhen`);
- a process that dies with unsynced entries takes them for durable (`DiskRuns.FirmExactlyWhen`), and
  one whose log a crash has cut through a record does not start (`EngineOnDisk.EveryRunIsSound`);
- the relay can move its cursor on disk back (`Relay.CursorCanFallExactlyWhen`), but not as long as
  it can read the file (`CursorNeverFalls`); if it cannot, the mirror can keep an order that is gone
  (`RelayMirror.UnreadableCursorLeavesOrder`);
- a whole batch of records with unknown topics stops the relay (`RelayProgress.StuckExactlyWhen`);
- match events store filled quantities that let an order give back funds that fills still need
  (`LedgerFunds.FundedExactlyWhen`, `LedgerEvents.FilledEventStarves`,
  `PartialThenCanceledStarves`), and a second cancellation gives back once more
  (`CanceledTwiceGivesTwice`);
- a message that the ledger skipped can have its effect when it is delivered again
  (`LedgerRuns.EffectsHappenOnceExactlyWhen`);
- trades more than a fine interval before the epoch break the hierarchy of bars
  (`KLine.GroupedExactlyFrom`);
- a partially filled maker loses its place to the clock (`Matcher.SweepLeavesRest`);
- a limit order whose remainder exceeds its quantity rests with it (`BookInvariant.SafeExactlyWhen`);
- a resting order with an explicit remainder of zero or less enters the market-data mirror
  differently (`MirrorRefinement.EnteredAlike`);
- a trade between orders on one side commits and creates or destroys assets
  (`Ledger.TradeConservesExactlyWhen`, `SameSideTradeCommits`), and assets with more than 16 digits
  can be released in excess (`Settlement.CoveredExactlyWhen`).

`dafny verify dfyconfig.toml` checks the whole project.

## Model

| member | source | states |
|---|---|---|
| `Sorting.PutIsSetInsert` | pkg/skiplist/skiplist.go:44-89 | Inserting into a strictly sorted sequence is inserting into its set: the new value is in, a value with the same key is replaced, everything else stays. |
| `Sorting.RemoveIsSetDelete` | pkg/skiplist/skiplist.go:107-138 | Deleting removes exactly the value with the given key. |
| `Sorting.FindIsSetMember` | pkg/skiplist/skiplist.go:92-104 | A search finds the stored value with the key exactly when there is one. |
| `Sorting.RunIsSetRun` | pkg/skiplist/skiplist.go:44-138 | Over every series of insertions and deletions the sorted sequence stays strictly sorted and holds the elements of the same series run on a set. |
| `Sorting.SortedIsUnique` | pkg/skiplist/skiplist.go:44-89 | A strictly sorted sequence is determined by its elements. |
| `SkipLists.SkipList.constructor` | pkg/skiplist/skiplist.go:24-32 | A new list is empty, and its chains and counters are consistent. |
| `SkipLists.SkipList.RandomLevel` | pkg/skiplist/skiplist.go:34-41 | The height of a node is some number from 1 to 16. |
| `SkipLists.SkipList.Descend` | pkg/skiplist/skiplist.go:44-61 | The walk from the top level down finds on every level the last node whose value is smaller than the one sought, and ends. |
| `SkipLists.SkipList.Insert` | pkg/skiplist/skiplist.go:44-89 | For every height drawn, the contents become the sorted sequence with the value put in, replacing one with the same key, and all levels stay consistent. |
| `SkipLists.SkipList.Search` | pkg/skiplist/skiplist.go:92-104 | Returns the stored value that compares as equal, if any. |
| `SkipLists.SkipList.Contains` | pkg/skiplist/skiplist.go:141-144 | Says whether a search finds something. |
| `SkipLists.SkipList.Size` | pkg/skiplist/skiplist.go:147-149 | The length counter is the number of stored values. |
| `SkipLists.SkipList.Front` | pkg/skiplist/skiplist.go:164-170 | The first stored value, or nothing for an empty list. |
| `SkipLists.SkipList.Delete` | pkg/skiplist/skiplist.go:107-138 | The contents lose exactly the value that compares as equal; the result says whether there was one; emptied levels are dropped. |
| `SkipLists.LevelIsSubsequence` | pkg/skiplist/skiplist.go:44-89 | Each level of a consistent list is the subsequence of the nodes tall enough for it. |
| `SkipLists.SkipIterator.constructor` | pkg/skiplist/skiplist.go:173-177 | An iterator starts before the first value. |
| `SkipLists.SkipIterator.MoveNext` | pkg/skiplist/skiplist.go:185-192 | The iterator yields the stored values in order, and ends. |
| `Orders.ComparatorsAreThreeWay` | internal/matching/engine/orderbook.go:30-65 | Both comparison functions of the book are strict orders. |
| `Orders.SameKey` | internal/matching/engine/orderbook.go:30-65 | Two orders compare as equal exactly when price, time and id agree. |
| `OrderBooks.OrderBook.constructor` | internal/matching/engine/orderbook.go:20-27 | A new book is empty. |
| `OrderBooks.OrderBook.BestAsk` | internal/matching/engine/orderbook.go:82-88 | The first of the sorted asks, if any. |
| `OrderBooks.OrderBook.BestBid` | internal/matching/engine/orderbook.go:91-97 | The first of the sorted bids, if any. |
| `BookInvariant.FoundIsListed` | internal/matching/engine/orderbook.go:131-137 | In a sound book an id is found in the order map exactly when an order in one of the lists has it, and what is found is that order. |
| `OrderBooks.OrderBook.HasActiveOrder` | internal/matching/engine/orderbook.go:140-142 | Says whether the order of that id is in the map and rests in its list. |
| `OrderBooks.OrderBook.InsertOrder` | internal/matching/engine/orderbook.go:99-111 | The book on values with the order inserted: stamped if it has no time, and not inserted again when it already rests. |
| `OrderBooks.OrderBook.RemoveOrder` | internal/matching/engine/orderbook.go:114-121 | The book on values with the order cancelled; an unknown id changes nothing. |
| `OrderBooks.OrderBook.Match` | internal/matching/engine/matcher.go:12-23 | The heap structure with two skip lists and a map computes the pure matching function: same trades, same lists, same order map, same error for an unknown type. Who is served first is Priority.ServedInOrder. |
| `OrderBooks.OrderBook.MatchLimit` | internal/matching/engine/matcher.go:32-43 | A limit order trades and then rests with what is left. |
| `OrderBooks.OrderBook.MatchMarket` | internal/matching/engine/matcher.go:45-49 | A market order trades, and what is left is dropped. |
| `OrderBooks.OrderBook.MatchAgainstBook` | internal/matching/engine/matcher.go:51-92 | The loop that deletes from and reinserts into the list under a live iterator computes the sweep. |
| `OrderBooks.OrderBook.ExportSnapshot` | internal/matching/engine/snapshot.go:17-36 | The levels of both sides and the order map, each order converted to protobuf. |
| `OrderBooks.OrderBook.RestoreFromSnapshot` | internal/matching/engine/snapshot.go:39-52 | The book on values that entering all exported orders gives, bids first, or the first conversion error. |
| `OrderBooks.OrderBook.Validate` | internal/matching/engine/snapshot.go:55-62 | Succeeds exactly when the best bid is below the best ask or a side is empty. |
| `OrderBooks.OrderBook.ValidateWithOrderMap` | internal/matching/engine/snapshot.go:65-82 | Succeeds exactly when the spread is right, the sizes agree and every order of the map rests in its list. |
| `Matcher.SweepFollowsPriority` | internal/matching/engine/matcher.go:51-92 | Who trades, in which order, at what price and for how much follows from the list: each maker gets what the taker has left after the quantity resting ahead of it, at the price of the maker, and the taker loses exactly what is traded. That the list is by price and age is Priority.ListedInOrder. |
| `Matcher.ResidualIsUnfilled` | internal/matching/engine/matcher.go:51-92 | What is left of the taker is its size minus the whole acceptable depth, or nothing. |
| `Matcher.SweepLeavesRest` | internal/matching/engine/matcher.go:62-88 | The makers that traded are gone from the front and the others untouched; a maker filled in part is stamped with the clock and put back where that stamp belongs. |
| `BookInvariant.SweepExhausts` | internal/matching/engine/matcher.go:51-102 | A taker with something left over has met every order it may trade with. |
| `BookInvariant.MatchKeepsSound` | internal/matching/engine/matcher.go:12-92 | Matching any order the conversion lets in keeps lists sorted and equal to the order map entry by entry, remainders positive and best bid below best ask; and remainders not above quantities if the order cannot rest with more than its quantity, which SafeExactlyWhen shows to be necessary. |
| `BookInvariant.SafeExactlyWhen` | internal/matching/engine/convert.go:165-178 | An order that the conversion lets in is safe for every sound book exactly when it is not a limit order whose remainder exceeds its quantity. |
| `BookInvariant.CancelKeepsSound` | internal/matching/engine/orderbook.go:114-121 | Cancelling keeps the book sound and takes exactly that id out of the map. |
| `BookInvariant.EveryReachedBookIsSound` | internal/matching/engine/matcher.go:12-92 | Every book reached by any series of such orders and of cancellations is sound, whatever the clock shows. |
| `BookInvariant.BestBidBelowBestAsk` | internal/matching/engine/snapshot.go:55-62 | In a sound book the fronts are the best prices and do not cross. |
| `Priority.ListedInOrder` | internal/matching/engine/orderbook.go:30-65 | In every coherent book one order stands in front of another exactly if its price is better, or the prices are equal and its time is earlier, or these are equal and its id is smaller. |
| `Priority.EveryReachedBookIsListed` | internal/matching/engine/orderbook.go:30-65 | So it is in every book that any series of commands reaches. |
| `Priority.ServedInOrder` | internal/matching/engine/matcher.go:51-92 | Each trade of a new order is with a resting order of the other side, at its price and within the limit, under the id of command, maker and taker; every order with a better price, and every older one at its price, has traded all it had before; and no maker trades twice. |
| `Priority.EveryRunServesInOrder` | internal/matching/engine/matcher.go:51-92 | The same for every order of every series of commands, in the book that those before it reach. |
| `Priority.NothingAcceptableIsLeft` | internal/matching/engine/matcher.go:51-102 | If the order is not filled, no order of the other side is left that it could have traded with: none at all for a market order, none within the limit for a limit order. |
| `Priority.MatchReduces` | internal/matching/engine/matcher.go:12-92 | Matching an order with a new id takes from every resting order exactly what it traded, removes it when that was all, changes no other, and leaves the rest of a limit order under its id, with the time of its last trade. |
| `Convert.OrderRoundTrip` | internal/matching/engine/convert.go:13-76 | An order survives the trip through protobuf exactly when it has an id, a symbol, a known type and positive price, quantity and remainder. |
| `Convert.ConvertsExactlyWhen` | internal/matching/engine/convert.go:13-59 | Which messages convert, and field by field into what: a market order may leave out its price, and a remainder that is missing or not positive stands for the whole quantity. |
| `Convert.ConvertedOrders` | internal/matching/engine/convert.go:13-59 | What conversion guarantees: positive quantity and remainder, the default of a missing remainder, and that a limit order can be stored. |
| `Snapshots.ExportGroupsByPrice` | internal/matching/engine/snapshot.go:98-122 | Exported levels hold the orders of a side in order, grouped by price, each price once and best first. |
| `Snapshots.SnapshotRoundTrip` | internal/matching/engine/snapshot.go:17-52 | Exporting any sound book and restoring it through protobuf gives the same lists and order map. |
| `Snapshots.SnapshotValidates` | internal/matching/engine/snapshot.go:55-82 | Both validations of a restored book succeed. |
| `Snapshots.EveryReachedBookIsStorable` | internal/matching/engine/snapshot.go:17-36 | Every reachable book consists of orders that survive a snapshot. |
| `Events.BuildNewOrderEvents` | internal/matching/publisher/events.go:18-65 | The events of a new order: its acceptance, then, if it traded, one event for each maker and one for the taker, filled or partial by who still rests in the book looked at; and one trade event for each trade, in the order of the trades, with the log number; none for a duplicate. |
| `Events.NewOrderTells` | internal/matching/publisher/events.go:18-65 | The same, of the events themselves: the i-th trade event is the i-th trade, and an order is told once exactly if it is the maker of a trade. |
| `MatchHandlers.Process` | internal/marketdata/consumer/match_handler.go:26-59 | What the mirror becomes for each kind of match event, and when it refuses. |
| `MarketStore.OrderBookSide.Upsert` | internal/marketdata/store/store.go:368-382 | The order is entered or replaced, and every price level equals the sum over the orders at its price. |
| `MarketStore.OrderBookSide.SetRemaining` | internal/marketdata/store/store.go:384-401 | The remainder is replaced, an unknown order is reported, and the levels stay sums. |
| `MarketStore.OrderBookSide.Remove` | internal/marketdata/store/store.go:403-415 | The order is removed, an unknown one is reported, and the levels stay sums. |
| `MarketStore.OrderBookState.ApplyAccepted` | internal/marketdata/store/store.go:287-318 | The order enters its side and the update number grows, or the error of the bad argument changes nothing. |
| `MarketStore.OrderBookState.ApplyRemaining` | internal/marketdata/store/store.go:321-347 | The remainder is set on whichever side has the order; the update number grows only then. |
| `MarketStore.OrderBookState.ApplyRemove` | internal/marketdata/store/store.go:350-366 | The order is removed from whichever side has it; the update number grows only then. |
| `MarketStore.SnapshotLevels` | internal/marketdata/store/store.go:417-448 | The N best positive levels: prices strictly fall along bids and rise along asks, and a level left out of a full list has a worse price than all in it. |
| `MarketStore.SnapshotSide` | internal/marketdata/store/store.go:417-448 | On an indexed side these are the N best of the sums over its orders, by price. |
| `MarketStore.TopLevelsUnique` | internal/marketdata/store/store.go:417-448 | A depth snapshot is determined by the sums and N. |
| `MarketStore.TopIsBest` | internal/marketdata/store/store.go:433-439 | The first level of a depth snapshot has the highest bid, or the lowest ask, among all prices with a positive sum. |
| `MirrorRefinement.NewOrderEventsApplied` | internal/matching/publisher/events.go:18-65 | What the events of one new order do to the mirror, order by order. |
| `MirrorRefinement.BatchKeepsMirror` | internal/matching/consumer/handler_batch.go:114-135 | After a batch whose events are built against the book at its end, the mirror holds exactly the ids resting in the book, none with less than the book has, and with equality for orders that entered without trading or have since traded as makers. |
| `MirrorRefinement.EveryRunKeepsMirror` | internal/matching/consumer/handler_batch.go:114-135 | The same over every series of commands and every way to cut it into batches, single commands included. |
| `MirrorRefinement.EnteredAlike` | internal/marketdata/consumer/match_handler.go:61-87 | A resting order enters the mirror with the remainder the book gives it exactly when its explicit remainder is positive or missing. |
| `Depth.SnapshotOrderBook` | internal/marketdata/store/store.go:235-260 | The best levels of both sides under the limit clamped to 1..100, with 20 for none; the first bid is the highest and the first ask the lowest price with a positive sum. |
| `Depth.ClampedIs` | internal/marketdata/store/store.go:235-260 | A limit is taken as it is exactly from 1 to 100; none means 20, and more means 100. |
| `Depth.DiffOneSide` | cmd/marketdata/main.go:284-305 | Each price whose quantity differs is listed once with its new quantity, each price that is gone once with 0, and nothing else. |
| `Depth.DepthPublisher.PublishTick` | cmd/marketdata/main.go:178-207 | What a tick records and sends: nothing when idle, a full snapshot first, then differences; a failed publish records nothing, a delivered one what it showed. |
| `Depth.DeltaRebuilds` | cmd/marketdata/main.go:284-305 | Folding the differences into the old levels gives the new levels, in whatever order they come. |
| `Depth.ClientFollowsPublisher` | cmd/marketdata/main.go:167-212 | Over every run with failed publishes and restarts, a client that folds what it is sent holds exactly the levels the publisher last recorded. |
| `Depth.ClientSeesWhatIsShown` | cmd/marketdata/main.go:167-212 | After any run that ends with a delivered tick the client holds exactly the levels of the depth snapshot shown. |
| `Depth.LevelsAreDetermined` | internal/marketdata/store/store.go:417-448 | The folded levels, sorted, are the lists of the publisher. |
| `KLine.Aggregator.ApplyOneInterval` | internal/kline/aggregator/aggregator.go:126-155 | The open bar of one interval after a trade, and the bar it closes, if any. |
| `KLine.Aggregator.ApplyTrade` | internal/kline/aggregator/aggregator.go:71-101 | Every interval of the symbol sees the trade, each closed bar is reported once, and other symbols do not change. |
| `KLine.StreamedBars` | internal/kline/aggregator/aggregator.go:126-155 | Closed bars followed by the open bar are all the bars of the trades: forgetting a closed bar loses nothing. |
| `KLine.BucketIsAligned` | pkg/kline/interval/interval.go:64-70 | A bucket starts at the nearest multiple of the interval at or before the trade, or after it for times before the epoch. |
| `KLine.IntervalsMakeDay` | pkg/kline/interval/interval.go:36-61 | How many of each interval make a day of 86 400 000 milliseconds. |
| `KLine.DividesExactlyWhen` | pkg/kline/interval/interval.go:12-61 | One interval is a whole number of another exactly when it is no shorter, but for six hours and four. |
| `KLine.BarsAdvance` | internal/kline/aggregator/aggregator.go:126-155 | For trades in any order, bars open at strictly increasing multiples of the interval and their volumes add up to the trades that were not too late. |
| `KLine.CoarseBarsMergeFineBars` | internal/kline/aggregator/aggregator.go:126-155 | For trades in time order and an interval that divides another, each coarse bar is the merge of the fine bars in its bucket and every fine bar is in one, as long as all trades come later than one fine interval before the epoch. |
| `KLine.BarsSumUpTrades` | pkg/kline/bar/bar.go:27-46 | For trades in time order each bar has the first and last, highest and lowest price, the total quantity and the last time of exactly the trades in its bucket, and every trade is in one bar. |
| `KLine.GroupedExactlyFrom` | pkg/kline/interval/interval.go:64-70 | That bound is exact: for all series of trades from a time on the coarse bars are merges of the fine ones exactly if the time is later than one fine interval before the epoch. |
| `Bytes.FromLEOfLE` | pkg/wal/record.go:85-99 | Reading a little-endian number gives the number written. |
| `Bytes.LEOfFromLE` | pkg/wal/record.go:146-160 | Writing the number read gives the bytes read. |
| `Bytes.LEIsNumbered` | pkg/wal/record.go:85-99 | Byte i of an encoded number is the number divided by 256 to the i, modulo 256. |
| `Bytes.TimeIsIn` | pkg/wal/record.go:91 | The eight bytes of a time are those of the time itself in that sense, for times before the epoch as well, which is two's complement. |
| `Bytes.PutLE` | pkg/wal/record.go:85-99 | Writes a number at an offset and leaves the rest of the buffer alone. |
| `Bytes.ByteReader.ReadFull` | pkg/wal/record.go:123-136 | Reads n bytes, or reports an end of file when there are none and an unexpected one when there are fewer. |
| `WalRecord.EncodeInto` | pkg/wal/record.go:76-101 | Fills the buffer with the frame of the record, each field at its place, or refuses one that is too large or does not fit and leaves the buffer alone. |
| `WalRecord.FrameIsLaidOut` | pkg/wal/record.go:76-101 | Length at bytes 0 to 4 of a frame, number at 4 to 12, time at 12 to 20, type at 20, the payload from 21 on, and then the checksum of all behind the length, each byte given as a digit to the base 256. |
| `WalRecord.DecodeBody` | pkg/wal/record.go:141-171 | Computes the decoding of a body. |
| `WalRecord.DecodedExactly` | pkg/wal/record.go:76-171 | A body decodes to a record exactly when it is the encoding of that record. |
| `WalRecord.RoundTrip` | pkg/wal/record.go:63-119 | Decoding an encoded record gives it back, whatever follows in the buffer. |
| `WalRecord.FramedExactly` | pkg/wal/record.go:103-171 | A buffer decodes to a record exactly when it starts with the frame of the record and that is not too large. |
| `WalRecord.WritableExactly` | pkg/wal/record.go:76-101 | A record can be read back exactly when its body is not over 16 MiB. |
| `WalRecord.SomeRecordIsHidden` | pkg/wal/record.go:122-171 | Whatever record lost its body behind its length prefix, and whatever the checksum, some record appended there is not read. |
| `OutboxRecord.EncodeInto` | pkg/eventoutbox/record.go:73-107 | Fills the buffer with the frame of the record, each field at its place; the key length is truncated to two bytes. |
| `OutboxRecord.FrameIsLaidOut` | pkg/eventoutbox/record.go:73-107 | Length at bytes 0 to 4, outbox number at 4 to 12, log number at 12 to 20, time at 20 to 28, topic at 28, partition at 29 to 33, offset at 33 to 41, key length at 41 to 43, then key, payload and checksum. |
| `OutboxRecord.DecodeBody` | pkg/eventoutbox/record.go:150-198 | Computes the decoding of a body with its variable key. |
| `OutboxRecord.DecodedExactly` | pkg/eventoutbox/record.go:73-198 | A body decodes to a record exactly when it is its encoding and the key is shorter than 65536 bytes. |
| `OutboxRecord.RoundTrip` | pkg/eventoutbox/record.go:110-131 | Decoding inverts encoding exactly when the key is shorter than 65536 bytes. |
| `OutboxRecord.FramedExactly` | pkg/eventoutbox/record.go:110-198 | The same for the outbox and records with short keys. |
| `OutboxRecord.SomeRecordIsHidden` | pkg/eventoutbox/record.go:133-198 | The same of the records of the outbox. |
| `Framing.DecodeRecord` | pkg/wal/record.go:104-119 | Checks the length of a frame held in memory and decodes its body. |
| `Framing.DecodesExactly` | pkg/wal/record.go:103-119 | For any format whose bodies decode exactly, a buffer decodes to a record exactly when it starts with its frame. |
| `Framing.FrameRoundTrip` | pkg/eventoutbox/record.go:119-131 | A frame decodes to its record, whatever follows it. |
| `Framing.ReadRecord` | pkg/wal/record.go:122-138 | Reads one frame from a file: a record, a clean end before a frame or right after its length, or an error. |
| `Framing.CutFile` | pkg/wal/reader.go:87-116 | A file of valid frames cut at any byte yields exactly the complete records, and ends cleanly just when the cut is on a boundary or right after a length prefix. |
| `Framing.StrayPrefixHidesRecords` | pkg/wal/record.go:122-138 | A length prefix that lost its body swallows shorter records appended behind it. |
| `Framing.GoesOnExactlyWhen` | pkg/wal/writer.go:74-120 | A cut file can be appended to, so that all records appended later are read behind the complete ones, exactly when the cut is between two records. |
| `SegmentedLog.FileWriter.Open` | pkg/wal/writer.go:74-120 | Opens the newest segment and takes the last number in it, or fails when it cannot be read; on an intact log whose newest segment is not empty the writer is in order. |
| `SegmentedLog.ScanLastSeq` | pkg/wal/writer.go:349-366 | The number of the last record of a segment, or an error. |
| `SegmentedLog.ReopenExactly` | pkg/wal/writer.go:98-110 | Looking only at the newest segment finds the last number exactly when it has a record or no segment has one. |
| `SegmentedLog.FileWriter.MaybeSync` | pkg/wal/writer.go:193-215 | When an append syncs and what that makes durable. |
| `SegmentedLog.FileWriter.Sync` | pkg/wal/writer.go:187-191 | Everything appended becomes durable, or the error changes nothing. |
| `SegmentedLog.FileWriter.Rotate` | pkg/wal/writer.go:337-346 | The full segment is synced and closed and an empty one follows. |
| `SegmentedLog.FileWriter.AppendLocked` | pkg/wal/writer.go:148-184 | Refuses a closed writer, a number that does not grow and a record that is too large; otherwise the record is in the log, synced and rotated as configured. A log that reads back in order stays so if the record can be read back and has a number above zero. |
| `SegmentedLog.FileWriter.AppendNext` | pkg/eventoutbox/writer.go:121-133 | Appends under the next number, whatever the record; at the end of the 64-bit range the number wraps and is refused. Order is kept as for an explicit number. |
| `SegmentedLog.FileWriter.Close` | pkg/wal/writer.go:230-255 | Syncs and closes once. |
| `SegmentedLog.LogIterator.MoveNext` | pkg/wal/reader.go:87-116 | The next record above the starting number, across segments, or the end or first error. |
| `SegmentedLog.ReadAll` | pkg/wal/reader.go:49-64 | All records above a number, or an error if some segment is unreadable. |
| `SegmentedLog.FetchUnpublished` | pkg/eventoutbox/reader.go:56-79 | At most the limit of records above a number, 256 for no limit; an unreadable segment matters only before the limit is reached. |
| `SegmentedLog.CrashKeepsDurable` | pkg/wal/writer.go:217-227 | Whatever a crash leaves behind the synced bytes, all synced records are read back, then a clean end or a torn record. |
| `LogRuns.WorksExactlyWhen` | pkg/wal/writer.go:74-366 | Over every run of appends, syncs, rotations, crashes at any byte behind the synced ones and reopenings: at every point at which the log is open its records are numbered 1, 2, 3, ... across segments, the last number is known, and whatever is appended will be read behind them, exactly when no crash cut right behind a length prefix or in front of all records of a newest segment that is not the first. |
| `LogRuns.DurableStays` | pkg/wal/writer.go:187-215 | What was durable at some point of a run without these two cuts is there at every later point, and is a prefix of the log. |
| `LogRuns.ReadFromAfterRun` | pkg/wal/reader.go:40-116 | After every such run, reading from k gives exactly the records k + 1, k + 2, ... in order. |
| `LogRuns.ReadsBackAfterRun` | pkg/wal/reader.go:87-116 | After every such run the files hold exactly the log, followed by a torn record if a crash cut one, which the reader reports and which keeps the log from opening again. |
| `SegmentedLog.ReadBack` | pkg/wal/reader.go:87-116 | The files of an intact log read back as its records. |
| `LogRuns.NumbersRepeat` | pkg/wal/writer.go:98-110 | Without a record in the newest segment numbers begin again at one: a concrete run. |
| `Logs.WalWorksExactlyWhen` | pkg/wal/writer.go:74-366 | The same exact condition for the write-ahead log, without any hypothesis on its records. |
| `Logs.OutboxWorksExactlyWhen` | pkg/eventoutbox/writer.go:61-168 | The same for the event outbox, with keys that fit. |
| `Logs.WalReadsBackAfterRun` | pkg/wal/reader.go:40-116 | For the write-ahead log: what is on disk after any run without the two cuts reads back from k as the records behind k, with an error behind them only where a crash tore a record. |
| `Logs.WalAcceptsAll` | pkg/wal/writer.go:148-184 | Every record that is small enough to be appended to the write-ahead log can be read back. |
| `Logs.OutboxAcceptsShortKeys` | pkg/eventoutbox/writer.go:135-168 | An event can be read back from the outbox exactly when its key is short enough, although longer ones are written. |
| `Logs.WalGoesOnExactlyWhen` | pkg/wal/writer.go:74-120 | A write-ahead log cut by a crash can be appended to and read behind the cut exactly when the cut is between two records. |
| `Logs.OutboxGoesOnExactlyWhen` | pkg/eventoutbox/writer.go:61-107 | The same of the event outbox. |
| `Logs.ReplayReadsTail` | internal/matching/recovery/engine.go:466-479 | What the reader yields behind a snapshot is the tail of the log that recovery replays. |
| `Outbound.AppendOutbound` | internal/matching/eventoutbox/append.go:19-66 | The match events of a command and then its trades are appended under consecutive numbers; on an error a prefix of them is. |
| `Outbound.TopicsGrow` | internal/matching/eventoutbox/append.go:23-64 | Each topic gets the encodings of its events, in the order of the commands. |
| `Outbound.RecordsCarry` | internal/matching/eventoutbox/append.go:19-66 | The i-th record of a command has the i-th number behind what was there and carries number, key and payload of its event and partition and offset of the command; match events have topic 1, trades topic 2. |
| `Relay.RelayWorker.LoadPublished` | internal/matching/eventrelay/relay.go:84-96 | The cursor in memory if there is one, else the file, else zero when the file cannot be read. |
| `Relay.RelayWorker.StorePublished` | internal/matching/eventrelay/relay.go:98-103 | The cursor in memory moves even if the file cannot be written. |
| `Relay.RelayWorker.Publish` | internal/matching/eventrelay/relay.go:117-149 | Groups of one topic and key are written in order up to the first failure; unknown topics are skipped. |
| `Relay.RelayWorker.PollOnce` | internal/matching/eventrelay/relay.go:105-168 | What one poll writes and where it leaves both cursors, for every outcome of its writes and saves. |
| `Relay.FetchIsUnpublished` | pkg/eventoutbox/reader.go:56-79 | On a numbered outbox a fetch is the next slice behind the cursor. |
| `Relay.EveryRunIsSafe` | internal/matching/eventrelay/relay.go:84-168 | Over every run with failed and partial writes, failed saves and crashes, the history with resends dropped is a gap-free in-order prefix of the outbox, and no cursor is beyond it. |
| `Relay.CursorIsCovered` | internal/matching/eventrelay/relay.go:98-168 | Every record with a known topic up to the cursor on disk has been written. |
| `Relay.CursorCanFallExactlyWhen` | internal/matching/eventrelay/relay.go:84-149 | With the configured size of a batch, some possible poll moves the cursor on disk back exactly when, in the batch behind the cursor in memory, which a restart sets to zero, a write ends with a record below the cursor on disk. |
| `Relay.CursorNeverFalls` | internal/matching/eventrelay/relay.go:84-168 | As long as the cursor file can be read the cursor on disk never moves back. |
| `RelayProgress.HealthyPoll` | internal/matching/eventrelay/relay.go:105-168 | A poll in which everything goes well sends the records of its batch that have known topics, once each and in order, and leaves the cursor behind the last of them. |
| `RelayProgress.EverythingIsSent` | internal/matching/eventrelay/relay.go:105-168 | If all topics are known, m such polls send exactly the next m batches, so every record is sent in the end. |
| `RelayProgress.StuckExactlyWhen` | internal/matching/eventrelay/relay.go:121-153 | Such polls never move the cursor exactly when the first batch behind it has no record with a known topic: a whole batch of unknown topics stops the relay for good. |
| `RelayMirror.MirrorCatchesUp` | internal/matching/eventrelay/relay.go:84-168 | Over every run of the relay in which the cursor file can be read, with failed and partial writes and restarts: once the relay has confirmed all that it ever sent, the market-data mirror that has consumed everything, repetitions included, is that of one pass over the outbox. |
| `RelayMirror.UnreadableCursorLeavesOrder` | internal/matching/eventrelay/relay.go:84-96 | When the file cannot be read once, a run after which the mirror keeps an order that is gone. |
| `Engine.PersistentEngine.Apply` | internal/matching/recovery/engine.go:521-532 | A command applied to memory: the trades, the new books, and the id of a new order among the seen ones; or an error that changes nothing. |
| `Engine.PersistentEngine.ApplyNewOrderImmediate` | internal/matching/recovery/engine.go:285-327 | The checks in their order, then log, apply and perhaps snapshot; every error leaves what it leaves. |
| `Engine.PersistentEngine.ApplyCancelImmediate` | internal/matching/recovery/engine.go:345-376 | A cancellation is logged and applied, also for an order nobody knows. |
| `Engine.PersistentEngine.StageNewOrder` | internal/matching/recovery/group_commit.go:42-69 | A new order is judged against what has been applied and logged without being applied. |
| `Engine.PersistentEngine.StageCancel` | internal/matching/recovery/group_commit.go:71-88 | A cancellation is logged without being applied. |
| `Engine.PersistentEngine.CommitBatch` | internal/matching/recovery/group_commit.go:111-170 | One sync, then every staged command in order; on a failure all of it stays staged. |
| `HalfSnapshots.WriteSnapshots` | internal/matching/recovery/engine.go:559-594 | The snapshots of the symbols are written one after the other, in no particular order, up to the first that cannot be, and the manifest last: which symbols then have which number. |
| `HalfSnapshots.Newest` | internal/matching/recovery/engine.go:408-437 | Recovery begins behind the highest number of any snapshot or of the manifest. |
| `HalfSnapshots.HalfWrittenRecovers` | internal/matching/recovery/engine.go:397-479 | After a half-way write recovery goes on from the new books of the symbols written and the old books of the others; that is the shard of that moment exactly when none of the others has changed. |
| `HalfSnapshots.UntouchedSymbolsSurvive` | internal/matching/recovery/engine.go:397-479 | With the real matcher a half-written snapshot brings back the whole shard if every symbol that was not written has had no command since the complete one. |
| `Engine.PersistentEngine.TakeSnapshotNow` | internal/matching/recovery/engine.go:553-557 | Writes snapshots of what has been applied under the last number of the log. |
| `Engine.PersistentEngine.SnapshotIfStale` | internal/matching/recovery/engine.go:542-550 | Writes snapshots only when the log has grown since the last ones. |
| `Engine.PersistentEngine.LoadSnapshots` | internal/matching/recovery/engine.go:397-443 | Registered symbols take over the saved books, or loading fails. |
| `Engine.PersistentEngine.BuildSeen` | internal/matching/recovery/engine.go:453-464 | Every id of a new order anywhere in the log becomes seen. |
| `Engine.PersistentEngine.ApplyRecord` | internal/matching/recovery/engine.go:494-519 | One entry replayed: a new order whose id has been seen is skipped, anything undecodable is an error. |
| `Engine.PersistentEngine.ReplayWAL` | internal/matching/recovery/engine.go:466-479 | The entries behind a number are replayed in order, or replay fails. |
| `Engine.PersistentEngine.Recover` | internal/matching/recovery/engine.go:378-395 | Snapshots, index of the whole log, replay of the tail: the state recovered as written. |
| `Recovery.RecoveryAppliesOnlyCancels` | internal/matching/recovery/engine.go:453-519 | For every log and snapshot, the state recovered as written is the snapshot with only the cancellations of the tail applied. |
| `Recovery.RecoveryWithCutIsFullReplay` | internal/matching/recovery/engine.go:378-519 | With the index cut at the snapshot, recovery is the replay of the whole log from nothing. |
| `Recovery.RecoveryIsFullReplayWithoutNewOrders` | internal/matching/recovery/engine.go:378-519 | As written it is that replay when no new order is logged behind the snapshot, whatever the matcher. |
| `ShardRecovery.RecoveryExactlyWhen` | internal/matching/recovery/engine.go:378-519 | For the real matcher, recovery as written gives from every snapshot of good books what recovery with the index cut gives exactly when the log behind the snapshot has no new order that the log before it lacks, or cannot be read at all. |
| `ShardRecovery.RecoveryFromNothingExactlyWhen` | internal/matching/recovery/engine.go:453-519 | Without a snapshot it is the replay of the log from all books exactly when the log holds no new order, or cannot be read. |
| `ShardRecovery.RestingOrderIsForgotten` | internal/matching/recovery/engine.go:453-464 | One accepted limit order and no snapshot: full replay has it resting, recovery as written loses it. |
| `Recovery.ReplayInTwo` | internal/matching/recovery/engine.go:466-479 | Replaying a log is replaying its first part and then its second. |
| `GroupCommit.GroupCommitIsOneByOne` | internal/matching/recovery/group_commit.go:42-170 | Staging any batch and committing it gives the same log, books, seen ids, snapshots, trades and outcomes as one-by-one processing if no id is new twice, and one goes through exactly when the other does. |
| `GroupCommit.LogsAgreeExactlyWhen` | internal/matching/recovery/group_commit.go:55 | The logs agree exactly when no id is new twice in the batch. |
| `GroupCommit.RepliesExactlyWhen` | internal/matching/recovery/engine.go:285-347 | When a command processed by itself is answered as read-only or duplicate, refused, or fails to be logged, by what it says and what has been seen; and memory changes only once the command is the last, synced entry of the log. |
| `GroupCommit.GoesThrough` | internal/matching/recovery/engine.go:298-347 | What goes through is matched under the number of its entry or cancelled, the id of a new order is seen, and every so many entries a snapshot of all books is written under that number. |
| `ShardRuns.RepeatedIdGoesThrough` | internal/matching/recovery/group_commit.go:55 | A batch with an accepted order twice goes through with two entries, where one-by-one processing logs one. |
| `EngineRuns.EveryRunIsDurable` | internal/matching/recovery/group_commit.go:111-170 | Over every run of commands, commits, snapshots and crashes, in either mode, whatever each append, sync and snapshot write answers: what has been applied is durable, the books are exactly what the applied entries make in their order, and recovery from whole entries never fails. |
| `DiskRuns.FirmExactlyWhen` | pkg/wal/writer.go:98-120 | With processes that die while the machine stays up, and take what they wrote for durable: what memory has applied is durable at every point exactly when no process dies with unsynced entries. |
| `EngineOnDisk.EveryRunIsSound` | internal/matching/recovery/engine.go:75-127 | Over every run of the engine on the bytes of its log, the entries in memory are the records on disk, and the process is up exactly when no crash has cut through a record. |
| `EngineOnDisk.EveryRunIsDurableOnDisk` | internal/matching/recovery/engine.go:75-127 | While it is up, every entry that it has applied is among the records that no crash can take, and its books are what these entries make. |
| `ShardOnDisk.EveryShardRunOnDisk` | internal/matching/recovery/engine.go:75-127 | The same for the real matcher over the real record format. |
| `EngineRuns.AppliedOnceExactlyWhen` | internal/matching/recovery/group_commit.go:133-170 | Over every such run no entry is applied twice exactly when no batch whose first command has been applied is committed again. |
| `EngineRuns.AsReplayedExactlyWhen` | internal/matching/recovery/engine.go:285-532 | Over every such run, what has been applied and what waits for its commit stay exactly what a replay of the log performs if and only if every step is faithful: what is logged is applied or staged unless its id is in the log, a commit goes through or fails at its first command, and a crash finds a snapshot that lacks only cancellations behind its number. |
| `EngineRuns.ReplayPerformsTrace` | internal/matching/recovery/engine.go:494-519 | A replay of a log performs all its entries but the new orders whose id an earlier entry has, and nothing else. |
| `EngineRuns.CrashLosesNothing` | internal/matching/recovery/engine.go:378-519 | After faithful steps, what any crash leaves of the log is replayed by recovery with the index cut if the snapshot holds what its number says, and by recovery as written if only cancellations follow; with nothing waiting and nothing lost that is the memory of the engine. |
| `EngineRuns.LabelledExactlyWhen` | internal/matching/recovery/engine.go:542-594 | Over every run of faithful steps the snapshot on disk always holds what its number says exactly when none is taken while a command waits for its commit. |
| `EngineRuns.EveryIdOnce` | internal/matching/recovery/engine.go:298-324 | After faithful steps no order id has been applied as new twice. |
| `EngineRuns.RefusedOrderStops` | internal/matching/recovery/engine.go:310-315 | An order that is logged and then refused: the log can no longer be replayed, nor recovered with the index cut. |
| `EngineRuns.CommittedAgainAppliesTwice` | internal/matching/recovery/group_commit.go:133-170 | A batch whose second command fails: committed again, its first order is applied a second time. |
| `ShardRecovery.SnapshotWhileStagedExactlyWhen` | internal/matching/recovery/engine.go:545-556 | A snapshot taken after staging any batch recovers the books as they were before it; for all good books of the registered symbols that is what the batch makes of them exactly when the batch logged nothing. |
| `Shard.ShardIsLawful` | internal/matching/symbol/shard.go:49-70 | Matching refuses an order without an id and no command loses a symbol. |
| `Shard.OnlyItsBookMatches` | internal/matching/symbol/shard.go:49-70 | An order is matched in the book of its symbol under the number of its command, and all other books stay as they are. |
| `Shard.OnlyItsBookCancels` | internal/matching/symbol/shard.go:49-70 | A cancellation takes its order out of the book of its symbol, and nothing else changes. |
| `Shard.GoodSavesBack` | internal/matching/recovery/engine.go:445-451 | Every sound book of the shard is loaded back from its snapshot as it was. |
| `ShardRuns.ShardObeysLaws` | internal/matching/symbol/shard.go:49-70 | The real matcher, its books and their snapshots obey the laws that the results on runs ask for. |
| `ShardRuns.CommitsExactlyWhen` | internal/matching/recovery/group_commit.go:133-170 | A batch goes through exactly when every command in it is acceptable: its symbol is registered and not read-only, its order converts, the rules of the symbol accept it, or it is a cancellation with a symbol. |
| `ShardRuns.PlainIsFaithful` | internal/matching/recovery/group_commit.go:42-170 | A step is faithful exactly when this holds of what is logged and of what is committed, and a crash finds a snapshot with all new orders. |
| `ShardRuns.EveryShardRun` | internal/matching/recovery/engine.go:285-395 | For the real matcher from an empty directory: applied is durable, the books are sound and are what the applied entries make, and both exact conditions hold over every run, the second stated by what stands in commands, books and log. |
| `ShardRuns.ShardSurvivesCrash` | internal/matching/recovery/engine.go:378-519 | For the real matcher a crash after any run of faithful steps loses nothing that was applied, under the same conditions as for any engine. |
| `ShardRuns.UnknownSymbolStops` | internal/matching/recovery/engine.go:310-315 | An order of a symbol that nobody registered, logged and then refused, is such an input. |
| `ShardRuns.HalfCommittedBatchRepeats` | internal/matching/recovery/group_commit.go:133-170 | An accepted order and an order of an unknown symbol in one batch: committed twice, the first is matched twice. |
| `CommandConsumer.MirrorsExactlyWhen` | internal/matching/consumer/handler_batch.go:22-88 | Over every run of the command loop, alone or in batches, new orders and cancellations, whatever each append, sync, commit and outbox append answers, with redeliveries, snapshots, read-only symbols and restarts: whenever the loop runs, memory has performed the log and the outbox holds exactly the events that a replay of the log sends out, each once and in order, if and only if every restart finds the log without commands whose events were not built, the outbox with all events that were, and only cancellations behind the snapshot. |
| `CommandConsumer.RunningServiceIs` | internal/matching/consumer/handler.go:59-136 | While it runs, such a service has log and outbox synced, nothing staged, and the books that the whole log makes, and a restart then depends on the snapshot alone. |
| `CommandConsumer.NothingIsLeftOut` | internal/matching/consumer/batch.go:13-19 | Over every run, wherever the loop goes on, every message before that place is in the log, or is a new order whose id the log has, or was passed over for a read-only symbol. |
| `CommandConsumer.MovesOnExactlyWhen` | internal/matching/consumer/handler.go:59-136 | Taking one message, the loop goes on behind it exactly when the engine replies and, unless that passes the message over, all its events reach the outbox and are synced; otherwise it stops where it is. |
| `CommandConsumer.BatchMovesOn` | internal/matching/consumer/handler_batch.go:22-88 | A batch moves the loop on by all its messages, with everything synced, or stops it where it is. |
| `CommandConsumer.StartsBehindLargest` | internal/matching/consumer/batch.go:13-19 | A restarted loop begins right behind the largest offset in the log, and at the beginning if there is none above 0. |
| `ShardCommands.EveryServiceRun` | internal/matching/consumer/handler_batch.go:22-135 | The same two results with the real matcher and the events that are really built. |
| `ShardCommands.OrderWithoutEvents` | internal/matching/consumer/handler.go:59-101 | An accepted order is logged and matched, the append to the outbox fails, and the process starts again: its events never come. |
| `TradesSent.EveryTradeIsSent` | internal/matching/publisher/events.go:44-49 | Over every run of the service with whole restarts, whenever it runs: the trades in the outbox are those that matching made of the log, each once and in the order of matching; all events stand in the order of the log, and the trades of a command behind all its match events. |
| `TradesSent.EveryCommandIsTold` | internal/matching/consumer/handler_batch.go:114-135 | In the same runs the outbox is, entry by entry of the log, what tells its command: for a new order its acceptance, who of its makers and itself is still in its book when the events are built and who is filled, and its trades; for a cancellation that it is canceled. |
| `OrderStatus.TerminalHasNoExit` | internal/order/status/machine.go:44-99 | The terminal statuses are exactly those from which no transition is allowed. |
| `OrderStatus.PendingIsFirst` | internal/order/status/machine.go:28-99 | No match event leads back to pending, and an order being cancelled can still be reached by all of them. |
| `Repository.OrderRepository.LockFundsOf` | internal/order/repository/balance_ops.go:13-37 | Moves the amount from balance to frozen, or refuses and changes nothing. |
| `Repository.OrderRepository.ReleaseFundsOf` | internal/order/repository/balance_ops.go:41-83 | Moves back at most what is frozen; nothing frozen is no error. |
| `Repository.OrderRepository.ConsumeFrozenOf` | internal/order/repository/balance_ops.go:86-110 | Takes the amount from frozen, or refuses and changes nothing. |
| `Repository.OrderRepository.AdjustBalanceOf` | internal/order/repository/trade_apply.go:166-217 | Adds to a balance, creating the row for a credit; never below zero. |
| `Repository.OrderRepository.PlaceOrder` | internal/order/repository/repository.go:137-195 | Order, idempotency key, locked funds and outbox row together, or nothing. |
| `Repository.OrderRepository.ApplyMatch` | internal/order/repository/match_apply.go:24-105 | One transaction per match event: status, filled quantity and the release of a cancelled order, or a rollback. |
| `Repository.OrderRepository.ApplyTrade` | internal/order/repository/trade_apply.go:29-88 | One transaction per trade: both settlements and both fills, or a rollback. |
| `Repository.OrderRepository.RequestCancel` | internal/order/repository/cancel_apply.go:17-67 | Succeeds exactly when the order is there, the requester owns it, and it is neither filled nor rejected; then it moves an open order to canceling with an outbox row, and leaves one that is canceling or canceled. An order of somebody else is not found. |
| `LedgerEffects.CancelsExactlyWhen` | internal/order/repository/cancel_apply.go:24-69 | The same for the transaction on values, with the whole state that it leaves. |
| `LedgerEffects.OnlyOwnersCancel` | internal/order/repository/cancel_apply.go:24-69 | Over every run, an order that has come to be canceling was asked to be by its owner. |
| `Repository.OrderRepository.RejectStale` | internal/order/repository/reconcile.go:15-49 | Rejects a pending order, releases its funds and asks matching to cancel, or leaves it. |
| `Repository.OrderRepository.ResendCancelOf` | internal/order/repository/reconcile.go:79-100 | Writes another cancel command for an order that is canceling, and for no other. |
| `Ledger.TradeDelta` | internal/order/repository/trade_apply.go:29-217 | A trade changes the total of every asset by exactly what its two sides add to it. |
| `Ledger.TradeConservesExactlyWhen` | internal/order/repository/trade_apply.go:147-164 | A trade conserves every asset exactly when its orders are on opposite sides or nothing is left of it after rounding. |
| `Ledger.SameSideTradeCommits` | internal/order/repository/trade_apply.go:29-88 | Nothing stops a trade between two buyers: with enough frozen on both sides it commits, and does not conserve. |
| `LedgerRuns.EveryRunConserves` | internal/order/repository/balance_ops.go:13-118 | Over every interleaving of placing, cancelling, rejecting, events, trades and adjustments, with rollbacks, nothing becomes negative and the total of an asset changes only by the adjustments. |
| `LedgerRuns.EveryRunIsWellKept` | internal/order/repository/repository.go:137-209 | Over every run there is one order per client key, each order is announced to matching exactly once, and no cancel command precedes the order it cancels. |
| `LedgerRuns.ReleaseUndoesLock` | internal/order/repository/balance_ops.go:13-83 | Releasing what was locked gives back the accounts as they were. |
| `LedgerRuns.StepMoves` | internal/order/status/machine.go:69-99 | Every transaction keeps all orders and moves statuses only along allowed transitions. |
| `LedgerRuns.TerminalStays` | internal/order/status/machine.go:44-51 | A terminal status never changes in any run. |
| `LedgerEffects.StatusChangesExactlyWhen` | internal/order/status/machine.go:15-99 | Over all transactions a status changes exactly when matching says that the order is accepted (event 1), filled (2), partially filled (3) or canceled (4) and its status allows it, its owner asks to cancel it while it is open, or it is given up while pending. |
| `LedgerEffects.RowsExactlyWhen` | internal/order/repository/reconcile.go:15-100 | A transaction writes a row for matching exactly when it places an order, when the owner of an open order asks to cancel it, when a pending order is given up, or when a cancellation is sent again while the order is canceling. |
| `LedgerRuns.RedeliveryChangesNothing` | internal/order/repository/match_apply.go:36-42 | An event applied once changes nothing when it is applied again, however much happened in between. |
| `LedgerRuns.EffectsHappenOnce` | internal/order/consumer/run.go:24-55 | Over every run of the process-then-commit loop of one topic with restarts from any earlier position, the database is the result of one pass over the messages reached, stale ones skipped. |
| `LedgerGuards.TradesExactlyWhen` | internal/order/repository/trade_apply.go:29-164 | A new trade commits exactly when it is well-formed, both orders are there, both sides can pay and be credited, and both fills can give back what they have to; and what it then leaves. |
| `LedgerGuards.AppliesExactlyWhen` | internal/order/repository/match_apply.go:24-117 | A new match event commits exactly when its order is there, of that symbol, in a status that may move, and a cancellation can give back what it has to; and only a cancellation of an order that is not filled or rejected moves funds. |
| `LedgerEffects.EventWrites` | internal/order/repository/match_apply.go:36-105 | A new match event writes its order and no other: the status it says unless the order has ended, and the filled quantity it carries. |
| `LedgerEffects.TradeWrites` | internal/order/repository/trade_apply.go:70-125 | A new trade adds its quantity to what its two orders have filled, up to what they asked for, and writes no other order. |
| `LedgerEffects.PlacesExactlyWhen` | internal/order/repository/repository.go:137-209 | An order is placed exactly when its id and client key are new, it has a cost, and its user has that much free, rounded up to what can be booked. |
| `LedgerEffects.PlaceWrites` | internal/order/repository/repository.go:137-209 | What placing leaves: the pending order as asked for, its cost frozen in quote for a buy and in base for a sell, and its outbox row. |
| `LedgerEffects.RejectsExactlyWhen` | internal/order/repository/reconcile.go:15-49 | When a pending order can be given up, and that it then gives back its freeze and asks matching to cancel. |
| `LedgerEffects.ReleasedIs` | internal/order/repository/freeze.go:55-102 | How much is given back, to whom and in which asset: the share of the freeze for what is not filled, rounded down, cut to what is frozen. |
| `LedgerEffects.EveryUserOwns` | internal/order/repository/trade_apply.go:91-217 | Over every run each user owns of each asset, free and frozen, exactly what it was, plus the adjustments, plus what the new trades of the user's own orders give and take: a buyer gets base and pays quote, a seller the other way round. |
| `LedgerEffects.StepMovesFairly` | internal/order/repository/balance_ops.go:13-118 | Only a user's own placement freezes funds of the user, only a trade or an end of the user's own orders takes from the freeze, and free funds fall only by freezing or an adjustment. |
| `LedgerRuns.EffectsHappenOnceExactlyWhen` | internal/order/consumer/run.go:24-55 | With any other writers in between, such a run leaves the database as without its redeliveries, at every point, exactly when none of them brings a message that was skipped before and finds all that its transaction needs now. |
| `LedgerRuns.EffectsHappenOnceWithoutPlacements` | internal/order/consumer/run.go:18-55 | As long as the other writers, the other topic among them, place no orders, every effect happens once. |
| `LedgerRuns.LatePlacementSurprises` | internal/order/consumer/run.go:18-55 | An acceptance that comes before its order is placed, is skipped, and is delivered again after a restart, has an effect the run without redeliveries lacks. |
| `LedgerRuns.StaleIsMissing` | internal/order/consumer/run.go:18-21 | A message is skipped only because an order is not there or the trade id is out of range. |
| `LedgerEffects.SkipsExactlyWhen` | internal/order/consumer/run.go:18-55 | A message is skipped exactly when it is a new match event of a known kind for an order that is not there, a trade id out of range, or a new well-formed trade one of whose orders is not there. |
| `LedgerEffects.GoesPastExactlyWhen` | internal/order/consumer/run.go:24-55 | The loop goes past a message exactly when its transaction commits or the message is one of these; otherwise nothing changes. |
| `LedgerFunds.FundedExactlyWhen` | internal/order/repository/trade_apply.go:29-125 | Over every run of placements, trades, match events with any filled quantity, cancellations, rejections, deposits and withdrawals, in any order and over any number of orders and users: what is frozen always covers what all orders still need exactly when every placement locks what its fills will take and no order gives back more than it has to spare, by its plan and the filled quantity stored or carried by the event. |
| `LedgerFunds.NoOrderStarves` | internal/order/repository/match_apply.go:24-117 | After every such run the next trade, cancellation or rejection commits: no order lacks funds because of the others. |
| `LedgerFunds.LimitLocksEnough` | internal/order/repository/freeze.go:20-52 | A limit order or a sell order locks what any fills at its limit or better take. |
| `LedgerFunds.FilledInTimeSpares` | internal/order/repository/freeze.go:55-102 | Such an order can spare its first release if no less is stored as filled than matching has filled. |
| `LedgerEvents.DeliversExactlyWhen` | internal/order/consumer/match_handler.go:47-62 | Which match events the ledger takes and as what: the number of the kind, and as filled what the order lacks of its quantity, if it tells both. |
| `LedgerEvents.EventsCarry` | internal/order/consumer/match_handler.go:47-62 | What the ledger is told: a taker event says that nothing is filled, a cancellation says nothing of it, and a used-up maker reports the quantity of one trade. |
| `LedgerEvents.FilledEventStarves` | internal/order/repository/trade_apply.go:91-125 | A bid of two units meets two asks. The event that it is filled comes first and stores nothing as filled; the first trade then gives back what the second needs, and the second is refused. |
| `LedgerEvents.PartialThenCanceledStarves` | internal/order/repository/match_apply.go:98-117 | A bid of which half has traded is told to be partially filled by nothing, and canceled: the cancellation gives back all of it, half out of what another open bid of the user needs. |
| `LedgerEvents.CanceledTwiceGivesTwice` | internal/order/repository/match_apply.go:64-83 | Two cancellations of one order under different log numbers give its freeze back twice, the second time out of what another open bid needs. |
| `Settlement.LockedAndReleased` | internal/order/repository/freeze.go:20-102 | What placing locks and ending releases, and in which asset, for limit buys and all sells. |
| `Settlement.DivisionIsNear` | internal/order/repository/freeze.go:84-92 | The proportional division is the exact value rounded to 16 digits. |
| `Settlement.LockCoversSettlement` | internal/order/repository/freeze.go:20-102 | For any fills at the limit or better and one release, what was locked covers all that is consumed and released. |
| `Settlement.DustIsSmall` | pkg/symbolrules/asset.go:92-111 | What stays frozen is at most the price improvement and fewer than n + 3 units for n fills. |
| `Settlement.CoveredExactlyWhen` | pkg/symbolrules/asset.go:77-111 | The bound holds for all orders exactly when the asset is booked with no more digits than the division keeps. |

## Left out

- OrderBooks.OrderBook.Match: trade ids are the triple they are hashed from; collisions of the hash are not modelled.
- Priority.MatchReduces: asks for an order id that is not in the book; the engine answers a repeated id before it comes to matching.
- SkipLists.SkipList.Descend: the search loop that the source repeats in insertion, search and deletion is written once.
- MirrorRefinement.BatchKeepsMirror: one symbol; asks for new ids that are fresh and for orders that enter the mirror as they enter the book; the books of other symbols do not interact.
- Depth.ClientFollowsPublisher: a failed publish counts as not delivered; the source ignores a failed channel message of a full snapshot, whose stored copy the client reads then.
- SegmentedLog.FileWriter.AppendNext: a failing buffer write or file open is not modelled, only failing syncs.
- SegmentedLog.FileWriter.Open: a newest segment that ends right behind a length prefix opens, but the writer is then not promised to be in order; LogRuns.WorksExactlyWhen says what comes of it.
- LogRuns.DurableStays: asks for runs without the two cuts of WorksExactlyWhen.
- Relay.EveryRunIsSafe: the outbox holds synced records numbered without a gap, which is what LogRuns.WorksExactlyWhen is about.
- RelayMirror.MirrorCatchesUp: one symbol, one side per order id, and a consumer that reads each topic from its start; events that the mirror cannot apply are skipped.
- Relay.RelayWorker.PollOnce: one worker; with several the cursor can move back.
- Recovery.RecoveryIsFullReplayWithoutNewOrders: one direction, for any matcher; both directions, for the real one, are ShardRecovery.RecoveryExactlyWhen.
- Recovery.RecoveryWithCutIsFullReplay: all symbol snapshots share one number; different numbers are HalfSnapshots.HalfWrittenRecovers.
- HalfSnapshots.WriteSnapshots: pruning of old snapshots and validation before saving are part of whether a symbol can be saved.
- EngineRuns.EveryRunIsDurable: a crash keeps whole entries; torn records are EngineOnDisk.EveryRunIsSound, and processes that die alone are DiskRuns.FirmExactlyWhen.
- EngineOnDisk.EveryRunIsSound: no crash makes the two bad cuts of LogRuns.WorksExactlyWhen; encoding and decoding of commands are any functions that undo each other.
- CommandConsumer.MirrorsExactlyWhen: one partition and an outbox that keeps whole records; a topic that does not decode stops the loop as a malformed command does.
- TradesSent.EveryTradeIsSent: asks for restarts that are whole in the sense of CommandConsumer.MirrorsExactlyWhen; after others the outbox does not follow the log.
- RelayProgress.EverythingIsSent: polls between which nothing fails and the outbox does not grow.
- EngineRuns.CrashLosesNothing: asks for faithful steps and a snapshot that holds what its number says; AsReplayedExactlyWhen and LabelledExactlyWhen say when runs give both.
- ShardRuns.EveryShardRun: symbol rules are any predicate on orders and the clock is a function of the command number; limit orders whose remainder exceeds their quantity do not come.
- ShardRecovery.RecoveryExactlyWhen: the entries behind the snapshot hold no limit order whose remainder exceeds its quantity.
- Repository.OrderRepository.ApplyTrade: numeric columns hold amounts exactly, while the frozen amount of the source is stored with 18 digits; optimistic version conflicts cannot occur in one atomic step.
- LedgerRuns.EffectsHappenOnce: one topic alone; with other writers EffectsHappenOnceExactlyWhen gives the exact condition.
- LedgerFunds.FundedExactlyWhen: the two orders of a trade pay from different accounts, and trades come in the order in which matching made them.
- Settlement.LockCoversSettlement: fills are exact and each order is released once; a market buy, whose frozen amount is an estimate, is not covered.
- Settlement.DivisionIsNear: asks for a non-negative value, which amounts are.
- Sizes of the write buffer, pooled frames, the memory of the iterator's file handles and concurrent callers of the locks.
- HTTP and gRPC gateways, the WebSocket hub, Redis and Kafka clients, authentication, configuration, logging, metrics and command-line tools.
- Symbol rule parsing, shard migration, index prices, tickers, list queries and the PostgreSQL outbox relay of the order service.

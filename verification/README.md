# A two-thread market data engine, modelled and verified

The program is a market data engine of two threads. A producer (the live feed, or the replay of a
recording) pushes messages through a lock-free ring buffer to one consumer. The consumer keeps an
order book, rolling statistics and trade windows per symbol, evaluates rate-limited signal
conditions, records the depth messages it receives, and publishes snapshots for monitors and a
dashboard. This project models these parts in Dafny and proves what they promise, alone and
together.

`dafny verify dfyconfig.toml` checks everything.

## How the model is laid out

Every object whose methods change its fields is a class with those fields; each method is proved
equal to a step function on values, and the theorems are about all runs of these functions. What a run
leaves behind is stated in words of the messages alone: last quotes, event times, sums and products
(`BookMeaning`, `Published`, `Verdicts`, `ParsedMeaning`, `RecordingLayout`), never through the functions
that compute it.

| file | contents |
|---|---|
| `Words.dfy`, `Wrappers.dfy` | machine words and the option type |
| `Masks.dfy` | bitwise and, powers of two, and what masked indices decide |
| `SpscMachine.dfy` | the ring buffer as a machine of single atomic operations with stale views |
| `SpscQueue.dfy` | the ring buffer as an object over an array |
| `ReplayProtocol.dfy`, `ReplayShutdown.dfy` | replay thread, processing thread and main thread around that queue, down to the joins; lossy and complete runs |
| `ReplayEngine.dfy` | the replay loop as an object that reads a file and pushes into a queue |
| `Recording.dfy`, `DiskIo.dfy` | the recording format byte by byte, and its writer and reader |
| `RecordingLayout.dfy` | the same format as a table of offsets |
| `Levels.dfy`, `OrderBook.dfy`, `VwapLaws.dfy` | the order book against a mathematical map of its whole history |
| `BookMeaning.dfy`, `Published.dfy`, `ParsedMeaning.dfy` | what a book, the statistics and a snapshot say, in terms of the messages alone |
| `Windows.dfy`, `Aggregator.dfy` | bounded windows and rolling statistics against the whole history |
| `TradeAggregator.dfy`, `TumblingWindows.dfy` | sliding and tumbling trade windows over one stream |
| `SignalDetector.dfy` | trigger conditions, cooldowns against the whole firing log, pressure after a swing |
| `Engine.dfy` | the processing thread as a fold over messages; independence of symbols |
| `Verdicts.dfy` | when each kind of condition triggers and which value it reports, over runs of messages |
| `SymbolHistory.dfy` | what each part of a symbol's state is a function of, and where a message stands in its symbol's history |
| `FiringLog.dfy` | the firing log of a run of messages, and when it repeats a key |
| `EngineLaws.dfy` | signals after a swing, and bounds on all published figures, over whole runs of messages |
| `Arrivals.dfy`, `Processor.dfy` | queue messages, and the processing thread as an object over all of the above |
| `LiveRecording.dfy` | a live run from the opening of its recording to the closing |
| `Snapshots.dfy` | what monitors may see while a message is being processed |
| `ReplayEquivalence.dfy` | recording a run and replaying the file, whole or in part, rebuilds the same depth state or an earlier one |
| `Feed.dfy` | counters and drops of the feed, and the sequence gaps the book reports for them |
| `Dashboard.dfy`, `DashboardLimits.dfy` | the dashboard's signal list against the engine's, and when exactly the two agree |

## What is assumed

- Arithmetic on `double` is arithmetic on `real`: no claim is made about rounding, NaN or infinity.
  On disk a `double` is its 64-bit pattern, little-endian; which number a pattern denotes is a
  parameter (`Arrivals.Decoding`).
- 64-bit and 32-bit unsigned arithmetic wraps where the program computes with it: masked indices,
  cooldown differences, gap sizes, window ends, the record count. Counters that are only incremented
  and reported are unbounded.
- The wall clock is an input: each message carries the readings its processing would take, one per
  signal condition. Laws about spacing ask for a clock that never steps back, and
  `CooldownLaws.BackwardClockFires` says what happens when it does.
- The flags `running`, `paused` and `finished` are sequentially consistent, although the program
  loads and stores them relaxed. The queue indices are not: a load of the other thread's index may
  return any value not older than the last one seen. When main has seen `finished`, the stores the
  replay thread made before it are taken to be visible to main.
- A parsed message has full level arrays and counts within them (src/feed/depth_parser.cpp).
- A `std::map` is its strictly sorted sequence of levels; the unordered map of symbols is a map.

## Where the program does not do what one would expect

- `TradeAggregator::reset` leaves the open window's volume standing: it restores the initial state
  if and only if that volume is zero (`TradeAggregators.ResetRestoresIff`), otherwise the volume is
  counted again in the next window (`TradeAggregators.ResetLeaks`).
- An early stop of a replay can lose more than one record. The loss is what the drain loop's last load
  of the tail did not show, plus the record in the replay thread's hands; it is at most one if and
  only if that load missed nothing, or one push while no record was in hand
  (`ReplayProtocol.EarlyStopLoss`), so always when that load is current
  (`ReplayProtocol.EarlyStopWithCurrentTail`). The loss never exceeds the capacity, and every loss up
  to the capacity occurs (`ReplayShutdown.StaleDrainCanLoseMany`).
- Firings need not have distinct type, symbol and time. They have if and only if no trigger that may
  fire again repeats the key and time of a firing (`FiringLog.FiringKeysDistinctIffAnyClock`); with a
  clock that never steps back that is a trigger without cooldown (`FiringLog.FiringKeysDistinctIff`).
  One condition without cooldown and two messages in the same microsecond are enough
  (`RepeatedKeys.TwoMessagesRepeatKey`), and with a cooldown a clock that steps back by it and returns
  (`RepeatedKeys.BackwardClockRepeatsKey`). Some monitor then sees the dashboard's list differ from the
  engine's, and none does otherwise (`DashboardLimits.MirroredIffNoRepeats`, for fewer conditions than
  the list has lines; from that number on it is false, `LongMessages.ConditionBoundIsExact`).
- On a one-sided book the price deviation is exactly 1, judged against a stale average
  (`Aggregators.DeviationIsBounded`).

## Model

| member | source | states |
|---|---|---|
| `Masks.StaticAssertIsPow2` | src/core/spsc_queue.h:22-23 | the static assertion accepts a capacity if and only if it is a power of two |
| `Masks.MaskIsMod` | src/core/spsc_queue.h:100 | for every admitted capacity, masking with `Capacity - 1` is reduction modulo the capacity |
| `Masks.NextSlot` | src/core/spsc_queue.h:35 | advancing a masked index and masking again follows the unbounded counter, wrap-around included |
| `Masks.FullIffOneLap` | src/core/spsc_queue.h:33-39 | the full test on masked indices holds if and only if the unbounded counters are Capacity - 1 apart |
| `Masks.MaskedSize` | src/core/spsc_queue.h:87-91 | unsigned 64-bit subtraction and mask give the true distance of the counters for every admitted capacity |
| `SpscMachine.FullTest` | src/core/spsc_queue.h:33-39 | with a stale view of the head a push is refused if and only if that view shows Capacity - 1 items |
| `SpscMachine.EmptyTest` | src/core/spsc_queue.h:61-66 | with a stale view of the tail a pop is refused if and only if that view shows no item beyond the own head |
| `SpscMachine.StepKeepsInv` | src/core/spsc_queue.h:33-85 | each of the eight atomic operations keeps masked stores, views, slot contents and thread positions consistent |
| `SpscMachine.StepRefinesFifo` | src/core/spsc_queue.h:33-85 | each step is an enqueue at the back, a dequeue at the front, or invisible; failed calls change no shared word and were justified |
| `SpscMachine.NoSlotIsShared` | src/core/spsc_queue.h:41-42 | the slot being written is never the slot being read, and each access follows a store the thread has seen |
| `SpscMachine.SizeIsOccupancy` | src/core/spsc_queue.h:87-91 | in every reachable state the size computed from the two masked indices is pushes minus pops |
| `SpscMachine.RingHoldsFifo` | src/core/spsc_queue.h:68-69 | walking the buffer from head to tail, behind the item in the consumer's hands, yields the abstract queue |
| `SpscMachine.EveryRunIsFifo` | src/core/spsc_queue.h:33-100 | after any interleaving with stale views, popped items and the slots from head to tail are the pushed items in order; occupancy is at most Capacity - 1; indices are counters modulo Capacity |
| `SpscQueues.SpscQueue.constructor` | src/core/spsc_queue.h:22-26 | any capacity the static assertion admits gives an empty queue |
| `SpscQueues.SpscQueue.TryPush` | src/core/spsc_queue.h:33-58 | succeeds if and only if fewer than Capacity - 1 items are queued, appends the item, and otherwise changes nothing |
| `SpscQueues.SpscQueue.TryPop` | src/core/spsc_queue.h:61-84 | delivers and removes the oldest item, and nothing exactly when the queue is empty |
| `SpscQueues.SpscQueue.SizeApprox` | src/core/spsc_queue.h:87-91 | for a single caller the size is exact |
| `SpscQueues.SpscQueue.Empty` | src/core/spsc_queue.h:93-95 | for a single caller the indices are equal exactly when nothing is queued |
| `ReplayProtocol.StepKeepsInv` | src/replay/replay_engine.cpp:71-123 | every step of replay thread, processing thread or main keeps file position, counts, queue and program counters consistent |
| `ReplayProtocol.EmptyIsSound` | src/core/spsc_queue.h:93-95 | after `finished` was seen the two loads of `empty()` agree, in either order and however stale, only if the queue is empty |
| `ReplayProtocol.ProcessedIsPrefix` | src/engine/processing_thread.cpp:55-82 | at any moment of any run the processed records are a prefix of the file, in order and without repetition, and at most one record is read but not pushed |
| `ReplayProtocol.EarlyStopLoss` | src/main.cpp:355-364 | once both threads have joined, the loss is the pushes the drain loop's last load did not show plus the record in hand, at most the capacity; at most one record is lost if and only if that load missed nothing, or one push with no record in hand |
| `ReplayProtocol.EarlyStopWithCurrentTail` | src/engine/processing_thread.cpp:71-81 | if the load that ends the drain loop is current, however stale all others are, every early stop loses at most one record and what was processed is a prefix of the file |
| `ReplayProtocol.ReplayCompleteMeansEverything` | src/main.cpp:327-330 | from the "Replay complete" branch on, every readable record has been pushed and popped once, no push follows, and after the joins processed and replayed both count the whole file |
| `ReplayShutdown.WorkersStop` | src/main.cpp:355-364 | once `running` is false both workers finish within a bounded number of their own steps, whatever the queue, a pause or the scheduling |
| `ReplayShutdown.ReplayIsNeverBlocked` | src/replay/replay_engine.cpp:71-123 | a replay thread that has not finished always has an enabled step |
| `ReplayShutdown.ProcIsNeverBlocked` | src/engine/processing_thread.cpp:55-82 | a processing thread that has not finished always has an enabled step |
| `ReplayShutdown.PausedReplayStops` | src/replay/replay_engine.cpp:76-82 | while a replay stays paused it reads at most one more record, and none once the thread has come to its test of `paused`, whatever the other threads do |
| `ReplayShutdown.StaleDrainCanLoseMany` | src/engine/processing_thread.cpp:71-81 | the bound on the loss is attained: for every n up to the capacity there is a run with a stale drain that ends with n records read and none processed |
| `ReplayShutdown.CompleteRunExists` | src/main.cpp:327-330 | for every file and every capacity of at least 2 some run takes the "Replay complete" branch, ends with both joins and has processed the whole file |
| `ReplayEngines.ReplayEngine.Load` | src/replay/replay_engine.cpp:16-23 | succeeds if and only if a whole header with the right magic and version is there, then takes the count from the header and stands before the first record |
| `ReplayEngines.ReplayEngine.PushWithBackpressure` | src/replay/replay_engine.cpp:115-119 | the retrying push delivers the item once and loses nothing, or gives up with the item not queued |
| `ReplayEngines.ReplayEngine.ReplayNext` | src/replay/replay_engine.cpp:84-121 | one iteration reads one record, pushes its update and counts it, or ends the loop at end of file or stop |
| `ReplayEngines.ReplayEngine.WaitWhilePaused` | src/replay/replay_engine.cpp:76-82 | the inner loop ends with the first load of `paused` that returns false, or the first of `running`, and takes no load beyond it |
| `ReplayEngines.ReplayEngine.Run` | src/replay/replay_engine.cpp:71-123 | in every run that ends, exactly the next records of the file are pushed in order; at `finished` all of them, otherwise at most one is read and not pushed; nothing queued is lost |
| `Recording.ConversionRoundTrip` | src/output/disk_logger.h:61-92 | `from_record` after `to_record` gives the update back if and only if its symbol has at most 31 characters and no NUL; otherwise only the symbol is cut |
| `Recording.RecordRoundTrip` | src/output/disk_logger.h:44-56 | the bytes written for a record decode to that record |
| `Recording.RecordHeaderRoundTrip` | src/output/disk_logger.h:39-42 | the bytes written for a record header decode to that header |
| `Recording.FileHeaderRoundTrip` | src/output/disk_logger.h:31-37 | the bytes written for a file header decode to that header |
| `Recording.WholeReadBack` | src/output/disk_logger.cpp:131-142 | a whole recording reads back exactly the written entries, whatever the count in its header |
| `Recording.TruncatedReadBack` | src/output/disk_logger.cpp:131-142 | a recording cut at any length of at least 24 bytes delivers exactly the records that fit completely and then end of data |
| `Recording.TruncatedHeader` | src/output/disk_logger.cpp:107-126 | the header of a cut recording reads back whole, and reading at the end keeps failing |
| `RecordingLayout.RecordLayout` | src/output/disk_logger.h:44-74 | each field of a depth message at its offset of the 2108 bytes, least significant byte first: times and ids, symbol, counts, 64 bids, 64 asks |
| `RecordingLayout.RecordingBytes` | src/output/disk_logger.h:31-56 | the file of a run: magic, version, creation time and count in 24 bytes, then from byte 24 + 2120 * i on the i-th depth message with its time and size |
| `RecordingLayout.ReadNextIff` | src/output/disk_logger.cpp:131-142 | a read delivers a record if and only if 2120 bytes are left and the size field says 2108, and where it ends otherwise |
| `RecordingLayout.AcceptedIff` | src/output/disk_logger.cpp:107-126 | the accepted headers are those with the four magic bytes and version 1 |
| `DiskIo.PatchCount` | src/output/disk_logger.cpp:81-83 | overwriting the count field turns the image of an open recording into the image with that count and changes nothing else |
| `DiskIo.DiskLogger.Open` | src/output/disk_logger.cpp:16-39 | leaves a fresh file image with no records and closes a recording still open |
| `DiskIo.DiskLogger.Write` | src/output/disk_logger.cpp:62-76 | appends one entry to the file image; without an open file returns false and writes nothing |
| `DiskIo.DiskLogger.Close` | src/output/disk_logger.cpp:78-90 | the file left behind is the image of all written entries with their number modulo 2^32 in the header |
| `DiskIo.DiskReader.Open` | src/output/disk_logger.cpp:98-129 | succeeds if and only if a whole header with the right magic and version is there |
| `DiskIo.DiskReader.ReadNextRecord` | src/output/disk_logger.cpp:131-142 | delivers the record at the position if a whole one with the right payload size is there, and says where the position ends up |
| `DiskIo.DiskReader.Rewind` | src/output/disk_logger.cpp:144-147 | returns to the first record, so that the same sequence is read again |
| `Levels.PutKeeps` | src/engine/order_book.cpp:25 | setting a price keeps a side strictly sorted and changes the map at that price only |
| `Levels.EraseKeeps` | src/engine/order_book.cpp:23 | erasing a price keeps a side strictly sorted and removes that price only |
| `Levels.DeltasReflect` | src/engine/order_book.cpp:18-38 | after any deltas every price holds what its last mention says, and what it held before if it was not mentioned |
| `Levels.RedeliveryIsIdempotent` | src/engine/order_book.cpp:18-38 | applying deltas twice in a row leaves a side as applying them once |
| `OrderBooks.BookRefinesHistory` | src/engine/order_book.cpp:10-57 | after any run of updates each side is strictly sorted without zeros, a price stands there if and only if its last mention in the whole history is non-zero, with that quantity, and the reported best price is the best one |
| `OrderBooks.RedeliveredUpdatesChangeNoLevel` | src/engine/order_book.cpp:10-42 | delivering the updates applied last once more leaves every level unchanged |
| `OrderBooks.OrderBook.ApplyUpdate` | src/engine/order_book.cpp:10-42 | both loops together apply the message to the book, whatever gap is logged, and keep the book valid |
| `OrderBooks.OrderBook.Clear` | src/engine/order_book.cpp:44-49 | the book is as constructed |
| `OrderBooks.SideTotal` | src/engine/order_book.cpp:77-91 | the loop computes the sum of all quantities of a side |
| `OrderBooks.SideVwap` | src/engine/order_book.cpp:93-117 | the loop with its early exit computes the number that, times the quantity of the first levels, is the sum of price times quantity over them; 0 without volume |
| `OrderBooks.VwapIsAverage` | src/engine/order_book.cpp:93-117 | the same for the averages of every book: exactly the first levels, each weighted by its quantity |
| `BookMeaning.BookMeans` | src/engine/order_book.cpp:18-42 | after any updates Level(p, q) stands on the bid side if and only if the last quote of p among all bids of the messages has the non-zero quantity q, the same for asks; bids descend, asks ascend; last id and update count are those of the messages |
| `BookMeaning.SideIsUnique` | src/engine/order_book.h:62-63 | only one sequence of levels fits this description |
| `BookMeaning.FirstIsBest` | src/engine/order_book.cpp:51-57 | the first level of a sorted side has its highest or lowest price, 0 if there is none |
| `VwapLaws.BidVwapLaws` | src/engine/order_book.cpp:93-104 | for every n the bid average lies between the n-th and the best price and does not rise with n |
| `VwapLaws.AskVwapLaws` | src/engine/order_book.cpp:106-117 | for every n the ask average lies between the best and the n-th price and does not fall with n |
| `VwapLaws.VwapsSpanTheSpread` | src/engine/order_book.cpp:67-117 | with both sides present the two averages are at least the spread apart, over any numbers of levels |
| `Windows.PushIsLastN` | src/engine/aggregator.cpp:27-30 | push and conditional pop keep exactly the last n of everything ever pushed |
| `Windows.MeanBounds` | src/engine/aggregator.cpp:31-32 | a mean lies between any bounds of its samples |
| `Aggregators.Aggregator.UpdateFrom` | src/engine/aggregator.cpp:11-45 | the statistics after one update of the book: deques, averages and delta; the new imbalance times the quantity on both sides is bid quantity minus ask quantity, the delta is the difference to the previous one |
| `Aggregators.Aggregator.Reset` | src/engine/aggregator.cpp:47-51 | the aggregator is as constructed |
| `Aggregators.RunIsWindowed` | src/engine/aggregator.cpp:25-44 | over any history of books the deques are the last W positive mids and the last W non-negative spreads; spread, mid, weighted averages, means, imbalance and its change are what sums over the levels of the last two books and over the deques say (`IsStatistics`) |
| `Aggregators.SmasAreBounded` | src/engine/aggregator.cpp:31-41 | each average lies between the smallest and largest sample of its window |
| `Aggregators.DeviationIsBounded` | src/engine/signal_detector.cpp:46-51 | the price deviation never exceeds the larger of 1 and W - 1, and on a one-sided book it is exactly 1 |
| `Aggregators.ImbalanceIsNormalised` | src/engine/aggregator.cpp:17-22 | with non-negative quantities the imbalance lies in [-1, 1] |
| `Aggregators.OneSidedImbalance` | src/engine/aggregator.cpp:18-22 | with quantity on the bid side only the imbalance is 1, on the ask side only -1 |
| `Aggregators.SomeUpdateFalls` | src/engine/aggregator.cpp:21-23 | a fall of the imbalance by more than n times phi within n updates contains one delta below -phi |
| `Aggregators.SomeUpdateRises` | src/engine/aggregator.cpp:21-23 | a rise of the imbalance by more than n times phi within n updates contains one delta above phi |
| `TradeAggregators.TradeAggregator.Update` | src/engine/trade_aggregator.cpp:11-42 | archiving, expiry, append and recomputation together are one step on the state |
| `TradeAggregators.TradeAggregator.ExpireOld` | src/engine/trade_aggregator.cpp:44-49 | the loop removes from the front exactly the leading trades more than the window older than now |
| `TradeAggregators.TradeAggregator.RecomputeSnapshot` | src/engine/trade_aggregator.cpp:51-78 | the loop computes the volumes of both sides, their total, the count and the imbalance, which times the total is bought minus sold, and the average of the closed windows |
| `TradeAggregators.TradeAggregator.Reset` | src/engine/trade_aggregator.cpp:80-85 | everything but the open window's volume returns to its initial value |
| `TradeAggregators.ResetRestoresIff` | src/engine/trade_aggregator.cpp:80-85 | reset restores the initial state if and only if the open window carried no volume |
| `TradeAggregators.ResetLeaks` | src/engine/trade_aggregator.cpp:80-85 | from every state, after reset the first window also holds the volume the open window had before; the first trade leads to the state of a fresh aggregator if and only if that volume was zero |
| `TradeAggregators.SlidingWindowIsFilter` | src/engine/trade_aggregator.cpp:33-78 | on a chronological history the evicted deque holds exactly the trades with event time plus window not below the newest event time, and volumes, count and imbalance are those computed from them from scratch |
| `TradeAggregators.DequeIsSuffix` | src/engine/trade_aggregator.cpp:33-49 | for any event times the deque is the end of the history from some trade on; each trade evicts from the front exactly the trades more than the window older than itself, up to the first that is not, and never itself |
| `TradeAggregators.TradeImbalanceIsNormalised` | src/engine/trade_aggregator.cpp:65-69 | with non-negative quantities the trade imbalance lies in [-1, 1] |
| `TumblingWindows.VolumeIsConserved` | src/engine/trade_aggregator.cpp:20-39 | for any times, archived plus open volume is the total volume, and the deque and average are those of the last n archived windows |
| `TumblingWindows.ClosesIffStartsRun` | src/engine/trade_aggregator.cpp:20-31 | the code closes the open window exactly when the trade begins a new run of the history |
| `TumblingWindows.SameRunIffSameBucket` | src/engine/trade_aggregator.cpp:29-31 | after the first archived window two trades share a run if and only if they share the bucket of the time axis |
| `TumblingWindows.TumblingWindowsPartition` | src/engine/trade_aggregator.cpp:14-39 | a timely history splits into consecutive runs shorter than the window; the deque holds the sums of the last n finished runs and the accumulator that of the open one |
| `Signals.SignalDetector.Trigger` | src/engine/signal_detector.cpp:89-112 | a trigger is suppressed and counted while its type and symbol cool down, otherwise remembered, counted and logged |
| `Signals.SignalDetector.Evaluate` | src/engine/signal_detector.cpp:15-114 | the loop tries exactly the triggered conditions in order and hands exactly the fired signals to the callback; which ones trigger is `Verdicts.MessageTriggers` |
| `Verdicts.JudgeMeans` | src/engine/signal_detector.cpp:24-87 | for each of the ten kinds, when a condition triggers and with which value, in sums and products over levels, sampled mids, trades in the window and closed windows (`ShouldTrigger`, `IsValue`) |
| `Verdicts.MessageTriggers` | src/engine/processing_thread.cpp:113-121 | over every run of messages: a depth message attempts exactly the conditions that should trigger on its symbol, in order, each with its kind, symbol, value, threshold, clock reading and cooldown; and book, mids, trades and closed windows judged are those the symbol's messages say |
| `Verdicts.TradeTriggersNothing` | src/engine/processing_thread.cpp:138-146 | a trade message attempts nothing |
| `CooldownLaws.MapIsLastFiring` | src/engine/signal_detector.cpp:92-99 | the cooldown map holds the time of the last firing of each key of the whole run, and nothing else |
| `CooldownLaws.FiresIffSpaced` | src/engine/signal_detector.cpp:89-99 | with a clock that never steps back a trigger fires if and only if every earlier firing of its key is at least its cooldown ago |
| `CooldownLaws.SuppressedHasWitness` | src/engine/signal_detector.cpp:95-98 | a suppressed trigger has an earlier firing of the same key less than its cooldown before it |
| `CooldownLaws.EveryTriggerIsCounted` | src/engine/signal_detector.cpp:89-112 | fired and suppressed add up to triggered |
| `CooldownLaws.BackwardClockFires` | src/engine/signal_detector.cpp:95 | after a step back of the clock a trigger fires if and only if its cooldown does not exceed the wrapped difference |
| `CooldownLaws.FiringRateIsBounded` | src/engine/signal_detector.cpp:89-99 | if all cooldowns of a key are at least c > 0, any closed interval of length L holds at most L / c + 1 firings |
| `CooldownLaws.FiringTimesAreDistinct` | src/engine/signal_detector.cpp:95-99 | two firings of one key never carry the same time if the later cooldown is not zero |
| `PressureLaws.SwingToAskTriggersPressure` | src/engine/signal_detector.cpp:36-44 | a swing from IMBALANCE_BID to IMBALANCE_ASK within n updates with n * phi <= 2 * theta triggers BOOK_PRESSURE_ASK on the way |
| `PressureLaws.SwingToBidTriggersPressure` | src/engine/signal_detector.cpp:74-79 | the same for the opposite swing and BOOK_PRESSURE_BID |
| `PressureLaws.ConfiguredSwing` | src/main.cpp:225-235 | with the configured thresholds no such swing within nine updates, in either direction, goes unnoticed |
| `Sharding.ShardingTheorem` | src/engine/processing_thread.cpp:84-169 | book, statistics, trade windows, cooldown entries and firings of a symbol are those of the run of its own messages with the same clock readings |
| `SymbolHistory.DepthStateIgnoresTrades` | src/engine/processing_thread.cpp:97-146 | book and statistics of a symbol are a function of its depth updates alone |
| `SymbolHistory.TradeStateIgnoresDepths` | src/engine/processing_thread.cpp:138-146 | the trade windows of a symbol are a function of its trades alone |
| `SymbolHistory.SnapOfMessage` | src/engine/processing_thread.cpp:113-121 | the statistics a message hands to the detector are those at its place in its symbol's own history |
| `EnginePressure.SwingInRun` | src/engine/signal_detector.cpp:36-79 | in every run of messages, trades and other symbols included, a swing from one imbalance condition to the opposite one within n updates of the symbol, n * phi <= 2 * theta, triggers the pressure condition on one of them |
| `EnginePressure.RecentlyLogged` | src/engine/signal_detector.cpp:89-111 | with a clock that never steps back, after every trigger, fired or suppressed, the log holds a firing of its type and symbol at that very time or less than its cooldown before it |
| `EnginePressure.SwingIsSignalled` | src/engine/signal_detector.cpp:36-111 | so such a swing leaves a BOOK_PRESSURE signal of the symbol in the firing log, at the time of one of the messages of the swing or less than the cooldown before it |
| `EnginePressure.ConfiguredSwings` | src/main.cpp:225-235 | with the configured thresholds these are, in both directions, exactly the swings within nine updates |
| `EngineBounds.LevelsAreDelivered` | src/engine/order_book.cpp:18-38 | every level of a book was delivered as it stands, price and quantity, by some update |
| `EngineBounds.DepthFiguresAreBounded` | src/engine/aggregator.cpp:11-45 | if all messages carry positive prices and no negative quantities, then after every run and for every symbol all levels are positive, the imbalance lies in [-1, 1], is 1 with bids only and -1 with asks only, and changes by at most 2, both averages lie between the best and the last price averaged and at least the spread apart, and the deviation is at most 19, exactly 1 on a one-sided book |
| `EngineBounds.TradeFiguresAreBounded` | src/engine/trade_aggregator.cpp:11-78 | without negative quantities no published trade volume is negative and the trade imbalance lies in [-1, 1], whatever the order of event times; on a chronological history they are those of the trades at most 1000 ms older than the newest, and imbalance times total is bought minus sold |
| `EngineBounds.TriggersBelowCeiling` | src/engine/signal_detector.cpp:36-79 | in such a run no imbalance condition with a threshold of at least 1, no pressure condition of at least 2 and no deviation condition of at least 19 ever triggers |
| `FiringLog.CooldownsFollowAttempts` | src/engine/processing_thread.cpp:116-121 | the cooldown state of a run of messages is that of all triggers the run makes, in order |
| `FiringLog.RunClockForward` | src/engine/signal_detector.cpp:90 | on a clock that never steps back the triggers of a whole run are in time order and keep the configured cooldowns |
| `FiringLog.LogIsFired` | src/engine/signal_detector.cpp:101-111 | the firing log is exactly the sequence of the triggers that fired |
| `FiringLog.FiringsHaveDistinctKeys` | src/engine/signal_detector.cpp:89-99 | with non-zero cooldowns no two firings of a run share type, symbol and time |
| `FiringLog.SameTimeFiresIff` | src/engine/signal_detector.cpp:95 | with a clock that never steps back, a trigger at the very time of an earlier firing of its key fires if and only if it has no cooldown |
| `FiringLog.LogRepeatsIff` | src/engine/signal_detector.cpp:92-99 | with a clock that never steps back, the log has distinct keys if and only if no trigger without cooldown repeats the key and time of a firing |
| `FiringLog.FiringKeysDistinctIff` | src/engine/processing_thread.cpp:97-121 | the same for the firings of every run of messages |
| `FiringLog.FiresAgainIff` | src/engine/signal_detector.cpp:92-99 | whatever the clock, a trigger fires again if and only if the unsigned time since the last firing of its key has reached its cooldown |
| `FiringLog.FiringKeysDistinctIffAnyClock` | src/engine/signal_detector.cpp:89-111 | whatever the clock, the firings of a run of messages have distinct keys if and only if no trigger that may fire again repeats the key and time of a firing |
| `FiringLog.ZeroCooldownRepeatsKeys` | src/engine/signal_detector.cpp:95 | whatever else a run contains and whatever its clock, a condition without cooldown that triggers on two updates of one symbol at one reading repeats its key |
| `RepeatedKeys.TwoMessagesRepeatKey` | src/engine/signal_detector.cpp:26-29 | one condition without cooldown, any threshold: a run of two messages at one time that repeats a key |
| `RepeatedKeys.BackwardClockRepeatsKey` | src/engine/signal_detector.cpp:90-99 | one condition with a cooldown: a run of three messages whose clock steps back by it and returns, and that repeats a key |
| `Snapshots.PushFrontIsNewest` | src/engine/processing_thread.cpp:21-25 | push in front and drop at the back always keep the newest 50 signals of the whole log |
| `SnapshotMachine.StepKeepsInv` | src/engine/processing_thread.cpp:84-95 | every step of the processing thread or of a monitor keeps the published snapshot that of the last message boundary |
| `SnapshotMachine.SnapshotsAreBoundaries` | src/engine/processing_thread.cpp:181-212 | every snapshot a monitor takes, however interleaved, shows what one prefix of the messages says, field by field (`Published.IsEngineSnapshot`), and later ones no shorter prefix |
| `Published.StateMeans` | src/engine/processing_thread.cpp:113-114 | after every run and for every symbol the book is what its updates say, and the statistics are those of the books it went through, with five levels and twenty samples |
| `Published.SnapshotMeans` | src/engine/processing_thread.cpp:181-207 | the snapshot of a run lists exactly the symbols with a message; bids and asks are the last quotes, best prices the highest and lowest of them, spread and mid theirs, the update count and statistics those of the symbol's updates; the counters count messages, trades and firings; the recent signals are the last fifty firings |
| `SnapshotRuns.ProcessAndTake` | src/engine/processing_thread.cpp:84-95 | every further sequence of messages can be driven through the steps of the thread, and a snapshot taken then is that of all messages so far |
| `Processor.SymbolState.ApplyDepth` | src/engine/processing_thread.cpp:113-116 | book and statistics of one symbol advance together and the trade windows stay |
| `Processor.ProcessingThread.constructor` | src/engine/processing_thread.cpp:10-33 | a new thread is in the initial state with the given conditions registered in order |
| `Processor.ProcessingThread.GetOrCreateState` | src/engine/processing_thread.cpp:161-169 | finds the symbol's state or adds a fresh one that shares no object with any other |
| `Processor.ProcessingThread.OnSignal` | src/engine/processing_thread.cpp:13-27 | one more signal is counted and put in front of the bounded list |
| `Processor.ProcessingThread.RunDetector` | src/engine/processing_thread.cpp:116-121 | after the callbacks the counter is the length of the firing log and the list its newest 50 entries |
| `Processor.ProcessingThread.Record` | src/engine/processing_thread.cpp:100-103 | with recording on exactly one entry is appended, and nothing else of the thread changes |
| `Processor.ProcessingThread.ProcessDepth` | src/engine/processing_thread.cpp:97-136 | records the message, updates only its symbol and runs the detector on the new state; what the book then holds is `ParsedMeaning.BooksOfThread` |
| `ParsedMeaning.BookOfMessages` | src/engine/order_book.cpp:18-42 | for every run of parsed messages and every symbol: a price stands on the bid side if and only if its last mention among the first `bid_count` entries of `bids` is non-zero, with that quantity, the same for asks; last id and update count are those of the messages |
| `ParsedMeaning.BooksOfThread` | src/engine/processing_thread.cpp:97-114 | the same for the book objects a thread holds after the messages it has processed |
| `Processor.ProcessingThread.ProcessTrade` | src/engine/processing_thread.cpp:138-159 | updates only the symbol's trade windows, counts the trade, and neither records nor signals |
| `Processor.ProcessingThread.UpdateSnapshot` | src/engine/processing_thread.cpp:181-207 | the published snapshot has, for every symbol, the levels, best prices, spread, mid, statistics and update count of its state, and the counters and recent signals of the thread |
| `Processor.ProcessingThread.Process` | src/engine/processing_thread.cpp:84-95 | one message is one step of the fold over messages; recording and snapshot follow it |
| `Processor.ProcessingThread.ProcessFollowing` | src/engine/processing_thread.cpp:84-95 | a further message extends the run the thread has followed since its construction, and its recording |
| `Processor.ProcessingThread.ProcessNext` | src/engine/processing_thread.cpp:58-69 | takes the oldest queued message, if any, and extends the processed run by it |
| `Processor.ProcessingThread.Drain` | src/engine/processing_thread.cpp:71-81 | empties the queue; state and recording are those of the run extended by everything that was queued, in order |
| `ReplayEquivalence.RecordingReadsBack` | src/output/disk_logger.h:61-92 | the bytes a recorder leaves behind read back as the depth messages of the live run |
| `ReplayEquivalence.SameDepthsSameState` | src/engine/processing_thread.cpp:97-146 | two runs with the same depth messages end with the same depth state, whatever their trades and clocks |
| `ReplayEquivalence.RecordReplayEquivalence` | src/replay/replay_engine.cpp:84-121 | recording a live run and replaying it to completion, under any scheduling and queue size, rebuilds book and statistics of every symbol that had a depth update |
| `ReplayEquivalence.CutRecordingReadsBack` | src/output/disk_logger.cpp:131-142 | a recording cut at any length of at least 24 bytes, closed or not, reads back as the first depth messages of the live run |
| `ReplayEquivalence.PartialReplayIsEarlierState` | src/replay/replay_engine.cpp:71-123 | a replay of a recording cut anywhere and stopped at any moment has, for every symbol at once, the book and statistics the live processor had after one prefix of its run; run to completion, the prefix with all records that fit |
| `LiveRecording.RecordLiveRun` | src/main.cpp:237-248 | opening the recording, processing any messages and closing it leaves exactly the recording of that run in the file, and the thread in the state of that run |
| `Feed.FeedHandler.OnMessage` | src/feed/feed_handler.cpp:43-110 | every message is counted once as unparsable, dropped or accepted; it is dropped exactly when the queue is full, and what was accepted is queued in order |
| `GapAccounting.KeptUpdatesReach` | src/feed/feed_handler.cpp:102-109 | dropping messages of the joint stream and picking out one symbol's updates commute |
| `GapAccounting.GapIsWhatWasDropped` | src/engine/order_book.cpp:11-16 | on a contiguous stream a kept update reports exactly the ids dropped since the previous kept one, and reports at all if and only if something was dropped |
| `GapAccounting.FirstKeptIsQuiet` | src/engine/order_book.cpp:12 | the first update that gets through reports no gap, whatever was dropped before it |
| `GapAccounting.GapsAccountForDrops` | src/engine/order_book.cpp:11-40 | whatever the feed drops, the gaps reported over the whole run add up to the ids dropped between the first and the last update that got through |
| `Dashboard.SignalLog.Update` | dashboard/src/components/SignalLogPanel.jsx:38-63 | the loop and the trimming together are one merge of the snapshot's signals into the list |
| `Dashboard.NewOnesAreTheLatest` | dashboard/src/components/SignalLogPanel.jsx:41-49 | of the received signals exactly those fired since the last merge count as new, also after the seen set was trimmed |
| `Dashboard.MergeKeepsMirror` | dashboard/src/components/SignalLogPanel.jsx:41-62 | a merge takes the list from mirroring one length of the firing log to mirroring any later one |
| `Dashboard.DashboardMirrorsEngine` | dashboard/src/components/SignalLogPanel.jsx:38-63 | after every merged snapshot of a running engine, skipped ones included, the list is the engine's list of recent signals, without duplicates, and at most 100 keys are remembered |
| `Dashboard.DistinctLogIsMirrored` | dashboard/src/components/SignalLogPanel.jsx:38-63 | the same whenever the firings have distinct keys, whatever cooldowns and clock |
| `DashboardLimits.FirstMergeIff` | dashboard/src/components/SignalLogPanel.jsx:41-51 | for every list received first, the list shown is the list received if and only if its keys are distinct |
| `DashboardLimits.RepeatBreaksMirror` | dashboard/src/components/SignalLogPanel.jsx:43-51 | for every log, a firing that repeats an earlier key breaks the mirror of a monitor with snapshots after the first firing, before and after the second |
| `DashboardLimits.MirroredIffNoRepeats` | dashboard/src/components/SignalLogPanel.jsx:38-63 | distinct keys are always mirrored; with fewer conditions than lines the dashboard mirrors the engine for every monitor if and only if no trigger that may fire again repeats the key and time of a firing; with a clock that never steps back that is one without cooldown |
| `DashboardLimits.RunsThatFallBehind` | dashboard/src/components/SignalLogPanel.jsx:43-48 | runs of two and of three messages during which the dashboard falls behind the engine |
| `LongMessages.LongMessageHidesRepeat` | dashboard/src/components/SignalLogPanel.jsx:51 | for every number of conditions from 50 on, two messages with a clock that never steps back can repeat a key, and every monitor's list agrees with the engine's nevertheless |
| `LongMessages.ConditionBoundIsExact` | dashboard/src/components/SignalLogPanel.jsx:38-63 | for runs with n conditions, being mirrored for every monitor and having distinct keys are the same in all of them if and only if n is below the number of lines |

## Left out

- JSON parsing (src/feed/depth_parser.cpp, src/feed/trade_parser.cpp): it rests on simdjson and `strtod`, which are not part of this model; a message arrives as the parser's result, failure included.
- Network, TLS, HTTP and WebSocket servers, YAML configuration, logging, CPU affinity and latency figures: plumbing around the modelled parts; a snapshot has no latency fields.
- The pacing of a replay (`speed_divisor` and the sleep between records): it delays steps and changes none.
- I/O failure while a recording is open, file names and directories: opening a file for writing, writing and seeking succeed. Opening for reading, short reads and foreign headers are modelled.
- IEEE 754 rounding, NaN and infinity: claims about prices, volumes and averages are claims about real numbers.
- The full C++ memory model: queue indices have stale monotone views and flags are sequentially consistent. Nothing is claimed about `size_approx` read from a third thread.
- React rendering, charts and metrics panels: the signal list is modelled as one call of its updater per received snapshot, and a key as the triple of time, type and symbol instead of the string built from them.
- The order of symbols in a snapshot: the program iterates an unordered map, the model has a map.
- `ReconnectPolicy`, `signal_type_name`, `build_stats_json`: easy members.
- ReplayEngines.ReplayEngine.Run: the values loaded from `running` and `paused` and the consumer's progress are finite inputs, so only runs in which `running` is at some point seen false, or the file ends, are covered there; all interleavings are covered by the step machine.
- Processor.ProcessingThread.Process: the callback is run for each fired signal after the evaluation loop instead of inside it; the step-by-step interleaving with monitors is in the snapshot machine. Some methods of the program are split into several.
- DashboardLimits.MirroredIffNoRepeats: the "only if" half asks for fewer than 50 conditions (the program configures nine); from 50 on it is false, because one message can push a repetition out before any snapshot shows it, or into the last line, where the older signal of the same key stands anyway (`LongMessages.ConditionBoundIsExact`).
- SpscQueues.SpscQueue.TryPop: the moved-from value that stays in the freed slot is not specified by the program; here it stays as it was.
- TradeAggregators.SlidingWindowIsFilter: event times are nondecreasing, because expiry looks at the front only; conservation of volume is proved without that.
- EngineBounds.TriggersBelowCeiling: says nothing about the spread and volume conditions, whose values have no bound.
- TumblingWindows.TumblingWindowsPartition: event times are positive, nondecreasing and not within a window of 2^64, because 0 means "no window yet" and the window's end is a 64-bit sum.

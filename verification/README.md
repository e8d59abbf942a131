# Verified models of the ohlcv-validator cores

The repository turns two redundant, lossy market-data lines into one validated stream. Four parts of it
hold state whose correctness spans whole runs. This project models each of them and proves what it promises.

- **Feed arbitrator** (`src/feed/arbitrator.h`). Merges two lines into one in-order stream and declares gaps.
- **Order book and book builder** (`src/book/`). A bounded sorted-array book, and the Recovering/Live protocol
  that rebuilds it from snapshots racing with buffered deltas.
- **SPSC ring** (`src/concurrent/spsc_ring.h`). The lock-free queue, naive and cached-cursor variants.
- **Validator** (`src/validate/`). Per-symbol sequencing, bar reconstruction and price band over a hash table,
  and its sharded use in `src/bin/replay_bench_mt.cpp`.

## How it is organised

Each core has a value-level specification, laws over whole runs of it, and a class with the original's arrays,
counters and loops whose methods are proved to do exactly what the specification says.

| core | specification | laws | in-place class |
|---|---|---|---|
| arbitrator | `ArbitratorSpec`, `ArbitratorRuns` | `ArbitratorTheorems`, `ArbitratorWindows`, `ArbitratorSizing`, `ArbitratorLimits` | `FeedArbitrator.Arbitrator` |
| book | `BookSpec`, `BuilderSpec` | `BookRuns`, `BookLaws`, `BuilderTheorems`, `BuilderBuffer` | `OrderBook.LevelBook`, `BookBuilder.SequencedBook` |
| ring | `RingMachine` | `RingTheorems` | `SpscRing.Spsc` |
| validator | `ValidatorSpec`, `SymbolTable`, `ValidatorRuns` | `SymbolTheorems`, `BandTheorems`, `ValidatorRuns`, `RecordLaws` | `Validator.RecordValidator` |

`Bits` relates the power-of-two test and the index masks to remainders, `Sets` and `Holes` are about sets of
numbers, `Wire` holds the record types, and `EndToEnd` joins the arbitrator to the validator.

Three ideas carry most of the weight.

- *The arbitrator has a closed form.* Its frontier is the first sequence never offered at or above a floor
  (the anchor, or the highest sequence less the window, or the last flush). The arrival order drops out, and the
  exact comparison of two windows, exact sufficiency and the meaning of `max_reorder` all follow.
- *The bounded book is the best part of a map.* The best `MaxLevels` levels of a price-to-size map are unique,
  and the book holds them exactly until a kept level is removed while others are crowded out. Snapshot round
  trips follow from uniqueness.
- *Each symbol is alone.* The probed table is a bounded map. A symbol that came before the table was full is
  judged by its own records only, so interleaving is invisible; with room for every symbol so is sharding.

## Conventions

- Sequence numbers, sizes and counters are naturals; `ArbitratorLimits.FrontierFits` says when that matches a
  64-bit word for the arbitrator. Ring cursors are words modulo 2^64, since their wrap-around is the subject.
- Prices are reals: no rounding, no NaN.
- A one-byte enum is decoded the way the code tests it: line B is the value 1 and anything else is line A; a book
  side is bid or ask.
- A symbol is its eight bytes as one number. The table hash and the symbol-to-shard assignment are arbitrary
  functions in every law; `Validator.FibonacciHash` and `Validator.OwnerOf` are those in use.
- The sink callback is the log `out`, declared gaps are the log `lost`.
- A slot of the validator's table is a value; claiming a free slot and writing its first state are one store,
  since every caller that claims a slot also marks it seen.

Where comments and code disagree, the model follows the code.

- `src/book/order_book.h:11-22` says the best levels are tracked. That holds only until a kept level is removed while
  others are crowded out; `BookRuns.BestIffNeverUncovers` gives the exact condition and
  `BookRuns.RemovalCanUncover` an example.
- `src/book/book_builder.h:84-85` calls a forward snapshot while Live deferred; line 86 accepts one.
- `src/validate/validator.cpp:11-12` reserves the all-zero symbol for empty slots. The code tests `seen`, so the
  all-zero symbol needs no exception and the model makes none.
- `src/validate/validator.cpp:58-60` exempts timestamp 0. Regression is flagged exactly on a backward step with
  no condition on zeros.

## Model

| member | source | states |
|---|---|---|
| `Bits.PowerOfTwoHasExponent` | src/feed/arbitrator.h:51-52 | the compile-time test `n & (n-1) == 0` accepts only powers of two |
| `Bits.ExponentIsPowerOfTwo` | src/feed/arbitrator.h:51-52 | and it accepts every power of two |
| `Bits.MaskIsRemainder` | src/feed/arbitrator.h:37-39 | `x & (n-1)` is `x mod n` for every x once the compile-time test holds |
| `ArbitratorSpec.ReleaseIsPassTo` | src/feed/arbitrator.h:163-173 | releasing moves the frontier one sequence at a time to the first sequence not buffered |
| `ArbitratorSpec.AdvanceIsPassTo` | src/feed/arbitrator.h:178-190 | one forced step passes the frontier sequence and then everything contiguous after it |
| `ArbitratorSpec.ForceIsPassTo` | src/feed/arbitrator.h:111-113 | the forced-advance loop stops at the first unbuffered sequence from which the packet fits the window |
| `ArbitratorSpec.ForceSettles` | src/feed/arbitrator.h:108-113 | forcing never carries the frontier past the incoming sequence, despite nested releases |
| `ArbitratorSpec.FlushIsPassTo` | src/feed/arbitrator.h:138-142 | flushing stops exactly one past the highest buffered sequence |
| `ArbitratorSpec.AdvanceShrinks` | src/feed/arbitrator.h:138-142 | each flush iteration gets strictly nearer to an empty buffer, so flush terminates |
| `ArbitratorRuns.StepExplained` | src/feed/arbitrator.h:76-142 | every offer and flush keeps the buffer, the delivery log and the gap log functions of the accepted copies and the frontier |
| `ArbitratorRuns.RunExplained` | src/feed/arbitrator.h:76-190 | the same in every reachable state: buffered sequences lie strictly inside the window, everything offered from the floor on was accepted, reorder depth stays below the window |
| `ArbitratorRuns.FrontierClosedForm` | src/feed/arbitrator.h:28-43 | the frontier is the first never-offered sequence at or above the floor, in any run with rejects and flushes |
| `ArbitratorTheorems.ExactlyOnceInOrder` | src/feed/arbitrator.h:16-23 | delivered and lost sequences are each strictly increasing, disjoint, and together are exactly [anchor, frontier) |
| `ArbitratorTheorems.LostIffNeverInTime` | src/feed/arbitrator.h:19-23 | a sequence is declared lost if and only if the frontier has passed it and no copy that was not rejected arrived before |
| `ArbitratorTheorems.DeliversFirstCopy` | src/feed/arbitrator.h:119-132 | every delivered payload is that of the first copy of its sequence that was not rejected |
| `ArbitratorTheorems.Conservation` | src/feed/arbitrator.h:55-70 | packets offered = delivered + buffered + duplicates of both lines + rejected |
| `ArbitratorTheorems.CountsTile` | src/feed/arbitrator.h:162-190 | delivered plus gaps is the distance the frontier has come |
| `ArbitratorTheorems.FlushDrains` | src/feed/arbitrator.h:135-142 | after a flush nothing is buffered and the frontier is one past the highest sequence of the session |
| `ArbitratorTheorems.ForcedAdvanceIsBounded` | src/feed/arbitrator.h:96-113 | a packet costs at most kMaxGap - Window + 1 forced steps and ends within the window, at or after the frontier |
| `ArbitratorWindows.WiderWindowNeverHurts` | src/feed/arbitrator.h:63-66 | as long as the wider window rejects no packet that the narrow one keeps, its frontier is never ahead and its losses are among the narrow one's |
| `ArbitratorWindows.NoRejectsNoRefusal` | src/feed/arbitrator.h:103-106 | a wider run without rejects meets that condition, and then the narrow run has no rejects either |
| `ArbitratorWindows.WiderWindowDeliversMore` | src/feed/arbitrator.h:76-142 | under the same condition, after a flush the wider window has delivered everything the narrow one has, with the same payloads, and has no more gaps |
| `ArbitratorWindows.WiderCoversIff` | src/feed/arbitrator.h:76-142 | for any two window sizes: wherever the stream is flushed the wider window has delivered everything the narrow one has, if and only if it never rejected a packet that the narrow one kept |
| `ArbitratorWindows.OnlyWideRejectIsRefusal` | src/feed/arbitrator.h:103-106 | for windows up to kMaxGap + 1 the condition is that the two reject the same packets: one only the wider rejects is always one the narrow keeps |
| `ArbitratorWindows.FrontierIgnoresOrder` | src/feed/arbitrator.h:28-35 | two arrival orders of the same sequences with the same first packet leave the same frontier |
| `ArbitratorWindows.WindowSufficiency` | src/feed/arbitrator.h:103-142 | for every window size, a stream starting at its lowest sequence loses nothing if and only if no packet is ever a full window, or more than kMaxGap, ahead of the lowest missing one |
| `ArbitratorWindows.CompleteDelivery` | src/feed/arbitrator.h:103-142 | then a complete [a, b) comes out as exactly a..b-1 in order, no gaps, nothing rejected, nothing left to flush |
| `ArbitratorSizing.MaxReorderIsDeepest` | src/feed/arbitrator.h:108-117 | on every run `max_reorder` is the largest distance of a packet that is neither late nor rejected from the frontier, after the frontier was forced to the first sequence not yet offered from which the packet fits |
| `ArbitratorSizing.WindowMustExceedMaxReorder` | src/feed/arbitrator.h:63-66 | after a loss-free stream another window would also lose nothing if and only if it exceeds the reported `max_reorder` |
| `ArbitratorSizing.DuplicatesPerLine` | src/feed/arbitrator.h:57-61 | each line is charged with exactly its copies that were not rejected and were late or not the first of their sequence |
| `ArbitratorLimits.RejectsCanHurt` | src/feed/arbitrator.h:96-106 | for any two window sizes from 2 to kMaxGap a stream exists, with a reject under the wider window only, of which the narrow one delivers a message that the wider never does |
| `ArbitratorLimits.RejectIff` | src/feed/arbitrator.h:96-113 | a packet is rejected, changing only the count, if and only if it is more than 1048576 ahead of the frontier; after any other the frontier is within a window of it |
| `ArbitratorLimits.OversizedWindowRejects` | src/feed/arbitrator.h:103-106 | a window wider than kMaxGap + 1 drops a packet that is within the window |
| `ArbitratorLimits.FrontierFits` | src/feed/arbitrator.h:171-188 | if no packet carries `limit` or more, frontier, buffered sequences and delivered plus gaps stay within it, and duplicates plus rejects within the number of packets |
| `FeedArbitrator.Arbitrator.ReleasePrefix` | src/feed/arbitrator.h:163-173 | the ring's release loop computes the specified release, slots and counters included |
| `FeedArbitrator.Arbitrator.AdvanceFrontier` | src/feed/arbitrator.h:178-190 | one forced step on the slot ring is the specified one |
| `FeedArbitrator.Arbitrator.MakeRoom` | src/feed/arbitrator.h:111-113 | the forced-advance loop terminates without underflow with room for the packet |
| `FeedArbitrator.Arbitrator.Store` | src/feed/arbitrator.h:119-132 | an occupied slot always holds the same sequence, so the aliasing branch is unreachable; otherwise the packet is stored and the prefix released |
| `FeedArbitrator.Arbitrator.Offer` | src/feed/arbitrator.h:76-133 | offering on the slot ring is the specified offer, and the object is where the run of its events leads |
| `FeedArbitrator.Arbitrator.Flush` | src/feed/arbitrator.h:138-142 | flushing the slot ring is the specified flush and ends with no occupied slot |
| `FeedArbitrator.Arbitrator.StatisticsAddUp` | src/feed/arbitrator.h:55-70 | the counters of the object account for every packet and every sequence passed |
| `BookSpec.SoundStep` | src/book/order_book.h:73-101 | an update keeps a side strictly sorted with positive sizes and within the price-to-size map |
| `BookSpec.EvictMembers` | src/book/order_book.h:92-100 | a full side takes a new level exactly when it betters the worst, which it replaces |
| `BookRuns.SideIsSound` | src/book/order_book.h:73-101 | on every run, evictions included, the side holds only levels of the map with their sizes |
| `BookLaws.BookStaysInOrder` | src/book/order_book.h:88-91 | in every book a builder ever has, on any input, bid prices strictly descend and ask prices strictly ascend |
| `BookLaws.MapIsLastSize` | src/book/order_book.h:33-39 | the map of a side holds exactly the prices whose last size was not 0, with that size |
| `BookLaws.BestBid` | src/book/order_book.h:11-22 | while nothing was uncovered, the first bid is the highest of all live bids, every kept bid has the size last set, and a live bid that is not kept is below every kept one of a full side |
| `BookLaws.BestAsk` | src/book/order_book.h:11-22 | the same for asks: the first is the lowest of all live asks, and one that is not kept is above every kept one |
| `BookRuns.BestStep` | src/book/order_book.h:73-101 | a change keeps the side at the best MaxLevels of the map if and only if it does not remove a kept level while the map holds more than fit |
| `BookRuns.BestIffNeverUncovers` | src/book/order_book.h:11-22 | the side is the best MaxLevels of the map after every change if and only if no change removes one of them while more than MaxLevels are live |
| `BookRuns.RemovalCanUncover` | src/book/order_book.h:78-81 | a run after which the side is empty and the map is not |
| `BookRuns.UncrowdedIsMap` | src/book/order_book.h:92-95 | while the map never outgrows the side, the side is the map |
| `BookRuns.WithoutRemovalsBest` | src/book/order_book.h:20-22 | on any run without removals the side is the map's best MaxLevels |
| `BookRuns.BestUnique` | src/book/order_book.h:14-15 | a map has only one list of best levels |
| `BookRuns.RebuildSide` | src/book/order_book.h:31-36 | applying a side's levels to an empty side in any order, repeats allowed, rebuilds it |
| `BookRuns.RebuildFromMap` | src/book/order_book.h:31-36 | applying every price of the map in any order rebuilds the map, and the side is its best MaxLevels |
| `OrderBook.ShiftDown` | src/book/order_book.h:78-80 | the removal loop deletes one level and keeps the order of the rest |
| `OrderBook.ShiftUp` | src/book/order_book.h:93 | the insertion loop opens one hole and keeps everything else |
| `OrderBook.ApplyInPlace` | src/book/order_book.h:73-101 | the in-place update is the specified one on the levels in use, whatever lies past the count |
| `OrderBook.LevelBook.ApplyUpdate` | src/book/order_book.h:33-39 | the update goes to its side and leaves the other alone |
| `OrderBook.LevelBook.Clear` | src/book/order_book.h:31 | clearing the counts empties the book |
| `OrderBook.LevelBook.Equals` | src/book/order_book.h:61-70 | equality holds if and only if the levels in use agree, stale contents ignored |
| `BuilderTheorems.SnapshotRoundTrip` | src/book/book_builder.h:100-102 | clearing and applying a snapshot of a book in any order gives the book back |
| `BuilderTheorems.FullSnapshot` | src/book/book_builder.h:98-102 | a snapshot of every live price, kept or not, rebuilds the from-scratch book if and only if that book is the best MaxLevels of both maps |
| `BuilderTheorems.PendingIsTruth` | src/book/book_builder.h:88-104 | if the check passes, the deltas replayed are exactly the true updates after the snapshot, without holes or repeats |
| `BuilderTheorems.Recovered` | src/book/book_builder.h:98-109 | an accepted snapshot that rebuilds the true book leads to the from-scratch book through the last contiguous delta |
| `BuilderTheorems.LiveKeeps` | src/book/book_builder.h:58-110 | whatever holds of each book a snapshot rebuilds and survives every true update holds whenever the builder is Live, for any loss, duplication, reordering, overflow and snapshot timing |
| `BuilderTheorems.LiveBookIsExact` | src/book/book_builder.h:58-110 | whenever the builder is Live its book is the from-scratch book through expected - 1, for any loss, duplication, reordering, overflow and snapshot timing |
| `BuilderTheorems.LiveBookIsBest` | src/book/book_builder.h:12-33 | and each side is the best MaxLevels of the true unbounded map, as long as no true update removed one of those while more were live |
| `BuilderTheorems.LiveBookIsSound` | src/book/book_builder.h:58-110 | with snapshots of the bounded book or of every live price at any time, a Live book is sorted and holds only levels of the true maps with their sizes |
| `BuilderTheorems.NeverRewinds` | src/book/book_builder.h:64-109 | the expected sequence never decreases on any run, given a recovery buffer of at least one delta |
| `BuilderTheorems.RewindsWithoutBuffer` | src/book/book_builder.h:113-116 | with a buffer of zero a run exists on which it does decrease |
| `BuilderBuffer.CheckMeaning` | src/book/book_builder.h:88-96 | a snapshot passes if and only if the buffered deltas past it are as_of + 1, as_of + 2, ... in this order, and the next expected sequence is one past the last of them |
| `BuilderTheorems.AcceptableFrom` | src/book/book_builder.h:91-96 | for an ascending buffer the acceptable snapshots are exactly those from one before its last unbroken run on, and the next expected sequence is determined |
| `BuilderTheorems.LaterSnapshotAccepted` | src/book/book_builder.h:88-96 | if a snapshot is acceptable so is every later one |
| `BuilderTheorems.RecoveryIsConfluent` | src/book/book_builder.h:26-33 | all acceptable truthful snapshots up to the last buffered delta lead to the same builder |
| `BuilderTheorems.BufferAscends` | src/book/book_builder.h:35-36 | in-order deltas keep the recovery buffer ascending, overflow or not |
| `BuilderTheorems.InOrderRecovery` | src/book/book_builder.h:26-36 | on any truthful in-order run, acceptance is upward closed and the recovered builder does not depend on which snapshot arrived |
| `BuilderTheorems.GapsNeedRecovery` | src/book/book_builder.h:43-50 | gaps, plus one while Live, never exceed recoveries |
| `BuilderBuffer.BufferIsFirstDeltas` | src/book/book_builder.h:112-116 | while Recovering, the buffer is the first RecoverBuf deltas received since the builder was last Live, the gap delta included, and every further one is counted in overflow |
| `BuilderBuffer.NoOverflowLive` | src/book/book_builder.h:58-75 | no event that ends Live counts as overflow |
| `BuilderBuffer.RecoveryReachesLast` | src/book/book_builder.h:80-110 | on in-order input a recovering builder goes Live on exactly the snapshots from one before the last unbroken run of the deltas held, and then expects the sequence after the last delta held, or after the snapshot if that is later |
| `BuilderBuffer.StepCounts` | src/book/book_builder.h:58-110 | every event is applied, a gap, stale, held, ignored, too old or accepted, by its sequence and the deltas held; exactly its counter moves, and state and expected sequence with it |
| `BuilderBuffer.CountersAreTallies` | src/book/book_builder.h:43-50 | over every run each counter is the number of events of its kind, and overflow the number of deltas that found the buffer full |
| `BookBuilder.SequencedBook.CheckContiguous` | src/book/book_builder.h:91-96 | the validation loop returns the specified verdict and next sequence |
| `BookBuilder.SequencedBook.Load` | src/book/book_builder.h:100-102 | clearing and applying the levels replays them on an empty book |
| `BookBuilder.SequencedBook.ApplyPending` | src/book/book_builder.h:103-104 | the replay loop applies exactly the buffered deltas past the snapshot, in order |
| `BookBuilder.SequencedBook.ReceiveDelta` | src/book/book_builder.h:58-75 | taking a delta is the specified step, and the object is where the run of its events leads |
| `BookBuilder.SequencedBook.ReceiveSnapshot` | src/book/book_builder.h:80-110 | taking a snapshot is the specified step; a rejected one leaves book and buffer alone |
| `BookBuilder.SequencedBook.LiveViewIsExact` | src/book/book_builder.h:12-33 | while live, the arrays hold the from-scratch book of the true stream |
| `BookBuilder.SequencedBook.SidesInOrder` | src/book/order_book.h:88-91 | on any input the bid array runs downwards and the ask array upwards |
| `BookBuilder.SequencedBook.BufferHoldsFirst` | src/book/book_builder.h:112-116 | the buffer array holds the first deltas since the builder was last Live |
| `RingTheorems.NextInv` | src/concurrent/spsc_ring.h:51-83 | every memory access of either thread keeps the ring invariant |
| `RingTheorems.RunInv` | src/concurrent/spsc_ring.h:51-83 | the invariant holds after every interleaving, stale far-cursor loads included |
| `RingTheorems.FirstInFirstOut` | src/concurrent/spsc_ring.h:9-26 | popped values are a prefix of pushed values and at most Capacity are queued, for both variants |
| `RingTheorems.PublishTailEnqueues` | src/concurrent/spsc_ring.h:64-66 | publishing the tail appends the item to a queue that had room |
| `RingTheorems.PublishHeadDequeues` | src/concurrent/spsc_ring.h:80-82 | publishing the head removes the oldest item, and it is the value read |
| `RingTheorems.RefinesQueue` | src/concurrent/spsc_ring.h:64-82 | publishing the tail is one enqueue below capacity, publishing the head one dequeue of the oldest, every other access changes nothing |
| `RingTheorems.FarSideFrame` | src/concurrent/spsc_ring.h:51-83 | however long one thread runs alone, it changes nothing the other owns: it only takes values out, or only puts values in |
| `RingTheorems.RefusedPush` | src/concurrent/spsc_ring.h:53-63 | a push is refused if and only if the ring was full as of the head it observed; with a fresh load, if and only if it is full |
| `RingTheorems.RefusedPop` | src/concurrent/spsc_ring.h:72-79 | a pop is refused if and only if the ring was empty as of the tail it observed; with a fresh load, if and only if it is empty |
| `RingTheorems.NoSlotIsShared` | src/concurrent/spsc_ring.h:11-21 | a write comes after the observed release of the slot's last read, a read after the observed release of its write, and the two never touch one slot together |
| `RingTheorems.CachedCursorsLag` | src/concurrent/spsc_ring.h:101-112 | tail - cached_head is at most Capacity and head <= cached_tail <= tail, computed on wrapped words |
| `RingTheorems.MinusIsDistance` | src/concurrent/spsc_ring.h:56-61 | wrapped subtraction is the true distance while that is below 2^64 |
| `RingTheorems.WrapNeedsDivisor` | src/concurrent/spsc_ring.h:23-26 | the slot can be computed from the wrapped cursor for every count if and only if the capacity divides 2^64 |
| `RingTheorems.IndexOfCount` | src/concurrent/spsc_ring.h:42-44 | a power-of-two capacity makes the masked wrapped cursor the right slot |
| `SpscRing.Spsc.TryPush` | src/concurrent/spsc_ring.h:51-67 | with the consumer running between any two accesses and head loads as stale as allowed: refused if and only if full as of the head observed; never refused with room on a head no older than the call, always if full and nothing is taken meanwhile; queued values and the item are what was taken meanwhile followed by what is queued; continues the run of the transition system |
| `SpscRing.Spsc.TryPop` | src/concurrent/spsc_ring.h:70-83 | with the producer running between any two accesses and tail loads as stale as allowed: takes the oldest value, or refuses leaving the output alone, if and only if empty as of the tail observed; never refused with a value on a tail no older than the call, always if empty and nothing is put in meanwhile; continues the run of the transition system |
| `ValidatorSpec.MaskIsFaithful` | src/validate/validator.h:10-43 | the bit mask determines the set of violations |
| `RecordLaws.MaskAddsBits` | src/validate/validator.h:10-43 | the mask is 0 without flags and each violation adds two to the power of its bit number |
| `SymbolTheorems.GapsTelescope` | src/validate/validator.cpp:67-74 | with strictly increasing sequences, reported gaps add up to (last - first) - (records - 1) |
| `SymbolTheorems.UnflaggedIffContinuous` | src/validate/validator.cpp:67-74 | a symbol is never flagged for a gap if and only if no record is more than one past the one before it, and if and only if its reported gaps add up to zero; sequences may repeat or go back |
| `SymbolTheorems.RegressionIsPerStream` | src/validate/validator.cpp:58-65 | a stream is never flagged for regression if and only if its own timestamps never decrease, whatever the other streams do |
| `SymbolTheorems.AccumulatorsAreAggregates` | src/validate/validator.cpp:104-145 | the accumulators are count, volume, turnover, first, last, highest and lowest of exactly the valid trades since the last bar |
| `SymbolTheorems.VwapInRange` | src/validate/validator.cpp:126-131 | the reconstructed VWAP lies between the low and the high |
| `SymbolTheorems.FaithfulBarPasses` | src/validate/validator.cpp:172-194 | a bar carrying the exact aggregates raises no flag but those of sequencing |
| `SymbolTheorems.ReconstructionIff` | src/validate/validator.cpp:118-138 | flag by flag: volume and count mismatch if and only if they differ from the window's, VWAP and OHLC mismatch if and only if some price is off by more than a millionth of max(abs, abs, 1); nothing is compared without a valid trade |
| `BandTheorems.BandSeesTradesOnly` | src/validate/validator.cpp:163-168 | the band after any history is a function of the valid trade prices alone |
| `BandTheorems.ReferenceWithinTrades` | src/validate/validator.cpp:77-102 | the reference lies within the range of the valid trade prices so far |
| `RecordLaws.TradeMovesReference` | src/validate/validator.cpp:77-102 | the first valid trade sets the reference; one with 20 times its distance at most the reference is unflagged, resets the run and gives 5 ref' = 4 ref + price; a farther one is flagged and leaves the reference, and the third in a row sets it |
| `RecordLaws.OthersLeaveReference` | src/validate/validator.cpp:147-226 | invalid trades, bars and quotes leave the reference and the run of breaches alone |
| `RecordLaws.ReferenceDrifts` | src/validate/validator.cpp:97-101 | over n unflagged prices 5^n ref' = 4^n ref + the sum of 5^i 4^(n-1-i) price_i |
| `RecordLaws.ReferenceDriftsOnRecords` | src/validate/validator.cpp:97-101 | the same on records, whatever comes in between |
| `BandTheorems.BandRecovers` | src/validate/validator.cpp:84-101 | after a sustained move exactly the outstanding prints are flagged and none after them |
| `BandTheorems.SustainedMoveRecovers` | src/validate/validator.cpp:147-170 | the same on records, with quotes, bars and invalid trades interleaved |
| `BandTheorems.QuotesDoNotMoveBand` | src/validate/validator.cpp:215-225 | deleting every quote leaves a symbol's band as it was |
| `SymbolTable.FreeMeansAbsent` | src/validate/validator.cpp:42-52 | a probe that reaches an unseen slot has shown the key absent, for any hash |
| `SymbolTable.ExhaustedMeansFull` | src/validate/validator.cpp:40-53 | a probe through all slots has shown the table full of other keys |
| `SymbolTable.StoreKeepsTable` | src/validate/validator.cpp:42-52 | storing where the probe landed keeps seen keys distinct and their probe paths unbroken, and updates exactly one entry of the map |
| `ValidatorRuns.MapSize` | src/validate/validator.h:71-75 | the table holds as many symbols as have appeared, up to its capacity, and all of them while they fit |
| `ValidatorRuns.EntryIffPlace` | src/validate/validator.cpp:29-54 | a symbol has an entry if and only if fewer than the capacity had appeared before its first record |
| `ValidatorRuns.MapIsPerSymbol` | src/validate/validator.h:71-75 | full or not, the state of a symbol with a place is the fold over all its own records; a symbol without one faces a full table |
| `ValidatorRuns.JudgedByOwn` | src/validate/validator.cpp:147-226 | a record is judged by its own symbol's earlier records if the symbol has a place, and gets only the flags of its own fields and no gap if not |
| `ValidatorRuns.InterleavingIsInvisible` | src/validate/validator.h:71-75 | in any mix, overflowing or not, a symbol with a place gets the results of its own records alone, one without gets the flags of its own fields |
| `RecordLaws.TradeLaw` | src/validate/validator.cpp:147-170 | after any mix of records, one condition per flag of a trade: price, size, gap with its length, regression against its symbol's last trade, band; and no other flag |
| `RecordLaws.BarLaw` | src/validate/validator.cpp:172-194 | the same for a bar: low/high, open, close, VWAP range, non-positive price, volume against count, gap, regression against its symbol's last bar |
| `RecordLaws.BarReconstructionLaw` | src/validate/validator.cpp:118-138 | and its reconstruction flags against its symbol's valid trades since the symbol's last bar, if the symbol has a place |
| `RecordLaws.QuoteLaw` | src/validate/validator.cpp:196-226 | the same for a quote: crossed, locked, non-positive, zero size, gap, regression against its symbol's last quote, and band if the mid is off by more than a twentieth of the reference |
| `ValidatorRuns.MixedStreamGaps` | src/validate/validator.cpp:67-74 | gap accounting of a symbol with a place holds inside any mix of symbols and record kinds |
| `ValidatorRuns.MixedStreamContinuity` | src/validate/validator.cpp:67-74 | inside any mix a symbol with a place is never gap-flagged if and only if its own records never jump ahead, and if and only if its gaps add up to zero |
| `ValidatorRuns.ShardKeepsResults` | src/bin/replay_bench_mt.cpp:57-70 | on any stream, overflowing or not, a symbol with a place in the whole, or with none even in its shard, gets the same results from its shard's validator |
| `ValidatorRuns.ShardingPreservesResults` | src/bin/replay_bench_mt.cpp:57-70 | for any assignment of symbols to shards, if no symbol of a shard gains a place by it, in particular with room for all, the shard's own validator gives every record its single-validator result |
| `ValidatorRuns.ShardFlagSum` | src/bin/replay_bench_mt.cpp:88-99 | under the same condition a shard's own flag sum is its records' part of the single-validator sum |
| `ValidatorRuns.TotalsAddUp` | src/bin/replay_bench_mt.cpp:88-99 | if every symbol is routed to some shard, the parts add up to the whole |
| `ValidatorRuns.QuotesDoNotFlagTrades` | src/validate/validator.cpp:215-225 | deleting all quotes of all symbols changes no trade's band flag while there is room for every symbol |
| `Validator.RecordValidator.SlotFor` | src/validate/validator.cpp:29-54 | the probe loop ends at the key's slot or the first free one of its path, and fails if and only if all 4096 slots hold other symbols |
| `Validator.RecordValidator.CheckTrade` | src/validate/validator.cpp:147-170 | checking a trade on the table gives the result and state of the map, table-full case included |
| `Validator.RecordValidator.CheckBar` | src/validate/validator.cpp:172-194 | checking a bar on the table gives the result and state of the map, table-full case included |
| `Validator.RecordValidator.CheckQuote` | src/validate/validator.cpp:196-226 | checking a quote on the table gives the result and state of the map, table-full case included |
| `Validator.RecordValidator.Check` | src/validate/validator.h:76-80 | the results of the object are those of the map over all records so far |
| `Validator.Partition` | src/bin/replay_bench_mt.cpp:60-70 | each buffer holds exactly its symbols' records in stream order |
| `Validator.Worker` | src/bin/replay_bench_mt.cpp:81-99 | a worker's sum is its passes times the flag total of a fresh validator over its buffer |
| `Validator.Replay` | src/bin/replay_bench_mt.cpp:55-112 | each worker's sum is passes times the flag total of its symbols' records, and with at most 4096 symbols they add up to passes times that of one validator over the whole stream |
| `Validator.Bench` | src/bin/replay_bench_mt.cpp:55-112 | the same with the table hash in use and the routing in numbers: bits 32 to 63 of the symbol times 11400714819323198485, modulo the number of workers |
| `EndToEnd.LossyLinesValidateAlike` | src/bin/feed_handler.cpp:52-67 | if the lines between them carry every record within the window, what the arbitrator delivers is the stream itself |
| `EndToEnd.SinkSeesStream` | src/bin/feed_handler.cpp:52-67 | for the objects: no gaps, rejects or leftovers, and the validator fed by the sink has checked the stream and holds the table of validating it directly |

## Left out

- Sockets, TLS, memory mapping, file handles and JSON field extraction: input and output without state of their own.
- The replay file format, the capture writer, timestamps, reports and logs: fixed layouts and short loops, each correct or not at a glance.
- The machine-learning layer under `ml/`: statistics and simulation, not stateful protocol code.
- `size_approx`, `spread`, `mid`, `crossed` and other plain accessors: one expression each.
- Floating-point rounding and NaN: prices are reals, and the tolerance of bar reconstruction is modelled as an exact bound.
- 64-bit overflow of validator sequences, volumes and checksums, and of builder sequences: naturals throughout.
- The final exclusive-or of worker checksums and the start gate of the benchmark: they only keep the optimiser and the clock honest. Workers share no mutable state, so the model takes them one after the other.
- The memory model of C++ beyond what the ring uses: slots are one shared memory, and release/acquire is modelled by stale far-cursor loads plus the observed counts in `RingTheorems.NoSlotIsShared`.

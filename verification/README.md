# Edgy: the in-memory state machine, modelled and proved

Edgy keeps a copy of an XRPL (or Xahau) ledger in memory, follows the node's
stream, and answers path-finding requests from that copy. This project models
the five connected parts of it that carry state or meaning, and proves what each
promises. `dafny verify dfyconfig.toml` checks everything.

* **The ledger store** (`LedgerStore.dfy`). Base, overlay, builder and published
  views are heap objects that share each other, with owner counts. Behind them
  stands one finite map from key to object. Every operation of the builder is
  stated on that map, and `LedgerBuilder.Valid` says that every view ever
  published and still held means exactly the map it was published with, and that
  each overlay's owner count is the number of its owners.
* **The stream** (`MetaNodes.dfy`, `NodeEffects.dfy`, `Replay.dfy`, `StreamApply.dfy`,
  `Engine.dfy`, `ApplyProtocol.dfy`, `ApplyProgress.dfy`). One affected node, field by
  field, a log of them, what replaying a log changes, closes and transactions with the
  skip, gap and parent checks, the two threads with their queue, what they can always
  still do, and the engine object whose methods compute the specification. Catching up
  from a snapshot is proved to be exactly-once apply, and a tick to show everything
  applied so far.
* **The order books** (`BookTables.dfy`, `BookProofs.dfy`, `BookChanges.dfy`,
  `EntryBooks.dfy`, `BookCases.dfy`, `OrderBooks.dfy`). Ten tables, changed
  incrementally or rebuilt in a batch; over every run they hold one set of books.
* **Path search** (`SearchBudgets.dfy`, `Sessions.dfy`, `PathSearch.dfy`,
  `PathStages.dfy`, `PathCases.dfy`, `PathSelection.dfy`). Budgets, session deepening
  and the one-job rule, candidate stages, the bounded breadth-first walk, ranking and
  selection.
* **Formats** (`FieldStripper.dfy`, `SerializedValues.dfy`, `NativeAmounts.dfy`,
  `Numerals.dfy`). The recursive field stripper, against an encoder of typed values,
  and the decimal-to-drops conversion, against numbers written out.

`Prelude.dfy` and `LedgerObjects.dfy` hold what the others share.

## What turned out otherwise

Some natural claims are false of the code. The code is kept, a concrete case is
given, and the exact condition is proved.

* *Token tables stay complete.* `removeBookUnlocked` drops a token entry that
  another issuer's book still supports (`TokensCanBeIncomplete`).
  `RemoveBookComplete` proves that a removal keeps the tables complete if and only
  if no surviving open book shares the entry. Soundness always holds.
* *Batch and incremental builds agree.* `setup` adds pools without liquidity,
  `addFromSle` does not (`BatchCanDiffer`). `BatchMatchesIncremental` proves
  agreement, in any visiting order, if and only if every edge of a dead pool is also
  traded by something alive.
* *A tip is the best rate.* True after `setup` (`SetupTipQuality`). After incremental
  loading it is the last rate visited, domain directories included
  (`IncrementalTipQuality`), which can miss the best (`IncrementalTipCanMiss`);
  `IncrementalTipIsBest` says exactly when it does not. A removed domain directory
  leaves its rate behind as the open tip (`DomainTipLingers`).
* *Replay is idempotent.* An offer erased as incomplete in the first run can come back
  with a field that only the erased part of the log set (`ReplayCanDrift`), and a node
  without a type, which only a malformed binary metadata blob can carry, merges into an
  object it could not start the first time (`UnstartedCanDrift`). For logs that keep to
  one kind of object at every key they do not delete, as a ledger index does,
  `ReplayDriftsExactly` proves that replay changes the map if and only if at some such
  key no node zeroes an amount of the offer, the run leaves one, and a field is set up to
  a step that erased it and never again. `Replayable` is built from that condition.
* *Candidate paths are simple.* The two three-hop stages revisit an asset exactly when
  XRP is the source, respectively the destination, or the source is the destination
  (`HubChainsRevisit`). Over the books of `IntoHubRevisits` and `OutOfHubRevisits` every
  stage that is not cut short lists such a chain. The walk's paths are always simple.
* *Nothing touches the ledger while a snapshot loads.* True of queued messages
  (`NoApplyDuringSnapshot`), not of ticks (`TickMayOverlapSnapshot`): a tick overlaps
  a snapshot exactly when it is under way as the snapshot starts
  (`TickOverlapsExactly`).
* *A lost message is made good by a new snapshot.* Messages are lost on overflow, by a
  throwing handler, or while not ready (`StepLosesOnly`). `LossIsRecovered` says
  exactly when a new snapshot must follow: not after an overflow while a snapshot is
  loading, whose end withdraws the request (`OverflowIsNotRecovered`), nor after a throw
  with no resync asked for (`ThrowIsNotRecovered`).
* *The apply loop ends after stop.* With the sync thread gone and nothing more queued it
  ends if and only if `ready` is true or nothing is queued (`StopEndsExactly`), whatever
  batch it holds. The threads can reach a state where it never ends
  (`StuckIsReachable`).
* *Revalidating keeps the alternatives.* A revalidate fails outright when an account is
  no longer valid or the automatic source currencies exceed the depth's cap, and then
  drops them (`RevalidateCanDropAlternatives`); they stay throughout a run if and only
  if no revalidate of it fails (`RevalidatesKeepAlternatives`).

## Reading the model

* Amounts, hashes, keys and timestamps are numbers. A stored object is a kind and a map
  from field to value, or a blob the library cannot parse; a kind carries the fields its
  template admits and requires, because merging a field outside the template throws.
* Every issue with the zero currency is the native asset, `Xrp`.
* Iteration order of hash tables is left open. Throws, failing submits and the continue
  callback are parameters; the callback is its answer to each time it is asked, in
  order. `std::sort` is `Sort`: some ordered rearrangement. RippleCalc is an arbitrary partial function from a path to a rate and
  an amount.
* Type codes, header forms, length prefixes and payload layouts in the stripper are those of
  the XRP Ledger's binary serialization format; an issue of an MPT is its issuer, an all-zero
  account and a sequence, as the source reads it.
* Unsigned 64-bit qualities saturate explicitly. Ledger indexes do not wrap.
* Tests that can never fire in the source (the two hop checks of the walk) are kept and
  proved dead.
* `LiveCount` stands for both `size` functions, which are the same loop.

## Model

| member | source | states |
|---|---|---|
| LedgerStore.UpperBound | src/edgy/memory_ledger.cpp:254 | the split point of ascending keys: all before it are at most the key, all from it on above |
| LedgerStore.MeansOneMap | src/edgy/memory_ledger.cpp:197-205 | a base under an overlay with tombstones stands for one map only |
| LedgerStore.MeansStep | src/edgy/memory_ledger.cpp:446-495 | writing a cell or a tombstone changes that map at its key and nowhere else |
| LedgerStore.LiveCount | src/edgy/memory_ledger.cpp:365-383 | both size functions return the number of live keys, with no underflow |
| LedgerStore.MemoryLedger.FindItem | src/edgy/memory_ledger.cpp:197-205 | the live object at a key, None for missing or tombstoned keys |
| LedgerStore.MemoryLedger.LeastAhead | src/edgy/memory_ledger.cpp:259-299 | the smaller cursor head bounds every live key ahead from below, and is live unless it is a tombstone |
| LedgerStore.MemoryLedger.Succ | src/edgy/memory_ledger.cpp:251-301 | the least live key above `key` and below `last`; None exactly when there is none; the merge ends |
| LedgerStore.MemoryLedger.FirstKey | src/edgy/memory_ledger.cpp:213-220 | the least live key, key zero included; None exactly for an empty ledger |
| LedgerStore.MemoryLedger.Size | src/edgy/memory_ledger.cpp:365-383 | a view's size is the number of its live keys |
| LedgerStore.MemoryLedger.SlesBegin | src/edgy/memory_ledger.cpp:312-317 | starts at the least live key, or at the end of an empty ledger |
| LedgerStore.MemoryLedger.SlesEnd | src/edgy/memory_ledger.cpp:319-323 | the end iterator |
| LedgerStore.SlesIter.Equal | src/edgy/memory_ledger.cpp:79-88 | equal when both ended, or neither and at the same key |
| LedgerStore.SlesIter.Increment | src/edgy/memory_ledger.cpp:90-102 | moves to the next live key, or ends exactly when there is none |
| LedgerStore.MemoryLedger.WalkSles | src/edgy/memory_ledger.cpp:90-102 | iterating from begin until equal to end visits every live key once, ascending |
| LedgerStore.HolderAdded | src/edgy/memory_ledger.cpp:592-599 | a new view adds exactly one owner to the overlay it shares |
| LedgerStore.LedgerBuilder.constructor | src/edgy/memory_ledger.cpp:391-396 | an empty, unfrozen builder with no views |
| LedgerStore.LedgerBuilder.CowOverlay | src/edgy/memory_ledger.cpp:424-431 | afterwards no held view shares the overlay, its cells are the same, and views are untouched |
| LedgerStore.LedgerBuilder.AssignCell | src/edgy/memory_ledger.cpp:456-457 | a frozen builder's write changes its map at the key; every held view keeps its map |
| LedgerStore.LedgerBuilder.FreezeBase | src/edgy/memory_ledger.cpp:433-444 | the base's keys become its sorted key list, without changing any map |
| LedgerStore.LedgerBuilder.Put | src/edgy/memory_ledger.cpp:446-458 | map update at the key; snapshot isolation kept |
| LedgerStore.LedgerBuilder.Erase | src/edgy/memory_ledger.cpp:484-495 | map removal of the key; snapshot isolation kept |
| LedgerStore.LedgerBuilder.Clear | src/edgy/memory_ledger.cpp:497-504 | the empty map over unshared objects; held views keep theirs |
| LedgerStore.LedgerBuilder.Contains | src/edgy/memory_ledger.cpp:506-515 | true exactly for live keys |
| LedgerStore.LedgerBuilder.Clone | src/edgy/memory_ledger.cpp:517-552 | the live object at a key; None for missing or deleted |
| LedgerStore.LedgerBuilder.Size | src/edgy/memory_ledger.cpp:554-574 | the number of live keys |
| LedgerStore.LedgerBuilder.Publish | src/edgy/memory_ledger.cpp:584-600 | the new view means the builder's map and header now; all older views keep theirs |
| LedgerStore.LedgerBuilder.ShareWith | src/edgy/memory_ledger.cpp:592-599 | owner counts stay exact when a view takes a share |
| LedgerStore.LedgerBuilder.Release | src/edgy/memory_ledger.cpp:424-431 | owner counts stay exact when the last reference to a view goes, so the next write may reuse the overlay |
| BookTables.InsertedPair | src/edgy/order_books.cpp:17-37 | a bucket insert adds exactly one pair and leaves no empty bucket |
| BookTables.RemovedPair | src/edgy/order_books.cpp:52-111 | a bucket erase removes exactly one pair and drops an emptied bucket |
| BookTables.TidyEqual | src/edgy/order_books.cpp:52-111 | tables without empty buckets are equal when they hold the same pairs |
| BookProofs.AddBookCoherent | src/edgy/order_books.cpp:17-37 | adding a book keeps all tables coherent, stores the book, and keeps complete token tables complete |
| BookProofs.RemoveBookCoherent | src/edgy/order_books.cpp:52-111 | removing a book keeps reverse, XRP, tip and token tables coherent and the book is gone |
| BookChanges.AddBookExact | src/edgy/order_books.cpp:17-37 | adding a book adds that book and no other, and no tip |
| BookChanges.RemoveBookExact | src/edgy/order_books.cpp:52-111 | removing a book removes that book, its tip and, if open, its token pair's tip; all others stay |
| BookChanges.RemoveUndoesAdd | src/edgy/order_books.cpp:17-111 | removing a book just added restores all eight adjacency tables if and only if the book and, if open, its token entries were new |
| BookProofs.RemoveBookComplete | src/edgy/order_books.cpp:52-111 | a removal keeps the token tables complete if and only if no surviving open book shares the token entry |
| BookCases.TokensCanBeIncomplete | src/edgy/order_books.cpp:52-111 | with two issuers of one currency, removing one's book makes hasBook miss the other's |
| BookProofs.SetQualityCoherent | src/edgy/order_books.cpp:45-50 | setting a tip of a stored book keeps every tip backed by its book |
| BookProofs.AddFromSleCoherent | src/edgy/order_books.cpp:120-191 | adding from any object keeps the tables coherent and complete |
| BookProofs.RemoveFromSleCoherent | src/edgy/order_books.cpp:193-255 | removing for any object keeps the tables coherent |
| EntryBooks.DirectoryBookMeans | src/edgy/order_books.cpp:120-170 | a directory that names two assets and a domain or none is a directory of that book; there is none exactly if a side is missing |
| EntryBooks.ListsMeans | src/edgy/order_books.cpp:120-191 | which books an entry stands for, by its fields: a root page its one book, a pool of two assets both directions, alive or counted as dead, anything else none |
| EntryBooks.RemoveEntryExact | src/edgy/order_books.cpp:193-255 | removing an entry removes exactly its books, with their tips, and every other book and tip stays; what is no removable entry changes nothing |
| EntryBooks.RemoveEntryTips | src/edgy/order_books.cpp:193-255 | the token tips that go with an entry are exactly those of its open books |
| EntryBooks.RemovedIsNotAnswered | src/edgy/order_books.cpp:52-111 | hasBook no longer answers for a removed book, and an open one has no tip left |
| EntryBooks.AddEntryExact | src/edgy/order_books.cpp:120-191 | adding an entry adds exactly its books, dead pools aside, and sets a directory's book tip to its rate |
| EntryBooks.AddEntryTips | src/edgy/order_books.cpp:120-191 | the only token tip an entry sets is that of its directory, to the directory's rate |
| EntryBooks.RunHolds | src/edgy/order_books.cpp:17-390 | over every run of adds, removes, clears and rebuilds exactly the books the operations call for are stored |
| BookProofs.SetupCoherent | src/edgy/order_books.cpp:273-390 | a batch rebuild is coherent and complete |
| BookProofs.RunCoherent | src/edgy/order_books.cpp:17-111 | over every run of adds, removes, clears and rebuilds: reverse tables are transposes, XRP sets exact, no empty bucket, every tip has its book, token tables sound |
| BookProofs.RunComplete | src/edgy/order_books.cpp:52-111 | on runs whose removals share no token entry, the token tables are exactly the currency projection of the open books |
| BookProofs.HasBookMeaning | src/edgy/order_books.cpp:439-457 | hasBook answers for every stored book, in a domain for those only, otherwise for some issuer of the paid token, exactly so when the token tables are complete |
| BookProofs.NeighborsAreBooks | src/edgy/order_books.cpp:510-529 | neighbours are exactly the assets hasBook reaches |
| BookProofs.IntermediatesMeaning | src/edgy/order_books.cpp:459-508 | in a domain exactly the two-hop set; otherwise every exact two-hop asset, and each found asset has a book from the source and one to the destination's token; over complete token tables exactly those |
| BookProofs.BuiltAgree | src/edgy/order_books.cpp:273-390 | the open and domain edges determine all eight adjacency tables |
| BookProofs.AddAllBuilt | src/edgy/order_books.cpp:120-191 | folding addFromSle gives exactly the edges of directories and live pools |
| BookProofs.SetupBuilt | src/edgy/order_books.cpp:273-390 | setup gives exactly the edges of directories and all pools |
| BookProofs.BatchMatchesIncremental | src/edgy/order_books.cpp:120-191 | the fold in any order equals setup if and only if every dead pool's edges are covered, in particular without dead pools |
| BookCases.BatchCanDiffer | src/edgy/order_books.cpp:359-375 | a pool with a zero LP balance is listed by setup and not by addFromSle |
| BookProofs.BestRateIsLeast | src/edgy/order_books.cpp:273-390 | the reference best rate is the minimum over the open directories of the token pair |
| BookProofs.SetupTipQuality | src/edgy/order_books.cpp:531-548 | after setup, tipQuality without a domain is that minimum |
| BookProofs.IncrementalTipQuality | src/edgy/order_books.cpp:531-548 | after the fold, tipQuality is the better of the last rate of the book and of the token pair |
| BookCases.IncrementalTipCanMiss | src/edgy/order_books.cpp:45-50 | of two directories of one book with the worse rate last, the fold keeps the worse one |
| BookCases.IncrementalTipIsBest | src/edgy/order_books.cpp:531-548 | after the fold, tipQuality is the best open rate exactly if no open directory beats the better of the last directory of the pair and of the book, and one has that rate |
| BookProofs.DomainTipLingers | src/edgy/order_books.cpp:45-111 | a domain directory sets the open tip and removing it leaves that tip |
| OrderBooks.LocalOrderBooks.AddOrderBook | src/edgy/order_books.cpp:17-37 | the ten tables become AddBook of the old ones |
| OrderBooks.LocalOrderBooks.SetBookQuality | src/edgy/order_books.cpp:45-50 | the tip tables become SetQuality of the old ones |
| OrderBooks.LocalOrderBooks.RemoveOrderBook | src/edgy/order_books.cpp:52-111 | the ten tables become RemoveBook of the old ones |
| OrderBooks.LocalOrderBooks.AddSle | src/edgy/order_books.cpp:120-191 | the tables become AddFromSle of the old ones; on coherent tables exactly the entry's live books are stored besides |
| OrderBooks.LocalOrderBooks.RemoveSle | src/edgy/order_books.cpp:193-255 | the tables become RemoveFromSle of the old ones; on coherent tables a removable entry's books, and no others, are stored no longer |
| OrderBooks.LocalOrderBooks.Clear | src/edgy/order_books.cpp:257-271 | all ten tables empty |
| OrderBooks.LocalOrderBooks.SetupBooks | src/edgy/order_books.cpp:273-390 | the tables become Setup of the view's objects in key order |
| OrderBooks.LocalOrderBooks.BuildTables | src/edgy/order_books.cpp:287-377 | the loop over the objects computes Setup |
| OrderBooks.LocalOrderBooks.GetHasBook | src/edgy/order_books.cpp:439-457 | hasBook of the tables |
| OrderBooks.LocalOrderBooks.GetBookSize | src/edgy/order_books.cpp:414-428 | the number of assets that books from this one get |
| OrderBooks.LocalOrderBooks.GetTipQuality | src/edgy/order_books.cpp:531-548 | the better of the book's tip and its token's tip |
| OrderBooks.LocalOrderBooks.IsBookToXrp | src/edgy/order_books.cpp:430-437 | on coherent tables, true exactly when there is a book to XRP |
| OrderBooks.LocalOrderBooks.GetNeighbors | src/edgy/order_books.cpp:510-529 | each asset hasBook reaches, once |
| OrderBooks.LocalOrderBooks.GetIntermediates | src/edgy/order_books.cpp:459-508 | each common asset once, whichever set is scanned |
| MetaNodes.ItemsAreIndependent | src/edgy/engine.cpp:80-156 | what a log leaves at a key depends on that key's object and nodes alone |
| MetaNodes.ObjectsAfterConcat | src/edgy/engine.cpp:80-156 | a log applied in two parts |
| MetaNodes.BooksStayCoherent | src/edgy/engine.cpp:80-156 | any log keeps the order books coherent |
| NodeEffects.NodeStores | src/edgy/engine.cpp:118-150 | a created or modified node replaces the fields it names and keeps the others; the object is stored unless it is an offer that lacks an amount, its directory or its owner or has a zero amount; its books are listed exactly if it is complete; and the verdict |
| NodeEffects.NodeIdles | src/edgy/engine.cpp:88-155 | nothing changes exactly for a node without fields, with a field its kind does not admit, or with neither an object nor a type to start from |
| NodeEffects.NodeDeletes | src/edgy/engine.cpp:98-116 | a deletion leaves nothing at the key and unlists the books of the object there, or else of the one the node describes in full |
| Replay.ZeroForgets | src/edgy/engine.cpp:138-146 | once a node sets an amount of an offer to zero, what a log leaves at its key is the same from any start |
| Replay.SurvivesFromAnything | src/edgy/engine.cpp:124-149 | an offer that a log leaves starting from nothing it leaves from any start, unless a node zeroes it |
| Replay.PlainReplay | src/edgy/engine.cpp:80-156 | at a key where the log keeps to one kind and deletes nothing, replay changes the object if and only if it drifts |
| Replay.ReplayDriftsExactly | src/edgy/engine.cpp:80-156 | over whole maps: a log that keeps to one kind at every key it does not delete changes its own result on replay if and only if it drifts at one of them |
| Replay.ReplayIsIdempotent | src/edgy/engine.cpp:80-156 | applying a log again to its own result changes nothing, if every key is deleted, runs cleanly, or keeps to one kind without drifting |
| Replay.ReplayOfSuffix | src/edgy/engine.cpp:80-156 | nor does applying a suffix again that is so from where it starts |
| Replay.CleanIsReplayable | src/edgy/engine.cpp:80-156 | a log that never erases an incomplete offer nor fails to start an object can be replayed from any point on |
| Replay.ReplayCanDrift | src/edgy/engine.cpp:138-146 | a log with an erased incomplete offer whose replay changes the result |
| Replay.UnstartedCanDrift | src/edgy/engine.cpp:124-137 | a log that is never incomplete whose replay still changes the result |
| StreamApply.ChainedUnlessResync | src/edgy/engine.cpp:1075-1140 | for any indexed messages and ticks at all: unless a resync was requested, the closed views published from then on form a chain of consecutive indexes with matching parents |
| StreamApply.TicksShowEverything | src/edgy/engine.cpp:1232-1254 | whatever was delivered, after a tick the newest view holds the builder's objects under its header, and a tick publishes nothing when nothing was applied since |
| StreamApply.TransactionsTakenIn | src/edgy/engine.cpp:1142-1230 | which transactions are applied, what they change, and when they mark the builder as changed |
| StreamApply.ClosesFillIn | src/edgy/engine.cpp:1088-1110 | what a close leaves out comes from the header before |
| StreamApply.CatchUpAppliesOnce | src/edgy/engine.cpp:1075-1230 | for any delivery of the queued stream with stale and repeated messages and ticks, whatever views were published before, the closed views published after the snapshot are the node's ledgers, chained, each over all earlier ledgers applied once |
| StreamApply.EventInStep | src/edgy/engine.cpp:1075-1254 | every event keeps the engine in step with the node's log |
| Engine.ApplyMetaNode | src/edgy/engine.cpp:80-156 | the new map, tables and verdict for every kind of node |
| Engine.RemoveDeleted | src/edgy/engine.cpp:98-116 | the stored object, or the one the node describes, leaves the books |
| Engine.StoreMerged | src/edgy/engine.cpp:138-149 | complete objects are stored and listed; incomplete ones leave the books, incomplete offers the ledger too |
| Engine.ApplyStreamNode | src/edgy/engine.cpp:253-293 | a usable node is applied, a deletion of an unknown type is applied by its index, anything else changes nothing; and exactly one counter goes up, by what became of the node |
| Engine.ApplyJsonAffectedNodes | src/edgy/engine.cpp:160-297 | map and tables are those of the one log that holds what every acting node does, in order and none twice; every counter is the number of its nodes |
| Engine.EffectsAreLog | src/edgy/engine.cpp:235-293 | every list of stream nodes has exactly one such log |
| Engine.AllParsed | src/edgy/engine.cpp:283-293 | when all nodes are usable the log is the nodes |
| Engine.Engine.PublishBuilder | src/edgy/engine.cpp:983-1010 | the published view holds the builder's map, header and open flag |
| Engine.Engine.AdoptClosedHeader | src/edgy/engine.cpp:1080-1113 | the closed header, and a resync exactly on a gap or parent mismatch |
| Engine.Engine.NextHeader | src/edgy/engine.cpp:1092-1110 | header chaining and the resync test |
| Engine.Engine.ApplyLedgerClosed | src/edgy/engine.cpp:1075-1140 | the whole new engine state of a close, skipped ones included |
| Engine.Engine.ApplyTransaction | src/edgy/engine.cpp:1142-1230 | the whole new engine state and order books of a transaction, in terms of that log; changed exactly if an entry of it applied |
| Engine.Engine.MidCloseTick | src/edgy/engine.cpp:1232-1254 | republishes exactly when dirty, with live sessions and workers keeping up |
| Engine.Engine.ApplyBatch | src/edgy/engine.cpp:717-727 | a batch is its messages applied in queue order; the books stay coherent |
| ApplyProtocol.StepIsSafe | src/edgy/engine.cpp:684-725 | every step of either thread keeps snapshot and batch apart, and no tick begins in a snapshot |
| ApplyProtocol.AlwaysSafe | src/edgy/engine.cpp:684-787 | in every interleaving, no batch is held while a snapshot loads |
| ApplyProtocol.NoApplyDuringSnapshot | src/edgy/engine.cpp:656-662 | between waitApplyIdle returning and ready becoming true nothing is applied and ready stays false |
| ApplyProtocol.TickMayOverlapSnapshot | src/edgy/engine.cpp:731-744 | the tick runs outside that exclusion: one can still be running while the next snapshot loads |
| ApplyProtocol.TickOverlapsExactly | src/edgy/engine.cpp:731-787 | a tick runs at some point of a snapshot if and only if one is under way when the snapshot starts |
| ApplyProtocol.StepKeepsOrder | src/edgy/engine.cpp:634-654 | messages leave the queue in order, handled or lost; an overflow empties it |
| ApplyProtocol.MessagesKeepOrder | src/edgy/engine.cpp:634-714 | over every run without overflow, messages leave in the order they were queued |
| ApplyProtocol.StepLosesOnly | src/edgy/engine.cpp:634-654 | a step loses exactly the queue on overflow, the rest of a batch on a throw, a message handled while not ready; nothing else changes what is held |
| ApplyProtocol.NothingVanishes | src/edgy/engine.cpp:634-727 | over every run each message queued is applied, lost, in hand or still queued, once |
| ApplyProtocol.RecoversExactly | src/edgy/engine.cpp:761-787 | the engine cannot become ready with no resync asked for and no new snapshot begun if and only if a resync is pending outside a load or a snapshot has yet to begin |
| ApplyProtocol.LossIsRecovered | src/edgy/engine.cpp:640-651 | when a lost message is followed by a new snapshot: for overflow exactly if none is loading, for a throw exactly if a resync is due anyway or the handler asked for one, else always |
| ApplyProtocol.ThrowIsNotRecovered | src/edgy/engine.cpp:717-727 | a run from the start in which a handler throws on the first message and the engine is ready with no resync asked for |
| ApplyProtocol.OverflowIsNotRecovered | src/edgy/engine.cpp:640-651 | a run from the start in which the queue overflows while the first snapshot loads and the engine becomes ready with no resync asked for |
| ApplyProtocol.StopDrains | src/edgy/engine.cpp:695-714 | over every run after stop that keeps ready and queues nothing: a bounded number of apply steps, exit after them with an empty queue, order kept, batches of at most 256, everything applied unless a handler throws |
| ApplyProtocol.StopEndsExactly | src/edgy/engine.cpp:684-725 | with the sync thread gone and nothing more queued, the apply thread exits if and only if ready is true or nothing is queued, whatever it holds |
| ApplyProtocol.StuckForever | include/edgy/engine.hpp:41-54 | stopped while not ready with messages queued, the loop never exits, in any run that queues nothing |
| ApplyProtocol.StuckIsReachable | src/edgy/engine.cpp:836-847 | the threads can reach that state from the start |
| ApplyProtocol.ExitsExactlyWhenEmpty | include/edgy/engine.hpp:41-54 | the loop exits exactly on waking up stopped with an empty queue |
| ApplyProgress.WakeTakes | src/edgy/engine.cpp:690-714 | a wake-up takes the first 256 messages, or all there are, exactly when ready |
| ApplyProgress.EnqueueTakes | src/edgy/engine.cpp:634-654 | a message is queued unless more than 100000 wait; then the queue is emptied and a resync asked for |
| ApplyProgress.ApplyTakes | src/edgy/engine.cpp:715-727 | a message taken is applied exactly if the engine is ready, and a resync its handler asks for is made |
| ApplyProgress.ResyncsAreMade | src/edgy/engine.cpp:745-834 | after a lost connection, a failed load or a noticed request a new snapshot follows, unless the connection is lost while one loads |
| ApplyProgress.ComesToRest | src/edgy/engine.cpp:656-714 | the apply thread finishes what it holds and comes to rest in a bounded number of its own steps |
| ApplyProgress.QueueCanDrain | src/edgy/engine.cpp:684-727 | while ready it can apply everything held and queued, in order |
| ApplyProgress.ResyncCanComplete | src/edgy/engine.cpp:731-834 | from every safe state that is not stopping a new snapshot can be loaded and the engine be ready with no resync asked for and nothing lost |
| SearchBudgets.ForDepth | src/edgy/graph.cpp:135-186 | every budget has the clamped depth and limits the search can rely on |
| SearchBudgets.DeeperIsWider | src/edgy/graph.cpp:135-186 | a deeper budget narrows no limit |
| SearchBudgets.DepthsMean | src/edgy/graph.cpp:135-186 | the hops, pairs, expansions, source currencies and rank limit of each depth |
| SearchBudgets.DepthFor | src/edgy/graph.cpp:195-222 | the depth stays between the clamped fast and full depths |
| SearchBudgets.AgeDeepens | src/edgy/graph.cpp:195-222 | what age and searches are worth: one level per search, a quarter, half and three quarters of the way from 4, 12 and 25 seconds on and always one level, all of it from 50 seconds on, and nothing beyond |
| SearchBudgets.FixedDepths | src/edgy/graph.cpp:195-206 | a single reply, or a session that may not climb, searches at the full depth |
| SearchBudgets.DepthForMonotone | src/edgy/graph.cpp:195-222 | older and more searched sessions never search shallower |
| Sessions.PathSession.constructor | src/edgy/session.cpp:132-141 | a new session starts at the fast depth |
| Sessions.PathSession.TryBeginUpdate | include/edgy/session.hpp:88-93 | succeeds exactly when no update was in flight |
| Sessions.PathSession.EndUpdate | include/edgy/session.hpp:95-99 | no update in flight |
| Sessions.PathSession.FullSearch | src/edgy/session.cpp:623-630 | the budget searched with, the depth remembered, and the count, also when the search throws |
| Sessions.ShouldDeepenWhen | src/edgy/session.cpp:143-156 | a session at its fast depth should deepen exactly from four seconds plus its stagger on, every session below full depth from fifty seconds on, and one at full depth, closing or with a single reply never |
| Sessions.DeepenCatchesUp | src/edgy/session.cpp:143-156 | a deepen that reaches the search brings the session to the depth its age asked for, and from fifty seconds on to the full depth |
| Sessions.ActivityDeepens | src/edgy/session.cpp:143-156 | despite the stagger, every deepen that reaches the search strictly raises the depth |
| Sessions.DeepensAreBounded | src/edgy/session.cpp:143-156 | over a session's life the depth never falls and at most `search - searchFast`, so at most four, deepens reach the search |
| Sessions.NewSessionDeepens | src/edgy/session.cpp:132-141 | a new session meets what that needs |
| Sessions.AlwaysOneInFlight | include/edgy/session.hpp:88-99 | in every run of notify threads and workers a session is updating exactly while one job is in flight for it, and each begin is ended once, throws included |
| Sessions.BeginsWhenFree | include/edgy/session.hpp:88-93 | an update begins exactly if none is in flight for the session |
| Sessions.JobEnds | src/edgy/engine.cpp:1293-1328 | whatever stage a job is at, its own steps end it and free its session |
| Sessions.NotifyOne | src/edgy/engine.cpp:1284-1329 | when a job is submitted, whether it deepens, and what a throwing submit leaves |
| Sessions.NotifySubscriptions | src/edgy/engine.cpp:1256-1331 | exactly which sessions get a job and which of them deepen in one turn, a session at its fast depth whose time has come among them while there is room, and at most four revalidates deepened |
| Sessions.FewDeepens | src/edgy/engine.cpp:1281-1291 | deepens granted to the first four that want one are at most four |
| Sessions.RevalidatesKeepAlternatives | src/edgy/session.cpp:834-882 | over a run of revalidates alternatives stay listed throughout if and only if none fails |
| Sessions.StaleRepliesAreMarked | src/edgy/session.cpp:844-891 | a stale reply always carries the marker, keeps it over later notices and is never a full one |
| Sessions.UpdateFails | src/edgy/session.cpp:560-605 | an update fails exactly for an invalid account or more automatic source currencies than the budget, or eighteen |
| Sessions.FullSearchReplaces | src/edgy/session.cpp:834-891 | a full search replaces what was listed, and only the line cache puts a notice on its reply |
| Sessions.RevalidateKeepsOrReplaces | src/edgy/session.cpp:834-891 | a revalidate lists what it found; only when that is nothing does a subscription keep its list, marked as stale |
| Sessions.RevalidateCanDropAlternatives | src/edgy/session.cpp:560-605 | seven automatic source currencies at the shallowest depth fail a revalidate and drop the alternatives |
| PathSearch.AddPathKeeps | src/edgy/graph.cpp:71-80 | candidates stay distinct, at most 256, of one to eight hops; a usable path below the limit is added |
| PathSearch.GetPathQuality | src/edgy/graph.cpp:256-270 | the saturated sum of the edge qualities, without wraparound, for hop lists of any length |
| PathSearch.PathQualityMeans | src/edgy/graph.cpp:246-270 | a step costs its better tip, or half the scale if none is known; a path the sum of its steps up to the scale |
| PathSearch.ScanHeads | src/edgy/graph.cpp:280-287 | the direct pair and the pair through XRP exactly when their books exist |
| PathSearch.ScanMids | src/edgy/graph.cpp:289-305 | the pairs through exactly the usable ones of the first k assets; k is the end, or where the limit or the callback stops the scan |
| PathSearch.PairCandidates | src/edgy/graph.cpp:280-312 | the direct and XRP pairs, one pair for each usable asset scanned and nothing else, best score first, the scan going as far as limit and callback allow |
| PathSearch.StageComplete | src/edgy/graph.cpp:289-344 | a stage that fits its limit and is never stopped makes every chain a candidate |
| PathSearch.HubChainsRevisit | src/edgy/graph.cpp:314-344 | a hub chain is simple if and only if XRP is not its source, respectively destination, and the source is not the destination |
| PathSearch.ScanHubMids | src/edgy/graph.cpp:314-344 | the chain of every usable asset among the first k and no other, room permitting; k is the end, or where half the two-hop limit or the callback stops the scan |
| PathSearch.IntoHub | src/edgy/graph.cpp:314-328 | adds the chain mid, XRP, destination of each usable asset scanned and nothing else; the scan goes as far as limit and callback allow |
| PathSearch.OutOfHub | src/edgy/graph.cpp:330-344 | adds the chain XRP, mid, destination of each usable asset scanned and nothing else; the scan goes as far as limit and callback allow |
| PathStages.PairsFill | src/edgy/graph.cpp:280-312 | never stopped, the pair stage lists every pair or the two-hop limit's number of them |
| PathStages.IntoHubFills | src/edgy/graph.cpp:314-328 | never stopped, the stage into the hub lists every chain or half that number, at least one |
| PathStages.OutOfHubFills | src/edgy/graph.cpp:330-344 | the same for the stage out of the hub |
| PathStages.StageAtMost | src/edgy/graph.cpp:289-344 | no stage takes more than that |
| PathCases.IntoHubRevisits | src/edgy/graph.cpp:314-328 | books over which every such stage that is entered, not stopped and left room lists a chain back through its source XRP |
| PathCases.OutOfHubRevisits | src/edgy/graph.cpp:330-344 | the mirror case, with XRP as the destination |
| PathSearch.OrderedNeighbors | src/edgy/graph.cpp:108-131 | each neighbour once, destination and XRP first, the rest by book size |
| PathSearch.TakeStep | src/edgy/graph.cpp:371-378 | one step adds a simple walk or queues a shorter one; the hop check there never fires |
| PathSearch.ExpandFrame | src/edgy/graph.cpp:364-381 | all onward neighbours become walks or queued frames, or `branch` of them, the destination first and bigger books before smaller |
| PathSearch.QueuedNext | src/edgy/graph.cpp:353-383 | frames are expanded shortest first, none queued twice, each after its parent |
| PathSearch.EveryWalkFound | src/edgy/graph.cpp:346-384 | over books within the expansion and branch limits, never stopped, every simple walk within the hop limit is a candidate |
| PathSearch.BreadthFirst | src/edgy/graph.cpp:346-384 | frames are expanded until none is left, the limit is reached or the callback stops it; every path added is a simple walk to the destination that goes on from an expanded frame; at most `expand * branch` additions; the frame length check never fires |
| PathSearch.AllCandidates | src/edgy/graph.cpp:280-390 | each candidate is handed in, a head, a chain through a usable asset scanned, or an expanded frame gone on to the destination, the stages running as far as limits and callback allow; exactly what they can generate, over books within the budget with a callback that never stops |
| PathSearch.RunIsComplete | src/edgy/graph.cpp:280-384 | such a run leaves out nothing the stages can generate |
| PathSelection.RankCandidates | src/edgy/graph.cpp:408-458 | exactly the tried and quoted among the first n candidates get a rank, with distinct currency keys; n is the end, or where limit or callback stops it |
| PathSelection.SameCurrencies | src/edgy/graph.cpp:82-96 | two paths count as the same exactly if they go through the same currencies, whoever issues them |
| PathSelection.FirstsCountKeys | src/edgy/graph.cpp:408-425 | the number of candidates tried is that of different currency sequences |
| PathSelection.SortRanks | src/edgy/graph.cpp:460-468 | a rearrangement by rate, unless all is converted, lower first, then by amount, more first, then length, then index |
| PathSelection.Pick | src/edgy/graph.cpp:470-494 | one pass adds the short, or the longer, ranked paths in order up to the limit |
| PathSelection.Select | src/edgy/graph.cpp:470-508 | the two passes and the remaining ranked paths |
| PathSelection.SelectionIsExact | src/edgy/graph.cpp:470-508 | min(n, 6) distinct paths, short ones first, a longer one only if every short one is in, a prefix of a permutation of all ranked paths |
| PathSelection.SelectedInOrder | src/edgy/graph.cpp:470-494 | of the short paths, and of the longer ones, the selection takes the first in rank order |
| PathSelection.SelectionNoWorse | src/edgy/graph.cpp:460-494 | among short paths as among longer ones no path picked has a worse rate, amount, length or place than a later one or one left out |
| PathSelection.Search | src/edgy/graph.cpp:224-515 | the whole search: how far each stage and the ranking go, what is a candidate, what is ranked, and that the result is the best of it by the rates and amounts quoted, at most six, paths of up to two hops first |
| FieldStripper.HeaderRoundTrip | src/edgy/protocol.cpp:130-132 | a written field header reads back as itself |
| FieldStripper.HeaderIsCanonical | src/edgy/protocol.cpp:130-132 | a header that reads writes back as the bytes it was read from |
| FieldStripper.LengthRoundTrip | src/edgy/protocol.cpp:205-212 | a written length prefix reads back as itself |
| FieldStripper.LengthIsCanonical | src/edgy/protocol.cpp:205-212 | a length that can be written back gives the bytes it was read from, and which lengths cannot |
| FieldStripper.LeafDelimits | src/edgy/protocol.cpp:157-317 | the length of a field-free payload depends on nothing after it |
| FieldStripper.StripBody | src/edgy/protocol.cpp:157-317 | on the encoding of one payload followed by anything, exactly that payload is consumed, and copied filtered or skipped |
| FieldStripper.StripIsFilter | src/edgy/protocol.cpp:319-326 | stripping the encoding of any well-formed tree is the encoding of the tree without its unknown fields at every depth, all input consumed |
| FieldStripper.FilterKeepsKnown | src/edgy/protocol.cpp:149-153 | the filtered tree holds known fields only, and is the tree itself when all were known |
| FieldStripper.KnownFieldsUnchanged | src/edgy/protocol.cpp:319-326 | stripping is the identity when every field is known |
| FieldStripper.StripAgain | src/edgy/protocol.cpp:125-155 | on any accepted input, stray markers and unclosed containers included, what was written reads back as itself |
| FieldStripper.StripIsIdempotent | src/edgy/protocol.cpp:319-326 | stripping twice is stripping once, on every accepted input, and the input is read to its end |
| SerializedValues.ValueDelimited | src/edgy/protocol.cpp:157-317 | for every typed value, serialized without regard to the stripper, the payload measured is exactly the value's bytes, whatever follows |
| SerializedValues.ValueCutShort | src/edgy/protocol.cpp:157-317 | a value cut short throws |
| SerializedValues.OtherTypesThrow | src/edgy/protocol.cpp:314-316 | any other type code throws |
| SerializedValues.StripTypedObject | src/edgy/protocol.cpp:319-326 | stripping a serialized object of typed values, nested to any depth, is serializing it without its unknown fields |
| SerializedValues.StrayMarkersPassed | src/edgy/protocol.cpp:133-148 | an end marker of the other container is passed over without a trace |
| SerializedValues.UnclosedIsTaken | src/edgy/protocol.cpp:125-155 | input that ends inside a container is taken as it is |
| FieldStripper.SerialIter.GetFieldID | src/edgy/protocol.cpp:130-132 | the header at the cursor, or a throw |
| FieldStripper.SerialIter.GetVL | src/edgy/protocol.cpp:208 | the bytes a length prefix announces, or a throw |
| FieldStripper.Serializer.AddVL | src/edgy/protocol.cpp:209-210 | prefix and payload appended; too long a payload throws |
| FieldStripper.CopyBytes | src/edgy/protocol.cpp:114-120 | n bytes consumed, and copied if there is an output |
| FieldStripper.CopyVL | src/edgy/protocol.cpp:205-212 | a length-prefixed payload copied byte for byte, skipped, or a throw |
| FieldStripper.CopyAmount | src/edgy/protocol.cpp:213-246 | an amount in its three layouts copied or skipped |
| FieldStripper.CopyIssue | src/edgy/protocol.cpp:247-263 | an issue in its three layouts copied or skipped |
| FieldStripper.CopyPathSet | src/edgy/protocol.cpp:270-302 | a path set copied or skipped up to its end byte |
| FieldStripper.CopyBridge | src/edgy/protocol.cpp:303-313 | the four fields of a bridge, copied whether or not known |
| FieldStripper.CopyOrSkipPayload | src/edgy/protocol.cpp:157-317 | output, cursor and throw as the specification says, for every type |
| FieldStripper.CopyField | src/edgy/protocol.cpp:149-153 | a known field is copied, an unknown one skipped with everything in it |
| FieldStripper.Walk | src/edgy/protocol.cpp:125-155 | output, cursor and throw as the specification says, for every container |
| FieldStripper.StripUnknownFields | src/edgy/protocol.cpp:319-326 | the stripped blob, or a throw |
| NativeAmounts.XahValueToDrops | src/edgy/protocol.cpp:57-112 | accepts exactly "-1" and the strings that spell a decimal with at most six fraction digits, and returns its drops |
| NativeAmounts.PadAndTrim | src/edgy/protocol.cpp:98-111 | the padding, joining and trimming of the accepted digits |
| NativeAmounts.ReadingIsUnique | src/edgy/protocol.cpp:75-85 | a string spells at most one decimal |
| NativeAmounts.AcceptedIff | src/edgy/protocol.cpp:75-97 | a string spells a decimal exactly when its split passes the checks |
| NativeAmounts.ScaledIsMillionTimes | src/edgy/protocol.cpp:98-102 | scaling to drops is exact: a million times the real value |
| NativeAmounts.DropsAreExact | src/edgy/protocol.cpp:57-112 | every accepted string other than "-1" gives the canonical integer equal to a million times its value |
| NativeAmounts.MinusOneDrop | src/edgy/protocol.cpp:70-74 | the convert-all output "-1" comes otherwise only from the value -0.000001 |
| Numerals.AcceptedStrings | src/edgy/protocol.cpp:70-97 | which strings are taken, character by character |
| Numerals.DropsAreNumerals | src/edgy/protocol.cpp:98-111 | what comes out is the decimal numeral of the scaled magnitude, with its sign unless it is zero |
| Numerals.WrittenOut | src/edgy/protocol.cpp:57-112 | a number of units and millionths written out becomes the numeral of its drops |

## Left out

- Replay.ReplayIsIdempotent: at a key where the log names more than one kind of object, which no ledger index has, its condition suffices but is not shown necessary.
- StreamApply.CatchUpAppliesOnce: ledger hashes are not zero, and the delivery is gap-free and in order up to repeats of the current ledger's last transactions and stale messages; a gap asks for a resync, which `ChainedUnlessResync` covers.
- OrderBooks.LocalOrderBooks.SetupBooks: needs every object of the view to decode; a blob that does not is a null pointer the source does not test for.
- LedgerStore.LedgerBuilder.Clone: gives the stored object; decoding it, and the null for a blob that does not parse, is `MetaNodes.Cloned`.
- PathSelection.Search: RippleCalc sees one path at a time, as in the source, so the sandbox it runs in is not modelled.
- Sessions.PathSession.FullSearch: the `forceFast` branch, which no caller takes, and the loop over source assets.
- Sessions.RevalidatesKeepAlternatives: alternatives are opaque numbers, and the notice for truncated source currencies, which the source can never set, is left out.
- Engine.Engine.ApplyBatch: its handlers do not throw; what a throw drops is `BatchThrows` of the thread model.
- NativeAmounts.XahValueToDrops: integers given as JSON numbers are their decimal strings.
- FieldStripper.CopyOrSkipPayload: the build against the XRPL library; the Xahau build lacks the two signed integer types and the MPT path element.
- Sockets, HTTP and WebSocket serving, reconnecting and proxying (`server.cpp`, `node_client.cpp`, `main.cpp`).
- The snapshot's paging and its decoding of pages (`loadSnapshot`): the state it leaves is where the catch-up theorem starts.
- JSON parsing, hex and hash parsing, base58 and the native-amount rewriting of JSON trees.
- Fees, rules, the decoded-object memo and its mutexes, the fetch of transactions from a view.
- The account-line cache, counters, logging and status replies.
- The worker pool's own queue: jobs are a bag of stages in `Sessions`.
- Choosing the source assets of a search without a given one.

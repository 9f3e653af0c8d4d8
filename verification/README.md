# Clio, modelled and proved in Dafny

Clio keeps every ledger of the XRP Ledger as a versioned key/value state in a database, and serves it
through structures derived from that state: an in-memory cache of the newest ledger, a table of
successors that lists each ledger's keys in order, a record for each order book, and tables of
transactions and NFTs. This project models those structures and proves that they agree with the
plain idea behind them: a map from keys to blobs for each ledger.

`dafny verify dfyconfig.toml` checks the whole project.

## Components

State and tables
- `Wrappers`, `Sequences`, `Ledger`, `Tables`, `Pages`, `Directories`: ledger states, key order, diffs, versioned tables, paging.
- `SimpleCaches`: the cache as a class, each method equated with a function on values.
- `Backends`, `BookOffers`: reads through the cache and the database.

Writing and serving ledgers
- `CacheLoad`, `CacheCursors`: filling the cache in the background while new ledgers arrive.
- `BuildLedger`, `Successors`, `BookIndex`, `Refinement`: one build as methods on the tables, and what it keeps.
- `Services`, `LateRows`, `ServiceRuns`, `ServedBooks`: a server over its whole life. Ledgers are built here or elsewhere, the cache is filled by pages read
  meanwhile, and the process restarts; every read of a committed ledger is that ledger, and every list of a
  book's offers is right.
- `InitialRanges`, `InitialLoad`: downloading a whole ledger over several marker ranges.

Concurrency
- `Runs`: events one after another.
- `Commit`: several writers and the compare-and-set on the stored range.
- `Throttle`: the count of outstanding asynchronous writes.
- `ThreadSafeQueues`, `Pipeline`: extractors, queues and the transformer.

NFTs
- `SetDifferences`, `NFTHelpers`: tokens and owners from transaction metadata.
- `NFTStores`, `Migration`, `MigratedTables`: the NFT tables, the migration, its verifier and what it leaves.

Requests
- `OwnerDirectory`, `TxPaging`, `OrderBook`, `Digits`, `Codecs`.

Where the original changes state step by step, the model is a class or a loop proved against a function on
values, and the properties are lemmas about that function. Where threads or processes interleave, the model is a
set of steps and the properties hold in every state that any sequence of steps reaches.

## What is taken for granted

- A prepared query is its WHERE, ORDER and LIMIT. A table is a map from a key and a sequence to a value.
- A diff is honest (`HonestDiff`): keys are distinct and lie between the two sentinels, and an object marked
  modified existed before and still does. Neighbours sent along are the true ones (`HonestNeighbors`). Where the
  builder asserts that the cache knows an object or a book's successor, that is a precondition (`CacheKnows`).
- The books sent along with a ledger are those whose first directory it changes (`HonestBook`).
- Rows of a ledger that have landed when it is committed are rows of that ledger (`EarlierRowsTrue`), and so are
  those that land later (`LandsLate`); a book's base is no object's key. Another process that builds without
  neighbours has a full cache of its own (`WriterReady`).
- In a run of `Services` a ledger that the cache has passed is published again only while it is still so
  (`StillSo`), as the newest one always is; `PublishKeepsIffStillSo` says that nothing less will do.
- Between the bounds of a book only its directories have keys (`PureBook`); directory pages have distinct keys.
- Sequences do not wrap around.
- A server asked for a ledger answers with the keys above a marker up to the one it returns (`HonestResponse`).
- Transaction metadata lists each changed NFT page once (`HonestNodes`). In burns and accepted offers a token is on
  one page.
- Only a mint brings a token to a page, with its URI (`TrueStep`); an ID is minted at most once in a ledger, and
  every mint is listed in `nf_token_transactions` (`HonestHistory`).
- Every entry of an owner directory is listed once, and the chain of pages ends.
- Rounded quotients and products of amounts do not cross the amount itself (`Rounds`); exact ones satisfy this.
- Sixty-four hexadecimal digits make an index, and decimal digits below 2^64 make a hint. The library functions
  that read them are not part of this model.

## Where the code does less than it seems to

Each of these is proved, with the exact condition under which it happens or an input for which it does, and mostly both.

- A live key equal to a marker is lost by the initial download (`ListIsCompleteIffNoMarkerIsLive`, `LiveMarkerIsLost`).
- No record of a book is ever written by the initial download (`BookRecordsAreMissing`); it is put right when a build
  notices the book (`BuildKeepsBooks`).
- A queue holds one element more than the maximum its comment gives (`BuildsInOrder`, `QueueBoundIsReachedIff`).
- The number of outstanding writes can pass its limit by the number of threads less one, and a thread between the
  check and the count is not waited for (`SyncMeansFinished`, `BoundIsReached`, `SyncPassesAdmitted`).
- Publishing does not ask what came before. A publication queued while this process was writing, and taken up when it
  has stopped, sets the process's own range back (`RangeGoesBackIff`, `PublishedTooLate` of `Commit`) and may bring a
  deleted key back into the cache or lose a live one (`AgainKeepsIffStillSo`, `PublishedTooLate` of `CacheLoad`).
- After a timeout a writer may be told that it failed although its own update was applied, or that it committed
  although another's was (`AnswersAreExplained`, `RefusedYetCommitted`, `AcceptedButNotOwn`).
- The owner of a burnt token is missed when its page was deleted after a change to other fields
  (`BurnOwnerIsRecovered`, `BurnOwnerCanBeMissed`).
- A directory page number beyond 32 bits breaks the cursor (`ResumesIffHintFits`, `WideHintIsLost`).
- The check for a global freeze asks twice about the side sold (src/rpc/RPCHelpers.cpp:1270-1272) where the comment
  speaks of either (`FreezeHoldsIffNotInAlone`, `FundedAlthoughInIsFrozen`).
- A forward transaction request with a marker before the ledgers asked for shows the rows in between
  (`OnlyRangeIffStartsThere`, `MarkerBeforeRange`).

## Model

| member | source | states |
|---|---|---|
| Tables.SelectLatestRow | src/backend/CassandraBackend.cpp:1528-1532 | the row looked up is the one with the greatest sequence at or below the bound, and there is none only when no such row exists |
| Tables.InsertAnyOrder | src/backend/CassandraBackend.cpp:40-124 | rows that agree give the same table in whatever order, and however often, they land |
| SimpleCaches.SimpleCache.constructor | src/backend/SimpleCache.h:46-53 | a new cache is empty, neither full nor disabled, and at sequence 0 |
| SimpleCaches.SimpleCache.Update | src/backend/SimpleCache.cpp:31-66 | a batch changes the whole cache as `Updated` says: newest wins, empty blobs delete, tombstones are kept only by the foreground before the cache is full and stop the background; the sequence never goes back, and a disabled cache never changes |
| SimpleCaches.SimpleCache.Get | src/backend/SimpleCache.cpp:100-113 | a hit exactly for an entry no newer than the sequence asked for, which is no newer than the cache |
| SimpleCaches.SimpleCache.GetSuccessor | src/backend/SimpleCache.cpp:70-83 | a neighbour exactly from a full cache at its newest sequence, when there is one: the least entry above the key |
| SimpleCaches.SimpleCache.GetPredecessor | src/backend/SimpleCache.cpp:86-97 | likewise, the greatest entry below the key |
| SimpleCaches.SimpleCache.SetFull | src/backend/SimpleCache.cpp:122-130 | marks the cache full and forgets the tombstones, unless it is disabled |
| SimpleCaches.SimpleCache.SetDisabled | src/backend/SimpleCache.cpp:116-119 | disables the cache and changes nothing else |
| SimpleCaches.UpperBound | src/backend/SimpleCache.cpp:75-82 | the entry found is the least one strictly above the key |
| SimpleCaches.BeforeLowerBound | src/backend/SimpleCache.cpp:91-96 | the entry found is the greatest one strictly below the key |
| SimpleCaches.StoreAllTouched | src/backend/SimpleCache.cpp:44-65 | what becomes of each key of a batch, independent of the other keys |
| SimpleCaches.StoreAllUntouched | src/backend/SimpleCache.cpp:44-65 | keys outside a batch keep their entries |
| CacheLoad.InitKeeps | src/etl/ReportingETL.cpp:1125-1151 | the cursors picked cut the key space into ranges that cover every key of the ledger loaded |
| CacheLoad.CursorsCover | src/etl/ReportingETL.cpp:1147-1150 | every live key lies in one of the cursor ranges (c_i, c_{i+1}] |
| CacheLoad.ForegroundKeeps | src/backend/SimpleCache.cpp:31-66 | a foreground ledger, and an earlier one applied again while it is still so, keep the loading invariant: no deleted key comes back and no newer entry is overwritten |
| CacheLoad.AgainKeepsIffStillSo | src/etl/ReportingETL.cpp:179-195 | any ledger already passed, published again into a loading or a full cache, leaves it right if and only if no key it wrote has been deleted since and none it deleted is back |
| CacheLoad.StaleObject | src/etl/ReportingETL.cpp:179-195 | otherwise a deleted key is read as if it were live, or a live one is lost |
| CacheLoad.PublishedTooLate | src/etl/ReportingETL.cpp:179-195 | an exact cache, and an earlier ledger whose publication brings a deleted key back |
| CacheLoad.RetireKeeps | src/etl/ReportingETL.cpp:1185-1197 | a task that ends keeps the invariant, and the last one makes the cache full and exact |
| CacheCursors.PickCursors | src/etl/ReportingETL.cpp:1103-1132 | the cursors ascend and are exactly the keys that a recent ledger wrote and none of those ledgers deleted |
| CacheCursors.SortDiffSorts | src/etl/ReportingETL.cpp:1115-1118 | the sort orders by key and then by blob size, for any measure of blobs, and loses nothing |
| CacheCursors.CursorsAreLive | src/etl/ReportingETL.cpp:1103-1132 | every cursor picked from consecutive diffs is live at the ledger loaded |
| Backends.Backend.FetchLedgerObject | src/backend/BackendInterface.cpp:80-101 | the object at the sequence, whether the cache or the database answers |
| Backends.Backend.ReadCache | src/backend/BackendInterface.cpp:110-120 | cache hits in place, and the misses listed in order: exactly what the cache does not answer is asked of the database |
| Backends.Backend.FetchLedgerObjects | src/backend/BackendInterface.cpp:103-137 | each result is aligned with its key for every pattern of hits and misses |
| Backends.FillHoles | src/backend/BackendInterface.cpp:123-134 | database results go to the empty places in order, which is right because the cache never holds an empty blob |
| Backends.Backend.FetchSuccessorKey | src/backend/BackendInterface.cpp:139-151 | the true successor of a live key or of the start, from either source |
| Backends.Backend.ListKeys | src/backend/BackendInterface.cpp:272-286 | the next keys in order, and whether the end was reached |
| Backends.Backend.FetchLedgerPage | src/backend/BackendInterface.cpp:262-310 | a page is the next objects in key order with the cursor of the last key, in both modes |
| Pages.PagingIsLossless | src/backend/BackendInterface.cpp:262-310 | following cursors lists every key once, with the objects that exist |
| Pages.InOrderPagingIsTheLedger | src/backend/BackendInterface.cpp:262-310 | in order, paging yields exactly the live objects, ascending, and ends |
| Pages.OutOfOrderPagingIsWhatIsListed | src/backend/BackendInterface.cpp:262-310 | out of order, paging yields the objects of the ledger whose keys the newest ledger lists, ascending, and nothing for the keys it does not have |
| Pages.PageCovers | src/backend/BackendInterface.cpp:262-310 | a page holds every live key up to its cursor, or every live key there is; it has a cursor, its last key, exactly when it is full |
| BookOffers.ReadDirectory | src/backend/BackendInterface.cpp:208-229 | pages of one quality are read whole until there are enough keys |
| BookOffers.NextOfferDir | src/backend/BackendInterface.cpp:196-207 | the next directory of the book is the next live key before the book's end |
| BookOffers.FetchBookOffers | src/backend/BackendInterface.cpp:171-260 | the first `limit` offers of all directories of the book, best quality first, each page in order |
| BookOffers.OffersInOrder | src/backend/BackendInterface.cpp:194-229 | the list the offers are taken from goes directory by directory, best quality first, page by page and index by index, and is as long as all the pages together |
| BookOffers.OffersAreOnPages | src/backend/BackendInterface.cpp:208-223 | an offer is on that list if and only if some page of some directory of the book holds it |
| BuildLedger.Builder.WriteNeighbors | src/etl/ReportingETL.cpp:322-381 | the successor rows written from neighbours sent along |
| BuildLedger.Builder.WriteObjects | src/etl/ReportingETL.cpp:382-445 | every object is written; the keys modified and the books to recalculate are exactly those of the diff, and a stale cache stops the build |
| BuildLedger.Builder.CheckBook | src/etl/ReportingETL.cpp:405-437 | a book is recalculated when its first directory goes or a better one comes |
| BuildLedger.Builder.WriteCacheEdges | src/etl/ReportingETL.cpp:456-494 | the successor rows written from the updated cache |
| BuildLedger.Builder.WriteBooks | src/etl/ReportingETL.cpp:495-520 | each such book gets its first directory, or the end |
| BuildLedger.Builder.BuildNextLedger | src/etl/ReportingETL.cpp:307-543 | the whole new state of tables and cache, exactly when it succeeds, in terms of the old cache and the ledger alone, what becomes of the cache when it does not, and that rows of other ledgers are untouched either way |
| BuildLedger.BuildsIff | src/etl/ReportingETL.cpp:382-454 | with neighbours a build never fails; without, it succeeds if and only if the cache is full, not ahead and taking updates, and, when an object comes or goes, exactly one ledger behind; a failed build leaves the cache alone only when it is stale |
| Successors.WalkIsLedger | src/backend/CassandraBackend.cpp:823-845 | following records from the start visits the live keys in ascending order and then the end |
| Successors.MirrorStep | src/etl/ReportingETL.cpp:446-446 | a full cache stays equal to the newest ledger over a diff |
| Successors.NeighborEdgesAreLedgerEdges | src/etl/ReportingETL.cpp:339-377 | given true neighbours, the rows of the first branch are those of the new ledger |
| Successors.CacheEdgesAreLedgerEdges | src/etl/ReportingETL.cpp:456-494 | the rows of the second branch are those of the new ledger |
| Successors.WrittenOrSame | src/etl/ReportingETL.cpp:446-494 | every live key gets a row or keeps its successor, for any mix of creations, deletions and modifications |
| Successors.WrittenIffChanged | src/etl/ReportingETL.cpp:456-494 | a key that is live afterwards gets a row if and only if it is new or its successor has changed |
| Successors.BuildKeepsChain | src/etl/ReportingETL.cpp:322-494 | after a build by either branch the newest row of every live key is its true successor |
| Successors.BuildKeepsOlderChains | src/backend/CassandraBackend.cpp:1528-1532 | the lists of older ledgers stay true |
| Successors.ChainAtEveryLedger | src/etl/ReportingETL.cpp:322-494 | over every run of builds the table lists the live keys of every ledger so far |
| Successors.BranchesAgree | src/etl/ReportingETL.cpp:322-381 | both branches answer every live lookup at every sequence alike |
| Successors.WriteOrderIsIrrelevant | src/backend/CassandraBackend.cpp:237-260 | the list and book rows of one build, by either branch, never contradict each other, so in whatever order and however often they land the table is the same |
| BookIndex.FirstChangeNoticed | src/etl/ReportingETL.cpp:405-437 | a directory that comes or goes at or before a book's first place marks the book |
| BookIndex.BuildKeepsBooks | src/etl/ReportingETL.cpp:495-520 | by either branch a book's record is right after a build if it was right before, or if the build notices the book, whatever the record was: its best directory, or at or past the book's end if it is empty |
| BookIndex.FirstUnchanged | src/etl/ReportingETL.cpp:405-437 | a book that is not noticed keeps its first directory or its emptiness |
| BookIndex.NoticedIffFirstChanges | src/etl/ReportingETL.cpp:405-437 | exactly the books whose first directory changes are recalculated |
| BookIndex.BooksAtEveryLedger | src/etl/ReportingETL.cpp:322-520 | over every run of builds a record that is right once, or whose book is noticed once, is right at every ledger since, older ones included |
| Refinement.BuildKeepsObjects | src/etl/ReportingETL.cpp:387-445 | the objects table serves the new ledger, and every older one as before |
| Refinement.EitherMayAnswer | src/backend/BackendInterface.cpp:80-151 | over tables that serve a ledger, a sound cache may answer in their place |
| Services.StepKeeps | src/etl/ReportingETL.cpp:1093-1206 | every step of a server keeps the invariant: building, building again, publishing a ledger that is new to the cache or still so, committing here or elsewhere, rows landing early or late, reading and storing pages for the cache, and starting over |
| Services.StoreKeeps | src/etl/ReportingETL.cpp:1164-1184 | a page whose reads were spread over time, through the partly filled cache and the tables, goes into the cache without harm |
| Services.ReadIsPage | src/backend/BackendInterface.cpp:262-310 | such a page is the page of the ledger being loaded |
| Services.StartsOverKeeps | src/etl/ReportingETL.cpp:1093-1151 | starting over existing tables with the cursors picked from recent diffs establishes the invariant, every cursor being live |
| Services.DownloadStarts | src/etl/ETLSource.cpp:808-872 | a finished initial download is a start, too |
| Services.BeganTrue | src/etl/ReportingETL.cpp:395-454 | a build that goes by this process's own cache has a cache equal to the ledger before |
| Services.CommitKeeps | src/etl/ReportingETL.cpp:307-543 | a ledger committed by any process is served, and every older one as before |
| Services.LandLateKeeps | src/backend/CassandraBackend.cpp:40-124 | rows that land when their ledger is already committed disturb no ledger |
| LateRows.BuildLandsLate | src/etl/ReportingETL.cpp:322-520 | any part of the rows of any process's build of a ledger, in any order, may land so |
| LateRows.LateServes | src/backend/CassandraBackend.cpp:1528-1532 | lookups at every ledger find what they found, or a late row that says the same |
| Services.PublishKeepsIffStillSo | src/etl/ReportingETL.cpp:179-195 | publishing a ledger that the cache has passed keeps the invariant if and only if it is still so |
| Services.ReadsServeHistory | src/backend/BackendInterface.cpp:80-151 | at every moment of every run, while the cache is loading, ledgers are being written and rows of lost races still land, objects and successors of every committed ledger are read as that ledger has them |
| Services.PagesServeHistory | src/backend/BackendInterface.cpp:262-310 | a page of a committed ledger is that ledger's page even if ledgers are built, the cache is loaded or the process restarts between its reads |
| Services.FullCacheIsLatestLedger | src/etl/ReportingETL.cpp:1093-1206 | over every run the cache is full exactly when all its tasks are done, and is then, object for object and with true neighbours, the newest ledger given to it |
| ServiceRuns.SomeRunBuilds | src/etl/ReportingETL.cpp:1093-1206 | a run from starting over, through reading, storing and retiring, to a ledger built from the full cache and committed |
| ServiceRuns.SomeRunBuildsWithNeighbors | src/etl/ReportingETL.cpp:299-381 | a run that builds a ledger from neighbours and commits it while the cache has not read a page |
| ServedBooks.BookServesHistory | src/etl/ReportingETL.cpp:322-520 | over every run a book's record is right at every committed ledger since it was right or a build noticed the book, late rows included |
| ServedBooks.FetchServedOffers | src/backend/BackendInterface.cpp:171-260 | at every moment of every run a request for a book's offers at such a ledger gets the first of them, best quality first |
| InitialLoad.GetMarkers | src/etl/ETLHelpers.h:176-192 | markers are strictly increasing from zero, equally far apart, and hold only a first byte |
| InitialLoad.Loader.constructor | src/etl/ETLSource.cpp:581-611 | each range ends where the next begins, and the last has no end |
| InitialLoad.Loader.WriteObjects | src/etl/ETLSource.cpp:664-696 | the objects of a response that belong to the range are written and linked, the others skipped |
| InitialLoad.Loader.Process | src/etl/ETLSource.cpp:614-697 | the whole change one response makes: range, tables and cache |
| InitialLoad.Loader.Download | src/etl/ETLSource.cpp:768-805 | responses in any order keep the download consistent, and the last key of each finished range is noted |
| InitialLoad.Loader.WriteEdges | src/etl/ETLSource.cpp:815-826 | keys at the end of a range get their record from the cache |
| InitialLoad.Loader.WriteBook | src/etl/ETLSource.cpp:840-862 | no book record is written for a directory that is in the cache |
| InitialLoad.Loader.WriteEnds | src/etl/ETLSource.cpp:827-872 | the first and last records are written and every live key has one |
| InitialLoad.LoadInitialLedger | src/etl/ETLSource.cpp:731-883 | for any number of markers and any order of responses, objects, successor list and cache are exactly those of the ledger downloaded; it is finished exactly when every range has had a response without a marker or with one past its end |
| InitialLoad.ListIsCompleteIffNoMarkerIsLive | src/etl/ETLSource.cpp:587-594 | the list is the source ledger's own if and only if no live key equals a marker |
| InitialLoad.LiveMarkerIsLost | src/etl/ETLSource.cpp:587-594 | a ledger whose one key equals a marker is not listed |
| InitialLoad.ObjectsAreServed | src/etl/ETLSource.cpp:686-689 | the objects written answer every lookup with the downloaded state |
| InitialLoad.BookRecordsAreMissing | src/etl/ETLSource.cpp:840-862 | a book's record is right after the download if and only if the book has no directory, because the guard looks up the directory itself |
| InitialRanges.FirstByteTellsEnd | src/etl/ETLSource.cpp:651-672 | comparing first bytes compares with the end of the range |
| InitialRanges.KeptIsPrefix | src/etl/ETLSource.cpp:668-672 | exactly the objects of a final response at or past the next prefix are skipped |
| InitialRanges.AdvanceKeepsLoading | src/etl/ETLSource.cpp:662-693 | one response keeps objects, records and cache in step with what has been downloaded |
| InitialRanges.SameInRange | src/etl/ETLSource.cpp:587-594 | only keys equal to a marker are lost |
| InitialRanges.AllReached | src/etl/ETLSource.cpp:750-805 | every other key is in a range |
| Commit.StepKeeps | src/backend/CassandraBackend.h:759-786 | every step of every writer keeps the invariant; the stored sequence moves by one exactly when an update is applied, and a process's own range moves back exactly when it publishes an older ledger |
| Commit.RunKeeps | src/backend/CassandraBackend.h:1172-1227 | over every run the stored sequence has moved once per applied update |
| Commit.CommittedLedgersAreComplete | src/backend/CassandraBackend.h:759-786 | at every moment all ledgers up to the stored one are complete, and a writer told that it committed has a complete ledger not past the stored one |
| Commit.CommittedOnce | src/backend/CassandraBackend.cpp:1690-1695 | each ledger gained is committed by exactly one update, whoever raced for it |
| Commit.WriterStep | src/backend/BackendInterface.h:246-255 | a process's own range never passes the stored one, and one step moves it back exactly when a ledger older than it is published |
| Commit.RangeGoesBackIff | src/backend/BackendInterface.h:246-255 | over every run the assertion in updateRange fails at just those moments when a process publishes a ledger older than its range |
| Commit.PublishedTooLate | src/etl/ReportingETL.cpp:705-711 | from idle processes a run in which a process commits two ledgers, publishes the first of them last, and its range goes back |
| Commit.AnswersAreExplained | src/backend/CassandraBackend.h:1172-1227 | over every run: a writer told true has its ledger committed, by its own update unless an attempt timed out; one told false has had its own update applied if and only if an attempt timed out and that update landed late, the stored sequence having gone past its ledger when it looked; without a timeout the answer is the truth |
| Commit.LateLanding | src/backend/CassandraBackend.h:1207-1224 | a ledger was gained by a late update exactly when that update landed |
| Commit.RefusedYetCommitted | src/backend/CassandraBackend.h:1207-1224 | from two idle processes a run in which a writer is told that it failed although its own update was applied |
| Commit.AcceptedButNotOwn | src/backend/CassandraBackend.h:1207-1224 | and one in which a writer is told that it committed although another's update was applied |
| Throttle.StepKeeps | src/backend/CassandraBackend.h:1054-1138 | the counter is exactly the writes counted and not sent plus those in flight, and never goes below zero |
| Throttle.SyncMeansFinished | src/backend/CassandraBackend.h:1038-1044 | sync returns exactly when no write is in flight and none that is counted is still to be sent, and the limit is passed by fewer writes than there are threads |
| Throttle.SyncPassesAdmitted | src/backend/CassandraBackend.h:1054-1067 | a thread that is past the check and not yet counted is not waited for |
| Throttle.RunKeeps | src/backend/CassandraBackend.cpp:40-124 | retries leave the accounts as they are |
| Throttle.BoundIsReached | src/backend/CassandraBackend.h:1054-1067 | for any limit and number of threads some run reaches the limit plus threads minus one |
| ThreadSafeQueues.ThreadSafeQueue.Push | src/etl/ETLHelpers.h:121-143 | adds at the end; the queue stays within one more than its maximum |
| ThreadSafeQueues.ThreadSafeQueue.Pop | src/etl/ETLHelpers.h:145-157 | takes the first element and leaves room |
| ThreadSafeQueues.ThreadSafeQueue.TryPop | src/etl/ETLHelpers.h:158-171 | likewise, or nothing when the queue is empty |
| Pipeline.PoppedIsNext | src/etl/ReportingETL.cpp:669-680 | the item popped for a sequence is that ledger, or its extractor has stopped there |
| Pipeline.HeadStep | src/etl/ReportingETL.cpp:592-595 | taking from the queue whose turn it is moves that queue's head on by the number of extractors |
| Pipeline.StepKeeps | src/etl/ReportingETL.cpp:597-735 | every step of extractors and transformer keeps the queues in step |
| Pipeline.BuildsInOrder | src/etl/ReportingETL.cpp:610-713 | for every interleaving the ledgers built are start, start + 1, ... without gap, none past the last, and each queue holds at most its size plus one |
| Pipeline.BuildsExactly | src/etl/ReportingETL.cpp:618-680 | with a last ledger, and no conflict, stop or failed fetch, exactly [start, finish] is built |
| Pipeline.SomeRunEnds | src/etl/ReportingETL.cpp:597-735 | for any number of extractors and any range some run ends so |
| Pipeline.QueueBoundIsReachedIff | src/etl/ETLHelpers.h:119-130 | for any range some run fills a queue to its maximum plus one if and only if some extractor has as many ledgers as the maximum |
| SetDifferences.SetDifference | src/etl/NFTHelpers.cpp:112-120 | the difference, taken by one pass over two sorted lists, is their difference as multisets |
| SetDifferences.Sort | src/etl/NFTHelpers.cpp:112-113 | sorting orders the IDs and keeps them all |
| NFTHelpers.CollectIds | src/etl/NFTHelpers.cpp:37-110 | the IDs before and after of the pages whose tokens changed, and the first page seen |
| NFTHelpers.GetNFTokenMintData | src/etl/NFTHelpers.cpp:29-134 | a token exactly when the difference is one ID and some page was seen; an error exactly when a page lacks its previous fields, there is no page, or not just one ID was gained |
| NFTHelpers.FinalIdsAre | src/etl/NFTHelpers.cpp:44-84 | an ID counts as held afterwards exactly when a page created, or with changed tokens, holds it |
| NFTHelpers.PreviousIdsAre | src/etl/NFTHelpers.cpp:63-84 | and as held before exactly when a page that was not created says so of its changed tokens |
| NFTHelpers.NodesBalance | src/etl/NFTHelpers.cpp:45-110 | what the listed nodes gain is what all pages gain, for splits, new pages and link-only changes |
| NFTHelpers.MintIsRecovered | src/etl/NFTHelpers.cpp:29-134 | for any mint of one token the result is that token and the owner of the pages |
| NFTHelpers.GetNFTokenBurnData | src/etl/NFTHelpers.cpp:136-200 | the owner of the first page whose earlier tokens hold the burnt one, or an error if none does |
| NFTHelpers.BurnOwnerIsRecovered | src/etl/NFTHelpers.cpp:163-174 | the owner is found, whatever the order of nodes, if and only if the page was not deleted with previous fields that lack its tokens |
| NFTHelpers.BurnOwnerCanBeMissed | src/etl/NFTHelpers.cpp:163-174 | honest metadata for which the owner is not found |
| NFTHelpers.GetNFTokenAcceptOfferData | src/etl/NFTHelpers.cpp:202-305 | the accepted offer's token, with the buy offer's owner or the first other holder; an error otherwise; a buy offer is preferred when both are given |
| NFTHelpers.NewHolderIsRecovered | src/etl/NFTHelpers.cpp:261-299 | after a sale without a buy offer the owner found owns the page that gained the token |
| NFTStores.NFTStore.WriteNFTs | src/backend/CassandraBackend.cpp:386-445 | every record is written to the token table, and those with a URI, and no others, to the URI and issuer tables |
| NFTStores.NFTStore.FetchNFT | src/backend/CassandraBackend.cpp:620-656 | the newest record at or below the sequence with the newest URI, empty if there is none |
| NFTStores.UriRow | src/backend/CassandraBackend.cpp:409-443 | a URI row holds what one of its records says, and others are untouched |
| NFTStores.TokenRow | src/backend/CassandraBackend.cpp:390-405 | a token row holds the owner and the burn flag that one of its records says, and others are untouched |
| NFTStores.LastRecordStays | src/backend/CassandraBackend.cpp:386-445 | of several records for one row the last one stays, in both tables |
| NFTStores.ReadAfterWriting | src/backend/CassandraBackend.cpp:620-656 | a token read after writing has the owner and the burn flag last written, unless a newer row is there |
| NFTStores.UrisInAnyOrder | src/backend/CassandraBackend.cpp:386-445 | records that agree may be written in any order and more than once |
| Migration.Migrator.DoNFTWrite | src/main/main.cpp:26-40 | writes the whole batch and leaves nothing |
| Migration.Migrator.MaybeDoNFTWrite | src/main/main.cpp:41-50 | writes only batches of 10000 or more |
| Migration.Migrator.Collect | src/main/main.cpp:191-195 | each record collected is written once, in order, or still waits |
| Migration.Migrator.StepOne | src/main/main.cpp:120-205 | exactly the mints up to the newest ledger are written, once each, in full batches but for the last; it fails exactly when one of them was unsuccessful or its metadata cannot be read |
| Migration.Migrator.StepTwo | src/main/main.cpp:208-247 | exactly the tokens on pages of the oldest ledger are written, once each |
| Migration.Migrator.DoMigration | src/main/main.cpp:275-306 | both steps, or nothing when there is no ledger range |
| Migration.Migrator.VerifyNFTs | src/main/verify.cpp:76-113 | accepts exactly when each token has a row at or below the ledger and its newest URI row, or an empty URI if there is none, is the URI given |
| Migration.Migrator.DoVerification | src/main/verify.cpp:128-176 | accepts exactly when every token on a page of the newest ledger has a row and the page's URI as its newest one; one wrong or missing URI is enough to reject |
| Migration.MigratedRow | src/main/main.cpp:140-247 | after both steps the URI row of a ledger after the oldest one is that of its mint, if and only if there is one, and the oldest ledger's rows are its pages' |
| Migration.UriIsCurrent | src/backend/CassandraBackend.cpp:647-653 | at every ledger of the range the newest URI row of a token on a page is that page's URI |
| Migration.HonestIsTraced | src/etl/NFTHelpers.cpp:29-134 | the mints that the code recovers from the metadata of a history's page changes tell where every URI on a page comes from |
| Migration.MigrationMeetsVerifier | src/main/verify.cpp:87-109 | for every history of page maps, changed by transactions with true metadata, no mint is unreadable, and each token on a page of the newest ledger, re-minted and pre-start ones included, has a row and that page's URI, which is what the verifier accepts |
| Migration.MigrateAndVerify | src/main/verify.cpp:128-176 | the two programs in turn: the second accepts |
| Migration.MintRecordsAreMints | src/main/main.cpp:179-191 | the records of step 1 are the tokens that the ledgers' mints added to pages, no more and no fewer |
| Migration.PageRecordsAreTokens | src/etl/NFTHelpers.cpp:393-416 | the records of a ledger are the tokens on its pages, no more and no fewer |
| Migration.VerifiedAreTokens | src/main/verify.cpp:76-176 | to verify the records of a ledger is to compare every token on its pages with the tables |
| MigratedTables.MintRecordsInFull | src/main/main.cpp:179-191 | the records of step 1 for a ledger are its mints: token, ledger, URI, unburnt, and the account whose page holds the token afterwards |
| MigratedTables.PageRecordsInFull | src/etl/NFTHelpers.cpp:393-416 | the records of a page: each token with its URI, unburnt, and the page's owner |
| MigratedTables.OneRecordForEachToken | src/etl/NFTHelpers.cpp:393-416 | there are as many records as tokens on the pages |
| MigratedTables.OneRecordForEachMint | src/main/main.cpp:179-191 | and as many as mints up to the newest ledger |
| MigratedTables.MigratedToken | src/main/main.cpp:140-247 | after both steps the token rows of the range are those of the mints and of the oldest ledger's pages, each with the account that held the token; later rows without a mint are as before |
| MigratedTables.MigratedIssued | src/backend/CassandraBackend.cpp:409-443 | the tokens listed under their issuers are those listed before, those minted up to the newest ledger and those on pages of the oldest one, no more and no fewer |
| MigratedTables.EveryTokenIsIssued | src/main/main.cpp:140-247 | every token on a page of any ledger of the range is listed under its issuer |
| OwnerDirectory.ScanPage | src/rpc/RPCHelpers.cpp:786-802 | the entries of a page after the marker, up to the limit |
| OwnerDirectory.WalkPages | src/rpc/RPCHelpers.cpp:772-852 | the entries from a page to the end, up to the limit, and the cursor of the last one |
| OwnerDirectory.TraverseOwnedNodes | src/rpc/RPCHelpers.cpp:724-877 | the whole result of a call, errors and the empty answer for a stale marker included |
| OwnerDirectory.Resume | src/rpc/RPCHelpers.cpp:752-816 | a call that goes on from an entry returns what follows it |
| OwnerDirectory.TraverseAll | src/rpc/RPCHelpers.cpp:724-877 | repeated calls list every entry once, in the order of pages and indexes, for every limit, and end |
| Directories.EntryAt | src/rpc/RPCHelpers.cpp:776-815 | the index at each place of each page comes after those of the pages before it and those before it on its page |
| OwnerDirectory.ResumesIffHintFits | src/rpc/RPCHelpers.cpp:741-816 | exactly when a 32-bit hint is enough to go on from an entry |
| OwnerDirectory.WideHintIsLost | src/rpc/RPCHelpers.cpp:741-816 | a directory with a page number of 33 bits whose last entry is never returned |
| OwnerDirectory.TailIsUnique | src/rpc/RPCHelpers.cpp:810-815 | the links determine the pages visited |
| TxPaging.PlanOf | src/rpc/RPCHelpers.cpp:1615-1697 | which requests are accepted, with which error the others are refused, the ledgers they ask for and where they start |
| TxPaging.FetchTransactions | src/backend/CassandraBackend.cpp:740-821 | the rows of one page, and a cursor exactly when the page is full |
| TxPaging.TraverseTransactions | src/rpc/RPCHelpers.cpp:1706-1757 | the rows shown, and a marker exactly when the page is full and no row is beyond the far end |
| TxPaging.WhereAfter | src/backend/CassandraBackend.cpp:1592-1603 | the cursor after a row selects exactly the rows that follow it, in both directions |
| TxPaging.TraverseAll | src/rpc/RPCHelpers.cpp:1706-1757 | repeated requests show what one unlimited request would, every row once, in order, and end |
| TxPaging.StartShowsRange | src/rpc/RPCHelpers.cpp:1691-1697 | from its own starting point a request shows exactly the rows of the ledgers asked for |
| TxPaging.InRangeOrdered | src/rpc/RPCHelpers.cpp:1730-1747 | the rows of the ledgers asked for are those in the table between the two ends, each once and in the order read |
| TxPaging.ShownIs | src/rpc/RPCHelpers.cpp:1730-1747 | what is shown of a table: forward everything up to the far end, backward the rows of the ledgers asked for |
| TxPaging.OnlyRangeIffStartsThere | src/rpc/RPCHelpers.cpp:1730-1747 | a request shows only rows of the ledgers asked for, whatever the table, if and only if it goes backward or its marker is not before them |
| TxPaging.OnlyRangeOfTable | src/rpc/RPCHelpers.cpp:1730-1747 | for one table: if and only if no row from the marker on lies before them |
| TxPaging.MarkerBeforeRange | src/rpc/RPCHelpers.cpp:1730-1747 | for every marker before them, a table whose row is shown although it is not asked for |
| TxPaging.FetchAll | src/rpc/RPCHelpers.cpp:1562-1764 | every accepted request, repeated: without a marker exactly the rows of the ledgers asked for; with one those from the marker on, and going forward from a marker before them the rows in between as well |
| OrderBook.PostProcessOrderBook | src/rpc/RPCHelpers.cpp:1257-1389 | the lines and running balances of every offer in turn, which `EveryLine` and `OwnerFundsAreShown` describe |
| OrderBook.EveryLine | src/rpc/RPCHelpers.cpp:1307-1374 | of each offer in any list the lesser of its size and what its owner's remaining funds buy, less the transfer rate where it is charged, is funded; the whole is paid for in full and a part with the lesser of the price and what the part is worth at the offer's rate; the issuer's own offers are funded in full |
| OrderBook.OwnerFundsAreShown | src/rpc/RPCHelpers.cpp:1276-1305 | the owner's funds are shown exactly on each owner's first offer, on the issuer's offers, and on every offer under a freeze, and what they are |
| OrderBook.FundedPartAtItsRate | src/rpc/RPCHelpers.cpp:1361-1368 | without rounding a partly funded offer is paid for at its rate |
| OrderBook.LineIsFunded | src/rpc/RPCHelpers.cpp:1332-1374 | no more of an offer is funded than it offers, nor than its owner has left and pays for |
| OrderBook.OwnerPaysFromFunds | src/rpc/RPCHelpers.cpp:1268-1374 | however amounts are rounded, an owner's balance never goes below zero and payments add up to initial minus final funds |
| OrderBook.UnfundedIffOutIsFrozen | src/rpc/RPCHelpers.cpp:1267-1305 | an offer of anyone but the issuer whose owner has funds goes unfunded exactly when the side sold is frozen |
| OrderBook.FreezeHoldsIffNotInAlone | src/rpc/RPCHelpers.cpp:1270-1305 | the freeze of either side leaves all such offers unfunded, as the comment says, if and only if not the side bought alone is frozen |
| OrderBook.FundedAlthoughInIsFrozen | src/rpc/RPCHelpers.cpp:1270-1305 | an offer funded in full although the side bought is frozen |
| OrderBook.FundsAreUsedUp | src/rpc/RPCHelpers.cpp:1332-1374 | without rounding an owner's offers are funded with all the owner has, less the transfer rate, or with all that is offered, whichever is less |
| Codecs.LedgerInfoToBlob | src/rpc/RPCHelpers.cpp:630-646 | the bytes of a header, with or without its hash |
| Codecs.DeserializeHeader | src/backend/DBHelpers.h:219-241 | the fields at their offsets, or an error when there are fewer than 150 bytes |
| Codecs.HeaderRoundTrip | src/rpc/RPCHelpers.cpp:630-646 | a header whose fields fit their widths is read back as it was |
| Codecs.BytesRoundTrip | src/backend/DBHelpers.h:219-241 | a header read is written back as the same bytes |
| Codecs.HashIsNeeded | src/rpc/RPCHelpers.cpp:643-644 | without the hash the bytes are the first 118 of those with it, and cannot be read back |
| Codecs.HeaderLayout | src/rpc/RPCHelpers.cpp:630-646 | which bytes hold which field |
| Codecs.CursorRoundTrip | src/rpc/RPC.h:94-97 | a cursor's text is read back as it was, for every 256-bit index and 32-bit hint |
| Codecs.CursorText | src/rpc/RPC.h:94-97 | sixty-four hexadecimal digits of the index, a comma and the hint in decimal |
| Codecs.OnlyCursorsAreRead | src/rpc/RPCHelpers.cpp:104-136 | a text that is read has such digits, a comma and decimal digits up to the end or another comma, and those are the numbers read |
| Codecs.ReadsNumbers | src/rpc/RPCHelpers.cpp:104-136 | a text with a larger hint is accepted and only 32 bits of it are kept |
| BuildLedger.Builder.WriteSuccessor | src/backend/CassandraBackend.cpp:237-260 | one row of the successor table, and nothing else |
| Backends.KeepPresent | src/backend/BackendInterface.cpp:289-309 | objects that exist stay in order, and the others are dropped |
| BookOffers.FirstOffers | src/backend/BackendInterface.cpp:234-242 | the first `limit` of the keys collected, with their objects |
| InitialLoad.Loader.Receive | src/etl/ETLSource.cpp:769-792 | a response for a range keeps the download consistent; the range's last key is returned when it is done |
| InitialLoad.Loader.Finish | src/etl/ETLSource.cpp:808-872 | the cache is full and every live key has its record |
| NFTHelpers.FindNode | src/etl/NFTHelpers.cpp:212-218 | the first node with a key, or none when no node has it |
| NFTHelpers.NewHolder | src/etl/NFTHelpers.cpp:267-299 | the owner of the first surviving page of another account that holds the token |
| Migration.Migrator.Finish | src/main/main.cpp:204-205 | after the last batch each record has been written exactly once |
| Migration.Migrator.MintsOfPage | src/main/main.cpp:179-193 | the mints of one page, or failure when one cannot be read |
| Migration.Migrator.MintOf | src/main/main.cpp:181-192 | one transaction: skipped, a record, or failure |
| Migration.Migrator.RecordsOf | src/main/main.cpp:231-240 | the tokens of one page of objects |
| Migration.Migrator.FetchRecords | src/main/main.cpp:224-246 | one page of a ledger as records, and the cursor of what is still to come |
| OwnerDirectory.ReadPage | src/rpc/RPCHelpers.cpp:776-815 | what a page lists and the number of the next one |
| OwnerDirectory.CollectPage | src/rpc/RPCHelpers.cpp:776-815 | what one page adds, and the cursor when the limit is reached on it |
| OwnerDirectory.NextCall | src/rpc/RPCHelpers.cpp:724-877 | the first call, or one with the cursor of the one before, continues the list where it stopped |
| Codecs.Serializer.Add | src/rpc/RPCHelpers.cpp:633-645 | each value is added big-endian in its width |
| Codecs.SerialIter.Get | src/backend/DBHelpers.h:222-238 | the next bytes as a number, or an error past the end |

## Left out

- Cassandra driver, statement binding, schema creation, gRPC, websockets, HTTP, JSON, logging and configuration: plumbing.
- Subscriptions, fees and what `publishLedger` sends to clients. When `monitor` publishes or starts to write is open: any such step may come at any time.
- `doFinishWritesAsync`, and the first commit into an empty database, where two writers may set the two ends of the range.
- Services, Commit, Throttle and Pipeline are sets of steps and not methods: the order of threads is the point there. Waiting, retry delays and fairness are a step that may or may not happen.
- Pipeline: that all threads end after a stop is not stated; the single pop per queue at the end need not free an extractor.
- CacheLoad: shutting down while the cache is loading, where tasks end early and the last one still calls `setFull`; and loading it from another Clio server.
- SimpleCaches: each call is atomic, although a neighbour is looked up without the lock; hit counters are not modelled.
- Services: the writers' race for the range is in Commit.
- InitialLoad: downloading for the cache alone, aborting after an error, and NFT records written along the way.
- BuildLedger: transactions, the ledger header and NFT records written in the same build; the commit is in Commit.
- Removal of duplicate NFT records by `insertTransactions` and of duplicate cancelled offers: their comparators are not orders, so the code does not promise what the comments say.
- Migration: retries after a timeout and dropping the old issuer table.
- OwnerDirectory: fetching and parsing the objects listed; their alignment with the keys is Backends.Backend.FetchLedgerObjects.
- TxPaging: types of JSON fields and the lookup of a ledger by hash; a named ledger is given by its sequence.
- OrderBook: amounts are real numbers, and how much an account holds and which issuers are frozen are inputs; offers that cannot be parsed are not in the list.
- Online deletion, `BackendIndexer`, rate limiting, work queues, counters and forwarding.

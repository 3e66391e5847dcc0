# Verified model of the HotShot query service

The query service keeps a ledger of leaves and blocks decided by consensus, answers queries about it, and
streams it to subscribers. It has two storage backends, one over append-only files and one over PostgreSQL,
both driven by the same event loop. This project models both backends, the loop, and three smaller pieces
(migration planning, API extension merging, metric naming), and proves what they promise. Code that updates
state in place is modelled by classes and loops, each method proved against a transition function; the
transition functions are then proved to keep their invariants over every run.

| files | what they model |
|---|---|
| `LogState`, `LogInvariant`, `LogIter`, `LedgerLog` | the caching ledger log and its iterator |
| `LogFills`, `LogRuns`, `LogReverts`, `LogRecovery` | whole sessions of a log: objects arriving late, delivery to subscribers, reverting and reopening |
| `QueryData`, `Decide`, `Service` | leaves, blocks, consensus events, the event loop |
| `EarliestIndex`, `FsState`, `FileSystem`, `FsIndices`, `FsLedger`, `FsOutcomes`, `FsContracts` | the file-system data source |
| `BufferedChannel`, `SqlState`, `SqlDataSource`, `SqlTransactions`, `SqlLedger`, `SqlOutcomes`, `SqlBounds` | the SQL data source |
| `Heights`, `Backends`, `BackendsTxns`, `Agreement` | both backends compared, query by query |
| `Migrations`, `TomlMerge`, `MetricNames`, `Metrics` | the smaller pieces |

Abstractions. A commitment is a number carried by the object it commits to, so hashes may repeat unless a
result says otherwise. The append log is two sequences, committed and pending; a stored entry may fail to
load. The disk is a number of writes and of version commits it will still accept and whether it can go back to
its last version, all of which the environment may change at any moment, so every write, commit and revert may
fail. The broadcast channel is the list of everything
sent. The database is its committed tables and the tables the connection sees; queries have their relational
meaning. Whatever is inserted in the log at a height is the object consensus agreed on at that height
(`agreed` in `LogRuns`). Every induction is written out: lemmas to which Dafny would apply its automatic induction
carry `{:induction false}`.

What the code needs, and what happens without it:

- The log must have a cache of at least one entry: with none, appending puts the cache window out of step
  with the log (`LogInvariant.StoreOneAlignedIff`).
- Reverting a log with more uncommitted appends than its cache holds leaves the cache past the end of the log
  (`LogInvariant.RevertedAlignedIff`). Subscribers notice exactly when there were no more than twice as many and
  nothing was waiting to be broadcast (`LogReverts.HarmlessIff`); objects are then sent twice
  (`LogReverts.LongRevertSendsTwice`, `LogReverts.IllegalRevertDuplicates`).
- The SQL data source must be reverted, not committed, after a failed statement
  (`SqlTransactions.CommitDeliversIff`). That PostgreSQL answers such a commit with a rollback is taken as
  given.
- SQL leaf subscriptions are exact for heights up to the current one; a height of 2^63 or more becomes negative
  in the query and replays everything (`SqlLedger.SettledDeliversIff`). Subscriptions of the file system are
  exact for every height (`FsLedger.SubscriptionDelivers`).
- Range queries on the database read their bounds as signed 64-bit numbers, so both backends list the same rows
  exactly when that makes no difference (`Backends.LeafRangeAgreesIff`, `Backends.BlockRangeAgreesIff`).

Where the code and the documentation of `VersionedDataSource` disagree, the model follows the code: a failed
commit of the file-system data source can leave the leaves committed for good
(`FsContracts.FailedCommitCleanIff`, `FsContracts.RevertAfterHalfCommit`), though it can be retried
(`FsContracts.RetryCompletes`), and reverting it does not revert its indices
(`FsContracts.RevertRestoresIndexIff`, `FsContracts.RevertedLeafStaysCounted`).

## Model

| member | source | states |
|---|---|---|
| LedgerLog.LedgerLog.Open | src/data_source/ledger_log.rs:70-125 | loads the last `cacheSize` entries, failed loads as missing, and starts streaming at the first entry that is missing |
| LedgerLog.LedgerLog.StoreResource | src/data_source/ledger_log.rs:136-145 | appends to store and cache, evicting from a full cache; a failed write changes nothing |
| LedgerLog.LedgerLog.Insert | src/data_source/ledger_log.rs:147-181 | pads and appends, or patches the cache, or drops the object; a write that fails partway keeps exactly the entries written before it |
| LedgerLog.LedgerLog.CommitVersion | src/data_source/ledger_log.rs:183-200 | makes pending entries permanent and advances the stream by what was broadcast; a failed commit changes nothing |
| LedgerLog.LedgerLog.Broadcast | src/data_source/ledger_log.rs:188-197 | sends, through the cached iterator, exactly the run of present objects from the stream position; the loop terminates |
| LedgerLog.LedgerLog.RevertVersion | src/data_source/ledger_log.rs:206-216 | drops the pending entries and as many cached ones, and leaves filled entries in place; a store that refuses changes nothing |
| LedgerLog.LedgerLog.Subscribe | src/data_source/ledger_log.rs:220-254 | the stream of a subscriber: available objects first, then broadcasts after those it must skip; none if an available object is gone |
| LogIter.Iter.Nth | src/data_source/ledger_log.rs:281-301 | each call answers for its own position from the side that holds it, with the append log's iterator kept in step |
| LogIter.IterRefinesPlain | src/data_source/ledger_log.rs:264-306 | any sequence of `next` and `nth` calls gets what an iterator over the plain sequence gives, across the switch from store to cache |
| LogIter.SizeHintExactIff | src/data_source/ledger_log.rs:274-301 | from any position the iterator yields exactly as many items as it still promises if and only if the cache window starts inside the committed log or has been reached |
| LogInvariant.StoreOneAlignedIff | src/data_source/ledger_log.rs:136-145 | an append keeps the cache window aligned with the log if and only if the cache size is not zero |
| LogInvariant.StoreAllWindow | src/data_source/ledger_log.rs:136-161 | after any batch of appends, with writes failing partway, the cache is the window on the end of the log and agrees with the store |
| LogInvariant.InsertedInv | src/data_source/ledger_log.rs:147-181 | inserting in any order keeps the log invariant: window aligned, bounded, and every cached entry stored or replacing a missing one |
| LogFills.FillReads | src/data_source/ledger_log.rs:165-178 | an object that lands inside the cache is read back at its position, every other position reads as before, and the store is unchanged |
| LogFills.AppendReads | src/data_source/ledger_log.rs:147-164 | an object at or past the end is read back exactly if the disk has room for it and its padding, which reads as missing; what is still cached reads as before |
| LogFills.ReopenedFillsIff | src/data_source/ledger_log.rs:85-102 | after opening, an object inserted at a stored position is read back if and only if the position is among the last `cacheSize`, or the store has that object already |
| LogFills.FilledIsSent | src/data_source/ledger_log.rs:165-200 | when the object the stream waits for arrives inside the cache window, then whatever legal steps follow, the next successful commit while the position is in the window has sent it in its place |
| LogInvariant.AvailableIsLongestRun | src/data_source/ledger_log.rs:188-197 | what a commit sends is the longest run of present objects from the stream position |
| LogInvariant.CommittedBroadcast | src/data_source/ledger_log.rs:183-200 | a commit keeps the store, sends each newly contiguous object once in order, and leaves the stream position at the end or at a hole; a failed one changes nothing |
| LogInvariant.CommittedReads | src/data_source/ledger_log.rs:183-200 | a commit changes no reading: fills stay, and what had left the cache can be read from the store |
| LogInvariant.RevertedAlignedIff | src/data_source/ledger_log.rs:206-216 | a revert keeps the window aligned if and only if no more than `cacheSize` appends were pending |
| LogInvariant.RevertedInv | src/data_source/ledger_log.rs:206-216 | a legal revert keeps the invariant, restores the committed store, leaves every committed position reading as before, fills included, and nothing after them |
| LogInvariant.OpenedView | src/data_source/ledger_log.rs:70-125 | a reopened log reads as its store, for every cache size |
| LogRuns.Run | src/data_source/ledger_log.rs:147-216 | in every run, legal or not and with any cache size, a position inside the log never lies past the cache, so no in-cache fill is out of bounds |
| LogRuns.SubscribedIff | src/data_source/ledger_log.rs:220-254 | subscribing succeeds if and only if every object below the stream position can still be read, and sets up the right prefix and skip count |
| LogRuns.RunKeeps | src/data_source/ledger_log.rs:147-255 | every legal run of inserts, commits, reverts, subscriptions, disk failures and lost entries keeps the session invariant, and the stream position never moves back |
| LogRuns.ExactlyOnceInOrder | src/data_source/ledger_log.rs:147-255 | in every legal run every subscriber has been sent precisely the agreed objects from its height to the stream position, once each, in order |
| LogRuns.BroadcastHistory | src/data_source/ledger_log.rs:183-200 | the messages of a session are the agreed objects from its first stream position to the current one, which is within the committed log and maximal after a commit |
| LogReverts.HarmlessRunDelivers | src/data_source/ledger_log.rs:147-255 | delivery is exactly once and in order in every run whose reverts drop no more appends than the cache holds, or more than twice as many, or happen while the stream waits at a hole |
| LogReverts.HarmlessIff | src/data_source/ledger_log.rs:206-216 | in every state of a session that condition on a revert holds if and only if delivery stays exactly once and in order whatever follows it |
| LogReverts.LongRevertSendsTwice | src/data_source/ledger_log.rs:206-216 | after any other revert, appending as many objects as were too many for the cache and committing sends each of them twice |
| LogReverts.IllegalRevertDuplicates | src/data_source/ledger_log.rs:206-216 | the smallest case: two appends with a cache of one entry, a revert, one append and a commit |
| LogRecovery.RevertRestores | src/data_source/ledger_log.rs:206-216 | inserts past the committed log followed by a revert give back the last commit's store, length and view, up to filled entries pushed out of the cache |
| LogRecovery.ReopenOnlyLoses | src/data_source/ledger_log.rs:70-125 | against reverting, reopening loses filled entries and changes none |
| LogRecovery.RevertEqualsReopen | src/data_source/ledger_log.rs:70-125 | after any legal run of a session that fills nothing in the cache and loses nothing stored, reverting and reopening show the same view, the same length and the same stream position, those of the last commit |
| LogRecovery.ReopenedStreamPos | src/data_source/ledger_log.rs:105-113 | the reopened stream position is never ahead, and is the same if and only if everything below it can still be loaded |
| QueryData.FindFromIsFirst | src/availability/query_data.rs:139-147 | searching a payload by hash finds the first transaction with it in iteration order, and fails only if there is none |
| Decide.PairsAre | src/data_source/update.rs:54-65 | reversing, dropping one and zipping pairs each leaf, oldest first, with the QC of its child, the newest with the QC of the event |
| Decide.PairsConsistentIff | src/data_source/update.rs:54-80 | building query data from the pairs can fail nowhere if and only if the chain is justified |
| Decide.EntriesReferenced | src/data_source/update.rs:54-82 | a justified event adds each of its leaves once, oldest first, with a QC that references it |
| Decide.EntriesDecided | src/data_source/update.rs:71-82 | every leaf of an event is added with its own payload as its block, or with no block if it has none |
| Decide.OpsInsertLeaves | src/data_source/update.rs:65-82 | the insertions of an event contain each of its leaves once, in order |
| Decide.OpsInsertBlockAfterLeaf | src/data_source/update.rs:65-82 | every block is inserted right after its own leaf |
| Service.ServeShows | src/lib.rs:455-462 | what one successful update and commit does for a ledger, the event loop does for a whole history, for any data source |
| Service.ServeStops | src/lib.rs:455-462 | a loop that fails does so at some event, having succeeded up to it, and does nothing after it |
| Service.HistoryReferenced | src/data_source/update.rs:54-82 | over any history every leaf is kept with a QC that references it |
| Service.HistoryDecided | src/data_source/update.rs:71-82 | over any history every payload decided with a leaf is in the ledger as its block, and no other block is |
| Agreement.ServeFileSystem | src/lib.rs:455-462 | the event loop over the file-system data source ends at the first error, in the state the loop specification gives |
| Agreement.ServeSql | src/lib.rs:455-462 | the same over the SQL data source |
| EarliestIndex.UpdateAllIsEarliest | src/data_source/fs.rs:559-571 | updating an index entry by entry leaves each hash at the least of its positions, and no other hash |
| FileSystem.FileSystemDataSource.CreateWithStore | src/data_source/fs.rs:218-237 | empty logs and indices, then the genesis objects; no data source if those cannot be inserted and committed |
| FileSystem.FileSystemDataSource.Create | src/data_source/fs.rs:191-196 | the same, then the store above the logs; no data source if that cannot be opened |
| FileSystem.FileSystemDataSource.OpenWithStore | src/data_source/fs.rs:247-292 | opens both logs and rebuilds all four indices by iterating over them, then looks after the genesis objects; no data source if that fails |
| FileSystem.FileSystemDataSource.Open | src/data_source/fs.rs:203-208 | the same, then the store above the logs |
| FileSystem.FileSystemDataSource.InsertGenesis | src/data_source/fs.rs:311-324 | inserts and commits the genesis objects exactly when the height is zero, stopping at the first failure |
| FileSystem.FileSystemDataSource.InsertLeaf | src/data_source/fs.rs:525-539 | inserts into the leaf log and, only if that succeeds, into three indices |
| FileSystem.FileSystemDataSource.InsertBlock | src/data_source/fs.rs:541-552 | inserts into the block log and, only if that succeeds, indexes every transaction |
| FileSystem.FileSystemDataSource.Update | src/data_source/update.rs:53-85 | performs the insertions of an authenticated event up to the first that fails; no pair is inconsistent |
| FileSystem.FileSystemDataSource.Commit | src/data_source/fs.rs:340-347 | commits the leaf log, the block log and, where there is one, the store above them, up to the first that fails |
| FileSystem.FileSystemDataSource.Revert | src/data_source/fs.rs:351-354 | reverts both logs and no index, given that neither log refuses, which would be fatal |
| FileSystem.FileSystemDataSource.GetProposals | src/data_source/fs.rs:471-490 | the proposer's list in order, or the last `limit` of it, looked up leaf by leaf up to the first that is not there |
| FsState.GatherIs | src/data_source/fs.rs:484-489 | looking up leaves succeeds if and only if every one is there, giving those in order; otherwise the answer is that of the first that is not |
| Backends.ProposalsAre | src/data_source/fs.rs:471-497 | from a ledger, the answer is the leaves of the ledger with this proposer in ascending order, or the last `limit` of them, and the count is their number |
| FileSystem.FileSystemDataSource.GetBlockWithTransaction | src/data_source/fs.rs:462-469 | the block at the indexed height with the indexed position, or why not |
| FileSystem.RangeStream | src/data_source/fs.rs:357-395 | moving the iterator to the start and taking items to the end yields the range specification, for all bounds |
| FsState.RangeIsExact | src/data_source/fs.rs:357-395 | the stream yields exactly the entries whose index is in the range, in order, missing ones as errors, for all nine combinations of bounds |
| FsIndices.EarliestPositions | src/data_source/fs.rs:525-571 | after any run of inserts in any order, block and transaction hashes are indexed at the least position inserted |
| FsIndices.RunIndexesLeaves | src/data_source/fs.rs:525-539 | after any run of inserts in any order a proposer's list has grown by the heights of its leaves in the order of insertion, and a leaf hash is indexed at the height of the leaf inserted last with it |
| FsIndices.OrderIndependent | src/data_source/fs.rs:559-571 | two runs that inserted the same objects have the same block-hash and transaction indices |
| FsIndices.RebuildEqualsIncrement | src/data_source/fs.rs:247-292 | after any run of appending inserts, failed ones included, a reopened data source builds exactly the indices maintained along the way |
| FsIndices.IndexMeaning | src/data_source/fs.rs:525-553 | the indices of such a run: each proposer's list is the strictly increasing list of its heights, block and transaction hashes are at their earliest positions, leaf hashes at their latest, and nothing else is indexed |
| FsLedger.GenesisShows | src/data_source/fs.rs:311-324 | a created data source shows the ledger of one genesis position |
| FsLedger.RunRefinesLedger | src/data_source/update.rs:53-85 | over any history that extends the chain, with every update and commit successful, the data source shows the ledger the history describes, both logs, their caches and all indices, and has sent its leaves once each in order |
| FsLedger.SettledReads | src/data_source/fs.rs:578-580 | the leaf log has no hole, the height is the length of the chain, the block log is the payloads up to the last one, and the leaf stream has sent every leaf since the session began |
| FsOutcomes.ReopenShows | src/data_source/fs.rs:247-324 | opening the storage of a settled data source succeeds and shows the same ledger, logs and indices, whatever the genesis objects |
| FsOutcomes.FailureStorage | src/lib.rs:455-462 | opening what both logs had committed when a run failed at an event succeeds and shows the ledger of the events before it, extended by nothing of that event, by its leaves without blocks if the commit failed between the two logs, or by all of it if only the store above them failed |
| FsOutcomes.ApplyAllStops | src/data_source/update.rs:65-82 | a list of insertions that fails stops at the first that does, having done those before it |
| FsOutcomes.EventSucceedsIff | src/data_source/update.rs:53-85 | an event is taken in and committed if and only if both logs have room for its leaves, its blocks and the placeholders before them, and every commit is accepted |
| FsOutcomes.CreateSucceedsIff | src/data_source/fs.rs:218-237 | creating a data source succeeds if and only if each log takes one write and one commit |
| FsLedger.SubscriptionDelivers | src/data_source/fs.rs:499-507 | a leaf subscription between two events succeeds at any height and delivers, after any history, the leaves from that height on, once each in order |
| FsContracts.FailedCommitCleanIff | src/data_source/fs.rs:340-347 | every commit that can fail leaves outstanding changes as they were if and only if no leaf is outstanding, and no block either where the store above the logs is committed too |
| FsContracts.RevertAfterHalfCommit | src/data_source/fs.rs:340-354 | reverting after a commit that failed on the block log keeps the outstanding leaves for good and drops the outstanding blocks |
| FsContracts.RetryCompletes | src/data_source/update.rs:105-109 | retrying a failed commit until it succeeds leaves exactly what one successful commit would have, with nothing broadcast twice |
| FsContracts.RevertRestoresIndexIff | src/data_source/fs.rs:351-354 | reverting after any run restores the indices if and only if no leaf was inserted and every transaction of the inserted blocks was already indexed no later |
| FsContracts.RevertedLeafStaysCounted | src/data_source/fs.rs:351-354 | a reverted leaf is gone by number, but is still counted as a proposal and makes listing the proposals fail |
| FsContracts.LostBlockIsMissing | src/data_source/fs.rs:427-469 | a stored block that can no longer be loaded is noticed if and only if it is not cached, and is then missing by number, by hash and by transaction; nothing else changes |
| BufferedChannel.BufferedChannel.Flush | src/data_source/buffered_channel.rs:71-76 | delivers everything pushed since the last flush or clear, in order, and leaves nothing pending |
| BufferedChannel.BufferedChannel.Clear | src/data_source/buffered_channel.rs:82-84 | drops everything pending and delivers nothing |
| SqlDataSource.SqlDataSource.Transaction | src/data_source/sql.rs:614-623 | opens a transaction exactly if none is open |
| SqlDataSource.SqlDataSource.InsertLeaf | src/data_source/sql.rs:912-972 | executes the three inserts in the transaction and buffers the leaf only if all succeed |
| SqlDataSource.SqlDataSource.InsertBlock | src/data_source/sql.rs:974-1033 | updates the payload, inserts the transaction rows, and buffers the block only if both succeed |
| SqlDataSource.SqlDataSource.Update | src/data_source/update.rs:53-85 | performs the insertions of an authenticated event up to the first that fails |
| SqlDataSource.SqlDataSource.Commit | src/data_source/sql.rs:649-657 | commits the open transaction, then flushes; a commit the database does not answer changes nothing |
| SqlDataSource.SqlDataSource.Revert | src/data_source/sql.rs:663-676 | rolls back the open transaction and clears both buffers |
| SqlDataSource.SqlDataSource.SubscribeLeaves | src/data_source/sql.rs:887-893 | the rows that the where clause selects for the height, followed by what is flushed from now on |
| SqlTransactions.SessionKeepsTx | src/data_source/sql.rs:614-676 | from connecting on, in every legal run the connection sees what is committed plus the buffered insertions, and what was delivered is exactly what was committed, in order |
| SqlTransactions.RevertUndoes | src/data_source/update.rs:105-115 | after any insertions, failed ones included, and any unanswered commits, a revert gives back the state from before them, with nothing delivered |
| SqlTransactions.FailureSpoils | src/data_source/sql.rs:614-657 | after one failed statement every further insertion is refused, and a commit keeps nothing of the transaction |
| SqlTransactions.CommitDeliversIff | src/data_source/sql.rs:649-657 | a leaf delivered by a commit is in the committed table if and only if no statement of the transaction had failed |
| SqlLedger.SqlGenesisShows | src/data_source/sql.rs:581-588 | a new database shows the ledger of one genesis position |
| SqlLedger.ReconnectShows | src/data_source/sql.rs:565-588 | connecting to a database that shows a ledger succeeds if and only if it answers, and leaves that ledger |
| SqlLedger.SqlRunRefinesLedger | src/data_source/sql.rs:912-1033 | over any history that extends the chain, with every update and commit successful, the tables show the ledger the history describes and its leaves have been delivered |
| SqlOutcomes.FailureLeavesNoTrace | src/lib.rs:455-462 | however a run fails, the event it fails at leaves no trace: committed tables and delivered messages are those of the events before it, and connecting again shows their ledger |
| SqlOutcomes.EventSucceedsIff | src/data_source/update.rs:53-85 | an event is taken in and committed if and only if it adds nothing, or the database answers and no two leaves have the same hash |
| SqlOutcomes.ConnectSucceedsIff | src/data_source/sql.rs:581-588 | connecting to a new database succeeds if and only if it answers |
| SqlOutcomes.LeafAcceptedIff | src/data_source/sql.rs:912-972 | the database accepts a leaf if and only if its height is not taken and no leaf has its hash |
| SqlOutcomes.BlockWithoutLeaf | src/data_source/sql.rs:974-1033 | a block whose leaf is not there is refused if it has transactions, and otherwise changes nothing |
| SqlLedger.SubscriptionDelivers | src/data_source/sql.rs:887-893 | a subscription between two events at or below the current height, and below 2^63, delivers, after any history, the leaves from that height on, once each in order |
| SqlLedger.SettledDeliversIff | src/data_source/sql.rs:887-893 | it does so if and only if the height was not above the current height or nothing was added since, and was below 2^63 or there are no leaves |
| SqlBounds.BoundsToWhereClause | src/data_source/sql.rs:1208-1244 | numbers the parameters in order and selects the range with its bounds read as signed 64-bit numbers; the range queries use it |
| SqlBounds.ClauseSelectsRangeIff | src/data_source/sql.rs:1208-1244 | exactly for which 64-bit bounds the clause selects the heights of the range |
| Heights.RowsOfIsRange | src/data_source.rs:270-297 | a range query on a plain sequence yields exactly the positions in the range, in order |
| Backends.LeafByNumberAgrees | src/data_source/sql.rs:697-715 | leaves by number agree with the file system |
| Backends.HeightAgrees | src/data_source/sql.rs:1041-1062 | both heights are the length of the ledger |
| Backends.LeafByHashAgrees | src/data_source/sql.rs:697-715 | leaves by hash agree |
| Backends.BlockByNumberAgreesIff | src/data_source/sql.rs:717-745 | blocks by number agree unless the block lies after the last payload, where one backend has not found it and the other misses it |
| Backends.BlockByHashAgreesIff | src/data_source/sql.rs:717-745 | both find the first block with a hash, and agree unless it lies after the last payload |
| Backends.LeafRangeAgreesIff | src/data_source/sql.rs:747-768 | leaf ranges agree if and only if the bounds list the same rows when read as signed numbers |
| Backends.BlockRangeAgreesIff | src/data_source/sql.rs:770-797 | under the same condition and no other, block ranges agree up to the last payload and the database lists a missing block for each height after it |
| Backends.CountAgrees | src/data_source/sql.rs:874-885 | both counts are the number of proposals in the ledger |
| Backends.LimitedProposalsAgree | src/data_source/sql.rs:838-872 | descending order, limit and reversal give the most recent proposals of the ledger in ascending order, as the file system does |
| Backends.UnlimitedProposalsAgree | src/data_source/sql.rs:838-872 | without a limit the file system gives all proposals in ascending order, and the answers the database may give are exactly the permutations of that |
| BackendsTxns.FirstRowIsEarliest | src/data_source/sql.rs:799-836 | the first transaction row with a hash is the earliest block with it, at the index a search of its payload finds |
| BackendsTxns.TransactionAgreesIff | src/data_source/sql.rs:799-836 | both backends find the same block for a transaction, and the same index if and only if the payload's iteration meets the hash first at its least index |
| BackendsTxns.TransactionAgrees | src/data_source/sql.rs:799-836 | if every payload enumerates its transactions in ascending order, both backends give the same answer to every transaction hash |
| Agreement.HistoryAgrees | src/lib.rs:455-462 | driven by the same history, both backends answer from the same ledger |
| Agreement.FromGenesis | src/lib.rs:455-462 | created from nothing and driven by any history that continues the genesis position, both backends answer from the ledger of that history, with every leaf after the first referenced by its QC and kept with the payload it was decided with |
| Agreement.DecidedPayloads | src/data_source/update.rs:71-82 | asked for a block by number, both backends answer with the payload its leaf was decided with |
| Agreement.LeafStreamsAgreeIff | src/data_source/sql.rs:887-893 | both backends deliver the same leaves to a subscriber if and only if the subscription of the database is exact |
| Agreement.QueriesAgree | src/data_source.rs:85-169 | from that ledger heights, leaves, proposal counts and limited proposals agree, and leaf ranges exactly when their bounds list the same rows as signed numbers |
| Migrations.SortSorts | src/data_source/sql.rs:145-146 | sorting gives an ordered permutation that keeps migrations of equal version in order |
| Migrations.SortedStrictIff | src/data_source/sql.rs:148-155 | the sorted list is strictly increasing if and only if the versions were distinct |
| Migrations.ValidateMigrations | src/data_source/sql.rs:145-158 | sorts in place and accepts if and only if all versions are distinct |
| Migrations.MergeOverlays | src/data_source/sql.rs:166-177 | merging validated lists gives a strictly increasing list of all custom migrations and exactly the default ones not replaced |
| Migrations.MergedVersions | src/data_source/sql.rs:166-177 | its versions are the union of both lists' versions |
| TomlMerge.MergeToml | src/api.rs:35-46 | merging entry by entry, in any order of the keys, terminates with the merge of the two values |
| TomlMerge.MergeLookup | src/api.rs:35-46 | what every path holds after a merge |
| TomlMerge.MergeIdempotent | src/api.rs:35-46 | merging the same extension again changes nothing |
| TomlMerge.ExtensionsKeepBase | src/api.rs:29-31 | no list of extensions changes a value of the base that is not a table, or turns a table into something else |
| TomlMerge.ExtensionsAddIff | src/api.rs:29-31 | a path leads somewhere in the end, or to a given scalar, exactly if the base has it or some extension adds it at a path not blocked before |
| Metrics.PrometheusMetrics.Subgroup | src/metrics.rs:252-269 | gives the same child every time, creating it once with the parent's namespace and its own name |
| Metrics.PrometheusMetrics.GetSubgroup | src/metrics.rs:161-184 | finds the group at a path if and only if it is there, else names the first prefix that is not |
| Metrics.WalkPath | src/metrics.rs:161-184 | the namespace of every group is the path that leads to it |
| Metrics.PrometheusMetrics.CreateLabel | src/metrics.rs:248-250 | the new label is found in its group by name if and only if the path of the group is findable |
| Metrics.PrometheusMetrics.GetLabel | src/metrics.rs:149-158 | gives the label created last among those registered under the group's path and the name, and none only if there was no such creation |
| MetricNames.StaysFoundIff | src/metrics.rs:149-158 | a label created in a group with a findable path is what the lookup gives until another creation has the same path and name, or a path that is not findable but has the same key |
| MetricNames.SplitJoinIff | src/metrics.rs:202-212 | joining segments and splitting gives them back if and only if none contains an underscore |
| MetricNames.LabelKeyIff | src/metrics.rs:359-371 | a label is registered under its group's path and name if and only if no segment has an underscore, the first is not empty and a lone second one is not empty |

## Left out

- The files under the append log, the atomic store that synchronises several logs, and `skip_version`.
- Machine arithmetic on indices: positions are unbounded numbers, except where the SQL data source casts one to a
  signed 64-bit number in a query. Comparisons of both backends take arguments below 2^64 and a ledger of at most
  2^63 positions; a leaf of greater height, which the database would store as negative, is not modelled.
- `LimitedProposalsAgree`: takes limits below 2^63; a greater one is left to the database.
- Asynchrony inside one operation: the service holds a write lock around each update and commit.
- What the store above both logs makes durable: it is modelled as a last commit that may fail, and opening starts from what each log has committed itself, not from the last version that store has of both.
- A COMMIT that the database answers with an error: it is either answered with success or not at all.
- Encoding of payloads, and the check of a payload against its header in debug builds: both are taken to succeed.
- A statement list that fails is taken to have no effect until it is rolled back, which is all the caller can do with it.
- Queries while a SQL transaction is open or has failed, and queries the database does not answer.
- Block subscriptions of the SQL data source, whose first part has a missing block for each height without a payload and whose second part has no item for such a height.
- The text of SQL statements and where clauses: conditions are modelled with their parameter numbers.
- `BoundsToWhereClause`: does not bound its 64-bit arguments; the exact condition is stated for arguments that fit.
- Migration names, checksums and the running of migrations.
- `MergeToml`: returns the merged value instead of writing through a reference; nothing else can see the value meanwhile.
- Counters, gauges, histograms and the text exported to Prometheus.
- HTTP routes, error types, the extensible and metrics-only data sources, and command-line options.

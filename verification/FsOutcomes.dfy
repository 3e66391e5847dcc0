/** When an update of the file-system data source succeeds, and what its storage holds when one does not. */
module FsOutcomes {
  import opened Wrappers
  import opened QueryData
  import opened Decide
  import opened LogState
  import opened LogInvariant
  import opened LogRecovery
  import opened FsState
  import opened FsIndices
  import opened FsLedger
  import opened Service
  import FileSystem
  import LogRuns

  // ---- When updates succeed ----

  /** How many entries a position appends to the block log: its block, and placeholders from the last one on. */
  function BlockWrites(ledger: seq<Entry>, entries: seq<Entry>): int {
    |BlockView(ledger + entries)| - |BlockView(ledger)|
  }

  predicate Room(fs: Fs, ledger: seq<Entry>, entries: seq<Entry>) {
    |entries| <= fs.leaves.disk.writes && BlockWrites(ledger, entries) <= fs.blocks.disk.writes
  }

  /** The disks after a stretch of the ledger has been inserted. */
  predicate UsedUp(fs: Fs, r: Fs, ledger: seq<Entry>, entries: seq<Entry>) {
    && Room(fs, ledger, entries) && BlockWrites(ledger, entries) >= 0
    && r.leaves.disk == fs.leaves.disk.(writes := fs.leaves.disk.writes - |entries|)
    && r.blocks.disk == fs.blocks.disk.(writes := fs.blocks.disk.writes - BlockWrites(ledger, entries))
    && r.top == fs.top
  }

  lemma InsertWrites<T>(log: Log<T>, index: nat, item: T)
    requires Safe(log) && index >= Length(log) && InsertSucceeds(log, index)
    ensures Inserted(log, index, item).disk == log.disk.(writes := log.disk.writes - (index - Length(log) + 1))
  {
    StoreAllFrame(log, Appended(log, index, item));
  }

  lemma {:induction false} ShownLengths(fs: Fs, ledger: seq<Entry>)
    requires Shows(fs, ledger)
    ensures Length(fs.leaves) == |ledger| && Length(fs.blocks) == |BlockView(ledger)|
  {
    assert |Stored(fs.leaves)| == |ledger| && |Stored(fs.blocks)| == |BlockView(ledger)|;
  }

  lemma {:induction false} OneBlockWrites(ledger: seq<Entry>, e: Entry)
    ensures BlockWrites(ledger, [e]) == if e.block.None? then 0 else |ledger| + 1 - |BlockView(ledger)|
  {
    assert (ledger + [e])[..|ledger|] == ledger;
  }

  /** What the insertions of one position need, and what they use up. */
  lemma {:induction false} EntrySucceedsIff(fs: Fs, ledger: seq<Entry>, e: Entry)
    requires FsSafe(fs) && Length(fs.leaves) == |ledger| && Length(fs.blocks) == |BlockView(ledger)|
    requires EntryOk(e, |ledger|)
    ensures AllSucceed(fs, EntryOps(e)) <==> Room(fs, ledger, [e])
    ensures AllSucceed(fs, EntryOps(e)) ==> UsedUp(fs, ApplyAll(fs, EntryOps(e)), ledger, [e])
  {
    FileSystem.EntryOpsApply(fs, e);
    OneBlockWrites(ledger, e);
    if InsertSucceeds(fs.leaves, |ledger|) { InsertWrites(fs.leaves, |ledger|, e.leaf); }
    if e.block.Some? && InsertSucceeds(fs.blocks, |ledger|) { InsertWrites(fs.blocks, |ledger|, e.block.value); }
  }

  lemma {:induction false} WritesAdd(ledger: seq<Entry>, entries: seq<Entry>, n: nat)
    requires |entries| == n + 1
    ensures BlockWrites(ledger, entries)
            == BlockWrites(ledger, entries[..n]) + BlockWrites(ledger + entries[..n], [entries[n]])
    ensures BlockWrites(ledger + entries[..n], [entries[n]]) >= 0
  {
    assert ledger + entries == ledger + entries[..n] + [entries[n]];
    OneBlockWrites(ledger + entries[..n], entries[n]);
  }

  lemma {:induction false} FailedFront(fs: Fs, a: seq<Op>, b: seq<Op>)
    requires FsSafe(fs) && !AllSucceed(fs, a)
    ensures !AllSucceed(fs, a + b)
  {
    if AllSucceed(fs, a + b) { AllSucceedPrefix(fs, a, b); }
  }

  lemma {:induction false} LastSucceedsIff(fs: Fs, ledger: seq<Entry>, entries: seq<Entry>, n: nat)
    requires Shows(fs, ledger) && IsLedger(ledger + entries) && |entries| == n + 1
    requires AllSucceed(fs, Ops(entries[..n]))
    ensures var mid := ApplyAll(fs, Ops(entries[..n]));
            && (AllSucceed(fs, Ops(entries)) <==> Room(mid, ledger + entries[..n], [entries[n]]))
            && (AllSucceed(fs, Ops(entries)) ==>
                  UsedUp(mid, ApplyAll(fs, Ops(entries)), ledger + entries[..n], [entries[n]]))
  {
    var mid := ApplyAll(fs, Ops(entries[..n]));
    SplitLedger(ledger, entries, n);
    EntriesExtendShown(fs, ledger, entries[..n]);
    FileSystem.ApplyConcat(fs, Ops(entries[..n]), EntryOps(entries[n]));
    ShownLengths(mid, ledger + entries[..n]);
    EntrySucceedsIff(mid, ledger + entries[..n], entries[n]);
  }

  /** The insertions of a stretch of the ledger succeed exactly if both logs have room for what they append. */
  lemma {:induction false} EntriesSucceedIff(fs: Fs, ledger: seq<Entry>, entries: seq<Entry>)
    requires Shows(fs, ledger) && IsLedger(ledger + entries)
    ensures AllSucceed(fs, Ops(entries)) <==> Room(fs, ledger, entries)
    ensures AllSucceed(fs, Ops(entries)) ==> UsedUp(fs, ApplyAll(fs, Ops(entries)), ledger, entries)
    decreases |entries|
  {
    if entries == [] {
      assert ledger + entries == ledger;
    } else {
      var n := |entries| - 1;
      SplitLedger(ledger, entries, n);
      WritesAdd(ledger, entries, n);
      EntriesSucceedIff(fs, ledger, entries[..n]);
      if AllSucceed(fs, Ops(entries[..n])) {
        LastSucceedsIff(fs, ledger, entries, n);
      } else {
        FailedFront(fs, Ops(entries[..n]), EntryOps(entries[n]));
      }
    }
  }

  /** Exactly when a data source that shows a ledger takes in an event and commits it. */
  lemma {:induction false} EventSucceedsIff(fs: SafeFs, ledger: seq<Entry>, event: Event)
    requires Shows(fs, ledger) && IsLedger(ledger) && Extends(|ledger|, event)
    ensures UpdateAndCommit(fs, event).ok <==> Room(fs, ledger, Entries(event)) && CommitSucceeds(fs)
  {
    EntriesExtend(ledger, event);
    EntriesSucceedIff(fs, ledger, Entries(event));
  }

  /** Creating a data source succeeds exactly if each log takes one write and one commit. */
  lemma {:induction false} CreateSucceedsIff(leafDisk: Disk, blockDisk: Disk, genesis: Genesis)
    requires genesis.Valid()
    ensures GenesisSucceeds(FsCreated(leafDisk, blockDisk), genesis)
            <==> leafDisk.writes >= 1 && blockDisk.writes >= 1 && leafDisk.commits >= 1 && blockDisk.commits >= 1
  {
    var fs := FsCreated(leafDisk, blockDisk);
    OneBlockWrites([], GenesisEntry(genesis));
    EntrySucceedsIff(fs, [], GenesisEntry(genesis));
  }

  // ---- What is left when one fails ----

  /** A list of insertions that fails stops at the first that does, having done those before it. */
  lemma {:induction false} ApplyAllStops(fs: Fs, ops: seq<Op>) returns (k: nat)
    requires FsSafe(fs) && !AllSucceed(fs, ops)
    ensures k < |ops| && AllSucceed(fs, ops[..k])
    ensures var mid := ApplyAll(fs, ops[..k]);
            !Succeeds(mid, ops[k]) && ApplyAll(fs, ops) == Apply(mid, ops[k])
    decreases |ops|
  {
    if Succeeds(fs, ops[0]) {
      var j := ApplyAllStops(Apply(fs, ops[0]), ops[1..]);
      k := j + 1;
      assert ops[..k][1..] == ops[1..][..j];
    } else {
      k := 0;
      assert ops[..0] == [];
    }
  }

  lemma {:induction false} ApplyAllCommitsNothing(fs: Fs, ops: seq<Op>)
    requires FsSafe(fs)
    ensures ApplyAll(fs, ops).leaves.committed == fs.leaves.committed
    ensures ApplyAll(fs, ops).blocks.committed == fs.blocks.committed
    ensures ApplyAll(fs, ops).blocks.sent == fs.blocks.sent && ApplyAll(fs, ops).leaves.sent == fs.leaves.sent
    decreases |ops|
  {
    if ops != [] {
      match ops[0] {
        case InsertLeaf(leaf) => LogRuns.InsertedFrame(fs.leaves, leaf.Height(), leaf);
        case InsertBlock(block) => LogRuns.InsertedFrame(fs.blocks, block.Height(), block);
      }
      if Succeeds(fs, ops[0]) { ApplyAllCommitsNothing(Apply(fs, ops[0]), ops[1..]); }
    }
  }

  function WithoutBlock(e: Entry): Entry { Entry(e.leaf, None) }

  /** The same positions, with no payload known. */
  function WithoutBlocks(entries: seq<Entry>): (r: seq<Entry>)
    ensures |r| == |entries| && forall i :: 0 <= i < |r| ==> r[i] == WithoutBlock(entries[i])
  {
    seq(|entries|, i requires 0 <= i < |entries| => WithoutBlock(entries[i]))
  }

  lemma {:induction false} NoMoreBlocks(ledger: seq<Entry>, entries: seq<Entry>)
    ensures BlockView(ledger + WithoutBlocks(entries)) == BlockView(ledger)
    decreases |entries|
  {
    if entries == [] {
      assert ledger + WithoutBlocks(entries) == ledger;
    } else {
      var n := |entries| - 1;
      NoMoreBlocks(ledger, entries[..n]);
      assert WithoutBlocks(entries) == WithoutBlocks(entries[..n]) + [WithoutBlock(entries[n])];
      assert ledger + WithoutBlocks(entries) == ledger + WithoutBlocks(entries[..n]) + [WithoutBlock(entries[n])];
      NoBlockExtends(ledger + WithoutBlocks(entries[..n]), WithoutBlock(entries[n]));
    }
  }

  /** What storage keeps of some insertions, all successful, when they are committed: everything once both logs
      have committed, the leaves without their blocks if only the leaf log has, and nothing otherwise. */
  function KeptBy(applied: Fs, entries: seq<Entry>): seq<Entry> {
    if applied.leaves.disk.commits == 0 then []
    else if applied.blocks.disk.commits == 0 then WithoutBlocks(entries)
    else entries
  }

  /** What storage keeps of an event. */
  function Kept(fs: SafeFs, event: Event): seq<Entry> {
    if AllSucceed(fs, Ops(Entries(event))) then KeptBy(ApplyAll(fs, Ops(Entries(event))), Entries(event)) else []
  }

  ghost predicate StorageShows(fs: Fs, ledger: seq<Entry>) {
    Flat(fs.leaves.committed) == LeafView(ledger) && Flat(fs.blocks.committed) == BlockView(ledger)
  }

  lemma {:induction false} SettledStorage(fs: Fs, ledger: seq<Entry>, base: nat)
    requires Settled(fs, ledger, base)
    ensures StorageShows(fs, ledger)
  {
    assert Stored(fs.leaves) == Flat(fs.leaves.committed);
    assert Stored(fs.blocks) == Flat(fs.blocks.committed);
  }

  lemma CommitStorage<T>(log: Log<T>)
    ensures log.disk.commits > 0 ==> Flat(Committed(log).committed) == Stored(log)
    ensures log.disk.commits == 0 ==> Committed(log) == log
  {
    assert Flat(log.committed + AsLoads(log.pending)) == Stored(log);
  }

  lemma {:induction false} LeavesWithoutBlocks(ledger: seq<Entry>, entries: seq<Entry>)
    ensures LeafView(ledger + WithoutBlocks(entries)) == LeafView(ledger + entries)
  {
  }

  lemma {:induction false} CommittedLeaves(applied: Fs, before: Fs, ledger: seq<Entry>, entries: seq<Entry>)
    requires Stored(applied.leaves) == LeafView(ledger + entries)
    requires applied.leaves.committed == before.leaves.committed && StorageShows(before, ledger)
    ensures Flat(FsCommitted(applied).leaves.committed) == LeafView(ledger + KeptBy(applied, entries))
  {
    CommitStorage(applied.leaves);
    LeavesWithoutBlocks(ledger, entries);
    assert ledger + [] == ledger;
  }

  lemma {:induction false} CommittedBlocks(applied: Fs, before: Fs, ledger: seq<Entry>, entries: seq<Entry>)
    requires Stored(applied.blocks) == BlockView(ledger + entries)
    requires applied.blocks.committed == before.blocks.committed && StorageShows(before, ledger)
    ensures Flat(FsCommitted(applied).blocks.committed) == BlockView(ledger + KeptBy(applied, entries))
  {
    CommitStorage(applied.blocks);
    NoMoreBlocks(ledger, entries);
    assert ledger + [] == ledger;
  }

  /** After one event, successful or not, storage shows the ledger extended by exactly what is kept of it. */
  lemma {:induction false} EventStorage(fs: SafeFs, ledger: seq<Entry>, base: nat, event: Event)
    requires Settled(fs, ledger, base) && IsLedger(ledger) && Extends(|ledger|, event)
    ensures StorageShows(UpdateAndCommit(fs, event).state, ledger + Kept(fs, event))
  {
    var entries := Entries(event);
    var applied := ApplyAll(fs, Ops(entries));
    SettledStorage(fs, ledger, base);
    ApplyAllCommitsNothing(fs, Ops(entries));
    if AllSucceed(fs, Ops(entries)) {
      EntriesExtend(ledger, event);
      EntriesExtendShown(fs, ledger, entries);
      CommittedLeaves(applied, fs, ledger, entries);
      CommittedBlocks(applied, fs, ledger, entries);
    } else {
      assert ledger + [] == ledger;
    }
  }

  lemma {:induction false} KeptIsLedger(fs: SafeFs, ledger: seq<Entry>, event: Event)
    requires IsLedger(ledger) && Extends(|ledger|, event)
    ensures IsLedger(ledger + Kept(fs, event))
  {
    EntriesHaveHeights(|ledger|, event);
    ConcatIsLedger(ledger, Kept(fs, event));
  }

  lemma LedgerHeights(ledger: seq<Entry>)
    requires IsLedger(ledger)
    ensures HeightsMatch(LeafView(ledger))
  {
    forall i | 0 <= i < |ledger| ensures LeafView(ledger)[i].value.Height() == i { assert EntryOk(ledger[i], i); }
  }

  /** Storage that shows a ledger opens to that ledger. */
  lemma {:induction false} StorageOpens(fs: Fs, ledger: seq<Entry>, leafDisk: Disk, blockDisk: Disk, genesis: Genesis)
    requires StorageShows(fs, ledger) && HeightsMatch(LeafView(ledger)) && ledger != []
    ensures var storage := FsOpened(fs.leaves.committed, fs.blocks.committed, leafDisk, blockDisk);
            && GenesisSucceeds(storage, genesis)
            && Settled(GenesisInserted(storage, genesis), ledger, |ledger|)
  {
    var storage := FsOpened(fs.leaves.committed, fs.blocks.committed, leafDisk, blockDisk);
    OpenedShows(fs.leaves.committed, fs.blocks.committed, ledger, leafDisk, blockDisk);
    SettledLeaves(storage, ledger, |ledger|);
    LookAfterGenesis(storage, genesis);
  }

  /** Opening the storage of a settled data source succeeds, and what is opened shows the same ledger, logs,
      indices and all. */
  lemma {:induction false} ReopenShows(fs: Fs, ledger: seq<Entry>, base: nat, leafDisk: Disk, blockDisk: Disk,
                                       genesis: Genesis)
    requires Settled(fs, ledger, base) && ledger != []
    ensures var storage := FsOpened(fs.leaves.committed, fs.blocks.committed, leafDisk, blockDisk);
            && GenesisSucceeds(storage, genesis)
            && Settled(GenesisInserted(storage, genesis), ledger, |ledger|)
  {
    SettledStorage(fs, ledger, base);
    StorageOpens(fs, ledger, leafDisk, blockDisk, genesis);
  }

  /** A run that fails does so at some event, and opening what both logs have committed by then succeeds and shows
      the ledger of the events before it, extended by exactly what is kept of that one: nothing if its update or
      the commit of the leaf log failed, its leaves without their blocks if the commit of the block log failed,
      all of it if only the store above them failed. */
  lemma {:induction false} FailureStorage(fs: SafeFs, ledger: seq<Entry>, base: nat, events: seq<Event>,
                                          leafDisk: Disk, blockDisk: Disk, genesis: Genesis) returns (k: nat)
    requires Settled(fs, ledger, base) && IsLedger(ledger) && ledger != [] && History(|ledger|, events)
    requires !ServeAll(fs, events).ok
    ensures k < |events| && ServeAll(fs, events[..k]).ok
    ensures var end := ServeAll(fs, events).state;
            var kept := LedgerAfter(ledger, events[..k]) + Kept(ServeAll(fs, events[..k]).state, events[k]);
            var storage := FsOpened(end.leaves.committed, end.blocks.committed, leafDisk, blockDisk);
            && GenesisSucceeds(storage, genesis)
            && Settled(GenesisInserted(storage, genesis), kept, |kept|)
  {
    k := ServeStops<SafeFs>(UpdateAndCommit, fs, events);
    HistoryPrefix(|ledger|, events, k);
    HistoryAt(ledger, events, k);
    RunRefinesLedger(fs, ledger, base, events[..k]);
    LedgerGrows(ledger, events[..k]);
    var mid := ServeAll(fs, events[..k]).state;
    var before := LedgerAfter(ledger, events[..k]);
    EventStorage(mid, before, base, events[k]);
    KeptIsLedger(mid, before, events[k]);
    LedgerHeights(before + Kept(mid, events[k]));
    StorageOpens(ServeAll(fs, events).state, before + Kept(mid, events[k]), leafDisk, blockDisk, genesis);
  }
}

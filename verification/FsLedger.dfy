/** The file-system data source driven by consensus events is the ledger: a sequence of leaves with
    optional payloads. */
module FsLedger {
  import opened Wrappers
  import opened QueryData
  import opened Decide
  import opened LogState
  import opened LogInvariant
  import opened LogRecovery
  import opened FsState
  import opened FsIndices
  import opened Service
  import FileSystem
  import LogIter
  import LogRuns

  /** The block log of a ledger: it ends with the last block received. */
  function BlockView(ledger: seq<Entry>): (r: seq<Option<BlockQueryData>>)
    ensures |r| <= |ledger|
  {
    if ledger == [] then []
    else
      var n := |ledger| - 1;
      var before := BlockView(ledger[..n]);
      if ledger[n].block.None? then before
      else before + Placeholders(n - |before|) + [ledger[n].block]
  }

  lemma {:induction false} BlockViewIs(ledger: seq<Entry>)
    ensures forall i :: 0 <= i < |BlockView(ledger)| ==> BlockView(ledger)[i] == ledger[i].block
    ensures forall i :: |BlockView(ledger)| <= i < |ledger| ==> ledger[i].block.None?
    ensures BlockView(ledger) != [] ==> ledger[|BlockView(ledger)| - 1].block.Some?
  {
    if ledger != [] { BlockViewIs(ledger[..|ledger| - 1]); }
  }

  ghost predicate Shows(fs: Fs, ledger: seq<Entry>) {
    && IndexInv(fs)
    && Mirrors(fs.leaves) && Mirrors(fs.blocks)
    && Stored(fs.leaves) == LeafView(ledger)
    && Stored(fs.blocks) == BlockView(ledger)
  }

  lemma LeafLogExtends(log: LeafLog, ledger: seq<Entry>, e: Entry)
    requires Inv(log) && Mirrors(log) && Stored(log) == LeafView(ledger)
    requires e.leaf.Height() == |ledger| && InsertSucceeds(log, |ledger|)
    ensures var t := Inserted(log, |ledger|, e.leaf); Mirrors(t) && Stored(t) == LeafView(ledger + [e])
  {
    AppendMirrors(log, |ledger|, e.leaf);
    AppendStores(log, |ledger|, e.leaf);
    assert Placeholders<LeafQueryData>(0) == [];
    assert LeafView(ledger) + [] + [Some(e.leaf)] == LeafView(ledger + [e]);
  }

  lemma {:induction false} BlockLogExtends(log: BlockLog, ledger: seq<Entry>, e: Entry)
    requires Inv(log) && Mirrors(log) && Stored(log) == BlockView(ledger)
    requires e.block.Some? && e.block.value.Height() == |ledger| && InsertSucceeds(log, |ledger|)
    ensures var t := Inserted(log, |ledger|, e.block.value); Mirrors(t) && Stored(t) == BlockView(ledger + [e])
  {
    AppendMirrors(log, |ledger|, e.block.value);
    AppendStores(log, |ledger|, e.block.value);
    assert (ledger + [e])[..|ledger|] == ledger;
  }

  lemma {:induction false} NoBlockExtends(ledger: seq<Entry>, e: Entry)
    requires e.block.None?
    ensures BlockView(ledger + [e]) == BlockView(ledger)
  {
    assert (ledger + [e])[..|ledger|] == ledger;
  }

  /** The insertions of one position, all successful, extend the ledger shown by that position. */
  lemma {:induction false} EntryExtends(fs: Fs, ledger: seq<Entry>, e: Entry)
    requires Shows(fs, ledger) && EntryOk(e, |ledger|)
    requires AllSucceed(fs, EntryOps(e))
    ensures Shows(ApplyAll(fs, EntryOps(e)), ledger + [e])
  {
    FileSystem.EntryOpsApply(fs, e);
    LeafInsertKeepsIndex(fs, e.leaf);
    LeafLogExtends(fs.leaves, ledger, e);
    if e.block.Some? {
      BlockInsertKeepsIndex(Apply(fs, InsertLeaf(e.leaf)), e.block.value);
      BlockLogExtends(fs.blocks, ledger, e);
    } else {
      NoBlockExtends(ledger, e);
    }
  }

  lemma {:induction false} SplitOps(fs: Fs, entries: seq<Entry>, n: nat)
    requires |entries| == n + 1 && FsSafe(fs) && AllSucceed(fs, Ops(entries))
    ensures AllSucceed(fs, Ops(entries[..n]))
    ensures var mid := ApplyAll(fs, Ops(entries[..n]));
            && AllSucceed(mid, EntryOps(entries[n]))
            && ApplyAll(fs, Ops(entries)) == ApplyAll(mid, EntryOps(entries[n]))
  {
    AllSucceedPrefix(fs, Ops(entries[..n]), EntryOps(entries[n]));
    FileSystem.ApplyConcat(fs, Ops(entries[..n]), EntryOps(entries[n]));
  }

  lemma {:induction false} EntriesExtendShown(fs: Fs, ledger: seq<Entry>, entries: seq<Entry>)
    requires Shows(fs, ledger) && IsLedger(ledger + entries)
    requires AllSucceed(fs, Ops(entries))
    ensures Shows(ApplyAll(fs, Ops(entries)), ledger + entries)
    decreases |entries|
  {
    if entries == [] {
      assert ledger + entries == ledger;
    } else {
      var n := |entries| - 1;
      SplitOps(fs, entries, n);
      SplitLedger(ledger, entries, n);
      EntriesExtendShown(fs, ledger, entries[..n]);
      EntryExtends(ApplyAll(fs, Ops(entries[..n])), ledger + entries[..n], entries[n]);
    }
  }

  lemma {:induction false} AllSucceedPrefix(fs: Fs, a: seq<Op>, b: seq<Op>)
    requires FsSafe(fs) && AllSucceed(fs, a + b)
    ensures AllSucceed(fs, a)
    decreases |a|
  {
    if a != [] {
      assert (a + b)[1..] == a[1..] + b;
      AllSucceedPrefix(Apply(fs, a[0]), a[1..], b);
    }
  }

  // ---- What the leaf stream has sent ----

  /** The leaf log has sent the leaves from height `base` on, where the session began, up to its stream
      position. */
  ghost predicate LeavesSent(log: LeafLog, leaves: seq<LeafQueryData>, base: nat) {
    base <= log.streamPos <= |leaves| && log.sent == leaves[base..log.streamPos]
  }

  lemma {:induction false} ApplyAllSends(fs: Fs, ops: seq<Op>)
    requires FsSafe(fs)
    ensures ApplyAll(fs, ops).leaves.sent == fs.leaves.sent && ApplyAll(fs, ops).leaves.streamPos == fs.leaves.streamPos
    decreases |ops|
  {
    if ops != [] {
      if ops[0].InsertLeaf? { LogRuns.InsertedFrame(fs.leaves, ops[0].leaf.Height(), ops[0].leaf); }
      if Succeeds(fs, ops[0]) { ApplyAllSends(Apply(fs, ops[0]), ops[1..]); }
    }
  }

  lemma CommitReads<T>(log: Log<T>)
    requires Inv(log) && Mirrors(log) && log.disk.commits > 0
    ensures Reads(Committed(log), Stored(log)) && |Committed(log).committed| == |Stored(log)|
  {
    CommittedInv(log);
    CommitStores(log);
    LogReads(Committed(log));
  }

  /** What a log that reads as the leaves sends beyond its old stream position are leaves. */
  lemma SendsLeaves(log: LeafLog, t: LeafLog, ledger: seq<Entry>, base: nat)
    requires Reads(t, LeafView(ledger)) && LeavesSent(log, Leaves(ledger), base)
    requires log.streamPos <= t.streamPos <= |ledger| && log.sent <= t.sent
    requires |t.sent| == |log.sent| + t.streamPos - log.streamPos
    requires forall i :: log.streamPos <= i < t.streamPos ==>
               At(t, i) == Some(Some(t.sent[|log.sent| + (i - log.streamPos)]))
    ensures LeavesSent(t, Leaves(ledger), base)
  {
    forall i | log.streamPos <= i < t.streamPos
      ensures t.sent[|log.sent| + (i - log.streamPos)] == Leaves(ledger)[i]
    {
      assert At(t, i) == Some(LeafView(ledger)[i]);
    }
    SentPrefix(log.sent, t.sent, Leaves(ledger), base, log.streamPos, t.streamPos);
  }

  lemma CommitSends(log: LeafLog, ledger: seq<Entry>, base: nat)
    requires Inv(log) && Mirrors(log) && Stored(log) == LeafView(ledger) && log.disk.commits > 0
    requires LeavesSent(log, Leaves(ledger), base)
    ensures LeavesSent(Committed(log), Leaves(ledger), base)
  {
    CommittedBroadcast(log);
    CommitReads(log);
    SendsLeaves(log, Committed(log), ledger, base);
  }

  lemma SentPrefix<A>(before: seq<A>, after: seq<A>, all: seq<A>, base: nat, lo: nat, hi: nat)
    requires base <= lo <= hi <= |all| && before == all[base..lo] && before <= after
    requires |after| == |before| + hi - lo
    requires forall i :: lo <= i < hi ==> after[|before| + (i - lo)] == all[i]
    ensures after == all[base..hi]
  {
    forall k | 0 <= k < |after| ensures after[k] == all[base..hi][k] {
      if k >= |before| {
        var i := lo + (k - |before|);
        assert after[|before| + (i - lo)] == all[i];
      }
    }
  }

  lemma CommitStores<T>(log: Log<T>)
    requires Inv(log) && Mirrors(log)
    ensures Mirrors(Committed(log)) && Stored(Committed(log)) == Stored(log)
    ensures log.disk.commits > 0 ==> Committed(log).pending == []
  {
    CommittedInv(log);
    CommittedBroadcast(log);
    CommitMirrors(log);
  }

  lemma CommitParts(fs: Fs)
    ensures var r := FsCommitted(fs);
            && r.leaves == Committed(fs.leaves) && (r.blocks == fs.blocks || r.blocks == Committed(fs.blocks))
            && (CommitSucceeds(fs) ==> r.blocks == Committed(fs.blocks))
  {
  }

  lemma SameStoresShow(fs: Fs, r: Fs, ledger: seq<Entry>)
    requires Shows(fs, ledger) && IndexInv(r) && Mirrors(r.leaves) && Mirrors(r.blocks)
    requires Stored(r.leaves) == Stored(fs.leaves) && Stored(r.blocks) == Stored(fs.blocks)
    ensures Shows(r, ledger)
  {
  }

  lemma CommitShows(fs: Fs, ledger: seq<Entry>)
    requires Shows(fs, ledger)
    ensures Shows(FsCommitted(fs), ledger)
    ensures CommitSucceeds(fs) ==> FsCommitted(fs).leaves.pending == [] && FsCommitted(fs).blocks.pending == []
  {
    CommitParts(fs);
    CommitKeepsIndex(fs);
    CommitStores(fs.leaves);
    CommitStores(fs.blocks);
    SameStoresShow(fs, FsCommitted(fs), ledger);
  }

  // ---- Whole runs ----

  type SafeFs = fs: Fs | FsSafe(fs) witness FsCreated(Disk(0, 0, false), Disk(0, 0, false))

  /** Update with one event and commit. */
  function UpdateAndCommit(fs: SafeFs, event: Event): Outcome<SafeFs> {
    var applied := ApplyAll(fs, Ops(Entries(event)));
    if AllSucceed(fs, Ops(Entries(event))) then Outcome(FsCommitted(applied), CommitSucceeds(applied))
    else Outcome(applied, false)
  }

  /** Nothing is outstanding, logs and indices show the ledger, and the leaf stream has sent its leaves from
      height `base` on, where the session began. */
  ghost predicate Settled(fs: Fs, ledger: seq<Entry>, base: nat) {
    && Shows(fs, ledger) && fs.leaves.pending == [] && fs.blocks.pending == []
    && LeavesSent(fs.leaves, Leaves(ledger), base)
  }

  function ServeAll(fs: SafeFs, events: seq<Event>): Outcome<SafeFs> {
    Serve<SafeFs>(UpdateAndCommit, fs, events)
  }

  lemma LeavesGrow(log: LeafLog, ledger: seq<Entry>, more: seq<Entry>, base: nat)
    requires LeavesSent(log, Leaves(ledger), base)
    ensures LeavesSent(log, Leaves(ledger + more), base)
  {
    assert Leaves(ledger + more)[base..log.streamPos] == Leaves(ledger)[base..log.streamPos];
  }

  lemma CommitSettles(fs: Fs, ledger: seq<Entry>, base: nat)
    requires Shows(fs, ledger) && LeavesSent(fs.leaves, Leaves(ledger), base) && CommitSucceeds(fs)
    ensures Settled(FsCommitted(fs), ledger, base)
  {
    CommitShows(fs, ledger);
    CommitSends(fs.leaves, ledger, base);
  }

  /** One event, all successful, takes a settled data source to a settled one. */
  lemma EventShows(fs: SafeFs, ledger: seq<Entry>, base: nat, event: Event)
    requires Settled(fs, ledger, base) && IsLedger(ledger) && Extends(|ledger|, event)
    requires UpdateAndCommit(fs, event).ok
    ensures Settled(UpdateAndCommit(fs, event).state, ledger + Entries(event), base)
  {
    EntriesExtend(ledger, event);
    EntriesExtendShown(fs, ledger, Entries(event));
    ApplyAllSends(fs, Ops(Entries(event)));
    LeavesGrow(fs.leaves, ledger, Entries(event), base);
    CommitSettles(ApplyAll(fs, Ops(Entries(event))), ledger + Entries(event), base);
  }

  /** Whole-run refinement: a settled data source that shows a ledger shows, after any history of
      Decide events each extending the chain, with every update and commit successful, the ledger that
      history describes, and has sent exactly its leaves since the session began. */
  lemma {:induction false} RunRefinesLedger(fs: SafeFs, ledger: seq<Entry>, base: nat, events: seq<Event>)
    requires Settled(fs, ledger, base) && IsLedger(ledger) && History(|ledger|, events)
    requires ServeAll(fs, events).ok
    ensures Settled(ServeAll(fs, events).state, LedgerAfter(ledger, events), base)
  {
    var shows := (f: SafeFs, l: seq<Entry>) => Settled(f, l, base) && IsLedger(l);
    forall f: SafeFs, l, e | shows(f, l) && Extends(|l|, e) && UpdateAndCommit(f, e).ok
      ensures shows(UpdateAndCommit(f, e).state, l + Entries(e))
    {
      EventShows(f, l, base, e);
      EntriesExtend(l, e);
    }
    ServeShows<SafeFs>(UpdateAndCommit, shows, fs, ledger, events);
  }

  /** The log reads as a plain sequence. */
  ghost predicate Reads<T>(log: Log<T>, view: seq<Option<T>>) {
    && log.cacheStart <= |log.committed|
    && View(log) == view
    && forall n: nat :: At(log, n) == if n < |view| then Some(view[n]) else None
  }

  lemma LogReads<T>(log: Log<T>)
    requires Inv(log) && Mirrors(log) && log.pending == []
    ensures log.cacheStart <= |log.committed| == |Stored(log)|
    ensures View(log) == Stored(log)
    ensures forall i: nat :: At(log, i) == if i < |Stored(log)| then Some(Stored(log)[i]) else None
    ensures log.streamPos < |Stored(log)| ==> Stored(log)[log.streamPos].None?
  {
    assert Stored(log) == Flat(log.committed);
    assert Flat(log.committed[..log.cacheStart]) == Stored(log)[..log.cacheStart];
    forall i: nat ensures At(log, i) == if i < |Stored(log)| then Some(Stored(log)[i]) else None {
      LogIter.AtIsView(log, i);
    }
  }

  lemma LeafLogReads(log: LeafLog, ledger: seq<Entry>, base: nat)
    requires Inv(log) && Mirrors(log) && log.pending == [] && Stored(log) == LeafView(ledger)
    requires LeavesSent(log, Leaves(ledger), base)
    ensures Reads(log, LeafView(ledger)) && SizeHint(log, 0) == |ledger|
    ensures log.streamPos == |ledger| && base <= |ledger| && log.sent == Leaves(ledger)[base..]
  {
    LogReads(log);
  }

  lemma {:induction false} BlockLogReads(log: BlockLog, ledger: seq<Entry>)
    requires Inv(log) && Mirrors(log) && log.pending == [] && Stored(log) == BlockView(ledger)
    ensures Reads(log, BlockView(ledger))
    ensures log.streamPos <= |BlockView(ledger)|
    ensures log.streamPos < |BlockView(ledger)| ==> ledger[log.streamPos].block.None?
  {
    LogReads(log);
    BlockViewIs(ledger);
  }

  lemma SettledLeaves(fs: Fs, ledger: seq<Entry>, base: nat)
    requires Settled(fs, ledger, base)
    ensures Reads(fs.leaves, LeafView(ledger)) && BlockHeight(fs) == |ledger|
    ensures fs.leaves.streamPos == |ledger| && base <= |ledger| && fs.leaves.sent == Leaves(ledger)[base..]
  {
    LeafLogReads(fs.leaves, ledger, base);
  }

  /** What a settled data source that shows a ledger answers: the leaf log has no hole, is as long as the
      chain and has sent all of it; the block log holds each payload or a placeholder up to the last payload,
      and its stream waits for the first payload that is not there. */
  lemma {:induction false} SettledReads(fs: Fs, ledger: seq<Entry>, base: nat)
    requires Settled(fs, ledger, base)
    ensures Reads(fs.leaves, LeafView(ledger)) && BlockHeight(fs) == |ledger|
    ensures Reads(fs.blocks, BlockView(ledger))
    ensures fs.leaves.streamPos == |ledger| && base <= |ledger| && fs.leaves.sent == Leaves(ledger)[base..]
    ensures fs.blocks.streamPos <= |BlockView(ledger)|
    ensures fs.blocks.streamPos < |BlockView(ledger)| ==> ledger[fs.blocks.streamPos].block.None?
  {
    SettledLeaves(fs, ledger, base);
    BlockLogReads(fs.blocks, ledger);
  }

  lemma EmptyShows(leafDisk: Disk, blockDisk: Disk)
    ensures Shows(FsCreated(leafDisk, blockDisk), [])
    ensures LeavesSent(FsCreated(leafDisk, blockDisk).leaves, [], 0)
  {
    CreatedInv<LeafQueryData>(CACHED_LEAVES_COUNT, leafDisk);
    CreatedInv<BlockQueryData>(CACHED_BLOCKS_COUNT, blockDisk);
  }

  lemma {:induction false} GenesisApplied(fs: Fs, genesis: Genesis)
    requires Shows(fs, []) && LeavesSent(fs.leaves, [], 0)
    requires genesis.Valid() && AllSucceed(fs, GenesisOps(genesis))
    ensures var r := ApplyAll(fs, GenesisOps(genesis));
            Shows(r, [GenesisEntry(genesis)]) && LeavesSent(r.leaves, Leaves([GenesisEntry(genesis)]), 0)
  {
    EntryExtends(fs, [], GenesisEntry(genesis));
    ApplyAllSends(fs, GenesisOps(genesis));
    assert [] + [GenesisEntry(genesis)] == [GenesisEntry(genesis)];
  }

  lemma GenesisShows(leafDisk: Disk, blockDisk: Disk, genesis: Genesis)
    requires genesis.Valid() && GenesisSucceeds(FsCreated(leafDisk, blockDisk), genesis)
    ensures Settled(GenesisInserted(FsCreated(leafDisk, blockDisk), genesis), [GenesisEntry(genesis)], 0)
  {
    var fs := FsCreated(leafDisk, blockDisk);
    EmptyShows(leafDisk, blockDisk);
    GenesisApplied(fs, genesis);
    CommitSettles(ApplyAll(fs, GenesisOps(genesis)), [GenesisEntry(genesis)], 0);
  }

  /** A data source as it is created on some disks, managing the store above its logs or not. */
  ghost predicate CreatedOn(fs: Fs, leafDisk: Disk, blockDisk: Disk, genesis: Genesis) {
    var empty := FsCreated(leafDisk, blockDisk);
    GenesisSucceeds(empty, genesis) && fs == GenesisInserted(empty, genesis).(top := fs.top)
  }

  ghost predicate IsCreated(fs: Fs, genesis: Genesis) {
    exists leafDisk, blockDisk :: CreatedOn(fs, leafDisk, blockDisk, genesis)
  }

  lemma CreatedShows(fs: Fs, genesis: Genesis, ledger: seq<Entry>)
    requires genesis.Valid() && IsCreated(fs, genesis) && ledger == [GenesisEntry(genesis)]
    ensures Settled(fs, ledger, 0) && FsSafe(fs)
  {
    var leafDisk, blockDisk :| CreatedOn(fs, leafDisk, blockDisk, genesis);
    GenesisShows(leafDisk, blockDisk, genesis);
  }

  lemma OpenedSends(store: seq<Load<LeafQueryData>>, cacheSize: nat, disk: Disk, ledger: seq<Entry>)
    requires Flat(store) == LeafView(ledger)
    ensures LeavesSent(Opened(store, cacheSize, disk), Leaves(ledger), |ledger|)
  {
    FirstHoleIs(Flat(store), |ledger|);
  }

  lemma {:induction false} OpenedShows(leafStore: seq<Load<LeafQueryData>>, blockStore: seq<Load<BlockQueryData>>,
                                       ledger: seq<Entry>, leafDisk: Disk, blockDisk: Disk)
    requires Flat(leafStore) == LeafView(ledger) && Flat(blockStore) == BlockView(ledger)
    requires HeightsMatch(LeafView(ledger))
    ensures Settled(FsOpened(leafStore, blockStore, leafDisk, blockDisk), ledger, |ledger|)
  {
    OpenedIndexInv(leafStore, blockStore, leafDisk, blockDisk);
    var o := FsOpened(leafStore, blockStore, leafDisk, blockDisk);
    assert Stored(o.leaves) == Flat(leafStore);
    assert Stored(o.blocks) == Flat(blockStore);
    OpenedSends(leafStore, CACHED_LEAVES_COUNT, leafDisk, ledger);
  }

  lemma LookAfterGenesis(fs: Fs, genesis: Genesis)
    requires FsSafe(fs) && BlockHeight(fs) != 0
    ensures GenesisInserted(fs, genesis) == fs && GenesisSucceeds(fs, genesis)
  {
  }

  // ---- Subscriptions ----

  lemma {:induction false} CollectedIs<T>(log: Log<T>, items: seq<T>, i: nat, n: nat)
    requires i + n <= |items| && forall j :: i <= j < i + n ==> At(log, j) == Some(Some(items[j]))
    ensures Collected(log, i, n) == Some(items[i..i + n])
    decreases n
  {
    if n > 0 {
      CollectedIs(log, items, i + 1, n - 1);
      assert items[i..i + n] == [items[i]] + items[i + 1..i + n];
    }
  }

  lemma SubscribedInFull<T>(log: Log<T>, items: seq<T>, height: nat)
    requires forall i :: 0 <= i < |items| ==> At(log, i) == Some(Some(items[i]))
    requires log.streamPos == |items|
    ensures Subscribed(log, height) ==
            Some(Subscription(items[Min(height, |items|)..], SaturatingSub(height, |items|), |log.sent|))
  {
    if height < |items| {
      CollectedIs(log, items, height, |items| - height);
      assert items[height..height + (|items| - height)] == items[height..];
    }
  }

  lemma LeafLogSubscribed(log: LeafLog, ledger: seq<Entry>, height: nat)
    requires Reads(log, LeafView(ledger)) && log.streamPos == |ledger|
    ensures Subscribed(log, height) ==
            Some(Subscription(Leaves(ledger)[Min(height, |ledger|)..], SaturatingSub(height, |ledger|), |log.sent|))
  {
    forall i | 0 <= i < |ledger| ensures At(log, i) == Some(Some(Leaves(ledger)[i])) {
      assert At(log, i) == Some(LeafView(ledger)[i]);
    }
    SubscribedInFull(log, Leaves(ledger), height);
  }

  lemma DeliveredFrom<A>(before: seq<A>, after: seq<A>, base: nat, height: nat)
    requires before <= after && base <= |before|
    ensures var stream := Subscription(before[Min(height, |before|)..], SaturatingSub(height, |before|), |before| - base);
            Delivered(stream, after[base..]) == after[Min(height, |after|)..]
  {
    var received := after[|before|..];
    assert after[base..][|before| - base..] == received;
    if height < |before| {
      assert after[height..] == before[height..] + received[0..];
    } else {
      var skipped := Min(height - |before|, |received|);
      assert received[skipped..] == after[Min(height, |after|)..];
      assert before[|before|..] + received[skipped..] == received[skipped..];
    }
  }

  /** A leaf subscription made while `ledger` was shown succeeds, whatever its height, and when `after` is
      shown it has delivered the leaves of `after` from that height on, once each, in order. */
  lemma SettledDelivers(fs: Fs, ledger: seq<Entry>, end: Fs, after: seq<Entry>, base: nat, height: nat)
    requires Settled(fs, ledger, base) && Settled(end, after, base) && ledger <= after
    ensures Subscribed(fs.leaves, height).Some?
    ensures var stream := Subscribed(fs.leaves, height).value;
            && stream.since <= |end.leaves.sent|
            && Delivered(stream, end.leaves.sent) == Leaves(after)[Min(height, |after|)..]
  {
    SettledLeaves(fs, ledger, base);
    SettledLeaves(end, after, base);
    LeafLogSubscribed(fs.leaves, ledger, height);
    DeliveredFrom(Leaves(ledger), Leaves(after), base, height);
  }

  /** For every history: a subscription made between two events delivers the leaves of the ledger from its
      height on. */
  lemma {:induction false} SubscriptionDelivers(fs: SafeFs, ledger: seq<Entry>, base: nat, events: seq<Event>,
                                                height: nat)
    requires Settled(fs, ledger, base) && IsLedger(ledger) && History(|ledger|, events)
    requires ServeAll(fs, events).ok
    ensures Subscribed(fs.leaves, height).Some?
    ensures var stream := Subscribed(fs.leaves, height).value;
            var sent := ServeAll(fs, events).state.leaves.sent;
            var after := LedgerAfter(ledger, events);
            && stream.since <= |sent|
            && Delivered(stream, sent) == Leaves(after)[Min(height, |after|)..]
  {
    RunRefinesLedger(fs, ledger, base, events);
    LedgerGrows(ledger, events);
    SettledDelivers(fs, ledger, ServeAll(fs, events).state, LedgerAfter(ledger, events), base, height);
  }
}

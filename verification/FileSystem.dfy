/** The file-system data source: two ledger logs and four indices updated in place, each method proved
    against its transition or query in FsState.dfy. */
module FileSystem {
  import opened Wrappers
  import opened QueryData
  import opened Decide
  import opened EarliestIndex
  import opened LogState
  import opened LogIter
  import opened FsState
  import L = LedgerLog

  class FileSystemDataSource {
    var indexByLeafHash: map<Hash, nat>
    var indexByBlockHash: map<Hash, nat>
    var indexByTxnHash: map<Hash, (nat, nat)>
    var indexByProposerId: map<Key, seq<nat>>
    var topStorage: Option<nat>
    const leafStorage: L.LedgerLog<LeafQueryData>
    const blockStorage: L.LedgerLog<BlockQueryData>

    ghost function State(): Fs
      reads this, leafStorage, blockStorage
    {
      Fs(leafStorage.State(), blockStorage.State(), Index(), topStorage)
    }

    ghost function Index(): Indices
      reads this
    {
      Indices(indexByLeafHash, indexByBlockHash, indexByTxnHash, indexByProposerId)
    }

    ghost predicate Valid()
      reads this, leafStorage, blockStorage
    {
      leafStorage as object != blockStorage as object && FsSafe(State())
    }

    /** Two logs and no indices. */
    constructor (leafStorage: L.LedgerLog<LeafQueryData>, blockStorage: L.LedgerLog<BlockQueryData>)
      ensures this.leafStorage == leafStorage && this.blockStorage == blockStorage
      ensures Index() == NO_INDICES && topStorage == None
    {
      indexByLeafHash, indexByBlockHash, indexByTxnHash, indexByProposerId := map[], map[], map[], map[];
      topStorage := None;
      this.leafStorage, this.blockStorage := leafStorage, blockStorage;
    }

    /** Empty storage, with the genesis objects put in; nothing if that fails. */
    static method CreateWithStore(leafDisk: Disk, blockDisk: Disk, genesis: Genesis)
      returns (ds: Option<FileSystemDataSource>)
      ensures ds.Some? == GenesisSucceeds(FsCreated(leafDisk, blockDisk), genesis)
      ensures ds.Some? ==>
        && ds.value.Valid() && fresh(ds.value) && fresh(ds.value.leafStorage) && fresh(ds.value.blockStorage)
        && ds.value.State() == GenesisInserted(FsCreated(leafDisk, blockDisk), genesis)
    {
      var leaves := new L.LedgerLog.Create(CACHED_LEAVES_COUNT, leafDisk);
      var blocks := new L.LedgerLog.Create(CACHED_BLOCKS_COUNT, blockDisk);
      var created := new FileSystemDataSource(leaves, blocks);
      var ok := created.InsertGenesis(genesis);
      ds := if ok then Some(created) else None;
    }

    /** Existing storage: the indices are rebuilt by iterating over the leaves and then the blocks. */
    static method OpenWithStore(leafStore: seq<Load<LeafQueryData>>, blockStore: seq<Load<BlockQueryData>>,
                                leafDisk: Disk, blockDisk: Disk, genesis: Genesis)
      returns (ds: Option<FileSystemDataSource>)
      ensures var start := FsOpened(leafStore, blockStore, leafDisk, blockDisk);
              && ds.Some? == GenesisSucceeds(start, genesis)
              && (ds.Some? ==>
                    && ds.value.Valid() && fresh(ds.value) && fresh(ds.value.leafStorage) && fresh(ds.value.blockStorage)
                    && ds.value.State() == GenesisInserted(start, genesis))
    {
      var leaves := new L.LedgerLog.Open(leafStore, CACHED_LEAVES_COUNT, leafDisk);
      var blocks := new L.LedgerLog.Open(blockStore, CACHED_BLOCKS_COUNT, blockDisk);
      var reopened := new FileSystemDataSource(leaves, blocks);
      reopened.RebuildLeaves(leafStore);
      reopened.RebuildBlocks(blockStore);
      var ok := reopened.InsertGenesis(genesis);
      ds := if ok then Some(reopened) else None;
    }

    /** As `CreateWithStore`, managing the store above the logs: `top` is what that store will accept, if it
        can be opened. */
    static method Create(leafDisk: Disk, blockDisk: Disk, top: Option<nat>, genesis: Genesis)
      returns (ds: Option<FileSystemDataSource>)
      ensures ds.Some? == (GenesisSucceeds(FsCreated(leafDisk, blockDisk), genesis) && top.Some?)
      ensures ds.Some? ==>
        && ds.value.Valid() && fresh(ds.value) && fresh(ds.value.leafStorage) && fresh(ds.value.blockStorage)
        && ds.value.State() == GenesisInserted(FsCreated(leafDisk, blockDisk), genesis).(top := top)
    {
      ds := CreateWithStore(leafDisk, blockDisk, genesis);
      if ds.None? { return; }
      if top.None? { return None; }
      ds.value.topStorage := top;
    }

    static method Open(leafStore: seq<Load<LeafQueryData>>, blockStore: seq<Load<BlockQueryData>>,
                       leafDisk: Disk, blockDisk: Disk, top: Option<nat>, genesis: Genesis)
      returns (ds: Option<FileSystemDataSource>)
      ensures var start := FsOpened(leafStore, blockStore, leafDisk, blockDisk);
              && ds.Some? == (GenesisSucceeds(start, genesis) && top.Some?)
              && (ds.Some? ==>
                    && ds.value.Valid() && fresh(ds.value) && fresh(ds.value.leafStorage) && fresh(ds.value.blockStorage)
                    && ds.value.State() == GenesisInserted(start, genesis).(top := top))
    {
      ds := OpenWithStore(leafStore, blockStore, leafDisk, blockDisk, genesis);
      if ds.None? { return; }
      if top.None? { return None; }
      ds.value.topStorage := top;
    }

    method RebuildLeaves(ghost store: seq<Load<LeafQueryData>>)
      requires Holds(leafStorage.State(), store)
      modifies this
      ensures Index() == IndexLeaves(old(Index()), Present(Flat(store)))
      ensures topStorage == old(topStorage)
    {
      ghost var log := leafStorage.State();
      ghost var view := Flat(store);
      var leaves := leafStorage.Iter();
      var item := leaves.Next();
      ghost var i := 0;
      OpenedAt(store, log);
      while item.Some?
        invariant leaves.Valid() && leaves.Over(log) && fresh(leaves)
        invariant i <= |view| && leaves.index == i + 1 && item == At(log, i)
        invariant Index() == IndexLeaves(old(Index()), Present(view[..i])) && topStorage == old(topStorage)
        decreases |view| - i
      {
        LeavesStep(old(Index()), view, i);
        match item.value {
          case None =>
          case Some(leaf) => AddLeafToIndices(leaf);
        }
        i := i + 1;
        item := leaves.Next();
      }
      assert view[..i] == view;
    }

    method RebuildBlocks(ghost store: seq<Load<BlockQueryData>>)
      requires Holds(blockStorage.State(), store)
      modifies this
      ensures Index() == IndexBlocks(old(Index()), Present(Flat(store)))
      ensures topStorage == old(topStorage)
    {
      ghost var log := blockStorage.State();
      ghost var view := Flat(store);
      var blocks := blockStorage.Iter();
      var item := blocks.Next();
      ghost var i := 0;
      OpenedAt(store, log);
      while item.Some?
        invariant blocks.Valid() && blocks.Over(log) && fresh(blocks)
        invariant i <= |view| && blocks.index == i + 1 && item == At(log, i)
        invariant Index() == IndexBlocks(old(Index()), Present(view[..i])) && topStorage == old(topStorage)
        decreases |view| - i
      {
        BlocksStep(old(Index()), view, i);
        match item.value {
          case None =>
          case Some(block) => AddBlockToIndices(block);
        }
        i := i + 1;
        item := blocks.Next();
      }
      assert view[..i] == view;
    }

    method AddLeafToIndices(leaf: LeafQueryData)
      modifies this
      ensures Index() == IndexLeaf(old(Index()), leaf)
      ensures topStorage == old(topStorage)
    {
      indexByLeafHash := indexByLeafHash[leaf.Hash() := leaf.Height()];
      indexByBlockHash := UpdateByHash(indexByBlockHash, leaf.BlockHash(), leaf.Height(), HeightLess);
      if leaf.Proposer() !in indexByProposerId {
        indexByProposerId := indexByProposerId[leaf.Proposer() := []];
      }
      indexByProposerId := indexByProposerId[leaf.Proposer() := indexByProposerId[leaf.Proposer()] + [leaf.Height()]];
    }

    method AddBlockToIndices(block: BlockQueryData)
      modifies this
      ensures Index() == IndexBlock(old(Index()), block)
      ensures topStorage == old(topStorage)
    {
      var txns := Enumerate(block.payload);
      ghost var entries := TxnEntries(block);
      for k := 0 to |txns|
        invariant Index() == old(Index()).(byTxnHash := UpdateAll(old(indexByTxnHash), entries[..k], TxnLess))
        invariant topStorage == old(topStorage)
      {
        indexByTxnHash := UpdateByHash(indexByTxnHash, txns[k].1, (block.Height(), txns[k].0), TxnLess);
        assert entries[..k + 1][..k] == entries[..k];
      }
      assert entries[..|txns|] == entries;
    }

    /** Consensus emits no event for the genesis block, so it is put in when storage is empty. */
    method InsertGenesis(genesis: Genesis) returns (ok: bool)
      requires Valid()
      modifies this, leafStorage, blockStorage
      ensures Valid()
      ensures State() == GenesisInserted(old(State()), genesis)
      ensures ok == GenesisSucceeds(old(State()), genesis)
    {
      ghost var before := State();
      var height := GetBlockHeight();
      if height != 0 { return true; }
      EntryOpsApply(before, GenesisEntry(genesis));
      ok := InsertLeaf(genesis.leaf);
      if !ok { return; }
      ok := InsertBlock(genesis.block);
      if !ok { return; }
      ok := Commit();
    }

    method InsertLeaf(leaf: LeafQueryData) returns (ok: bool)
      requires Valid()
      modifies this, leafStorage
      ensures Valid()
      ensures State() == LeafInserted(old(State()), leaf)
      ensures ok == Succeeds(old(State()), Decide.InsertLeaf(leaf))
    {
      ok := leafStorage.Insert(leaf.Height(), leaf);
      if ok { AddLeafToIndices(leaf); }
      assert State() == LeafInserted(old(State()), leaf);
    }

    method InsertBlock(block: BlockQueryData) returns (ok: bool)
      requires Valid()
      modifies this, blockStorage
      ensures Valid()
      ensures State() == BlockInserted(old(State()), block)
      ensures ok == Succeeds(old(State()), Decide.InsertBlock(block))
    {
      ok := blockStorage.Insert(block.Height(), block);
      if ok { AddBlockToIndices(block); }
      assert State() == BlockInserted(old(State()), block);
    }

    /** Insert one position of the ledger: the leaf and, if its payload is known, its block. */
    method InsertEntry(leaf: Leaf, qc: QC) returns (ok: bool)
      requires Valid() && qc.leafCommit == leaf.hash
      modifies this, leafStorage, blockStorage
      ensures Valid()
      ensures State() == ApplyAll(old(State()), EntryOps(EntryOf((qc, leaf))))
      ensures ok == AllSucceed(old(State()), EntryOps(EntryOf((qc, leaf))))
    {
      EntryOpsApply(State(), EntryOf((qc, leaf)));
      var leafData := NewLeaf(leaf, qc);
      assert leafData.Ok?;
      ok := InsertLeaf(leafData.value);
      if ok && leaf.payload.Some? {
        var blockData := NewBlock(leaf, qc, leaf.payload.value);
        assert blockData.Ok?;
        ok := InsertBlock(blockData.value);
      }
    }

    /** Take in a consensus event. The caller has authenticated it, so the pairs are consistent. */
    method Update(event: Event) returns (ok: bool)
      requires Valid()
      requires event.DecideEvent? ==> Justified(event.chain, event.qc)
      modifies this, leafStorage, blockStorage
      ensures Valid()
      ensures State() == ApplyAll(old(State()), Ops(Entries(event)))
      ensures ok == AllSucceed(old(State()), Ops(Entries(event)))
    {
      ok := true;
      if event.DecideEvent? {
        ghost var before := State();
        ghost var entries := Entries(event);
        var pairs := Pairs(event.chain, event.qc);
        PairsConsistentIff(event.chain, event.qc);
        PairsAre(event.chain, event.qc);
        for k := 0 to |pairs|
          invariant Valid()
          invariant AllSucceed(before, Ops(entries[..k]))
          invariant State() == ApplyAll(before, Ops(entries[..k]))
        {
          var (qc, leaf) := pairs[k];
          assert entries[k] == EntryOf(pairs[k]);
          NextEntry(before, entries, k);
          ok := InsertEntry(leaf, qc);
          if !ok { return; }
        }
        assert entries[..|pairs|] == entries;
      }
    }

    /** Commit both logs and, if this data source manages it, the store above them; stop at the first
        failure. */
    method Commit() returns (ok: bool)
      requires Valid()
      modifies this`topStorage, leafStorage, blockStorage
      ensures Valid()
      ensures State() == FsCommitted(old(State()))
      ensures ok == CommitSucceeds(old(State()))
    {
      ok := leafStorage.CommitVersion();
      if !ok { return; }
      ok := blockStorage.CommitVersion();
      if !ok || topStorage.None? { return; }
      if topStorage.value == 0 { return false; }
      topStorage := Some(topStorage.value - 1);
    }

    /** A log that cannot be reverted is fatal, so reverting needs both to be able to. */
    method Revert()
      requires Valid()
      requires CanRevert(State())
      modifies leafStorage, blockStorage
      ensures Valid()
      ensures State() == FsReverted(old(State()))
    {
      var _ := leafStorage.RevertVersion();
      var _ := blockStorage.RevertVersion();
    }

    // ---- Queries ----

    method GetBlockHeight() returns (height: nat)
      ensures height == BlockHeight(State())
    {
      height := leafStorage.Len();
    }

    method GetLeaf(id: ResourceId) returns (r: QueryResult<LeafQueryData>)
      ensures r == LeafById(State(), id)
    {
      var n;
      match id {
        case Number(m) => n := m;
        case ByHashId(h) =>
          if h !in indexByLeafHash { return NotFound; }
          n := indexByLeafHash[h];
      }
      var iter := leafStorage.Iter();
      var item := iter.Nth(n);
      r := Answer(item);
    }

    method GetBlock(id: ResourceId) returns (r: QueryResult<BlockQueryData>)
      ensures r == BlockById(State(), id)
    {
      var n;
      match id {
        case Number(m) => n := m;
        case ByHashId(h) =>
          if h !in indexByBlockHash { return NotFound; }
          n := indexByBlockHash[h];
      }
      var iter := blockStorage.Iter();
      var item := iter.Nth(n);
      r := Answer(item);
    }

    method GetLeafRange(start: Bound, end: Bound) returns (r: seq<QueryResult<LeafQueryData>>)
      ensures r == RangeFrom(leafStorage.State(), FirstOf(start), end)
    {
      var iter := leafStorage.Iter();
      r := RangeStream(iter, leafStorage.State(), start, end);
    }

    method GetBlockRange(start: Bound, end: Bound) returns (r: seq<QueryResult<BlockQueryData>>)
      ensures r == RangeFrom(blockStorage.State(), FirstOf(start), end)
    {
      var iter := blockStorage.Iter();
      r := RangeStream(iter, blockStorage.State(), start, end);
    }

    method GetBlockWithTransaction(hash: Hash) returns (r: QueryResult<(BlockQueryData, nat)>)
      ensures r == BlockWithTransaction(State(), hash)
    {
      if hash !in indexByTxnHash { return NotFound; }
      var (height, ix) := indexByTxnHash[hash];
      var block := GetBlock(Number(height));
      match block
      case NotFound => r := NotFound;
      case Missing => r := Missing;
      case Found(b) => r := Found((b, ix));
    }

    method GetProposals(proposer: Key, limit: Option<nat>) returns (r: QueryResult<seq<LeafQueryData>>)
      ensures r == Proposals(State(), proposer, limit)
    {
      var all := if proposer in indexByProposerId then indexByProposerId[proposer] else [];
      var ids := all[(if limit.Some? then SaturatingSub(|all|, limit.value) else 0)..];
      var leaves := [];
      GatherUnit(State(), ids);
      for k := 0 to |ids|
        invariant Gather(State(), ids) == Prepend(leaves, Gather(State(), ids[k..]))
      {
        var leaf := GetLeaf(Number(ids[k]));
        assert ids[k..][1..] == ids[k + 1..];
        match leaf {
          case NotFound => return NotFound;
          case Missing => return Missing;
          case Found(x) =>
            PrependSnoc(leaves, x, Gather(State(), ids[k + 1..]));
            leaves := leaves + [x];
        }
      }
      assert ids[|ids|..] == [] && leaves + [] == leaves;
      r := Found(leaves);
    }

    method GetProposalCount(proposer: Key) returns (n: nat)
      ensures n == CountProposals(State(), proposer)
    {
      n := if proposer in indexByProposerId then |indexByProposerId[proposer]| else 0;
    }

    method SubscribeLeaves(height: nat) returns (r: Option<Subscription<LeafQueryData>>)
      ensures r == Subscribed(leafStorage.State(), height)
    {
      r := leafStorage.Subscribe(height);
    }

    method SubscribeBlocks(height: nat) returns (r: Option<Subscription<BlockQueryData>>)
      ensures r == Subscribed(blockStorage.State(), height)
    {
      r := blockStorage.Subscribe(height);
    }
  }

  /** Move an iterator to the start of the range and take items up to its end. */
  method RangeStream<T>(iter: Iter<T>, ghost s: Log<T>, start: Bound, end: Bound) returns (items: seq<QueryResult<T>>)
    requires iter.Valid() && iter.index == 0 && iter.Over(s)
    modifies iter
    ensures items == RangeFrom(s, FirstOf(start), end)
  {
    var pos := 0;
    match start {
      case Included(n) =>
        if n > 0 { var _ := iter.Nth(n - 1); }
        pos := n;
      case Excluded(n) =>
        var _ := iter.Nth(n);
        pos := n + 1;
      case Unbounded =>
    }
    items := [];
    while BelowEnd(pos, end)
      invariant iter.Valid() && iter.Over(s) && iter.index == pos
      invariant items + RangeFrom(s, pos, end) == RangeFrom(s, FirstOf(start), end)
      decreases s.cacheStart + |s.cache| - pos
    {
      var item := iter.Next();
      assert item == At(s, pos);
      if item.None? {
        assert items + [] == items;
        return;
      }
      RangeFromStep(s, pos, end, items);
      items := items + [Answer(item)];
      pos := pos + 1;
    }
    assert items + [] == items;
  }

  lemma RangeFromStep<T>(s: Log<T>, pos: nat, end: Bound, items: seq<QueryResult<T>>)
    requires BelowEnd(pos, end) && At(s, pos).Some?
    ensures items + RangeFrom(s, pos, end) == items + [Answer(At(s, pos))] + RangeFrom(s, pos + 1, end)
  {
  }

  /** A freshly opened log: a window on its store. */
  ghost predicate Holds<T>(log: Log<T>, store: seq<Load<T>>) {
    log.committed == store && log.cacheStart <= |store| && log.cache == Flat(store)[log.cacheStart..]
  }

  lemma OpenedAt<T>(store: seq<Load<T>>, log: Log<T>)
    requires Holds(log, store)
    ensures forall i: nat :: At(log, i) == if i < |store| then Some(Flat(store)[i]) else None
  {
  }

  // ---- Sequencing ----

  lemma {:induction false} ApplyConcat(fs: Fs, a: seq<Op>, b: seq<Op>)
    requires FsSafe(fs) && AllSucceed(fs, a)
    ensures AllSucceed(fs, a + b) == AllSucceed(ApplyAll(fs, a), b)
    ensures ApplyAll(fs, a + b) == ApplyAll(ApplyAll(fs, a), b)
    decreases |a|
  {
    if a == [] {
      assert a + b == b;
    } else {
      ApplyConcat(Apply(fs, a[0]), a[1..], b);
      assert (a + b)[1..] == a[1..] + b;
    }
  }

  lemma {:induction false} ApplyCutShort(fs: Fs, a: seq<Op>, all: seq<Op>)
    requires FsSafe(fs) && a <= all && !AllSucceed(fs, a)
    ensures !AllSucceed(fs, all) && ApplyAll(fs, all) == ApplyAll(fs, a)
    decreases |a|
  {
    if a != [] && Succeeds(fs, a[0]) {
      ApplyCutShort(Apply(fs, a[0]), a[1..], all[1..]);
    }
  }

  /** One more position of a stretch of the ledger: if its insertions succeed, the stretch has succeeded up to
      there, and if not, that is where it stops. */
  lemma {:induction false} NextEntry(fs: Fs, entries: seq<Entry>, k: nat)
    requires FsSafe(fs) && k < |entries| && AllSucceed(fs, Ops(entries[..k]))
    ensures var mid := ApplyAll(fs, Ops(entries[..k]));
            var ops := EntryOps(entries[k]);
            var upTo := if AllSucceed(mid, ops) then Ops(entries[..k + 1]) else Ops(entries);
            && AllSucceed(fs, upTo) == AllSucceed(mid, ops)
            && ApplyAll(fs, upTo) == ApplyAll(mid, ops)
  {
    var done, ops := Ops(entries[..k]), EntryOps(entries[k]);
    OpsStep(entries, k);
    ApplyConcat(fs, done, ops);
    if !AllSucceed(fs, done + ops) { ApplyCutShort(fs, done + ops, Ops(entries)); }
  }

  lemma {:induction false} EntryOpsApply(fs: Fs, e: Entry)
    requires FsSafe(fs)
    ensures var mid := Apply(fs, Decide.InsertLeaf(e.leaf));
            var first := Succeeds(fs, Decide.InsertLeaf(e.leaf));
            && (!first ==> !AllSucceed(fs, EntryOps(e)) && ApplyAll(fs, EntryOps(e)) == mid)
            && (first && e.block.None? ==> AllSucceed(fs, EntryOps(e)) && ApplyAll(fs, EntryOps(e)) == mid)
            && (first && e.block.Some? ==>
                  && AllSucceed(fs, EntryOps(e)) == Succeeds(mid, Decide.InsertBlock(e.block.value))
                  && ApplyAll(fs, EntryOps(e)) == Apply(mid, Decide.InsertBlock(e.block.value)))
  {
    var ops := EntryOps(e);
    var mid := Apply(fs, ops[0]);
    if e.block.Some? {
      OneOp(mid, ops[1]);
      assert ops[1..] == [ops[1]];
    } else {
      assert ops[1..] == [];
    }
  }

  lemma {:induction false} OneOp(fs: Fs, op: Op)
    requires FsSafe(fs)
    ensures AllSucceed(fs, [op]) == Succeeds(fs, op)
    ensures ApplyAll(fs, [op]) == Apply(fs, op)
  {
    assert [op][1..] == [];
    assert ApplyAll(Apply(fs, op), []) == Apply(fs, op);
  }

  function Prepend<A>(front: seq<A>, rest: QueryResult<seq<A>>): QueryResult<seq<A>> {
    match rest
    case NotFound => NotFound
    case Missing => Missing
    case Found(items) => Found(front + items)
  }

  lemma {:induction false} GatherUnit(fs: Fs, ids: seq<nat>)
    ensures Gather(fs, ids) == Prepend([], Gather(fs, ids[0..]))
  {
    assert ids[0..] == ids;
    if Gather(fs, ids).Found? { assert [] + Gather(fs, ids).value == Gather(fs, ids).value; }
  }

  lemma PrependSnoc<A>(front: seq<A>, x: A, rest: QueryResult<seq<A>>)
    ensures Prepend(front, Prepend([x], rest)) == Prepend(front + [x], rest)
  {
    if rest.Found? { assert front + ([x] + rest.value) == front + [x] + rest.value; }
  }
}

/** What the indices of the file-system data source hold: after inserts in any order, and after a
    rebuild from storage. */
module FsIndices {
  import opened Wrappers
  import opened QueryData
  import opened Decide
  import opened EarliestIndex
  import opened LogState
  import opened LogInvariant
  import opened FsState
  import opened Heights

  // ---- Runs ----

  datatype Step =
    | Do(op: Op)
    | CommitAll
    | DisksBecome(leafDisk: Disk, blockDisk: Disk, top: nat)

  function WithDisks(fs: Fs, leafDisk: Disk, blockDisk: Disk, top: nat): (r: Fs)
    ensures FsSafe(fs) ==> FsSafe(r)
  {
    fs.(leaves := fs.leaves.(disk := leafDisk), blocks := fs.blocks.(disk := blockDisk),
        top := if fs.top.Some? then Some(top) else None)
  }

  function Next(fs: Fs, step: Step): (r: Fs)
    requires FsSafe(fs)
    ensures FsSafe(r)
  {
    match step
    case Do(op) => Apply(fs, op)
    case CommitAll => FsCommitted(fs)
    case DisksBecome(leafDisk, blockDisk, top) => WithDisks(fs, leafDisk, blockDisk, top)
  }

  function Run(fs: Fs, steps: seq<Step>): (r: Fs)
    requires FsSafe(fs)
    ensures FsSafe(r)
    decreases |steps|
  {
    if steps == [] then fs else Run(Next(fs, steps[0]), steps[1..])
  }

  /** The insertions of a run that succeeded. */
  function Done(fs: Fs, steps: seq<Step>): seq<Op>
    requires FsSafe(fs)
    decreases |steps|
  {
    if steps == [] then []
    else
      (if steps[0].Do? && Succeeds(fs, steps[0].op) then [steps[0].op] else []) + Done(Next(fs, steps[0]), steps[1..])
  }

  // ---- Earliest positions, whatever the order of insertion ----

  /** What one insertion adds to the index of block hashes, and to that of transaction hashes. */
  function HashEntriesOf(op: Op): seq<(Hash, nat)> {
    if op.InsertLeaf? then [(op.leaf.BlockHash(), op.leaf.Height())] else []
  }

  function TxnEntriesOf(op: Op): seq<(Hash, (nat, nat))> {
    if op.InsertBlock? then TxnEntries(op.block) else []
  }

  function HashEntries(ops: seq<Op>): seq<(Hash, nat)> {
    if ops == [] then [] else HashEntriesOf(ops[0]) + HashEntries(ops[1..])
  }

  function AllTxnEntries(ops: seq<Op>): seq<(Hash, (nat, nat))> {
    if ops == [] then [] else TxnEntriesOf(ops[0]) + AllTxnEntries(ops[1..])
  }

  lemma {:induction false} UpdateOne<H, P>(index: map<H, P>, e: (H, P), less: (P, P) -> bool)
    ensures UpdateAll(index, [e], less) == UpdateByHash(index, e.0, e.1, less)
    ensures UpdateAll(index, [], less) == index
  {
    assert [e][..0] == [];
  }

  lemma ApplyFolds(fs: Fs, op: Op)
    requires FsSafe(fs)
    ensures Succeeds(fs, op) ==>
      && Apply(fs, op).index.byBlockHash == UpdateAll(fs.index.byBlockHash, HashEntriesOf(op), HeightLess)
      && Apply(fs, op).index.byTxnHash == UpdateAll(fs.index.byTxnHash, TxnEntriesOf(op), TxnLess)
    ensures !Succeeds(fs, op) ==> Apply(fs, op).index == fs.index
  {
    if op.InsertLeaf? {
      UpdateOne(fs.index.byBlockHash, (op.leaf.BlockHash(), op.leaf.Height()), HeightLess);
    }
  }

  lemma NextIndex(fs: Fs, step: Step)
    requires FsSafe(fs)
    ensures Next(fs, step).index == if step.Do? then Apply(fs, step.op).index else fs.index
  {
  }

  lemma {:induction false} DoneStep(fs: Fs, steps: seq<Step>)
    requires FsSafe(fs) && steps != []
    ensures var rest := Done(Next(fs, steps[0]), steps[1..]);
            Done(fs, steps) == if steps[0].Do? && Succeeds(fs, steps[0].op) then [steps[0].op] + rest else rest
  {
  }

  lemma {:induction false} EntriesStep(op: Op, rest: seq<Op>)
    ensures HashEntries([op] + rest) == HashEntriesOf(op) + HashEntries(rest)
    ensures AllTxnEntries([op] + rest) == TxnEntriesOf(op) + AllTxnEntries(rest)
  {
    assert ([op] + rest)[1..] == rest;
  }

  lemma {:induction false} StepFoldsHashes(fs: Fs, steps: seq<Step>)
    requires FsSafe(fs) && steps != []
    ensures var mid := Next(fs, steps[0]);
            UpdateAll(mid.index.byBlockHash, HashEntries(Done(mid, steps[1..])), HeightLess)
            == UpdateAll(fs.index.byBlockHash, HashEntries(Done(fs, steps)), HeightLess)
  {
    var rest := Done(Next(fs, steps[0]), steps[1..]);
    DoneStep(fs, steps);
    NextIndex(fs, steps[0]);
    if steps[0].Do? {
      ApplyFolds(fs, steps[0].op);
      EntriesStep(steps[0].op, rest);
      UpdateAllConcat(fs.index.byBlockHash, HashEntriesOf(steps[0].op), HashEntries(rest), HeightLess);
    }
  }

  lemma {:induction false} StepFoldsTxns(fs: Fs, steps: seq<Step>)
    requires FsSafe(fs) && steps != []
    ensures var mid := Next(fs, steps[0]);
            UpdateAll(mid.index.byTxnHash, AllTxnEntries(Done(mid, steps[1..])), TxnLess)
            == UpdateAll(fs.index.byTxnHash, AllTxnEntries(Done(fs, steps)), TxnLess)
  {
    var rest := Done(Next(fs, steps[0]), steps[1..]);
    DoneStep(fs, steps);
    NextIndex(fs, steps[0]);
    if steps[0].Do? {
      ApplyFolds(fs, steps[0].op);
      EntriesStep(steps[0].op, rest);
      UpdateAllConcat(fs.index.byTxnHash, TxnEntriesOf(steps[0].op), AllTxnEntries(rest), TxnLess);
    }
  }

  lemma {:induction false} RunFoldsHashes(fs: Fs, steps: seq<Step>)
    requires FsSafe(fs)
    ensures Run(fs, steps).index.byBlockHash ==
            UpdateAll(fs.index.byBlockHash, HashEntries(Done(fs, steps)), HeightLess)
    decreases |steps|
  {
    if steps != [] {
      StepFoldsHashes(fs, steps);
      RunFoldsHashes(Next(fs, steps[0]), steps[1..]);
    }
  }

  lemma {:induction false} RunFoldsTxns(fs: Fs, steps: seq<Step>)
    requires FsSafe(fs)
    ensures Run(fs, steps).index.byTxnHash ==
            UpdateAll(fs.index.byTxnHash, AllTxnEntries(Done(fs, steps)), TxnLess)
    decreases |steps|
  {
    if steps != [] {
      StepFoldsTxns(fs, steps);
      RunFoldsTxns(Next(fs, steps[0]), steps[1..]);
    }
  }

  /** In every run from empty indices, in any order, with duplicates and with failing writes, a block
      hash is indexed exactly if a leaf with it was inserted, at the least of its heights, and a
      transaction hash exactly if a block with it was inserted, at the least of its positions. */
  lemma {:induction false} EarliestPositions(fs: Fs, steps: seq<Step>)
    requires FsSafe(fs) && fs.index == NO_INDICES
    ensures IsEarliest(Run(fs, steps).index.byBlockHash, HashEntries(Done(fs, steps)), HeightLess)
    ensures IsEarliest(Run(fs, steps).index.byTxnHash, AllTxnEntries(Done(fs, steps)), TxnLess)
  {
    RunFoldsHashes(fs, steps);
    RunFoldsTxns(fs, steps);
    LedgerOrders();
    UpdateAllIsEarliest(HashEntries(Done(fs, steps)), HeightLess);
    UpdateAllIsEarliest(AllTxnEntries(Done(fs, steps)), TxnLess);
  }

  lemma {:induction false} EntriesOfOps(ops: seq<Op>)
    ensures forall e :: e in HashEntries(ops) <==>
              exists op :: op in ops && op.InsertLeaf? && e == (op.leaf.BlockHash(), op.leaf.Height())
    ensures forall e :: e in AllTxnEntries(ops) <==>
              exists op :: op in ops && op.InsertBlock? && e in TxnEntries(op.block)
    decreases |ops|
  {
    if ops != [] {
      EntriesOfOps(ops[1..]);
      assert ops == [ops[0]] + ops[1..];
    }
  }

  /** Two runs that inserted the same objects have the same earliest-position indices. */
  lemma {:induction false} OrderIndependent(a: Fs, aSteps: seq<Step>, b: Fs, bSteps: seq<Step>)
    requires FsSafe(a) && a.index == NO_INDICES && FsSafe(b) && b.index == NO_INDICES
    requires forall op :: op in Done(a, aSteps) <==> op in Done(b, bSteps)
    ensures Run(a, aSteps).index.byBlockHash == Run(b, bSteps).index.byBlockHash
    ensures Run(a, aSteps).index.byTxnHash == Run(b, bSteps).index.byTxnHash
  {
    EarliestPositions(a, aSteps);
    EarliestPositions(b, bSteps);
    EntriesOfOps(Done(a, aSteps));
    EntriesOfOps(Done(b, bSteps));
    LedgerOrders();
    EarliestIsUnique(Run(a, aSteps).index.byBlockHash, HashEntries(Done(a, aSteps)),
                     Run(b, bSteps).index.byBlockHash, HashEntries(Done(b, bSteps)), HeightLess);
    EarliestIsUnique(Run(a, aSteps).index.byTxnHash, AllTxnEntries(Done(a, aSteps)),
                     Run(b, bSteps).index.byTxnHash, AllTxnEntries(Done(b, bSteps)), TxnLess);
  }

  // ---- Proposers and leaf hashes, in the order of insertion ----

  function ProposedBy(op: Op, proposer: Key): seq<nat> {
    if op.InsertLeaf? && op.leaf.Proposer() == proposer then [op.leaf.Height()] else []
  }

  /** The heights of the leaves of a proposer among some insertions, in the order of insertion. */
  function ProposedIn(ops: seq<Op>, proposer: Key): seq<nat> {
    if ops == [] then [] else ProposedBy(ops[0], proposer) + ProposedIn(ops[1..], proposer)
  }

  /** The height of the last leaf with this hash among some insertions, or else this height. */
  function LastWithHash(ops: seq<Op>, hash: Hash, height: Option<nat>): Option<nat>
    decreases |ops|
  {
    if ops == [] then height
    else LastWithHash(ops[1..], hash, if HasHash(ops[0], hash) then Some(ops[0].leaf.Height()) else height)
  }

  predicate HasHash(op: Op, hash: Hash) { op.InsertLeaf? && op.leaf.Hash() == hash }

  function HeightOf(index: map<Hash, nat>, hash: Hash): Option<nat> {
    if hash in index then Some(index[hash]) else None
  }

  lemma ApplyAddsProposal(fs: Fs, op: Op, proposer: Key)
    requires FsSafe(fs) && Succeeds(fs, op)
    ensures ProposalsOf(Apply(fs, op).index.byProposer, proposer)
            == ProposalsOf(fs.index.byProposer, proposer) + ProposedBy(op, proposer)
  {
  }

  lemma ApplyIndexesHash(fs: Fs, op: Op, hash: Hash)
    requires FsSafe(fs) && Succeeds(fs, op)
    ensures HeightOf(Apply(fs, op).index.byLeafHash, hash) ==
            if HasHash(op, hash) then Some(op.leaf.Height()) else HeightOf(fs.index.byLeafHash, hash)
  {
  }

  lemma {:induction false} ProposedInCons(op: Op, rest: seq<Op>, proposer: Key)
    ensures ProposedIn([op] + rest, proposer) == ProposedBy(op, proposer) + ProposedIn(rest, proposer)
  {
    assert ([op] + rest)[1..] == rest;
  }

  lemma {:induction false} LastWithHashCons(op: Op, rest: seq<Op>, hash: Hash, height: Option<nat>)
    ensures LastWithHash([op] + rest, hash, height)
            == LastWithHash(rest, hash, if HasHash(op, hash) then Some(op.leaf.Height()) else height)
  {
    assert ([op] + rest)[1..] == rest;
  }

  lemma Associates<A>(a: seq<A>, b: seq<A>, c: seq<A>)
    ensures a + b + c == a + (b + c)
  {
  }

  lemma {:induction false} StepAddsProposals(fs: Fs, steps: seq<Step>, proposer: Key)
    requires FsSafe(fs) && steps != []
    ensures var next := Next(fs, steps[0]);
            ProposalsOf(next.index.byProposer, proposer) + ProposedIn(Done(next, steps[1..]), proposer)
            == ProposalsOf(fs.index.byProposer, proposer) + ProposedIn(Done(fs, steps), proposer)
  {
    NextIndex(fs, steps[0]);
    DoneStep(fs, steps);
    if steps[0].Do? {
      ApplyFolds(fs, steps[0].op);
      if Succeeds(fs, steps[0].op) {
        ApplyAddsProposal(fs, steps[0].op, proposer);
        var rest := Done(Next(fs, steps[0]), steps[1..]);
        ProposedInCons(steps[0].op, rest, proposer);
        Associates(ProposalsOf(fs.index.byProposer, proposer), ProposedBy(steps[0].op, proposer), ProposedIn(rest, proposer));
      }
    }
  }

  lemma {:induction false} StepIndexesHash(fs: Fs, steps: seq<Step>, hash: Hash)
    requires FsSafe(fs) && steps != []
    ensures var next := Next(fs, steps[0]);
            LastWithHash(Done(next, steps[1..]), hash, HeightOf(next.index.byLeafHash, hash))
            == LastWithHash(Done(fs, steps), hash, HeightOf(fs.index.byLeafHash, hash))
  {
    NextIndex(fs, steps[0]);
    DoneStep(fs, steps);
    if steps[0].Do? {
      ApplyFolds(fs, steps[0].op);
      if Succeeds(fs, steps[0].op) {
        ApplyIndexesHash(fs, steps[0].op, hash);
        LastWithHashCons(steps[0].op, Done(Next(fs, steps[0]), steps[1..]), hash,
                         HeightOf(fs.index.byLeafHash, hash));
      }
    }
  }

  /** After any run, in any order, with duplicates and with failing writes, a proposer's list has grown by the
      heights of its leaves in the order they were inserted, and a leaf hash is indexed at the height of the leaf
      inserted last with it. */
  lemma {:induction false} RunIndexesLeaves(fs: Fs, steps: seq<Step>, proposer: Key, hash: Hash)
    requires FsSafe(fs)
    ensures ProposalsOf(Run(fs, steps).index.byProposer, proposer)
            == ProposalsOf(fs.index.byProposer, proposer) + ProposedIn(Done(fs, steps), proposer)
    ensures HeightOf(Run(fs, steps).index.byLeafHash, hash)
            == LastWithHash(Done(fs, steps), hash, HeightOf(fs.index.byLeafHash, hash))
    decreases |steps|
  {
    if steps != [] {
      StepAddsProposals(fs, steps, proposer);
      StepIndexesHash(fs, steps, hash);
      RunIndexesLeaves(Next(fs, steps[0]), steps[1..], proposer, hash);
    }
  }

  // ---- Rebuilding equals maintaining ----

  /** An insertion at or past the end of its log. */
  predicate InOrder(fs: Fs, op: Op) {
    match op
    case InsertLeaf(leaf) => leaf.Height() >= Length(fs.leaves)
    case InsertBlock(block) => block.Height() >= Length(fs.blocks)
  }

  predicate InOrderRun(fs: Fs, steps: seq<Step>)
    requires FsSafe(fs)
    decreases |steps|
  {
    steps != [] ==> (steps[0].Do? ==> InOrder(fs, steps[0].op)) && InOrderRun(Next(fs, steps[0]), steps[1..])
  }

  ghost predicate HeightsMatch(leaves: seq<Option<LeafQueryData>>) {
    forall i :: 0 <= i < |leaves| && leaves[i].Some? ==> leaves[i].value.Height() == i
  }

  /** The indices are what a rebuild from the whole append logs would give. */
  ghost predicate IndexInv(fs: Fs) {
    && Inv(fs.leaves) && Inv(fs.blocks)
    && HeightsMatch(Stored(fs.leaves))
    && fs.index == Rebuilt(Stored(fs.leaves), Stored(fs.blocks))
  }

  /** What an insertion at or past the end writes. */
  lemma AppendStores<T>(log: Log<T>, index: nat, item: T)
    requires Inv(log) && index >= Length(log)
    ensures var t := Inserted(log, index, item);
            && Inv(t)
            && (InsertSucceeds(log, index) ==>
                  Stored(t) == Stored(log) + Placeholders(index - Length(log)) + [Some(item)])
            && (!InsertSucceeds(log, index) ==>
                  log.disk.writes <= index - Length(log) && Stored(t) == Stored(log) + Placeholders(log.disk.writes))
  {
    var entries := Appended(log, index, item);
    StoreAllWindow(log, entries);
    if InsertSucceeds(log, index) {
      assert Written(log, entries) == entries;
      assert Stored(log) + entries == Stored(log) + Placeholders(index - Length(log)) + [Some(item)];
    } else {
      assert Written(log, entries) == Placeholders(log.disk.writes);
    }
  }

  lemma {:induction false} PresentPad<T>(entries: seq<Option<T>>, n: nat)
    ensures Present(entries + Placeholders<T>(n)) == Present(entries)
    decreases n
  {
    if n == 0 {
      assert entries + Placeholders<T>(n) == entries;
    } else {
      var front := entries + Placeholders<T>(n - 1);
      assert entries + Placeholders<T>(n) == front + [None];
      PresentPad(entries, n - 1);
      PresentSnoc(front, None);
    }
  }

  lemma {:induction false} LeafAndBlocksCommute(index: Indices, leaf: LeafQueryData, blocks: seq<BlockQueryData>)
    ensures IndexBlocks(index, blocks).(byTxnHash := index.byTxnHash) == index
    ensures IndexLeaf(IndexBlocks(index, blocks), leaf) == IndexBlocks(IndexLeaf(index, leaf), blocks)
    decreases |blocks|
  {
    if blocks != [] { LeafAndBlocksCommute(index, leaf, blocks[..|blocks| - 1]); }
  }

  lemma AppendPresent<T>(log: Log<T>, index: nat, item: T)
    requires Inv(log) && index >= Length(log)
    ensures var t := Inserted(log, index, item);
            && Inv(t)
            && Present(Stored(t)) ==
               if InsertSucceeds(log, index) then Present(Stored(log)) + [item] else Present(Stored(log))
  {
    var before := Stored(log);
    AppendStores(log, index, item);
    if InsertSucceeds(log, index) {
      PresentPad(before, index - Length(log));
      PresentSnoc(before + Placeholders(index - Length(log)), Some(item));
    } else {
      PresentPad(before, log.disk.writes);
    }
  }

  lemma {:induction false} RebuiltWithLeaf(leaves: seq<LeafQueryData>, blocks: seq<BlockQueryData>, leaf: LeafQueryData)
    ensures IndexBlocks(IndexLeaves(NO_INDICES, leaves + [leaf]), blocks)
            == IndexLeaf(IndexBlocks(IndexLeaves(NO_INDICES, leaves), blocks), leaf)
  {
    IndexLeavesSnoc(NO_INDICES, leaves, leaf);
    LeafAndBlocksCommute(IndexLeaves(NO_INDICES, leaves), leaf, blocks);
  }

  lemma AppendHeights(log: LeafLog, leaf: LeafQueryData)
    requires Inv(log) && leaf.Height() >= Length(log) && HeightsMatch(Stored(log))
    ensures HeightsMatch(Stored(Inserted(log, leaf.Height(), leaf)))
  {
    AppendStores(log, leaf.Height(), leaf);
  }

  lemma LeafInsertKeepsIndex(fs: Fs, leaf: LeafQueryData)
    requires IndexInv(fs) && InOrder(fs, InsertLeaf(leaf))
    ensures IndexInv(LeafInserted(fs, leaf))
  {
    AppendPresent(fs.leaves, leaf.Height(), leaf);
    AppendHeights(fs.leaves, leaf);
    RebuiltWithLeaf(Present(Stored(fs.leaves)), Present(Stored(fs.blocks)), leaf);
  }

  lemma BlockInsertKeepsIndex(fs: Fs, block: BlockQueryData)
    requires IndexInv(fs) && InOrder(fs, InsertBlock(block))
    ensures IndexInv(BlockInserted(fs, block))
  {
    AppendPresent(fs.blocks, block.Height(), block);
    IndexBlocksSnoc(IndexLeaves(NO_INDICES, Present(Stored(fs.leaves))), Present(Stored(fs.blocks)), block);
  }

  lemma CommitKeepsIndex(fs: Fs)
    requires IndexInv(fs)
    ensures IndexInv(FsCommitted(fs))
  {
    CommittedInv(fs.leaves);
    CommittedInv(fs.blocks);
    CommittedBroadcast(fs.leaves);
    CommittedBroadcast(fs.blocks);
  }

  lemma StepKeepsIndex(fs: Fs, step: Step)
    requires IndexInv(fs) && (step.Do? ==> InOrder(fs, step.op))
    ensures IndexInv(Next(fs, step))
  {
    match step
    case Do(InsertLeaf(leaf)) => LeafInsertKeepsIndex(fs, leaf);
    case Do(InsertBlock(block)) => BlockInsertKeepsIndex(fs, block);
    case CommitAll => CommitKeepsIndex(fs);
    case DisksBecome(leafDisk, blockDisk, _) =>
      assert Stored(fs.leaves.(disk := leafDisk)) == Stored(fs.leaves);
      assert Stored(fs.blocks.(disk := blockDisk)) == Stored(fs.blocks);
  }

  lemma {:induction false} RunKeepsIndex(fs: Fs, steps: seq<Step>)
    requires IndexInv(fs) && InOrderRun(fs, steps)
    ensures IndexInv(Run(fs, steps))
    decreases |steps|
  {
    if steps != [] {
      StepKeepsIndex(fs, steps[0]);
      RunKeepsIndex(Next(fs, steps[0]), steps[1..]);
    }
  }

  lemma OpenedIndexInv(leafStore: seq<Load<LeafQueryData>>, blockStore: seq<Load<BlockQueryData>>,
                       leafDisk: Disk, blockDisk: Disk)
    requires HeightsMatch(Flat(leafStore))
    ensures IndexInv(FsOpened(leafStore, blockStore, leafDisk, blockDisk))
  {
    var fs := FsOpened(leafStore, blockStore, leafDisk, blockDisk);
    OpenedInv(leafStore, CACHED_LEAVES_COUNT, leafDisk);
    OpenedInv(blockStore, CACHED_BLOCKS_COUNT, blockDisk);
    assert Stored(fs.leaves) == Flat(leafStore);
    assert Stored(fs.blocks) == Flat(blockStore);
  }

  /** Rebuild equals increment: after any run of insertions that only append, successful or not, that
      ends with everything committed, the indices maintained along the way are the ones a reopened
      data source builds from storage. */
  lemma {:induction false} RebuildEqualsIncrement(
    leafStore: seq<Load<LeafQueryData>>, blockStore: seq<Load<BlockQueryData>>,
    leafDisk: Disk, blockDisk: Disk, steps: seq<Step>)
    requires HeightsMatch(Flat(leafStore))
    requires InOrderRun(FsOpened(leafStore, blockStore, leafDisk, blockDisk), steps)
    requires var end := Run(FsOpened(leafStore, blockStore, leafDisk, blockDisk), steps);
             end.leaves.pending == [] && end.blocks.pending == []
    ensures var end := Run(FsOpened(leafStore, blockStore, leafDisk, blockDisk), steps);
            FsOpened(end.leaves.committed, end.blocks.committed, leafDisk, blockDisk).index == end.index
  {
    OpenedIndexInv(leafStore, blockStore, leafDisk, blockDisk);
    var start := FsOpened(leafStore, blockStore, leafDisk, blockDisk);
    RunKeepsIndex(start, steps);
    var end := Run(start, steps);
    assert Stored(end.leaves) == Flat(end.leaves.committed);
    assert Stored(end.blocks) == Flat(end.blocks.committed);
  }

  // ---- What a rebuilt index says ----

  /** The proposals of every proposer are the heights of its leaves, in order. */
  ghost predicate ProposalsExact(byProposer: map<Key, seq<nat>>, leaves: seq<Option<LeafQueryData>>) {
    forall p: Key ::
      && Increasing(ProposalsOf(byProposer, p))
      && forall h: nat :: h in ProposalsOf(byProposer, p) <==>
           h < |leaves| && leaves[h].Some? && leaves[h].value.Proposer() == p
  }

  lemma {:induction false} RebuiltProposals(leaves: seq<Option<LeafQueryData>>)
    requires HeightsMatch(leaves)
    ensures ProposalsExact(IndexLeaves(NO_INDICES, Present(leaves)).byProposer, leaves)
    decreases |leaves|
  {
    if leaves != [] {
      var n := |leaves| - 1;
      var front := leaves[..n];
      RebuiltProposals(front);
      assert leaves == front + [leaves[n]];
      PresentSnoc(front, leaves[n]);
      if leaves[n].Some? {
        var leaf := leaves[n].value;
        IndexLeavesSnoc(NO_INDICES, Present(front), leaf);
        var before := IndexLeaves(NO_INDICES, Present(front)).byProposer;
        var after := IndexLeaves(NO_INDICES, Present(leaves)).byProposer;
        assert ProposalsOf(after, leaf.Proposer()) == ProposalsOf(before, leaf.Proposer()) + [n];
        forall p: Key
          ensures Increasing(ProposalsOf(after, p))
          ensures forall h: nat :: h in ProposalsOf(after, p) <==>
                    h < |leaves| && leaves[h].Some? && leaves[h].value.Proposer() == p
        {
          if p == leaf.Proposer() {
            IncreasingSnoc(ProposalsOf(before, p), n);
          } else {
            assert ProposalsOf(after, p) == ProposalsOf(before, p);
          }
        }
      }
    }
  }

  function LeafHashEntries(leaves: seq<LeafQueryData>): (r: seq<(Hash, nat)>)
    ensures |r| == |leaves|
    ensures forall i :: 0 <= i < |leaves| ==> r[i] == (leaves[i].BlockHash(), leaves[i].Height())
  {
    seq(|leaves|, i requires 0 <= i < |leaves| => (leaves[i].BlockHash(), leaves[i].Height()))
  }

  lemma {:induction false} RebuiltBlockHashes(leaves: seq<LeafQueryData>)
    ensures IndexLeaves(NO_INDICES, leaves).byBlockHash == UpdateAll(map[], LeafHashEntries(leaves), HeightLess)
    ensures IndexLeaves(NO_INDICES, leaves).byTxnHash == map[]
    decreases |leaves|
  {
    if leaves != [] {
      RebuiltBlockHashes(leaves[..|leaves| - 1]);
      assert LeafHashEntries(leaves)[..|leaves| - 1] == LeafHashEntries(leaves[..|leaves| - 1]);
    }
  }

  function BlockTxnEntries(blocks: seq<BlockQueryData>): seq<(Hash, (nat, nat))> {
    if blocks == [] then [] else BlockTxnEntries(blocks[..|blocks| - 1]) + TxnEntries(blocks[|blocks| - 1])
  }

  lemma {:induction false} RebuiltTxns(index: Indices, blocks: seq<BlockQueryData>)
    ensures IndexBlocks(index, blocks) ==
            index.(byTxnHash := UpdateAll(index.byTxnHash, BlockTxnEntries(blocks), TxnLess))
    decreases |blocks|
  {
    if blocks != [] {
      var front := blocks[..|blocks| - 1];
      RebuiltTxns(index, front);
      UpdateAllConcat(index.byTxnHash, BlockTxnEntries(front), TxnEntries(blocks[|blocks| - 1]), TxnLess);
    }
  }

  /** Exactly the hashes of the leaves are indexed, each at the height of the last leaf with it. */
  ghost predicate IsLatest(index: map<Hash, nat>, leaves: seq<Option<LeafQueryData>>) {
    && (forall i :: 0 <= i < |leaves| && leaves[i].Some? ==>
          leaves[i].value.Hash() in index && i <= index[leaves[i].value.Hash()])
    && (forall h :: h in index ==>
          index[h] < |leaves| && leaves[index[h]].Some? && leaves[index[h]].value.Hash() == h)
  }

  lemma {:induction false} RebuiltLeafHashes(leaves: seq<Option<LeafQueryData>>)
    requires HeightsMatch(leaves)
    ensures IsLatest(IndexLeaves(NO_INDICES, Present(leaves)).byLeafHash, leaves)
    decreases |leaves|
  {
    if leaves != [] {
      var n := |leaves| - 1;
      var front := leaves[..n];
      RebuiltLeafHashes(front);
      assert leaves == front + [leaves[n]];
      PresentSnoc(front, leaves[n]);
      if leaves[n].Some? { IndexLeavesSnoc(NO_INDICES, Present(front), leaves[n].value); }
      var m := IndexLeaves(NO_INDICES, Present(leaves)).byLeafHash;
      var m' := IndexLeaves(NO_INDICES, Present(front)).byLeafHash;
      forall i | 0 <= i < |leaves| && leaves[i].Some?
        ensures leaves[i].value.Hash() in m && i <= m[leaves[i].value.Hash()]
      {
        if i < n { assert front[i] == leaves[i]; }
      }
    }
  }

  /** The four indices of a data source that satisfies the invariant. */
  lemma IndexMeaning(fs: Fs)
    requires IndexInv(fs)
    ensures ProposalsExact(fs.index.byProposer, Stored(fs.leaves))
    ensures IsEarliest(fs.index.byBlockHash, LeafHashEntries(Present(Stored(fs.leaves))), HeightLess)
    ensures IsEarliest(fs.index.byTxnHash, BlockTxnEntries(Present(Stored(fs.blocks))), TxnLess)
    ensures IsLatest(fs.index.byLeafHash, Stored(fs.leaves))
  {
    var leaves := Present(Stored(fs.leaves));
    var blocks := Present(Stored(fs.blocks));
    RebuiltProposals(Stored(fs.leaves));
    RebuiltLeafHashes(Stored(fs.leaves));
    RebuiltBlockHashes(leaves);
    RebuiltTxns(IndexLeaves(NO_INDICES, leaves), blocks);
    LedgerOrders();
    UpdateAllIsEarliest(LeafHashEntries(leaves), HeightLess);
    UpdateAllIsEarliest(BlockTxnEntries(blocks), TxnLess);
  }
}

/** The state of the file-system data source as a value, and its transitions and queries. */
module FsState {
  import opened Wrappers
  import opened QueryData
  import opened Decide
  import opened EarliestIndex
  import opened LogState
  import opened LogInvariant

  const CACHED_LEAVES_COUNT := 100
  const CACHED_BLOCKS_COUNT := 100

  type LeafLog = Log<LeafQueryData>
  type BlockLog = Log<BlockQueryData>

  datatype Indices = Indices(
    byLeafHash: map<Hash, nat>,
    byBlockHash: map<Hash, nat>,
    byTxnHash: map<Hash, (nat, nat)>,
    byProposer: map<Key, seq<nat>>)

  /** `top` is the store that synchronises both logs, if the data source manages it itself: how many more
      version commits that store will accept. */
  datatype Fs = Fs(leaves: LeafLog, blocks: BlockLog, index: Indices, top: Option<nat>)

  const NO_INDICES := Indices(map[], map[], map[], map[])

  // ---- Indexing ----

  function ProposalsOf(byProposer: map<Key, seq<nat>>, proposer: Key): seq<nat> {
    if proposer in byProposer then byProposer[proposer] else []
  }

  function IndexLeaf(index: Indices, leaf: LeafQueryData): Indices {
    index.(
    byLeafHash := index.byLeafHash[leaf.Hash() := leaf.Height()],
    byBlockHash := UpdateByHash(index.byBlockHash, leaf.BlockHash(), leaf.Height(), HeightLess),
    byProposer := index.byProposer[leaf.Proposer() := ProposalsOf(index.byProposer, leaf.Proposer()) + [leaf.Height()]])
  }

  /** The transactions of a block with their positions in the ledger, in iteration order. */
  function TxnEntries(block: BlockQueryData): (r: seq<(Hash, (nat, nat))>)
    ensures |r| == |block.payload.indices|
    ensures forall k :: 0 <= k < |r| ==>
      r[k] == (block.payload.contents[block.payload.indices[k]], (block.Height(), block.payload.indices[k]))
  {
    var txns := Enumerate(block.payload);
    seq(|txns|, k requires 0 <= k < |txns| => (txns[k].1, (block.Height(), txns[k].0)))
  }

  function IndexBlock(index: Indices, block: BlockQueryData): Indices {
    index.(byTxnHash := UpdateAll(index.byTxnHash, TxnEntries(block), TxnLess))
  }

  function IndexLeaves(index: Indices, leaves: seq<LeafQueryData>): Indices {
    if leaves == [] then index
    else IndexLeaf(IndexLeaves(index, leaves[..|leaves| - 1]), leaves[|leaves| - 1])
  }

  function IndexBlocks(index: Indices, blocks: seq<BlockQueryData>): Indices {
    if blocks == [] then index
    else IndexBlock(IndexBlocks(index, blocks[..|blocks| - 1]), blocks[|blocks| - 1])
  }

  /** The objects that are there. */
  function Present<T>(entries: seq<Option<T>>): seq<T> {
    if entries == [] then []
    else Present(entries[..|entries| - 1]) + if entries[|entries| - 1].Some? then [entries[|entries| - 1].value] else []
  }

  lemma {:induction false} PresentSnoc<T>(entries: seq<Option<T>>, entry: Option<T>)
    ensures Present(entries + [entry]) == if entry.Some? then Present(entries) + [entry.value] else Present(entries)
  {
    assert (entries + [entry])[..|entries|] == entries;
  }

  lemma {:induction false} IndexLeavesSnoc(index: Indices, leaves: seq<LeafQueryData>, leaf: LeafQueryData)
    ensures IndexLeaves(index, leaves + [leaf]) == IndexLeaf(IndexLeaves(index, leaves), leaf)
  {
    assert (leaves + [leaf])[..|leaves|] == leaves;
  }

  lemma {:induction false} IndexBlocksSnoc(index: Indices, blocks: seq<BlockQueryData>, block: BlockQueryData)
    ensures IndexBlocks(index, blocks + [block]) == IndexBlock(IndexBlocks(index, blocks), block)
  {
    assert (blocks + [block])[..|blocks|] == blocks;
  }

  /** One more entry of a log, indexed if it is present. */
  lemma {:induction false} LeavesStep(index: Indices, view: seq<Option<LeafQueryData>>, i: nat)
    requires i < |view|
    ensures var before := IndexLeaves(index, Present(view[..i]));
            IndexLeaves(index, Present(view[..i + 1])) ==
            if view[i].Some? then IndexLeaf(before, view[i].value) else before
  {
    assert view[..i + 1] == view[..i] + [view[i]];
    PresentSnoc(view[..i], view[i]);
    if view[i].Some? { IndexLeavesSnoc(index, Present(view[..i]), view[i].value); }
  }

  lemma {:induction false} BlocksStep(index: Indices, view: seq<Option<BlockQueryData>>, i: nat)
    requires i < |view|
    ensures var before := IndexBlocks(index, Present(view[..i]));
            IndexBlocks(index, Present(view[..i + 1])) ==
            if view[i].Some? then IndexBlock(before, view[i].value) else before
  {
    assert view[..i + 1] == view[..i] + [view[i]];
    PresentSnoc(view[..i], view[i]);
    if view[i].Some? { IndexBlocksSnoc(index, Present(view[..i]), view[i].value); }
  }

  /** The indices rebuilt from the stored leaves and then the stored blocks. */
  function Rebuilt(leaves: seq<Option<LeafQueryData>>, blocks: seq<Option<BlockQueryData>>): Indices {
    IndexBlocks(IndexLeaves(NO_INDICES, Present(leaves)), Present(blocks))
  }

  // ---- Transitions ----

  predicate FsSafe(fs: Fs) { Safe(fs.leaves) && Safe(fs.blocks) }

  function LeafInserted(fs: Fs, leaf: LeafQueryData): (r: Fs)
    requires FsSafe(fs)
    ensures FsSafe(r)
  {
    InsertedSafe(fs.leaves, leaf.Height(), leaf);
    var log := Inserted(fs.leaves, leaf.Height(), leaf);
    if InsertSucceeds(fs.leaves, leaf.Height()) then fs.(leaves := log, index := IndexLeaf(fs.index, leaf))
    else fs.(leaves := log)
  }

  function BlockInserted(fs: Fs, block: BlockQueryData): (r: Fs)
    requires FsSafe(fs)
    ensures FsSafe(r)
  {
    InsertedSafe(fs.blocks, block.Height(), block);
    var log := Inserted(fs.blocks, block.Height(), block);
    if InsertSucceeds(fs.blocks, block.Height()) then fs.(blocks := log, index := IndexBlock(fs.index, block))
    else fs.(blocks := log)
  }

  function Apply(fs: Fs, op: Op): (r: Fs)
    requires FsSafe(fs)
    ensures FsSafe(r)
  {
    match op
    case InsertLeaf(leaf) => LeafInserted(fs, leaf)
    case InsertBlock(block) => BlockInserted(fs, block)
  }

  predicate Succeeds(fs: Fs, op: Op) {
    match op
    case InsertLeaf(leaf) => InsertSucceeds(fs.leaves, leaf.Height())
    case InsertBlock(block) => InsertSucceeds(fs.blocks, block.Height())
  }

  /** Apply operations up to and including the first that fails. */
  function ApplyAll(fs: Fs, ops: seq<Op>): (r: Fs)
    requires FsSafe(fs)
    ensures FsSafe(r)
    decreases |ops|
  {
    if ops == [] then fs
    else if Succeeds(fs, ops[0]) then ApplyAll(Apply(fs, ops[0]), ops[1..])
    else Apply(fs, ops[0])
  }

  predicate AllSucceed(fs: Fs, ops: seq<Op>)
    requires FsSafe(fs)
    decreases |ops|
  {
    ops != [] ==> Succeeds(fs, ops[0]) && AllSucceed(Apply(fs, ops[0]), ops[1..])
  }

  /** Commit the leaf log, the block log, and the store above them, up to the first that fails. */
  function FsCommitted(fs: Fs): (r: Fs)
    ensures FsSafe(fs) ==> FsSafe(r)
  {
    if fs.leaves.disk.commits == 0 then fs
    else
      var both := fs.(leaves := Committed(fs.leaves), blocks := Committed(fs.blocks));
      if fs.blocks.disk.commits > 0 && fs.top.Some? && fs.top.value > 0 then both.(top := Some(fs.top.value - 1))
      else both
  }

  predicate CommitSucceeds(fs: Fs) {
    fs.leaves.disk.commits > 0 && fs.blocks.disk.commits > 0 && (fs.top.Some? ==> fs.top.value > 0)
  }

  /** A revert that cannot be done is fatal. */
  predicate CanRevert(fs: Fs) { fs.leaves.disk.reverts && fs.blocks.disk.reverts }

  /** Reverting leaves the indices alone. */
  function FsReverted(fs: Fs): Fs { fs.(leaves := Reverted(fs.leaves), blocks := Reverted(fs.blocks)) }

  function BlockHeight(fs: Fs): nat { SizeHint(fs.leaves, 0) }

  /** An empty data source gets the genesis leaf and block, and commits them. */
  function GenesisInserted(fs: Fs, genesis: Genesis): (r: Fs)
    requires FsSafe(fs)
    ensures FsSafe(r)
  {
    if BlockHeight(fs) != 0 then fs
    else
      var applied := ApplyAll(fs, GenesisOps(genesis));
      if AllSucceed(fs, GenesisOps(genesis)) then FsCommitted(applied) else applied
  }

  predicate GenesisSucceeds(fs: Fs, genesis: Genesis)
    requires FsSafe(fs)
  {
    BlockHeight(fs) == 0 ==>
      AllSucceed(fs, GenesisOps(genesis)) && CommitSucceeds(ApplyAll(fs, GenesisOps(genesis)))
  }

  function FsCreated(leafDisk: Disk, blockDisk: Disk): (r: Fs)
    ensures FsSafe(r)
  {
    Fs(Created(CACHED_LEAVES_COUNT, leafDisk), Created(CACHED_BLOCKS_COUNT, blockDisk), NO_INDICES, None)
  }

  /** Open existing stores, before the genesis objects are looked after. */
  function FsOpened(leafStore: seq<Load<LeafQueryData>>, blockStore: seq<Load<BlockQueryData>>,
                    leafDisk: Disk, blockDisk: Disk): (r: Fs)
    ensures FsSafe(r)
  {
    Fs(Opened(leafStore, CACHED_LEAVES_COUNT, leafDisk), Opened(blockStore, CACHED_BLOCKS_COUNT, blockDisk),
       Rebuilt(Flat(leafStore), Flat(blockStore)), None)
  }

  // ---- Queries ----

  /** An item of an iteration as the answer to a query. */
  function Answer<T>(item: Option<Option<T>>): QueryResult<T> {
    match item
    case None => NotFound
    case Some(None) => Missing
    case Some(Some(x)) => Found(x)
  }

  function LeafById(fs: Fs, id: ResourceId): QueryResult<LeafQueryData> {
    match id
    case Number(n) => Answer(At(fs.leaves, n))
    case ByHashId(h) =>
      if h in fs.index.byLeafHash then Answer(At(fs.leaves, fs.index.byLeafHash[h])) else NotFound
  }

  function BlockById(fs: Fs, id: ResourceId): QueryResult<BlockQueryData> {
    match id
    case Number(n) => Answer(At(fs.blocks, n))
    case ByHashId(h) =>
      if h in fs.index.byBlockHash then Answer(At(fs.blocks, fs.index.byBlockHash[h])) else NotFound
  }

  function BlockWithTransaction(fs: Fs, hash: Hash): QueryResult<(BlockQueryData, nat)> {
    if hash !in fs.index.byTxnHash then NotFound
    else
      match BlockById(fs, Number(fs.index.byTxnHash[hash].0))
      case NotFound => NotFound
      case Missing => Missing
      case Found(block) => Found((block, fs.index.byTxnHash[hash].1))
  }

  /** Look up leaves by height, giving up at the first that is not there. */
  function Gather(fs: Fs, heights: seq<nat>): QueryResult<seq<LeafQueryData>> {
    if heights == [] then Found([])
    else
      match LeafById(fs, Number(heights[0]))
      case NotFound => NotFound
      case Missing => Missing
      case Found(leaf) =>
        match Gather(fs, heights[1..])
        case NotFound => NotFound
        case Missing => Missing
        case Found(rest) => Found([leaf] + rest)
  }

  /** Gathering succeeds exactly if every leaf is there, with those leaves in the given order; otherwise it
      answers as the first that is not. */
  lemma {:induction false} GatherIs(fs: Fs, heights: seq<nat>)
    ensures Gather(fs, heights).Found? <==> forall i :: 0 <= i < |heights| ==> LeafById(fs, Number(heights[i])).Found?
    ensures Gather(fs, heights).Found? ==>
      var leaves := Gather(fs, heights).value;
      |leaves| == |heights| && forall i :: 0 <= i < |leaves| ==> LeafById(fs, Number(heights[i])) == Found(leaves[i])
    ensures !Gather(fs, heights).Found? ==>
      exists k :: && 0 <= k < |heights| && !LeafById(fs, Number(heights[k])).Found?
                  && (forall i :: 0 <= i < k ==> LeafById(fs, Number(heights[i])).Found?)
                  && (Gather(fs, heights).Missing? <==> LeafById(fs, Number(heights[k])).Missing?)
    decreases |heights|
  {
    if heights != [] {
      var rest := heights[1..];
      GatherIs(fs, rest);
      assert forall i :: 0 < i < |heights| ==> heights[i] == rest[i - 1];
      if LeafById(fs, Number(heights[0])).Found? && !Gather(fs, rest).Found? {
        var k :| && 0 <= k < |rest| && !LeafById(fs, Number(rest[k])).Found?
                 && (forall i :: 0 <= i < k ==> LeafById(fs, Number(rest[i])).Found?)
                 && (Gather(fs, rest).Missing? <==> LeafById(fs, Number(rest[k])).Missing?);
        assert heights[k + 1] == rest[k];
      }
    }
  }

  function Proposals(fs: Fs, proposer: Key, limit: Option<nat>): QueryResult<seq<LeafQueryData>> {
    var all := ProposalsOf(fs.index.byProposer, proposer);
    Gather(fs, if limit.Some? then all[SaturatingSub(|all|, limit.value)..] else all)
  }

  function CountProposals(fs: Fs, proposer: Key): nat { |ProposalsOf(fs.index.byProposer, proposer)| }

  // ---- Ranges ----

  /** What a range query yields from position `pos` on: items up to the end of the range or of the
      iteration, missing ones as errors. */
  function RangeFrom<T>(s: Log<T>, pos: nat, end: Bound): seq<QueryResult<T>>
    decreases s.cacheStart + |s.cache| - pos
  {
    if !BelowEnd(pos, end) || At(s, pos).None? then []
    else [Answer(At(s, pos))] + RangeFrom(s, pos + 1, end)
  }

  lemma {:induction false} RangeFromItems<T>(s: Log<T>, pos: nat, end: Bound)
    requires s.cacheStart <= |s.committed|
    ensures var r := RangeFrom(s, pos, end);
            && (r != [] ==> pos + |r| <= |View(s)|)
            && (forall k :: 0 <= k < |r| ==> r[k] == AsResult(View(s)[pos + k]))
    decreases s.cacheStart + |s.cache| - pos
  {
    if BelowEnd(pos, end) && pos < |View(s)| {
      var rest := RangeFrom(s, pos + 1, end);
      RangeFromItems(s, pos + 1, end);
      var r := RangeFrom(s, pos, end);
      forall k | 0 <= k < |r| ensures r[k] == AsResult(View(s)[pos + k]) {
        if k > 0 { assert r[k] == rest[k - 1] == AsResult(View(s)[pos + 1 + (k - 1)]); }
      }
    }
  }

  lemma {:induction false} RangeFromExtent<T>(s: Log<T>, pos: nat, end: Bound)
    requires s.cacheStart <= |s.committed|
    ensures forall i: nat :: pos <= i < |View(s)| ==> (BelowEnd(i, end) <==> i < pos + |RangeFrom(s, pos, end)|)
    decreases s.cacheStart + |s.cache| - pos
  {
    if BelowEnd(pos, end) && pos < |View(s)| { RangeFromExtent(s, pos + 1, end); }
  }

  /** For every combination of bounds, the range yields the entries of the log whose index is in the
      range, in order, missing ones as errors, and nothing else. */
  lemma {:induction false} RangeIsExact<T>(s: Log<T>, start: Bound, end: Bound)
    requires s.cacheStart <= |s.committed|
    ensures var r := RangeFrom(s, FirstOf(start), end);
            var lo := FirstOf(start);
            && (forall i: nat :: i < |View(s)| ==> (InRange(i, start, end) <==> lo <= i < lo + |r|))
            && (r != [] ==> lo + |r| <= |View(s)|)
            && (forall k :: 0 <= k < |r| ==> r[k] == AsResult(View(s)[lo + k]))
  {
    RangeFromItems(s, FirstOf(start), end);
    RangeFromExtent(s, FirstOf(start), end);
  }
}

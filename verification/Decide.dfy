/** Turning a newest-first Decide chain into the insertions that extend the ledger. */
module Decide {
  import opened Wrappers
  import opened QueryData

  datatype Event = DecideEvent(chain: seq<Leaf>, qc: QC) | OtherEvent

  datatype Op = InsertLeaf(leaf: LeafQueryData) | InsertBlock(block: BlockQueryData)

  function Reversed<A>(s: seq<A>): (r: seq<A>)
    ensures |r| == |s|
    ensures forall i :: 0 <= i < |s| ==> r[i] == s[|s| - 1 - i]
  {
    seq(|s|, i requires 0 <= i < |s| => s[|s| - 1 - i])
  }

  function JustifyQcs(chain: seq<Leaf>): (r: seq<QC>)
    ensures |r| == |chain|
    ensures forall i :: 0 <= i < |chain| ==> r[i] == chain[i].justifyQc
  {
    seq(|chain|, i requires 0 <= i < |chain| => chain[i].justifyQc)
  }

  function Zip<A, B>(a: seq<A>, b: seq<B>): (r: seq<(A, B)>)
    ensures |r| == Min(|a|, |b|)
    ensures forall i :: 0 <= i < |r| ==> r[i] == (a[i], b[i])
  {
    seq(Min(|a|, |b|), i requires 0 <= i < Min(|a|, |b|) => (a[i], b[i]))
  }

  /** The QC of the event, then the justify QC of each leaf, oldest first and without the oldest,
      paired with the leaves, oldest first. */
  function Pairs(chain: seq<Leaf>, qc: QC): seq<(QC, Leaf)> {
    Zip(Reversed([qc] + JustifyQcs(chain))[1..], Reversed(chain))
  }

  /** The QC of the event references the newest leaf, and each leaf's justify QC its parent. */
  predicate Justified(chain: seq<Leaf>, qc: QC) {
    && (chain != [] ==> qc.leafCommit == chain[0].hash)
    && forall i :: 0 <= i < |chain| - 1 ==> chain[i].justifyQc.leafCommit == chain[i + 1].hash
  }

  /** Each leaf of the chain occurs once, oldest first, paired with the QC of its child; the newest is
      paired with the QC of the event. */
  lemma PairsAre(chain: seq<Leaf>, qc: QC)
    ensures |Pairs(chain, qc)| == |chain|
    ensures forall k :: 0 <= k < |chain| ==>
      Pairs(chain, qc)[k] == (if k == |chain| - 1 then qc else chain[|chain| - 2 - k].justifyQc, chain[|chain| - 1 - k])
  {
    var qcs := [qc] + JustifyQcs(chain);
    forall k | 0 <= k < |chain|
      ensures Reversed(qcs)[1..][k] == if k == |chain| - 1 then qc else chain[|chain| - 2 - k].justifyQc
    {
      assert Reversed(qcs)[k + 1] == qcs[|chain| - 1 - k];
    }
  }

  /** Neither the leaf nor the block of a pair is refused as inconsistent. */
  predicate PairConsistent(pair: (QC, Leaf)) {
    && NewLeaf(pair.1, pair.0).Ok?
    && (pair.1.payload.Some? ==> NewBlock(pair.1, pair.0, pair.1.payload.value).Ok?)
  }

  /** No construction of query data from the pairs can fail its consistency check, if and only if the
      chain is justified. */
  lemma PairsConsistentIff(chain: seq<Leaf>, qc: QC)
    ensures (forall k :: 0 <= k < |Pairs(chain, qc)| ==> PairConsistent(Pairs(chain, qc)[k])) <==> Justified(chain, qc)
  {
    var n := |chain|;
    var pairs := Pairs(chain, qc);
    PairsAre(chain, qc);
    if forall k :: 0 <= k < n ==> PairConsistent(pairs[k]) {
      if n > 0 { assert PairConsistent(pairs[n - 1]); }
      forall i | 0 <= i < n - 1 ensures chain[i].justifyQc.leafCommit == chain[i + 1].hash {
        assert PairConsistent(pairs[n - 2 - i]);
      }
    }
  }

  // ---- The ledger an event describes ----

  /** One position of the ledger: its leaf, and its block if the payload is known. */
  datatype Entry = Entry(leaf: LeafQueryData, block: Option<BlockQueryData>)

  function EntryOf(pair: (QC, Leaf)): Entry {
    Entry(LeafQueryData(pair.1, pair.0),
          match pair.1.payload
          case None => None
          case Some(p) => Some(BlockQueryData(pair.1.header, p, pair.1.header.hash, p.size)))
  }

  /** The ledger positions an event adds, oldest first. */
  function Entries(event: Event): (r: seq<Entry>) {
    match event
    case OtherEvent => []
    case DecideEvent(chain, qc) =>
      var pairs := Pairs(chain, qc);
      seq(|pairs|, k requires 0 <= k < |pairs| => EntryOf(pairs[k]))
  }

  function EntryOps(e: Entry): seq<Op> {
    [InsertLeaf(e.leaf)] + if e.block.Some? then [InsertBlock(e.block.value)] else []
  }

  /** The insertions for a stretch of the ledger: each leaf just before its own block. */
  function Ops(entries: seq<Entry>): seq<Op> {
    if entries == [] then [] else Ops(entries[..|entries| - 1]) + EntryOps(entries[|entries| - 1])
  }

  /** The leaves and the blocks among some insertions, in order. */
  function LeavesOf(ops: seq<Op>): seq<LeafQueryData> {
    if ops == [] then []
    else LeavesOf(ops[..|ops| - 1]) + if ops[|ops| - 1].InsertLeaf? then [ops[|ops| - 1].leaf] else []
  }

  function BlocksOf(ops: seq<Op>): seq<BlockQueryData> {
    if ops == [] then []
    else BlocksOf(ops[..|ops| - 1]) + if ops[|ops| - 1].InsertBlock? then [ops[|ops| - 1].block] else []
  }

  /** The leaves of a ledger. */
  function Leaves(ledger: seq<Entry>): (r: seq<LeafQueryData>)
    ensures |r| == |ledger|
    ensures forall i :: 0 <= i < |ledger| ==> r[i] == ledger[i].leaf
  {
    seq(|ledger|, i requires 0 <= i < |ledger| => ledger[i].leaf)
  }

  /** The insertions for a stretch of the ledger insert each of its leaves once, in order. */
  lemma {:induction false} OpsInsertLeaves(entries: seq<Entry>)
    ensures LeavesOf(Ops(entries)) == Leaves(entries)
  {
    if entries != [] {
      var n := |entries| - 1;
      OpsInsertLeaves(entries[..n]);
      LeavesOfEntry(Ops(entries[..n]), entries[n]);
      assert Leaves(entries) == Leaves(entries[..n]) + [entries[n].leaf];
    }
  }

  lemma {:induction false} LeavesOfEntry(ops: seq<Op>, e: Entry)
    ensures LeavesOf(ops + EntryOps(e)) == LeavesOf(ops) + [e.leaf]
  {
    var leafOps := ops + [InsertLeaf(e.leaf)];
    assert leafOps[..|ops|] == ops;
    if e.block.Some? {
      var all := ops + EntryOps(e);
      assert all[..|all| - 1] == leafOps;
    } else {
      assert ops + EntryOps(e) == leafOps;
    }
  }

  /** Every block is inserted right after the leaf it belongs to. */
  lemma {:induction false} OpsInsertBlockAfterLeaf(entries: seq<Entry>, i: nat)
    requires i < |Ops(entries)| && Ops(entries)[i].InsertBlock?
    requires forall e :: e in entries && e.block.Some? ==> e.block.value.header == e.leaf.leaf.header
    ensures i > 0 && Ops(entries)[i - 1].InsertLeaf?
    ensures Ops(entries)[i].block.header == Ops(entries)[i - 1].leaf.leaf.header
  {
    var n := |entries| - 1;
    var front := Ops(entries[..n]);
    if i < |front| {
      OpsInsertBlockAfterLeaf(entries[..n], i);
    } else {
      assert entries[n] in entries;
      assert Ops(entries)[i] == EntryOps(entries[n])[i - |front|];
    }
  }

  function GenesisEntry(genesis: Genesis): Entry { Entry(genesis.leaf, Some(genesis.block)) }

  function GenesisOps(genesis: Genesis): seq<Op> { EntryOps(GenesisEntry(genesis)) }

  predicate EntryOk(e: Entry, height: nat) {
    && e.leaf.Height() == height
    && (e.block.Some? ==>
          && e.block.value.header == e.leaf.leaf.header
          && e.block.value.hash == e.leaf.BlockHash()
          && e.block.value.size == e.block.value.payload.size)
  }

  /** A ledger: position `i` holds the leaf and block of height `i`. */
  ghost predicate IsLedger(ledger: seq<Entry>) {
    forall i :: 0 <= i < |ledger| ==> EntryOk(ledger[i], i)
  }

  /** The event is justified and its leaves have the next heights of the ledger, in order. */
  ghost predicate Extends(height: nat, event: Event) {
    event.DecideEvent? ==>
      && Justified(event.chain, event.qc)
      && forall i :: 0 <= i < |event.chain| ==> event.chain[i].header.number == height + |event.chain| - 1 - i
  }

  lemma GenesisIsLedger(genesis: Genesis)
    requires genesis.Valid()
    ensures IsLedger([GenesisEntry(genesis)])
  {
    assert EntryOk(GenesisEntry(genesis), 0);
  }

  lemma EntryAt(event: Event, k: nat)
    requires event.DecideEvent? && k < |event.chain|
    ensures |Entries(event)| == |event.chain|
    ensures var n := |event.chain|;
            Entries(event)[k] ==
            EntryOf((if k == n - 1 then event.qc else event.chain[n - 2 - k].justifyQc, event.chain[n - 1 - k]))
  {
    PairsAre(event.chain, event.qc);
  }

  lemma EntryOfIsOk(pair: (QC, Leaf), height: nat)
    requires pair.1.header.number == height
    ensures EntryOk(EntryOf(pair), height)
  {
  }

  lemma EntryHasHeight(height: nat, event: Event, k: nat)
    requires event.DecideEvent? && k < |event.chain| && event.chain[|event.chain| - 1 - k].header.number == height + k
    ensures k < |Entries(event)| == |event.chain| && EntryOk(Entries(event)[k], height + k)
  {
    var n := |event.chain|;
    var pair := (if k == n - 1 then event.qc else event.chain[n - 2 - k].justifyQc, event.chain[n - 1 - k]);
    EntryAt(event, k);
    EntryOfIsOk(pair, height + k);
  }

  lemma EntriesHaveHeights(height: nat, event: Event)
    requires Extends(height, event)
    ensures forall k :: 0 <= k < |Entries(event)| ==> EntryOk(Entries(event)[k], height + k)
  {
    if event.DecideEvent? {
      var n := |event.chain|;
      forall k | 0 <= k < n ensures |Entries(event)| == n && EntryOk(Entries(event)[k], height + k) {
        EntryHasHeight(height, event, k);
      }
    }
  }

  lemma ConcatIsLedger(ledger: seq<Entry>, entries: seq<Entry>)
    requires IsLedger(ledger) && forall k :: 0 <= k < |entries| ==> EntryOk(entries[k], |ledger| + k)
    ensures IsLedger(ledger + entries)
  {
    var all := ledger + entries;
    forall i | 0 <= i < |all| ensures EntryOk(all[i], i) {
      if i < |ledger| { assert EntryOk(ledger[i], i); } else { assert EntryOk(entries[i - |ledger|], i); }
    }
  }

  /** An event that extends a ledger leaves a ledger. */
  lemma EntriesExtend(ledger: seq<Entry>, event: Event)
    requires IsLedger(ledger) && Extends(|ledger|, event)
    ensures IsLedger(ledger + Entries(event))
  {
    EntriesHaveHeights(|ledger|, event);
    ConcatIsLedger(ledger, Entries(event));
  }

  /** The leaves of a justified event are added once each, oldest first, each with a QC that references
      it. */
  lemma EntriesReferenced(event: Event)
    requires event.DecideEvent? ==> Justified(event.chain, event.qc)
    ensures event.DecideEvent? ==> |Entries(event)| == |event.chain|
    ensures forall k :: 0 <= k < |Entries(event)| ==>
      && Entries(event)[k].leaf.leaf == event.chain[|event.chain| - 1 - k]
      && Entries(event)[k].leaf.qc.leafCommit == Entries(event)[k].leaf.Hash()
  {
    if event.DecideEvent? {
      PairsAre(event.chain, event.qc);
      forall k | 0 <= k < |event.chain|
        ensures Entries(event)[k].leaf.leaf == event.chain[|event.chain| - 1 - k]
        ensures Entries(event)[k].leaf.qc.leafCommit == Entries(event)[k].leaf.Hash()
      {
        EntryAt(event, k);
      }
    }
  }

  /** The block of a position is there exactly if its leaf came with a payload, and then holds that payload. */
  predicate Decided(e: Entry) {
    if e.leaf.leaf.payload.Some? then e.block.Some? && Some(e.block.value.payload) == e.leaf.leaf.payload
    else e.block.None?
  }

  /** Every leaf of an event is added with its own payload as its block, or with no block if it has none. */
  lemma EntriesDecided(event: Event)
    ensures forall k :: 0 <= k < |Entries(event)| ==> Decided(Entries(event)[k])
    ensures event.DecideEvent? ==>
      && |Entries(event)| == |event.chain|
      && forall k :: 0 <= k < |event.chain| ==>
           Entries(event)[k].leaf.leaf == event.chain[|event.chain| - 1 - k]
  {
    if event.DecideEvent? { PairsAre(event.chain, event.qc); }
  }

  lemma SplitLedger(ledger: seq<Entry>, entries: seq<Entry>, n: nat)
    requires |entries| == n + 1 && IsLedger(ledger + entries)
    ensures IsLedger(ledger + entries[..n]) && EntryOk(entries[n], |ledger| + n)
    ensures ledger + entries == ledger + entries[..n] + [entries[n]]
  {
    var all := ledger + entries;
    assert all == ledger + entries[..n] + [entries[n]];
    assert EntryOk(all[|ledger| + n], |ledger| + n);
    forall i | 0 <= i < |ledger| + n ensures EntryOk((ledger + entries[..n])[i], i) {
      assert (ledger + entries[..n])[i] == all[i];
    }
  }

  /** The leaves of a ledger, all present. */
  function LeafView(ledger: seq<Entry>): (r: seq<Option<LeafQueryData>>)
    ensures |r| == |ledger|
    ensures forall i :: 0 <= i < |ledger| ==> r[i] == Some(ledger[i].leaf)
  {
    seq(|ledger|, i requires 0 <= i < |ledger| => Some(ledger[i].leaf))
  }

  lemma {:induction false} OpsStep(entries: seq<Entry>, k: nat)
    requires k < |entries|
    ensures Ops(entries[..k + 1]) == Ops(entries[..k]) + EntryOps(entries[k])
    ensures Ops(entries[..k]) + EntryOps(entries[k]) <= Ops(entries)
  {
    assert entries[..k + 1][..k] == entries[..k];
    OpsPrefix(entries, k + 1);
  }

  lemma {:induction false} OpsPrefix(entries: seq<Entry>, k: nat)
    requires k <= |entries|
    ensures Ops(entries[..k]) <= Ops(entries)
    decreases |entries|
  {
    if k == |entries| {
      assert entries[..k] == entries;
    } else {
      OpsPrefix(entries[..|entries| - 1], k);
      assert entries[..|entries| - 1][..k] == entries[..k];
    }
  }
}

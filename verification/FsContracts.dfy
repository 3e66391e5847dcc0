/** Where the file-system data source meets the contract of a versioned data source, and exactly where it
    does not: a failed commit should leave outstanding changes as they are, and a revert should erase
    them. */
module FsContracts {
  import opened Wrappers
  import opened QueryData
  import opened Decide
  import opened EarliestIndex
  import opened LogState
  import opened LogInvariant
  import opened LogRecovery
  import opened FsState
  import opened FsIndices
  import opened FsLedger

  // ---- Failed commits ----

  /** With these disks the commit succeeds, or it leaves the outstanding leaves and blocks outstanding. */
  predicate FailsClean(fs: Fs, leafDisk: Disk, blockDisk: Disk, top: nat) {
    var now := WithDisks(fs, leafDisk, blockDisk, top);
    var r := FsCommitted(now);
    CommitSucceeds(now) || (r.leaves.pending == fs.leaves.pending && r.blocks.pending == fs.blocks.pending)
  }

  /** A commit that may fail anywhere leaves outstanding changes as they are if and only if no leaf is
      outstanding, and no block either where the store above the logs is committed after them: the leaf
      log commits first, then the block log, then that store. */
  lemma FailedCommitCleanIff(fs: Fs)
    ensures (forall leafDisk, blockDisk, top :: FailsClean(fs, leafDisk, blockDisk, top))
            <==> fs.leaves.pending == [] && (fs.top.Some? ==> fs.blocks.pending == [])
  {
    var refuses, accepts := Disk(0, 0, false), Disk(0, 1, false);
    if forall leafDisk, blockDisk, top :: FailsClean(fs, leafDisk, blockDisk, top) {
      assert FailsClean(fs, accepts, refuses, 0);
      assert FailsClean(fs, accepts, accepts, 0);
    }
  }

  /** A revert after a commit that failed on the block log drops the outstanding blocks and keeps the
      outstanding leaves for good. */
  lemma RevertAfterHalfCommit(fs: Fs)
    requires fs.leaves.disk.commits > 0 && fs.blocks.disk.commits == 0
    ensures !CommitSucceeds(fs)
    ensures var r := FsReverted(FsCommitted(fs));
            && Flat(r.leaves.committed) == Stored(fs.leaves) && r.leaves.pending == []
            && Stored(r.blocks) == Flat(fs.blocks.committed)
  {
    var r := FsReverted(FsCommitted(fs));
    assert Flat(fs.leaves.committed + AsLoads(fs.leaves.pending)) == Stored(fs.leaves);
    assert Stored(r.blocks) == Flat(fs.blocks.committed);
  }

  lemma {:induction false} AvailableSame<T>(s: Log<T>, t: Log<T>, i: nat)
    requires s.cacheStart == t.cacheStart && s.cache == t.cache && s.committed == t.committed
    ensures Available(s, i) == Available(t, i)
    decreases s.cacheStart + |s.cache| - i
  {
    if At(s, i).Some? && At(s, i).value.Some? { AvailableSame(s, t, i + 1); }
  }

  lemma CommitTwice<T>(s: Log<T>, disk: Disk)
    requires disk.commits > 0
    ensures Committed(Committed(s).(disk := disk)) == Committed(s.(disk := disk))
  {
    if s.disk.commits > 0 {
      var p := Persisted(s);
      var t := Committed(s).(disk := disk);
      var q := Persisted(t);
      assert q.committed == t.committed;
      AvailableIsLongestRun(p, p.streamPos);
      assert At(q, q.streamPos) == At(p, q.streamPos);
      AvailableSame(p, Persisted(s.(disk := disk)), p.streamPos);
      assert q.sent + [] == q.sent;
    }
  }

  /** A commit that failed anywhere can be retried: one that then succeeds leaves what a single successful
      commit would have left, with nothing broadcast twice. */
  lemma RetryCompletes(fs: Fs, leafDisk: Disk, blockDisk: Disk, top: nat)
    requires CommitSucceeds(WithDisks(fs, leafDisk, blockDisk, top))
    ensures FsCommitted(WithDisks(FsCommitted(fs), leafDisk, blockDisk, top))
            == FsCommitted(WithDisks(fs, leafDisk, blockDisk, top))
  {
    CommitTwice(fs.leaves, leafDisk);
    CommitTwice(fs.blocks, blockDisk);
  }

  // ---- Lost entries ----

  /** A stored block that can no longer be loaded is noticed exactly if it is not cached. It is then known to
      exist and missing, by number, by the hash or by a transaction that points to it; nothing else changes. */
  lemma LostBlockIsMissing(fs: Fs, n: nat)
    requires fs.blocks.cacheStart <= |fs.blocks.committed| && n < |fs.blocks.committed|
    ensures var r := fs.(blocks := fs.blocks.(committed := fs.blocks.committed[n := Failed]));
            && (forall m: nat :: BlockById(r, Number(m)) ==
                  if m == n && n < fs.blocks.cacheStart then Missing else BlockById(fs, Number(m)))
            && (forall h :: h in fs.index.byBlockHash && fs.index.byBlockHash[h] == n && n < fs.blocks.cacheStart ==>
                  BlockById(r, ByHashId(h)) == Missing)
            && (forall h :: h in fs.index.byTxnHash && fs.index.byTxnHash[h].0 == n && n < fs.blocks.cacheStart ==>
                  BlockWithTransaction(r, h) == Missing)
            && (forall h :: h in fs.index.byTxnHash && (fs.index.byTxnHash[h].0 != n || n >= fs.blocks.cacheStart) ==>
                  BlockWithTransaction(r, h) == BlockWithTransaction(fs, h))
  {
    var r := fs.(blocks := fs.blocks.(committed := fs.blocks.committed[n := Failed]));
    forall m: nat ensures BlockById(r, Number(m)) ==
                          if m == n && n < fs.blocks.cacheStart then Missing else BlockById(fs, Number(m))
    {
      if m == n && n < fs.blocks.cacheStart { assert At(r.blocks, n) == Some(None); }
    }
  }

  // ---- Reverts and the indices ----

  lemma {:induction false} UpdateAllCovers<H, P(!new)>(index: map<H, P>, entries: seq<(H, P)>, less: (P, P) -> bool)
    requires StrictOrder(less)
    ensures var r := UpdateAll(index, entries, less);
            && (forall h :: h in index ==> h in r && !less(index[h], r[h]))
            && (forall e :: e in entries ==> e.0 in r && !less(e.1, r[e.0]))
  {
    if entries != [] {
      var front := entries[..|entries| - 1];
      UpdateAllCovers(index, front, less);
      assert entries == front + [entries[|entries| - 1]];
    }
  }

  lemma {:induction false} UpdateAllNothing<H, P>(index: map<H, P>, entries: seq<(H, P)>, less: (P, P) -> bool)
    requires forall e :: e in entries ==> e.0 in index && !less(e.1, index[e.0])
    ensures UpdateAll(index, entries, less) == index
  {
    if entries != [] {
      var front := entries[..|entries| - 1];
      assert entries == front + [entries[|entries| - 1]];
      UpdateAllNothing(index, front, less);
    }
  }

  lemma {:induction false} ProposedInHas(ops: seq<Op>, op: Op)
    requires op in ops && op.InsertLeaf?
    ensures ProposedIn(ops, op.leaf.Proposer()) != []
    decreases |ops|
  {
    if ops[0] != op { ProposedInHas(ops[1..], op); }
  }

  lemma BlockStepChangesTxnsOnly(fs: Fs, step: Step)
    requires FsSafe(fs) && (step.Do? && Succeeds(fs, step.op) ==> step.op.InsertBlock?)
    ensures Next(fs, step).index == fs.index.(byTxnHash := Next(fs, step).index.byTxnHash)
  {
  }

  lemma {:induction false} BlocksChangeTxnsOnly(fs: Fs, steps: seq<Step>)
    requires FsSafe(fs) && forall op :: op in Done(fs, steps) ==> op.InsertBlock?
    ensures Run(fs, steps).index == fs.index.(byTxnHash := Run(fs, steps).index.byTxnHash)
    decreases |steps|
  {
    if steps != [] {
      DoneStep(fs, steps);
      BlockStepChangesTxnsOnly(fs, steps[0]);
      BlocksChangeTxnsOnly(Next(fs, steps[0]), steps[1..]);
    }
  }

  /** Reverting after any run gives back the indices from before it if and only if no leaf was inserted, and
      every transaction of the blocks inserted had been indexed at a position that is not later. */
  lemma {:induction false} RevertRestoresIndexIff(fs: Fs, steps: seq<Step>)
    requires FsSafe(fs)
    ensures var done := Done(fs, steps);
            FsReverted(Run(fs, steps)).index == fs.index <==>
            && (forall op :: op in done ==> op.InsertBlock?)
            && (forall e :: e in AllTxnEntries(done) ==>
                  e.0 in fs.index.byTxnHash && !TxnLess(e.1, fs.index.byTxnHash[e.0]))
  {
    var done := Done(fs, steps);
    if leaf :| leaf in done && leaf.InsertLeaf? {
      RunIndexesLeaves(fs, steps, leaf.leaf.Proposer(), 0);
      ProposedInHas(done, leaf);
      assert FsReverted(Run(fs, steps)).index.byProposer != fs.index.byProposer;
      assert !leaf.InsertBlock?;
    } else {
      BlocksChangeTxnsOnly(fs, steps);
      RunFoldsTxns(fs, steps);
      LedgerOrders();
      UpdateAllCovers(fs.index.byTxnHash, AllTxnEntries(done), TxnLess);
      if forall e :: e in AllTxnEntries(done) ==>
           e.0 in fs.index.byTxnHash && !TxnLess(e.1, fs.index.byTxnHash[e.0]) {
        UpdateAllNothing(fs.index.byTxnHash, AllTxnEntries(done), TxnLess);
      }
    }
  }

  lemma RevertReads<T>(t: Log<T>, view: seq<Option<T>>)
    requires Inv(t) && Mirrors(t) && |t.pending| <= t.cacheSize && Flat(t.committed) == view
    ensures Reads(Reverted(t), view)
  {
    RevertedInv(t);
    RevertMirrors(t);
    LogReads(Reverted(t));
  }

  lemma AppendPends<T>(log: Log<T>, index: nat, item: T)
    requires Inv(log) && Mirrors(log) && log.pending == [] && index == Length(log) && InsertSucceeds(log, index)
    ensures var t := Inserted(log, index, item);
            Inv(t) && Mirrors(t) && |t.pending| == 1 <= t.cacheSize && t.committed == log.committed
  {
    var entries := Appended(log, index, item);
    StoreAllInv(log, entries);
    StoreAllFrame(log, entries);
    AppendMirrors(log, index, item);
  }

  lemma RevertedLeafLog(log: LeafLog, ledger: seq<Entry>, leaf: LeafQueryData)
    requires Inv(log) && Mirrors(log) && log.pending == [] && Stored(log) == LeafView(ledger)
    requires InsertSucceeds(log, |ledger|)
    ensures Reads(log, LeafView(ledger))
    ensures Reads(Reverted(Inserted(log, |ledger|, leaf)), LeafView(ledger))
  {
    LogReads(log);
    assert Stored(log) == Flat(log.committed);
    AppendPends(log, |ledger|, leaf);
    RevertReads(Inserted(log, |ledger|, leaf), LeafView(ledger));
  }

  lemma {:induction false} GatherStops(fs: Fs, heights: seq<nat>, n: nat)
    requires forall h :: h in heights ==> LeafById(fs, Number(h)).Found?
    requires LeafById(fs, Number(n)) == NotFound
    ensures Gather(fs, heights + [n]) == NotFound
    decreases |heights|
  {
    if heights == [] {
      assert [] + [n] == [n];
    } else {
      assert heights[0] in heights;
      assert (heights + [n])[1..] == heights[1..] + [n];
      GatherStops(fs, heights[1..], n);
    }
  }

  /** Listing proposals fails once a reverted height is among them. */
  lemma ReachesRevertedHeight(r: Fs, view: seq<Option<LeafQueryData>>, before: seq<nat>, p: Key, n: nat)
    requires Reads(r.leaves, view) && n >= |view|
    requires forall h :: h in before ==> h < |view| && view[h].Some?
    requires ProposalsOf(r.index.byProposer, p) == before + [n]
    ensures Proposals(r, p, None) == NotFound
  {
    GatherStops(r, before, n);
  }

  lemma RevertedLeafCounts(fs: Fs, ledger: seq<Entry>, leaf: LeafQueryData)
    requires FsSafe(fs) && leaf.Height() == |ledger| && InsertSucceeds(fs.leaves, |ledger|)
    requires Reads(fs.leaves, LeafView(ledger)) && ProposalsExact(fs.index.byProposer, LeafView(ledger))
    requires Reads(Reverted(Inserted(fs.leaves, |ledger|, leaf)), LeafView(ledger))
    ensures var r := FsReverted(LeafInserted(fs, leaf));
            && BlockHeight(r) == BlockHeight(fs) == |ledger|
            && (forall n: nat :: LeafById(r, Number(n)) == LeafById(fs, Number(n)))
            && CountProposals(r, leaf.Proposer()) == CountProposals(fs, leaf.Proposer()) + 1
            && Proposals(r, leaf.Proposer(), None) == NotFound
  {
    var r := FsReverted(LeafInserted(fs, leaf));
    var before := ProposalsOf(fs.index.byProposer, leaf.Proposer());
    assert |View(r.leaves)| == |ledger| == |View(fs.leaves)|;
    ReachesRevertedHeight(r, LeafView(ledger), before, leaf.Proposer(), |ledger|);
  }

  /** Reverting the next leaf takes it out of the log: heights and queries by number are as before. But its
      proposer keeps it: the proposal is still counted, and listing all of that proposer's proposals
      fails. */
  lemma RevertedLeafStaysCounted(fs: Fs, ledger: seq<Entry>, base: nat, leaf: LeafQueryData)
    requires Settled(fs, ledger, base) && leaf.Height() == |ledger| && InsertSucceeds(fs.leaves, |ledger|)
    ensures var r := FsReverted(LeafInserted(fs, leaf));
            && BlockHeight(r) == BlockHeight(fs) == |ledger|
            && (forall n: nat :: LeafById(r, Number(n)) == LeafById(fs, Number(n)))
            && CountProposals(r, leaf.Proposer()) == CountProposals(fs, leaf.Proposer()) + 1
            && Proposals(r, leaf.Proposer(), None) == NotFound
  {
    RevertedLeafLog(fs.leaves, ledger, leaf);
    IndexMeaning(fs);
    RevertedLeafCounts(fs, ledger, leaf);
  }
}

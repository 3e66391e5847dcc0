/** The two data sources answer the same queries alike when they show the same ledger, and exactly where
    they do not. */
module Backends {
  import opened Wrappers
  import opened QueryData
  import opened Decide
  import opened EarliestIndex
  import opened Heights
  import opened LogState
  import opened FsState
  import opened FsIndices
  import opened FsLedger
  import opened SqlBounds
  import opened SqlState
  import opened SqlLedger

  // ---- What a settled file-system data source reads ----

  /** The least height of each header hash. */
  ghost predicate BlockHashesShow(index: map<Hash, nat>, ledger: seq<Entry>) {
    && (forall h :: h in index ==> index[h] < |ledger| && ledger[index[h]].leaf.BlockHash() == h)
    && (forall k :: 0 <= k < |ledger| ==>
          ledger[k].leaf.BlockHash() in index && index[ledger[k].leaf.BlockHash()] <= k)
  }

  /** The greatest height of each leaf hash. */
  ghost predicate LeafHashesShow(index: map<Hash, nat>, ledger: seq<Entry>) {
    && (forall h :: h in index ==> index[h] < |ledger| && LeafHashAt(ledger, index[h]) == h)
    && (forall k :: 0 <= k < |ledger| ==> LeafHashAt(ledger, k) in index && k <= index[LeafHashAt(ledger, k)])
  }

  lemma {:induction false} PresentLeaves(ledger: seq<Entry>)
    ensures Present(LeafView(ledger)) == Leaves(ledger)
  {
    if ledger != [] {
      var front := ledger[..|ledger| - 1];
      PresentLeaves(front);
      assert LeafView(ledger)[..|ledger| - 1] == LeafView(front);
      assert Leaves(ledger) == Leaves(front) + [ledger[|ledger| - 1].leaf];
    }
  }

  lemma EarliestIsShown(index: map<Hash, nat>, ledger: seq<Entry>)
    requires IsLedger(ledger) && IsEarliest(index, LeafHashEntries(Leaves(ledger)), HeightLess)
    ensures BlockHashesShow(index, ledger)
  {
    var entries := LeafHashEntries(Leaves(ledger));
    forall h | h in index ensures index[h] < |ledger| && ledger[index[h]].leaf.BlockHash() == h {
      var k :| 0 <= k < |entries| && entries[k] == (h, index[h]);
      assert EntryOk(ledger[k], k);
    }
    forall k | 0 <= k < |ledger|
      ensures ledger[k].leaf.BlockHash() in index && index[ledger[k].leaf.BlockHash()] <= k
    {
      assert EntryOk(ledger[k], k);
      assert entries[k] in entries;
    }
  }

  lemma LastIsShown(index: map<Hash, nat>, ledger: seq<Entry>)
    requires IsLatest(index, LeafView(ledger))
    ensures LeafHashesShow(index, ledger)
  {
    var view := LeafView(ledger);
    forall h | h in index ensures index[h] < |ledger| && LeafHashAt(ledger, index[h]) == h {
      assert view[index[h]].value == ledger[index[h]].leaf;
    }
    forall k | 0 <= k < |ledger| ensures LeafHashAt(ledger, k) in index && k <= index[LeafHashAt(ledger, k)] {
      assert view[k].value == ledger[k].leaf;
    }
  }

  /** What the queries below need to know about the file-system data source. */
  ghost predicate FsAnswers(fs: Fs, ledger: seq<Entry>) {
    && Reads(fs.leaves, LeafView(ledger))
    && Reads(fs.blocks, BlockView(ledger))
    && ProposalsExact(fs.index.byProposer, LeafView(ledger))
    && BlockHashesShow(fs.index.byBlockHash, ledger)
    && LeafHashesShow(fs.index.byLeafHash, ledger)
    && IsEarliest(fs.index.byTxnHash, BlockTxnEntries(Present(BlockView(ledger))), TxnLess)
  }

  /** A settled data source that shows a ledger answers from that ledger. */
  lemma SettledAnswers(fs: Fs, ledger: seq<Entry>, base: nat)
    requires Settled(fs, ledger, base) && IsLedger(ledger)
    ensures FsAnswers(fs, ledger)
  {
    LogReads(fs.leaves);
    LogReads(fs.blocks);
    IndexMeaning(fs);
    PresentLeaves(ledger);
    EarliestIsShown(fs.index.byBlockHash, ledger);
    LastIsShown(fs.index.byLeafHash, ledger);
  }

  // ---- By number ----

  /** Leaves by number always agree. */
  lemma LeafByNumberAgrees(fs: Fs, t: Tables, ledger: seq<Entry>, n: nat)
    requires Reads(fs.leaves, LeafView(ledger)) && TablesShow(t, ledger)
    requires n < TWO_64 && |ledger| <= TWO_63
    ensures LeafById(fs, Number(n)) == SqlLeafById(t, Number(n))
  {
  }

  lemma HeightAgrees(fs: Fs, t: Tables, ledger: seq<Entry>)
    requires Reads(fs.leaves, LeafView(ledger)) && TablesShow(t, ledger)
    ensures BlockHeight(fs) == BlockCount(t) == |ledger|
  {
    assert |View(fs.leaves)| == |ledger|;
    if ledger != [] {
      assert |ledger| - 1 in t.header.Keys;
      assert MaxKey(t.header.Keys) == |ledger| - 1;
    }
  }

  lemma BlockRowIs(t: Tables, ledger: seq<Entry>, n: nat)
    requires TablesShow(t, ledger) && IsLedger(ledger) && n < |ledger|
    ensures BlockRow(t, n) == AsResult(ledger[n].block)
  {
    assert EntryOk(ledger[n], n);
  }

  lemma {:induction false} FirstRow(keys: set<nat>, n: nat)
    requires n in keys && forall k :: k in keys ==> n <= k
    ensures Ascending(keys) != [] && Ascending(keys)[0] == n
  {
    assert n in Ascending(keys);
    assert Ascending(keys)[0] in Ascending(keys);
  }

  lemma SqlBlockByNumber(t: Tables, ledger: seq<Entry>, n: nat)
    requires TablesShow(t, ledger) && IsLedger(ledger) && n < TWO_64 && |ledger| <= TWO_63
    ensures SqlBlockById(t, Number(n)) == if n < |ledger| then AsResult(ledger[n].block) else NotFound
  {
    var keys := set k | k in t.header && k in t.payload && k == AsI64(n);
    if n < |ledger| {
      FirstRow(keys, n);
      BlockRowIs(t, ledger, n);
    } else {
      assert keys == {};
    }
  }

  lemma {:induction false} FsBlockByNumber(fs: Fs, ledger: seq<Entry>, n: nat)
    requires Reads(fs.blocks, BlockView(ledger))
    ensures BlockById(fs, Number(n)) == if n < |BlockView(ledger)| then AsResult(ledger[n].block) else NotFound
    ensures |BlockView(ledger)| <= n < |ledger| ==> ledger[n].block.None?
  {
    BlockViewIs(ledger);
  }

  /** Blocks by number agree, unless the block lies after the last payload received: there the file
      system has not found it and the database misses it. */
  lemma {:induction false} BlockByNumberAgreesIff(fs: Fs, t: Tables, ledger: seq<Entry>, n: nat)
    requires Reads(fs.blocks, BlockView(ledger)) && TablesShow(t, ledger) && IsLedger(ledger)
    requires n < TWO_64 && |ledger| <= TWO_63
    ensures BlockById(fs, Number(n)) == SqlBlockById(t, Number(n)) <==> !(|BlockView(ledger)| <= n < |ledger|)
    ensures |BlockView(ledger)| <= n < |ledger| ==>
      BlockById(fs, Number(n)) == NotFound && SqlBlockById(t, Number(n)) == Missing
  {
    FsBlockByNumber(fs, ledger, n);
    SqlBlockByNumber(t, ledger, n);
  }

  // ---- By hash ----

  /** Leaves by hash agree. */
  lemma LeafByHashAgrees(fs: Fs, t: Tables, ledger: seq<Entry>, h: Hash)
    requires Reads(fs.leaves, LeafView(ledger)) && LeafHashesShow(fs.index.byLeafHash, ledger)
    requires TablesShow(t, ledger) && DistinctHashes(ledger)
    ensures LeafById(fs, ByHashId(h)) == SqlLeafById(t, ByHashId(h))
  {
    var index := fs.index.byLeafHash;
    var keys := set k | k in t.leaf && t.leaf[k].Hash() == h;
    forall k | k in keys ensures LeafHashAt(ledger, k) == h { assert t.leaf[k] == ledger[k].leaf; }
    if h in index {
      var n := index[h];
      assert t.leaf[n] == ledger[n].leaf;
      FirstRow(keys, n);
    } else {
      assert keys == {};
    }
  }

  lemma SqlBlockByHash(t: Tables, ledger: seq<Entry>, index: map<Hash, nat>, h: Hash)
    requires BlockHashesShow(index, ledger) && TablesShow(t, ledger) && IsLedger(ledger)
    ensures SqlBlockById(t, ByHashId(h)) == if h in index then AsResult(ledger[index[h]].block) else NotFound
  {
    var keys := set k | k in t.header && k in t.payload && t.header[k].hash == h;
    forall k | k in keys ensures h in index && index[h] <= k { assert ledger[k].leaf.BlockHash() == h; }
    if h in index {
      assert ledger[index[h]].leaf.BlockHash() == h;
      FirstRow(keys, index[h]);
      BlockRowIs(t, ledger, index[h]);
    } else {
      assert keys == {};
    }
  }

  /** Blocks by hash: both find the first block with the hash, and they agree unless that block lies after
      the last payload received. */
  lemma {:induction false} BlockByHashAgreesIff(fs: Fs, t: Tables, ledger: seq<Entry>, h: Hash)
    requires Reads(fs.blocks, BlockView(ledger)) && BlockHashesShow(fs.index.byBlockHash, ledger)
    requires TablesShow(t, ledger) && IsLedger(ledger)
    ensures BlockById(fs, ByHashId(h)) == SqlBlockById(t, ByHashId(h))
            <==> !(h in fs.index.byBlockHash && fs.index.byBlockHash[h] >= |BlockView(ledger)|)
    ensures h in fs.index.byBlockHash ==>
      SqlBlockById(t, ByHashId(h)) == AsResult(ledger[fs.index.byBlockHash[h]].block)
  {
    SqlBlockByHash(t, ledger, fs.index.byBlockHash, h);
    if h in fs.index.byBlockHash { FsBlockByNumber(fs, ledger, fs.index.byBlockHash[h]); }
  }

  // ---- Ranges ----

  /** A range query on a log that reads as `view`. */
  lemma {:induction false} FsRange<T>(log: Log<T>, view: seq<Option<T>>, start: Bound, end: Bound)
    requires Reads(log, view)
    ensures RangeFrom(log, FirstOf(start), end) == RowsOf(view, start, end)
  {
    var lo, n := FirstOf(start), |view|;
    var len := |RangeFrom(log, lo, end)|;
    var hi := LimitOf(end, n);
    RangeIsExact(log, start, end);
    if lo < hi {
      assert InRange(hi - 1, start, end);
      if hi < n { assert !InRange(hi, start, end); }
    }
    if len > 0 { assert InRange(lo + len - 1, start, end); }
  }

  /** Leaf ranges agree if and only if their bounds list the same rows when read as signed numbers: both
      below 2^63, or neither, or the one that is leaves no row anyway. Otherwise one backend lists rows and
      the other none. */
  lemma {:induction false} LeafRangeAgreesIff(fs: Fs, t: Tables, ledger: seq<Entry>, start: Bound, end: Bound)
    requires Reads(fs.leaves, LeafView(ledger)) && TablesShow(t, ledger)
    requires Fits(start) && Fits(end) && |ledger| <= TWO_63
    ensures RangeFrom(fs.leaves, FirstOf(start), end) == SqlLeafRange(t, start, end)
            <==> SameRows(start, end, |ledger|)
  {
    FsRange(fs.leaves, LeafView(ledger), start, end);
    LeafRows(t, ledger, start, end);
    SignedRows(LeafView(ledger), start, end);
  }

  lemma SignedRows<T>(view: seq<Option<T>>, start: Bound, end: Bound)
    requires Fits(start) && Fits(end) && |view| <= TWO_63
    ensures var rows, signed := RowsOf(view, start, end), RowsOf(view, SignedStart(start), SignedEnd(end));
            if SameRows(start, end, |view|) then rows == signed else (rows == []) != (signed == [])
  {
  }

  function Blocks(ledger: seq<Entry>): (r: seq<Option<BlockQueryData>>)
    ensures |r| == |ledger| && forall i :: 0 <= i < |r| ==> r[i] == ledger[i].block
  {
    seq(|ledger|, i requires 0 <= i < |ledger| => ledger[i].block)
  }

  lemma BlockResultsShow(t: Tables, ledger: seq<Entry>, rows: seq<nat>)
    requires TablesShow(t, ledger) && IsLedger(ledger)
    requires forall h :: h in rows ==> h in t.header && h in t.payload
    ensures forall i :: 0 <= i < |rows| ==>
      rows[i] < |ledger| && BlockResults(t, rows)[i] == AsResult(Blocks(ledger)[rows[i]])
  {
    forall i | 0 <= i < |rows|
      ensures rows[i] < |ledger| && BlockResults(t, rows)[i] == AsResult(Blocks(ledger)[rows[i]])
    {
      assert rows[i] in rows;
      BlockRowIs(t, ledger, rows[i]);
    }
  }

  /** A range query on the block tables is a range query on the blocks of the ledger, with its bounds read
      as signed numbers. */
  lemma SqlBlockRows(t: Tables, ledger: seq<Entry>, start: Bound, end: Bound)
    requires TablesShow(t, ledger) && IsLedger(ledger) && Fits(start) && Fits(end)
    ensures SqlBlockRange(t, start, end) == RowsOf(Blocks(ledger), SignedStart(start), SignedEnd(end))
  {
    var keys := BlockKeys(t, start, end);
    forall i: nat ensures i in keys <==> i < |ledger| && InRange(i, SignedStart(start), SignedEnd(end)) {
      SelectedIsRange(i, start, end);
    }
    RowsInRange(keys, |ledger|, SignedStart(start), SignedEnd(end));
    BlockResultsShow(t, ledger, Ascending(keys));
    IsRowsOf(BlockResults(t, Ascending(keys)), Blocks(ledger), SignedStart(start), SignedEnd(end));
  }

  lemma {:induction false} BlockRowsPadded(ledger: seq<Entry>, start: Bound, end: Bound)
    ensures RowsOf(Blocks(ledger), start, end) ==
            RowsOf(BlockView(ledger), start, end) + Missings(MissedBy(start, end, |BlockView(ledger)|, |ledger|))
  {
    BlockViewIs(ledger);
    RowsOfPadded(BlockView(ledger), Blocks(ledger), start, end);
  }

  /** Block ranges: the database answers what the file system answers, followed by a missing block for
      each height of the range after the last payload received, if and only if the bounds list the same
      rows when read as signed numbers. */
  lemma {:induction false} BlockRangeAgreesIff(fs: Fs, t: Tables, ledger: seq<Entry>, start: Bound, end: Bound)
    requires Reads(fs.blocks, BlockView(ledger)) && TablesShow(t, ledger) && IsLedger(ledger)
    requires Fits(start) && Fits(end) && |ledger| <= TWO_63
    ensures SqlBlockRange(t, start, end) == RangeFrom(fs.blocks, FirstOf(start), end)
                                            + Missings(MissedBy(start, end, |BlockView(ledger)|, |ledger|))
            <==> SameRows(start, end, |ledger|)
  {
    FsRange(fs.blocks, BlockView(ledger), start, end);
    SqlBlockRows(t, ledger, start, end);
    BlockRowsPadded(ledger, start, end);
    SignedRows(Blocks(ledger), start, end);
  }

  // ---- Proposals ----

  /** The heights of the leaves with this proposer, in the order of the ledger. */
  function ProposedHeights(ledger: seq<Entry>, proposer: Key): seq<nat> {
    if ledger == [] then []
    else
      var n := |ledger| - 1;
      ProposedHeights(ledger[..n], proposer) + if ledger[n].leaf.Proposer() == proposer then [n] else []
  }

  lemma {:induction false} ProposedHeightsAre(ledger: seq<Entry>, proposer: Key)
    ensures Increasing(ProposedHeights(ledger, proposer)) && Below(ProposedHeights(ledger, proposer), |ledger|)
    ensures forall h: nat :: h in ProposedHeights(ledger, proposer) <==>
              h < |ledger| && ledger[h].leaf.Proposer() == proposer
  {
    if ledger != [] {
      var n := |ledger| - 1;
      ProposedHeightsAre(ledger[..n], proposer);
      IncreasingSnoc(ProposedHeights(ledger[..n], proposer), n);
    }
  }

  predicate Below(heights: seq<nat>, n: nat) { forall i :: 0 <= i < |heights| ==> heights[i] < n }

  function LeavesOfHeights(ledger: seq<Entry>, heights: seq<nat>): (r: seq<LeafQueryData>)
    requires Below(heights, |ledger|)
    ensures |r| == |heights| && forall i :: 0 <= i < |r| ==> r[i] == ledger[heights[i]].leaf
  {
    seq(|heights|, i requires 0 <= i < |heights| => ledger[heights[i]].leaf)
  }

  /** The leaves with this proposer in the order of the ledger, or the last `limit` of them. */
  function Proposed(ledger: seq<Entry>, proposer: Key, limit: Option<nat>): seq<LeafQueryData> {
    ProposedHeightsAre(ledger, proposer);
    var all := LeavesOfHeights(ledger, ProposedHeights(ledger, proposer));
    if limit.Some? then all[SaturatingSub(|all|, limit.value)..] else all
  }

  lemma {:induction false} GatherLeaves(fs: Fs, ledger: seq<Entry>, heights: seq<nat>)
    requires Reads(fs.leaves, LeafView(ledger)) && Below(heights, |ledger|)
    ensures Gather(fs, heights) == Found(LeavesOfHeights(ledger, heights))
    decreases |heights|
  {
    if heights != [] {
      GatherLeaves(fs, ledger, heights[1..]);
      assert LeavesOfHeights(ledger, heights) == [ledger[heights[0]].leaf] + LeavesOfHeights(ledger, heights[1..]);
    }
  }

  lemma {:induction false} FsProposals(fs: Fs, ledger: seq<Entry>, proposer: Key)
    requires ProposalsExact(fs.index.byProposer, LeafView(ledger))
    ensures ProposalsOf(fs.index.byProposer, proposer) == ProposedHeights(ledger, proposer)
  {
    ProposedHeightsAre(ledger, proposer);
    AscendingUnique(ProposalsOf(fs.index.byProposer, proposer), ProposedHeights(ledger, proposer));
  }

  lemma LeavesOfSuffix(ledger: seq<Entry>, heights: seq<nat>, k: nat)
    requires k <= |heights| && Below(heights, |ledger|)
    ensures LeavesOfHeights(ledger, heights[k..]) == LeavesOfHeights(ledger, heights)[k..]
  {
  }

  /** The file system answers with the proposals of the ledger in ascending order, or the last of them. */
  lemma ProposalsAre(fs: Fs, ledger: seq<Entry>, proposer: Key, limit: Option<nat>)
    requires Reads(fs.leaves, LeafView(ledger)) && ProposalsExact(fs.index.byProposer, LeafView(ledger))
    ensures Proposals(fs, proposer, limit) == Found(Proposed(ledger, proposer, limit))
    ensures CountProposals(fs, proposer) == |Proposed(ledger, proposer, None)|
  {
    var heights := ProposedHeights(ledger, proposer);
    ProposedHeightsAre(ledger, proposer);
    FsProposals(fs, ledger, proposer);
    if limit.Some? {
      var k := SaturatingSub(|heights|, limit.value);
      LeavesOfSuffix(ledger, heights, k);
      GatherLeaves(fs, ledger, heights[k..]);
    } else {
      GatherLeaves(fs, ledger, heights);
    }
  }

  lemma {:induction false} SqlProposals(t: Tables, ledger: seq<Entry>, proposer: Key)
    requires TablesShow(t, ledger)
    ensures Ascending(ProposalRows(t, proposer)) == ProposedHeights(ledger, proposer)
    ensures LeavesAt(t, Ascending(ProposalRows(t, proposer))) == Proposed(ledger, proposer, None)
  {
    ProposedHeightsAre(ledger, proposer);
    AscendingIs(ProposalRows(t, proposer), ProposedHeights(ledger, proposer));
    assert forall i :: 0 <= i < |ProposedHeights(ledger, proposer)| ==>
      ProposedHeights(ledger, proposer)[i] in ProposedHeights(ledger, proposer);
  }

  lemma CountAgrees(fs: Fs, t: Tables, ledger: seq<Entry>, proposer: Key)
    requires ProposalsExact(fs.index.byProposer, LeafView(ledger)) && TablesShow(t, ledger)
    ensures CountProposals(fs, proposer) == SqlCountProposals(t, proposer) == |Proposed(ledger, proposer, None)|
  {
    FsProposals(fs, ledger, proposer);
    SqlProposals(t, ledger, proposer);
  }

  /** Taking from the reversed list and reversing is dropping the front of the list. */
  lemma MostRecent(t: Tables, all: seq<nat>, limit: nat)
    requires forall h :: h in all ==> h in t.leaf
    ensures var limited := Reversed(all)[..Min(limit, |all|)];
            && (forall h :: h in limited ==> h in t.leaf)
            && Reversed(LeavesAt(t, limited)) == LeavesAt(t, all)[SaturatingSub(|all|, limit)..]
  {
    var limited := Reversed(all)[..Min(limit, |all|)];
    forall i | 0 <= i < |limited| ensures limited[i] == all[|all| - 1 - i] && limited[i] in all {
      assert limited[i] == Reversed(all)[i];
    }
  }

  /** With a limit, both give the most recent proposals in ascending order. */
  lemma LimitedProposalsAgree(fs: Fs, t: Tables, ledger: seq<Entry>, proposer: Key, limit: nat)
    requires Reads(fs.leaves, LeafView(ledger)) && ProposalsExact(fs.index.byProposer, LeafView(ledger))
    requires TablesShow(t, ledger) && limit < TWO_63
    ensures SqlLimitedProposals(t, proposer, limit) == Proposed(ledger, proposer, Some(limit))
    ensures Proposals(fs, proposer, Some(limit)) == Found(SqlLimitedProposals(t, proposer, limit))
  {
    SqlProposals(t, ledger, proposer);
    MostRecent(t, Ascending(ProposalRows(t, proposer)), limit);
    ProposalsAre(fs, ledger, proposer, Some(limit));
  }

  /** Without a limit, the file system gives all proposals in ascending order, and any answer of the database is
      a permutation of that. */
  lemma UnlimitedProposalsAgree(fs: Fs, t: Tables, ledger: seq<Entry>, proposer: Key, rows: seq<LeafQueryData>)
    requires Reads(fs.leaves, LeafView(ledger)) && ProposalsExact(fs.index.byProposer, LeafView(ledger))
    requires TablesShow(t, ledger)
    ensures Proposals(fs, proposer, None) == Found(Proposed(ledger, proposer, None))
    ensures IsUnlimitedProposals(t, proposer, rows) <==> multiset(rows) == multiset(Proposed(ledger, proposer, None))
  {
    SqlProposals(t, ledger, proposer);
    ProposalsAre(fs, ledger, proposer, None);
  }
}

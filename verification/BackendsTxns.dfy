/** Finding the block of a transaction: the database takes the first row, the file system the least
    position. */
module BackendsTxns {
  import opened Wrappers
  import opened QueryData
  import opened Decide
  import opened EarliestIndex
  import opened LogState
  import opened FsState
  import opened FsIndices
  import opened FsLedger
  import opened SqlState
  import opened SqlLedger
  import opened Backends

  /** The earliest block of the ledger with a transaction, and what a search of its payload finds. */
  function EarliestTxn(ledger: seq<Entry>, hash: Hash): Option<TxnRow> {
    if ledger == [] then None
    else
      var n := |ledger| - 1;
      var before := EarliestTxn(ledger[..n], hash);
      if before.Some? || ledger[n].block.None? then before
      else
        match ByHash(ledger[n].block.value.payload, hash)
        case None => None
        case Some(i) => Some(TxnRow(hash, n, i))
  }

  function SearchAt(ledger: seq<Entry>, n: nat, hash: Hash): Option<nat>
    requires n < |ledger|
  {
    if ledger[n].block.Some? then ByHash(ledger[n].block.value.payload, hash) else None
  }

  lemma {:induction false} EarliestTxnIs(ledger: seq<Entry>, hash: Hash)
    ensures var r := EarliestTxn(ledger, hash);
            && (r.None? ==> forall n :: 0 <= n < |ledger| ==> SearchAt(ledger, n, hash).None?)
            && (r.Some? ==>
                  && r.value.hash == hash && r.value.blockHeight < |ledger|
                  && SearchAt(ledger, r.value.blockHeight, hash) == Some(r.value.index)
                  && forall n :: 0 <= n < r.value.blockHeight ==> SearchAt(ledger, n, hash).None?)
  {
    if ledger != [] {
      var m := |ledger| - 1;
      EarliestTxnIs(ledger[..m], hash);
      assert forall n :: 0 <= n < m ==> SearchAt(ledger, n, hash) == SearchAt(ledger[..m], n, hash);
    }
  }

  // ---- The database ----

  lemma {:induction false} FirstTxnConcat(t: Tables, a: seq<TxnRow>, b: seq<TxnRow>, hash: Hash)
    ensures FirstTxn(t, a + b, hash) == if FirstTxn(t, a, hash).Some? then FirstTxn(t, a, hash) else FirstTxn(t, b, hash)
  {
    if a == [] {
      assert a + b == b;
    } else {
      FirstTxnConcat(t, a[1..], b, hash);
      assert (a + b)[1..] == a[1..] + b;
    }
  }

  lemma {:induction false} FirstInBlock(t: Tables, block: BlockQueryData, hash: Hash, k: nat)
    requires k <= |block.payload.indices|
    requires block.Height() in t.header && block.Height() in t.payload
    ensures FirstTxn(t, TxnRows(block)[k..], hash) ==
            match FindFrom(block.payload, hash, k) case None => None case Some(i) => Some(TxnRow(hash, block.Height(), i))
    decreases |block.payload.indices| - k
  {
    if k < |block.payload.indices| {
      FirstInBlock(t, block, hash, k + 1);
      var rows := TxnRows(block);
      assert rows[k..][0] == rows[k] && rows[k..][1..] == rows[k + 1..];
    }
  }

  /** The first row with a hash belongs to the earliest block with it, at the index a search of that
      block's payload finds. */
  lemma {:induction false} FirstRowIsEarliest(t: Tables, ledger: seq<Entry>, hash: Hash)
    requires IsLedger(ledger)
    requires forall i :: 0 <= i < |ledger| ==> i in t.header && i in t.payload
    ensures FirstTxn(t, TxnRowsOf(ledger), hash) == EarliestTxn(ledger, hash)
  {
    if ledger != [] {
      var n := |ledger| - 1;
      assert EntryOk(ledger[n], n);
      assert IsLedger(ledger[..n]) by { assert forall i :: 0 <= i < n ==> EntryOk(ledger[i], i); }
      FirstRowIsEarliest(t, ledger[..n], hash);
      if ledger[n].block.Some? {
        var block := ledger[n].block.value;
        FirstTxnConcat(t, TxnRowsOf(ledger[..n]), TxnRows(block), hash);
        FirstInBlock(t, block, hash, 0);
        assert TxnRows(block)[0..] == TxnRows(block);
      } else {
        assert TxnRowsOf(ledger) == TxnRowsOf(ledger[..n]);
      }
    }
  }

  // ---- The file system ----

  /** Block `b` of the ledger has a transaction with this hash at index `i`. */
  ghost predicate HasTxn(ledger: seq<Entry>, hash: Hash, b: nat, i: nat) {
    && b < |ledger| && ledger[b].block.Some?
    && (hash, (b, i)) in TxnEntries(ledger[b].block.value)
  }

  lemma {:induction false} PresentBlocks(ledger: seq<Entry>, n: nat)
    requires |ledger| == n + 1
    ensures Present(BlockView(ledger)) ==
            Present(BlockView(ledger[..n])) + if ledger[n].block.Some? then [ledger[n].block.value] else []
  {
    var before := BlockView(ledger[..n]);
    if ledger[n].block.Some? {
      PresentPad(before, n - |before|);
      PresentSnoc(before + Placeholders(n - |before|), ledger[n].block);
    }
  }

  lemma {:induction false} EntriesOfLedger(ledger: seq<Entry>, hash: Hash, b: nat, i: nat)
    requires IsLedger(ledger)
    ensures (hash, (b, i)) in BlockTxnEntries(Present(BlockView(ledger))) <==> HasTxn(ledger, hash, b, i)
  {
    if ledger != [] {
      var n := |ledger| - 1;
      assert IsLedger(ledger[..n]) by { assert forall i :: 0 <= i < n ==> EntryOk(ledger[i], i); }
      EntriesOfLedger(ledger[..n], hash, b, i);
      PresentBlocks(ledger, n);
      if ledger[n].block.Some? {
        var blocks := Present(BlockView(ledger[..n]));
        assert EntryOk(ledger[n], n);
        assert (blocks + [ledger[n].block.value])[..|blocks|] == blocks;
      }
    }
  }

  lemma SearchFindsTxn(ledger: seq<Entry>, hash: Hash, b: nat)
    requires IsLedger(ledger) && b < |ledger|
    ensures SearchAt(ledger, b, hash).Some? ==> HasTxn(ledger, hash, b, SearchAt(ledger, b, hash).value)
    ensures forall i :: HasTxn(ledger, hash, b, i) ==> SearchAt(ledger, b, hash).Some?
  {
    if ledger[b].block.Some? {
      var p := ledger[b].block.value.payload;
      assert EntryOk(ledger[b], b);
      FindFromIsFirst(p, hash, 0);
      if SearchAt(ledger, b, hash).Some? {
        var j :| 0 <= j < |p.indices| && p.indices[j] == ByHash(p, hash).value && p.contents[p.indices[j]] == hash;
        assert TxnEntries(ledger[b].block.value)[j] == (hash, (b, p.indices[j]));
      }
    }
  }

  /** The transaction index has a hash exactly if some block has it, and then points into the earliest such
      block, at an index no greater than the one a search finds. */
  lemma {:induction false} IndexPointsToEarliest(index: map<Hash, (nat, nat)>, ledger: seq<Entry>, hash: Hash)
    requires IsLedger(ledger) && IsEarliest(index, BlockTxnEntries(Present(BlockView(ledger))), TxnLess)
    ensures hash in index <==> EarliestTxn(ledger, hash).Some?
    ensures hash in index ==>
      var r := EarliestTxn(ledger, hash).value;
      && HasTxn(ledger, hash, index[hash].0, index[hash].1)
      && index[hash].0 == r.blockHeight && index[hash].1 <= r.index
  {
    var entries := BlockTxnEntries(Present(BlockView(ledger)));
    EarliestTxnIs(ledger, hash);
    if hash in index {
      assert (hash, index[hash]) in entries;
      EntriesOfLedger(ledger, hash, index[hash].0, index[hash].1);
      SearchFindsTxn(ledger, hash, index[hash].0);
    }
    if EarliestTxn(ledger, hash).Some? {
      var r := EarliestTxn(ledger, hash).value;
      SearchFindsTxn(ledger, hash, r.blockHeight);
      EntriesOfLedger(ledger, hash, r.blockHeight, r.index);
      assert (hash, (r.blockHeight, r.index)) in entries;
    }
  }

  lemma {:induction false} LeastIff(index: map<Hash, (nat, nat)>, ledger: seq<Entry>, hash: Hash)
    requires IsLedger(ledger) && IsEarliest(index, BlockTxnEntries(Present(BlockView(ledger))), TxnLess)
    requires hash in index && index[hash].0 < |ledger| && ledger[index[hash].0].block.Some?
    requires SearchAt(ledger, index[hash].0, hash).Some? && HasTxn(ledger, hash, index[hash].0, index[hash].1)
    requires index[hash].1 <= SearchAt(ledger, index[hash].0, hash).value
    ensures index[hash].1 == SearchAt(ledger, index[hash].0, hash).value
            <==> FirstIsLeast(ledger[index[hash].0].block.value.payload, hash)
  {
    var b := index[hash].0;
    var block := ledger[b].block.value;
    var p := block.payload;
    assert EntryOk(ledger[b], b);
    forall k | 0 <= k < |p.indices| && p.contents[p.indices[k]] == hash ensures index[hash].1 <= p.indices[k] {
      assert TxnEntries(block)[k] == (hash, (b, p.indices[k]));
      EntriesOfLedger(ledger, hash, b, p.indices[k]);
      assert !TxnLess((hash, (b, p.indices[k])).1, index[hash]);
    }
    var k :| 0 <= k < |p.indices| && TxnEntries(block)[k] == (hash, index[hash]);
    assert p.contents[p.indices[k]] == hash && p.indices[k] == index[hash].1;
  }

  /** Both data sources find the same block for every transaction hash, the earliest with it, or neither
      finds one; and they give the same index if and only if the payload's iteration meets the hash
      first at its least index, as it does when it enumerates in ascending order. The database always
      gives the index a search of the payload finds. */
  lemma {:induction false} TransactionAgreesIff(fs: Fs, t: Tables, ledger: seq<Entry>, hash: Hash)
    requires Reads(fs.blocks, BlockView(ledger)) && TablesShow(t, ledger) && IsLedger(ledger)
    requires IsEarliest(fs.index.byTxnHash, BlockTxnEntries(Present(BlockView(ledger))), TxnLess)
    ensures var a := BlockWithTransaction(fs, hash);
            var b := SqlBlockWithTransaction(t, hash);
            && (a.Found? <==> b.Found?) && (!a.Found? ==> a == b == NotFound)
            && (b.Found? ==>
                  && a.value.0 == b.value.0
                  && ByHash(b.value.0.payload, hash) == Some(b.value.1)
                  && (a == b <==> FirstIsLeast(b.value.0.payload, hash)))
  {
    FirstRowIsEarliest(t, ledger, hash);
    IndexPointsToEarliest(fs.index.byTxnHash, ledger, hash);
    EarliestTxnIs(ledger, hash);
    if hash in fs.index.byTxnHash {
      var n := fs.index.byTxnHash[hash].0;
      BlockRowIs(t, ledger, n);
      FsBlockByNumber(fs, ledger, n);
      LeastIff(fs.index.byTxnHash, ledger, hash);
    }
  }

  lemma FoundInLedger(t: Tables, ledger: seq<Entry>, hash: Hash) returns (n: nat)
    requires TablesShow(t, ledger) && IsLedger(ledger) && SqlBlockWithTransaction(t, hash).Found?
    ensures n < |ledger| && ledger[n].block == Some(SqlBlockWithTransaction(t, hash).value.0)
  {
    n := FirstTxn(t, t.txns, hash).value.blockHeight;
    BlockRowIs(t, ledger, n);
  }

  /** So both give the same answer to every transaction hash if every payload enumerates in ascending order. */
  lemma {:induction false} TransactionAgrees(fs: Fs, t: Tables, ledger: seq<Entry>, hash: Hash)
    requires Reads(fs.blocks, BlockView(ledger)) && TablesShow(t, ledger) && IsLedger(ledger)
    requires IsEarliest(fs.index.byTxnHash, BlockTxnEntries(Present(BlockView(ledger))), TxnLess)
    requires forall n :: 0 <= n < |ledger| && ledger[n].block.Some? ==>
      EnumeratesAscending(ledger[n].block.value.payload)
    ensures BlockWithTransaction(fs, hash) == SqlBlockWithTransaction(t, hash)
  {
    TransactionAgreesIff(fs, t, ledger, hash);
    if SqlBlockWithTransaction(t, hash).Found? {
      var n := FoundInLedger(t, ledger, hash);
      AscendingIsFirstIsLeast(ledger[n].block.value.payload, hash);
    }
  }
}

/** The SQL data source: a connection with one transaction that accumulates changes, and two buffered
    streams; each method is proved against its transition in SqlState.dfy. */
module SqlDataSource {
  import opened Wrappers
  import opened QueryData
  import opened Decide
  import opened SqlBounds
  import opened SqlState
  import B = BufferedChannel

  class SqlDataSource {
    // The database: what it has committed, what this connection sees, whether a statement of the open
    // transaction has failed, and whether it answers.
    var committed: Tables
    var working: Tables
    var failed: bool
    var online: bool
    var txInProgress: bool
    const leafStream: B.BufferedChannel<LeafQueryData>
    const blockStream: B.BufferedChannel<BlockQueryData>

    ghost predicate Valid() { leafStream as object != blockStream as object }

    ghost function State(): Sql
      reads this, leafStream, blockStream
    {
      Sql(committed, working, txInProgress, failed, online,
          leafStream.pending, leafStream.sent, blockStream.pending, blockStream.sent)
    }

    /** Connect to a migrated database; the genesis objects are looked after by `InsertGenesis`. */
    constructor (tables: Tables, online: bool)
      ensures Valid() && fresh(leafStream) && fresh(blockStream)
      ensures State() == Connected(tables, online)
    {
      committed, working, failed := tables, tables, false;
      this.online, txInProgress := online, false;
      leafStream := new B.BufferedChannel();
      blockStream := new B.BufferedChannel();
    }

    method InsertGenesis(genesis: Genesis) returns (ok: bool)
      requires Valid()
      modifies this, leafStream, blockStream
      ensures State() == SqlGenesisInserted(old(State()), genesis)
      ensures ok == SqlGenesisSucceeds(old(State()), genesis)
    {
      if !online { return false; }
      if BlockCount(working) != 0 { return true; }
      SqlEntryOps(State(), GenesisEntry(genesis));
      ok := InsertLeaf(genesis.leaf);
      if !ok { return; }
      ok := InsertBlock(genesis.block);
      if !ok { return; }
      ok := Commit();
    }

    /** Make sure a transaction is open. */
    method Transaction() returns (ok: bool)
      modifies this
      ensures ok == (old(online) || old(txInProgress))
      ensures State() == Begun(old(State()))
    {
      if !txInProgress {
        if !online { return false; }
        txInProgress := true;
      }
      ok := true;
    }

    /** Run the statements of an insertion in the open transaction. */
    method ExecuteMany(op: Op) returns (ok: bool)
      modifies this
      ensures ok == SqlSucceeds(old(State()), op)
      ensures State() == if ok then old(State()).(working := Statements(old(working), op).value)
                         else old(State()).(failed := old(failed) || old(online))
    {
      if !online { return false; }
      var result := Statements(working, op);
      if failed || result.None? {
        failed := true;
        return false;
      }
      working := result.value;
      ok := true;
    }

    method InsertLeaf(leaf: LeafQueryData) returns (ok: bool)
      requires Valid()
      modifies this, leafStream
      ensures State() == SqlApply(old(State()), Decide.InsertLeaf(leaf))
      ensures ok == SqlSucceeds(old(State()), Decide.InsertLeaf(leaf))
    {
      ok := Transaction();
      if !ok { return; }
      ok := ExecuteMany(Decide.InsertLeaf(leaf));
      if !ok { return; }
      leafStream.Push(leaf);
    }

    method InsertBlock(block: BlockQueryData) returns (ok: bool)
      requires Valid()
      modifies this, blockStream
      ensures State() == SqlApply(old(State()), Decide.InsertBlock(block))
      ensures ok == SqlSucceeds(old(State()), Decide.InsertBlock(block))
    {
      ok := Transaction();
      if !ok { return; }
      ok := ExecuteMany(Decide.InsertBlock(block));
      if !ok { return; }
      blockStream.Push(block);
    }

    /** Insert one position of the ledger: the leaf and, if its payload is known, its block. */
    method InsertEntry(leaf: Leaf, qc: QC) returns (ok: bool)
      requires Valid() && qc.leafCommit == leaf.hash
      modifies this, leafStream, blockStream
      ensures State() == SqlApplyAll(old(State()), EntryOps(EntryOf((qc, leaf))))
      ensures ok == SqlAllSucceed(old(State()), EntryOps(EntryOf((qc, leaf))))
    {
      ghost var e := EntryOf((qc, leaf));
      SqlEntryOps(State(), e);
      var leafData := NewLeaf(leaf, qc);
      assert leafData.Ok?;
      ok := InsertLeaf(leafData.value);
      if ok && leaf.payload.Some? {
        var blockData := NewBlock(leaf, qc, leaf.payload.value);
        assert blockData.Ok?;
        ok := InsertBlock(blockData.value);
      }
    }

    /** Take in a consensus event. The caller has authenticated it, so the pairs are consistent. */
    method Update(event: Event) returns (ok: bool)
      requires Valid()
      requires event.DecideEvent? ==> Justified(event.chain, event.qc)
      modifies this, leafStream, blockStream
      ensures State() == SqlApplyAll(old(State()), Ops(Entries(event)))
      ensures ok == SqlAllSucceed(old(State()), Ops(Entries(event)))
    {
      ok := true;
      if event.DecideEvent? {
        ghost var before := State();
        ghost var entries := Entries(event);
        var pairs := Pairs(event.chain, event.qc);
        PairsConsistentIff(event.chain, event.qc);
        PairsAre(event.chain, event.qc);
        for k := 0 to |pairs|
          invariant SqlAllSucceed(before, Ops(entries[..k])) && State() == SqlApplyAll(before, Ops(entries[..k]))
        {
          var (qc, leaf) := pairs[k];
          SqlNextEntry(before, entries, k);
          ok := InsertEntry(leaf, qc);
          if !ok { return; }
        }
        assert entries[..|pairs|] == entries;
      }
    }

    method Commit() returns (ok: bool)
      requires Valid()
      modifies this, leafStream, blockStream
      ensures State() == SqlCommitted(old(State()))
      ensures ok == SqlCommitSucceeds(old(State()))
    {
      if txInProgress {
        if !online { return false; }
        if failed { working, failed := committed, false; } else { committed := working; }
        txInProgress := false;
      }
      leafStream.Flush();
      blockStream.Flush();
      ok := true;
    }

    /** A rollback that the database does not answer is fatal, so reverting needs it to be there. */
    method Revert()
      requires Valid()
      requires txInProgress ==> online
      modifies this, leafStream, blockStream
      ensures State() == SqlReverted(old(State()))
    {
      if txInProgress {
        working, failed := committed, false;
        txInProgress := false;
      }
      leafStream.Clear();
      blockStream.Clear();
    }

    // ---- Queries ----

    /** The rows the where clause selects, in ascending order. */
    method GetLeafRange(start: Bound, end: Bound) returns (r: seq<QueryResult<LeafQueryData>>)
      ensures r == SqlLeafRange(working, start, end)
    {
      var clause, params := BoundsToWhereClause(start, end);
      var keys := set k | k in working.leaf && Selects(clause, params, k);
      assert Where(clause, params) == WhereClause(start, end);
      assert keys == LeafKeys(working, start, end);
      r := LeafResults(working, Ascending(keys));
    }

    method GetBlockRange(start: Bound, end: Bound) returns (r: seq<QueryResult<BlockQueryData>>)
      ensures r == SqlBlockRange(working, start, end)
    {
      var clause, params := BoundsToWhereClause(start, end);
      var keys := set k | k in working.header && k in working.payload && Selects(clause, params, k);
      assert Where(clause, params) == WhereClause(start, end);
      assert keys == BlockKeys(working, start, end);
      r := BlockResults(working, Ascending(keys));
    }

    /** The rows from `height` on, then what will be flushed from now on. */
    method SubscribeLeaves(height: nat) returns (stream: LeafStream)
      ensures stream == SqlSubscribed(State(), height)
    {
      var current := GetLeafRange(Included(height), Unbounded);
      var since := leafStream.Subscribe();
      stream := LeafStream(current, since);
    }
  }
}

/** The state of the SQL data source as a value: the tables as the database has committed them, the
    tables as the connection sees them, and the buffered streams. Queries have their relational
    meaning. */
module SqlState {
  import opened Wrappers
  import opened QueryData
  import opened Decide
  import opened Heights
  import opened SqlBounds

  // ---- Tables ----

  /** Rows of the transaction table are listed in the order of their serial ids. */
  datatype TxnRow = TxnRow(hash: Hash, blockHeight: nat, index: nat)

  /** Keyed by height: headers, payloads (null until received), and leaves. */
  datatype Tables = Tables(
    header: map<nat, Header>,
    payload: map<nat, Option<Payload>>,
    leaf: map<nat, LeafQueryData>,
    txns: seq<TxnRow>)

  const EMPTY_TABLES := Tables(map[], map[], map[], [])

  /** The three inserts for a leaf; `None` if a primary key or the unique leaf hash is violated. */
  function LeafStatements(t: Tables, leaf: LeafQueryData): Option<Tables> {
    var h := leaf.Height();
    if h in t.header || h in t.payload || h in t.leaf then None
    else if exists k :: k in t.leaf && t.leaf[k].Hash() == leaf.Hash() then None
    else Some(t.(header := t.header[h := leaf.leaf.header], payload := t.payload[h := None], leaf := t.leaf[h := leaf]))
  }

  function TxnRows(block: BlockQueryData): (r: seq<TxnRow>)
    ensures |r| == |block.payload.indices|
    ensures forall k :: 0 <= k < |r| ==>
      r[k] == TxnRow(block.payload.contents[block.payload.indices[k]], block.Height(), block.payload.indices[k])
  {
    var txns := Enumerate(block.payload);
    seq(|txns|, k requires 0 <= k < |txns| => TxnRow(txns[k].1, block.Height(), txns[k].0))
  }

  /** The update of the payload row, if there is one, and the insert of the transaction rows, if there
      are any; `None` if those reference a header that does not exist. */
  function BlockStatements(t: Tables, block: BlockQueryData): Option<Tables> {
    var h := block.Height();
    if TxnRows(block) != [] && h !in t.header then None
    else
      Some(t.(payload := if h in t.payload then t.payload[h := Some(block.payload)] else t.payload,
              txns := t.txns + TxnRows(block)))
  }

  function Statements(t: Tables, op: Op): Option<Tables> {
    match op
    case InsertLeaf(leaf) => LeafStatements(t, leaf)
    case InsertBlock(block) => BlockStatements(t, block)
  }

  /** The tables after a list of insertions, all of which the database accepts. */
  function Execute(t: Tables, ops: seq<Op>): Option<Tables> {
    if ops == [] then Some(t)
    else
      match Execute(t, ops[..|ops| - 1])
      case None => None
      case Some(u) => Statements(u, ops[|ops| - 1])
  }

  // ---- The connection and the streams ----

  /** `online` says whether the database answers at all; the environment may change it. `failed` is set
      while a statement of the open transaction has failed and nothing has been rolled back. */
  datatype Sql = Sql(
    committed: Tables,
    working: Tables,
    txInProgress: bool,
    failed: bool,
    online: bool,
    leafPending: seq<LeafQueryData>,
    leafSent: seq<LeafQueryData>,
    blockPending: seq<BlockQueryData>,
    blockSent: seq<BlockQueryData>)

  function Connected(tables: Tables, online: bool): Sql {
    Sql(tables, tables, false, false, online, [], [], [], [])
  }

  /** Open a transaction unless one is open. */
  function Begun(s: Sql): Sql {
    if s.online then s.(txInProgress := true) else s
  }

  predicate SqlSucceeds(s: Sql, op: Op) { s.online && !s.failed && Statements(s.working, op).Some? }

  function SqlApply(s: Sql, op: Op): Sql {
    if !s.online then s
    else if !SqlSucceeds(s, op) then Begun(s).(failed := true)
    else
      var t := Begun(s).(working := Statements(s.working, op).value);
      match op
      case InsertLeaf(leaf) => t.(leafPending := t.leafPending + [leaf])
      case InsertBlock(block) => t.(blockPending := t.blockPending + [block])
  }

  /** Apply operations up to and including the first that fails. */
  function SqlApplyAll(s: Sql, ops: seq<Op>): Sql
    decreases |ops|
  {
    if ops == [] then s
    else if SqlSucceeds(s, ops[0]) then SqlApplyAll(SqlApply(s, ops[0]), ops[1..])
    else SqlApply(s, ops[0])
  }

  predicate SqlAllSucceed(s: Sql, ops: seq<Op>)
    decreases |ops|
  {
    ops != [] ==> SqlSucceeds(s, ops[0]) && SqlAllSucceed(SqlApply(s, ops[0]), ops[1..])
  }

  /** A list of operations does what its front does and then, if that succeeded, what the rest does. */
  lemma {:induction false} SqlApplyFront(s: Sql, a: seq<Op>, b: seq<Op>)
    ensures SqlAllSucceed(s, a + b) == (SqlAllSucceed(s, a) && SqlAllSucceed(SqlApplyAll(s, a), b))
    ensures SqlApplyAll(s, a + b) == if SqlAllSucceed(s, a) then SqlApplyAll(SqlApplyAll(s, a), b) else SqlApplyAll(s, a)
    decreases |a|
  {
    if a == [] {
      assert a + b == b;
    } else {
      assert (a + b)[1..] == a[1..] + b;
      SqlApplyFront(SqlApply(s, a[0]), a[1..], b);
    }
  }

  lemma {:induction false} SqlCutShort(s: Sql, a: seq<Op>, all: seq<Op>)
    requires a <= all && !SqlAllSucceed(s, a)
    ensures !SqlAllSucceed(s, all) && SqlApplyAll(s, all) == SqlApplyAll(s, a)
  {
    SqlApplyFront(s, a, all[|a|..]);
    assert a + all[|a|..] == all;
  }

  lemma {:induction false} SqlOneOp(s: Sql, op: Op)
    ensures SqlAllSucceed(s, [op]) == SqlSucceeds(s, op)
    ensures SqlApplyAll(s, [op]) == SqlApply(s, op)
  {
    assert [op][1..] == [];
    assert SqlApplyAll(SqlApply(s, op), []) == SqlApply(s, op);
  }

  /** The insertions of one position: the block follows if the leaf succeeded. */
  lemma {:induction false} SqlEntryOps(s: Sql, e: Entry)
    ensures var mid := SqlApply(s, InsertLeaf(e.leaf));
            var first := SqlSucceeds(s, InsertLeaf(e.leaf));
            && (!first || e.block.None? ==> SqlAllSucceed(s, EntryOps(e)) == first && SqlApplyAll(s, EntryOps(e)) == mid)
            && (first && e.block.Some? ==>
                  && SqlAllSucceed(s, EntryOps(e)) == SqlSucceeds(mid, InsertBlock(e.block.value))
                  && SqlApplyAll(s, EntryOps(e)) == SqlApply(mid, InsertBlock(e.block.value)))
  {
    SqlOneOp(s, InsertLeaf(e.leaf));
    if e.block.Some? {
      SqlOneOp(SqlApply(s, InsertLeaf(e.leaf)), InsertBlock(e.block.value));
      SqlApplyFront(s, [InsertLeaf(e.leaf)], [InsertBlock(e.block.value)]);
    } else {
      assert EntryOps(e) == [InsertLeaf(e.leaf)];
    }
  }

  /** One more position of a stretch of the ledger: if its insertions succeed, the stretch has succeeded up to
      there, and if not, that is where it stops. */
  lemma {:induction false} SqlNextEntry(s: Sql, entries: seq<Entry>, k: nat)
    requires k < |entries| && SqlAllSucceed(s, Ops(entries[..k]))
    ensures var mid := SqlApplyAll(s, Ops(entries[..k]));
            var ops := EntryOps(entries[k]);
            var upTo := if SqlAllSucceed(mid, ops) then Ops(entries[..k + 1]) else Ops(entries);
            && SqlAllSucceed(s, upTo) == SqlAllSucceed(mid, ops)
            && SqlApplyAll(s, upTo) == SqlApplyAll(mid, ops)
  {
    var done, ops := Ops(entries[..k]), EntryOps(entries[k]);
    OpsStep(entries, k);
    SqlApplyFront(s, done, ops);
    if !SqlAllSucceed(s, done + ops) { SqlCutShort(s, done + ops, Ops(entries)); }
  }

  predicate SqlCommitSucceeds(s: Sql) { s.txInProgress ==> s.online }

  /** Commit the open transaction, then flush the streams. PostgreSQL answers the commit of a transaction
      in which a statement has failed by rolling it back. */
  function SqlCommitted(s: Sql): Sql {
    if !SqlCommitSucceeds(s) then s
    else
      var tables := if s.txInProgress && !s.failed then s.working else s.committed;
      s.(committed := tables,
         working := if s.txInProgress then tables else s.working,
         failed := if s.txInProgress then false else s.failed,
         txInProgress := false,
         leafSent := s.leafSent + s.leafPending, leafPending := [],
         blockSent := s.blockSent + s.blockPending, blockPending := [])
  }

  /** Roll back the open transaction, then drop what the streams hold. */
  function SqlReverted(s: Sql): Sql {
    s.(working := if s.txInProgress then s.committed else s.working,
       failed := if s.txInProgress then false else s.failed,
       txInProgress := false,
       leafPending := [], blockPending := [])
  }

  function SqlGenesisInserted(s: Sql, genesis: Genesis): Sql {
    if !s.online || BlockCount(s.working) != 0 then s
    else
      var applied := SqlApplyAll(s, GenesisOps(genesis));
      if SqlAllSucceed(s, GenesisOps(genesis)) then SqlCommitted(applied) else applied
  }

  predicate SqlGenesisSucceeds(s: Sql, genesis: Genesis) {
    && s.online
    && (BlockCount(s.working) == 0 ==>
          SqlAllSucceed(s, GenesisOps(genesis)) && SqlCommitSucceeds(SqlApplyAll(s, GenesisOps(genesis))))
  }

  // ---- Subscriptions ----

  /** A stream of leaves: the rows at the time, then everything flushed after the first `since`. */
  datatype LeafStream = LeafStream(current: seq<QueryResult<LeafQueryData>>, since: nat)

  function SqlSubscribed(s: Sql, height: nat): LeafStream {
    LeafStream(SqlLeafRange(s.working, Included(height), Unbounded), |s.leafSent|)
  }

  /** Each message of the broadcast part is a success. */
  function AsFound(leaves: seq<LeafQueryData>): (r: seq<QueryResult<LeafQueryData>>)
    ensures |r| == |leaves|
    ensures forall i :: 0 <= i < |r| ==> r[i] == Found(leaves[i])
  {
    seq(|leaves|, i requires 0 <= i < |leaves| => Found(leaves[i]))
  }

  function SqlDelivered(stream: LeafStream, sent: seq<LeafQueryData>): seq<QueryResult<LeafQueryData>>
    requires stream.since <= |sent|
  {
    stream.current + AsFound(sent[stream.since..])
  }

  // ---- Queries ----

  function BlockCount(t: Tables): nat {
    if t.header == map[] then 0 else 1 + MaxKey(t.header.Keys)
  }

  function MaxKey(keys: set<nat>): (m: nat)
    requires keys != {}
    ensures m in keys && forall k :: k in keys ==> k <= m
  {
    MaxExists(keys);
    var m :| m in keys && forall k :: k in keys ==> k <= m;
    m
  }

  lemma {:induction false} MaxExists(keys: set<nat>)
    requires keys != {}
    ensures exists m :: m in keys && forall k :: k in keys ==> k <= m
    decreases |keys|
  {
    var k :| k in keys;
    var rest := keys - {k};
    var m := k;
    if rest != {} {
      MaxExists(rest);
      var top :| top in rest && forall j :: j in rest ==> j <= top;
      if top > k { m := top; }
    }
    forall j | j in keys ensures j <= m { assert j == k || j in rest; }
    assert m in keys;
  }

  /** `rows` lists a set of heights in ascending order: the meaning of `ORDER BY height ASC`. */
  function Ascending(heights: set<nat>): (rows: seq<nat>)
    ensures forall h :: h in rows <==> h in heights
    ensures Increasing(rows) && |rows| == |heights|
    decreases |heights|
  {
    if heights == {} then []
    else
      var m := MaxKey(heights);
      var below := Ascending(heights - {m});
      IncreasingSnoc(below, m);
      below + [m]
  }

  lemma {:induction false} AscendingIs(heights: set<nat>, rows: seq<nat>)
    requires Increasing(rows)
    requires forall h :: h in rows <==> h in heights
    ensures Ascending(heights) == rows
  {
    AscendingUnique(Ascending(heights), rows);
  }

  function SqlLeafById(t: Tables, id: ResourceId): QueryResult<LeafQueryData> {
    match id
    case Number(n) =>
      var k := AsI64(n);
      if k in t.leaf then Found(t.leaf[k]) else NotFound
    case ByHashId(h) =>
      var rows := Ascending(set k | k in t.leaf && t.leaf[k].Hash() == h);
      if rows == [] then NotFound else (assert rows[0] in rows; Found(t.leaf[rows[0]]))
  }

  /** A joined header and payload row as a block: missing while the payload is null. */
  function BlockRow(t: Tables, n: nat): QueryResult<BlockQueryData>
    requires n in t.header && n in t.payload
  {
    match t.payload[n]
    case None => Missing
    case Some(p) => Found(BlockQueryData(t.header[n], p, t.header[n].hash, p.size))
  }

  function SqlBlockById(t: Tables, id: ResourceId): QueryResult<BlockQueryData> {
    var matching := match id
      case Number(n) => (set k | k in t.header && k in t.payload && k == AsI64(n))
      case ByHashId(h) => (set k | k in t.header && k in t.payload && t.header[k].hash == h);
    var rows := Ascending(matching);
    if rows == [] then NotFound else (assert rows[0] in rows; BlockRow(t, rows[0]))
  }

  /** The leaf rows of some heights, in the given order. */
  function LeafResults(t: Tables, rows: seq<nat>): (r: seq<QueryResult<LeafQueryData>>)
    requires forall h :: h in rows ==> h in t.leaf
    ensures |r| == |rows| && forall i :: 0 <= i < |r| ==> r[i] == Found(t.leaf[rows[i]])
  {
    seq(|rows|, i requires 0 <= i < |rows| => Found(t.leaf[rows[i]]))
  }

  /** The joined header and payload rows of some heights, in the given order. */
  function BlockResults(t: Tables, rows: seq<nat>): (r: seq<QueryResult<BlockQueryData>>)
    requires forall h :: h in rows ==> h in t.header && h in t.payload
    ensures |r| == |rows| && forall i :: 0 <= i < |r| ==> r[i] == BlockRow(t, rows[i])
  {
    seq(|rows|, i requires 0 <= i < |rows| => BlockRow(t, rows[i]))
  }

  function LeafKeys(t: Tables, start: Bound, end: Bound): set<nat> { set k | k in t.leaf && Selected(k, start, end) }

  function BlockKeys(t: Tables, start: Bound, end: Bound): set<nat> {
    set k | k in t.header && k in t.payload && Selected(k, start, end)
  }

  function SqlLeafRange(t: Tables, start: Bound, end: Bound): seq<QueryResult<LeafQueryData>> {
    LeafResults(t, Ascending(LeafKeys(t, start, end)))
  }

  function SqlBlockRange(t: Tables, start: Bound, end: Bound): seq<QueryResult<BlockQueryData>> {
    BlockResults(t, Ascending(BlockKeys(t, start, end)))
  }

  /** The first of some transaction rows, in serial id order, with this hash and a block to go with it. */
  function FirstTxn(t: Tables, rows: seq<TxnRow>, hash: Hash): Option<TxnRow> {
    if rows == [] then None
    else if rows[0].hash == hash && rows[0].blockHeight in t.header && rows[0].blockHeight in t.payload then Some(rows[0])
    else FirstTxn(t, rows[1..], hash)
  }

  function SqlBlockWithTransaction(t: Tables, hash: Hash): QueryResult<(BlockQueryData, nat)> {
    match FirstTxn(t, t.txns, hash)
    case None => NotFound
    case Some(row) =>
      if row.blockHeight !in t.header || row.blockHeight !in t.payload then NotFound
      else
        match BlockRow(t, row.blockHeight)
        case NotFound => NotFound
        case Missing => Missing
        case Found(block) => Found((block, row.index))
  }

  function ProposalRows(t: Tables, proposer: Key): set<nat> {
    set k | k in t.leaf && t.leaf[k].Proposer() == proposer
  }

  function LeavesAt(t: Tables, heights: seq<nat>): (r: seq<LeafQueryData>)
    requires forall h :: h in heights ==> h in t.leaf
    ensures |r| == |heights|
    ensures forall i :: 0 <= i < |r| ==> r[i] == t.leaf[heights[i]]
  {
    seq(|heights|, i requires 0 <= i < |heights| => t.leaf[heights[i]])
  }

  /** With a limit: order by descending height, take the first rows, and reverse them. */
  function SqlLimitedProposals(t: Tables, proposer: Key, limit: nat): seq<LeafQueryData> {
    var descending := Reversed(Ascending(ProposalRows(t, proposer)));
    var limited := descending[..Min(limit, |descending|)];
    assert forall i :: 0 <= i < |descending| ==> descending[i] in Ascending(ProposalRows(t, proposer));
    Reversed(LeavesAt(t, limited))
  }

  /** Without a limit the order of the rows is up to the database. */
  ghost predicate IsUnlimitedProposals(t: Tables, proposer: Key, rows: seq<LeafQueryData>) {
    multiset(rows) == multiset(LeavesAt(t, Ascending(ProposalRows(t, proposer))))
  }

  function SqlCountProposals(t: Tables, proposer: Key): nat { |ProposalRows(t, proposer)| }
}

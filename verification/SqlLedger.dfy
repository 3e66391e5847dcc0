/** The SQL data source driven by consensus events is the ledger, and its leaf subscriptions deliver it. */
module SqlLedger {
  import opened Wrappers
  import opened QueryData
  import opened Decide
  import opened Service
  import opened SqlState
  import opened Heights
  import opened SqlBounds

  function TxnRowsOf(ledger: seq<Entry>): seq<TxnRow> {
    if ledger == [] then []
    else
      TxnRowsOf(ledger[..|ledger| - 1]) +
      if ledger[|ledger| - 1].block.Some? then TxnRows(ledger[|ledger| - 1].block.value) else []
  }

  function PayloadOf(e: Entry): Option<Payload> {
    if e.block.Some? then Some(e.block.value.payload) else None
  }

  ghost predicate TablesShow(t: Tables, ledger: seq<Entry>) {
    && (forall i :: i in t.header <==> 0 <= i < |ledger|)
    && (forall i :: i in t.payload <==> 0 <= i < |ledger|)
    && (forall i :: i in t.leaf <==> 0 <= i < |ledger|)
    && (forall i :: 0 <= i < |ledger| ==>
          && t.header[i] == ledger[i].leaf.leaf.header
          && t.payload[i] == PayloadOf(ledger[i])
          && t.leaf[i] == ledger[i].leaf)
    && t.txns == TxnRowsOf(ledger)
  }

  function LeafHashAt(ledger: seq<Entry>, i: nat): Hash
    requires i < |ledger|
  {
    ledger[i].leaf.Hash()
  }

  /** No two leaves have the same hash, which the database insists on. */
  ghost predicate DistinctHashes(ledger: seq<Entry>) {
    forall i, j :: 0 <= i < j < |ledger| ==> LeafHashAt(ledger, i) != LeafHashAt(ledger, j)
  }

  lemma DistinctExtends(t: Tables, ledger: seq<Entry>, e: Entry)
    requires TablesShow(t, ledger) && DistinctHashes(ledger) && LeafStatements(t, e.leaf).Some?
    ensures DistinctHashes(ledger + [e])
  {
    var next := ledger + [e];
    forall i, j | 0 <= i < j < |next| ensures LeafHashAt(next, i) != LeafHashAt(next, j) {
      if j < |ledger| {
        assert LeafHashAt(ledger, i) != LeafHashAt(ledger, j);
      } else {
        assert t.leaf[i] == next[i].leaf;
      }
    }
  }

  /** Nothing is outstanding, the tables show the ledger, and the leaf stream has delivered the leaves
      from height `base` on, where the session began. */
  ghost predicate SqlSettled(s: Sql, ledger: seq<Entry>, base: nat) {
    && !s.txInProgress && !s.failed && s.working == s.committed
    && s.leafPending == [] && s.blockPending == []
    && TablesShow(s.working, ledger) && DistinctHashes(ledger)
    && base <= |ledger| && s.leafSent == Leaves(ledger)[base..]
  }

  /** The buffers in the middle of an update: `before` are the leaves at the last commit, `now` those
      inserted by now. */
  ghost predicate BuffersShow(s: Sql, before: seq<LeafQueryData>, now: seq<LeafQueryData>, base: nat) {
    && !s.failed
    && (!s.txInProgress ==> now == before && s.working == s.committed && s.leafPending == [] && s.blockPending == [])
    && before <= now
    && base <= |before| && s.leafSent == before[base..]
    && s.leafPending == now[|before|..]
  }

  ghost predicate SqlShows(s: Sql, before: seq<LeafQueryData>, ledger: seq<Entry>, base: nat) {
    TablesShow(s.working, ledger) && DistinctHashes(ledger) && BuffersShow(s, before, Leaves(ledger), base)
  }

  lemma LeafRowShows(t: Tables, ledger: seq<Entry>, leaf: LeafQueryData, u: Tables)
    requires TablesShow(t, ledger) && leaf.Height() == |ledger|
    requires u == Tables(t.header[|ledger| := leaf.leaf.header], t.payload[|ledger| := None],
                         t.leaf[|ledger| := leaf], t.txns)
    ensures TablesShow(u, ledger + [Entry(leaf, None)])
  {
    var next := ledger + [Entry(leaf, None)];
    assert next[..|ledger|] == ledger;
    assert TxnRowsOf(next) == TxnRowsOf(ledger);
    forall i | 0 <= i < |next|
      ensures u.header[i] == next[i].leaf.leaf.header && u.payload[i] == PayloadOf(next[i]) && u.leaf[i] == next[i].leaf
    {
      if i < |ledger| { assert next[i] == ledger[i]; }
    }
  }

  lemma LeafShows(t: Tables, ledger: seq<Entry>, e: Entry)
    requires TablesShow(t, ledger) && EntryOk(e, |ledger|) && LeafStatements(t, e.leaf).Some?
    ensures TablesShow(LeafStatements(t, e.leaf).value, ledger + [Entry(e.leaf, None)])
  {
    LeafRowShows(t, ledger, e.leaf, LeafStatements(t, e.leaf).value);
  }

  lemma BlockRowShows(t: Tables, ledger: seq<Entry>, e: Entry, u: Tables)
    requires TablesShow(t, ledger + [Entry(e.leaf, None)]) && e.block.Some?
    requires u == Tables(t.header, t.payload[|ledger| := Some(e.block.value.payload)],
                         t.leaf, t.txns + TxnRows(e.block.value))
    ensures TablesShow(u, ledger + [e])
  {
    var before := ledger + [Entry(e.leaf, None)];
    var next := ledger + [e];
    assert before[..|ledger|] == ledger && next[..|ledger|] == ledger;
    assert TxnRowsOf(next) == TxnRowsOf(before) + TxnRows(e.block.value);
    forall i | 0 <= i < |next|
      ensures u.header[i] == next[i].leaf.leaf.header && u.payload[i] == PayloadOf(next[i]) && u.leaf[i] == next[i].leaf
    {
      assert next[i].leaf == before[i].leaf;
      if i < |ledger| { assert next[i] == before[i]; }
    }
  }

  lemma BlockShows(t: Tables, ledger: seq<Entry>, e: Entry)
    requires TablesShow(t, ledger + [Entry(e.leaf, None)]) && EntryOk(e, |ledger|) && e.block.Some?
    ensures BlockStatements(t, e.block.value).Some?
    ensures TablesShow(BlockStatements(t, e.block.value).value, ledger + [e])
  {
    BlockRowShows(t, ledger, e, BlockStatements(t, e.block.value).value);
  }

  lemma LeafBuffers(s: Sql, before: seq<LeafQueryData>, now: seq<LeafQueryData>, base: nat, leaf: LeafQueryData)
    requires BuffersShow(s, before, now, base) && SqlSucceeds(s, InsertLeaf(leaf))
    ensures BuffersShow(SqlApply(s, InsertLeaf(leaf)), before, now + [leaf], base)
    ensures SqlApply(s, InsertLeaf(leaf)).txInProgress
    ensures SqlApply(s, InsertLeaf(leaf)).working == LeafStatements(s.working, leaf).value
  {
    assert (now + [leaf])[|before|..] == now[|before|..] + [leaf];
  }

  lemma BlockBuffers(s: Sql, before: seq<LeafQueryData>, now: seq<LeafQueryData>, base: nat, block: BlockQueryData)
    requires BuffersShow(s, before, now, base) && SqlSucceeds(s, InsertBlock(block)) && s.txInProgress
    ensures BuffersShow(SqlApply(s, InsertBlock(block)), before, now, base)
    ensures SqlApply(s, InsertBlock(block)).txInProgress
    ensures SqlApply(s, InsertBlock(block)).working == BlockStatements(s.working, block).value
  {
  }

  lemma {:induction false} EntryShowsTables(s: Sql, ledger: seq<Entry>, e: Entry)
    requires TablesShow(s.working, ledger) && DistinctHashes(ledger) && EntryOk(e, |ledger|)
    requires SqlAllSucceed(s, EntryOps(e))
    ensures TablesShow(SqlApplyAll(s, EntryOps(e)).working, ledger + [e]) && DistinctHashes(ledger + [e])
  {
    SqlEntryOps(s, e);
    DistinctExtends(s.working, ledger, e);
    LeafShows(s.working, ledger, e);
    if e.block.Some? {
      BlockShows(SqlApply(s, InsertLeaf(e.leaf)).working, ledger, e);
    } else {
      assert Entry(e.leaf, None) == e;
    }
  }

  lemma {:induction false} EntryShowsBuffers(s: Sql, before: seq<LeafQueryData>, now: seq<LeafQueryData>,
                                             base: nat, e: Entry)
    requires BuffersShow(s, before, now, base) && SqlAllSucceed(s, EntryOps(e))
    ensures BuffersShow(SqlApplyAll(s, EntryOps(e)), before, now + [e.leaf], base)
    ensures SqlApplyAll(s, EntryOps(e)).txInProgress
  {
    SqlEntryOps(s, e);
    LeafBuffers(s, before, now, base, e.leaf);
    if e.block.Some? {
      BlockBuffers(SqlApply(s, InsertLeaf(e.leaf)), before, now + [e.leaf], base, e.block.value);
    }
  }

  /** The insertions of one position, all successful, extend the ledger shown by that position. */
  lemma {:induction false} EntryExtendsSql(s: Sql, before: seq<LeafQueryData>, ledger: seq<Entry>, base: nat, e: Entry)
    requires SqlShows(s, before, ledger, base) && EntryOk(e, |ledger|)
    requires SqlAllSucceed(s, EntryOps(e))
    ensures SqlShows(SqlApplyAll(s, EntryOps(e)), before, ledger + [e], base)
    ensures SqlApplyAll(s, EntryOps(e)).txInProgress
  {
    EntryShowsTables(s, ledger, e);
    EntryShowsBuffers(s, before, Leaves(ledger), base, e);
    assert Leaves(ledger + [e]) == Leaves(ledger) + [e.leaf];
  }

  lemma {:induction false} EntriesExtendSql(s: Sql, ledger: seq<Entry>, base: nat, entries: seq<Entry>)
    requires SqlShows(s, Leaves(ledger), ledger, base) && IsLedger(ledger + entries)
    requires SqlAllSucceed(s, Ops(entries))
    ensures SqlShows(SqlApplyAll(s, Ops(entries)), Leaves(ledger), ledger + entries, base)
    ensures entries != [] ==> SqlApplyAll(s, Ops(entries)).txInProgress
    decreases |entries|
  {
    if entries == [] {
      assert ledger + entries == ledger;
    } else {
      var n := |entries| - 1;
      SqlApplyFront(s, Ops(entries[..n]), EntryOps(entries[n]));
      SplitLedger(ledger, entries, n);
      EntriesExtendSql(s, ledger, base, entries[..n]);
      EntryExtendsSql(SqlApplyAll(s, Ops(entries[..n])), Leaves(ledger), ledger + entries[..n], base, entries[n]);
    }
  }

  // ---- Whole runs ----

  function SqlUpdateAndCommit(s: Sql, event: Event): Outcome<Sql> {
    var applied := SqlApplyAll(s, Ops(Entries(event)));
    if SqlAllSucceed(s, Ops(Entries(event))) then Outcome(SqlCommitted(applied), SqlCommitSucceeds(applied))
    else Outcome(applied, false)
  }

  function SqlServeAll(s: Sql, events: seq<Event>): Outcome<Sql> { Serve(SqlUpdateAndCommit, s, events) }

  lemma CommitSettles(s: Sql, before: seq<LeafQueryData>, ledger: seq<Entry>, base: nat)
    requires SqlShows(s, before, ledger, base) && SqlCommitSucceeds(s)
    ensures SqlSettled(SqlCommitted(s), ledger, base)
  {
    assert before[base..] + Leaves(ledger)[|before|..] == Leaves(ledger)[base..];
  }

  lemma EventSettles(s: Sql, ledger: seq<Entry>, base: nat, event: Event)
    requires SqlSettled(s, ledger, base) && IsLedger(ledger) && Extends(|ledger|, event)
    requires SqlUpdateAndCommit(s, event).ok
    ensures SqlSettled(SqlUpdateAndCommit(s, event).state, ledger + Entries(event), base)
  {
    EntriesExtend(ledger, event);
    assert Leaves(ledger)[|ledger|..] == [];
    EntriesExtendSql(s, ledger, base, Entries(event));
    CommitSettles(SqlApplyAll(s, Ops(Entries(event))), Leaves(ledger), ledger + Entries(event), base);
  }

  /** A settled SQL data source that shows a ledger shows, after any history of events each extending the
      chain, with every update and commit successful, the ledger that history describes, and has
      delivered exactly its leaves since the session began. */
  lemma {:induction false} SqlRunRefinesLedger(s: Sql, ledger: seq<Entry>, base: nat, events: seq<Event>)
    requires SqlSettled(s, ledger, base) && IsLedger(ledger) && History(|ledger|, events)
    requires SqlServeAll(s, events).ok
    ensures SqlSettled(SqlServeAll(s, events).state, LedgerAfter(ledger, events), base)
  {
    var shows := (t: Sql, l: seq<Entry>) => SqlSettled(t, l, base) && IsLedger(l);
    forall t, l, e | shows(t, l) && Extends(|l|, e) && SqlUpdateAndCommit(t, e).ok
      ensures shows(SqlUpdateAndCommit(t, e).state, l + Entries(e))
    {
      EventSettles(t, l, base, e);
      EntriesExtend(l, e);
    }
    ServeShows(SqlUpdateAndCommit, shows, s, ledger, events);
  }

  lemma SqlGenesisShows(online: bool, genesis: Genesis)
    requires genesis.Valid() && SqlGenesisSucceeds(Connected(EMPTY_TABLES, online), genesis)
    ensures SqlSettled(SqlGenesisInserted(Connected(EMPTY_TABLES, online), genesis), [GenesisEntry(genesis)], 0)
  {
    var s := Connected(EMPTY_TABLES, online);
    assert SqlShows(s, [], [], 0);
    EntryExtendsSql(s, [], [], 0, GenesisEntry(genesis));
    assert [] + [GenesisEntry(genesis)] == [GenesisEntry(genesis)];
    CommitSettles(SqlApplyAll(s, GenesisOps(genesis)), [], [GenesisEntry(genesis)], 0);
  }

  /** A data source as it is after connecting to a new database. */
  ghost predicate IsConnected(s: Sql, genesis: Genesis) {
    exists online ::
      && SqlGenesisSucceeds(Connected(EMPTY_TABLES, online), genesis)
      && s == SqlGenesisInserted(Connected(EMPTY_TABLES, online), genesis)
  }

  lemma ConnectedShows(s: Sql, genesis: Genesis, ledger: seq<Entry>)
    requires genesis.Valid() && IsConnected(s, genesis) && ledger == [GenesisEntry(genesis)]
    ensures SqlSettled(s, ledger, 0)
  {
    var online :| SqlGenesisSucceeds(Connected(EMPTY_TABLES, online), genesis)
                  && s == SqlGenesisInserted(Connected(EMPTY_TABLES, online), genesis);
    SqlGenesisShows(online, genesis);
  }

  /** Connecting to the database of a settled data source succeeds exactly if the database answers, and what is
      connected shows the same ledger. */
  lemma ReconnectShows(s: Sql, ledger: seq<Entry>, base: nat, online: bool, genesis: Genesis)
    requires SqlSettled(s, ledger, base) && ledger != []
    ensures var connected := Connected(s.committed, online);
            && (SqlGenesisSucceeds(connected, genesis) <==> online)
            && SqlSettled(SqlGenesisInserted(connected, genesis), ledger, |ledger|)
  {
    assert 0 in s.committed.header;
  }

  // ---- Subscriptions ----

  /** The rows of a range are the heights of the ledger in that range. */
  lemma {:induction false} RowsInRange(keys: set<nat>, n: nat, start: Bound, end: Bound)
    requires forall i: nat :: i in keys <==> i < n && InRange(i, start, end)
    ensures Ascending(keys) == Interval(FirstOf(start), LimitOf(end, n))
  {
    var rows := Interval(FirstOf(start), LimitOf(end, n));
    forall h: nat ensures h in rows <==> h in keys { InInterval(FirstOf(start), LimitOf(end, n), h); }
    AscendingIs(keys, rows);
  }

  lemma LeafResultsShow(t: Tables, ledger: seq<Entry>, rows: seq<nat>)
    requires TablesShow(t, ledger)
    requires forall h :: h in rows ==> h in t.leaf
    ensures forall i :: 0 <= i < |rows| ==>
      rows[i] < |ledger| && LeafResults(t, rows)[i] == AsResult(LeafView(ledger)[rows[i]])
  {
    assert forall i :: 0 <= i < |rows| ==> rows[i] in rows;
  }

  lemma IsRowsOf<T>(a: seq<QueryResult<T>>, view: seq<Option<T>>, start: Bound, end: Bound)
    requires var rows := Interval(FirstOf(start), LimitOf(end, |view|));
             |a| == |rows| && forall i :: 0 <= i < |rows| ==> rows[i] < |view| && a[i] == AsResult(view[rows[i]])
    ensures a == RowsOf(view, start, end)
  {
  }

  /** A range query on the leaf table is a range query on the leaves of the ledger, with its bounds read as
      signed numbers. */
  lemma LeafRows(t: Tables, ledger: seq<Entry>, start: Bound, end: Bound)
    requires TablesShow(t, ledger) && Fits(start) && Fits(end)
    ensures SqlLeafRange(t, start, end) == RowsOf(LeafView(ledger), SignedStart(start), SignedEnd(end))
  {
    var keys := LeafKeys(t, start, end);
    forall i: nat ensures i in keys <==> i < |ledger| && InRange(i, SignedStart(start), SignedEnd(end)) {
      SelectedIsRange(i, start, end);
    }
    RowsInRange(keys, |ledger|, SignedStart(start), SignedEnd(end));
    LeafResultsShow(t, ledger, Ascending(keys));
    IsRowsOf(LeafResults(t, Ascending(keys)), LeafView(ledger), SignedStart(start), SignedEnd(end));
  }

  /** The height from which a subscription replays: one of 2^63 or above becomes negative. */
  function ReplaysFrom(height: nat): nat { if height < TWO_63 then height else 0 }

  lemma RowsFrom(ledger: seq<Entry>, height: nat)
    ensures RowsOf(LeafView(ledger), Included(height), Unbounded) == AsFound(Leaves(ledger)[Min(height, |ledger|)..])
    ensures RowsOf(LeafView(ledger), Unbounded, Unbounded) == AsFound(Leaves(ledger)[0..])
  {
  }

  lemma DeliveredFrom(current: seq<LeafQueryData>, before: seq<LeafQueryData>,
                      after: seq<LeafQueryData>, base: nat, lo: nat)
    requires before <= after && base <= |before| && lo <= |before| && current == before[lo..]
    ensures SqlDelivered(LeafStream(AsFound(current), |before| - base), after[base..]) == AsFound(after[lo..])
  {
    assert after[base..][|before| - base..] == after[|before|..];
    assert after[lo..] == current + after[|before|..];
  }

  lemma SubscribedAt(s: Sql, ledger: seq<Entry>, base: nat, height: nat)
    requires TablesShow(s.working, ledger) && base <= |ledger| && |s.leafSent| == |ledger| - base
    requires height < TWO_64
    ensures SqlSubscribed(s, height)
            == LeafStream(AsFound(Leaves(ledger)[Min(ReplaysFrom(height), |ledger|)..]), |ledger| - base)
  {
    LeafRows(s.working, ledger, Included(height), Unbounded);
    RowsFrom(ledger, height);
  }

  /** A subscription made while `ledger` was shown has delivered, when `after` is shown, the leaves of
      `after` from the height it replays from, or from the height at the time if that was lower. */
  lemma SettledDelivers(s: Sql, ledger: seq<Entry>, end: Sql, after: seq<Entry>, base: nat, height: nat)
    requires SqlSettled(s, ledger, base) && SqlSettled(end, after, base) && ledger <= after
    requires height < TWO_64
    ensures |s.leafSent| <= |end.leafSent|
    ensures SqlDelivered(SqlSubscribed(s, height), end.leafSent)
            == AsFound(Leaves(after)[Min(ReplaysFrom(height), |ledger|)..])
  {
    var lo := Min(ReplaysFrom(height), |ledger|);
    SubscribedAt(s, ledger, base, height);
    DeliveredFrom(Leaves(ledger)[lo..], Leaves(ledger), Leaves(after), base, lo);
  }

  /** When a subscription delivers the leaves from its height on and no others: if the height was not above
      the height at the time or nothing has been added since, and, where the height becomes negative, only
      if there are no leaves at all. */
  predicate Exact(height: nat, before: nat, after: nat) {
    if height < TWO_63 then height <= before || after == before else after == 0
  }

  /** So it delivers the leaves from `height` on, once each and in order, if and only if that is the case. */
  lemma SettledDeliversIff(s: Sql, ledger: seq<Entry>, end: Sql, after: seq<Entry>, base: nat, height: nat)
    requires SqlSettled(s, ledger, base) && SqlSettled(end, after, base) && ledger <= after
    requires height < TWO_64 && |after| <= TWO_63
    ensures |s.leafSent| <= |end.leafSent|
    ensures SqlDelivered(SqlSubscribed(s, height), end.leafSent) == AsFound(Leaves(after)[Min(height, |after|)..])
            <==> Exact(height, |ledger|, |after|)
  {
    SettledDelivers(s, ledger, end, after, base, height);
    var lo := Min(ReplaysFrom(height), |ledger|);
    assert |AsFound(Leaves(after)[lo..])| == |after| - lo;
    assert |AsFound(Leaves(after)[Min(height, |after|)..])| == |after| - Min(height, |after|);
  }

  /** For every history: a subscription made between two events and at or below the current height
      delivers the leaves of the ledger from its height on. */
  lemma {:induction false} SubscriptionDelivers(s: Sql, ledger: seq<Entry>, base: nat, events: seq<Event>, height: nat)
    requires SqlSettled(s, ledger, base) && IsLedger(ledger) && History(|ledger|, events)
    requires SqlServeAll(s, events).ok && height <= |ledger| && height < TWO_63
    ensures var sent := SqlServeAll(s, events).state.leafSent;
            var after := LedgerAfter(ledger, events);
            && ledger <= after && |s.leafSent| <= |sent|
            && SqlDelivered(SqlSubscribed(s, height), sent) == AsFound(Leaves(after)[height..])
  {
    SqlRunRefinesLedger(s, ledger, base, events);
    LedgerGrows(ledger, events);
    SettledDelivers(s, ledger, SqlServeAll(s, events).state, LedgerAfter(ledger, events), base, height);
  }
}

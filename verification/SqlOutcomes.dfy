/** When an update of the SQL data source succeeds, and what is left when one does not. */
module SqlOutcomes {
  import opened Wrappers
  import opened QueryData
  import opened Decide
  import opened Service
  import opened SqlState
  import opened SqlLedger

  // ---- When updates succeed ----

  lemma {:induction false} DistinctPrefix(ledger: seq<Entry>, more: seq<Entry>)
    requires DistinctHashes(ledger + more)
    ensures DistinctHashes(ledger)
  {
    forall i, j | 0 <= i < j < |ledger| ensures LeafHashAt(ledger, i) != LeafHashAt(ledger, j) {
      assert LeafHashAt(ledger + more, i) != LeafHashAt(ledger + more, j);
    }
  }

  /** The database accepts a leaf exactly if its height is not taken and no leaf has its hash. */
  lemma {:induction false} LeafAcceptedIff(t: Tables, ledger: seq<Entry>, leaf: LeafQueryData)
    requires TablesShow(t, ledger)
    ensures LeafStatements(t, leaf).Some? <==>
      leaf.Height() >= |ledger| && forall i :: 0 <= i < |ledger| ==> LeafHashAt(ledger, i) != leaf.Hash()
  {
    forall i | 0 <= i < |ledger| ensures t.leaf[i].Hash() == LeafHashAt(ledger, i) { }
  }

  /** A block whose leaf is not there is refused if it has transactions, and otherwise changes nothing. */
  lemma {:induction false} BlockWithoutLeaf(t: Tables, ledger: seq<Entry>, block: BlockQueryData)
    requires TablesShow(t, ledger) && block.Height() >= |ledger|
    ensures BlockStatements(t, block) == if block.payload.indices != [] then None else Some(t)
  {
    assert t.txns + [] == t.txns;
  }

  lemma {:induction false} NextLeafAcceptedIff(t: Tables, ledger: seq<Entry>, e: Entry)
    requires TablesShow(t, ledger) && DistinctHashes(ledger) && e.leaf.Height() == |ledger|
    ensures LeafStatements(t, e.leaf).Some? <==> DistinctHashes(ledger + [e])
  {
    LeafAcceptedIff(t, ledger, e.leaf);
    if LeafStatements(t, e.leaf).Some? {
      DistinctExtends(t, ledger, e);
    } else {
      var k :| 0 <= k < |ledger| && LeafHashAt(ledger, k) == e.leaf.Hash();
      assert LeafHashAt(ledger + [e], k) == LeafHashAt(ledger + [e], |ledger|);
    }
  }

  lemma {:induction false} EntrySucceedsIff(s: Sql, ledger: seq<Entry>, e: Entry)
    requires TablesShow(s.working, ledger) && DistinctHashes(ledger) && EntryOk(e, |ledger|) && !s.failed
    ensures SqlAllSucceed(s, EntryOps(e)) <==> s.online && DistinctHashes(ledger + [e])
  {
    SqlEntryOps(s, e);
    NextLeafAcceptedIff(s.working, ledger, e);
    if s.online && e.block.Some? && LeafStatements(s.working, e.leaf).Some? {
      LeafShows(s.working, ledger, e);
      BlockShows(LeafStatements(s.working, e.leaf).value, ledger, e);
    }
  }

  lemma {:induction false} ApplyAllOnline(s: Sql, ops: seq<Op>)
    ensures SqlApplyAll(s, ops).online == s.online
    decreases |ops|
  {
    if ops != [] && SqlSucceeds(s, ops[0]) { ApplyAllOnline(SqlApply(s, ops[0]), ops[1..]); }
  }

  /** The insertions of a stretch of the ledger succeed exactly if there are none, or the database answers and no
      two leaves have the same hash. */
  lemma {:induction false} EntriesSucceedIff(s: Sql, ledger: seq<Entry>, base: nat, entries: seq<Entry>)
    requires SqlShows(s, Leaves(ledger), ledger, base) && IsLedger(ledger + entries)
    ensures SqlAllSucceed(s, Ops(entries)) <==> entries == [] || (s.online && DistinctHashes(ledger + entries))
    decreases |entries|
  {
    if entries != [] {
      var n := |entries| - 1;
      SplitLedger(ledger, entries, n);
      EntriesSucceedIff(s, ledger, base, entries[..n]);
      SqlApplyFront(s, Ops(entries[..n]), EntryOps(entries[n]));
      if SqlAllSucceed(s, Ops(entries[..n])) {
        EntriesExtendSql(s, ledger, base, entries[..n]);
        ApplyAllOnline(s, Ops(entries[..n]));
        EntrySucceedsIff(SqlApplyAll(s, Ops(entries[..n])), ledger + entries[..n], entries[n]);
      } else if s.online && DistinctHashes(ledger + entries) {
        DistinctPrefix(ledger + entries[..n], [entries[n]]);
      }
    }
  }

  lemma {:induction false} SettledIsShown(s: Sql, ledger: seq<Entry>, base: nat)
    requires SqlSettled(s, ledger, base)
    ensures SqlShows(s, Leaves(ledger), ledger, base)
  {
    assert Leaves(ledger)[|ledger|..] == [];
  }

  /** Exactly when a settled data source takes in an event and commits it. */
  lemma {:induction false} EventSucceedsIff(s: Sql, ledger: seq<Entry>, base: nat, event: Event)
    requires SqlSettled(s, ledger, base) && IsLedger(ledger) && Extends(|ledger|, event)
    ensures SqlUpdateAndCommit(s, event).ok
            <==> Entries(event) == [] || (s.online && DistinctHashes(ledger + Entries(event)))
  {
    EntriesExtend(ledger, event);
    SettledIsShown(s, ledger, base);
    EntriesSucceedIff(s, ledger, base, Entries(event));
    ApplyAllOnline(s, Ops(Entries(event)));
  }

  /** Connecting to a new database succeeds exactly if the database answers. */
  lemma ConnectSucceedsIff(online: bool, genesis: Genesis)
    requires genesis.Valid()
    ensures SqlGenesisSucceeds(Connected(EMPTY_TABLES, online), genesis) <==> online
  {
    var s := Connected(EMPTY_TABLES, online);
    EntrySucceedsIff(s, [], GenesisEntry(genesis));
    ApplyAllOnline(s, GenesisOps(genesis));
  }

  // ---- What is left when one fails ----

  /** What the database has committed and what has been delivered. */
  ghost predicate SameOutside(s: Sql, t: Sql) {
    s.committed == t.committed && s.leafSent == t.leafSent && s.blockSent == t.blockSent
  }

  lemma {:induction false} ApplyAllInside(s: Sql, ops: seq<Op>)
    ensures SameOutside(s, SqlApplyAll(s, ops))
    decreases |ops|
  {
    if ops != [] && SqlSucceeds(s, ops[0]) { ApplyAllInside(SqlApply(s, ops[0]), ops[1..]); }
  }

  /** A list of insertions that fails stops at the first that does, having done those before it. */
  lemma {:induction false} ApplyAllStops(s: Sql, ops: seq<Op>) returns (k: nat)
    requires !SqlAllSucceed(s, ops)
    ensures k < |ops| && SqlAllSucceed(s, ops[..k])
    ensures var mid := SqlApplyAll(s, ops[..k]);
            !SqlSucceeds(mid, ops[k]) && SqlApplyAll(s, ops) == SqlApply(mid, ops[k])
    decreases |ops|
  {
    if SqlSucceeds(s, ops[0]) {
      var j := ApplyAllStops(SqlApply(s, ops[0]), ops[1..]);
      k := j + 1;
      assert ops[..k][1..] == ops[1..][..j];
    } else {
      k := 0;
      assert ops[..0] == [];
    }
  }

  lemma {:induction false} FailedEventInside(s: Sql, event: Event)
    requires !SqlUpdateAndCommit(s, event).ok
    ensures SameOutside(s, SqlUpdateAndCommit(s, event).state)
  {
    ApplyAllInside(s, Ops(Entries(event)));
  }

  lemma {:induction false} SettledCommitted(s: Sql, t: Sql, ledger: seq<Entry>, base: nat, online: bool, genesis: Genesis)
    requires SqlSettled(s, ledger, base) && SameOutside(s, t) && ledger != []
    ensures var connected := Connected(t.committed, online);
            && (SqlGenesisSucceeds(connected, genesis) <==> online)
            && SqlSettled(SqlGenesisInserted(connected, genesis), ledger, |ledger|)
  {
    ReconnectShows(s, ledger, base, online, genesis);
  }

  /** However a run fails, the event it fails at leaves no trace: what is committed and what has been delivered are
      those of the events before it, and connecting again shows the ledger of those. */
  lemma {:induction false} FailureLeavesNoTrace(s: Sql, ledger: seq<Entry>, base: nat, events: seq<Event>,
                                                online: bool, genesis: Genesis) returns (k: nat)
    requires SqlSettled(s, ledger, base) && IsLedger(ledger) && ledger != [] && History(|ledger|, events)
    requires !SqlServeAll(s, events).ok
    ensures k < |events| && SqlServeAll(s, events[..k]).ok
    ensures SameOutside(SqlServeAll(s, events[..k]).state, SqlServeAll(s, events).state)
    ensures var connected := Connected(SqlServeAll(s, events).state.committed, online);
            var kept := LedgerAfter(ledger, events[..k]);
            && (SqlGenesisSucceeds(connected, genesis) <==> online)
            && SqlSettled(SqlGenesisInserted(connected, genesis), kept, |kept|)
  {
    k := ServeStops(SqlUpdateAndCommit, s, events);
    HistoryPrefix(|ledger|, events, k);
    HistoryAt(ledger, events, k);
    SqlRunRefinesLedger(s, ledger, base, events[..k]);
    LedgerGrows(ledger, events[..k]);
    var mid := SqlServeAll(s, events[..k]).state;
    FailedEventInside(mid, events[k]);
    SettledCommitted(mid, SqlServeAll(s, events).state, LedgerAfter(ledger, events[..k]), base, online, genesis);
  }
}

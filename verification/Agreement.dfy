/** Both data sources, run by the service's event loop over the same events. */
module Agreement {
  import opened Wrappers
  import opened QueryData
  import opened Decide
  import opened Service
  import opened LogState
  import opened FsState
  import opened FsLedger
  import opened SqlBounds
  import opened SqlState
  import opened SqlLedger
  import opened Backends
  import opened BackendsTxns
  import F = FileSystem
  import Q = SqlDataSource

  // ---- The loop itself ----

  method ServeFileSystem(ds: F.FileSystemDataSource, events: seq<Event>) returns (ok: bool)
    requires ds.Valid()
    requires forall e :: e in events && e.DecideEvent? ==> Justified(e.chain, e.qc)
    modifies ds, ds.leafStorage, ds.blockStorage
    ensures ds.Valid()
    ensures Outcome(ds.State(), ok) == ServeAll(old(ds.State()), events)
  {
    for i := 0 to |events|
      invariant ds.Valid()
      invariant ServeAll(old(ds.State()), events) == ServeAll(ds.State(), events[i..])
    {
      assert events[i..][0] == events[i] && events[i..][1..] == events[i + 1..];
      ok := ds.Update(events[i]);
      if !ok { return; }
      ok := ds.Commit();
      if !ok { return; }
    }
    ok := true;
  }

  method ServeSql(ds: Q.SqlDataSource, events: seq<Event>) returns (ok: bool)
    requires ds.Valid()
    requires forall e :: e in events && e.DecideEvent? ==> Justified(e.chain, e.qc)
    modifies ds, ds.leafStream, ds.blockStream
    ensures Outcome(ds.State(), ok) == SqlServeAll(old(ds.State()), events)
  {
    for i := 0 to |events|
      invariant SqlServeAll(old(ds.State()), events) == SqlServeAll(ds.State(), events[i..])
    {
      assert events[i..][0] == events[i] && events[i..][1..] == events[i + 1..];
      ok := ds.Update(events[i]);
      if !ok { return; }
      ok := ds.Commit();
      if !ok { return; }
    }
    ok := true;
  }

  // ---- What it leads to ----

  /** Two data sources that show the same ledger, driven by the same history with every update and commit
      successful, both answer from the ledger that history describes. */
  lemma {:induction false} HistoryAgrees(fs: SafeFs, s: Sql, ledger: seq<Entry>, base: nat, events: seq<Event>)
    requires Settled(fs, ledger, base) && SqlSettled(s, ledger, base)
    requires IsLedger(ledger) && History(|ledger|, events)
    requires ServeAll(fs, events).ok && SqlServeAll(s, events).ok
    ensures var after := LedgerAfter(ledger, events);
            && IsLedger(after) && DistinctHashes(after)
            && FsAnswers(ServeAll(fs, events).state, after)
            && TablesShow(SqlServeAll(s, events).state.working, after)
  {
    RunRefinesLedger(fs, ledger, base, events);
    SqlRunRefinesLedger(s, ledger, base, events);
    HistoryIsLedger(ledger, events);
    SettledAnswers(ServeAll(fs, events).state, LedgerAfter(ledger, events), base);
  }

  /** From nothing: create a file-system data source, connect to a new database, and drive both by any history
      that continues the genesis position, with every update and commit successful. Both answer from the
      ledger of that history, in which every leaf after the first is kept with a QC that references it and with
      the payload it was decided with. */
  lemma {:induction false} FromGenesis(fs: SafeFs, s: Sql, genesis: Genesis, events: seq<Event>)
    requires genesis.Valid() && IsCreated(fs, genesis) && IsConnected(s, genesis)
    requires History(1, events) && ServeAll(fs, events).ok && SqlServeAll(s, events).ok
    ensures var after := LedgerAfter([GenesisEntry(genesis)], events);
            && IsLedger(after) && DistinctHashes(after) && Referenced(after, 1) && AllDecided(after, 1)
            && FsAnswers(ServeAll(fs, events).state, after)
            && TablesShow(SqlServeAll(s, events).state.working, after)
  {
    var ledger := [GenesisEntry(genesis)];
    GenesisIsLedger(genesis);
    CreatedShows(fs, genesis, ledger);
    ConnectedShows(s, genesis, ledger);
    HistoryAgrees(fs, s, ledger, 0, events);
    HistoryReferenced(ledger, events, 1);
    HistoryDecided(ledger, events, 1);
  }

  /** Asked for a block by number, both answer with the payload its leaf was decided with. */
  lemma DecidedPayloads(fs: Fs, t: Tables, ledger: seq<Entry>, n: nat)
    requires FsAnswers(fs, ledger) && TablesShow(t, ledger) && IsLedger(ledger) && AllDecided(ledger, 1)
    requires 1 <= n < |ledger| <= TWO_63 && ledger[n].leaf.leaf.payload.Some?
    ensures var p := ledger[n].leaf.leaf.payload.value;
            var block := BlockQueryData(ledger[n].leaf.leaf.header, p, ledger[n].leaf.BlockHash(), p.size);
            BlockById(fs, Number(n)) == SqlBlockById(t, Number(n)) == Found(block)
  {
    assert Decided(ledger[n]) && EntryOk(ledger[n], n);
    BlockViewIs(ledger);
    BlockByNumberAgreesIff(fs, t, ledger, n);
    SqlBlockByNumber(t, ledger, n);
  }

  /** Leaf subscriptions made while both showed `ledger` have delivered the same leaves when both show
      `after`, if and only if the subscription of the database is exact. */
  lemma LeafStreamsAgreeIff(fs: Fs, fsEnd: Fs, s: Sql, sEnd: Sql, ledger: seq<Entry>, after: seq<Entry>,
                            base: nat, height: nat)
    requires Settled(fs, ledger, base) && Settled(fsEnd, after, base)
    requires SqlSettled(s, ledger, base) && SqlSettled(sEnd, after, base)
    requires ledger <= after && height < TWO_64 && |after| <= TWO_63
    ensures Subscribed(fs.leaves, height).Some? && |s.leafSent| <= |sEnd.leafSent|
    ensures var stream := Subscribed(fs.leaves, height).value;
            && stream.since <= |fsEnd.leaves.sent|
            && (AsFound(Delivered(stream, fsEnd.leaves.sent)) == SqlDelivered(SqlSubscribed(s, height), sEnd.leafSent)
                <==> Exact(height, |ledger|, |after|))
  {
    FsLedger.SettledDelivers(fs, ledger, fsEnd, after, base, height);
    SettledDeliversIff(s, ledger, sEnd, after, base, height);
  }

  /** From a ledger both answer from, the queries that agree, ranges up to the reading of their bounds as
      signed numbers. */
  lemma {:induction false} QueriesAgree(fs: Fs, t: Tables, ledger: seq<Entry>, n: nat, hash: Hash,
                                        start: Bound, end: Bound, proposer: Key, limit: nat)
    requires FsAnswers(fs, ledger) && TablesShow(t, ledger) && IsLedger(ledger) && DistinctHashes(ledger)
    requires n < TWO_64 && limit < TWO_63 && Fits(start) && Fits(end) && |ledger| <= TWO_63
    ensures BlockHeight(fs) == BlockCount(t)
    ensures LeafById(fs, Number(n)) == SqlLeafById(t, Number(n))
    ensures LeafById(fs, ByHashId(hash)) == SqlLeafById(t, ByHashId(hash))
    ensures RangeFrom(fs.leaves, FirstOf(start), end) == SqlLeafRange(t, start, end)
            <==> SameRows(start, end, |ledger|)
    ensures CountProposals(fs, proposer) == SqlCountProposals(t, proposer)
    ensures Proposals(fs, proposer, Some(limit)) == Found(SqlLimitedProposals(t, proposer, limit))
  {
    HeightAgrees(fs, t, ledger);
    LeafByNumberAgrees(fs, t, ledger, n);
    LeafByHashAgrees(fs, t, ledger, hash);
    LeafRangeAgreesIff(fs, t, ledger, start, end);
    CountAgrees(fs, t, ledger, proposer);
    LimitedProposalsAgree(fs, t, ledger, proposer, limit);
  }
}

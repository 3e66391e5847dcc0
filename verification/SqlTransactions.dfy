/** Runs of the SQL data source: what the tables and the streams hold in every reachable state. */
module SqlTransactions {
  import opened Wrappers
  import opened QueryData
  import opened Decide
  import opened SqlState

  datatype Step = Do(op: Op) | CommitTx | RevertTx | OnlineBecomes(online: bool)

  /** A data source with the insertions it has accepted: those since the last commit or revert, and
      those that commits have covered. */
  datatype Traced = Traced(sql: Sql, since: seq<Op>, flushed: seq<Op>)

  function Next(t: Traced, step: Step): Traced {
    match step
    case Do(op) => Traced(SqlApply(t.sql, op), if SqlSucceeds(t.sql, op) then t.since + [op] else t.since, t.flushed)
    case CommitTx =>
      if SqlCommitSucceeds(t.sql) then Traced(SqlCommitted(t.sql), [], t.flushed + t.since)
      else t.(sql := SqlCommitted(t.sql))
    case RevertTx => Traced(SqlReverted(t.sql), [], t.flushed)
    case OnlineBecomes(online) => t.(sql := t.sql.(online := online))
  }

  function Run(t: Traced, steps: seq<Step>): Traced
    decreases |steps|
  {
    if steps == [] then t else Run(Next(t, steps[0]), steps[1..])
  }

  /** The caller reverts, rather than commits, after a failed statement. */
  predicate Legal(t: Traced, step: Step) { step.CommitTx? ==> !t.sql.failed }

  predicate LegalRun(t: Traced, steps: seq<Step>)
    decreases |steps|
  {
    steps != [] ==> Legal(t, steps[0]) && LegalRun(Next(t, steps[0]), steps[1..])
  }

  /** With no open transaction, the connection sees what is committed and both buffers are empty.
      Always, what the connection sees is what is committed plus the insertions since, the buffers list
      exactly those insertions in order, what is committed is exactly the insertions commits have
      covered, and exactly those have been delivered, in order. */
  ghost predicate TxInv(t: Traced, initial: Tables) {
    && (!t.sql.txInProgress ==>
          t.since == [] && !t.sql.failed && t.sql.working == t.sql.committed
          && t.sql.leafPending == [] && t.sql.blockPending == [])
    && Execute(t.sql.committed, t.since) == Some(t.sql.working)
    && t.sql.leafPending == LeavesOf(t.since)
    && t.sql.blockPending == BlocksOf(t.since)
    && Execute(initial, t.flushed) == Some(t.sql.committed)
    && t.sql.leafSent == LeavesOf(t.flushed)
    && t.sql.blockSent == BlocksOf(t.flushed)
  }

  lemma {:induction false} ExecuteConcat(t: Tables, a: seq<Op>, b: seq<Op>)
    requires Execute(t, a).Some?
    ensures Execute(t, a + b) == Execute(Execute(t, a).value, b)
    decreases |b|
  {
    if b == [] {
      assert a + b == a;
    } else {
      ExecuteConcat(t, a, b[..|b| - 1]);
      assert (a + b)[..|a + b| - 1] == a + b[..|b| - 1];
    }
  }

  lemma {:induction false} OpsConcat(a: seq<Op>, b: seq<Op>)
    ensures LeavesOf(a + b) == LeavesOf(a) + LeavesOf(b)
    ensures BlocksOf(a + b) == BlocksOf(a) + BlocksOf(b)
    decreases |b|
  {
    if b == [] {
      assert a + b == a;
    } else {
      OpsConcat(a, b[..|b| - 1]);
      assert (a + b)[..|a + b| - 1] == a + b[..|b| - 1];
    }
  }

  lemma {:induction false} OpsSnoc(t: Tables, ops: seq<Op>, op: Op)
    requires Execute(t, ops).Some?
    ensures Execute(t, ops + [op]) == Statements(Execute(t, ops).value, op)
    ensures LeavesOf(ops + [op]) == LeavesOf(ops) + if op.InsertLeaf? then [op.leaf] else []
    ensures BlocksOf(ops + [op]) == BlocksOf(ops) + if op.InsertBlock? then [op.block] else []
  {
    assert (ops + [op])[..|ops|] == ops;
  }

  lemma DoKeepsTx(t: Traced, op: Op, initial: Tables)
    requires TxInv(t, initial)
    ensures TxInv(Next(t, Do(op)), initial)
  {
    OpsSnoc(t.sql.committed, t.since, op);
  }

  lemma CommitKeepsTx(t: Traced, initial: Tables)
    requires TxInv(t, initial) && !t.sql.failed
    ensures TxInv(Next(t, CommitTx), initial)
  {
    ExecuteConcat(initial, t.flushed, t.since);
    OpsConcat(t.flushed, t.since);
  }

  lemma StepKeepsTx(t: Traced, step: Step, initial: Tables)
    requires TxInv(t, initial) && Legal(t, step)
    ensures TxInv(Next(t, step), initial)
  {
    match step
    case Do(op) => DoKeepsTx(t, op, initial);
    case CommitTx => CommitKeepsTx(t, initial);
    case RevertTx =>
    case OnlineBecomes(online) =>
  }

  /** In every legal run the invariant holds, so a reverted insertion is never delivered and a delivered
      one is always committed. */
  lemma {:induction false} RunKeepsTx(t: Traced, steps: seq<Step>, initial: Tables)
    requires TxInv(t, initial) && LegalRun(t, steps)
    ensures TxInv(Run(t, steps), initial)
    decreases |steps|
  {
    if steps != [] {
      StepKeepsTx(t, steps[0], initial);
      RunKeepsTx(Next(t, steps[0]), steps[1..], initial);
    }
  }

  lemma ConnectedTx(tables: Tables, online: bool)
    ensures TxInv(Traced(Connected(tables, online), [], []), tables)
  {
  }

  /** Every session starts from a connection with nothing outstanding, so in every legal run of it what has
      been delivered is what has been committed since, in order. */
  lemma {:induction false} SessionKeepsTx(tables: Tables, online: bool, steps: seq<Step>)
    requires LegalRun(Traced(Connected(tables, online), [], []), steps)
    ensures TxInv(Run(Traced(Connected(tables, online), [], []), steps), tables)
  {
    ConnectedTx(tables, online);
    RunKeepsTx(Traced(Connected(tables, online), [], []), steps, tables);
  }

  // ---- Erasing outstanding modifications ----

  /** No commit of the run is answered: each is tried while the database is away. */
  predicate NoneCommits(t: Traced, steps: seq<Step>)
    decreases |steps|
  {
    steps != [] ==>
      && (steps[0].CommitTx? ==> t.sql.txInProgress && !t.sql.online)
      && NoneCommits(Next(t, steps[0]), steps[1..])
  }

  /** `u` has outstanding modifications on top of `t` and has neither committed nor delivered any of them. */
  ghost predicate Outstanding(t: Traced, u: Traced) {
    && u.sql.committed == t.sql.committed && u.flushed == t.flushed
    && u.sql.leafSent == t.sql.leafSent && u.sql.blockSent == t.sql.blockSent
    && (!u.sql.txInProgress ==> !u.sql.failed && u.sql.working == u.sql.committed)
  }

  lemma {:induction false} RunOutstanding(t: Traced, u: Traced, steps: seq<Step>)
    requires Outstanding(t, u) && NoneCommits(u, steps)
    ensures Outstanding(t, Run(u, steps))
    decreases |steps|
  {
    if steps != [] { RunOutstanding(t, Next(u, steps[0]), steps[1..]); }
  }

  /** Reverting erases everything outstanding: from any state with no open transaction, after any insertions,
      failed ones included, and any commits the database did not answer, a revert gives back that very state,
      with nothing of it delivered. */
  lemma {:induction false} RevertUndoes(t: Traced, initial: Tables, steps: seq<Step>)
    requires TxInv(t, initial) && !t.sql.txInProgress && NoneCommits(t, steps)
    ensures var end := Run(t, steps);
            Next(end, RevertTx) == t.(sql := t.sql.(online := end.sql.online))
  {
    RunOutstanding(t, t, steps);
  }

  // ---- Failed statements ----

  predicate OnlyInsertions(steps: seq<Step>) {
    forall i :: 0 <= i < |steps| ==> steps[i].Do? || steps[i].OnlineBecomes?
  }

  lemma {:induction false} RunSpoiled(t: Traced, steps: seq<Step>)
    requires t.sql.failed && t.sql.txInProgress && OnlyInsertions(steps)
    ensures var end := Run(t, steps);
            && end.sql.failed && end.sql.txInProgress && end.since == t.since && end.flushed == t.flushed
            && end.sql.committed == t.sql.committed
    decreases |steps|
  {
    if steps != [] { RunSpoiled(Next(t, steps[0]), steps[1..]); }
  }

  /** One failed statement spoils its transaction: whatever insertions follow are refused, and a commit keeps
      nothing of the transaction, not even what had been accepted before. */
  lemma {:induction false} FailureSpoils(t: Traced, op: Op, steps: seq<Step>)
    requires t.sql.online && Statements(t.sql.working, op).None? && OnlyInsertions(steps)
    ensures var end := Run(Next(t, Do(op)), steps);
            && end.since == t.since && end.flushed == t.flushed
            && SqlCommitted(end.sql).committed == t.sql.committed
  {
    RunSpoiled(Next(t, Do(op)), steps);
  }

  function LeafAt(t: Tables, height: nat): Option<LeafQueryData> {
    if height in t.leaf then Some(t.leaf[height]) else None
  }

  lemma {:induction false} ExecuteKeepsLeaves(t: Tables, ops: seq<Op>)
    requires Execute(t, ops).Some?
    ensures forall h :: h in t.leaf ==> h in Execute(t, ops).value.leaf && Execute(t, ops).value.leaf[h] == t.leaf[h]
    ensures forall l :: l in LeavesOf(ops) ==>
              l.Height() !in t.leaf && LeafAt(Execute(t, ops).value, l.Height()) == Some(l)
    decreases |ops|
  {
    if ops != [] {
      var front := ops[..|ops| - 1];
      ExecuteKeepsLeaves(t, front);
      var op := ops[|ops| - 1];
      var u := Execute(t, front).value;
      forall l | l in LeavesOf(ops)
        ensures l.Height() !in t.leaf && LeafAt(Execute(t, ops).value, l.Height()) == Some(l)
      {
        assert l in LeavesOf(front) || (op.InsertLeaf? && l == op.leaf);
      }
    }
  }

  /** Why a failed statement must be followed by a revert: a commit delivers every buffered leaf, and a
      delivered leaf is in the committed table if and only if no statement had failed. */
  lemma CommitDeliversIff(t: Traced, initial: Tables, l: LeafQueryData)
    requires TxInv(t, initial) && SqlCommitSucceeds(t.sql) && l in t.sql.leafPending
    ensures var r := Next(t, CommitTx).sql;
            && l in r.leafSent
            && (LeafAt(r.committed, l.Height()) == Some(l) <==> !t.sql.failed)
  {
    ExecuteKeepsLeaves(t.sql.committed, t.since);
  }
}

/** The event loop of the standalone service, for any data source: take the lock, update with the next
    event, commit, release the lock; end at the first error. */
module Service {
  import opened Wrappers
  import opened QueryData
  import opened Decide

  /** A state, and whether everything up to it succeeded. */
  datatype Outcome<+S> = Outcome(state: S, ok: bool)

  function Serve<S>(step: (S, Event) -> Outcome<S>, s: S, events: seq<Event>): Outcome<S>
    decreases |events|
  {
    if events == [] then Outcome(s, true)
    else
      var r := step(s, events[0]);
      if r.ok then Serve(step, r.state, events[1..]) else r
  }

  /** A loop that fails does so at some event, having succeeded up to it, and does nothing after it. */
  lemma {:induction false} ServeStops<S>(step: (S, Event) -> Outcome<S>, s: S, events: seq<Event>) returns (k: nat)
    requires !Serve(step, s, events).ok
    ensures k < |events| && Serve(step, s, events[..k]).ok
    ensures Serve(step, s, events) == step(Serve(step, s, events[..k]).state, events[k])
    decreases |events|
  {
    var r := step(s, events[0]);
    if r.ok {
      var j := ServeStops(step, r.state, events[1..]);
      k := j + 1;
      assert events[..k][1..] == events[1..][..j] && events[1..][j] == events[k];
    } else {
      k := 0;
      assert events[..0] == [];
    }
  }

  /** Every event extends the chain the events before it have built. */
  ghost predicate History(height: nat, events: seq<Event>)
    decreases |events|
  {
    events != [] ==> Extends(height, events[0]) && History(height + |Entries(events[0])|, events[1..])
  }

  /** The ledger after a history. */
  function LedgerAfter(ledger: seq<Entry>, events: seq<Event>): seq<Entry>
    decreases |events|
  {
    if events == [] then ledger else LedgerAfter(ledger + Entries(events[0]), events[1..])
  }

  lemma {:induction false} HistoryCons(height: nat, event: Event, rest: seq<Event>)
    ensures History(height, [event] + rest) <==> Extends(height, event) && History(height + |Entries(event)|, rest)
  {
    assert ([event] + rest)[1..] == rest;
  }

  lemma {:induction false} HistoryPrefix(height: nat, events: seq<Event>, k: nat)
    requires History(height, events) && k <= |events|
    ensures History(height, events[..k])
    decreases |events|
  {
    if k > 0 {
      var first, rest := events[0], events[1..];
      HistoryPrefix(height + |Entries(first)|, rest, k - 1);
      HistoryCons(height, first, rest[..k - 1]);
      assert events[..k] == [first] + rest[..k - 1];
    }
  }

  lemma {:induction false} LedgerCons(ledger: seq<Entry>, event: Event, rest: seq<Event>)
    ensures LedgerAfter(ledger, [event] + rest) == LedgerAfter(ledger + Entries(event), rest)
  {
    assert ([event] + rest)[1..] == rest;
  }

  /** The events before one extend the ledger to where that one extends it. */
  lemma {:induction false} HistoryAt(ledger: seq<Entry>, events: seq<Event>, k: nat)
    requires IsLedger(ledger) && History(|ledger|, events) && k < |events|
    ensures IsLedger(LedgerAfter(ledger, events[..k]))
    ensures Extends(|LedgerAfter(ledger, events[..k])|, events[k])
    decreases |events|
  {
    if k > 0 {
      var first, rest := events[0], events[1..];
      EntriesExtend(ledger, first);
      HistoryAt(ledger + Entries(first), rest, k - 1);
      LedgerCons(ledger, first, rest[..k - 1]);
      assert events[..k] == [first] + rest[..k - 1];
    }
  }

  lemma {:induction false} HistoryIsLedger(ledger: seq<Entry>, events: seq<Event>)
    requires IsLedger(ledger) && History(|ledger|, events)
    ensures IsLedger(LedgerAfter(ledger, events))
    decreases |events|
  {
    if events != [] {
      EntriesExtend(ledger, events[0]);
      HistoryIsLedger(ledger + Entries(events[0]), events[1..]);
    }
  }

  lemma {:induction false} LedgerGrows(ledger: seq<Entry>, events: seq<Event>)
    ensures ledger <= LedgerAfter(ledger, events)
    decreases |events|
  {
    if events != [] { LedgerGrows(ledger + Entries(events[0]), events[1..]); }
  }

  /** From position `from` on, every leaf is stored with a QC that references it. */
  ghost predicate Referenced(ledger: seq<Entry>, from: nat) {
    forall i :: from <= i < |ledger| ==> ledger[i].leaf.qc.leafCommit == ledger[i].leaf.Hash()
  }

  lemma StepReferenced(ledger: seq<Entry>, event: Event, from: nat)
    requires Referenced(ledger, from) && (event.DecideEvent? ==> Justified(event.chain, event.qc))
    ensures Referenced(ledger + Entries(event), from)
  {
    EntriesReferenced(event);
  }

  lemma {:induction false} HistoryReferenced(ledger: seq<Entry>, events: seq<Event>, from: nat)
    requires History(|ledger|, events) && Referenced(ledger, from)
    ensures Referenced(LedgerAfter(ledger, events), from)
    decreases |events|
  {
    if events != [] {
      StepReferenced(ledger, events[0], from);
      HistoryReferenced(ledger + Entries(events[0]), events[1..], from);
    }
  }

  /** From position `from` on, every payload decided with a leaf is in the ledger as its block, and no other
      block is. */
  ghost predicate AllDecided(ledger: seq<Entry>, from: nat) {
    forall i :: from <= i < |ledger| ==> Decided(ledger[i])
  }

  lemma {:induction false} HistoryDecided(ledger: seq<Entry>, events: seq<Event>, from: nat)
    requires AllDecided(ledger, from)
    ensures AllDecided(LedgerAfter(ledger, events), from)
    decreases |events|
  {
    if events != [] {
      EntriesDecided(events[0]);
      HistoryDecided(ledger + Entries(events[0]), events[1..], from);
    }
  }

  /** One successful step takes a state that shows a ledger to one that shows the ledger extended. */
  ghost predicate StepShows<S(!new)>(step: (S, Event) -> Outcome<S>, shows: (S, seq<Entry>) -> bool) {
    forall t, l, e {:trigger shows(t, l), step(t, e)} ::
      shows(t, l) && Extends(|l|, e) && step(t, e).ok ==> shows(step(t, e).state, l + Entries(e))
  }

  /** What one successful step does for a ledger, the loop does for a whole history. */
  lemma {:induction false} ServeShows<S(!new)>(step: (S, Event) -> Outcome<S>, shows: (S, seq<Entry>) -> bool,
                                        s: S, ledger: seq<Entry>, events: seq<Event>)
    requires StepShows(step, shows)
    requires shows(s, ledger) && History(|ledger|, events) && Serve(step, s, events).ok
    ensures shows(Serve(step, s, events).state, LedgerAfter(ledger, events))
    decreases |events|
  {
    if events != [] {
      ServeShows(step, shows, step(s, events[0]).state, ledger + Entries(events[0]), events[1..]);
    }
  }
}

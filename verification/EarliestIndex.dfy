/** An index from hashes to positions that keeps the earliest position of each hash. */
module EarliestIndex {

  /** A position in the ledger comes before another. */
  ghost predicate StrictOrder<P(!new)>(less: (P, P) -> bool) {
    && (forall p :: !less(p, p))
    && (forall p, q :: less(p, q) || less(q, p) || p == q)
    && (forall p, q, r :: less(p, q) && less(q, r) ==> less(p, r))
  }

  predicate HeightLess(a: nat, b: nat) { a < b }

  /** Positions of transactions: by height, then by index in the block. */
  predicate TxnLess(a: (nat, nat), b: (nat, nat)) { a.0 < b.0 || (a.0 == b.0 && a.1 < b.1) }

  /** Map `hash` to `pos`, unless it is already mapped to a position that is not later. */
  function UpdateByHash<H(==), P>(index: map<H, P>, hash: H, pos: P, less: (P, P) -> bool): map<H, P> {
    if hash in index then
      if less(pos, index[hash]) then index[hash := pos] else index
    else index[hash := pos]
  }

  function UpdateAll<H(==), P>(index: map<H, P>, entries: seq<(H, P)>, less: (P, P) -> bool): map<H, P> {
    if entries == [] then index
    else
      var last := entries[|entries| - 1];
      UpdateByHash(UpdateAll(index, entries[..|entries| - 1], less), last.0, last.1, less)
  }

  /** The index holds exactly the hashes of `entries`, each at the least of its positions. */
  ghost predicate IsEarliest<H, P>(index: map<H, P>, entries: seq<(H, P)>, less: (P, P) -> bool) {
    && (forall h :: h in index ==> (h, index[h]) in entries)
    && (forall e :: e in entries ==> e.0 in index && !less(e.1, index[e.0]))
  }

  lemma UpdateKeepsEarliest<H, P(!new)>(index: map<H, P>, entries: seq<(H, P)>, hash: H, pos: P, less: (P, P) -> bool)
    requires StrictOrder(less) && IsEarliest(index, entries, less)
    ensures IsEarliest(UpdateByHash(index, hash, pos, less), entries + [(hash, pos)], less)
  {
    var all := entries + [(hash, pos)];
    var updated := UpdateByHash(index, hash, pos, less);
    assert all[|entries|] == (hash, pos);
    forall e | e in all ensures e.0 in updated && !less(e.1, updated[e.0]) {
      assert e in entries || e == (hash, pos);
    }
    forall h | h in updated ensures (h, updated[h]) in all {
      if h in index && updated[h] == index[h] { assert (h, index[h]) in entries; }
    }
  }

  lemma {:induction false} UpdateAllIsEarliest<H, P(!new)>(entries: seq<(H, P)>, less: (P, P) -> bool)
    requires StrictOrder(less)
    ensures IsEarliest(UpdateAll(map[], entries, less), entries, less)
  {
    if entries != [] {
      var front := entries[..|entries| - 1];
      var last := entries[|entries| - 1];
      UpdateAllIsEarliest(front, less);
      UpdateKeepsEarliest(UpdateAll(map[], front, less), front, last.0, last.1, less);
      assert entries == front + [(last.0, last.1)];
    }
  }

  /** What was inserted determines the index, in whatever order and however often. */
  lemma EarliestIsUnique<H, P(!new)>(a: map<H, P>, aEntries: seq<(H, P)>, b: map<H, P>, bEntries: seq<(H, P)>,
                                     less: (P, P) -> bool)
    requires StrictOrder(less)
    requires forall e :: e in aEntries <==> e in bEntries
    requires IsEarliest(a, aEntries, less) && IsEarliest(b, bEntries, less)
    ensures a == b
  {
    forall h | h in a ensures h in b && b[h] == a[h] { assert (h, a[h]) in bEntries; assert (h, b[h]) in aEntries; }
    forall h | h in b ensures h in a { assert (h, b[h]) in aEntries; }
  }

  lemma {:induction false} UpdateAllConcat<H, P>(index: map<H, P>, a: seq<(H, P)>, b: seq<(H, P)>, less: (P, P) -> bool)
    ensures UpdateAll(index, a + b, less) == UpdateAll(UpdateAll(index, a, less), b, less)
    decreases |b|
  {
    if b == [] {
      assert a + b == a;
    } else {
      UpdateAllConcat(index, a, b[..|b| - 1], less);
      assert (a + b)[..|a + b| - 1] == a + b[..|b| - 1];
    }
  }

  lemma LedgerOrders()
    ensures StrictOrder(HeightLess) && StrictOrder(TxnLess)
  {
  }
}

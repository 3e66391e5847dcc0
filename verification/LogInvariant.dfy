/** What every operation of the log keeps, and exactly when the operations that can lose something
    lose it. */
module LogInvariant {
  import opened Wrappers
  import opened LogState

  // ---- Appending ----

  function Last<A>(s: seq<A>, n: nat): seq<A> { s[SaturatingSub(|s|, n)..] }

  /** One append keeps the cache aligned with the log if and only if the cache can hold anything at
      all: with a cache size of zero the window start moves past entries that are still cached. */
  lemma StoreOneAlignedIff<T>(s: Log<T>, entry: Option<T>)
    requires s.disk.writes > 0 && Aligned(s) && |s.cache| <= s.cacheSize
    ensures Aligned(StoreOne(s, entry)) <==> s.cacheSize >= 1
  {
  }

  lemma StoreOneStores<T>(s: Log<T>, entry: Option<T>)
    requires s.disk.writes > 0 && Aligned(s) && 1 <= s.cacheSize && |s.cache| <= s.cacheSize
    ensures Stored(StoreOne(s, entry)) == Stored(s) + [entry]
    ensures StoreOne(s, entry).cache == Last(s.cache + [entry], s.cacheSize)
  {
  }

  lemma StoreOneInv<T>(s: Log<T>, entry: Option<T>)
    requires Inv(s) && s.disk.writes > 0
    ensures Inv(StoreOne(s, entry))
  {
    var t := StoreOne(s, entry);
    StoreOneStores(s, entry);
    forall i | t.cacheStart <= i < Length(t)
      ensures t.cache[i - t.cacheStart] == Stored(t)[i] || Stored(t)[i].None?
    {
      if i < Length(s) {
        assert t.cache[i - t.cacheStart] == s.cache[i - s.cacheStart];
        assert Stored(t)[i] == Stored(s)[i];
      }
    }
  }

  lemma {:induction false} StoreAllFrame<T>(s: Log<T>, entries: seq<Option<T>>)
    ensures var t := StoreAll(s, entries);
            && t.pending == s.pending + Written(s, entries)
            && t.pendingInserts == s.pendingInserts + |Written(s, entries)|
            && t.disk == s.disk.(writes := SaturatingSub(s.disk.writes, |entries|))
            && t.committed == s.committed && t.cacheSize == s.cacheSize
            && t.sent == s.sent && t.streamPos == s.streamPos
    decreases |entries|
  {
    if entries != [] && s.disk.writes != 0 {
      var u := StoreOne(s, entries[0]);
      StoreAllFrame(u, entries[1..]);
      assert Written(s, entries) == [entries[0]] + Written(u, entries[1..]);
    }
  }

  lemma LastOfLast<A>(a: seq<A>, b: seq<A>, n: nat)
    ensures Last(Last(a, n) + b, n) == Last(a + b, n)
  {
  }

  lemma {:induction false} StoreAllInv<T>(s: Log<T>, entries: seq<Option<T>>)
    requires Inv(s)
    ensures Inv(StoreAll(s, entries))
    decreases |entries|
  {
    if entries != [] && s.disk.writes != 0 {
      StoreOneInv(s, entries[0]);
      StoreAllInv(StoreOne(s, entries[0]), entries[1..]);
    }
  }

  lemma {:induction false} StoreAllCache<T>(s: Log<T>, entries: seq<Option<T>>)
    requires 1 <= s.cacheSize && |s.cache| <= s.cacheSize
    ensures StoreAll(s, entries).cache == Last(s.cache + Written(s, entries), s.cacheSize)
    decreases |entries|
  {
    if entries == [] || s.disk.writes == 0 {
      assert s.cache + Written(s, entries) == s.cache;
    } else {
      StoreAllCache(StoreOne(s, entries[0]), entries[1..]);
      LastStep(s, entries);
    }
  }

  lemma LastStep<T>(s: Log<T>, entries: seq<Option<T>>)
    requires 1 <= s.cacheSize && |s.cache| <= s.cacheSize
    requires entries != [] && s.disk.writes > 0
    ensures var u := StoreOne(s, entries[0]);
            && |u.cache| <= u.cacheSize == s.cacheSize
            && Last(u.cache + Written(u, entries[1..]), u.cacheSize) == Last(s.cache + Written(s, entries), s.cacheSize)
  {
    var u := StoreOne(s, entries[0]);
    var rest := Written(u, entries[1..]);
    assert u.cache == Last(s.cache + [entries[0]], s.cacheSize);
    calc {
      Last(u.cache + rest, s.cacheSize);
      { LastOfLast(s.cache + [entries[0]], rest, s.cacheSize); }
      Last((s.cache + [entries[0]]) + rest, s.cacheSize);
      { assert Written(s, entries) == [entries[0]] + rest;
        assert (s.cache + [entries[0]]) + rest == s.cache + Written(s, entries); }
      Last(s.cache + Written(s, entries), s.cacheSize);
    }
  }

  /** Appending moves a window over the log: the store grows by the entries that could be written, and
      the cache holds the last `cacheSize` entries of what it held followed by those. */
  lemma {:induction false} StoreAllWindow<T>(s: Log<T>, entries: seq<Option<T>>)
    requires Inv(s)
    ensures Inv(StoreAll(s, entries))
    ensures Stored(StoreAll(s, entries)) == Stored(s) + Written(s, entries)
    ensures StoreAll(s, entries).cache == Last(s.cache + Written(s, entries), s.cacheSize)
    ensures StoreAll(s, entries).cacheStart == s.cacheStart + SaturatingSub(|s.cache + Written(s, entries)|, s.cacheSize)
  {
    StoreAllInv(s, entries);
    StoreAllCache(s, entries);
    StoreAllFrame(s, entries);
    assert Stored(StoreAll(s, entries)) == Stored(s) + Written(s, entries);
  }

  // ---- Inserting ----

  lemma {:induction false} StoreAllSafe<T>(s: Log<T>, entries: seq<Option<T>>)
    requires Safe(s)
    ensures Safe(StoreAll(s, entries))
    decreases |entries|
  {
    if entries != [] && s.disk.writes != 0 {
      StoreAllSafe(StoreOne(s, entries[0]), entries[1..]);
    }
  }

  lemma InsertedSafe<T>(s: Log<T>, index: nat, item: T)
    requires Safe(s)
    ensures Safe(Inserted(s, index, item))
  {
    if index >= Length(s) { StoreAllSafe(s, Appended(s, index, item)); }
  }

  lemma InsertedInv<T>(s: Log<T>, index: nat, item: T)
    requires Inv(s)
    requires s.cacheStart <= index < Length(s) ==>
               Stored(s)[index].None? || Stored(s)[index] == Some(item)
    ensures Inv(Inserted(s, index, item))
  {
    if index >= Length(s) {
      StoreAllInv(s, Appended(s, index, item));
    } else if index >= s.cacheStart {
      var t := Inserted(s, index, item);
      assert Stored(t) == Stored(s);
    }
  }

  // ---- Committing ----

  /** `Available` is the longest run of present objects from `i`. */
  lemma {:induction false} AvailableIsLongestRun<T>(s: Log<T>, i: nat)
    ensures var run := Available(s, i);
            && (forall j :: 0 <= j < |run| ==> At(s, i + j) == Some(Some(run[j])))
            && (At(s, i + |run|).None? || At(s, i + |run|).value.None?)
    decreases s.cacheStart + |s.cache| - i
  {
    match At(s, i)
    case Some(Some(item)) =>
      AvailableIsLongestRun(s, i + 1);
      var run := Available(s, i);
      forall j | 0 <= j < |run| ensures At(s, i + j) == Some(Some(run[j])) {
        if j > 0 { assert At(s, (i + 1) + (j - 1)) == Some(Some(Available(s, i + 1)[j - 1])); }
      }
    case _ =>
  }

  lemma PersistedWindow<T>(s: Log<T>)
    requires WindowInv(s)
    ensures WindowInv(Persisted(s))
    ensures Stored(Persisted(s)) == Stored(s)
  {
    assert Stored(Persisted(s)) == Stored(s);
  }

  /** When nothing is pending, an aligned and consistent log yields exactly one item per position, and
      yields a missing object only where the store has none. */
  lemma AtWhenSettled<T>(s: Log<T>, i: nat)
    requires WindowInv(s) && s.pending == []
    ensures At(s, i).Some? <==> i < |s.committed|
    ensures i < |s.committed| ==> At(s, i).value == Flatten(s.committed[i]) || Flatten(s.committed[i]).None?
  {
    if s.cacheStart <= i < |s.committed| {
      assert Stored(s)[i] == Flatten(s.committed[i]);
    }
  }

  lemma {:induction false} AvailableStopsAtHole<T>(s: Log<T>, i: nat)
    requires WindowInv(s) && s.pending == [] && i <= |s.committed|
    ensures var n := i + |Available(s, i)|;
            && n <= |s.committed|
            && (n < |s.committed| ==> At(s, n) == Some(None) && Flatten(s.committed[n]).None?)
  {
    AvailableIsLongestRun(s, i);
    var run := Available(s, i);
    if run != [] {
      var j := |run| - 1;
      assert At(s, i + j) == Some(Some(run[j]));
      AtWhenSettled(s, i + j);
    }
    AtWhenSettled(s, i + |run|);
  }

  lemma CommittedInv<T>(s: Log<T>)
    requires Inv(s)
    ensures Inv(Committed(s))
  {
    if s.disk.commits > 0 {
      var p := Persisted(s);
      var t := Committed(s);
      PersistedWindow(s);
      AvailableStopsAtHole(p, p.streamPos);
      assert Stored(t) == Stored(p);
      assert WindowInv(t);
    }
  }

  /** After a successful commit nothing is pending, the store is unchanged, the objects sent are the
      longest run from the old stream position, and the stream position is maximal: at the end of the
      log or at a missing object. A failed commit changes nothing. */
  lemma CommittedBroadcast<T>(s: Log<T>)
    requires Inv(s)
    ensures s.disk.commits == 0 ==> Committed(s) == s
    ensures s.disk.commits > 0 ==>
      var t := Committed(s);
      && t.pending == []
      && Stored(t) == Stored(s)
      && s.streamPos <= t.streamPos <= |t.committed| == Length(s)
      && (t.streamPos < |t.committed| ==> At(t, t.streamPos) == Some(None))
      && |t.sent| == |s.sent| + t.streamPos - s.streamPos
      && s.sent <= t.sent
      && (forall i :: s.streamPos <= i < t.streamPos ==>
            At(t, i) == Some(Some(t.sent[|s.sent| + (i - s.streamPos)])))
  {
    if s.disk.commits > 0 {
      var p := Persisted(s);
      var t := Committed(s);
      PersistedWindow(s);
      assert Stored(t) == Stored(p);
      AvailableStopsAtHole(p, p.streamPos);
      AvailableIsLongestRun(p, p.streamPos);
      var run := Available(p, p.streamPos);
      assert At(t, t.streamPos) == At(p, t.streamPos);
      forall i | s.streamPos <= i < t.streamPos
        ensures At(t, i) == Some(Some(t.sent[|s.sent| + (i - s.streamPos)]))
      {
        assert At(p, p.streamPos + (i - p.streamPos)) == Some(Some(run[i - p.streamPos]));
        assert At(t, i) == At(p, i);
        assert t.sent[|s.sent| + (i - s.streamPos)] == run[i - s.streamPos];
      }
    }
  }

  /** A successful commit changes no reading: what was cached reads as before, fills included, and what had
      already left the cache can now be read from the store. */
  lemma CommittedReads<T>(s: Log<T>)
    requires Inv(s) && s.disk.commits > 0
    ensures forall i: nat :: At(Committed(s), i) ==
              if i >= s.cacheStart then At(s, i) else if i < Length(s) then Some(Stored(s)[i]) else None
  {
    var t := Committed(s);
    forall i: nat ensures At(t, i) ==
                          if i >= s.cacheStart then At(s, i) else if i < Length(s) then Some(Stored(s)[i]) else None
    {
      if i < s.cacheStart && i < Length(s) { assert Stored(t)[i] == Stored(s)[i] == Flatten(t.committed[i]); }
    }
  }

  // ---- Reverting ----

  /** Reverting leaves the cache aligned with the log if and only if no more than `cacheSize` entries
      were pending. */
  lemma RevertedAlignedIff<T>(s: Log<T>)
    requires Inv(s)
    ensures Aligned(Reverted(s)) <==> |s.pending| <= s.cacheSize
  {
  }

  /** A revert that drops no more than the cache holds keeps the invariant and the committed store; every
      committed position reads as before, fills included, and nothing is left after them. */
  lemma RevertedInv<T>(s: Log<T>)
    requires Inv(s) && |s.pending| <= s.cacheSize
    ensures forall i: nat :: At(Reverted(s), i) == if i < |s.committed| then At(s, i) else None
    ensures Inv(Reverted(s))
    ensures Stored(Reverted(s)) == Flat(s.committed)
  {
    var t := Reverted(s);
    assert Stored(t) == Flat(s.committed);
    forall i | t.cacheStart <= i < Length(t)
      ensures t.cache[i - t.cacheStart] == Stored(t)[i] || Stored(t)[i].None?
    {
      assert t.cache[i - t.cacheStart] == s.cache[i - s.cacheStart];
      assert Stored(t)[i] == Stored(s)[i];
    }
  }

  // ---- Opening ----

  lemma CreatedInv<T>(cacheSize: nat, disk: Disk)
    requires cacheSize >= 1
    ensures Inv(Created<T>(cacheSize, disk))
  {
  }

  /** A log opened with any cache size reads exactly as its store. */
  lemma OpenedView<T>(store: seq<Load<T>>, cacheSize: nat, disk: Disk)
    ensures View(Opened(store, cacheSize, disk)) == Flat(store)
  {
    var s := Opened(store, cacheSize, disk);
    assert Flat(store[..s.cacheStart]) == Flat(store)[..s.cacheStart];
  }

  lemma OpenedInv<T>(store: seq<Load<T>>, cacheSize: nat, disk: Disk)
    requires cacheSize >= 1
    ensures Inv(Opened(store, cacheSize, disk))
  {
    assert Stored(Opened(store, cacheSize, disk)) == Flat(store);
  }
}

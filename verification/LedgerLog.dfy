/** The caching append log itself: fields updated in place, each method proved against its transition
    in LogState.dfy. */
module LedgerLog {
  import opened Wrappers
  import opened LogState
  import opened LogIter

  class LedgerLog<T> {
    var cacheStart: nat
    var cacheSize: nat
    var cache: seq<Option<T>>
    // The append log.
    var committed: seq<Load<T>>
    var pending: seq<Option<T>>
    var disk: Disk
    var pendingInserts: nat
    // The broadcast channel: everything sent so far.
    var sent: seq<T>
    var streamPos: nat

    ghost function State(): Log<T>
      reads this
    {
      Log(cacheStart, cacheSize, cache, committed, pending, pendingInserts, sent, streamPos, disk)
    }

    constructor Create(cacheSize: nat, disk: Disk)
      ensures State() == Created(cacheSize, disk)
    {
      this.cacheStart, this.cacheSize, this.cache := 0, cacheSize, [];
      this.committed, this.pending, this.disk := [], [], disk;
      this.pendingInserts, this.sent, this.streamPos := 0, [], 0;
    }

    constructor Open(store: seq<Load<T>>, cacheSize: nat, disk: Disk)
      ensures State() == Opened(store, cacheSize, disk)
    {
      var start := if |store| > cacheSize then |store| - cacheSize else 0;
      var loaded := LoadFrom(store, start);
      // The cache has room for what was loaded.
      assert |loaded| <= cacheSize;
      var position := FirstUnavailable(store);
      this.cacheStart, this.cacheSize, this.cache := start, cacheSize, loaded;
      this.committed, this.pending, this.disk := store, [], disk;
      this.pendingInserts, this.sent, this.streamPos := 0, [], position;
    }

    /** The entries of the store from `start` on; one that fails to load is missing. */
    static method LoadFrom(store: seq<Load<T>>, start: nat) returns (entries: seq<Option<T>>)
      requires start <= |store|
      ensures entries == Flat(store)[start..]
    {
      entries := [];
      for i := start to |store|
        invariant entries == Flat(store)[start..i]
      {
        entries := entries + [Flatten(store[i])];
        assert Flat(store)[start..i + 1] == Flat(store)[start..i] + [Flat(store)[i]];
      }
    }

    /** The position of the first entry that is missing or fails to load, or the length of the store. */
    static method FirstUnavailable(store: seq<Load<T>>) returns (position: nat)
      ensures position == FirstHole(Flat(store))
    {
      position := 0;
      while position < |store| && store[position].Loaded? && store[position].entry.Some?
        invariant position <= |store|
        invariant forall i :: 0 <= i < position ==> Flatten(store[i]).Some?
      {
        position := position + 1;
      }
      FirstHoleIs(Flat(store), position);
    }

    method Iter() returns (iter: Iter<T>)
      ensures fresh(iter) && iter.Valid() && iter.index == 0 && iter.Over(State())
    {
      iter := new Iter(cacheStart, cache, committed);
    }

    /** The number of items an iterator over the log says it has. */
    method Len() returns (len: nat)
      ensures len == cacheStart + |cache|
    {
      var iter := Iter();
      len := iter.Len();
    }

    method StoreResource(resource: Option<T>) returns (ok: bool)
      modifies this
      ensures ok == (old(disk).writes > 0)
      ensures ok ==> State() == StoreOne(old(State()), resource)
      ensures !ok ==> State() == old(State())
    {
      if disk.writes == 0 { return false; }
      disk := disk.(writes := disk.writes - 1);
      pending := pending + [resource];
      pendingInserts := pendingInserts + 1;
      if |cache| >= cacheSize {
        if cache != [] { cache := cache[1..]; }
        cacheStart := cacheStart + 1;
      }
      cache := cache + [resource];
      ok := true;
    }

    /** Pad with placeholders up to `index` and append, or patch the cache; stop at the first failed
        write, keeping what was appended before it. */
    method Insert(index: nat, item: T) returns (ok: bool)
      requires Safe(State())
      modifies this
      ensures State() == Inserted(old(State()), index, item)
      ensures ok == InsertSucceeds(old(State()), index)
    {
      ghost var before := State();
      var len := |committed| + pendingInserts;
      var targetLen := if index > len then index else len;
      for i := len to targetLen
        invariant i - len <= before.disk.writes
        invariant State() == StoreAll(before, Placeholders(i - len))
        invariant disk.writes == before.disk.writes - (i - len)
      {
        var stored := StoreResource(None);
        if !stored {
          StoreAllCutShort(before, Placeholders(i - len), Appended(before, index, item));
          return false;
        }
        StoreAllSnoc(before, Placeholders(i - len), None);
        assert Placeholders(i - len) + [None] == Placeholders<T>(i + 1 - len);
      }
      if targetLen == index {
        ok := StoreResource(Some(item));
        if ok {
          StoreAllSnoc(before, Placeholders(index - len), Some(item));
        } else {
          StoreAllCutShort(before, Placeholders(index - len), Appended(before, index, item));
        }
      } else {
        if index >= cacheStart {
          cache := cache[index - cacheStart := Some(item)];
        }
        ok := true;
      }
    }

    /** Make the pending entries permanent and broadcast what can now be sent in order. */
    method CommitVersion() returns (ok: bool)
      modifies this
      ensures ok == (old(disk).commits > 0)
      ensures State() == Committed(old(State()))
    {
      if disk.commits == 0 { return false; }
      committed, pending := committed + AsLoads(pending), [];
      disk := disk.(commits := disk.commits - 1);
      pendingInserts := 0;
      assert State() == Persisted(old(State()));
      Broadcast();
      ok := true;
    }

    /** Send the newly available objects, one after another, until one is missing. */
    method Broadcast()
      modifies this
      ensures var run := Available(old(State()), old(streamPos));
              State() == old(State()).(sent := old(sent) + run, streamPos := old(streamPos) + |run|)
    {
      ghost var p := State();
      var i := streamPos;
      var objects := Iter();
      var item := objects.Nth(i);
      while item.Some? && item.value.Some?
        invariant objects.Valid() && objects.Over(p) && fresh(objects)
        invariant objects.index == i + 1 && item == At(p, i)
        invariant State() == p.(sent := sent)
        invariant sent + Available(p, i) == p.sent + Available(p, p.streamPos)
        invariant i + |Available(p, i)| == p.streamPos + |Available(p, p.streamPos)|
        decreases p.cacheStart + |p.cache| - i
      {
        AvailableStep(p, i, sent);
        sent := sent + [item.value.value];
        i := i + 1;
        item := objects.Next();
      }
      AvailableEnd(p, i, sent);
      streamPos := i;
    }

    method RevertVersion() returns (ok: bool)
      modifies this
      ensures ok == old(disk).reverts
      ensures State() == RevertAttempted(old(State()))
    {
      if !disk.reverts { return false; }
      pending := [];
      for k := 0 to pendingInserts
        invariant State() == old(State()).(pending := [], cache := old(cache)[..SaturatingSub(|old(cache)|, k)])
      {
        if cache != [] { cache := cache[..|cache| - 1]; }
      }
      pendingInserts := 0;
      ok := true;
    }

    /** A stream of the objects from `from` on: those already available, then the broadcast ones. */
    method Subscribe(from: nat) returns (r: Option<Subscription<T>>)
      ensures r == Subscribed(State(), from)
    {
      var objects := Iter();
      var prefix := [];
      var n := SaturatingSub(streamPos, from);
      var i := 0;
      AfterUnits([], Collected(State(), from, n));
      while i < n
        invariant objects.Valid() && objects.Over(State()) && fresh(objects)
        invariant i <= n && objects.index == if i == 0 then 0 else from + i
        invariant Collected(State(), from, n) == After(prefix, Collected(State(), from + i, n - i))
      {
        var item: Option<Option<T>>;
        if i == 0 { item := objects.Nth(from); } else { item := objects.Next(); }
        match item
        case None => break;
        case Some(None) => return None;
        case Some(Some(x)) =>
          AfterSnoc(prefix, x, Collected(State(), from + i + 1, n - i - 1));
          prefix := prefix + [x];
        i := i + 1;
      }
      AfterUnits(prefix, None);
      r := Some(Subscription(prefix, SaturatingSub(from, streamPos), |sent|));
    }
  }

  lemma AvailableStep<T>(s: Log<T>, i: nat, sent: seq<T>)
    requires At(s, i).Some? && At(s, i).value.Some?
    ensures sent + Available(s, i) == sent + [At(s, i).value.value] + Available(s, i + 1)
    ensures |Available(s, i)| == 1 + |Available(s, i + 1)|
  {
    var rest := Available(s, i + 1);
    assert sent + ([At(s, i).value.value] + rest) == sent + [At(s, i).value.value] + rest;
  }

  lemma {:induction false} AvailableEnd<T>(s: Log<T>, i: nat, sent: seq<T>)
    requires At(s, i).None? || At(s, i).value.None?
    ensures sent + Available(s, i) == sent && |Available(s, i)| == 0
  {
    assert sent + [] == sent;
  }

  function After<A>(prefix: seq<A>, rest: Option<seq<A>>): Option<seq<A>> {
    match rest
    case None => None
    case Some(items) => Some(prefix + items)
  }

  lemma AfterUnits<A>(prefix: seq<A>, rest: Option<seq<A>>)
    ensures After([], rest) == rest
    ensures After(prefix, Some([])) == Some(prefix)
  {
    assert prefix + [] == prefix;
    if rest.Some? { assert [] + rest.value == rest.value; }
  }

  lemma AfterSnoc<A>(prefix: seq<A>, x: A, rest: Option<seq<A>>)
    ensures After(prefix, After([x], rest)) == After(prefix + [x], rest)
  {
    if rest.Some? { assert prefix + ([x] + rest.value) == prefix + [x] + rest.value; }
  }

  lemma {:induction false} StoreAllSnoc<T>(s: Log<T>, entries: seq<Option<T>>, entry: Option<T>)
    requires |entries| < s.disk.writes
    ensures StoreAll(s, entries).disk.writes == s.disk.writes - |entries|
    ensures StoreAll(s, entries + [entry]) == StoreOne(StoreAll(s, entries), entry)
    decreases |entries|
  {
    if entries == [] {
      assert StoreAll(s, [entry]) == StoreAll(StoreOne(s, entry), []);
    } else {
      StoreAllSnoc(StoreOne(s, entries[0]), entries[1..], entry);
      assert (entries + [entry])[1..] == entries[1..] + [entry];
    }
  }

  /** A batch of which no more than a prefix fits on the disk leaves the same log as that prefix. */
  lemma {:induction false} StoreAllCutShort<T>(s: Log<T>, entries: seq<Option<T>>, batch: seq<Option<T>>)
    requires entries <= batch && |entries| == s.disk.writes
    ensures StoreAll(s, batch) == StoreAll(s, entries)
    decreases |entries|
  {
    if entries != [] {
      StoreAllCutShort(StoreOne(s, entries[0]), entries[1..], batch[1..]);
    }
  }
}

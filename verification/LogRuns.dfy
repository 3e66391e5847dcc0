/** Whole runs of a ledger log in one session: any order of inserts, commits, reverts and
    subscriptions, with failing writes and with stored entries going bad. Consensus agrees on one
    object per height, so whatever is inserted at height `i` is `agreed(i)`. */
module LogRuns {
  import opened Wrappers
  import opened LogState
  import opened LogInvariant

  datatype Step =
    | Insert(index: nat)
    | Commit
    | Revert
    | Subscribe(from: nat)
    // The environment: the disk fills up or recovers, or a committed entry can no longer be loaded.
    | DiskBecomes(disk: Disk)
    | Corrupt(at: nat)

  datatype Listener<T> = Listener(from: nat, stream: Subscription<T>)

  datatype System<T> = System(log: Log<T>, listeners: seq<Listener<T>>)

  /** One step. Its postcondition is kept whatever the cache size and however many entries a revert
      drops, so no run can make an insert patch the cache outside its bounds. */
  function Next<T>(sys: System<T>, step: Step, agreed: nat -> T): (r: System<T>)
    requires Safe(sys.log)
    ensures Safe(r.log)
  {
    match step
    case Insert(index) =>
      InsertedSafe(sys.log, index, agreed(index));
      sys.(log := Inserted(sys.log, index, agreed(index)))
    case Commit => sys.(log := Committed(sys.log))
    case Revert => sys.(log := RevertAttempted(sys.log))
    case Subscribe(from) =>
      (match Subscribed(sys.log, from)
       case None => sys
       case Some(stream) => sys.(listeners := sys.listeners + [Listener(from, stream)]))
    case DiskBecomes(disk) => sys.(log := sys.log.(disk := disk))
    case Corrupt(at) =>
      if at < |sys.log.committed| then sys.(log := sys.log.(committed := sys.log.committed[at := Failed])) else sys
  }

  function Run<T>(sys: System<T>, steps: seq<Step>, agreed: nat -> T): (r: System<T>)
    requires Safe(sys.log)
    ensures Safe(r.log)
    decreases |steps|
  {
    if steps == [] then sys else Run(Next(sys, steps[0], agreed), steps[1..], agreed)
  }

  /** A caller reverts only while no more than `cacheSize` appends are uncommitted. */
  predicate Legal<T>(sys: System<T>, step: Step) {
    step.Revert? && sys.log.disk.reverts ==> |sys.log.pending| <= sys.log.cacheSize
  }

  predicate LegalRun<T>(sys: System<T>, steps: seq<Step>, agreed: nat -> T)
    requires Safe(sys.log)
    decreases |steps|
  {
    steps != [] ==> Legal(sys, steps[0]) && LegalRun(Next(sys, steps[0], agreed), steps[1..], agreed)
  }

  /** The agreed objects of a range of heights. */
  function Objects<T>(agreed: nat -> T, lo: nat, hi: nat): (r: seq<T>)
    ensures |r| == SaturatingSub(hi, lo)
    ensures forall k :: 0 <= k < |r| ==> r[k] == agreed(lo + k)
  {
    seq(SaturatingSub(hi, lo), k requires k >= 0 => agreed(lo + k))
  }

  ghost predicate Agrees<T>(entries: seq<Option<T>>, lo: nat, agreed: nat -> T) {
    forall i :: 0 <= i < |entries| && entries[i].Some? ==> entries[i] == Some(agreed(lo + i))
  }

  /** The stream was set up when the stream position was `pos`. */
  ghost predicate StreamFrom<T>(l: Listener<T>, pos: nat, agreed: nat -> T) {
    && l.stream.prefix == Objects(agreed, l.from, Max(l.from, pos))
    && l.stream.skip == SaturatingSub(l.from, pos)
  }

  /** What every legal run keeps; `start` is the stream position at which the session began. */
  ghost predicate SessionInv<T>(sys: System<T>, start: nat, agreed: nat -> T) {
    && LogOk(sys.log, start, agreed)
    && forall l :: l in sys.listeners ==>
         l.stream.since <= |sys.log.sent| && StreamFrom(l, start + l.stream.since, agreed)
  }

  ghost predicate LogOk<T>(s: Log<T>, start: nat, agreed: nat -> T) {
    && Inv(s)
    && Agrees(Stored(s), 0, agreed)
    && Agrees(s.cache, s.cacheStart, agreed)
    && start <= s.streamPos
    && s.sent == Objects(agreed, start, s.streamPos)
  }

  // ---- The steps ----

  lemma AgreesConcat<T>(a: seq<Option<T>>, b: seq<Option<T>>, lo: nat, agreed: nat -> T)
    requires Agrees(a, lo, agreed) && Agrees(b, lo + |a|, agreed)
    ensures Agrees(a + b, lo, agreed)
  {
    forall i | 0 <= i < |a + b| && (a + b)[i].Some? ensures (a + b)[i] == Some(agreed(lo + i)) {
      if i >= |a| { assert (a + b)[i] == b[i - |a|]; }
    }
  }

  lemma AgreesLast<T>(a: seq<Option<T>>, n: nat, lo: nat, agreed: nat -> T)
    requires Agrees(a, lo, agreed)
    ensures Agrees(Last(a, n), lo + SaturatingSub(|a|, n), agreed)
  {
    var k := SaturatingSub(|a|, n);
    forall i | 0 <= i < |Last(a, n)| && Last(a, n)[i].Some? ensures Last(a, n)[i] == Some(agreed(lo + k + i)) {
      assert Last(a, n)[i] == a[k + i];
    }
  }

  lemma WrittenAgrees<T>(s: Log<T>, index: nat, agreed: nat -> T)
    requires index >= Length(s)
    ensures Agrees(Written(s, Appended(s, index, agreed(index))), Length(s), agreed)
  {
  }

  lemma AppendStoredAgrees<T>(s: Log<T>, index: nat, agreed: nat -> T)
    requires Inv(s) && index >= Length(s) && Agrees(Stored(s), 0, agreed)
    ensures Agrees(Stored(Inserted(s, index, agreed(index))), 0, agreed)
  {
    var entries := Appended(s, index, agreed(index));
    StoreAllFrame(s, entries);
    WrittenAgrees(s, index, agreed);
    AgreesConcat(Stored(s), Written(s, entries), 0, agreed);
    assert Stored(StoreAll(s, entries)) == Stored(s) + Written(s, entries);
  }

  lemma AppendCacheAgrees<T>(s: Log<T>, index: nat, agreed: nat -> T)
    requires Inv(s) && index >= Length(s) && Agrees(s.cache, s.cacheStart, agreed)
    ensures var t := Inserted(s, index, agreed(index)); Agrees(t.cache, t.cacheStart, agreed)
  {
    var entries := Appended(s, index, agreed(index));
    var written := Written(s, entries);
    StoreAllWindow(s, entries);
    WrittenAgrees(s, index, agreed);
    AgreesConcat(s.cache, written, s.cacheStart, agreed);
    AgreesLast(s.cache + written, s.cacheSize, s.cacheStart, agreed);
  }

  lemma InsertKeeps<T>(s: Log<T>, index: nat, start: nat, agreed: nat -> T)
    requires LogOk(s, start, agreed)
    ensures LogOk(Inserted(s, index, agreed(index)), start, agreed)
  {
    if index >= Length(s) {
      InsertedInv(s, index, agreed(index));
      AppendStoredAgrees(s, index, agreed);
      AppendCacheAgrees(s, index, agreed);
      StoreAllFrame(s, Appended(s, index, agreed(index)));
    } else {
      InsertedInv(s, index, agreed(index));
    }
  }

  lemma AtAgrees<T>(s: Log<T>, i: nat, agreed: nat -> T)
    requires Agrees(Stored(s), 0, agreed) && Agrees(s.cache, s.cacheStart, agreed)
    ensures At(s, i).Some? && At(s, i).value.Some? ==> At(s, i).value.value == agreed(i)
  {
    if i < |s.committed| { assert Stored(s)[i] == Flatten(s.committed[i]); }
  }

  lemma CommitKeeps<T>(s: Log<T>, start: nat, agreed: nat -> T)
    requires LogOk(s, start, agreed)
    ensures LogOk(Committed(s), start, agreed)
    ensures s.streamPos <= Committed(s).streamPos
  {
    var t := Committed(s);
    CommittedInv(s);
    CommittedBroadcast(s);
    if s.disk.commits > 0 {
      var n := |s.sent|;
      forall k | n <= k < |t.sent| ensures t.sent[k] == agreed(start + k) {
        var i := s.streamPos + (k - n);
        assert At(t, i) == Some(Some(t.sent[n + (i - s.streamPos)]));
        AtAgrees(t, i, agreed);
      }
    }
  }

  lemma RevertKeeps<T>(s: Log<T>, start: nat, agreed: nat -> T)
    requires LogOk(s, start, agreed) && |s.pending| <= s.cacheSize
    ensures LogOk(Reverted(s), start, agreed)
  {
    RevertedInv(s);
    assert forall i :: 0 <= i < |s.committed| ==> Flat(s.committed)[i] == Stored(s)[i];
  }

  lemma CorruptKeeps<T>(s: Log<T>, at: nat, start: nat, agreed: nat -> T)
    requires LogOk(s, start, agreed) && at < |s.committed|
    ensures LogOk(s.(committed := s.committed[at := Failed]), start, agreed)
  {
    var t := s.(committed := s.committed[at := Failed]);
    assert Stored(t) == Stored(s)[at := None];
  }

  /** Each position of a range is in the log, and reads as missing or as the agreed object. */
  ghost predicate ReadsAgreed<T>(s: Log<T>, lo: nat, hi: nat, agreed: nat -> T) {
    forall i :: lo <= i < hi ==> At(s, i).Some? && (At(s, i).value.Some? ==> At(s, i).value.value == agreed(i))
  }

  lemma {:induction false} CollectedIsPresent<T>(s: Log<T>, i: nat, n: nat, agreed: nat -> T)
    requires ReadsAgreed(s, i, i + n, agreed)
    ensures Collected(s, i, n).Some? <==> forall j :: i <= j < i + n ==> At(s, j) != Some(None)
    ensures Collected(s, i, n).Some? ==> Collected(s, i, n).value == Objects(agreed, i, i + n)
    decreases n
  {
    if n > 0 {
      CollectedIsPresent(s, i + 1, n - 1, agreed);
    }
  }

  lemma SubscribedWhere<T>(s: Log<T>, from: nat, agreed: nat -> T)
    requires ReadsAgreed(s, from, s.streamPos, agreed)
    ensures Subscribed(s, from).Some? <==> forall j :: from <= j < s.streamPos ==> At(s, j) != Some(None)
    ensures Subscribed(s, from).Some? ==>
      var l := Listener(from, Subscribed(s, from).value);
      l.stream.since == |s.sent| && StreamFrom(l, s.streamPos, agreed)
  {
    if from < s.streamPos {
      CollectedIsPresent(s, from, s.streamPos - from, agreed);
    }
  }

  /** Subscribing succeeds if and only if every object below the stream position can still be read
      (an in-cache fill is lost when it is evicted); the stream it hands out is then set up right. */
  lemma SubscribedIff<T>(s: Log<T>, from: nat, start: nat, agreed: nat -> T)
    requires LogOk(s, start, agreed)
    ensures Subscribed(s, from).Some? <==> forall j :: from <= j < s.streamPos ==> At(s, j) != Some(None)
    ensures Subscribed(s, from).Some? ==>
      var l := Listener(from, Subscribed(s, from).value);
      l.stream.since == |s.sent| && StreamFrom(l, s.streamPos, agreed)
  {
    forall i: nat | from <= i < s.streamPos
      ensures At(s, i).Some? && (At(s, i).value.Some? ==> At(s, i).value.value == agreed(i))
    {
      AtAgrees(s, i, agreed);
    }
    SubscribedWhere(s, from, agreed);
  }

  lemma StepKeeps<T>(sys: System<T>, step: Step, start: nat, agreed: nat -> T)
    requires SessionInv(sys, start, agreed) && Legal(sys, step)
    ensures SessionInv(Next(sys, step, agreed), start, agreed)
    ensures sys.listeners <= Next(sys, step, agreed).listeners
    ensures sys.log.streamPos <= Next(sys, step, agreed).log.streamPos
  {
    var s := sys.log;
    match step
    case Insert(index) =>
      InsertedSafe(s, index, agreed(index));
      InsertKeeps(s, index, start, agreed);
      InsertedFrame(s, index, agreed(index));
    case Commit => CommitKeeps(s, start, agreed);
    case Revert => if s.disk.reverts { RevertKeeps(s, start, agreed); }
    case Subscribe(from) => SubscribedIff(s, from, start, agreed);
    case DiskBecomes(disk) => assert Stored(s.(disk := disk)) == Stored(s);
    case Corrupt(at) => if at < |s.committed| { CorruptKeeps(s, at, start, agreed); }
  }

  lemma InsertedFrame<T>(s: Log<T>, index: nat, item: T)
    requires Safe(s)
    ensures var t := Inserted(s, index, item);
            t.sent == s.sent && t.streamPos == s.streamPos && t.committed == s.committed && t.cacheSize == s.cacheSize
  {
    if index >= Length(s) { StoreAllFrame(s, Appended(s, index, item)); }
  }

  lemma {:induction false} RunKeeps<T>(sys: System<T>, steps: seq<Step>, start: nat, agreed: nat -> T)
    requires SessionInv(sys, start, agreed) && LegalRun(sys, steps, agreed)
    ensures SessionInv(Run(sys, steps, agreed), start, agreed)
    ensures sys.listeners <= Run(sys, steps, agreed).listeners
    ensures sys.log.streamPos <= Run(sys, steps, agreed).log.streamPos
    decreases |steps|
  {
    if steps != [] {
      StepKeeps(sys, steps[0], start, agreed);
      RunKeeps(Next(sys, steps[0], agreed), steps[1..], start, agreed);
    }
  }

  // ---- What a session delivers ----

  lemma PrefixThenRest<T>(agreed: nat -> T, from: nat, pos: nat, now: nat)
    requires pos <= now
    ensures var received := Objects(agreed, pos, now);
            Objects(agreed, from, Max(from, pos)) + received[Min(SaturatingSub(from, pos), |received|)..]
            == Objects(agreed, from, Max(from, now))
  {
    var received := Objects(agreed, pos, now);
    var rest := received[Min(SaturatingSub(from, pos), |received|)..];
    assert rest == Objects(agreed, Max(from, pos), now);
  }

  lemma StreamDelivers<T>(sys: System<T>, l: Listener<T>, start: nat, agreed: nat -> T)
    requires sys.log.sent == Objects(agreed, start, sys.log.streamPos) && start <= sys.log.streamPos && l in sys.listeners
    requires l.stream.since <= |sys.log.sent| && StreamFrom(l, start + l.stream.since, agreed)
    ensures Delivered(l.stream, sys.log.sent) == Objects(agreed, l.from, Max(l.from, sys.log.streamPos))
  {
    var pos := start + l.stream.since;
    assert StreamFrom(l, pos, agreed);
    assert sys.log.sent[l.stream.since..] == Objects(agreed, pos, sys.log.streamPos);
    PrefixThenRest(agreed, l.from, pos, sys.log.streamPos);
  }

  /** A session starts by creating a log or by opening a store written in earlier sessions. */
  ghost predicate Begins<T>(s: Log<T>, agreed: nat -> T) {
    && s.cacheSize >= 1
    && s == Opened(s.committed, s.cacheSize, s.disk)
    && Agrees(Flat(s.committed), 0, agreed)
  }

  /** Creating a log is opening an empty store. */
  lemma CreatedBegins<T>(cacheSize: nat, disk: Disk, agreed: nat -> T)
    requires cacheSize >= 1
    ensures Begins(Created<T>(cacheSize, disk), agreed)
  {
    assert Created<T>(cacheSize, disk) == Opened<T>([], cacheSize, disk);
  }

  lemma BeginningOk<T>(s: Log<T>, agreed: nat -> T)
    requires Begins(s, agreed)
    ensures SessionInv(System(s, []), s.streamPos, agreed)
  {
    var store := s.committed;
    OpenedInv(store, s.cacheSize, s.disk);
    assert Stored(s) == Flat(store);
    assert s.sent == Objects(agreed, s.streamPos, s.streamPos);
    forall i | 0 <= i < |s.cache| && s.cache[i].Some? ensures s.cache[i] == Some(agreed(s.cacheStart + i)) {
      assert s.cache[i] == Flat(store)[s.cacheStart + i];
    }
  }

  /** Exactly once, in order: in every legal run of a session, every subscriber has at every moment
      been sent precisely the agreed objects from where it subscribed up to the stream position,
      whether that was below or above the stream position when it subscribed. */
  lemma {:induction false} ExactlyOnceInOrder<T>(s: Log<T>, steps: seq<Step>, agreed: nat -> T)
    requires Begins(s, agreed)
    requires Safe(s) && LegalRun(System(s, []), steps, agreed)
    ensures var sys := Run(System(s, []), steps, agreed);
            forall l :: l in sys.listeners ==>
              && l.stream.since <= |sys.log.sent|
              && Delivered(l.stream, sys.log.sent) == Objects(agreed, l.from, Max(l.from, sys.log.streamPos))
  {
    BeginningOk(s, agreed);
    RunKeeps(System(s, []), steps, s.streamPos, agreed);
    var sys := Run(System(s, []), steps, agreed);
    forall l | l in sys.listeners
      ensures l.stream.since <= |sys.log.sent|
      ensures Delivered(l.stream, sys.log.sent) == Objects(agreed, l.from, Max(l.from, sys.log.streamPos))
    {
      StreamDelivers(sys, l, s.streamPos, agreed);
    }
  }

  /** The messages of a session are the agreed objects from its first stream position to the current
      one, which never moves back, never passes the committed length, and is maximal after a
      successful commit. */
  lemma {:induction false} BroadcastHistory<T>(s: Log<T>, steps: seq<Step>, agreed: nat -> T)
    requires Begins(s, agreed)
    requires Safe(s) && LegalRun(System(s, []), steps, agreed)
    ensures var t := Run(System(s, []), steps, agreed).log;
            && s.streamPos <= t.streamPos <= |t.committed|
            && t.sent == Objects(agreed, s.streamPos, t.streamPos)
            && (t.disk.commits > 0 ==>
                  var u := Committed(t);
                  t.streamPos <= u.streamPos && (u.streamPos < |u.committed| ==> At(u, u.streamPos) == Some(None)))
  {
    BeginningOk(s, agreed);
    RunKeeps(System(s, []), steps, s.streamPos, agreed);
    CommittedBroadcast(Run(System(s, []), steps, agreed).log);
  }
}

/** Going back to the last commit: reverting in memory, against dropping the process and reopening the
    store. */
module LogRecovery {
  import opened Wrappers
  import opened LogState
  import opened LogInvariant
  import opened LogRuns
  import LogIter

  // ---- A cache that holds what the store holds ----

  /** The cache is exactly the end of the store. */
  ghost predicate Mirrors<T>(log: Log<T>) {
    && log.cacheStart <= |Stored(log)|
    && log.cache == Stored(log)[log.cacheStart..]
  }

  lemma LastIsSuffix<A>(cache: seq<A>, more: seq<A>, stored: seq<A>, start: nat, n: nat)
    requires start <= |stored| && cache == stored[start..]
    ensures var t := Last(cache + more, n);
            |t| <= |stored + more| && t == (stored + more)[|stored + more| - |t|..]
  {
    assert cache + more == (stored + more)[start..];
  }

  lemma AppendMirrors<T>(log: Log<T>, index: nat, item: T)
    requires Inv(log) && Mirrors(log) && index >= Length(log)
    ensures Mirrors(Inserted(log, index, item))
  {
    var entries := Appended(log, index, item);
    var t := StoreAll(log, entries);
    StoreAllWindow(log, entries);
    LastIsSuffix(log.cache, Written(log, entries), Stored(log), log.cacheStart, log.cacheSize);
    assert t.cacheStart == |Stored(t)| - |t.cache|;
  }

  lemma CommitMirrors<T>(log: Log<T>)
    requires Inv(log) && Mirrors(log)
    ensures Mirrors(Committed(log))
  {
    CommittedBroadcast(log);
  }

  lemma RevertMirrors<T>(t: Log<T>)
    requires Safe(t) && Aligned(t) && Mirrors(t) && |t.pending| <= |t.cache|
    ensures Mirrors(Reverted(t))
  {
    var r := Reverted(t);
    assert Stored(r) == Flat(t.committed);
    assert Stored(t)[..|t.committed|] == Flat(t.committed);
    assert r.cache == Stored(t)[t.cacheStart..][..|t.cache| - |t.pending|];
    assert r.cache == Stored(r)[r.cacheStart..];
  }

  // ---- Inserting and reverting ----

  function InsertAll<T>(s: Log<T>, indices: seq<nat>, agreed: nat -> T): (r: Log<T>)
    requires Safe(s)
    ensures Safe(r)
    decreases |indices|
  {
    if indices == [] then s
    else
      InsertedSafe(s, indices[0], agreed(indices[0]));
      InsertAll(Inserted(s, indices[0], agreed(indices[0])), indices[1..], agreed)
  }

  /** `t` still caches a suffix of what `s` cached of the committed log. */
  ghost predicate KeepsWindow<T>(s: Log<T>, t: Log<T>)
    requires Aligned(s) && Aligned(t) && Safe(s) && Safe(t)
  {
    && t.committed == s.committed && t.sent == s.sent && t.streamPos == s.streamPos
    && t.cacheSize == s.cacheSize && s.cacheStart <= t.cacheStart
    && forall i: nat :: t.cacheStart <= i < |s.committed| ==> At(t, i) == At(s, i)
  }

  lemma InsertKeepsWindow<T>(s: Log<T>, index: nat, start: nat, agreed: nat -> T)
    requires LogOk(s, start, agreed) && |s.committed| <= index
    ensures LogOk(Inserted(s, index, agreed(index)), start, agreed)
    ensures KeepsWindow(s, Inserted(s, index, agreed(index)))
  {
    var t := Inserted(s, index, agreed(index));
    InsertKeeps(s, index, start, agreed);
    InsertedFrame(s, index, agreed(index));
    if index >= Length(s) {
      var entries := Appended(s, index, agreed(index));
      StoreAllWindow(s, entries);
      StoreAllFrame(s, entries);
      var grown := s.cache + Written(s, entries);
      assert t.cache == Last(grown, s.cacheSize);
      var dropped := SaturatingSub(|grown|, s.cacheSize);
      assert t.cacheStart == s.cacheStart + dropped;
      forall i: nat | t.cacheStart <= i < |s.committed| ensures At(t, i) == At(s, i) {
        assert t.cache[i - t.cacheStart] == grown[i - s.cacheStart];
      }
    }
  }

  lemma {:induction false} InsertAllKeepsWindow<T>(s: Log<T>, indices: seq<nat>, start: nat, agreed: nat -> T)
    requires LogOk(s, start, agreed)
    requires forall k :: 0 <= k < |indices| ==> |s.committed| <= indices[k]
    ensures LogOk(InsertAll(s, indices, agreed), start, agreed)
    ensures KeepsWindow(s, InsertAll(s, indices, agreed))
    decreases |indices|
  {
    if indices != [] {
      InsertKeepsWindow(s, indices[0], start, agreed);
      InsertAllKeepsWindow(Inserted(s, indices[0], agreed(indices[0])), indices[1..], start, agreed);
    }
  }

  /** The cache holds exactly what the store holds: nothing has been filled in. */
  ghost predicate Faithful<T>(s: Log<T>)
    requires Safe(s) && Aligned(s)
  {
    forall i :: s.cacheStart <= i < |s.committed| ==> s.cache[i - s.cacheStart] == Flatten(s.committed[i])
  }

  /** Any inserts that touch no committed position, appending at most `cacheSize` entries, are undone by
      a revert: same store, same length, same broadcasts, and every position reads as it did at the
      last commit, except that a filled entry pushed out of the cache reads as missing again. */
  lemma {:induction false} RevertRestores<T>(s: Log<T>, indices: seq<nat>, start: nat, agreed: nat -> T)
    requires LogOk(s, start, agreed) && s.pending == []
    requires forall k :: 0 <= k < |indices| ==> |s.committed| <= indices[k]
    requires |InsertAll(s, indices, agreed).pending| <= s.cacheSize
    ensures var r := Reverted(InsertAll(s, indices, agreed));
            && Inv(r) && Stored(r) == Stored(s) && Length(r) == Length(s)
            && r.sent == s.sent && r.streamPos == s.streamPos
            && (forall i: nat ::
                  At(r, i) == if i < r.cacheStart && i < |s.committed| then Some(Stored(s)[i]) else At(s, i))
            && (Faithful(s) ==> View(r) == View(s))
  {
    var t := InsertAll(s, indices, agreed);
    var r := Reverted(t);
    InsertAllKeepsWindow(s, indices, start, agreed);
    RevertedInv(t);
    assert s.pending == [] && Stored(s) == Flat(s.committed);
    forall i: nat
      ensures At(r, i) == if i < r.cacheStart && i < |s.committed| then Some(Stored(s)[i]) else At(s, i)
    {
      if r.cacheStart <= i < |s.committed| {
        assert At(r, i) == At(t, i) == At(s, i);
      }
    }
    if Faithful(s) {
      assert |View(r)| == |View(s)|;
      forall i | 0 <= i < |View(s)| ensures View(r)[i] == View(s)[i] {
        LogIter.AtIsView(r, i);
        LogIter.AtIsView(s, i);
      }
    }
  }

  /** Reopening shows exactly the committed store; a revert shows the same unless the cache holds
      filled entries, in which case the reopened log loses those entries and changes none. */
  lemma ReopenOnlyLoses<T>(s: Log<T>, disk: Disk)
    requires Inv(s) && |s.pending| <= s.cacheSize
    ensures var r := Reverted(s);
            var o := Opened(s.committed, s.cacheSize, disk);
            && Length(o) == Length(r)
            && (forall i: nat :: At(o, i) == if i < |s.committed| then Some(Flatten(s.committed[i])) else None)
            && (forall i: nat :: At(o, i) == At(r, i) || (At(o, i) == Some(None) && At(r, i).Some?))
  {
    var r := Reverted(s);
    var o := Opened(s.committed, s.cacheSize, disk);
    RevertedInv(s);
    forall i: nat ensures At(o, i) == if i < |s.committed| then Some(Flatten(s.committed[i])) else None
    {
      if o.cacheStart <= i < |s.committed| { assert o.cache[i - o.cacheStart] == Flat(s.committed)[i]; }
    }
    forall i: nat ensures At(o, i) == At(r, i) || (At(o, i) == Some(None) && At(r, i).Some?) {
      AtWhenSettled(r, i);
    }
  }

  lemma RevertedView<T>(s: Log<T>)
    requires Safe(s) && Aligned(s) && |s.pending| <= |s.cache|
    ensures var view := View(Reverted(s));
            && |view| == |s.committed|
            && forall i :: 0 <= i < |s.committed| ==>
                 view[i] == if i < s.cacheStart then Flatten(s.committed[i]) else s.cache[i - s.cacheStart]
  {
  }

  lemma RevertedShowsStoreIff<T>(s: Log<T>)
    requires Safe(s) && Aligned(s) && |s.pending| <= |s.cache|
    ensures View(Reverted(s)) == Flat(s.committed) <==> Faithful(s)
  {
    var view := View(Reverted(s));
    RevertedView(s);
    if !Faithful(s) {
      var i :| s.cacheStart <= i < |s.committed| && s.cache[i - s.cacheStart] != Flatten(s.committed[i]);
      assert view[i] != Flat(s.committed)[i];
    }
  }

  /** Reverting and reopening give the same view if and only if no committed entry was filled in the
      cache. */
  lemma RevertEqualsReopenIff<T>(s: Log<T>, disk: Disk)
    requires Safe(s) && Aligned(s) && |s.pending| <= |s.cache|
    ensures View(Reverted(s)) == View(Opened(s.committed, s.cacheSize, disk)) <==> Faithful(s)
  {
    OpenedView(s.committed, s.cacheSize, disk);
    RevertedShowsStoreIff(s);
  }

  /** The reopened log starts streaming at the same position if and only if everything below that
      position can still be loaded, and never ahead of it. */
  lemma ReopenedStreamPos<T>(s: Log<T>, disk: Disk)
    requires Inv(s)
    ensures var o := Opened(s.committed, s.cacheSize, disk);
            && o.streamPos <= s.streamPos
            && (o.streamPos == s.streamPos <==> forall i :: 0 <= i < s.streamPos ==> Flatten(s.committed[i]).Some?)
  {
    var hole := FirstHole(Flat(s.committed));
    assert s.streamPos < |s.committed| ==> Flat(s.committed)[s.streamPos].None?;
    if hole < s.streamPos { assert Flat(s.committed)[hole].None?; }
  }

  // ---- Sessions without fills ----

  /** The step fills nothing in the cache, an insertion landing at or past the end of the log or before the
      cache window, and loses no stored object. */
  predicate NoFill<T>(sys: System<T>, step: Step) {
    match step
    case Insert(index) => index >= Length(sys.log) || index < sys.log.cacheStart
    case Corrupt(at) => at < |sys.log.committed| ==> Flatten(sys.log.committed[at]).None?
    case _ => true
  }

  predicate NoFillRun<T>(sys: System<T>, steps: seq<Step>, agreed: nat -> T)
    requires Safe(sys.log)
    decreases |steps|
  {
    steps != [] ==> NoFill(sys, steps[0]) && NoFillRun(Next(sys, steps[0], agreed), steps[1..], agreed)
  }

  /** The cache mirrors the store, and everything broadcast can be loaded from it. */
  ghost predicate AllStored<T>(s: Log<T>) {
    && Mirrors(s)
    && s.streamPos <= |s.committed|
    && forall i :: 0 <= i < s.streamPos ==> Flatten(s.committed[i]).Some?
  }

  lemma InsertAllStored<T>(s: Log<T>, index: nat, item: T)
    requires Inv(s) && AllStored(s) && (index >= Length(s) || index < s.cacheStart)
    ensures Inv(Inserted(s, index, item)) && AllStored(Inserted(s, index, item))
  {
    if index >= Length(s) {
      InsertedInv(s, index, item);
      AppendMirrors(s, index, item);
      StoreAllFrame(s, Appended(s, index, item));
    }
  }

  lemma CommitAllStored<T>(s: Log<T>)
    requires Inv(s) && AllStored(s)
    ensures AllStored(Committed(s))
  {
    CommitMirrors(s);
    CommittedBroadcast(s);
    if s.disk.commits > 0 {
      var t := Committed(s);
      forall i | 0 <= i < t.streamPos ensures Flatten(t.committed[i]).Some? {
        assert Stored(t)[i] == Flatten(t.committed[i]);
        assert i >= s.streamPos ==> At(t, i) == Some(Some(t.sent[|s.sent| + (i - s.streamPos)]));
      }
    }
  }

  lemma RevertAllStored<T>(s: Log<T>)
    requires Inv(s) && AllStored(s) && |s.pending| <= s.cacheSize
    ensures AllStored(Reverted(s))
  {
    RevertMirrors(s);
  }

  lemma CorruptAllStored<T>(s: Log<T>, at: nat)
    requires AllStored(s) && at < |s.committed| && Flatten(s.committed[at]).None?
    ensures AllStored(s.(committed := s.committed[at := Failed]))
  {
    assert Stored(s.(committed := s.committed[at := Failed])) == Stored(s);
  }

  lemma StepAllStored<T>(sys: System<T>, step: Step, agreed: nat -> T)
    requires Inv(sys.log) && AllStored(sys.log) && Legal(sys, step) && NoFill(sys, step)
    ensures AllStored(Next(sys, step, agreed).log)
  {
    var s := sys.log;
    match step
    case Insert(index) => InsertAllStored(s, index, agreed(index));
    case Commit => CommitAllStored(s);
    case Revert => if s.disk.reverts { RevertAllStored(s); }
    case Subscribe(_) =>
    case DiskBecomes(disk) => assert Stored(s.(disk := disk)) == Stored(s);
    case Corrupt(at) => if at < |s.committed| { CorruptAllStored(s, at); }
  }

  lemma {:induction false} RunAllStored<T>(sys: System<T>, steps: seq<Step>, start: nat, agreed: nat -> T)
    requires SessionInv(sys, start, agreed) && AllStored(sys.log) && Safe(sys.log)
    requires LegalRun(sys, steps, agreed) && NoFillRun(sys, steps, agreed)
    ensures Inv(Run(sys, steps, agreed).log) && AllStored(Run(sys, steps, agreed).log)
    decreases |steps|
  {
    if steps != [] {
      StepKeeps(sys, steps[0], start, agreed);
      StepAllStored(sys, steps[0], agreed);
      RunAllStored(Next(sys, steps[0], agreed), steps[1..], start, agreed);
    }
  }

  lemma BeginningAllStored<T>(s: Log<T>, agreed: nat -> T)
    requires Begins(s, agreed)
    ensures AllStored(s)
  {
    assert Stored(s) == Flat(s.committed);
  }

  lemma MirrorsFaithfully<T>(s: Log<T>)
    requires Safe(s) && Aligned(s) && Mirrors(s)
    ensures Faithful(s)
  {
    forall i | s.cacheStart <= i < |s.committed| ensures s.cache[i - s.cacheStart] == Flatten(s.committed[i]) {
      assert Stored(s)[i] == Flatten(s.committed[i]);
    }
  }

  lemma AllStoredRecovers<T>(s: Log<T>, disk: Disk)
    requires Inv(s) && AllStored(s) && |s.pending| <= s.cacheSize
    ensures var r, o := Reverted(s), Opened(s.committed, s.cacheSize, disk);
            && r.cacheStart <= |r.committed| && Length(r) == Length(o) == |s.committed|
            && View(r) == View(o) == Flat(s.committed)
            && r.streamPos == o.streamPos == s.streamPos
  {
    OpenedView(s.committed, s.cacheSize, disk);
    MirrorsFaithfully(s);
    RevertEqualsReopenIff(s, disk);
    ReopenedStreamPos(s, disk);
  }

  /** Revert equals crash and reopen: after any legal run of a session that fills nothing in the cache and
      loses nothing stored, with no more appends pending than the cache holds, reverting shows exactly what
      the last commit stored, and so does dropping what is pending and reopening: same view, same length,
      same stream position. */
  lemma {:induction false} RevertEqualsReopen<T>(s: Log<T>, steps: seq<Step>, agreed: nat -> T, disk: Disk)
    requires Begins(s, agreed) && Safe(s)
    requires LegalRun(System(s, []), steps, agreed) && NoFillRun(System(s, []), steps, agreed)
    requires var t := Run(System(s, []), steps, agreed).log; |t.pending| <= t.cacheSize
    ensures var t := Run(System(s, []), steps, agreed).log;
            var r, o := Reverted(t), Opened(t.committed, t.cacheSize, disk);
            && r.cacheStart <= |r.committed| && Length(r) == Length(o) == |t.committed|
            && View(r) == View(o) == Flat(t.committed)
            && r.streamPos == o.streamPos == t.streamPos
  {
    BeginningOk(s, agreed);
    BeginningAllStored(s, agreed);
    RunAllStored(System(s, []), steps, s.streamPos, agreed);
    AllStoredRecovers(Run(System(s, []), steps, agreed).log, disk);
  }
}

/** What an inserted object does: where it is read back, and that an object filled in at the stream position
    is sent by the next commit, however much happens in between. */
module LogFills {
  import opened Wrappers
  import opened LogState
  import opened LogInvariant
  import opened LogRuns

  // ---- Reading back ----

  /** An object that lands in the cache is read back there, and every other position reads as before. */
  lemma FillReads<T>(s: Log<T>, index: nat, item: T)
    requires Safe(s) && s.cacheStart <= index < Length(s)
    ensures var t := Inserted(s, index, item);
            && At(t, index) == Some(Some(item))
            && (forall j: nat :: j != index ==> At(t, j) == At(s, j))
            && Stored(t) == Stored(s) && Length(t) == Length(s)
            && InsertSucceeds(s, index)
  {
    var t := Inserted(s, index, item);
    assert Stored(t) == Stored(s);
  }

  /** The cache reads as what it held followed by what was written. */
  lemma {:induction false} AppendCache<T>(s: Log<T>, entries: seq<Option<T>>)
    requires Inv(s)
    ensures var t := StoreAll(s, entries);
            var grown := s.cache + Written(s, entries);
            && s.cacheStart <= t.cacheStart && Length(t) == s.cacheStart + |grown|
            && forall j: nat :: t.cacheStart <= j < Length(t) ==> At(t, j) == Some(grown[j - s.cacheStart])
  {
    StoreAllWindow(s, entries);
    StoreAllFrame(s, entries);
  }

  lemma AppendStored<T>(s: Log<T>, index: nat, item: T)
    requires Inv(s) && index >= Length(s) && InsertSucceeds(s, index)
    ensures Written(s, Appended(s, index, item)) == Appended(s, index, item)
    ensures Stored(Inserted(s, index, item)) == Stored(s) + Placeholders(index - Length(s)) + [Some(item)]
  {
    var entries := Appended(s, index, item);
    StoreAllWindow(s, entries);
    assert Written(s, entries) == entries;
    assert Stored(s) + entries == Stored(s) + Placeholders(index - Length(s)) + [Some(item)];
  }

  /** An object at or past the end is read back if the disk has room for it and the padding before it, the
      padding reads as missing, and what is still cached reads as before. */
  lemma AppendReads<T>(s: Log<T>, index: nat, item: T)
    requires Inv(s) && index >= Length(s)
    ensures InsertSucceeds(s, index) <==> s.disk.writes > index - Length(s)
    ensures InsertSucceeds(s, index) ==>
      var t := Inserted(s, index, item);
      && Length(t) == index + 1 && At(t, index) == Some(Some(item))
      && (forall j: nat :: Length(s) <= j < index && t.cacheStart <= j ==> At(t, j) == Some(None))
      && (forall j: nat :: j < Length(s) && t.cacheStart <= j ==> At(t, j) == At(s, j))
      && Stored(t) == Stored(s) + Placeholders(index - Length(s)) + [Some(item)]
  {
    if InsertSucceeds(s, index) {
      AppendStored(s, index, item);
      AppendCache(s, Appended(s, index, item));
      StoreAllInv(s, Appended(s, index, item));
      StoreAllFrame(s, Appended(s, index, item));
      assert (s.cache + Appended(s, index, item))[index - s.cacheStart] == Some(item);
    }
  }

  /** An object before the cache window is dropped. */
  lemma EarlyInsertDrops<T>(s: Log<T>, index: nat, item: T)
    requires Safe(s) && index < s.cacheStart && index < Length(s)
    ensures Inserted(s, index, item) == s && InsertSucceeds(s, index)
  {
  }

  /** A reopened log can fill in exactly its last `cacheSize` positions: an object inserted at a stored position
      is read back if and only if the position is one of those, or the store has that object already. */
  lemma ReopenedFillsIff<T>(store: seq<Load<T>>, cacheSize: nat, disk: Disk, index: nat, item: T)
    requires index < |store|
    ensures var s := Opened(store, cacheSize, disk);
            Safe(s) &&
            (At(Inserted(s, index, item), index) == Some(Some(item))
             <==> index + cacheSize >= |store| || Flatten(store[index]) == Some(item))
  {
    var s := Opened(store, cacheSize, disk);
    if index >= s.cacheStart {
      FillReads(s, index, item);
    } else {
      EarlyInsertDrops(s, index, item);
    }
  }

  // ---- Filling the hole the stream waits at ----

  lemma {:induction false} StoreAllStart<T>(s: Log<T>, entries: seq<Option<T>>)
    ensures s.cacheStart <= StoreAll(s, entries).cacheStart
    decreases |entries|
  {
    if entries != [] && s.disk.writes != 0 { StoreAllStart(StoreOne(s, entries[0]), entries[1..]); }
  }

  lemma StepStart<T>(sys: System<T>, step: Step, agreed: nat -> T)
    requires Safe(sys.log)
    ensures sys.log.cacheStart <= Next(sys, step, agreed).log.cacheStart
  {
    if step.Insert? && step.index >= Length(sys.log) {
      StoreAllStart(sys.log, Appended(sys.log, step.index, agreed(step.index)));
    }
  }

  /** The cache window never moves back. */
  lemma {:induction false} RunStart<T>(sys: System<T>, steps: seq<Step>, agreed: nat -> T)
    requires Safe(sys.log)
    ensures sys.log.cacheStart <= Run(sys, steps, agreed).log.cacheStart
    decreases |steps|
  {
    if steps != [] {
      StepStart(sys, steps[0], agreed);
      RunStart(Next(sys, steps[0], agreed), steps[1..], agreed);
    }
  }

  /** Position `i` has been broadcast, or is in the committed part of the cache with its object. */
  ghost predicate Filled<T>(s: Log<T>, i: nat, agreed: nat -> T) {
    i < s.streamPos || (s.cacheStart <= i < |s.committed| && At(s, i) == Some(Some(agreed(i))))
  }

  lemma InsertFilled<T>(s: Log<T>, index: nat, i: nat, agreed: nat -> T)
    requires Inv(s) && Filled(s, i, agreed)
    requires Inserted(s, index, agreed(index)).cacheStart <= i
    ensures Filled(Inserted(s, index, agreed(index)), i, agreed)
  {
    InsertedFrame(s, index, agreed(index));
    if index >= Length(s) {
      var entries := Appended(s, index, agreed(index));
      var t := Inserted(s, index, agreed(index));
      StoreAllWindow(s, entries);
      var grown := s.cache + Written(s, entries);
      if s.cacheStart <= i < |s.committed| {
        assert t.cache[i - t.cacheStart] == grown[i - s.cacheStart];
      }
    }
  }

  lemma CommitFilled<T>(s: Log<T>, i: nat, agreed: nat -> T)
    requires Inv(s) && Filled(s, i, agreed)
    ensures Filled(Committed(s), i, agreed)
  {
    CommittedBroadcast(s);
  }

  lemma RevertFilled<T>(s: Log<T>, i: nat, agreed: nat -> T)
    requires Inv(s) && Filled(s, i, agreed) && |s.pending| <= s.cacheSize
    ensures Filled(Reverted(s), i, agreed)
  {
  }

  lemma StepFilled<T>(sys: System<T>, step: Step, i: nat, agreed: nat -> T)
    requires Inv(sys.log) && Legal(sys, step) && Filled(sys.log, i, agreed)
    requires Next(sys, step, agreed).log.cacheStart <= i
    ensures Filled(Next(sys, step, agreed).log, i, agreed)
  {
    match step
    case Insert(index) => InsertFilled(sys.log, index, i, agreed);
    case Commit => CommitFilled(sys.log, i, agreed);
    case Revert => if sys.log.disk.reverts { RevertFilled(sys.log, i, agreed); }
    case Subscribe(_) =>
    case DiskBecomes(_) =>
    case Corrupt(_) =>
  }

  lemma {:induction false} RunFilled<T>(sys: System<T>, steps: seq<Step>, i: nat, start: nat, agreed: nat -> T)
    requires SessionInv(sys, start, agreed) && Safe(sys.log) && LegalRun(sys, steps, agreed)
    requires Filled(sys.log, i, agreed) && Run(sys, steps, agreed).log.cacheStart <= i
    ensures Filled(Run(sys, steps, agreed).log, i, agreed)
    decreases |steps|
  {
    if steps != [] {
      var next := Next(sys, steps[0], agreed);
      RunStart(next, steps[1..], agreed);
      StepFilled(sys, steps[0], i, agreed);
      StepKeeps(sys, steps[0], start, agreed);
      RunFilled(next, steps[1..], i, start, agreed);
    }
  }

  lemma FilledCommits<T>(s: Log<T>, i: nat, start: nat, agreed: nat -> T)
    requires LogOk(s, start, agreed) && Filled(s, i, agreed) && start <= i <= s.streamPos && s.disk.commits > 0
    ensures var t := Committed(s); i < t.streamPos && i - start < |t.sent| && t.sent[i - start] == agreed(i)
  {
    CommitKeeps(s, start, agreed);
    CommittedBroadcast(s);
    var t := Committed(s);
    assert t.streamPos == i ==> At(t, i) == At(s, i);
  }

  /** A late object is not lost: when the stream waits at a hole inside the cache window and the object for it
      arrives, then whatever legal steps follow, failed commits and lost entries included, the next commit that
      succeeds while the position is still in the window has sent it, in its place. */
  lemma {:induction false} FilledIsSent<T>(sys: System<T>, steps: seq<Step>, start: nat, agreed: nat -> T)
    requires SessionInv(sys, start, agreed)
    requires sys.log.cacheStart <= sys.log.streamPos < |sys.log.committed|
    requires var filled := Next(sys, Insert(sys.log.streamPos), agreed);
             var end := Run(filled, steps, agreed);
             LegalRun(filled, steps, agreed) && end.log.cacheStart <= sys.log.streamPos && end.log.disk.commits > 0
    ensures var i := sys.log.streamPos;
            var filled := Next(sys, Insert(i), agreed);
            var done := Next(Run(filled, steps, agreed), Commit, agreed);
            i < done.log.streamPos && i - start < |done.log.sent| && done.log.sent[i - start] == agreed(i)
  {
    var i := sys.log.streamPos;
    var filled := Next(sys, Insert(i), agreed);
    FillReads(sys.log, i, agreed(i));
    StepKeeps(sys, Insert(i), start, agreed);
    RunFilled(filled, steps, i, start, agreed);
    RunKeeps(filled, steps, start, agreed);
    FilledCommits(Run(filled, steps, agreed).log, i, start, agreed);
  }
}

/** Reverting more appends than the cache holds. The entries pushed out of the cache do not come back, so
    the cache lies past the end of the log from then on; this is exactly when that reaches a subscriber. */
module LogReverts {
  import opened Wrappers
  import opened LogState
  import opened LogInvariant
  import opened LogRuns

  /** How far the end of the cache lies past the end of the log. */
  function Excess<T>(s: Log<T>): int { s.cacheStart + |s.cache| - Length(s) }

  /** The stream waits for an object that the store is missing, at a position no cache will answer again. */
  ghost predicate Stuck<T>(s: Log<T>) {
    && s.streamPos < |s.committed| && s.streamPos < s.cacheStart
    && Flatten(s.committed[s.streamPos]).None?
  }

  /** The cache no longer answers for any position up to the stream position: it has moved past the log by
      more than it can hold, or the stream is stuck. */
  ghost predicate Adrift<T>(s: Log<T>, start: nat, agreed: nat -> T) {
    && Safe(s) && 1 <= s.cacheSize && |s.cache| <= s.cacheSize
    && Agrees(Stored(s), 0, agreed)
    && start <= s.streamPos <= |s.committed|
    && s.sent == Objects(agreed, start, s.streamPos)
    && (Excess(s) > s.cacheSize || Stuck(s))
  }

  // ---- What keeps a log adrift ----

  lemma {:induction false} StoreAllExcess<T>(s: Log<T>, entries: seq<Option<T>>)
    requires 1 <= s.cacheSize && |s.cache| <= s.cacheSize && s.pendingInserts == |s.pending|
    ensures var t := StoreAll(s, entries);
            && Excess(t) == Excess(s) && |t.cache| <= t.cacheSize && s.cacheStart <= t.cacheStart
            && t.pendingInserts == |t.pending|
    decreases |entries|
  {
    if entries != [] && s.disk.writes != 0 { StoreAllExcess(StoreOne(s, entries[0]), entries[1..]); }
  }

  lemma InsertAdrift<T>(s: Log<T>, index: nat, start: nat, agreed: nat -> T)
    requires Adrift(s, start, agreed)
    ensures Adrift(Inserted(s, index, agreed(index)), start, agreed)
  {
    InsertedSafe(s, index, agreed(index));
    if index >= Length(s) {
      var entries := Appended(s, index, agreed(index));
      StoreAllFrame(s, entries);
      StoreAllExcess(s, entries);
      WrittenAgrees(s, index, agreed);
      AgreesConcat(Stored(s), Written(s, entries), 0, agreed);
      assert Stored(StoreAll(s, entries)) == Stored(s) + Written(s, entries);
    }
  }

  lemma {:induction false} RunEnds<T>(s: Log<T>, i: nat, n: nat)
    requires i <= n && At(s, n).None?
    ensures i + |Available(s, i)| <= n
    decreases n - i
  {
    if i < n && At(s, i).Some? && At(s, i).value.Some? { RunEnds(s, i + 1, n); }
  }

  /** What a log that is adrift broadcasts comes from the store alone. */
  lemma {:induction false} AvailableAdrift<T>(p: Log<T>, start: nat, agreed: nat -> T)
    requires Adrift(p, start, agreed) && p.pending == []
    ensures p.streamPos + |Available(p, p.streamPos)| <= |p.committed|
    ensures Available(p, p.streamPos) == Objects(agreed, p.streamPos, p.streamPos + |Available(p, p.streamPos)|)
    ensures Stuck(p) ==> Available(p, p.streamPos) == []
  {
    var pos := p.streamPos;
    var run := Available(p, pos);
    AvailableIsLongestRun(p, pos);
    if Stuck(p) {
      assert At(p, pos) == Some(None);
    } else {
      RunEnds(p, pos, |p.committed|);
      forall j | 0 <= j < |run| ensures run[j] == agreed(pos + j) {
        assert At(p, pos + j) == Some(Some(run[j]));
        assert Stored(p)[pos + j] == Flatten(p.committed[pos + j]);
      }
    }
  }

  lemma CommitAdrift<T>(s: Log<T>, start: nat, agreed: nat -> T)
    requires Adrift(s, start, agreed)
    ensures Adrift(Committed(s), start, agreed)
  {
    if s.disk.commits > 0 {
      var p := Persisted(s);
      assert Stored(p) == Stored(s);
      AvailableAdrift(p, start, agreed);
      assert Stored(Committed(s)) == Stored(p);
      if Stuck(s) { assert Stuck(p) && Stuck(Committed(s)); }
    }
  }

  lemma RevertAdrift<T>(s: Log<T>, start: nat, agreed: nat -> T)
    requires Adrift(s, start, agreed)
    ensures Adrift(Reverted(s), start, agreed)
  {
    assert Stored(Reverted(s)) == Stored(s)[..|s.committed|];
  }

  lemma CorruptAdrift<T>(s: Log<T>, at: nat, start: nat, agreed: nat -> T)
    requires Adrift(s, start, agreed) && at < |s.committed|
    ensures Adrift(s.(committed := s.committed[at := Failed]), start, agreed)
  {
    assert Stored(s.(committed := s.committed[at := Failed])) == Stored(s)[at := None];
  }

  lemma SubscribeAdrift<T>(s: Log<T>, from: nat, start: nat, agreed: nat -> T)
    requires Adrift(s, start, agreed)
    ensures ReadsAgreed(s, from, s.streamPos, agreed)
  {
    forall i: nat | from <= i < s.streamPos
      ensures At(s, i).Some? && (At(s, i).value.Some? ==> At(s, i).value.value == agreed(i))
    {
      assert Stored(s)[i] == Flatten(s.committed[i]);
    }
  }

  // ---- Harmless reverts ----

  /** A revert that breaks nothing: no more appends are pending than the cache holds, or more than twice as
      many, or the stream waits at a hole. */
  predicate Harmless<T>(sys: System<T>, step: Step) {
    step.Revert? && sys.log.disk.reverts ==>
      || |sys.log.pending| <= sys.log.cacheSize
      || |sys.log.pending| > 2 * sys.log.cacheSize
      || sys.log.streamPos < |sys.log.committed|
  }

  predicate HarmlessRun<T>(sys: System<T>, steps: seq<Step>, agreed: nat -> T)
    requires Safe(sys.log)
    decreases |steps|
  {
    steps != [] ==> Harmless(sys, steps[0]) && HarmlessRun(Next(sys, steps[0], agreed), steps[1..], agreed)
  }

  ghost predicate StreamsFrom<T>(sys: System<T>, start: nat, agreed: nat -> T) {
    forall l :: l in sys.listeners ==>
      l.stream.since <= |sys.log.sent| && StreamFrom(l, start + l.stream.since, agreed)
  }

  ghost predicate Fine<T>(sys: System<T>, start: nat, agreed: nat -> T) {
    && (LogOk(sys.log, start, agreed) || Adrift(sys.log, start, agreed))
    && StreamsFrom(sys, start, agreed)
  }

  lemma HarmlessRevert<T>(s: Log<T>, start: nat, agreed: nat -> T)
    requires LogOk(s, start, agreed)
    requires |s.pending| > 2 * s.cacheSize || (|s.pending| > s.cacheSize && s.streamPos < |s.committed|)
    ensures Adrift(Reverted(s), start, agreed)
  {
    assert Stored(Reverted(s)) == Stored(s)[..|s.committed|];
  }

  lemma StepAdrift<T>(sys: System<T>, step: Step, start: nat, agreed: nat -> T)
    requires Adrift(sys.log, start, agreed) && StreamsFrom(sys, start, agreed)
    ensures Fine(Next(sys, step, agreed), start, agreed)
  {
    var s := sys.log;
    match step
    case Insert(index) =>
      InsertAdrift(s, index, start, agreed);
      InsertedFrame(s, index, agreed(index));
    case Commit => CommitAdrift(s, start, agreed);
    case Revert => RevertAdrift(s, start, agreed);
    case Subscribe(from) =>
      SubscribeAdrift(s, from, start, agreed);
      SubscribedWhere(s, from, agreed);
    case DiskBecomes(disk) => assert Stored(s.(disk := disk)) == Stored(s);
    case Corrupt(at) => if at < |s.committed| { CorruptAdrift(s, at, start, agreed); }
  }

  lemma StepFine<T>(sys: System<T>, step: Step, start: nat, agreed: nat -> T)
    requires Fine(sys, start, agreed) && Harmless(sys, step)
    ensures Fine(Next(sys, step, agreed), start, agreed)
  {
    if Adrift(sys.log, start, agreed) {
      StepAdrift(sys, step, start, agreed);
    } else if Legal(sys, step) {
      StepKeeps(sys, step, start, agreed);
    } else {
      HarmlessRevert(sys.log, start, agreed);
    }
  }

  lemma {:induction false} RunFine<T>(sys: System<T>, steps: seq<Step>, start: nat, agreed: nat -> T)
    requires Safe(sys.log) && Fine(sys, start, agreed) && HarmlessRun(sys, steps, agreed)
    ensures Fine(Run(sys, steps, agreed), start, agreed)
    decreases |steps|
  {
    if steps != [] {
      StepFine(sys, steps[0], start, agreed);
      RunFine(Next(sys, steps[0], agreed), steps[1..], start, agreed);
    }
  }

  /** Nothing has been sent for a position that is not committed, and every subscriber has been sent the
      agreed objects from where it subscribed up to the stream position, once each, in order. */
  ghost predicate ExactlyOnce<T>(sys: System<T>, agreed: nat -> T) {
    && sys.log.streamPos <= |sys.log.committed|
    && forall l :: l in sys.listeners ==>
         && l.stream.since <= |sys.log.sent|
         && Delivered(l.stream, sys.log.sent) == Objects(agreed, l.from, Max(l.from, sys.log.streamPos))
  }

  lemma FineDelivers<T>(sys: System<T>, start: nat, agreed: nat -> T)
    requires Fine(sys, start, agreed)
    ensures ExactlyOnce(sys, agreed)
  {
    forall l | l in sys.listeners
      ensures Delivered(l.stream, sys.log.sent) == Objects(agreed, l.from, Max(l.from, sys.log.streamPos))
    {
      StreamDelivers(sys, l, start, agreed);
    }
  }

  /** Delivery is exactly once and in order in every run of a session in which each revert is harmless. */
  lemma {:induction false} HarmlessRunDelivers<T>(s: Log<T>, steps: seq<Step>, agreed: nat -> T)
    requires Begins(s, agreed) && Safe(s) && HarmlessRun(System(s, []), steps, agreed)
    ensures ExactlyOnce(Run(System(s, []), steps, agreed), agreed)
  {
    BeginningOk(s, agreed);
    RunFine(System(s, []), steps, s.streamPos, agreed);
    FineDelivers(Run(System(s, []), steps, agreed), s.streamPos, agreed);
  }

  // ---- Harmful reverts ----

  lemma OneAppend<T>(sys: System<T>, agreed: nat -> T)
    requires Safe(sys.log) && sys.log.disk.writes > 0
    ensures Next(sys, Insert(Length(sys.log)), agreed) == sys.(log := StoreOne(sys.log, Some(agreed(Length(sys.log)))))
  {
    var s, item := sys.log, agreed(Length(sys.log));
    assert Appended(s, Length(s), item) == [Some(item)];
    assert StoreAll(s, [Some(item)]) == StoreAll(StoreOne(s, Some(item)), []);
  }

  lemma {:induction false} RunCons<T>(sys: System<T>, step: Step, rest: seq<Step>, agreed: nat -> T)
    requires Safe(sys.log)
    ensures Run(sys, [step] + rest, agreed) == Run(Next(sys, step, agreed), rest, agreed)
  {
    assert ([step] + rest)[1..] == rest;
  }

  /** Insert the next `n` objects. */
  function Appends(from: nat, n: nat): seq<Step>
    decreases n
  {
    if n == 0 then [] else [Insert(from)] + Appends(from + 1, n - 1)
  }

  /** A log with the objects of the next `n` positions appended, none of them pushing another out. */
  function Grown<T>(s: Log<T>, items: seq<T>): Log<T>
    requires |items| <= s.disk.writes
  {
    s.(pending := s.pending + Somes(items),
       pendingInserts := s.pendingInserts + |items|,
       cache := s.cache + Somes(items),
       disk := s.disk.(writes := s.disk.writes - |items|))
  }

  function Somes<T>(items: seq<T>): (r: seq<Option<T>>)
    ensures |r| == |items| && forall i :: 0 <= i < |r| ==> r[i] == Some(items[i])
  {
    seq(|items|, i requires 0 <= i < |items| => Some(items[i]))
  }

  lemma {:induction false} StoreAllGrows<T>(s: Log<T>, items: seq<T>)
    requires s.pendingInserts == |s.pending| && 1 <= s.cacheSize
    requires |items| <= s.disk.writes && |s.cache| + |items| <= s.cacheSize
    ensures StoreAll(s, Somes(items)) == Grown(s, items)
  {
    assert Written(s, Somes(items)) == Somes(items);
    StoreAllFrame(s, Somes(items));
    StoreAllCache(s, Somes(items));
    StoreAllExcess(s, Somes(items));
  }

  lemma {:induction false} AppendStep<T>(sys: System<T>, n: nat, agreed: nat -> T)
    requires Safe(sys.log) && 0 < n <= sys.log.disk.writes
    ensures var from := Length(sys.log);
            var next := sys.(log := StoreOne(sys.log, Some(agreed(from))));
            && Safe(next.log) && Length(next.log) == from + 1
            && Run(sys, Appends(from, n), agreed) == Run(next, Appends(from + 1, n - 1), agreed)
  {
    OneAppend(sys, agreed);
    RunCons(sys, Insert(Length(sys.log)), Appends(Length(sys.log) + 1, n - 1), agreed);
  }

  lemma {:induction false} StoreAllStep<T>(s: Log<T>, n: nat, agreed: nat -> T)
    requires 0 < n <= s.disk.writes && s.pendingInserts == |s.pending|
    ensures var from := Length(s);
            StoreAll(s, Somes(Objects(agreed, from, from + n)))
            == StoreAll(StoreOne(s, Some(agreed(from))), Somes(Objects(agreed, from + 1, from + n)))
  {
    var from := Length(s);
    var entries := Somes(Objects(agreed, from, from + n));
    assert entries[1..] == Somes(Objects(agreed, from + 1, from + n));
  }

  lemma {:induction false} AppendsStore<T>(sys: System<T>, n: nat, agreed: nat -> T)
    requires Safe(sys.log) && n <= sys.log.disk.writes
    ensures var from := Length(sys.log);
            Run(sys, Appends(from, n), agreed)
            == sys.(log := StoreAll(sys.log, Somes(Objects(agreed, from, from + n))))
    decreases n
  {
    if n > 0 {
      AppendStep(sys, n, agreed);
      AppendsStore(sys.(log := StoreOne(sys.log, Some(agreed(Length(sys.log))))), n - 1, agreed);
      StoreAllStep(sys.log, n, agreed);
    }
  }

  lemma {:induction false} RunConcat<T>(sys: System<T>, a: seq<Step>, b: seq<Step>, agreed: nat -> T)
    requires Safe(sys.log)
    ensures Run(sys, a + b, agreed) == Run(Run(sys, a, agreed), b, agreed)
    decreases |a|
  {
    if a == [] {
      assert a + b == b;
    } else {
      assert (a + b)[1..] == a[1..] + b;
      RunConcat(Next(sys, a[0], agreed), a[1..], b, agreed);
    }
  }

  lemma {:induction false} AvailableRun<T>(s: Log<T>, i: nat, items: seq<T>)
    requires forall k :: 0 <= k < |items| ==> At(s, i + k) == Some(Some(items[k]))
    ensures Available(s, i) == items + Available(s, i + |items|)
    decreases |items|
  {
    if items == [] {
      assert Available(s, i) == [] + Available(s, i);
    } else {
      forall k | 0 <= k < |items[1..]| ensures At(s, i + 1 + k) == Some(Some(items[1..][k])) {
        assert At(s, i + (k + 1)) == Some(Some(items[k + 1]));
      }
      AvailableRun(s, i + 1, items[1..]);
      assert At(s, i + 0) == Some(Some(items[0]));
      assert items == [items[0]] + items[1..];
    }
  }

  lemma {:induction false} AvailableTwice<T>(p: Log<T>, pos: nat, items: seq<T>)
    requires forall k :: 0 <= k < |items| ==> At(p, pos + k) == Some(Some(items[k]))
    requires forall k :: 0 <= k < |items| ==> At(p, pos + |items| + k) == Some(Some(items[k]))
    requires At(p, pos + |items| + |items|).None?
    ensures Available(p, pos) == items + items
  {
    AvailableRun(p, pos, items);
    AvailableRun(p, pos + |items|, items);
    assert items + [] == items;
  }

  /** The store ends where the cache begins, and both end with the same objects: they are sent twice. */
  lemma SentTwice<T>(s: Log<T>, items: seq<T>)
    requires s.pending == s.cache == Somes(items) && s.cacheStart == |s.committed| + |items|
    requires s.streamPos == |s.committed| && s.disk.commits > 0
    ensures Committed(s).sent == s.sent + items + items
    ensures Committed(s).streamPos == |Committed(s).committed| + |items|
  {
    var p := Persisted(s);
    AvailableTwice(p, s.streamPos, items);
    assert s.sent + (items + items) == s.sent + items + items;
  }

  /** What follows a revert that dropped too much: room for `n` more writes and a commit, `n` appends, and
      that commit. */
  function Refill(pos: nat, n: nat): seq<Step> { [DiskBecomes(Disk(n, 1, false))] + (Appends(pos, n) + [Commit]) }

  lemma {:induction false} AppendsGrow<T>(sys: System<T>, n: nat, agreed: nat -> T)
    requires Safe(sys.log) && 1 <= n <= sys.log.disk.writes && |sys.log.cache| + n <= sys.log.cacheSize
    ensures var pos := Length(sys.log);
            Run(sys, Appends(pos, n), agreed) == sys.(log := Grown(sys.log, Objects(agreed, pos, pos + n)))
  {
    AppendsStore(sys, n, agreed);
    StoreAllGrows(sys.log, Objects(agreed, Length(sys.log), Length(sys.log) + n));
  }

  lemma {:induction false} RunCommit<T>(sys: System<T>, agreed: nat -> T)
    requires Safe(sys.log)
    ensures Run(sys, [Commit], agreed) == sys.(log := Committed(sys.log))
  {
    RunCons(sys, Commit, [], agreed);
    assert [Commit] + [] == [Commit];
  }

  lemma {:induction false} AppendsCommit<T>(sys: System<T>, n: nat, agreed: nat -> T)
    requires Safe(sys.log) && 1 <= n <= sys.log.disk.writes && |sys.log.cache| + n <= sys.log.cacheSize
    ensures var pos := Length(sys.log);
            Run(sys, Appends(pos, n) + [Commit], agreed)
            == sys.(log := Committed(Grown(sys.log, Objects(agreed, pos, pos + n))))
  {
    var pos := Length(sys.log);
    RunConcat(sys, Appends(pos, n), [Commit], agreed);
    AppendsGrow(sys, n, agreed);
    RunCommit(Run(sys, Appends(pos, n), agreed), agreed);
  }

  lemma GrownSendsTwice<T>(s: Log<T>, items: seq<T>)
    requires s.pending == [] && s.cache == [] && s.cacheStart == |s.committed| + |items|
    requires s.streamPos == |s.committed| && |items| <= s.disk.writes && s.disk.commits > 0
    ensures var t := Committed(Grown(s, items));
            t.sent == s.sent + items + items && t.streamPos == |t.committed| + |items|
  {
    assert [] + Somes(items) == Somes(items);
    SentTwice(Grown(s, items), items);
  }

  lemma {:induction false} AppendsSendTwice<T>(sys: System<T>, n: nat, agreed: nat -> T)
    requires Safe(sys.log) && 1 <= n <= sys.log.cacheSize && n <= sys.log.disk.writes && sys.log.disk.commits > 0
    requires sys.log.pending == [] && sys.log.cache == [] && sys.log.cacheStart == |sys.log.committed| + n
    requires sys.log.streamPos == |sys.log.committed|
    ensures var pos := sys.log.streamPos;
            var items := Objects(agreed, pos, pos + n);
            var end := Run(sys, Appends(pos, n) + [Commit], agreed).log;
            end.sent == sys.log.sent + items + items && end.streamPos == |end.committed| + n
  {
    AppendsCommit(sys, n, agreed);
    GrownSendsTwice(sys.log, Objects(agreed, sys.log.streamPos, sys.log.streamPos + n));
  }

  lemma {:induction false} RefillSendsTwice<T>(sys: System<T>, n: nat, agreed: nat -> T)
    requires Safe(sys.log) && 1 <= n <= sys.log.cacheSize
    requires sys.log.pending == [] && sys.log.cache == [] && sys.log.cacheStart == |sys.log.committed| + n
    requires sys.log.streamPos == |sys.log.committed|
    ensures var pos := sys.log.streamPos;
            var items := Objects(agreed, pos, pos + n);
            var end := Run(sys, Refill(pos, n), agreed).log;
            end.sent == sys.log.sent + items + items && end.streamPos == |end.committed| + n
  {
    var pos := sys.log.streamPos;
    var step := DiskBecomes(Disk(n, 1, false));
    RunCons(sys, step, Appends(pos, n) + [Commit], agreed);
    AppendsSendTwice(Next(sys, step, agreed), n, agreed);
  }

  /** Whatever was inserted, committed and reverted before: once a revert drops more appends than the cache
      holds, but no more than twice as many, while nothing waits to be broadcast, then inserting as many
      objects again as were too many and committing sends each of them twice. */
  lemma LongRevertSendsTwice<T>(sys: System<T>, start: nat, agreed: nat -> T)
    requires SessionInv(sys, start, agreed) && sys.log.streamPos == |sys.log.committed|
    requires sys.log.disk.reverts && sys.log.cacheSize < |sys.log.pending| <= 2 * sys.log.cacheSize
    ensures var n := |sys.log.pending| - sys.log.cacheSize;
            var pos := sys.log.streamPos;
            var end := Run(Next(sys, Revert, agreed), Refill(pos, n), agreed);
            && end.log.sent == sys.log.sent + Objects(agreed, pos, pos + n) + Objects(agreed, pos, pos + n)
            && end.log.streamPos == |end.log.committed| + n
  {
    RefillSendsTwice(Next(sys, Revert, agreed), |sys.log.pending| - sys.log.cacheSize, agreed);
  }

  lemma {:induction false} WithoutReverts<T>(sys: System<T>, steps: seq<Step>, agreed: nat -> T)
    requires Safe(sys.log) && Revert !in steps
    ensures HarmlessRun(sys, steps, agreed)
    decreases |steps|
  {
    if steps != [] { WithoutReverts(Next(sys, steps[0], agreed), steps[1..], agreed); }
  }

  lemma {:induction false} RefillReverts(pos: nat, n: nat)
    ensures Revert !in Appends(pos, n) && Revert !in Refill(pos, n)
    decreases n
  {
    if n > 0 { RefillReverts(pos + 1, n - 1); }
  }

  /** In every state of a session, a revert is harmless if and only if delivery stays exactly once and in
      order whatever is done after it, further reverts included as long as they are harmless. */
  lemma HarmlessIff<T>(sys: System<T>, start: nat, agreed: nat -> T)
    requires SessionInv(sys, start, agreed) && Safe(sys.log)
    ensures Harmless(sys, Revert) <==>
      var reverted := Next(sys, Revert, agreed);
      forall steps :: HarmlessRun(reverted, steps, agreed) ==> ExactlyOnce(Run(reverted, steps, agreed), agreed)
  {
    var reverted := Next(sys, Revert, agreed);
    if Harmless(sys, Revert) {
      StepFine(sys, Revert, start, agreed);
      forall steps | HarmlessRun(reverted, steps, agreed) ensures ExactlyOnce(Run(reverted, steps, agreed), agreed) {
        RunFine(reverted, steps, start, agreed);
        FineDelivers(Run(reverted, steps, agreed), start, agreed);
      }
    } else {
      LongRevertSendsTwice(sys, start, agreed);
      RefillReverts(sys.log.streamPos, |sys.log.pending| - sys.log.cacheSize);
      var steps := Refill(sys.log.streamPos, |sys.log.pending| - sys.log.cacheSize);
      WithoutReverts(reverted, steps, agreed);
      assert !ExactlyOnce(Run(reverted, steps, agreed), agreed);
    }
  }

  lemma TwoAppends<T>(sys: System<T>, agreed: nat -> T)
    requires Safe(sys.log) && Length(sys.log) == 0 && sys.log.disk.writes >= 2
    ensures var two := Next(Next(sys, Insert(0), agreed), Insert(1), agreed);
            && two.log.pending == [Some(agreed(0)), Some(agreed(1))] && two.log.committed == []
            && two.log.cacheSize == sys.log.cacheSize && two.log.disk.reverts == sys.log.disk.reverts
            && two.log.sent == sys.log.sent && two.log.streamPos == sys.log.streamPos
  {
    OneAppend(sys, agreed);
    OneAppend(Next(sys, Insert(0), agreed), agreed);
  }

  lemma TwoAppendsSession<T>(sys: System<T>, start: nat, agreed: nat -> T)
    requires SessionInv(sys, start, agreed)
    ensures SessionInv(Next(Next(sys, Insert(0), agreed), Insert(1), agreed), start, agreed)
  {
    StepKeeps(sys, Insert(0), start, agreed);
    StepKeeps(Next(sys, Insert(0), agreed), Insert(1), start, agreed);
  }

  lemma CreatedSession<T>(cacheSize: nat, disk: Disk, agreed: nat -> T)
    requires cacheSize >= 1
    ensures SessionInv(System(Created<T>(cacheSize, disk), []), 0, agreed)
  {
    CreatedBegins(cacheSize, disk, agreed);
    BeginningOk(Created<T>(cacheSize, disk), agreed);
  }

  /** The smallest case: two appends to an empty log with a cache of one entry, a revert, and one more append
      send the first object twice, whatever the objects are. */
  lemma IllegalRevertDuplicates<T>(disk: Disk, agreed: nat -> T)
    requires disk.writes >= 2 && disk.reverts
    ensures var none := System(Created<T>(1, disk), []);
            var two := Next(Next(none, Insert(0), agreed), Insert(1), agreed);
            Run(Next(two, Revert, agreed), Refill(0, 1), agreed).log.sent == [agreed(0), agreed(0)]
  {
    var none := System(Created<T>(1, disk), []);
    CreatedSession(1, disk, agreed);
    TwoAppends(none, agreed);
    TwoAppendsSession(none, 0, agreed);
    LongRevertSendsTwice(Next(Next(none, Insert(0), agreed), Insert(1), agreed), 0, agreed);
    assert Objects(agreed, 0, 1) == [agreed(0)];
  }
}

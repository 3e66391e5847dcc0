/** The state of a caching ledger log as a value: the transitions its methods perform, and what every
    transition keeps. The class in LedgerLog.dfy is proved against these functions. */
module LogState {
  import opened Wrappers

  /** The outcome of loading one entry from the append log: `Failed` is a load error. */
  datatype Load<+T> = Loaded(entry: Option<T>) | Failed

  /** The disk under the append log: how many more writes and version commits it will accept, and
      whether it can go back to the last version. The environment may change all three at any time. */
  datatype Disk = Disk(writes: nat, commits: nat, reverts: bool)

  /** `committed` and `pending` are the two parts of the append log, `sent` is everything ever sent
      on the broadcast channel. */
  datatype Log<T> = Log(
    cacheStart: nat,
    cacheSize: nat,
    cache: seq<Option<T>>,
    committed: seq<Load<T>>,
    pending: seq<Option<T>>,
    pendingInserts: nat,
    sent: seq<T>,
    streamPos: nat,
    disk: Disk)

  // ---- Reading ----

  /** A failed load and a stored placeholder are both missing data. */
  function Flatten<T>(load: Load<T>): Option<T> {
    match load
    case Loaded(entry) => entry
    case Failed => None
  }

  function Flat<T>(loads: seq<Load<T>>): (r: seq<Option<T>>)
    ensures |r| == |loads|
    ensures forall i :: 0 <= i < |loads| ==> r[i] == Flatten(loads[i])
  {
    seq(|loads|, i requires 0 <= i < |loads| => Flatten(loads[i]))
  }

  /** Everything in the append log, as it reads back. */
  function Stored<T>(s: Log<T>): (r: seq<Option<T>>)
    ensures |r| == |s.committed| + |s.pending|
  {
    Flat(s.committed) + s.pending
  }

  /** What an iterator over the log yields at position `i`: `None` is the end of the iteration,
      `Some(None)` a missing object. Positions from the start of the cache are answered by the cache,
      the others by the committed part of the append log. */
  function ItemAt<T>(cacheStart: nat, cache: seq<Option<T>>, committed: seq<Load<T>>, i: nat): Option<Option<T>> {
    if i >= cacheStart then
      if i - cacheStart < |cache| then Some(cache[i - cacheStart]) else None
    else if i < |committed| then Some(Flatten(committed[i]))
    else None
  }

  function At<T>(s: Log<T>, i: nat): Option<Option<T>> {
    ItemAt(s.cacheStart, s.cache, s.committed, i)
  }

  /** How many items an iterator at position `index` says it has left. */
  function SizeHint<T>(s: Log<T>, index: nat): nat { SaturatingSub(s.cacheStart + |s.cache|, index) }

  /** The plain sequence behind the cached log. */
  function View<T>(s: Log<T>): seq<Option<T>>
    requires s.cacheStart <= |s.committed|
  {
    Flat(s.committed[..s.cacheStart]) + s.cache
  }

  // ---- Transitions ----

  /** Append one entry to the store and to the cache, evicting the front of a full cache. */
  function StoreOne<T>(s: Log<T>, entry: Option<T>): Log<T>
    requires s.disk.writes > 0
  {
    var full := |s.cache| >= s.cacheSize;
    s.(pending := s.pending + [entry],
       pendingInserts := s.pendingInserts + 1,
       cacheStart := if full then s.cacheStart + 1 else s.cacheStart,
       cache := (if full && s.cache != [] then s.cache[1..] else s.cache) + [entry],
       disk := s.disk.(writes := s.disk.writes - 1))
  }

  /** Append entries until one of the writes fails. */
  function StoreAll<T>(s: Log<T>, entries: seq<Option<T>>): Log<T>
    decreases |entries|
  {
    if entries == [] || s.disk.writes == 0 then s
    else StoreAll(StoreOne(s, entries[0]), entries[1..])
  }

  /** The entries of a batch that reach the disk. */
  function Written<T>(s: Log<T>, entries: seq<Option<T>>): seq<Option<T>> {
    entries[..Min(|entries|, s.disk.writes)]
  }

  function Placeholders<T>(n: nat): (r: seq<Option<T>>)
    ensures |r| == n
    ensures forall i :: 0 <= i < n ==> r[i] == None
  {
    seq(n, i => None)
  }

  function Length<T>(s: Log<T>): nat { |s.committed| + s.pendingInserts }

  /** What `insert` has to append for an object at or past the end of the log. */
  function Appended<T>(s: Log<T>, index: nat, item: T): seq<Option<T>>
    requires index >= Length(s)
  {
    Placeholders(index - Length(s)) + [Some(item)]
  }

  function Inserted<T>(s: Log<T>, index: nat, item: T): Log<T>
    requires Safe(s)
  {
    if index >= Length(s) then StoreAll(s, Appended(s, index, item))
    else if index >= s.cacheStart then s.(cache := s.cache[index - s.cacheStart := Some(item)])
    else s
  }

  predicate InsertSucceeds<T>(s: Log<T>, index: nat) {
    index >= Length(s) ==> index - Length(s) < s.disk.writes
  }

  /** The objects that can be sent in order starting at position `i`. */
  function Available<T>(s: Log<T>, i: nat): seq<T>
    decreases s.cacheStart + |s.cache| - i
  {
    match At(s, i)
    case Some(Some(item)) => [item] + Available(s, i + 1)
    case _ => []
  }

  function AsLoads<T>(entries: seq<Option<T>>): (r: seq<Load<T>>)
    ensures |r| == |entries|
    ensures forall i :: 0 <= i < |entries| ==> r[i] == Loaded(entries[i])
  {
    seq(|entries|, i requires 0 <= i < |entries| => Loaded(entries[i]))
  }

  /** The append log has made the pending entries part of its committed version. */
  function Persisted<T>(s: Log<T>): Log<T> {
    s.(committed := s.committed + AsLoads(s.pending),
       pending := [],
       pendingInserts := 0,
       disk := if s.disk.commits > 0 then s.disk.(commits := s.disk.commits - 1) else s.disk)
  }

  function Committed<T>(s: Log<T>): Log<T> {
    if s.disk.commits == 0 then s
    else
      var p := Persisted(s);
      var objects := Available(p, p.streamPos);
      p.(sent := p.sent + objects, streamPos := p.streamPos + |objects|)
  }

  function Reverted<T>(s: Log<T>): Log<T> {
    s.(pending := [],
       pendingInserts := 0,
       cache := s.cache[..SaturatingSub(|s.cache|, s.pendingInserts)])
  }

  /** If the append log cannot go back, nothing changes. */
  function RevertAttempted<T>(s: Log<T>): Log<T> { if s.disk.reverts then Reverted(s) else s }

  function Created<T>(cacheSize: nat, disk: Disk): Log<T> {
    Log(0, cacheSize, [], [], [], 0, [], 0, disk)
  }

  /** The position of the first missing object, or the length if there is none. */
  function FirstHole<T>(view: seq<Option<T>>): (r: nat)
    ensures r <= |view|
    ensures forall i :: 0 <= i < r ==> view[i].Some?
    ensures r < |view| ==> view[r].None?
  {
    if view == [] || view[0].None? then 0 else 1 + FirstHole(view[1..])
  }

  lemma {:induction false} FirstHoleIs<T>(view: seq<Option<T>>, p: nat)
    requires p <= |view|
    requires forall i :: 0 <= i < p ==> view[i].Some?
    requires p < |view| ==> view[p].None?
    ensures FirstHole(view) == p
  {
  }

  function Opened<T>(store: seq<Load<T>>, cacheSize: nat, disk: Disk): Log<T> {
    var start := SaturatingSub(|store|, cacheSize);
    Log(start, cacheSize, Flat(store)[start..], store, [], 0, [], FirstHole(Flat(store)), disk)
  }

  // ---- Subscriptions ----

  /** A stream handed to a subscriber: the objects it starts with, how many of the broadcast
      messages it drops, and how many had been sent before it started to listen. */
  datatype Subscription<T> = Subscription(prefix: seq<T>, skip: nat, since: nat)

  /** Collect `n` objects from position `i`: `None` if one of them is missing, fewer than `n` if the
      iteration ends before. */
  function Collected<T>(s: Log<T>, i: nat, n: nat): Option<seq<T>>
    decreases n
  {
    if n == 0 then Some([])
    else match At(s, i)
      case None => Some([])
      case Some(None) => None
      case Some(Some(item)) =>
        match Collected(s, i + 1, n - 1)
        case None => None
        case Some(rest) => Some([item] + rest)
  }

  function Subscribed<T>(s: Log<T>, from: nat): Option<Subscription<T>> {
    match Collected(s, from, SaturatingSub(s.streamPos, from))
    case None => None
    case Some(prefix) => Some(Subscription(prefix, SaturatingSub(from, s.streamPos), |s.sent|))
  }

  /** Everything a subscriber has been sent when the channel has carried `sent`. */
  function Delivered<T>(sub: Subscription<T>, sent: seq<T>): seq<T>
    requires sub.since <= |sent|
  {
    var received := sent[sub.since..];
    sub.prefix + received[Min(sub.skip, |received|)..]
  }

  // ---- Invariants ----

  /** The part of the invariant no operation can break, whatever the cache size and however many
      entries are reverted: a position inside the log is never past the end of the cache. */
  predicate Safe<T>(s: Log<T>) {
    && s.pendingInserts == |s.pending|
    && Length(s) <= s.cacheStart + |s.cache|
  }

  /** The cache window ends exactly where the log ends. */
  predicate Aligned<T>(s: Log<T>) {
    s.cacheStart + |s.cache| == Length(s)
  }

  /** A cached entry is the stored one, or it replaces a missing stored one. */
  ghost predicate Consistent<T>(s: Log<T>)
    requires Aligned(s) && s.pendingInserts == |s.pending|
  {
    forall i :: s.cacheStart <= i < Length(s) ==>
      s.cache[i - s.cacheStart] == Stored(s)[i] || Stored(s)[i].None?
  }

  /** The cache is a window on the end of the log that agrees with the store. */
  ghost predicate WindowInv<T>(s: Log<T>) {
    && s.pendingInserts == |s.pending|
    && Aligned(s)
    && 1 <= s.cacheSize
    && Min(|s.pending|, s.cacheSize) <= |s.cache| <= s.cacheSize
    && Consistent(s)
  }

  /** ...and the next object to broadcast is past the committed log or missing from it. */
  ghost predicate Inv<T>(s: Log<T>) {
    && WindowInv(s)
    && s.streamPos <= |s.committed|
    && (s.streamPos < |s.committed| ==> Flatten(s.committed[s.streamPos]).None?)
  }
}

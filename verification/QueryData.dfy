/** The objects of the availability API. Commitments are carried by the objects they commit to, so a
    hash may repeat; transaction indices are numbers. */
module QueryData {
  import opened Wrappers

  type Hash = nat
  type Key = nat

  // ---- Payloads ----

  /** `indices` is what iterating over the payload yields, `contents` the commitment of the transaction
      at each index. */
  datatype RawPayload = Payload(indices: seq<nat>, contents: map<nat, Hash>, size: nat) {

    /** Iteration yields only indices that have a transaction. */
    predicate Valid() { forall i :: i in indices ==> i in contents }
  }

  type Payload = p: RawPayload | p.Valid() witness Payload([], map[], 0)

  /** The transactions of a payload in iteration order, with their indices. */
  function Enumerate(p: Payload): (r: seq<(nat, Hash)>)
    ensures |r| == |p.indices|
    ensures forall k :: 0 <= k < |r| ==> r[k] == (p.indices[k], p.contents[p.indices[k]])
  {
    seq(|p.indices|, k requires 0 <= k < |p.indices| => (p.indices[k], p.contents[p.indices[k]]))
  }

  /** The first index in iteration order of a transaction with this hash. */
  function ByHash(p: Payload, hash: Hash): Option<nat> { FindFrom(p, hash, 0) }

  function FindFrom(p: Payload, hash: Hash, k: nat): Option<nat>
    requires k <= |p.indices|
    decreases |p.indices| - k
  {
    if k == |p.indices| then None
    else
      var i := p.indices[k];
      if i in p.contents && p.contents[i] == hash then Some(i) else FindFrom(p, hash, k + 1)
  }

  lemma {:induction false} FindFromIsFirst(p: Payload, hash: Hash, k: nat)
    requires k <= |p.indices|
    ensures FindFrom(p, hash, k).None? <==> forall j :: k <= j < |p.indices| ==> p.contents[p.indices[j]] != hash
    ensures FindFrom(p, hash, k).Some? ==>
      (exists j :: k <= j < |p.indices| && p.indices[j] == FindFrom(p, hash, k).value
                   && p.contents[p.indices[j]] == hash
                   && (forall m :: k <= m < j ==> p.contents[p.indices[m]] != hash))
    decreases |p.indices| - k
  {
    if k < |p.indices| { FindFromIsFirst(p, hash, k + 1); }
  }

  /** If the payload has the hash, a search for it finds its least index. */
  ghost predicate FirstIsLeast(p: Payload, hash: Hash) {
    forall k :: 0 <= k < |p.indices| && p.contents[p.indices[k]] == hash ==>
      ByHash(p, hash).Some? && ByHash(p, hash).value <= p.indices[k]
  }

  ghost predicate EnumeratesAscending(p: Payload) {
    forall j, k :: 0 <= j < k < |p.indices| ==> p.indices[j] <= p.indices[k]
  }

  lemma AscendingIsFirstIsLeast(p: Payload, hash: Hash)
    requires EnumeratesAscending(p)
    ensures FirstIsLeast(p, hash)
  {
    FindFromIsFirst(p, hash, 0);
  }

  // ---- Leaves and blocks ----

  datatype Header = Header(number: nat, hash: Hash)

  datatype QC = QC(leafCommit: Hash)

  datatype Leaf = Leaf(header: Header, proposer: Key, hash: Hash, justifyQc: QC, payload: Option<Payload>)

  datatype LeafQueryData = LeafQueryData(leaf: Leaf, qc: QC) {
    function Height(): nat { leaf.header.number }
    function Hash(): Hash { leaf.hash }
    function BlockHash(): Hash { leaf.header.hash }
    function Proposer(): Key { leaf.proposer }
  }

  datatype BlockQueryData = BlockQueryData(header: Header, payload: Payload, hash: Hash, size: nat) {
    function Height(): nat { header.number }
  }

  /** The QC references some other leaf. */
  datatype Inconsistent = Inconsistent(leaf: Hash, qcLeaf: Hash)

  function NewLeaf(leaf: Leaf, qc: QC): Result<LeafQueryData, Inconsistent> {
    if qc.leafCommit != leaf.hash then Err(Inconsistent(leaf.hash, qc.leafCommit))
    else Ok(LeafQueryData(leaf, qc))
  }

  function NewBlock(leaf: Leaf, qc: QC, payload: Payload): Result<BlockQueryData, Inconsistent> {
    if qc.leafCommit != leaf.hash then Err(Inconsistent(leaf.hash, qc.leafCommit))
    else Ok(BlockQueryData(leaf.header, payload, leaf.header.hash, payload.size))
  }

  /** The genesis leaf and block, for which consensus emits no event. */
  datatype Genesis = Genesis(leaf: LeafQueryData, block: BlockQueryData) {
    predicate Valid() {
      && leaf.Height() == 0
      && block.header == leaf.leaf.header && block.hash == block.header.hash && block.size == block.payload.size
    }
  }

  /** Objects are looked up by position or by hash. */
  datatype ResourceId = Number(n: nat) | ByHashId(h: Hash)

  // ---- Range bounds ----

  datatype Bound = Included(n: nat) | Excluded(n: nat) | Unbounded

  predicate AboveStart(i: nat, start: Bound) {
    match start
    case Included(n) => n <= i
    case Excluded(n) => n < i
    case Unbounded => true
  }

  predicate BelowEnd(i: nat, end: Bound) {
    match end
    case Included(n) => i <= n
    case Excluded(n) => i < n
    case Unbounded => true
  }

  predicate InRange(i: nat, start: Bound, end: Bound) { AboveStart(i, start) && BelowEnd(i, end) }

  function FirstOf(start: Bound): nat {
    match start
    case Included(n) => n
    case Excluded(n) => n + 1
    case Unbounded => 0
  }

  /** The end of a range in a sequence of `n` items, exclusive. */
  function LimitOf(end: Bound, n: nat): nat {
    match end
    case Included(m) => Min(m + 1, n)
    case Excluded(m) => Min(m, n)
    case Unbounded => n
  }
}

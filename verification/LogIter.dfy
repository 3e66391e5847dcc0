/** The cached iterator: it starts on the append log and switches to the cache. */
module LogIter {
  import opened Wrappers
  import opened LogState

  class Iter<T> {
    var index: nat
    const cacheStart: nat
    const cache: seq<Option<T>>
    // The iterator over the append log: the entries it runs over and its own position.
    const committed: seq<Load<T>>
    var cursor: nat

    /** While the next item may still come from the append log, its iterator is where this one is. */
    ghost predicate Valid()
      reads this
    {
      index <= cacheStart ==> cursor == Min(index, |committed|)
    }

    ghost predicate Over(s: Log<T>) {
      cacheStart == s.cacheStart && cache == s.cache && committed == s.committed
    }

    constructor (cacheStart: nat, cache: seq<Option<T>>, committed: seq<Load<T>>)
      ensures Valid() && index == 0
      ensures this.cacheStart == cacheStart && this.cache == cache && this.committed == committed
    {
      this.index := 0;
      this.cacheStart := cacheStart;
      this.cache := cache;
      this.committed := committed;
      this.cursor := 0;
    }

    /** Skip `n` items and return the next one, from whichever side holds it. */
    method Nth(n: nat) returns (item: Option<Option<T>>)
      requires Valid()
      modifies this
      ensures Valid() && index == old(index) + n + 1
      ensures item == ItemAt(cacheStart, cache, committed, old(index) + n)
    {
      index := index + n;
      if index >= cacheStart {
        item := if index - cacheStart < |cache| then Some(cache[index - cacheStart]) else None;
      } else {
        var load := StoreNth(n);
        item := if load.Some? then Some(Flatten(load.value)) else None;
      }
      index := index + 1;
    }

    /** The append log's own `nth`: past the end it answers nothing and stays at the end. */
    method StoreNth(n: nat) returns (load: Option<Load<T>>)
      modifies this`cursor
      ensures cursor == if old(cursor) + n < |committed| then old(cursor) + n + 1
                        else Max(old(cursor), |committed|)
      ensures load == if old(cursor) + n < |committed| then Some(committed[old(cursor) + n]) else None
    {
      if cursor + n < |committed| {
        load := Some(committed[cursor + n]);
        cursor := cursor + n + 1;
      } else {
        load := None;
        cursor := Max(cursor, |committed|);
      }
    }

    method Next() returns (item: Option<Option<T>>)
      requires Valid()
      modifies this
      ensures Valid() && index == old(index) + 1
      ensures item == ItemAt(cacheStart, cache, committed, old(index))
    {
      item := Nth(0);
    }

    method Len() returns (len: nat)
      ensures len == SaturatingSub(cacheStart + |cache|, index)
    {
      len := SaturatingSub(cacheStart + |cache|, index);
    }
  }

  // ---- Refinement of plain iteration ----

  /** The answers of a cached iterator at `index` to a sequence of `nth` calls (`next` is `nth(0)`). */
  function Answers<T>(s: Log<T>, index: nat, calls: seq<nat>): seq<Option<Option<T>>>
    decreases |calls|
  {
    if calls == [] then []
    else [At(s, index + calls[0])] + Answers(s, index + calls[0] + 1, calls[1..])
  }

  /** The answers of an iterator over a plain sequence, of which `rest` is left. */
  function PlainAnswers<A>(rest: seq<A>, calls: seq<nat>): seq<Option<A>>
    decreases |calls|
  {
    if calls == [] then []
    else if calls[0] < |rest| then [Some(rest[calls[0]])] + PlainAnswers(rest[calls[0] + 1..], calls[1..])
    else [None] + PlainAnswers([], calls[1..])
  }

  lemma AtIsView<T>(s: Log<T>, i: nat)
    requires s.cacheStart <= |s.committed|
    ensures |View(s)| == s.cacheStart + |s.cache|
    ensures At(s, i) == if i < |View(s)| then Some(View(s)[i]) else None
  {
  }

  /** As long as the window starts inside the committed log, any sequence of calls gets from the
      cached iterator what it would get from one over the plain sequence. */
  lemma {:induction false} IterRefinesPlain<T>(s: Log<T>, index: nat, calls: seq<nat>)
    requires s.cacheStart <= |s.committed|
    ensures Answers(s, index, calls) == PlainAnswers(View(s)[Min(index, |View(s)|)..], calls)
    decreases |calls|
  {
    if calls != [] {
      var view := View(s);
      var rest := view[Min(index, |view|)..];
      AtIsView(s, index + calls[0]);
      IterRefinesPlain(s, index + calls[0] + 1, calls[1..]);
      if calls[0] < |rest| {
        assert rest[calls[0] + 1..] == view[index + calls[0] + 1..];
      }
    }
  }

  /** From any position, the iterator yields an item at each of the positions it still promises, and none
      after, if and only if the window starts inside the committed log or the iterator has reached it. */
  lemma SizeHintExactIff<T>(s: Log<T>, index: nat)
    ensures (forall i: nat :: index <= i ==> (At(s, i).Some? <==> i - index < SizeHint(s, index)))
            <==> s.cacheStart <= |s.committed| || s.cacheStart <= index
  {
    if s.cacheStart > |s.committed| && s.cacheStart > index {
      assert At(s, Max(index, |s.committed|)).None?;
    }
  }
}

/** A broadcast channel that holds messages back until they are flushed. */
module BufferedChannel {

  class BufferedChannel<T> {
    var pending: seq<T>
    // Everything delivered so far; a receiver that joined when `n` messages had been delivered gets
    // `sent[n..]`.
    var sent: seq<T>

    constructor ()
      ensures pending == [] && sent == []
    {
      pending, sent := [], [];
    }

    /** The number of messages a new receiver will never see. */
    method Subscribe() returns (since: nat)
      ensures since == |sent|
    {
      since := |sent|;
    }

    method Push(msg: T)
      modifies this
      ensures pending == old(pending) + [msg] && sent == old(sent)
    {
      pending := pending + [msg];
    }

    /** Deliver everything pushed since the last flush or clear, in order, leaving nothing pending. */
    method Flush()
      modifies this
      ensures pending == [] && sent == old(sent) + old(pending)
    {
      var messages := pending;
      pending := [];
      for i := 0 to |messages|
        invariant pending == [] && sent == old(sent) + messages[..i]
      {
        sent := sent + [messages[i]];
      }
      assert messages[..|messages|] == messages;
    }

    method Clear()
      modifies this
      ensures pending == [] && sent == old(sent)
    {
      pending := [];
    }
  }
}

// The interrupt-safe FIFO of byte packets that every layer of the stack
// uses to hand frames from one side to the other (src/common/btqueue.cpp).
// The doubly linked list is represented by the sequence of its entries from
// head to tail; the head pointer is null exactly when that sequence is empty.
module BtQueue {
  import opened Bytes

  /** One queued packet: its bytes and the opaque parameter pointer (0 is null). */
  datatype Entry = Entry(data: Bytes, param: nat)

  predicate ValidEntry(e: Entry)
  {
    0 < |e.data| <= MAX_DATA_SIZE
  }

  class Queue {
    var entries: seq<Entry>
    var init: bool

    ghost predicate Valid()
      reads this
    {
      forall i :: 0 <= i < |entries| ==> ValidEntry(entries[i])
    }

    /** A new queue is empty and ready. */
    constructor ()
      ensures Valid() && entries == [] && init
    {
      entries := [];
      init := true;
    }

    /** TRUE exactly when the head pointer is null. */
    function IsEmpty(): (r: bool)
      reads this
      ensures r <==> |entries| == 0
    {
      |entries| == 0
    }

    /** Frees every entry; a queue that was never set up is left alone. */
    method Flush()
      modifies this
      requires Valid()
      ensures Valid()
      ensures init ==> entries == []
      ensures !init ==> entries == old(entries)
      ensures init == old(init)
    {
      if !init {
        return;
      }
      while |entries| > 0
        invariant Valid() && init == old(init) && init
        decreases |entries|
      {
        entries := entries[1..];
      }
    }

    /** Links a copy of the packet in behind the current tail. */
    method Enqueue(data: Bytes, param: nat)
      modifies this
      requires Valid()
      requires 0 < |data| <= MAX_DATA_SIZE
      ensures Valid()
      ensures init ==> entries == old(entries) + [Entry(data, param)]
      ensures !init ==> entries == old(entries)
      ensures init == old(init)
    {
      if !init {
        return;
      }
      entries := entries + [Entry(data, param)];
    }

    /**
     * Unlinks the head entry, copies its bytes to the front of `buffer` and
     * returns its length and parameter. An empty queue returns length 0 and
     * does not touch the buffer.
     */
    method Dequeue(buffer: array<byte>) returns (n: nat, param: nat)
      modifies this, buffer
      requires Valid()
      requires init && entries != [] ==> |entries[0].data| <= buffer.Length
      ensures Valid() && init == old(init)
      ensures n == 0 <==> !init || old(entries) == []
      ensures n == 0 ==> entries == old(entries) && buffer[..] == old(buffer[..])
      ensures n > 0 ==>
        && old(entries) != []
        && n == |old(entries)[0].data| && param == old(entries)[0].param
        && buffer[..n] == old(entries)[0].data
        && buffer[n..] == old(buffer[n..])
        && entries == old(entries)[1..]
    {
      if !init || |entries| == 0 {
        return 0, 0;
      }
      var e := entries[0];
      entries := entries[1..];
      n := |e.data|;
      param := e.param;
      forall i | 0 <= i < n {
        buffer[i] := e.data[i];
      }
    }
  }

  /** The packets a sequence of dequeues yields, in order. */
  function Payloads(es: seq<Entry>): (r: seq<Bytes>)
    ensures |r| == |es| && forall i :: 0 <= i < |es| ==> r[i] == es[i].data
  {
    if |es| == 0 then [] else [es[0].data] + Payloads(es[1..])
  }

  /**
   * First in, first out: after enqueueing `data` behind `es`, the packets
   * come out as those of `es` followed by `data`.
   */
  lemma {:induction false} PayloadsAppend(es: seq<Entry>, e: Entry)
    ensures Payloads(es + [e]) == Payloads(es) + [e.data]
  {
    if |es| > 0 {
      assert (es + [e])[1..] == es[1..] + [e];
      PayloadsAppend(es[1..], e);
    }
  }
}

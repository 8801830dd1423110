// The HCI layer (src/hci/bthcilayer.cpp): it queues outgoing commands and
// ACL packets and sends them only while the controller has granted credits,
// and it reassembles event and ACL frames from the chunks the transport
// delivers, routing each completed frame to its queue.
module HciLayer {
  import opened Bytes
  import BtQueue
  import AclData
  import HciEvent

  /** `memcpy(buf + at, src, |src|)` on the buffer's contents. */
  function Place(buf: Bytes, at: nat, src: Bytes): (r: Bytes)
    requires at + |src| <= |buf|
    ensures |r| == |buf| && r[at..at + |src|] == src
    ensures r[..at] == buf[..at] && r[at + |src|..] == buf[at + |src|..]
  {
    buf[..at] + src + buf[at + |src|..]
  }

  // ---------------------------------------------------------------------
  // Credit-limited sending

  /**
   * What one send loop did: the packets handed to the transport in order,
   * how many entries it took off the queue, and the credits left.
   */
  datatype SendOutcome = SendOutcome(sent: seq<Bytes>, taken: nat, credits: nat)

  /** Whether the transport accepts the k-th packet offered; offers past the list are accepted. */
  predicate Accepted(results: seq<bool>, k: nat)
  {
    k >= |results| || results[k]
  }

  /**
   * While credits remain and the queue yields a packet, offer it to the
   * transport; an accepted packet costs one credit, a refused one ends the
   * loop and is lost. `k` counts the offers made so far.
   */
  function CreditSend(queue: seq<Bytes>, credits: nat, results: seq<bool>, k: nat): (o: SendOutcome)
    ensures |o.sent| <= o.taken <= |queue|
    decreases |queue|
  {
    if credits == 0 || |queue| == 0 then SendOutcome([], 0, credits)
    else if !Accepted(results, k) then SendOutcome([], 1, credits)
    else
      var o := CreditSend(queue[1..], credits - 1, results, k + 1);
      SendOutcome([queue[0]] + o.sent, o.taken + 1, o.credits)
  }

  /**
   * The credit rule: at most `credits` packets go out, exactly one credit
   * per accepted packet, in queue order; the loop takes one extra packet
   * off the queue only when the transport refused it; and it stops with
   * packets still queued only when the credits ran out or a send failed.
   */
  lemma {:induction false} CreditSendSpec(queue: seq<Bytes>, credits: nat, results: seq<bool>, k: nat)
    ensures var o := CreditSend(queue, credits, results, k);
      && |o.sent| <= o.taken <= |queue|
      && |o.sent| <= credits && o.credits == credits - |o.sent|
      && o.sent == queue[..|o.sent|]
      && (o.taken == |o.sent| || (o.taken == |o.sent| + 1 && !Accepted(results, k + |o.sent|)))
      && (o.taken == |o.sent| ==> o.credits == 0 || o.taken == |queue|)
    decreases |queue|
  {
    if credits > 0 && |queue| > 0 && Accepted(results, k) {
      CreditSendSpec(queue[1..], credits - 1, results, k + 1);
      var o := CreditSend(queue[1..], credits - 1, results, k + 1);
      assert queue[..1 + |o.sent|] == [queue[0]] + queue[1..][..|o.sent|];
    }
  }

  /** With every send accepted, the loop sends min(credits, |queue|) packets. */
  lemma SendAllAccepted(queue: seq<Bytes>, credits: nat, k: nat)
    ensures |CreditSend(queue, credits, [], k).sent| == if credits < |queue| then credits else |queue|
  {
    CreditSendSpec(queue, credits, [], k);
  }

  // ---------------------------------------------------------------------
  // Frame reassembly

  /** Reassembly state: expected frame length, bytes received so far, buffer contents. */
  datatype Reassembly = Reassembly(length: nat, offset: nat, buffer: Bytes)

  /** The result of one chunk: the next state and the frame it completed, if any. */
  datatype Step = Step(next: Reassembly, frame: Option<Bytes>)

  ghost predicate Idle(r: Reassembly)
  {
    r.length == 0 && r.offset == 0
  }

  predicate EventReady(r: Reassembly)
  {
    |r.buffer| == MAX_HCI_EVENT_SIZE && r.length <= |r.buffer|
    && ((r.offset == 0 && r.length == 0) || 0 < r.offset < r.length)
  }

  /**
   * One event chunk: a first chunk shorter than the 2-byte header is
   * dropped; otherwise a first chunk fixes the length at 2 +
   * ParameterTotalLength, the chunk is copied behind the bytes received so
   * far, and once they reach the length the frame is complete.
   */
  function EventStep(r: Reassembly, chunk: Bytes): (s: Step)
    requires EventReady(r) && |chunk| > 0 && r.offset + |chunk| <= |r.buffer|
    ensures EventReady(s.next) && |s.next.buffer| == |r.buffer|
    ensures r.offset == 0 && |chunk| < HciEvent.HEADER_SIZE ==> s == Step(r, None)
    ensures !(r.offset == 0 && |chunk| < HciEvent.HEADER_SIZE) ==>
      var length := if r.offset == 0 then HciEvent.HEADER_SIZE + chunk[1] else r.length;
      var received := r.buffer[..r.offset] + chunk;
      && (s.frame.Some? <==> |received| >= length)
      && (s.frame.Some? ==> s.frame.value == received[..length] && s.next.offset == 0 && s.next.length == 0)
      && (s.frame.None? ==> s.next.offset == |received| && s.next.length == length
                            && s.next.buffer[..s.next.offset] == received)
  {
    if r.offset == 0 && |chunk| < HciEvent.HEADER_SIZE then Step(r, None)
    else
      var length := if r.offset == 0 then HciEvent.HEADER_SIZE + chunk[1] else r.length;
      var buffer := Place(r.buffer, r.offset, chunk);
      var offset := r.offset + |chunk|;
      assert buffer[..offset] == r.buffer[..r.offset] + chunk;
      if offset < length then Step(Reassembly(length, offset, buffer), None)
      else Step(Reassembly(0, 0, buffer), Some(buffer[..length]))
  }

  /** DataStep on a chunk that is not dropped: the copied bytes placed at the offset, then the length check. */
  lemma DataStepCopies(r: Reassembly, chunk: Bytes, length: nat, copied: Bytes)
    requires DataReady(r) && DataChunkFits(r, chunk) && !(r.offset == 0 && |chunk| < AclData.HEADER_SIZE)
    requires length == if r.offset == 0 then AclData.HEADER_SIZE + ReadLE16(chunk, 2) else r.length
    requires copied == if (r.buffer[1] / 0x10) % 4 == AclData.CONTINUING_FRAGMENT_PACKET
                       then chunk[AclData.HEADER_SIZE..] else chunk
    ensures copied == Copied(r, chunk) && r.offset + |copied| <= |r.buffer|
    ensures var buffer := Place(r.buffer, r.offset, copied);
      var offset := r.offset + |copied|;
      DataStep(r, chunk) == if offset < length then Step(Reassembly(length, offset, buffer), None)
                            else Step(Reassembly(0, 0, buffer), Some(buffer[..length]))
  {
  }

  /** An event frame fed as two chunks comes out as the first bytes of their concatenation. */
  lemma EventTwoChunks(r: Reassembly, c1: Bytes, c2: Bytes)
    requires EventReady(r) && Idle(r)
    requires HciEvent.HEADER_SIZE <= |c1| < HciEvent.HEADER_SIZE + c1[1]
    requires |c2| > 0 && |c1| + |c2| <= MAX_HCI_EVENT_SIZE
    requires |c1| + |c2| >= HciEvent.HEADER_SIZE + c1[1]
    ensures var s1 := EventStep(r, c1);
      s1.frame == None
      && EventStep(s1.next, c2).frame == Some((c1 + c2)[..HciEvent.HEADER_SIZE + c1[1]])
      && Idle(EventStep(s1.next, c2).next)
  {
    var s1 := EventStep(r, c1);
    assert r.buffer[..0] + c1 == c1;
  }

  /** Command Complete and Command Status go to the device manager; every other event to the link layer. */
  predicate IsDeviceEvent(frame: Bytes)
    requires |frame| > 0
  {
    frame[0] == HciEvent.EVENT_COMMAND_COMPLETE || frame[0] == HciEvent.EVENT_COMMAND_STATUS
  }

  predicate DataReady(r: Reassembly)
  {
    |r.buffer| == MAX_DATA_SIZE && r.length <= |r.buffer|
    && ((r.offset == 0 && r.length == 0) || 0 < r.offset < r.length)
  }

  /** The bytes of a chunk that are copied: a continuing fragment without its header. */
  function Copied(r: Reassembly, chunk: Bytes): Bytes
    requires |r.buffer| >= 2
  {
    if AclData.BoundaryFlag(r.buffer) == AclData.CONTINUING_FRAGMENT_PACKET && |chunk| >= AclData.HEADER_SIZE
    then chunk[AclData.HEADER_SIZE..]
    else chunk
  }

  /**
   * What one data chunk needs to be handled without overrunning the buffer:
   * a header whose DataTotalLength fits the 258-byte buffer, at least a
   * header's worth of bytes when the boundary flag in the buffer says
   * "continuing", and room for the copied bytes. A first chunk must also
   * leave something behind, or the next chunk would find a length set with
   * nothing received (the handler asserts that cannot happen).
   */
  predicate DataChunkFits(r: Reassembly, chunk: Bytes)
    requires DataReady(r)
  {
    0 < |chunk|
    && (r.offset > 0 || |Copied(r, chunk)| > 0)
    && (r.offset == 0 && |chunk| >= AclData.HEADER_SIZE ==>
          AclLengthFits(ReadLE16(chunk, 2)))
    && (!(r.offset == 0 && |chunk| < AclData.HEADER_SIZE) ==>
          && (AclData.BoundaryFlag(r.buffer) == AclData.CONTINUING_FRAGMENT_PACKET ==> |chunk| >= AclData.HEADER_SIZE)
          && r.offset + |Copied(r, chunk)| <= |r.buffer|)
  }

  /**
   * One ACL chunk as the handler processes it: the boundary flag is read
   * from the header already in the reassembly buffer, not from the chunk.
   */
  function DataStep(r: Reassembly, chunk: Bytes): (s: Step)
    requires DataReady(r) && DataChunkFits(r, chunk)
    ensures DataReady(s.next)
    ensures r.offset == 0 && |chunk| < AclData.HEADER_SIZE ==> s == Step(r, None)
    ensures !(r.offset == 0 && |chunk| < AclData.HEADER_SIZE) ==>
      var length := if r.offset == 0 then AclData.HEADER_SIZE + ReadLE16(chunk, 2) else r.length;
      var received := r.buffer[..r.offset] + Copied(r, chunk);
      && (s.frame.Some? <==> |received| >= length)
      && (s.frame.Some? ==> s.frame.value == received[..length] && s.next.offset == 0 && s.next.length == 0)
      && (s.frame.None? ==> s.next.offset == |received| && s.next.length == length
                            && s.next.buffer[..s.next.offset] == received)
  {
    if r.offset == 0 && |chunk| < AclData.HEADER_SIZE then Step(r, None)
    else
      var length := if r.offset == 0 then AclData.HEADER_SIZE + ReadLE16(chunk, 2) else r.length;
      var copied := Copied(r, chunk);
      var buffer := Place(r.buffer, r.offset, copied);
      var offset := r.offset + |copied|;
      assert buffer[..offset] == r.buffer[..r.offset] + copied;
      if offset < length then Step(Reassembly(length, offset, buffer), None)
      else Step(Reassembly(0, 0, buffer), Some(buffer[..length]))
  }

  // The handler asserts DataTotalLength <= 258, but the frame it then
  // assembles is 4 + DataTotalLength bytes in a 258-byte buffer and is queued
  // in 258-byte entries.

  /** The bound the handler asserts on DataTotalLength. */
  predicate AclLengthAssertedAsWritten(dataTotalLength: nat)
  {
    dataTotalLength <= MAX_DATA_SIZE
  }

  /** The bound the buffer needs: the whole frame, header included, fits. */
  predicate AclLengthFits(dataTotalLength: nat)
  {
    AclData.HEADER_SIZE + dataTotalLength <= MAX_DATA_SIZE
  }

  /** DataTotalLength 258 passes the assertion, yet its 262-byte frame overruns the buffer. */
  lemma AclLengthAssertionTooWeak()
    ensures AclLengthAssertedAsWritten(258) && !AclLengthFits(258)
  {
  }

  /** Every length the corrected bound admits also passes the handler's assertion. */
  lemma AclLengthFitsImpliesAsserted(dataTotalLength: nat)
    requires AclLengthFits(dataTotalLength)
    ensures AclLengthAssertedAsWritten(dataTotalLength)
    ensures AclData.HEADER_SIZE + dataTotalLength <= MAX_DATA_SIZE
  {
  }

  // ---------------------------------------------------------------------
  // The layer

  /** The outcome so far, followed by what the rest of the loop does. */
  function Join(sent: seq<Bytes>, o: SendOutcome): SendOutcome
  {
    SendOutcome(sent + o.sent, |sent| + o.taken, o.credits)
  }

  /** One accepted send moves a packet from the rest of the loop to the outcome so far. */
  lemma JoinStep(sent: seq<Bytes>, q: seq<Bytes>, credits: nat, results: seq<bool>)
    requires credits > 0 && |q| > 0 && Accepted(results, |sent|)
    ensures Join(sent, CreditSend(q, credits, results, |sent|))
      == Join(sent + [q[0]], CreditSend(q[1..], credits - 1, results, |sent| + 1))
  {
    var o := CreditSend(q[1..], credits - 1, results, |sent| + 1);
    assert (sent + [q[0]]) + o.sent == sent + ([q[0]] + o.sent);
  }

  /**
   * A send loop of `Process`: while `credits` remain, dequeue a packet into
   * `buffer` and offer it to the transport; a refusal ends the loop without
   * spending a credit, and the dequeued packet is lost.
   */
  method SendWhileCredits(queue: BtQueue.Queue, buffer: array<byte>, credits: nat, results: seq<bool>)
    returns (sent: seq<Bytes>, left: nat)
    modifies queue, buffer
    requires queue.Valid() && queue.init && buffer.Length >= MAX_DATA_SIZE
    ensures queue.Valid() && queue.init
    ensures var o := CreditSend(BtQueue.Payloads(old(queue.entries)), credits, results, 0);
      && sent == o.sent && left == o.credits
      && queue.entries == old(queue.entries)[o.taken..]
  {
    ghost var entries0 := queue.entries;
    ghost var goal := CreditSend(BtQueue.Payloads(entries0), credits, results, 0);
    sent, left := [], credits;
    assert Sending(goal, entries0, queue.entries, sent, left, results) by {
      assert entries0[0..] == entries0 && [] + goal.sent == goal.sent;
    }
    var more := true;
    while more && left > 0
      invariant queue.Valid() && queue.init
      invariant more ==> Sending(goal, entries0, queue.entries, sent, left, results)
      invariant !more ==> queue.entries == entries0[goal.taken..] && sent == goal.sent && left == goal.credits
      decreases |queue.entries|, more
    {
      more, sent, left := SendOne(queue, buffer, results, entries0, goal, sent, left);
    }
    if more {
      SendingSpent(goal, entries0, queue.entries, sent, results);
    }
  }

  /** With no credit left the loop has reached its outcome. */
  lemma SendingSpent(goal: SendOutcome, entries0: seq<BtQueue.Entry>, entries: seq<BtQueue.Entry>,
                     sent: seq<Bytes>, results: seq<bool>)
    requires Sending(goal, entries0, entries, sent, 0, results)
    ensures entries == entries0[goal.taken..] && sent == goal.sent && 0 == goal.credits
  {
    assert sent + [] == sent;
  }

  /** Where the send loop stands: `sent` so far, and the rest of the run still to come from the queue. */
  ghost predicate Sending(goal: SendOutcome, entries0: seq<BtQueue.Entry>, entries: seq<BtQueue.Entry>,
                          sent: seq<Bytes>, left: nat, results: seq<bool>)
  {
    |sent| <= |entries0| && entries == entries0[|sent|..]
    && goal == Join(sent, CreditSend(BtQueue.Payloads(entries), left, results, |sent|))
  }

  /** One turn of the send loop; FALSE once the queue is empty or the transport refused. */
  method SendOne(queue: BtQueue.Queue, buffer: array<byte>, results: seq<bool>, ghost entries0: seq<BtQueue.Entry>,
                 ghost goal: SendOutcome, sent: seq<Bytes>, left: nat) returns (more: bool, sent1: seq<Bytes>, left1: nat)
    modifies queue, buffer
    requires queue.Valid() && queue.init && buffer.Length >= MAX_DATA_SIZE && left > 0
    requires Sending(goal, entries0, queue.entries, sent, left, results)
    ensures queue.Valid() && queue.init
    ensures more ==> Sending(goal, entries0, queue.entries, sent1, left1, results) && |queue.entries| < old(|queue.entries|)
    ensures !more ==> queue.entries == entries0[goal.taken..] && sent1 == goal.sent && left1 == goal.credits
  {
    ghost var q := BtQueue.Payloads(queue.entries);
    var n, _ := queue.Dequeue(buffer);
    sent1, left1 := sent, left;
    if n == 0 {
      return false, sent1, left1;
    }
    assert q[0] == buffer[..n] && q[1..] == BtQueue.Payloads(queue.entries);
    if !Accepted(results, |sent|) {
      return false, sent1, left1;
    }
    JoinStep(sent, q, left, results);
    sent1 := sent + [buffer[..n]];
    left1 := left - 1;
    more := true;
    if left1 == 0 {
      more := false;
    }
  }

  /** `memcpy(a + at, src, |src|)`. */
  method CopyInto(a: array<byte>, at: nat, src: Bytes)
    modifies a
    requires at + |src| <= a.Length
    ensures a[..] == Place(old(a[..]), at, src)
  {
    forall i | 0 <= i < |src| {
      a[at + i] := src[i];
    }
    assert a[..] == old(a[..])[..at] + src + old(a[..])[at + |src|..];
  }

  class Layer {
    const commandQueue: BtQueue.Queue
    const txDataQueue: BtQueue.Queue
    const deviceEventQueue: BtQueue.Queue
    const linkEventQueue: BtQueue.Queue
    const rxDataQueue: BtQueue.Queue
    /** `m_pBuffer`: where the send loops dequeue into. */
    const buffer: array<byte>
    const eventBuffer: array<byte>
    const dataBuffer: array<byte>
    var eventLength: nat
    var eventOffset: nat
    var dataLength: nat
    var dataOffset: nat
    var commandPackets: nat
    var dataPackets: nat

    ghost predicate QueuesDistinct()
      reads this
    {
      && commandQueue != txDataQueue && commandQueue != deviceEventQueue
      && commandQueue != linkEventQueue && commandQueue != rxDataQueue
      && txDataQueue != deviceEventQueue && txDataQueue != linkEventQueue
      && txDataQueue != rxDataQueue && deviceEventQueue != linkEventQueue
      && deviceEventQueue != rxDataQueue && linkEventQueue != rxDataQueue
    }

    /** The five queues are distinct, set up and hold only well-sized entries. */
    ghost predicate QueuesValid()
      reads this, commandQueue, txDataQueue, deviceEventQueue, linkEventQueue, rxDataQueue
    {
      && QueuesDistinct()
      && commandQueue.Valid() && commandQueue.init
      && txDataQueue.Valid() && txDataQueue.init
      && deviceEventQueue.Valid() && deviceEventQueue.init
      && linkEventQueue.Valid() && linkEventQueue.init
      && rxDataQueue.Valid() && rxDataQueue.init
    }

    ghost predicate Valid()
      reads this, commandQueue, txDataQueue, deviceEventQueue, linkEventQueue, rxDataQueue
      reads eventBuffer, dataBuffer
    {
      && QueuesValid()
      && buffer.Length == MAX_DATA_SIZE
      && eventBuffer.Length == MAX_HCI_EVENT_SIZE
      && dataBuffer.Length == MAX_DATA_SIZE
      && buffer != dataBuffer && buffer != eventBuffer && eventBuffer != dataBuffer
      && EventReady(Reassembly(eventLength, eventOffset, eventBuffer[..]))
      && DataReady(Reassembly(dataLength, dataOffset, dataBuffer[..]))
    }

    function EventState(): Reassembly
      reads this, eventBuffer
    {
      Reassembly(eventLength, eventOffset, eventBuffer[..])
    }

    function DataState(): Reassembly
      reads this, dataBuffer
    {
      Reassembly(dataLength, dataOffset, dataBuffer[..])
    }

    /** Both credits start at 1 and nothing is queued or half assembled. */
    constructor ()
      ensures Valid()
      ensures commandPackets == 1 && dataPackets == 1
      ensures Idle(EventState()) && Idle(DataState())
      ensures commandQueue.entries == [] && txDataQueue.entries == [] && deviceEventQueue.entries == []
      ensures linkEventQueue.entries == [] && rxDataQueue.entries == []
      ensures fresh(commandQueue) && fresh(txDataQueue) && fresh(deviceEventQueue)
      ensures fresh(linkEventQueue) && fresh(rxDataQueue)
      ensures fresh(buffer) && fresh(eventBuffer) && fresh(dataBuffer)
    {
      commandQueue := new BtQueue.Queue();
      txDataQueue := new BtQueue.Queue();
      deviceEventQueue := new BtQueue.Queue();
      linkEventQueue := new BtQueue.Queue();
      rxDataQueue := new BtQueue.Queue();
      buffer := new byte[MAX_DATA_SIZE](_ => 0);
      eventBuffer := new byte[MAX_HCI_EVENT_SIZE](_ => 0);
      dataBuffer := new byte[MAX_DATA_SIZE](_ => 0);
      eventLength, eventOffset, dataLength, dataOffset := 0, 0, 0, 0;
      commandPackets, dataPackets := 1, 1;
    }

    method SendCommand(frame: Bytes)
      modifies commandQueue
      requires Valid() && 0 < |frame| <= MAX_DATA_SIZE
      ensures Valid()
      ensures commandQueue.entries == old(commandQueue.entries) + [BtQueue.Entry(frame, 0)]
    {
      commandQueue.Enqueue(frame, 0);
    }

    method SendData(frame: Bytes)
      modifies txDataQueue
      requires Valid() && 0 < |frame| <= MAX_DATA_SIZE
      ensures Valid()
      ensures txDataQueue.entries == old(txDataQueue.entries) + [BtQueue.Entry(frame, 0)]
    {
      txDataQueue.Enqueue(frame, 0);
    }

    /** Credits granted by the controller add to those left; they never overwrite them. */
    method SetCommandPackets(n: nat)
      modifies this
      requires Valid()
      ensures Valid() && commandPackets == old(commandPackets) + n
      ensures dataPackets == old(dataPackets) && EventState() == old(EventState()) && DataState() == old(DataState())
    {
      commandPackets := commandPackets + n;
    }

    method SetDataPackets(n: nat)
      modifies this
      requires Valid()
      ensures Valid() && dataPackets == old(dataPackets) + n
      ensures commandPackets == old(commandPackets) && EventState() == old(EventState()) && DataState() == old(DataState())
    {
      dataPackets := dataPackets + n;
    }

    /**
     * The command loop of `Process`: `results[k]` is what the transport
     * answers to the k-th command offered.
     */
    method SendCommands(results: seq<bool>) returns (sent: seq<Bytes>)
      modifies this, commandQueue, buffer
      requires Valid()
      ensures Valid()
      ensures var o := CreditSend(BtQueue.Payloads(old(commandQueue.entries)), old(commandPackets), results, 0);
        && sent == o.sent && commandPackets == o.credits
        && commandQueue.entries == old(commandQueue.entries)[o.taken..]
      ensures dataPackets == old(dataPackets) && EventState() == old(EventState()) && DataState() == old(DataState())
    {
      sent, commandPackets := SendWhileCredits(commandQueue, buffer, commandPackets, results);
    }

    /** The data loop of `Process`, under the same rule with the data credits. */
    method SendDataPackets(results: seq<bool>) returns (sent: seq<Bytes>)
      modifies this, txDataQueue, buffer
      requires Valid()
      ensures Valid()
      ensures var o := CreditSend(BtQueue.Payloads(old(txDataQueue.entries)), old(dataPackets), results, 0);
        && sent == o.sent && dataPackets == o.credits
        && txDataQueue.entries == old(txDataQueue.entries)[o.taken..]
      ensures commandPackets == old(commandPackets) && EventState() == old(EventState()) && DataState() == old(DataState())
    {
      sent, dataPackets := SendWhileCredits(txDataQueue, buffer, dataPackets, results);
    }

    /** Hands the transport one chunk of an event frame. */
    method EventHandler(chunk: Bytes)
      modifies this, eventBuffer, deviceEventQueue, linkEventQueue
      requires Valid() && |chunk| > 0 && eventOffset + |chunk| <= MAX_HCI_EVENT_SIZE
      ensures Valid()
      ensures var s := EventStep(old(EventState()), chunk);
        && EventState() == s.next
        && deviceEventQueue.entries == old(deviceEventQueue.entries)
             + (if s.frame.Some? && IsDeviceEvent(s.frame.value) then [BtQueue.Entry(s.frame.value, 0)] else [])
        && linkEventQueue.entries == old(linkEventQueue.entries)
             + (if s.frame.Some? && !IsDeviceEvent(s.frame.value) then [BtQueue.Entry(s.frame.value, 0)] else [])
      ensures commandPackets == old(commandPackets) && dataPackets == old(dataPackets)
      ensures DataState() == old(DataState())
    {
      var frame := Assemble(chunk);
      if frame.Some? {
        Route(frame.value);
      }
    }

    /** The reassembly half of EventHandler: the chunk copied in, and the frame it completes, if any. */
    method Assemble(chunk: Bytes) returns (frame: Option<Bytes>)
      modifies this, eventBuffer
      requires Valid() && |chunk| > 0 && eventOffset + |chunk| <= MAX_HCI_EVENT_SIZE
      ensures Valid()
      ensures var s := EventStep(old(EventState()), chunk);
        EventState() == s.next && frame == s.frame
      ensures frame.Some? ==> 0 < |frame.value| <= MAX_HCI_EVENT_SIZE
      ensures deviceEventQueue.entries == old(deviceEventQueue.entries)
      ensures linkEventQueue.entries == old(linkEventQueue.entries)
      ensures commandPackets == old(commandPackets) && dataPackets == old(dataPackets)
      ensures DataState() == old(DataState())
    {
      ghost var s := EventStep(EventState(), chunk);
      frame := None;
      if eventOffset > 0 || |chunk| >= HciEvent.HEADER_SIZE {
        var length := if eventOffset == 0 then HciEvent.HEADER_SIZE + chunk[1] else eventLength;
        CopyInto(eventBuffer, eventOffset, chunk);
        var offset := eventOffset + |chunk|;
        if offset < length {
          eventLength, eventOffset := length, offset;
        } else {
          frame := Some(eventBuffer[..length]);
          eventLength, eventOffset := 0, 0;
        }
      }
      assert EventState() == s.next && frame == s.frame;
    }

    /** Queues a completed event frame for the device manager or the link layer by its code. */
    method Route(frame: Bytes)
      modifies deviceEventQueue, linkEventQueue
      requires QueuesValid() && 0 < |frame| <= MAX_HCI_EVENT_SIZE
      ensures QueuesValid()
      ensures deviceEventQueue.entries == old(deviceEventQueue.entries)
        + (if IsDeviceEvent(frame) then [BtQueue.Entry(frame, 0)] else [])
      ensures linkEventQueue.entries == old(linkEventQueue.entries)
        + (if IsDeviceEvent(frame) then [] else [BtQueue.Entry(frame, 0)])
    {
      if frame[0] == HciEvent.EVENT_COMMAND_COMPLETE || frame[0] == HciEvent.EVENT_COMMAND_STATUS {
        deviceEventQueue.Enqueue(frame, 0);
      } else {
        linkEventQueue.Enqueue(frame, 0);
      }
    }

    /** Hands the transport one chunk of an ACL frame. */
    method DataHandler(chunk: Bytes)
      modifies this, dataBuffer, rxDataQueue
      requires Valid() && DataChunkFits(DataState(), chunk)
      ensures Valid()
      ensures var s := DataStep(old(DataState()), chunk);
        && DataState() == s.next
        && rxDataQueue.entries == old(rxDataQueue.entries)
             + (if s.frame.Some? then [BtQueue.Entry(s.frame.value, 0)] else [])
      ensures commandPackets == old(commandPackets) && dataPackets == old(dataPackets)
      ensures EventState() == old(EventState())
    {
      var frame := Reassemble(chunk);
      if frame.Some? {
        QueueData(frame.value);
      }
    }

    /** The reassembly half of DataHandler: the chunk copied in, and the frame it completes, if any. */
    method Reassemble(chunk: Bytes) returns (frame: Option<Bytes>)
      modifies this, dataBuffer
      requires Valid() && DataChunkFits(DataState(), chunk)
      ensures Valid() && rxDataQueue.entries == old(rxDataQueue.entries)
      ensures var s := DataStep(old(DataState()), chunk);
        DataState() == s.next && frame == s.frame
      ensures frame.Some? ==> 0 < |frame.value| <= MAX_DATA_SIZE
      ensures commandPackets == old(commandPackets) && dataPackets == old(dataPackets)
      ensures EventState() == old(EventState())
    {
      ghost var s := DataStep(DataState(), chunk);
      frame := None;
      if dataOffset > 0 || |chunk| >= AclData.HEADER_SIZE {
        var length := if dataOffset == 0 then AclData.HEADER_SIZE + ReadLE16(chunk, 2) else dataLength;
        var copied := chunk;
        if (dataBuffer[1] / 0x10) % 4 == AclData.CONTINUING_FRAGMENT_PACKET {
          copied := chunk[AclData.HEADER_SIZE..];
        }
        DataStepCopies(DataState(), chunk, length, copied);
        CopyInto(dataBuffer, dataOffset, copied);
        var offset := dataOffset + |copied|;
        if offset < length {
          dataLength, dataOffset := length, offset;
        } else {
          frame := Some(dataBuffer[..length]);
          dataLength, dataOffset := 0, 0;
        }
      }
      assert DataState() == s.next && frame == s.frame;
    }

    /** The queueing half of DataHandler: the completed frame joins the received-data queue. */
    method QueueData(frame: Bytes)
      modifies rxDataQueue
      requires Valid() && 0 < |frame| <= MAX_DATA_SIZE
      ensures Valid() && rxDataQueue.entries == old(rxDataQueue.entries) + [BtQueue.Entry(frame, 0)]
    {
      rxDataQueue.Enqueue(frame, 0);
    }

    /** TRUE with the frame's length exactly when a link event was queued. */
    method ReceiveLinkEvent(out: array<byte>) returns (ok: bool, n: nat)
      modifies linkEventQueue, out
      requires Valid() && out.Length >= MAX_DATA_SIZE
      ensures Valid()
      ensures ok <==> old(linkEventQueue.entries) != []
      ensures ok ==> n == |old(linkEventQueue.entries)[0].data| && out[..n] == old(linkEventQueue.entries)[0].data
                     && linkEventQueue.entries == old(linkEventQueue.entries)[1..]
      ensures !ok ==> linkEventQueue.entries == old(linkEventQueue.entries)
    {
      var length, _ := linkEventQueue.Dequeue(out);
      ok := length > 0;
      n := length;
    }

    /** TRUE with the frame's length exactly when a received ACL frame was queued. */
    method ReceiveData(out: array<byte>) returns (ok: bool, n: nat)
      modifies rxDataQueue, out
      requires Valid() && out.Length >= MAX_DATA_SIZE
      ensures Valid()
      ensures ok <==> old(rxDataQueue.entries) != []
      ensures ok ==> n == |old(rxDataQueue.entries)[0].data| && out[..n] == old(rxDataQueue.entries)[0].data
                     && rxDataQueue.entries == old(rxDataQueue.entries)[1..]
      ensures !ok ==> rxDataQueue.entries == old(rxDataQueue.entries)
    {
      var length, _ := rxDataQueue.Dequeue(out);
      ok := length > 0;
      n := length;
    }
  }

  // ---------------------------------------------------------------------
  // The boundary flag the data handler switches on is the one in its
  // buffer, i.e. the header of the previous frame's first packet while a
  // new frame starts, and that of the current frame's first packet after.

  function IntendedCopied(chunk: Bytes): Bytes
    requires |chunk| >= AclData.HEADER_SIZE
  {
    if AclData.BoundaryFlag(chunk) == AclData.CONTINUING_FRAGMENT_PACKET
    then chunk[AclData.HEADER_SIZE..] else chunk
  }

  /** The intended step: the flag is read from the incoming chunk. */
  function DataStepIntended(r: Reassembly, chunk: Bytes): (s: Step)
    requires DataReady(r) && 0 < |chunk|
    requires r.offset == 0 && |chunk| >= AclData.HEADER_SIZE ==> AclLengthFits(ReadLE16(chunk, 2))
    requires |chunk| >= AclData.HEADER_SIZE
    requires r.offset + |IntendedCopied(chunk)| <= |r.buffer|
    requires r.offset > 0 || |IntendedCopied(chunk)| > 0
    ensures DataReady(s.next)
  {
    var length := if r.offset == 0 then AclData.HEADER_SIZE + ReadLE16(chunk, 2) else r.length;
    var copied := IntendedCopied(chunk);
    var buffer := Place(r.buffer, r.offset, copied);
    var offset := r.offset + |copied|;
    if offset < length then Step(Reassembly(length, offset, buffer), None)
    else Step(Reassembly(0, 0, buffer), Some(buffer[..length]))
  }

  /**
   * With the flag read from the chunk, a first packet followed by a
   * continuing fragment yields the first packet followed by the fragment's
   * payload.
   */
  lemma IntendedReassembly(r: Reassembly, first: Bytes, cont: Bytes)
    requires DataReady(r) && Idle(r)
    requires |first| >= AclData.HEADER_SIZE && AclData.BoundaryFlag(first) == AclData.FIRST_PACKET
    requires AclLengthFits(ReadLE16(first, 2))
    requires |first| < AclData.HEADER_SIZE + ReadLE16(first, 2)
    requires |cont| >= AclData.HEADER_SIZE && AclData.BoundaryFlag(cont) == AclData.CONTINUING_FRAGMENT_PACKET
    requires |first| + |cont| - AclData.HEADER_SIZE == AclData.HEADER_SIZE + ReadLE16(first, 2)
    ensures var s1 := DataStepIntended(r, first);
      s1.frame == None && DataStepIntended(s1.next, cont).frame == Some(first + cont[AclData.HEADER_SIZE..])
  {
    var s1 := DataStepIntended(r, first);
    assert s1.next.buffer[..|first|] == first;
    var s2 := DataStepIntended(s1.next, cont);
    var whole := Place(s1.next.buffer, |first|, cont[AclData.HEADER_SIZE..]);
    assert whole[..|first|] == first;
    assert whole[..|first| + |cont| - AclData.HEADER_SIZE] == first + cont[AclData.HEADER_SIZE..];
  }

  const FirstFragment: Bytes := [0x01, 0x20, 0x02, 0x00, 0xAA]
  const ContinuingFragment: Bytes := [0x01, 0x10, 0x01, 0x00, 0xBB]

  /**
   * As written, a frame sent as a first packet (handle 1, two payload
   * bytes, one carried) and a continuing fragment carrying the other byte
   * is assembled with the fragment's header byte in place of its payload.
   */
  lemma StaleBoundaryFlag()
    ensures var r := Reassembly(0, 0, Zeros(MAX_DATA_SIZE));
      var s1 := DataStep(r, FirstFragment);
      && s1.frame == None
      && DataChunkFits(s1.next, ContinuingFragment)
      && DataStep(s1.next, ContinuingFragment).frame == Some([0x01, 0x20, 0x02, 0x00, 0xAA, 0x01])
      && FirstFragment + ContinuingFragment[AclData.HEADER_SIZE..] == [0x01, 0x20, 0x02, 0x00, 0xAA, 0xBB]
  {
    var r := Reassembly(0, 0, Zeros(MAX_DATA_SIZE));
    assert AclData.BoundaryFlag(r.buffer) == 0;
    assert Copied(r, FirstFragment) == FirstFragment;
    var s1 := DataStep(r, FirstFragment);
    assert s1.next.buffer[..5] == FirstFragment;
    assert AclData.BoundaryFlag(s1.next.buffer) == AclData.FIRST_PACKET;
    assert Copied(s1.next, ContinuingFragment) == ContinuingFragment;
    var s2 := DataStep(s1.next, ContinuingFragment);
    assert (FirstFragment + ContinuingFragment)[..6] == [0x01, 0x20, 0x02, 0x00, 0xAA, 0x01];
  }
}

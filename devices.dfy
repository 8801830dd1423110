// The device objects of src/common/btdevice.cpp, src/hidp/bthidp.cpp
// (CBTHIDDevice) and src/hidp/btmouse.cpp (CBTMouse) as one class: which
// of the three classes `CreateDevice` instantiated is the `kind`, and the
// virtual `Parser` and `Connect` dispatch on it. A device points to its
// connection, here the connection's id in the logical layer's heap; the
// HID part keeps the control and interrupt CIDs and the event queue, the
// mouse part the fields of `Mouse.Fields`.
module Devices {
  import opened Bytes
  import Mouse
  import BtQueue
  import Connection
  import Logical
  import L2cap
  import L2capLayer

  /** TBTDeviceConnectionState; the reserved values are never set. */
  datatype DeviceState = Idle | Connected | Connecting

  /** The class a device was made as. */
  datatype Kind = Generic | Hid | MouseDevice

  /** A device's connection state with the CIDs of its control and interrupt channels. */
  datatype Links = Links(state: DeviceState, controlCid: u16, interruptCid: u16)

  /** The queue record of each event a mouse posts. */
  function Records(events: seq<Mouse.UiEvent>): (r: seq<BtQueue.Entry>)
    ensures |r| == |events|
    ensures forall i :: 0 <= i < |r| ==> r[i] == BtQueue.Entry(Mouse.Encode(events[i]), 0)
  {
    if |events| == 0 then [] else [BtQueue.Entry(Mouse.Encode(events[0]), 0)] + Records(events[1..])
  }

  /** Every queued record reads back as a mouse event. */
  predicate AllDecode(entries: seq<BtQueue.Entry>)
  {
    forall i :: 0 <= i < |entries| ==> Mouse.Decode(entries[i].data).Some?
  }

  class Device {
    const kind: Kind
    /** The device's number, which the connection's back-link holds. */
    const id: nat
    /** `m_pConnection`: the connection's id in the logical layer. */
    const conn: nat
    var state: DeviceState
    var controlCid: u16
    var interruptCid: u16
    /** `m_EventQueue`. */
    const events: BtQueue.Queue
    // CBTMouse's fields.
    var x: u16
    var y: u16
    var scroll: u16
    var left: bool
    var right: bool
    var wheel: bool
    var gesture: Option<Mouse.Gesture>
    var count: u16

    /** The mouse fields as one value. */
    function Pointer(): Mouse.Fields
      reads this
    {
      Mouse.Fields(x, y, scroll, left, right, wheel, gesture, count)
    }

    /** The state and the two CIDs as one value. */
    function Channels(): Links
      reads this
    {
      Links(state, controlCid, interruptCid)
    }

    ghost predicate Valid()
      reads this, events
    {
      events.Valid() && events.init
    }

    /**
     * A new device is Idle with no channels and an empty queue, a mouse
     * starts at its initial fields, and the connection's back-link now
     * names the device.
     */
    constructor (kind: Kind, id: nat, conn: nat, links: Logical.Layer)
      modifies links
      requires links.Valid() && conn in links.heap
      ensures Valid() && fresh(events) && events.entries == []
      ensures this.kind == kind && this.id == id && this.conn == conn
      ensures state == Idle && controlCid == 0 && interruptCid == 0
      ensures Pointer() == Mouse.Initial()
      ensures links.Valid() && links.inquiry == old(links.inquiry)
      ensures links.Abs() == old(links.Abs()).(heap := old(links.heap)[conn := old(links.heap)[conn].(device := id)])
    {
      this.kind := kind;
      this.id := id;
      this.conn := conn;
      state := Idle;
      controlCid := 0;
      interruptCid := 0;
      events := new BtQueue.Queue();
      x, y, scroll := Mouse.START_X, Mouse.START_Y, Mouse.START_SCROLL;
      left, right, wheel := false, false, false;
      gesture := None;
      count := 0;
      new;
      links.Store(conn, links.heap[conn].(device := id));
    }

    /** `IsConnecting`: the state is Connecting. */
    predicate IsConnecting()
      reads this
    {
      state == Connecting
    }

    /** The class predicates read the connection's class of device. */
    predicate IsMouse(heap: map<nat, Connection.Conn>)
      reads this
      requires conn in heap
    {
      Connection.IsMouse(heap[conn])
    }

    predicate IsKeyboard(heap: map<nat, Connection.Conn>)
      reads this
      requires conn in heap
    {
      Connection.IsKeyboard(heap[conn])
    }

    predicate IsJoystick(heap: map<nat, Connection.Conn>)
      reads this
      requires conn in heap
    {
      Connection.IsJoystick(heap[conn])
    }

    predicate IsComputer(heap: map<nat, Connection.Conn>)
      reads this
      requires conn in heap
    {
      Connection.IsComputer(heap[conn])
    }

    /**
     * Mouse, keyboard and joystick are values of the same minor-class
     * field, so at most one of them holds for a device.
     */
    lemma TypesExclusive(heap: map<nat, Connection.Conn>)
      requires conn in heap
      ensures IsMouse(heap) ==> !IsKeyboard(heap) && !IsJoystick(heap)
      ensures IsKeyboard(heap) ==> !IsJoystick(heap)
    {
    }

    /** `SetState` overwrites the state and nothing else. */
    method SetState(s: DeviceState)
      modifies this
      ensures state == s
      ensures Pointer() == old(Pointer()) && controlCid == old(controlCid) && interruptCid == old(interruptCid)
    {
      state := s;
    }

    /**
     * `SetControlCID`: the channel held before is deleted from the L2CAP
     * layer's list when it is set and differs from the new one; then the
     * new CID is kept.
     */
    method SetControlCID(cid: u16, l2cap: L2capLayer.Layer)
      modifies this, l2cap.channels, l2cap.channels.storage
      requires l2cap.Valid()
      ensures l2cap.Valid() && controlCid == cid
      ensures l2cap.Abs() == if old(controlCid) != 0 && old(controlCid) != cid
                             then L2cap.DeleteChannel(old(l2cap.Abs()), old(controlCid)).0 else old(l2cap.Abs())
      ensures state == old(state) && interruptCid == old(interruptCid) && Pointer() == old(Pointer())
    {
      if controlCid != 0 && controlCid != cid {
        var _ := l2cap.DeleteChannel(controlCid);
      }
      controlCid := cid;
    }

    /** `SetInterruptCID`, the same for the interrupt channel. */
    method SetInterruptCID(cid: u16, l2cap: L2capLayer.Layer)
      modifies this, l2cap.channels, l2cap.channels.storage
      requires l2cap.Valid()
      ensures l2cap.Valid() && interruptCid == cid
      ensures l2cap.Abs() == if old(interruptCid) != 0 && old(interruptCid) != cid
                             then L2cap.DeleteChannel(old(l2cap.Abs()), old(interruptCid)).0 else old(l2cap.Abs())
      ensures state == old(state) && controlCid == old(controlCid) && Pointer() == old(Pointer())
    {
      if interruptCid != 0 && interruptCid != cid {
        var _ := l2cap.DeleteChannel(interruptCid);
      }
      interruptCid := cid;
    }

    /** `PostEvent`: a copy of the record goes behind the queue's tail. */
    method PostEvent(data: Bytes)
      modifies events
      requires Valid() && 0 < |data| <= MAX_DATA_SIZE
      ensures Valid() && events.entries == old(events.entries) + [BtQueue.Entry(data, 0)]
    {
      events.Enqueue(data, 0);
    }

    /**
     * What `Parser` does to a device: a mouse takes one step of
     * `Mouse.Parse` and its queue gains the record of the event posted;
     * any other device keeps its fields and queue. State and CIDs stay.
     */
    twostate predicate Parsed(report: Bytes)
      reads this, events
      requires kind == MouseDevice ==> Mouse.IsBootReport(report)
    {
      && state == old(state) && controlCid == old(controlCid) && interruptCid == old(interruptCid)
      && (kind == MouseDevice ==>
            && Pointer() == Mouse.Parse(old(Pointer()), report).0
            && events.entries == old(events.entries) + Records(Mouse.Posted(Mouse.Parse(old(Pointer()), report).1)))
      && (kind != MouseDevice ==> Pointer() == old(Pointer()) && events.entries == old(events.entries))
    }

    /**
     * The virtual `Parser` on a report (the bytes after the HIDP header):
     * a mouse takes one step of `Mouse.Parse` and queues the event it
     * posts; a plain HID device and a generic device ignore the report.
     */
    method Parser(report: Bytes)
      modifies this, events
      requires Valid()
      requires kind == MouseDevice ==> Mouse.IsBootReport(report)
      ensures Valid() && Parsed(report)
    {
      if kind != MouseDevice {
        return;
      }
      var r := Mouse.Parse(Pointer(), report);
      Respond(r.0, r.1);
    }

    /**
     * `Parser` as written: a mouse takes one step of `Mouse.ParseAsWritten`,
     * which leaves the wheel flag set after a wheel release.
     */
    method ParserAsWritten(report: Bytes)
      modifies this, events
      requires Valid()
      requires kind == MouseDevice ==> Mouse.IsBootReport(report)
      ensures Valid()
      ensures state == old(state) && controlCid == old(controlCid) && interruptCid == old(interruptCid)
      ensures kind == MouseDevice ==>
                && Pointer() == Mouse.ParseAsWritten(old(Pointer()), report).0
                && events.entries == old(events.entries) + Records(Mouse.Posted(Mouse.ParseAsWritten(old(Pointer()), report).1))
      ensures kind != MouseDevice ==> Pointer() == old(Pointer()) && events.entries == old(events.entries)
    {
      if kind != MouseDevice {
        return;
      }
      var r := Mouse.ParseAsWritten(Pointer(), report);
      Respond(r.0, r.1);
    }

    /** Takes the mouse fields a report step produced and queues the event it posted. */
    method Respond(m: Mouse.Fields, e: Option<Mouse.UiEvent>)
      modifies this, events
      requires Valid()
      ensures Valid() && Pointer() == m
      ensures events.entries == old(events.entries) + Records(Mouse.Posted(e))
      ensures state == old(state) && controlCid == old(controlCid) && interruptCid == old(interruptCid)
    {
      x, y, scroll, left, right, wheel, gesture, count :=
        m.x, m.y, m.scroll, m.left, m.right, m.wheel, m.gesture, m.count;
      if e.Some? {
        PostEvent(Mouse.Encode(e.value));
        assert Records([e.value]) == [BtQueue.Entry(Mouse.Encode(e.value), 0)];
      } else {
        assert Records([]) == [];
      }
    }

    /**
     * `ReceiveEvent`: TRUE with the record's length exactly when the queue
     * held a record; the record is copied to the front of the buffer and
     * leaves the queue. A record queued by `Parser` reads back as the
     * event it was made from.
     */
    method ReceiveEvent(buffer: array<byte>) returns (ok: bool, n: nat)
      modifies events, buffer
      requires Valid()
      requires events.entries != [] ==> |events.entries[0].data| <= buffer.Length
      ensures Valid()
      ensures ok <==> old(events.entries) != []
      ensures !ok ==> events.entries == old(events.entries) && buffer[..] == old(buffer[..])
      ensures ok ==> && n == |old(events.entries)[0].data|
                     && buffer[..n] == old(events.entries)[0].data
                     && buffer[n..] == old(buffer[n..])
                     && events.entries == old(events.entries)[1..]
      ensures ok && AllDecode(old(events.entries)) ==> Mouse.Decode(buffer[..n]).Some?
      ensures AllDecode(old(events.entries)) ==> AllDecode(events.entries)
    {
      ok, n := false, 0;
      if !events.IsEmpty() {
        var param;
        n, param := events.Dequeue(buffer);
        ok := n > 0;
      }
    }
  }

  /** A mouse's queue holds, after a report, the record of what the report posted. */
  lemma {:induction false} RecordsDecode(events: seq<Mouse.UiEvent>)
    ensures AllDecode(Records(events))
    ensures forall i :: 0 <= i < |events| ==> Mouse.Decode(Records(events)[i].data) == Some(events[i])
  {
    forall i | 0 <= i < |events|
      ensures Mouse.Decode(Records(events)[i].data) == Some(events[i])
    {
      Mouse.DecodeEncode(events[i]);
    }
  }

  /**
   * Records queued behind records that read back as mouse events read back
   * too, so a mouse's queue only ever holds mouse events.
   */
  lemma RecordsKeepDecoding(entries: seq<BtQueue.Entry>, events: seq<Mouse.UiEvent>)
    requires AllDecode(entries)
    ensures AllDecode(entries + Records(events))
  {
    RecordsDecode(events);
  }
}

// CBTSubSystem (src/common/btsubsystem.cpp): the list of device objects,
// made on demand for a connection, and Accept, which picks a connection,
// makes its device and connects it. `m_Devices` is a sequence of device
// objects; a null connection pointer is the connection id 0.
module SubSystem {
  import opened Bytes
  import Connection
  import Logical
  import Devices
  import Hidp

  /** Position of the first device on the connection, or |ds|. */
  function Find(ds: seq<Devices.Device>, conn: nat): (k: nat)
    ensures k <= |ds|
    ensures k < |ds| ==> ds[k].conn == conn
    ensures forall j :: 0 <= j < k ==> ds[j].conn != conn
  {
    if |ds| == 0 then 0
    else if ds[0].conn == conn then 0
    else 1 + Find(ds[1..], conn)
  }

  /** The first position of a device on the connection is the one `Find` answers. */
  lemma FindIs(ds: seq<Devices.Device>, conn: nat, k: nat)
    requires k <= |ds| && (k < |ds| ==> ds[k].conn == conn)
    requires forall j :: 0 <= j < k ==> ds[j].conn != conn
    ensures Find(ds, conn) == k
  {
  }

  /**
   * `GetDevice(pConnection)` as intended: the first device on the
   * connection, or null when no device is on it.
   */
  function Lookup(ds: seq<Devices.Device>, conn: nat): (d: Devices.Device?)
    ensures d != null ==> d in ds && d.conn == conn
    ensures d == null <==> forall i :: 0 <= i < |ds| ==> ds[i].conn != conn
  {
    var k := Find(ds, conn);
    if k < |ds| then ds[k] else null
  }

  /**
   * `GetDevice(pConnection)` as written: the loop variable keeps the last
   * device it looked at, so a miss answers the last device of the list.
   */
  function LookupAsWritten(ds: seq<Devices.Device>, conn: nat): (d: Devices.Device?)
  {
    var k := Find(ds, conn);
    if k < |ds| then ds[k] else if |ds| == 0 then null else ds[|ds| - 1]
  }

  /**
   * As written, the lookup is null only for an empty list, and a list with
   * no device on the connection answers a device on another connection:
   * `CreateDevice`'s null test then never passes once a device exists, so
   * a second connection never gets a device of its own.
   */
  lemma {:induction false} LookupAsWrittenMisses(ds: seq<Devices.Device>, conn: nat)
    ensures LookupAsWritten(ds, conn) == null <==> |ds| == 0
    ensures (forall i :: 0 <= i < |ds| ==> ds[i].conn != conn) && |ds| > 0 ==>
              LookupAsWritten(ds, conn) == ds[|ds| - 1] && LookupAsWritten(ds, conn).conn != conn
    ensures Lookup(ds, conn) != null ==> LookupAsWritten(ds, conn) == Lookup(ds, conn)
  {
    var k := Find(ds, conn);
    if k == |ds| && |ds| > 0 {
      assert ds[|ds| - 1].conn != conn;
    }
  }

  /** At most one device per connection. */
  ghost predicate OnePerConnection(ds: seq<Devices.Device>)
  {
    forall i, j :: 0 <= i < j < |ds| ==> ds[i].conn != ds[j].conn
  }

  /** The class `CreateDevice` makes for a connection. */
  function KindFor(c: Connection.Conn): Devices.Kind
  {
    if Connection.IsHID(c) then (if Connection.IsMouse(c) then Devices.MouseDevice else Devices.Hid)
    else Devices.Generic
  }

  /** Position of the first listed connection whose class is mouse, or |list|. */
  function MouseIndex(list: seq<nat>, heap: map<nat, Connection.Conn>): (k: nat)
    requires Logical.Listed(list, heap)
    ensures k <= |list|
    ensures k < |list| ==> Connection.IsMouse(heap[list[k]])
    ensures forall j :: 0 <= j < k ==> !Connection.IsMouse(heap[list[j]])
  {
    if |list| == 0 then 0
    else if Connection.IsMouse(heap[list[0]]) then 0
    else
      assert Logical.Listed(list[1..], heap);
      1 + MouseIndex(list[1..], heap)
  }

  /**
   * The connection `Accept` works on: the one with the address when an
   * address is given, the first mouse connection otherwise.
   */
  function Chosen(s: Logical.LState, addr: Option<Bytes>): (c: Option<nat>)
    requires Logical.Listed(s.list, s.heap)
    ensures c.Some? ==> c.value in s.list && c.value in s.heap
    ensures addr.Some? ==> c == Logical.ByAddr(s, addr.value)
    ensures addr.None? && c.Some? ==> Connection.IsMouse(s.heap[c.value])
    ensures addr.None? && c.None? ==> forall i :: 0 <= i < |s.list| ==> !Connection.IsMouse(s.heap[s.list[i]])
  {
    if addr.Some? then Logical.ByAddr(s, addr.value)
    else
      var k := MouseIndex(s.list, s.heap);
      if k < |s.list| then Some(s.list[k]) else None
  }

  /**
   * The state and CIDs `Accept` finds the connection's device with: those
   * of the listed device, or Idle with no CIDs for a device it makes.
   */
  function LinksBefore(ds: seq<Devices.Device>, conn: nat): (l: Devices.Links)
    reads set i | 0 <= i < |ds| :: ds[i]
    ensures Lookup(ds, conn) == null ==> l == Devices.Links(Devices.Idle, 0, 0)
  {
    var e := Lookup(ds, conn);
    if e == null then Devices.Links(Devices.Idle, 0, 0) else e.Channels()
  }

  class SubSystem {
    const links: Logical.Layer
    const hidp: Hidp.Layer
    /** `m_Devices`. */
    var devices: seq<Devices.Device>
    /** The number the next device gets; it stands for the device's address. */
    var nextId: nat

    ghost predicate Valid()
      reads this, links, links.connections, links.connections.storage, links.inquiry
      reads hidp, hidp.l2cap, hidp.l2cap.channels, hidp.l2cap.channels.storage, hidp.l2cap.event, hidp.l2cap.inBuffer
      reads devices, set i | 0 <= i < |devices| :: devices[i].events
    {
      links.Valid() && hidp.Valid() && DevicesValid()
    }

    /** Every device is set up, and no two are on the same connection. */
    ghost predicate DevicesValid()
      reads this, devices, set i | 0 <= i < |devices| :: devices[i].events
    {
      && (forall i :: 0 <= i < |devices| ==> devices[i].Valid())
      && OnePerConnection(devices)
    }

    /** No devices yet. */
    constructor (links: Logical.Layer, hidp: Hidp.Layer)
      requires links.Valid() && hidp.Valid()
      ensures Valid() && devices == [] && this.links == links && this.hidp == hidp
    {
      this.links := links;
      this.hidp := hidp;
      devices := [];
      nextId := 1;
    }

    /** `GetDeviceCount`: the list's count, as the `u16` it is returned in. */
    method GetDeviceCount() returns (n: u16)
      ensures n as int == |devices| % 0x10000
      ensures |devices| < 0x10000 ==> n as int == |devices|
    {
      n := (|devices| % 0x10000) as u16;
    }

    /** `GetDevice(nIndex)`: the device at that position; the index must be below the count. */
    method GetDeviceAt(index: nat) returns (d: Devices.Device)
      requires index < |devices|
      ensures d in devices && d == devices[index]
    {
      d := devices[index];
    }

    /** `GetDevice(pConnection)`: the first device on the connection, or null. */
    method GetDevice(conn: nat) returns (d: Devices.Device?)
      ensures d == Lookup(devices, conn)
    {
      var found := false;
      var i := 0;
      d := null;
      while i < |devices| && !found
        invariant 0 <= i <= |devices|
        invariant found ==> 0 < i && d == devices[i - 1] && d.conn == conn
        invariant forall j :: 0 <= j < (if found then i - 1 else i) ==> devices[j].conn != conn
      {
        d := devices[i];
        found := d.conn == conn;
        i := i + 1;
      }
      if found {
        FindIs(devices, conn, i - 1);
      } else {
        FindIs(devices, conn, |devices|);
        d := null;
      }
    }

    /** `GetDevice(pConnection)` as written, without clearing the pointer on a miss. */
    method GetDeviceAsWritten(conn: nat) returns (d: Devices.Device?)
      ensures d == LookupAsWritten(devices, conn)
    {
      var found := false;
      var i := 0;
      d := null;
      while i < |devices| && !found
        invariant 0 <= i <= |devices|
        invariant i == 0 ==> d == null
        invariant 0 < i ==> d == devices[i - 1]
        invariant found ==> 0 < i && d.conn == conn
        invariant forall j :: 0 <= j < (if found then i - 1 else i) ==> devices[j].conn != conn
      {
        d := devices[i];
        found := d.conn == conn;
        i := i + 1;
      }
      if found {
        FindIs(devices, conn, i - 1);
      } else {
        FindIs(devices, conn, |devices|);
      }
    }

    /**
     * `CreateDevice`: null for a null connection; the device already on
     * the connection when there is one; otherwise a new device of the
     * connection's class (mouse, HID or generic), appended to the list,
     * whose connection's back-link now names it.
     */
    method CreateDevice(conn: nat) returns (d: Devices.Device?)
      modifies this, links
      requires Valid() && (conn != 0 ==> conn in links.heap)
      ensures Valid() && links.inquiry == old(links.inquiry)
      ensures d != null ==> d.conn == conn && Lookup(devices, conn) == d
      ensures conn == 0 || old(Lookup(devices, conn)) != null ==>
                d == (if conn == 0 then null else old(Lookup(devices, conn)))
                && devices == old(devices) && links.Abs() == old(links.Abs())
      ensures conn != 0 && old(Lookup(devices, conn)) == null ==>
                && fresh(d) && fresh(d.events) && devices == old(devices) + [d]
                && d.kind == KindFor(old(links.heap)[conn]) && d.state == Devices.Idle
                && d.controlCid == 0 && d.interruptCid == 0 && d.events.entries == []
                && links.Abs() == old(links.Abs()).(heap := old(links.heap)[conn := old(links.heap)[conn].(device := d.id)])
    {
      d := null;
      if conn != 0 {
        d := GetDevice(conn);
        if d == null {
          d := Add(conn);
        }
      }
    }

    /**
     * `CreateDevice` as written: the lookup's fall-through answers the last
     * device for a connection that has none, so a device is made only while
     * the list is empty; after that a new connection is handed a device on
     * another connection and nothing is added.
     */
    method CreateDeviceAsWritten(conn: nat) returns (d: Devices.Device?)
      modifies this, links
      requires Valid() && (conn != 0 ==> conn in links.heap)
      ensures Valid() && links.inquiry == old(links.inquiry)
      ensures conn == 0 || old(|devices|) > 0 ==>
                d == (if conn == 0 then null else old(LookupAsWritten(devices, conn)))
                && devices == old(devices) && links.Abs() == old(links.Abs())
      ensures conn != 0 && old(|devices|) > 0 && old(Lookup(devices, conn)) == null ==> d != null && d.conn != conn
      ensures conn != 0 && old(|devices|) == 0 ==> fresh(d) && devices == [d] && d.conn == conn
    {
      d := null;
      if conn != 0 {
        LookupAsWrittenMisses(devices, conn);
        d := GetDeviceAsWritten(conn);
        if d == null {
          d := Add(conn);
        }
      }
    }

    /** The new device of `CreateDevice`, for a connection no device is on yet. */
    method Add(conn: nat) returns (d: Devices.Device)
      modifies this, links
      requires links.Valid() && DevicesValid() && conn in links.heap && Lookup(devices, conn) == null
      ensures links.Valid() && DevicesValid() && links.inquiry == old(links.inquiry)
      ensures fresh(d) && fresh(d.events) && devices == old(devices) + [d] && Lookup(devices, conn) == d
      ensures d.conn == conn && d.kind == KindFor(old(links.heap)[conn]) && d.state == Devices.Idle
      ensures d.controlCid == 0 && d.interruptCid == 0 && d.events.entries == []
      ensures links.Abs() == old(links.Abs()).(heap := old(links.heap)[conn := old(links.heap)[conn].(device := d.id)])
    {
      d := new Devices.Device(KindFor(links.heap[conn]), nextId, conn, links);
      nextId := nextId + 1;
      devices := devices + [d];
      FindIs(devices, conn, |devices| - 1);
    }

    /** The loop of `Accept(NULL)`: the first listed connection whose class is mouse, or 0. */
    method FirstMouse() returns (conn: nat)
      requires Valid()
      ensures var s := links.Abs(); var k := MouseIndex(s.list, s.heap);
        conn == if k < |s.list| then s.list[k] else 0
    {
      ghost var s := links.Abs();
      var i := 0;
      while i < links.connections.count
        invariant 0 <= i <= links.connections.count
        invariant forall j :: 0 <= j < i ==> !Connection.IsMouse(s.heap[s.list[j]])
      {
        var c := links.connections.At(i);
        if Connection.IsMouse(links.heap[c]) {
          assert MouseIndex(s.list, s.heap) == i by {
            var k := MouseIndex(s.list, s.heap);
            assert !(k < i) && !(i < k);
          }
          return c;
        }
        i := i + 1;
      }
      return 0;
    }

    /**
     * `Accept`: the connection with the address, or the first mouse
     * connection, gets its device, which is then connected; `control` and
     * `interrupt` are what the HIDP layer's two `Connect` calls made. The
     * device's state, CIDs and table slot become those `Hidp.DeviceConnect`
     * gives, and the device is the result unless its `Connect` answered 1;
     * no other device changes. No connection gives null and changes nothing.
     */
    method Accept(addr: Option<Bytes>, control: Hidp.Opened, interrupt: Hidp.Opened) returns (d: Devices.Device?)
      modifies this, links, hidp.table, devices
      requires Valid()
      ensures Valid()
      ensures forall x :: x in old(devices) && x != d ==> x.Channels() == old(x.Channels())
      ensures var c := Chosen(old(links.Abs()), addr);
        && (c.None? ==> d == null && devices == old(devices) && links.Abs() == old(links.Abs())
                        && hidp.table[..] == old(hidp.table[..]))
        && (c.Some? ==>
              var e := Lookup(devices, c.value);
              && e != null
              && (old(Lookup(devices, c.value)) == null ==> devices == old(devices) + [e])
              && (old(Lookup(devices, c.value)) != null ==> devices == old(devices))
              && var o := Hidp.DeviceConnect(e.kind, old(LinksBefore(devices, c.value)), e.conn, control, interrupt);
              && e.Channels() == o.after
              && (forall i :: 0 <= i < hidp.table.Length ==>
                    hidp.table[i] == (if o.registered != 0 && Hidp.Slot(o.registered) == Some(i) then e else old(hidp.table[i])))
              && d == if o.code != 0 then null else e)
    {
      var conn := Choose(addr);
      ghost var before := LinksBefore(devices, conn);
      d := CreateDevice(conn);
      assert conn != 0 ==> d != null && Lookup(devices, conn) == d && d.Channels() == before;
      if d != null {
        var ok := ConnectListed(d, control, interrupt);
        if !ok {
          d := null;
        }
      }
    }

    /** The connection `Accept` works on, 0 when there is none. */
    method Choose(addr: Option<Bytes>) returns (conn: nat)
      requires Valid()
      ensures var c := Chosen(links.Abs(), addr); conn == if c.Some? then c.value else 0
      ensures conn != 0 ==> conn in links.heap
    {
      if addr.Some? {
        conn := links.GetConnection(addr.value);
      } else {
        conn := FirstMouse();
      }
    }

    /**
     * `pDevice->Connect()` on a listed device: TRUE when it answered 0; the
     * device and the table change as `Hidp.DeviceConnect` says.
     */
    method ConnectListed(d: Devices.Device, control: Hidp.Opened, interrupt: Hidp.Opened) returns (ok: bool)
      modifies hidp.table, d
      requires Valid() && d in devices
      ensures Valid()
      ensures var o := Hidp.DeviceConnect(d.kind, old(d.Channels()), d.conn, control, interrupt);
        && (ok <==> o.code == 0) && d.Channels() == o.after
        && forall i :: 0 <= i < hidp.table.Length ==>
             hidp.table[i] == (if o.registered != 0 && Hidp.Slot(o.registered) == Some(i) then d else old(hidp.table[i]))
    {
      var r := hidp.ConnectDevice(d, control, interrupt);
      ok := r == 0;
    }
  }
}

// The C interface of src/common/btinterface.cpp: singly linked device maps
// (`tBT_device_map`) built from the subsystem's devices or from an
// inquiry, searched for a mouse and freed; `BT_Accept` and `BT_GetEvent`
// on top of the subsystem's Accept and the device's event queue.
module CInterface {
  import opened Bytes
  import DeviceClass
  import Connection
  import InquiryResults
  import Devices
  import SubSystem
  import Hidp

  /**
   * One node of a device map: the address and the raw class bytes, copied
   * in when the node is made, and the link.
   */
  class MapNode {
    const address: Bytes
    /** `type`: the three bytes of the class of device as stored. */
    const classBytes: Bytes
    var next: MapNode?

    constructor (address: Bytes, classBytes: Bytes)
      ensures this.address == address && this.classBytes == classBytes && next == null
    {
      this.address := address;
      this.classBytes := classBytes;
      next := null;
    }
  }

  /** What a node holds, without its link. */
  datatype Entry = Entry(address: Bytes, classBytes: Bytes)

  /**
   * `head` starts the chain `nodes`: each node links to the next, the last
   * one to null, and no node appears twice.
   */
  ghost predicate Linked(head: MapNode?, nodes: seq<MapNode>)
    reads nodes
  {
    && head == (if |nodes| == 0 then null else nodes[0])
    && (forall i :: 0 <= i < |nodes| - 1 ==> nodes[i].next == nodes[i + 1])
    && (|nodes| > 0 ==> nodes[|nodes| - 1].next == null)
    && (forall i, j :: 0 <= i < j < |nodes| ==> nodes[i] != nodes[j])
  }

  /** The entries of the chain, in list order. */
  function Contents(nodes: seq<MapNode>): (es: seq<Entry>)
    ensures |es| == |nodes|
    ensures forall i :: 0 <= i < |nodes| ==> es[i] == Entry(nodes[i].address, nodes[i].classBytes)
  {
    if |nodes| == 0 then [] else [Entry(nodes[0].address, nodes[0].classBytes)] + Contents(nodes[1..])
  }

  /** Every device's connection exists and is well formed. */
  ghost predicate Attached(ds: seq<Devices.Device>, heap: map<nat, Connection.Conn>)
  {
    forall i :: 0 <= i < |ds| ==> ds[i].conn in heap && Connection.ValidConn(heap[ds[i].conn])
  }

  /** `BT_Check`'s entries: per device its connection's address and packed class. */
  function DeviceEntries(ds: seq<Devices.Device>, heap: map<nat, Connection.Conn>): (es: seq<Entry>)
    requires Attached(ds, heap)
    ensures |es| == |ds|
    ensures forall i :: 0 <= i < |ds| ==>
              es[i] == Entry(heap[ds[i].conn].addr, DeviceClass.Pack(heap[ds[i].conn].cod))
  {
    if |ds| == 0 then []
    else
      assert Attached(ds[1..], heap) by {
        forall i | 0 <= i < |ds[1..]| ensures ds[1..][i].conn in heap && Connection.ValidConn(heap[ds[1..][i].conn]) {
          assert ds[1..][i] == ds[i + 1];
        }
      }
      [Entry(heap[ds[0].conn].addr, DeviceClass.Pack(heap[ds[0].conn].cod))] + DeviceEntries(ds[1..], heap)
  }

  /** The node `BT_Listen` makes for an inquiry record: its address and packed class. */
  function RecordEntry(r: InquiryResults.Response): Entry
    requires InquiryResults.ValidResponse(r)
  {
    Entry(r.addr, DeviceClass.Pack(r.cod))
  }

  /** `BT_Listen`'s entries: one per inquiry record, in record order. */
  function ResponseEntries(rs: seq<InquiryResults.Response>): (es: seq<Entry>)
    requires forall i :: 0 <= i < |rs| ==> InquiryResults.ValidResponse(rs[i])
    ensures |es| == |rs|
    ensures forall i :: 0 <= i < |rs| ==> es[i] == RecordEntry(rs[i])
  {
    if |rs| == 0 then []
    else
      assert forall i :: 0 <= i < |rs[1..]| ==> InquiryResults.ValidResponse(rs[1..][i]) by {
        forall i | 0 <= i < |rs[1..]| ensures InquiryResults.ValidResponse(rs[1..][i]) {
          assert rs[1..][i] == rs[i + 1];
        }
      }
      [RecordEntry(rs[0])] + ResponseEntries(rs[1..])
  }

  /** `IS_MOUSE`: the first class byte is the mouse minor code. */
  predicate IsMouseEntry(e: Entry)
  {
    |e.classBytes| > 0 && e.classBytes[0] == DeviceClass.BT_CODE_MOUSE
  }

  /** The address of the first mouse entry, or None. */
  function FindMouse(es: seq<Entry>): (r: Option<Bytes>)
    ensures r.None? <==> forall i :: 0 <= i < |es| ==> !IsMouseEntry(es[i])
    ensures r.Some? ==> exists i :: 0 <= i < |es| && IsMouseEntry(es[i]) && es[i].address == r.value
                          && forall j :: 0 <= j < i ==> !IsMouseEntry(es[j])
  {
    if |es| == 0 then None
    else if IsMouseEntry(es[0]) then Some(es[0].address)
    else
      var r := FindMouse(es[1..]);
      assert r.Some? ==> exists i :: 0 <= i < |es| && IsMouseEntry(es[i]) && es[i].address == r.value
                          && forall j :: 0 <= j < i ==> !IsMouseEntry(es[j]) by {
        if r.Some? {
          var i :| 0 <= i < |es[1..]| && IsMouseEntry(es[1..][i]) && es[1..][i].address == r.value
                   && forall j :: 0 <= j < i ==> !IsMouseEntry(es[1..][j]);
          assert IsMouseEntry(es[i + 1]) && forall j :: 0 <= j < i + 1 ==> !IsMouseEntry(es[j]) by {
            forall j | 0 <= j < i + 1 ensures !IsMouseEntry(es[j]) {
              if j > 0 {
                assert es[j] == es[1..][j - 1];
              }
            }
          }
        }
      }
      r
  }

  /** Position of the first device whose connection's class is mouse, or |ds|. */
  function MouseDevice(ds: seq<Devices.Device>, heap: map<nat, Connection.Conn>): (k: nat)
    requires Attached(ds, heap)
    ensures k <= |ds|
    ensures k < |ds| ==> Connection.IsMouse(heap[ds[k].conn])
    ensures forall j :: 0 <= j < k ==> !Connection.IsMouse(heap[ds[j].conn])
  {
    if |ds| == 0 then 0
    else if Connection.IsMouse(heap[ds[0].conn]) then 0
    else
      assert Attached(ds[1..], heap) by {
        forall i | 0 <= i < |ds[1..]| ensures ds[1..][i].conn in heap && Connection.ValidConn(heap[ds[1..][i].conn]) {
          assert ds[1..][i] == ds[i + 1];
        }
      }
      1 + MouseDevice(ds[1..], heap)
  }

  /**
   * On a map `BT_Check` built, the raw byte test of `BT_Find` is the
   * connection's mouse test: the address found is that of the first device
   * whose connection is a mouse, and none is found when no device is one.
   */
  lemma {:induction false} FindOnDevices(ds: seq<Devices.Device>, heap: map<nat, Connection.Conn>)
    requires Attached(ds, heap)
    ensures var k := MouseDevice(ds, heap);
      FindMouse(DeviceEntries(ds, heap)) == if k < |ds| then Some(heap[ds[k].conn].addr) else None
    decreases |ds|
  {
    if |ds| > 0 {
      var c := heap[ds[0].conn];
      DeviceClass.RawClassTests(DeviceClass.Pack(c.cod));
      DeviceClass.UnpackPack(c.cod);
      assert Attached(ds[1..], heap) by {
        forall i | 0 <= i < |ds[1..]| ensures ds[1..][i].conn in heap && Connection.ValidConn(heap[ds[1..][i].conn]) {
          assert ds[1..][i] == ds[i + 1];
        }
      }
      assert DeviceEntries(ds, heap)[1..] == DeviceEntries(ds[1..], heap);
      if !Connection.IsMouse(c) {
        FindOnDevices(ds[1..], heap);
      }
    }
  }

  /** The first attempt the inquiry answered. */
  function FirstAnswered(attempts: seq<InquiryResults.Results?>): (k: nat)
    requires exists i :: 0 <= i < |attempts| && attempts[i] != null
    ensures k < |attempts| && attempts[k] != null
    ensures forall j :: 0 <= j < k ==> attempts[j] == null
  {
    if attempts[0] != null then 0
    else
      assert exists i :: 0 <= i < |attempts[1..]| && attempts[1..][i] != null by {
        var i :| 0 <= i < |attempts| && attempts[i] != null;
        assert attempts[1..][i - 1] == attempts[i];
      }
      1 + FirstAnswered(attempts[1..])
  }

  /**
   * `BT_Listen`'s inner loop as written declares its index without a
   * value: started from whatever `start` the stack holds, the `int` is
   * compared with the unsigned count, so a negative start copies nothing
   * and a start inside the results skips the records before it.
   */
  function ListenEntriesAsWritten(rs: seq<InquiryResults.Response>, start: int): seq<Entry>
    requires forall i :: 0 <= i < |rs| ==> InquiryResults.ValidResponse(rs[i])
  {
    if 0 <= start <= |rs| then ResponseEntries(rs)[start..] else []
  }

  /** Any start but 0 loses the first record of a non-empty inquiry. */
  lemma ListenSkipsAsWritten(rs: seq<InquiryResults.Response>, start: int)
    requires forall i :: 0 <= i < |rs| ==> InquiryResults.ValidResponse(rs[i])
    requires |rs| > 0 && start != 0
    ensures |ListenEntriesAsWritten(rs, start)| < |rs|
    ensures ListenEntriesAsWritten(rs, 0) == ResponseEntries(rs)
  {
  }

  /** The order in which a walk over a map reads links and frees nodes. */
  datatype MemoryOp = ReadLink(node: MapNode) | Release(node: MapNode)

  /** No node is read or freed after it was freed. */
  ghost predicate Safe(trace: seq<MemoryOp>)
  {
    forall i, j :: 0 <= i < j < |trace| && trace[i].Release? ==> trace[j].node != trace[i].node
  }

  /** The nodes a trace frees. */
  ghost function Freed(trace: seq<MemoryOp>): set<MapNode>
  {
    set i | 0 <= i < |trace| && trace[i].Release? :: trace[i].node
  }

  /**
   * `BT_Free` as intended, from the node at position `i` on: read the
   * node's link, then free the node.
   */
  ghost function FreeTrace(nodes: seq<MapNode>, i: nat): seq<MemoryOp>
    decreases |nodes| - i
  {
    if i >= |nodes| then [] else [ReadLink(nodes[i]), Release(nodes[i])] + FreeTrace(nodes, i + 1)
  }

  /**
   * `BT_Free` as written, from position `i` on: the link is read and the
   * pointer advanced before the free, so it is the successor that is
   * freed (null, harmlessly, at the end), and it is read on the next round.
   */
  ghost function FreeTraceAsWritten(nodes: seq<MapNode>, i: nat): seq<MemoryOp>
    decreases |nodes| - i
  {
    if i >= |nodes| then []
    else [ReadLink(nodes[i])] + (if i + 1 < |nodes| then [Release(nodes[i + 1])] else [])
         + FreeTraceAsWritten(nodes, i + 1)
  }

  /** Every operation of the intended walk from `i` is on a node at position `i` or later. */
  lemma {:induction false} FreeTraceNodes(nodes: seq<MapNode>, i: nat, k: nat) returns (m: nat)
    requires k < |FreeTrace(nodes, i)|
    ensures i <= m < |nodes| && FreeTrace(nodes, i)[k].node == nodes[m]
    decreases |nodes| - i
  {
    if k < 2 {
      m := i;
    } else {
      m := FreeTraceNodes(nodes, i + 1, k - 2);
    }
  }

  /** Every node the walk as written frees from `i` on sits after position `i`. */
  lemma {:induction false} FreedAsWrittenNodes(nodes: seq<MapNode>, i: nat, k: nat) returns (m: nat)
    requires k < |FreeTraceAsWritten(nodes, i)| && FreeTraceAsWritten(nodes, i)[k].Release?
    ensures i < m < |nodes| && FreeTraceAsWritten(nodes, i)[k].node == nodes[m]
    decreases |nodes| - i
  {
    var round := [ReadLink(nodes[i])] + (if i + 1 < |nodes| then [Release(nodes[i + 1])] else []);
    if k < |round| {
      m := i + 1;
    } else {
      m := FreedAsWrittenNodes(nodes, i + 1, k - |round|);
    }
  }

  /**
   * Freed as intended, the walk over a chain of distinct nodes never
   * touches a node after freeing it, and frees exactly the chain's nodes.
   */
  lemma {:induction false} FreeTraceSafe(nodes: seq<MapNode>, i: nat)
    requires i <= |nodes|
    requires forall a, b :: 0 <= a < b < |nodes| ==> nodes[a] != nodes[b]
    ensures Safe(FreeTrace(nodes, i))
    ensures forall n :: n in Freed(FreeTrace(nodes, i)) <==> n in nodes[i..]
    decreases |nodes| - i
  {
    if i < |nodes| {
      var rest := FreeTrace(nodes, i + 1);
      var t := FreeTrace(nodes, i);
      FreeTraceSafe(nodes, i + 1);
      assert t == [ReadLink(nodes[i]), Release(nodes[i])] + rest;
      forall a, b | 0 <= a < b < |t| && t[a].Release? ensures t[b].node != t[a].node {
        if a >= 2 {
          assert t[a] == rest[a - 2] && t[b] == rest[b - 2];
        } else {
          assert t[b] == rest[b - 2];
          var m := FreeTraceNodes(nodes, i + 1, b - 2);
        }
      }
      assert nodes[i..] == [nodes[i]] + nodes[i + 1..];
      forall n ensures n in Freed(t) <==> n in nodes[i..] {
        if n in Freed(t) {
          var a :| 0 <= a < |t| && t[a].Release? && t[a].node == n;
          if a >= 2 {
            assert rest[a - 2] == t[a];
            var m := FreeTraceNodes(nodes, i + 1, a - 2);
            assert nodes[i..][m - i] == n;
          }
        }
        if n in nodes[i..] && n != nodes[i] {
          assert n in Freed(rest);
          var a :| 0 <= a < |rest| && rest[a].Release? && rest[a].node == n;
          assert t[a + 2] == rest[a];
        }
        if n == nodes[i] {
          assert t[1] == Release(n);
        }
      }
    }
  }

  /**
   * As written, a map of two or more nodes has its second node read after
   * it was freed, and its head is never freed.
   */
  lemma FreeAsWrittenUseAfterFree(nodes: seq<MapNode>)
    requires |nodes| >= 2 && forall a, b :: 0 <= a < b < |nodes| ==> nodes[a] != nodes[b]
    ensures !Safe(FreeTraceAsWritten(nodes, 0))
    ensures nodes[0] !in Freed(FreeTraceAsWritten(nodes, 0))
  {
    var t := FreeTraceAsWritten(nodes, 0);
    assert t == [ReadLink(nodes[0]), Release(nodes[1])] + FreeTraceAsWritten(nodes, 1);
    assert FreeTraceAsWritten(nodes, 1)[0] == ReadLink(nodes[1]);
    assert t[1] == Release(nodes[1]) && t[2] == ReadLink(nodes[1]);
    if nodes[0] in Freed(t) {
      var a :| 0 <= a < |t| && t[a].Release? && t[a].node == nodes[0];
      var m := FreedAsWrittenNodes(nodes, 0, a);
    }
  }

  /**
   * The tail append of `BT_Check` and `BT_Listen`: a new node becomes the
   * head of an empty map, otherwise the successor of the tail.
   */
  method Push(head: MapNode?, tail: MapNode?, ghost nodes: seq<MapNode>, node: MapNode)
      returns (head': MapNode?, tail': MapNode, ghost nodes': seq<MapNode>)
    modifies tail
    requires Linked(head, nodes) && tail == (if |nodes| == 0 then null else nodes[|nodes| - 1])
    requires node.next == null && node !in nodes
    ensures Linked(head', nodes') && nodes' == nodes + [node] && tail' == node
    ensures forall k :: 0 <= k < |nodes| ==> nodes[k].next == old(nodes[k].next) || k == |nodes| - 1
  {
    if head == null {
      head', tail' := node, node;
    } else {
      tail.next := node;
      head', tail' := head, node;
    }
    nodes' := nodes + [node];
  }

  /**
   * `BT_Check`: one node per device in device order (as many as the `u16`
   * count admits), holding the device's address and its three class bytes,
   * the last node's link null.
   */
  method Check(sys: SubSystem.SubSystem) returns (head: MapNode?, ghost nodes: seq<MapNode>)
    requires Attached(sys.devices, sys.links.heap)
    ensures Linked(head, nodes) && forall i :: 0 <= i < |nodes| ==> fresh(nodes[i])
    ensures Contents(nodes) == DeviceEntries(sys.devices[..|sys.devices| % 0x10000], sys.links.heap)
  {
    var n := sys.GetDeviceCount();
    var ds := sys.devices[..n];
    assert Attached(ds, sys.links.heap) by {
      forall i | 0 <= i < |ds| ensures ds[i].conn in sys.links.heap && Connection.ValidConn(sys.links.heap[ds[i].conn]) {
        assert ds[i] == sys.devices[i];
      }
    }
    head, nodes := Build(DeviceEntries(ds, sys.links.heap));
  }

  /**
   * `BT_Listen`: the inquiry is repeated until it answers (`attempts` are
   * the successive results, null for no answer); the map then holds one
   * node per record of that answer, in record order.
   */
  method Listen(attempts: seq<InquiryResults.Results?>) returns (head: MapNode?, ghost nodes: seq<MapNode>)
    requires exists i :: 0 <= i < |attempts| && attempts[i] != null
    requires forall i :: 0 <= i < |attempts| && attempts[i] != null ==> attempts[i].Valid()
    ensures Linked(head, nodes) && forall i :: 0 <= i < |nodes| ==> fresh(nodes[i])
    ensures var r := attempts[FirstAnswered(attempts)]; r.Valid() && Contents(nodes) == ResponseEntries(r.responses)
  {
    var k := 0;
    var results: InquiryResults.Results? := null;
    head, nodes := null, [];
    while results == null
      invariant k <= FirstAnswered(attempts) + 1
      invariant results == null ==> k <= FirstAnswered(attempts)
      invariant results == null ==> forall j :: 0 <= j < k ==> attempts[j] == null
      invariant results != null ==> k == FirstAnswered(attempts) + 1 && results == attempts[k - 1]
      invariant results != null ==> Linked(head, nodes) && (forall i :: 0 <= i < |nodes| ==> fresh(nodes[i]))
                                    && Contents(nodes) == ResponseEntries(results.responses)
      decreases FirstAnswered(attempts) + 1 - k
    {
      results := attempts[k];
      k := k + 1;
      if results != null {
        head, nodes := FromResults(results);
      }
    }
  }

  /** The inner loop of `BT_Listen`, its index started at 0. */
  method FromResults(results: InquiryResults.Results) returns (head: MapNode?, ghost nodes: seq<MapNode>)
    requires results.Valid()
    ensures Linked(head, nodes) && forall i :: 0 <= i < |nodes| ==> fresh(nodes[i])
    ensures Contents(nodes) == ResponseEntries(results.responses)
  {
    head, nodes := Build(ResponseEntries(results.responses));
  }

  /**
   * The inner loop of `BT_Listen` as written, its index declared without a
   * value: `start` is whatever the stack held. The nodes hold the records
   * from `start` on, or none when `start` is negative or past the count.
   */
  method FromResultsAsWritten(results: InquiryResults.Results, start: int)
      returns (head: MapNode?, ghost nodes: seq<MapNode>)
    requires results.Valid()
    ensures Linked(head, nodes) && forall i :: 0 <= i < |nodes| ==> fresh(nodes[i])
    ensures Contents(nodes) == ListenEntriesAsWritten(results.responses, start)
    ensures start != 0 && results.responses != [] ==> |nodes| < |results.responses|
  {
    if results.responses != [] && start != 0 {
      ListenSkipsAsWritten(results.responses, start);
    }
    head, nodes := Build(ListenEntriesAsWritten(results.responses, start));
  }

  /**
   * The loop `BT_Check` and `BT_Listen` share: one node per entry, made
   * and appended at the tail in entry order.
   */
  method Build(es: seq<Entry>) returns (head: MapNode?, ghost nodes: seq<MapNode>)
    ensures Linked(head, nodes) && forall i :: 0 <= i < |nodes| ==> fresh(nodes[i])
    ensures Contents(nodes) == es
  {
    head := null;
    var tail: MapNode? := null;
    nodes := [];
    var i := 0;
    while i < |es|
      invariant 0 <= i <= |es| && |nodes| == i
      invariant Linked(head, nodes) && forall k :: 0 <= k < i ==> fresh(nodes[k])
      invariant tail == if i == 0 then null else nodes[i - 1]
      invariant forall k :: 0 <= k < i ==> Entry(nodes[k].address, nodes[k].classBytes) == es[k]
    {
      var node := new MapNode(es[i].address, es[i].classBytes);
      head, tail, nodes := Push(head, tail, nodes, node);
      i := i + 1;
    }
  }

  /** `BT_Find`: the address of the first node whose class byte 0 is the mouse code, or null. */
  method Find(head: MapNode?, ghost nodes: seq<MapNode>) returns (address: Option<Bytes>)
    requires Linked(head, nodes)
    ensures address == FindMouse(Contents(nodes))
  {
    var p := head;
    address := None;
    ghost var i := 0;
    while p != null
      invariant 0 <= i <= |nodes|
      invariant address.None? ==> p == (if i < |nodes| then nodes[i] else null)
      invariant address.None? ==> FindMouse(Contents(nodes)) == FindMouse(Contents(nodes)[i..])
      invariant address.Some? ==> p == null && address == FindMouse(Contents(nodes))
      decreases if p == null then 0 else |nodes| - i + 1
    {
      assert Contents(nodes)[i..][0] == Entry(p.address, p.classBytes);
      assert Contents(nodes)[i + 1..] == Contents(nodes)[i..][1..];
      if |p.classBytes| > 0 && p.classBytes[0] == DeviceClass.BT_CODE_MOUSE {
        address := Some(p.address);
        p := null;
      } else {
        p := p.next;
        i := i + 1;
      }
    }
  }

  /** `BT_Free` as intended: every node is freed once, after its link was read. */
  method Free(head: MapNode?, ghost nodes: seq<MapNode>) returns (trace: seq<MemoryOp>)
    requires Linked(head, nodes)
    ensures trace == FreeTrace(nodes, 0)
  {
    var p := head;
    trace := [];
    ghost var i := 0;
    while p != null
      invariant 0 <= i <= |nodes| && p == (if i < |nodes| then nodes[i] else null)
      invariant trace + FreeTrace(nodes, i) == FreeTrace(nodes, 0)
      decreases |nodes| - i
    {
      assert p.next == (if i + 1 < |nodes| then nodes[i + 1] else null);
      var t := p;
      trace := trace + [ReadLink(p)];
      p := p.next;
      trace := trace + [Release(t)];
      i := i + 1;
    }
  }

  /** `BT_Free` as written: the pointer is advanced before the free. */
  method FreeAsWritten(head: MapNode?, ghost nodes: seq<MapNode>) returns (trace: seq<MemoryOp>)
    requires Linked(head, nodes)
    ensures trace == FreeTraceAsWritten(nodes, 0)
  {
    var p := head;
    trace := [];
    ghost var i := 0;
    while p != null
      invariant 0 <= i <= |nodes| && p == (if i < |nodes| then nodes[i] else null)
      invariant trace + FreeTraceAsWritten(nodes, i) == FreeTraceAsWritten(nodes, 0)
      decreases |nodes| - i
    {
      assert p.next == (if i + 1 < |nodes| then nodes[i + 1] else null);
      trace := trace + [ReadLink(p)];
      p := p.next;
      if p != null {
        trace := trace + [Release(p)];
      }
      i := i + 1;
    }
  }

  /** `tBT_device_descriptor`: the device and the address it was accepted with. */
  datatype Descriptor = Descriptor(device: Devices.Device, address: Option<Bytes>)

  /**
   * `BT_Accept`: a descriptor for the device the subsystem accepted, or
   * null when it accepted none.
   */
  method Accept(sys: SubSystem.SubSystem, addr: Option<Bytes>, control: Hidp.Opened, interrupt: Hidp.Opened)
      returns (desc: Option<Descriptor>)
    modifies sys, sys.links, sys.hidp.table, sys.devices
    requires sys.Valid()
    ensures sys.Valid()
    ensures var c := SubSystem.Chosen(old(sys.links.Abs()), addr);
      && (c.None? ==> desc.None? && sys.devices == old(sys.devices) && sys.hidp.table[..] == old(sys.hidp.table[..]))
      && (c.Some? ==>
            var e := SubSystem.Lookup(sys.devices, c.value);
            && e != null
            && var o := Hidp.DeviceConnect(e.kind, old(SubSystem.LinksBefore(sys.devices, c.value)), e.conn, control, interrupt);
            && e.Channels() == o.after
            && (forall i :: 0 <= i < sys.hidp.table.Length ==>
                  sys.hidp.table[i] == (if o.registered != 0 && Hidp.Slot(o.registered) == Some(i) then e
                                        else old(sys.hidp.table[i])))
            && desc == if o.code != 0 then None else Some(Descriptor(e, addr)))
  {
    var d := sys.Accept(addr, control, interrupt);
    desc := if d == null then None else Some(Descriptor(d, addr));
  }

  /** `BT_GetEvent`: FALSE for a null device, otherwise the device's `ReceiveEvent`. */
  method GetEvent(device: Devices.Device?, buffer: array<byte>) returns (ok: bool, n: nat)
    modifies if device == null then {} else {device.events, buffer}
    requires device != null ==> device.Valid()
    requires device != null && device.events.entries != [] ==> |device.events.entries[0].data| <= buffer.Length
    ensures device == null ==> !ok
    ensures device != null ==> && device.Valid()
                               && (ok <==> old(device.events.entries) != [])
                               && (ok ==> && n == |old(device.events.entries)[0].data|
                                          && buffer[..n] == old(device.events.entries)[0].data
                                          && device.events.entries == old(device.events.entries)[1..])
                               && (!ok ==> device.events.entries == old(device.events.entries))
  {
    ok, n := false, 0;
    if device != null {
      ok, n := device.ReceiveEvent(buffer);
    }
  }
}

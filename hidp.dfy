// The HID protocol layer of src/hidp/bthidp.cpp (CBTHIDPLayer): the flow
// specifications it offers per device class, the table that maps an
// interrupt CID to its device, the message-type demultiplexer for data,
// and the handlers of the L2CAP indications. The layer works through the
// L2CAP layer's methods; each handler is proved to take the step of a
// function on the L2CAP state. `ConnectDevice` is CBTHIDDevice::Connect.
module Hidp {
  import opened Bytes
  import opened L2capWire
  import L2cap
  import L2capLayer
  import Connection
  import Devices
  import Mouse

  const PSM_HID_CONTROL: u16 := 0x11
  const PSM_HID_INTERRUPT: u16 := 0x13
  /** The number of slots of the device table. */
  const MAX_HID_DEVICE: nat := 20
  /** BT_HIDP_DATA, the message type of a report. */
  const MESSAGE_DATA: byte := 0xA
  /** The MTU `CBTHIDDevice::Connect` asks for on both channels. */
  const CONNECT_MTU: u16 := 48

  /** The default flow specifications: guaranteed service, latency and delay variation 10000. */
  const FlowMouse := FlowSpec(0, SERVICE_TYPE_GUARANTEED, 300, 4, 300, 10000, 10000)
  const FlowKeyboard := FlowSpec(0, SERVICE_TYPE_GUARANTEED, 900, 9, 900, 10000, 10000)
  const FlowJoystick := FlowSpec(0, SERVICE_TYPE_GUARANTEED, 600, 6, 600, 10000, 10000)

  /**
   * The flow a device class gets. The code tests mouse, keyboard and
   * joystick with independent `if`s, the later one winning; the classes
   * exclude each other, so each gets its own flow and any other class none.
   */
  function ClassFlow(c: Connection.Conn): (f: Option<FlowSpec>)
    ensures f == Some(FlowMouse) <==> Connection.IsMouse(c)
    ensures f == Some(FlowKeyboard) <==> Connection.IsKeyboard(c)
    ensures f == Some(FlowJoystick) <==> Connection.IsJoystick(c)
    ensures f.None? <==> !Connection.IsMouse(c) && !Connection.IsKeyboard(c) && !Connection.IsJoystick(c)
  {
    if Connection.IsJoystick(c) then Some(FlowJoystick)
    else if Connection.IsKeyboard(c) then Some(FlowKeyboard)
    else if Connection.IsMouse(c) then Some(FlowMouse)
    else None
  }

  /** The message type: the high nibble of the first byte (the `MessageType : 4` bit-field). */
  function MessageType(payload: Bytes): (t: byte)
    requires |payload| >= 1
    ensures t < 16
  {
    payload[0] / 16
  }

  // ---------------------------------------------------------------------
  // The device table's index

  /** The slot `nCID - BT_CID_DYNAMICALLY_ALLOCATED` as written: nothing bounds it. */
  function SlotAsWritten(cid: u16): int
  {
    cid - CID_DYNAMIC
  }

  /** The slot of a CID, corrected: only CIDs whose slot exists have one. */
  function Slot(cid: u16): (r: Option<nat>)
    ensures r.Some? ==> r.value < MAX_HID_DEVICE && r.value == SlotAsWritten(cid)
    ensures r.None? ==> SlotAsWritten(cid) < 0 || SlotAsWritten(cid) >= MAX_HID_DEVICE
  {
    if CID_DYNAMIC <= cid < CID_DYNAMIC + MAX_HID_DEVICE then Some(cid - CID_DYNAMIC) else None
  }

  /**
   * The first ten CIDs `GetCID` hands out (0x40, 0x42, ..., 0x52) have the
   * even slots 0, 2, ..., 18; the odd slots are never used.
   */
  lemma FirstCidsFit(n: nat)
    requires n < 10
    ensures Slot(L2cap.CidAfter(n)) == Some(2 * n)
  {
    L2cap.CidSequence(n);
  }

  /**
   * The eleventh CID handed out, 0x54, indexes slot 20 of the 20-slot
   * table as written: registering it writes past the table's end.
   */
  lemma TableOverrunAsWritten()
    ensures SlotAsWritten(L2cap.CidAfter(10)) == MAX_HID_DEVICE
    ensures Slot(L2cap.CidAfter(10)).None?
  {
    L2cap.CidSequence(10);
  }

  // ---------------------------------------------------------------------
  // CBTHIDDevice::Connect

  /**
   * What one `Connect` on a PSM made for a device: the CID HIDP's `Connect`
   * returned (0 when L2CAP wrote none), and the effects of L2CAP's
   * `Connect` and of the handlers that ran during its wait, in order.
   */
  datatype Opened = Opened(cid: u16, fx: seq<L2cap.Effect>)

  /** The effect is one that sets the state of the device on connection `conn`. */
  predicate SetsDevice(e: L2cap.Effect, conn: nat)
  {
    e == L2cap.DeviceConnecting(conn) || e == L2cap.DeviceIdle(conn)
  }

  /**
   * The state of the device on connection `conn` after the effects: the
   * last effect that sets it decides, and without one it stays `st`.
   */
  function StateAfter(st: Devices.DeviceState, fx: seq<L2cap.Effect>, conn: nat): (r: Devices.DeviceState)
    ensures (forall i :: 0 <= i < |fx| ==> !SetsDevice(fx[i], conn)) ==> r == st
    ensures r == st || r == Devices.Connecting || r == Devices.Idle
  {
    if |fx| == 0 then st
    else if fx[|fx| - 1] == L2cap.DeviceConnecting(conn) then Devices.Connecting
    else if fx[|fx| - 1] == L2cap.DeviceIdle(conn) then Devices.Idle
    else StateAfter(st, fx[..|fx| - 1], conn)
  }

  /** Effects that come later and do not touch the device leave its state as it was. */
  lemma {:induction false} StateAfterQuietTail(st: Devices.DeviceState, fx: seq<L2cap.Effect>, later: seq<L2cap.Effect>, conn: nat)
    requires forall i :: 0 <= i < |later| ==> !SetsDevice(later[i], conn)
    ensures StateAfter(st, fx + later, conn) == StateAfter(st, fx, conn)
    decreases |later|
  {
    if |later| > 0 {
      var all := fx + later;
      assert all[|all| - 1] == later[|later| - 1];
      assert all[..|all| - 1] == fx + later[..|later| - 1];
      StateAfterQuietTail(st, fx, later[..|later| - 1], conn);
    } else {
      assert fx + later == fx;
    }
  }

  /**
   * What L2CAP's `Connect` does to the device: on a device that is
   * connecting it returns at once, writes neither out-parameter and has no
   * effect; otherwise a call that sends its request (and waits) leaves the
   * device Connecting, and one that does not leaves it Idle or unchanged.
   */
  lemma ConnectStartDeviceState(s: L2cap.L2State, psm: u16, link: L2cap.ConnectLink, connectFails: bool,
                                authFails: bool, lcid0: u16, status0: u16, st: Devices.DeviceState)
    requires L2cap.ValidState(s)
    ensures var r := L2cap.ConnectStart(s, psm, Some(link), connectFails, authFails, lcid0, status0);
      link.connecting ==> r.step.fx == [] && r.step.next == s && r.lcid == lcid0 && r.status == status0
                          && r.step.result == RESULT_PSM_NOT_SUPPORTED && r.step.pending.None?
    ensures var r := L2cap.ConnectStart(s, psm, Some(link), connectFails, authFails, lcid0, status0);
      !link.connecting && r.step.pending.Some? ==> StateAfter(st, r.step.fx, link.conn) == Devices.Connecting
    ensures var r := L2cap.ConnectStart(s, psm, Some(link), connectFails, authFails, lcid0, status0);
      !link.connecting && r.step.pending.None? ==>
        StateAfter(st, r.step.fx, link.conn) == st || StateAfter(st, r.step.fx, link.conn) == Devices.Idle
  {
    var r := L2cap.ConnectStart(s, psm, Some(link), connectFails, authFails, lcid0, status0);
    var fx := r.step.fx;
    if !link.connecting && r.step.pending.Some? {
      assert |fx| >= 2 && fx[|fx| - 2] == L2cap.DeviceConnecting(link.conn) && fx[|fx| - 1].Send?;
      assert fx[..|fx| - 1][|fx| - 2] == L2cap.DeviceConnecting(link.conn);
    } else if !link.connecting && fx != [] {
      assert fx[|fx| - 1] == L2cap.DeviceIdle(link.conn);
    }
  }

  /** What `CBTHIDDevice::Connect` answers, the device's state and CIDs after it, and the CID it registered (0 for none). */
  datatype DeviceConnected = DeviceConnected(code: u16, after: Devices.Links, registered: u16)

  /**
   * `CBTHIDDevice::Connect` (a generic device's `Connect` answers 0 and
   * does nothing): 0 at once when Connected, 1 when not Idle. Otherwise a
   * non-zero control CID is kept. When the control `Connect` left the
   * device Connecting, L2CAP's `Connect` on the interrupt PSM returns at
   * once and the interrupt CID becomes 0; otherwise the interrupt CID is
   * the one returned, and a non-zero one is registered, which makes the
   * device Connected.
   */
  function DeviceConnect(kind: Devices.Kind, before: Devices.Links, conn: nat, control: Opened, interrupt: Opened)
    : (r: DeviceConnected)
    ensures r.code == (if kind != Devices.Generic && before.state != Devices.Connected && before.state != Devices.Idle
                       then 1 else 0)
    ensures kind == Devices.Generic || before.state != Devices.Idle ==> r.after == before && r.registered == 0
    ensures r.registered != 0 ==> r.after.state == Devices.Connected && r.after.interruptCid == r.registered
  {
    if kind == Devices.Generic || before.state == Devices.Connected then DeviceConnected(0, before, 0)
    else if before.state != Devices.Idle then DeviceConnected(1, before, 0)
    else
      var ccid := if control.cid != 0 then control.cid else before.controlCid;
      var st1 := StateAfter(before.state, control.fx, conn);
      if st1 == Devices.Connecting then DeviceConnected(0, Devices.Links(st1, ccid, 0), 0)
      else
        var st2 := StateAfter(st1, interrupt.fx, conn);
        DeviceConnected(0, Devices.Links(if interrupt.cid != 0 then Devices.Connected else st2, ccid, interrupt.cid),
                        interrupt.cid)
  }

  /** An idle HID device ends Connected exactly when an interrupt CID was registered. */
  lemma ConnectedOnlyByRegistering(kind: Devices.Kind, before: Devices.Links, conn: nat, control: Opened, interrupt: Opened)
    requires kind != Devices.Generic && before.state == Devices.Idle
    ensures var o := DeviceConnect(kind, before, conn, control, interrupt);
      o.after.state == Devices.Connected <==> o.registered != 0
  {
  }

  /**
   * An idle HID device whose control `Connect` sent its request (the link
   * is up or was brought up) ends Connecting with interrupt CID 0 and
   * nothing registered, whatever the interrupt `Connect` would have done,
   * as long as nothing during the wait set the device's state; a second
   * `Connect` on it then answers 1.
   */
  lemma ControlConnectBlocksInterrupt(s: L2cap.L2State, link: L2cap.ConnectLink, connectFails: bool, authFails: bool,
                                      lcid0: u16, status0: u16, kind: Devices.Kind, before: Devices.Links, ccid: u16,
                                      later: seq<L2cap.Effect>, interrupt: Opened)
    requires L2cap.ValidState(s) && !link.connecting
    requires L2cap.ConnectStart(s, PSM_HID_CONTROL, Some(link), connectFails, authFails, lcid0, status0).step.pending.Some?
    requires kind != Devices.Generic && before.state == Devices.Idle
    requires forall i :: 0 <= i < |later| ==> !SetsDevice(later[i], link.conn)
    ensures var r := L2cap.ConnectStart(s, PSM_HID_CONTROL, Some(link), connectFails, authFails, lcid0, status0);
      var o := DeviceConnect(kind, before, link.conn, Opened(ccid, r.step.fx + later), interrupt);
      && o.after.state == Devices.Connecting && o.after.interruptCid == 0 && o.registered == 0
      && o.after.controlCid == (if ccid != 0 then ccid else before.controlCid)
      && forall control2, interrupt2 :: DeviceConnect(kind, o.after, link.conn, control2, interrupt2).code == 1
  {
    var r := L2cap.ConnectStart(s, PSM_HID_CONTROL, Some(link), connectFails, authFails, lcid0, status0);
    ConnectStartDeviceState(s, PSM_HID_CONTROL, link, connectFails, authFails, lcid0, status0, before.state);
    StateAfterQuietTail(before.state, r.step.fx, later, link.conn);
  }

  // ---------------------------------------------------------------------
  // The specifications of the handlers

  /**
   * A Connect-Indication for a channel known by its remote CID is accepted:
   * a fresh CID is drawn and `ConnectResponse` answers with success and no
   * further information on the channel's connection. An unknown CID is
   * ignored.
   */
  function ConnectIndAnswer(s: L2cap.L2State, ident: byte, cid: u16): (o: L2cap.Outcome)
    requires L2cap.ValidState(s)
    ensures L2cap.ValidState(o.next)
  {
    match L2cap.GetChannel(s, cid, true)
    case None => L2cap.Outcome(s, [])
    case Some(k) =>
      var lcid := s.nextCid;
      var r := L2cap.ConnectResponse(s.(nextCid := L2cap.NextCid(lcid)), s.heap[k].conn, ident, lcid,
                                     RESULT_CONNECTION_SUCCESSFUL, STATUS_NO_FURTHER_INFORMATION);
      L2cap.Outcome(r.next, r.fx)
  }

  /** The inbound flow the Config-Indication is answered with: the class's own on the interrupt PSM. */
  function ConfigFlow(psm: u16, inFlow: Option<FlowSpec>, c: Connection.Conn): (f: Option<FlowSpec>)
    ensures psm == PSM_HID_INTERRUPT && Connection.IsMouse(c) ==> f == Some(FlowMouse)
    ensures psm == PSM_HID_INTERRUPT && Connection.IsKeyboard(c) ==> f == Some(FlowKeyboard)
    ensures psm == PSM_HID_INTERRUPT && Connection.IsJoystick(c) ==> f == Some(FlowJoystick)
    ensures psm != PSM_HID_INTERRUPT || ClassFlow(c).None? ==> f == inFlow
  {
    if psm == PSM_HID_INTERRUPT && ClassFlow(c).Some? then ClassFlow(c) else inFlow
  }

  /**
   * `GetDevice(cid)` is `GetChannel(cid)->Connection->GetDevice()`, and the
   * class tests on the device read its `m_pConnection`, the same
   * connection: the lookup reaches a device when the CID names a channel
   * whose connection (in the logical layer's `conns`) has a device.
   */
  predicate Reaches(s: L2cap.L2State, cid: u16, conns: map<nat, Connection.Conn>)
    requires L2cap.ValidState(s)
  {
    var ch := L2cap.GetChannel(s, cid, false);
    ch.Some? && s.heap[ch.value].conn in conns && conns[s.heap[ch.value].conn].device != 0
  }

  /**
   * The connection whose class `pDevice->IsMouse()` and its siblings read.
   * Only a CID that `Reaches` is ever asked for it (the handlers require
   * that on the interrupt PSM, where the class is read); elsewhere a fresh
   * record stands in, whose class no flow choice reads.
   */
  function ConnOf(s: L2cap.L2State, cid: u16, conns: map<nat, Connection.Conn>): Connection.Conn
    requires L2cap.ValidState(s)
  {
    if Reaches(s, cid, conns) then conns[s.heap[L2cap.GetChannel(s, cid, false).value].conn]
    else Connection.NewConnection()
  }

  /**
   * A Config-Indication: `ConfigureResponse` with success, the peer's MTU
   * and flush timeout and `ConfigFlow`; then a non-blocking `Configure`
   * with the same MTU, the flow on the interrupt PSM only. On the
   * interrupt PSM the device is looked up without a null check.
   */
  function ConfigIndAnswer(s: L2cap.L2State, ident: byte, cid: u16, psm: u16, outMtu: u16,
                           inFlow: Option<FlowSpec>, inFlushTO: u16, conns: map<nat, Connection.Conn>): (o: L2cap.Outcome)
    requires L2cap.ValidState(s) && (psm == PSM_HID_INTERRUPT ==> Reaches(s, cid, conns))
    ensures L2cap.ValidState(o.next)
  {
    var flow := ConfigFlow(psm, inFlow, ConnOf(s, cid, conns));
    AnswerThenRequest(s, ident, cid, outMtu, inFlushTO, flow, if psm == PSM_HID_INTERRUPT then flow else None)
  }

  /** `ConfigureResponse` with success and the flow `flow`, then a non-blocking `Configure` with `reqFlow`. */
  function AnswerThenRequest(s: L2cap.L2State, ident: byte, cid: u16, outMtu: u16, inFlushTO: u16,
                             flow: Option<FlowSpec>, reqFlow: Option<FlowSpec>): (o: L2cap.Outcome)
    requires L2cap.ValidState(s)
    ensures L2cap.ValidState(o.next)
  {
    var r1 := L2cap.ConfigureResponse(s, ident, cid, 0, RESULT_SUCCESS, outMtu, inFlushTO, flow);
    var r2 := L2cap.Configure(r1.next, cid, outMtu, reqFlow, 0, false);
    L2cap.Outcome(r2.next, r1.fx + r2.fx)
  }

  /**
   * The `Configure` `Connect` makes after L2CAP's Connect, if any: none
   * when that failed; on the interrupt PSM the class's flow, and none for a
   * device of no HID class; on any other PSM one without a flow.
   */
  function ConnectFlow(psm: u16, lresult: u16, c: Connection.Conn): (r: Option<Option<FlowSpec>>)
    ensures lresult != 0 ==> r.None?
    ensures lresult == 0 && psm != PSM_HID_INTERRUPT ==> r == Some(None)
    ensures lresult == 0 && psm == PSM_HID_INTERRUPT ==>
              && (Connection.IsMouse(c) <==> r == Some(Some(FlowMouse)))
              && (Connection.IsKeyboard(c) <==> r == Some(Some(FlowKeyboard)))
              && (Connection.IsJoystick(c) <==> r == Some(Some(FlowJoystick)))
              && (r.None? <==> !Connection.IsMouse(c) && !Connection.IsKeyboard(c) && !Connection.IsJoystick(c))
  {
    if lresult != 0 then None
    else if psm != PSM_HID_INTERRUPT then Some(None)
    else if ClassFlow(c).Some? then Some(ClassFlow(c))
    else None
  }

  // ---------------------------------------------------------------------
  // What the handlers send

  /** A lookup only sees the list and the matching of its entries. */
  lemma LookupAgrees(s: L2cap.L2State, t: L2cap.L2State, key: L2cap.Key)
    requires L2cap.Listed(s.list, s.heap) && t.list == s.list
    requires forall k :: k in s.list ==> k in t.heap && (L2cap.Matches(t.heap[k], key) <==> L2cap.Matches(s.heap[k], key))
    ensures L2cap.Lookup(t, key) == L2cap.Lookup(s, key)
  {
    var i := L2cap.FirstMatch(s.list, s.heap, key);
    if i < |s.list| {
      L2cap.FirstMatchAt(t.list, t.heap, key, i);
    }
  }

  /**
   * When the indicated channel is the one waiting for the upper layer's
   * answer, it becomes the acceptor in Config under the CID drawn, the
   * CID counter moves on, and one Connection Response with success goes
   * to the channel's connection.
   */
  lemma ConnectIndAccepted(s: L2cap.L2State, ident: byte, cid: u16, k: nat)
    requires L2cap.ValidState(s) && L2cap.GetChannel(s, cid, true) == Some(k) && s.heap[k].conn != 0
    requires L2cap.Lookup(s, L2cap.ByState(L2cap.W4L2caConnectRsp)) == Some(k)
    ensures var o := ConnectIndAnswer(s, ident, cid);
      var c := s.heap[k];
      && o.next.nextCid == L2cap.NextCid(s.nextCid) && o.next.list == s.list
      && o.next.heap[k] == c.(initiator := false, state := L2cap.Config, cid := s.nextCid)
      && |o.fx| == 1 && o.fx[0] == L2cap.Send(c.conn, L2cap.SignallingPacket(
           ConnectionResponse(ident, s.nextCid, c.remoteCid, RESULT_CONNECTION_SUCCESSFUL, STATUS_NO_FURTHER_INFORMATION)))
  {
    var t := s.(nextCid := L2cap.NextCid(s.nextCid));
    LookupAgrees(s, t, L2cap.ByState(L2cap.W4L2caConnectRsp));
  }

  /** The Configuration Response with success a Config-Indication on channel `ch` is answered with. */
  function ConfigAnswer(ch: L2cap.Channel, ident: byte, outMtu: u16, inFlushTO: u16, flow: Option<FlowSpec>): L2cap.Effect
  {
    L2cap.Send(ch.conn, L2cap.SignallingPacket(
      ConfigurationResponse(ident, ch.remoteCid, 0, RESULT_SUCCESS, Options(outMtu, inFlushTO, flow))))
  }

  /** The Configuration Request with identifier `id` that follows it. */
  function ConfigRequest(ch: L2cap.Channel, id: byte, outMtu: u16, flow: Option<FlowSpec>): L2cap.Effect
  {
    L2cap.Send(ch.conn, L2cap.SignallingPacket(ConfigurationRequest(id, ch.remoteCid, 0, Options(outMtu, 0, flow))))
  }

  /**
   * A Config-Indication on a channel in Config or Open: the response with
   * success and `ConfigFlow` goes first; the acceptor then sends its own
   * request with the next identifier (with the flow on the interrupt PSM
   * only), while the initiator sends nothing more and its channel is Open.
   */
  lemma ConfigIndAnswered(s: L2cap.L2State, ident: byte, cid: u16, psm: u16, outMtu: u16,
                          inFlow: Option<FlowSpec>, inFlushTO: u16, conns: map<nat, Connection.Conn>, k: nat)
    requires L2cap.ValidState(s) && L2cap.Lookup(s, L2cap.ByCidConfigured(cid)) == Some(k)
    requires psm == PSM_HID_INTERRUPT ==> Reaches(s, cid, conns)
    ensures var o := ConfigIndAnswer(s, ident, cid, psm, outMtu, inFlow, inFlushTO, conns);
      var ch := s.heap[k];
      var flow := ConfigFlow(psm, inFlow, ConnOf(s, cid, conns));
      var answer := ConfigAnswer(ch, ident, outMtu, inFlushTO, flow);
      && o.next.list == s.list
      && o.next.heap == s.heap[k := ch.(state := if ch.initiator then L2cap.Open else ch.state)]
      && o.fx == [answer] + (if ch.initiator then []
                             else [ConfigRequest(ch, s.nextIdent, outMtu, if psm == PSM_HID_INTERRUPT then flow else None)])
  {
    var flow := ConfigFlow(psm, inFlow, ConnOf(s, cid, conns));
    AnswerThenRequestSends(s, ident, cid, outMtu, inFlushTO, flow, if psm == PSM_HID_INTERRUPT then flow else None, k);
  }

  /** `AnswerThenRequest` on a channel in Config or Open, whatever the flows. */
  lemma AnswerThenRequestSends(s: L2cap.L2State, ident: byte, cid: u16, outMtu: u16, inFlushTO: u16,
                               flow: Option<FlowSpec>, reqFlow: Option<FlowSpec>, k: nat)
    requires L2cap.ValidState(s) && L2cap.Lookup(s, L2cap.ByCidConfigured(cid)) == Some(k)
    ensures var o := AnswerThenRequest(s, ident, cid, outMtu, inFlushTO, flow, reqFlow);
      var ch := s.heap[k];
      && o.next.list == s.list
      && o.next.heap == s.heap[k := ch.(state := if ch.initiator then L2cap.Open else ch.state)]
      && o.fx == [ConfigAnswer(ch, ident, outMtu, inFlushTO, flow)]
                 + (if ch.initiator then [] else [ConfigRequest(ch, s.nextIdent, outMtu, reqFlow)])
  {
    var ch := s.heap[k];
    var t := ConfigIndResponds(s, ident, cid, outMtu, inFlushTO, flow, k);
    ConfigIndRequests(t, cid, outMtu, reqFlow, k, ch);
    var r2 := L2cap.Configure(t, cid, outMtu, reqFlow, 0, false);
    var o := AnswerThenRequest(s, ident, cid, outMtu, inFlushTO, flow, reqFlow);
    assert o.next == r2.next && o.fx == [ConfigAnswer(ch, ident, outMtu, inFlushTO, flow)] + r2.fx;
  }

  /** The response half: `t` is the state after it, with the channel Open if it is the initiator. */
  lemma ConfigIndResponds(s: L2cap.L2State, ident: byte, cid: u16, outMtu: u16, inFlushTO: u16,
                          flow: Option<FlowSpec>, k: nat) returns (t: L2cap.L2State)
    requires L2cap.ValidState(s) && L2cap.Lookup(s, L2cap.ByCidConfigured(cid)) == Some(k)
    ensures var ch := s.heap[k];
      && t == s.(heap := s.heap[k := ch.(state := if ch.initiator then L2cap.Open else ch.state)])
      && L2cap.ConfigureResponse(s, ident, cid, 0, RESULT_SUCCESS, outMtu, inFlushTO, flow)
           == L2cap.Done(t, [ConfigAnswer(ch, ident, outMtu, inFlushTO, flow)], RESULT_SUCCESS)
      && L2cap.ValidState(t) && L2cap.Lookup(t, L2cap.ByCidConfigured(cid)) == Some(k)
  {
    var ch := s.heap[k];
    var ch' := ch.(state := if ch.initiator then L2cap.Open else ch.state);
    L2cap.ConfigureResponseFound(s, ident, cid, 0, RESULT_SUCCESS, outMtu, inFlushTO, flow, k);
    t := s.(heap := s.heap[k := ch']);
    if ch.initiator {
      assert L2cap.Matches(ch, L2cap.ByCidConfigured(cid)) && ch'.cid == ch.cid && ch'.state == L2cap.Open;
      UpdateKeepsLookup(s, k, ch', L2cap.ByCidConfigured(cid));
    } else {
      assert s.heap[k := ch'] == s.heap;
    }
  }

  /** The request half: only an acceptor channel sends, with the next identifier. */
  lemma ConfigIndRequests(t: L2cap.L2State, cid: u16, outMtu: u16, reqFlow: Option<FlowSpec>, k: nat, ch: L2cap.Channel)
    requires L2cap.ValidState(t) && L2cap.Lookup(t, L2cap.ByCidConfigured(cid)) == Some(k)
    requires t.heap[k].conn == ch.conn && t.heap[k].remoteCid == ch.remoteCid && t.heap[k].initiator == ch.initiator
    ensures var r := L2cap.Configure(t, cid, outMtu, reqFlow, 0, false);
      && r.next.list == t.list && r.next.heap == t.heap
      && r.fx == if ch.initiator then [] else [ConfigRequest(ch, t.nextIdent, outMtu, reqFlow)]
  {
  }

  /** Replacing a listed channel by one that matches a key alike leaves that key's lookup alone. */
  lemma UpdateKeepsLookup(s: L2cap.L2State, k: nat, c: L2cap.Channel, key: L2cap.Key)
    requires L2cap.ValidState(s) && k in s.heap
    requires L2cap.Matches(c, key) <==> L2cap.Matches(s.heap[k], key)
    ensures L2cap.Lookup(s.(heap := s.heap[k := c]), key) == L2cap.Lookup(s, key)
  {
    var t := s.(heap := s.heap[k := c]);
    forall j | j in s.list
      ensures j in t.heap && (L2cap.Matches(t.heap[j], key) <==> L2cap.Matches(s.heap[j], key))
    {
    }
    LookupAgrees(s, t, key);
  }

  // ---------------------------------------------------------------------
  // The layer

  class Layer {
    /** `m_DeviceTable`: the device of each interrupt CID, by CID - 0x40. */
    const table: array<Devices.Device?>
    const l2cap: L2capLayer.Layer

    ghost predicate Valid()
      reads this, l2cap, l2cap.channels, l2cap.channels.storage, l2cap.event, l2cap.inBuffer
    {
      table.Length == MAX_HID_DEVICE && l2cap.Valid()
    }

    /**
     * The table starts empty, and both HID PSMs get a signalling and a data
     * callback at the L2CAP layer.
     */
    constructor (l2cap: L2capLayer.Layer)
      modifies l2cap
      requires l2cap.Valid()
      ensures Valid() && this.l2cap == l2cap && fresh(table)
      ensures forall i :: 0 <= i < table.Length ==> table[i] == null
      ensures l2cap.Abs() == old(l2cap.Abs()).(signallingPsms := old(l2cap.signallingPsms) + {PSM_HID_CONTROL, PSM_HID_INTERRUPT},
                                               dataPsms := old(l2cap.dataPsms) + {PSM_HID_CONTROL, PSM_HID_INTERRUPT})
    {
      this.l2cap := l2cap;
      table := new Devices.Device?[MAX_HID_DEVICE](_ => null);
      new;
      l2cap.RegisterCallback(PSM_HID_CONTROL);
      l2cap.RegisterCallback(PSM_HID_INTERRUPT);
      l2cap.RegisterDataCallback(PSM_HID_CONTROL);
      l2cap.RegisterDataCallback(PSM_HID_INTERRUPT);
    }

    /** The destructor: both PSMs' callbacks are cleared. */
    method Close()
      modifies l2cap
      requires Valid()
      ensures Valid()
      ensures l2cap.Abs() == old(l2cap.Abs()).(signallingPsms := old(l2cap.signallingPsms) - {PSM_HID_CONTROL, PSM_HID_INTERRUPT},
                                               dataPsms := old(l2cap.dataPsms) - {PSM_HID_CONTROL, PSM_HID_INTERRUPT})
    {
      l2cap.DeregisterDataCallback(PSM_HID_CONTROL);
      l2cap.DeregisterDataCallback(PSM_HID_INTERRUPT);
    }

    /**
     * `RegisterCallback`, corrected: the device goes to the CID's slot when
     * it has one, and is marked Connected.
     */
    method RegisterCallback(cid: u16, dev: Devices.Device)
      modifies table, dev
      requires Valid()
      ensures Valid()
      ensures forall i :: 0 <= i < table.Length ==> table[i] == (if Slot(cid) == Some(i) then dev else old(table[i]))
      ensures dev.state == Devices.Connected
      ensures dev.controlCid == old(dev.controlCid) && dev.interruptCid == old(dev.interruptCid)
      ensures dev.Pointer() == old(dev.Pointer())
    {
      var slot := Slot(cid);
      if slot.Some? {
        table[slot.value] := dev;
      }
      dev.SetState(Devices.Connected);
    }

    /** `DeregisterCallback`, corrected: the CID's slot, when it has one, is emptied. */
    method DeregisterCallback(cid: u16)
      modifies table
      requires Valid()
      ensures Valid()
      ensures forall i :: 0 <= i < table.Length ==> table[i] == (if Slot(cid) == Some(i) then null else old(table[i]))
    {
      var slot := Slot(cid);
      if slot.Some? {
        table[slot.value] := null;
      }
    }

    /**
     * `RegisterCallback` as written: the device goes to slot
     * `cid - 0x40` whatever the CID. `overrun` reports a slot outside the
     * 20-slot table, a write past its bounds, which stores nothing here.
     */
    method RegisterCallbackAsWritten(cid: u16, dev: Devices.Device) returns (overrun: bool)
      modifies table, dev
      requires Valid()
      ensures Valid()
      ensures overrun <==> SlotAsWritten(cid) < 0 || SlotAsWritten(cid) >= MAX_HID_DEVICE
      ensures forall i :: 0 <= i < table.Length ==> table[i] == (if SlotAsWritten(cid) == i then dev else old(table[i]))
      ensures dev.state == Devices.Connected
      ensures dev.controlCid == old(dev.controlCid) && dev.interruptCid == old(dev.interruptCid)
      ensures dev.Pointer() == old(dev.Pointer())
    {
      var slot := SlotAsWritten(cid);
      overrun := slot < 0 || slot >= table.Length;
      if !overrun {
        table[slot] := dev;
      }
      dev.SetState(Devices.Connected);
    }

    /** `DeregisterCallback` as written: slot `cid - 0x40` is emptied, `overrun` when it lies outside the table. */
    method DeregisterCallbackAsWritten(cid: u16) returns (overrun: bool)
      modifies table
      requires Valid()
      ensures Valid()
      ensures overrun <==> SlotAsWritten(cid) < 0 || SlotAsWritten(cid) >= MAX_HID_DEVICE
      ensures forall i :: 0 <= i < table.Length ==> table[i] == (if SlotAsWritten(cid) == i then null else old(table[i]))
    {
      var slot := SlotAsWritten(cid);
      overrun := slot < 0 || slot >= table.Length;
      if !overrun {
        table[slot] := null;
      }
    }

    /** A message reaches a device: it is DATA and the slot, which exists, holds one. */
    predicate Dispatches(index: nat, payload: Bytes)
      reads table
    {
      |payload| >= 1 && MessageType(payload) == MESSAGE_DATA && index < table.Length && table[index] != null
    }

    /** The objects a message may change: the device it reaches and that device's queue. */
    ghost function Reached(index: nat, payload: Bytes): set<object>
      reads table, if index < table.Length then {table[index]} else {}
    {
      if Dispatches(index, payload) then {table[index], table[index].events} else {}
    }

    /** What a message demands of the device it reaches. */
    predicate Parseable(index: nat, payload: Bytes)
      reads table, if index < table.Length then {table[index]} else {}
    {
      Dispatches(index, payload) ==>
        table[index].kind == Devices.MouseDevice ==> Mouse.IsBootReport(payload[1..])
    }

    /**
     * `DataHandler`, corrected: a DATA message whose slot exists and holds
     * a device is that device's report, the payload after the one-byte
     * header; every other message type, an empty slot and (in this
     * corrected form) an index past the table change nothing.
     */
    method DataHandler(index: nat, payload: Bytes)
      modifies Reached(index, payload)
      requires Valid() && Parseable(index, payload)
      requires Dispatches(index, payload) ==> table[index].Valid()
      ensures Valid()
      ensures Dispatches(index, payload) ==> table[index].Valid() && table[index].Parsed(payload[1..])
    {
      if |payload| >= 1 && MessageType(payload) == MESSAGE_DATA && index < table.Length {
        var dev := table[index];
        if dev != null {
          dev.Parser(payload[1..]);
        }
      }
    }

    /**
     * `DataHandler` as written: a DATA message reads slot `index` without a
     * bound; `overrun` reports an index past the table, where the read is
     * out of bounds. Within the table it is the corrected handler.
     */
    method DataHandlerAsWritten(index: nat, payload: Bytes) returns (overrun: bool)
      modifies Reached(index, payload)
      requires Valid() && Parseable(index, payload)
      requires Dispatches(index, payload) ==> table[index].Valid()
      ensures Valid()
      ensures overrun <==> |payload| >= 1 && MessageType(payload) == MESSAGE_DATA && index >= MAX_HID_DEVICE
      ensures Dispatches(index, payload) ==> table[index].Valid() && table[index].Parsed(payload[1..])
    {
      overrun := |payload| >= 1 && MessageType(payload) == MESSAGE_DATA && index >= table.Length;
      if !overrun {
        DataHandler(index, payload);
      }
    }

    /**
     * The eleventh CID `GetCID` hands out, 0x54, registered as written
     * writes past the table's end (slot 20); no slot of the table changes.
     */
    method RegisterOverrunAsWritten(dev: Devices.Device) returns (overrun: bool)
      modifies table, dev
      requires Valid()
      ensures Valid() && overrun
      ensures forall i :: 0 <= i < table.Length ==> table[i] == old(table[i])
    {
      TableOverrunAsWritten();
      overrun := RegisterCallbackAsWritten(L2cap.CidAfter(10), dev);
    }

    /** `DataStub`: a CID below the dynamic range is dropped; any other goes on as CID - 0x40. */
    method DataStub(cid: u16, payload: Bytes)
      modifies if cid < CID_DYNAMIC then {} else Reached(cid - CID_DYNAMIC, payload)
      requires Valid()
      requires cid >= CID_DYNAMIC ==> Parseable(cid - CID_DYNAMIC, payload)
      requires cid >= CID_DYNAMIC && Dispatches(cid - CID_DYNAMIC, payload) ==> table[cid - CID_DYNAMIC].Valid()
      ensures Valid()
      ensures cid >= CID_DYNAMIC && Dispatches(cid - CID_DYNAMIC, payload) ==>
                var d := table[cid - CID_DYNAMIC]; d.Valid() && d.Parsed(payload[1..])
    {
      if cid < CID_DYNAMIC {
        return;
      }
      DataHandler(cid - CID_DYNAMIC, payload);
    }

    // -------------------------------------------------------------------
    // The indications

    /** The Connect-Indication handler. */
    method OnConnectInd(ident: byte, cid: u16) returns (fx: seq<L2cap.Effect>)
      modifies l2cap
      requires Valid()
      ensures Valid() && L2cap.Outcome(l2cap.Abs(), fx) == ConnectIndAnswer(old(l2cap.Abs()), ident, cid)
    {
      fx := [];
      var ch := l2cap.GetChannel(cid, true);
      if ch.Some? {
        var conn := l2cap.heap[ch.value].conn;
        var lcid := l2cap.GetCID();
        var result;
        result, fx := l2cap.ConnectResponse(conn, ident, lcid, RESULT_CONNECTION_SUCCESSFUL, STATUS_NO_FURTHER_INFORMATION);
      }
    }

    /**
     * The Config-Indication handler; `conns` are the logical layer's
     * connections, where the device lookup on the interrupt PSM ends.
     */
    method OnConfigInd(ident: byte, cid: u16, psm: u16, outMtu: u16, inFlow: Option<FlowSpec>, inFlushTO: u16,
                       conns: map<nat, Connection.Conn>) returns (fx: seq<L2cap.Effect>)
      modifies l2cap
      requires Valid()
      requires psm == PSM_HID_INTERRUPT ==> Reaches(l2cap.Abs(), cid, conns)
      ensures Valid()
      ensures L2cap.Outcome(l2cap.Abs(), fx) == ConfigIndAnswer(old(l2cap.Abs()), ident, cid, psm, outMtu, inFlow, inFlushTO, conns)
    {
      var flow := inFlow;
      if psm == PSM_HID_INTERRUPT {
        var ch := l2cap.GetChannel(cid, false);
        var f := ClassFlow(conns[l2cap.heap[ch.value].conn]);
        if f.Some? {
          flow := f;
        }
      }
      var r1, fx1 := l2cap.ConfigureResponse(ident, cid, 0, RESULT_SUCCESS, outMtu, inFlushTO, flow);
      var r2, fx2, pending := l2cap.Configure(cid, outMtu, if psm == PSM_HID_INTERRUPT then flow else None, 0, false);
      fx := fx1 + fx2;
    }

    /**
     * The Config-Confirmation handler, with `dev` the device `GetDevice`
     * reaches from the channel (its connection in the logical layer's
     * `conns` links back to `dev`): on the interrupt PSM the CID becomes
     * the device's interrupt CID and is registered (the device is then
     * Connected); on any other it becomes the control CID.
     */
    method OnConfigCfm(scid: u16, conns: map<nat, Connection.Conn>, dev: Devices.Device)
      modifies table, dev, l2cap.channels, l2cap.channels.storage
      requires Valid() && Reaches(l2cap.Abs(), scid, conns)
      requires var conn := l2cap.Abs().heap[L2cap.GetChannel(l2cap.Abs(), scid, false).value].conn;
        dev.conn == conn && conns[conn].device == dev.id
      ensures Valid()
      ensures var interrupt := L2cap.GetPSM(old(l2cap.Abs()), scid) == PSM_HID_INTERRUPT;
        && (interrupt ==>
              && dev.interruptCid == scid && dev.controlCid == old(dev.controlCid) && dev.state == Devices.Connected
              && l2cap.Abs() == (if old(dev.interruptCid) != 0 && old(dev.interruptCid) != scid
                                 then L2cap.DeleteChannel(old(l2cap.Abs()), old(dev.interruptCid)).0 else old(l2cap.Abs()))
              && forall i :: 0 <= i < table.Length ==> table[i] == (if Slot(scid) == Some(i) then dev else old(table[i])))
        && (!interrupt ==>
              && dev.controlCid == scid && dev.interruptCid == old(dev.interruptCid) && dev.state == old(dev.state)
              && l2cap.Abs() == (if old(dev.controlCid) != 0 && old(dev.controlCid) != scid
                                 then L2cap.DeleteChannel(old(l2cap.Abs()), old(dev.controlCid)).0 else old(l2cap.Abs()))
              && forall i :: 0 <= i < table.Length ==> table[i] == old(table[i]))
      ensures dev.Pointer() == old(dev.Pointer())
    {
      var psm := l2cap.GetPSM(scid);
      if psm == PSM_HID_INTERRUPT {
        dev.SetInterruptCID(scid, l2cap);
        RegisterCallback(scid, dev);
      } else {
        dev.SetControlCID(scid, l2cap);
      }
    }

    /** The Disconnect-Indication handler answers at once. */
    method OnDisconnectInd(ident: byte, cid: u16) returns (fx: seq<L2cap.Effect>)
      modifies l2cap, l2cap.channels, l2cap.channels.storage
      requires Valid()
      ensures Valid()
      ensures L2cap.Outcome(l2cap.Abs(), fx) == var r := L2cap.DisconnectResponse(old(l2cap.Abs()), ident, cid); L2cap.Outcome(r.next, r.fx)
    {
      var result;
      result, fx := l2cap.DisconnectResponse(ident, cid);
    }

    /**
     * `Connect` after L2CAP's Connect returned `lresult` and the CID `lcid`;
     * `conns` are the logical layer's connections, where the device lookup
     * on the interrupt PSM ends. The CID is returned whatever happens, and
     * the blocking `Configure` chosen by `ConnectFlow` is taken up to its
     * Wait.
     */
    method Connect(psm: u16, mtu: u16, lresult: u16, lcid: u16, conns: map<nat, Connection.Conn>)
      returns (cid: u16, fx: seq<L2cap.Effect>, pending: Option<L2cap.Pending>)
      modifies l2cap
      requires Valid()
      requires lresult == 0 && psm == PSM_HID_INTERRUPT ==> Reaches(l2cap.Abs(), lcid, conns)
      ensures Valid() && cid == lcid
      ensures match ConnectFlow(psm, lresult, ConnOf(old(l2cap.Abs()), lcid, conns))
              case None => l2cap.Abs() == old(l2cap.Abs()) && fx == [] && pending.None?
              case Some(flow) =>
                var r := L2cap.Configure(old(l2cap.Abs()), lcid, mtu, flow, 0, true);
                l2cap.Abs() == r.next && fx == r.fx && pending == r.pending
    {
      cid, fx, pending := lcid, [], None;
      if lresult == 0 {
        var result;
        if psm == PSM_HID_INTERRUPT {
          var ch := l2cap.GetChannel(lcid, false);
          var f := ClassFlow(conns[l2cap.heap[ch.value].conn]);
          if f.Some? {
            result, fx, pending := l2cap.Configure(lcid, mtu, f, 0, true);
          }
        } else {
          result, fx, pending := l2cap.Configure(lcid, mtu, None, 0, true);
        }
      }
    }

    /**
     * `CBTHIDDevice::Connect`, given what the `Connect` calls on the
     * control and interrupt PSMs made (`control`, `interrupt`): the answer,
     * the device's state and CIDs, and the table slot are those of
     * `DeviceConnect`. When the control call left the device Connecting,
     * `interrupt` is not consulted.
     */
    method ConnectDevice(d: Devices.Device, control: Opened, interrupt: Opened) returns (r: u16)
      modifies table, d
      requires Valid()
      ensures Valid()
      ensures var o := DeviceConnect(d.kind, old(d.Channels()), d.conn, control, interrupt);
        && r == o.code && d.Channels() == o.after
        && forall i :: 0 <= i < table.Length ==>
             table[i] == (if o.registered != 0 && Slot(o.registered) == Some(i) then d else old(table[i]))
      ensures d.Pointer() == old(d.Pointer())
    {
      if d.kind == Devices.Generic || d.state == Devices.Connected {
        return 0;
      }
      if d.state != Devices.Idle {
        return 1;
      }
      if control.cid != 0 {
        d.controlCid := control.cid;
      }
      d.SetState(StateAfter(d.state, control.fx, d.conn));
      if d.state == Devices.Connecting {
        // L2CAP's Connect on the interrupt PSM returns at once and leaves the CID at 0.
        d.interruptCid := 0;
        return 0;
      }
      d.SetState(StateAfter(d.state, interrupt.fx, d.conn));
      d.interruptCid := interrupt.cid;
      if interrupt.cid != 0 {
        RegisterCallback(interrupt.cid, d);
      }
      return 0;
    }

    /** The HID device's destructor: a held interrupt CID is deregistered. */
    method ReleaseDevice(d: Devices.Device)
      modifies table
      requires Valid()
      ensures Valid()
      ensures forall i :: 0 <= i < table.Length ==>
                table[i] == (if d.kind != Devices.Generic && d.interruptCid != 0 && Slot(d.interruptCid) == Some(i)
                             then null else old(table[i]))
    {
      if d.kind != Devices.Generic && d.interruptCid != 0 {
        DeregisterCallback(d.interruptCid);
      }
    }
  }
}

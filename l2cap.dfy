// The L2CAP layer (src/l2cap/btl2cap.cpp and the Process handlers of
// src/l2cap/btl2capcommand.cpp): the channel list and each channel's state
// machine, the CID and identifier allocators, request/response correlation
// by identifier, the blocking-read fill and the dispatch of inbound frames.
//
// The specification is a state `L2State` and one step function per
// operation; `Layer` is the class that carries the same state in fields
// and whose methods are proved to take exactly those steps. What the layer
// hands to the logical layer, to the devices and to the registered
// callbacks comes back as a sequence of `Effect`s. A blocking operation is
// split at its Wait: the first half arms the response record and sends,
// the handlers run, and the second half reads what they recorded.
module L2cap {
  import opened Bytes
  import opened L2capWire
  import PtrArrays
  import Logical

  datatype ChannelState =
    | Closed
    | W4L2capConnectRsp
    | W4L2caConnectRsp
    | Config
    | Open
    | W4L2capDisconnectRsp
    | W4L2caDisconnectRsp

  predicate IsOpen(s: ChannelState) { s == Open }
  predicate IsClosed(s: ChannelState) { s == Closed }
  predicate IsConnectWait(s: ChannelState) { s == W4L2capConnectRsp || s == W4L2caConnectRsp }
  predicate IsDisconnectWait(s: ChannelState) { s == W4L2capDisconnectRsp || s == W4L2caDisconnectRsp }

  /** `CBTL2CAPChannel`; `conn` is the id of the logical connection it runs over. */
  datatype Channel = Channel(cid: u16, psm: u16, remoteCid: u16, initiator: bool,
                             state: ChannelState, conn: nat)

  /** `GetCID`'s private counter after handing out `cid`: two further on, as a u16. */
  function NextCid(cid: u16): (r: u16)
    ensures cid + 2 < 0x1_0000 ==> r == cid + 2
  {
    (cid + 2) % 0x1_0000
  }

  /** The CID the n-th call of `GetCID` hands out, counting from 0. */
  function CidAfter(n: nat): (cid: u16)
  {
    if n == 0 then CID_DYNAMIC else NextCid(CidAfter(n - 1))
  }

  /**
   * `GetCID` hands out 0x40, 0x42, 0x44, ...: even values, two apart,
   * strictly increasing until the u16 counter wraps round.
   */
  lemma {:induction false} CidSequence(n: nat)
    ensures CidAfter(n) == (CID_DYNAMIC + 2 * n) % 0x1_0000
    ensures CidAfter(n) % 2 == 0
    ensures CID_DYNAMIC + 2 * (n + 1) < 0x1_0000 ==> CidAfter(n) < CidAfter(n + 1)
  {
    if n > 0 {
      CidSequence(n - 1);
    }
  }

  /** `GetID`'s private u8 counter after handing out `id`, as written: 0xFF wraps to 0. */
  function NextIdentAsWritten(id: byte): (r: byte)
    ensures id < 0xFF ==> r == id + 1
  {
    (id + 1) % 0x100
  }

  /**
   * `GetID`, corrected: identifier 0 is not a legal signalling identifier
   * (section 4 of the Bluetooth Core Specification, Vol 3 Part A), so the
   * counter skips it on wrapping.
   */
  function NextIdent(id: byte): (r: byte)
    ensures id < 0xFF ==> r == id + 1
    ensures r != 0
  {
    if id == 0xFF then 1 else id + 1
  }

  /** The identifier the n-th call of `GetID` hands out, counting from 0, as written and corrected. */
  function IdentAsWrittenAfter(n: nat): byte
  {
    if n == 0 then 1 else NextIdentAsWritten(IdentAsWrittenAfter(n - 1))
  }

  function IdentAfter(n: nat): byte
  {
    if n == 0 then 1 else NextIdent(IdentAfter(n - 1))
  }

  /** Both counters count 1, 2, ..., 255 over the first 255 calls. */
  lemma {:induction false} IdentRamp(n: nat)
    requires n < 0xFF
    ensures IdentAsWrittenAfter(n) == n + 1 && IdentAfter(n) == n + 1
  {
    if n > 0 {
      IdentRamp(n - 1);
      assert IdentAsWrittenAfter(n) == NextIdentAsWritten(n as byte);
      assert IdentAfter(n) == NextIdent(n as byte);
    }
  }

  /** As written, the 256th identifier handed out is 0; corrected, it is 1 again. */
  lemma IdentAsWrittenReachesZero()
    ensures IdentAsWrittenAfter(0xFF) == 0 && IdentAfter(0xFF) == 1
  {
    IdentRamp(0xFE);
  }

  /** Corrected, no identifier handed out is ever 0. */
  lemma {:induction false} IdentNeverZero(n: nat)
    ensures IdentAfter(n) != 0
  {
    if n > 0 {
      IdentNeverZero(n - 1);
    }
  }

  /**
   * `m_eConnectRsp`: the identifier a Connect waits on, the channel whose
   * RemoteCID and State the response fills in, and the caller's LCID,
   * result and status the response writes through its pointers.
   */
  datatype ConnectRsp = ConnectRsp(ident: byte, channel: nat, lcid: u16, result: u16, status: u16)
  /** `m_eConfigRsp`; `flow` is None where the response carried no QoS option (a null pointer). */
  datatype ConfigRsp = ConfigRsp(ident: byte, scid: u16, flags: u16, result: u16, mtu: u16,
                                 flushTO: u16, flow: Option<FlowSpec>)
  datatype DisconnectRsp = DisconnectRsp(ident: byte, dcid: u16, scid: u16)
  datatype CommandRsp = CommandRsp(ident: byte, reason: u16)
  /** `m_eDataRead` without its buffer pointer, which `L2State.inBuffer` stands for. */
  datatype DataRead = DataRead(cid: u16, length: u16, result: u16, n: u16)

  /** The `CBTL2CA*` events handed to a PSM's signalling callback. */
  datatype Indication =
    | ConnectInd(ident: byte, cid: u16, psm: u16)
    | ConnectCfm(ident: byte, dcid: u16, scid: u16, result: u16, status: u16)
    | ConfigInd(ident: byte, cid: u16, psm: u16, outMtu: u16, inFlow: Option<FlowSpec>, inFlushTO: u16)
    | ConfigCfm(ident: byte, scid: u16, flags: u16, result: u16, mtu: u16, flow: Option<FlowSpec>,
                flushTO: u16)
    | DisconnectInd(ident: byte, cid: u16)

  /** What the layer does outside its own state. */
  datatype Effect =
    | Send(conn: nat, packet: Bytes)                 // SendACLData on a connection
    | LinkConnect(conn: nat)                         // the logical layer's Connect
    | LinkAuthenticate(conn: nat)                    // the logical layer's Authenticate with the default PIN
    | LinkAccept(conn: nat)                          // the logical layer's ConnectResponse with the default PIN
    | CreateDevice(conn: nat)                        // the subsystem's CreateDevice
    | DeviceConnecting(conn: nat)                    // the connection's device set CONNECTING
    | DeviceIdle(conn: nat)                          // the connection's device set IDLE
    | Signal(psm: u16, event: Indication)            // a signalling callback
    | Deliver(psm: u16, cid: u16, length: u16, data: Bytes)  // a data callback

  datatype L2State = L2State(
    list: seq<nat>,            // m_Channels, by channel id
    heap: map<nat, Channel>,
    nextKey: nat,              // the id the next channel object gets
    nextCid: u16,
    nextIdent: byte,
    incoming: nat,             // m_pIncomingConnection, 0 for null
    connectRsp: ConnectRsp,
    configRsp: ConfigRsp,
    disconnectRsp: DisconnectRsp,
    commandRsp: CommandRsp,
    dataRead: DataRead,
    inBuffer: Option<Bytes>,   // the armed read's buffer, None for null
    event: Bytes,              // m_pEventBuffer
    signalled: bool,
    signallingPsms: set<u16>,  // PSMs with a signalling callback
    dataPsms: set<u16>)        // PSMs with a data callback

  predicate ValidState(s: L2State)
  {
    (forall k :: k in s.list ==> k in s.heap)
    && 0 < s.nextKey && (forall k :: k in s.heap ==> 0 < k < s.nextKey) && s.nextIdent != 0
    && (s.connectRsp.channel == 0 || s.connectRsp.channel in s.heap)
    && (s.inBuffer.Some? ==> s.dataRead.n <= s.dataRead.length <= |s.inBuffer.value|)
    && |s.event| == MIN_SIG_MTU_LEN
    && (forall p :: p in s.signallingPsms ==> p < MAX_PSM_SLOT)
    && (forall p :: p in s.dataPsms ==> p < MAX_PSM_SLOT)
  }

  /** The state the constructor leaves, before any counter has moved. */
  function Initial(event: Bytes): (s: L2State)
    requires |event| == MIN_SIG_MTU_LEN
    ensures ValidState(s)
  {
    L2State([], map[], 1, CID_DYNAMIC, 1, 0, ConnectRsp(0, 0, 0, 0, 0), ConfigRsp(0, 0, 0, 0, 0, 0, None),
            DisconnectRsp(0, 0, 0), CommandRsp(0, 0), DataRead(0, 0, 0, 0), None, event, false, {}, {})
  }

  /** A signalling packet carrying one command: Length = GetLength(), channel 0x0001. */
  function SignallingPacket(c: Command): (b: Bytes)
    requires WellFormed(c)
    ensures |b| == PACKET_HEADER_SIZE + GetLength(c)
    ensures ReadLE16(b, 0) == GetLength(c) && ReadLE16(b, 2) == CID_SIGNALLING
    ensures b[PACKET_HEADER_SIZE..] == Encode(c)
  {
    Packet(CID_SIGNALLING, Encode(c))
  }

  // ---------------------------------------------------------------------
  // Finding channels

  /** The tests the channel-list loops make. */
  datatype Key =
    | ByCid(cid: u16)
    | ByRemoteCid(cid: u16)
    | ByCidConfigured(cid: u16)            // CID and Config or Open
    | ByCidIn(cid: u16, state: ChannelState)
    | ByState(state: ChannelState)
    | ByPsmConn(psm: u16, conn: nat)

  predicate Matches(c: Channel, key: Key)
  {
    match key
    case ByCid(cid) => c.cid == cid
    case ByRemoteCid(cid) => c.remoteCid == cid
    case ByCidConfigured(cid) => c.cid == cid && (c.state == Config || c.state == Open)
    case ByCidIn(cid, state) => c.cid == cid && c.state == state
    case ByState(state) => c.state == state
    case ByPsmConn(psm, conn) => c.psm == psm && c.conn == conn
  }

  predicate Listed(list: seq<nat>, heap: map<nat, Channel>)
  {
    forall k :: k in list ==> k in heap
  }

  /** Position of the first listed channel that matches, or |list|. */
  function FirstMatch(list: seq<nat>, heap: map<nat, Channel>, key: Key): (i: nat)
    requires Listed(list, heap)
    ensures i <= |list|
    ensures i < |list| ==> Matches(heap[list[i]], key)
    ensures forall j :: 0 <= j < i ==> !Matches(heap[list[j]], key)
  {
    if |list| == 0 then 0
    else if Matches(heap[list[0]], key) then 0
    else
      assert forall j :: 1 <= j < |list| ==> list[j] == list[1..][j - 1];
      1 + FirstMatch(list[1..], heap, key)
  }

  /** The first listed channel that matches, as the loops with a `found` flag return it. */
  function Lookup(s: L2State, key: Key): (r: Option<nat>)
    requires Listed(s.list, s.heap)
    ensures r.Some? ==> r.value in s.list && Matches(s.heap[r.value], key)
    ensures r.None? <==> forall k :: k in s.list ==> !Matches(s.heap[k], key)
  {
    var i := FirstMatch(s.list, s.heap, key);
    if i < |s.list| then Some(s.list[i])
    else
      assert forall k :: k in s.list ==> exists j :: 0 <= j < |s.list| && s.list[j] == k;
      None
  }

  /** `GetPSM`: the PSM of the first channel with the CID, or 0. */
  function GetPSM(s: L2State, cid: u16): (psm: u16)
    requires Listed(s.list, s.heap)
    ensures (forall k :: k in s.list ==> s.heap[k].cid != cid) ==> psm == 0
  {
    match Lookup(s, ByCid(cid))
    case None => 0
    case Some(k) => s.heap[k].psm
  }

  /**
   * `GetChannel` as written: the loop leaves `pChannel` at the last
   * channel it examined, so with no match it returns the last listed
   * channel, and null only for an empty list.
   */
  function GetChannelAsWritten(s: L2State, cid: u16, remote: bool): (r: Option<nat>)
    requires Listed(s.list, s.heap)
    ensures r.None? <==> s.list == []
    ensures r.Some? ==> r.value in s.list && r.value in s.heap
  {
    var key := if remote then ByRemoteCid(cid) else ByCid(cid);
    match Lookup(s, key)
    case Some(k) => Some(k)
    case None => if s.list == [] then None else Some(s.list[|s.list| - 1])
  }

  /** `GetChannel`, corrected: the first channel with the CID, or null. */
  function GetChannel(s: L2State, cid: u16, remote: bool): (r: Option<nat>)
    requires Listed(s.list, s.heap)
  {
    Lookup(s, if remote then ByRemoteCid(cid) else ByCid(cid))
  }

  /** The two agree whenever some channel has the CID; otherwise only the corrected one answers null. */
  lemma GetChannelCorrected(s: L2State, cid: u16, remote: bool)
    requires Listed(s.list, s.heap)
    ensures GetChannel(s, cid, remote).Some? ==> GetChannelAsWritten(s, cid, remote) == GetChannel(s, cid, remote)
    ensures GetChannel(s, cid, remote).None? <==>
      forall k :: k in s.list ==> (if remote then s.heap[k].remoteCid else s.heap[k].cid) != cid
    ensures GetChannel(s, cid, remote).Some? ==>
      var c := s.heap[GetChannel(s, cid, remote).value];
      (if remote then c.remoteCid else c.cid) == cid
  {
  }

  /** With one channel of CID 0x40 listed, asking for 0x42 gets that channel back. */
  lemma GetChannelAsWrittenReturnsStranger()
    ensures var s := Initial(Zeros(MIN_SIG_MTU_LEN)).(list := [1], heap := map[1 := Channel(0x40, 0x11, 0x41, true, Open, 1)], nextKey := 2);
      GetChannelAsWritten(s, 0x42, false) == Some(1) && s.heap[1].cid != 0x42
      && GetChannel(s, 0x42, false).None?
  {
    var s := Initial(Zeros(MIN_SIG_MTU_LEN)).(list := [1], heap := map[1 := Channel(0x40, 0x11, 0x41, true, Open, 1)], nextKey := 2);
    assert Lookup(s, ByCid(0x42)).None?;
  }

  // ---------------------------------------------------------------------
  // The operations, as steps on the state

  /** A blocking call's second half needs the channel it found and the identifier it sent. */
  datatype Pending = Pending(key: nat, id: byte)

  /** A call's first half: the new state, what it did, the result so far, and whether it waits. */
  datatype Step = Step(next: L2State, fx: seq<Effect>, result: u16, pending: Option<Pending>)

  function Done(s: L2State, fx: seq<Effect>, result: u16): Step
  {
    Step(s, fx, result, None)
  }

  /** What `Connect` learns from the logical layer's connection with the address. */
  datatype ConnectLink = ConnectLink(conn: nat, connected: bool, connecting: bool)

  /** `Connect`'s first half with the out-parameters it writes (LCID and status). */
  datatype Connected = Connected(step: Step, lcid: u16, status: u16)

  /** The channel `channels[key]` replaced by `c`. */
  function Update(s: L2State, key: nat, c: Channel): (r: L2State)
    requires ValidState(s) && key in s.heap
    ensures ValidState(r)
  {
    s.(heap := s.heap[key := c])
  }

  /** The arming half of `Connect` from the Append on: the request is sent and the call waits. */
  function ArmConnect(s: L2State, key: nat, c: Channel, psm: u16, conn: nat, lcid0: u16, status0: u16,
                      fx: seq<Effect>): (r: Connected)
    requires ValidState(s) && key in s.heap
    ensures ValidState(r.step.next)
    ensures r.step.pending.Some? && |r.step.fx| == |fx| + 2 && r.step.fx[..|fx|] == fx
    ensures r.step.fx[|fx|] == DeviceConnecting(conn) && r.step.fx[|fx| + 1].Send? && r.step.fx[|fx| + 1].conn == conn
  {
    var id := s.nextIdent;
    var s' := s.(list := s.list + [key], heap := s.heap[key := c.(state := W4L2capConnectRsp)],
                 signalled := false, nextIdent := NextIdent(id),
                 connectRsp := ConnectRsp(id, key, lcid0, RESULT_PSM_NOT_SUPPORTED, status0));
    var cmd := ConnectionRequest(id, psm, c.cid);
    Connected(Step(s', fx + [DeviceConnecting(conn), Send(conn, SignallingPacket(cmd))],
                   RESULT_PSM_NOT_SUPPORTED, Some(Pending(key, id))), lcid0, status0)
  }

  /**
   * `Connect`'s first half. `link` is the connection with the address (None
   * when there is none); `connectFails` and `authFails` are what the logical
   * layer's Connect and Authenticate report; `lcid0` and `status0` are what
   * the caller's out-parameters hold before the call.
   */
  function ConnectStart(s: L2State, psm: u16, link: Option<ConnectLink>, connectFails: bool, authFails: bool,
                        lcid0: u16, status0: u16): (r: Connected)
    requires ValidState(s)
    ensures ValidState(r.step.next)
  {
    if link.None? || link.value.connecting then
      Connected(Done(s, [], RESULT_PSM_NOT_SUPPORTED), lcid0, status0)
    else match Lookup(s, ByPsmConn(psm, link.value.conn))
      case Some(key) => ConnectOn(s, s, true, key, psm, link.value, connectFails, authFails, lcid0, status0)
      case None =>
        ConnectOn(s, Made(s, psm, link.value.conn), false, s.nextKey, psm, link.value, connectFails, authFails,
                  lcid0, status0)
  }

  /** `new CBTL2CAPChannel(nPSM, pConnection)`: a Closed channel with the next CID and the next key. */
  function Made(s: L2State, psm: u16, conn: nat): (r: L2State)
    requires ValidState(s)
    ensures ValidState(r) && s.nextKey in r.heap && s.nextKey !in s.heap
  {
    s.(heap := s.heap[s.nextKey := Channel(s.nextCid, psm, 0, false, Closed, conn)], nextKey := s.nextKey + 1,
       nextCid := NextCid(s.nextCid))
  }

  /**
   * `Connect` once the channel `key` of `s1` is found (`found`) or made:
   * an Open channel is reported at once; on a link not yet up the channel
   * becomes the initiator and the link is connected and authenticated,
   * and when that fails a made channel is deleted again; otherwise the
   * request is sent. `s` is the state before the call.
   */
  function ConnectOn(s: L2State, s1: L2State, found: bool, key: nat, psm: u16, link: ConnectLink,
                     connectFails: bool, authFails: bool, lcid0: u16, status0: u16): (r: Connected)
    requires ValidState(s) && ValidState(s1) && key in s1.heap
    ensures ValidState(r.step.next)
    ensures r.step.pending.Some? ==> |r.step.fx| >= 2 && r.step.fx[|r.step.fx| - 2] == DeviceConnecting(link.conn)
                                     && r.step.fx[|r.step.fx| - 1].Send?
    ensures r.step.pending.None? ==> r.step.fx == [] || r.step.fx[|r.step.fx| - 1] == DeviceIdle(link.conn)
  {
    var c, conn := s1.heap[key], link.conn;
    if c.state == Open then
      Connected(Done(s1, [], RESULT_CONNECTION_SUCCESSFUL), c.cid, STATUS_NO_FURTHER_INFORMATION)
    else if !link.connected then
      var c' := c.(initiator := true, state := Closed);
      var fx := [DeviceConnecting(conn), LinkConnect(conn)] + (if connectFails then [] else [LinkAuthenticate(conn)]);
      if connectFails || authFails then
        var s2 := if found then Update(s1, key, c') else s;
        Connected(Done(s2.(nextCid := s1.nextCid), fx + [DeviceIdle(conn)], RESULT_PSM_NOT_SUPPORTED),
                  lcid0, status0)
      else ArmConnect(s1, key, c', psm, conn, lcid0, status0, fx)
    else ArmConnect(s1, key, c, psm, conn, lcid0, status0, [])
  }

  /** `Connect` after its Wait returns: the identifier is disarmed, the recorded answer returned. */
  function ConnectWaited(s: L2State): (r: Connected)
    requires ValidState(s) && s.signalled
    ensures ValidState(r.step.next)
  {
    var rsp := s.connectRsp;
    Connected(Done(s.(connectRsp := rsp.(ident := 0)), [], rsp.result), rsp.lcid, rsp.status)
  }

  /**
   * `ConnectResponse`: `conn` is the connection with the address, 0 when
   * there is none. The first channel waiting for the upper layer's answer
   * becomes the acceptor side in Config under `lcid`, and the answer goes
   * out.
   */
  function ConnectResponse(s: L2State, conn: nat, ident: byte, lcid: u16, response: u16, status: u16): (r: Step)
    requires ValidState(s)
    ensures ValidState(r.next)
  {
    if conn == 0 then Done(s, [], RESULT_FAILURE_TO_MATCH)
    else match Lookup(s, ByState(W4L2caConnectRsp))
      case None => Done(s, [], RESULT_FAILURE_TO_MATCH)
      case Some(key) =>
        var c := s.heap[key];
        var cmd := ConnectionResponse(ident, lcid, c.remoteCid, response, status);
        Done(Update(s, key, c.(initiator := false, state := Config, cid := lcid, conn := conn)),
             [Send(conn, SignallingPacket(cmd))], RESULT_RESPONSE_SUCCESSFULLY_SENT)
  }

  /**
   * `Configure`'s first half: on a channel in Config or Open it draws an
   * identifier and sends the request when `blocking` equals the channel's
   * Initiator flag; a blocking call arms the identifier and waits.
   */
  function Configure(s: L2State, cid: u16, mtu: u16, flow: Option<FlowSpec>, flushTO: u16, blocking: bool): (r: Step)
    requires ValidState(s)
    ensures ValidState(r.next)
  {
    match Lookup(s, ByCidConfigured(cid))
    case None => Done(s, [], RESULT_REJECTED)
    case Some(key) => ConfigureAt(s, key, mtu, flow, flushTO, blocking)
  }

  /** `Configure` on the channel it found. */
  function ConfigureAt(s: L2State, key: nat, mtu: u16, flow: Option<FlowSpec>, flushTO: u16, blocking: bool): (r: Step)
    requires ValidState(s) && key in s.heap
    ensures ValidState(r.next)
  {
      var c := s.heap[key];
      var id := s.nextIdent;
      var s1 := s.(signalled := if blocking then false else s.signalled, nextIdent := NextIdent(id));
      var cmd := ConfigurationRequest(id, c.remoteCid, 0, Options(mtu, flushTO, flow));
      var fx := if blocking == c.initiator then [Send(c.conn, SignallingPacket(cmd))] else [];
      if blocking then Step(s1.(configRsp := s1.configRsp.(ident := id)), fx, RESULT_REJECTED, Some(Pending(key, id)))
      else Done(s1, fx, RESULT_REJECTED)
  }

  /** The parameters the peer answered a blocking `Configure` with. */
  datatype Configured = Configured(mtu: u16, flow: FlowSpec, flushTO: u16)

  /**
   * A blocking `Configure` after its Wait returns: when the armed identifier
   * is still the one sent it returns the recorded result and parameters,
   * and an acceptor channel that succeeded is Open. The flow pointer is
   * dereferenced without a check, so a response without a QoS option is
   * outside what the code handles.
   */
  function ConfigureWaited(s: L2State, p: Pending): (r: (Step, Option<Configured>))
    requires ValidState(s) && s.signalled && p.key in s.heap
    requires p.id == s.configRsp.ident ==> s.configRsp.flow.Some?
    ensures ValidState(r.0.next)
  {
    var rsp := s.configRsp;
    if p.id != rsp.ident then (Done(s, [], RESULT_REJECTED), None)
    else
      var c := s.heap[p.key];
      var s' := if !c.initiator && rsp.result == RESULT_SUCCESS then Update(s, p.key, c.(state := Open)) else s;
      (Done(s', [], rsp.result), Some(Configured(rsp.mtu, rsp.flow.value, rsp.flushTO)))
  }

  /**
   * `ConfigureResponse`: on a channel in Config or Open it sends the
   * response; an initiator channel accepting with success is Open, an
   * acceptor stays in Config. The caller's result comes back either way.
   */
  function ConfigureResponse(s: L2State, ident: byte, lcid: u16, flags: u16, result: u16, mtu: u16,
                             flushTO: u16, flow: Option<FlowSpec>): (r: Step)
    requires ValidState(s)
    ensures ValidState(r.next)
  {
    match Lookup(s, ByCidConfigured(lcid))
    case None => Done(s, [], result)
    case Some(key) =>
      var c := s.heap[key];
      var cmd := ConfigurationResponse(ident, c.remoteCid, flags, result, Options(mtu, flushTO, flow));
      var s' := if c.initiator && result == RESULT_SUCCESS then Update(s, key, c.(state := Open)) else s;
      Done(s', [Send(c.conn, SignallingPacket(cmd))], result)
  }

  /** `Disconnect`'s first half: the channel waits for the peer's response to the request. */
  function Disconnect(s: L2State, lcid: u16): (r: Step)
    requires ValidState(s)
    ensures ValidState(r.next)
  {
    match Lookup(s, ByCidConfigured(lcid))
    case None => Done(s, [], RESULT_DISCONNECTION_TIMEOUT_OCCURRED)
    case Some(key) =>
      var c := s.heap[key];
      var id := s.nextIdent;
      var cmd := DisconnectionRequest(id, c.remoteCid, c.cid);
      Step(Update(s, key, c.(state := W4L2capDisconnectRsp)).(signalled := false, nextIdent := NextIdent(id)),
           [Send(c.conn, SignallingPacket(cmd))], RESULT_DISCONNECTION_TIMEOUT_OCCURRED, Some(Pending(key, id)))
  }

  /**
   * `Disconnect` after its Wait (with a timeout) returns: success exactly
   * when the recorded response carries the request's identifier; either
   * way the record is reset and the channel Closed and deleted from the
   * list.
   */
  function DisconnectWaited(s: L2State, p: Pending): (r: Step)
    requires ValidState(s) && p.key in s.heap && s.list != []
    ensures ValidState(r.next)
  {
    var result := if s.disconnectRsp.ident == p.id then RESULT_DISCONNECTION_SUCCESSFUL
                  else RESULT_DISCONNECTION_TIMEOUT_OCCURRED;
    var s' := Update(s, p.key, s.heap[p.key].(state := Closed));
    Done(s'.(disconnectRsp := s.disconnectRsp.(ident := 0), list := PtrArrays.Removed(s.list, p.key)), [], result)
  }

  /** `DisconnectResponse`: a channel waiting for the upper layer's answer is answered, Closed and deleted. */
  function DisconnectResponse(s: L2State, ident: byte, lcid: u16): (r: Step)
    requires ValidState(s)
    ensures ValidState(r.next)
  {
    match Lookup(s, ByCidIn(lcid, W4L2caDisconnectRsp))
    case None => Done(s, [], RESULT_DISCONNECTION_FAILURE)
    case Some(key) =>
      var c := s.heap[key];
      var cmd := DisconnectionResponse(ident, c.cid, c.remoteCid);
      var s' := Update(s, key, c.(state := Closed));
      Done(s'.(list := PtrArrays.Removed(s.list, key)), [Send(c.conn, SignallingPacket(cmd))],
           RESULT_DISCONNECTION_SUCCESSFUL)
  }

  /**
   * `Write`: on an Open channel the data goes out in one packet to the
   * remote CID, and after the Wait (which nothing in this layer ends
   * early) the call reports success.
   */
  function Write(s: L2State, cid: u16, data: Bytes): (r: Step)
    requires ValidState(s) && |data| <= MIN_CNL_MTU_LEN
    ensures ValidState(r.next)
    ensures r.next.list == s.list && r.next.heap == s.heap && r.pending.None?
    ensures r.result == RESULT_SUCCESS <==> exists k :: k in s.list && s.heap[k].cid == cid && s.heap[k].state == Open
    ensures r.result == RESULT_SUCCESS ==>
      exists k :: k in s.list && s.heap[k].cid == cid && s.heap[k].state == Open
        && r.fx == [Send(s.heap[k].conn, Packet(s.heap[k].remoteCid, data))]
        && r.next == s.(signalled := false)
    ensures r.result != RESULT_SUCCESS ==>
      r.result == RESULT_DISCONNECTION_TIMEOUT_OCCURRED && r.fx == [] && r.next == s
  {
    match Lookup(s, ByCidIn(cid, Open))
    case None => Done(s, [], RESULT_DISCONNECTION_TIMEOUT_OCCURRED)
    case Some(key) =>
      var c := s.heap[key];
      Done(s.(signalled := false), [Send(c.conn, Packet(c.remoteCid, data))], RESULT_SUCCESS)
  }

  /** `Read`'s first half: on an Open channel the read is armed on the caller's buffer. */
  function Read(s: L2State, cid: u16, length: u16, buffer: Bytes): (r: Step)
    requires ValidState(s) && length <= |buffer|
    ensures ValidState(r.next)
    ensures r.fx == [] && r.result == RESULT_DISCONNECTION_TIMEOUT_OCCURRED
    ensures r.next.list == s.list && r.next.heap == s.heap
    ensures r.pending.Some? <==> exists k :: k in s.list && s.heap[k].cid == cid && s.heap[k].state == Open
    ensures r.pending.Some? ==>
      var k := r.pending.value.key;
      && k in s.list && s.heap[k].cid == cid && s.heap[k].state == Open
      && r.next.dataRead == DataRead(cid, length, RESULT_DISCONNECTION_TIMEOUT_OCCURRED, 0)
      && r.next.inBuffer == Some(buffer) && !r.next.signalled
      && r.next == s.(signalled := false, dataRead := r.next.dataRead, inBuffer := r.next.inBuffer)
    ensures r.pending.None? ==> r.next == s
  {
    match Lookup(s, ByCidIn(cid, Open))
    case None => Done(s, [], RESULT_DISCONNECTION_TIMEOUT_OCCURRED)
    case Some(key) =>
      Step(s.(signalled := false, dataRead := DataRead(cid, length, RESULT_DISCONNECTION_TIMEOUT_OCCURRED, 0),
              inBuffer := Some(buffer)), [], RESULT_DISCONNECTION_TIMEOUT_OCCURRED, Some(Pending(key, 0)))
  }

  /**
   * `Read` after its Wait returns: the request is reset (CID, length and
   * buffer; N keeps its count) and the recorded result returned with the
   * buffer as the fills left it.
   */
  function ReadWaited(s: L2State): (r: (Step, Bytes))
    requires ValidState(s) && s.inBuffer.Some?
    ensures ValidState(r.0.next)
    ensures r.0.result == s.dataRead.result && r.0.fx == [] && r.0.pending.None? && r.1 == s.inBuffer.value
    ensures r.0.next.dataRead.cid == 0 && r.0.next.dataRead.length == 0 && r.0.next.inBuffer.None?
    ensures r.0.next.dataRead.n == s.dataRead.n && r.0.next.dataRead.result == s.dataRead.result
    ensures r.0.next == s.(dataRead := r.0.next.dataRead, inBuffer := None)
  {
    var d := s.dataRead;
    (Done(s.(dataRead := d.(cid := 0, length := 0), inBuffer := None), [], d.result), s.inBuffer.value)
  }

  /** `AddChannel`: an acceptor channel for the peer's CID on the incoming connection. */
  function AddChannel(s: L2State, psm: u16, cid: u16): (r: L2State)
    requires ValidState(s)
    ensures ValidState(r)
  {
    var key := s.nextKey;
    s.(list := s.list + [key], heap := s.heap[key := Channel(0, psm, cid, false, W4L2caConnectRsp, s.incoming)],
       nextKey := key + 1)
  }

  /** A channel deleted from the list leaves a valid state. */
  lemma Unlisted(s: L2State, key: nat)
    requires ValidState(s)
    ensures ValidState(s.(list := PtrArrays.Removed(s.list, key)))
  {
  }

  /** `DeleteChannel`: the first channel with the CID leaves the list. */
  function DeleteChannel(s: L2State, cid: u16): (r: (L2State, bool))
    requires ValidState(s)
    ensures ValidState(r.0)
  {
    match Lookup(s, ByCid(cid))
    case None => (s, false)
    case Some(key) => (s.(list := PtrArrays.Removed(s.list, key)), true)
  }

  /** `SignallingCallback`: the PSM's callback runs if one is registered. */
  function Callback(s: L2State, psm: u16, ev: Indication): (fx: seq<Effect>)
  {
    if psm in s.signallingPsms then [Signal(psm, ev)] else []
  }

  /**
   * `SetConnectRsp` when the identifier matches: the caller's LCID,
   * result and status are written, and the waiting channel takes the
   * peer's CID and moves to Config on success or Closed otherwise.
   */
  function SetConnectRsp(s: L2State, dcid: u16, scid: u16, result: u16, status: u16): (r: L2State)
    requires ValidState(s)
    ensures ValidState(r)
  {
    var rsp := s.connectRsp;
    var s1 := s.(connectRsp := rsp.(lcid := scid, result := result, status := status), signalled := true);
    if rsp.channel == 0 then s1
    else
      var c := s.heap[rsp.channel];
      Update(s1, rsp.channel, c.(remoteCid := dcid,
                                 state := if result == RESULT_CONNECTION_SUCCESSFUL then Config else Closed))
  }

  datatype Outcome = Outcome(next: L2State, fx: seq<Effect>)

  /** A handled command whose option list the extract loops can walk. */
  predicate Handleable(c: Command)
  {
    (c.ConfigurationRequest? ==> Extractable(c.options)) && (c.ConfigurationResponse? ==> Extractable(c.options))
  }

  /** The `Process` handler of each command class with a registered handler. */
  function Handle(s: L2State, c: Command): (o: Outcome)
    requires ValidState(s) && Handleable(c)
    ensures ValidState(o.next)
  {
    match c
    case CommandReject(id, reason, _) => Rejected(s, id, reason)
    case ConnectionRequest(id, psm, scid) => ConnectRequested(s, id, psm, scid)
    case ConnectionResponse(id, dcid, scid, result, status) => ConnectResponded(s, id, dcid, scid, result, status)
    case ConfigurationRequest(id, dcid, _, options) => ConfigRequested(s, id, dcid, options)
    case ConfigurationResponse(id, scid, flags, result, options) => ConfigResponded(s, id, scid, flags, result, options)
    case DisconnectionRequest(id, dcid, _) => DisconnectRequested(s, id, dcid)
    case DisconnectionResponse(id, dcid, scid) => DisconnectResponded(s, id, dcid, scid)
    case _ => Outcome(s, [])
  }

  /** The Command Reject handler: the reason is recorded and the waiter woken. */
  function Rejected(s: L2State, id: byte, reason: u16): (o: Outcome)
    requires ValidState(s)
    ensures ValidState(o.next)
  {
    Outcome(s.(commandRsp := CommandRsp(id, reason), signalled := true), [])
  }

  /** The Connection Request handler: an acceptor channel is listed and the PSM's callback told. */
  function ConnectRequested(s: L2State, id: byte, psm: u16, scid: u16): (o: Outcome)
    requires ValidState(s)
    ensures ValidState(o.next)
  {
    var s' := AddChannel(s, psm, scid);
    Outcome(s', Callback(s', psm, ConnectInd(id, scid, psm)))
  }

  /** The Connection Response handler: the armed identifier's record, or else the PSM's callback. */
  function ConnectResponded(s: L2State, id: byte, dcid: u16, scid: u16, result: u16, status: u16): (o: Outcome)
    requires ValidState(s)
    ensures ValidState(o.next)
  {
    if id == s.connectRsp.ident then Outcome(SetConnectRsp(s, dcid, scid, result, status), [])
    else Outcome(s, Callback(s, GetPSM(s, scid), ConnectCfm(id, dcid, scid, result, status)))
  }

  /** The Configuration Request handler: the PSM's callback hears the options. */
  function ConfigRequested(s: L2State, id: byte, dcid: u16, options: Bytes): (o: Outcome)
    requires ValidState(s) && Extractable(options)
    ensures ValidState(o.next)
  {
    var psm := GetPSM(s, dcid);
    Outcome(s, Callback(s, psm, ConfigInd(id, dcid, psm, ExtractMTU(options), ExtractFlow(options),
                                          ExtractFlushTO(options))))
  }

  /** The Disconnection Response handler: the response is recorded and the waiter woken. */
  function DisconnectResponded(s: L2State, id: byte, dcid: u16, scid: u16): (o: Outcome)
    requires ValidState(s)
    ensures ValidState(o.next)
  {
    Outcome(s.(disconnectRsp := DisconnectRsp(id, dcid, scid), signalled := true), [])
  }

  /** The Configuration Response handler: the armed identifier's record, or else the PSM's callback. */
  function ConfigResponded(s: L2State, id: byte, scid: u16, flags: u16, result: u16, options: Bytes): (o: Outcome)
    requires ValidState(s) && Extractable(options)
    ensures ValidState(o.next)
  {
    var mtu, flushTO, flow := ExtractMTU(options), ExtractFlushTO(options), ExtractFlow(options);
    if id == s.configRsp.ident then
      Outcome(s.(configRsp := ConfigRsp(id, scid, flags, result, mtu, flushTO, flow), signalled := true), [])
    else Outcome(s, Callback(s, GetPSM(s, scid), ConfigCfm(id, scid, flags, result, mtu, flow, flushTO)))
  }

  /** The Disconnection Request handler: the channel waits for the upper layer's answer. */
  function DisconnectRequested(s: L2State, id: byte, dcid: u16): (o: Outcome)
    requires ValidState(s)
    ensures ValidState(o.next)
  {
    var s' := match GetChannel(s, dcid, false)
              case None => s
              case Some(key) => Update(s, key, s.heap[key].(state := W4L2caDisconnectRsp));
    Outcome(s', Callback(s', GetPSM(s', dcid), DisconnectInd(id, dcid)))
  }

  /**
   * The Disconnection Request handler as written: `GetChannel`'s
   * fall-through makes a request for an unknown DCID put the last listed
   * channel in the wait for the upper layer's answer.
   */
  function DisconnectRequestedAsWritten(s: L2State, id: byte, dcid: u16): (o: Outcome)
    requires ValidState(s)
    ensures ValidState(o.next)
    ensures GetChannel(s, dcid, false).Some? ==> o == DisconnectRequested(s, id, dcid)
    ensures o.next.list == s.list && o.next.heap.Keys == s.heap.Keys
    ensures s.list != [] ==> o.next.heap[GetChannelAsWritten(s, dcid, false).value].state == W4L2caDisconnectRsp
  {
    GetChannelCorrected(s, dcid, false);
    var s' := match GetChannelAsWritten(s, dcid, false)
              case None => s
              case Some(key) => Update(s, key, s.heap[key].(state := W4L2caDisconnectRsp));
    Outcome(s', Callback(s', GetPSM(s', dcid), DisconnectInd(id, dcid)))
  }

  /** A layer with one open channel, local CID 0x40 and remote CID 0x41, listed under key 1. */
  function OneChannel(): (s: L2State)
    ensures ValidState(s) && s.list == [1] && 1 in s.heap && s.heap[1].cid == 0x40 && s.heap[1].state == Open
  {
    Initial(Zeros(MIN_SIG_MTU_LEN)).(list := [1], heap := map[1 := Channel(0x40, 0x11, 0x41, true, Open, 1)], nextKey := 2)
  }

  /**
   * A Disconnection Request for a DCID nobody uses: as written the open
   * channel starts waiting to be disconnected; corrected, it stays open.
   */
  lemma DisconnectRequestStrangerAsWritten()
    ensures DisconnectRequestedAsWritten(OneChannel(), 1, 0x42).next.heap[1].state == W4L2caDisconnectRsp
    ensures DisconnectRequested(OneChannel(), 1, 0x42).next.heap[1].state == Open
  {
    var s := OneChannel();
    assert Lookup(s, ByCid(0x42)).None?;
  }

  /** A received command record the model can hand to its handler. */
  predicate RecordOk(rec: Bytes)
  {
    FieldsPresent(rec) && (Parse(rec).Some? ==> Handleable(Parse(rec).value))
  }

  /** `pCommand->Process`: through the corrected handler table; a code without a handler is ignored. */
  function Process(s: L2State, rec: Bytes): (o: Outcome)
    requires ValidState(s) && RecordOk(rec)
    ensures ValidState(o.next)
  {
    DispatchCorrected(rec[0]);
    if Dispatch(rec[0]) == NoHandler then Outcome(s, []) else Handle(s, Parse(rec).value)
  }

  /**
   * `pCommand->Process` through the table as written: None for a code at
   * or past its end, whose handler slot is read out of bounds; otherwise
   * the same as the corrected dispatch.
   */
  function ProcessAsWritten(s: L2State, rec: Bytes): (o: Option<Outcome>)
    requires ValidState(s) && RecordOk(rec)
    ensures o.None? <==> rec[0] >= SIG_NUM_COMMANDS
    ensures o.Some? ==> o.value == Process(s, rec)
  {
    DispatchCorrected(rec[0]);
    match DispatchAsWritten(rec[0])
    case None => None
    case Some(h) => Some(if h == NoHandler then Outcome(s, []) else Handle(s, Parse(rec).value))
  }

  /** A received Information Response is read past the table as written, and ignored when corrected. */
  lemma InformationResponseProcessAsWritten(s: L2State, rec: Bytes)
    requires ValidState(s) && RecordOk(rec) && rec[0] == SIG_INFORMATION_RESPONSE
    ensures ProcessAsWritten(s, rec).None?
    ensures Process(s, rec) == Outcome(s, [])
  {
    DispatchCorrected(rec[0]);
  }

  /** Every command record of a signalling packet processed in order. */
  function RunCommands(s: L2State, rs: seq<Bytes>): (o: Outcome)
    requires ValidState(s) && forall i :: 0 <= i < |rs| ==> RecordOk(rs[i])
    ensures ValidState(o.next)
    decreases |rs|
  {
    if rs == [] then Outcome(s, [])
    else
      var first := Process(s, rs[0]);
      var rest := RunCommands(first.next, rs[1..]);
      Outcome(rest.next, first.fx + rest.fx)
  }

  /** The event buffer after a frame is copied over its front. */
  function EventBuffer(s: L2State, frame: Bytes): (ev: Bytes)
    requires ValidState(s) && |frame| <= MIN_SIG_MTU_LEN
    ensures |ev| == MIN_SIG_MTU_LEN && ev[..|frame|] == frame
  {
    frame + s.event[|frame|..]
  }

  /** The payload a frame's header announces, read from the event buffer. */
  function Payload(ev: Bytes): (p: Bytes)
    requires |ev| == MIN_SIG_MTU_LEN && PACKET_HEADER_SIZE + ReadLE16(ev, 0) <= MIN_SIG_MTU_LEN
  {
    ev[PACKET_HEADER_SIZE..PACKET_HEADER_SIZE + ReadLE16(ev, 0)]
  }

  /**
   * What the handler needs of an inbound frame: it fits the event buffer,
   * its announced payload does too, and a signalling payload is a run of
   * whole command records each carrying the fields its handler reads.
   */
  predicate FrameOk(s: L2State, frame: Bytes)
    requires ValidState(s)
  {
    0 < |frame| <= MIN_SIG_MTU_LEN
    && (|frame| >= PACKET_HEADER_SIZE ==>
          var ev := EventBuffer(s, frame);
          PACKET_HEADER_SIZE + ReadLE16(ev, 0) <= MIN_SIG_MTU_LEN
          && (ReadLE16(ev, 2) == CID_SIGNALLING ==>
                Framed(Payload(ev)) && forall i :: 0 <= i < |Records(Payload(ev))| ==> RecordOk(Records(Payload(ev))[i])))
  }

  /**
   * `L2CAPEventHandler`: a frame shorter than its header is ignored;
   * otherwise it is copied into the event buffer and routed by CID. The
   * signalling channel's commands are processed in order, the
   * connectionless channel is dropped, and on any other channel the
   * payload goes to the data callback of the channel's PSM or else fills a
   * read blocked on that CID.
   */
  function EventStep(s: L2State, frame: Bytes): (o: Outcome)
    requires ValidState(s) && FrameOk(s, frame)
    ensures ValidState(o.next)
  {
    if |frame| < PACKET_HEADER_SIZE then Outcome(s, [])
    else
      var ev := EventBuffer(s, frame);
      var s1 := s.(event := ev);
      var len, cid := ReadLE16(ev, 0), ReadLE16(ev, 2);
      if cid == CID_SIGNALLING then RunCommands(s1, Records(Payload(ev)))
      else if cid == CID_CONNECTIONLESS then Outcome(s1, [])
      else
        var psm := GetPSM(s1, cid);
        if psm in s1.dataPsms then Outcome(s1, [Deliver(psm, cid, len, Payload(ev))])
        else if cid == s1.dataRead.cid && s1.inBuffer.Some? then Outcome(Fill(s1, Payload(ev)), [])
        else Outcome(s1, [])
  }

  /**
   * `LPEventHandler`, given the connection the logical layer finds for the
   * event's address or handle (0 for none): an incoming connection becomes
   * the one new channels are made on, gets a device and is accepted; a
   * refused or lost connection's device goes idle.
   */
  function LpStep(s: L2State, ev: Logical.LpEvent, conn: nat): (o: Outcome)
    ensures o.next == s || (ev.ConnectInd? && conn != 0 && o.next == s.(incoming := conn))
  {
    if conn == 0 then Outcome(s, [])
    else match ev
      case ConnectCfm(_) => Outcome(s, [])
      case ConnectCfmNeg(_) => Outcome(s, [DeviceIdle(conn)])
      case ConnectInd(_) => Outcome(s.(incoming := conn), [CreateDevice(conn), DeviceConnecting(conn), LinkAccept(conn)])
      case DisconnectInd(_) => Outcome(s, [DeviceIdle(conn)])
  }

  // ---------------------------------------------------------------------
  // The blocked read

  function Min(a: int, b: int): int
  {
    if a < b then a else b
  }

  /**
   * The blocked read's fill from one data packet: the bytes still wanted
   * or the whole packet, whichever is less, are copied in at N; reaching
   * Length completes the read with success and signals the reader.
   */
  function Fill(s: L2State, data: Bytes): (r: L2State)
    requires ValidState(s) && s.inBuffer.Some?
    ensures ValidState(r) && r.inBuffer.Some?
    ensures var d, b, n := s.dataRead, s.inBuffer.value, r.dataRead.n;
      n == Min(d.length, d.n + |data|) && d.n <= n <= d.length == r.dataRead.length
      && |r.inBuffer.value| == |b|
      && r.inBuffer.value[..n] == b[..d.n] + data[..n - d.n] && r.inBuffer.value[n..] == b[n..]
      && r == s.(inBuffer := r.inBuffer, dataRead := d.(n := n, result := r.dataRead.result), signalled := r.signalled)
      && if n == d.length then r.dataRead.result == RESULT_SUCCESS && r.signalled
         else r.dataRead.result == d.result && r.signalled == s.signalled
  {
    var d := s.dataRead;
    var buffer := s.inBuffer.value;
    var wanted := d.length - d.n;
    if |data| < wanted then
      s.(inBuffer := Some(buffer[..d.n] + data + buffer[d.n + |data|..]), dataRead := d.(n := d.n + |data|))
    else
      s.(inBuffer := Some(buffer[..d.n] + data[..wanted] + buffer[d.length..]),
         dataRead := d.(n := d.length, result := RESULT_SUCCESS), signalled := true)
  }

  function Concat(ps: seq<Bytes>): (b: Bytes)
  {
    if ps == [] then [] else ps[0] + Concat(ps[1..])
  }

  /** Data packets on the blocked read's CID, one after another. */
  function FillAll(s: L2State, ps: seq<Bytes>): (r: L2State)
    requires ValidState(s) && s.inBuffer.Some?
    ensures ValidState(r) && r.inBuffer.Some?
    decreases |ps|
  {
    if ps == [] then s else FillAll(Fill(s, ps[0]), ps[1..])
  }

  /**
   * `r` is the read `s` had armed after `data` arrived (`any`: in at least
   * one packet): the buffer holds its old bytes up to the starting N
   * followed by the data, as much as fits up to Length, and nothing beyond
   * moves; the read completes, with success and a signal, exactly when
   * some packet came and the data was enough. Nothing else changes.
   */
  ghost predicate Assembled(s: L2State, data: Bytes, any: bool, r: L2State)
    requires ValidState(s) && s.inBuffer.Some?
  {
    var d, b := s.dataRead, s.inBuffer.value;
    var n, done := r.dataRead.n, any && d.n + |data| >= d.length;
    r.inBuffer.Some? && n == Min(d.length, d.n + |data|) && |r.inBuffer.value| == |b|
    && r.inBuffer.value[..n] == b[..d.n] + data[..n - d.n] && r.inBuffer.value[n..] == b[n..]
    && r == s.(inBuffer := r.inBuffer, dataRead := d.(n := n, result := r.dataRead.result), signalled := r.signalled)
    && r.dataRead.result == (if done then RESULT_SUCCESS else d.result)
    && r.signalled == (s.signalled || done)
  }

  /** A blocked read fed packet after packet has assembled their concatenation. */
  lemma {:induction false} ReadAssembles(s: L2State, ps: seq<Bytes>)
    requires ValidState(s) && s.inBuffer.Some?
    ensures Assembled(s, Concat(ps), ps != [], FillAll(s, ps))
    decreases |ps|
  {
    if ps != [] {
      var s1 := Fill(s, ps[0]);
      assert Assembled(s, ps[0], true, s1);
      assert Concat(ps) == ps[0] + Concat(ps[1..]);
      if ps[1..] == [] {
        assert Concat(ps) == ps[0];
      } else {
        ReadAssembles(s1, ps[1..]);
        AssembledThen(s, s1, FillAll(s1, ps[1..]), ps[0], Concat(ps[1..]));
      }
    }
  }

  /** Data assembled after data is their concatenation assembled. */
  /**
   * A whole read: `Read` arms the request on an Open channel, the packets
   * `ps` arrive on its CID, and the call returns after its Wait. It
   * reports success exactly when some packet came and together they held
   * at least `length` bytes; the buffer then holds the first
   * min(length, |Concat(ps)|) bytes of the data, and beyond them the
   * caller's bytes, and the channels are as before.
   */
  lemma ReadThroughWait(s: L2State, cid: u16, length: u16, buffer: Bytes, ps: seq<Bytes>)
    requires ValidState(s) && length <= |buffer| && Read(s, cid, length, buffer).pending.Some?
    ensures var w := ReadWaited(FillAll(Read(s, cid, length, buffer).next, ps));
      var m := Min(length, |Concat(ps)|);
      && (w.0.result == RESULT_SUCCESS <==> ps != [] && length <= |Concat(ps)|)
      && (w.0.result != RESULT_SUCCESS ==> w.0.result == RESULT_DISCONNECTION_TIMEOUT_OCCURRED)
      && |w.1| == |buffer| && w.1[..m] == Concat(ps)[..m] && w.1[m..] == buffer[m..]
      && w.0.next.list == s.list && w.0.next.heap == s.heap
      && w.0.next.dataRead.cid == 0 && w.0.next.inBuffer.None?
  {
    var r := Read(s, cid, length, buffer);
    ReadAssembles(r.next, ps);
    var f := FillAll(r.next, ps);
    assert buffer[..0] + Concat(ps)[..f.dataRead.n] == Concat(ps)[..f.dataRead.n];
  }

  lemma AssembledThen(s: L2State, s1: L2State, r: L2State, a: Bytes, b: Bytes)
    requires ValidState(s) && s.inBuffer.Some? && ValidState(s1) && s1.inBuffer.Some?
    requires Assembled(s, a, true, s1) && Assembled(s1, b, true, r)
    ensures Assembled(s, a + b, true, r)
  {
    var d, b0 := s.dataRead, s.inBuffer.value;
    var n1, n := s1.dataRead.n, r.dataRead.n;
    var b1 := s1.inBuffer.value;
    if n1 < d.length {
      assert n1 == d.n + |a|;
      assert b1[..n1] == b0[..d.n] + a;
      assert r.inBuffer.value[..n] == b1[..n1] + b[..n - n1];
      assert (a + b)[..n - d.n] == a + b[..n - n1];
    } else {
      assert n1 == d.length && n == n1;
      assert (a + b)[..n - d.n] == a[..n - d.n];
    }
  }

  // ---------------------------------------------------------------------
  // The signalling exchanges

  /** The first match is the one at `i` when `i` matches and nothing before it does. */
  lemma {:induction false} FirstMatchAt(list: seq<nat>, heap: map<nat, Channel>, key: Key, i: nat)
    requires Listed(list, heap) && i < |list| && Matches(heap[list[i]], key)
    requires forall j :: 0 <= j < i ==> !Matches(heap[list[j]], key)
    ensures FirstMatch(list, heap, key) == i
  {
    if i > 0 {
      assert !Matches(heap[list[0]], key);
      FirstMatchAt(list[1..], heap, key, i - 1);
    }
  }

  /**
   * A Connect that waits, answered by the peer with its identifier and
   * success: the channel takes the peer's CID and moves to Config, the
   * caller is woken and gets success with the CID the peer reported,
   * and the identifier is disarmed.
   */
  lemma ConnectHandshake(s: L2State, psm: u16, link: Option<ConnectLink>, connectFails: bool, authFails: bool,
                         lcid0: u16, status0: u16, dcid: u16, scid: u16, status: u16)
    requires ValidState(s) && ConnectStart(s, psm, link, connectFails, authFails, lcid0, status0).step.pending.Some?
    ensures var st := ConnectStart(s, psm, link, connectFails, authFails, lcid0, status0).step;
      var p := st.pending.value;
      var h := Handle(st.next, ConnectionResponse(p.id, dcid, scid, RESULT_CONNECTION_SUCCESSFUL, status));
      p.key in st.next.list && st.next.heap[p.key].state == W4L2capConnectRsp
      && h.fx == [] && h.next.signalled
      && h.next.heap[p.key] == st.next.heap[p.key].(remoteCid := dcid, state := Config)
      && var w := ConnectWaited(h.next);
      w.step.result == RESULT_CONNECTION_SUCCESSFUL && w.lcid == scid && w.status == status
      && w.step.next.connectRsp.ident == 0
  {
    var st := ConnectStart(s, psm, link, connectFails, authFails, lcid0, status0).step;
    ConnectArms(s, psm, link, connectFails, authFails, lcid0, status0);
    ConnectAnswered(st.next, st.pending.value, lcid0, status0, dcid, scid, status);
  }

  /** A Connect that waits has listed its channel in W4L2capConnectRsp and armed the response record for it. */
  lemma ConnectArms(s: L2State, psm: u16, link: Option<ConnectLink>, connectFails: bool, authFails: bool,
                    lcid0: u16, status0: u16)
    requires ValidState(s) && ConnectStart(s, psm, link, connectFails, authFails, lcid0, status0).step.pending.Some?
    ensures var st := ConnectStart(s, psm, link, connectFails, authFails, lcid0, status0).step;
      var p := st.pending.value;
      p.key in st.next.list && p.key in st.next.heap && st.next.heap[p.key].state == W4L2capConnectRsp
      && st.next.connectRsp == ConnectRsp(p.id, p.key, lcid0, RESULT_PSM_NOT_SUPPORTED, status0)
  {
  }

  /** The armed Connection Response answered with success: the channel moves to Config and the caller gets success. */
  lemma ConnectAnswered(t: L2State, p: Pending, lcid0: u16, status0: u16, dcid: u16, scid: u16, status: u16)
    requires ValidState(t) && p.key in t.heap
    requires t.connectRsp == ConnectRsp(p.id, p.key, lcid0, RESULT_PSM_NOT_SUPPORTED, status0)
    ensures var h := Handle(t, ConnectionResponse(p.id, dcid, scid, RESULT_CONNECTION_SUCCESSFUL, status));
      h.fx == [] && h.next.signalled && h.next.heap[p.key] == t.heap[p.key].(remoteCid := dcid, state := Config)
      && var w := ConnectWaited(h.next);
      w.step.result == RESULT_CONNECTION_SUCCESSFUL && w.lcid == scid && w.status == status
      && w.step.next.connectRsp.ident == 0
  {
  }

  /**
   * A Connection Response whose identifier is not the armed one changes
   * nothing and reaches the PSM's callback as a connect confirmation.
   */
  lemma ConnectResponseUnmatched(s: L2State, c: Command)
    requires ValidState(s) && c.ConnectionResponse? && c.ident != s.connectRsp.ident
    ensures Handle(s, c).next == s
    ensures Handle(s, c).fx == Callback(s, GetPSM(s, c.scid), ConnectCfm(c.ident, c.dcid, c.scid, c.result, c.status))
  {
  }

  /**
   * What a peer reading a packet finds in it: a signalling packet whose
   * command area holds exactly one record, and that record decodes to `c`.
   */
  predicate Carries(pkt: Bytes, c: Command)
  {
    |pkt| >= PACKET_HEADER_SIZE && ReadLE16(pkt, 2) == CID_SIGNALLING
    && var area := pkt[PACKET_HEADER_SIZE..];
    Framed(area) && |Records(area)| == 1 && FieldsPresent(Records(area)[0])
    && Parse(Records(area)[0]) == Some(c)
  }

  /** Every command the layer sends reaches the peer as that command and nothing else. */
  lemma SignallingPacketCarries(c: Command)
    requires WellFormed(c) && SIG_COMMAND_REJECT <= Code(c) <= SIG_DISCONNECTION_RESPONSE
    ensures Carries(SignallingPacket(c), c)
    ensures Framed(Encode(c)) && Records(Encode(c)) == [Encode(c)]
  {
    var e := Encode(c);
    ParseEncode(c);
    assert Flatten([e]) == e;
    RecordsFlatten([e]);
    assert SignallingPacket(c)[PACKET_HEADER_SIZE..] == e;
  }

  /**
   * A frame carrying one command, received by `L2CAPEventHandler`, runs
   * that command's handler once on the state with the frame in the event
   * buffer, and does nothing else.
   */
  lemma SingleCommandFrame(s: L2State, c: Command)
    requires ValidState(s) && WellFormed(c) && Handleable(c)
    requires SIG_COMMAND_REJECT <= Code(c) <= SIG_DISCONNECTION_RESPONSE
    requires |SignallingPacket(c)| <= MIN_SIG_MTU_LEN
    ensures FrameOk(s, SignallingPacket(c))
    ensures EventStep(s, SignallingPacket(c)) == Handle(s.(event := EventBuffer(s, SignallingPacket(c))), c)
  {
    var f := SignallingPacket(c);
    var e := Encode(c);
    var ev := EventBuffer(s, f);
    assert ev[..|f|] == f;
    assert ev[0] == f[0] && ev[1] == f[1] && ev[2] == f[2] && ev[3] == f[3];
    assert Payload(ev) == f[PACKET_HEADER_SIZE..] == e;
    SignallingPacketCarries(c);
    assert Records(Payload(ev)) == [e];
    DispatchCorrected(Code(c));
    var s1 := s.(event := ev);
    var h := Handle(s1, c);
    assert Process(s1, e) == h;
    assert RunCommands(s1, [e]) == Outcome(h.next, h.fx + RunCommands(h.next, []).fx);
  }

  /**
   * `Configure`'s first half. On a channel in Config or Open it draws the
   * next identifier, leaves the channels as they are, waits exactly when
   * blocking, and sends exactly when `blocking` equals the channel's
   * Initiator flag: a request to the remote CID whose options are the
   * non-zero MTU and flush timeout and the flow, if any. Otherwise it
   * changes nothing, sends nothing and reports REJECTED.
   */
  lemma ConfigureSends(s: L2State, cid: u16, mtu: u16, flow: Option<FlowSpec>, flushTO: u16, blocking: bool)
    requires ValidState(s)
    ensures var r := Configure(s, cid, mtu, flow, flushTO, blocking);
      r.result == RESULT_REJECTED
      && match Lookup(s, ByCidConfigured(cid))
         case None => r.next == s && r.fx == [] && r.pending.None?
         case Some(key) =>
           var c := s.heap[key];
           r.next.list == s.list && r.next.heap == s.heap && r.next.nextIdent == NextIdent(s.nextIdent)
           && (r.pending.Some? <==> blocking) && (blocking ==> r.pending == Some(Pending(key, s.nextIdent)))
           && (|r.fx| == 1 <==> blocking == c.initiator) && (|r.fx| == 0 <==> blocking != c.initiator)
           && (r.fx != [] ==>
                 r.fx[0].Send? && r.fx[0].conn == c.conn && Carries(r.fx[0].packet, ConfigurationRequest(s.nextIdent, c.remoteCid, 0, Options(mtu, flushTO, flow))))
  {
    match Lookup(s, ByCidConfigured(cid))
    case None =>
    case Some(key) =>
      var c := s.heap[key];
      SignallingPacketCarries(ConfigurationRequest(s.nextIdent, c.remoteCid, 0, Options(mtu, flushTO, flow)));
  }

  /**
   * A blocking `Configure` answered by the peer with the armed identifier:
   * the response handler records it and wakes the caller, who gets the
   * peer's result and the MTU, flow and flush timeout its options carry;
   * an acceptor channel that succeeded is now Open, an initiator channel
   * keeps its state, and the channel list is untouched.
   */
  lemma ConfigHandshake(s: L2State, cid: u16, mtu: u16, flow: Option<FlowSpec>, flushTO: u16,
                        scid: u16, flags: u16, result: u16, options: Bytes)
    requires ValidState(s) && Lookup(s, ByCidConfigured(cid)).Some?
    requires Extractable(options) && ExtractFlow(options).Some?
    ensures var st := Configure(s, cid, mtu, flow, flushTO, true);
      st.pending.Some? && st.pending.value.key in st.next.heap
      && var p := st.pending.value;
      var h := Handle(st.next, ConfigurationResponse(p.id, scid, flags, result, options));
      h.fx == [] && h.next.signalled && p.key in h.next.heap
      && var w := ConfigureWaited(h.next, p);
      var c := s.heap[p.key];
      w.0.result == result && w.0.fx == []
      && w.1 == Some(Configured(ExtractMTU(options), ExtractFlow(options).value, ExtractFlushTO(options)))
      && w.0.next.list == s.list
      && w.0.next.heap[p.key] == c.(state := if !c.initiator && result == RESULT_SUCCESS then Open else c.state)
  {
    ConfigArmed(s, cid, mtu, flow, flushTO);
    var st := Configure(s, cid, mtu, flow, flushTO, true);
    ConfigAnswered(st.next, st.pending.value, scid, flags, result, options);
  }

  /** A blocking `Configure` on a configured channel arms the next identifier and keeps the channels. */
  lemma ConfigArmed(s: L2State, cid: u16, mtu: u16, flow: Option<FlowSpec>, flushTO: u16)
    requires ValidState(s) && Lookup(s, ByCidConfigured(cid)).Some?
    ensures var st := Configure(s, cid, mtu, flow, flushTO, true);
      st.pending == Some(Pending(Lookup(s, ByCidConfigured(cid)).value, s.nextIdent))
      && st.next.configRsp.ident == s.nextIdent && st.next.list == s.list && st.next.heap == s.heap
  {
  }

  /** The response with the armed identifier, handled and then waited for. */
  lemma ConfigAnswered(t: L2State, p: Pending, scid: u16, flags: u16, result: u16, options: Bytes)
    requires ValidState(t) && p.key in t.heap && t.configRsp.ident == p.id
    requires Extractable(options) && ExtractFlow(options).Some?
    ensures var h := Handle(t, ConfigurationResponse(p.id, scid, flags, result, options));
      h.fx == [] && h.next.signalled && p.key in h.next.heap
      && var w := ConfigureWaited(h.next, p);
      var c := t.heap[p.key];
      w.0.result == result && w.0.fx == []
      && w.1 == Some(Configured(ExtractMTU(options), ExtractFlow(options).value, ExtractFlushTO(options)))
      && w.0.next.list == t.list
      && w.0.next.heap[p.key] == c.(state := if !c.initiator && result == RESULT_SUCCESS then Open else c.state)
  {
    var h := ConfigResponded(t, p.id, scid, flags, result, options);
    assert h.next.configRsp.ident == p.id && h.next.heap == t.heap && h.next.list == t.list;
  }

  /**
   * `ConfigureResponse`: the caller's result comes back whatever happens.
   * On a channel in Config or Open the response goes to the remote CID
   * with the options given, and the channel is Open exactly when it is
   * the initiator and the result is success (an acceptor stays in
   * Config); no other channel changes. Otherwise nothing changes and
   * nothing is sent.
   */
  lemma ConfigureResponseStates(s: L2State, ident: byte, lcid: u16, flags: u16, result: u16, mtu: u16,
                                flushTO: u16, flow: Option<FlowSpec>)
    requires ValidState(s)
    ensures var r := ConfigureResponse(s, ident, lcid, flags, result, mtu, flushTO, flow);
      r.result == result && r.pending.None?
      && match Lookup(s, ByCidConfigured(lcid))
         case None => r.next == s && r.fx == []
         case Some(key) =>
           var c := s.heap[key];
           r.next.list == s.list && r.next.heap == s.heap[key := r.next.heap[key]]
           && r.next.heap[key] == c.(state := if c.initiator && result == RESULT_SUCCESS then Open else c.state)
           && |r.fx| == 1 && r.fx[0].Send? && r.fx[0].conn == c.conn
           && Carries(r.fx[0].packet, ConfigurationResponse(ident, c.remoteCid, flags, result, Options(mtu, flushTO, flow)))
  {
    match Lookup(s, ByCidConfigured(lcid))
    case None =>
    case Some(key) =>
      ConfigureResponseFound(s, ident, lcid, flags, result, mtu, flushTO, flow, key);
      var c := s.heap[key];
      SignallingPacketCarries(ConfigurationResponse(ident, c.remoteCid, flags, result, Options(mtu, flushTO, flow)));
  }

  lemma ConfigureResponseFound(s: L2State, ident: byte, lcid: u16, flags: u16, result: u16, mtu: u16,
                               flushTO: u16, flow: Option<FlowSpec>, key: nat)
    requires ValidState(s) && Lookup(s, ByCidConfigured(lcid)) == Some(key)
    ensures var c := s.heap[key];
      var c' := c.(state := if c.initiator && result == RESULT_SUCCESS then Open else c.state);
      var cmd := ConfigurationResponse(ident, c.remoteCid, flags, result, Options(mtu, flushTO, flow));
      ConfigureResponse(s, ident, lcid, flags, result, mtu, flushTO, flow)
        == Done(s.(heap := s.heap[key := c']), [Send(c.conn, SignallingPacket(cmd))], result)
  {
    var c := s.heap[key];
    var c' := c.(state := if c.initiator && result == RESULT_SUCCESS then Open else c.state);
    if !(c.initiator && result == RESULT_SUCCESS) {
      assert s.heap[key := c'] == s.heap;
    }
  }

  /**
   * A `Disconnect` on a channel in Config or Open sends the request with
   * the next identifier and, after the wait, reports success exactly when
   * the Disconnection Response handled meanwhile carried that identifier;
   * either way the record is reset, the channel Closed and deleted.
   */
  lemma DisconnectOutcome(s: L2State, lcid: u16, rid: byte, dcid: u16, scid: u16)
    requires ValidState(s) && Lookup(s, ByCidConfigured(lcid)).Some?
    ensures var st := Disconnect(s, lcid);
      st.pending.Some? && st.pending.value.key in s.list && st.pending.value.id == s.nextIdent
      && var p := st.pending.value;
      var c := s.heap[p.key];
      |st.fx| == 1 && st.fx[0].Send? && st.fx[0].conn == c.conn
      && Carries(st.fx[0].packet, DisconnectionRequest(p.id, c.remoteCid, c.cid))
      && var h := Handle(st.next, DisconnectionResponse(rid, dcid, scid));
      h.next.list != [] && p.key in h.next.heap
      && var w := DisconnectWaited(h.next, p);
      (w.result == RESULT_DISCONNECTION_SUCCESSFUL <==> rid == p.id)
      && w.next.heap[p.key].state == Closed && w.next.list == PtrArrays.Removed(s.list, p.key)
      && w.next.disconnectRsp.ident == 0
  {
    var key := Lookup(s, ByCidConfigured(lcid)).value;
    var c := s.heap[key];
    SignallingPacketCarries(DisconnectionRequest(s.nextIdent, c.remoteCid, c.cid));
  }

  /**
   * With no response handled during the wait, the identifiers the
   * corrected counter hands out (never 0) cannot match the reset record,
   * so the Disconnect times out; the channel is still Closed and deleted.
   */
  lemma DisconnectWithoutResponseTimesOut(s: L2State, lcid: u16)
    requires ValidState(s) && Lookup(s, ByCidConfigured(lcid)).Some? && s.disconnectRsp.ident == 0
    ensures var st := Disconnect(s, lcid);
      st.pending.Some? && st.pending.value.key in st.next.heap && st.next.list != []
      && var w := DisconnectWaited(st.next, st.pending.value);
      w.result == RESULT_DISCONNECTION_TIMEOUT_OCCURRED
      && w.next.list == PtrArrays.Removed(s.list, st.pending.value.key)
  {
  }

  /**
   * As written, `GetID`'s 256th identifier is 0, the value every
   * Disconnect resets the response record to: a Disconnect that drew it
   * reports success although no response arrived.
   */
  lemma DisconnectZeroIdentAsWritten(s: L2State, lcid: u16)
    requires ValidState(s) && Lookup(s, ByCidConfigured(lcid)).Some? && s.disconnectRsp.ident == 0
    ensures IdentAsWrittenAfter(0xFF) == 0
    ensures var st := Disconnect(s, lcid);
      st.pending.Some? && st.pending.value.key in st.next.heap && st.next.list != []
      && DisconnectWaited(st.next, Pending(st.pending.value.key, IdentAsWrittenAfter(0xFF))).result
         == RESULT_DISCONNECTION_SUCCESSFUL
  {
    IdentAsWrittenReachesZero();
  }

  /**
   * A channel's state changed and nothing else: the first listed channel
   * with a CID is still the first one with it, whatever key it is under.
   */
  lemma FirstMatchAfterUpdate(s: L2State, key: nat, c: Channel, cid: u16)
    requires ValidState(s) && key in s.heap && c.cid == s.heap[key].cid
    ensures FirstMatch(Update(s, key, c).list, Update(s, key, c).heap, ByCid(cid))
         == FirstMatch(s.list, s.heap, ByCid(cid))
  {
    var t := Update(s, key, c);
    var i := FirstMatch(s.list, s.heap, ByCid(cid));
    if i < |s.list| {
      FirstMatchAt(t.list, t.heap, ByCid(cid), i);
    } else {
      assert forall k :: k in t.list ==> !Matches(t.heap[k], ByCid(cid));
    }
  }

  /**
   * The peer asks to disconnect a channel: the handler moves the first
   * channel with that CID to waiting for the upper layer's answer before
   * the PSM's callback hears of it. When the upper layer then answers with
   * `DisconnectResponse`, that channel is Closed and deleted, and the
   * response carries the identifier given and the channel's two CIDs.
   */
  lemma RemoteDisconnect(s: L2State, id: byte, dcid: u16, scid: u16, rid: byte)
    requires ValidState(s) && GetChannel(s, dcid, false).Some?
    ensures var key := GetChannel(s, dcid, false).value;
      var c := s.heap[key];
      var h := Handle(s, DisconnectionRequest(id, dcid, scid));
      h.next.list == s.list && key in h.next.heap && h.next.heap[key] == c.(state := W4L2caDisconnectRsp)
      && h.fx == Callback(s, c.psm, DisconnectInd(id, dcid))
      && var r := DisconnectResponse(h.next, rid, dcid);
      r.result == RESULT_DISCONNECTION_SUCCESSFUL && r.next.heap[key].state == Closed
      && r.next.list == PtrArrays.Removed(s.list, key)
      && |r.fx| == 1 && r.fx[0].Send? && r.fx[0].conn == c.conn
      && Carries(r.fx[0].packet, DisconnectionResponse(rid, dcid, c.remoteCid))
  {
    var key := GetChannel(s, dcid, false).value;
    var c := s.heap[key];
    var t := Update(s, key, c.(state := W4L2caDisconnectRsp));
    RemoteDisconnectRequested(s, id, dcid, scid, key);
    RemoteDisconnectAnswered(t, rid, dcid, key);
  }

  /** The handler's part: the first channel with the CID waits for the upper layer, whose callback hears of it. */
  lemma RemoteDisconnectRequested(s: L2State, id: byte, dcid: u16, scid: u16, key: nat)
    requires ValidState(s) && GetChannel(s, dcid, false) == Some(key)
    ensures var c := s.heap[key];
      var t := Update(s, key, c.(state := W4L2caDisconnectRsp));
      Handle(s, DisconnectionRequest(id, dcid, scid)) == Outcome(t, Callback(s, c.psm, DisconnectInd(id, dcid)))
      && Lookup(t, ByCidIn(dcid, W4L2caDisconnectRsp)) == Some(key)
  {
    var c := s.heap[key];
    var c' := c.(state := W4L2caDisconnectRsp);
    var t := Update(s, key, c');
    var i := FirstMatch(s.list, s.heap, ByCid(dcid));
    FirstMatchAfterUpdate(s, key, c', dcid);
    assert GetPSM(t, dcid) == c.psm;
    FirstMatchAt(t.list, t.heap, ByCidIn(dcid, W4L2caDisconnectRsp), i);
  }

  /** The upper layer's answer on the waiting channel: Closed, deleted, and the response sent. */
  lemma RemoteDisconnectAnswered(t: L2State, rid: byte, dcid: u16, key: nat)
    requires ValidState(t) && Lookup(t, ByCidIn(dcid, W4L2caDisconnectRsp)) == Some(key)
    ensures var c := t.heap[key];
      var r := DisconnectResponse(t, rid, dcid);
      r.result == RESULT_DISCONNECTION_SUCCESSFUL && r.next.heap[key].state == Closed
      && r.next.list == PtrArrays.Removed(t.list, key)
      && |r.fx| == 1 && r.fx[0].Send? && r.fx[0].conn == c.conn
      && Carries(r.fx[0].packet, DisconnectionResponse(rid, dcid, c.remoteCid))
  {
    var c := t.heap[key];
    assert c.cid == dcid;
    SignallingPacketCarries(DisconnectionResponse(rid, dcid, c.remoteCid));
  }

  /**
   * The acceptor's side of a connection: the peer's Connection Request
   * lists a new channel for the peer's CID on the incoming connection,
   * waiting for the upper layer, and tells the PSM's callback. When no
   * other channel was waiting so, the upper layer's `ConnectResponse`
   * takes that channel to Config under the local CID it chose and answers
   * with that CID and the peer's.
   */
  lemma AcceptConnect(s: L2State, id: byte, psm: u16, scid: u16, conn: nat, lcid: u16, status: u16)
    requires ValidState(s) && conn != 0 && Lookup(s, ByState(W4L2caConnectRsp)).None?
    ensures var key := s.nextKey;
      var a := Handle(s, ConnectionRequest(id, psm, scid));
      a.next.list == s.list + [key] && a.next.heap == s.heap[key := Channel(0, psm, scid, false, W4L2caConnectRsp, s.incoming)]
      && a.fx == Callback(s, psm, ConnectInd(id, scid, psm))
      && var r := ConnectResponse(a.next, conn, id, lcid, RESULT_CONNECTION_SUCCESSFUL, status);
      r.result == RESULT_RESPONSE_SUCCESSFULLY_SENT
      && r.next.heap[key] == Channel(lcid, psm, scid, false, Config, conn) && r.next.list == a.next.list
      && |r.fx| == 1 && r.fx[0].Send? && r.fx[0].conn == conn
      && Carries(r.fx[0].packet, ConnectionResponse(id, lcid, scid, RESULT_CONNECTION_SUCCESSFUL, status))
  {
    var t := AddChannel(s, psm, scid);
    AcceptListed(s, psm, scid);
    AcceptAnswered(t, s.nextKey, conn, id, lcid, status);
  }

  /** The channel the Connection Request lists is the first one waiting for the upper layer. */
  lemma AcceptListed(s: L2State, psm: u16, scid: u16)
    requires ValidState(s) && Lookup(s, ByState(W4L2caConnectRsp)).None?
    ensures Lookup(AddChannel(s, psm, scid), ByState(W4L2caConnectRsp)) == Some(s.nextKey)
  {
    var t := AddChannel(s, psm, scid);
    assert forall k :: k in s.list ==> k in s.heap && t.heap[k] == s.heap[k];
    FirstMatchAt(t.list, t.heap, ByState(W4L2caConnectRsp), |s.list|);
  }

  /** The upper layer's answer takes the first waiting channel to Config and sends the response. */
  lemma AcceptAnswered(t: L2State, key: nat, conn: nat, id: byte, lcid: u16, status: u16)
    requires ValidState(t) && conn != 0 && Lookup(t, ByState(W4L2caConnectRsp)) == Some(key)
    ensures var c := t.heap[key];
      var r := ConnectResponse(t, conn, id, lcid, RESULT_CONNECTION_SUCCESSFUL, status);
      r.result == RESULT_RESPONSE_SUCCESSFULLY_SENT
      && r.next.heap[key] == c.(initiator := false, state := Config, cid := lcid, conn := conn) && r.next.list == t.list
      && |r.fx| == 1 && r.fx[0].Send? && r.fx[0].conn == conn
      && Carries(r.fx[0].packet, ConnectionResponse(id, lcid, c.remoteCid, RESULT_CONNECTION_SUCCESSFUL, status))
  {
    var c := t.heap[key];
    SignallingPacketCarries(ConnectionResponse(id, lcid, c.remoteCid, RESULT_CONNECTION_SUCCESSFUL, status));
  }
}

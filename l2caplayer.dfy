// `CBTL2CAPLayer` as an object (src/l2cap/btl2cap.cpp): the channel list
// `m_Channels`, the channel records it points to, the static CID and
// identifier counters, the response records the signalling handlers fill
// in, the blocked read's request and buffer, the event buffer and the PSM
// callback tables. Each method is proved to take the step the function of
// the same name in module L2cap specifies; what it hands to other layers
// comes back as `Effect`s.
module L2capLayer {
  import opened Bytes
  import opened L2capWire
  import opened L2cap
  import PtrArrays
  import Logical

  class Layer {
    const channels: PtrArrays.PtrArray
    /** `m_pEventBuffer`: each inbound frame is copied over its front. */
    const event: array<byte>
    var heap: map<nat, Channel>
    var nextKey: nat
    /** `GetCID`'s static counter. */
    var nextCid: u16
    /** `GetID`'s static counter. */
    var nextIdent: byte
    var incoming: nat
    var connectRsp: ConnectRsp
    var configRsp: ConfigRsp
    var disconnectRsp: DisconnectRsp
    var commandRsp: CommandRsp
    var dataRead: DataRead
    /** `m_eDataRead.InBuffer`: the blocked reader's buffer, null when no read is armed. */
    var inBuffer: array?<byte>
    var signalled: bool
    var signallingPsms: set<u16>
    var dataPsms: set<u16>

    ghost function Abs(): L2State
      reads this, channels, channels.storage, event, inBuffer
      requires channels.Valid()
    {
      L2State(channels.Elements(), heap, nextKey, nextCid, nextIdent, incoming, connectRsp, configRsp,
              disconnectRsp, commandRsp, dataRead, if inBuffer == null then None else Some(inBuffer[..]),
              event[..], signalled, signallingPsms, dataPsms)
    }

    ghost predicate Valid()
      reads this, channels, channels.storage, event, inBuffer
    {
      channels.Valid() && event.Length == MIN_SIG_MTU_LEN && inBuffer != event && ValidState(Abs())
    }

    /** No channels, no callbacks, nothing armed; the event buffer is allocated here. */
    constructor (initialSize: nat, sizeIncrement: nat)
      requires initialSize > 0 && sizeIncrement > 0
      ensures Valid() && fresh(channels) && fresh(channels.storage) && fresh(event)
      ensures Abs() == Initial(Zeros(MIN_SIG_MTU_LEN))
    {
      channels := new PtrArrays.PtrArray(initialSize, sizeIncrement);
      event := new byte[MIN_SIG_MTU_LEN](_ => 0);
      heap := map[];
      nextKey := 1;
      nextCid := CID_DYNAMIC;
      nextIdent := 1;
      incoming := 0;
      connectRsp := ConnectRsp(0, 0, 0, 0, 0);
      configRsp := ConfigRsp(0, 0, 0, 0, 0, 0, None);
      disconnectRsp := DisconnectRsp(0, 0, 0);
      commandRsp := CommandRsp(0, 0);
      dataRead := DataRead(0, 0, 0, 0);
      inBuffer := null;
      signalled := false;
      signallingPsms := {};
      dataPsms := {};
      new;
      assert event[..] == Zeros(MIN_SIG_MTU_LEN);
    }

    /** `CBTL2CAPChannel::GetCID`: the counter's value, the counter two further on. */
    method GetCID() returns (cid: u16)
      modifies this
      requires Valid()
      ensures Valid() && cid == old(nextCid)
      ensures Abs() == old(Abs()).(nextCid := NextCid(cid))
    {
      cid := nextCid;
      nextCid := NextCid(nextCid);
    }

    /** `GetID`, with the counter skipping 0 on wrapping. */
    method GetID() returns (id: byte)
      modifies this
      requires Valid()
      ensures Valid() && id == old(nextIdent) && id != 0
      ensures Abs() == old(Abs()).(nextIdent := NextIdent(id))
    {
      id := nextIdent;
      nextIdent := NextIdent(nextIdent);
    }

    method RegisterCallback(psm: u16)
      modifies this
      requires Valid() && psm < MAX_PSM_SLOT
      ensures Valid() && Abs() == old(Abs()).(signallingPsms := old(signallingPsms) + {psm})
    {
      signallingPsms := signallingPsms + {psm};
    }

    method RegisterDataCallback(psm: u16)
      modifies this
      requires Valid() && psm < MAX_PSM_SLOT
      ensures Valid() && Abs() == old(Abs()).(dataPsms := old(dataPsms) + {psm})
    {
      dataPsms := dataPsms + {psm};
    }

    /** `DeregisterDataCallback` clears both of the PSM's slots. */
    method DeregisterDataCallback(psm: u16)
      modifies this
      requires Valid() && psm < MAX_PSM_SLOT
      ensures channels.Valid() && Abs() == old(Abs()).(signallingPsms := old(signallingPsms) - {psm}, dataPsms := old(dataPsms) - {psm})
      ensures Valid()
    {
      signallingPsms := signallingPsms - {psm};
      dataPsms := dataPsms - {psm};
    }

    /** The loop every lookup of the layer makes: the first listed channel that matches. */
    method Search(key: Key) returns (r: Option<nat>)
      requires Valid()
      ensures r == Lookup(Abs(), key)
    {
      ghost var list := channels.Elements();
      var i := 0;
      while i < channels.count
        invariant 0 <= i <= channels.count
        invariant forall j :: 0 <= j < i ==> !Matches(heap[list[j]], key)
      {
        var k := channels.storage[i];
        assert k == list[i];
        if Matches(heap[k], key) {
          FirstMatchAt(list, heap, key, i);
          return Some(k);
        }
        i := i + 1;
      }
      assert forall k :: k in list ==> !Matches(heap[k], key);
      r := None;
    }

    /** `GetPSM`: the PSM of the first channel with the CID, or 0. */
    method GetPSM(cid: u16) returns (psm: u16)
      requires Valid()
      ensures psm == L2cap.GetPSM(Abs(), cid)
    {
      var r := Search(ByCid(cid));
      psm := if r.Some? then heap[r.value].psm else 0;
    }

    /** `GetChannel`, corrected: the first channel with the local (or remote) CID, or null. */
    method GetChannel(cid: u16, remote: bool) returns (r: Option<nat>)
      requires Valid()
      ensures r == L2cap.GetChannel(Abs(), cid, remote)
    {
      r := Search(if remote then ByRemoteCid(cid) else ByCid(cid));
    }

    // -------------------------------------------------------------------
    // The single state changes every operation is made of

    /** `Clear`: the layer's event is reset, so the next Wait blocks. */
    method Clear()
      modifies this
      requires Valid()
      ensures Valid() && Abs() == old(Abs()).(signalled := false)
    {
      signalled := false;
    }

    /** `Set`: the layer's event is signalled, which ends a Wait. */
    method Set()
      modifies this
      requires Valid()
      ensures Valid() && Abs() == old(Abs()).(signalled := true)
    {
      signalled := true;
    }

    /** One channel record replaced. */
    method Store(key: nat, c: Channel)
      modifies this
      requires Valid() && key in heap
      ensures Valid() && Abs() == Update(old(Abs()), key, c)
    {
      heap := heap[key := c];
    }

    /** A new channel object. */
    method Insert(c: Channel) returns (key: nat)
      modifies this
      requires Valid()
      ensures Valid() && key == old(nextKey)
      ensures Abs() == old(Abs()).(heap := old(heap)[key := c], nextKey := key + 1)
    {
      key := nextKey;
      heap, nextKey := heap[key := c], key + 1;
    }

    /** `delete` of the channel object made last, which nothing refers to. */
    method Drop(key: nat)
      modifies this
      requires Valid() && key in heap && nextKey == key + 1
      requires key !in channels.Elements() && connectRsp.channel != key
      ensures Valid() && Abs() == old(Abs()).(heap := old(heap) - {key}, nextKey := key)
    {
      heap, nextKey := heap - {key}, key;
    }

    /** `m_Channels.Append`. */
    method List(key: nat)
      modifies channels, channels.storage
      requires Valid() && key in heap
      ensures Valid() && Abs() == old(Abs()).(list := old(Abs()).list + [key])
      ensures channels.storage == old(channels.storage) || fresh(channels.storage)
    {
      var _ := channels.Append(key);
    }

    /** `m_Channels.Delete`: the channel leaves the list; its record stays. */
    method Unlist(key: nat)
      modifies channels, channels.storage
      requires Valid() && channels.count > 0
      ensures Valid() && Abs() == old(Abs()).(list := PtrArrays.Removed(old(Abs()).list, key))
    {
      ghost var s := Abs();
      Unlisted(s, key);
      var _ := channels.Delete(key);
      assert Abs() == s.(list := PtrArrays.Removed(s.list, key));
    }

    method SetConnectRspRecord(r: ConnectRsp)
      modifies this
      requires Valid() && (r.channel == 0 || r.channel in heap)
      ensures Valid() && Abs() == old(Abs()).(connectRsp := r)
    {
      connectRsp := r;
    }

    method SetConfigRsp(r: ConfigRsp)
      modifies this
      requires Valid()
      ensures Valid() && Abs() == old(Abs()).(configRsp := r)
    {
      configRsp := r;
    }

    method SetDisconnectRsp(r: DisconnectRsp)
      modifies this
      requires Valid()
      ensures Valid() && Abs() == old(Abs()).(disconnectRsp := r)
    {
      disconnectRsp := r;
    }

    method SetCommandRsp(r: CommandRsp)
      modifies this
      requires Valid()
      ensures Valid() && Abs() == old(Abs()).(commandRsp := r)
    {
      commandRsp := r;
    }

    method SetIncoming(conn: nat)
      modifies this
      requires Valid()
      ensures Valid() && Abs() == old(Abs()).(incoming := conn)
    {
      incoming := conn;
    }

    /** The read request and its buffer set together. */
    method SetRead(d: DataRead, buffer: array?<byte>)
      modifies this
      requires Valid() && buffer != event && (buffer != null ==> d.n <= d.length <= buffer.Length)
      ensures Valid() && inBuffer == buffer
      ensures Abs() == old(Abs()).(dataRead := d, inBuffer := if buffer == null then None else Some(buffer[..]))
    {
      dataRead, inBuffer := d, buffer;
    }

    /** `memcpy(m_eDataRead.InBuffer + at, data, |data|)`. */
    method FillBuffer(at: nat, data: Bytes)
      modifies inBuffer
      requires Valid() && inBuffer != null && at + |data| <= dataRead.length
      ensures Valid() && Abs() == old(Abs()).(inBuffer := Some(old(inBuffer[..at]) + data + old(inBuffer[at + |data|..])))
    {
      CopyIn(inBuffer, at, data);
    }

    /** `memcpy(m_pEventBuffer, pBuffer, nLength)`. */
    method LoadEvent(frame: Bytes)
      modifies event
      requires Valid() && |frame| <= MIN_SIG_MTU_LEN
      ensures Valid() && Abs() == old(Abs()).(event := EventBuffer(old(Abs()), frame))
    {
      CopyIn(event, 0, frame);
    }

    // -------------------------------------------------------------------
    // The operations

    /** `AddChannel`: an acceptor channel for the peer's CID, listed last. */
    method AddChannel(psm: u16, cid: u16) returns (ok: bool)
      modifies this, channels, channels.storage
      requires Valid()
      ensures Valid() && ok && Abs() == L2cap.AddChannel(old(Abs()), psm, cid)
      ensures channels.storage == old(channels.storage) || fresh(channels.storage)
    {
      var key := Insert(Channel(0, psm, cid, false, W4L2caConnectRsp, incoming));
      List(key);
      ok := true;
    }

    /** `DeleteChannel`: the first channel with the CID leaves the list. */
    method DeleteChannel(cid: u16) returns (found: bool)
      modifies channels, channels.storage
      requires Valid()
      ensures Valid() && (Abs(), found) == L2cap.DeleteChannel(old(Abs()), cid)
    {
      var r := Search(ByCid(cid));
      found := r.Some?;
      if found {
        Unlist(r.value);
      }
    }

    /**
     * `Connect` up to its Wait. `link` is what the logical layer's list
     * holds for the address; `connectFails` and `authFails` are what its
     * Connect and Authenticate report.
     */
    method Connect(psm: u16, link: Option<ConnectLink>, connectFails: bool, authFails: bool, lcid0: u16, status0: u16)
      returns (result: u16, fx: seq<Effect>, pending: Option<Pending>, lcid: u16, status: u16)
      modifies this, channels, channels.storage
      requires Valid()
      ensures Valid() && Connected(Step(Abs(), fx, result, pending), lcid, status)
                         == ConnectStart(old(Abs()), psm, link, connectFails, authFails, lcid0, status0)
    {
      result, fx, pending, lcid, status := RESULT_PSM_NOT_SUPPORTED, [], None, lcid0, status0;
      if link.None? || link.value.connecting {
        return;
      }
      ghost var s := Abs();
      var found := Search(ByPsmConn(psm, link.value.conn));
      if found.Some? {
        result, fx, pending, lcid, status := ConnectOn(s, true, found.value, psm, link.value, connectFails, authFails,
                                                       lcid0, status0);
      } else {
        var key := MakeChannel(psm, link.value.conn);
        result, fx, pending, lcid, status := ConnectOn(s, false, key, psm, link.value, connectFails, authFails,
                                                       lcid0, status0);
      }
    }

    /** `new CBTL2CAPChannel(nPSM, pConnection)`: a Closed channel with the next CID. */
    method MakeChannel(psm: u16, conn: nat) returns (key: nat)
      modifies this
      requires Valid()
      ensures Valid() && key == old(nextKey) && Abs() == Made(old(Abs()), psm, conn)
    {
      var cid := GetCID();
      key := Insert(Channel(cid, psm, 0, false, Closed, conn));
    }

    /**
     * `Connect` once the channel is found or made (`s` is the state before
     * the call): a made channel that is not kept is deleted again.
     */
    method ConnectOn(ghost s: L2State, found: bool, key: nat, psm: u16, link: ConnectLink, connectFails: bool,
                     authFails: bool, lcid0: u16, status0: u16)
      returns (result: u16, fx: seq<Effect>, pending: Option<Pending>, lcid: u16, status: u16)
      modifies this, channels, channels.storage
      requires Valid() && key in heap && ValidState(s)
      requires found ==> Abs() == s
      requires !found ==> key == s.nextKey && Abs() == Made(s, psm, link.conn)
      ensures Valid() && Connected(Step(Abs(), fx, result, pending), lcid, status)
                         == L2cap.ConnectOn(s, old(Abs()), found, key, psm, link, connectFails, authFails, lcid0, status0)
    {
      var c, conn := heap[key], link.conn;
      if c.state == Open {
        result, fx, pending, lcid, status := RESULT_CONNECTION_SUCCESSFUL, [], None, c.cid, STATUS_NO_FURTHER_INFORMATION;
        return;
      }
      fx, lcid, status := [], lcid0, status0;
      if !link.connected {
        c := c.(initiator := true, state := Closed);
        fx := [DeviceConnecting(conn), LinkConnect(conn)] + (if connectFails then [] else [LinkAuthenticate(conn)]);
        if connectFails || authFails {
          result, pending := RESULT_PSM_NOT_SUPPORTED, None;
          fx := fx + [DeviceIdle(conn)];
          if found {
            Store(key, c);
          } else {
            assert s.heap[key := heap[key]] - {key} == s.heap;
            Drop(key);
          }
          return;
        }
      }
      result, fx, pending := ArmConnect(key, c, psm, conn, lcid0, status0, fx);
    }

    /** `Connect` from the Append on: the channel is listed, the identifier armed and the request sent. */
    method ArmConnect(key: nat, c: Channel, psm: u16, conn: nat, lcid0: u16, status0: u16, fx0: seq<Effect>)
      returns (result: u16, fx: seq<Effect>, pending: Option<Pending>)
      modifies this, channels, channels.storage
      requires Valid() && key in heap
      ensures Valid() && Connected(Step(Abs(), fx, result, pending), lcid0, status0)
                         == L2cap.ArmConnect(old(Abs()), key, c, psm, conn, lcid0, status0, fx0)
    {
      List(key);
      Clear();
      Store(key, c.(state := W4L2capConnectRsp));
      var id := GetID();
      SetConnectRspRecord(ConnectRsp(id, key, lcid0, RESULT_PSM_NOT_SUPPORTED, status0));
      fx := fx0 + [DeviceConnecting(conn), Send(conn, SignallingPacket(ConnectionRequest(id, psm, c.cid)))];
      result, pending := RESULT_PSM_NOT_SUPPORTED, Some(Pending(key, id));
    }

    /** `Connect` after its Wait: the identifier is disarmed and the recorded answer returned. */
    method ConnectWaited() returns (result: u16, lcid: u16, status: u16)
      modifies this
      requires Valid() && signalled
      ensures Valid() && Connected(Done(Abs(), [], result), lcid, status) == L2cap.ConnectWaited(old(Abs()))
    {
      result, lcid, status := connectRsp.result, connectRsp.lcid, connectRsp.status;
      SetConnectRspRecord(connectRsp.(ident := 0));
    }

    /**
     * `ConnectResponse`, given the connection with the address (0 when
     * there is none): the first channel waiting for the upper layer's
     * answer becomes the acceptor in Config and the answer goes out.
     */
    method ConnectResponse(conn: nat, ident: byte, lcid: u16, response: u16, status: u16)
      returns (result: u16, fx: seq<Effect>)
      modifies this
      requires Valid()
      ensures Valid() && Done(Abs(), fx, result) == L2cap.ConnectResponse(old(Abs()), conn, ident, lcid, response, status)
    {
      result, fx := RESULT_FAILURE_TO_MATCH, [];
      if conn == 0 {
        return;
      }
      var r := Search(ByState(W4L2caConnectRsp));
      if r.Some? {
        var c := heap[r.value];
        Store(r.value, c.(initiator := false, state := Config, cid := lcid, conn := conn));
        fx := [Send(conn, SignallingPacket(ConnectionResponse(ident, lcid, c.remoteCid, response, status)))];
        result := RESULT_RESPONSE_SUCCESSFULLY_SENT;
      }
    }

    /**
     * `Configure` up to its Wait: on a channel in Config or Open it draws
     * an identifier, sends the request when `blocking` equals the
     * channel's Initiator flag, and a blocking call arms the identifier.
     */
    method Configure(cid: u16, mtu: u16, flow: Option<FlowSpec>, flushTO: u16, blocking: bool)
      returns (result: u16, fx: seq<Effect>, pending: Option<Pending>)
      modifies this
      requires Valid()
      ensures Valid() && Step(Abs(), fx, result, pending) == L2cap.Configure(old(Abs()), cid, mtu, flow, flushTO, blocking)
    {
      result, fx, pending := RESULT_REJECTED, [], None;
      var r := Search(ByCidConfigured(cid));
      if r.Some? {
        result, fx, pending := ConfigureAt(r.value, mtu, flow, flushTO, blocking);
      }
    }

    method ConfigureAt(key: nat, mtu: u16, flow: Option<FlowSpec>, flushTO: u16, blocking: bool)
      returns (result: u16, fx: seq<Effect>, pending: Option<Pending>)
      modifies this
      requires Valid() && key in heap
      ensures Valid()
      ensures Step(Abs(), fx, result, pending) == L2cap.ConfigureAt(old(Abs()), key, mtu, flow, flushTO, blocking)
    {
      var c := heap[key];
      if blocking {
        Clear();
      }
      var id := GetID();
      var cmd := ConfigurationRequest(id, c.remoteCid, 0, Options(mtu, flushTO, flow));
      fx := if blocking == c.initiator then [Send(c.conn, SignallingPacket(cmd))] else [];
      result, pending := RESULT_REJECTED, None;
      if blocking {
        SetConfigRsp(configRsp.(ident := id));
        pending := Some(Pending(key, id));
      }
    }

    /**
     * A blocking `Configure` after its Wait: when the armed identifier is
     * still the one sent, the recorded result and parameters, and an
     * acceptor channel that succeeded is Open.
     */
    method ConfigureWaited(p: Pending) returns (result: u16, configured: Option<Configured>)
      modifies this
      requires Valid() && signalled && p.key in heap
      requires p.id == configRsp.ident ==> configRsp.flow.Some?
      ensures Valid() && (Done(Abs(), [], result), configured) == L2cap.ConfigureWaited(old(Abs()), p)
    {
      result, configured := RESULT_REJECTED, None;
      if p.id == configRsp.ident {
        result := configRsp.result;
        configured := Some(Configured(configRsp.mtu, configRsp.flow.value, configRsp.flushTO));
        var c := heap[p.key];
        if !c.initiator && result == RESULT_SUCCESS {
          Store(p.key, c.(state := Open));
        }
      }
    }

    /**
     * `ConfigureResponse`: on a channel in Config or Open the response
     * goes out and an initiator channel accepting with success is Open.
     */
    method ConfigureResponse(ident: byte, lcid: u16, flags: u16, result: u16, mtu: u16, flushTO: u16,
                             flow: Option<FlowSpec>) returns (r: u16, fx: seq<Effect>)
      modifies this
      requires Valid()
      ensures Valid()
      ensures Done(Abs(), fx, r) == L2cap.ConfigureResponse(old(Abs()), ident, lcid, flags, result, mtu, flushTO, flow)
    {
      r, fx := result, [];
      var found := Search(ByCidConfigured(lcid));
      if found.Some? {
        var c := heap[found.value];
        fx := [Send(c.conn, SignallingPacket(ConfigurationResponse(ident, c.remoteCid, flags, result,
                                                                   Options(mtu, flushTO, flow))))];
        if c.initiator && result == RESULT_SUCCESS {
          Store(found.value, c.(state := Open));
        }
      }
    }

    /** `Disconnect` up to its Wait: the channel waits for the peer's response to the request. */
    method Disconnect(lcid: u16) returns (result: u16, fx: seq<Effect>, pending: Option<Pending>)
      modifies this
      requires Valid()
      ensures Valid() && Step(Abs(), fx, result, pending) == L2cap.Disconnect(old(Abs()), lcid)
    {
      result, fx, pending := RESULT_DISCONNECTION_TIMEOUT_OCCURRED, [], None;
      var r := Search(ByCidConfigured(lcid));
      if r.Some? {
        var c := heap[r.value];
        Store(r.value, c.(state := W4L2capDisconnectRsp));
        Clear();
        var id := GetID();
        fx := [Send(c.conn, SignallingPacket(DisconnectionRequest(id, c.remoteCid, c.cid)))];
        pending := Some(Pending(r.value, id));
      }
    }

    /**
     * `Disconnect` after its Wait: success exactly when the recorded
     * response carries the request's identifier; the record is reset and
     * the channel Closed and deleted either way.
     */
    method DisconnectWaited(p: Pending) returns (result: u16)
      modifies this, channels, channels.storage
      requires Valid() && p.key in heap && channels.count > 0
      ensures Valid() && Done(Abs(), [], result) == L2cap.DisconnectWaited(old(Abs()), p)
    {
      result := if disconnectRsp.ident == p.id then RESULT_DISCONNECTION_SUCCESSFUL
                else RESULT_DISCONNECTION_TIMEOUT_OCCURRED;
      Store(p.key, heap[p.key].(state := Closed));
      SetDisconnectRsp(disconnectRsp.(ident := 0));
      Unlist(p.key);
    }

    /** `DisconnectResponse`: a channel waiting for the upper layer's answer is answered, Closed and deleted. */
    method DisconnectResponse(ident: byte, lcid: u16) returns (result: u16, fx: seq<Effect>)
      modifies this, channels, channels.storage
      requires Valid()
      ensures Valid() && Done(Abs(), fx, result) == L2cap.DisconnectResponse(old(Abs()), ident, lcid)
    {
      result, fx := RESULT_DISCONNECTION_FAILURE, [];
      var r := Search(ByCidIn(lcid, W4L2caDisconnectRsp));
      if r.Some? {
        var c := heap[r.value];
        fx := [Send(c.conn, SignallingPacket(DisconnectionResponse(ident, c.cid, c.remoteCid)))];
        Store(r.value, c.(state := Closed));
        Unlist(r.value);
        result := RESULT_DISCONNECTION_SUCCESSFUL;
      }
    }

    /** `Write`: on an Open channel the data goes out in one packet to the remote CID. */
    method Write(cid: u16, data: Bytes) returns (result: u16, fx: seq<Effect>)
      modifies this
      requires Valid() && |data| <= MIN_CNL_MTU_LEN
      ensures Valid() && Done(Abs(), fx, result) == L2cap.Write(old(Abs()), cid, data)
    {
      result, fx := RESULT_DISCONNECTION_TIMEOUT_OCCURRED, [];
      var r := Search(ByCidIn(cid, Open));
      if r.Some? {
        var c := heap[r.value];
        Clear();
        fx := [Send(c.conn, Packet(c.remoteCid, data))];
        result := RESULT_SUCCESS;
      }
    }

    /** `Read` up to its Wait: on an Open channel the read is armed on the caller's buffer. */
    method Read(cid: u16, length: u16, buffer: array<byte>) returns (result: u16, pending: Option<Pending>)
      modifies this
      requires Valid() && length as int <= buffer.Length && buffer != event
      ensures Valid() && Step(Abs(), [], result, pending) == L2cap.Read(old(Abs()), cid, length, buffer[..])
    {
      result, pending := RESULT_DISCONNECTION_TIMEOUT_OCCURRED, None;
      var r := Search(ByCidIn(cid, Open));
      if r.Some? {
        Clear();
        SetRead(DataRead(cid, length, RESULT_DISCONNECTION_TIMEOUT_OCCURRED, 0), buffer);
        pending := Some(Pending(r.value, 0));
      }
    }

    /**
     * `Read` after its Wait: the request is reset and the recorded result
     * returned; the caller's buffer holds what the fills left in it.
     */
    method ReadWaited() returns (result: u16, buffer: array<byte>)
      modifies this
      requires Valid() && inBuffer != null
      ensures Valid() && buffer == old(inBuffer)
      ensures (Done(Abs(), [], result), buffer[..]) == L2cap.ReadWaited(old(Abs()))
    {
      buffer := inBuffer;
      result := dataRead.result;
      SetRead(dataRead.(cid := 0, length := 0), null);
    }

    /**
     * The blocked read's fill from one data packet: the bytes still
     * wanted, or the whole packet if it is shorter, are copied in at N.
     */
    method Fill(data: Bytes)
      modifies this, inBuffer
      requires Valid() && inBuffer != null
      ensures Valid() && Abs() == L2cap.Fill(old(Abs()), data)
    {
      var d := dataRead;
      var wanted := d.length - d.n;
      if |data| < wanted as int {
        FillBuffer(d.n as nat, data);
        SetRead(d.(n := d.n + |data| as u16), inBuffer);
      } else {
        FillBuffer(d.n as nat, data[..wanted]);
        SetRead(d.(n := d.length, result := RESULT_SUCCESS), inBuffer);
        Set();
      }
    }

    /** `SignallingCallback`: the PSM's callback runs if one is registered. */
    method SignallingCallback(psm: u16, ev: Indication) returns (fx: seq<Effect>)
      requires Valid()
      ensures fx == Callback(Abs(), psm, ev)
    {
      fx := if psm in signallingPsms then [Signal(psm, ev)] else [];
    }

    /** `SetConnectRsp` when the identifier matches the armed one. */
    method SetConnectRsp(dcid: u16, scid: u16, result: u16, status: u16)
      modifies this
      requires Valid()
      ensures Valid() && Abs() == L2cap.SetConnectRsp(old(Abs()), dcid, scid, result, status)
    {
      var key := connectRsp.channel;
      SetConnectRspRecord(connectRsp.(lcid := scid, result := result, status := status));
      Set();
      if key != 0 {
        Store(key, heap[key].(remoteCid := dcid, state := if result == RESULT_CONNECTION_SUCCESSFUL then Config else Closed));
      }
    }

    /** The `Process` handler of each command class with a handler. */
    method HandleCommand(c: Command) returns (fx: seq<Effect>)
      modifies this, channels, channels.storage
      requires Valid() && Handleable(c)
      ensures Valid() && Outcome(Abs(), fx) == Handle(old(Abs()), c)
      ensures channels.storage == old(channels.storage) || fresh(channels.storage)
    {
      fx := [];
      match c
      case CommandReject(id, reason, _) =>
        fx := CommandRejectReceived(id, reason);
      case ConnectionRequest(id, psm, scid) =>
        fx := ConnectionRequestReceived(id, psm, scid);
      case ConnectionResponse(id, dcid, scid, result, status) =>
        fx := ConnectionResponseReceived(id, dcid, scid, result, status);
      case ConfigurationRequest(id, dcid, _, options) =>
        fx := ConfigurationRequestReceived(id, dcid, options);
      case ConfigurationResponse(id, scid, flags, result, options) =>
        fx := ConfigurationResponseReceived(id, scid, flags, result, options);
      case DisconnectionRequest(id, dcid, _) =>
        fx := DisconnectionRequestReceived(id, dcid);
      case DisconnectionResponse(id, dcid, scid) =>
        fx := DisconnectionResponseReceived(id, dcid, scid);
      case _ =>
    }

    method CommandRejectReceived(id: byte, reason: u16) returns (fx: seq<Effect>)
      modifies this
      requires Valid()
      ensures Valid() && Outcome(Abs(), fx) == Rejected(old(Abs()), id, reason)
    {
      SetCommandRsp(CommandRsp(id, reason));
      Set();
      fx := [];
    }

    method ConnectionRequestReceived(id: byte, psm: u16, scid: u16) returns (fx: seq<Effect>)
      modifies this, channels, channels.storage
      requires Valid()
      ensures Valid() && Outcome(Abs(), fx) == ConnectRequested(old(Abs()), id, psm, scid)
      ensures channels.storage == old(channels.storage) || fresh(channels.storage)
    {
      var _ := AddChannel(psm, scid);
      fx := SignallingCallback(psm, ConnectInd(id, scid, psm));
    }

    method ConnectionResponseReceived(id: byte, dcid: u16, scid: u16, result: u16, status: u16)
      returns (fx: seq<Effect>)
      modifies this
      requires Valid()
      ensures Valid() && Outcome(Abs(), fx) == ConnectResponded(old(Abs()), id, dcid, scid, result, status)
    {
      fx := [];
      if id == connectRsp.ident {
        SetConnectRsp(dcid, scid, result, status);
      } else {
        var psm := GetPSM(scid);
        fx := SignallingCallback(psm, ConnectCfm(id, dcid, scid, result, status));
      }
    }

    method ConfigurationRequestReceived(id: byte, dcid: u16, options: Bytes) returns (fx: seq<Effect>)
      requires Valid() && Extractable(options)
      ensures Outcome(Abs(), fx) == ConfigRequested(Abs(), id, dcid, options)
    {
      var psm := GetPSM(dcid);
      fx := SignallingCallback(psm, ConfigInd(id, dcid, psm, ExtractMTU(options), ExtractFlow(options),
                                              ExtractFlushTO(options)));
    }

    /** The Configuration Response handler: the armed identifier's record, or else the PSM's callback. */
    method ConfigurationResponseReceived(id: byte, scid: u16, flags: u16, result: u16, options: Bytes)
      returns (fx: seq<Effect>)
      modifies this
      requires Valid() && Extractable(options)
      ensures Valid() && Outcome(Abs(), fx) == ConfigResponded(old(Abs()), id, scid, flags, result, options)
    {
      var mtu, flushTO, flow := ExtractMTU(options), ExtractFlushTO(options), ExtractFlow(options);
      fx := [];
      if id == configRsp.ident {
        SetConfigRsp(ConfigRsp(id, scid, flags, result, mtu, flushTO, flow));
        Set();
      } else {
        var psm := GetPSM(scid);
        fx := SignallingCallback(psm, ConfigCfm(id, scid, flags, result, mtu, flow, flushTO));
      }
    }

    /** The Disconnection Request handler: the channel waits for the upper layer's answer and the PSM's callback runs. */
    method DisconnectionRequestReceived(id: byte, dcid: u16) returns (fx: seq<Effect>)
      modifies this
      requires Valid()
      ensures Valid() && Outcome(Abs(), fx) == DisconnectRequested(old(Abs()), id, dcid)
    {
      var r := GetChannel(dcid, false);
      if r.Some? {
        Store(r.value, heap[r.value].(state := W4L2caDisconnectRsp));
      }
      var psm := GetPSM(dcid);
      fx := SignallingCallback(psm, DisconnectInd(id, dcid));
    }

    method DisconnectionResponseReceived(id: byte, dcid: u16, scid: u16) returns (fx: seq<Effect>)
      modifies this
      requires Valid()
      ensures Valid() && Outcome(Abs(), fx) == DisconnectResponded(old(Abs()), id, dcid, scid)
    {
      SetDisconnectRsp(DisconnectRsp(id, dcid, scid));
      Set();
      fx := [];
    }

    /** `pCommand->Process`: a code without a handler is ignored. */
    method Process(rec: Bytes) returns (fx: seq<Effect>)
      modifies this, channels, channels.storage
      requires Valid() && RecordOk(rec)
      ensures Valid() && Outcome(Abs(), fx) == L2cap.Process(old(Abs()), rec)
      ensures channels.storage == old(channels.storage) || fresh(channels.storage)
    {
      DispatchCorrected(rec[0]);
      fx := [];
      if Dispatch(rec[0]) != NoHandler {
        fx := HandleCommand(Parse(rec).value);
      }
    }

    /**
     * The signalling branch of `L2CAPEventHandler`: `GetCommand` with a
     * rising index until it returns null, each record processed in turn.
     */
    method RunCommands(area: Bytes) returns (fx: seq<Effect>)
      modifies this, channels, channels.storage
      requires Valid() && Framed(area) && |area| <= MIN_SIG_MTU_LEN
      requires forall i :: 0 <= i < |Records(area)| ==> RecordOk(Records(area)[i])
      ensures Valid() && Outcome(Abs(), fx) == L2cap.RunCommands(old(Abs()), Records(area))
    {
      ghost var rs := Records(area);
      ghost var total := L2cap.RunCommands(Abs(), rs);
      RecordsBound(area);
      AccountedStart(Abs(), rs);
      var index: byte := 0;
      fx := [];
      var r := GetCommand(area, 0);
      while r.Some?
        invariant Valid() && index as int <= |rs| && r == if index as int < |rs| then Some(rs[index]) else None
        invariant channels.storage == old(channels.storage) || fresh(channels.storage)
        invariant Accounted(total, Abs(), rs[index..], fx)
        decreases |rs| - index as int
      {
        fx := RunCommand(r.value, rs, index as nat, total, fx);
        index := index + 1;
        r := GetCommand(area, index);
      }
      AccountedDone(total, Abs(), rs, index as nat, fx);
    }

    /** One record of the signalling packet processed, the loop's account kept. */
    method RunCommand(rec: Bytes, ghost rs: seq<Bytes>, ghost i: nat, ghost total: Outcome, fx: seq<Effect>)
      returns (fx': seq<Effect>)
      modifies this, channels, channels.storage
      requires Valid() && i < |rs| && rs[i] == rec && forall j :: 0 <= j < |rs| ==> RecordOk(rs[j])
      requires Accounted(total, Abs(), rs[i..], fx)
      ensures Valid() && Accounted(total, Abs(), rs[i + 1..], fx')
      ensures channels.storage == old(channels.storage) || fresh(channels.storage)
    {
      ghost var before := Abs();
      var more := Process(rec);
      RunCommandsStep(total, before, Abs(), rs, i, fx, more);
      fx' := fx + more;
    }

    /**
     * `L2CAPEventHandler`: a frame shorter than its header is ignored;
     * otherwise it is copied into the event buffer and routed by its CID.
     */
    method EventHandler(frame: Bytes) returns (fx: seq<Effect>)
      modifies this, channels, channels.storage, event, inBuffer
      requires Valid() && FrameOk(Abs(), frame)
      ensures Valid() && Outcome(Abs(), fx) == EventStep(old(Abs()), frame)
    {
      fx := [];
      if |frame| < PACKET_HEADER_SIZE {
        return;
      }
      LoadEvent(frame);
      var ev := event[..];
      var len, cid := ReadLE16(ev, 0), ReadLE16(ev, 2);
      var payload := ev[PACKET_HEADER_SIZE..PACKET_HEADER_SIZE + len];
      if cid == CID_SIGNALLING {
        fx := RunCommands(payload);
      } else if cid != CID_CONNECTIONLESS {
        var psm := GetPSM(cid);
        if psm in dataPsms {
          fx := [Deliver(psm, cid, len, payload)];
        } else if cid == dataRead.cid && inBuffer != null {
          Fill(payload);
        }
      }
    }

    /**
     * `LPEventHandler`, given the connection the logical layer finds for
     * the event (0 for none).
     */
    method LpEventHandler(ev: Logical.LpEvent, conn: nat) returns (fx: seq<Effect>)
      modifies this
      requires Valid()
      ensures Valid() && Outcome(Abs(), fx) == LpStep(old(Abs()), ev, conn)
    {
      fx := [];
      if conn == 0 {
        return;
      }
      match ev
      case ConnectCfm(_) =>
      case ConnectCfmNeg(_) =>
        fx := [DeviceIdle(conn)];
      case ConnectInd(_) =>
        SetIncoming(conn);
        fx := [CreateDevice(conn), DeviceConnecting(conn), LinkAccept(conn)];
      case DisconnectInd(_) =>
        fx := [DeviceIdle(conn)];
    }
  }

  /** `memcpy(buffer + at, data, |data|)`. */
  method CopyIn(buffer: array<byte>, at: nat, data: Bytes)
    modifies buffer
    requires at + |data| <= buffer.Length
    ensures buffer[..] == old(buffer[..at]) + data + old(buffer[at + |data|..])
  {
    var i := 0;
    while i < |data|
      invariant 0 <= i <= |data|
      invariant forall j :: 0 <= j < buffer.Length ==>
                  buffer[j] == if at <= j < at + i then data[j - at] else old(buffer[j])
    {
      buffer[at + i] := data[i];
      i := i + 1;
    }
    assert buffer[..] == old(buffer[..at]) + data + old(buffer[at + |data|..]);
  }

  /** Each record takes at least its four header bytes. */
  lemma {:induction false} RecordsBound(area: Bytes)
    requires Framed(area)
    ensures COMMAND_HEADER_SIZE * |Records(area)| <= |area|
    decreases |area|
  {
    if |area| > 0 {
      RecordsBound(area[RecordSize(area)..]);
    }
  }

  /** The loop's account: what is done so far, followed by the rest of the records, makes the total. */
  ghost predicate Accounted(total: Outcome, s: L2State, rs: seq<Bytes>, fx: seq<Effect>)
    requires ValidState(s) && forall j :: 0 <= j < |rs| ==> RecordOk(rs[j])
  {
    var rest := L2cap.RunCommands(s, rs);
    total == Outcome(rest.next, fx + rest.fx)
  }

  /** Before the loop nothing is done and every record is still to come. */
  lemma AccountedStart(s: L2State, rs: seq<Bytes>)
    requires ValidState(s) && forall j :: 0 <= j < |rs| ==> RecordOk(rs[j])
    ensures Accounted(L2cap.RunCommands(s, rs), s, rs[0..], [])
  {
    assert rs[0..] == rs;
  }

  /** After the last record the account is what was done. */
  lemma AccountedDone(total: Outcome, s: L2State, rs: seq<Bytes>, i: nat, fx: seq<Effect>)
    requires ValidState(s) && i == |rs| && forall j :: 0 <= j < |rs| ==> RecordOk(rs[j])
    requires Accounted(total, s, rs[i..], fx)
    ensures total == Outcome(s, fx)
  {
    assert rs[i..] == [];
    assert fx + [] == fx;
  }

  /**
   * Processing the records from `i` on is processing record `i`, then
   * those after it: one more record done keeps the loop's account.
   */
  lemma RunCommandsStep(total: Outcome, s: L2State, t: L2State, rs: seq<Bytes>, i: nat, fx: seq<Effect>,
                        more: seq<Effect>)
    requires ValidState(s) && ValidState(t) && i < |rs| && forall j :: 0 <= j < |rs| ==> RecordOk(rs[j])
    requires Accounted(total, s, rs[i..], fx)
    requires Outcome(t, more) == L2cap.Process(s, rs[i])
    ensures Accounted(total, t, rs[i + 1..], fx + more)
  {
    assert rs[i..][0] == rs[i] && rs[i..][1..] == rs[i + 1..];
    var rest := L2cap.RunCommands(t, rs[i + 1..]);
    assert fx + (more + rest.fx) == fx + more + rest.fx;
  }
}

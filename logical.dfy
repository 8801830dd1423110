// The logical (link-manager) layer: the connection list, the connection an
// operation is waiting on, the inquiry in progress and the count of remote
// names still outstanding (src/hci/btlogicallayer.cpp), together with the
// link-event handlers that update them (src/hci/bthcievent.cpp).
//
// A connection object is a record kept in `heap` under a positive id; the
// connection list `m_Connections` and the current-connection pointer
// `m_pConnection` hold ids, 0 standing for null. Commands a handler sends
// and the notifications it raises are returned as `Effects`.
module Logical {
  import opened Bytes
  import DeviceClass
  import HciCommand
  import HciEvent
  import Connection
  import InquiryResults
  import PtrArrays
  import BtQueue
  import AclData
  import HciLayer

  type Conn = Connection.Conn
  type Response = InquiryResults.Response
  type Command = HciCommand.Command

  const STATUS_SUCCESS: byte := 0x00
  /** BT_ERROR_UNSUPPORTED_REMOTE_FEATURE, the reason a rejected request carries. */
  const ERROR_UNSUPPORTED_REMOTE_FEATURE: byte := 0x1A
  /** `unsigned` arithmetic wraps modulo 2^32. */
  const UNSIGNED_LIMIT: nat := 0x1_0000_0000

  /** The lower-protocol notifications handed to the registered LP callback. */
  datatype LpEvent =
    | ConnectCfm(addr: Bytes)
    | ConnectCfmNeg(addr: Bytes)
    | ConnectInd(addr: Bytes)
    | DisconnectInd(handle: u16)

  datatype LState = LState(
    list: seq<nat>,                      // m_Connections, as ids
    heap: map<nat, Conn>,                // every connection object ever created
    nextId: nat,                         // the id the next `new CBTConnection` gets
    current: nat,                        // m_pConnection
    connecting: bool,                    // m_bConnecting
    pending: nat,                        // m_nNameRequestsPending
    results: Option<seq<Response>>,      // m_pInquiryResults
    signalled: bool,                     // the layer's wait flag (Set/Clear)
    lpRegistered: bool,                  // m_pLPCallback != 0
    l2capRegistered: bool)               // m_pL2CAPCallback != 0

  /** What one handler does outside the layer's own state. */
  datatype Effects = Effects(
    sent: seq<Command>,                  // commands passed to SendHCICommand, in order
    lp: seq<LpEvent>,                    // LP callback invocations, in order
    dataCredits: nat,                    // added to the HCI layer's data credits
    managerConnections: seq<nat>)        // connections handed to the device manager

  const NoEffects := Effects([], [], 0, [])

  datatype Outcome = Outcome(next: LState, fx: Effects)

  /** Effects of `a` followed by those of `b`. */
  function Then(a: Effects, b: Effects): Effects
  {
    Effects(a.sent + b.sent, a.lp + b.lp, a.dataCredits + b.dataCredits,
            a.managerConnections + b.managerConnections)
  }

  predicate Listed(list: seq<nat>, heap: map<nat, Conn>)
  {
    forall i :: 0 <= i < |list| ==> list[i] in heap
  }

  predicate ValidResults(rs: seq<Response>)
  {
    forall i :: 0 <= i < |rs| ==> InquiryResults.ValidResponse(rs[i])
  }

  /**
   * Listed connections exist, ids are positive and below `nextId`, every
   * record keeps its fixed sizes, the current pointer is null or a record,
   * the counter fits an `unsigned` and the inquiry records are well formed.
   */
  predicate ValidLState(s: LState)
  {
    && Listed(s.list, s.heap)
    && 0 < s.nextId
    && (forall id :: id in s.heap ==> 0 < id < s.nextId && Connection.ValidConn(s.heap[id]))
    && (s.current == 0 || s.current in s.heap)
    && s.pending < UNSIGNED_LIMIT
    && (s.results.Some? ==> ValidResults(s.results.value))
  }

  function Quiet(s: LState): Outcome
  {
    Outcome(s, NoEffects)
  }

  /** State and status set together, as the handlers do. */
  function Marked(c: Conn, state: Connection.ConnState, status: byte): (r: Conn)
    ensures r.state == state && r.status == status
    ensures r.(state := c.state, status := c.status) == c
  {
    Connection.SetStatus(Connection.SetState(c, state), status)
  }

  // ---------------------------------------------------------------------
  // GetConnection (btlogicallayer.cpp:472-492)

  /** Position of the first listed connection with the address, or |list|. */
  function AddrIndex(list: seq<nat>, heap: map<nat, Conn>, addr: Bytes): (k: nat)
    requires Listed(list, heap)
    ensures k <= |list|
    ensures k < |list| ==> heap[list[k]].addr == addr
    ensures forall j :: 0 <= j < k ==> heap[list[j]].addr != addr
  {
    if |list| == 0 then 0
    else if heap[list[0]].addr == addr then 0
    else
      assert Listed(list[1..], heap);
      1 + AddrIndex(list[1..], heap, addr)
  }

  /** Position of the first listed connection with the handle, or |list|. */
  function HandleIndex(list: seq<nat>, heap: map<nat, Conn>, handle: u16): (k: nat)
    requires Listed(list, heap)
    ensures k <= |list|
    ensures k < |list| ==> heap[list[k]].handle == handle
    ensures forall j :: 0 <= j < k ==> heap[list[j]].handle != handle
  {
    if |list| == 0 then 0
    else if heap[list[0]].handle == handle then 0
    else
      assert Listed(list[1..], heap);
      1 + HandleIndex(list[1..], heap, handle)
  }

  /** The first listed connection with the address; None when no listed connection has it. */
  function ByAddr(s: LState, addr: Bytes): (r: Option<nat>)
    requires Listed(s.list, s.heap)
    ensures r.Some? ==> r.value in s.list && r.value in s.heap && s.heap[r.value].addr == addr
    ensures r.None? <==> forall i :: 0 <= i < |s.list| ==> s.heap[s.list[i]].addr != addr
  {
    var k := AddrIndex(s.list, s.heap, addr);
    if k < |s.list| then Some(s.list[k]) else None
  }

  /** The first listed connection with the handle; None when no listed connection has it. */
  function ByHandle(s: LState, handle: u16): (r: Option<nat>)
    requires Listed(s.list, s.heap)
    ensures r.Some? ==> r.value in s.list && r.value in s.heap && s.heap[r.value].handle == handle
    ensures r.None? <==> forall i :: 0 <= i < |s.list| ==> s.heap[s.list[i]].handle != handle
  {
    var k := HandleIndex(s.list, s.heap, handle);
    if k < |s.list| then Some(s.list[k]) else None
  }

  /**
   * GetConnection as written: the loop variable keeps the last connection
   * it looked at, so a miss answers the last listed connection.
   */
  function GetConnectionAsWritten(list: seq<nat>, heap: map<nat, Conn>, addr: Bytes): (p: nat)
    requires Listed(list, heap)
  {
    var k := AddrIndex(list, heap, addr);
    if k < |list| then list[k] else if |list| == 0 then 0 else list[|list| - 1]
  }

  /** GetConnection(handle) as written, with the same fall-through. */
  function GetConnectionByHandleAsWritten(list: seq<nat>, heap: map<nat, Conn>, handle: u16): (p: nat)
    requires Listed(list, heap)
  {
    var k := HandleIndex(list, heap, handle);
    if k < |list| then list[k] else if |list| == 0 then 0 else list[|list| - 1]
  }

  /** As written, the lookup answers null only for an empty list, whatever it looks for. */
  lemma AsWrittenNullOnlyWhenEmpty(list: seq<nat>, heap: map<nat, Conn>, addr: Bytes)
    requires Listed(list, heap) && forall i :: 0 <= i < |list| ==> list[i] != 0
    ensures GetConnectionAsWritten(list, heap, addr) == 0 <==> |list| == 0
  {
  }

  /** One connection whose address is not the one asked for is still returned. */
  lemma AsWrittenReturnsStranger()
    ensures var c := Connection.NewConnection();
      var heap := map[1 := c];
      var s := LState([1], heap, 2, 0, false, 0, None, false, false, false);
      && GetConnectionAsWritten([1], heap, [1, 1, 1, 1, 1, 1]) == 1
      && heap[1].addr != [1, 1, 1, 1, 1, 1]
      && ByAddr(s, [1, 1, 1, 1, 1, 1]) == None
  {
    var c := Connection.NewConnection();
    assert c.addr[0] == 0;
  }

  /** The same fall-through for handles: handle 7 is answered by the connection with handle 0. */
  lemma ByHandleAsWrittenReturnsStranger()
    ensures var c := Connection.NewConnection();
      var heap := map[1 := c];
      var s := LState([1], heap, 2, 0, false, 0, None, false, false, false);
      && GetConnectionByHandleAsWritten([1], heap, 7) == 1
      && heap[1].handle != 7
      && ByHandle(s, 7) == None
  {
  }

  // ---------------------------------------------------------------------
  // Link-event handlers (bthcievent.cpp)

  /** One Remote Name Request per inquiry record, in record order. */
  function NameRequests(rs: seq<Response>): (cs: seq<Command>)
    requires ValidResults(rs)
    ensures |cs| == |rs| && HciCommand.AllWellFormed(cs)
    ensures forall i :: 0 <= i < |rs| ==>
      cs[i] == HciCommand.RemoteNameRequest(rs[i].addr, rs[i].pageScanRepetitionMode)
  {
    seq(|rs|, i requires 0 <= i < |rs| =>
      HciCommand.RemoteNameRequest(rs[i].addr, rs[i].pageScanRepetitionMode))
  }

  /** Inquiry Complete (bthcievent.cpp:98-128). */
  function InquiryCompleteStep(s: LState, status: byte): (o: Outcome)
    requires ValidLState(s)
    ensures ValidLState(o.next) && HciCommand.AllWellFormed(o.fx.sent)
  {
    if status != STATUS_SUCCESS then
      Outcome(s.(results := None, signalled := true), NoEffects)
    else if s.results.None? then Quiet(s)
    else
      var rs := s.results.value;
      var p := |rs| % UNSIGNED_LIMIT;
      if p == 0 then Outcome(s.(pending := 0, signalled := true), NoEffects)
      else Outcome(s.(pending := p), NoEffects.(sent := NameRequests(rs)))
  }

  /** Inquiry Result (bthcievent.cpp:140-149). */
  function InquiryResultStep(s: LState, n: byte, data: Bytes): (o: Outcome)
    requires ValidLState(s) && HciEvent.INQUIRY_RESP_SIZE * n <= |data|
    ensures ValidLState(o.next)
    ensures o.fx == NoEffects && o.next.list == s.list && o.next.heap == s.heap
    ensures o.next.results.Some? <==> s.results.Some?
    ensures s.results.Some? ==>
      |o.next.results.value| == |s.results.value| + n && o.next.results.value[..|s.results.value|] == s.results.value
  {
    if s.results.None? then Quiet(s)
    else Outcome(s.(results := Some(s.results.value + InquiryResults.Decoded(data, n))), NoEffects)
  }

  /** The current connection's record once Connection Complete arrives: the link's details taken on success. */
  function Completed(c: Conn, status: byte, handle: u16, addr: Bytes, linkType: byte, encryption: byte): (r: Conn)
    requires Connection.ValidConn(c) && |addr| == BD_ADDR_SIZE
    ensures Connection.ValidConn(r) && r.status == status
    ensures r.state == if status == STATUS_SUCCESS then Connection.Connected else Connection.ConnectionFailed
  {
    if status == STATUS_SUCCESS then
      Marked(c.(addr := addr, handle := handle, linkType := linkType, encryption := encryption),
             Connection.Connected, status)
    else Marked(c, Connection.ConnectionFailed, status)
  }

  /** Connection Complete (bthcievent.cpp:161-209). */
  function ConnectionCompleteStep(s: LState, status: byte, handle: u16, addr: Bytes,
                                  linkType: byte, encryption: byte): (o: Outcome)
    requires ValidLState(s) && |addr| == BD_ADDR_SIZE
    ensures ValidLState(o.next)
    ensures o.next.current == 0 && !o.next.connecting && o.next.signalled && o.next.list == s.list
    ensures s.current != 0 ==>
      && s.current in o.next.heap && o.next.heap[s.current].status == status
      && o.next.heap[s.current].state == (if status == STATUS_SUCCESS then Connection.Connected else Connection.ConnectionFailed)
    ensures |o.fx.lp| == (if s.lpRegistered then 1 else 0) && o.fx.sent == []
  {
    var heap :=
      if s.current == 0 then s.heap
      else s.heap[s.current := Completed(s.heap[s.current], status, handle, addr, linkType, encryption)];
    var lp :=
      if !s.lpRegistered then []
      else if status == STATUS_SUCCESS then [ConnectCfm(addr)]
      else [ConnectCfmNeg(addr)];
    Outcome(s.(heap := heap, current := 0, connecting := false, signalled := true), NoEffects.(lp := lp))
  }

  /** `new CBTConnection` filled from a Connection Request. */
  function Incoming(addr: Bytes, cod: Bytes, linkType: byte): (c: Conn)
    requires |addr| == BD_ADDR_SIZE && |cod| == CLASS_SIZE
    ensures Connection.ValidConn(c) && c.addr == addr && DeviceClass.Pack(c.cod) == cod
    ensures c.linkType == linkType && Connection.IsDisconnected(c)
  {
    Connection.SetClassOfDevice(Connection.SetBDAddress(Connection.NewConnection(), addr), cod)
      .(linkType := linkType)
  }

  /**
   * The caller's connection: the listed one with its address, or a new
   * record for it appended to the list under the next id.
   */
  function Admit(s: LState, addr: Bytes, cod: Bytes, linkType: byte): (r: (LState, nat))
    requires ValidLState(s) && |addr| == BD_ADDR_SIZE && |cod| == CLASS_SIZE
    ensures ValidLState(r.0) && r.1 in r.0.list && r.1 in r.0.heap && r.0.heap[r.1].addr == addr
  {
    var found := ByAddr(s, addr);
    if found.Some? then (s, found.value)
    else
      var id := s.nextId;
      (s.(list := s.list + [id], heap := s.heap[id := Incoming(addr, cod, linkType)], nextId := id + 1), id)
  }

  /** Connection Request (bthcievent.cpp:221-246). */
  function ConnectionRequestStep(s: LState, addr: Bytes, cod: Bytes, linkType: byte): (o: Outcome)
    requires ValidLState(s) && |addr| == BD_ADDR_SIZE && |cod| == CLASS_SIZE
    ensures ValidLState(o.next)
  {
    var (s1, id) := Admit(s, addr, cod, linkType);
    var lp := if s.lpRegistered then [ConnectInd(addr)] else [];
    Outcome(s1.(heap := s1.heap[id := Connection.SetState(s1.heap[id], Connection.Connecting)],
                current := id, connecting := true),
            NoEffects.(lp := lp))
  }

  /** Disconnection Complete (bthcievent.cpp:258-285). */
  function DisconnectionCompleteStep(s: LState, status: byte, handle: u16): (o: Outcome)
    requires ValidLState(s)
    ensures ValidLState(o.next)
  {
    if status == STATUS_SUCCESS then
      var k := HandleIndex(s.list, s.heap, handle);
      var heap :=
        if k < |s.list| then s.heap[s.list[k] := Marked(s.heap[s.list[k]], Connection.Disconnected, status)]
        else s.heap;
      Outcome(s.(heap := heap), NoEffects.(lp := if s.lpRegistered then [DisconnectInd(handle)] else []))
    else if s.current != 0 then
      Outcome(s.(heap := s.heap[s.current := Marked(s.heap[s.current], Connection.DisconnectionFailed, status)]),
              NoEffects)
    else Quiet(s)
  }

  /** Authentication Complete (bthcievent.cpp:299-313). */
  function AuthenticationCompleteStep(s: LState, status: byte): (o: Outcome)
    requires ValidLState(s)
    ensures ValidLState(o.next)
    ensures o.next.signalled && o.next.list == s.list && o.next.current == s.current && o.fx == NoEffects
    ensures s.current != 0 ==>
      && o.next.heap[s.current].status == status
      && o.next.heap[s.current].state == (if status == STATUS_SUCCESS then Connection.Authenticated else Connection.AuthenticationFailed)
  {
    var state := if status == STATUS_SUCCESS then Connection.Authenticated else Connection.AuthenticationFailed;
    var heap := if s.current == 0 then s.heap else s.heap[s.current := Marked(s.heap[s.current], state, status)];
    Outcome(s.(heap := heap, signalled := true), NoEffects)
  }

  /** Role Change (bthcievent.cpp:342-353). */
  function RoleChangeStep(s: LState, status: byte, addr: Bytes, newRole: byte): (o: Outcome)
    requires ValidLState(s)
    ensures ValidLState(o.next)
    ensures o.next.list == s.list && o.next.heap.Keys == s.heap.Keys && o.fx == NoEffects
    ensures ByAddr(s, addr).None? ==> o.next == s
    ensures ByAddr(s, addr).Some? ==> var id := ByAddr(s, addr).value;
      && o.next.heap[id] == s.heap[id].(role := if status == STATUS_SUCCESS then newRole else Connection.OtherRole(newRole))
      && o.next == s.(heap := o.next.heap)
      && forall other :: other in s.heap && other != id ==> o.next.heap[other] == s.heap[other]
  {
    var found := ByAddr(s, addr);
    if found.None? then Quiet(s)
    else
      var role := if status == STATUS_SUCCESS then newRole else Connection.OtherRole(newRole);
      Outcome(s.(heap := s.heap[found.value := s.heap[found.value].(role := role)]), NoEffects)
  }

  /** Mode Change (bthcievent.cpp:385-393). */
  function ModeChangeStep(s: LState, status: byte, handle: u16, mode: byte, interval: u16): (o: Outcome)
    requires ValidLState(s)
    ensures ValidLState(o.next)
    ensures o.next.list == s.list && o.next.heap.Keys == s.heap.Keys && o.fx == NoEffects
    ensures status != STATUS_SUCCESS || ByHandle(s, handle).None? ==> o.next == s
    ensures status == STATUS_SUCCESS && ByHandle(s, handle).Some? ==> var id := ByHandle(s, handle).value;
      && o.next.heap[id] == s.heap[id].(mode := mode, interval := interval)
      && o.next == s.(heap := o.next.heap)
      && forall other :: other in s.heap && other != id ==> o.next.heap[other] == s.heap[other]
  {
    var found := ByHandle(s, handle);
    if status != STATUS_SUCCESS || found.None? then Quiet(s)
    else Outcome(s.(heap := s.heap[found.value := Connection.SetMode(s.heap[found.value], mode, interval)]),
                 NoEffects)
  }

  // ---------------------------------------------------------------------
  // The three GetConnection callers as written

  /** A layer with one listed connection, a fresh record under id 1. */
  function OneListed(): (s: LState)
    ensures ValidLState(s) && s.list == [1] && 1 in s.heap && s.heap[1] == Connection.NewConnection()
  {
    LState([1], map[1 := Connection.NewConnection()], 2, 0, false, 0, None, false, false, false)
  }

  /**
   * Connection Request as written: the lookup falls through to the last
   * listed connection, so a new record is made only when the list is empty
   * and any other caller takes over the last listed connection.
   */
  function ConnectionRequestStepAsWritten(s: LState, addr: Bytes, cod: Bytes, linkType: byte): (o: Outcome)
    requires ValidLState(s) && |addr| == BD_ADDR_SIZE && |cod| == CLASS_SIZE
    ensures ValidLState(o.next) && o.next.connecting
    ensures ByAddr(s, addr).Some? ==> o == ConnectionRequestStep(s, addr, cod, linkType)
    ensures |s.list| > 0 ==> o.next.list == s.list && o.next.heap.Keys == s.heap.Keys
    ensures |s.list| > 0 && ByAddr(s, addr).None? ==> o.next.current == s.list[|s.list| - 1]
  {
    var p := GetConnectionAsWritten(s.list, s.heap, addr);
    var (s1, id) :=
      if p != 0 then (s, p)
      else
        var id := s.nextId;
        (s.(list := s.list + [id], heap := s.heap[id := Incoming(addr, cod, linkType)], nextId := id + 1), id);
    var lp := if s.lpRegistered then [ConnectInd(addr)] else [];
    Outcome(s1.(heap := s1.heap[id := Connection.SetState(s1.heap[id], Connection.Connecting)],
                current := id, connecting := true),
            NoEffects.(lp := lp))
  }

  /** Role Change as written: a stranger's role change is applied to the last listed connection. */
  function RoleChangeStepAsWritten(s: LState, status: byte, addr: Bytes, newRole: byte): (o: Outcome)
    requires ValidLState(s)
    ensures ValidLState(o.next) && o.next.list == s.list && o.fx == NoEffects
    ensures ByAddr(s, addr).Some? ==> o == RoleChangeStep(s, status, addr, newRole)
    ensures |s.list| == 0 ==> o.next == s
  {
    var p := GetConnectionAsWritten(s.list, s.heap, addr);
    if p == 0 then Quiet(s)
    else
      var role := if status == STATUS_SUCCESS then newRole else Connection.OtherRole(newRole);
      Outcome(s.(heap := s.heap[p := s.heap[p].(role := role)]), NoEffects)
  }

  /** Mode Change as written: a mode change on an unknown handle is applied to the last listed connection. */
  function ModeChangeStepAsWritten(s: LState, status: byte, handle: u16, mode: byte, interval: u16): (o: Outcome)
    requires ValidLState(s)
    ensures ValidLState(o.next) && o.next.list == s.list && o.fx == NoEffects
    ensures ByHandle(s, handle).Some? ==> o == ModeChangeStep(s, status, handle, mode, interval)
    ensures status != STATUS_SUCCESS || |s.list| == 0 ==> o.next == s
  {
    var p := GetConnectionByHandleAsWritten(s.list, s.heap, handle);
    if status != STATUS_SUCCESS || p == 0 then Quiet(s)
    else Outcome(s.(heap := s.heap[p := Connection.SetMode(s.heap[p], mode, interval)]), NoEffects)
  }

  /**
   * A Connection Request from a device nobody listed while another
   * connection is listed: as written no record is made for the caller and the
   * listed stranger is made current; the corrected step lists the caller.
   */
  lemma ConnectionRequestTakesOverAsWritten(addr: Bytes, cod: Bytes, linkType: byte)
    requires |addr| == BD_ADDR_SIZE && |cod| == CLASS_SIZE && addr != Zeros(BD_ADDR_SIZE)
    ensures var w := ConnectionRequestStepAsWritten(OneListed(), addr, cod, linkType);
      && w.next.list == [1] && w.next.current == 1 && w.next.heap[1].addr != addr
    ensures var o := ConnectionRequestStep(OneListed(), addr, cod, linkType);
      && o.next.list == [1, 2] && o.next.current == 2 && o.next.heap[2].addr == addr
  {
    var s := OneListed();
    assert s.heap[s.list[0]].addr != addr;
    assert AddrIndex(s.list, s.heap, addr) == 1;
  }

  /** A stranger's role change rewrites the listed connection's role as written, and nothing when corrected. */
  lemma RoleChangeStrangerAsWritten(addr: Bytes)
    requires |addr| == BD_ADDR_SIZE && addr != Zeros(BD_ADDR_SIZE)
    ensures RoleChangeStepAsWritten(OneListed(), STATUS_SUCCESS, addr, 1).next.heap[1].role == 1
    ensures OneListed().heap[1].role != 1
    ensures RoleChangeStep(OneListed(), STATUS_SUCCESS, addr, 1).next == OneListed()
  {
    var s := OneListed();
    assert s.heap[s.list[0]].addr != addr;
    assert AddrIndex(s.list, s.heap, addr) == 1;
  }

  /** A mode change on an unknown handle rewrites the listed connection's mode as written, and nothing when corrected. */
  lemma ModeChangeStrangerAsWritten(handle: u16, mode: byte)
    requires handle != 0 && mode != 0
    ensures ModeChangeStepAsWritten(OneListed(), STATUS_SUCCESS, handle, mode, 0).next.heap[1].mode == mode
    ensures OneListed().heap[1].mode != mode
    ensures ModeChangeStep(OneListed(), STATUS_SUCCESS, handle, mode, 0).next == OneListed()
  {
    var s := OneListed();
    assert HandleIndex(s.list, s.heap, handle) == 1;
  }

  /** Renaming an inquiry record keeps every record well formed. */
  lemma RenamedValid(rs: seq<Response>, addr: Bytes, name: Bytes)
    requires ValidResults(rs) && |name| <= NAME_SIZE
    ensures ValidResults(InquiryResults.Renamed(rs, addr, name))
  {
    forall j | 0 <= j < |rs|
      ensures InquiryResults.ValidResponse(InquiryResults.Renamed(rs, addr, name)[j])
    {
      InquiryResults.RenamedOnlyFirst(rs, addr, name, j);
    }
  }

  /** The counter after one more name arrives: `--pending`, wrapping below 0. */
  function Decremented(pending: nat): (r: nat)
    requires pending < UNSIGNED_LIMIT
    ensures r < UNSIGNED_LIMIT
    ensures pending > 0 ==> r + 1 == pending
    ensures pending == 0 ==> r == UNSIGNED_LIMIT - 1
  {
    if pending == 0 then UNSIGNED_LIMIT - 1 else pending - 1
  }

  /** Remote Name Request Complete (bthcievent.cpp:407-422). */
  function RemoteNameStep(s: LState, status: byte, addr: Bytes, name: Bytes): (o: Outcome)
    requires ValidLState(s) && |name| == NAME_SIZE
    ensures ValidLState(o.next)
    ensures o.next.pending == Decremented(s.pending) && (o.next.signalled <==> s.signalled || o.next.pending == 0)
    ensures o.next.list == s.list && o.next.heap == s.heap && o.fx == NoEffects
    ensures o.next.results.Some? <==> s.results.Some?
    ensures s.results.Some? ==> |o.next.results.value| == |s.results.value|
  {
    var results :=
      if status == STATUS_SUCCESS && s.results.Some? then
        RenamedValid(s.results.value, addr, name);
        Some(InquiryResults.Renamed(s.results.value, addr, name))
      else s.results;
    var pending := Decremented(s.pending);
    Outcome(s.(results := results, pending := pending, signalled := s.signalled || pending == 0), NoEffects)
  }

  /** Read Remote Supported Features Complete (bthcievent.cpp:437-455). */
  function FeaturesStep(s: LState, status: byte): (o: Outcome)
    requires ValidLState(s)
    ensures ValidLState(o.next)
    ensures o.next.signalled && o.next.list == s.list && o.next.current == s.current && o.fx == NoEffects
    ensures s.current != 0 ==> o.next.heap[s.current].status == status
  {
    var heap := if s.current == 0 then s.heap else s.heap[s.current := Connection.SetStatus(s.heap[s.current], status)];
    Outcome(s.(heap := heap, signalled := true), NoEffects)
  }

  /** Read Remote Version Information Complete (bthcievent.cpp:470-489). */
  function VersionStep(s: LState, status: byte, version: byte, manufacturer: u16, subversion: u16): (o: Outcome)
    requires ValidLState(s)
    ensures ValidLState(o.next)
    ensures o.next.signalled && o.next.list == s.list && o.next.current == s.current && o.fx == NoEffects
    ensures s.current != 0 ==> o.next.heap[s.current].status == status
    ensures s.current != 0 && status == STATUS_SUCCESS ==> var c := o.next.heap[s.current];
      c.version == version && c.manufacturer == manufacturer && c.subversion == subversion
  {
    var heap :=
      if s.current == 0 then s.heap
      else
        var c := s.heap[s.current];
        var c1 := if status == STATUS_SUCCESS
                  then c.(version := version, manufacturer := manufacturer, subversion := subversion)
                  else c;
        s.heap[s.current := Connection.SetStatus(c1, status)];
    Outcome(s.(heap := heap, signalled := true), NoEffects)
  }

  /** Link Key Request (bthcievent.cpp:672-682). */
  function LinkKeyRequestStep(s: LState, addr: Bytes): (o: Outcome)
    requires ValidLState(s) && |addr| == BD_ADDR_SIZE
    ensures ValidLState(o.next) && HciCommand.AllWellFormed(o.fx.sent)
    ensures o.fx.sent == [HciCommand.ReadStoredLinkKey(addr)] && o.fx.managerConnections == [s.current]
    ensures o.next.list == s.list && o.next.current == s.current
    ensures s.current != 0 ==> o.next.heap[s.current].addr == addr
  {
    var heap := if s.current == 0 then s.heap else s.heap[s.current := Connection.SetBDAddress(s.heap[s.current], addr)];
    Outcome(s.(heap := heap),
            NoEffects.(sent := [HciCommand.ReadStoredLinkKey(addr)], managerConnections := [s.current]))
  }

  /** Link Key Notification (bthcievent.cpp:694-708). */
  function LinkKeyNotificationStep(s: LState, addr: Bytes, key: Bytes): (o: Outcome)
    requires ValidLState(s) && |addr| == BD_ADDR_SIZE && |key| == LINK_KEY_SIZE
    ensures ValidLState(o.next) && HciCommand.AllWellFormed(o.fx.sent)
    ensures s.current == 0 ==> o == Quiet(s)
    ensures s.current != 0 ==>
      && o.fx.sent == [HciCommand.WriteStoredLinkKey(addr, key)]
      && s.current in o.next.heap && o.next.heap[s.current].linkKey == key && o.next.list == s.list
  {
    if s.current == 0 then Quiet(s)
    else
      Outcome(s.(heap := s.heap[s.current := Connection.SetLinkKey(s.heap[s.current], key, false)]),
              NoEffects.(sent := [HciCommand.WriteStoredLinkKey(addr, key)]))
  }

  /** Return Link Keys (bthcievent.cpp:720-731). */
  function ReturnLinkKeysStep(s: LState, numKeys: byte, key: Bytes): (o: Outcome)
    requires ValidLState(s) && |key| == LINK_KEY_SIZE
    ensures ValidLState(o.next)
    ensures o.fx == NoEffects && o.next.list == s.list
    ensures numKeys == 0 || s.current == 0 ==> o.next == s
    ensures numKeys != 0 && s.current != 0 ==>
      s.current in o.next.heap && o.next.heap[s.current].linkKey == key && o.next.heap[s.current].linkKeyValid
  {
    if numKeys == 0 || s.current == 0 then Quiet(s)
    else Outcome(s.(heap := s.heap[s.current := Connection.SetLinkKey(s.heap[s.current], key, true)]), NoEffects)
  }

  /** PIN Code Request (bthcievent.cpp:743-753). */
  function PinCodeRequestStep(s: LState, addr: Bytes): (o: Outcome)
    requires ValidLState(s) && |addr| == BD_ADDR_SIZE
    ensures ValidLState(o.next) && HciCommand.AllWellFormed(o.fx.sent)
    ensures o.next == s && |o.fx.sent| == (if s.current == 0 then 0 else 1)
  {
    if s.current == 0 then Quiet(s)
    else Quiet(s).(fx := NoEffects.(sent := [HciCommand.PinCodeRequestReply(addr, Connection.PinCode(s.heap[s.current]))]))
  }

  /** Every listed connection with the handle takes the new slot count. */
  function WithSlots(list: seq<nat>, heap: map<nat, Conn>, handle: u16, slots: byte): map<nat, Conn>
  {
    map id | id in heap :: if id in list && heap[id].handle == handle then heap[id].(maxSlots := slots) else heap[id]
  }

  /** Max Slots Change (bthcievent.cpp:765-776). */
  function MaxSlotsStep(s: LState, handle: u16, slots: byte): (o: Outcome)
    requires ValidLState(s)
    ensures ValidLState(o.next)
    ensures o.next.list == s.list && o.next.heap.Keys == s.heap.Keys && o.fx == NoEffects
    ensures forall i :: 0 <= i < |s.list| && s.heap[s.list[i]].handle == handle ==>
      o.next.heap[s.list[i]].maxSlots == slots
  {
    Outcome(s.(heap := WithSlots(s.list, s.heap, handle, slots)), NoEffects)
  }

  /**
   * The handler the event's code selects. Command Complete and Command
   * Status never reach this layer (the HCI layer routes them to the device
   * manager); Flush Occurred only logs.
   */
  function Step(s: LState, e: HciEvent.Event): (o: Outcome)
    requires ValidLState(s) && HciEvent.FieldsFit(e)
    ensures ValidLState(o.next) && HciCommand.AllWellFormed(o.fx.sent)
  {
    match e
    case InquiryComplete(status) => InquiryCompleteStep(s, status)
    case InquiryResult(n, data) => InquiryResultStep(s, n, data)
    case ConnectionComplete(status, handle, addr, linkType, encryption) =>
      ConnectionCompleteStep(s, status, handle, addr, linkType, encryption)
    case ConnectionRequest(addr, cod, linkType) => ConnectionRequestStep(s, addr, cod, linkType)
    case DisconnectionComplete(status, handle, _) => DisconnectionCompleteStep(s, status, handle)
    case AuthenticationComplete(status, _) => AuthenticationCompleteStep(s, status)
    case RemoteNameRequestComplete(status, addr, name) => RemoteNameStep(s, status, addr, name)
    case ReadRemoteSupportedFeaturesComplete(status, _, _) => FeaturesStep(s, status)
    case ReadRemoteVersionInformationComplete(status, _, version, manufacturer, subversion) =>
      VersionStep(s, status, version, manufacturer, subversion)
    case RoleChange(status, addr, newRole) => RoleChangeStep(s, status, addr, newRole)
    case NumberOfCompletedPackets(_, _, completed) => Quiet(s).(fx := NoEffects.(dataCredits := completed))
    case ModeChange(status, handle, mode, interval) => ModeChangeStep(s, status, handle, mode, interval)
    case ReturnLinkKeys(numKeys, _, key) => ReturnLinkKeysStep(s, numKeys, key)
    case PinCodeRequest(addr) => PinCodeRequestStep(s, addr)
    case LinkKeyRequest(addr) => LinkKeyRequestStep(s, addr)
    case LinkKeyNotification(addr, key) => LinkKeyNotificationStep(s, addr, key)
    case MaxSlotsChange(handle, slots) => MaxSlotsStep(s, handle, slots)
    case _ => Quiet(s)
  }

  // ---------------------------------------------------------------------
  // Properties of the handlers

  /**
   * A failed inquiry drops the records and wakes the waiter; a successful
   * one with no records wakes it at once; otherwise one name request per
   * record goes out in record order and the counter is set to their number.
   */
  lemma InquiryCompleteOutcome(s: LState, status: byte)
    requires ValidLState(s)
    ensures var o := InquiryCompleteStep(s, status);
      && (status != STATUS_SUCCESS ==> o.next.results.None? && o.next.signalled && o.fx.sent == [])
      && (status == STATUS_SUCCESS && s.results.Some? && |s.results.value| == 0 ==>
            o.next.signalled && o.fx.sent == [])
      && (status == STATUS_SUCCESS && s.results.Some? && 0 < |s.results.value| < UNSIGNED_LIMIT ==>
            && o.next.pending == |s.results.value| && o.next.signalled == s.signalled
            && |o.fx.sent| == |s.results.value|
            && forall i :: 0 <= i < |o.fx.sent| ==>
                 o.fx.sent[i] == HciCommand.RemoteNameRequest(s.results.value[i].addr,
                                                             s.results.value[i].pageScanRepetitionMode))
  {
    if status == STATUS_SUCCESS && s.results.Some? {
      var n := |s.results.value|;
      if n < UNSIGNED_LIMIT {
        assert n % UNSIGNED_LIMIT == n;
      }
    }
  }

  /** The fields of one Remote Name Request Complete event. */
  datatype NameReply = NameReply(status: byte, addr: Bytes, name: Bytes)

  predicate RepliesFit(ns: seq<NameReply>)
  {
    forall i :: 0 <= i < |ns| ==> |ns[i].name| == NAME_SIZE
  }

  /** The state after the replies are handled one after another. */
  function NameRun(s: LState, ns: seq<NameReply>): (t: LState)
    requires ValidLState(s) && RepliesFit(ns)
    ensures ValidLState(t)
    decreases |ns|
  {
    if |ns| == 0 then s
    else
      assert RepliesFit(ns[1..]) by {
        forall i | 0 <= i < |ns[1..]| ensures |ns[1..][i].name| == NAME_SIZE {
          assert ns[1..][i] == ns[i + 1];
        }
      }
      NameRun(RemoteNameStep(s, ns[0].status, ns[0].addr, ns[0].name).next, ns[1..])
  }

  /**
   * With `pending` names outstanding and the waiter not yet woken, each
   * reply, successful or not, takes one off the counter, and the waiter is
   * woken exactly by the reply that brings it to zero.
   */
  lemma {:induction false} NamesCountDown(s: LState, ns: seq<NameReply>)
    requires ValidLState(s) && RepliesFit(ns) && !s.signalled
    requires 0 < s.pending && |ns| <= s.pending
    ensures NameRun(s, ns).pending == s.pending - |ns|
    ensures NameRun(s, ns).signalled <==> |ns| == s.pending
    decreases |ns|
  {
    if |ns| > 0 {
      var t := RemoteNameStep(s, ns[0].status, ns[0].addr, ns[0].name).next;
      assert t.pending == s.pending - 1;
      assert RepliesFit(ns[1..]) by {
        forall i | 0 <= i < |ns[1..]| ensures |ns[1..][i].name| == NAME_SIZE {
          assert ns[1..][i] == ns[i + 1];
        }
      }
      if |ns| == 1 {
        assert NameRun(s, ns) == NameRun(t, ns[1..]) == t;
      } else {
        NamesCountDown(t, ns[1..]);
      }
    }
  }

  /** The addresses of the listed connections. */
  ghost function Addrs(s: LState): set<Bytes>
    requires Listed(s.list, s.heap)
  {
    set i | 0 <= i < |s.list| :: s.heap[s.list[i]].addr
  }

  lemma ByAddrFinds(s: LState, addr: Bytes)
    requires Listed(s.list, s.heap)
    ensures ByAddr(s, addr).Some? <==> addr in Addrs(s)
  {
    if addr in Addrs(s) {
      var i :| 0 <= i < |s.list| && s.heap[s.list[i]].addr == addr;
    }
  }

  /**
   * Whether or not a connection with the address was listed, afterwards the
   * current connection is a listed one with that address, in state
   * Connecting; the list grows by one exactly when the address was unknown.
   */
  lemma ConnectionRequestAdmits(s: LState, addr: Bytes, cod: Bytes, linkType: byte)
    requires ValidLState(s) && |addr| == BD_ADDR_SIZE && |cod| == CLASS_SIZE
    ensures var t := ConnectionRequestStep(s, addr, cod, linkType).next;
      && t.current in t.list && t.heap[t.current].addr == addr
      && Connection.IsConnecting(t.heap[t.current]) && t.connecting
      && (addr in Addrs(s) ==> t.list == s.list)
      && (addr !in Addrs(s) ==> t.list == s.list + [t.current] && t.current !in s.heap)
  {
    ByAddrFinds(s, addr);
  }

  /**
   * A successful disconnection marks the first listed connection with the
   * handle Disconnected and nothing else; a failed one marks only the
   * current connection. No connection is added, removed or made current.
   */
  lemma DisconnectionMarksOne(s: LState, status: byte, handle: u16, id: nat)
    requires ValidLState(s) && id in s.heap
    ensures var t := DisconnectionCompleteStep(s, status, handle).next;
      var target := if status == STATUS_SUCCESS then ByHandle(s, handle)
                    else if s.current != 0 then Some(s.current) else None;
      var state := if status == STATUS_SUCCESS then Connection.Disconnected else Connection.DisconnectionFailed;
      && t.heap.Keys == s.heap.Keys && t.list == s.list && t.current == s.current
      && (target != Some(id) ==> t.heap[id] == s.heap[id])
      && (target == Some(id) ==> t.heap[id] == Marked(s.heap[id], state, status))
  {
  }

  // ---------------------------------------------------------------------
  // Merging inquiry records into the connection list (btlogicallayer.cpp:288-304)

  /** `new CBTConnection` filled from an inquiry record. */
  function FromResult(r: Response): (c: Conn)
    requires InquiryResults.ValidResponse(r)
    ensures Connection.ValidConn(c) && c.addr == r.addr && c.cod == r.cod
    ensures c.pageScanRepetitionMode == r.pageScanRepetitionMode && Connection.IsDisconnected(c)
  {
    var c := Connection.SetBDAddress(Connection.NewConnection(), r.addr).(cod := r.cod);
    Connection.SetRemoteName(c, r.name).(pageScanRepetitionMode := r.pageScanRepetitionMode)
  }

  /** Appends a new connection under a fresh id. */
  function Added(s: LState, c: Conn): (t: LState)
    requires ValidLState(s) && Connection.ValidConn(c)
    ensures ValidLState(t)
  {
    s.(list := s.list + [s.nextId], heap := s.heap[s.nextId := c], nextId := s.nextId + 1)
  }

  /** One record: a connection is created unless a listed one has its address. */
  function Adopt(s: LState, r: Response): (t: LState)
    requires ValidLState(s) && InquiryResults.ValidResponse(r)
    ensures ValidLState(t)
  {
    if ByAddr(s, r.addr).Some? then s else Added(s, FromResult(r))
  }

  /** The records taken in order, each looked up in the list as it then stands. */
  function Merged(s: LState, rs: seq<Response>): (t: LState)
    requires ValidLState(s) && ValidResults(rs)
    ensures ValidLState(t)
    decreases |rs|
  {
    if |rs| == 0 then s
    else
      assert ValidResults(rs[1..]) by {
        forall i | 0 <= i < |rs[1..]| ensures InquiryResults.ValidResponse(rs[1..][i]) {
          assert rs[1..][i] == rs[i + 1];
        }
      }
      Merged(Adopt(s, rs[0]), rs[1..])
  }

  /** As written: the lookup misses only on an empty list. */
  function AdoptAsWritten(s: LState, r: Response): (t: LState)
    requires ValidLState(s) && InquiryResults.ValidResponse(r)
    ensures ValidLState(t)
  {
    if GetConnectionAsWritten(s.list, s.heap, r.addr) != 0 then s else Added(s, FromResult(r))
  }

  function MergedAsWritten(s: LState, rs: seq<Response>): (t: LState)
    requires ValidLState(s) && ValidResults(rs)
    ensures ValidLState(t)
    decreases |rs|
  {
    if |rs| == 0 then s
    else
      assert ValidResults(rs[1..]) by {
        forall i | 0 <= i < |rs[1..]| ensures InquiryResults.ValidResponse(rs[1..][i]) {
          assert rs[1..][i] == rs[i + 1];
        }
      }
      MergedAsWritten(AdoptAsWritten(s, rs[0]), rs[1..])
  }

  ghost function ResultAddrs(rs: seq<Response>): set<Bytes>
  {
    set i | 0 <= i < |rs| :: rs[i].addr
  }

  /** Adopting a record adds its address, and grows the list exactly when the address was new. */
  lemma AdoptAddrs(s: LState, r: Response)
    requires ValidLState(s) && InquiryResults.ValidResponse(r)
    ensures Addrs(Adopt(s, r)) == Addrs(s) + {r.addr}
    ensures r.addr in Addrs(s) ==> Adopt(s, r) == s
    ensures r.addr !in Addrs(s) ==> |Adopt(s, r).list| == |s.list| + 1
  {
    ByAddrFinds(s, r.addr);
    if r.addr !in Addrs(s) {
      var t := Adopt(s, r);
      assert s.nextId !in s.list;
      forall i | 0 <= i < |s.list| ensures t.heap[t.list[i]] == s.heap[s.list[i]] {
        assert t.list[i] == s.list[i] != s.nextId;
      }
      forall a | a in Addrs(t) ensures a in Addrs(s) + {r.addr} {
        var i :| 0 <= i < |t.list| && t.heap[t.list[i]].addr == a;
      }
      forall a | a in Addrs(s) + {r.addr} ensures a in Addrs(t) {
        if a == r.addr {
          assert t.heap[t.list[|s.list|]].addr == a;
        } else {
          var i :| 0 <= i < |s.list| && s.heap[s.list[i]].addr == a;
          assert t.heap[t.list[i]].addr == a;
        }
      }
    }
  }

  lemma ResultAddrsCons(rs: seq<Response>)
    requires |rs| > 0
    ensures ResultAddrs(rs) == {rs[0].addr} + ResultAddrs(rs[1..])
  {
    var rest := rs[1..];
    forall b | b in ResultAddrs(rs) ensures b in {rs[0].addr} + ResultAddrs(rest) {
      var i :| 0 <= i < |rs| && rs[i].addr == b;
      if i > 0 { assert rest[i - 1] == rs[i]; }
    }
    forall b | b in ResultAddrs(rest) ensures b in ResultAddrs(rs) {
      var i :| 0 <= i < |rest| && rest[i].addr == b;
      assert rs[i + 1] == rest[i];
    }
  }

  /** Counting the new addresses one record at a time. */
  lemma NewAddressCount(known: set<Bytes>, a: Bytes, rest: set<Bytes>, after: set<Bytes>,
                        before: nat, adopted: nat, merged: nat)
    requires adopted == before + (if a in known then 0 else 1)
    requires merged == adopted + |rest - (known + {a})|
    requires after == (known + {a}) + rest
    ensures after == known + ({a} + rest)
    ensures merged == before + |({a} + rest) - known|
  {
    if a in known {
      assert ({a} + rest) - known == rest - (known + {a});
    } else {
      assert ({a} + rest) - known == {a} + (rest - (known + {a}));
    }
  }

  /**
   * Merging covers every record's address, and adds exactly one connection
   * per distinct address that no listed connection had before.
   */
  lemma {:induction false} MergedAddsNewAddresses(s: LState, rs: seq<Response>)
    requires ValidLState(s) && ValidResults(rs)
    ensures Addrs(Merged(s, rs)) == Addrs(s) + ResultAddrs(rs)
    ensures |Merged(s, rs).list| == |s.list| + |ResultAddrs(rs) - Addrs(s)|
    decreases |rs|
  {
    if |rs| == 0 {
      assert ResultAddrs(rs) == {};
    } else {
      var t := Adopt(s, rs[0]);
      var rest := rs[1..];
      assert ValidResults(rest) by {
        forall i | 0 <= i < |rest| ensures InquiryResults.ValidResponse(rest[i]) {
          assert rest[i] == rs[i + 1];
        }
      }
      assert Merged(s, rs) == Merged(t, rest);
      AdoptAddrs(s, rs[0]);
      MergedAddsNewAddresses(t, rest);
      ResultAddrsCons(rs);
      NewAddressCount(Addrs(s), rs[0].addr, ResultAddrs(rest), Addrs(Merged(t, rest)),
                      |s.list|, |t.list|, |Merged(t, rest).list|);
    }
  }

  /** Merging the same records a second time changes nothing. */
  lemma {:induction false} MergedIdempotent(s: LState, rs: seq<Response>)
    requires ValidLState(s) && ValidResults(rs)
    ensures Merged(Merged(s, rs), rs) == Merged(s, rs)
  {
    MergedAddsNewAddresses(s, rs);
    KnownAddressesChangeNothing(Merged(s, rs), rs);
  }

  lemma {:induction false} KnownAddressesChangeNothing(s: LState, rs: seq<Response>)
    requires ValidLState(s) && ValidResults(rs) && ResultAddrs(rs) <= Addrs(s)
    ensures Merged(s, rs) == s
    decreases |rs|
  {
    if |rs| > 0 {
      var rest := rs[1..];
      assert ValidResults(rest) by {
        forall i | 0 <= i < |rest| ensures InquiryResults.ValidResponse(rest[i]) {
          assert rest[i] == rs[i + 1];
        }
      }
      assert rs[0].addr in ResultAddrs(rs);
      AdoptAddrs(s, rs[0]);
      assert ResultAddrs(rest) <= ResultAddrs(rs) by {
        forall b | b in ResultAddrs(rest) ensures b in ResultAddrs(rs) {
          var i :| 0 <= i < |rest| && rest[i].addr == b;
          assert rs[i + 1] == rest[i];
        }
      }
      KnownAddressesChangeNothing(s, rest);
    }
  }

  /** As written, a merge adds one connection if the list was empty and there were records, and none otherwise. */
  lemma {:induction false} MergedAsWrittenAddsAtMostOne(s: LState, rs: seq<Response>)
    requires ValidLState(s) && ValidResults(rs)
    ensures |MergedAsWritten(s, rs).list| == |s.list| + (if |s.list| == 0 && |rs| > 0 then 1 else 0)
    decreases |rs|
  {
    if |rs| > 0 {
      var rest := rs[1..];
      assert ValidResults(rest) by {
        forall i | 0 <= i < |rest| ensures InquiryResults.ValidResponse(rest[i]) {
          assert rest[i] == rs[i + 1];
        }
      }
      AsWrittenNullOnlyWhenEmpty(s.list, s.heap, rs[0].addr);
      var t := AdoptAsWritten(s, rs[0]);
      assert |t.list| == |s.list| + (if |s.list| == 0 then 1 else 0);
      MergedAsWrittenAddsAtMostOne(t, rest);
    }
  }

  /** Two devices found by an inquiry into an empty list: as written only the first is kept. */
  lemma MergedAsWrittenDropsDevices(s: LState, r1: Response, r2: Response)
    requires ValidLState(s) && s.list == []
    requires InquiryResults.ValidResponse(r1) && InquiryResults.ValidResponse(r2) && r1.addr != r2.addr
    ensures |MergedAsWritten(s, [r1, r2]).list| == 1
  {
    PairValid(r1, r2);
    MergedAsWrittenAddsAtMostOne(s, [r1, r2]);
  }

  /** The corrected merge keeps both. */
  lemma MergedKeepsBothDevices(s: LState, r1: Response, r2: Response)
    requires ValidLState(s) && s.list == []
    requires InquiryResults.ValidResponse(r1) && InquiryResults.ValidResponse(r2) && r1.addr != r2.addr
    ensures |Merged(s, [r1, r2]).list| == 2
  {
    PairValid(r1, r2);
    MergedAddsNewAddresses(s, [r1, r2]);
    PairAddrs(r1, r2);
    assert Addrs(s) == {};
    assert ResultAddrs([r1, r2]) - Addrs(s) == ResultAddrs([r1, r2]);
  }

  lemma PairAddrs(r1: Response, r2: Response)
    requires r1.addr != r2.addr
    ensures |ResultAddrs([r1, r2])| == 2
  {
    assert [r1, r2][0] == r1 && [r1, r2][1] == r2;
    assert ResultAddrs([r1, r2]) == {r1.addr, r2.addr};
  }

  lemma PairValid(r1: Response, r2: Response)
    requires InquiryResults.ValidResponse(r1) && InquiryResults.ValidResponse(r2)
    ensures ValidResults([r1, r2])
  {
    assert [r1, r2][0] == r1 && [r1, r2][1] == r2;
  }

  // ---------------------------------------------------------------------
  // Process (btlogicallayer.cpp:430-450)

  /** Every queued link event is long enough for its layout, as each handler asserts. */
  predicate LinkFrames(fs: seq<Bytes>)
  {
    |fs| == 0 || (HciEvent.LongEnough(fs[0]) && LinkFrames(fs[1..]))
  }

  /** Every queued ACL frame holds at least its 4-byte header. */
  predicate DataFrames(fs: seq<Bytes>)
  {
    |fs| == 0 || (|fs[0]| >= AclData.HEADER_SIZE && DataFrames(fs[1..]))
  }

  /** The frames handled one after another, in queue order. */
  function RunFrames(s: LState, fs: seq<Bytes>): (o: Outcome)
    requires ValidLState(s) && LinkFrames(fs)
    ensures ValidLState(o.next)
    decreases |fs|
  {
    if |fs| == 0 then Quiet(s)
    else
      var first := Step(s, HciEvent.Parse(fs[0]));
      var rest := RunFrames(first.next, fs[1..]);
      Outcome(rest.next, Then(first.fx, rest.fx))
  }

  /** What the L2CAP callback receives: each frame without its ACL header. */
  function AclPayloads(fs: seq<Bytes>): (ps: seq<Bytes>)
    requires DataFrames(fs)
    ensures |ps| == |fs|
    ensures forall i :: 0 <= i < |fs| ==> |ps[i]| + AclData.HEADER_SIZE == |fs[i]|
    decreases |fs|
  {
    if |fs| == 0 then [] else [fs[0][AclData.HEADER_SIZE..]] + AclPayloads(fs[1..])
  }

  lemma ThenAssociative(a: Effects, b: Effects, c: Effects)
    ensures Then(Then(a, b), c) == Then(a, Then(b, c))
  {
    assert (a.sent + b.sent) + c.sent == a.sent + (b.sent + c.sent);
    assert (a.lp + b.lp) + c.lp == a.lp + (b.lp + c.lp);
    assert (a.managerConnections + b.managerConnections) + c.managerConnections
        == a.managerConnections + (b.managerConnections + c.managerConnections);
  }

  lemma ThenNone(a: Effects)
    ensures Then(a, NoEffects) == a && Then(NoEffects, a) == a
  {
    assert a.sent + [] == a.sent && a.lp + [] == a.lp && a.managerConnections + [] == a.managerConnections;
  }

  lemma WithSlotsSnoc(list: seq<nat>, x: nat, heap: map<nat, Conn>, handle: u16, slots: byte)
    requires x in heap
    ensures WithSlots(list + [x], heap, handle, slots)
         == if heap[x].handle == handle then WithSlots(list, heap, handle, slots)[x := heap[x].(maxSlots := slots)]
            else WithSlots(list, heap, handle, slots)
  {
  }

  /** One more listed id walked by the Max Slots Change loop. */
  lemma WithSlotsNext(list: seq<nat>, i: nat, heap: map<nat, Conn>, handle: u16, slots: byte)
    requires i < |list| && list[i] in heap
    ensures WithSlots(list[..i + 1], heap, handle, slots)
         == if heap[list[i]].handle == handle
            then WithSlots(list[..i], heap, handle, slots)[list[i] := heap[list[i]].(maxSlots := slots)]
            else WithSlots(list[..i], heap, handle, slots)
  {
    assert list[..i + 1] == list[..i] + [list[i]];
    WithSlotsSnoc(list[..i], list[i], heap, handle, slots);
  }

  lemma WithSlotsNone(heap: map<nat, Conn>, handle: u16, slots: byte)
    ensures WithSlots([], heap, handle, slots) == heap
  {
  }

  /** Merged, counted from record `i` of the whole sequence, as the merge loop walks it. */
  function MergedFrom(s: LState, rs: seq<Response>, i: nat): (t: LState)
    requires ValidLState(s) && ValidResults(rs) && i <= |rs|
    ensures ValidLState(t)
    decreases |rs| - i
  {
    if i == |rs| then s else MergedFrom(Adopt(s, rs[i]), rs, i + 1)
  }

  lemma {:induction false} MergedFromSuffix(s: LState, rs: seq<Response>, i: nat)
    requires ValidLState(s) && ValidResults(rs) && i <= |rs|
    ensures ValidResults(rs[i..]) && MergedFrom(s, rs, i) == Merged(s, rs[i..])
    decreases |rs| - i
  {
    ValidResultsSuffix(rs, i);
    if i < |rs| {
      MergedFromSuffix(Adopt(s, rs[i]), rs, i + 1);
      assert rs[i..][0] == rs[i] && rs[i..][1..] == rs[i + 1..];
    }
  }

  lemma ValidResultsSuffix(rs: seq<Response>, i: nat)
    requires ValidResults(rs) && i <= |rs|
    ensures ValidResults(rs[i..])
  {
    forall j | 0 <= j < |rs[i..]| ensures InquiryResults.ValidResponse(rs[i..][j]) {
      assert rs[i..][j] == rs[i + j];
    }
  }

  /** Taking an id off the list keeps the state valid. */
  lemma UnlistedValid(s: LState, p: nat)
    requires ValidLState(s)
    ensures ValidLState(s.(list := PtrArrays.Removed(s.list, p)))
  {
    RemovedListed(s.list, s.heap, p);
  }

  lemma RemovedListed(list: seq<nat>, heap: map<nat, Conn>, p: nat)
    requires Listed(list, heap)
    ensures Listed(PtrArrays.Removed(list, p), heap)
  {
    var r := PtrArrays.Removed(list, p);
    forall i | 0 <= i < |r| ensures r[i] in heap {
      assert r[i] in multiset(r);
      assert r[i] in multiset(list);
    }
  }

  /**
   * After the head frame's handler ran, what remains of a run still
   * completes it, the handler's effects joining those handled before.
   */
  lemma RunFramesStep(s0: LState, f: Bytes, rest: seq<Bytes>, total: Outcome, fx: Effects, e: Effects, t: LState)
    requires ValidLState(s0) && LinkFrames([f] + rest)
    requires total.next == RunFrames(s0, [f] + rest).next && total.fx == Then(fx, RunFrames(s0, [f] + rest).fx)
    requires Outcome(t, e) == Step(s0, HciEvent.Parse(f))
    ensures LinkFrames(rest) && ValidLState(t)
    ensures total.next == RunFrames(t, rest).next && total.fx == Then(Then(fx, e), RunFrames(t, rest).fx)
  {
    assert ([f] + rest)[0] == f && ([f] + rest)[1..] == rest;
    ThenAssociative(fx, e, RunFrames(t, rest).fx);
  }

  /** The head link event copied out through the frame buffer; FALSE when the queue is empty. */
  method TakeLinkEvent(hci: HciLayer.Layer, buffer: array<byte>) returns (more: bool, f: Bytes)
    modifies hci.linkEventQueue, buffer
    requires hci.Valid() && buffer.Length == MAX_DATA_SIZE && buffer != hci.eventBuffer && buffer != hci.dataBuffer
    requires LinkFrames(BtQueue.Payloads(hci.linkEventQueue.entries))
    ensures hci.Valid() && LinkFrames(BtQueue.Payloads(hci.linkEventQueue.entries))
    ensures more <==> old(hci.linkEventQueue.entries) != []
    ensures !more ==> hci.linkEventQueue.entries == old(hci.linkEventQueue.entries)
    ensures more ==> hci.linkEventQueue.entries == old(hci.linkEventQueue.entries)[1..]
    ensures more ==> HciEvent.LongEnough(f)
    ensures more ==> BtQueue.Payloads(old(hci.linkEventQueue.entries)) == [f] + BtQueue.Payloads(hci.linkEventQueue.entries)
  {
    ghost var before := hci.linkEventQueue.entries;
    var n;
    more, n := hci.ReceiveLinkEvent(buffer);
    f := [];
    if more {
      f := buffer[..n];
      ghost var rest := BtQueue.Payloads(hci.linkEventQueue.entries);
      assert BtQueue.Payloads(before) == [f] + rest;
      assert ([f] + rest)[1..] == rest;
    }
  }

  /** What DeliverData has handed on so far, plus what is still queued, is the whole run. */
  ghost predicate Delivering(registered: bool, all: seq<Bytes>, delivered: seq<Bytes>, queued: seq<Bytes>)
  {
    DataFrames(all) && DataFrames(queued)
    && (registered ==> delivered + AclPayloads(queued) == AclPayloads(all))
    && (!registered ==> delivered == [])
  }

  /** One turn of the data loop: take a frame off the queue and pass its payload on. */
  method DeliverOne(hci: HciLayer.Layer, buffer: array<byte>, registered: bool, ghost all: seq<Bytes>,
                    delivered: seq<Bytes>) returns (more: bool, d: seq<Bytes>)
    modifies hci.rxDataQueue, buffer
    requires hci.Valid() && buffer.Length == MAX_DATA_SIZE && buffer != hci.eventBuffer && buffer != hci.dataBuffer
    requires Delivering(registered, all, delivered, BtQueue.Payloads(hci.rxDataQueue.entries))
    ensures hci.Valid() && DataFrames(BtQueue.Payloads(hci.rxDataQueue.entries))
    ensures Delivering(registered, all, d, BtQueue.Payloads(hci.rxDataQueue.entries))
    ensures !more ==> hci.rxDataQueue.entries == []
    ensures more ==> |hci.rxDataQueue.entries| < old(|hci.rxDataQueue.entries|)
  {
    ghost var before := hci.rxDataQueue.entries;
    var n;
    more, n := hci.ReceiveData(buffer);
    d := delivered;
    if more {
      var f := buffer[..n];
      ghost var rest := BtQueue.Payloads(hci.rxDataQueue.entries);
      assert BtQueue.Payloads(before) == [f] + rest;
      assert ([f] + rest)[1..] == rest;
      assert AclPayloads([f] + rest) == [f[AclData.HEADER_SIZE..]] + AclPayloads(rest);
      if registered {
        d := delivered + [f[AclData.HEADER_SIZE..]];
      }
    }
  }

  /** The logical layer object (CBTLogicalLayer). */
  class Layer {
    const connections: PtrArrays.PtrArray
    /** `m_pBuffer`: where Process takes each frame off the HCI queues. */
    const buffer: array<byte>
    var heap: map<nat, Conn>
    var nextId: nat
    var current: nat
    var connecting: bool
    var pending: nat
    var inquiry: InquiryResults.Results?
    var signalled: bool
    var lpRegistered: bool
    var l2capRegistered: bool

    ghost function Abs(): LState
      reads this, connections, connections.storage, inquiry
      requires connections.Valid()
    {
      LState(connections.Elements(), heap, nextId, current, connecting, pending,
             if inquiry == null then None else Some(inquiry.responses), signalled,
             lpRegistered, l2capRegistered)
    }

    ghost predicate Valid()
      reads this, connections, connections.storage, inquiry
    {
      connections.Valid() && ValidLState(Abs()) && buffer.Length == MAX_DATA_SIZE
    }

    /**
     * An empty connection list, no current connection, no inquiry and no
     * callbacks; the frame buffer `Initialize` allocates is allocated here.
     */
    constructor (initialSize: nat, sizeIncrement: nat)
      requires initialSize > 0 && sizeIncrement > 0
      ensures Valid() && fresh(connections) && fresh(connections.storage) && fresh(buffer)
      ensures Abs() == LState([], map[], 1, 0, false, 0, None, false, false, false)
    {
      connections := new PtrArrays.PtrArray(initialSize, sizeIncrement);
      buffer := new byte[MAX_DATA_SIZE](_ => 0);
      heap := map[];
      nextId := 1;
      current := 0;
      connecting := false;
      pending := 0;
      inquiry := null;
      signalled := false;
      lpRegistered := false;
      l2capRegistered := false;
    }

    method RegisterLPCallback()
      modifies this
      requires Valid() && !lpRegistered
      ensures Valid() && Abs() == old(Abs()).(lpRegistered := true)
    {
      lpRegistered := true;
    }

    method RegisterL2CAPCallback()
      modifies this
      requires Valid() && !l2capRegistered
      ensures Valid() && Abs() == old(Abs()).(l2capRegistered := true)
    {
      l2capRegistered := true;
    }

    /** GetConnection(addr), corrected: the first listed match, or 0 (null) when there is none. */
    method GetConnection(addr: Bytes) returns (id: nat)
      requires Valid()
      ensures ByAddr(Abs(), addr) == (if id == 0 then None else Some(id))
    {
      var i := 0;
      while i < connections.count
        invariant 0 <= i <= connections.count
        invariant forall j :: 0 <= j < i ==> heap[connections.Elements()[j]].addr != addr
      {
        var p := connections.storage[i];
        assert p == connections.Elements()[i];
        if heap[p].addr == addr {
          return p;
        }
        i := i + 1;
      }
      return 0;
    }

    /** GetConnection(handle), corrected: the first listed match, or 0 (null) when there is none. */
    method GetConnectionByHandle(handle: u16) returns (id: nat)
      requires Valid()
      ensures ByHandle(Abs(), handle) == (if id == 0 then None else Some(id))
    {
      var i := 0;
      while i < connections.count
        invariant 0 <= i <= connections.count
        invariant forall j :: 0 <= j < i ==> heap[connections.Elements()[j]].handle != handle
      {
        var p := connections.storage[i];
        assert p == connections.Elements()[i];
        if heap[p].handle == handle {
          return p;
        }
        i := i + 1;
      }
      return 0;
    }

    /**
     * GetConnection(addr) as written: the loop stops after the first match,
     * but its pointer keeps the last connection looked at, so a miss answers
     * the last listed connection rather than null.
     */
    method GetConnectionFoundLoop(addr: Bytes) returns (id: nat)
      requires Valid()
      ensures id == GetConnectionAsWritten(Abs().list, heap, addr)
    {
      ghost var list := connections.Elements();
      var found := false;
      id := 0;
      var i := 0;
      while i < connections.count && !found
        invariant 0 <= i <= connections.count
        invariant id == (if i == 0 then 0 else list[i - 1])
        invariant found ==> 0 < i && AddrIndex(list, heap, addr) == i - 1
        invariant !found ==> forall j :: 0 <= j < i ==> heap[list[j]].addr != addr
      {
        id := connections.storage[i];
        assert id == list[i];
        found := heap[id].addr == addr;
        i := i + 1;
      }
    }

    /** GetConnection(handle) as written, with the same fall-through to the last listed connection. */
    method GetConnectionByHandleFoundLoop(handle: u16) returns (id: nat)
      requires Valid()
      ensures id == GetConnectionByHandleAsWritten(Abs().list, heap, handle)
    {
      ghost var list := connections.Elements();
      var found := false;
      id := 0;
      var i := 0;
      while i < connections.count && !found
        invariant 0 <= i <= connections.count
        invariant id == (if i == 0 then 0 else list[i - 1])
        invariant found ==> 0 < i && HandleIndex(list, heap, handle) == i - 1
        invariant !found ==> forall j :: 0 <= j < i ==> heap[list[j]].handle != handle
      {
        id := connections.storage[i];
        assert id == list[i];
        found := heap[id].handle == handle;
        i := i + 1;
      }
    }

    /** `new CBTConnection` filled in and appended to the connection list under a fresh id. */
    method AddConnection(c: Conn) returns (id: nat)
      modifies this, connections, connections.storage
      requires Valid() && Connection.ValidConn(c)
      ensures Valid() && inquiry == old(inquiry) && id == old(nextId) && id > 0
      ensures Abs() == old(Abs()).(list := old(Abs()).list + [id], heap := old(heap)[id := c], nextId := id + 1)
      ensures connections.storage == old(connections.storage) || fresh(connections.storage)
    {
      id := nextId;
      heap := heap[id := c];
      nextId := nextId + 1;
      var _ := connections.Append(id);
    }

    method OnInquiryComplete(status: byte) returns (fx: Effects)
      modifies this
      requires Valid()
      ensures inquiry == old(inquiry) || inquiry == null
      ensures Valid() && Outcome(Abs(), fx) == InquiryCompleteStep(old(Abs()), status)
    {
      fx := NoEffects;
      if status != STATUS_SUCCESS {
        inquiry := null;
        signalled := true;
        return;
      }
      if inquiry == null {
        return;
      }
      pending := inquiry.GetCount() % UNSIGNED_LIMIT;
      if pending == 0 {
        signalled := true;
        return;
      }
      ghost var rs := inquiry.responses;
      var sent: seq<Command> := [];
      var n := 0;
      while n < inquiry.GetCount()
        invariant 0 <= n <= |rs| && sent == NameRequests(rs)[..n]
      {
        sent := sent + [HciCommand.RemoteNameRequest(inquiry.GetBDAddress(n), inquiry.GetPageScanRepetitionMode(n))];
        assert NameRequests(rs)[..n + 1] == NameRequests(rs)[..n] + [NameRequests(rs)[n]];
        n := n + 1;
      }
      assert NameRequests(rs)[..n] == NameRequests(rs);
      fx := NoEffects.(sent := sent);
    }

    method OnInquiryResult(n: byte, data: Bytes) returns (fx: Effects)
      modifies inquiry
      requires Valid() && HciEvent.INQUIRY_RESP_SIZE * n <= |data|
      ensures inquiry == old(inquiry)
      ensures Valid() && Outcome(Abs(), fx) == InquiryResultStep(old(Abs()), n, data)
    {
      fx := NoEffects;
      if inquiry != null {
        inquiry.AddInquiryResult(n, data);
      }
    }

    method OnConnectionComplete(status: byte, handle: u16, addr: Bytes, linkType: byte, encryption: byte)
      returns (fx: Effects)
      modifies this
      requires Valid() && |addr| == BD_ADDR_SIZE
      ensures inquiry == old(inquiry)
      ensures Valid()
      ensures Outcome(Abs(), fx) == ConnectionCompleteStep(old(Abs()), status, handle, addr, linkType, encryption)
    {
      if current != 0 {
        Store(current, Completed(heap[current], status, handle, addr, linkType, encryption));
      }
      var lp: seq<LpEvent> := [];
      if lpRegistered {
        lp := if status == STATUS_SUCCESS then [ConnectCfm(addr)] else [ConnectCfmNeg(addr)];
      }
      Release();
      fx := NoEffects.(lp := lp);
    }

    /** No current connection, not connecting, and the waiting caller signalled. */
    method Release()
      modifies this
      requires Valid()
      ensures Valid() && inquiry == old(inquiry)
      ensures Abs() == old(Abs()).(current := 0, connecting := false, signalled := true)
    {
      current := 0;
      connecting := false;
      signalled := true;
    }

    method AdmitCaller(addr: Bytes, cod: Bytes, linkType: byte) returns (id: nat)
      modifies this, connections, connections.storage
      requires Valid() && |addr| == BD_ADDR_SIZE && |cod| == CLASS_SIZE
      ensures Valid() && inquiry == old(inquiry)
      ensures (Abs(), id) == Admit(old(Abs()), addr, cod, linkType)
      ensures connections.storage == old(connections.storage) || fresh(connections.storage)
    {
      ghost var s := Abs();
      id := GetConnection(addr);
      if id == 0 {
        id := AddConnection(Incoming(addr, cod, linkType));
        assert Abs() == s.(list := s.list + [id], heap := s.heap[id := Incoming(addr, cod, linkType)], nextId := id + 1);
      }
    }

    method OnConnectionRequest(addr: Bytes, cod: Bytes, linkType: byte) returns (fx: Effects)
      modifies this, connections, connections.storage
      requires Valid() && |addr| == BD_ADDR_SIZE && |cod| == CLASS_SIZE
      ensures Valid() && inquiry == old(inquiry)
      ensures Outcome(Abs(), fx) == ConnectionRequestStep(old(Abs()), addr, cod, linkType)
      ensures connections.storage == old(connections.storage) || fresh(connections.storage)
    {
      var id := AdmitCaller(addr, cod, linkType);
      Select(id, Connection.SetState(heap[id], Connection.Connecting));
      fx := NoEffects.(lp := if lpRegistered then [ConnectInd(addr)] else []);
    }

    /** The record replaced, and the connection made current with the connecting flag set. */
    method Select(id: nat, c: Conn)
      modifies this
      requires Valid() && id in heap && Connection.ValidConn(c)
      ensures Valid() && inquiry == old(inquiry)
      ensures Abs() == old(Abs()).(heap := old(heap)[id := c], current := id, connecting := true)
    {
      heap := heap[id := c];
      current := id;
      connecting := true;
    }

    method OnDisconnectionComplete(status: byte, handle: u16) returns (fx: Effects)
      modifies this
      requires Valid()
      ensures inquiry == old(inquiry)
      ensures Valid() && Outcome(Abs(), fx) == DisconnectionCompleteStep(old(Abs()), status, handle)
    {
      ghost var o := DisconnectionCompleteStep(Abs(), status, handle);
      fx := NoEffects;
      if status == STATUS_SUCCESS {
        var i := HandlePosition(handle);
        if i < connections.count {
          var p := connections.storage[i];
          assert p == connections.Elements()[i];
          Store(p, Marked(heap[p], Connection.Disconnected, status));
        }
        if lpRegistered {
          fx := NoEffects.(lp := [DisconnectInd(handle)]);
        }
      } else if current != 0 {
        Store(current, Marked(heap[current], Connection.DisconnectionFailed, status));
      }
      assert Abs() == o.next;
    }

    /** The search loop of Disconnection Complete: the first listed position with the handle, or the count. */
    method HandlePosition(handle: u16) returns (i: nat)
      requires Valid()
      ensures i == HandleIndex(connections.Elements(), heap, handle)
    {
      i := 0;
      while i < connections.count && heap[connections.storage[i]].handle != handle
        invariant 0 <= i <= connections.count
        invariant forall j :: 0 <= j < i ==> heap[connections.Elements()[j]].handle != handle
      {
        assert connections.storage[i] == connections.Elements()[i];
        i := i + 1;
      }
      if i < connections.count {
        assert connections.storage[i] == connections.Elements()[i];
      }
    }

    /** One record replaced, nothing else changed. */
    method Store(id: nat, c: Conn)
      modifies this
      requires Valid() && id in heap && Connection.ValidConn(c)
      ensures Valid() && inquiry == old(inquiry)
      ensures Abs() == old(Abs()).(heap := old(heap)[id := c])
    {
      heap := heap[id := c];
    }

    method OnAuthenticationComplete(status: byte) returns (fx: Effects)
      modifies this
      requires Valid()
      ensures inquiry == old(inquiry)
      ensures Valid() && Outcome(Abs(), fx) == AuthenticationCompleteStep(old(Abs()), status)
    {
      if current != 0 {
        var state := if status == STATUS_SUCCESS then Connection.Authenticated else Connection.AuthenticationFailed;
        heap := heap[current := Marked(heap[current], state, status)];
      }
      signalled := true;
      fx := NoEffects;
    }

    method OnRoleChange(status: byte, addr: Bytes, newRole: byte) returns (fx: Effects)
      modifies this
      requires Valid()
      ensures inquiry == old(inquiry)
      ensures Valid() && Outcome(Abs(), fx) == RoleChangeStep(old(Abs()), status, addr, newRole)
    {
      var id := GetConnection(addr);
      if id != 0 {
        var role := if status == STATUS_SUCCESS then newRole else Connection.OtherRole(newRole);
        Store(id, heap[id].(role := role));
      }
      fx := NoEffects;
    }

    method OnModeChange(status: byte, handle: u16, mode: byte, interval: u16) returns (fx: Effects)
      modifies this
      requires Valid()
      ensures inquiry == old(inquiry)
      ensures Valid() && Outcome(Abs(), fx) == ModeChangeStep(old(Abs()), status, handle, mode, interval)
    {
      ghost var o := ModeChangeStep(Abs(), status, handle, mode, interval);
      var id := GetConnectionByHandle(handle);
      if status == STATUS_SUCCESS && id != 0 {
        heap := heap[id := Connection.SetMode(heap[id], mode, interval)];
      }
      fx := NoEffects;
      assert Abs() == o.next;
    }

    method OnRemoteName(status: byte, addr: Bytes, name: Bytes) returns (fx: Effects)
      modifies this, inquiry
      requires Valid() && |addr| == BD_ADDR_SIZE && |name| == NAME_SIZE
      ensures inquiry == old(inquiry)
      ensures Valid() && Outcome(Abs(), fx) == RemoteNameStep(old(Abs()), status, addr, name)
    {
      if status == STATUS_SUCCESS && inquiry != null {
        var _ := inquiry.SetRemoteName(addr, name);
      }
      pending := if pending == 0 then UNSIGNED_LIMIT - 1 else pending - 1;
      if pending == 0 {
        signalled := true;
      }
      fx := NoEffects;
    }

    method OnFeatures(status: byte) returns (fx: Effects)
      modifies this
      requires Valid()
      ensures inquiry == old(inquiry)
      ensures Valid() && Outcome(Abs(), fx) == FeaturesStep(old(Abs()), status)
    {
      if current != 0 {
        heap := heap[current := Connection.SetStatus(heap[current], status)];
      }
      signalled := true;
      fx := NoEffects;
    }

    method OnVersion(status: byte, version: byte, manufacturer: u16, subversion: u16) returns (fx: Effects)
      modifies this
      requires Valid()
      ensures inquiry == old(inquiry)
      ensures Valid() && Outcome(Abs(), fx) == VersionStep(old(Abs()), status, version, manufacturer, subversion)
    {
      if current != 0 {
        var c := heap[current];
        if status == STATUS_SUCCESS {
          c := c.(version := version, manufacturer := manufacturer, subversion := subversion);
        }
        heap := heap[current := Connection.SetStatus(c, status)];
      }
      signalled := true;
      fx := NoEffects;
    }

    method OnLinkKeyRequest(addr: Bytes) returns (fx: Effects)
      modifies this
      requires Valid() && |addr| == BD_ADDR_SIZE
      ensures inquiry == old(inquiry)
      ensures Valid() && Outcome(Abs(), fx) == LinkKeyRequestStep(old(Abs()), addr)
    {
      fx := NoEffects.(sent := [HciCommand.ReadStoredLinkKey(addr)], managerConnections := [current]);
      if current != 0 {
        heap := heap[current := Connection.SetBDAddress(heap[current], addr)];
      }
    }

    method OnLinkKeyNotification(addr: Bytes, key: Bytes) returns (fx: Effects)
      modifies this
      requires Valid() && |addr| == BD_ADDR_SIZE && |key| == LINK_KEY_SIZE
      ensures inquiry == old(inquiry)
      ensures Valid() && Outcome(Abs(), fx) == LinkKeyNotificationStep(old(Abs()), addr, key)
    {
      fx := NoEffects;
      if current != 0 {
        heap := heap[current := Connection.SetLinkKey(heap[current], key, false)];
        fx := NoEffects.(sent := [HciCommand.WriteStoredLinkKey(addr, key)]);
      }
    }

    method OnReturnLinkKeys(numKeys: byte, key: Bytes) returns (fx: Effects)
      modifies this
      requires Valid() && |key| == LINK_KEY_SIZE
      ensures inquiry == old(inquiry)
      ensures Valid() && Outcome(Abs(), fx) == ReturnLinkKeysStep(old(Abs()), numKeys, key)
    {
      if numKeys != 0 && current != 0 {
        heap := heap[current := Connection.SetLinkKey(heap[current], key, true)];
      }
      fx := NoEffects;
    }

    method OnPinCodeRequest(addr: Bytes) returns (fx: Effects)
      requires Valid() && |addr| == BD_ADDR_SIZE
      ensures Outcome(Abs(), fx) == PinCodeRequestStep(Abs(), addr)
    {
      fx := NoEffects;
      if current != 0 {
        fx := NoEffects.(sent := [HciCommand.PinCodeRequestReply(addr, Connection.PinCode(heap[current]))]);
      }
    }

    method OnMaxSlotsChange(handle: u16, slots: byte) returns (fx: Effects)
      modifies this
      requires Valid()
      ensures inquiry == old(inquiry)
      ensures Valid() && Outcome(Abs(), fx) == MaxSlotsStep(old(Abs()), handle, slots)
    {
      var h := SlotsChanged(handle, slots);
      assert ValidLState(Abs().(heap := h));
      heap := h;
      fx := NoEffects;
    }

    /** The loop of Max Slots Change: every listed connection with the handle gets the new count. */
    method SlotsChanged(handle: u16, slots: byte) returns (h: map<nat, Conn>)
      requires Valid()
      ensures h == WithSlots(connections.Elements(), heap, handle, slots)
      ensures ValidLState(Abs().(heap := h))
    {
      ghost var es := connections.Elements();
      h := heap;
      WithSlotsNone(heap, handle, slots);
      var i := 0;
      while i < connections.count
        invariant 0 <= i <= connections.count == |es|
        invariant h == WithSlots(es[..i], heap, handle, slots)
      {
        var p := connections.storage[i];
        WithSlotsNext(es, i, heap, handle, slots);
        if heap[p].handle == handle {
          h := h[p := heap[p].(maxSlots := slots)];
        }
        i := i + 1;
      }
      assert es[..i] == es;
      ghost var o := MaxSlotsStep(Abs(), handle, slots);
      assert o.next == Abs().(heap := h);
    }

    /** The handler registered for the event's code (bthcievent.cpp handler table). */
    method HandleEvent(e: HciEvent.Event) returns (fx: Effects)
      modifies this, connections, connections.storage, inquiry
      requires Valid() && HciEvent.FieldsFit(e)
      ensures Valid() && Outcome(Abs(), fx) == Step(old(Abs()), e)
      ensures inquiry == old(inquiry) || inquiry == null
      ensures connections.storage == old(connections.storage) || fresh(connections.storage)
    {
      match e
      case InquiryComplete(status) => fx := OnInquiryComplete(status);
      case InquiryResult(n, data) => fx := OnInquiryResult(n, data);
      case ConnectionComplete(status, handle, addr, linkType, encryption) =>
        fx := OnConnectionComplete(status, handle, addr, linkType, encryption);
      case ConnectionRequest(addr, cod, linkType) => fx := OnConnectionRequest(addr, cod, linkType);
      case DisconnectionComplete(status, handle, _) => fx := OnDisconnectionComplete(status, handle);
      case AuthenticationComplete(status, _) => fx := OnAuthenticationComplete(status);
      case RemoteNameRequestComplete(status, addr, name) => fx := OnRemoteName(status, addr, name);
      case ReadRemoteSupportedFeaturesComplete(status, _, _) => fx := OnFeatures(status);
      case ReadRemoteVersionInformationComplete(status, _, version, manufacturer, subversion) =>
        fx := OnVersion(status, version, manufacturer, subversion);
      case RoleChange(status, addr, newRole) => fx := OnRoleChange(status, addr, newRole);
      case NumberOfCompletedPackets(_, _, completed) => fx := NoEffects.(dataCredits := completed);
      case ModeChange(status, handle, mode, interval) => fx := OnModeChange(status, handle, mode, interval);
      case ReturnLinkKeys(numKeys, _, key) => fx := OnReturnLinkKeys(numKeys, key);
      case PinCodeRequest(addr) => fx := OnPinCodeRequest(addr);
      case LinkKeyRequest(addr) => fx := OnLinkKeyRequest(addr);
      case LinkKeyNotification(addr, key) => fx := OnLinkKeyNotification(addr, key);
      case MaxSlotsChange(handle, slots) => fx := OnMaxSlotsChange(handle, slots);
      case _ => fx := NoEffects;
    }

    /** Every link event waiting in the HCI layer is one the handlers accept. */
    ghost predicate QueuedFrames(hci: HciLayer.Layer)
      reads hci, hci.linkEventQueue
    {
      LinkFrames(BtQueue.Payloads(hci.linkEventQueue.entries))
    }

    /**
     * Handling the link events still queued would complete the run `total`,
     * `fx` being what the events handled so far produced.
     */
    ghost predicate Completes(hci: HciLayer.Layer, total: Outcome, fx: Effects)
      reads this, connections, connections.storage, inquiry, hci, hci.linkEventQueue
      requires Valid() && QueuedFrames(hci)
    {
      var r := RunFrames(Abs(), BtQueue.Payloads(hci.linkEventQueue.entries));
      total.next == r.next && total.fx == Then(fx, r.fx)
    }

    /**
     * Takes the head link event into the frame buffer and hands it to its
     * handler; FALSE, with nothing changed, when there is none.
     */
    method ProcessNext(hci: HciLayer.Layer, ghost total: Outcome, fx: Effects) returns (more: bool, fx': Effects)
      modifies this, connections, connections.storage, inquiry, hci.linkEventQueue, buffer
      requires Valid() && hci.Valid() && QueuedFrames(hci) && Completes(hci, total, fx)
      requires buffer != hci.eventBuffer && buffer != hci.dataBuffer
      ensures Valid() && hci.Valid() && QueuedFrames(hci) && Completes(hci, total, fx')
      ensures more <==> old(hci.linkEventQueue.entries) != []
      ensures hci.linkEventQueue.entries == if more then old(hci.linkEventQueue.entries)[1..] else old(hci.linkEventQueue.entries)
      ensures inquiry == old(inquiry) || inquiry == null
      ensures connections.storage == old(connections.storage) || fresh(connections.storage)
    {
      ghost var s0 := Abs();
      ghost var before := BtQueue.Payloads(hci.linkEventQueue.entries);
      var f;
      more, f := TakeLinkEvent(hci, buffer);
      if !more {
        return false, fx;
      }
      ghost var rest := BtQueue.Payloads(hci.linkEventQueue.entries);
      var e := HandleFrame(hci, f);
      RunFramesStep(s0, f, rest, total, fx, e, Abs());
      fx' := Then(fx, e);
    }

    /** HandleEvent on a frame taken off the link queue, which it leaves alone. */
    method HandleFrame(hci: HciLayer.Layer, f: Bytes) returns (fx: Effects)
      modifies this, connections, connections.storage, inquiry
      requires Valid() && hci.Valid() && HciEvent.LongEnough(f)
      ensures Valid() && hci.Valid() && Outcome(Abs(), fx) == Step(old(Abs()), HciEvent.Parse(f))
      ensures hci.linkEventQueue.entries == old(hci.linkEventQueue.entries)
      ensures inquiry == old(inquiry) || inquiry == null
      ensures connections.storage == old(connections.storage) || fresh(connections.storage)
    {
      fx := HandleEvent(HciEvent.Parse(f));
    }

    /**
     * Process (btlogicallayer.cpp:430-450): every queued link event goes to
     * its handler in FIFO order, then every received ACL frame goes, without
     * its 4-byte header, to the L2CAP callback when one is registered.
     */
    method Process(hci: HciLayer.Layer) returns (fx: Effects, delivered: seq<Bytes>)
      modifies this, connections, connections.storage, inquiry, hci.linkEventQueue, hci.rxDataQueue, buffer
      requires Valid() && hci.Valid() && QueuedFrames(hci)
      requires DataFrames(BtQueue.Payloads(hci.rxDataQueue.entries))
      requires buffer != hci.eventBuffer && buffer != hci.dataBuffer
      ensures Valid() && hci.Valid()
      ensures hci.linkEventQueue.entries == [] && hci.rxDataQueue.entries == []
      ensures Outcome(Abs(), fx) == RunFrames(old(Abs()), BtQueue.Payloads(old(hci.linkEventQueue.entries)))
      ensures delivered == if l2capRegistered then AclPayloads(BtQueue.Payloads(old(hci.rxDataQueue.entries))) else []
    {
      fx := ProcessLinkEvents(hci);
      delivered := DeliverData(hci);
    }

    /** The first loop of Process: the link events, each through its handler. */
    method ProcessLinkEvents(hci: HciLayer.Layer) returns (fx: Effects)
      modifies this, connections, connections.storage, inquiry, hci.linkEventQueue, buffer
      requires Valid() && hci.Valid() && QueuedFrames(hci)
      requires buffer != hci.eventBuffer && buffer != hci.dataBuffer
      ensures Valid() && hci.Valid() && hci.linkEventQueue.entries == []
      ensures Outcome(Abs(), fx) == RunFrames(old(Abs()), BtQueue.Payloads(old(hci.linkEventQueue.entries)))
    {
      ghost var total := RunFrames(Abs(), BtQueue.Payloads(hci.linkEventQueue.entries));
      ThenNone(total.fx);
      fx := NoEffects;
      var more := true;
      while more
        invariant Valid() && hci.Valid() && QueuedFrames(hci) && Completes(hci, total, fx)
        invariant !more ==> hci.linkEventQueue.entries == []
        invariant inquiry == old(inquiry) || inquiry == null
        invariant connections.storage == old(connections.storage) || fresh(connections.storage)
        decreases more, |hci.linkEventQueue.entries|
      {
        more, fx := ProcessNext(hci, total, fx);
      }
      ThenNone(fx);
    }

    /** The second loop of Process: the L2CAP callback sees each frame's payload. */
    method DeliverData(hci: HciLayer.Layer) returns (delivered: seq<Bytes>)
      modifies hci.rxDataQueue, buffer
      requires Valid() && hci.Valid() && DataFrames(BtQueue.Payloads(hci.rxDataQueue.entries))
      requires buffer != hci.eventBuffer && buffer != hci.dataBuffer
      ensures Valid() && hci.Valid() && hci.rxDataQueue.entries == []
      ensures delivered == if l2capRegistered then AclPayloads(BtQueue.Payloads(old(hci.rxDataQueue.entries))) else []
    {
      ghost var all := BtQueue.Payloads(hci.rxDataQueue.entries);
      delivered := [];
      var more := true;
      while more
        invariant Valid() && hci.Valid() && DataFrames(BtQueue.Payloads(hci.rxDataQueue.entries))
        invariant Delivering(l2capRegistered, all, delivered, BtQueue.Payloads(hci.rxDataQueue.entries))
        invariant !more ==> hci.rxDataQueue.entries == []
        decreases more, |hci.rxDataQueue.entries|
      {
        more, delivered := DeliverOne(hci, buffer, l2capRegistered, all, delivered);
      }
    }

    // Operations the upper layers call. Each one that blocks on the layer's
    // event is split at `Wait()`: the first half runs up to it, the event
    // handlers run while it waits, and the second half requires the flag
    // they set.

    /**
     * Inquiry up to the wait (btlogicallayer.cpp:269-284): refused while a
     * caller is connecting; otherwise a fresh result set, the flag cleared
     * and an Inquiry command of the requested length sent.
     */
    method StartInquiry(seconds: nat) returns (started: bool, sent: seq<Command>)
      modifies this
      requires Valid() && 1 <= seconds <= 61
      requires !connecting ==> inquiry == null
      ensures Valid() && (started <==> !old(connecting))
      ensures !started ==> Abs() == old(Abs()) && sent == []
      ensures started ==> fresh(inquiry) && Abs() == old(Abs()).(results := Some([]), signalled := false)
      ensures started ==> sent == [HciCommand.Inquiry(HciCommand.InquiryLength(seconds) as byte)]
    {
      if connecting {
        return false, [];
      }
      inquiry := new InquiryResults.Results();
      signalled := false;
      sent := [HciCommand.Inquiry(HciCommand.InquiryLength(seconds) as byte)];
      started := true;
    }

    /**
     * Inquiry after the wait (btlogicallayer.cpp:286-306): the result set
     * is handed to the caller, and every record whose address no listed
     * connection has becomes a new connection at the end of the list.
     */
    method InquiryWaited() returns (r: InquiryResults.Results?)
      modifies this, connections, connections.storage
      requires Valid() && signalled
      ensures Valid() && inquiry == null && r == old(inquiry)
      ensures r != null ==> Abs() == Merged(old(Abs()).(results := None), r.responses)
      ensures r == null ==> Abs() == old(Abs())
    {
      r := inquiry;
      if r == null {
        return;
      }
      ghost var s0 := Abs().(results := None);
      MergedFromSuffix(s0, r.responses, 0);
      assert r.responses[0..] == r.responses;
      inquiry := null;
      AdoptAll(r);
    }

    /** The merge loop of Inquiry: each record adopted in turn. */
    method AdoptAll(r: InquiryResults.Results)
      modifies this, connections, connections.storage
      requires Valid() && inquiry == null && ValidResults(r.responses)
      ensures Valid() && inquiry == null && Abs() == MergedFrom(old(Abs()), r.responses, 0)
      ensures connections.storage == old(connections.storage) || fresh(connections.storage)
    {
      ghost var s0 := Abs();
      var rs := r.responses;
      var i := 0;
      while i < |rs|
        invariant Valid() && inquiry == null && 0 <= i <= |rs|
        invariant MergedFrom(Abs(), rs, i) == MergedFrom(s0, rs, 0)
        invariant connections.storage == old(connections.storage) || fresh(connections.storage)
      {
        ghost var before := Abs();
        AdoptRecord(rs[i]);
        assert MergedFrom(before, rs, i) == MergedFrom(Abs(), rs, i + 1);
        i := i + 1;
      }
    }

    /** One pass of the merge loop: the record's address looked up, and a connection created for it if none has it. */
    method AdoptRecord(x: Response)
      modifies this, connections, connections.storage
      requires Valid() && inquiry == null && InquiryResults.ValidResponse(x)
      ensures Valid() && inquiry == null && Abs() == Adopt(old(Abs()), x)
      ensures connections.storage == old(connections.storage) || fresh(connections.storage)
    {
      var id := GetConnection(x.addr);
      if id == 0 {
        id := AddConnection(FromResult(x));
      }
    }

    /** Connect up to the wait (btlogicallayer.cpp:309-318). */
    method Connect(id: nat) returns (sent: seq<Command>)
      modifies this
      requires Valid() && id in heap
      ensures Valid()
      ensures Abs() == old(Abs()).(heap := old(heap)[id := Connection.SetState(old(heap)[id], Connection.Connecting)],
                                   current := id, signalled := false)
      ensures sent == [HciCommand.CreateConnection(old(heap)[id].addr, old(heap)[id].pageScanRepetitionMode)]
    {
      signalled := false;
      sent := [HciCommand.CreateConnection(heap[id].addr, heap[id].pageScanRepetitionMode)];
      current := id;
      heap := heap[id := Connection.SetState(heap[id], Connection.Connecting)];
    }

    /**
     * The common end of Connect, Authenticate, GetInfo and GetFeatures once
     * the handler has signalled: no current connection any more, and the
     * answer is TRUE exactly when the handler recorded a nonzero status.
     */
    method FinishWait(id: nat) returns (failed: bool)
      modifies this
      requires Valid() && id in heap && signalled
      ensures Valid() && Abs() == old(Abs()).(current := 0)
      ensures failed <==> heap[id].status != STATUS_SUCCESS
    {
      current := 0;
      failed := heap[id].status != STATUS_SUCCESS;
    }

    /**
     * ConnectResponse (btlogicallayer.cpp:324-351): the PIN length is
     * recorded and the PIN zeroed; acceptance swaps the role and answers
     * with it, rejection answers "unsupported remote feature", marks the
     * connection failed and takes it off the list. The connection stays
     * current, and nothing waits.
     */
    method ConnectResponse(id: nat, response: byte, pin: Bytes) returns (sent: seq<Command>, failed: bool)
      modifies this, connections, connections.storage
      requires Valid() && id in heap && |pin| <= PIN_CODE_SIZE
      requires response != 0 ==> connections.count > 0
      ensures Valid() && inquiry == old(inquiry)
      ensures var c := Connection.SetPinSizeOnly(old(heap)[id], pin);
        if response == 0 then
          && Abs() == old(Abs()).(heap := old(heap)[id := c.(role := Connection.OtherRole(c.role), state := Connection.Connecting)],
                                  current := id)
          && sent == [HciCommand.AcceptConnectionRequest(c.addr, Connection.OtherRole(c.role))]
        else
          && Abs() == old(Abs()).(list := PtrArrays.Removed(old(Abs()).list, id),
                                  heap := old(heap)[id := c.(state := Connection.ConnectionFailed)], current := id)
          && sent == [HciCommand.RejectConnectionRequest(c.addr, ERROR_UNSUPPORTED_REMOTE_FEATURE)]
      ensures failed <==> old(heap)[id].status != STATUS_SUCCESS
    {
      var c := Connection.SetPinSizeOnly(heap[id], pin);
      failed := c.status != STATUS_SUCCESS;
      if response == 0 {
        c := c.(role := Connection.OtherRole(c.role));
        sent := [HciCommand.AcceptConnectionRequest(c.addr, c.role)];
        Replace(id, c.(state := Connection.Connecting));
      } else {
        sent := [HciCommand.RejectConnectionRequest(c.addr, ERROR_UNSUPPORTED_REMOTE_FEATURE)];
        Replace(id, c.(state := Connection.ConnectionFailed));
        Unlist(id);
      }
    }

    /** The record replaced, and the connection made current. */
    method Replace(id: nat, c: Conn)
      modifies this
      requires Valid() && id in heap && Connection.ValidConn(c)
      ensures Valid() && inquiry == old(inquiry)
      ensures Abs() == old(Abs()).(heap := old(heap)[id := c], current := id)
    {
      heap := heap[id := c];
      current := id;
    }

    /** The rejecting branch of ConnectResponse: the id taken off the list, every record left as it is. */
    method Unlist(id: nat)
      modifies connections, connections.storage
      requires Valid() && connections.count > 0
      ensures Valid()
      ensures Abs() == old(Abs()).(list := PtrArrays.Removed(old(Abs()).list, id))
    {
      ghost var before := Abs();
      UnlistedValid(before, id);
      var _ := connections.Delete(id);
      assert Abs() == before.(list := PtrArrays.Removed(before.list, id));
    }

    /** Authenticate up to the wait (btlogicallayer.cpp:353-364): the PIN is stored for the PIN-code reply. */
    method Authenticate(id: nat, pin: Bytes) returns (sent: seq<Command>)
      modifies this
      requires Valid() && id in heap && |pin| <= PIN_CODE_SIZE
      ensures Valid()
      ensures var c := Connection.SetPin(old(heap)[id], pin);
        Abs() == old(Abs()).(heap := old(heap)[id := Connection.SetState(c, Connection.Authenticating)],
                             current := id, signalled := false)
      ensures sent == [HciCommand.AuthenticationRequested(old(heap)[id].handle)]
    {
      signalled := false;
      var c := Connection.SetPin(heap[id], pin);
      sent := [HciCommand.AuthenticationRequested(c.handle)];
      current := id;
      heap := heap[id := Connection.SetState(c, Connection.Authenticating)];
    }

    /** Disconnect (btlogicallayer.cpp:370-379): nothing waits, and the connection stays current. */
    method Disconnect(id: nat, reason: byte) returns (sent: seq<Command>, failed: bool)
      modifies this
      requires Valid() && id in heap
      ensures Valid()
      ensures Abs() == old(Abs()).(heap := old(heap)[id := Connection.SetState(old(heap)[id], Connection.Disconnecting)],
                                   current := id)
      ensures sent == [HciCommand.Disconnect(old(heap)[id].handle, reason)]
      ensures failed <==> old(heap)[id].status != STATUS_SUCCESS
    {
      sent := [HciCommand.Disconnect(heap[id].handle, reason)];
      current := id;
      heap := heap[id := Connection.SetState(heap[id], Connection.Disconnecting)];
      failed := heap[id].status != STATUS_SUCCESS;
    }

    /** GetInfo up to the wait (btlogicallayer.cpp:381-388). */
    method GetInfo(id: nat) returns (sent: seq<Command>)
      modifies this
      requires Valid() && id in heap
      ensures Valid() && Abs() == old(Abs()).(current := id, signalled := false)
      ensures sent == [HciCommand.ReadRemoteVersionInformation(heap[id].handle)]
    {
      signalled := false;
      sent := [HciCommand.ReadRemoteVersionInformation(heap[id].handle)];
      current := id;
    }

    /** GetFeatures up to the wait (btlogicallayer.cpp:394-401). */
    method GetFeatures(id: nat) returns (sent: seq<Command>)
      modifies this
      requires Valid() && id in heap
      ensures Valid() && Abs() == old(Abs()).(current := id, signalled := false)
      ensures sent == [HciCommand.ReadRemoteSupportedFeatures(heap[id].handle)]
    {
      signalled := false;
      sent := [HciCommand.ReadRemoteSupportedFeatures(heap[id].handle)];
      current := id;
    }
  }
}

// HCI event packets (Bluetooth Core Vol 4 Part E, section 5.4.4): an event
// code, a one-byte parameter length, then the packed parameters of that event.
module HciEvent {
  import opened Bytes

  const HEADER_SIZE := 2

  const EVENT_INQUIRY_COMPLETE := 0x01
  const EVENT_INQUIRY_RESULT := 0x02
  const EVENT_CONNECTION_COMPLETE := 0x03
  const EVENT_CONNECTION_REQUEST := 0x04
  const EVENT_DISCONNECTION_COMPLETE := 0x05
  const EVENT_AUTHENTICATION_COMPLETE := 0x06
  const EVENT_REMOTE_NAME_REQUEST_COMPLETE := 0x07
  const EVENT_READ_REMOTE_SUPPORTED_FEATURES_COMPLETE := 0x0B
  const EVENT_READ_REMOTE_VERSION_INFORMATION_COMPLETE := 0x0C
  const EVENT_COMMAND_COMPLETE := 0x0E
  const EVENT_COMMAND_STATUS := 0x0F
  const EVENT_HARDWARE_ERROR := 0x10
  const EVENT_FLUSH_OCCURRED := 0x11
  const EVENT_ROLE_CHANGE := 0x12
  const EVENT_NUMBER_OF_COMPLETED_PACKETS := 0x13
  const EVENT_MODE_CHANGE := 0x14
  const EVENT_RETURN_LINK_KEYS := 0x15
  const EVENT_PIN_CODE_REQUEST := 0x16
  const EVENT_LINK_KEY_REQUEST := 0x17
  const EVENT_LINK_KEY_NOTIFICATION := 0x18
  const EVENT_MAX_SLOTS_CHANGE := 0x1B
  /** Slots in the code-indexed handler table. */
  const NUM_EVENTS := 0x20

  const STATUS_SUCCESS := 0x00
  const ROLE_MASTER := 0x00
  const ROLE_SLAVE := 0x01
  const LMP_FEATURE_SIZE := 8

  /** Every event code the stack defines, in header order. */
  const DefinedCodes: seq<nat> := [
    EVENT_INQUIRY_COMPLETE, EVENT_INQUIRY_RESULT, EVENT_CONNECTION_COMPLETE,
    EVENT_CONNECTION_REQUEST, EVENT_DISCONNECTION_COMPLETE, EVENT_AUTHENTICATION_COMPLETE,
    EVENT_REMOTE_NAME_REQUEST_COMPLETE, EVENT_READ_REMOTE_SUPPORTED_FEATURES_COMPLETE,
    EVENT_READ_REMOTE_VERSION_INFORMATION_COMPLETE, EVENT_COMMAND_COMPLETE,
    EVENT_COMMAND_STATUS, EVENT_HARDWARE_ERROR, EVENT_FLUSH_OCCURRED, EVENT_ROLE_CHANGE,
    EVENT_NUMBER_OF_COMPLETED_PACKETS, EVENT_MODE_CHANGE, EVENT_RETURN_LINK_KEYS,
    EVENT_PIN_CODE_REQUEST, EVENT_LINK_KEY_REQUEST, EVENT_LINK_KEY_NOTIFICATION,
    EVENT_MAX_SLOTS_CHANGE]

  /** The handler table indexed by event code is large enough for every code. */
  lemma CodesFitHandlerTable()
    ensures forall i :: 0 <= i < |DefinedCodes| ==> DefinedCodes[i] < NUM_EVENTS
  {
  }

  /** The decoded parameters of each event that has a handler. */
  datatype Event =
    | InquiryComplete(status: byte)
    | InquiryResult(numResponses: byte, data: Bytes)
    | ConnectionComplete(status: byte, handle: u16, addr: Bytes, linkType: byte, encryption: byte)
    | ConnectionRequest(addr: Bytes, cod: Bytes, linkType: byte)
    | DisconnectionComplete(status: byte, handle: u16, reason: byte)
    | AuthenticationComplete(status: byte, handle: u16)
    | RemoteNameRequestComplete(status: byte, addr: Bytes, name: Bytes)
    | ReadRemoteSupportedFeaturesComplete(status: byte, handle: u16, features: Bytes)
    | ReadRemoteVersionInformationComplete(status: byte, handle: u16, version: byte,
                                           manufacturer: u16, subversion: u16)
    | CommandComplete(numPackets: byte, opcode: u16, status: byte, returned: Bytes)
    | CommandStatus(status: byte, numPackets: byte, opcode: u16)
    | FlushOccurred(handle: u16)
    | RoleChange(status: byte, addr: Bytes, newRole: byte)
    | NumberOfCompletedPackets(numHandles: byte, handle: u16, completed: u16)
    | ModeChange(status: byte, handle: u16, mode: byte, interval: u16)
    | ReturnLinkKeys(numKeys: byte, addr: Bytes, key: Bytes)
    | PinCodeRequest(addr: Bytes)
    | LinkKeyRequest(addr: Bytes)
    | LinkKeyNotification(addr: Bytes, key: Bytes)
    | MaxSlotsChange(handle: u16, slots: byte)
    | NoHandler(code: byte)

  const INQUIRY_RESP_SIZE := 14

  /**
   * `sizeof` the packed event class, header included: each handler asserts
   * the frame is at least this long. An inquiry result also carries
   * 14 bytes per response.
   */
  function MinLength(code: byte, f: Bytes): nat
    requires |f| >= HEADER_SIZE
  {
    if code == EVENT_INQUIRY_COMPLETE then 3
    else if code == EVENT_INQUIRY_RESULT then 3 + (if |f| > 2 then INQUIRY_RESP_SIZE * f[2] else 0)
    else if code == EVENT_CONNECTION_COMPLETE then 13
    else if code == EVENT_CONNECTION_REQUEST then 12
    else if code == EVENT_DISCONNECTION_COMPLETE then 6
    else if code == EVENT_AUTHENTICATION_COMPLETE then 5
    else if code == EVENT_REMOTE_NAME_REQUEST_COMPLETE then 2 + 1 + 6 + NAME_SIZE
    else if code == EVENT_READ_REMOTE_SUPPORTED_FEATURES_COMPLETE then 2 + 1 + 2 + LMP_FEATURE_SIZE
    else if code == EVENT_READ_REMOTE_VERSION_INFORMATION_COMPLETE then 10
    else if code == EVENT_COMMAND_COMPLETE then 6
    else if code == EVENT_COMMAND_STATUS then 6
    else if code == EVENT_FLUSH_OCCURRED then 4
    else if code == EVENT_ROLE_CHANGE then 10
    else if code == EVENT_NUMBER_OF_COMPLETED_PACKETS then 7
    else if code == EVENT_MODE_CHANGE then 8
    else if code == EVENT_RETURN_LINK_KEYS then 2 + 1 + 6 + LINK_KEY_SIZE
    else if code == EVENT_PIN_CODE_REQUEST then 8
    else if code == EVENT_LINK_KEY_REQUEST then 8
    else if code == EVENT_LINK_KEY_NOTIFICATION then 2 + 6 + LINK_KEY_SIZE
    else if code == EVENT_MAX_SLOTS_CHANGE then 5
    else HEADER_SIZE
  }

  /** The frame is long enough for the layout its code selects. */
  predicate LongEnough(f: Bytes)
  {
    |f| >= HEADER_SIZE && |f| >= MinLength(f[0], f)
  }

  /**
   * Every field read out of a frame has the width of its place in the
   * packed layout: addresses 6 bytes, classes 3, names 248, keys 16,
   * features 8, and an inquiry result 14 bytes per response.
   */
  predicate FieldsFit(e: Event)
  {
    match e
    case InquiryResult(n, data) => INQUIRY_RESP_SIZE * n <= |data|
    case ConnectionComplete(_, _, a, _, _) => |a| == BD_ADDR_SIZE
    case ConnectionRequest(a, cod, _) => |a| == BD_ADDR_SIZE && |cod| == CLASS_SIZE
    case RemoteNameRequestComplete(_, a, name) => |a| == BD_ADDR_SIZE && |name| == NAME_SIZE
    case ReadRemoteSupportedFeaturesComplete(_, _, features) => |features| == LMP_FEATURE_SIZE
    case RoleChange(_, a, _) => |a| == BD_ADDR_SIZE
    case ReturnLinkKeys(_, a, key) => |a| == BD_ADDR_SIZE && |key| == LINK_KEY_SIZE
    case PinCodeRequest(a) => |a| == BD_ADDR_SIZE
    case LinkKeyRequest(a) => |a| == BD_ADDR_SIZE
    case LinkKeyNotification(a, key) => |a| == BD_ADDR_SIZE && |key| == LINK_KEY_SIZE
    case _ => true
  }

  /** Reads the packed fields of an event frame in place. */
  function Parse(f: Bytes): (e: Event)
    requires LongEnough(f)
    ensures e.NoHandler? <==> f[0] !in DefinedCodes || f[0] == EVENT_HARDWARE_ERROR
    ensures FieldsFit(e)
  {
    var code := f[0];
    if code == EVENT_INQUIRY_COMPLETE then InquiryComplete(f[2])
    else if code == EVENT_INQUIRY_RESULT then InquiryResult(f[2], f[3..])
    else if code == EVENT_CONNECTION_COMPLETE then
      ConnectionComplete(f[2], ReadLE16(f, 3), f[5..11], f[11], f[12])
    else if code == EVENT_CONNECTION_REQUEST then ConnectionRequest(f[2..8], f[8..11], f[11])
    else if code == EVENT_DISCONNECTION_COMPLETE then DisconnectionComplete(f[2], ReadLE16(f, 3), f[5])
    else if code == EVENT_AUTHENTICATION_COMPLETE then AuthenticationComplete(f[2], ReadLE16(f, 3))
    else if code == EVENT_REMOTE_NAME_REQUEST_COMPLETE then
      RemoteNameRequestComplete(f[2], f[3..9], f[9..9 + NAME_SIZE])
    else if code == EVENT_READ_REMOTE_SUPPORTED_FEATURES_COMPLETE then
      ReadRemoteSupportedFeaturesComplete(f[2], ReadLE16(f, 3), f[5..13])
    else if code == EVENT_READ_REMOTE_VERSION_INFORMATION_COMPLETE then
      ReadRemoteVersionInformationComplete(f[2], ReadLE16(f, 3), f[5], ReadLE16(f, 6), ReadLE16(f, 8))
    else if code == EVENT_COMMAND_COMPLETE then CommandComplete(f[2], ReadLE16(f, 3), f[5], f[6..])
    else if code == EVENT_COMMAND_STATUS then CommandStatus(f[2], f[3], ReadLE16(f, 4))
    else if code == EVENT_FLUSH_OCCURRED then FlushOccurred(ReadLE16(f, 2))
    else if code == EVENT_ROLE_CHANGE then RoleChange(f[2], f[3..9], f[9])
    else if code == EVENT_NUMBER_OF_COMPLETED_PACKETS then
      NumberOfCompletedPackets(f[2], ReadLE16(f, 3), ReadLE16(f, 5))
    else if code == EVENT_MODE_CHANGE then ModeChange(f[2], ReadLE16(f, 3), f[5], ReadLE16(f, 6))
    else if code == EVENT_RETURN_LINK_KEYS then ReturnLinkKeys(f[2], f[3..9], f[9..25])
    else if code == EVENT_PIN_CODE_REQUEST then PinCodeRequest(f[2..8])
    else if code == EVENT_LINK_KEY_REQUEST then LinkKeyRequest(f[2..8])
    else if code == EVENT_LINK_KEY_NOTIFICATION then LinkKeyNotification(f[2..8], f[8..24])
    else if code == EVENT_MAX_SLOTS_CHANGE then MaxSlotsChange(ReadLE16(f, 2), f[4])
    else NoHandler(code)
  }

  // ---------------------------------------------------------------------
  // Inquiry result: the responses are stored column by column, all
  // addresses first, then all page-scan modes, two reserved bytes each,
  // all classes, and all clock offsets.

  datatype InquiryResponse = InquiryResponse(addr: Bytes, pageScanRepetitionMode: byte, cod: Bytes)

  predicate ValidResponse(r: InquiryResponse)
  {
    |r.addr| == BD_ADDR_SIZE && |r.cod| == CLASS_SIZE
  }

  function AddrOffset(n: nat, i: nat): nat { BD_ADDR_SIZE * i }
  function ModeOffset(n: nat, i: nat): nat { BD_ADDR_SIZE * n + i }
  function ClassOffset(n: nat, i: nat): nat { (BD_ADDR_SIZE + 1 + 2) * n + CLASS_SIZE * i }

  /** The fields of response `i` out of `n` sit in disjoint ranges inside the 14n-byte block. */
  lemma InquiryColumnsDisjoint(n: nat, i: nat)
    requires i < n
    ensures AddrOffset(n, i) + BD_ADDR_SIZE <= BD_ADDR_SIZE * n <= ModeOffset(n, i)
    ensures ModeOffset(n, i) < 7 * n <= 9 * n <= ClassOffset(n, i)
    ensures ClassOffset(n, i) + CLASS_SIZE <= 12 * n <= INQUIRY_RESP_SIZE * n
  {
  }

  /** Response `i` as the handler reads it out of the parameter block. */
  function ResponseAt(data: Bytes, n: nat, i: nat): (r: InquiryResponse)
    requires i < n && INQUIRY_RESP_SIZE * n <= |data|
    ensures ValidResponse(r)
  {
    InquiryResponse(
      data[AddrOffset(n, i)..AddrOffset(n, i) + BD_ADDR_SIZE],
      data[ModeOffset(n, i)],
      data[ClassOffset(n, i)..ClassOffset(n, i) + CLASS_SIZE])
  }

  function Concat(s: seq<Bytes>): Bytes
  {
    if |s| == 0 then [] else Concat(s[..|s| - 1]) + s[|s| - 1]
  }

  lemma {:induction false} ConcatLength(s: seq<Bytes>, w: nat)
    requires forall j :: 0 <= j < |s| ==> |s[j]| == w
    ensures |Concat(s)| == w * |s|
  {
    if |s| > 0 {
      ConcatLength(s[..|s| - 1], w);
      assert w * |s| == w * (|s| - 1) + w;
    }
  }

  /** Where the `i`-th of a run of `w`-byte slots starts. */
  function Slot(w: nat, i: nat): nat { w * i }

  lemma {:induction false} ConcatFixed(s: seq<Bytes>, w: nat, i: nat)
    requires forall j :: 0 <= j < |s| ==> |s[j]| == w
    requires i < |s|
    ensures |Concat(s)| == w * |s|
    ensures Slot(w, i) + w <= |Concat(s)|
    ensures Concat(s)[Slot(w, i)..Slot(w, i) + w] == s[i]
  {
    ConcatLength(s, w);
    var t := s[..|s| - 1];
    ConcatLength(t, w);
    assert Concat(s) == Concat(t) + s[|s| - 1];
    if i < |t| {
      ConcatFixed(t, w, i);
    } else {
      assert Slot(w, i) == w * |t|;
    }
  }

  /** The parameter block a controller sends for the given responses (clock offsets zero). */
  function InquiryBlock(rs: seq<InquiryResponse>): (data: Bytes)
    requires forall j :: 0 <= j < |rs| ==> ValidResponse(rs[j])
  {
    Concat(seq(|rs|, j requires 0 <= j < |rs| => rs[j].addr))
      + seq(|rs|, j requires 0 <= j < |rs| => rs[j].pageScanRepetitionMode)
      + Zeros(2 * |rs|)
      + Concat(seq(|rs|, j requires 0 <= j < |rs| => rs[j].cod))
      + Zeros(2 * |rs|)
  }

  /**
   * Reading response `i` back out of a column-wise block gives the response
   * that was stored there: the offset macros invert the layout.
   */
  lemma ResponseAtInquiryBlock(rs: seq<InquiryResponse>, i: nat)
    requires forall j :: 0 <= j < |rs| ==> ValidResponse(rs[j])
    requires i < |rs|
    ensures |InquiryBlock(rs)| == INQUIRY_RESP_SIZE * |rs|
    ensures ResponseAt(InquiryBlock(rs), |rs|, i) == rs[i]
  {
    InquiryBlockAddr(rs, i);
    InquiryBlockMode(rs, i);
    InquiryBlockClass(rs, i);
  }

  /** The address column: response `i`'s address is the i-th 6-byte slot. */
  lemma InquiryBlockAddr(rs: seq<InquiryResponse>, i: nat)
    requires forall j :: 0 <= j < |rs| ==> ValidResponse(rs[j])
    requires i < |rs|
    ensures |InquiryBlock(rs)| == INQUIRY_RESP_SIZE * |rs|
    ensures InquiryBlock(rs)[AddrOffset(|rs|, i)..AddrOffset(|rs|, i) + BD_ADDR_SIZE] == rs[i].addr
  {
    var n := |rs|;
    var addrs := seq(n, j requires 0 <= j < n => rs[j].addr);
    var cods := seq(n, j requires 0 <= j < n => rs[j].cod);
    ConcatFixed(addrs, BD_ADDR_SIZE, i);
    ConcatLength(cods, CLASS_SIZE);
    var data := InquiryBlock(rs);
    var a := Concat(addrs);
    assert data == a + seq(n, j requires 0 <= j < n => rs[j].pageScanRepetitionMode) + Zeros(2 * n)
      + Concat(cods) + Zeros(2 * n);
    var got := data[AddrOffset(n, i)..AddrOffset(n, i) + BD_ADDR_SIZE];
    var slot := a[6 * i..6 * i + 6];
    forall k | 0 <= k < BD_ADDR_SIZE ensures got[k] == slot[k] {
      assert data[6 * i + k] == a[6 * i + k];
    }
    assert got == slot;
  }

  /** The mode column: one byte per response after the n addresses. */
  lemma InquiryBlockMode(rs: seq<InquiryResponse>, i: nat)
    requires forall j :: 0 <= j < |rs| ==> ValidResponse(rs[j])
    requires i < |rs|
    ensures |InquiryBlock(rs)| == INQUIRY_RESP_SIZE * |rs|
    ensures InquiryBlock(rs)[ModeOffset(|rs|, i)] == rs[i].pageScanRepetitionMode
  {
    var n := |rs|;
    var addrs := seq(n, j requires 0 <= j < n => rs[j].addr);
    var cods := seq(n, j requires 0 <= j < n => rs[j].cod);
    ConcatLength(addrs, BD_ADDR_SIZE);
    ConcatLength(cods, CLASS_SIZE);
    var modes := seq(n, j requires 0 <= j < n => rs[j].pageScanRepetitionMode);
    var data := InquiryBlock(rs);
    assert data == Concat(addrs) + modes + Zeros(2 * n) + Concat(cods) + Zeros(2 * n);
    assert data[6 * n + i] == modes[i];
  }

  /** The class column: the i-th 3-byte slot after the addresses, modes and offsets. */
  lemma InquiryBlockClass(rs: seq<InquiryResponse>, i: nat)
    requires forall j :: 0 <= j < |rs| ==> ValidResponse(rs[j])
    requires i < |rs|
    ensures |InquiryBlock(rs)| == INQUIRY_RESP_SIZE * |rs|
    ensures InquiryBlock(rs)[ClassOffset(|rs|, i)..ClassOffset(|rs|, i) + CLASS_SIZE] == rs[i].cod
  {
    var n := |rs|;
    var addrs := seq(n, j requires 0 <= j < n => rs[j].addr);
    var cods := seq(n, j requires 0 <= j < n => rs[j].cod);
    ConcatLength(addrs, BD_ADDR_SIZE);
    ConcatFixed(cods, CLASS_SIZE, i);
    var data := InquiryBlock(rs);
    var front := Concat(addrs) + seq(n, j requires 0 <= j < n => rs[j].pageScanRepetitionMode) + Zeros(2 * n);
    var c := Concat(cods);
    assert |front| == 9 * n;
    assert data == front + c + Zeros(2 * n);
    var got := data[ClassOffset(n, i)..ClassOffset(n, i) + CLASS_SIZE];
    var slot := c[3 * i..3 * i + 3];
    forall k | 0 <= k < CLASS_SIZE ensures got[k] == slot[k] {
      assert data[9 * n + 3 * i + k] == c[3 * i + k];
    }
    assert got == slot;
  }

  // ---------------------------------------------------------------------
  // Command Complete return parameters beyond the status byte.

  /** Read-BD-Addr returns the 6-byte local address after the status. */
  function ReturnedBDAddr(returned: Bytes): Bytes
    requires |returned| >= BD_ADDR_SIZE
  {
    returned[..BD_ADDR_SIZE]
  }

  /** Read-Stored-Link-Key returns MaxNumKeys then NumKeysRead, both u16. */
  function ReturnedNumKeysRead(returned: Bytes): u16
    requires |returned| >= 4
  {
    ReadLE16(returned, 2)
  }

  /** A Command Complete frame as the controller lays it out. */
  function CommandCompleteFrame(numPackets: byte, opcode: u16, status: byte, returned: Bytes): (f: Bytes)
    requires |returned| <= 0xFF - 4
    ensures LongEnough(f) && f[0] == EVENT_COMMAND_COMPLETE
  {
    [EVENT_COMMAND_COMPLETE, 4 + |returned|, numPackets] + LE16(opcode) + [status] + returned
  }

  /** Parsing a Command Complete frame recovers every field the bring-up chain reads. */
  lemma ParseCommandComplete(numPackets: byte, opcode: u16, status: byte, returned: Bytes)
    requires |returned| <= 0xFF - 4
    ensures Parse(CommandCompleteFrame(numPackets, opcode, status, returned))
      == CommandComplete(numPackets, opcode, status, returned)
  {
    var f := CommandCompleteFrame(numPackets, opcode, status, returned);
    assert f[3..5] == LE16(opcode);
    assert f[6..] == returned;
  }
}

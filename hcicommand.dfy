// HCI command packets (Bluetooth Core Vol 4 Part E, section 5.4.1): a
// little-endian opcode built from a 6-bit group (OGF) and a 10-bit command
// (OCF) field, a one-byte parameter length, then the packed parameters.
module HciCommand {
  import opened Bytes
  import DeviceClass

  const OGF_LINK_CONTROL := 0x01
  const OGF_LINK_POLICY := 0x02
  const OGF_HCI_CONTROL_BASEBAND := 0x03
  const OGF_INFORMATIONAL := 0x04
  const OGF_VENDOR := 0x3F

  /** `OGF << 10 | OCF`. */
  function OpCode(ogf: nat, ocf: nat): (op: u16)
    requires ogf < 0x40 && ocf < 0x400
    ensures op / 0x400 == ogf && op % 0x400 == ocf
  {
    ogf * 0x400 + ocf
  }

  const OP_INQUIRY := OpCode(OGF_LINK_CONTROL, 0x001)
  const OP_CREATE_CONNECTION := OpCode(OGF_LINK_CONTROL, 0x005)
  const OP_DISCONNECT := OpCode(OGF_LINK_CONTROL, 0x006)
  const OP_ACCEPT_CONNECTION_REQUEST := OpCode(OGF_LINK_CONTROL, 0x009)
  const OP_REJECT_CONNECTION_REQUEST := OpCode(OGF_LINK_CONTROL, 0x00A)
  const OP_LINK_KEY_REQUEST_REPLY := OpCode(OGF_LINK_CONTROL, 0x00B)
  const OP_LINK_KEY_REQUEST_NEGATIVE_REPLY := OpCode(OGF_LINK_CONTROL, 0x00C)
  const OP_PIN_CODE_REQUEST_REPLY := OpCode(OGF_LINK_CONTROL, 0x00D)
  const OP_PIN_CODE_REQUEST_NEGATIVE_REPLY := OpCode(OGF_LINK_CONTROL, 0x00E)
  const OP_AUTHENTICATION_REQUESTED := OpCode(OGF_LINK_CONTROL, 0x011)
  const OP_REMOTE_NAME_REQUEST := OpCode(OGF_LINK_CONTROL, 0x019)
  const OP_READ_REMOTE_SUPPORTED_FEATURES := OpCode(OGF_LINK_CONTROL, 0x01B)
  const OP_READ_REMOTE_VERSION_INFORMATION := OpCode(OGF_LINK_CONTROL, 0x01D)
  const OP_HOLD_MODE := OpCode(OGF_LINK_POLICY, 0x001)
  const OP_SNIFF_MODE := OpCode(OGF_LINK_POLICY, 0x003)
  const OP_EXIT_SNIFF_MODE := OpCode(OGF_LINK_POLICY, 0x004)
  const OP_PARK_MODE := OpCode(OGF_LINK_POLICY, 0x005)
  const OP_EXIT_PARK_MODE := OpCode(OGF_LINK_POLICY, 0x006)
  const OP_RESET := OpCode(OGF_HCI_CONTROL_BASEBAND, 0x003)
  const OP_READ_STORED_LINK_KEY := OpCode(OGF_HCI_CONTROL_BASEBAND, 0x00D)
  const OP_WRITE_STORED_LINK_KEY := OpCode(OGF_HCI_CONTROL_BASEBAND, 0x011)
  const OP_WRITE_LOCAL_NAME := OpCode(OGF_HCI_CONTROL_BASEBAND, 0x013)
  const OP_WRITE_SCAN_ENABLE := OpCode(OGF_HCI_CONTROL_BASEBAND, 0x01A)
  const OP_WRITE_CLASS_OF_DEVICE := OpCode(OGF_HCI_CONTROL_BASEBAND, 0x024)
  const OP_READ_BD_ADDR := OpCode(OGF_INFORMATIONAL, 0x009)
  const OP_DOWNLOAD_MINIDRIVER := OpCode(OGF_VENDOR, 0x02E)
  const OP_WRITE_RAM := OpCode(OGF_VENDOR, 0x04C)
  const OP_LAUNCH_RAM := OpCode(OGF_VENDOR, 0x04E)

  const HEADER_SIZE := 3
  const SCAN_ENABLE_BOTH_ENABLED := 0x03
  const PACKET_TYPE_DM1 := 0x0008
  const MANDATORY_PAGE_SCAN_MODE := 0x00
  const CLOCK_OFFSET_INVALID := 0
  const DISALLOW_ROLE_SWITCH := 0x00
  const RETURN_LINK_KEY_FOR_SPECIFIED_BD_ADDR := 0x00
  /** The General Inquiry Access Code 0x9E8B33, low byte first. */
  const INQUIRY_LAP_GIAC: Bytes := [0x33, 0x8B, 0x9E]
  const INQUIRY_NUM_RESPONSES_UNLIMITED := 0x00
  const VENDOR_DATA_SIZE := 255

  /** The commands the stack builds, each with the arguments its constructor takes. */
  datatype Command =
    | Reset
    | ReadBDAddr
    | ReadStoredLinkKey(addr: Bytes)
    | WriteStoredLinkKey(addr: Bytes, key: Bytes)
    | WriteLocalName(name: Bytes)
    | WriteScanEnable(scan: byte)
    | WriteClassOfDevice(cod: DeviceClass.ClassOfDevice)
    | Vendor(op: u16, data: Bytes)
    | Inquiry(inquiryLength: byte)
    | CreateConnection(addr: Bytes, pageScanRepetitionMode: byte)
    | Disconnect(handle: u16, reason: byte)
    | AcceptConnectionRequest(addr: Bytes, role: byte)
    | RejectConnectionRequest(addr: Bytes, reason: byte)
    | LinkKeyRequestReply(addr: Bytes, key: Bytes)
    | LinkKeyRequestNegativeReply(addr: Bytes)
    | PinCodeRequestReply(addr: Bytes, pin: Bytes)
    | PinCodeRequestNegativeReply(addr: Bytes)
    | AuthenticationRequested(handle: u16)
    | RemoteNameRequest(addr: Bytes, pageScanRepetitionMode: byte)
    | ReadRemoteSupportedFeatures(handle: u16)
    | ReadRemoteVersionInformation(handle: u16)
    | HoldMode(handle: u16, maxInterval: u16, minInterval: u16)
    | SniffMode(handle: u16, maxInterval: u16, minInterval: u16, attempt: u16, timeout: u16)
    | ExitSniffMode(handle: u16)
    | ParkMode(handle: u16, maxInterval: u16, minInterval: u16)
    | ExitParkMode(handle: u16)

  /**
   * The arguments fit the fixed-size fields they are copied into: addresses
   * of 6 bytes, keys of 16, names of 248, a PIN of at most 16 and vendor
   * data of at most 255 bytes.
   */
  predicate WellFormed(c: Command)
  {
    match c
    case ReadStoredLinkKey(a) => |a| == BD_ADDR_SIZE
    case WriteStoredLinkKey(a, k) => |a| == BD_ADDR_SIZE && |k| == LINK_KEY_SIZE
    case WriteLocalName(n) => |n| == NAME_SIZE
    case WriteClassOfDevice(cod) => DeviceClass.Valid(cod)
    case Vendor(_, d) => |d| <= VENDOR_DATA_SIZE
    case CreateConnection(a, _) => |a| == BD_ADDR_SIZE
    case AcceptConnectionRequest(a, _) => |a| == BD_ADDR_SIZE
    case RejectConnectionRequest(a, _) => |a| == BD_ADDR_SIZE
    case LinkKeyRequestReply(a, k) => |a| == BD_ADDR_SIZE && |k| == LINK_KEY_SIZE
    case LinkKeyRequestNegativeReply(a) => |a| == BD_ADDR_SIZE
    case PinCodeRequestReply(a, p) => |a| == BD_ADDR_SIZE && |p| <= PIN_CODE_SIZE
    case PinCodeRequestNegativeReply(a) => |a| == BD_ADDR_SIZE
    case RemoteNameRequest(a, _) => |a| == BD_ADDR_SIZE
    case _ => true
  }

  predicate AllWellFormed(cs: seq<Command>)
  {
    forall i :: 0 <= i < |cs| ==> WellFormed(cs[i])
  }

  function OpCodeOf(c: Command): u16
  {
    match c
    case Reset => OP_RESET
    case ReadBDAddr => OP_READ_BD_ADDR
    case ReadStoredLinkKey(_) => OP_READ_STORED_LINK_KEY
    case WriteStoredLinkKey(_, _) => OP_WRITE_STORED_LINK_KEY
    case WriteLocalName(_) => OP_WRITE_LOCAL_NAME
    case WriteScanEnable(_) => OP_WRITE_SCAN_ENABLE
    case WriteClassOfDevice(_) => OP_WRITE_CLASS_OF_DEVICE
    case Vendor(op, _) => op
    case Inquiry(_) => OP_INQUIRY
    case CreateConnection(_, _) => OP_CREATE_CONNECTION
    case Disconnect(_, _) => OP_DISCONNECT
    case AcceptConnectionRequest(_, _) => OP_ACCEPT_CONNECTION_REQUEST
    case RejectConnectionRequest(_, _) => OP_REJECT_CONNECTION_REQUEST
    case LinkKeyRequestReply(_, _) => OP_LINK_KEY_REQUEST_REPLY
    case LinkKeyRequestNegativeReply(_) => OP_LINK_KEY_REQUEST_NEGATIVE_REPLY
    case PinCodeRequestReply(_, _) => OP_PIN_CODE_REQUEST_REPLY
    case PinCodeRequestNegativeReply(_) => OP_PIN_CODE_REQUEST_NEGATIVE_REPLY
    case AuthenticationRequested(_) => OP_AUTHENTICATION_REQUESTED
    case RemoteNameRequest(_, _) => OP_REMOTE_NAME_REQUEST
    case ReadRemoteSupportedFeatures(_) => OP_READ_REMOTE_SUPPORTED_FEATURES
    case ReadRemoteVersionInformation(_) => OP_READ_REMOTE_VERSION_INFORMATION
    case HoldMode(_, _, _) => OP_HOLD_MODE
    case SniffMode(_, _, _, _, _) => OP_SNIFF_MODE
    case ExitSniffMode(_) => OP_EXIT_SNIFF_MODE
    case ParkMode(_, _, _) => OP_PARK_MODE
    case ExitParkMode(_) => OP_EXIT_PARK_MODE
  }

  /** The packed parameter block each constructor fills in, field by field. */
  function Params(c: Command): Bytes
    requires WellFormed(c)
  {
    match c
    case Reset => []
    case ReadBDAddr => []
    case ReadStoredLinkKey(a) => a + [RETURN_LINK_KEY_FOR_SPECIFIED_BD_ADDR]
    case WriteStoredLinkKey(a, k) => [1] + a + k
    case WriteLocalName(n) => n
    case WriteScanEnable(s) => [s]
    case WriteClassOfDevice(cod) => DeviceClass.Pack(cod)
    case Vendor(_, d) => d
    case Inquiry(len) => INQUIRY_LAP_GIAC + [len, INQUIRY_NUM_RESPONSES_UNLIMITED]
    case CreateConnection(a, psrm) =>
      a + LE16(PACKET_TYPE_DM1) + [psrm, MANDATORY_PAGE_SCAN_MODE]
        + LE16(CLOCK_OFFSET_INVALID) + [DISALLOW_ROLE_SWITCH]
    case Disconnect(h, r) => LE16(h) + [r]
    case AcceptConnectionRequest(a, role) => a + [role]
    case RejectConnectionRequest(a, r) => a + [r]
    case LinkKeyRequestReply(a, k) => a + k
    case LinkKeyRequestNegativeReply(a) => a
    case PinCodeRequestReply(a, p) => a + [|p|] + ZeroPadded(p, PIN_CODE_SIZE)
    case PinCodeRequestNegativeReply(a) => a
    case AuthenticationRequested(h) => LE16(h)
    case RemoteNameRequest(a, psrm) => a + [psrm, 0] + LE16(CLOCK_OFFSET_INVALID)
    case ReadRemoteSupportedFeatures(h) => LE16(h)
    case ReadRemoteVersionInformation(h) => LE16(h)
    case HoldMode(h, mx, mn) => LE16(h) + LE16(mx) + LE16(mn)
    case SniffMode(h, mx, mn, at, to) => LE16(h) + LE16(mx) + LE16(mn) + LE16(at) + LE16(to)
    case ExitSniffMode(h) => LE16(h)
    case ParkMode(h, mx, mn) => LE16(h) + LE16(mx) + LE16(mn)
    case ExitParkMode(h) => LE16(h)
  }

  /**
   * `sizeof(command) - sizeof(header)`, summed from the field widths of each
   * packed command class: an independent account of the parameter length.
   */
  function ParamSize(c: Command): nat
  {
    match c
    case Reset => 0
    case ReadBDAddr => 0
    case ReadStoredLinkKey(_) => 6 + 1
    case WriteStoredLinkKey(_, _) => 1 + 6 + 16
    case WriteLocalName(_) => 248
    case WriteScanEnable(_) => 1
    case WriteClassOfDevice(_) => 3
    case Vendor(_, d) => |d|
    case Inquiry(_) => 3 + 1 + 1
    case CreateConnection(_, _) => 6 + 2 + 1 + 1 + 2 + 1
    case Disconnect(_, _) => 2 + 1
    case AcceptConnectionRequest(_, _) => 6 + 1
    case RejectConnectionRequest(_, _) => 6 + 1
    case LinkKeyRequestReply(_, _) => 6 + 16
    case LinkKeyRequestNegativeReply(_) => 6
    case PinCodeRequestReply(_, _) => 6 + 1 + 16
    case PinCodeRequestNegativeReply(_) => 6
    case AuthenticationRequested(_) => 2
    case RemoteNameRequest(_, _) => 6 + 1 + 1 + 2
    case ReadRemoteSupportedFeatures(_) => 2
    case ReadRemoteVersionInformation(_) => 2
    case HoldMode(_, _, _) => 2 + 2 + 2
    case SniffMode(_, _, _, _, _) => 2 + 2 + 2 + 2 + 2
    case ExitSniffMode(_) => 2
    case ParkMode(_, _, _) => 2 + 2 + 2
    case ExitParkMode(_) => 2
  }

  /** Every parameter block has exactly the size of its packed layout and fits the length byte. */
  lemma ParamsSize(c: Command)
    requires WellFormed(c)
    ensures |Params(c)| == ParamSize(c) <= 0xFF
  {
  }

  /** The frame handed to the HCI layer: header, then parameters. */
  function Encode(c: Command): (f: Bytes)
    requires WellFormed(c)
    ensures |f| == HEADER_SIZE + ParamSize(c) <= MAX_HCI_COMMAND_SIZE
    ensures ReadLE16(f, 0) == OpCodeOf(c) && f[2] == ParamSize(c)
    ensures f[HEADER_SIZE..] == Params(c)
  {
    ParamsSize(c);
    LE16(OpCodeOf(c)) + [|Params(c)|] + Params(c)
  }

  function Field(p: Bytes, at: nat, n: nat): Bytes
    requires at + n <= |p|
  {
    p[at..at + n]
  }

  /** Rebuilds a command from its parameter block; `None` for a block no constructor yields. */
  function DecodeParams(op: u16, p: Bytes): Option<Command>
  {
    var ogf := op / 0x400;
    var ocf := op % 0x400;
    if ogf == OGF_VENDOR then Some(Vendor(op, p))
    else if ogf == OGF_LINK_CONTROL then DecodeLinkControl(ocf, p)
    else if ogf == OGF_LINK_POLICY then DecodeLinkPolicy(ocf, p)
    else if ogf == OGF_HCI_CONTROL_BASEBAND then DecodeBaseband(ocf, p)
    else if ogf == OGF_INFORMATIONAL && ocf == 0x009 && |p| == 0 then Some(ReadBDAddr)
    else None
  }

  function DecodeBaseband(ocf: nat, p: Bytes): Option<Command>
  {
    if ocf == 0x003 then (if |p| == 0 then Some(Reset) else None)
    else if ocf == 0x00D then
      (if |p| == 7 && p[6] == RETURN_LINK_KEY_FOR_SPECIFIED_BD_ADDR
       then Some(ReadStoredLinkKey(p[..6])) else None)
    else if ocf == 0x011 then
      (if |p| == 23 && p[0] == 1 then Some(WriteStoredLinkKey(Field(p, 1, 6), p[7..])) else None)
    else if ocf == 0x013 then
      (if |p| == NAME_SIZE then Some(WriteLocalName(p)) else None)
    else if ocf == 0x01A then
      (if |p| == 1 then Some(WriteScanEnable(p[0])) else None)
    else if ocf == 0x024 then
      (if |p| == 3 then Some(WriteClassOfDevice(DeviceClass.Unpack(p))) else None)
    else None
  }

  function DecodeLinkControl(ocf: nat, p: Bytes): Option<Command>
  {
    if ocf == 0x001 then
      (if |p| == 5 && p[..3] == INQUIRY_LAP_GIAC && p[4] == INQUIRY_NUM_RESPONSES_UNLIMITED
       then Some(Inquiry(p[3])) else None)
    else if ocf == 0x005 then
      (if |p| == 13 && ReadLE16(p, 6) == PACKET_TYPE_DM1 && p[9] == MANDATORY_PAGE_SCAN_MODE
          && ReadLE16(p, 10) == CLOCK_OFFSET_INVALID && p[12] == DISALLOW_ROLE_SWITCH
       then Some(CreateConnection(p[..6], p[8])) else None)
    else if ocf == 0x006 then
      (if |p| == 3 then Some(Disconnect(ReadLE16(p, 0), p[2])) else None)
    else if ocf == 0x009 then
      (if |p| == 7 then Some(AcceptConnectionRequest(p[..6], p[6])) else None)
    else if ocf == 0x00A then
      (if |p| == 7 then Some(RejectConnectionRequest(p[..6], p[6])) else None)
    else if ocf == 0x00B then
      (if |p| == 22 then Some(LinkKeyRequestReply(p[..6], p[6..])) else None)
    else if ocf == 0x00C then
      (if |p| == 6 then Some(LinkKeyRequestNegativeReply(p)) else None)
    else if ocf == 0x00D then
      (if |p| == 23 && p[6] <= PIN_CODE_SIZE
          && (forall i :: 7 + p[6] <= i < 23 ==> p[i] == 0)
       then Some(PinCodeRequestReply(p[..6], Field(p, 7, p[6]))) else None)
    else if ocf == 0x00E then
      (if |p| == 6 then Some(PinCodeRequestNegativeReply(p)) else None)
    else if ocf == 0x011 then
      (if |p| == 2 then Some(AuthenticationRequested(ReadLE16(p, 0))) else None)
    else if ocf == 0x019 then
      (if |p| == 10 && p[7] == 0 && ReadLE16(p, 8) == CLOCK_OFFSET_INVALID
       then Some(RemoteNameRequest(p[..6], p[6])) else None)
    else if ocf == 0x01B then
      (if |p| == 2 then Some(ReadRemoteSupportedFeatures(ReadLE16(p, 0))) else None)
    else if ocf == 0x01D then
      (if |p| == 2 then Some(ReadRemoteVersionInformation(ReadLE16(p, 0))) else None)
    else None
  }

  function DecodeLinkPolicy(ocf: nat, p: Bytes): Option<Command>
  {
    if ocf == 0x001 then
      (if |p| == 6 then Some(HoldMode(ReadLE16(p, 0), ReadLE16(p, 2), ReadLE16(p, 4))) else None)
    else if ocf == 0x003 then
      (if |p| == 10
       then Some(SniffMode(ReadLE16(p, 0), ReadLE16(p, 2), ReadLE16(p, 4), ReadLE16(p, 6), ReadLE16(p, 8)))
       else None)
    else if ocf == 0x004 then
      (if |p| == 2 then Some(ExitSniffMode(ReadLE16(p, 0))) else None)
    else if ocf == 0x005 then
      (if |p| == 6 then Some(ParkMode(ReadLE16(p, 0), ReadLE16(p, 2), ReadLE16(p, 4))) else None)
    else if ocf == 0x006 then
      (if |p| == 2 then Some(ExitParkMode(ReadLE16(p, 0))) else None)
    else None
  }

  function Decode(f: Bytes): Option<Command>
  {
    if |f| < HEADER_SIZE || f[2] != |f| - HEADER_SIZE then None
    else DecodeParams(ReadLE16(f, 0), f[HEADER_SIZE..])
  }

  /** Three of the opcodes as the Bluetooth Core Specification lists them. */
  lemma OpCodeValues()
    ensures OP_INQUIRY == 0x0401 && OP_RESET == 0x0C03 && OP_LAUNCH_RAM == 0xFC4E
  {
  }

  lemma LE16Inverse(v: u16)
    ensures ReadLE16(LE16(v), 0) == v
  {
  }

  /**
   * Decoding an encoded command gives back that command, so no two commands
   * share a frame. A vendor command is read back as one when its opcode lies
   * in the vendor group.
   */
  lemma DecodeEncode(c: Command)
    requires WellFormed(c)
    requires c.Vendor? ==> c.op / 0x400 == OGF_VENDOR
    ensures Decode(Encode(c)) == Some(c)
  {
    var f := Encode(c);
    var op := OpCodeOf(c);
    var p := Params(c);
    var ocf: nat := op as int % 0x400;
    assert Decode(f) == DecodeParams(op, p);
    if c.Reset? || c.ReadStoredLinkKey? || c.WriteStoredLinkKey? || c.WriteLocalName?
      || c.WriteScanEnable? || c.WriteClassOfDevice? {
      DecodeBasebandParams(c);
      assert DecodeParams(op, p) == DecodeBaseband(ocf, p);
    } else if c.HoldMode? || c.SniffMode? || c.ExitSniffMode? || c.ParkMode? || c.ExitParkMode? {
      DecodeLinkPolicyParams(c);
      assert DecodeParams(op, p) == DecodeLinkPolicy(ocf, p);
    } else if c.ReadBDAddr? {
      assert op == OP_READ_BD_ADDR;
    } else if c.Vendor? {
    } else {
      DecodeLinkControlParams(c);
      assert DecodeParams(op, p) == DecodeLinkControl(ocf, p);
    }
  }

  lemma DecodeBasebandParams(c: Command)
    requires WellFormed(c)
    requires c.Reset? || c.ReadStoredLinkKey? || c.WriteStoredLinkKey? || c.WriteLocalName?
      || c.WriteScanEnable? || c.WriteClassOfDevice?
    ensures OpCodeOf(c) / 0x400 == OGF_HCI_CONTROL_BASEBAND
    ensures DecodeBaseband(OpCodeOf(c) % 0x400, Params(c)) == Some(c)
  {
    var p := Params(c);
    match c
    case WriteStoredLinkKey(a, k) =>
      assert Field(p, 1, 6) == a && p[7..] == k;
    case WriteClassOfDevice(cod) =>
      DeviceClass.UnpackPack(cod);
    case _ =>
  }

  lemma ReadLE16Of(p: Bytes, at: nat, v: u16)
    requires at + 2 <= |p| && p[at..at + 2] == LE16(v)
    ensures ReadLE16(p, at) == v
  {
    assert p[at] == LE16(v)[0] && p[at + 1] == LE16(v)[1];
  }

  /** A run of 16-bit fields reads back field by field. */
  lemma ReadLE16Fields(a: u16, b: u16, rest: Bytes)
    ensures ReadLE16(LE16(a) + LE16(b) + rest, 0) == a
    ensures ReadLE16(LE16(a) + LE16(b) + rest, 2) == b
  {
    var p := LE16(a) + LE16(b) + rest;
    ReadLE16Of(p, 0, a);
    assert p[2..4] == LE16(b);
    ReadLE16Of(p, 2, b);
  }

  lemma DecodeLinkPolicyParams(c: Command)
    requires WellFormed(c)
    requires c.HoldMode? || c.SniffMode? || c.ExitSniffMode? || c.ParkMode? || c.ExitParkMode?
    ensures OpCodeOf(c) / 0x400 == OGF_LINK_POLICY
    ensures DecodeLinkPolicy(OpCodeOf(c) % 0x400, Params(c)) == Some(c)
  {
    match c
    case HoldMode(h, mx, mn) => DecodeIntervals(c);
    case SniffMode(h, mx, mn, at, to) => DecodeSniffMode(h, mx, mn, at, to);
    case ExitSniffMode(h) => DecodeExit(c);
    case ParkMode(h, mx, mn) => DecodeIntervals(c);
    case ExitParkMode(h) => DecodeExit(c);
  }

  lemma DecodeIntervals(c: Command)
    requires WellFormed(c) && (c.HoldMode? || c.ParkMode?)
    ensures OpCodeOf(c) / 0x400 == OGF_LINK_POLICY
    ensures DecodeLinkPolicy(OpCodeOf(c) % 0x400, Params(c)) == Some(c)
  {
    var p := LE16(c.handle) + LE16(c.maxInterval) + LE16(c.minInterval);
    assert Params(c) == p;
    ReadThreeFields(c.handle, c.maxInterval, c.minInterval);
    if c.HoldMode? {
      assert OpCodeOf(c) == OP_HOLD_MODE;
      assert DecodeLinkPolicy(0x001, p) == Some(HoldMode(c.handle, c.maxInterval, c.minInterval));
    } else {
      assert OpCodeOf(c) == OP_PARK_MODE;
      assert DecodeLinkPolicy(0x005, p) == Some(ParkMode(c.handle, c.maxInterval, c.minInterval));
    }
  }

  lemma DecodeExit(c: Command)
    requires WellFormed(c) && (c.ExitSniffMode? || c.ExitParkMode?)
    ensures OpCodeOf(c) / 0x400 == OGF_LINK_POLICY
    ensures DecodeLinkPolicy(OpCodeOf(c) % 0x400, Params(c)) == Some(c)
  {
    var p := LE16(c.handle);
    assert Params(c) == p;
    LE16Inverse(c.handle);
    if c.ExitSniffMode? {
      assert OpCodeOf(c) == OP_EXIT_SNIFF_MODE;
      assert DecodeLinkPolicy(0x004, p) == Some(ExitSniffMode(c.handle));
    } else {
      assert OpCodeOf(c) == OP_EXIT_PARK_MODE;
      assert DecodeLinkPolicy(0x006, p) == Some(ExitParkMode(c.handle));
    }
  }

  lemma ReadThreeFields(a: u16, b: u16, c: u16)
    ensures var p := LE16(a) + LE16(b) + LE16(c);
      |p| == 6 && ReadLE16(p, 0) == a && ReadLE16(p, 2) == b && ReadLE16(p, 4) == c
  {
    var p := LE16(a) + LE16(b) + LE16(c);
    ReadLE16Fields(a, b, LE16(c));
    assert p[4..6] == LE16(c);
    ReadLE16Of(p, 4, c);
  }

  lemma ReadFiveFields(a: u16, b: u16, c: u16, d: u16, e: u16)
    ensures var p := LE16(a) + LE16(b) + LE16(c) + LE16(d) + LE16(e);
      |p| == 10 && ReadLE16(p, 0) == a && ReadLE16(p, 2) == b && ReadLE16(p, 4) == c
      && ReadLE16(p, 6) == d && ReadLE16(p, 8) == e
  {
    var p := LE16(a) + LE16(b) + LE16(c) + LE16(d) + LE16(e);
    ReadLE16Fields(a, b, LE16(c) + LE16(d) + LE16(e));
    assert p == LE16(a) + LE16(b) + (LE16(c) + LE16(d) + LE16(e));
    assert p[4..6] == LE16(c);
    ReadLE16Of(p, 4, c);
    assert p[6..8] == LE16(d);
    ReadLE16Of(p, 6, d);
    assert p[8..10] == LE16(e);
    ReadLE16Of(p, 8, e);
  }

  lemma DecodeSniffMode(h: u16, mx: u16, mn: u16, at: u16, to: u16)
    ensures OpCodeOf(SniffMode(h, mx, mn, at, to)) / 0x400 == OGF_LINK_POLICY
    ensures DecodeLinkPolicy(OpCodeOf(SniffMode(h, mx, mn, at, to)) % 0x400, Params(SniffMode(h, mx, mn, at, to)))
      == Some(SniffMode(h, mx, mn, at, to))
  {
    var c := SniffMode(h, mx, mn, at, to);
    var p := LE16(h) + LE16(mx) + LE16(mn) + LE16(at) + LE16(to);
    assert Params(c) == p;
    assert OpCodeOf(c) == OP_SNIFF_MODE;
    ReadFiveFields(h, mx, mn, at, to);
    assert DecodeLinkPolicy(0x003, p) == Some(c);
  }

  lemma DecodeLinkControlParams(c: Command)
    requires WellFormed(c)
    requires !(c.Reset? || c.ReadStoredLinkKey? || c.WriteStoredLinkKey? || c.WriteLocalName?
      || c.WriteScanEnable? || c.WriteClassOfDevice? || c.ReadBDAddr? || c.Vendor?)
    requires !(c.HoldMode? || c.SniffMode? || c.ExitSniffMode? || c.ParkMode? || c.ExitParkMode?)
    ensures OpCodeOf(c) / 0x400 == OGF_LINK_CONTROL
    ensures DecodeLinkControl(OpCodeOf(c) % 0x400, Params(c)) == Some(c)
  {
    if c.Disconnect? || c.AuthenticationRequested? || c.ReadRemoteSupportedFeatures?
      || c.ReadRemoteVersionInformation? {
      DecodeHandleParams(c);
    } else if c.CreateConnection? || c.PinCodeRequestReply? || c.RemoteNameRequest? {
      DecodeLongParams(c);
    } else {
      DecodeAddressParams(c);
    }
  }

  /** The commands whose parameters start with a connection handle. */
  lemma DecodeHandleParams(c: Command)
    requires WellFormed(c)
    requires c.Disconnect? || c.AuthenticationRequested? || c.ReadRemoteSupportedFeatures?
      || c.ReadRemoteVersionInformation?
    ensures OpCodeOf(c) / 0x400 == OGF_LINK_CONTROL
    ensures DecodeLinkControl(OpCodeOf(c) % 0x400, Params(c)) == Some(c)
  {
    var h := c.handle;
    LE16Inverse(h);
    if c.Disconnect? {
      var p := LE16(h) + [c.reason];
      assert Params(c) == p && OpCodeOf(c) == OP_DISCONNECT;
      assert ReadLE16(p, 0) == h;
      assert DecodeLinkControl(0x006, p) == Some(Disconnect(h, c.reason));
    } else {
      var p := LE16(h);
      assert Params(c) == p;
      if c.AuthenticationRequested? {
        assert OpCodeOf(c) == OP_AUTHENTICATION_REQUESTED;
        assert DecodeLinkControl(0x011, p) == Some(AuthenticationRequested(h));
      } else if c.ReadRemoteSupportedFeatures? {
        assert OpCodeOf(c) == OP_READ_REMOTE_SUPPORTED_FEATURES;
        assert DecodeLinkControl(0x01B, p) == Some(ReadRemoteSupportedFeatures(h));
      } else {
        assert OpCodeOf(c) == OP_READ_REMOTE_VERSION_INFORMATION;
        assert DecodeLinkControl(0x01D, p) == Some(ReadRemoteVersionInformation(h));
      }
    }
  }

  /** The commands made of an address and fixed fields. */
  lemma DecodeLongParams(c: Command)
    requires WellFormed(c) && (c.CreateConnection? || c.PinCodeRequestReply? || c.RemoteNameRequest?)
    ensures OpCodeOf(c) / 0x400 == OGF_LINK_CONTROL
    ensures DecodeLinkControl(OpCodeOf(c) % 0x400, Params(c)) == Some(c)
  {
    var p := Params(c);
    match c
    case CreateConnection(a, psrm) =>
      assert p[..6] == a;
      assert ReadLE16(p, 6) == PACKET_TYPE_DM1;
      assert ReadLE16(p, 10) == CLOCK_OFFSET_INVALID;
    case PinCodeRequestReply(a, pin) =>
      assert p[..6] == a;
      assert Field(p, 7, p[6]) == pin;
    case RemoteNameRequest(a, psrm) =>
      assert p[..6] == a;
      assert ReadLE16(p, 8) == CLOCK_OFFSET_INVALID;
  }

  /** The remaining link control commands: an address, maybe a key or a byte. */
  lemma DecodeAddressParams(c: Command)
    requires WellFormed(c)
    requires c.Inquiry? || c.AcceptConnectionRequest? || c.RejectConnectionRequest? || c.LinkKeyRequestReply?
      || c.LinkKeyRequestNegativeReply? || c.PinCodeRequestNegativeReply?
    ensures OpCodeOf(c) / 0x400 == OGF_LINK_CONTROL
    ensures DecodeLinkControl(OpCodeOf(c) % 0x400, Params(c)) == Some(c)
  {
    var p := Params(c);
    match c
    case Inquiry(_) =>
    case AcceptConnectionRequest(a, _) =>
      assert p[..6] == a;
    case RejectConnectionRequest(a, _) =>
      assert p[..6] == a;
    case LinkKeyRequestReply(a, k) =>
      assert p[..6] == a && p[6..] == k;
    case LinkKeyRequestNegativeReply(_) =>
    case PinCodeRequestNegativeReply(_) =>
  }

  /**
   * `INQUIRY_LENGTH(secs)`: seconds to units of 1.28 s, rounded to nearest.
   * For the accepted 1..61 seconds the result lies in the controller's
   * range 0x01..0x30 and is within half a unit of the exact quotient.
   */
  function InquiryLength(secs: nat): (r: nat)
    requires 1 <= secs <= 61
    ensures 0x01 <= r <= 0x30
    ensures -64 < 128 * r - 100 * secs <= 64
  {
    (secs * 100 + 64) / 128
  }

  /**
   * `CBTHCIBcmVendorCommand`: a vendor command whose parameters are the next
   * `n` bytes of the firmware blob, copied one by one from `offset`.
   */
  method VendorCommand(op: u16, n: byte, blob: Bytes, offset: nat) returns (frame: Bytes, newOffset: nat)
    requires offset + n <= |blob|
    ensures frame == Encode(Vendor(op, blob[offset..offset + n]))
    ensures newOffset == offset + n
  {
    var data := new byte[n];
    var at := offset;
    var i := 0;
    while i < n
      invariant 0 <= i <= n && at == offset + i
      invariant data[..i] == blob[offset..at]
    {
      data[i] := blob[at];
      at := at + 1;
      i := i + 1;
    }
    frame := LE16(op) + [n] + data[..];
    newOffset := at;
  }
}

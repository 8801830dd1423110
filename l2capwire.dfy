// L2CAP wire formats (Bluetooth Core Vol 3 Part A, sections 3, 4 and 5) as
// include/bluetooth/btl2cap.h lays them out packed and little-endian: the
// basic frame header, the signalling commands, the configuration options
// and the flow specification; and the two walks the stack makes over them,
// the one over the commands batched in a signalling packet and the one
// over a configuration option list.
module L2capWire {
  import opened Bytes

  const MAX_PSM_SLOT := 40
  const MAX_OPTION_LEN := 50
  /** Size of a signalling packet's command area and of the inbound event buffer. */
  const MIN_SIG_MTU_LEN := 48
  const MIN_CNL_MTU_LEN := 670

  // Reserved channel identifiers (Bluetooth Core Specification, Vol 3 Part A, section 2.1).
  const CID_NULL := 0x0000
  const CID_SIGNALLING := 0x0001
  const CID_CONNECTIONLESS := 0x0002
  const CID_DYNAMIC := 0x0040

  /** Basic frame header: u16 Length, u16 ChannelID. */
  const PACKET_HEADER_SIZE := 4
  /** Signalling command header: Code, Identifier, u16 Length. */
  const COMMAND_HEADER_SIZE := 4

  const OPTION_MTU := 0x01
  const OPTION_FLUSH_TIMEOUT := 0x02
  const OPTION_QOS := 0x03
  const OPTION_MTU_LEN := 0x02
  const OPTION_FLUSH_TIMEOUT_LEN := 0x02
  const OPTION_QOS_LEN := 0x16

  const SERVICE_TYPE_NO_TRAFFIC := 0x00
  const SERVICE_TYPE_BEST_EFFORT := 0x01
  const SERVICE_TYPE_GUARANTEED := 0x02

  const SIG_RESERVED := 0x00
  const SIG_COMMAND_REJECT := 0x01
  const SIG_CONNECTION_REQUEST := 0x02
  const SIG_CONNECTION_RESPONSE := 0x03
  const SIG_CONFIGURATION_REQUEST := 0x04
  const SIG_CONFIGURE_RESPONSE := 0x05
  const SIG_DISCONNECTION_REQUEST := 0x06
  const SIG_DISCONNECTION_RESPONSE := 0x07
  const SIG_ECHO_REQUEST := 0x08
  const SIG_ECHO_RESPONSE := 0x09
  const SIG_INFORMATION_REQUEST := 0x0A
  const SIG_INFORMATION_RESPONSE := 0x0B
  /** The size of the handler table, one short of the highest code. */
  const SIG_NUM_COMMANDS := 0x0B

  const COMMAND_NOT_UNDERSTOOD := 0x0000
  const SIGNALLING_MTU_EXCEEDED := 0x0001
  const INVALID_CID_IN_REQUEST := 0x0002

  const RESULT_CONNECTION_SUCCESSFUL := 0x0000
  const RESULT_CONNECTION_PENDING := 0x0001
  const RESULT_PSM_NOT_SUPPORTED := 0x0002
  const RESULT_SECURITY_BLOCK := 0x0003
  const RESULT_CONNECTION_TIMEOUT := 0xEEEE
  const STATUS_NO_FURTHER_INFORMATION := 0x0000
  const RESULT_RESPONSE_SUCCESSFULLY_SENT := 0x0000
  const RESULT_FAILURE_TO_MATCH := 0x0001
  const RESULT_SUCCESS := 0x0000
  const RESULT_UNACCEPTABLE_PARAMETERS := 0x0001
  const RESULT_REJECTED := 0x0002
  const RESULT_UNKNOWN_OPTION := 0x0003
  const RESULT_DISCONNECTION_SUCCESSFUL := 0x0000
  const RESULT_DISCONNECTION_TIMEOUT_OCCURRED := 0xEEEE
  const RESULT_DISCONNECTION_FAILURE := 0x0001

  const CONNECTIONLESS_MTU := 0x0001

  // ---------------------------------------------------------------------
  // Basic frames

  /** A B-frame: payload length, channel, then the payload. */
  function Packet(cid: u16, payload: Bytes): (b: Bytes)
    requires |payload| < 0x1_0000
    ensures |b| == PACKET_HEADER_SIZE + |payload|
    ensures ReadLE16(b, 0) == |payload| && ReadLE16(b, 2) == cid && b[PACKET_HEADER_SIZE..] == payload
  {
    LE16(|payload|) + LE16(cid) + payload
  }

  // ---------------------------------------------------------------------
  // Flow specification (Bluetooth Core Specification, Vol 3 Part A, section 5.3): Flags, ServiceType, then five u32.

  const FLOW_SPEC_SIZE := 22

  datatype FlowSpec = FlowSpec(flags: byte, serviceType: byte, tokenRate: u32,
                               tokenBucketSize: u32, peakBandwidth: u32,
                               latency: u32, delayVariation: u32)

  function EncodeFlow(f: FlowSpec): (b: Bytes)
    ensures |b| == FLOW_SPEC_SIZE == 1 + 1 + 5 * 4
    ensures b[0] == f.flags && b[1] == f.serviceType
    ensures b[2..6] == LE32(f.tokenRate) && b[6..10] == LE32(f.tokenBucketSize)
    ensures b[10..14] == LE32(f.peakBandwidth) && b[14..18] == LE32(f.latency)
    ensures b[18..22] == LE32(f.delayVariation)
  {
    var b := [f.flags, f.serviceType] + LE32(f.tokenRate) + LE32(f.tokenBucketSize)
      + LE32(f.peakBandwidth) + LE32(f.latency) + LE32(f.delayVariation);
    assert b[2..6] == LE32(f.tokenRate);
    assert b[6..10] == LE32(f.tokenBucketSize);
    assert b[10..14] == LE32(f.peakBandwidth);
    assert b[14..18] == LE32(f.latency);
    assert b[18..22] == LE32(f.delayVariation);
    b
  }

  /** The flow spec a `TBTL2CAPFlowSpec *` into a buffer at `at` reads. */
  function DecodeFlow(s: Bytes, at: nat): FlowSpec
    requires at + FLOW_SPEC_SIZE <= |s|
  {
    FlowSpec(s[at], s[at + 1], ReadLE32(s, at + 2), ReadLE32(s, at + 6),
             ReadLE32(s, at + 10), ReadLE32(s, at + 14), ReadLE32(s, at + 18))
  }

  lemma ReadLE32Of(s: Bytes, at: nat, v: u32)
    requires at + 4 <= |s| && s[at..at + 4] == LE32(v)
    ensures ReadLE32(s, at) == v
  {
    var l := LE32(v);
    assert s[at] == l[0] && s[at + 1] == l[1] && s[at + 2] == l[2] && s[at + 3] == l[3];
  }

  /** Any flow spec read back from where it was written, whatever surrounds it. */
  lemma DecodeEncodeFlow(f: FlowSpec, pre: Bytes, post: Bytes)
    ensures DecodeFlow(pre + EncodeFlow(f) + post, |pre|) == f
  {
    var s := pre + EncodeFlow(f) + post;
    var e := EncodeFlow(f);
    var at := |pre|;
    assert s[at..at + FLOW_SPEC_SIZE] == e;
    assert s[at] == e[0] && s[at + 1] == e[1];
    assert s[at + 2..at + 6] == e[2..6];
    assert s[at + 6..at + 10] == e[6..10];
    assert s[at + 10..at + 14] == e[10..14];
    assert s[at + 14..at + 18] == e[14..18];
    assert s[at + 18..at + 22] == e[18..22];
    ReadLE32Of(s, at + 2, f.tokenRate);
    ReadLE32Of(s, at + 6, f.tokenBucketSize);
    ReadLE32Of(s, at + 10, f.peakBandwidth);
    ReadLE32Of(s, at + 14, f.latency);
    ReadLE32Of(s, at + 18, f.delayVariation);
  }

  // ---------------------------------------------------------------------
  // Configuration options (Bluetooth Core Specification, Vol 3 Part A, section 5): a header byte holding the 7-bit
  // type in bits 0-6 and the hint in bit 7, a length byte, then the value.

  function OptionType(b: byte): (t: nat)
    ensures t < 0x80 && t == b - 0x80 * (b / 0x80)
  {
    b % 0x80
  }

  predicate KnownType(t: nat)
  {
    t == OPTION_MTU || t == OPTION_FLUSH_TIMEOUT || t == OPTION_QOS
  }

  /** `sizeof` the option class of type `t`: what the walkers skip it by. */
  function OptionSize(t: nat): (n: nat)
    requires KnownType(t)
  {
    if t == OPTION_QOS then 2 + OPTION_QOS_LEN else 2 + OPTION_MTU_LEN
  }

  /** An option of type t, hint 0, declared length `|value|`. */
  function EncodeOption(t: nat, value: Bytes): Bytes
    requires t < 0x80 && |value| < 0x100
  {
    [t, |value|] + value
  }

  function InsertMTU(mtu: u16): (o: Bytes)
    ensures |o| == OptionSize(OPTION_MTU) == 2 + OPTION_MTU_LEN
    ensures OptionType(o[0]) == OPTION_MTU && o[0] / 0x80 == 0 && o[1] == OPTION_MTU_LEN
    ensures ReadLE16(o, 2) == mtu
  {
    EncodeOption(OPTION_MTU, LE16(mtu))
  }

  function InsertFlushTO(flushTO: u16): (o: Bytes)
    ensures |o| == OptionSize(OPTION_FLUSH_TIMEOUT) == 2 + OPTION_FLUSH_TIMEOUT_LEN
    ensures OptionType(o[0]) == OPTION_FLUSH_TIMEOUT && o[0] / 0x80 == 0
    ensures o[1] == OPTION_FLUSH_TIMEOUT_LEN
    ensures ReadLE16(o, 2) == flushTO
  {
    EncodeOption(OPTION_FLUSH_TIMEOUT, LE16(flushTO))
  }

  function InsertFlow(flow: FlowSpec): (o: Bytes)
    ensures |o| == OptionSize(OPTION_QOS) == 2 + OPTION_QOS_LEN
    ensures OptionType(o[0]) == OPTION_QOS && o[0] / 0x80 == 0 && o[1] == OPTION_QOS_LEN
    ensures DecodeFlow(o, 2) == flow
  {
    DecodeEncodeFlow(flow, [OPTION_QOS, OPTION_QOS_LEN], []);
    assert EncodeOption(OPTION_QOS, EncodeFlow(flow)) == [OPTION_QOS, OPTION_QOS_LEN] + EncodeFlow(flow) + [];
    EncodeOption(OPTION_QOS, EncodeFlow(flow))
  }

  /**
   * The option list Configure and ConfigureResponse build: an MTU when it
   * is non-zero, then a flush timeout when it is non-zero, then a QoS
   * option when a flow is given. Even all three fit the 32-byte local
   * array and the 50-byte option field of the command.
   */
  function Options(mtu: u16, flushTO: u16, flow: Option<FlowSpec>): (o: Bytes)
    ensures |o| <= 4 + 4 + 24 == 32 < MAX_OPTION_LEN
  {
    (if mtu != 0 then InsertMTU(mtu) else [])
      + (if flushTO != 0 then InsertFlushTO(flushTO) else [])
      + (if flow.Some? then InsertFlow(flow.value) else [])
  }

  /**
   * The loop looking for type `t` stays inside `s` and stops: every option
   * it passes has a known type and fits, and the one it stops at fits.
   * (With an unknown type the loop has no case to take and never ends.)
   */
  predicate Walks(s: Bytes, t: nat)
    requires KnownType(t)
    decreases |s|
  {
    |s| == 0
    || (var k := OptionType(s[0]);
        if k == t then OptionSize(t) <= |s|
        else KnownType(k) && OptionSize(k) <= |s| && Walks(s[OptionSize(k)..], t))
  }

  /** An offset found in a suffix, seen from `d` bytes further back. */
  function Shifted(k: Option<nat>, d: nat): Option<nat>
  {
    match k
    case None => None
    case Some(j) => Some(d + j)
  }

  /** Offset of the first option of type `t`, the others skipped by their fixed size. */
  function Find(s: Bytes, t: nat): (k: Option<nat>)
    requires KnownType(t) && Walks(s, t)
    ensures k.Some? ==> k.value + OptionSize(t) <= |s| && OptionType(s[k.value]) == t
    decreases |s|
  {
    if |s| == 0 then None
    else if OptionType(s[0]) == t then Some(0)
    else
      var n := OptionSize(OptionType(s[0]));
      Shifted(Find(s[n..], t), n)
  }

  /** The step the walk takes past an option of another type. */
  lemma FindStep(s: Bytes, p: nat, t: nat)
    requires KnownType(t) && p < |s| && Walks(s[p..], t) && OptionType(s[p]) != t
    ensures KnownType(OptionType(s[p])) && p + OptionSize(OptionType(s[p])) <= |s|
    ensures var q := p + OptionSize(OptionType(s[p]));
      Walks(s[q..], t) && Find(s[p..], t) == Shifted(Find(s[q..], t), q - p)
  {
    var rest := s[p..];
    assert rest[0] == s[p];
    assert rest[OptionSize(OptionType(s[p]))..] == s[p + OptionSize(OptionType(s[p]))..];
  }

  lemma FindHere(s: Bytes, p: nat, t: nat)
    requires KnownType(t) && p < |s| && Walks(s[p..], t) && OptionType(s[p]) == t
    ensures Find(s[p..], t) == Some(0)
  {
    assert s[p..][0] == s[p];
  }

  lemma ShiftedTwice(k: Option<nat>, d: nat, e: nat)
    ensures Shifted(Shifted(k, d), e) == Shifted(k, d + e)
  {
  }

  /** Stepping over an option of another type keeps the first match, relative to the whole area. */
  lemma ScanStep(s: Bytes, p: nat, t: nat)
    requires KnownType(t) && p < |s| && Walks(s, t) && Walks(s[p..], t) && OptionType(s[p]) != t
    requires Find(s, t) == Shifted(Find(s[p..], t), p)
    ensures KnownType(OptionType(s[p])) && p + OptionSize(OptionType(s[p])) <= |s|
    ensures var q := p + OptionSize(OptionType(s[p]));
      Walks(s[q..], t) && Find(s, t) == Shifted(Find(s[q..], t), q)
  {
    FindStep(s, p, t);
    var size := OptionSize(OptionType(s[p]));
    ShiftedTwice(Find(s[p + size..], t), size, p);
  }

  /**
   * The loop shared by `ExtractMTU`, `ExtractFlushTO` and `ExtractFlow`:
   * it stops at the first option of type `t` and steps over the others by
   * their fixed size, counting the u16 length down to zero.
   */
  method Scan(s: Bytes, t: nat) returns (k: Option<nat>)
    requires KnownType(t) && Walks(s, t) && |s| < 0x1_0000
    ensures k == Find(s, t)
  {
    var p: nat := 0;
    var n: nat := |s|;
    while n != 0
      invariant p + n == |s| && Walks(s[p..], t)
      invariant Find(s, t) == Shifted(Find(s[p..], t), p)
      decreases n
    {
      if OptionType(s[p]) == t {
        FindHere(s, p, t);
        return Some(p);
      }
      ScanStep(s, p, t);
      var size := OptionSize(OptionType(s[p]));
      p, n := p + size, n - size;
    }
    assert s[p..] == [];
    return None;
  }

  /** The first MTU option's value, or 0 when there is none. */
  function ExtractMTU(s: Bytes): (mtu: u16)
    requires Walks(s, OPTION_MTU)
    ensures Find(s, OPTION_MTU).None? ==> mtu == 0
  {
    match Find(s, OPTION_MTU)
    case None => 0
    case Some(k) => ReadLE16(s, k + 2)
  }

  /** The first flush-timeout option's value, or 0 when there is none. */
  function ExtractFlushTO(s: Bytes): (flushTO: u16)
    requires Walks(s, OPTION_FLUSH_TIMEOUT)
    ensures Find(s, OPTION_FLUSH_TIMEOUT).None? ==> flushTO == 0
  {
    match Find(s, OPTION_FLUSH_TIMEOUT)
    case None => 0
    case Some(k) => ReadLE16(s, k + 2)
  }

  /** The first QoS option's flow spec, or None (a null pointer) when there is none. */
  function ExtractFlow(s: Bytes): (flow: Option<FlowSpec>)
    requires Walks(s, OPTION_QOS)
    ensures flow.None? <==> Find(s, OPTION_QOS).None?
  {
    match Find(s, OPTION_QOS)
    case None => None
    case Some(k) => Some(DecodeFlow(s, k + 2))
  }

  /** All three extract loops stop inside `s`. */
  predicate Extractable(s: Bytes)
  {
    Walks(s, OPTION_MTU) && Walks(s, OPTION_FLUSH_TIMEOUT) && Walks(s, OPTION_QOS)
  }

  /** One option of a known type, exactly its fixed size long. */
  predicate SingleOption(o: Bytes)
  {
    |o| >= 2 && KnownType(OptionType(o[0])) && |o| == OptionSize(OptionType(o[0]))
  }

  lemma ReadLE16Shift(o: Bytes, rest: Bytes, k: nat)
    requires k + 2 <= |rest|
    ensures ReadLE16(o + rest, |o| + k) == ReadLE16(rest, k)
  {
    assert (o + rest)[|o| + k] == rest[k] && (o + rest)[|o| + k + 1] == rest[k + 1];
  }

  lemma DecodeFlowShift(o: Bytes, rest: Bytes, k: nat)
    requires k + FLOW_SPEC_SIZE <= |rest|
    ensures DecodeFlow(o + rest, |o| + k) == DecodeFlow(rest, k)
  {
    assert forall j :: k <= j < k + FLOW_SPEC_SIZE ==> (o + rest)[|o| + j] == rest[j];
  }

  /** Any walk steps over a single option of another type in front of the list. */
  lemma SkipFront(o: Bytes, rest: Bytes, t: nat)
    requires KnownType(t) && SingleOption(o) && OptionType(o[0]) != t && Walks(rest, t)
    ensures Walks(o + rest, t) && Find(o + rest, t) == Shifted(Find(rest, t), |o|)
  {
    assert (o + rest)[0] == o[0] && (o + rest)[|o|..] == rest;
  }

  /** An option of another type in front of the list is stepped over by the MTU walk. */
  lemma SkipForMTU(o: Bytes, rest: Bytes)
    requires SingleOption(o) && OptionType(o[0]) != OPTION_MTU && Walks(rest, OPTION_MTU)
    ensures Walks(o + rest, OPTION_MTU) && ExtractMTU(o + rest) == ExtractMTU(rest)
  {
    SkipFront(o, rest, OPTION_MTU);
    match Find(rest, OPTION_MTU) {
      case None =>
      case Some(k) =>
        ReadLE16Shift(o, rest, k + 2);
    }
  }

  /** An option of another type in front of the list is stepped over by the flush-timeout walk. */
  lemma SkipForFlushTO(o: Bytes, rest: Bytes)
    requires SingleOption(o) && OptionType(o[0]) != OPTION_FLUSH_TIMEOUT
    requires Walks(rest, OPTION_FLUSH_TIMEOUT)
    ensures Walks(o + rest, OPTION_FLUSH_TIMEOUT) && ExtractFlushTO(o + rest) == ExtractFlushTO(rest)
  {
    SkipFront(o, rest, OPTION_FLUSH_TIMEOUT);
    match Find(rest, OPTION_FLUSH_TIMEOUT) {
      case None =>
      case Some(k) =>
        ReadLE16Shift(o, rest, k + 2);
    }
  }

  /** An option of another type in front of the list is stepped over by the QoS walk. */
  lemma SkipForFlow(o: Bytes, rest: Bytes)
    requires SingleOption(o) && OptionType(o[0]) != OPTION_QOS && Walks(rest, OPTION_QOS)
    ensures Walks(o + rest, OPTION_QOS) && ExtractFlow(o + rest) == ExtractFlow(rest)
  {
    SkipFront(o, rest, OPTION_QOS);
    match Find(rest, OPTION_QOS) {
      case None =>
      case Some(k) =>
        DecodeFlowShift(o, rest, k + 2);
    }
  }

  /** The QoS option alone: the flow it carries, and neither an MTU nor a flush timeout. */
  lemma FlowAlone(flow: FlowSpec)
    ensures var c := InsertFlow(flow);
      Extractable(c) && ExtractMTU(c) == 0 && ExtractFlushTO(c) == 0 && ExtractFlow(c) == Some(flow)
  {
    var c := InsertFlow(flow);
    assert c + [] == c;
    SkipForMTU(c, []);
    SkipForFlushTO(c, []);
    assert Find(c, OPTION_QOS) == Some(0);
  }

  /** A flush-timeout option in front: found first by its walk, stepped over by the other two. */
  lemma FlushTOFront(flushTO: u16, rest: Bytes)
    requires Extractable(rest)
    ensures var o := InsertFlushTO(flushTO) + rest;
      Extractable(o) && ExtractMTU(o) == ExtractMTU(rest) && ExtractFlushTO(o) == flushTO
      && ExtractFlow(o) == ExtractFlow(rest)
  {
    var b := InsertFlushTO(flushTO);
    SkipForMTU(b, rest);
    SkipForFlow(b, rest);
    assert (b + rest)[2] == b[2] && (b + rest)[3] == b[3];
    assert Find(b + rest, OPTION_FLUSH_TIMEOUT) == Some(0);
  }

  /** An MTU option in front: found first by its walk, stepped over by the other two. */
  lemma MTUFront(mtu: u16, rest: Bytes)
    requires Extractable(rest)
    ensures var o := InsertMTU(mtu) + rest;
      Extractable(o) && ExtractMTU(o) == mtu && ExtractFlushTO(o) == ExtractFlushTO(rest)
      && ExtractFlow(o) == ExtractFlow(rest)
  {
    var a := InsertMTU(mtu);
    SkipForFlushTO(a, rest);
    SkipForFlow(a, rest);
    assert (a + rest)[2] == a[2] && (a + rest)[3] == a[3];
    assert Find(a + rest, OPTION_MTU) == Some(0);
  }

  /**
   * Decoding an option list built by the Insert functions, for any subset
   * of the three options in Configure's order, gives back the values put
   * in: MTU and flush timeout 0 and no flow for the ones left out.
   */
  lemma ExtractOptions(mtu: u16, flushTO: u16, flow: Option<FlowSpec>)
    ensures var o := Options(mtu, flushTO, flow);
      Extractable(o) && ExtractMTU(o) == mtu && ExtractFlushTO(o) == flushTO && ExtractFlow(o) == flow
  {
    var c: Bytes := if flow.Some? then InsertFlow(flow.value) else [];
    if flow.Some? {
      FlowAlone(flow.value);
    }
    assert Extractable(c) && ExtractMTU(c) == 0 && ExtractFlushTO(c) == 0 && ExtractFlow(c) == flow;
    var bc: Bytes := c;
    if flushTO != 0 {
      FlushTOFront(flushTO, c);
      bc := InsertFlushTO(flushTO) + c;
    }
    assert Extractable(bc) && ExtractMTU(bc) == 0 && ExtractFlushTO(bc) == flushTO && ExtractFlow(bc) == flow;
    var o: Bytes := bc;
    if mtu != 0 {
      MTUFront(mtu, bc);
      o := InsertMTU(mtu) + bc;
    }
    assert o == Options(mtu, flushTO, flow);
  }

  // ---------------------------------------------------------------------
  // Signalling commands (Bluetooth Core Specification, Vol 3 Part A, section 4)

  datatype Command =
    | CommandReject(ident: byte, reason: u16, data: Bytes)
    | ConnectionRequest(ident: byte, psm: u16, scid: u16)
    | ConnectionResponse(ident: byte, dcid: u16, scid: u16, result: u16, status: u16)
    | ConfigurationRequest(ident: byte, dcid: u16, flags: u16, options: Bytes)
    | ConfigurationResponse(ident: byte, scid: u16, flags: u16, result: u16, options: Bytes)
    | DisconnectionRequest(ident: byte, dcid: u16, scid: u16)
    | DisconnectionResponse(ident: byte, dcid: u16, scid: u16)
    | EchoRequest(ident: byte, data: Bytes)
    | EchoResponse(ident: byte, data: Bytes)
    | InformationRequest(ident: byte, infoType: u16)
    | InformationResponse(ident: byte, infoType: u16, result: u16, info: u16)

  function Code(c: Command): (code: byte)
    ensures SIG_COMMAND_REJECT <= code <= SIG_INFORMATION_RESPONSE
  {
    match c
    case CommandReject(_, _, _) => SIG_COMMAND_REJECT
    case ConnectionRequest(_, _, _) => SIG_CONNECTION_REQUEST
    case ConnectionResponse(_, _, _, _, _) => SIG_CONNECTION_RESPONSE
    case ConfigurationRequest(_, _, _, _) => SIG_CONFIGURATION_REQUEST
    case ConfigurationResponse(_, _, _, _, _) => SIG_CONFIGURE_RESPONSE
    case DisconnectionRequest(_, _, _) => SIG_DISCONNECTION_REQUEST
    case DisconnectionResponse(_, _, _) => SIG_DISCONNECTION_RESPONSE
    case EchoRequest(_, _) => SIG_ECHO_REQUEST
    case EchoResponse(_, _) => SIG_ECHO_RESPONSE
    case InformationRequest(_, _) => SIG_INFORMATION_REQUEST
    case InformationResponse(_, _, _, _) => SIG_INFORMATION_RESPONSE
  }

  /** The Length the Command Reject constructor picks for a reason. */
  function RejectLength(reason: u16): (n: nat)
    ensures reason == SIGNALLING_MTU_EXCEEDED ==> n == 4
    ensures reason == INVALID_CID_IN_REQUEST ==> n == 6
    ensures reason != SIGNALLING_MTU_EXCEEDED && reason != INVALID_CID_IN_REQUEST ==> n == 2
  {
    match reason
    case 0x0000 => 2
    case 0x0001 => 4
    case 0x0002 => 6
    case _ => 2
  }

  /**
   * The Command Reject constructor: the reason, then the 2 (MTU exceeded)
   * or 4 (invalid CID) data bytes it copies from `data`.
   */
  function Reject(ident: byte, reason: u16, data: Bytes): (c: Command)
    requires |data| >= RejectLength(reason) - 2
    ensures c.CommandReject? && c.ident == ident && c.reason == reason
    ensures 2 + |c.data| == RejectLength(reason) && c.data == data[..|c.data|]
  {
    CommandReject(ident, reason, data[..RejectLength(reason) - 2])
  }

  /** The constructors' limits: option copies into the 50-byte arrays, echo data into 48 bytes. */
  predicate WellFormed(c: Command)
  {
    match c
    case CommandReject(_, reason, data) => 2 + |data| == RejectLength(reason)
    case ConfigurationRequest(_, _, _, options) => |options| <= MAX_OPTION_LEN
    case ConfigurationResponse(_, _, _, _, options) => |options| <= MAX_OPTION_LEN
    case EchoRequest(_, data) => |data| <= MIN_SIG_MTU_LEN
    case EchoResponse(_, data) => |data| <= MIN_SIG_MTU_LEN
    case _ => true
  }

  /** The parameter bytes after the 4-byte command header. */
  function Parameters(c: Command): (p: Bytes)
    requires WellFormed(c)
    ensures |p| <= MAX_OPTION_LEN + 6
  {
    match c
    case CommandReject(_, reason, data) => LE16(reason) + data
    case ConnectionRequest(_, psm, scid) => LE16(psm) + LE16(scid)
    case ConnectionResponse(_, dcid, scid, result, status) =>
      LE16(dcid) + LE16(scid) + LE16(result) + LE16(status)
    case ConfigurationRequest(_, dcid, flags, options) => LE16(dcid) + LE16(flags) + options
    case ConfigurationResponse(_, scid, flags, result, options) =>
      LE16(scid) + LE16(flags) + LE16(result) + options
    case DisconnectionRequest(_, dcid, scid) => LE16(dcid) + LE16(scid)
    case DisconnectionResponse(_, dcid, scid) => LE16(dcid) + LE16(scid)
    case EchoRequest(_, data) => data
    case EchoResponse(_, data) => data
    case InformationRequest(_, infoType) => LE16(infoType)
    case InformationResponse(_, infoType, result, info) =>
      if infoType == CONNECTIONLESS_MTU then LE16(infoType) + LE16(result) + LE16(info)
      else LE16(infoType) + LE16(result)
  }

  /**
   * The Length field each constructor stores: 2/4/6 for a reject by
   * reason, 4 + options for a configuration request, 6 + options for a
   * configuration response, 6 or 4 for an information response.
   */
  function ParamLength(c: Command): (n: nat)
    requires WellFormed(c)
    ensures c.CommandReject? ==> n == RejectLength(c.reason)
    ensures c.ConnectionRequest? || c.DisconnectionRequest? || c.DisconnectionResponse? ==> n == 4
    ensures c.ConnectionResponse? ==> n == 8
    ensures c.ConfigurationRequest? ==> n == |c.options| + 4
    ensures c.ConfigurationResponse? ==> n == |c.options| + 6
    ensures c.EchoRequest? || c.EchoResponse? ==> n == |c.data|
    ensures c.InformationRequest? ==> n == 2
    ensures c.InformationResponse? ==> n == if c.infoType == CONNECTIONLESS_MTU then 6 else 4
  {
    |Parameters(c)|
  }

  /** `GetLength`: the Length field plus the 4-byte command header. */
  function GetLength(c: Command): (n: nat)
    requires WellFormed(c)
    ensures n == ParamLength(c) + COMMAND_HEADER_SIZE
  {
    |Encode(c)|
  }

  function Encode(c: Command): (b: Bytes)
    requires WellFormed(c)
    ensures |b| == COMMAND_HEADER_SIZE + ParamLength(c)
    ensures b[0] == Code(c) && b[1] == c.ident && ReadLE16(b, 2) == ParamLength(c)
  {
    [Code(c), c.ident] + LE16(|Parameters(c)|) + Parameters(c)
  }

  /** Fixed parameter bytes each handled code reads after the header. */
  function FixedSize(code: byte): nat
  {
    match code
    case 0x01 => 2
    case 0x02 => 4
    case 0x03 => 8
    case 0x04 => 4
    case 0x05 => 6
    case 0x06 => 4
    case 0x07 => 4
    case _ => 0
  }

  /** A record as the walk hands it out, holding the fields its handler reads. */
  predicate FieldsPresent(rec: Bytes)
  {
    |rec| >= COMMAND_HEADER_SIZE && |rec| == COMMAND_HEADER_SIZE + ReadLE16(rec, 2)
    && |rec| >= COMMAND_HEADER_SIZE + FixedSize(rec[0])
  }

  /** What the packed command classes read out of a record, for the codes with a handler. */
  function Parse(rec: Bytes): (c: Option<Command>)
    requires FieldsPresent(rec)
    ensures c.Some? <==> SIG_COMMAND_REJECT <= rec[0] <= SIG_DISCONNECTION_RESPONSE
    ensures c.Some? ==> Code(c.value) == rec[0] && c.value.ident == rec[1]
  {
    var id := rec[1];
    match rec[0]
    case 0x01 => Some(CommandReject(id, ReadLE16(rec, 4), rec[6..]))
    case 0x02 => Some(ConnectionRequest(id, ReadLE16(rec, 4), ReadLE16(rec, 6)))
    case 0x03 => Some(ConnectionResponse(id, ReadLE16(rec, 4), ReadLE16(rec, 6),
                                         ReadLE16(rec, 8), ReadLE16(rec, 10)))
    case 0x04 => Some(ConfigurationRequest(id, ReadLE16(rec, 4), ReadLE16(rec, 6), rec[8..]))
    case 0x05 => Some(ConfigurationResponse(id, ReadLE16(rec, 4), ReadLE16(rec, 6),
                                            ReadLE16(rec, 8), rec[10..]))
    case 0x06 => Some(DisconnectionRequest(id, ReadLE16(rec, 4), ReadLE16(rec, 6)))
    case 0x07 => Some(DisconnectionResponse(id, ReadLE16(rec, 4), ReadLE16(rec, 6)))
    case _ => None
  }

  /** The 4-byte header in front of a command's parameters. */
  lemma EncodeSplit(c: Command)
    requires WellFormed(c) && ParamLength(c) >= 2
    ensures var h := [Code(c), c.ident] + LE16(|Parameters(c)|);
      |h| == COMMAND_HEADER_SIZE && Encode(c) == h + Parameters(c)
      && ReadLE16(Encode(c), 4) == ReadLE16(Parameters(c), 0)
  {
    var h := [Code(c), c.ident] + LE16(|Parameters(c)|);
    ReadLE16Shift(h, Parameters(c), 0);
  }

  lemma ParseEncodeLinks(c: Command)
    requires c.ConnectionRequest? || c.DisconnectionRequest? || c.DisconnectionResponse?
    ensures FieldsPresent(Encode(c)) && Parse(Encode(c)) == Some(c)
  {
    EncodeSplit(c);
    var h := [Code(c), c.ident] + LE16(|Parameters(c)|);
    var (x, y) := match c
      case ConnectionRequest(_, psm, scid) => (psm, scid)
      case DisconnectionRequest(_, dcid, scid) => (dcid, scid)
      case DisconnectionResponse(_, dcid, scid) => (dcid, scid);
    assert Parameters(c) == LE16(x) + LE16(y);
    ReadLE16Shift(h + LE16(x), LE16(y), 0);
    assert Encode(c) == h + LE16(x) + LE16(y);
  }

  lemma ParseEncodeConnectionResponse(c: Command)
    requires c.ConnectionResponse?
    ensures FieldsPresent(Encode(c)) && Parse(Encode(c)) == Some(c)
  {
    EncodeSplit(c);
    var h := [Code(c), c.ident] + LE16(|Parameters(c)|);
    var a, b, d := LE16(c.dcid), LE16(c.scid), LE16(c.result);
    ReadLE16Shift(h + a, b + d + LE16(c.status), 0);
    ReadLE16Shift(h + a + b, d + LE16(c.status), 0);
    ReadLE16Shift(h + a + b + d, LE16(c.status), 0);
    assert Encode(c) == h + a + (b + d + LE16(c.status)) == h + a + b + (d + LE16(c.status));
    assert Encode(c) == h + a + b + d + LE16(c.status);
  }

  lemma ParseEncodeReject(c: Command)
    requires c.CommandReject? && WellFormed(c)
    ensures FieldsPresent(Encode(c)) && Parse(Encode(c)) == Some(c)
  {
    EncodeSplit(c);
    var h := [Code(c), c.ident] + LE16(|Parameters(c)|);
    assert Encode(c) == h + LE16(c.reason) + c.data;
    assert Encode(c)[6..] == c.data;
  }

  lemma ParseEncodeConfigurationRequest(c: Command)
    requires c.ConfigurationRequest? && WellFormed(c)
    ensures FieldsPresent(Encode(c)) && Parse(Encode(c)) == Some(c)
    ensures Encode(c)[8..] == c.options && |c.options| == ParamLength(c) - 4
  {
    EncodeSplit(c);
    var h := [Code(c), c.ident] + LE16(|Parameters(c)|);
    ReadLE16Shift(h + LE16(c.dcid), LE16(c.flags) + c.options, 0);
    assert Encode(c) == h + LE16(c.dcid) + (LE16(c.flags) + c.options);
    assert Encode(c)[8..] == c.options;
  }

  lemma ParseEncodeConfigurationResponse(c: Command)
    requires c.ConfigurationResponse? && WellFormed(c)
    ensures FieldsPresent(Encode(c)) && Parse(Encode(c)) == Some(c)
    ensures Encode(c)[10..] == c.options && |c.options| == ParamLength(c) - 6
  {
    EncodeSplit(c);
    var h := [Code(c), c.ident] + LE16(|Parameters(c)|);
    var a, b := LE16(c.scid), LE16(c.flags);
    ReadLE16Shift(h + a, b + LE16(c.result) + c.options, 0);
    ReadLE16Shift(h + a + b, LE16(c.result) + c.options, 0);
    assert Encode(c) == h + a + (b + LE16(c.result) + c.options) == h + a + b + (LE16(c.result) + c.options);
    assert Encode(c)[10..] == c.options;
  }

  /**
   * Every command the layer handles reads back as itself, and the option
   * area a configuration command's getters walk is Length - 4 (request)
   * or Length - 6 (response) bytes: exactly the options its constructor
   * copied in.
   */
  lemma ParseEncode(c: Command)
    requires WellFormed(c) && SIG_COMMAND_REJECT <= Code(c) <= SIG_DISCONNECTION_RESPONSE
    ensures FieldsPresent(Encode(c)) && Parse(Encode(c)) == Some(c)
    ensures c.ConfigurationRequest? ==> Encode(c)[8..] == c.options && |c.options| == ParamLength(c) - 4
    ensures c.ConfigurationResponse? ==> Encode(c)[10..] == c.options && |c.options| == ParamLength(c) - 6
  {
    match c {
      case CommandReject(_, _, _) => ParseEncodeReject(c);
      case ConnectionRequest(_, _, _) => ParseEncodeLinks(c);
      case ConnectionResponse(_, _, _, _, _) => ParseEncodeConnectionResponse(c);
      case ConfigurationRequest(_, _, _, _) => ParseEncodeConfigurationRequest(c);
      case ConfigurationResponse(_, _, _, _, _) => ParseEncodeConfigurationResponse(c);
      case DisconnectionRequest(_, _, _) => ParseEncodeLinks(c);
      case DisconnectionResponse(_, _, _) => ParseEncodeLinks(c);
    }
  }

  // ---------------------------------------------------------------------
  // The walk over the commands batched in one signalling packet

  function RecordSize(area: Bytes): nat
    requires |area| >= COMMAND_HEADER_SIZE
  {
    COMMAND_HEADER_SIZE + ReadLE16(area, 2)
  }

  /** The command records tile the area exactly, each header's Length saying how far the next starts. */
  predicate Framed(area: Bytes)
    decreases |area|
  {
    |area| == 0
    || (|area| >= COMMAND_HEADER_SIZE && RecordSize(area) <= |area| && Framed(area[RecordSize(area)..]))
  }

  /** The records of a framed area, in order, each with its header. */
  function Records(area: Bytes): (rs: seq<Bytes>)
    requires Framed(area)
    decreases |area|
  {
    if |area| == 0 then [] else [area[..RecordSize(area)]] + Records(area[RecordSize(area)..])
  }

  function Flatten(rs: seq<Bytes>): (b: Bytes)
  {
    if |rs| == 0 then [] else rs[0] + Flatten(rs[1..])
  }

  /** Packing records back to back and walking them again gives the same records. */
  lemma {:induction false} RecordsFlatten(rs: seq<Bytes>)
    requires forall i :: 0 <= i < |rs| ==> |rs[i]| >= COMMAND_HEADER_SIZE && |rs[i]| == RecordSize(rs[i])
    ensures Framed(Flatten(rs)) && Records(Flatten(rs)) == rs
  {
    if |rs| > 0 {
      var b := Flatten(rs);
      RecordsFlatten(rs[1..]);
      assert b == rs[0] + Flatten(rs[1..]);
      ReadLE16Shift([], rs[0], 2);
      assert b[..|rs[0]|] == rs[0] && b[|rs[0]|..] == Flatten(rs[1..]);
      assert b[2] == rs[0][2] && b[3] == rs[0][3];
      assert RecordSize(b) == |rs[0]|;
      assert rs == [rs[0]] + rs[1..];
    }
  }

  /**
   * One step of the walk: the record at `p` is record `c` of the area, and
   * the framed rest after it holds the records after that one.
   */
  lemma RecordAt(area: Bytes, p: nat, c: nat)
    requires Framed(area) && p < |area| && Framed(area[p..])
    requires c <= |Records(area)| && Records(area)[c..] == Records(area[p..])
    ensures p + COMMAND_HEADER_SIZE <= |area|
    ensures RecordSize(area[p..]) == COMMAND_HEADER_SIZE + ReadLE16(area, p + 2)
    ensures p + RecordSize(area[p..]) <= |area| && Framed(area[p + RecordSize(area[p..])..])
    ensures c < |Records(area)| && Records(area)[c] == area[p..p + RecordSize(area[p..])]
    ensures Records(area)[c + 1..] == Records(area[p + RecordSize(area[p..])..])
    ensures p + RecordSize(area[p..]) == |area| ==> |Records(area[p..])| == 1
  {
    var rest := area[p..];
    assert rest[2] == area[p + 2] && rest[3] == area[p + 3];
    assert rest[RecordSize(rest)..] == area[p + RecordSize(rest)..];
    assert rest[..RecordSize(rest)] == area[p..p + RecordSize(rest)];
    assert Records(rest) == [area[p..p + RecordSize(rest)]] + Records(area[p + RecordSize(rest)..]);
    assert Records(area)[c + 1..] == Records(rest)[1..];
  }

  /** A value stored into a u8. */
  function Wrap8(x: nat): (r: byte)
    ensures x < 0x100 ==> r == x
  {
    x % 0x100
  }

  /** A value stored into a u16, negative differences wrapping round. */
  function Wrap16(x: int): (r: u16)
    ensures 0 <= x < 0x1_0000 ==> r == x
  {
    x % 0x1_0000
  }

  /**
   * Where the walk stands: at offset `p` with `n` bytes left and `k` steps
   * to go, the records from `p` on are those from index - k on. Once no
   * bytes are left, the walk stopped on the area's last record.
   */
  predicate SkipInv(area: Bytes, index: byte, p: nat, n: u16, k: byte)
  {
    Framed(area) && p <= |area| && Framed(area[p..]) && k <= index
    && index - k <= |Records(area)| && Records(area)[index - k..] == Records(area[p..])
    && (n == |area| - p || (n == 0 && k != 0 && |Records(area[p..])| == 1))
  }

  /** One turn of the loop keeps the walk's position honest. */
  lemma SkipStep(area: Bytes, index: byte, p: nat, n: u16, k: byte)
    requires SkipInv(area, index, p, n, k) && k != 0 && n != 0 && |area| <= MIN_SIG_MTU_LEN
    ensures p + COMMAND_HEADER_SIZE <= |area|
    ensures var size := Wrap8(COMMAND_HEADER_SIZE + ReadLE16(area, p + 2));
      var n' := Wrap16(n - size);
      n' < n && (if n' != 0 then SkipInv(area, index, p + size, n', k - 1) else SkipInv(area, index, p, n', k))
  {
    RecordAt(area, p, index - k);
  }

  /**
   * The loop of `CBTL2CAPSignallingPacket::GetCommand`: steps over records
   * while the index and the bytes left are both non-zero, holding the
   * record size in a u8 and the bytes left in a u16 decremented without an
   * underflow check. A step that leaves no bytes does not count down the
   * index.
   */
  method SkipRecords(area: Bytes, index: byte) returns (p: nat, n: u16, k: byte)
    requires Framed(area) && |area| <= MIN_SIG_MTU_LEN
    ensures SkipInv(area, index, p, n, k) && (k == 0 || n == 0)
  {
    p, n, k := 0, |area|, index;
    while k != 0 && n != 0
      invariant SkipInv(area, index, p, n, k)
      decreases n
    {
      SkipStep(area, index, p, n, k);
      var size := Wrap8(COMMAND_HEADER_SIZE + ReadLE16(area, p + 2));
      n := Wrap16(n - size);
      if n != 0 {
        p := p + size;
        k := k - 1;
      }
    }
  }

  /**
   * `CBTL2CAPSignallingPacket::GetCommand`: on a framed area of the 48-byte
   * command array it returns the index-th record when there is one and
   * null (None) otherwise.
   */
  method GetCommand(area: Bytes, index: byte) returns (r: Option<Bytes>)
    requires Framed(area) && |area| <= MIN_SIG_MTU_LEN
    ensures r == if index < |Records(area)| then Some(Records(area)[index]) else None
  {
    var p, n, k := SkipRecords(area, index);
    if n != 0 && k == 0 {
      RecordAt(area, p, index);
      r := Some(area[p..p + COMMAND_HEADER_SIZE + ReadLE16(area, p + 2)]);
    } else {
      r := None;
    }
  }

  // ---------------------------------------------------------------------
  // The signalling handler table

  datatype HandlerKind =
    | NoHandler
    | RejectHandler
    | ConnectionRequestHandler
    | ConnectionResponseHandler
    | ConfigurationRequestHandler
    | ConfigurationResponseHandler
    | DisconnectionRequestHandler
    | DisconnectionResponseHandler

  /** The handler each command class registers for its code; the echo and information classes register none the layer can reach. */
  function HandlerFor(code: int): HandlerKind
  {
    match code
    case 1 => RejectHandler
    case 2 => ConnectionRequestHandler
    case 3 => ConnectionResponseHandler
    case 4 => ConfigurationRequestHandler
    case 5 => ConfigurationResponseHandler
    case 6 => DisconnectionRequestHandler
    case 7 => DisconnectionResponseHandler
    case _ => NoHandler
  }

  /**
   * The static table after the layer's constructor: BT_SIG_NUM_COMMANDS
   * (0x0B) slots, codes 1..7 registered, slot 0 and 8..10 null.
   */
  function HandlerTableAsWritten(): (t: seq<HandlerKind>)
    ensures |t| == SIG_NUM_COMMANDS
    ensures forall code :: 0 <= code < |t| ==> t[code] == HandlerFor(code)
  {
    seq(SIG_NUM_COMMANDS, code => HandlerFor(code))
  }

  /** `Handler[Code]` as written: None where the index falls outside the table. */
  function DispatchAsWritten(code: byte): (h: Option<HandlerKind>)
    ensures h.None? <==> code >= SIG_NUM_COMMANDS
  {
    if code < |HandlerTableAsWritten()| then Some(HandlerTableAsWritten()[code]) else None
  }

  /**
   * Information Response (0x0B) is a defined code, yet indexing the table
   * by it, to register its handler or to dispatch a received one, reads
   * one slot past the end.
   */
  lemma InformationResponseOutsideTable()
    ensures SIG_INFORMATION_RESPONSE == SIG_NUM_COMMANDS == |HandlerTableAsWritten()|
    ensures DispatchAsWritten(SIG_INFORMATION_RESPONSE).None?
  {
  }

  /** The corrected table: one slot per code up to 0x0B; any higher code has no handler. */
  function HandlerTable(): (t: seq<HandlerKind>)
    ensures |t| == SIG_INFORMATION_RESPONSE + 1
  {
    seq(SIG_INFORMATION_RESPONSE + 1, code => HandlerFor(code))
  }

  function Dispatch(code: byte): (h: HandlerKind)
  {
    if code < |HandlerTable()| then HandlerTable()[code] else NoHandler
  }

  /**
   * The corrected dispatch agrees with the table as written wherever that
   * one is defined, covers every defined code, and runs a handler exactly
   * for codes 1..7, the one each of those codes registered.
   */
  lemma DispatchCorrected(code: byte)
    ensures DispatchAsWritten(code).Some? ==> DispatchAsWritten(code) == Some(Dispatch(code))
    ensures Dispatch(code) != NoHandler <==> SIG_COMMAND_REJECT <= code <= SIG_DISCONNECTION_RESPONSE
    ensures SIG_RESERVED <= code <= SIG_INFORMATION_RESPONSE ==> code < |HandlerTable()|
  {
  }
}

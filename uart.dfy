// The H4 UART transport (src/transport/uart/btuarttransport.cpp): the
// receive interrupt's per-byte deframer, the baud-rate divisors written at
// `Initialize`, and the indicator-prefixed send path. Register I/O is gone:
// the receive FIFO is a sequence of bytes, the transmit FIFO a `tx` field.
module UartTransport {
  import opened Bytes

  const HCI_PACKET_COMMAND: byte := 0x01
  const HCI_PACKET_ACL_DATA: byte := 0x02
  const HCI_PACKET_EVENT: byte := 0x04

  /** `BT_UART_BUFFER_SIZE` as the header defines it (`BT_MAX_HCI_EVENT_SIZE`). */
  const UART_BUFFER_SIZE_AS_WRITTEN := MAX_HCI_EVENT_SIZE
  /** The receive buffer this model allocates: the longest accepted ACL frame, 4 + 254 bytes. */
  const RX_BUFFER_SIZE := MAX_DATA_SIZE

  datatype RxState = Start | Command | AclData | Length | AclDataLength | Param | Data | Unknown

  /** A complete frame handed to the registered event or data handler, indicator stripped. */
  datatype Delivery = Event(frame: Bytes) | AclPacket(frame: Bytes)

  /**
   * The receive side of the transport: `m_nRxState`, the stored part of
   * `m_RxBuffer` (its first `m_nRxInPtr` bytes), `m_nRxParamLength`,
   * `m_nRxACLDataLength`, the handler's static `aclFlag`, and whether an
   * event and a data handler are registered.
   */
  datatype Machine = Machine(state: RxState, frame: Bytes, paramLength: nat, aclLength: u16,
                             aclFlag: bool, events: bool, data: bool)

  function Initial(): Machine
  {
    Machine(Start, [], 0, 0, false, false, false)
  }

  /** The states every byte sequence fed to `Initial()` can reach. */
  ghost predicate Inv(m: Machine)
  {
    match m.state
    case Start => !m.aclFlag && |m.frame| <= RX_BUFFER_SIZE
    case Command => !m.aclFlag && m.frame == []
    case Length => !m.aclFlag && |m.frame| == 1
    case Param => !m.aclFlag && 1 <= m.paramLength && 2 <= |m.frame| && |m.frame| + m.paramLength <= MAX_HCI_EVENT_SIZE
    case AclData => !m.aclFlag && |m.frame| <= 1
    case AclDataLength => (|m.frame| == 2 && !m.aclFlag) || (|m.frame| == 3 && m.aclFlag && m.aclLength < 0x100)
    case Data => !m.aclFlag && 1 <= m.paramLength && 4 <= |m.frame| && |m.frame| + m.paramLength <= RX_BUFFER_SIZE
    case Unknown => false
  }

  /** The index `m_RxBuffer[m_nRxInPtr++]` writes the next byte to, if the state stores it. */
  function WriteIndex(m: Machine): Option<nat>
  {
    if m.state in {Start, Unknown} then None else Some(|m.frame|)
  }

  /** A handler is called only when one is registered. */
  function Handled(registered: bool, d: Delivery): Option<Delivery>
  {
    if registered then Some(d) else None
  }

  /**
   * One received byte: the `switch (m_nRxState)` body of `IRQHandler`. The
   * second ACL length byte is OR-ed in above the first, which the invariant
   * keeps below 0x100, so the OR is an addition.
   */
  function Step(m: Machine, b: byte): (Machine, Option<Delivery>)
    requires Inv(m)
  {
    match m.state
    case Start =>
      if b == HCI_PACKET_EVENT then (m.(state := Command, frame := []), None)
      else if b == HCI_PACKET_ACL_DATA then (m.(state := AclData, frame := []), None)
      else (m, None)
    case Command => (m.(state := Length, frame := m.frame + [b]), None)
    case AclData => (m.(state := if |m.frame| != 0 then AclDataLength else AclData, frame := m.frame + [b]), None)
    case Length =>
      var f := m.frame + [b];
      if b > 0 then (m.(frame := f, paramLength := b, state := Param), None)
      else (m.(frame := f, state := Start), Handled(m.events, Event(f)))
    case AclDataLength =>
      var f := m.frame + [b];
      if !m.aclFlag then (m.(frame := f, aclLength := b, aclFlag := true), None)
      else
        var len := m.aclLength + 0x100 * b;
        if len > MAX_DATA_SIZE - 4 then (m.(frame := [], aclLength := len, aclFlag := false, state := Start), None)
        else if len > 0 then (m.(frame := f, aclLength := len, aclFlag := false, paramLength := len, state := Data), None)
        else (m.(frame := f, aclLength := len, aclFlag := false, state := Start), Handled(m.data, AclPacket(f)))
    case Param =>
      var f := m.frame + [b];
      if m.paramLength == 1 then (m.(frame := f, paramLength := 0, state := Start), Handled(m.events, Event(f)))
      else (m.(frame := f, paramLength := m.paramLength - 1), None)
    case Data =>
      var f := m.frame + [b];
      if m.paramLength == 1 then (m.(frame := f, paramLength := 0, state := Start), Handled(m.data, AclPacket(f)))
      else (m.(frame := f, paramLength := m.paramLength - 1), None)
  }

  /**
   * A step keeps the invariant, never touches the handler registrations, and
   * delivers only a whole frame, to a registered handler, returning to Start.
   */
  lemma StepFacts(m: Machine, b: byte)
    requires Inv(m)
    ensures var r := Step(m, b);
            Inv(r.0) && r.0.events == m.events && r.0.data == m.data &&
            (r.1.Some? ==> r.0.state == Start && r.1.value.frame == r.0.frame) &&
            (r.1.Some? && r.1.value.Event? ==> m.events && 2 <= |r.1.value.frame| <= MAX_HCI_EVENT_SIZE) &&
            (r.1.Some? && r.1.value.AclPacket? ==> m.data && 4 <= |r.1.value.frame| <= RX_BUFFER_SIZE)
  {
  }

  function Emitted(d: Option<Delivery>): seq<Delivery>
  {
    if d.Some? then [d.value] else []
  }

  /** The bytes of one drained FIFO fed in order, with every handler call they cause. */
  function Feed(m: Machine, input: Bytes): (r: (Machine, seq<Delivery>))
    requires Inv(m)
    ensures Inv(r.0)
    decreases |input|
  {
    if input == [] then (m, [])
    else
      var s := Step(m, input[0]);
      StepFacts(m, input[0]);
      var r := Feed(s.0, input[1..]);
      (r.0, Emitted(s.1) + r.1)
  }

  lemma FeedCons(m: Machine, b: byte, rest: Bytes)
    requires Inv(m)
    ensures Inv(Step(m, b).0)
    ensures Feed(m, [b] + rest).0 == Feed(Step(m, b).0, rest).0
    ensures Feed(m, [b] + rest).1 == Emitted(Step(m, b).1) + Feed(Step(m, b).0, rest).1
  {
    assert ([b] + rest)[1..] == rest;
    FeedUnfold(m, [b] + rest);
  }

  /** Feeding the rest of the FIFO from position i. */
  lemma FeedFrom(m: Machine, fifo: Bytes, i: nat)
    requires Inv(m) && i < |fifo|
    ensures Inv(Step(m, fifo[i]).0)
    ensures Feed(m, fifo[i..]).0 == Feed(Step(m, fifo[i]).0, fifo[i + 1..]).0
    ensures Feed(m, fifo[i..]).1 == Emitted(Step(m, fifo[i]).1) + Feed(Step(m, fifo[i]).0, fifo[i + 1..]).1
  {
    assert fifo[i..][1..] == fifo[i + 1..];
    FeedUnfold(m, fifo[i..]);
  }

  /** Every state the transport reaches keeps its write index inside a buffer of RX_BUFFER_SIZE bytes. */
  lemma WriteIndexBounded(m: Machine)
    requires Inv(m)
    ensures WriteIndex(m).Some? ==> WriteIndex(m).value < RX_BUFFER_SIZE
  {
  }

  /** In Start, every byte but the two receive indicators is skipped and changes nothing. */
  lemma StartSkips(m: Machine, b: byte)
    requires Inv(m) && m.state == Start && b != HCI_PACKET_EVENT && b != HCI_PACKET_ACL_DATA
    ensures Step(m, b).0 == m && Step(m, b).1 == None
  {
  }

  /**
   * The payload states: while `rest` is shorter than the count still
   * expected, its bytes are stored and nothing is delivered.
   */
  lemma {:induction false} PayloadPrefix(m: Machine, rest: Bytes)
    requires Inv(m) && m.state in {Param, Data} && |rest| < m.paramLength
    ensures Feed(m, rest).0 == m.(frame := m.frame + rest, paramLength := m.paramLength - |rest|)
    ensures Feed(m, rest).1 == []
    decreases |rest|
  {
    if rest != [] {
      var m1 := m.(frame := m.frame + [rest[0]], paramLength := m.paramLength - 1);
      PayloadStep(m, rest[0]);
      FeedUnfold(m, rest);
      PayloadPrefix(m1, rest[1..]);
      assert m.frame + rest == m1.frame + rest[1..];
    }
  }

  /** A payload byte that is not the last is stored and the count decremented. */
  lemma PayloadStep(m: Machine, b: byte)
    requires Inv(m) && m.state in {Param, Data} && 2 <= m.paramLength
    ensures Step(m, b).0 == m.(frame := m.frame + [b], paramLength := m.paramLength - 1)
    ensures Step(m, b).1 == None
  {
  }

  lemma FeedUnfold(m: Machine, input: Bytes)
    requires Inv(m) && input != []
    ensures Inv(Step(m, input[0]).0)
    ensures Feed(m, input).0 == Feed(Step(m, input[0]).0, input[1..]).0
    ensures Feed(m, input).1 == Emitted(Step(m, input[0]).1) + Feed(Step(m, input[0]).0, input[1..]).1
  {
    StepFacts(m, input[0]);
  }

  /** ... and exactly `paramLength` bytes complete the frame, which is delivered once. */
  lemma PayloadComplete(m: Machine, rest: Bytes)
    requires Inv(m) && m.state in {Param, Data} && |rest| == m.paramLength
    ensures var r := Feed(m, rest);
            r.0 == m.(frame := m.frame + rest, paramLength := 0, state := Start) &&
            r.1 == if m.state == Param then (if m.events then [Event(m.frame + rest)] else [])
                   else (if m.data then [AclPacket(m.frame + rest)] else [])
  {
    var k := |rest| - 1;
    assert rest == rest[..k] + [rest[k]];
    PayloadPrefix(m, rest[..k]);
    var m1 := m.(frame := m.frame + rest[..k], paramLength := 1);
    FeedAppend(m, rest[..k], [rest[k]]);
    assert m.frame + rest[..k] + [rest[k]] == m.frame + rest;
    FeedCons(m1, rest[k], []);
  }

  /** Feeding two pieces is feeding the first, then the second from where it stopped. */
  lemma {:induction false} FeedAppend(m: Machine, a: Bytes, b: Bytes)
    requires Inv(m)
    ensures Feed(m, a + b).0 == Feed(Feed(m, a).0, b).0
    ensures Feed(m, a + b).1 == Feed(m, a).1 + Feed(Feed(m, a).0, b).1
    decreases |a|
  {
    if a == [] {
      assert a + b == b;
    } else {
      assert (a + b)[1..] == a[1..] + b;
      FeedUnfold(m, a + b);
      FeedUnfold(m, a);
      FeedAppend(Step(m, a[0]).0, a[1..], b);
    }
  }

  /** Feeding one more byte. */
  lemma FeedSnoc(m: Machine, a: Bytes, b: byte)
    requires Inv(m)
    ensures Feed(m, a + [b]).0 == Step(Feed(m, a).0, b).0
    ensures Feed(m, a + [b]).1 == Feed(m, a).1 + Emitted(Step(Feed(m, a).0, b).1)
  {
    FeedAppend(m, a, [b]);
    FeedCons(Feed(m, a).0, b, []);
    assert [b] + [] == [b];
  }

  /** The header of an event frame: indicator, code and a non-zero length leave the machine awaiting parameters. */
  lemma EventHeader(m: Machine, code: byte, len: byte)
    requires Inv(m) && m.state == Start && len > 0
    ensures Feed(m, [HCI_PACKET_EVENT, code, len]).0 == m.(state := Param, frame := [code, len], paramLength := len)
    ensures Feed(m, [HCI_PACKET_EVENT, code, len]).1 == []
  {
    assert [HCI_PACKET_EVENT] + [code] == [HCI_PACKET_EVENT, code];
    assert [HCI_PACKET_EVENT, code] + [len] == [HCI_PACKET_EVENT, code, len];
    FeedCons(m, HCI_PACKET_EVENT, []);
    var m1 := m.(state := Command, frame := []);
    FeedSnoc(m, [HCI_PACKET_EVENT], code);
    assert m1.frame + [code] == [code];
    FeedSnoc(m, [HCI_PACKET_EVENT, code], len);
  }

  /** An event frame: indicator 0x04, event code, parameter length, then that many parameters. */
  lemma EventFrame(m: Machine, code: byte, params: Bytes)
    requires Inv(m) && m.state == Start && 0 < |params| < 0x100
    ensures var frame := [code, |params| as byte] + params;
            var r := Feed(m, [HCI_PACKET_EVENT, code, |params| as byte] + params);
            r.0 == m.(state := Start, frame := frame, paramLength := 0) &&
            r.1 == if m.events then [Event(frame)] else []
  {
    var len := |params| as byte;
    EventHeader(m, code, len);
    FeedAppend(m, [HCI_PACKET_EVENT, code, len], params);
    PayloadComplete(m.(state := Param, frame := [code, len], paramLength := len), params);
  }

  /** An event frame with no parameters is delivered as soon as its length byte arrives. */
  lemma EmptyEventFrame(m: Machine, code: byte)
    requires Inv(m) && m.state == Start
    ensures var r := Feed(m, [HCI_PACKET_EVENT, code, 0]);
            r.0 == m.(state := Start, frame := [code, 0]) &&
            r.1 == if m.events then [Event([code, 0])] else []
  {
    assert [HCI_PACKET_EVENT] + [code] == [HCI_PACKET_EVENT, code];
    assert [HCI_PACKET_EVENT, code] + [0] == [HCI_PACKET_EVENT, code, 0];
    FeedCons(m, HCI_PACKET_EVENT, []);
    var m1 := m.(state := Command, frame := []);
    FeedSnoc(m, [HCI_PACKET_EVENT], code);
    assert m1.frame + [code] == [code];
    FeedSnoc(m, [HCI_PACKET_EVENT, code], 0);
  }

  /** Indicator 0x02, two handle bytes and the length's low byte: the low byte is taken and the flag set. */
  lemma AclLowByte(m: Machine, h0: byte, h1: byte, lo: byte)
    requires Inv(m) && m.state == Start
    ensures Feed(m, [HCI_PACKET_ACL_DATA, h0, h1, lo]).0 ==
            m.(state := AclDataLength, frame := [h0, h1, lo], aclLength := lo, aclFlag := true)
    ensures Feed(m, [HCI_PACKET_ACL_DATA, h0, h1, lo]).1 == []
  {
    assert [HCI_PACKET_ACL_DATA] + [h0] == [HCI_PACKET_ACL_DATA, h0];
    assert [HCI_PACKET_ACL_DATA, h0] + [h1] == [HCI_PACKET_ACL_DATA, h0, h1];
    assert [HCI_PACKET_ACL_DATA, h0, h1] + [lo] == [HCI_PACKET_ACL_DATA, h0, h1, lo];
    FeedCons(m, HCI_PACKET_ACL_DATA, []);
    var m1 := m.(state := AclData, frame := []);
    FeedSnoc(m, [HCI_PACKET_ACL_DATA], h0);
    assert m1.frame + [h0] == [h0];
    FeedSnoc(m, [HCI_PACKET_ACL_DATA, h0], h1);
    assert [h0] + [h1] == [h0, h1];
    FeedSnoc(m, [HCI_PACKET_ACL_DATA, h0, h1], lo);
    assert [h0, h1] + [lo] == [h0, h1, lo];
  }

  /** ... and the high byte completes the length and clears the flag. */
  lemma AclHeader(m: Machine, h0: byte, h1: byte, lo: byte, hi: byte)
    requires Inv(m) && m.state == Start
    ensures var len := lo as int + 0x100 * hi as int;
            var r := Feed(m, [HCI_PACKET_ACL_DATA, h0, h1, lo, hi]);
            var header := [h0, h1, lo, hi];
            if len > MAX_DATA_SIZE - 4 then
              r.0 == m.(state := Start, frame := [], aclLength := len, aclFlag := false) && r.1 == []
            else if len > 0 then
              r.0 == m.(state := Data, frame := header, aclLength := len, aclFlag := false, paramLength := len) && r.1 == []
            else
              r.0 == m.(state := Start, frame := header, aclLength := 0, aclFlag := false) &&
              r.1 == if m.data then [AclPacket(header)] else []
  {
    AclLowByte(m, h0, h1, lo);
    FeedSnoc(m, [HCI_PACKET_ACL_DATA, h0, h1, lo], hi);
    assert [HCI_PACKET_ACL_DATA, h0, h1, lo] + [hi] == [HCI_PACKET_ACL_DATA, h0, h1, lo, hi];
    assert [h0, h1, lo] + [hi] == [h0, h1, lo, hi];
  }

  /**
   * An ACL frame: indicator 0x02, two handle bytes, a little-endian data
   * length of at most 254, then that many data bytes; delivered once, with
   * the static flag back at false.
   */
  lemma AclFrame(m: Machine, h0: byte, h1: byte, data: Bytes)
    requires Inv(m) && m.state == Start && 0 < |data| <= MAX_DATA_SIZE - 4
    ensures var len := LE16(|data|);
            var frame := [h0, h1] + len + data;
            var r := Feed(m, [HCI_PACKET_ACL_DATA, h0, h1] + len + data);
            r.0 == m.(state := Start, frame := frame, aclLength := |data|, aclFlag := false, paramLength := 0) &&
            r.1 == if m.data then [AclPacket(frame)] else []
  {
    var header := [HCI_PACKET_ACL_DATA, h0, h1] + LE16(|data|);
    AclHeaderAccepted(m, h0, h1, |data|);
    FeedAppend(m, header, data);
    PayloadComplete(Feed(m, header).0, data);
  }

  /** The header of an ACL frame with a data length from 1 to 254 leaves the machine awaiting that many bytes. */
  lemma AclHeaderAccepted(m: Machine, h0: byte, h1: byte, n: nat)
    requires Inv(m) && m.state == Start && 0 < n <= MAX_DATA_SIZE - 4
    ensures var len := LE16(n);
            var r := Feed(m, [HCI_PACKET_ACL_DATA, h0, h1] + len);
            r.0 == m.(state := Data, frame := [h0, h1] + len, aclLength := n, aclFlag := false, paramLength := n) &&
            r.1 == []
  {
    var len := LE16(n);
    assert [HCI_PACKET_ACL_DATA, h0, h1] + len == [HCI_PACKET_ACL_DATA, h0, h1, len[0], len[1]];
    assert [h0, h1] + len == [h0, h1, len[0], len[1]];
    AclHeader(m, h0, h1, len[0], len[1]);
  }

  /** An ACL frame with data length 0 is delivered as its 4 header bytes. */
  lemma EmptyAclFrame(m: Machine, h0: byte, h1: byte)
    requires Inv(m) && m.state == Start
    ensures var r := Feed(m, [HCI_PACKET_ACL_DATA, h0, h1, 0, 0]);
            r.0 == m.(state := Start, frame := [h0, h1, 0, 0], aclLength := 0, aclFlag := false) &&
            r.1 == if m.data then [AclPacket([h0, h1, 0, 0])] else []
  {
    AclHeader(m, h0, h1, 0, 0);
    assert [h0, h1, 0] + [0] == [h0, h1, 0, 0];
  }

  /** An ACL length above 254 drops the frame at once: nothing delivered, index reset, back in Start. */
  lemma OversizedAclFrame(m: Machine, h0: byte, h1: byte, lo: byte, hi: byte)
    requires Inv(m) && m.state == Start && lo as int + 0x100 * hi as int > MAX_DATA_SIZE - 4
    ensures var r := Feed(m, [HCI_PACKET_ACL_DATA, h0, h1, lo, hi]);
            r.0 == m.(state := Start, frame := [], aclLength := lo as int + 0x100 * hi as int, aclFlag := false) &&
            r.1 == []
  {
    AclHeader(m, h0, h1, lo, hi);
  }

  /**
   * One received byte with the buffer as written, of BT_MAX_HCI_EVENT_SIZE
   * = 257 bytes: None when the byte would be stored at or past its end.
   */
  function StepAsWritten(m: Machine, b: byte): (r: Option<(Machine, Option<Delivery>)>)
    requires Inv(m)
    ensures r.None? <==> WriteIndex(m).Some? && WriteIndex(m).value >= UART_BUFFER_SIZE_AS_WRITTEN
    ensures r.Some? ==> r.value == Step(m, b)
  {
    if WriteIndex(m).Some? && WriteIndex(m).value >= UART_BUFFER_SIZE_AS_WRITTEN then None else Some(Step(m, b))
  }

  /**
   * An accepted ACL frame of data length 254 stores its last byte at index
   * 257: past the end of the buffer as written, while the 258-byte buffer
   * takes it and completes the frame.
   */
  lemma AclFrameOverrunsAsWritten(m: Machine, h0: byte, h1: byte, data: Bytes, b: byte)
    requires Inv(m) && m.state == Start && |data| == MAX_DATA_SIZE - 5
    ensures var r := Feed(m, [HCI_PACKET_ACL_DATA, h0, h1, 254, 0] + data);
            && r.1 == [] && WriteIndex(r.0) == Some(UART_BUFFER_SIZE_AS_WRITTEN)
            && StepAsWritten(r.0, b).None?
            && Step(r.0, b).0.state == Start && |Step(r.0, b).0.frame| == RX_BUFFER_SIZE
  {
    var header := [HCI_PACKET_ACL_DATA, h0, h1] + LE16(254);
    assert header == [HCI_PACKET_ACL_DATA, h0, h1, 254, 0];
    AclHeaderAccepted(m, h0, h1, 254);
    FeedAppend(m, header, data);
    PayloadPrefix(Feed(m, header).0, data);
  }

  /** `nFractDiv2`: twice the fraction in 64ths, truncated. */
  function FractionTimesTwo(clock: u32, baud: nat): nat
    requires 300 <= baud
  {
    (clock % (16 * baud)) * 8 / baud
  }

  /** `(nIntDiv, nFractDiv)` as `Initialize` computes them. */
  function DivisorsAsWritten(clock: u32, baud: nat): (r: (nat, nat))
    requires 0 < clock && 300 <= baud <= 3000000 && 1 <= clock / (16 * baud) <= 0xFFFF
    ensures r.0 == clock / (16 * baud) && r.1 <= 64
    ensures 2 * Dist(r.1 * baud, 4 * (clock % (16 * baud))) <= baud
  {
    var f2 := FractionTimesTwo(clock, baud);
    RoundedFraction(clock % (16 * baud), baud, f2);
    (clock / (16 * baud), f2 / 2 + f2 % 2)
  }

  function Dist(a: int, b: int): nat
  {
    if a < b then b - a else a - b
  }

  /** Rounding half up of 4r/b, computed as `f2 / 2 + f2 % 2` with f2 = 8r / b, is within half a unit. */
  lemma RoundedFraction(r: nat, b: nat, f2: nat)
    requires 0 < b && r < 16 * b && f2 == r * 8 / b
    ensures f2 / 2 + f2 % 2 <= 64
    ensures 2 * Dist((f2 / 2 + f2 % 2) * b, 4 * r) <= b
  {
    var k := f2 / 2;
    assert f2 * b <= r * 8 < (f2 + 1) * b;
    FractionBelow128(r, b, f2);
    if f2 % 2 == 0 {
      assert f2 == 2 * k && f2 / 2 + f2 % 2 == k;
      RoundedDown(r, b, k);
    } else {
      assert f2 == 2 * k + 1 && f2 / 2 + f2 % 2 == k + 1;
      RoundedUp(r, b, k);
    }
  }

  lemma FractionBelow128(r: nat, b: nat, f2: nat)
    requires 0 < b && r < 16 * b && f2 * b <= r * 8
    ensures f2 < 128
  {
    assert f2 * b < 128 * b;
  }

  /** An even truncated double: 4r / b lies in [k, k + 1/2), so k is within half a unit. */
  lemma RoundedDown(r: nat, b: nat, k: nat)
    requires 0 < b && 2 * k * b <= 8 * r < (2 * k + 1) * b
    ensures 2 * Dist(k * b, 4 * r) <= b
  {
  }

  /** An odd truncated double: 4r / b lies in [k + 1/2, k + 1), so k + 1 is within half a unit. */
  lemma RoundedUp(r: nat, b: nat, k: nat)
    requires 0 < b && (2 * k + 1) * b <= 8 * r < (2 * k + 2) * b
    ensures 2 * Dist((k + 1) * b, 4 * r) <= b
  {
    assert (2 * k + 2) * b == 2 * ((k + 1) * b);
  }

  /** With a 300 baud rate and a 9599 Hz clock the fraction rounds up to 64, past the 6-bit FBRD field. */
  lemma FractionReaches64AsWritten()
    ensures DivisorsAsWritten(9599, 300).0 == 1 && DivisorsAsWritten(9599, 300).1 == 64
  {
    assert 9599 % 4800 == 4799;
    assert 4799 * 8 / 300 == 127;
  }

  /**
   * `Initialize` as written: None where `assert (nFractDiv <= 0x3F)`
   * fails, a fraction that rounds up to 64; otherwise the pair it writes to
   * IBRD and FBRD, which is then the corrected pair.
   */
  function InitializeAsWritten(clock: u32, baud: nat): (r: Option<(nat, nat)>)
    requires 0 < clock && 300 <= baud <= 3000000 && 1 <= clock / (16 * baud) <= 0xFFFF
    ensures r.None? <==> DivisorsAsWritten(clock, baud).1 == 64
    ensures r.Some? ==> r.value == Divisors(clock, baud) && r.value.1 <= 0x3F
  {
    var w := DivisorsAsWritten(clock, baud);
    if w.1 <= 0x3F then Some(w) else None
  }

  /** A 9599 Hz clock at 300 baud stops `Initialize` as written; the corrected pair carries into IBRD = 2. */
  lemma InitializeStopsAsWritten()
    ensures InitializeAsWritten(9599, 300).None?
    ensures Divisors(9599, 300) == (2, 0)
  {
    FractionReaches64AsWritten();
  }

  /**
   * The divisors this model programs: a fraction that rounds up to 64 is
   * carried into the integer part, so the FBRD value always fits its six
   * bits and the pair still names the nearest 64th of clock / (16 * baud).
   */
  function Divisors(clock: u32, baud: nat): (r: (nat, nat))
    requires 0 < clock && 300 <= baud <= 3000000 && 1 <= clock / (16 * baud) <= 0xFFFF
    ensures 1 <= r.0 <= 0x1_0000 && r.1 <= 0x3F
    ensures 2 * Dist((64 * r.0 + r.1) * baud, 4 * clock) <= baud
  {
    var w := DivisorsAsWritten(clock, baud);
    Nearest(clock, baud, w.0, clock % (16 * baud), w.1);
    if w.1 == 64 then (w.0 + 1, 0) else w
  }

  /** The fraction's error against 4 * rem is the pair's error against 4 * clock. */
  lemma Nearest(clock: nat, baud: nat, q: nat, rem: nat, f: nat)
    requires 0 < baud && clock == q * (16 * baud) + rem && 2 * Dist(f * baud, 4 * rem) <= baud
    ensures 2 * Dist((64 * q + f) * baud, 4 * clock) <= baud
    ensures f == 64 ==> 2 * Dist((64 * (q + 1) + 0) * baud, 4 * clock) <= baud
  {
    assert (64 * q + f) * baud == 64 * (q * baud) + f * baud;
    assert 4 * clock == 64 * (q * baud) + 4 * rem;
    if f == 64 {
      assert 64 * (q + 1) + 0 == 64 * q + f;
    }
  }

  /**
   * The transport object: receive buffer and state fields, the handlers
   * registered, the divisors written to IBRD and FBRD, and every byte
   * written to the transmit FIFO.
   */
  class Transport {
    const rxBuffer: array<byte>
    const ibrd: nat
    const fbrd: nat
    var state: RxState
    var inPtr: nat
    var paramLength: nat
    var aclLength: u16
    var aclFlag: bool
    var events: bool
    var data: bool
    var tx: Bytes

    ghost function Abs(): Machine
      reads this, rxBuffer
      requires inPtr <= rxBuffer.Length
    {
      Machine(state, rxBuffer[..inPtr], paramLength, aclLength, aclFlag, events, data)
    }

    ghost predicate Valid()
      reads this, rxBuffer
    {
      rxBuffer.Length == RX_BUFFER_SIZE && inPtr <= RX_BUFFER_SIZE && Inv(Abs())
    }

    /** Construction and `Initialize`: Start state, empty index, no handlers, the divisors programmed. */
    constructor (clock: u32, baud: nat)
      requires 0 < clock && 300 <= baud <= 3000000 && 1 <= clock / (16 * baud) <= 0xFFFF
      ensures Valid() && Abs() == Initial() && tx == []
      ensures (ibrd, fbrd) == Divisors(clock, baud)
    {
      rxBuffer := new byte[RX_BUFFER_SIZE];
      var d := Divisors(clock, baud);
      ibrd, fbrd := d.0, d.1;
      state, inPtr, paramLength, aclLength, aclFlag := Start, 0, 0, 0, false;
      events, data, tx := false, false, [];
    }

    method RegisterHCIEventHandler()
      requires Valid() && !events
      modifies this
      ensures Valid() && Abs() == old(Abs()).(events := true) && tx == old(tx)
    {
      events := true;
    }

    method RegisterHCIDataHandler()
      requires Valid() && !data
      modifies this
      ensures Valid() && Abs() == old(Abs()).(data := true) && tx == old(tx)
    {
      data := true;
    }

    /** `m_RxBuffer[m_nRxInPtr++] = nData`. */
    method Store(b: byte)
      requires rxBuffer.Length == RX_BUFFER_SIZE && inPtr < RX_BUFFER_SIZE
      modifies this, rxBuffer
      ensures inPtr == old(inPtr) + 1 && rxBuffer[..inPtr] == old(rxBuffer[..inPtr]) + [b]
      ensures state == old(state) && paramLength == old(paramLength) && aclLength == old(aclLength)
      ensures aclFlag == old(aclFlag) && events == old(events) && data == old(data) && tx == old(tx)
    {
      rxBuffer[inPtr] := b;
      inPtr := inPtr + 1;
    }

    /** One byte read from the receive FIFO. */
    method Receive(b: byte) returns (d: Option<Delivery>)
      requires Valid()
      modifies this, rxBuffer
      ensures Valid() && Abs() == Step(old(Abs()), b).0 && d == Step(old(Abs()), b).1 && tx == old(tx)
    {
      match state
      case Start => d := OnIndicator(b);
      case Command => d := OnHeader(b);
      case AclData => d := OnHeader(b);
      case Length => d := OnEventLength(b);
      case AclDataLength => d := OnAclLength(b);
      case Param => d := OnPayload(b);
      case Data => d := OnPayload(b);
    }

    /** Start: an indicator opens a frame and resets the index; any other byte is skipped. */
    method OnIndicator(b: byte) returns (d: Option<Delivery>)
      requires Valid() && state == Start
      modifies this
      ensures Valid() && Abs() == Step(old(Abs()), b).0 && d == Step(old(Abs()), b).1 && tx == old(tx)
    {
      d := None;
      if b == HCI_PACKET_EVENT {
        inPtr, state := 0, Command;
      } else if b == HCI_PACKET_ACL_DATA {
        inPtr, state := 0, AclData;
      }
    }

    /** Command and AclData: the event code, or one of the two handle bytes. */
    method OnHeader(b: byte) returns (d: Option<Delivery>)
      requires Valid() && state in {Command, AclData}
      modifies this, rxBuffer
      ensures Valid() && Abs() == Step(old(Abs()), b).0 && d == Step(old(Abs()), b).1 && tx == old(tx)
    {
      d := None;
      if state == Command {
        Store(b);
        state := Length;
      } else {
        state := if inPtr != 0 then AclDataLength else AclData;
        Store(b);
      }
    }

    /** Length: an event's parameter count; zero completes the frame. */
    method OnEventLength(b: byte) returns (d: Option<Delivery>)
      requires Valid() && state == Length
      modifies this, rxBuffer
      ensures Valid() && Abs() == Step(old(Abs()), b).0 && d == Step(old(Abs()), b).1 && tx == old(tx)
    {
      d := None;
      Store(b);
      if b > 0 {
        paramLength, state := b, Param;
      } else {
        d := Handled(events, Event(rxBuffer[..inPtr]));
        state := Start;
      }
    }

    /** AclDataLength: the low length byte, then the high one, which accepts, drops or completes the frame. */
    method OnAclLength(b: byte) returns (d: Option<Delivery>)
      requires Valid() && state == AclDataLength
      modifies this, rxBuffer
      ensures Valid() && Abs() == Step(old(Abs()), b).0 && d == Step(old(Abs()), b).1 && tx == old(tx)
    {
      d := None;
      Store(b);
      if aclFlag {
        aclLength := aclLength + 0x100 * b;
      } else {
        aclLength := b;
      }
      if aclFlag {
        if aclLength > MAX_DATA_SIZE - 4 {
          inPtr, state := 0, Start;
        } else if aclLength > 0 {
          paramLength, state := aclLength, Data;
        } else {
          d := Handled(data, AclPacket(rxBuffer[..inPtr]));
          state := Start;
        }
      }
      aclFlag := !aclFlag;
    }

    /** Param and Data: one payload byte; the last one completes the frame. */
    method OnPayload(b: byte) returns (d: Option<Delivery>)
      requires Valid() && state in {Param, Data}
      modifies this, rxBuffer
      ensures Valid() && Abs() == Step(old(Abs()), b).0 && d == Step(old(Abs()), b).1 && tx == old(tx)
    {
      d := None;
      Store(b);
      paramLength := paramLength - 1;
      if paramLength == 0 {
        if state == Param {
          d := Handled(events, Event(rxBuffer[..inPtr]));
        } else {
          d := Handled(data, AclPacket(rxBuffer[..inPtr]));
        }
        state := Start;
      }
    }

    /** `IRQHandler`: drain the receive FIFO, calling the handlers for each completed frame. */
    method IRQHandler(fifo: Bytes) returns (ds: seq<Delivery>)
      requires Valid()
      modifies this, rxBuffer
      ensures Valid() && Abs() == Feed(old(Abs()), fifo).0 && ds == Feed(old(Abs()), fifo).1 && tx == old(tx)
    {
      ghost var final := Feed(Abs(), fifo).0;
      ghost var all := Feed(Abs(), fifo).1;
      ds := [];
      var i := 0;
      assert fifo[i..] == fifo;
      while i < |fifo|
        invariant 0 <= i <= |fifo| && Valid() && tx == old(tx)
        invariant final == Feed(Abs(), fifo[i..]).0 && all == ds + Feed(Abs(), fifo[i..]).1
        decreases |fifo| - i
      {
        ds := ReceiveNext(fifo, i, final, all, ds);
        i := i + 1;
      }
    }

    /** One iteration of the FIFO drain: what is left of the feed still accounts for the whole. */
    method ReceiveNext(fifo: Bytes, i: nat, ghost final: Machine, ghost all: seq<Delivery>, ds: seq<Delivery>)
      returns (ds': seq<Delivery>)
      requires Valid() && i < |fifo|
      requires final == Feed(Abs(), fifo[i..]).0 && all == ds + Feed(Abs(), fifo[i..]).1
      modifies this, rxBuffer
      ensures Valid() && tx == old(tx)
      ensures final == Feed(Abs(), fifo[i + 1..]).0 && all == ds' + Feed(Abs(), fifo[i + 1..]).1
    {
      FeedFrom(Abs(), fifo, i);
      var d := Receive(fifo[i]);
      ds' := ds + Emitted(d);
    }

    /** `Write`: one byte into the transmit FIFO. */
    method Write(b: byte)
      modifies this
      ensures tx == old(tx) + [b]
      ensures state == old(state) && inPtr == old(inPtr) && paramLength == old(paramLength)
      ensures aclLength == old(aclLength) && aclFlag == old(aclFlag) && events == old(events) && data == old(data)
    {
      tx := tx + [b];
    }

    /** The packet indicator, then the bytes in order. */
    method Send(indicator: byte, packet: Bytes)
      requires Valid()
      modifies this
      ensures Valid() && Abs() == old(Abs()) && tx == old(tx) + [indicator] + packet
    {
      Write(indicator);
      var i := 0;
      while i < |packet|
        invariant 0 <= i <= |packet| && Valid() && Abs() == old(Abs())
        invariant tx == old(tx) + [indicator] + packet[..i]
        decreases |packet| - i
      {
        Write(packet[i]);
        assert packet[..i + 1] == packet[..i] + [packet[i]];
        i := i + 1;
      }
      assert packet[..i] == packet;
    }

    /** A command goes out behind indicator 0x01; the transport always reports success. */
    method SendHCICommand(packet: Bytes) returns (ok: bool)
      requires Valid()
      modifies this
      ensures ok && Valid() && Abs() == old(Abs()) && tx == old(tx) + [HCI_PACKET_COMMAND] + packet
    {
      Send(HCI_PACKET_COMMAND, packet);
      ok := true;
    }

    /** ACL data goes out behind indicator 0x02; the transport always reports success. */
    method SendHCIData(packet: Bytes) returns (ok: bool)
      requires Valid()
      modifies this
      ensures ok && Valid() && Abs() == old(Abs()) && tx == old(tx) + [HCI_PACKET_ACL_DATA] + packet
    {
      Send(HCI_PACKET_ACL_DATA, packet);
      ok := true;
    }
  }
}

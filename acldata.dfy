// The HCI ACL data packet header (Bluetooth Core Vol 4 Part E, section
// 5.4.2): a 12-bit connection handle, a 2-bit packet-boundary flag and a
// 2-bit broadcast flag packed low bit first into one little-endian u16,
// followed by the u16 DataTotalLength, then the payload.
module AclData {
  import opened Bytes

  const HEADER_SIZE := 4

  const CONTINUING_FRAGMENT_PACKET := 0x1
  const FIRST_PACKET := 0x2

  const NO_BROADCAST := 0x0
  const ACTIVE_BROADCAST := 0x1
  const PICONET_BROADCAST := 0x2

  datatype Header = Header(handle: nat, boundary: nat, broadcast: nat, dataTotalLength: u16)

  predicate ValidHeader(h: Header)
  {
    h.handle < 0x1000 && h.boundary < 4 && h.broadcast < 4
  }

  /** The first u16 of the packet: handle in bits 0-11, boundary 12-13, broadcast 14-15. */
  function HeaderWord(h: Header): (w: u16)
    requires ValidHeader(h)
    ensures w % 0x1000 == h.handle && (w / 0x1000) % 4 == h.boundary && w / 0x4000 == h.broadcast
  {
    h.handle + 0x1000 * h.boundary + 0x4000 * h.broadcast
  }

  function EncodeHeader(h: Header): (b: Bytes)
    requires ValidHeader(h)
    ensures |b| == HEADER_SIZE
  {
    LE16(HeaderWord(h)) + LE16(h.dataTotalLength)
  }

  function DecodeHeader(b: Bytes): (h: Header)
    requires |b| >= HEADER_SIZE
    ensures ValidHeader(h)
  {
    var w := ReadLE16(b, 0);
    Header(w % 0x1000, (w / 0x1000) % 4, w / 0x4000, ReadLE16(b, 2))
  }

  /** The packet-boundary flag as read straight out of a buffer's first two bytes. */
  function BoundaryFlag(b: Bytes): (pb: nat)
    requires |b| >= 2
    ensures pb == (b[1] / 0x10) % 4
  {
    (ReadLE16(b, 0) / 0x1000) % 4
  }

  lemma DecodeEncodeHeader(h: Header, payload: Bytes)
    requires ValidHeader(h)
    ensures DecodeHeader(EncodeHeader(h) + payload) == h
    ensures BoundaryFlag(EncodeHeader(h) + payload) == h.boundary
  {
    var b := EncodeHeader(h) + payload;
    assert b[0..2] == LE16(HeaderWord(h));
    assert b[2..4] == LE16(h.dataTotalLength);
    assert ReadLE16(b, 0) == HeaderWord(h);
  }

  lemma EncodeDecodeHeader(b: Bytes)
    requires |b| >= HEADER_SIZE
    ensures EncodeHeader(DecodeHeader(b)) == b[..HEADER_SIZE]
  {
    var w := ReadLE16(b, 0);
    assert HeaderWord(DecodeHeader(b)) == w;
    LE16RoundTrip(b, 0);
    LE16RoundTrip(b, 2);
  }

  /** A whole packet: header, then exactly DataTotalLength payload bytes. */
  function Packet(h: Header, payload: Bytes): (b: Bytes)
    requires ValidHeader(h) && |payload| == h.dataTotalLength
    ensures |b| == HEADER_SIZE + h.dataTotalLength
  {
    EncodeHeader(h) + payload
  }

  /** The payload is everything after the 4-byte header. */
  lemma PacketPayload(h: Header, payload: Bytes)
    requires ValidHeader(h) && |payload| == h.dataTotalLength
    ensures Packet(h, payload)[HEADER_SIZE..] == payload
    ensures DecodeHeader(Packet(h, payload)) == h
  {
    DecodeEncodeHeader(h, payload);
  }
}

// Octets, little-endian integers and the fixed-size byte fields shared by
// every wire layout of the stack (packed C structs on a little-endian CPU).
module Bytes {

  type byte = x: int | 0 <= x < 0x100
  type u16 = x: int | 0 <= x < 0x1_0000
  type u32 = x: int | 0 <= x < 0x1_0000_0000

  /** A packet or frame as it sits in a buffer. */
  type Bytes = seq<byte>

  datatype Option<T> = None | Some(value: T)

  const BD_ADDR_SIZE := 6
  const CLASS_SIZE := 3
  const LINK_KEY_SIZE := 16
  const PIN_CODE_SIZE := 16
  const NAME_SIZE := 248
  const MAX_HCI_EVENT_SIZE := 257
  const MAX_HCI_COMMAND_SIZE := 258
  const MAX_DATA_SIZE := 258

  /** Low byte first, as a packed u16 field is stored. */
  function LE16(v: u16): (r: Bytes)
    ensures |r| == 2 && r[0] as int + 0x100 * r[1] as int == v
  {
    [v % 0x100, v / 0x100]
  }

  function ReadLE16(s: Bytes, at: nat): (v: u16)
    requires at + 2 <= |s|
    ensures v % 0x100 == s[at] && v / 0x100 == s[at + 1]
  {
    s[at] as int + 0x100 * s[at + 1] as int
  }

  function LE32(v: u32): (r: Bytes)
    ensures |r| == 4
    ensures r[0] as int + 0x100 * r[1] as int + 0x1_0000 * r[2] as int + 0x100_0000 * r[3] as int == v
  {
    var q1 := v / 0x100;
    var q2 := q1 / 0x100;
    [v % 0x100, q1 % 0x100, q2 % 0x100, q2 / 0x100]
  }

  function ReadLE32(s: Bytes, at: nat): (v: u32)
    requires at + 4 <= |s|
  {
    s[at] as int + 0x100 * s[at + 1] as int + 0x1_0000 * s[at + 2] as int
      + 0x100_0000 * s[at + 3] as int
  }

  lemma LE16RoundTrip(s: Bytes, at: nat)
    requires at + 2 <= |s|
    ensures LE16(ReadLE16(s, at)) == s[at..at + 2]
  {
  }

  lemma LE32RoundTrip(v: u32)
    ensures ReadLE32(LE32(v), 0) == v
  {
  }

  function Zeros(n: nat): (r: Bytes)
    ensures |r| == n && forall i :: 0 <= i < n ==> r[i] == 0
  {
    seq(n, _ => 0)
  }

  /** `memset(field, 0, n)` followed by `memcpy(field, s, |s|)`. */
  function ZeroPadded(s: Bytes, n: nat): (r: Bytes)
    requires |s| <= n
    ensures |r| == n && r[..|s|] == s
    ensures forall i :: |s| <= i < n ==> r[i] == 0
  {
    s + Zeros(n - |s|)
  }
}

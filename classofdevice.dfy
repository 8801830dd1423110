// The 24-bit Class of Device field: an 8-bit minor class, a 5-bit major
// class and an 11-bit service class packed low bit first into 3 bytes.
module DeviceClass {
  import opened Bytes

  const BT_CODE_COMPUTER := 0x01
  const BT_CODE_DESKTOP := 0x04
  const BT_CODE_HID := 0x05
  const BT_CODE_JOYSTICK := 0x04
  const BT_CODE_KEYBOARD := 0x40
  const BT_CODE_MOUSE := 0x80
  const BT_SERVICE_CLASS_LDM := 0x001

  datatype ClassOfDevice = ClassOfDevice(minor: byte, major: nat, service: nat)

  predicate Valid(c: ClassOfDevice)
  {
    c.major < 0x20 && c.service < 0x800
  }

  /** The bitfield struct as it sits in memory. */
  function Pack(c: ClassOfDevice): (r: Bytes)
    requires Valid(c)
    ensures |r| == CLASS_SIZE
  {
    [c.minor, c.major + 0x20 * (c.service % 8), c.service / 8]
  }

  function Unpack(b: Bytes): (c: ClassOfDevice)
    requires |b| == CLASS_SIZE
    ensures Valid(c)
  {
    ClassOfDevice(b[0], b[1] % 0x20, b[1] as int / 0x20 + 8 * b[2] as int)
  }

  lemma UnpackPack(c: ClassOfDevice)
    requires Valid(c)
    ensures Unpack(Pack(c)) == c
  {
  }

  lemma PackUnpack(b: Bytes)
    requires |b| == CLASS_SIZE
    ensures Pack(Unpack(b)) == b
  {
  }

  // The class predicates of a connection compare one bitfield each.
  predicate IsHID(c: ClassOfDevice) { c.major == BT_CODE_HID }
  predicate IsComputer(c: ClassOfDevice) { c.major == BT_CODE_COMPUTER }
  predicate IsMouse(c: ClassOfDevice) { c.minor == BT_CODE_MOUSE }
  predicate IsKeyboard(c: ClassOfDevice) { c.minor == BT_CODE_KEYBOARD }
  predicate IsJoystick(c: ClassOfDevice) { c.minor == BT_CODE_JOYSTICK }

  /** `BT_CLASS_DESKTOP_COMPUTER`, the default class the stack announces. */
  const DesktopComputer := ClassOfDevice(BT_CODE_DESKTOP, BT_CODE_COMPUTER, BT_SERVICE_CLASS_LDM)

  /**
   * The C interface tests raw class bytes: `type[0]` against the minor code
   * and `type[1]` against the major code. On the minor class this is the
   * same test as the connection's; on the major class the byte also holds
   * the three low service bits, so the byte test implies the bitfield test
   * and is equivalent to it only when those bits are clear.
   */
  lemma RawClassTests(b: Bytes)
    requires |b| == CLASS_SIZE
    ensures b[0] == BT_CODE_MOUSE <==> IsMouse(Unpack(b))
    ensures b[0] == BT_CODE_KEYBOARD <==> IsKeyboard(Unpack(b))
    ensures b[0] == BT_CODE_JOYSTICK <==> IsJoystick(Unpack(b))
    ensures b[1] == BT_CODE_HID <==> IsHID(Unpack(b)) && Unpack(b).service % 8 == 0
  {
  }
}

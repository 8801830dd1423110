// One baseband link as the logical layer tracks it (CBTConnection in
// src/hci/btlogicallayer.cpp). Connection objects are shared by pointer
// between the connection list, the logical layer's current-connection
// pointer, the device manager and the devices; here each object is a record
// value kept in a heap map under a positive id, and a pointer is that id.
module Connection {
  import opened Bytes
  import DeviceClass

  /** TBTConnectionState, in enum order 1..9. */
  datatype ConnState =
    | Disconnecting
    | DisconnectionFailed
    | Disconnected
    | Authenticating
    | AuthenticationFailed
    | Authenticated
    | Connecting
    | ConnectionFailed
    | Connected

  datatype Conn = Conn(
    remoteName: Bytes,
    cod: DeviceClass.ClassOfDevice,
    handle: u16,
    addr: Bytes,
    manufacturer: u16,
    linkType: byte,
    encryption: byte,
    pageScanRepetitionMode: byte,
    pinSize: byte,
    pin: Bytes,
    linkKeyValid: bool,
    linkKey: Bytes,
    maxSlots: byte,
    version: byte,
    subversion: u16,
    status: byte,
    role: byte,
    mode: byte,
    interval: u16,
    state: ConnState,
    device: nat)

  /**
   * The fixed-size arrays hold exactly their sizes, the class of device
   * fits its bitfields, and the PIN length never exceeds the PIN array.
   */
  predicate ValidConn(c: Conn)
  {
    && |c.remoteName| == NAME_SIZE
    && |c.addr| == BD_ADDR_SIZE
    && |c.pin| == PIN_CODE_SIZE && c.pinSize <= PIN_CODE_SIZE
    && |c.linkKey| == LINK_KEY_SIZE
    && DeviceClass.Valid(c.cod)
  }

  const ZeroClass := DeviceClass.ClassOfDevice(0, 0, 0)

  /**
   * `new CBTConnection`: name, class and address zeroed, state Disconnected.
   * The fields the constructor leaves unset are taken as zero.
   */
  function NewConnection(): (c: Conn)
    ensures ValidConn(c) && IsDisconnected(c)
    ensures c.remoteName == Zeros(NAME_SIZE) && c.addr == Zeros(BD_ADDR_SIZE) && c.cod == ZeroClass
  {
    Conn(Zeros(NAME_SIZE), ZeroClass, 0, Zeros(BD_ADDR_SIZE), 0, 0, 0, 0, 0, Zeros(PIN_CODE_SIZE),
         false, Zeros(LINK_KEY_SIZE), 0, 0, 0, 0, 0, 0, 0, Disconnected, 0)
  }

  // Device-type predicates read the class-of-device bitfields.
  predicate IsHID(c: Conn) { DeviceClass.IsHID(c.cod) }
  predicate IsMouse(c: Conn) { DeviceClass.IsMouse(c.cod) }
  predicate IsKeyboard(c: Conn) { DeviceClass.IsKeyboard(c.cod) }
  predicate IsJoystick(c: Conn) { DeviceClass.IsJoystick(c.cod) }
  predicate IsComputer(c: Conn) { DeviceClass.IsComputer(c.cod) }

  // Link-status predicates compare the state with one value each.
  predicate IsConnected(c: Conn) { c.state == Connected }
  predicate IsConnecting(c: Conn) { c.state == Connecting }
  predicate IsAuthenticated(c: Conn) { c.state == Authenticated }
  predicate IsDisconnected(c: Conn) { c.state == Disconnected }

  /** `memcmp` over the six address bytes. */
  predicate HasBDAddress(c: Conn, addr: Bytes)
    requires |addr| == BD_ADDR_SIZE
  {
    c.addr == addr
  }

  predicate HasConnectionHandle(c: Conn, handle: u16)
  {
    c.handle == handle
  }

  /** Length of the NUL-terminated string at the start of `s` (all of `s` if it has no NUL). */
  function StrLen(s: Bytes): (n: nat)
    ensures n <= |s|
    ensures forall i :: 0 <= i < n ==> s[i] != 0
    ensures n < |s| ==> s[n] == 0
  {
    if |s| == 0 || s[0] == 0 then 0 else 1 + StrLen(s[1..])
  }

  function SetBDAddress(c: Conn, addr: Bytes): (r: Conn)
    requires ValidConn(c) && |addr| == BD_ADDR_SIZE
    ensures ValidConn(r) && HasBDAddress(r, addr)
    ensures r.(addr := c.addr) == c
  {
    c.(addr := addr)
  }

  /** `memcpy` of the three class bytes over the bitfield struct. */
  function SetClassOfDevice(c: Conn, cod: Bytes): (r: Conn)
    requires ValidConn(c) && |cod| == CLASS_SIZE
    ensures ValidConn(r) && DeviceClass.Pack(r.cod) == cod
    ensures r.(cod := c.cod) == c
  {
    DeviceClass.PackUnpack(cod);
    c.(cod := DeviceClass.Unpack(cod))
  }

  /**
   * Copies the string without its terminator over the start of the name
   * buffer: the bytes past the copied length keep what they held.
   */
  function SetRemoteName(c: Conn, name: Bytes): (r: Conn)
    requires ValidConn(c) && StrLen(name) <= NAME_SIZE
    ensures ValidConn(r)
    ensures r.remoteName[..StrLen(name)] == name[..StrLen(name)]
    ensures r.remoteName[StrLen(name)..] == c.remoteName[StrLen(name)..]
    ensures r.(remoteName := c.remoteName) == c
  {
    var n := StrLen(name);
    c.(remoteName := name[..n] + c.remoteName[n..])
  }

  /** The key is always copied; the valid flag is only ever raised, never cleared. */
  function SetLinkKey(c: Conn, key: Bytes, valid: bool): (r: Conn)
    requires ValidConn(c) && |key| == LINK_KEY_SIZE
    ensures ValidConn(r) && r.linkKey == key
    ensures r.linkKeyValid <==> c.linkKeyValid || valid
    ensures r.(linkKey := c.linkKey, linkKeyValid := c.linkKeyValid) == c
  {
    if valid then c.(linkKey := key, linkKeyValid := true) else c.(linkKey := key)
  }

  function SetState(c: Conn, s: ConnState): (r: Conn)
    ensures r.state == s && r.(state := c.state) == c
  {
    c.(state := s)
  }

  function SetStatus(c: Conn, status: byte): (r: Conn)
    ensures r.status == status && r.(status := c.status) == c
  {
    c.(status := status)
  }

  function SetMode(c: Conn, mode: byte, interval: u16): (r: Conn)
    ensures r.mode == mode && r.interval == interval
    ensures r.(mode := c.mode, interval := c.interval) == c
  {
    c.(mode := mode, interval := interval)
  }

  /**
   * The PIN as the PIN-code reply sends it: `pinSize` bytes from the front
   * of the 16-byte PIN array.
   */
  function PinCode(c: Conn): (p: Bytes)
    requires ValidConn(c)
    ensures |p| == c.pinSize <= PIN_CODE_SIZE
  {
    c.pin[..c.pinSize]
  }

  /** Setting a PIN as Authenticate does: length, zero fill, then the bytes. */
  function SetPin(c: Conn, pin: Bytes): (r: Conn)
    requires ValidConn(c) && |pin| <= PIN_CODE_SIZE
    ensures ValidConn(r) && PinCode(r) == pin
    ensures r.pin[|pin|..] == Zeros(PIN_CODE_SIZE - |pin|)
  {
    c.(pinSize := |pin|, pin := ZeroPadded(pin, PIN_CODE_SIZE))
  }

  /** Setting only the PIN length, with the PIN itself left all zero. */
  function SetPinSizeOnly(c: Conn, pin: Bytes): (r: Conn)
    requires ValidConn(c) && |pin| <= PIN_CODE_SIZE
    ensures ValidConn(r) && r.pinSize == |pin| && PinCode(r) == Zeros(|pin|)
  {
    c.(pinSize := |pin|, pin := Zeros(PIN_CODE_SIZE))
  }

  /** The other role: ROLE_MASTER (0) and ROLE_SLAVE (1) swap. */
  function OtherRole(role: byte): (r: byte)
    ensures role == 0 ==> r == 1
    ensures role != 0 ==> r == 0
  {
    if role == 0 then 1 else 0
  }
}

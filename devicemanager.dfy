// Controller bring-up (src/common/btdevicemanager.cpp together with the
// Command Complete and Command Status handlers of src/hci/bthcievent.cpp):
// Reset, an optional firmware download over UART, then Read-BD-Addr,
// Write-Class-of-Device, Write-Local-Name and Write-Scan-Enable, each
// command sent when the previous one completes, ending in Running, or in
// Failed as soon as a command completes with an error.
//
// The HCI layer's SendCommand and SetCommandPackets are represented by the
// manager's own record of what it handed over: the frames in `sent` and
// the credits in `granted`.
module DeviceManager {
  import opened Bytes
  import BtQueue
  import DeviceClass
  import HciCommand
  import HciEvent
  import Connection

  datatype DevState =
    | ResetPending
    | WriteRAMPending
    | LaunchRAMPending
    | ReadBDAddrPending
    | WriteClassOfDevicePending
    | WriteLocalNamePending
    | WriteScanEnabledPending
    | Running
    | Failed
    | Unknown

  // ---------------------------------------------------------------------
  // The firmware blob: a chain of records, each a little-endian opcode, a
  // length byte and that many payload bytes, ending with Launch-RAM.

  predicate RecordFits(fw: Bytes, off: nat)
  {
    off + 3 <= |fw| && off + 3 + fw[off + 2] <= |fw|
  }

  function RecordOp(fw: Bytes, off: nat): u16
    requires off + 3 <= |fw|
  {
    fw[off] as int + 0x100 * fw[off + 1] as int
  }

  function RecordPayload(fw: Bytes, off: nat): (p: Bytes)
    requires RecordFits(fw, off)
    ensures |p| == fw[off + 2]
  {
    fw[off + 3..off + 3 + fw[off + 2]]
  }

  /** The offset of the record after the one at `off`: 3 header bytes plus the payload. */
  function NextRecord(fw: Bytes, off: nat): (next: nat)
    requires RecordFits(fw, off)
    ensures off + 3 <= next <= |fw|
  {
    off + 3 + fw[off + 2]
  }

  /** Every record from `off` on lies inside the blob, up to and including a Launch-RAM record. */
  predicate WellFormedFrom(fw: Bytes, off: nat)
    decreases |fw| - off
  {
    RecordFits(fw, off)
    && (RecordOp(fw, off) == HciCommand.OP_LAUNCH_RAM || WellFormedFrom(fw, NextRecord(fw, off)))
  }

  // ---------------------------------------------------------------------
  // The bring-up machine.

  /** What the manager is set up with and never changes. */
  datatype Config = Config(uart: bool, firmware: Bytes, cod: DeviceClass.ClassOfDevice, localName: Bytes)

  predicate ValidConfig(cfg: Config)
  {
    && DeviceClass.Valid(cfg.cod)
    && |cfg.localName| == NAME_SIZE
    && (cfg.uart ==> WellFormedFrom(cfg.firmware, 0))
  }

  /** The fields the handlers change; `connection` is the id of m_pConnection, 0 for null. */
  datatype MState = MState(state: DevState, bdAddr: Bytes, fwOffset: nat, connection: nat)

  predicate ValidState(cfg: Config, s: MState)
  {
    |s.bdAddr| == BD_ADDR_SIZE
    && (s.state == WriteRAMPending ==> WellFormedFrom(cfg.firmware, s.fwOffset))
  }

  /** A handler's effect: the new state, the commands it sends in order, and the credits it grants. */
  datatype Out = Out(next: MState, sent: seq<HciCommand.Command>, credits: nat)

  predicate ValidConns(conns: map<nat, Connection.Conn>)
  {
    forall id :: id in conns ==> Connection.ValidConn(conns[id])
  }

  /**
   * The return parameters the handler reads are present: the local address
   * after a Read-BD-Addr, MaxNumKeys and NumKeysRead after a
   * Read-Stored-Link-Key.
   */
  predicate ReturnedFits(opcode: u16, returned: Bytes)
  {
    && (opcode == HciCommand.OP_READ_BD_ADDR ==> |returned| >= BD_ADDR_SIZE)
    && (opcode == HciCommand.OP_READ_STORED_LINK_KEY ==> |returned| >= 4)
  }

  /** The opcodes whose completions drive the bring-up before the local address is known. */
  predicate BringUpOpcode(opcode: u16)
  {
    opcode == HciCommand.OP_RESET || opcode == HciCommand.OP_DOWNLOAD_MINIDRIVER
    || opcode == HciCommand.OP_WRITE_RAM || opcode == HciCommand.OP_LAUNCH_RAM
    || opcode == HciCommand.OP_READ_BD_ADDR
  }

  /** The state advances from `expected` to `next` sending `cmds`; in any other state nothing happens. */
  function Advance(s: MState, expected: DevState, next: DevState, cmds: seq<HciCommand.Command>,
                   credits: nat): (o: Out)
  {
    if s.state == expected then Out(s.(state := next), cmds, credits) else Out(s, [], credits)
  }

  /**
   * `CBTHCIEventCommandComplete::Process`: grant the completion's command
   * credits, fail on an error status, otherwise take the opcode's step when
   * the machine is in the state that expects it.
   */
  function CompleteStep(cfg: Config, s: MState, conns: map<nat, Connection.Conn>,
                        numPackets: byte, opcode: u16, status: byte, returned: Bytes): (o: Out)
    requires ValidConfig(cfg) && ValidState(cfg, s) && ValidConns(conns) && ReturnedFits(opcode, returned)
    ensures ValidState(cfg, o.next) && HciCommand.AllWellFormed(o.sent)
    ensures o.credits == numPackets
    ensures status != HciEvent.STATUS_SUCCESS ==> o.next == s.(state := Failed) && o.sent == []
  {
    if status != HciEvent.STATUS_SUCCESS then Out(s.(state := Failed), [], numPackets)
    else if opcode == HciCommand.OP_RESET then
      if s.state != ResetPending then Out(s, [], numPackets)
      else if !cfg.uart then Out(s.(state := ReadBDAddrPending), [HciCommand.ReadBDAddr], numPackets)
      else Out(s.(state := WriteRAMPending, fwOffset := 0),
               [HciCommand.Vendor(HciCommand.OP_DOWNLOAD_MINIDRIVER, [])], numPackets)
    else if opcode == HciCommand.OP_DOWNLOAD_MINIDRIVER || opcode == HciCommand.OP_WRITE_RAM then
      if s.state != WriteRAMPending then Out(s, [], numPackets)
      else FirmwareStep(cfg, s, numPackets)
    else if opcode == HciCommand.OP_LAUNCH_RAM then
      Advance(s, LaunchRAMPending, ReadBDAddrPending, [HciCommand.ReadBDAddr], numPackets)
    else if opcode == HciCommand.OP_READ_BD_ADDR then
      if s.state != ReadBDAddrPending then Out(s, [], numPackets)
      else Out(s.(state := WriteClassOfDevicePending, bdAddr := returned[..BD_ADDR_SIZE]),
               [HciCommand.WriteClassOfDevice(cfg.cod)], numPackets)
    else if opcode == HciCommand.OP_READ_STORED_LINK_KEY then
      if s.state != Running then Out(s, [], numPackets)
      else Out(s.(connection := 0), LinkKeyReply(conns, s.connection, HciEvent.ReturnedNumKeysRead(returned)),
               numPackets)
    else if opcode == HciCommand.OP_WRITE_CLASS_OF_DEVICE then
      Advance(s, WriteClassOfDevicePending, WriteLocalNamePending, [HciCommand.WriteLocalName(cfg.localName)],
              numPackets)
    else if opcode == HciCommand.OP_WRITE_LOCAL_NAME then
      Advance(s, WriteLocalNamePending, WriteScanEnabledPending,
              [HciCommand.WriteScanEnable(HciCommand.SCAN_ENABLE_BOTH_ENABLED)], numPackets)
    else if opcode == HciCommand.OP_WRITE_SCAN_ENABLE then
      Advance(s, WriteScanEnabledPending, Running, [], numPackets)
    else Out(s, [], numPackets)
  }

  /**
   * One step of the firmware walk: send the record at the current offset
   * as a vendor command and move past it; a Launch-RAM record ends the walk.
   */
  function FirmwareStep(cfg: Config, s: MState, numPackets: byte): (o: Out)
    requires ValidState(cfg, s) && s.state == WriteRAMPending
    ensures ValidState(cfg, o.next) && HciCommand.AllWellFormed(o.sent)
    ensures o.next.fwOffset == NextRecord(cfg.firmware, s.fwOffset) > s.fwOffset
    ensures o.sent == [HciCommand.Vendor(RecordOp(cfg.firmware, s.fwOffset), RecordPayload(cfg.firmware, s.fwOffset))]
    ensures o.next.state == (if RecordOp(cfg.firmware, s.fwOffset) == HciCommand.OP_LAUNCH_RAM
                             then LaunchRAMPending else WriteRAMPending)
  {
    var fw := cfg.firmware;
    var off := s.fwOffset;
    var op := RecordOp(fw, off);
    Out(s.(fwOffset := NextRecord(fw, off),
           state := if op == HciCommand.OP_LAUNCH_RAM then LaunchRAMPending else WriteRAMPending),
        [HciCommand.Vendor(op, RecordPayload(fw, off))], numPackets)
  }

  /**
   * The answer to a pending link-key request once the stored-key lookup
   * completes: the connection's key when the controller read one, a
   * negative reply otherwise. Without a connection nothing is sent.
   */
  function LinkKeyReply(conns: map<nat, Connection.Conn>, connection: nat, numKeysRead: u16): (cs: seq<HciCommand.Command>)
    requires ValidConns(conns)
    ensures HciCommand.AllWellFormed(cs) && |cs| <= 1
    ensures connection in conns <==> |cs| == 1
  {
    if connection !in conns then []
    else if numKeysRead != 0 then
      [HciCommand.LinkKeyRequestReply(conns[connection].addr, conns[connection].linkKey)]
    else [HciCommand.LinkKeyRequestNegativeReply(conns[connection].addr)]
  }

  /**
   * A frame the device-event queue may hold: at most one event buffer
   * long, long enough for its layout, and, for a Command Complete, carrying
   * the return parameters its opcode's step reads.
   */
  predicate DeviceFrame(f: Bytes)
  {
    && HciEvent.LongEnough(f) && |f| <= MAX_HCI_EVENT_SIZE
    && (f[0] == HciEvent.EVENT_COMMAND_COMPLETE ==> ReturnedFits(ReadLE16(f, 3), f[6..]))
  }

  /**
   * The handler table entry for a frame on the device-event queue: Command
   * Complete runs the bring-up step, Command Status only grants credits.
   * Only these two codes are routed to this queue; any other is ignored.
   */
  function Dispatch(cfg: Config, s: MState, conns: map<nat, Connection.Conn>, f: Bytes): (o: Out)
    requires ValidConfig(cfg) && ValidState(cfg, s) && ValidConns(conns) && DeviceFrame(f)
    ensures ValidState(cfg, o.next) && HciCommand.AllWellFormed(o.sent)
  {
    if f[0] == HciEvent.EVENT_COMMAND_COMPLETE then
      CompleteStep(cfg, s, conns, f[2], ReadLE16(f, 3), f[5], f[6..])
    else if f[0] == HciEvent.EVENT_COMMAND_STATUS then Out(s, [], f[3])
    else Out(s, [], 0)
  }

  /**
   * Dispatch reads the same fields the event parser does: a Command
   * Complete's credits, opcode, status and return parameters, and a Command
   * Status's credits.
   */
  lemma DispatchAsParsed(cfg: Config, s: MState, conns: map<nat, Connection.Conn>, f: Bytes)
    requires ValidConfig(cfg) && ValidState(cfg, s) && ValidConns(conns) && DeviceFrame(f)
    ensures Dispatch(cfg, s, conns, f) ==
      match HciEvent.Parse(f)
      case CommandComplete(numPackets, opcode, status, returned) =>
        CompleteStep(cfg, s, conns, numPackets, opcode, status, returned)
      case CommandStatus(_, numPackets, _) => Out(s, [], numPackets)
      case _ => Out(s, [], 0)
  {
  }

  /** Every frame of the sequence is a device frame. */
  predicate AllFrames(fs: seq<Bytes>)
  {
    |fs| == 0 || (DeviceFrame(fs[0]) && AllFrames(fs[1..]))
  }

  lemma {:induction false} AllFramesAppend(a: seq<Bytes>, b: seq<Bytes>)
    ensures AllFrames(a + b) <==> AllFrames(a) && AllFrames(b)
  {
    if |a| > 0 {
      assert (a + b)[1..] == a[1..] + b;
      AllFramesAppend(a[1..], b);
    } else {
      assert a + b == b;
    }
  }

  /** Dispatching the frames in FIFO order, effects concatenated. */
  function Run(cfg: Config, s: MState, conns: map<nat, Connection.Conn>, fs: seq<Bytes>): (o: Out)
    requires ValidConfig(cfg) && ValidState(cfg, s) && ValidConns(conns) && AllFrames(fs)
    ensures ValidState(cfg, o.next) && HciCommand.AllWellFormed(o.sent)
    decreases |fs|
  {
    if |fs| == 0 then Out(s, [], 0)
    else
      var d := Dispatch(cfg, s, conns, fs[0]);
      var r := Run(cfg, d.next, conns, fs[1..]);
      Out(r.next, d.sent + r.sent, d.credits + r.credits)
  }

  /**
   * Processing two batches of frames one after the other is processing
   * them as one batch: the second starts where the first ended, and the
   * commands and credits add up.
   */
  lemma {:induction false} RunAppend(cfg: Config, s: MState, conns: map<nat, Connection.Conn>,
                                     a: seq<Bytes>, b: seq<Bytes>)
    requires ValidConfig(cfg) && ValidState(cfg, s) && ValidConns(conns) && AllFrames(a) && AllFrames(b)
    ensures AllFrames(a + b)
    ensures var ra := Run(cfg, s, conns, a);
      var rb := Run(cfg, ra.next, conns, b);
      Run(cfg, s, conns, a + b) == Out(rb.next, ra.sent + rb.sent, ra.credits + rb.credits)
    decreases |a|
  {
    AllFramesAppend(a, b);
    if |a| > 0 {
      AllFramesAppend(a[1..], b);
      assert a + b == [a[0]] + (a[1..] + b);
      RunCons(cfg, s, conns, a[0], a[1..] + b);
      var d := Dispatch(cfg, s, conns, a[0]);
      RunAppend(cfg, d.next, conns, a[1..], b);
      var rest := Run(cfg, d.next, conns, a[1..]);
      var rb := Run(cfg, rest.next, conns, b);
      Associative(d.sent, rest.sent, rb.sent);
    } else {
      assert a + b == b;
    }
  }

  /** A batch that starts with frame x dispatches x first. */
  lemma RunCons(cfg: Config, s: MState, conns: map<nat, Connection.Conn>, x: Bytes, rest: seq<Bytes>)
    requires ValidConfig(cfg) && ValidState(cfg, s) && ValidConns(conns) && DeviceFrame(x) && AllFrames(rest)
    ensures AllFrames([x] + rest)
    ensures var d := Dispatch(cfg, s, conns, x);
      var r := Run(cfg, d.next, conns, rest);
      Run(cfg, s, conns, [x] + rest) == Out(r.next, d.sent + r.sent, d.credits + r.credits)
  {
    assert ([x] + rest)[0] == x && ([x] + rest)[1..] == rest;
  }

  lemma Associative<T>(a: seq<T>, b: seq<T>, c: seq<T>)
    ensures a + b + c == a + (b + c)
  {
  }

  /** The frames handed to the HCI layer for a list of commands. */
  function EncodeAll(cs: seq<HciCommand.Command>): (fs: seq<Bytes>)
    requires HciCommand.AllWellFormed(cs)
    ensures |fs| == |cs| && forall i :: 0 <= i < |cs| ==> fs[i] == HciCommand.Encode(cs[i])
  {
    if |cs| == 0 then [] else EncodeAll(cs[..|cs| - 1]) + [HciCommand.Encode(cs[|cs| - 1])]
  }

  lemma EncodeOne(c: HciCommand.Command)
    requires HciCommand.WellFormed(c)
    ensures HciCommand.AllWellFormed([c]) && EncodeAll([c]) == [HciCommand.Encode(c)]
  {
    assert [c][..0] == [];
  }

  lemma EncodeAllAppend(a: seq<HciCommand.Command>, b: seq<HciCommand.Command>)
    requires HciCommand.AllWellFormed(a) && HciCommand.AllWellFormed(b)
    ensures HciCommand.AllWellFormed(a + b) && EncodeAll(a + b) == EncodeAll(a) + EncodeAll(b)
  {
    assert HciCommand.AllWellFormed(a + b);
  }

  /**
   * `strncpy` into the zero-filled 248-byte name: the string up to its NUL
   * or the 248th byte, the rest zero.
   */
  function LocalNameOf(name: Bytes): (r: Bytes)
    ensures |r| == NAME_SIZE
    ensures var n := Connection.StrLen(name);
      var m := if n < NAME_SIZE then n else NAME_SIZE;
      r[..m] == name[..m] && forall i :: m <= i < NAME_SIZE ==> r[i] == 0
  {
    var n := Connection.StrLen(name);
    var m := if n < NAME_SIZE then n else NAME_SIZE;
    ZeroPadded(name[..m], NAME_SIZE)
  }

  /** The frames handed over for a firmware step: its one vendor command, encoded. */
  lemma FirmwareStepFrame(cfg: Config, s: MState)
    requires ValidState(cfg, s) && s.state == WriteRAMPending
    ensures EncodeAll(FirmwareStep(cfg, s, 0).sent) ==
      [HciCommand.Encode(HciCommand.Vendor(RecordOp(cfg.firmware, s.fwOffset), RecordPayload(cfg.firmware, s.fwOffset)))]
  {
    EncodeOne(HciCommand.Vendor(RecordOp(cfg.firmware, s.fwOffset), RecordPayload(cfg.firmware, s.fwOffset)));
  }

  class Manager {
    const config: Config
    const eventQueue: BtQueue.Queue
    const buffer: array<byte>
    var state: DevState
    var bdAddr: Bytes
    var firmwareOffset: nat
    var connection: nat
    var sent: seq<Bytes>
    var granted: nat

    ghost predicate Valid()
      reads this, eventQueue
    {
      && ValidConfig(config) && ValidState(config, MachineState())
      && eventQueue.Valid() && eventQueue.init && buffer.Length == MAX_HCI_EVENT_SIZE
    }

    function MachineState(): MState
      reads this
    {
      MState(state, bdAddr, firmwareOffset, connection)
    }

    /** A new manager is in state Unknown with the given class and the `strncpy`'d name. */
    constructor (queue: BtQueue.Queue, cod: DeviceClass.ClassOfDevice, localName: Bytes,
                 uart: bool, firmware: Bytes)
      requires queue.Valid() && queue.init && DeviceClass.Valid(cod)
      requires uart ==> WellFormedFrom(firmware, 0)
      ensures Valid() && fresh(buffer)
      ensures eventQueue == queue && state == Unknown && connection == 0
      ensures config == Config(uart, firmware, cod, LocalNameOf(localName))
      ensures sent == [] && granted == 0
    {
      config := Config(uart, firmware, cod, LocalNameOf(localName));
      eventQueue := queue;
      buffer := new byte[MAX_HCI_EVENT_SIZE];
      state := Unknown;
      bdAddr := Zeros(BD_ADDR_SIZE);
      firmwareOffset := 0;
      connection := 0;
      sent := [];
      granted := 0;
    }

    /** Sends exactly one Reset and waits for its completion in ResetPending. */
    method Initialize()
      modifies this
      requires Valid()
      ensures Valid() && state == ResetPending
      ensures sent == old(sent) + [HciCommand.Encode(HciCommand.Reset)]
      ensures bdAddr == old(bdAddr) && firmwareOffset == old(firmwareOffset)
      ensures connection == old(connection) && granted == old(granted)
    {
      sent := sent + [HciCommand.Encode(HciCommand.Reset)];
      state := ResetPending;
    }

    /** TRUE (an error) and nothing sent exactly when there is no data or its length is 0. */
    method SendHCICommand(data: Option<Bytes>) returns (error: bool)
      modifies this
      requires Valid()
      requires data.Some? ==> |data.value| <= MAX_HCI_COMMAND_SIZE
      ensures Valid()
      ensures error <==> data.None? || |data.value| == 0
      ensures !error ==> sent == old(sent) + [data.value]
      ensures error ==> sent == old(sent)
      ensures MachineState() == old(MachineState()) && granted == old(granted)
    {
      if data.Some? && |data.value| > 0 {
        sent := sent + [data.value];
        return false;
      }
      return true;
    }

    method SetConnection(id: nat)
      modifies this
      requires Valid()
      ensures Valid() && MachineState() == old(MachineState()).(connection := id)
      ensures sent == old(sent) && granted == old(granted)
    {
      connection := id;
    }

    function GetBDAddr(): (a: Bytes)
      reads this
    {
      bdAddr
    }

    /** Copies exactly the first six bytes of `addr`; GetBDAddr then returns them. */
    method SetBDAddr(addr: Bytes)
      modifies this
      requires Valid() && |addr| >= BD_ADDR_SIZE
      ensures Valid() && GetBDAddr() == addr[..BD_ADDR_SIZE]
      ensures MachineState() == old(MachineState()).(bdAddr := addr[..BD_ADDR_SIZE])
      ensures sent == old(sent) && granted == old(granted)
    {
      bdAddr := addr[..BD_ADDR_SIZE];
    }

    function DeviceIsRunning(): (r: bool)
      reads this
      ensures r <==> state == Running
    {
      state == Running
    }

    /** One Command Complete frame, as the handler processes it. */
    method CommandComplete(conns: map<nat, Connection.Conn>, numPackets: byte, opcode: u16, status: byte,
                           returned: Bytes)
      modifies this
      requires Valid() && ValidConns(conns) && ReturnedFits(opcode, returned)
      ensures Valid()
      ensures var o := CompleteStep(config, old(MachineState()), conns, numPackets, opcode, status, returned);
        MachineState() == o.next && sent == old(sent) + EncodeAll(o.sent) && granted == old(granted) + o.credits
    {
      granted := granted + numPackets;
      if status != HciEvent.STATUS_SUCCESS {
        state := Failed;
        return;
      }
      if BringUpOpcode(opcode) {
        BringUpComplete(conns, numPackets, opcode, returned);
      } else {
        RunningComplete(conns, numPackets, opcode, returned);
      }
    }

    /** A successful completion of Reset, Download-Minidriver, Write-RAM, Launch-RAM or Read-BD-Addr. */
    method BringUpComplete(conns: map<nat, Connection.Conn>, numPackets: byte, opcode: u16, returned: Bytes)
      modifies this
      requires Valid() && ValidConns(conns) && ReturnedFits(opcode, returned) && BringUpOpcode(opcode)
      ensures Valid()
      ensures var o := CompleteStep(config, old(MachineState()), conns, numPackets, opcode, HciEvent.STATUS_SUCCESS, returned);
        MachineState() == o.next && sent == old(sent) + EncodeAll(o.sent) && granted == old(granted)
    {
      if opcode == HciCommand.OP_RESET {
        if state == ResetPending {
          if !config.uart {
            sent := sent + [HciCommand.Encode(HciCommand.ReadBDAddr)];
            state := ReadBDAddrPending;
          } else {
            sent := sent + [HciCommand.Encode(HciCommand.Vendor(HciCommand.OP_DOWNLOAD_MINIDRIVER, []))];
            firmwareOffset := 0;
            state := WriteRAMPending;
          }
        }
      } else if opcode == HciCommand.OP_DOWNLOAD_MINIDRIVER || opcode == HciCommand.OP_WRITE_RAM {
        if state == WriteRAMPending {
          WalkFirmware();
        }
      } else {
        AddressComplete(conns, numPackets, opcode, returned);
      }
    }

    /** A successful completion of Launch-RAM or Read-BD-Addr. */
    method AddressComplete(conns: map<nat, Connection.Conn>, numPackets: byte, opcode: u16, returned: Bytes)
      modifies this
      requires Valid() && ValidConns(conns) && ReturnedFits(opcode, returned)
      requires opcode == HciCommand.OP_LAUNCH_RAM || opcode == HciCommand.OP_READ_BD_ADDR
      ensures Valid()
      ensures var o := CompleteStep(config, old(MachineState()), conns, numPackets, opcode, HciEvent.STATUS_SUCCESS, returned);
        MachineState() == o.next && sent == old(sent) + EncodeAll(o.sent) && granted == old(granted)
    {
      if opcode == HciCommand.OP_LAUNCH_RAM {
        if state == LaunchRAMPending {
          sent := sent + [HciCommand.Encode(HciCommand.ReadBDAddr)];
          state := ReadBDAddrPending;
        }
      } else {
        if state == ReadBDAddrPending {
          SetBDAddr(returned);
          sent := sent + [HciCommand.Encode(HciCommand.WriteClassOfDevice(config.cod))];
          state := WriteClassOfDevicePending;
        }
      }
    }

    /** A successful completion of any other opcode: the link-key lookup and the last bring-up steps. */
    method RunningComplete(conns: map<nat, Connection.Conn>, numPackets: byte, opcode: u16, returned: Bytes)
      modifies this
      requires Valid() && ValidConns(conns) && ReturnedFits(opcode, returned) && !BringUpOpcode(opcode)
      ensures Valid()
      ensures var o := CompleteStep(config, old(MachineState()), conns, numPackets, opcode, HciEvent.STATUS_SUCCESS, returned);
        MachineState() == o.next && sent == old(sent) + EncodeAll(o.sent) && granted == old(granted)
    {
      if opcode == HciCommand.OP_READ_STORED_LINK_KEY {
        if state == Running {
          sent := sent + EncodeAll(LinkKeyReply(conns, connection, HciEvent.ReturnedNumKeysRead(returned)));
          connection := 0;
        }
      } else if opcode == HciCommand.OP_WRITE_CLASS_OF_DEVICE {
        if state == WriteClassOfDevicePending {
          sent := sent + [HciCommand.Encode(HciCommand.WriteLocalName(config.localName))];
          state := WriteLocalNamePending;
        }
      } else if opcode == HciCommand.OP_WRITE_LOCAL_NAME {
        if state == WriteLocalNamePending {
          sent := sent + [HciCommand.Encode(HciCommand.WriteScanEnable(HciCommand.SCAN_ENABLE_BOTH_ENABLED))];
          state := WriteScanEnabledPending;
        }
      } else if opcode == HciCommand.OP_WRITE_SCAN_ENABLE {
        if state == WriteScanEnabledPending {
          state := Running;
        }
      }
    }

    /** Reads the next record header and sends the record as a vendor command. */
    method WalkFirmware()
      modifies this
      requires Valid() && state == WriteRAMPending
      ensures Valid()
      ensures var o := FirmwareStep(config, old(MachineState()), 0);
        MachineState() == o.next && sent == old(sent) + EncodeAll(o.sent) && granted == old(granted)
    {
      var fw := config.firmware;
      var op := RecordOp(fw, firmwareOffset);
      var frame, next := HciCommand.VendorCommand(op, fw[firmwareOffset + 2], fw, firmwareOffset + 3);
      SendRecord(op, frame, next);
    }

    /** Sends the vendor command built from the current record and moves past it. */
    method SendRecord(op: u16, frame: Bytes, next: nat)
      modifies this
      requires Valid() && state == WriteRAMPending && RecordFits(config.firmware, firmwareOffset)
      requires op == RecordOp(config.firmware, firmwareOffset)
      requires next == firmwareOffset + 3 + config.firmware[firmwareOffset + 2]
      requires frame == HciCommand.Encode(HciCommand.Vendor(op, config.firmware[firmwareOffset + 3..next]))
      ensures Valid()
      ensures var o := FirmwareStep(config, old(MachineState()), 0);
        MachineState() == o.next && sent == old(sent) + EncodeAll(o.sent) && granted == old(granted)
    {
      FirmwareStepFrame(config, MachineState());
      sent := sent + [frame];
      firmwareOffset := next;
      state := if op == HciCommand.OP_LAUNCH_RAM then LaunchRAMPending else state;
    }

    /** Dispatches one dequeued frame. */
    method Handle(conns: map<nat, Connection.Conn>, f: Bytes)
      modifies this
      requires Valid() && ValidConns(conns) && DeviceFrame(f)
      ensures Valid()
      ensures var o := Dispatch(config, old(MachineState()), conns, f);
        MachineState() == o.next && sent == old(sent) + EncodeAll(o.sent) && granted == old(granted) + o.credits
    {
      if f[0] == HciEvent.EVENT_COMMAND_COMPLETE {
        CommandComplete(conns, f[2], ReadLE16(f, 3), f[5], f[6..]);
      } else if f[0] == HciEvent.EVENT_COMMAND_STATUS {
        granted := granted + f[3];
      }
    }

    /** Every frame waiting on the device-event queue is one the handlers accept. */
    ghost predicate QueuedFrames()
      reads this, eventQueue
    {
      AllFrames(BtQueue.Payloads(eventQueue.entries))
    }

    /**
     * Handling what is still queued would complete the run `total` that
     * began with `sent0` sent and `granted0` granted.
     */
    ghost predicate Completes(conns: map<nat, Connection.Conn>, total: Out, sent0: seq<Bytes>, granted0: nat)
      reads this, eventQueue
      requires Valid() && ValidConns(conns) && QueuedFrames() && HciCommand.AllWellFormed(total.sent)
    {
      var r := Run(config, MachineState(), conns, BtQueue.Payloads(eventQueue.entries));
      total.next == r.next && sent0 + EncodeAll(total.sent) == sent + EncodeAll(r.sent)
      && granted0 + total.credits == granted + r.credits
    }

    /**
     * Takes the head frame off the device-event queue into the event
     * buffer and dispatches it; FALSE, with nothing changed, when there is
     * none.
     */
    method ProcessNext(conns: map<nat, Connection.Conn>, ghost total: Out, ghost sent0: seq<Bytes>,
                       ghost granted0: nat) returns (more: bool)
      modifies this, eventQueue, buffer
      requires Valid() && ValidConns(conns) && QueuedFrames() && HciCommand.AllWellFormed(total.sent)
      requires Completes(conns, total, sent0, granted0)
      ensures Valid() && QueuedFrames() && Completes(conns, total, sent0, granted0)
      ensures more <==> old(eventQueue.entries) != []
      ensures eventQueue.entries == if more then old(eventQueue.entries)[1..] else old(eventQueue.entries)
    {
      ghost var before := eventQueue.entries;
      ghost var sentBefore := sent;
      var n, _ := eventQueue.Dequeue(buffer);
      if n == 0 {
        return false;
      }
      var f := buffer[..n];
      assert f == before[0].data;
      assert BtQueue.Payloads(before) == [f] + BtQueue.Payloads(eventQueue.entries);
      ghost var d := Dispatch(config, MachineState(), conns, f);
      ghost var r := Run(config, d.next, conns, BtQueue.Payloads(eventQueue.entries));
      Handle(conns, f);
      EncodeAllAppend(d.sent, r.sent);
      Associative(sentBefore, EncodeAll(d.sent), EncodeAll(r.sent));
      return true;
    }

    /** Drains the device-event queue, dispatching its frames in FIFO order. */
    method Process(conns: map<nat, Connection.Conn>)
      modifies this, eventQueue, buffer
      requires Valid() && ValidConns(conns) && QueuedFrames()
      ensures Valid()
      ensures var o := Run(config, old(MachineState()), conns, BtQueue.Payloads(old(eventQueue.entries)));
        MachineState() == o.next && sent == old(sent) + EncodeAll(o.sent) && granted == old(granted) + o.credits
      ensures eventQueue.entries == []
    {
      ghost var total := Run(config, MachineState(), conns, BtQueue.Payloads(eventQueue.entries));
      var more := true;
      while more
        invariant Valid() && QueuedFrames() && Completes(conns, total, old(sent), old(granted))
        invariant !more ==> eventQueue.entries == []
        decreases more, |eventQueue.entries|
      {
        more := ProcessNext(conns, total, old(sent), old(granted));
      }
    }
  }

  // ---------------------------------------------------------------------
  // Properties of the bring-up machine.

  function Complete(cfg: Config, s: MState, opcode: u16): (o: Out)
    requires ValidConfig(cfg) && ValidState(cfg, s) && opcode != HciCommand.OP_READ_BD_ADDR
      && opcode != HciCommand.OP_READ_STORED_LINK_KEY
  {
    CompleteStep(cfg, s, map[], 1, opcode, HciEvent.STATUS_SUCCESS, [])
  }

  /**
   * Without the firmware download, successful completions of Reset,
   * Read-BD-Addr, Write-Class-of-Device, Write-Local-Name and
   * Write-Scan-Enable take a manager from ResetPending to Running, sending
   * each next command once, in order, and recording the local address.
   */
  lemma BringUpWithoutFirmware(cfg: Config, s: MState, addr: Bytes)
    requires ValidConfig(cfg) && !cfg.uart && ValidState(cfg, s) && s.state == ResetPending
    requires |addr| == BD_ADDR_SIZE
    ensures var o1 := Complete(cfg, s, HciCommand.OP_RESET);
      var o2 := CompleteStep(cfg, o1.next, map[], 1, HciCommand.OP_READ_BD_ADDR, 0, addr);
      var o3 := Complete(cfg, o2.next, HciCommand.OP_WRITE_CLASS_OF_DEVICE);
      var o4 := Complete(cfg, o3.next, HciCommand.OP_WRITE_LOCAL_NAME);
      var o5 := Complete(cfg, o4.next, HciCommand.OP_WRITE_SCAN_ENABLE);
      && o5.next.state == Running && o5.next.bdAddr == addr
      && o1.sent + o2.sent + o3.sent + o4.sent + o5.sent
         == [HciCommand.ReadBDAddr, HciCommand.WriteClassOfDevice(cfg.cod),
             HciCommand.WriteLocalName(cfg.localName),
             HciCommand.WriteScanEnable(HciCommand.SCAN_ENABLE_BOTH_ENABLED)]
  {
  }

  /**
   * Over UART, Reset leads into the firmware walk at offset 0 and sends the
   * Download-Minidriver command.
   */
  lemma ResetStartsFirmwareWalk(cfg: Config, s: MState)
    requires ValidConfig(cfg) && cfg.uart && ValidState(cfg, s) && s.state == ResetPending
    ensures var o := Complete(cfg, s, HciCommand.OP_RESET);
      o.next.state == WriteRAMPending && o.next.fwOffset == 0
      && o.sent == [HciCommand.Vendor(HciCommand.OP_DOWNLOAD_MINIDRIVER, [])]
  {
  }

  /**
   * Whatever completes, a failed controller stays failed and sends nothing:
   * no opcode's step starts from Failed.
   */
  lemma FailedIsFinal(cfg: Config, s: MState, conns: map<nat, Connection.Conn>,
                      numPackets: byte, opcode: u16, status: byte, returned: Bytes)
    requires ValidConfig(cfg) && ValidState(cfg, s) && ValidConns(conns) && ReturnedFits(opcode, returned)
    requires s.state == Failed
    ensures var o := CompleteStep(cfg, s, conns, numPackets, opcode, status, returned);
      o.next.state == Failed && o.sent == []
  {
  }

  /**
   * A running controller stays running unless a command fails, and only a
   * stored-link-key lookup makes it send anything.
   */
  lemma RunningStaysRunning(cfg: Config, s: MState, conns: map<nat, Connection.Conn>,
                            numPackets: byte, opcode: u16, returned: Bytes)
    requires ValidConfig(cfg) && ValidState(cfg, s) && ValidConns(conns) && ReturnedFits(opcode, returned)
    requires s.state == Running
    ensures var o := CompleteStep(cfg, s, conns, numPackets, opcode, HciEvent.STATUS_SUCCESS, returned);
      o.next.state == Running
      && (o.sent != [] ==> opcode == HciCommand.OP_READ_STORED_LINK_KEY)
  {
  }

  /**
   * A completion whose opcode is not the one the current state waits for
   * changes nothing but the credits.
   */
  lemma UnexpectedCompletionIgnored(cfg: Config, s: MState, numPackets: byte, opcode: u16)
    requires ValidConfig(cfg) && ValidState(cfg, s)
    requires opcode != HciCommand.OP_READ_BD_ADDR && opcode != HciCommand.OP_READ_STORED_LINK_KEY
    requires s.state == ReadBDAddrPending || s.state == WriteLocalNamePending
    requires opcode != (if s.state == ReadBDAddrPending then HciCommand.OP_READ_BD_ADDR
                        else HciCommand.OP_WRITE_LOCAL_NAME)
    ensures var o := CompleteStep(cfg, s, map[], numPackets, opcode, HciEvent.STATUS_SUCCESS, []);
      o.next == s && o.sent == [] && o.credits == numPackets
  {
  }

  /**
   * The firmware walk visits the records of a well-formed blob in order:
   * `k` Write-RAM completions from offset `off` send the next `k` records
   * and stop at the Launch-RAM record.
   */
  function Walk(fw: Bytes, off: nat, k: nat): (cs: seq<HciCommand.Command>)
    requires WellFormedFrom(fw, off)
    decreases k
  {
    var c := HciCommand.Vendor(RecordOp(fw, off), RecordPayload(fw, off));
    if k == 0 then []
    else if RecordOp(fw, off) == HciCommand.OP_LAUNCH_RAM then [c]
    else [c] + Walk(fw, NextRecord(fw, off), k - 1)
  }

  /** Number of records up to and including the Launch-RAM record. */
  function RecordCount(fw: Bytes, off: nat): (n: nat)
    requires WellFormedFrom(fw, off)
    ensures n >= 1
    decreases |fw| - off
  {
    if RecordOp(fw, off) == HciCommand.OP_LAUNCH_RAM then 1 else 1 + RecordCount(fw, NextRecord(fw, off))
  }

  /**
   * Walking a well-formed blob, each Write-RAM completion sends the next
   * record; after the Launch-RAM record's completion count the machine
   * waits in LaunchRAMPending.
   */
  lemma {:induction false} FirmwareWalkReachesLaunch(cfg: Config, s: MState)
    requires ValidConfig(cfg) && ValidState(cfg, s) && s.state == WriteRAMPending
    ensures WalkFrom(cfg, s, RecordCount(cfg.firmware, s.fwOffset)).next.state == LaunchRAMPending
    ensures WalkFrom(cfg, s, RecordCount(cfg.firmware, s.fwOffset)).sent
      == Walk(cfg.firmware, s.fwOffset, RecordCount(cfg.firmware, s.fwOffset))
    decreases |cfg.firmware| - s.fwOffset
  {
    var o := FirmwareStep(cfg, s, 1);
    if RecordOp(cfg.firmware, s.fwOffset) != HciCommand.OP_LAUNCH_RAM {
      FirmwareWalkReachesLaunch(cfg, o.next);
    }
  }

  /** `k` successful Write-RAM completions in a row. */
  function WalkFrom(cfg: Config, s: MState, k: nat): (o: Out)
    requires ValidConfig(cfg) && ValidState(cfg, s)
    decreases k
  {
    if k == 0 then Out(s, [], 0)
    else
      var o := Complete(cfg, s, HciCommand.OP_WRITE_RAM);
      var rest := WalkFrom(cfg, o.next, k - 1);
      Out(rest.next, o.sent + rest.sent, o.credits + rest.credits)
  }
}

# blueberry Bluetooth host stack — a Dafny model

blueberry is a Bluetooth Classic host stack for a bare-metal ARM system. It
brings up a controller over HCI, inquires and pages remote devices, runs the
L2CAP signalling state machine, and drives HID boot-protocol mice over HIDP.
This project models that stack's core, one Dafny module per source component,
and proves what each component promises.

- **HCI wire formats.** `HciCommand` encodes every command the stack sends
  (`include/bluetooth/btcommand.h`). `HciEvent` parses the events it
  handles, and `AclData` packs and unpacks the ACL data header.
  `DeviceClass` decodes the class of device.
- **HCI layer** (`HciLayer`, `src/hci/bthcilayer.cpp`). It keeps the command
  credits the controller grants, queues commands and ACL frames behind them,
  and reassembles events and ACL packets that arrive in chunks.
- **Device manager** (`DeviceManager`, `src/common/btdevicemanager.cpp`). This is
  the controller bring-up state machine: reset, firmware download, address,
  class, name and scan enable.
- **Logical layer** (`Logical`, `src/hci/btlogicallayer.cpp` and
  `src/hci/bthcievent.cpp`). It covers inquiry and remote names, the
  connection list and its lookups, connection requests, authentication
  (PIN and link key), role and mode changes, and the remote feature and
  version requests. Each connection is a `Connection.Conn` value.
- **L2CAP.** `L2capWire` models the packed signalling formats and the walks
  over commands and configuration options. `L2cap` models the channel table,
  the CID and identifier counters, the connect, configure, disconnect, write
  and read operations, and the handlers for incoming signalling commands and
  data. `L2capLayer.Layer` is the object holding that state, and its methods
  are proved against the `L2cap` functions.
- **HIDP and the mouse.** `Hidp.Layer` answers the L2CAP indications for the
  HID control and interrupt channels and routes input reports to devices.
  `Mouse` models the boot-report parser and the `CEvent` encoding it feeds.
- **Common structures.** `BtQueue.Queue` is the FIFO of buffers and
  `PtrArrays.PtrArray` the pointer array. `NameService.Registry` is the
  device name service. `Devices.Device` is the device object, and
  `SubSystem.SubSystem` is the device list behind `Accept` and `GetDevice`.
  `InquiryResults.Results` holds the responses an inquiry collects.
- **C interface** (`CInterface`, `src/common/btinterface.cpp`). It models
  the `BT_Listen` result map, `BT_Check`, `BT_Free`, `BT_Accept` and
  `BT_GetEvent`.
- **UART transport** (`UartTransport.Transport`,
  `src/transport/uart/btuarttransport.cpp`). It covers the baud divisors,
  command and data framing with the H4 packet indicator, and the receive
  interrupt's deframer.

Unsigned source integers are modelled as Dafny subset types (`byte`, `u16`,
`u32`), and a wrap-around is written out where the source relies on one.
Objects whose fields the source updates in place are Dafny classes. Their
methods state their new state through a function of the old one, and the
lemmas are about those functions.

## Model

| member | source | states |
|---|---|---|
| AclData.HeaderWord | include/bluetooth/btdata.h:57-61 | the first header word holds the handle in bits 0-11, the boundary flag in bits 12-13 and the broadcast flag in bits 14-15 |
| AclData.EncodeHeader | include/bluetooth/btdata.h:57-65 | the packed header is exactly 4 bytes |
| AclData.DecodeHeader | include/bluetooth/btdata.h:57-65 | any 4 header bytes read back as fields within their bit widths |
| AclData.BoundaryFlag | include/bluetooth/btdata.h:58-60 | the boundary flag is bits 4-5 of the second byte |
| AclData.DecodeEncodeHeader | include/bluetooth/btdata.h:57-66 | decoding an encoded header, whatever payload follows, gives back the header and its boundary flag |
| AclData.EncodeDecodeHeader | include/bluetooth/btdata.h:57-65 | re-encoding a decoded header reproduces the 4 bytes it was read from |
| AclData.Packet | include/bluetooth/btdata.h:65-66 | a packet is 4 + DataTotalLength bytes long |
| AclData.PacketPayload | include/bluetooth/btdata.h:66 | the payload starts right after the 4-byte header, and the header decodes back |
| DeviceClass.Pack | include/bluetooth/btdevicemanager.h:79-83 | the class of device occupies 3 packed bytes |
| DeviceClass.Unpack | include/bluetooth/btdevicemanager.h:79-83 | 3 bytes read as minor (8 bits), major (5 bits) and service (11 bits) fields within their widths |
| DeviceClass.UnpackPack | include/bluetooth/btdevicemanager.h:79-83 | unpacking the packed bytes gives back the class |
| DeviceClass.PackUnpack | include/bluetooth/btdevicemanager.h:79-83 | packing the unpacked bytes gives back the 3 bytes |
| DeviceClass.RawClassTests | include/bluetooth/bluetooth.h:160-163 | the map's byte tests for mouse, keyboard and joystick agree exactly with the connection's bitfield tests; the HID byte test holds exactly when the bitfield test holds and the low service bits are clear |
| Connection.NewConnection | src/hci/btlogicallayer.cpp:56-62 | a new connection is Disconnected with zeroed name, class and address |
| Connection.SetBDAddress | src/hci/btlogicallayer.cpp:144-147 | afterwards HasBDAddress holds for the new address and no other field changes |
| Connection.SetClassOfDevice | src/hci/btlogicallayer.cpp:149-152 | the class packs back to the 3 bytes copied in and no other field changes |
| Connection.SetRemoteName | src/hci/btlogicallayer.cpp:154-157 | the first strlen(name) bytes are the name, the rest of the buffer keeps its old bytes, and no other field changes |
| Connection.StrLen | src/hci/btlogicallayer.cpp:156 | the length counts the bytes before the first NUL |
| Connection.SetLinkKey | src/hci/btlogicallayer.cpp:159-163 | the key is always copied; the valid flag is raised when asked and never cleared |
| Connection.SetPin | src/hci/btlogicallayer.cpp:357-359 | Authenticate's PIN setup: the PIN reads back as the given bytes and the rest of the 16-byte array is zero |
| Connection.SetPinSizeOnly | src/hci/btlogicallayer.cpp:332-333 | ConnectResponse's PIN setup: PINSize is the PIN's length while the PIN array stays all zero |
| Connection.OtherRole | src/hci/btlogicallayer.cpp:335-336 | master becomes slave and any other role becomes master |
| HciCommand.OpCode | include/bluetooth/btcommand.h:59-94 | the opcode splits back into its 6-bit group and 10-bit command fields |
| HciCommand.OpCodeValues | include/bluetooth/btcommand.h:60-94 | Inquiry is 0x0401, Reset 0x0C03 and Launch-RAM 0xFC4E |
| HciCommand.ParamsSize | include/bluetooth/btcommand.h:104 | each constructor's parameter block is exactly sizeof(command) minus the 3-byte header, field widths summed, and fits the length byte |
| HciCommand.Encode | src/hci/btcommand.cpp:41-460 | a command frame is the little-endian opcode, the parameter length, then the parameters, and never exceeds the 258-byte command buffer |
| HciCommand.DecodeEncode | src/hci/btcommand.cpp:53-460 | every command frame decodes back to the command it was built from, so each constructor's layout is unambiguous: the GIAC LAP 33 8B 9E with unlimited responses, Create-Connection's DM1 packet type, mandatory page-scan mode, invalid clock offset and no role switch, Remote-Name-Request's zero reserved byte, the single stored link key and the specified-address read flag, the zero-filled 16-byte PIN |
| HciCommand.DecodeBasebandParams | src/hci/btcommand.cpp:53-120 | the baseband commands (Reset, stored link keys, local name, scan enable, class of device) decode back from their parameters |
| HciCommand.DecodeLinkPolicyParams | src/hci/btcommand.cpp:376-460 | the hold, sniff and park commands decode back from their parameters |
| HciCommand.DecodeLinkControlParams | src/hci/btcommand.cpp:147-374 | the link control commands decode back from their parameters |
| HciCommand.DecodeHandleParams | src/hci/btcommand.cpp:197-210 | Disconnect, Authentication-Requested and the remote feature and version reads decode back from their handle-first parameters |
| HciCommand.DecodeLongParams | src/hci/btcommand.cpp:184-195 | Create-Connection, the PIN reply and Remote-Name-Request decode back with their fixed default fields |
| HciCommand.DecodeAddressParams | src/hci/btcommand.cpp:212-314 | Inquiry, accept and reject, and the link-key and negative PIN replies decode back from their address-first parameters |
| HciCommand.InquiryLength | include/bluetooth/btcommand.h:184-186 | for 1 to 61 seconds the inquiry length lies in 0x01..0x30 and is the nearest count of 1.28-second units |
| HciCommand.VendorCommand | src/hci/btcommand.cpp:128-139 | the vendor command carries exactly the n blob bytes from the offset, its parameter length is n, and the offset advances by n |
| HciEvent.CodesFitHandlerTable | include/bluetooth/btevent.h:67-96 | every defined event code is below the 0x20 slots of the handler table |
| HciEvent.Parse | src/hci/bthcievent.cpp:66-70 | a frame dispatches to no handler exactly when its code has none registered (undefined codes and Hardware-Error), and every field read has the width of its packed layout |
| HciEvent.InquiryColumnsDisjoint | include/bluetooth/btevent.h:124-128 | the address, page-scan-mode and class columns of response i lie in disjoint ranges inside the 14n-byte block |
| HciEvent.ResponseAt | include/bluetooth/btevent.h:124-128 | response i read through the offset macros has a 6-byte address and a 3-byte class |
| HciEvent.ResponseAtInquiryBlock | include/bluetooth/btevent.h:124-128 | reading response i out of a block laid out column-wise gives back that response, and the block is 14 bytes per response |
| HciEvent.InquiryBlockAddr | include/bluetooth/btevent.h:125 | response i's address is the i-th 6-byte slot |
| HciEvent.InquiryBlockMode | include/bluetooth/btevent.h:126 | response i's page-scan mode is byte 6n + i |
| HciEvent.InquiryBlockClass | include/bluetooth/btevent.h:127-128 | response i's class is the i-th 3-byte slot from 9n |
| HciEvent.CommandCompleteFrame | include/bluetooth/btevent.h:300-306 | a Command-Complete frame is long enough for its layout and carries code 0x0E |
| HciEvent.ParseCommandComplete | include/bluetooth/btevent.h:300-306 | parsing a Command-Complete frame recovers NumHCICommandPackets, the opcode, the status and the returned bytes |
| BtQueue.Queue.constructor | src/common/btqueue.cpp:55-62 | a new queue is empty and initialised |
| BtQueue.Queue.IsEmpty | src/common/btqueue.cpp:69-72 | TRUE exactly when the queue holds no entry (the head is null) |
| BtQueue.Queue.Flush | src/common/btqueue.cpp:74-96 | an initialised queue ends empty; an uninitialised one is left unchanged |
| BtQueue.Queue.Enqueue | src/common/btqueue.cpp:98-132 | for a length in 1..258 the packet and its parameter are linked in behind the tail; an uninitialised queue is left unchanged |
| BtQueue.Queue.Dequeue | src/common/btqueue.cpp:134-175 | returns 0 and leaves queue and buffer untouched exactly when the queue is uninitialised or empty; otherwise it copies the head packet to the front of the buffer, returns its length and parameter, and the queue loses exactly that head |
| BtQueue.PayloadsAppend | src/common/btqueue.cpp:115-153 | first in, first out: after an enqueue the packets come out as the earlier ones followed by the new one |
| PtrArrays.PtrArray.constructor | src/common/ptrarray.cpp:44-54 | a new array is empty with the given reserved size and increment |
| PtrArrays.PtrArray.GetCount | src/common/ptrarray.cpp:65-68 | the count is the number of pointers in use |
| PtrArrays.PtrArray.At | src/common/ptrarray.cpp:70-86 | only an index below the count may be read, and it yields a pointer in use |
| PtrArrays.PtrArray.Append | src/common/ptrarray.cpp:88-111 | the pointer lands behind the used ones, the old count is returned and earlier pointers are unchanged; a full array is replaced by one larger by the increment |
| PtrArrays.PtrArray.Find | src/common/ptrarray.cpp:131-140 | TRUE exactly when the pointer is among the used slots |
| PtrArrays.PtrArray.Delete | src/common/ptrarray.cpp:113-129 | corrected delete: the used slots become Removed(old, p), so with p present the count drops by one and exactly one occurrence leaves, and without it nothing changes; the new count is returned |
| PtrArrays.PtrArray.DeleteFoundLoop | src/common/ptrarray.cpp:113-129 | the loop as written: it overruns the storage exactly when DeleteAsWritten is None, and otherwise leaves the storage and count DeleteAsWritten gives |
| PtrArrays.PtrArray.RemoveLast | src/common/ptrarray.cpp:142-146 | the last used pointer is dropped |
| PtrArrays.Removed | src/common/ptrarray.cpp:113-129 | removing a present pointer shrinks the list by one and takes out exactly one occurrence; an absent pointer changes nothing |
| PtrArrays.SwapRemove | src/common/ptrarray.cpp:123-125 | moving the last slot into slot i and cutting the last off removes exactly the element of slot i |
| PtrArrays.DeleteAsWritten | src/common/ptrarray.cpp:113-129 | delete as written, swapping the slot after the match: storage keeps its size and the count never grows; None when that slot lies past the reserved storage |
| PtrArrays.DeleteAsWrittenKeepsMatch | src/common/ptrarray.cpp:120-126 | deleting 1 from [1, 2, 3] leaves [1, 3] in use: the matched pointer stays and 2 is lost |
| PtrArrays.DeleteAsWrittenOverruns | src/common/ptrarray.cpp:120-126 | deleting the last pointer of a full array accesses a slot past the reserved storage |
| NameService.FirstMatch | src/common/devicenameservice.cpp:148-172 | the index of the first record whose name and kind both match, every record before it failing to match |
| NameService.Decimal | src/common/devicenameservice.cpp:98 | `%u` prints at least one decimal digit, and exactly one for numbers below ten |
| NameService.ParseDecimalOf | src/common/devicenameservice.cpp:98 | reading the printed digits back gives the number |
| NameService.IndexedName | src/common/devicenameservice.cpp:94-101 | the indexed name starts with the prefix and has digits after it |
| NameService.IndexedNamesDistinct | src/common/devicenameservice.cpp:94-101 | under one prefix, different indices give different names |
| NameService.Registry.AddDevice | src/common/devicenameservice.cpp:71-92 | one record with the name, device and kind is put at the head of the list |
| NameService.Registry.AddIndexedDevice | src/common/devicenameservice.cpp:94-101 | adds under prefix followed by the decimal index, the name fitting the 40-byte buffer |
| NameService.Registry.RemoveDevice | src/common/devicenameservice.cpp:103-138 | only the first record matching name and kind is unlinked, the rest keep their order; with no match nothing changes |
| NameService.Registry.RemoveIndexedDevice | src/common/devicenameservice.cpp:140-146 | removes under prefix followed by the decimal index |
| NameService.Registry.GetDevice | src/common/devicenameservice.cpp:148-172 | returns the device of the first record matching name and kind, and 0 exactly when no record matches |
| NameService.Registry.GetIndexedDevice | src/common/devicenameservice.cpp:174-180 | looks up under prefix followed by the decimal index |
| NameService.LookupAfterAdd | src/common/devicenameservice.cpp:71-92 | after an add, that name and kind find the new device (the most recent add wins) and every other name and kind finds what it found before |
| NameService.RemoveUndoesAdd | src/common/devicenameservice.cpp:103-138 | removing by the name and kind just added restores the list as it was |
| HciLayer.Place | src/hci/bthcilayer.cpp:257 | memcpy into a buffer: the copied bytes land at the offset and every other byte keeps its value |
| HciLayer.CreditSend | src/hci/bthcilayer.cpp:153-167 | one send loop never sends more packets than it takes off the queue, nor takes more than were queued |
| HciLayer.CreditSendSpec | src/hci/bthcilayer.cpp:153-184 | at most `credits` packets are sent, in queue order, and each costs exactly one credit; a refused packet stops the loop with no credit spent and is lost; packets stay queued only when the credits ran out or a send was refused |
| HciLayer.SendAllAccepted | src/hci/bthcilayer.cpp:153-167 | with every send accepted, the loop sends min(credits, queued) packets |
| HciLayer.EventStep | src/hci/bthcilayer.cpp:239-276 | a first event chunk shorter than the 2-byte header changes nothing; otherwise the length is fixed at 2 + ParameterTotalLength, chunks are appended in arrival order, and once the received bytes reach the length exactly that many are emitted and offset and length reset to 0 |
| HciLayer.EventTwoChunks | src/hci/bthcilayer.cpp:244-275 | an event frame split over two chunks comes out once, as the first 2 + ParameterTotalLength bytes of their concatenation, leaving the reassembly idle |
| HciLayer.DataStep | src/hci/bthcilayer.cpp:284-329 | an ACL chunk is handled as the handler does: a short first chunk is dropped, the length is 4 + DataTotalLength, a chunk has its 4-byte header stripped when the boundary flag already in the buffer says continuing, and a complete frame is emitted once the received bytes reach the length |
| HciLayer.AclLengthAssertionTooWeak | src/hci/bthcilayer.cpp:297-298 | DataTotalLength 258 passes the handler's assertion although the 262-byte frame does not fit the 258-byte buffer |
| HciLayer.AclLengthFitsImpliesAsserted | src/hci/bthcilayer.cpp:297-298 | every length the corrected bound admits passes the assertion and its whole frame fits the buffer |
| HciLayer.SendWhileCredits | src/hci/bthcilayer.cpp:153-184 | the send loop sends exactly what CreditSend prescribes, returns the credits left, and leaves the queue without the packets it took |
| HciLayer.CopyInto | src/hci/bthcilayer.cpp:257 | the array afterwards is Place of its old contents |
| HciLayer.Layer.constructor | src/hci/bthcilayer.cpp:53-69 | both credits start at 1, no frame is half assembled and every queue is empty |
| HciLayer.Layer.SendCommand | src/hci/bthcilayer.cpp:188-191 | the frame joins the end of the command queue |
| HciLayer.Layer.SendData | src/hci/bthcilayer.cpp:193-196 | the frame joins the end of the transmit data queue |
| HciLayer.Layer.SetCommandPackets | src/hci/bthcilayer.cpp:224-227 | granted command credits add to those left and never overwrite them |
| HciLayer.Layer.SetDataPackets | src/hci/bthcilayer.cpp:229-232 | granted data credits add to those left and never overwrite them |
| HciLayer.Layer.SendCommands | src/hci/bthcilayer.cpp:152-167 | the command loop of Process follows the credit rule against the command credits |
| HciLayer.Layer.SendDataPackets | src/hci/bthcilayer.cpp:169-184 | the data loop of Process follows the credit rule against the data credits |
| HciLayer.Layer.EventHandler | src/hci/bthcilayer.cpp:239-276 | the reassembly state advances by EventStep; a completed frame with code 0x0E or 0x0F joins the device-event queue and any other completed frame the link-event queue, never both |
| HciLayer.Layer.Route | src/hci/bthcilayer.cpp:262-272 | Command-Complete and Command-Status frames go to the device-event queue, every other frame to the link-event queue |
| HciLayer.Layer.DataHandler | src/hci/bthcilayer.cpp:284-329 | the reassembly state advances by DataStep, and a completed frame joins the received-data queue |
| HciLayer.Layer.Reassemble | src/hci/bthcilayer.cpp:289-323 | the chunk is copied in as DataStep prescribes and the completed frame, if any, fits a queue entry |
| HciLayer.Layer.QueueData | src/hci/bthcilayer.cpp:325 | the completed frame joins the received-data queue |
| HciLayer.Layer.ReceiveLinkEvent | src/hci/bthcilayer.cpp:198-209 | TRUE with the frame's length and bytes exactly when the link-event queue was non-empty |
| HciLayer.Layer.ReceiveData | src/hci/bthcilayer.cpp:211-222 | TRUE with the frame's length and bytes exactly when the received-data queue was non-empty |
| HciLayer.IntendedReassembly | src/hci/bthcilayer.cpp:303-321 | with the boundary flag read from the incoming chunk, a first packet followed by a continuing fragment assembles to the first packet followed by the fragment's payload |
| HciLayer.StaleBoundaryFlag | src/hci/bthcilayer.cpp:303-321 | as written, a first packet carrying one of two payload bytes followed by a continuing fragment carrying the other assembles with the fragment's header byte 0x01 in place of its payload byte 0xBB |
| DeviceManager.RecordPayload | src/hci/bthcievent.cpp:539-545 | a firmware record's payload is exactly as long as the length byte in its three-byte header |
| DeviceManager.NextRecord | src/hci/bthcievent.cpp:539-545 | the walk moves past the header and payload and never beyond the end of the firmware blob |
| DeviceManager.CompleteStep | src/hci/bthcievent.cpp:501-636 | a Command Complete always grants its command credits; an error status moves the controller to Failed and sends nothing |
| DeviceManager.FirmwareStep | src/hci/bthcievent.cpp:534-550 | one Write-RAM completion sends the record at the current offset as a vendor command with its opcode and payload, advances the offset past it, and enters LaunchRAMPending exactly when the record is the Launch-RAM command |
| DeviceManager.LinkKeyReply | src/hci/bthcievent.cpp:585-604 | after a stored-link-key lookup at most one well-formed command is sent, and one is sent exactly when the current connection exists |
| DeviceManager.Dispatch | src/hci/bthcievent.cpp:501-660 | a device-queue frame leaves the manager in a valid state and sends only well-formed commands, whether it is a Command Complete or a Command Status |
| DeviceManager.AllFramesAppend | src/common/btdevicemanager.cpp:115-120 | the frames of two batches are all device frames exactly when those of each batch are |
| DeviceManager.Run | src/common/btdevicemanager.cpp:115-120 | handling frames in queue order keeps the state valid and sends only well-formed commands |
| DeviceManager.RunAppend | src/common/btdevicemanager.cpp:115-120 | handling two batches one after the other equals handling them as one batch: the state carries over, and the commands and credits add up |
| DeviceManager.EncodeAll | src/common/btdevicemanager.cpp:93-101 | the frames given to the HCI layer are the commands' encodings, one for one and in order |
| DeviceManager.EncodeAllAppend | src/common/btdevicemanager.cpp:93-101 | encoding two command lists one after the other equals encoding their concatenation |
| DeviceManager.LocalNameOf | src/common/btdevicemanager.cpp:64-65 | the local name is 248 bytes: the given string up to its NUL or its 248th byte, followed by zeros |
| DeviceManager.Manager.constructor | src/common/btdevicemanager.cpp:52-66 | a new manager starts in state Unknown with no connection, the given class of device and the padded name, and has sent nothing |
| DeviceManager.Manager.Initialize | src/common/btdevicemanager.cpp:77-91 | sends exactly one Reset command and enters ResetPending; nothing else changes |
| DeviceManager.Manager.SendHCICommand | src/common/btdevicemanager.cpp:93-101 | returns an error, and sends nothing, exactly when there is no data or its length is 0; otherwise the data is sent once |
| DeviceManager.Manager.SetConnection | src/common/btdevicemanager.cpp:123-126 | only the current connection changes |
| DeviceManager.Manager.SetBDAddr | src/common/btdevicemanager.cpp:128-136 | copies the first six bytes of the address, and GetBDAddr returns exactly those |
| DeviceManager.Manager.DeviceIsRunning | src/common/btdevicemanager.cpp:138-141 | TRUE exactly when the state is Running |
| DeviceManager.Manager.CommandComplete | src/hci/bthcievent.cpp:501-642 | the new state, the commands sent and the credits granted are those of the Command Complete step |
| DeviceManager.Manager.WalkFirmware | src/hci/bthcievent.cpp:536-550 | reads the next record header at the firmware offset and does exactly one firmware-walk step |
| DeviceManager.Manager.Handle | src/hci/bthcievent.cpp:496-660 | one dequeued frame has exactly the effect of its handler: the Command Complete step, or only the credits for a Command Status |
| DeviceManager.Manager.Process | src/common/btdevicemanager.cpp:109-121 | drains the device-event queue, and the effect equals handling its frames in FIFO order |
| DeviceManager.BringUpWithoutFirmware | src/hci/bthcievent.cpp:519-636 | without a firmware download, successful completions of Reset, Read-BD-Addr, Write-Class-of-Device, Write-Local-Name and Write-Scan-Enable take the controller from ResetPending to Running; each next command is sent once and in order, and the local address is recorded |
| DeviceManager.ResetStartsFirmwareWalk | src/hci/bthcievent.cpp:519-532 | over UART, a Reset completion sends Download-Minidriver and starts the firmware walk at offset 0 in WriteRAMPending |
| DeviceManager.FailedIsFinal | src/hci/bthcievent.cpp:517-640 | a failed controller stays failed and sends nothing, whatever completes |
| DeviceManager.RunningStaysRunning | src/hci/bthcievent.cpp:585-613 | a running controller stays running on any successful completion, and only a stored-link-key completion makes it send anything |
| DeviceManager.UnexpectedCompletionIgnored | src/hci/bthcievent.cpp:517-640 | a completion whose opcode the current state does not wait for changes nothing but the credits |
| DeviceManager.RecordCount | src/hci/bthcievent.cpp:536-550 | a well-formed firmware blob holds at least one record, counting up to the Launch-RAM record |
| DeviceManager.FirmwareWalkReachesLaunch | src/hci/bthcievent.cpp:534-561 | walking a well-formed blob, each Write-RAM completion sends the next record in order, and after the last one the controller waits in LaunchRAMPending |
| InquiryResults.FromEvent | src/hci/btinquiryresults.cpp:62-75 | a new record carries the response's address, class of device and page-scan repetition mode, and the name "Unknown" |
| InquiryResults.Decoded | src/hci/btinquiryresults.cpp:62-76 | an event with n responses gives exactly n records, the i-th built from the i-th response of the block |
| InquiryResults.FirstWithAddr | src/hci/btinquiryresults.cpp:84-96 | the index of the first record with the address: every record before it has another address, and the end of the list means there is no match |
| InquiryResults.Renamed | src/hci/btinquiryresults.cpp:84-96 | renaming keeps the number of records |
| InquiryResults.AnyOfClass | src/hci/btinquiryresults.cpp:136-151 | TRUE exactly when some record has both the minor and the major class asked for |
| InquiryResults.Results.constructor | src/hci/btinquiryresults.cpp:43-45 | the list starts empty |
| InquiryResults.Results.AddInquiryResult | src/hci/btinquiryresults.cpp:58-77 | appends one record per response, in event order, and leaves earlier records as they were |
| InquiryResults.Results.SetRemoteName | src/hci/btinquiryresults.cpp:79-97 | TRUE exactly when some record has the event's address; the name goes only into the first such record |
| InquiryResults.Results.GetCount | src/hci/btinquiryresults.cpp:99-102 | the number of records held |
| InquiryResults.Results.HasDevice | src/hci/btinquiryresults.cpp:136-151 | the scan answers TRUE exactly when some record has both the minor and the major class asked for |
| InquiryResults.DecodedInquiryBlock | src/hci/btinquiryresults.cpp:62-76 | decoding a column-wise Inquiry Result block gives back each response's address, class and page-scan mode, in order |
| InquiryResults.HasDeviceIgnoresService | src/hci/btinquiryresults.cpp:143-146 | the service class bits never change the answer of the class search |
| InquiryResults.RenamedOnlyFirst | src/hci/btinquiryresults.cpp:84-93 | only the first record with the address gets the new name; every other record stays as it was |
| Logical.ByAddr | src/hci/btlogicallayer.cpp:472-481 | the connection GetConnection(addr) is meant to find: a listed connection with the address, and none exactly when no listed connection has it |
| Logical.ByHandle | src/hci/btlogicallayer.cpp:483-492 | the connection GetConnection(handle) is meant to find: a listed connection with the handle, and none exactly when no listed connection has it |
| Logical.AsWrittenNullOnlyWhenEmpty | src/hci/btlogicallayer.cpp:472-481 | as written, the address lookup answers null exactly when the list is empty, whatever address it is asked for |
| Logical.AsWrittenReturnsStranger | src/hci/btlogicallayer.cpp:472-481 | as written, a list holding one connection with another address answers that connection, where the intended lookup answers none |
| Logical.ByHandleAsWrittenReturnsStranger | src/hci/btlogicallayer.cpp:483-492 | as written, a list holding one connection with another handle answers that connection, where the intended lookup answers none |
| Logical.NameRequests | src/hci/bthcievent.cpp:120-126 | one well-formed Remote Name Request per inquiry record, the i-th for the i-th record's address and page-scan repetition mode |
| Logical.InquiryCompleteStep | src/hci/bthcievent.cpp:98-128 | Inquiry Complete keeps the layer's state valid and sends only well-formed commands |
| Logical.InquiryCompleteOutcome | src/hci/bthcievent.cpp:98-128 | a failed inquiry drops the results and wakes the waiter; a successful one with no records wakes it at once; otherwise one name request per record goes out in record order and the pending counter is set to their number |
| Logical.InquiryResultStep | src/hci/bthcievent.cpp:140-149 | Inquiry Result appends n records to the open result set, keeps the earlier ones and touches no connection |
| Logical.Completed | src/hci/bthcievent.cpp:169-198 | Connection Complete records the status, and the connection becomes Connected on success and ConnectionFailed otherwise |
| Logical.ConnectionCompleteStep | src/hci/bthcievent.cpp:161-209 | the current connection takes the status and its Connected or ConnectionFailed state; the current pointer and connecting flag are cleared, the waiter woken, the upper layer told once when it registered, and no command sent |
| Logical.Incoming | src/hci/bthcievent.cpp:228-233 | the record made for a caller carries its address, class and link type and starts Disconnected |
| Logical.Admit | src/hci/bthcievent.cpp:226-234 | the caller's connection is listed and has the caller's address |
| Logical.ConnectionRequestStep | src/hci/bthcievent.cpp:221-246 | Connection Request keeps the layer's state valid |
| Logical.ConnectionRequestAdmits | src/hci/bthcievent.cpp:221-246 | afterwards the current connection is a listed one with the caller's address, in state Connecting, and the connecting flag is set; the list grows by that one record exactly when the address was not listed |
| Logical.DisconnectionCompleteStep | src/hci/bthcievent.cpp:258-285 | Disconnection Complete keeps the layer's state valid |
| Logical.DisconnectionMarksOne | src/hci/bthcievent.cpp:258-285 | a successful disconnection marks the first listed connection with the handle Disconnected and nothing else; a failed one marks only the current connection DisconnectionFailed; nothing is added, removed or made current |
| Logical.AuthenticationCompleteStep | src/hci/bthcievent.cpp:299-313 | the current connection takes the status and becomes Authenticated on success and AuthenticationFailed otherwise; the waiter is woken and nothing is sent |
| Logical.RoleChangeStep | src/hci/bthcievent.cpp:342-353 | the connection with the address takes the new role on success and the other role on failure, and no other field or connection changes; for an unknown address nothing changes |
| Logical.ModeChangeStep | src/hci/bthcievent.cpp:385-393 | on success the connection with the handle takes the mode and interval, and no other field or connection changes; on failure or for an unknown handle nothing changes |
| Logical.OneListed | src/hci/btlogicallayer.cpp:472-481 | a valid layer state with exactly one listed connection, a fresh record |
| Logical.ConnectionRequestStepAsWritten | src/hci/bthcievent.cpp:221-246 | as written: the same as the corrected step when the caller is listed; otherwise, with any connection listed, no record is made and the last listed connection becomes current |
| Logical.RoleChangeStepAsWritten | src/hci/bthcievent.cpp:342-353 | as written: the same as the corrected step when the address is listed; nothing changes only for an empty list |
| Logical.ModeChangeStepAsWritten | src/hci/bthcievent.cpp:385-393 | as written: the same as the corrected step when the handle is listed; nothing changes only on failure or for an empty list |
| Logical.ConnectionRequestTakesOverAsWritten | src/hci/bthcievent.cpp:226-238 | a caller nobody listed, with one other connection listed: as written the list stays [1] and the stranger becomes current; corrected, the caller is listed as connection 2 and made current |
| Logical.RoleChangeStrangerAsWritten | src/hci/bthcievent.cpp:346-351 | a role change for an unlisted address rewrites the listed connection's role as written, and changes nothing corrected |
| Logical.ModeChangeStrangerAsWritten | src/hci/bthcievent.cpp:389-392 | a mode change on an unknown handle rewrites the listed connection's mode as written, and changes nothing corrected |
| Logical.RenamedValid | src/hci/bthcievent.cpp:414-416 | renaming inquiry records keeps every record well formed |
| Logical.Decremented | src/hci/bthcievent.cpp:419 | the unsigned pending counter drops by one, wrapping to its maximum below zero |
| Logical.RemoteNameStep | src/hci/bthcievent.cpp:407-422 | the pending counter drops by one and the waiter is woken when it reaches zero; the result set keeps its size and no connection changes |
| Logical.NamesCountDown | src/hci/bthcievent.cpp:407-422 | with names outstanding, each reply takes one off the counter, and the waiter is woken exactly by the reply that brings it to zero |
| Logical.FeaturesStep | src/hci/bthcievent.cpp:437-455 | the current connection takes the status, the waiter is woken and nothing else is listed or sent |
| Logical.VersionStep | src/hci/bthcievent.cpp:470-489 | the current connection takes the status and, on success, the version, manufacturer and subversion; the waiter is woken |
| Logical.LinkKeyRequestStep | src/hci/bthcievent.cpp:672-682 | a Read Stored Link Key for the address is sent, the device manager learns the current connection, and that connection takes the address |
| Logical.LinkKeyNotificationStep | src/hci/bthcievent.cpp:694-708 | with a current connection the key is stored in it and a Write Stored Link Key is sent; without one nothing happens |
| Logical.ReturnLinkKeysStep | src/hci/bthcievent.cpp:720-731 | a returned key is stored and marked valid in the current connection; with no keys or no current connection nothing changes |
| Logical.PinCodeRequestStep | src/hci/bthcievent.cpp:743-753 | the state does not change, and one PIN reply is sent exactly when there is a current connection |
| Logical.MaxSlotsStep | src/hci/bthcievent.cpp:765-776 | every listed connection with the handle takes the new slot count; the list and effects are untouched |
| Logical.Step | src/hci/bthcievent.cpp:66-70 | the handler the event's code selects keeps the state valid and sends only well-formed commands |
| Logical.ByAddrFinds | src/hci/btlogicallayer.cpp:472-481 | the intended lookup finds a connection exactly when its address is among the listed ones |
| Logical.FromResult | src/hci/btlogicallayer.cpp:293-300 | the connection made for an inquiry record carries its address, class and page-scan mode and starts Disconnected |
| Logical.AdoptAddrs | src/hci/btlogicallayer.cpp:291-302 | adopting a record adds its address; a known address changes nothing, and a new one grows the list by one |
| Logical.MergedAddsNewAddresses | src/hci/btlogicallayer.cpp:288-304 | after Inquiry every record's address is listed, and exactly one connection is added per distinct address that was not listed before |
| Logical.MergedIdempotent | src/hci/btlogicallayer.cpp:288-304 | merging the same records again changes nothing |
| Logical.KnownAddressesChangeNothing | src/hci/btlogicallayer.cpp:288-304 | merging records whose addresses are all listed changes nothing |
| Logical.MergedAsWrittenAddsAtMostOne | src/hci/btlogicallayer.cpp:288-304 | as written, Inquiry adds one connection if the list was empty and there were records, and none otherwise |
| Logical.MergedAsWrittenDropsDevices | src/hci/btlogicallayer.cpp:288-304 | two distinct devices found by an inquiry into an empty list: as written only one connection is made |
| Logical.MergedKeepsBothDevices | src/hci/btlogicallayer.cpp:288-304 | the corrected merge makes a connection for each of them |
| Logical.RunFrames | src/hci/btlogicallayer.cpp:434-441 | handling link events one after another keeps the state valid |
| Logical.RunFramesStep | src/hci/btlogicallayer.cpp:434-441 | after the head event's handler ran, the rest of the run completes it, the effects joining in order |
| Logical.AclPayloads | src/hci/btlogicallayer.cpp:443-449 | the L2CAP callback gets one payload per received frame, each 4 bytes shorter than its frame |
| Logical.Layer.constructor | src/hci/btlogicallayer.cpp:226-231 | no connection, no current connection, no inquiry and no callbacks |
| Logical.Layer.RegisterLPCallback | src/hci/btlogicallayer.cpp:504-509 | only the upper-layer callback becomes registered |
| Logical.Layer.RegisterL2CAPCallback | src/hci/btlogicallayer.cpp:511-516 | only the L2CAP callback becomes registered |
| Logical.Layer.GetConnection | src/hci/btlogicallayer.cpp:472-481 | corrected: answers exactly the intended lookup ByAddr, 0 for none |
| Logical.Layer.GetConnectionByHandle | src/hci/btlogicallayer.cpp:483-492 | corrected: answers exactly the intended lookup ByHandle, 0 for none |
| Logical.Layer.GetConnectionFoundLoop | src/hci/btlogicallayer.cpp:472-481 | the loop as written, stopping at the first match, answers GetConnectionAsWritten |
| Logical.Layer.GetConnectionByHandleFoundLoop | src/hci/btlogicallayer.cpp:483-492 | the loop as written answers GetConnectionByHandleAsWritten |
| Logical.Layer.AddConnection | src/hci/btlogicallayer.cpp:293-301 | the record is appended to the list under a fresh nonzero id |
| Logical.Layer.OnInquiryComplete | src/hci/bthcievent.cpp:98-128 | the new state and effects are those of InquiryCompleteStep |
| Logical.Layer.OnInquiryResult | src/hci/bthcievent.cpp:140-149 | the new state and effects are those of InquiryResultStep |
| Logical.Layer.OnConnectionComplete | src/hci/bthcievent.cpp:161-209 | the new state and effects are those of ConnectionCompleteStep |
| Logical.Layer.OnConnectionRequest | src/hci/bthcievent.cpp:221-246 | the new state and effects are those of ConnectionRequestStep |
| Logical.Layer.OnDisconnectionComplete | src/hci/bthcievent.cpp:258-285 | the new state and effects are those of DisconnectionCompleteStep |
| Logical.Layer.HandlePosition | src/hci/bthcievent.cpp:266-276 | the search loop answers the first listed position with the handle, or the count |
| Logical.Layer.OnAuthenticationComplete | src/hci/bthcievent.cpp:299-313 | the new state and effects are those of AuthenticationCompleteStep |
| Logical.Layer.OnRoleChange | src/hci/bthcievent.cpp:342-353 | the new state and effects are those of RoleChangeStep |
| Logical.Layer.OnModeChange | src/hci/bthcievent.cpp:385-393 | the new state and effects are those of ModeChangeStep |
| Logical.Layer.OnRemoteName | src/hci/bthcievent.cpp:407-422 | the new state and effects are those of RemoteNameStep |
| Logical.Layer.OnFeatures | src/hci/bthcievent.cpp:437-455 | the new state and effects are those of FeaturesStep |
| Logical.Layer.OnVersion | src/hci/bthcievent.cpp:470-489 | the new state and effects are those of VersionStep |
| Logical.Layer.OnLinkKeyRequest | src/hci/bthcievent.cpp:672-682 | the new state and effects are those of LinkKeyRequestStep |
| Logical.Layer.OnLinkKeyNotification | src/hci/bthcievent.cpp:694-708 | the new state and effects are those of LinkKeyNotificationStep |
| Logical.Layer.OnReturnLinkKeys | src/hci/bthcievent.cpp:720-731 | the new state and effects are those of ReturnLinkKeysStep |
| Logical.Layer.OnPinCodeRequest | src/hci/bthcievent.cpp:743-753 | the effects are those of PinCodeRequestStep, which changes no state |
| Logical.Layer.OnMaxSlotsChange | src/hci/bthcievent.cpp:765-776 | the new state and effects are those of MaxSlotsStep |
| Logical.Layer.SlotsChanged | src/hci/bthcievent.cpp:769-775 | the loop gives every listed connection with the handle the new slot count |
| Logical.Layer.HandleEvent | src/hci/bthcievent.cpp:66-70 | the event goes to the handler of its code: the new state and effects are those of Step |
| Logical.Layer.Process | src/hci/btlogicallayer.cpp:430-450 | both queues are drained; the effect equals handling the link events in FIFO order, and the L2CAP callback, when registered, gets every received frame's payload in order |
| Logical.Layer.ProcessLinkEvents | src/hci/btlogicallayer.cpp:434-441 | the first loop drains the link-event queue with the effect of RunFrames on its frames |
| Logical.Layer.DeliverData | src/hci/btlogicallayer.cpp:443-449 | the second loop drains the received-data queue, delivering the payloads in order when the callback is registered |
| Logical.Layer.StartInquiry | src/hci/btlogicallayer.cpp:269-284 | refused, with nothing changed, while a caller is connecting; otherwise a fresh result set, the flag cleared and one Inquiry command of the requested length sent |
| Logical.Layer.InquiryWaited | src/hci/btlogicallayer.cpp:286-306 | the result set goes to the caller, and the connection list becomes Merged over its records |
| Logical.Layer.AdoptAll | src/hci/btlogicallayer.cpp:288-304 | the merge loop adopts each record in turn |
| Logical.Layer.AdoptRecord | src/hci/btlogicallayer.cpp:290-302 | one pass of the merge loop is Adopt |
| Logical.Layer.Connect | src/hci/btlogicallayer.cpp:309-318 | the connection becomes Connecting and current, the waiter is armed and one Create Connection for its address is sent |
| Logical.Layer.FinishWait | src/hci/btlogicallayer.cpp:318-321 | after the wait the current connection is cleared, and the answer is TRUE exactly when the handler recorded a failure status |
| Logical.Layer.ConnectResponse | src/hci/btlogicallayer.cpp:324-351 | accepting swaps the role, marks the connection Connecting and answers with the new role; rejecting answers unsupported remote feature, marks it ConnectionFailed and takes it off the list; the PIN size is recorded and the PIN zeroed |
| Logical.Layer.Authenticate | src/hci/btlogicallayer.cpp:353-364 | the PIN is stored, the connection becomes Authenticating and current, and one Authentication Requested for its handle is sent |
| Logical.Layer.Disconnect | src/hci/btlogicallayer.cpp:370-379 | the connection becomes Disconnecting and current and one Disconnect with the reason is sent |
| Logical.Layer.GetInfo | src/hci/btlogicallayer.cpp:381-388 | the connection becomes current, the waiter is armed and one Read Remote Version Information is sent |
| Logical.Layer.GetFeatures | src/hci/btlogicallayer.cpp:394-401 | the connection becomes current, the waiter is armed and one Read Remote Supported Features is sent |
| Logical.Adopt | src/hci/btlogicallayer.cpp:290-301 | one inquiry record merged with the corrected lookup keeps the layer's state valid |
| Logical.AdoptAsWritten | src/hci/btlogicallayer.cpp:290-301 | one record merged with the lookup as written keeps the layer's state valid |
| Logical.Merged | src/hci/btlogicallayer.cpp:288-304 | the corrected merge of all records keeps the layer's state valid |
| Logical.MergedAsWritten | src/hci/btlogicallayer.cpp:288-304 | the merge as written keeps the layer's state valid |
| L2capWire.Packet | include/bluetooth/btl2cap.h:113-122 | a B-frame is the little-endian payload length, then the channel ID, then exactly the payload |
| L2capWire.EncodeFlow | include/bluetooth/btl2cap.h:182-194 | the packed flow spec is 22 bytes: flags, service type, then five little-endian u32 fields in declaration order |
| L2capWire.DecodeEncodeFlow | include/bluetooth/btl2cap.h:182-194 | a flow spec written anywhere in a buffer reads back as itself, whatever bytes surround it |
| L2capWire.OptionType | include/bluetooth/btl2cap.h:200-201 | the option type is the low 7 bits of the first byte, below 0x80 |
| L2capWire.InsertMTU | src/l2cap/btl2cap.cpp:153-166 | the MTU option is 4 bytes: type 1 with the hint bit clear, length 2, then the MTU little-endian |
| L2capWire.InsertFlushTO | src/l2cap/btl2cap.cpp:183-196 | the flush-timeout option is 4 bytes: type 2 with the hint bit clear, length 2, then the timeout little-endian |
| L2capWire.InsertFlow | src/l2cap/btl2cap.cpp:168-181 | the QoS option is 24 bytes: type 3 with the hint bit clear, length 0x16, then the flow spec, which reads back as given |
| L2capWire.Options | src/l2cap/btl2cap.cpp:422-455 | the option list Configure builds holds at most 32 bytes, so it fits the local 32-byte array and the 50-byte option field |
| L2capWire.Find | src/l2cap/btl2capcommand.cpp:59-133 | a found option of the type lies wholly inside the area and has that type |
| L2capWire.ScanStep | src/l2cap/btl2capcommand.cpp:63-80 | stepping over an option of another type by its fixed size keeps the first match, counted from the start of the area |
| L2capWire.Scan | src/l2cap/btl2capcommand.cpp:63-80 | the walk shared by the three extractors stops at the first option of the type, stepping over the others by their size, and answers Find |
| L2capWire.ExtractMTU | src/l2cap/btl2capcommand.cpp:59-82 | 0 when no MTU option is found |
| L2capWire.ExtractFlushTO | src/l2cap/btl2capcommand.cpp:109-133 | 0 when no flush-timeout option is found |
| L2capWire.ExtractFlow | src/l2cap/btl2capcommand.cpp:84-107 | null exactly when no QoS option is found |
| L2capWire.SkipForMTU | src/l2cap/btl2capcommand.cpp:71-78 | an option of another type in front is stepped over by the MTU walk |
| L2capWire.SkipForFlushTO | src/l2cap/btl2capcommand.cpp:116-129 | an option of another type in front is stepped over by the flush-timeout walk |
| L2capWire.SkipForFlow | src/l2cap/btl2capcommand.cpp:91-98 | an option of another type in front is stepped over by the QoS walk |
| L2capWire.FlowAlone | src/l2cap/btl2capcommand.cpp:84-107 | a QoS option alone gives its flow, an MTU of 0 and a flush timeout of 0 |
| L2capWire.FlushTOFront | src/l2cap/btl2capcommand.cpp:109-133 | a flush-timeout option in front is what its walk finds, and the other two walks step over it |
| L2capWire.MTUFront | src/l2cap/btl2capcommand.cpp:59-82 | an MTU option in front is what its walk finds, and the other two walks step over it |
| L2capWire.ExtractOptions | src/l2cap/btl2cap.cpp:438-455 | the option list Configure builds, for any MTU, flush timeout and flow, reads back through the three extractors as exactly those values, 0 or null for the ones left out |
| L2capWire.Code | include/bluetooth/btl2cap.h:248-259 | each command's code lies between Command Reject (0x01) and Information Response (0x0B) |
| L2capWire.RejectLength | src/l2cap/btl2capcommand.cpp:197-218 | Length is 4 for signalling MTU exceeded, 6 for an invalid CID and 2 for any other reason |
| L2capWire.Reject | src/l2cap/btl2capcommand.cpp:197-218 | the reject carries its identifier and reason and the first Length - 2 bytes of the data |
| L2capWire.ParamLength | src/l2cap/btl2capcommand.cpp:197-646 | the Length each constructor stores: by reject reason; 4 for connection and disconnection requests and disconnection responses; 8 for a connection response; options + 4 for a configuration request and options + 6 for a response; 6 or 4 for an information response |
| L2capWire.GetLength | src/l2cap/btl2capcommand.cpp:172-175 | Length plus the 4-byte command header |
| L2capWire.Encode | include/bluetooth/btl2cap.h:245-281 | a command record is GetLength bytes: code, identifier, then Length little-endian, then the parameters |
| L2capWire.Parse | src/l2cap/btl2capcommand.cpp:177-181 | a record is read as a command exactly when its code is one of 1..7, the codes with a handler, keeping code and identifier |
| L2capWire.ParseEncode | src/l2cap/btl2capcommand.cpp:329-412 | every command the layer handles reads back as itself, and a configuration command's getters walk exactly the options its constructor copied (Length - 4 or Length - 6 bytes) |
| L2capWire.RecordsFlatten | src/l2cap/btl2cap.cpp:124-145 | records packed back to back form a framed area whose walk gives back those records |
| L2capWire.RecordAt | src/l2cap/btl2cap.cpp:130-138 | one step of GetCommand's walk moves past exactly one record of the area, leaving the later records framed |
| L2capWire.SkipStep | src/l2cap/btl2cap.cpp:130-138 | one turn of the loop, its size in a u8 and the bytes left in a u16, keeps the walk's position on a record boundary and shrinks what is left |
| L2capWire.SkipRecords | src/l2cap/btl2cap.cpp:130-138 | the loop stops when the index or the bytes left reach zero, on a record boundary |
| L2capWire.GetCommand | src/l2cap/btl2cap.cpp:124-145 | the index-th record of the packet, and null exactly when there are not that many records |
| L2capWire.HandlerTableAsWritten | include/bluetooth/btl2cap.h:260-273 | the table as written has 0x0B slots, each holding what its code registers |
| L2capWire.DispatchAsWritten | src/l2cap/btl2capcommand.cpp:177-181 | as written, indexing the table fails exactly for codes of 0x0B and above |
| L2capWire.InformationResponseOutsideTable | include/bluetooth/btl2cap.h:259-260 | Information Response is code 0x0B, equal to the table's size, so its slot lies past the table's end |
| L2capWire.HandlerTable | include/bluetooth/btl2cap.h:248-260 | the corrected table has one slot per code up to 0x0B |
| L2capWire.DispatchCorrected | src/l2cap/btl2capcommand.cpp:177-186 | the corrected dispatch agrees with the table as written wherever that is defined, covers every defined code, and runs a handler exactly for codes 1..7 |
| L2cap.NextCid | src/l2cap/btl2cap.cpp:75-81 | the CID counter moves two further on, as a u16 |
| L2cap.CidSequence | src/l2cap/btl2cap.cpp:75-81 | GetCID hands out 0x40, 0x42, 0x44, ...: the n-th is 0x40 + 2n modulo 2^16, always even, and strictly increasing until the counter wraps |
| L2cap.NextIdentAsWritten | src/l2cap/btl2cap.cpp:247-251 | as written the u8 identifier counts up by one |
| L2cap.NextIdent | src/l2cap/btl2cap.cpp:247-251 | corrected: counts up by one below 0xFF and never yields 0 |
| L2cap.IdentRamp | src/l2cap/btl2cap.cpp:247-251 | both counters hand out 1, 2, ..., 255 over the first 255 calls |
| L2cap.IdentAsWrittenReachesZero | src/l2cap/btl2cap.cpp:249-250 | as written the 256th identifier is 0; corrected it is 1 again |
| L2cap.IdentNeverZero | src/l2cap/btl2cap.cpp:247-251 | corrected, no identifier handed out is ever 0 |
| L2cap.Initial | src/l2cap/btl2cap.cpp:206-240 | the state the constructor leaves is valid: no channels, nothing armed, a 48-byte event buffer |
| L2cap.SignallingPacket | src/l2cap/btl2cap.cpp:118-122 | a signalling packet's Length is the command's GetLength, its channel is 0x0001 and it carries exactly the encoded command |
| L2cap.SignallingPacketCarries | src/l2cap/btl2cap.cpp:118-122 | every command the layer sends reaches the peer as that command, the only record of the packet |
| L2cap.FirstMatch | src/l2cap/btl2cap.cpp:430-437 | the channel loops' position: the first listed channel that matches, every earlier one failing to |
| L2cap.Lookup | src/l2cap/btl2cap.cpp:430-437 | the loops with a found flag answer a listed matching channel, and none exactly when no listed channel matches |
| L2cap.GetPSM | src/l2cap/btl2cap.cpp:705-718 | the PSM of the first channel with the CID, and 0 when no channel has it |
| L2cap.GetChannelAsWritten | src/l2cap/btl2cap.cpp:720-735 | as written, null exactly for an empty list; otherwise some listed channel |
| L2cap.GetChannelCorrected | src/l2cap/btl2cap.cpp:720-735 | the corrected lookup answers null exactly when no listed channel has the CID (local or remote as asked), answers a channel with it otherwise, and agrees with the loop as written whenever some channel has it |
| L2cap.GetChannelAsWrittenReturnsStranger | src/l2cap/btl2cap.cpp:726-734 | with one channel of CID 0x40 listed, asking for 0x42 returns that channel as written and null corrected |
| L2cap.Made | src/l2cap/btl2cap.cpp:54-62 | a new channel gets a key no channel had before |
| L2cap.ConnectStart | src/l2cap/btl2cap.cpp:270-359 | Connect up to its Wait keeps the layer's state valid |
| Hidp.ConnectStartDeviceState | src/l2cap/btl2cap.cpp:290-345 | on a device that is connecting, Connect returns PSM_NOT_SUPPORTED with no effect, the state unchanged and the out-parameters unwritten; a Connect that sends its request leaves the device Connecting; one that does not leaves it as it was or Idle |
| L2cap.ConnectArms | src/l2cap/btl2cap.cpp:343-359 | a Connect that waits has listed its channel in W4L2capConnectRsp and armed the response record with the identifier and the result PSM-not-supported |
| L2cap.ConnectHandshake | src/l2cap/btl2cap.cpp:343-363 | a Connect answered by the peer with its identifier and success: the channel takes the peer's CID and moves to Config, the caller is woken and gets success with the CID the peer reported, and the identifier is disarmed |
| L2cap.ConnectAnswered | src/l2cap/btl2cap.cpp:778-792 | the armed Connection Response with success moves the channel to Config and the caller gets success |
| L2cap.ConnectResponseUnmatched | src/l2cap/btl2capcommand.cpp:298-317 | a Connection Response whose identifier is not the armed one changes nothing and reaches the PSM's callback as a connect confirmation |
| L2cap.ConnectWaited | src/l2cap/btl2cap.cpp:359-363 | after the wait the identifier is disarmed and the state stays valid |
| L2cap.ConnectResponse | src/l2cap/btl2cap.cpp:366-409 | ConnectResponse keeps the layer's state valid |
| L2cap.AcceptConnect | src/l2cap/btl2capcommand.cpp:258-272 | the acceptor's side: a Connection Request lists a new channel for the peer's CID, waiting for the upper layer, and tells the PSM's callback; answering it with success makes it the acceptor in Config under the local CID and sends one Connection Response |
| L2cap.AcceptListed | src/l2cap/btl2cap.cpp:737-748 | the channel AddChannel lists is the first one waiting for the upper layer's answer |
| L2cap.AcceptAnswered | src/l2cap/btl2cap.cpp:383-405 | the upper layer's answer takes the first waiting channel to Config as the acceptor and sends the response |
| L2cap.Configure | src/l2cap/btl2cap.cpp:411-463 | Configure up to its Wait keeps the layer's state valid |
| L2cap.ConfigureSends | src/l2cap/btl2cap.cpp:411-463 | the result is Rejected until answered; with no configured channel nothing happens; otherwise the next identifier is drawn, the channels stay, the call waits exactly when blocking, and one Configuration Request with Configure's options goes out exactly when blocking equals the channel's Initiator flag |
| L2cap.ConfigArmed | src/l2cap/btl2cap.cpp:461-463 | a blocking Configure arms the next identifier and keeps the channels |
| L2cap.ConfigHandshake | src/l2cap/btl2cap.cpp:438-472 | a blocking Configure answered with its identifier: the caller gets the peer's result and the MTU, flow and flush timeout its options carry, and an acceptor channel that succeeded is Open |
| L2cap.ConfigAnswered | src/l2cap/btl2cap.cpp:464-471 | the response with the armed identifier, handled then waited for, gives the caller the recorded result and options |
| L2cap.ConfigureWaited | src/l2cap/btl2cap.cpp:463-471 | after the wait the state stays valid |
| L2cap.ConfigureResponse | src/l2cap/btl2cap.cpp:477-526 | ConfigureResponse keeps the layer's state valid |
| L2cap.ConfigureResponseStates | src/l2cap/btl2cap.cpp:477-526 | the caller's result comes back whatever happens; on a configured channel one Configuration Response with the options goes to its remote CID, and only an initiator accepting with success becomes Open |
| L2cap.Disconnect | src/l2cap/btl2cap.cpp:528-553 | Disconnect up to its Wait keeps the layer's state valid |
| L2cap.DisconnectOutcome | src/l2cap/btl2cap.cpp:528-561 | a Disconnect sends the request with the next identifier and, after the wait, reports success exactly when the response handled meanwhile carried that identifier; either way the channel is Closed and taken off the list, and the record reset |
| L2cap.DisconnectWithoutResponseTimesOut | src/l2cap/btl2cap.cpp:553-558 | with no response, the corrected identifiers never match the reset record, so the Disconnect times out; the channel is still Closed and removed |
| L2cap.DisconnectZeroIdentAsWritten | src/l2cap/btl2cap.cpp:554-556 | as written, a Disconnect that drew the 256th identifier, 0, reports success with no response at all |
| L2cap.DisconnectWaited | src/l2cap/btl2cap.cpp:553-559 | after the wait the state stays valid |
| L2cap.DisconnectResponse | src/l2cap/btl2cap.cpp:563-590 | DisconnectResponse keeps the layer's state valid |
| L2cap.RemoteDisconnect | src/l2cap/btl2capcommand.cpp:488-504 | a peer's Disconnection Request moves the first channel with the CID to waiting for the upper layer and tells the PSM's callback; the upper layer's answer closes and removes it and sends the response to the remote CID |
| L2cap.RemoteDisconnectRequested | src/l2cap/btl2capcommand.cpp:488-504 | the handler's part: that channel waits for the upper layer, and the callback hears the indication |
| L2cap.RemoteDisconnectAnswered | src/l2cap/btl2cap.cpp:563-590 | the answer's part: Closed, removed, and one Disconnection Response sent |
| L2cap.Write | src/l2cap/btl2cap.cpp:592-621 | success exactly when a listed channel has the CID and is Open; then one packet with the data goes to that channel's remote CID on its connection and only the signalled flag is cleared; otherwise DISCONNECTION_TIMEOUT_OCCURRED with no effect and the state unchanged; the channels never change |
| L2cap.Read | src/l2cap/btl2cap.cpp:623-650 | Read waits exactly when a listed channel has the CID and is Open; then the request is armed on that channel with the CID, the length, DISCONNECTION_TIMEOUT_OCCURRED and N 0, on the caller's buffer, the signal is cleared and nothing else changes; otherwise DISCONNECTION_TIMEOUT_OCCURRED returns at once with the state unchanged; no effect either way, and the channels never change |
| L2cap.ReadWaited | src/l2cap/btl2cap.cpp:650-657 | after the wait the recorded result is returned with the buffer as the fills left it; the request's CID and length become 0, the buffer is released, N and the result are kept, and nothing else changes |
| L2cap.ReadThroughWait | src/l2cap/btl2cap.cpp:623-657 | a whole read on an Open channel fed the packets ps: success exactly when some packet came and they held at least Length bytes, otherwise DISCONNECTION_TIMEOUT_OCCURRED; the buffer holds the first min(Length, total) bytes of the data followed by the caller's own bytes, and the channels are unchanged |
| L2cap.AddChannel | src/l2cap/btl2cap.cpp:737-748 | AddChannel keeps the layer's state valid |
| L2cap.DeleteChannel | src/l2cap/btl2cap.cpp:750-765 | DeleteChannel keeps the layer's state valid |
| L2cap.SetConnectRsp | src/l2cap/btl2cap.cpp:778-792 | SetConnectRsp keeps the layer's state valid |
| L2cap.Handle | src/l2cap/btl2capcommand.cpp:225-537 | each handled command keeps the layer's state valid |
| L2cap.DisconnectRequested | src/l2cap/btl2capcommand.cpp:488-504 | the corrected Disconnection Request handler keeps the layer's state valid |
| L2cap.DisconnectRequestedAsWritten | src/l2cap/btl2capcommand.cpp:488-504 | as written: the same as the corrected handler when some channel has the DCID; otherwise, with channels listed, the last listed channel starts waiting to be disconnected |
| L2cap.OneChannel | src/l2cap/btl2cap.cpp:720-735 | a valid state with one Open channel of local CID 0x40 listed |
| L2cap.DisconnectRequestStrangerAsWritten | src/l2cap/btl2capcommand.cpp:488-504 | a Disconnection Request for an unused DCID puts the open channel in the wait as written, and leaves it Open corrected |
| L2cap.Process | src/l2cap/btl2capcommand.cpp:177-181 | one command record processed through the corrected table keeps the state valid |
| L2cap.ProcessAsWritten | src/l2cap/btl2capcommand.cpp:177-181 | as written, the table read fails exactly for codes of 0x0B and above; otherwise it is the corrected dispatch |
| L2cap.InformationResponseProcessAsWritten | src/l2cap/btl2capcommand.cpp:177-181 | a received Information Response reads past the table as written, and is ignored corrected |
| L2cap.RunCommands | src/l2cap/btl2cap.cpp:891-895 | the commands of a signalling packet processed in order keep the state valid |
| L2cap.EventBuffer | src/l2cap/btl2cap.cpp:886-887 | the frame is copied over the front of the 48-byte event buffer |
| L2cap.EventStep | src/l2cap/btl2cap.cpp:873-926 | L2CAPEventHandler keeps the layer's state valid |
| L2cap.SingleCommandFrame | src/l2cap/btl2cap.cpp:873-895 | a frame carrying one command runs that command's handler once, on the state with the frame in the event buffer, and does nothing else |
| L2cap.LpStep | src/l2cap/btl2cap.cpp:824-871 | only a connect indication for a known connection changes the layer's state, and then only the connection new channels are made on |
| L2cap.Fill | src/l2cap/btl2cap.cpp:908-921 | the fill copies the bytes still wanted, or the whole packet if shorter, in at N; N grows by that much up to Length; every other byte of the buffer is kept; reaching Length sets success and wakes the reader |
| L2cap.FillAll | src/l2cap/btl2cap.cpp:908-921 | packets on the read's CID, one after another, keep the state valid |
| L2cap.ReadAssembles | src/l2cap/btl2cap.cpp:908-921 | a blocked read fed packet after packet has assembled their concatenation |
| L2cap.AssembledThen | src/l2cap/btl2cap.cpp:908-921 | data assembled after data is their concatenation assembled |
| L2cap.FirstMatchAfterUpdate | src/l2cap/btl2cap.cpp:720-735 | changing one channel's state leaves the first channel with each CID where it was |
| L2cap.ConnectOn | src/l2cap/btl2cap.cpp:320-358 | Connect's part on a found connection keeps the state valid; when it sends the request the device is set Connecting just before it, and otherwise the last effect, if any, sets the device Idle |
| L2cap.ArmConnect | src/l2cap/btl2cap.cpp:343-358 | arming the Connection Response record keeps the state valid, leaves the call pending, and appends exactly two effects to the earlier ones: the device set Connecting, then a send on the connection |
| L2cap.ConfigureAt | src/l2cap/btl2cap.cpp:438-463 | Configure on a found configurable channel keeps the state valid |
| L2cap.ConfigureResponseFound | src/l2cap/btl2cap.cpp:477-526 | on a found channel: one Configuration Response to its remote CID with the options built from MTU, flush timeout and flow; only an initiator answering success becomes Open; the result comes back |
| L2cap.Rejected | src/l2cap/btl2capcommand.cpp:225-234 | a Command Reject keeps the state valid |
| L2cap.ConnectRequested | src/l2cap/btl2capcommand.cpp:258-272 | a Connection Request keeps the state valid |
| L2cap.ConnectResponded | src/l2cap/btl2capcommand.cpp:298-317 | a Connection Response keeps the state valid |
| L2cap.ConfigRequested | src/l2cap/btl2capcommand.cpp:369-385 | a Configuration Request changes no channel and keeps the state valid |
| L2cap.ConfigResponded | src/l2cap/btl2capcommand.cpp:440-464 | a Configuration Response keeps the state valid |
| L2cap.DisconnectResponded | src/l2cap/btl2capcommand.cpp:528-537 | a Disconnection Response keeps the state valid |
| L2cap.FirstMatchAt | src/l2cap/btl2cap.cpp:720-735 | an index holding a match with no earlier match is FirstMatch |
| L2capLayer.Layer.constructor | src/l2cap/btl2cap.cpp:206-241 | the new layer's state is Initial: empty channel array, nothing armed, a zeroed 48-byte event buffer |
| L2capLayer.Layer.GetCID | src/l2cap/btl2cap.cpp:75-81 | returns the counter and advances it by NextCid |
| L2capLayer.Layer.GetID | src/l2cap/btl2cap.cpp:247-251 | returns a non-zero identifier and advances the counter by the corrected NextIdent |
| L2capLayer.Layer.RegisterCallback | src/l2cap/btl2cap.cpp:253-257 | adds the PSM to the signalling callbacks and changes nothing else |
| L2capLayer.Layer.RegisterDataCallback | src/l2cap/btl2cap.cpp:258-263 | adds the PSM to the data callbacks and changes nothing else |
| L2capLayer.Layer.DeregisterDataCallback | src/l2cap/btl2cap.cpp:264-269 | removes the PSM from both callback tables and changes nothing else |
| L2capLayer.Layer.GetPSM | src/l2cap/btl2cap.cpp:705-718 | the loop returns L2cap.GetPSM of the state |
| L2capLayer.Layer.GetChannel | src/l2cap/btl2cap.cpp:720-735 | the loop returns the corrected L2cap.GetChannel |
| L2capLayer.Layer.AddChannel | src/l2cap/btl2cap.cpp:737-748 | the new state is L2cap.AddChannel of the old one |
| L2capLayer.Layer.DeleteChannel | src/l2cap/btl2cap.cpp:750-765 | the new state and the found flag are L2cap.DeleteChannel of the old state |
| L2capLayer.Layer.Connect | src/l2cap/btl2cap.cpp:270-359 | the new state, sends, result, CID and status are L2cap.ConnectStart of the old state |
| L2capLayer.Layer.ConnectWaited | src/l2cap/btl2cap.cpp:359-363 | the state after the wait and the results are L2cap.ConnectWaited |
| L2capLayer.Layer.ConnectResponse | src/l2cap/btl2cap.cpp:366-409 | the new state, sends and result are L2cap.ConnectResponse |
| L2capLayer.Layer.Configure | src/l2cap/btl2cap.cpp:411-463 | the new state, sends, result and pending wait are L2cap.Configure |
| L2capLayer.Layer.ConfigureWaited | src/l2cap/btl2cap.cpp:463-474 | the state after the wait, the result and the options copied out are L2cap.ConfigureWaited |
| L2capLayer.Layer.ConfigureResponse | src/l2cap/btl2cap.cpp:477-526 | the new state, sends and result are L2cap.ConfigureResponse |
| L2capLayer.Layer.Disconnect | src/l2cap/btl2cap.cpp:528-553 | the new state, sends, result and pending wait are L2cap.Disconnect |
| L2capLayer.Layer.DisconnectWaited | src/l2cap/btl2cap.cpp:553-560 | the state after the wait and the result are L2cap.DisconnectWaited |
| L2capLayer.Layer.DisconnectResponse | src/l2cap/btl2cap.cpp:563-590 | the new state, sends and result are L2cap.DisconnectResponse |
| L2capLayer.Layer.Write | src/l2cap/btl2cap.cpp:592-621 | the new state, sends and result are L2cap.Write |
| L2capLayer.Layer.Read | src/l2cap/btl2cap.cpp:623-650 | the new state, result and pending wait are L2cap.Read of the caller's buffer |
| L2capLayer.Layer.ReadWaited | src/l2cap/btl2cap.cpp:650-657 | returns the caller's buffer; state, result and contents are L2cap.ReadWaited |
| L2capLayer.Layer.Fill | src/l2cap/btl2cap.cpp:908-921 | the buffer copy in place gives the state L2cap.Fill describes |
| L2capLayer.Layer.SignallingCallback | src/l2cap/btl2cap.cpp:817-822 | the indication reaches exactly the effects L2cap.Callback gives |
| L2capLayer.Layer.SetConnectRsp | src/l2cap/btl2cap.cpp:778-792 | the new state is L2cap.SetConnectRsp |
| L2capLayer.Layer.SetConfigRsp | src/l2cap/btl2cap.cpp:794-808 | stores the record and changes nothing else |
| L2capLayer.Layer.SetDisconnectRsp | src/l2cap/btl2cap.cpp:810-815 | stores the record and changes nothing else |
| L2capLayer.Layer.SetCommandRsp | src/l2cap/btl2cap.cpp:772-776 | stores the record and changes nothing else |
| L2capLayer.Layer.CommandRejectReceived | src/l2cap/btl2capcommand.cpp:225-234 | the new state and effects are L2cap.Rejected |
| L2capLayer.Layer.ConnectionRequestReceived | src/l2cap/btl2capcommand.cpp:258-272 | the new state and effects are L2cap.ConnectRequested |
| L2capLayer.Layer.ConnectionResponseReceived | src/l2cap/btl2capcommand.cpp:298-317 | the new state and effects are L2cap.ConnectResponded |
| L2capLayer.Layer.ConfigurationRequestReceived | src/l2cap/btl2capcommand.cpp:369-385 | the state is unchanged and the effects are L2cap.ConfigRequested |
| L2capLayer.Layer.ConfigurationResponseReceived | src/l2cap/btl2capcommand.cpp:440-464 | the new state and effects are L2cap.ConfigResponded |
| L2capLayer.Layer.DisconnectionRequestReceived | src/l2cap/btl2capcommand.cpp:488-504 | the new state and effects are the corrected L2cap.DisconnectRequested |
| L2capLayer.Layer.DisconnectionResponseReceived | src/l2cap/btl2capcommand.cpp:528-537 | the new state and effects are L2cap.DisconnectResponded |
| L2capLayer.Layer.HandleCommand | src/l2cap/btl2capcommand.cpp:177-181 | the new state and effects are L2cap.Handle of the decoded command |
| L2capLayer.Layer.Process | src/l2cap/btl2capcommand.cpp:172-181 | the new state and effects are the corrected L2cap.Process of the record |
| L2capLayer.Layer.RunCommands | src/l2cap/btl2cap.cpp:891-895 | the loop over the records ends in L2cap.RunCommands of all of them |
| L2capLayer.Layer.EventHandler | src/l2cap/btl2cap.cpp:873-926 | the new state and effects are L2cap.EventStep of the frame |
| L2capLayer.Layer.LpEventHandler | src/l2cap/btl2cap.cpp:824-871 | the new state and effects are L2cap.LpStep |
| L2capLayer.CopyIn | src/l2cap/btl2cap.cpp:916 | the memcpy: the data lands at the offset and every other byte is kept |
| L2capLayer.RecordsBound | src/l2cap/btl2cap.cpp:891-895 | a signalling area of n bytes holds at most n/4 command records, so the loop ends |
| Hidp.ClassFlow | src/hidp/bthidp.cpp:130-142 | the flow spec chosen for a device: the mouse, keyboard or joystick spec exactly when the device is of that class, and none for any other device |
| Hidp.MessageType | src/hidp/bthidp.cpp:264-265 | the HIDP message type is the high nibble of the first byte, below 16 |
| Hidp.Slot | src/hidp/bthidp.cpp:107 | the device-table index nCID - 0x40, present exactly when it lies inside the 20-entry table |
| Hidp.FirstCidsFit | src/hidp/bthidp.cpp:107 | the n-th CID the L2CAP layer hands out lands in slot 2n, inside the table for the first ten |
| Hidp.TableOverrunAsWritten | src/hidp/bthidp.cpp:107 | as written the eleventh CID, 0x54, indexes entry 20 of the 20-entry table; corrected it has no slot |
| Hidp.ConnectIndAnswer | src/hidp/bthidp.cpp:188-203 | the answer to a connect indication keeps the L2CAP state valid |
| Hidp.ConnectIndAccepted | src/hidp/bthidp.cpp:188-203 | the indicated channel takes the next local CID and moves to Config as the acceptor, the CID counter advances, no channel is added or removed, and exactly one successful Connection Response goes to the peer |
| Hidp.ConfigFlow | src/hidp/bthidp.cpp:211-220 | on the interrupt PSM a mouse, keyboard or joystick gets its own flow spec; otherwise the indicated flow is kept |
| Hidp.ConfigIndAnswer | src/hidp/bthidp.cpp:208-233 | the answer to a configuration indication keeps the L2CAP state valid |
| Hidp.ConfigIndAnswered | src/hidp/bthidp.cpp:208-233 | one successful Configuration Response carries the chosen flow; an initiator channel becomes Open and sends nothing else, an acceptor sends its own Configuration Request (with the flow only on the interrupt PSM); no channel is added or removed |
| Hidp.AnswerThenRequest | src/hidp/bthidp.cpp:221-232 | ConfigureResponse then a non-blocking Configure keeps the state valid |
| Hidp.AnswerThenRequestSends | src/hidp/bthidp.cpp:221-232 | the two calls send the response, then the request only from the acceptor, and only an initiator channel becomes Open |
| Hidp.ConfigIndResponds | src/hidp/bthidp.cpp:221-224 | the response's part alone: the result is success and the channel is still found by its CID |
| Hidp.ConfigIndRequests | src/hidp/bthidp.cpp:225-232 | the request's part alone: no channel changes and a request goes out only from the acceptor |
| Hidp.ConnectFlow | src/hidp/bthidp.cpp:127-146 | after a failed L2CAP connect nothing is configured; on the control PSM the channel is configured with no flow; on the interrupt PSM with the class's flow exactly when the device is a mouse, keyboard or joystick, and not at all otherwise |
| Hidp.LookupAgrees | src/l2cap/btl2cap.cpp:720-735 | states with the same channels and list find the same channel |
| Hidp.UpdateKeepsLookup | src/l2cap/btl2cap.cpp:720-735 | changing a channel's state keeps every lookup by CID where it was |
| Hidp.Layer.constructor | src/hidp/bthidp.cpp:48-92 | every device-table entry is null and both HIDP PSMs are registered for signalling and data |
| Hidp.Layer.Close | src/hidp/bthidp.cpp:94-103 | both PSMs' callbacks are removed from the L2CAP layer |
| Hidp.Layer.RegisterCallback | src/hidp/bthidp.cpp:105-110 | corrected: the device goes into the CID's slot when it has one and no other entry changes; the device becomes Connected |
| Hidp.Layer.DeregisterCallback | src/hidp/bthidp.cpp:112-116 | corrected: the CID's slot, if any, becomes null and no other entry changes |
| Hidp.Layer.RegisterCallbackAsWritten | src/hidp/bthidp.cpp:105-110 | as written: an overrun is reported exactly when nCID - 0x40 lies outside the table; otherwise that entry gets the device |
| Hidp.Layer.DeregisterCallbackAsWritten | src/hidp/bthidp.cpp:112-116 | as written: an overrun exactly when nCID - 0x40 lies outside the table; otherwise that entry is cleared |
| Hidp.Layer.RegisterOverrunAsWritten | src/hidp/bthidp.cpp:105-110 | the eleventh CID overruns the table as written and stores nothing |
| Hidp.Layer.DataHandler | src/hidp/bthidp.cpp:262-294 | a DATA message for a registered slot hands the payload after its first byte to that device's parser; every other message type is ignored |
| Hidp.Layer.DataHandlerAsWritten | src/hidp/bthidp.cpp:285-290 | as written the table is read out of bounds exactly for a DATA message with an index of 20 or more |
| Hidp.Layer.DataStub | src/hidp/bthidp.cpp:302-310 | a DATA message on CID 0x40 + i reaches the parser of table entry i |
| Hidp.Layer.OnConnectInd | src/hidp/bthidp.cpp:188-203 | the L2CAP state and sends are ConnectIndAnswer |
| Hidp.Layer.OnConfigInd | src/hidp/bthidp.cpp:208-233 | the L2CAP state and sends are ConfigIndAnswer |
| Hidp.Layer.OnConfigCfm | src/hidp/bthidp.cpp:234-246 | for the device GetDevice reaches from the channel: on the interrupt PSM it takes the CID as interrupt CID, becomes Connected and fills its slot; otherwise it takes it as control CID; a different old CID of the same kind is deleted from the L2CAP layer |
| Hidp.Layer.OnDisconnectInd | src/hidp/bthidp.cpp:247-252 | the L2CAP state and sends are DisconnectResponse's |
| Hidp.Layer.Connect | src/hidp/bthidp.cpp:118-150 | returns the CID L2CAP gave; configures it blocking with ConnectFlow's flow, or does nothing when ConnectFlow says so |
| Hidp.Layer.ConnectDevice | src/hidp/bthidp.cpp:429-445 | the answer and the device's new state and CIDs are Hidp.DeviceConnect of its old ones and the two connects' outcomes; the callback slot holds the device exactly for the registered CID, other slots are unchanged, and the pointer state is untouched |
| Hidp.StateAfter | src/l2cap/btl2cap.cpp:329-345 | the device's state after L2CAP's effects: unchanged when none of them sets it, else Connecting or Idle |
| Hidp.StateAfterQuietTail | src/l2cap/btl2cap.cpp:329-345 | effects after a call that do not set the device leave the state that call left |
| Hidp.DeviceConnect | src/hidp/bthidp.cpp:429-445 | Connect answers 1 exactly for a HID device that is neither Connected nor Idle, else 0; a generic or non-idle device is left as it was with nothing registered; a registered interrupt CID makes the device Connected with that CID |
| Hidp.ConnectedOnlyByRegistering | src/hidp/bthidp.cpp:436-443 | an idle HID device ends Connected exactly when an interrupt CID was registered |
| Hidp.ControlConnectBlocksInterrupt | src/hidp/bthidp.cpp:436-443 | when the control Connect sent its request (so L2CAP set the device Connecting) and nothing later set the device, the interrupt Connect finds it connecting: the device ends Connecting with interrupt CID 0, nothing registered, the control CID recorded, and every later Connect on it answers 1 |
| Hidp.Layer.ReleaseDevice | src/hidp/bthidp.cpp:403-406 | a device with an interrupt CID clears its slot; nothing else changes |
| Mouse.Initial | src/hidp/btmouse.cpp:51-63 | a new mouse sits at (320, 240) with scroll 240, no button latched and the count at 0 |
| Mouse.Signed | src/hidp/btmouse.cpp:75-78 | a report byte read as the signed 8-bit delta it is: in -128..127 and congruent to the byte modulo 256 |
| Mouse.ReadReport | src/hidp/btmouse.cpp:71-75 | the buttons are bits 0, 1 and 2 of byte 1 and the x, y and wheel deltas bytes 2, 3 and 4 |
| Mouse.ParseAsWritten | src/hidp/btmouse.cpp:137-141 | as written, a report ending a wheel press posts the same event as the corrected parser but leaves the wheel latched; every other report is parsed identically |
| Mouse.RespondMoves | src/hidp/btmouse.cpp:76-78 | each report adds its signed deltas to the x, y and scroll coordinates, wrapping at 16 bits, in both parsers |
| Mouse.RunAccumulates | src/hidp/btmouse.cpp:76-78 | after a run of reports each coordinate is its start plus the sum of the deltas, modulo 2^16 |
| Mouse.Accumulates | src/hidp/btmouse.cpp:76-78 | the same for any parser that moves each report's deltas |
| Mouse.Priority | src/hidp/btmouse.cpp:80-142 | the branches' order: a left press decides before right, right before wheel, wheel before motion, motion before scroll; clicks and releases come only from an idle report |
| Mouse.MotionKeepsLatches | src/hidp/btmouse.cpp:111-116 | motion and scroll reports change no button latch, count or state |
| Mouse.FirstHeldPostsNothing | src/hidp/btmouse.cpp:80-81 | the first report with the left button down posts nothing, latches it and resets the count |
| Mouse.HeldPostsPressThenMove | src/hidp/btmouse.cpp:82-90 | while the left button stays down the first report posts a press, later ones a move, and the count grows by one |
| Mouse.HoldLeft | src/hidp/btmouse.cpp:80-92 | down, held, held posts exactly a press then a move |
| Mouse.LeftRelease | src/hidp/btmouse.cpp:117-126 | releasing the latched left button posts a click if the count is 0, else a release, and unlatches it |
| Mouse.QuickClick | src/hidp/btmouse.cpp:80-126 | down then up posts exactly one left click |
| Mouse.PressAndRelease | src/hidp/btmouse.cpp:80-126 | down, held, up posts a press then a release |
| Mouse.MovingReleaseKeepsLatch | src/hidp/btmouse.cpp:111-113 | a release report that still carries motion posts a move and keeps the left button latched |
| Mouse.RightMirrorsLeft | src/hidp/btmouse.cpp:93-105 | swapping left and right in the state and the report swaps them in the response |
| Mouse.IdleReports | src/hidp/btmouse.cpp:137 | k reports with no button and no motion |
| Mouse.WheelReleaseRepeatsAsWritten | src/hidp/btmouse.cpp:137-141 | as written, after a wheel press every idle report posts another wheel release, and the wheel stays latched |
| Mouse.IdleRunQuiet | src/hidp/btmouse.cpp:111-142 | with no latch set, idle reports post nothing and change nothing |
| Mouse.WheelReleasedOnce | src/hidp/btmouse.cpp:137-141 | corrected, idle reports after a wheel press post exactly one wheel release and clear the latch |
| Mouse.AsWrittenDiffersOnlyThere | src/hidp/btmouse.cpp:137-141 | the parser as written and the corrected one differ only on the wheel latch after a wheel release |
| Mouse.Encode | include/graphics/event.h:96-192 | the posted event's bytes: its kind, two zero bytes and the mouse source, then its button or deltas |
| Mouse.DecodeEncode | include/graphics/event.h:96-192 | decoding the posted bytes gives back the event |
| Mouse.EncodeDecode | include/graphics/event.h:96-192 | the bytes of a decodable event are its encoding |
| Devices.Records | src/hidp/bthidp.cpp:493-498 | the queue records of posted events: one per event, in order, each holding the event's encoding |
| Devices.RecordsDecode | src/hidp/bthidp.cpp:478-498 | every record of a posted event decodes back to that event |
| Devices.RecordsKeepDecoding | src/hidp/bthidp.cpp:493-498 | a queue of decodable records stays decodable when events are posted |
| Devices.Device.constructor | src/common/btdevice.cpp:49-54 | a new device is Idle with no CIDs, its mouse fields at their start, an empty queue, and its connection records it as the connection's device |
| Devices.Device.TypesExclusive | src/common/btdevice.cpp:76-89 | a device is at most one of mouse, keyboard and joystick |
| Devices.Device.SetState | src/common/btdevice.cpp:126-129 | the state becomes the one given; nothing else changes |
| Devices.Device.SetControlCID | src/hidp/bthidp.cpp:408-414 | the control CID becomes the one given; a different non-zero old one is deleted from the L2CAP layer |
| Devices.Device.SetInterruptCID | src/hidp/bthidp.cpp:416-422 | the interrupt CID becomes the one given; a different non-zero old one is deleted from the L2CAP layer |
| Devices.Device.PostEvent | src/hidp/bthidp.cpp:493-498 | the event's bytes are appended to the device's queue |
| Devices.Device.Parser | src/hidp/btmouse.cpp:69-143 | corrected: a mouse takes one step of Mouse.Parse and queues the event it posts; any other device ignores the report (src/common/btdevice.cpp:151, src/hidp/bthidp.cpp:424-427) |
| Devices.Device.ParserAsWritten | src/hidp/btmouse.cpp:69-143 | as written: a mouse takes one step of Mouse.ParseAsWritten, so a wheel release leaves the wheel latched |
| Devices.Device.Respond | src/hidp/btmouse.cpp:76-142 | the mouse fields become the ones given and the posted event, if any, is queued |
| Devices.Device.ReceiveEvent | src/hidp/bthidp.cpp:478-491 | false with nothing changed on an empty queue; otherwise the oldest record is copied to the buffer's front, its length returned and it leaves the queue; a queue of posted mouse events yields a decodable event |
| SubSystem.Find | src/common/btsubsystem.cpp:147-150 | the search's stopping index: the first device on the connection, or the count when none is |
| SubSystem.FindIs | src/common/btsubsystem.cpp:147-150 | any index with the first-match property is Find's |
| SubSystem.Lookup | src/common/btsubsystem.cpp:143-152 | corrected: a listed device on the connection, and null exactly when no listed device is on it |
| SubSystem.LookupAsWrittenMisses | src/common/btsubsystem.cpp:143-152 | as written: null exactly for an empty list; with no device on the connection the last device comes back, on another connection; when one is found both agree |
| SubSystem.MouseIndex | src/common/btsubsystem.cpp:129-134 | the loop's stop: the first listed connection that is a mouse, or the count |
| SubSystem.Chosen | src/common/btsubsystem.cpp:127-135 | with an address the connection it names; without, the first listed mouse, and none exactly when no listed connection is a mouse |
| SubSystem.SubSystem.constructor | src/common/btsubsystem.cpp:46-54 | no devices, over the given logical and HIDP layers |
| SubSystem.SubSystem.GetDeviceCount | src/common/btsubsystem.cpp:159-162 | the number of devices, truncated to u16 |
| SubSystem.SubSystem.GetDeviceAt | src/common/btsubsystem.cpp:154-157 | the device at the index |
| SubSystem.SubSystem.GetDevice | src/common/btsubsystem.cpp:143-152 | corrected: the loop returns Lookup |
| SubSystem.SubSystem.GetDeviceAsWritten | src/common/btsubsystem.cpp:143-152 | as written: the loop returns the last device looked at |
| SubSystem.SubSystem.CreateDevice | src/common/btsubsystem.cpp:164-181 | null for no connection; the existing device for a connection that has one; otherwise a new Idle device of the connection's kind (mouse, HID or generic) is appended and recorded on the connection |
| SubSystem.SubSystem.CreateDeviceAsWritten | src/common/btsubsystem.cpp:164-181 | as written: once any device exists no new one is made, and a connection without a device gets another connection's device |
| SubSystem.SubSystem.Add | src/common/btsubsystem.cpp:170-177 | the new device is appended, fresh, Idle, of the connection's kind, and is then the connection's device |
| SubSystem.SubSystem.FirstMouse | src/common/btsubsystem.cpp:129-134 | the first listed mouse connection, 0 when there is none |
| SubSystem.SubSystem.Choose | src/common/btsubsystem.cpp:127-135 | the chosen connection, 0 when there is none |
| SubSystem.SubSystem.Accept | src/common/btsubsystem.cpp:119-141 | nothing changes when no connection is chosen; otherwise the connection's device exists afterwards (appended if new), its state and CIDs are Hidp.DeviceConnect of what they were (Idle with no CIDs for a new device), its callback slot is filled exactly for the registered CID, no other device changes, and it comes back exactly when the connect answered 0 |
| SubSystem.SubSystem.ConnectListed | src/common/btsubsystem.cpp:138-140 | the connect succeeds exactly when Hidp.DeviceConnect answers 0, and the device's state, CIDs and callback slot are the ones it gives |
| CInterface.MapNode.constructor | src/common/btinterface.cpp:77-82 | a new node holds the address and class bytes given and no successor |
| CInterface.Contents | include/bluetooth/bluetooth.h:158-166 | a list's entries: one per node, in order, with its address and class bytes |
| CInterface.DeviceEntries | src/common/btinterface.cpp:96-105 | the entry of each device: its connection's address and packed class of device |
| CInterface.ResponseEntries | src/common/btinterface.cpp:76-85 | the entry of each inquiry response: its address and class bytes |
| CInterface.FindMouse | src/common/btinterface.cpp:116-125 | the address of the first mouse entry, and none exactly when no entry is a mouse |
| CInterface.MouseDevice | src/common/btsubsystem.cpp:129-134 | the first device whose connection is a mouse, or the count |
| CInterface.FindOnDevices | src/common/btinterface.cpp:92-125 | BT_Find over BT_Check's list finds the address of the first device whose connection is a mouse, none when there is none |
| CInterface.FirstAnswered | src/common/btinterface.cpp:72-87 | the attempt the retry loop stops at: the first inquiry that returned results |
| CInterface.ListenSkipsAsWritten | src/common/btinterface.cpp:76 | as written, a loop counter starting anywhere but 0 lists fewer nodes than there are responses; starting at 0 it lists them all |
| CInterface.FreeTraceNodes | src/common/btinterface.cpp:109-114 | each node the corrected loop frees is a node of the list from the start on |
| CInterface.FreedAsWrittenNodes | src/common/btinterface.cpp:113 | each node the loop as written frees is the successor of the node just read |
| CInterface.FreeTraceSafe | src/common/btinterface.cpp:109-114 | corrected, no node is read after it is freed, and exactly the nodes of the list are freed |
| CInterface.FreeAsWrittenUseAfterFree | src/common/btinterface.cpp:113 | as written, a node's next field is read after the node was freed, and the head is never freed |
| CInterface.Push | src/common/btinterface.cpp:83-84 | the node is linked after the tail and becomes the new tail; no other node's link changes |
| CInterface.Check | src/common/btinterface.cpp:92-107 | a fresh list with one node per device, taking the u16 count of devices, carrying each device's address and class |
| CInterface.Listen | src/common/btinterface.cpp:67-90 | retries until an inquiry answers, then lists each of its responses in order |
| CInterface.FromResults | src/common/btinterface.cpp:76-85 | corrected, the list holds every response of the inquiry in order |
| CInterface.FromResultsAsWritten | src/common/btinterface.cpp:76-85 | as written, with the counter starting at an arbitrary value, the list holds the responses from there on, and fewer than all of them unless the start is 0 |
| CInterface.Build | src/common/btinterface.cpp:77-84 | a fresh linked list whose entries are exactly those given |
| CInterface.Find | src/common/btinterface.cpp:116-125 | the walk returns FindMouse of the list's entries |
| CInterface.Free | src/common/btinterface.cpp:109-114 | corrected, the frees and reads performed are FreeTrace of the list |
| CInterface.FreeAsWritten | src/common/btinterface.cpp:109-114 | as written, the frees and reads performed are FreeTraceAsWritten of the list |
| CInterface.Accept | src/common/btinterface.cpp:127-143 | no descriptor and nothing changed when no connection is chosen; otherwise the device's state, CIDs and callback slot are Hidp.DeviceConnect's, and the descriptor of the device and the address comes back exactly when the connect answered 0 |
| CInterface.GetEvent | src/common/btinterface.cpp:145-151 | false for a null device; otherwise the device's ReceiveEvent: the oldest event is copied out and dequeued, false on an empty queue |
| UartTransport.StepFacts | src/transport/uart/btuarttransport.cpp:198-280 | every byte keeps the receiver's invariant and its registered handlers; a delivery returns to Start and hands on the frame assembled: an event of 2 to 257 bytes only with an event handler, an ACL packet of at least 4 bytes that fits the buffer only with a data handler |
| UartTransport.Feed | src/transport/uart/btuarttransport.cpp:191-281 | the FIFO drained byte by byte keeps the receiver's invariant |
| UartTransport.FeedCons | src/transport/uart/btuarttransport.cpp:191-281 | draining b then the rest is one step on b, then the rest, with their deliveries in order |
| UartTransport.FeedFrom | src/transport/uart/btuarttransport.cpp:191-281 | the same from any position of the FIFO |
| UartTransport.WriteIndexBounded | include/bluetooth/btuarttransport.h:85 | corrected, the next write into the receive buffer is always inside it |
| UartTransport.StartSkips | src/transport/uart/btuarttransport.cpp:199-207 | at Start a byte that is neither an event nor an ACL indicator is dropped without any change |
| UartTransport.PayloadPrefix | src/transport/uart/btuarttransport.cpp:255-275 | payload bytes short of the length are appended and counted down, and nothing is delivered |
| UartTransport.PayloadStep | src/transport/uart/btuarttransport.cpp:255-275 | one payload byte that does not finish the frame is appended and counted down |
| UartTransport.FeedUnfold | src/transport/uart/btuarttransport.cpp:191-281 | draining a non-empty FIFO is its first byte's step then the rest |
| UartTransport.PayloadComplete | src/transport/uart/btuarttransport.cpp:255-275 | the payload's last byte returns to Start and delivers the frame to the event or data handler, if one is registered |
| UartTransport.FeedAppend | src/transport/uart/btuarttransport.cpp:191-281 | draining a + b is draining a then b, with the deliveries concatenated: the receiver does not care how bytes are split across interrupts |
| UartTransport.FeedSnoc | src/transport/uart/btuarttransport.cpp:191-281 | draining a then b is draining a then one step on b |
| UartTransport.EventHeader | src/transport/uart/btuarttransport.cpp:199-223 | an event indicator, code and length leave the receiver in Param with the frame [code, length] and the length to go |
| UartTransport.EventFrame | src/transport/uart/btuarttransport.cpp:199-263 | a whole event packet is delivered as its code, length and parameters, exactly when an event handler is registered, and the receiver is back at Start |
| UartTransport.EmptyEventFrame | src/transport/uart/btuarttransport.cpp:219-230 | an event with no parameters is delivered at its length byte |
| UartTransport.AclLowByte | src/transport/uart/btuarttransport.cpp:214-236 | an ACL indicator, two handle bytes and the length's low byte leave the receiver waiting for the high byte |
| UartTransport.AclHeader | src/transport/uart/btuarttransport.cpp:233-252 | at the length's high byte: a length above 254 (BT_MAX_DATA_SIZE - 4) drops the packet; a positive one waits for the data; zero delivers the 4-byte header to the data handler |
| UartTransport.AclFrame | src/transport/uart/btuarttransport.cpp:203-275 | a whole ACL packet is delivered as header and data, exactly when a data handler is registered |
| UartTransport.AclHeaderAccepted | src/transport/uart/btuarttransport.cpp:233-243 | a header with a length that fits leaves the receiver in Data awaiting that many bytes |
| UartTransport.EmptyAclFrame | src/transport/uart/btuarttransport.cpp:244-250 | an ACL packet with no data is delivered at its header |
| UartTransport.OversizedAclFrame | src/transport/uart/btuarttransport.cpp:238-240 | an oversized ACL length drops the packet and returns to Start |
| UartTransport.StepAsWritten | src/transport/uart/btuarttransport.cpp:198-280 | as written, a byte overruns the 257-byte receive buffer exactly when the next write index is 257 or more; otherwise it is the corrected step |
| UartTransport.AclFrameOverrunsAsWritten | src/transport/uart/btuarttransport.cpp:266-267 | as written, an ACL packet of 254 data bytes fills the 257-byte buffer and its last byte is written past the end; the corrected buffer takes the byte |
| UartTransport.DivisorsAsWritten | src/transport/uart/btuarttransport.cpp:95-99 | the integer divisor is clock / (16 baud) and the rounded fraction is at most 64 and the nearest 64th |
| UartTransport.RoundedFraction | src/transport/uart/btuarttransport.cpp:98-99 | rounding the doubled fraction gives at most 64 and is within half a 64th |
| UartTransport.FractionReaches64AsWritten | src/transport/uart/btuarttransport.cpp:98-100 | a 9599 Hz clock at 300 baud gives divisors 1 and 64 as written |
| UartTransport.InitializeAsWritten | src/transport/uart/btuarttransport.cpp:89-123 | as written, the assertion stops initialisation exactly when the rounded fraction is 64; otherwise the divisors are the corrected ones |
| UartTransport.InitializeStopsAsWritten | src/transport/uart/btuarttransport.cpp:98-100 | that clock and rate stop initialisation as written; corrected they give divisors 2 and 0 |
| UartTransport.Divisors | src/transport/uart/btuarttransport.cpp:95-113 | corrected: IBRD in 1..0x10000 and FBRD at most 0x3F, the pair within half a 64th of clock / (16 baud); a fraction of 64 carries into IBRD |
| UartTransport.Nearest | src/transport/uart/btuarttransport.cpp:96-100 | the carried pair is as near the exact divisor as the uncarried one |
| UartTransport.Transport.constructor | src/transport/uart/btuarttransport.cpp:64-72 | the receiver starts at Start with no handler and an empty buffer; the divisors are the corrected ones (Initialize at 89-123) |
| UartTransport.Transport.RegisterHCIEventHandler | src/transport/uart/btuarttransport.cpp:157-162 | events are now delivered; nothing else changes |
| UartTransport.Transport.RegisterHCIDataHandler | src/transport/uart/btuarttransport.cpp:164-169 | ACL packets are now delivered; nothing else changes |
| UartTransport.Transport.Receive | src/transport/uart/btuarttransport.cpp:196-280 | the receiver's new state and delivery are Step of the byte |
| UartTransport.Transport.IRQHandler | src/transport/uart/btuarttransport.cpp:180-283 | the receiver's new state and deliveries are Feed of the FIFO's bytes |
| UartTransport.Transport.Write | src/transport/uart/btuarttransport.cpp:171-178 | the byte is transmitted; the receiver is untouched |
| UartTransport.Transport.SendHCICommand | src/transport/uart/btuarttransport.cpp:125-139 | the command indicator then the packet's bytes are transmitted and TRUE returned |
| UartTransport.Transport.SendHCIData | src/transport/uart/btuarttransport.cpp:141-155 | the ACL indicator then the packet's bytes are transmitted and TRUE returned |

## Left out

Each line names what the model does not capture and why. A line about a
contract that is weaker or stronger than the source starts with the member's
name.

Crashes and unchecked input that the model does not reproduce:

- Logical.AuthenticationCompleteStep, Logical.LinkKeyRequestStep, Logical.PinCodeRequestStep, Logical.FeaturesStep, Logical.VersionStep: when there is no current connection, the source dereferences a null pointer (bthcievent.cpp:306, :453, :480, :680, :751). In that case the model returns the state unchanged with no effects, because a null dereference on bare metal has no defined outcome.
- HciEvent.Parse: for a code outside the handled set the model gives NoHandler. The source indexes its 0x20-entry Handler[] table with the raw code (bthcievent.cpp:68), so a code of 0x20 or above reads past the table, and the model does not say what that read finds.
- HciEvent.Parse: requires LongEnough, a frame holding every field its event packs. This stands for the handlers' sizeof asserts, which stop the system on a short frame.
- L2cap.Callback, L2cap.EventStep: membership in the sets signallingPsms and dataPsms stands for the 40-slot callback tables m_pL2CAPSignallingCallback and m_pPSMSlot. The source indexes those tables unchecked with a PSM that a remote Connection Request supplies (btl2cap.cpp:819, :905), so a PSM of 40 or more reads past them. The model does not cover that read.
- L2cap.EventStep: the data-channel copy happens only when an inbound buffer is registered (`inBuffer.Some?`). After a finished read the source's read CID is 0 with a null buffer. A frame on CID 0 would then make btl2cap.cpp:908 copy to NULL plus an offset, or report success when nothing is left to copy. The model copies nothing there.
- L2cap.EventStep: requires FrameOk. The frame must fit the 48-byte event buffer, and its header length must fit too. On the signalling CID, each record must be whole and its options of a known type. The source's memcpy into m_EventBuffer, its walk by the records' own length fields, and each handler's sizeof assert (btl2cap.cpp:873-926, btl2capcommand.cpp:177-186) do not check these things.
- L2cap.ConfigureWaited: requires a flow spec in the stored Configuration Response whenever its identifier matches. The source copies `*m_eConfigRsp.Flow` without a null test (btl2cap.cpp:467).
- L2capWire.Walks: the option walk is modelled only over options of a known type. The source's extract loops (btl2capcommand.cpp:65-79) do not advance past an unknown type, so they never end.
- L2capWire.GetCommand: requires a framed command area of at most 48 bytes. On a longer or malformed area the source's u16 length subtraction underflows, and its walk runs past the buffer.
- Hidp.Layer.DataHandler, Hidp.Layer.DataHandlerAsWritten, Hidp.Layer.DataStub: require Parseable. A DATA message routed to a mouse must carry a boot report (report id 0x02 and at least 5 bytes). The mouse parser asserts the id and reads 5 bytes unchecked (btmouse.cpp:71-78). The source also computes `nLength - 1` on an empty payload.
- Hidp.Layer.OnConfigInd, Hidp.Layer.Connect, Hidp.Layer.OnConfigCfm: require that the CID reaches a connection (Reaches, or GetChannel finding it). The source dereferences the result of GetDevice(nCID) without a null test (bthidp.cpp:131-142, :212-219; GetDevice at btl2cap.cpp:767-770).
- Logical.Layer.ConnectResponse, Logical.Layer.Authenticate: require a PIN of at most 16 bytes. The source stores strlen of the PIN in a u8 and copies it into a 16-byte field without a bound (btlogicallayer.cpp:332, :357-359). The model also takes the PIN without its terminating NUL.
- HciLayer.DataChunkFits, HciLayer.AclLengthFits: require the corrected bound, that the 4-byte header plus the data total length fits the 258-byte buffer. The source asserts only that the length itself is at most 258 (see Findings).
- HciLayer.Layer.EventHandler: requires that the chunk fits the rest of the 257-byte event buffer. The source copies it there without a check (bthcilayer.cpp:257). HciLayer.Layer.SendCommand and HciLayer.Layer.SendData require a frame of 1 to 258 bytes, which is what the queue's Enqueue asserts (btqueue.cpp:104-105).
- DeviceManager.Manager.SendHCICommand, DeviceManager.Manager.SetBDAddr: require a command that fits the command buffer and an address of at least 6 bytes, the sizes the source copies.
- DeviceManager.WellFormedFrom: the firmware blob is taken to be a well-formed sequence of HCI commands. The source's download loop asserts this.
- SubSystem.SubSystem.Accept: where the source asserts `pDevice != 0` (btsubsystem.cpp:137), the model returns null.
- CInterface.Accept: when no address is given, the model stores None. BT_Accept copies from the NULL paddr with memcpy (btinterface.cpp:138).
- PtrArrays.PtrArray.DeleteFoundLoop, Hidp.Layer.RegisterCallbackAsWritten, Hidp.Layer.DataHandlerAsWritten: on the paths where the source writes or reads past its array, these report the overrun and store nothing.
- Logical.Layer.InquiryWaited: after a failed inquiry the event handler has freed the results, and Inquiry then calls GetCount on the null pointer (btlogicallayer.cpp:286-288). The model returns null instead.
- DeviceManager.LinkKeyReply: with no pending connection, the source asserts when a key was read and dereferences the null connection when none was read (bthcievent.cpp:590-598). The model sends nothing.
- Hidp.ConnectIndAnswer, Hidp.Layer.OnConnectInd: use the corrected L2cap.GetChannel, where the source calls the lookup that returns the last channel on a miss (bthidp.cpp:192-193). The indication carries the remote CID of a channel the L2CAP layer has just listed, so the lookup hits, and on a hit the two lookups agree (L2cap.GetChannelCorrected).
- BtQueue.Queue.Dequeue: requires the caller's buffer to hold the head entry. The source copies the head into the buffer without a check.
- NameService.Registry.AddIndexedDevice, NameService.Registry.RemoveIndexedDevice, NameService.Registry.GetIndexedDevice: require that the prefix followed by the decimal index is shorter than 40 characters. The source formats it with an unbounded sprintf into `char Name[40]` (devicenameservice.cpp:96-98, :142-143, :176-177), so a longer name overruns the buffer.
- Connection.SetRemoteName: requires that the name's strlen is at most the 248-byte name buffer. The source memcpys strlen bytes into RemoteName without a bound (btlogicallayer.cpp:156).
- L2cap.Write, L2capLayer.Layer.Write: require at most 670 bytes of data. The packet copies the data into its 670-byte Information array (btl2cap.h:140) without a bound, so a longer write overruns it.
- L2cap.Made, L2capLayer.Layer.MakeChannel: the new channel's Initiator is false and its RemoteCID 0. The source's constructor leaves both uninitialised (btl2cap.cpp:54-62). Connect on a link that is already up does not set Initiator, so whether HIDP's blocking Configure after it sends a request depends on what the field happens to hold; in the model it sends none.
- UartTransport.Transport.constructor: the receiver starts with no data handler. The source's constructor initialises m_pEventHandler but not m_pDataHandler (btuarttransport.cpp:64-72), so before RegisterHCIDataHandler the null test at :245 and :269 reads an uninitialised pointer, and the handler's own `assert (m_pDataHandler == 0)` at :166 may stop the system.
- UartTransport.Divisors: the carry can make IBRD 0x10000 (an integer divisor of 0xFFFF whose fraction rounds to 64), which does not fit the 16-bit register. The model keeps the carried value and does not say what the UART does with it.

Platform and environment:

- Spin locks, interrupt masking, LOG_DEBUG and the other logging are not modelled. The model is sequential, and logging has no effect on state.
- SendACLData and SendHCICommand calls return the commands to be sent instead of sending them. Waiting on the transport becomes a `seq<bool>` parameter of results.
- Blocking waits for an event and Sleep calls become parameters that give the outcome of the wait.
- Register I/O of the UART (the PL011 registers, GPIO setup) is modelled only as the divisor values written. The interrupt handler takes the received bytes as a parameter.
- Buffers the constructors allocate are fresh arrays or sequences of the source's sizes.
- m_bConnecting and m_bState, which the source leaves uninitialised, are taken to be false.
- L2cap.LpStep: takes the connection that the logical layer found as a parameter, not as a pointer into the logical layer.
- Hidp.Layer.ConnectDevice, SubSystem.SubSystem.Accept, SubSystem.SubSystem.ConnectListed, CInterface.Accept: the two L2CAP Connect calls (each with its wait and the blocking Configure) are taken as `Hidp.Opened` values, the CID each returned and the effects it produced, not as calls into the L2CAP layer. What handlers running during those waits write into the device or the callback table is not modelled.
- The firmware blob's content is opaque. It is a parameter, and only its framing is modelled.

Operations that do nothing the model could state:

- The L2CAP Echo and Information Request/Response Process bodies are empty (btl2capcommand.cpp:559-656). They are dispatched and otherwise ignored.
- GroupCreate, GroupClose, Ping, GetInfo and Enable/DisableConnectionlessTraffic only return success (btl2cap.cpp:660-703). They are not modelled.
- The HIDP layer's Disconnect, Send and Receive (bthidp.cpp:152-172) are not modelled. The QoS-violation and connect-confirm indications only log.
- DisconnectInterruptChannel, DisconnectControlChannel, IsInBootProtocolMode and the Send*Message helpers (bthidp.cpp:447-476) are not modelled. They only forward to L2CAP.
- CBTDevice's Disconnect, RemoveDevice, IsComputer and its getters and setters that delegate to the connection are not modelled. ~CBTDevice freeing the connection it shares with the logical layer (btdevice.cpp:56-59) is not modelled either.
- SubSystem Initialize, Process, Listen and Status (btsubsystem.cpp:62-117) and BT_Init (btinterface.cpp:51-65) only wire the layers together or spin the stack. They are not modelled.
- SDP (src/sdp) is not part of this model.

## Findings

Each row names two sets of members. The as-written member models the code as
it stands, with a lemma that exhibits the discrepancy. The corrected member
carries the intended property, and the rest of the model uses it.

| source | as written | input that shows it | evidently intended | confidence | as-written member | corrected member |
|---|---|---|---|---|---|---|
| src/hci/btlogicallayer.cpp:472-492 | GetConnection (by address and by handle) returns the last listed connection when none matches, because the loop's pointer is left on the last entry | a list holding c1 with address A, then a Connection Request from address B: the source takes over c1 instead of adding B | return null on a miss, as every caller tests | not executed | Logical.ConnectionRequestStepAsWritten, Logical.ConnectionRequestTakesOverAsWritten, Logical.RoleChangeStepAsWritten, Logical.ModeChangeStepAsWritten, Logical.Layer.GetConnectionFoundLoop | Logical.ConnectionRequestStep, Logical.Layer.GetConnection |
| src/hci/btlogicallayer.cpp:288-304 | the inquiry merge uses the same GetConnection, so a new address is merged into the last connection | an empty connection list and an inquiry that finds two different addresses: only one connection is added | add a connection for every address not yet listed | not executed | Logical.MergedAsWrittenDropsDevices | Logical.MergedKeepsBothDevices |
| src/common/btsubsystem.cpp:143-152 | GetDevice returns the last device when no device matches the connection | devices [d1 on connection 1], and Accept choosing connection 2: the lookup answers d1, so no device is created for connection 2 | return null on a miss, so that Accept creates a device | not executed | SubSystem.SubSystem.CreateDeviceAsWritten, SubSystem.LookupAsWrittenMisses | SubSystem.SubSystem.CreateDevice |
| src/common/ptrarray.cpp:113-129 | Delete's search loop increments its index once more after the match, so it removes the slot after the match, or runs past the used slots | deleting 1 from [1, 2, 3] leaves [1, 3] | remove the matching slot | not executed | PtrArrays.PtrArray.DeleteFoundLoop, PtrArrays.DeleteAsWrittenKeepsMatch | PtrArrays.PtrArray.Delete |
| src/l2cap/btl2cap.cpp:247-251 | GetID wraps from 255 to 0, and 0 is also the value Disconnect resets the response record to | a Disconnect whose request draws identifier 0 (after 255): the reset record already matches, so it reports success although no response arrived | skip 0 when the counter wraps, so that the wait without a response times out | not executed | L2cap.DisconnectZeroIdentAsWritten, L2cap.IdentAsWrittenReachesZero | L2cap.DisconnectWithoutResponseTimesOut, L2cap.IdentNeverZero |
| src/l2cap/btl2cap.cpp:720-735 | GetChannel returns the last channel when no CID matches | one open channel with local CID 0x40, and a Disconnection Request for DCID 0x42: the source moves channel 0x40 to W4L2CA_DISCONNECT_RSP | return no channel, and answer with a Command Reject | not executed | L2cap.DisconnectRequestedAsWritten, L2cap.DisconnectRequestStrangerAsWritten | L2cap.DisconnectRequested, L2cap.RemoteDisconnect |
| src/l2cap/btl2capcommand.cpp:51, 177-186 | the handler table has 0x0B slots and is indexed with the raw command code, and the Information Response code is 0x0B | an Information Response (code 0x0B): the dispatch reads one slot past the table | a table covering codes up to 0x0B, and a reject for unknown codes | not executed | L2cap.ProcessAsWritten, L2cap.InformationResponseProcessAsWritten, L2capWire.InformationResponseOutsideTable | L2capWire.DispatchCorrected, L2cap.Process |
| src/hidp/bthidp.cpp:105-116, 285-290 | m_DeviceTable is indexed with nCID - 0x40 without a bound | the eleventh CID the L2CAP layer hands out, 0x54, falls at slot 20, one past the 20-entry table, and registering a device for it writes past the table | ignore CIDs outside the table | not executed | Hidp.Layer.RegisterOverrunAsWritten, Hidp.TableOverrunAsWritten, Hidp.Layer.DataHandlerAsWritten | Hidp.Layer.RegisterCallback, Hidp.Layer.DataHandler |
| src/hidp/btmouse.cpp:137-141 | the wheel-release branch sets m_bWheel to true instead of false, so the wheel stays latched | a report with the wheel pressed, then k reports with no button: k wheel-release events | clear the flag, so that exactly one release is reported | not executed | Mouse.WheelReleaseRepeatsAsWritten, Mouse.ParseAsWritten, Devices.Device.ParserAsWritten | Mouse.WheelReleasedOnce, Devices.Device.Parser |
| src/transport/uart/btuarttransport.cpp:266-267 | the receive buffer m_RxBuffer has BT_UART_BUFFER_SIZE = 257 bytes (include/bluetooth/btuarttransport.h:49, :85), and the ACL data state stores bytes without a bound | an ACL frame announcing 254 data bytes: 257 bytes are stored, and the next data byte is written past the buffer | a buffer that holds the 4-byte header and 254 data bytes, the largest frame the HCI layer accepts | not executed | UartTransport.AclFrameOverrunsAsWritten, UartTransport.StepAsWritten | UartTransport.WriteIndexBounded, UartTransport.AclFrame |
| src/transport/uart/btuarttransport.cpp:98-100 | the rounded fractional divisor can reach 64, and `assert (nFractDiv <= 0x3F)` then stops the system | a 9599 Hz clock at 300 baud: the divisors come out as 1 and 64 | carry into the integer divisor, giving 2 and 0 | not executed | UartTransport.InitializeStopsAsWritten, UartTransport.FractionReaches64AsWritten, UartTransport.InitializeAsWritten | UartTransport.Divisors, UartTransport.Nearest, UartTransport.Transport.constructor |
| src/common/btinterface.cpp:76 | BT_Listen's loop index `int i;` is not initialised | an inquiry with at least one result, and i holding something other than 0: the map gets fewer entries than there are results | start the index at 0 | not executed | CInterface.FromResultsAsWritten, CInterface.ListenSkipsAsWritten | CInterface.FromResults |
| src/common/btinterface.cpp:113 | BT_Free advances the pointer before it frees, so it frees each node's successor and then reads it | a map of two nodes: the second node is freed and then read, and the first is never freed | free each node after reading its link | not executed | CInterface.FreeAsWrittenUseAfterFree, CInterface.FreeAsWritten | CInterface.FreeTraceSafe, CInterface.Free |
| src/hci/bthcilayer.cpp:297-298 | the ACL reassembly asserts only that the data total length is at most 258, but the 4-byte header is copied into the same 258-byte buffer | a data total length of 258 passes the assert, and the packet needs 262 bytes | assert that the header plus the data fit the buffer | not executed | HciLayer.AclLengthAssertionTooWeak | HciLayer.AclLengthFitsImpliesAsserted |
| src/hci/bthcilayer.cpp:303-321 | the packet boundary flag is read from the header already in the reassembly buffer, the first packet's, so a continuing fragment is copied with its header | a first packet [01 20 02 00 AA] announcing 2 bytes, then a continuing fragment [01 10 01 00 BB]: the frame is [01 20 02 00 AA 01], not [.. AA BB] | read the flag from the chunk that arrived | not executed | HciLayer.StaleBoundaryFlag | HciLayer.IntendedReassembly |

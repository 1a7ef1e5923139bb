# Dragon Master I/O bridge: a Dafny model

The Dragon Master cabinet runs two programs. The game is a Unity application whose `DragonMasterIOManagerPy3` component is the bridge. A Python peer owns the hardware: draxboards (buttons, outputs and hard meters), joysticks, bill acceptors and ticket printers. The two exchange byte frames over two local TCP connections.

This project models the bridge and the parts of the peer that meet it. It proves what each part promises.

- `bytes.dfy` (`Bytes`): byte and word types, big- and little-endian encodings, and the C# `(ushort)` cast.
- `bitmask.dfy` (`BitMask`): 16-bit input words as 16 bits, least significant first. This is how `BitArray` lists them. It also has the bitwise operators.
- `frames.dfy` (`Frames`): the event ids, the outbound packet the bridge builds, the inbound splitter, and the fields read from each frame.
- `transport.dfy` (`Transport`): the bridge's TCP manager. It holds the outbound queue and the two one-slot mailboxes, and it includes one step of each socket loop.
- `text.dfy` (`Text`): decimal rendering, the `|`-separated ticket texts, ASCII encoding and the byte-array log string.
- `station.dfy` (`Station`): one player station. This covers input-word edge detection with its one-frame pulses, the joystick transform and normalisation, and the print flag.
- `events.dfy` (`Events`): what every inbound frame does to its station and which exception its handler throws, stated on values.
- `io_manager.dfy` (`IOManager`): the bridge itself. It holds the ten slots, the hash-to-slot dictionary, the dispatcher and handlers, the commands, the queries, the print requests and the quit handshake.
- `peer_tcp.dfy` (`PeerTransport`): the peer's event queue and its send loop, which frames each event with a one-byte length. Splitting the peer's buffer with the bridge's splitter gives back the peer's events.
- `device_manager.dfy` (`DeviceManager`): the peer's device list, the per-USB-parent player-station containers and the "already listed" scans.
- `peer_joystick.dfy` (`PeerJoystick`): the peer's joystick. It keeps a current and a last-sent axis pair, and the send is gated on a change.
- `printer_text.dfy` (`PrinterText`): the ticket-line padding helper of the peer's printer code.

Exceptions the C# or Python code would throw are modelled as explicit outcomes (`Outcome`, `AddOutcome`, `Option`), never as preconditions. A null reference is `None` or a nullable class type. Unity's frame and coroutine timing becomes explicit steps: `Update`, then `EndOfFrame` for the end-of-frame coroutines. The quit delay is `DelayApplicationQuit` followed by `QuitDelayElapsed`.

Where the code and its comments disagree, the model follows the code:
- `QueueEventToSendToPython` never copies its payload into the packet.
- The index overload of `AddPlayerStationToDeviceDictionaryIfNotAssigned` only binds to a slot that already holds a hash.
- `AssignPlayerStationHashToPlayerStationIndex` does not unbind the slot's previous hash.
- Inversion maps 0 to 0.
- The dead zone compares the raw byte and forces the axis to 0.
- The disconnection handlers dereference a missing station.

Lemmas state each of these. The bridge's event ids are used throughout. The Python file declares different values for the bill-acceptor commands (`0x84`-`0x88` in DragonMasterDeviceManager.py:71-75), but the Python code does not handle those commands.

## Model

| member | source | states |
|---|---|---|
| Bytes.ToUShort | DragonMasterIOManagerPy3.cs:450 | The `(ushort)` cast keeps values below 65536. Otherwise the result is smaller and differs by a multiple of 65536. |
| Bytes.FromBE16 | DragonMasterIOManagerPy3.cs:667-668 | Reading two bytes high byte first gives the word whose big-endian encoding is those two bytes. |
| Bytes.BE16RoundTrip | DragonMasterIOManagerPy3.cs:451-454 | Writing a 16-bit length as high byte then low byte, and reading it back, gives the length. |
| Bytes.FromBE32 | DragonMasterIOManagerPy3.cs:1504-1520 | Reading four bytes most significant first gives the word whose big-endian encoding is those bytes. |
| Bytes.BE32RoundTrip | DragonMasterIOManagerPy3.cs:1504-1520 | A station hash written big-endian reads back as the same hash. |
| Bytes.FromLE32 | DragonMasterIOManagerPy3.cs:693-696 | Reading four bytes least significant first gives the word whose little-endian encoding is those bytes. |
| Bytes.LE32IsReversedBE32 | DragonMasterIOManagerPy3.cs:693-696 | The draxboard output word's little-endian bytes are its big-endian bytes reversed. |
| Bytes.Zeros | DragonMasterIOManagerPy3.cs:448 | A fresh `byte[n]` has length n and every byte 0. |
| BitMask.MaskOf | DragonMasterIOManagerPy3.cs:1795 | The 16 bits of a `ushort`, least significant first, read back as that `ushort`. |
| BitMask.MaskValueRoundTrip | DragonMasterIOManagerPy3.cs:1795 | Turning 16 bits into a word and back gives the same bits. |
| BitMask.BitValue | DragonMasterIOManagerPy3.cs:1801 | The single-bit mask for bit k has the value `1 << k`. |
| BitMask.Bit | DragonMasterIOManagerPy3.cs:1801 | `(ushort)(1 << k)` has bit k set and no other bit. |
| BitMask.Or | DragonMasterIOManagerPy3.cs:1824 | Bit i of `a \| b` is set iff bit i of a or bit i of b is set. |
| BitMask.And | DragonMasterIOManagerPy3.cs:1802 | Bit i of `a & b` is set iff bit i is set in both. |
| BitMask.Xor | DragonMasterIOManagerPy3.cs:1792 | Bit i of `a ^ b` is set iff the two words differ at bit i. |
| BitMask.Not | DragonMasterIOManagerPy3.cs:1826 | Bit i of `~a` is set iff bit i of a is clear. |
| BitMask.AnyAndBit | DragonMasterIOManagerPy3.cs:1802 | `(word & (1 << k)) != 0` holds iff bit k of the word is set. |
| BitMask.MaskOfBits | DragonMasterIOManagerPy3.cs:1795 | Bit k of the `BitArray` of a `ushort` is its arithmetic bit k, `(n >> k) & 1`. |
| BitMask.BitsDetermineValue | DragonMasterIOManagerPy3.cs:1795 | Two `ushort` values with the same sixteen bits are equal, so the operator lemmas below pin each result. |
| BitMask.OrIsBitwiseOr | DragonMasterIOManagerPy3.cs:1824 | `Or` on the bits gives the `ushort` `x \| y`: bit k is set iff it is set in x or in y. |
| BitMask.AndIsBitwiseAnd | DragonMasterIOManagerPy3.cs:1802 | `And` on the bits gives the `ushort` `x & y`: bit k is set iff it is set in both. |
| BitMask.XorIsBitwiseXor | DragonMasterIOManagerPy3.cs:1792 | `Xor` on the bits gives the `ushort` `x ^ y`: bit k is set iff x and y differ there. |
| BitMask.NotIsBitwiseNot | DragonMasterIOManagerPy3.cs:1826 | `Not` on the bits gives `(ushort)~x`, which is `0xFFFF - x` and the low 16 bits of `-x - 1`, with every bit flipped. |
| Frames.DecodeOutbound | DragonMasterIOManagerPy3.cs:447-459 | A reader of the outbound format accepts a packet exactly when its big-endian length field counts the bytes after it. It then yields byte 2 as the event id and the rest as the payload. |
| Frames.QueuedPacketDecodes | DragonMasterIOManagerPy3.cs:447-459 | A queued packet is 3 bytes longer than the payload and decodes to its event id. The payload it decodes to is as many zero bytes as the payload had. |
| Frames.QueuedPacketLosesPayload | DragonMasterIOManagerPy3.cs:449-457 | The payload reaches the peer intact iff it is all zeros, because the packet body is never filled in. |
| Frames.QueuedPacketLengthWraps | DragonMasterIOManagerPy3.cs:450 | A 65535-byte payload wraps the length field to 0, and the packet can no longer be framed. |
| Frames.ParseJoin | DragonMasterIOManagerPy3.cs:2042-2071 | Splitting a buffer built as size byte then frame, repeated, gives back exactly those frames in order. |
| Frames.JoinParse | DragonMasterIOManagerPy3.cs:2042-2071 | Every buffer that splits without overrun is exactly the framing of the frames it splits into, so no byte is lost or invented. |
| Frames.StationHashRoundTrip | DragonMasterIOManagerPy3.cs:1504-1520 | A frame carrying a hash big-endian in bytes 1-4 yields that hash. |
| Frames.DraxInputMask | DragonMasterIOManagerPy3.cs:667-668 | The input word is bytes 5 and 6, big-endian. |
| Frames.DraxOutputState | DragonMasterIOManagerPy3.cs:693-696 | The output word is bytes 5 to 8, little-endian. |
| Frames.OutputBitsPayload | DragonMasterIOManagerPy3.cs:726-731 | The bit enable/disable payload is two bytes that read back big-endian to the output mask. |
| Frames.HardMeterPayload | DragonMasterIOManagerPy3.cs:770-774 | The hard-meter payload is the meter id followed by the tick count, big-endian. |
| Frames.DraxInputFrameRoundTrip | DragonMasterIOManagerPy3.cs:652-672 | A draxboard input frame built from a hash and a word reads back to that hash and that word. |
| Transport.ConcatSplit | DragonMasterIOManagerPy3.cs:2216-2230 | Draining the queue keeps FIFO order: the bytes of earlier packets come first. |
| Transport.ConcatLength | DragonMasterIOManagerPy3.cs:2216-2230 | The drained buffer is exactly as long as all queued packets together, so no byte is lost or added. Non-empty packets never drain to an empty buffer. |
| Transport.TCPManager.constructor | DragonMasterIOManagerPy3.cs:1999-2010 | A new manager has an empty queue and both mailboxes empty. |
| Transport.TCPManager.QueueEventToSendToPythonApplication | DragonMasterIOManagerPy3.cs:2246-2255 | A non-empty packet is appended to the queue. A null or empty packet is dropped. The mailboxes are untouched. |
| Transport.TCPManager.GetSendTCPQueueAsByteArrayAndClear | DragonMasterIOManagerPy3.cs:2216-2230 | Returns the queued packets laid end to end in FIFO order, and the queue becomes empty. |
| Transport.TCPManager.PrepareBytesToSendThroughTCP | DragonMasterIOManagerPy3.cs:2233-2240 | With an empty queue or an occupied outbound slot, nothing changes. Otherwise the slot holds the whole queue concatenated and the queue is empty. |
| Transport.SplitInboundBuffer | DragonMasterIOManagerPy3.cs:2042-2071 | The read loop yields exactly what the frame splitter gives: the frames in buffer order, or an overrun when a size byte runs past the buffer. |
| Transport.TCPManager.UpdateReadPythonEventsIfValid | DragonMasterIOManagerPy3.cs:2042-2071 | An empty inbound slot yields nothing. Otherwise the buffer's frames come back in order and the slot is cleared. A size byte past the end throws before the slot is cleared. |
| Transport.TCPManager.ReceiveLoopStep | DragonMasterIOManagerPy3.cs:2167-2195 | A message is taken only when the inbound slot is empty, and only a non-empty message is published. |
| Transport.TCPManager.SendLoopStep | DragonMasterIOManagerPy3.cs:2105-2119 | The staged buffer, if any, is what is sent, and afterwards the outbound slot is empty. |
| Text.DecimalString | DragonMasterIOManagerPy3.cs:1243 | `n.ToString()` is a non-empty run of decimal digits. |
| Text.DecimalRoundTrip | DragonMasterIOManagerPy3.cs:1243 | The decimal rendering of n reads back as n. |
| Text.SplitJoin | DragonMasterIOManagerPy3.cs:1241-1250 | Fields joined with a separator they do not contain split back into the same fields. |
| Text.AppendFieldsJoins | DragonMasterIOManagerPy3.cs:1241-1250 | Appending `"\|" + field` for each field in turn builds the join of the fields. |
| Text.VoucherTicketFields | DragonMasterIOManagerPy3.cs:1241-1250 | A voucher text splits on `\|` into the credits, the one-based station number, the validation number and the six date fields, provided the caller's strings hold no `\|`. |
| Text.TestTicketFields | DragonMasterIOManagerPy3.cs:1279-1286 | The test ticket text splits into an empty first field followed by the six date fields. |
| Text.AsciiBytes | DragonMasterIOManagerPy3.cs:1252 | ASCII encoding gives one byte per character, and every byte is below 0x80. Decoding the bytes gives the text back iff the text is all ASCII; any other character becomes `?`. |
| Text.AsciiReadBack | DragonMasterIOManagerPy3.cs:1252 | Bytes that keep ASCII characters and replace the rest by `?` read back as the text exactly when it is all ASCII. |
| Text.VoucherTicketAscii | DragonMasterIOManagerPy3.cs:1241-1252 | A voucher text built from ASCII credits and an ASCII validation number is all ASCII, so its encoded bytes read back as the same text and no `?` enters the ticket. |
| Text.TestTicketAscii | DragonMasterIOManagerPy3.cs:1279-1286 | The test ticket text is always all ASCII, and its encoded bytes read back as the same text. |
| Text.ByteArrayToString | DragonMasterIOManagerPy3.cs:2349-2376 | The loop renders a null array as `Null`, an empty one as `[]`, and otherwise `[a, b, c]`. |
| Text.ByteArrayTextRoundTrip | DragonMasterIOManagerPy3.cs:2349-2376 | Every rendered byte array parses back to the same bytes, and `Null` parses to no array. |
| Station.BitIndex | DragonMasterIOManagerPy3.cs:45-58 | Every button sits at a bit below 11. |
| Station.ButtonMask | DragonMasterIOManagerPy3.cs:45-58 | A button's word has exactly its own bit set. |
| Station.ButtonValues | DragonMasterIOManagerPy3.cs:45-58 | A button's word is `1 << bit`, from 0x0001 for the shoot button to 0x0400 for the main door. |
| Station.ButtonsDisjoint | DragonMasterIOManagerPy3.cs:45-58 | No two buttons share a bit. |
| Station.PressedEdges | DragonMasterIOManagerPy3.cs:1792-1804 | A pressed edge is a bit that was clear and is now set. |
| Station.ReleasedEdges | DragonMasterIOManagerPy3.cs:1792-1808 | A released edge is a bit that was set and is now clear. |
| Station.EdgesPartitionChanges | DragonMasterIOManagerPy3.cs:1797-1811 | Every changed bit is reported exactly once, either as pressed or as released. |
| Station.SameStateNoEdges | DragonMasterIOManagerPy3.cs:1792 | A repeated input word reports no edges. |
| Station.UnionBit | DragonMasterIOManagerPy3.cs:1824-1839 | A pulse bit is set iff some pulse still waiting for the end of the frame holds it. |
| Station.PulsesAddEdges | DragonMasterIOManagerPy3.cs:1797-1811 | Starting one pulse per edge adds exactly the edge bits to the pulse word. |
| Station.Invert | DragonMasterIOManagerPy3.cs:1863 | `(byte)(256 - v)`: the axis plus its inverse is a multiple of 256. |
| Station.InvertInvolution | DragonMasterIOManagerPy3.cs:1861-1868 | Inverting twice gives the axis back. Only 0 and the centre 128 are their own inverses, so 0 stays at the far end. |
| Station.ApplyDeadzone | DragonMasterIOManagerPy3.cs:1870-1877 | An axis becomes 0 iff its raw value divided by 128 is below the dead zone. Otherwise it is kept. |
| Station.AdjustJoystickAxisNormalized | DragonMasterIOManagerPy3.cs:985-993 | `(v - 128) / 128` lies in [-1, 127/128] and maps back to v. |
| Station.ClampUnit | DragonMasterIOManagerPy3.cs:956-964 | The sum of all axes is clamped into [-1, 1] and left alone inside it. |
| Station.DeadzoneDoesNotCentre | DragonMasterIOManagerPy3.cs:1870-1877 | With the defaults (swap on, dead zone 0.25), a centred stick is kept and a small raw value is forced to 0. That 0 is the far end of the axis, not its centre. |
| Station.SwapExchangesAxes | DragonMasterIOManagerPy3.cs:1850-1859 | With swap on, the stored x comes from the raw y and the stored y from the raw x. With swap off, the raw pair is kept. |
| Station.InputReceivedSemantics | DragonMasterIOManagerPy3.cs:1790-1841 | After a new input word, a button is held iff the word has its bit. It reads as pressed iff it was pressed this frame or just went down, and likewise for released. |
| Station.PlayerStationData.constructor | DragonMasterIOManagerPy3.cs:1935-1945 | A new station is unassigned and its devices start in their error states. It uses the defaults: dead zone 0.25, swap on, no inversion. |
| Station.PlayerStationData.DraxInputStateReceived | DragonMasterIOManagerPy3.cs:1790-1814 | The station stores the new word. It starts one pressed pulse per bit that went down and one released pulse per bit that came up, and nothing else changes. |
| Station.PlayerStationData.PulseChangedBits | DragonMasterIOManagerPy3.cs:1797-1811 | The bit loop starts, lowest bit first, exactly the pulses of the pressed and released edges, and sets their bits. |
| Station.PlayerStationData.PulseBit | DragonMasterIOManagerPy3.cs:1798-1810 | One bit of the loop: a bit that went down starts a pressed pulse and a bit that came up starts a released pulse. An unchanged bit starts nothing. |
| Station.PlayerStationData.ButtonWasPressed | DragonMasterIOManagerPy3.cs:1821-1824 | The pulse's bit joins the pressed word until the end of the frame. |
| Station.PlayerStationData.ButtonWasReleased | DragonMasterIOManagerPy3.cs:1834-1837 | The pulse's bit joins the released word until the end of the frame. |
| Station.PlayerStationData.EndOfFrame | DragonMasterIOManagerPy3.cs:1821-1841 | At the end of the frame, every pending pulse clears its bit and nothing else changes. |
| Station.PlayerStationData.EndPressedPulses | DragonMasterIOManagerPy3.cs:1825-1826 | The pressed pulses clear their bits, which empties the pressed word. |
| Station.PlayerStationData.EndReleasedPulses | DragonMasterIOManagerPy3.cs:1838-1839 | The released pulses clear their bits, which empties the released word. |
| Station.PlayerStationData.SetFromRawJoystickValues | DragonMasterIOManagerPy3.cs:1848-1878 | The stored axes are the raw pair after swap, inversion and dead zone, in that order, under the station's settings. Nothing else changes. |
| Station.PlayerStationData.PrintSentWaitingForResponse | DragonMasterIOManagerPy3.cs:1887-1894 | The print flag is set and nothing else changes. |
| Events.HandledOutcome | DragonMasterIOManagerPy3.cs:473-893 | A handler throws a null reference only when a disconnection names a station that is not bound. It throws index-out-of-range only on a frame shorter than 9 bytes, and never on a longer one. |
| Events.HandledView | DragonMasterIOManagerPy3.cs:652-672 | No event changes a station's hash or joystick settings. The print flag is cleared only by a print-complete or print-error frame. |
| Events.DeviceEventView | DragonMasterIOManagerPy3.cs:473-893 | Every event except draxboard input leaves the input words and pending pulses alone. The print flag is cleared only by the two print results. |
| Events.HandledKeepsPulses | DragonMasterIOManagerPy3.cs:1790-1841 | No event breaks a station's pulse bookkeeping. |
| Events.DraxInputEventSemantics | DragonMasterIOManagerPy3.cs:652-672 | After a draxboard input frame, held, down and up read as the frame's bits and edges say. |
| Events.FrameEndedIdle | DragonMasterIOManagerPy3.cs:1821-1841 | A frame without input pulses is unchanged by the end-of-frame step. |
| IOManager.IndexLookupFindsKey | DragonMasterIOManagerPy3.cs:1569-1580 | A non-zero hash that a slot holds is a key leading to a slot. |
| IOManager.BindToAssignedSlot | DragonMasterIOManagerPy3.cs:1466-1473 | Binding a hash to a slot that already holds a hash keeps the registry sound. |
| IOManager.AssignKeepsRegistry | DragonMasterIOManagerPy3.cs:1423-1448 | Giving a slot a hash and binding the hash to it keeps the registry sound. The slot's previous hash stays a key. |
| IOManager.DragonMasterIOManager.SlotsDistinct | DragonMasterIOManagerPy3.cs:279-283 | Slot i holds the station created with index i, so no station fills two slots. |
| IOManager.DragonMasterIOManager.constructor | DragonMasterIOManagerPy3.cs:275-286 | The bridge starts with ten fresh stations in index order, an empty dictionary and both quit flags clear. The keepalive's first status packet is queued. |
| IOManager.DragonMasterIOManager.CreatePlayerStations | DragonMasterIOManagerPy3.cs:279-283 | Start-up creates ten fresh stations, and slot i holds the new station with index i. |
| IOManager.DragonMasterIOManager.GetPlayerStationDataFromPlayerStationHash | DragonMasterIOManagerPy3.cs:1590-1598 | Finds a station iff the hash is a key, and then it is the bound station. |
| IOManager.DragonMasterIOManager.GetPlayerStationHashFromPlayerStationIndex | DragonMasterIOManagerPy3.cs:1551-1559 | Gives 0 for an index outside the slot array. |
| IOManager.DragonMasterIOManager.GetPlayerStationDataFromPlayerStationIndexInOverseer | DragonMasterIOManagerPy3.cs:1569-1580 | Finds no station iff the slot's hash is 0. Otherwise it gives the dictionary entry for that hash, or the missing-key exception. |
| IOManager.DragonMasterIOManager.IndexLookupNeverMisses | DragonMasterIOManagerPy3.cs:1569-1580 | In a valid registry the index lookup never throws. It finds a station iff the slot holds a hash. |
| IOManager.DragonMasterIOManager.BoundStationIsSlot | DragonMasterIOManagerPy3.cs:1481-1495 | Every key leads to one of the ten slots, and that slot holds a non-zero hash. |
| IOManager.DragonMasterIOManager.StationAtIndex | DragonMasterIOManagerPy3.cs:1569-1580 | An index lookup finds a station iff the slot holds a hash, and the station found is one of the slots. |
| IOManager.DragonMasterIOManager.GetPlayerStationIndexFromPlayerStationHash | DragonMasterIOManagerPy3.cs:1529-1543 | Gives the first slot holding the hash, or -1 when no slot does. Hash 0 always gives -1. |
| IOManager.DragonMasterIOManager.AddPlayerStationToDeviceDictionaryIfNotAssigned | DragonMasterIOManagerPy3.cs:1481-1495 | Binds the hash to the station, replacing any earlier binding. Hash 0 is refused. |
| IOManager.DragonMasterIOManager.AddPlayerStationToDeviceDictionaryIfNotAssignedAtIndex | DragonMasterIOManagerPy3.cs:1455-1474 | Binds the hash to the slot at the index only when the index is in range and the slot already holds a non-zero hash. The slot's hash never changes. |
| IOManager.DragonMasterIOManager.AssignPlayerStationHashToPlayerStationIndex | DragonMasterIOManagerPy3.cs:1423-1448 | Does nothing for hash 0, an index out of range or a slot already holding the hash. Otherwise that slot alone takes the hash, the hash is bound to it, and every other slot and key is kept. Because the other slots keep their hashes, every slot that already held the hash now reaches the assigned slot's station through its index. |
| IOManager.DragonMasterIOManager.BindHashToSlot | DragonMasterIOManagerPy3.cs:1436-1447 | Once the guards pass, the slot takes the hash and the hash is bound to it. The other slots are unchanged and the registry stays sound. |
| IOManager.DragonMasterIOManager.OnDeviceConnectedEvent | DragonMasterIOManagerPy3.cs:473-538 | A connection binds a draxboard's hash to the slot named by byte 8, as the index overload does. It then marks the device connected on the bound station, and short frames throw. |
| IOManager.DragonMasterIOManager.ConnectDraxboard | DragonMasterIOManagerPy3.cs:486-504 | A draxboard's hash is bound to its slot. The station becomes connected and records firmware version bytes 6 and 7. |
| IOManager.DragonMasterIOManager.MarkDeviceConnected | DragonMasterIOManagerPy3.cs:490-536 | A connection for a hash that is not bound changes nothing. Otherwise the device's state is set on the bound station alone. |
| IOManager.DragonMasterIOManager.MarkDraxboardConnected | DragonMasterIOManagerPy3.cs:498-503 | The draxboard is connected, with version bytes 6 and 7, and nothing else changes. |
| IOManager.DragonMasterIOManager.MarkBillAcceptorConnected | DragonMasterIOManagerPy3.cs:513 | The bill acceptor is connected but not initialised, and nothing else changes. |
| IOManager.DragonMasterIOManager.MarkJoystickConnected | DragonMasterIOManagerPy3.cs:523 | The joystick is connected and nothing else changes. |
| IOManager.DragonMasterIOManager.MarkPrinterConnected | DragonMasterIOManagerPy3.cs:534-535 | The printer is a Custom TG02, out of paper until it reports otherwise, and nothing else changes. |
| IOManager.DragonMasterIOManager.OnDeviceDisconnectedEvent | DragonMasterIOManagerPy3.cs:544-588 | A disconnected draxboard or joystick puts its bound station's device in error. For a hash that is not bound it throws a null reference. Other devices change nothing. |
| IOManager.DragonMasterIOManager.MarkDraxboardError | DragonMasterIOManagerPy3.cs:557-564 | The draxboard state becomes error and nothing else changes. |
| IOManager.DragonMasterIOManager.MarkJoystickError | DragonMasterIOManagerPy3.cs:572-579 | The joystick state becomes error and nothing else changes. |
| IOManager.DragonMasterIOManager.OnDraxboardInputEventReceived | DragonMasterIOManagerPy3.cs:652-672 | The bound station takes the big-endian word in bytes 5-6 as its new input. A frame for a hash that is not bound is dropped. |
| IOManager.DragonMasterIOManager.OnDraxboardOutputEventReceived | DragonMasterIOManagerPy3.cs:677-699 | The bound station stores the little-endian word in bytes 5-8. Hash 0 or a hash that is not bound is dropped. |
| IOManager.DragonMasterIOManager.OnJoystickAxisEventReceieved | DragonMasterIOManagerPy3.cs:876-893 | The bound station takes bytes 5 and 6 as a raw joystick reading. Hash 0 or a hash that is not bound is dropped. |
| IOManager.DragonMasterIOManager.JoystickReadingReceived | DragonMasterIOManagerPy3.cs:876-893 | The station's axes follow its transform of the reading, and nothing else changes. |
| IOManager.DragonMasterIOManager.OnPrintCompletedSuccessfulEvent | DragonMasterIOManagerPy3.cs:1162-1174 | A completed print clears the bound station's print flag, and only that flag. |
| IOManager.DragonMasterIOManager.OnPrintCompletedWithErrorEvent | DragonMasterIOManagerPy3.cs:1180-1210 | A failed print clears the bound station's print flag, and only that flag. The error byte is only logged. |
| IOManager.DragonMasterIOManager.OnApplicationQuit | DragonMasterIOManagerPy3.cs:307-319 | The first quit request is cancelled, starts the delay and queues one kill packet. Later requests are cancelled until the delay has elapsed. |
| IOManager.DragonMasterIOManager.DelayApplicationQuit | DragonMasterIOManagerPy3.cs:327-333 | Marks the delay as started and queues exactly one kill packet. |
| IOManager.DragonMasterIOManager.QuitDelayElapsed | DragonMasterIOManagerPy3.cs:334-338 | After the wait, the application is ready to quit. |
| IOManager.DragonMasterIOManager.Update | DragonMasterIOManagerPy3.cs:288-300 | Stages the outbound queue as Prepare does. An empty inbound slot changes nothing. A buffer that overruns throws with no station changed. A parsed batch clears the slot and throws only on a short frame or an unbound disconnection. |
| IOManager.DragonMasterIOManager.DispatchEvents | DragonMasterIOManagerPy3.cs:294-297 | A batch of frames that are all 9 bytes or longer and contain no disconnection completes. A batch stops only at a short frame or at a disconnection. An empty batch changes nothing. |
| IOManager.DragonMasterIOManager.OnOmnidongleEventReceived | DragonMasterIOManagerPy3.cs:633-643 | The copy for the omnidongle is the frame without its event id. |
| IOManager.DragonMasterIOManager.InterpretEventRecievedFromPython | DragonMasterIOManagerPy3.cs:361-428 | An empty frame is dropped. Any other frame is handled exactly as its first byte's handler specifies, and ids without a stateful handler change nothing. |
| IOManager.DragonMasterIOManager.QueueEventToSendToPython | DragonMasterIOManagerPy3.cs:447-459 | Appends exactly one packet: the payload length plus one, big-endian, then the event id, then zeros. The mailboxes are untouched. |
| IOManager.DragonMasterIOManager.SendStatusUpdateToPythonApplication | DragonMasterIOManagerPy3.cs:595-598 | Queues one status packet with an empty payload. |
| IOManager.DragonMasterIOManager.SendRequestAllConnectedDevicesEvent | DragonMasterIOManagerPy3.cs:603-606 | Queues one device-report request. |
| IOManager.DragonMasterIOManager.SendKillPythonApplicationEvent | DragonMasterIOManagerPy3.cs:612-615 | Queues one kill packet. |
| IOManager.DragonMasterIOManager.SendOmnidonglePacket | DragonMasterIOManagerPy3.cs:624-627 | Queues one omnidongle packet as long as its payload. |
| IOManager.DragonMasterIOManager.QueueForBoundStation | DragonMasterIOManagerPy3.cs:1068-1077 | A station command queues its packet iff the slot holds a hash. Otherwise nothing changes. |
| IOManager.DragonMasterIOManager.SendDraxboardBitEnable | DragonMasterIOManagerPy3.cs:717-733 | Queues one 2-byte output-enable packet iff the slot holds a hash. |
| IOManager.DragonMasterIOManager.SendDraxboardBitDisable | DragonMasterIOManagerPy3.cs:740-755 | Queues one 2-byte output-disable packet iff the slot holds a hash. |
| IOManager.DragonMasterIOManager.SendTicksToOurHardMeter | DragonMasterIOManagerPy3.cs:762-775 | Queues one 3-byte hard-meter packet iff the slot holds a hash. |
| IOManager.DragonMasterIOManager.AcceptBillThatIsCurrentlyInEscrow | DragonMasterIOManagerPy3.cs:1068-1077 | Queues one accept-bill packet iff the slot holds a hash. |
| IOManager.DragonMasterIOManager.RejectBillThatIsCurrentlyInEscrow | DragonMasterIOManagerPy3.cs:1080-1090 | Queues one reject-bill packet iff the slot holds a hash. |
| IOManager.DragonMasterIOManager.SendSetBillAcceptorToIdle | DragonMasterIOManagerPy3.cs:1093-1103 | Queues one idle packet iff the slot holds a hash. |
| IOManager.DragonMasterIOManager.SendSetBillAcceptorToInhibit | DragonMasterIOManagerPy3.cs:1106-1116 | Queues one inhibit packet iff the slot holds a hash. |
| IOManager.DragonMasterIOManager.SendResetCommandToBillAcceptor | DragonMasterIOManagerPy3.cs:1119-1129 | Queues one reset packet iff the slot holds a hash. |
| IOManager.DragonMasterIOManager.RequestBillAcceptorState | DragonMasterIOManagerPy3.cs:1132-1142 | Queues one bill-state request, under the state-update id, iff the slot holds a hash. |
| IOManager.DragonMasterIOManager.RequestPrinterState | DragonMasterIOManagerPy3.cs:1404-1414 | Queues one printer-state request iff the slot holds a hash. |
| IOManager.DragonMasterIOManager.GetButtonHeld | DragonMasterIOManagerPy3.cs:783-794 | True iff a station is bound at the index and the button's bit is set in its input word. |
| IOManager.DragonMasterIOManager.GetButtonDown | DragonMasterIOManagerPy3.cs:802-813 | True iff a station is bound at the index and the button went down this frame. |
| IOManager.DragonMasterIOManager.GetButtonUp | DragonMasterIOManagerPy3.cs:821-832 | True iff a station is bound at the index and the button came up this frame. |
| IOManager.DragonMasterIOManager.GetButtonDownAny | DragonMasterIOManagerPy3.cs:838-849 | Gives the hash of some bound station on which the button went down, or 0 iff there is none. |
| IOManager.DragonMasterIOManager.GetButtonUpAny | DragonMasterIOManagerPy3.cs:856-868 | Gives the hash of some bound station on which the button came up, or 0 iff there is none. |
| IOManager.DragonMasterIOManager.BoundStationHasHash | DragonMasterIOManagerPy3.cs:838-849 | A bound station never holds hash 0, so the "any" searches never report a station as 0. |
| IOManager.DragonMasterIOManager.SetJoystickAxesSwapped | DragonMasterIOManagerPy3.cs:896-904 | Sets the swap flag of the station bound at the index, and nothing else. Without a bound station nothing changes. |
| IOManager.DragonMasterIOManager.GetJoystickAxesSwapped | DragonMasterIOManagerPy3.cs:908-918 | Reports swap only for a bound station. |
| IOManager.DragonMasterIOManager.GetVerticalJoystickAxis | DragonMasterIOManagerPy3.cs:925-934 | The bound station's stored y as a value in [-1, 127/128] that maps back to it. 0 without a station. |
| IOManager.DragonMasterIOManager.GetHorizontalJoystickAxis | DragonMasterIOManagerPy3.cs:941-950 | The bound station's stored x as a value in [-1, 127/128] that maps back to it. 0 without a station. |
| IOManager.DragonMasterIOManager.GetAllJoytickHorizontal | DragonMasterIOManagerPy3.cs:956-964 | The loop returns the sum of every slot's horizontal axis, clamped into [-1, 1]. |
| IOManager.DragonMasterIOManager.GetAllJoystickVertical | DragonMasterIOManagerPy3.cs:970-978 | The loop returns the sum of every slot's vertical axis, clamped into [-1, 1]. |
| IOManager.DragonMasterIOManager.HorizontalTotalOfOne | DragonMasterIOManagerPy3.cs:956-964 | With a single bound station, the all-station sum is that station's own axis. |
| IOManager.DragonMasterIOManager.HorizontalTotalBounds | DragonMasterIOManagerPy3.cs:956-964 | The sum over n slots lies within n times the range of one axis. |
| IOManager.DragonMasterIOManager.GetPrintJobQueuedByPlayerIndex | DragonMasterIOManagerPy3.cs:1391-1399 | A job can be out only for a slot that holds a hash. |
| IOManager.DragonMasterIOManager.BeginCoroutineToBlockPrintUntilPrintJobVerificationReturned | DragonMasterIOManagerPy3.cs:1148-1156 | Sets the print flag of the station bound to the hash, and nothing else. Without a bound station nothing changes. |
| IOManager.DragonMasterIOManager.SendPrintJob | DragonMasterIOManagerPy3.cs:1252-1253 | An allowed print queues exactly one job packet and blocks the station's printing. |
| IOManager.DragonMasterIOManager.PrintVoucherTicket | DragonMasterIOManagerPy3.cs:1224-1256 | Prints iff the slot holds a hash and no job is out. It then queues one packet as long as the voucher text and blocks further prints. Otherwise nothing changes. |
| IOManager.DragonMasterIOManager.PrintTestticket | DragonMasterIOManagerPy3.cs:1262-1292 | Prints iff the slot holds a hash and no job is out. It then queues one packet as long as the test text and blocks further prints. Otherwise nothing changes. |
| IOManager.DragonMasterIOManager.PrintReprintTicket | DragonMasterIOManagerPy3.cs:1298-1330 | Prints iff the slot holds a hash and no job is out. It then queues one packet as long as the voucher text and blocks further prints. Otherwise nothing changes. |
| IOManager.DragonMasterIOManager.PrintCodeExchangeTicket | DragonMasterIOManagerPy3.cs:1337-1357 | Prints iff the slot holds a hash and no job is out. It then queues one packet as long as the caller's text and blocks further prints. Otherwise nothing changes. |
| IOManager.DragonMasterIOManager.PrintAuditTicket | DragonMasterIOManagerPy3.cs:1366-1386 | Prints iff the slot holds a hash and no job is out. It then queues one packet as long as the caller's text and blocks further prints. Otherwise nothing changes. |
| PeerTransport.PeerFramingBytes | DragonMasterDeviceManager.py:374-380 | The built list converts to bytes iff every event is shorter than 256 and made of byte values. Then it is the length-prefixed framing. |
| PeerTransport.SentBufferSplitsBack | DragonMasterDeviceManager.py:374-380 | The bridge's splitter turns the peer's send buffer back into the queued events, in order. |
| PeerTransport.PeerTCPManager.constructor | DragonMasterDeviceManager.py:315-321 | A new manager has an empty queue and is not sending. |
| PeerTransport.PeerTCPManager.AddEventToSend | DragonMasterDeviceManager.py:328-336 | A `None` event is dropped. Otherwise it is queued, and the caller runs the send loop iff no send is flagged as under way. |
| PeerTransport.PeerTCPManager.SocketSendStep | DragonMasterDeviceManager.py:373-384 | Drains the whole queue. When every event fits, it sends the length-prefixed events in order, and the bridge can split them back. Otherwise nothing is sent. |
| DeviceManager.PlayerStationContainer.constructor | DragonMasterDeviceManager.py:293-297 | A new container has all four slots empty. |
| DeviceManager.PlayerStationContainer.ClearSlot | DragonMasterDeviceManager.py:209-220 | Empties exactly the slot of the device's kind. |
| DeviceManager.JoystickScanMeaning | DragonMasterDeviceManager.py:258-263 | The scan finds a listed joystick on the path. It misses iff every listed joystick has a different handle, and it fails only if some listed joystick has no handle. |
| DeviceManager.RemoveFirst | DragonMasterDeviceManager.py:184 | Removing a listed device shortens the list by one. An unlisted device leaves it as it was. |
| DeviceManager.RemoveFirstUnique | DragonMasterDeviceManager.py:184 | In a list without duplicates, removal drops exactly that device and keeps the list free of duplicates. |
| DeviceManager.DragonMasterDeviceManager.constructor | DragonMasterDeviceManager.py:83-88 | A new manager lists no device and no player station. |
| DeviceManager.DragonMasterDeviceManager.AddNewDeviceToPlayerStationDictionary | DragonMasterDeviceManager.py:145-171 | Raises an attribute error iff the device has a parent path, unless it is an omnidongle whose path is already a key. |
| DeviceManager.DragonMasterDeviceManager.AddNewDevice | DragonMasterDeviceManager.py:129-140 | Never lists a device twice. A device that fails to start is left out. A started device is appended before the dictionary step runs. |
| DeviceManager.DragonMasterDeviceManager.RemoveDeviceFromPlayerStationDictionary | DragonMasterDeviceManager.py:194-221 | A null device, a missing parent path or an unknown path changes nothing. Otherwise exactly the slot of the device's kind is emptied, and every other container is kept. |
| DeviceManager.DragonMasterDeviceManager.RemoveDevice | DragonMasterDeviceManager.py:177-189 | A null or unlisted device changes nothing. Otherwise the device leaves the list and every other device stays. The slot of the device's kind in its parent path's container is emptied, that container's other three slots and every other container are kept, and no container changes when the device has no parent path or the path has no container. |
| DeviceManager.DragonMasterDeviceManager.DeviceManagerContainsJoystick | DragonMasterDeviceManager.py:258-263 | The loop answers as the joystick scan does. |
| DeviceManager.DragonMasterDeviceManager.DeviceManagerContainsDraxboard | DragonMasterDeviceManager.py:269-274 | True iff some listed draxboard sits on the port. |
| DeviceManager.DragonMasterDeviceManager.DeviceManagerContainsPrinter | DragonMasterDeviceManager.py:279-284 | True iff some listed printer with a handle is on the port numbers. |
| DeviceManager.DragonMasterDeviceManager.SearchForDraxboards | DragonMasterDeviceManager.py:112-114 | Adds only draxboards for ports not yet listed and keeps existing entries. Ports stay distinct, and every started element ends up listed. |
| DeviceManager.DraxboardAppended | DragonMasterDeviceManager.py:112-114 | Appending a draxboard on an unlisted port keeps ports distinct and keeps every listing. |
| PeerJoystick.AxesAfter | DragonMasterDevice.py:104-113 | An X event replaces x and keeps y, a Y event replaces y and keeps x, and any other event keeps both. |
| PeerJoystick.AxesFollowLastEvent | DragonMasterDevice.py:101-115 | After a run of events, each axis holds the value of its own last event, or its old value when there was none. |
| PeerJoystick.Joystick.constructor | DragonMasterDevice.py:58-64 | A new joystick has no device, and both pairs are centred at (128, 128). |
| PeerJoystick.Joystick.StartDevice | DragonMasterDevice.py:69-76 | Starting takes hold of the device and reports success. |
| PeerJoystick.Joystick.DisconnectDevice | DragonMasterDevice.py:82-84 | After a disconnect the device is gone. |
| PeerJoystick.Joystick.ReadLoopStep | DragonMasterDevice.py:101-115 | A disconnected joystick ends the loop and changes nothing. Otherwise the axes follow the event and become the last-sent pair, with nothing queued. |
| PeerJoystick.Joystick.JoystickAxesUpdateThread | DragonMasterDevice.py:99-121 | While connected, the axes follow every event in turn and end up counted as sent. A disconnected joystick changes nothing. |
| PeerJoystick.Joystick.SendUpdatedJoystickToUnityApplication | DragonMasterDevice.py:126-130 | Queues nothing when the axes are unchanged. Otherwise it queues exactly `[0x21, station, x, y]` and records the pair as sent, so a second call queues nothing. |
| PrinterText.Repeat | PrinterDemo.py:29 | `s * n` is n copies of s. |
| PrinterText.RepeatChar | PrinterDemo.py:29 | A repeated single character is a run of that character. |
| PrinterText.SetStringLengthMultiple | PrinterDemo.py:25-31 | The result starts with the first text and ends with the second. Texts that already fill the width are simply joined. With a one-character spacing, the length is the larger of the width and the texts' length. |
| PrinterText.PaddedLine | PrinterDemo.py:28-29 | A short line gets exactly the missing number of repetitions, and every position between the texts holds the spacing character. |
| PrinterText.TicketLineFillsWidth | PrinterDemo.py:86-103 | A ticket line whose texts fit is exactly 24 characters, with the texts at either end. |

## Left out

- Sockets, threads and their recycling, on both sides. Only one step of each socket loop is modelled, as the mailbox guard it applies. The peer's 500-iteration send loop is not modelled, and neither is `add_event_to_send` running it on its own thread.
- Unity lifecycle and coroutine timing. The coroutines become explicit steps (`EndOfFrame`, `QuitDelayElapsed`). `Time.timeScale`, `Application.Quit` and `CancelQuit` are not modelled. The keepalive loop is reduced to the status packet it queues at start-up.
- Persistence (`LoadPeripheralSettings`, `SavePeripheralSettings`): file I/O. Settings stay at their defaults unless set through `SetJoystickAxesSwapped`, for these reasons:
  - `SavePeripheralSettings` fills a list of the stations' persisted values but serialises a fresh `PeripheralSaveData` whose `PersistedPlayerStationValuesList` is null (DragonMasterIOManagerPy3.cs:2288-2300).
  - Loading such a file throws a `NullReferenceException` at `.Length` (DragonMasterIOManagerPy3.cs:2332), which the `catch` swallows, so no slot changes.
  - When the file is missing, the `FileStream` opened before the `try` (DragonMasterIOManagerPy3.cs:2324) throws out of `Awake` after the slots are built. The model stops there too, with the slots as built.
- IOManager.DragonMasterIOManager.IndexLookupNeverMisses: this lemma and the `RegistryInvariant` clause "every non-zero slot hash is a key" hold only because no load ever sets a slot. A settings file with a filled list would set slot hashes through `persistedValues` (DragonMasterIOManagerPy3.cs:1617-1643, 1901-1908) without binding them in the dictionary, and the indexer (DragonMasterIOManagerPy3.cs:1578) would then throw.
- Omnidongle forwarding: `OmnidongleManager` is not part of this model. The omnidongle frame is only copied, and the connect and disconnect notices it receives are not modelled.
- Log classes and every `Debug.Log` call: no state.
- The bill-acceptor inbound handlers and `OnMeterError` and `OnPrinterState`: their bodies change no state, so the dispatcher treats their ids as changing nothing.
- `float` arithmetic is modelled as `real`. A byte divided by 128 is exact in single precision, and so are the sums of at most ten such values. The comparison of the dead zone with the float `0.25` is exact as well.
- Null packets given to the dispatcher are not modelled: the bridge's splitter never produces one.
- IOManager.DragonMasterIOManager.Update: the contract states the staging, the empty and overrun cases, and which frames can make a batch throw. It does not state each station's final view after a batch. That view is the per-frame `InboundHandled` applied in order, and it is stated frame by frame on `InterpretEventRecievedFromPython`.
- IOManager.DragonMasterIOManager.DispatchEvents: states which frames can stop a batch, but not the composed effect of the frames before it.
- IOManager.DragonMasterIOManager.PrintVoucherTicket: the ASCII bytes of the ticket text are not stated as the packet body, because the bridge never copies a payload. Only the payload's length reaches the packet, and that is what is stated.
- `GetPlayerStationHashFromBytePacketEvent` is `Frames.StationHashOf`. Its contract is the round-trip lemma `Frames.StationHashRoundTrip` and the short-frame sentinel 0 in its definition.
- The peer's `search_for_devices` is modelled for draxboards only. The joystick and omnidongle passes need the hardware enumerations. The printer pass reads `self.deviceManager`, which the manager does not have, and would raise before adding anything. The endless search loop in the manager's constructor is not modelled.
- The peer's `add_new_device_to_player_station_dictionary` fails with an attribute error on every path that reaches a container (`dict.insert`, attribute access on the dictionary). It is modelled as reporting that failure, and it never fills a container.
- DeviceManager.DragonMasterDeviceManager.AddNewDevice: the start routine's result is a parameter. The draxboard, bill-acceptor and omnidongle constructors skip the base constructor, and the serial start routine takes no element argument, so starting those devices would raise; the model does not decide that. The draxboard search builds each draxboard with the element as its port and no parent path, so its dictionary step only reports. The Python draxboard has neither attribute, and its dictionary step would raise on the missing `deviceParentPath` (DragonMasterDeviceManager.py:146). What `disconnect_device` does on a failed start is device-specific and not modelled.
- DeviceManager.DragonMasterDeviceManager.RemoveDevice: the device's own `disconnect_device` call (DragonMasterDeviceManager.py:182) is not modelled. Its effect is device-specific, and `Device` here carries no connection state.
- Device identity is object identity: `Device` is a class, and list membership compares references, as Python's `list.__contains__` does for these classes.
- The peer's `separate_events_received_into_list` and `execute_received_event` do nothing usable (one returns `None`, the other loops over nothing), so the peer's receive side is not modelled.
- PeerTransport.PeerTCPManager.SocketSendStep: events are modelled as lists of integers. In the Python code each event is a `bytearray`, and `list + bytearray` raises a `TypeError` before anything is sent. The model describes the buffer the loop evidently builds.
- PeerJoystick.Joystick.SendUpdatedJoystickToUnityApplication: the send goes to an explicit `PeerTCPManager`. The device manager forwards to a `tcpManager` it never creates, so the call as written would raise. The case where `bytearray` rejects a value outside a byte is modelled as a failed call that queues nothing.
- PeerJoystick.Joystick.JoystickAxesUpdateThread: the exception path that removes the device from the manager is not modelled. The event source is a parameter.
- Hardware access (evdev, pyudev, USB, ESC/POS, serial ports), the printer classes and the UI scripts are not part of this model.

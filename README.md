# pyUSBtin in Dafny

A model of the host-side core of pyUSBtin, a Python driver for the USBtin
USB-to-CAN adapter. The adapter speaks an ASCII line protocol over a serial port.
Frames travel as lines such as `t1230` or `T12345678197`. Configuration goes out as
commands such as `S6` (preset bit rate), `O`/`L`/`l` (open the channel) and `W2D00`
(write an MCP2515 register).

The model has three parts, one per core file of the driver.

- **Frames** (`canmessage.dfy`, module `CanMessages`, after `pyusbtin/canmessage.py`).
  - A `CANMessage` is a class whose attributes are updated in place. Its value
    snapshot is the datatype `Frame`.
  - Construction clamps the id, derives `extended` from it and checks the length
    against a signal table. The table is an explicit map parameter: the class
    attribute `dbc_info` as `load_dbc` would fill it.
  - Byte access `m[i]` and signal access work on the little-endian payload `_data`,
    an unbounded natural number. Construction and byte writes keep it below 2^64
    (`WithFieldBound`). A signal whose window reaches past bit 63 can push it to
    2^64 or above, and `to_string` then fails (`PayloadOverflow`).
  - `to_string` and `from_string` convert between a frame and a line.
    `from_string` keeps its running index and payload loop.
- **Filter masks** (`filtermask.dfy`, module `FilterMasks`, after `pyusbtin/filtermask.py`).
  These are the two register encodings of an MCP2515 mask or filter (SIDH, SIDL,
  EID8, EID0): from an 11-bit id and two data-byte masks, or from a 29-bit id. They
  are pure functions, with the inverse lemmas.
- **Driver** (`usbtin.dfy`, module `UsbTin`, after `pyusbtin/usbtin.py`).
  - A `Driver` class holds the receive state, the line buffer `incoming_message`,
    the listener list and the transmit FIFO.
  - What the driver writes to the serial port is the ghost sequence `written`.
  - The calls it makes to listeners are the ghost sequence `delivered`.
  - Modelled operations: the receive thread's per-byte step, `send` and
    `send_first_tx_fifo_message`, listener registration, and `read_response` over a
    given input.
  - Also modelled: `set_filter` with its two register writers, the preset-rate and
    mode tables, and the bit-timing search. The search uses exact reals in place of
    Python floats.

Supporting modules:
- `Arith`: powers of two and division facts.
- `Payload`: bit fields of an unbounded natural number, plus the `pack('<Q')` and
  `unpack('<Q')` byte order.
- `Hex`: the `'{:0Nx}'` formats, `int(s, 16)` and `int(c)`.
- `Wrappers`: `Option`, `Result` and `Outcome`.
- `Exceptions`: one constructor per exception cause.

Every exception the code raises, or lets escape, becomes an `Err` or `Fail` value
with its cause.

## Behaviour as written

The model reproduces the code below, not the intent stated in its comments.

- **The `T` branch of `from_string`** (`pyusbtin/canmessage.py:346-352`) starts the
  payload at index 9, which is the length digit. It reads one character per byte and
  steps by two.
  - Byte 0 of a decoded extended data frame is its length, and byte i is the low hex
    digit of sent byte i - 1 (`ExtendedDataQuirk`).
  - The docstring's own example `T12345678197` gives payload byte 1, not 0x97
    (`ExtendedDataExample`).
- **A length mismatch with the signal table raises IndexError**
  (`pyusbtin/canmessage.py:111`, `:120`). The exception message has three `{}`
  fields but two arguments, so `str.format` raises before the USBtinException is
  built (and, for a remote frame, before `len(None)` is evaluated). The condition
  is the one the code checks; the model reports it as `DlcMismatch`.
- **Malformed hex raises.** The docstring says a malformed field becomes zero, but
  `int(..., 16)` raises ValueError. `Decode` returns `Err(MalformedHex)`.
- **`extended` comes from the id value** (`pyusbtin/canmessage.py:107`), not from the
  type character of the line.
- **Incomplete `t` lines.** Python slicing clips at the end of the string, so the last
  pair of a `t` line cut one character short reads as a single digit.
  `StandardTrailingIgnored` states that characters after a complete line are ignored.
- **The bit-timing search keeps the later candidate on a tie** (`<=`,
  `pyusbtin/usbtin.py:216`).
- **The capacity check of `set_filter` uses `and`** (`pyusbtin/usbtin.py:430`). Two
  chains are refused only when the shorter has more than two filters and the longer
  more than four.
- **Filter slots are sticky.** A chain without filter `i` makes RXF `i` get the
  registers the previous filter of that channel got (zeros for a channel's first
  filter).
- **The chain index advances after every filter write** (`pyusbtin/usbtin.py:455-456`),
  not after each channel. With two chains, RXF0 takes the first chain's filter 0 and
  RXF1 the second chain's filter 1; RXM1 and RXF2-5 use the last chain.
- **An acknowledgement on an empty FIFO** makes `tx_fifo.pop(0)` raise IndexError
  (`Fail(EmptyFifo)`).
- **A bit rate without a preset** runs the search, but building its command fails on
  the misspelt `.foramt` (`pyusbtin/usbtin.py:225`). `OpenCanChannel` then fails with
  `CommandFormat` before sending anything. A zero rate fails earlier, dividing by
  zero.
- **An unknown mode** opens the channel listen-only (`L`).

## Model

| member | source | states |
|---|---|---|
| Hex.ParsePadded | pyusbtin/canmessage.py:394-405 | a number printed with `'{:0Nx}'` reads back with `int(s, 16)` as that number, whatever the padding |
| Hex.PaddedLength | pyusbtin/canmessage.py:394-402 | a number below 16^w printed with width w takes exactly w characters |
| Hex.PaddedByte | pyusbtin/canmessage.py:405 | `'{:02x}'` of a byte is its high hex digit followed by its low hex digit |
| Hex.DecimalOfDigit | pyusbtin/canmessage.py:333 | a length 0..9 printed with `'{:01x}'` reads back with `int(c)` |
| Hex.ParseShortAgrees | pyusbtin/canmessage.py:344 | reading one or two characters digit by digit gives exactly `int(s, 16)`, failures included |
| Hex.ParseMinimal | pyusbtin/canmessage.py:394 | the digits `'{:x}'` prints read back as the number printed |
| Payload.PackedByte | pyusbtin/canmessage.py:124-128 | byte i of the padded list unpacked with `'<Q'` is element i below the list's length and 0 beyond it |
| Payload.UnpackPack | pyusbtin/canmessage.py:124-128 | packing at most 8 bytes and splitting the result into 8 bytes gives the bytes followed by zero bytes |
| Payload.PackUnpack | pyusbtin/canmessage.py:403 | a payload below 2^64 is rebuilt exactly from its 8 little-endian bytes |
| Payload.PackBytesFrom | pyusbtin/canmessage.py:403 | the first n bytes of the payload, packed again, are the payload modulo 2^(8n) |
| Payload.FieldOfWith | pyusbtin/canmessage.py:235-239 | after clearing a bit window and adding `(v << start) & mask`, the window holds v modulo 2^size |
| Payload.FieldOfWithDisjoint | pyusbtin/canmessage.py:235-239 | writing one bit window leaves every disjoint window unchanged |
| Payload.ClearOfWith | pyusbtin/canmessage.py:235-239 | writing a window changes no bit outside it |
| Payload.WithFieldBound | pyusbtin/canmessage.py:292-294 | writing a window inside the low 64 bits keeps the payload below 2^64 |
| CanMessages.ClampId | pyusbtin/canmessage.py:101-102 | the id is at most 0x1FFFFFFF, and it is unchanged unless it was larger |
| CanMessages.Construct | pyusbtin/canmessage.py:99-153 | succeeds exactly when the table agrees and the frame is remote, or has at most eight data bytes each in 0..255, or has no data but a table entry or a dlc; `DlcMismatch` exactly when the table has the id with another length (or another RTR dlc); `ByteRange` and `PayloadTooLong` exactly for out-of-range bytes and more than eight bytes; `DlcUnavailable` exactly when there are no data, no table entry and no dlc; a built frame has the clamped id, `extended` exactly above 0x7FF, the table's name for a data frame of a known id, and as dlc the data length, or without data the table's length or the argument, with payload 0 |
| CanMessages.ConstructPayload | pyusbtin/canmessage.py:116-142 | a data frame built from n bytes has dlc n, and byte i reads back data[i] for i < n and 0 for n <= i < 8 |
| CanMessages.CanMessage.New | pyusbtin/canmessage.py:99-153 | a fresh object holding the frame `Construct` builds, or its error |
| CanMessages.CanMessage.GetItem | pyusbtin/canmessage.py:277-286 | `m[i]` is little-endian byte i of `_data` for 0 <= i <= 7; any other index raises |
| CanMessages.CanMessage.SetItem | pyusbtin/canmessage.py:288-298 | after `m[i] = v`, byte i reads `v & 0xFF`, all other bytes and attributes are unchanged; any other index raises and changes nothing |
| CanMessages.SetByte | pyusbtin/canmessage.py:290-294 | the bytes after writing byte i are the old bytes with only position i replaced by `v & 0xFF` |
| CanMessages.SignExtend | pyusbtin/canmessage.py:263-265 | the two's complement reading of a size-bit value lies in the signed range and agrees with the raw bits modulo 2^size |
| CanMessages.SignalValue | pyusbtin/canmessage.py:255-268 | a signal reads as its raw bits, sign-extended when signed, and fails only for a signed signal of size 0 |
| CanMessages.CanMessage.GetSignal | pyusbtin/canmessage.py:245-275 | reading a signal of the message's id gives a value in the signal's range whose low size bits are the window `(_data & mask) >> start_bit`; any other name, and always `mid` and `dbc_info`, is not a signal |
| CanMessages.CanMessage.SetSignal | pyusbtin/canmessage.py:221-243 | assigning a signal replaces exactly its bit window by the value's low bits, a value in range reads back unchanged (with exact integers; see "Left out"), and other names, including `mid` and `dbc_info`, leave the payload alone |
| CanMessages.SignalRoundTrip | pyusbtin/canmessage.py:221-268 | get after set returns v for every v in the signal's range, computed with exact integers (see "Left out" for values of magnitude 2^53 or more) |
| CanMessages.Text | pyusbtin/canmessage.py:379-408 | `to_string` succeeds exactly when the frame has a dlc and a payload below 2^64 |
| CanMessages.AppendPairs | pyusbtin/canmessage.py:403-405 | the loop appends every sent byte as two hex digits, in ascending index order |
| CanMessages.CanMessage.ToString | pyusbtin/canmessage.py:379-408 | the line built piece by piece is the line of the object's frame, or the error it raises |
| CanMessages.TextShape | pyusbtin/canmessage.py:388-405 | a line is the type character chosen by (extended, rtr), 8 or 3 id digits reading back as the id, the length digit, then two digits per sent byte: 1 + (8 or 3) + 1 + 2·min(dlc, 8) characters, remote frames included |
| CanMessages.Decode | pyusbtin/canmessage.py:307-357 | `from_string` gives a well-formed frame whose rtr flag is the type character being r or R; any other first character fails |
| CanMessages.CanMessage.FromString | pyusbtin/canmessage.py:307-357 | the running-index reader builds a fresh object holding the frame `Decode` describes, or fails with its error |
| CanMessages.ReadPayload | pyusbtin/canmessage.py:339-352 | the payload loop reads `count` fields every two characters, stopping at the first field `int(..., 16)` refuses |
| CanMessages.ReadStep | pyusbtin/canmessage.py:343-345 | a refused field ends the whole read with its error; an accepted one moves its value into the bytes read |
| CanMessages.ByteFieldParses | pyusbtin/canmessage.py:344 | a payload field reads without error exactly when `int(msg[i:i+w], 16)` accepts it, and reads its value |
| CanMessages.ReadHeader | pyusbtin/canmessage.py:332-341 | a header that reads gives the id read by `int(..., 16)` from the 3 or 8 characters after the type and the dlc read by `int(c)` from the next one |
| CanMessages.DecodeRemote | pyusbtin/canmessage.py:331-338 | an r or R line with a readable header is a remote frame with the clamped id, the line's dlc and an empty payload, or fails with `DlcMismatch` exactly when the table gives that id another length |
| CanMessages.RemoteTrailingIgnored | pyusbtin/canmessage.py:331-338 | characters after the length digit of an r or R line do not change the decoded frame |
| CanMessages.DecodeEmpty | pyusbtin/canmessage.py:354-357 | the empty line gives a data frame with id 0 and dlc 0 when id 0 has no table entry |
| CanMessages.StandardTrailingIgnored | pyusbtin/canmessage.py:339-345 | characters after a complete `t` line do not change what it decodes to |
| CanMessages.ReadPairs | pyusbtin/canmessage.py:343-345 | two-digit pairs printed after any prefix read back as the bytes printed |
| CanMessages.HeaderRoundTrip | pyusbtin/canmessage.py:388-402 | the header `to_string` prints reads back as the frame's id and dlc |
| CanMessages.RoundTrip | pyusbtin/canmessage.py:324-353 | `from_string(to_string(m))` keeps id, rtr, extended and dlc of a standard frame, an extended remote frame or an extended data frame with dlc 0, and byte i of a data frame for i < dlc, with zeros after |
| CanMessages.ReadLowDigits | pyusbtin/canmessage.py:350-352 | one-character fields taken one place into each printed pair read the low hex digit of each byte |
| CanMessages.ExtendedDecoded | pyusbtin/canmessage.py:346-353 | a `T` line whose header and fields read gives the id and dlc read, the bytes read, then zeros |
| CanMessages.ExtendedDataQuirk | pyusbtin/canmessage.py:346-352 | for an extended data frame, `from_string(to_string(m))` keeps id and dlc, but byte 0 becomes the dlc and byte i the low digit of byte i - 1 |
| CanMessages.ExtendedDataExample | pyusbtin/canmessage.py:315 | the docstring's line `T12345678197` decodes to payload byte 1, not 0x97 |
| FilterMasks.StandardRegisters | pyusbtin/filtermask.py:66-69 | SIDH and SIDL are bytes, the low five bits of SIDL are clear, and the data-byte masks are stored unchanged |
| FilterMasks.StandardIdRecovered | pyusbtin/filtermask.py:66-67 | an 11-bit id is `SIDH * 8 + SIDL / 32` |
| FilterMasks.StandardInjective | pyusbtin/filtermask.py:66-67 | two different 11-bit ids never give the same SIDH and SIDL |
| FilterMasks.ExtendedRegisters | pyusbtin/filtermask.py:41-44 | all four registers of an extended mask are bytes |
| FilterMasks.SidlBits | pyusbtin/filtermask.py:42 | `(extid >> 13) & 0xe0` is id bits 18..20 moved to bits 5..7, and the combined SIDL fits a byte |
| FilterMasks.ExtendedSidlLayout | pyusbtin/filtermask.py:42 | SIDL carries id bits 16-17 in bits 0-1 and id bits 18-20 in bits 5-7, and its bits 2-4 are clear |
| FilterMasks.ExtendedIdRecovered | pyusbtin/filtermask.py:41-44 | a 29-bit id is recovered from its four extended registers |
| UsbTin.RegisterCommandFields | pyusbtin/usbtin.py:369 | `W{:02x}{:02x}` is five characters whose two hex pairs read back as the register and the value |
| UsbTin.PresetCommand | pyusbtin/usbtin.py:169-183 | exactly the nine preset rates have a command, `S` followed by a digit 0..8 |
| UsbTin.PresetDigitsOrdered | pyusbtin/usbtin.py:169-183 | a faster preset rate has a larger digit, so the digit determines the rate |
| UsbTin.ModeCommand | pyusbtin/usbtin.py:231-239 | ACTIVE sends `O`, LOOPBACK `l`, and every other mode `L` |
| UsbTin.Mod20 | pyusbtin/usbtin.py:196 | Python's float `% 20` lies in [0, 20) |
| UsbTin.Prescaler | pyusbtin/usbtin.py:195-207 | the prescaler tried for x quanta is an even whole number in 2..128 |
| UsbTin.TryQuanta | pyusbtin/usbtin.py:193-213 | one pass of the loop body computes the prescaler and the deviation |x_desired - x·xbrp| |
| UsbTin.SearchBitTiming | pyusbtin/usbtin.py:186-222 | the search picks x in 11..23 with the least deviation, strictly less than every later x; its BRP value is a whole number in 0..63 and `x - 11` indexes the CNF table; a zero rate divides by zero |
| UsbTin.BestTimingUnique | pyusbtin/usbtin.py:216-219 | the best timing is unique: ties go to the later quanta count |
| UsbTin.EvenHalf | pyusbtin/usbtin.py:219 | half an even prescaler in 2..128, less one, is a whole number in 0..63 |
| UsbTin.ReadResponse | pyusbtin/usbtin.py:135-150 | refused while the receive thread runs; otherwise the bytes before the first CR when no BEL precedes it, or the BEL error when BEL comes first |
| UsbTin.MaskGroup | pyusbtin/usbtin.py:374-382 | mask m writes registers 0x20 + 4m + i, i = 0..3, with the four values in order |
| UsbTin.FilterGroup | pyusbtin/usbtin.py:384-393 | filter f writes from `[0, 4, 8, 0x10, 0x14, 0x18][f]` on, the four values in order |
| UsbTin.Arranged | pyusbtin/usbtin.py:425-428 | the swap keeps the same chains and puts the one with fewer filters first |
| UsbTin.FilterCheck | pyusbtin/usbtin.py:420-435 | refused exactly for more than two chains, one chain with more than 4 filters, or two chains whose shorter has more than 2 and longer more than 4 filters |
| UsbTin.FilterPlan | pyusbtin/usbtin.py:413-456 | no chains gives eight zero writes at 0x20..0x27; accepted chains give 32 writes |
| UsbTin.FilterPlanAddresses | pyusbtin/usbtin.py:437-456 | the 32 writes cover RXM0, RXF0, RXF1, RXM1, RXF2..RXF5 once each, in that order, each group's registers ascending |
| UsbTin.FilterPlanContents | pyusbtin/usbtin.py:437-456 | RXM0 gets the first chain's mask, RXM1 the last chain's, and each filter the registers its slot holds |
| UsbTin.PlanParts | pyusbtin/usbtin.py:441-456 | the writes are mask 0, filters 0-1, mask 1, filters 2-5 |
| UsbTin.FilterGroupsLayout | pyusbtin/usbtin.py:447-452 | write k of a channel's filters goes to register `start[filterid] + k % 4` with slot k / 4's value |
| UsbTin.LastChainSlots | pyusbtin/usbtin.py:446-449 | RXF2..RXF5 take the last chain's filters in order, repeat its last filter past its end, and get zeros when it has none |
| UsbTin.FirstChannelSlots | pyusbtin/usbtin.py:446-456 | with two chains RXF0 gets the first chain's filter 0, but RXF1 the second chain's filter 1, or what RXF0 got |
| UsbTin.HeadLine | pyusbtin/usbtin.py:340-348 | at most one line: the head's `to_string()` and CR |
| UsbTin.HeadStatus | pyusbtin/usbtin.py:340-350 | sending the head fails exactly when the FIFO is non-empty and its head cannot be printed |
| UsbTin.Deliveries | pyusbtin/usbtin.py:292-293 | one call per listener, in registration order, all with the same frame |
| UsbTin.IndexOf | pyusbtin/usbtin.py:335-336 | the position of the first occurrence, the one `list.remove` drops |
| UsbTin.Driver.constructor | pyusbtin/usbtin.py:51-65 | a new driver has its receive thread stopped, empty buffer, listeners and FIFO, and has written nothing |
| UsbTin.Driver.Transmit | pyusbtin/usbtin.py:124-131 | writes the command followed by CR and changes nothing else |
| UsbTin.Driver.AddMessageListener | pyusbtin/usbtin.py:329-331 | the listener is appended at the end |
| UsbTin.Driver.RemoveMessageListener | pyusbtin/usbtin.py:333-338 | removes the first occurrence and nothing else, or raises when the listener is not registered |
| UsbTin.Driver.SendFirstTxFifoMessage | pyusbtin/usbtin.py:340-350 | writes the head's line when the FIFO is non-empty, nothing otherwise, and leaves the FIFO as it is |
| UsbTin.Driver.Send | pyusbtin/usbtin.py:352-359 | appends at the tail; writes the head's line only when the FIFO now holds one message |
| UsbTin.Driver.ReceiveByte | pyusbtin/usbtin.py:283-314 | a byte other than CR and BEL is appended, and CR and BEL never are. A CR completing a line: frame lines are decoded once and delivered to every listener in order; `z`/`Z` drop the head and write the next (failing on an empty FIFO); other lines are discarded; the buffer is empty afterwards unless an error was raised. BEL rewrites the head |
| UsbTin.Driver.DeliverLine | pyusbtin/usbtin.py:284-293 | the line is decoded once and the frame handed to every listener in registration order, or the decoding error is raised |
| UsbTin.Driver.NotifyListeners | pyusbtin/usbtin.py:291-293 | every registered listener is handed the frame once, in registration order, and nothing else changes |
| UsbTin.Driver.Acknowledge | pyusbtin/usbtin.py:294-301 | the head is dropped and the new head written; an empty FIFO raises |
| UsbTin.Driver.WriteRegister | pyusbtin/usbtin.py:361-372 | writes exactly the line `W{:02x}{:02x}` and CR |
| UsbTin.Driver.WriteMaskRegisters | pyusbtin/usbtin.py:374-382 | writes the lines of mask m's four register writes, in order |
| UsbTin.Driver.WriteFilterRegisters | pyusbtin/usbtin.py:384-393 | writes the lines of filter f's four register writes, in order |
| UsbTin.Driver.SetFilter | pyusbtin/usbtin.py:395-456 | refuses exactly what `FilterCheck` refuses and then writes nothing; otherwise writes the lines of `FilterPlan`, in order |
| UsbTin.Driver.WriteChains | pyusbtin/usbtin.py:437-456 | the channel loop writes the mask and then the filters of both channels |
| UsbTin.Driver.WriteChannelFilters | pyusbtin/usbtin.py:445-456 | the filter loop of one channel writes each slot's registers; the chain index ends on the last chain |
| UsbTin.Driver.WriteSlot | pyusbtin/usbtin.py:447-451 | one pass of the filter loop leaves `registers` on the slot's filter (the chain's filter `i`, or the previous slot's registers) and extends the lines written by exactly that slot's four writes |
| UsbTin.Driver.OpenCanChannel | pyusbtin/usbtin.py:160-245 | a preset rate sends `S` and its digit, then the mode character, and starts the receive thread; any other rate fails before anything is written |

## Left out

- Serial I/O: opening, flushing and closing the port in `connect`, `disconnect` and
  `close_can_channel`, and the version queries. The lines the driver would write are
  the ghost sequence `written`; input bytes are parameters.
- Threads: `start_rx_thread`, `stop_rx_thread`, the polling loop and `inWaiting`.
  Only the per-byte step of the receive loop is modelled. The unsynchronised sharing
  of `tx_fifo` between threads is not.
- UsbTin.Driver.SetFilter: assumes every register write succeeds. `set_filter` runs
  before the channel is opened, while the receive thread is stopped, so each
  `transmit` reads a reply (`pyusbtin/usbtin.py:131-133`). A BEL reply raises
  (`pyusbtin/usbtin.py:147`) after only some of the writes; the model has no such
  failure, and its `r == FilterCheck(fc)` holds only because replies are not read.
- UsbTin.Driver.OpenCanChannel: assumes the replies to `S` and to the mode command
  are not BEL. Both are sent before the receive thread starts
  (`pyusbtin/usbtin.py:183`, `:239`, `:242`), so in the source a BEL reply raises,
  after the `S` command or after both; the model reports `Pass` for every preset rate.
- CanMessages.CanMessage.SetSignal: plain attribute assignment is not modelled.
  Assigning `mid` changes the id in the source; the model treats `mid` and
  `dbc_info` as names that are never signals and leaves the frame unchanged.
- CanMessages.CanMessage.SetSignal: computes with exact integers. The source runs
  `int(value / factor + offset)` with true division and float factor and offset
  (`pyusbtin/canmessage.py:22`, `:204-205`, `:233`), so a value of magnitude 2^53 or
  more is rounded to a float first. On a signal wider than 53 bits such values do
  not read back in the source; for example 2^64 - 1 on an unsigned 64-bit signal
  becomes 2^64, and the mask writes zero. `SignalRoundTrip` states the exact-integer
  read-back.
- CanMessages.SignalRoundTrip: holds for every in-range value only with exact
  integers; in the source it holds for values of magnitude below 2^53.
- CanMessages.CanMessage.GetSignal: reading `mid` or `dbc_info` returns the plain
  attribute in the source; the model reports them as not a signal.
- UsbTin.Driver.Transmit: does not read the reply that `transmit` reads while the
  receive thread is stopped. `ReadResponse` models that reader on its own.
- UsbTin.ReadResponse: where the port would block for more bytes, the model returns
  `NoTerminator`.
- UsbTin.SearchBitTiming: uses exact reals where Python computes with floats, so
  rounding is not modelled.
- The command built from the search result and the achieved-rate message. The
  command cannot be built as written (`.foramt`), and `brpopt | 0xC0` would apply `|`
  to a float.
- Console output: `print` calls, and the exceptions the receive loop prints and
  swallows. The receive loop catches only USBtinException. The send failures of
  the model (`NoDlc`, the TypeError of `'{:01x}'.format(None)`, and
  `PayloadOverflow`, the `struct.error` of `pack('<Q')`) are not USBtinExceptions.
  They escape and end the receive thread, and the line buffer is not cleared.
  `ReceiveByte` returns them as `Fail` and keeps the buffer, which is the state the
  thread leaves behind.
- `load_dbc`: regex parsing and file I/O. The signal table is a parameter.
- Float signal scaling: only factor 1 and offset 0 are modelled, with exact
  integers. `int()` truncation of scaled values and the ignored `byte_order` are not.
- `int()` parsing extras: surrounding whitespace, signs, `0x` prefixes and
  underscores count as malformed, and so do non-ASCII decimal digits, which `int()`
  accepts. Negative ids and negative dlc values are not modelled (both are natural
  numbers). The source accepts a negative dlc for a frame built without data, for
  example `CANMessage(0x100, rtr=True, dlc=-1)`, and `to_string` prints it as `-1`
  (`pyusbtin/canmessage.py:110-114`, `:397`).
- Python's attribute machinery. Only the signal branches of `__getattribute__` and
  `__setattr__` are modelled, as `GetSignal` and `SetSignal`.
- CanMessages.Construct: the caller's data list is read as a value. The source pads
  a list or tuple argument to eight entries with `+=`, so a list the caller passed
  in has eight elements afterwards; the model does not show that change. A `data`
  argument that is neither a list, nor bytes, nor a tuple leaves `_data` unset in
  the source; the model takes data only as a sequence of integers.
- CanMessages.RoundTrip: covers standard frames, extended remote frames and
  extended data frames with dlc 0. Extended data frames with dlc 1 or more do not
  round-trip; `ExtendedDataQuirk` states what they give.
- `get_data`/`set_data` (an attribute unrelated to `_data`), `__str__`, `__repr__`
  and `__iter__` (display only), and the Python 2 branches.
- UsbTin.Driver.Send: queues a copy of the message's value. The source queues the
  object itself, so later changes to it by the caller would alter what is sent.
- `set_filter` swaps the caller's list in place. The model reads the chains as
  values, so the swap is not visible to the caller.
- Listeners are identity tokens. What a callback does when called is not modelled.
- The `FilterMask` class cannot be constructed as written:
  - the second `__init__` replaces the first;
  - both assign into an empty list, which raises IndexError.

  The two encodings are modelled as functions returning the four register values
  `get_registers` would return.
- `FilterChain` (a two-field holder) is the datatype `FilterChain`.
  `USBtinException` is the `Error` datatype.

# I2C USB dongles: transaction framing and sensor byte logic in Dafny

The Python package `i2cusbdongles` drives I2C sensors through one of three USB
adapters. Each adapter exposes the same transaction, `askDongle(addr, data,
rbytes, wait_time, …)`: send `data` to the 7-bit address `addr`, then read back
`rbytes` bytes. This project models the layer that turns that one transaction
into each adapter's wire traffic. It also models the byte-level logic of four
sensor drivers that sit on top of it. Everything is proved with Dafny.

- **Addressing** (`dongle.dfy`): the address byte is `addr << 1 | R/W`, as in
  section 3.1.10 of NXP UM10204, the I2C-bus specification.
- **Transports** (`transport.dfy`): the adapters' foreign transports become two
  classes.
  - A `SerialPort` records every frame written. Its incoming side is a queue of
    `Byte` and `Pause` tokens: a read of `n` bytes stops after `n` bytes or at a
    pause, and consumes the pause as the read timeout. `in_waiting` counts the
    bytes before the next pause.
  - A `HidDevice` records every `(pipe, report)` written and answers reads from
    a queue of reports. Each report is cut or zero-padded to the report size; an
    empty queue yields an all-zero report.
  - `ReadAndDrain` is the read-then-drain-until-an-empty-read step that ELV and
    ISS share.
- **IOW** (`iow_frames.dfy`, `iow.dfy`): the IO-Warrior adapter speaks HID
  reports of 8 or 64 bytes.
  - Report size and pipe are chosen from the product id, and a mode report sets
    I2C mode.
  - Writes carry a start/stop/length flags byte and are split across several
    reports when long.
  - An acknowledge/retry loop checks kind-2 reports and their error bit.
  - Reads are set up with a kind-3 report, and kind-3 reports are gathered
    until `rbytes` bytes have arrived.
  - The Sensirion path (address 0, or a name starting `SHT7`) skips the write
    and the acknowledge.
- **ELV** (`elv.dfy`): the ELV adapter speaks ASCII hex such as `S 90 00 P`.
  Replies are decoded from 3-character groups `"XX "`; Python's `int(s, 16)` is
  modelled on its whitespace, sign, `0x` prefix and underscore rules.
- **ISS** (`iss.dfy`): the ISS adapter speaks binary frames such as `55 90 00`.
  The read-setup opcode depends on how many register bytes there are, and the
  constructor performs a two-step version and mode handshake.
- **Sensors**: the drivers talk to a `Dongle.Bus`, a transaction-level stand-in
  for any adapter. It records the transactions issued and answers from a
  scripted queue of replies.
  - SCD4x (`scd4x.dfy`): CRC-8 and command framing.
  - LM75 (`lm75.dfy`): two's-complement temperature, in integer eighths or
    halves of a degree.
  - HT16K33 (`ht16k33.dfy`): row and column bit patterns and the
    initialisation sequence.
  - TSL2591 (`tsl2591.dfy`): command bytes, control byte, raw counts, the
    status poll and the auto-gain loop.
- **Bit operations** (`bytes.dfy`): Python's `&`, `|` and `^` are defined on
  natural numbers, together with the hex formatting the adapters use.

## Model

| member | source | states |
|---|---|---|
| Dongle.AddressByte | src/i2cusbdongles/dongles/IOW.py:331 | the address byte carries the 7-bit address in its top bits and the read flag in bit 0 |
| Dongle.Answer | src/i2cusbdongles/dongles/Dongle.py:19-22 | a transaction that reads nothing answers None; otherwise the next scripted reply is taken off the queue |
| Dongle.DroppedAdd | src/i2cusbdongles/dongles/Dongle.py:19-22 | taking a replies then b replies from the queue is taking a+b |
| Dongle.DroppedStep | src/i2cusbdongles/dongles/Dongle.py:19-22 | taking one more reply is answering one more transaction |
| Dongle.Bus.constructor | src/i2cusbdongles/dongles/Dongle.py:14-16 | a new bus has issued nothing and holds the whole reply script |
| Dongle.Bus.Ask | src/i2cusbdongles/dongles/Dongle.py:19-22 | `askDongle` appends the transaction to the trace and answers from the reply queue |
| Bytes.And | src/i2cusbdongles/dongles/IOW.py:272 | bitwise and never exceeds either operand |
| Bytes.AndLowBits | src/i2cusbdongles/sensors/SCD4x.py:150 | masking with 2^k-1 keeps the remainder modulo 2^k |
| Bytes.AndBit | src/i2cusbdongles/dongles/IOW.py:272 | masking with 2^k tests bit k |
| Bytes.OrDisjoint | src/i2cusbdongles/dongles/IOW.py:379-380 | or of values with no common bit is their sum |
| Bytes.OrXorBound | src/i2cusbdongles/sensors/SCD4x.py:73 | or and xor of k-bit values stay k-bit, so the `& 0xff` after them changes nothing |
| Bytes.XorByteBits | src/i2cusbdongles/sensors/SCD4x.py:73 | `^` of two bytes is the sum of the weights of the bits where they differ |
| Bytes.XorOnes | src/i2cusbdongles/sensors/HT16K33.py:115-116 | xor with all ones of width k is the complement 2^k-1-a |
| Bytes.Hex2Decodes | src/i2cusbdongles/dongles/ISS.py:199-205 | the two upper-case hex digits of a byte read back as that byte |
| Bytes.HexGroupsAppend | src/i2cusbdongles/dongles/ISS.py:199-205 | the rendering of bytes is one `"XX "` group per byte, in order |
| Bytes.HexIntGroup | src/i2cusbdongles/dongles/ELV.py:190 | `int("XX ", 16)` and `int("XX", 16)` give back the byte |
| Bytes.RStripSet | src/i2cusbdongles/dongles/ELV.py:163 | `rstrip(chars)` removes exactly the longest suffix made of those characters |
| Bytes.LStrip | src/i2cusbdongles/dongles/ELV.py:46 | `strip` on the left removes exactly the leading whitespace |
| Bytes.Upper | src/i2cusbdongles/dongles/ELV.py:89 | `upper` maps a..z to A..Z and keeps every other byte |
| Bytes.ToBE16 | src/i2cusbdongles/sensors/SCD4x.py:87 | `to_bytes(2, 'big')` is inverted by the big-endian join |
| Bytes.HexPrefix | src/i2cusbdongles/dongles/IOW.py:469 | the loop rendering a report prefix yields its hex groups |
| Transport.Arrived | src/i2cusbdongles/dongles/ISS.py:168 | bytes that arrive with no pause between them are queued in order |
| Transport.FlatArrived | src/i2cusbdongles/dongles/ISS.py:168 | the bytes of arrived bytes are those bytes |
| Transport.Available | src/i2cusbdongles/dongles/ISS.py:169 | `in_waiting` is positive exactly when a byte is next in the queue |
| Transport.SerialRead | src/i2cusbdongles/dongles/ISS.py:168 | `read(n)` returns at most n bytes and returns nothing only at a pause or an empty queue |
| Transport.SerialReadKeepsAll | src/i2cusbdongles/dongles/ISS.py:168 | a read loses no byte: what it returns followed by what stays queued is everything queued |
| Transport.SerialReadNoPause | src/i2cusbdongles/dongles/ISS.py:168 | with no pause queued, `read(n)` returns the first min(n, queued) bytes |
| Transport.DrainLoopStep | src/i2cusbdongles/dongles/ISS.py:172-175 | the drain loop reads one byte and stops at the first empty read |
| Transport.DrainLoopKeepsAll | src/i2cusbdongles/dongles/ISS.py:172-175 | the drain loop drops nothing it reads |
| Transport.DrainLoopNoPause | src/i2cusbdongles/dongles/ISS.py:172-175 | with no pause queued the drain loop reads everything |
| Transport.DrainedKeepsAll | src/i2cusbdongles/dongles/ISS.py:168-175 | read-then-drain drops nothing it reads |
| Transport.DrainedReadsEverything | src/i2cusbdongles/dongles/ISS.py:168-175 | with no pause queued, read-then-drain returns every queued byte, whatever length was asked |
| Transport.ReadAndDrain | src/i2cusbdongles/dongles/ISS.py:168-175 | the imperative read-and-drain loop computes `Drained` on the port's queue and writes nothing |
| Transport.Fit | src/i2cusbdongles/dongles/IOW.py:415-422 | a received report is cut or zero-padded to the report size |
| Transport.SerialPort.constructor | src/i2cusbdongles/dongles/ISS.py:35 | an opened port has written nothing and holds the scripted input |
| Transport.SerialPort.Write | src/i2cusbdongles/dongles/ISS.py:138 | `write` appends one frame to the trace and leaves the input alone |
| Transport.SerialPort.Read | src/i2cusbdongles/dongles/ISS.py:168 | `read(n)` takes `SerialRead` off the queue |
| Transport.SerialPort.InWaiting | src/i2cusbdongles/dongles/ISS.py:169 | `in_waiting` is `Available` of the queue |
| Transport.HidDevice.constructor | src/i2cusbdongles/dongles/IOW.py:161-176 | an opened device has its product id, has written nothing and holds the scripted reports |
| Transport.HidDevice.Write | src/i2cusbdongles/dongles/IOW.py:405 | a report write appends `(pipe, report)` to the trace |
| Transport.HidDevice.Read | src/i2cusbdongles/dongles/IOW.py:419 | a report read takes the next report, fitted to the size, or zeros when none is queued |
| IowFrames.PipeFor | src/i2cusbdongles/dongles/IOW.py:176-182 | the pipe is the I2C-mode pipe exactly for the IOW28 product id, else the special-mode pipe |
| IowFrames.ReportSizeFor | src/i2cusbdongles/dongles/IOW.py:184-190 | the report size is 64 exactly for IOW28 and IOW56, else 8 |
| IowFrames.ModeReport | src/i2cusbdongles/dongles/IOW.py:233-244 | the mode report is `[1, 1, flags, 0, 0…]` of report size, with bit 7 = disable pull-ups, bit 6 = sensibus, low bits 0 |
| IowFrames.ModeByteFields | src/i2cusbdongles/dongles/IOW.py:236-241 | the mode byte's bits 7 and 6 are the two options and its low six bits are 0 |
| IowFrames.Flags | src/i2cusbdongles/dongles/IOW.py:376-380 | the flags byte holds the payload length in its low six bits, start in bit 7 and stop in bit 6 |
| IowFrames.FlagsFields | src/i2cusbdongles/dongles/IOW.py:376-380 | the or of len, 0x80·start and 0x40·stop is a byte whose fields read back as len, start, stop |
| IowFrames.FlagsSum | src/i2cusbdongles/dongles/IOW.py:376-380 | the or of the three fields is their sum |
| IowFrames.DataReport | src/i2cusbdongles/dongles/IOW.py:367-407 | a write report is kind 2, report-size long, payload from byte 2, zeros after |
| IowFrames.DataReportRoundTrip | src/i2cusbdongles/dongles/IOW.py:367-407 | decoding a write report gives back its payload, start and stop |
| IowFrames.ReadAddressByte | src/i2cusbdongles/dongles/IOW.py:441 | the read address byte is `(addr << 1) + 1`, or 0 for address 0 |
| IowFrames.ReadSetupReport | src/i2cusbdongles/dongles/IOW.py:432-449 | a read-setup report is kind 3 with the count in byte 1 and zeros from byte 3 |
| IowFrames.ReadSetupAddressing | src/i2cusbdongles/dongles/IOW.py:441-446 | byte 2 is the read address byte or'd with the command: address byte alone for command 0, command alone for address 0 |
| IowFrames.ReadSetupExample | src/i2cusbdongles/sensors/LM75.py:27 | LM75 at 0x48 reading 2 bytes sets up with `03 02 91 00 00 00 00 00` |
| IowFrames.Prefixed | src/i2cusbdongles/dongles/IOW.py:331-348 | with a nonzero address the bytes sent are `[addr << 1] + wdata`; with address 0 just `wdata` |
| IowFrames.PayloadsAppend | src/i2cusbdongles/dongles/IOW.py:353-364 | payloads of concatenated report plans concatenate |
| IowFrames.TailPayloads | src/i2cusbdongles/dongles/IOW.py:352-364 | the middle and last reports carry exactly the rest of the data |
| IowFrames.TailShape | src/i2cusbdongles/dongles/IOW.py:352-364 | after the first report: middle reports are full, have no start and no stop; the last has the stop flag and is non-empty when data remains |
| IowFrames.WritePlanShape | src/i2cusbdongles/dongles/IOW.py:325-364 | a write is one report iff the data fits in reportSize-3 bytes; only the first report has start, only the last may stop, every payload passes the size check, and the payloads concatenate to the prefixed data |
| IowFrames.WritePlanPayloads | src/i2cusbdongles/dongles/IOW.py:342-364 | a split write's payloads concatenate to the prefixed data |
| IowFrames.WritePlanBoundary | src/i2cusbdongles/dongles/IOW.py:336 | reportSize-3 data bytes fit in one report; reportSize-2 bytes need two |
| IowFrames.RealisedReports | src/i2cusbdongles/dongles/IOW.py:367-407 | reports realising a plan are one per chunk, kind 2, report size, on the chosen pipe |
| IowFrames.TailReportsFollowPlan | src/i2cusbdongles/dongles/IOW.py:352-364 | the reports after the first realise the tail of the plan |
| IowFrames.WriteReportsFollowPlan | src/i2cusbdongles/dongles/IOW.py:325-364 | the reports `IOWwriteData` sends realise its plan |
| IowFrames.WriteReportsExample | src/i2cusbdongles/sensors/LM75.py:25 | LM75's register write at 0x48 is the single report `02 82 90 00 00 00 00 00`. The logged frame is `02 C2 90 00…` with the stop bit set; the code as written holds the stop back when a read follows (IOW.py:261), and the model follows the code |
| IowFrames.DeviceName | src/i2cusbdongles/dongles/IOW.py:474-490 | every device name starts `IO-Warrior` |
| IowFrames.DeviceNamesDistinct | src/i2cusbdongles/dongles/IOW.py:474-490 | the known product ids have distinct names, each different from the unknown-product name |
| IOW.Later | src/i2cusbdongles/dongles/IOW.py:281-283 | a wrong-kind reply costs one more poll |
| IOW.Sends | src/i2cusbdongles/dongles/IOW.py:267-268 | every poll of the acknowledge loop is preceded by a write |
| IOW.AckLoop | src/i2cusbdongles/dongles/IOW.py:264-283 | the acknowledge loop polls no more replies than are scripted, and stalls only when they are all used without an end |
| IOW.ErrorAcks | src/i2cusbdongles/dongles/IOW.py:272 | error acknowledges are counted among the polled replies |
| IOW.AckLoopNoEarlyClean | src/i2cusbdongles/dongles/IOW.py:271-280 | no reply before the last polled one is a clean acknowledge |
| IOW.AckLoopLast | src/i2cusbdongles/dongles/IOW.py:271-280 | an acknowledged loop ends on a clean kind-2 reply; a loop that gave up ends on an error acknowledge |
| IOW.AckLoopErrors | src/i2cusbdongles/dongles/IOW.py:272-277 | the loop gives up exactly at the fourth error acknowledge; wrong-kind replies do not count |
| Bytes.RepeatMore | src/i2cusbdongles/dongles/IOW.py:268 | one more write appends one more copy of the reports |
| IOW.Collect | src/i2cusbdongles/dongles/IOW.py:299-311 | a finished read phase has gathered at least the requested bytes |
| IOW.CollectGathers | src/i2cusbdongles/dongles/IOW.py:299-308 | the bytes gathered are bytes 2.. of the accepted kind-3, no-error replies, in arrival order |
| IOW.CollectStops | src/i2cusbdongles/dongles/IOW.py:299-308 | the read stops on an accepted reply and gathers fewer than request + one report |
| IOW.SensirionPath | src/i2cusbdongles/dongles/IOW.py:260-320 | on the Sensirion path nothing is written for rbytes = 0, and otherwise only the read-setup report carrying `data[0]` |
| IOW.WriteOnly | src/i2cusbdongles/dongles/IOW.py:264-322 | with rbytes = 0 the answer is None, the writes are the write reports once per poll, and no read-setup report is sent |
| IOW.WriteOnlyKinds | src/i2cusbdongles/dongles/IOW.py:318-322 | with rbytes = 0 only kind-2 reports are written |
| IOW.RepeatKinds | src/i2cusbdongles/dongles/IOW.py:268 | repeated write reports are all kind 2 |
| IOW.AnswerLength | src/i2cusbdongles/dongles/IOW.py:287-314 | an answer has exactly rbytes bytes and follows a read-setup report for rbytes |
| IOW.ReadPhaseData | src/i2cusbdongles/dongles/IOW.py:292-314 | a read phase with an answer wrote exactly one read-setup report for rbytes bytes |
| IOW.Lm75Example | src/i2cusbdongles/sensors/LM75.py:25-28 | LM75 at 0x48: one write report, one read-setup report, and the answer `1A 80`. The write report is `02 82 90…`, not the logged `02 C2 90…`, because the code holds the stop back when a read follows |
| IOW.Lm75ReadPhase | src/i2cusbdongles/sensors/LM75.py:27-28 | the LM75 read phase yields `1A 80` |
| IOW.Lm75Replies | src/i2cusbdongles/sensors/LM75.py:26-28 | the LM75 replies are a clean acknowledge and one data report |
| IOW.RetryExample | src/i2cusbdongles/dongles/IOW.py:272-280 | two error acknowledges then a clean one: the write goes out three times |
| IOW.RetryReplies | src/i2cusbdongles/dongles/IOW.py:272-280 | the acknowledge loop over those replies is acknowledged after three polls |
| IOW.LastShown | src/i2cusbdongles/dongles/IOW.py:463 | the scan stops at the last nonzero byte, or at 0 |
| IOW.SkipTrailingZeros | src/i2cusbdongles/dongles/IOW.py:462-463 | the loop skipping trailing zeros finds `LastShown` |
| IOW.StrArrayElidesZeros | src/i2cusbdongles/dongles/IOW.py:458-471 | the printed report is all its hex groups, or a prefix, `...` and the last byte, with only zeros elided |
| IOW.IowDongle.constructor | src/i2cusbdongles/dongles/IOW.py:157-199 | the dongle takes pipe and report size from the product id and sends one mode report |
| IOW.IowDongle.NewReport | src/i2cusbdongles/dongles/IOW.py:190 | a fresh report is report-size zeros |
| IOW.IowDongle.SetI2CMode | src/i2cusbdongles/dongles/IOW.py:233-248 | the mode command sends `ModeReport` on the pipe |
| IOW.IowDongle.WriteReport | src/i2cusbdongles/dongles/IOW.py:367-407 | a payload longer than reportSize-2 is refused and nothing is sent; otherwise the write report is sent |
| IOW.IowDongle.WriteData | src/i2cusbdongles/dongles/IOW.py:325-364 | `IOWwriteData` sends `WriteReports`, stop = not suspend |
| IOW.IowDongle.WriteTail | src/i2cusbdongles/dongles/IOW.py:352-364 | the pointer loop sends the middle and last reports |
| IOW.IowDongle.ReadData | src/i2cusbdongles/dongles/IOW.py:415-422 | a data read takes the next report, fitted to the size |
| IOW.IowDongle.ReadAck | src/i2cusbdongles/dongles/IOW.py:409-412 | an acknowledge read is a data read |
| IOW.IowDongle.ReadCommand | src/i2cusbdongles/dongles/IOW.py:432-449 | `IOWreadCommand` sends `ReadSetupReport` |
| IOW.IowDongle.InitializeRead | src/i2cusbdongles/dongles/IOW.py:425-429 | `IOWinitializeRead` is the read command with command 0 |
| IOW.IowDongle.WriteUntilAcked | src/i2cusbdongles/dongles/IOW.py:264-283 | the write-and-acknowledge loop follows `AckLoop` on the queued replies |
| IOW.IowDongle.PollAck | src/i2cusbdongles/dongles/IOW.py:270-283 | one acknowledge poll either ends the loop or continues it with the updated retry counter |
| IOW.IowDongle.CollectReply | src/i2cusbdongles/dongles/IOW.py:299-311 | the gathering loop follows `Collect` on the queued replies |
| IOW.IowDongle.AskDongle | src/i2cusbdongles/dongles/IOW.py:252-322 | `askDongle` writes, answers and consumes exactly what `Ask` says |
| IOW.IowDongle.GetStrArray | src/i2cusbdongles/dongles/IOW.py:458-471 | `__getstrArray__` builds `StrArray` |
| ELV.SpacedHex | src/i2cusbdongles/dongles/ELV.py:133 | the data part of a frame is three characters per byte |
| ELV.SpacedHexGroups | src/i2cusbdongles/dongles/ELV.py:133 | `" XX"` per byte is `"XX "` per byte shifted by one space |
| ELV.HexGroupsNoLower | src/i2cusbdongles/dongles/ELV.py:133 | the hex groups have no lower-case letter |
| ELV.FrameUpper | src/i2cusbdongles/dongles/ELV.py:134-135 | a frame is unchanged by `upper` |
| ELV.FramesCarry | src/i2cusbdongles/dongles/ELV.py:128-145 | the write frame is `"S "` + hex groups of the address byte and data + `"P"`, 6+3·len(data) long; the read-setup frame carries the read address byte and the count |
| ELV.WriteFrameText | src/i2cusbdongles/dongles/ELV.py:131-135 | the write frame is `"S "` + hex groups of `[addr << 1] + data` + `"P"` |
| ELV.ReadSetupFrameText | src/i2cusbdongles/dongles/ELV.py:143-145 | the read-setup frame is `"S "` + hex groups of `[(addr << 1) + 1, rbytes]` + `"P"` |
| ELV.Lm75Frames | src/i2cusbdongles/sensors/LM75.py:20-21 | LM75 frames at 0x48 are `S 90 00 P` and `S 91 02 P` |
| ELV.Groups | src/i2cusbdongles/dongles/ELV.py:186-193 | a decoded list has one value per 3-byte group |
| ELV.GetListFromRec | src/i2cusbdongles/dongles/ELV.py:182-194 | the group loop computes `ListFromRec` |
| ELV.GroupsRoundTrip | src/i2cusbdongles/dongles/ELV.py:186-193 | decoding `"XX "` groups of a byte list gives the list back |
| ELV.ListFromRecRoundTrip | src/i2cusbdongles/dongles/ELV.py:182-194 | `__getListfromRec` inverts the adapter's `"%02X "` rendering |
| ELV.GroupsRoundTripTrimmed | src/i2cusbdongles/dongles/ELV.py:186-193 | the round trip holds when the last space is missing too |
| ELV.ListFromRecExample | src/i2cusbdongles/dongles/ELV.py:185 | `BE 6E 9A 69 32 00` decodes to 190, 110, 154, 105, 50, 0 |
| ELV.ErrorTextNeverReturned | src/i2cusbdongles/dongles/ELV.py:167-172 | the error-text test is always true, so the reply is always decoded and the raw text is never returned |
| ELV.DecodeReply | src/i2cusbdongles/dongles/ELV.py:167-172 | the branch as written computes `Decoded` |
| ELV.StripLineEnd | src/i2cusbdongles/dongles/ELV.py:163 | stripping CR/LF keeps the last space |
| ELV.ReadReplyDecodes | src/i2cusbdongles/dongles/ELV.py:150-172 | a reply `"XX "`·n + CR LF reads back as those n bytes and leaves nothing queued |
| ELV.Lm75Reply | src/i2cusbdongles/sensors/LM75.py:22 | the reply `1A 80` + CR LF, the value the comment on this line and the IOW and ISS logs give, decodes to 26, 128 |
| ELV.Lm75LoggedReply | src/i2cusbdongles/sensors/LM75.py:22 | the reply as logged, `1A A0` + CR LF, decodes to 26, 160 |
| ELV.AskFramesShape | src/i2cusbdongles/dongles/ELV.py:113-125 | with rbytes = 0 only the write frame is sent; otherwise write frame then read-setup frame, each decoding back to its bytes |
| ELV.InitCommandUpper | src/i2cusbdongles/dongles/ELV.py:45-89 | the init command `<y30?` goes out as `<Y30?` |
| ELV.ElvDongle.constructor | src/i2cusbdongles/dongles/ELV.py:30-51 | initialisation sends `<Y30?`, drains the reply, and succeeds iff the stripped reply starts with `ELV` |
| ELV.ElvDongle.WriteAdmin | src/i2cusbdongles/dongles/ELV.py:86-91 | an admin command is sent upper-cased |
| ELV.ElvDongle.ReadAdmin | src/i2cusbdongles/dongles/ELV.py:94-110 | an admin read is read-and-drain, stripped |
| ELV.ElvDongle.WriteData | src/i2cusbdongles/dongles/ELV.py:128-137 | sends `WriteFrame` |
| ELV.ElvDongle.InitializeRead | src/i2cusbdongles/dongles/ELV.py:140-147 | sends `ReadSetupFrame` |
| ELV.ElvDongle.ReadData | src/i2cusbdongles/dongles/ELV.py:150-172 | reads 3·length+2 bytes, drains, strips CR/LF and decodes: `ReadReply` |
| ELV.ElvDongle.AskDongle | src/i2cusbdongles/dongles/ELV.py:113-125 | `askDongle` sends `AskFrames`; None for rbytes = 0, else the decoded read |
| ISS.ReadOpcode | src/i2cusbdongles/dongles/ISS.py:147-152 | the read opcode is 0x55 for at most one register byte and 0x56 otherwise |
| ISS.Parse | src/i2cusbdongles/dongles/ISS.py:131-161 | a frame parses only when byte 1 carries the address and a read opcode matches the register length |
| ISS.WriteFrameParses | src/i2cusbdongles/dongles/ISS.py:131-138 | the write frame `[0x55, addr << 1] + data` parses back to the write |
| ISS.ReadSetupFrameParses | src/i2cusbdongles/dongles/ISS.py:143-161 | the read-setup frame `[op, (addr << 1) + 1] + register + [count]` parses back to the read |
| ISS.Lm75Frames | src/i2cusbdongles/sensors/LM75.py:38-39 | LM75 frames at 0x48 are `55 90 00` and `55 91 00 02` |
| ISS.AskFramesShape | src/i2cusbdongles/dongles/ISS.py:116-128 | with rbytes = 0 only the write frame; otherwise the read-setup uses the written data as register bytes |
| ISS.HandshakeAccepts | src/i2cusbdongles/dongles/ISS.py:42-60 | a version reply starting 0x07 and a mode reply `FF 00` initialise the dongle |
| ISS.HandshakeRefusesOtherDevice | src/i2cusbdongles/dongles/ISS.py:44-50 | a version reply not starting 0x07 fails after sending only the version command |
| ISS.HandshakeNeedsPause | src/i2cusbdongles/dongles/ISS.py:44-60 | a mode reply arriving with the version reply is drained into it, so the mode check fails |
| ISS.AfterPause | src/i2cusbdongles/dongles/ISS.py:102-109 | a read after a pause gets the bytes that follow it |
| ISS.ArrivedDrained | src/i2cusbdongles/dongles/ISS.py:168-175 | read-and-drain returns every byte that arrived |
| ISS.ReadsWhatArrived | src/i2cusbdongles/dongles/ISS.py:168-175 | read-and-drain stops at the pause after the reply |
| ISS.ReadPrefix | src/i2cusbdongles/dongles/ISS.py:168 | `read(n)` returns the n bytes that arrived first |
| ISS.ReadNotTruncated | src/i2cusbdongles/dongles/ISS.py:168-182 | three bytes read for a two-byte request are all returned |
| ISS.IssDongle.constructor | src/i2cusbdongles/dongles/ISS.py:30-69 | the constructor performs `Handshake` on the queued input |
| ISS.IssDongle.WriteAdmin | src/i2cusbdongles/dongles/ISS.py:92-96 | an admin command is sent as is |
| ISS.IssDongle.ReadAdmin | src/i2cusbdongles/dongles/ISS.py:99-113 | an admin read is read-and-drain |
| ISS.IssDongle.WriteData | src/i2cusbdongles/dongles/ISS.py:131-140 | sends `WriteFrame` |
| ISS.IssDongle.InitializeRead | src/i2cusbdongles/dongles/ISS.py:143-162 | sends `ReadSetupFrame` |
| ISS.IssDongle.ReadData | src/i2cusbdongles/dongles/ISS.py:165-182 | returns every byte read and drained, in order, not cut to the requested length |
| ISS.IssDongle.AskDongle | src/i2cusbdongles/dongles/ISS.py:116-128 | `askDongle` sends `AskFrames`; None for rbytes = 0, else everything read and drained |
| SCD4x.XorByte | src/i2cusbdongles/sensors/SCD4x.py:73 | xor of two bytes is a byte |
| SCD4x.CrcBitArith | src/i2cusbdongles/sensors/SCD4x.py:76-79 | one bit step doubles the value, and when bit 7 was set drops it and flips bits 0, 4 and 5, the set bits of 0x31 |
| SCD4x.CrcByteTrace | src/i2cusbdongles/sensors/SCD4x.py:72-79 | a byte step whose XOR and eight bit steps are traced in plain arithmetic ends at the traced value |
| SCD4x.XorPoly | src/i2cusbdongles/sensors/SCD4x.py:77 | `^ 0x31` on an even byte sets bit 0 and flips bits 4 and 5 |
| SCD4x.CrcAppend | src/i2cusbdongles/sensors/SCD4x.py:72-79 | the CRC of data + [b] folds b into the CRC of data |
| SCD4x.CrcResidue | src/i2cusbdongles/sensors/SCD4x.py:67-81 | appending the CRC to the data gives a zero CRC |
| SCD4x.CrcEmpty | src/i2cusbdongles/sensors/SCD4x.py:71 | the CRC of no bytes is the initial 0xFF |
| SCD4x.CrcBeef | src/i2cusbdongles/sensors/SCD4x.py:67-81 | the CRC of `BE EF` is 0x92, the Sensirion data sheet's check value |
| SCD4x.CrcStatusWords | src/i2cusbdongles/sensors/SCD4x.py:67-81 | the CRCs of `00 00` and `80 00` are 0x81 and 0xA2 |
| SCD4x.FrameShape | src/i2cusbdongles/sensors/SCD4x.py:84-94 | a frame starts with the big-endian code; it is 2 bytes for read/send, 3 for write/send_fetch without a value, 5 with one; a value outside 16 bits raises |
| SCD4x.FrameChecks | src/i2cusbdongles/sensors/SCD4x.py:88-94 | the CRC byte checks the code, or the value, which reads back big-endian |
| SCD4x.TableReadsWords | src/i2cusbdongles/sensors/SCD4x.py:24-45 | exactly the read and send_fetch commands read, always in 3-byte words |
| SCD4x.ReadMeasurementRow | src/i2cusbdongles/sensors/SCD4x.py:24-45 | read_measurement is 0xEC05, reads 9, waits 1 ms, frame `EC 05` |
| SCD4x.DataReadyRow | src/i2cusbdongles/sensors/SCD4x.py:24-45 | get_data_ready_status is 0xE4B8 and reads 3 |
| SCD4x.StartStopRows | src/i2cusbdongles/sensors/SCD4x.py:24-45 | start is 0x21B1 and stop is 0x3F86 with a 500 ms wait |
| SCD4x.SelfTestRow | src/i2cusbdongles/sensors/SCD4x.py:24-45 | perform_self_test is 0x3639, reads 3, waits 10000 ms |
| SCD4x.Word | src/i2cusbdongles/sensors/SCD4x.py:114-121 | a sensor word is 3 bytes: the value big-endian and its CRC |
| SCD4x.MeasurementRoundTrip | src/i2cusbdongles/sensors/SCD4x.py:116-121 | three words read back as CO2, raw T and raw RH |
| SCD4x.DataReadyAsWrittenMeans | src/i2cusbdongles/sensors/SCD4x.py:150-154 | as written, "not ready" holds iff both status bytes are 0 and the CRC byte's low three bits are 0 |
| SCD4x.DataReadyIntendedMeans | src/i2cusbdongles/sensors/SCD4x.py:149 | the intended test is ready iff the low 11 bits of the status word are not 0 |
| SCD4x.StatusWords | src/i2cusbdongles/sensors/SCD4x.py:67-81 | status words 0x0000 and 0x8000 arrive as `00 00 81` and `80 00 A2` |
| SCD4x.DataReadyDiffersOnZero | src/i2cusbdongles/sensors/SCD4x.py:150-154 | as written the reply `00 00 81` (status 0, not ready) reads as ready |
| SCD4x.DataReadyDiffersOnTopBit | src/i2cusbdongles/sensors/SCD4x.py:150-154 | as written the reply `80 00 A2` (low 11 bits 0) reads as ready |
| SCD4x.SelfTestReads | src/i2cusbdongles/sensors/SCD4x.py:213-223 | a self-test word with a good CRC is OK iff 0, else a malfunction; a bad CRC is reported first |
| SCD4x.RecalibrationReads | src/i2cusbdongles/sensors/SCD4x.py:246-255 | 0xFF fails whatever the CRC; another value with a good CRC gives offset FRC − 0x8000 |
| SCD4x.RecalibrationOffsetRange | src/i2cusbdongles/sensors/SCD4x.py:254 | the offset lies in −0x8000..0x7FFF |
| SCD4x.Scd4x.constructor | src/i2cusbdongles/sensors/SCD4x.py:47-52 | a new driver has no measurement time |
| SCD4x.Scd4x.ComputeCrc | src/i2cusbdongles/sensors/SCD4x.py:67-81 | the nested CRC loop computes `Crc` |
| SCD4x.Scd4x.ShiftOut | src/i2cusbdongles/sensors/SCD4x.py:74-79 | the inner loop runs eight CRC shift steps |
| SCD4x.Scd4x.ShiftOnce | src/i2cusbdongles/sensors/SCD4x.py:75-79 | one shift step xors 0x31 in exactly when bit 7 was set |
| SCD4x.Scd4x.I2CCommand | src/i2cusbdongles/sensors/SCD4x.py:84-101 | an unknown command or bad value raises and sends nothing; otherwise the frame is sent with the table's read count and wait |
| SCD4x.Scd4x.Run | src/i2cusbdongles/sensors/SCD4x.py:84-96 | a command without a value sends its 2-byte code |
| SCD4x.Scd4x.GetAll | src/i2cusbdongles/sensors/SCD4x.py:109-126 | `SCD4xgetAll` reads 9 bytes, records the time, and returns `Measurement` or raises on a short answer |
| SCD4x.Scd4x.GetDataReady | src/i2cusbdongles/sensors/SCD4x.py:145-154 | asks `get_data_ready_status` and returns the corrected test, ready iff the low 11 bits of the status word are not 0; a short answer raises |
| SCD4x.Scd4x.StartMeas | src/i2cusbdongles/sensors/SCD4x.py:156-159 | start sends `21 B1` and records the time |
| SCD4x.Scd4x.StopMeas | src/i2cusbdongles/sensors/SCD4x.py:161-163 | stop sends `3F 86` with a 500 ms wait |
| SCD4x.Scd4x.PerformSelfTest | src/i2cusbdongles/sensors/SCD4x.py:211-224 | the self test sends `36 39`, reads 3 and returns `SelfTestResult` |
| LM75.Encode | src/i2cusbdongles/sensors/LM75.py:82-115 | the register bytes for a temperature hold its two's complement, shifted left |
| LM75.RegisterIsBE16 | src/i2cusbdongles/sensors/LM75.py:104-110 | the register `msb << 8` or'd with `lsb` is the big-endian join |
| LM75.RawBound | src/i2cusbdongles/sensors/LM75.py:104-110 | the shifted register has 11 bits (LM75B) or 9 bits (LM75) |
| LM75.SignedTwos | src/i2cusbdongles/sensors/LM75.py:105-112 | subtracting 0x800 / 0x200 when bit 10 / 8 is set is two's complement |
| LM75.CountsRange | src/i2cusbdongles/sensors/LM75.py:103-113 | eighths lie in −1024..1023 and halves in −256..255 |
| LM75.EncodeDecodes | src/i2cusbdongles/sensors/LM75.py:103-113 | decoding the encoded temperature gives it back |
| LM75.DecodeEncodes | src/i2cusbdongles/sensors/LM75.py:103-113 | encoding the decoded temperature gives the bytes back, minus the bits below resolution |
| LM75.RawTimesUnit | src/i2cusbdongles/sensors/LM75.py:104-110 | the shift drops exactly the low 5 or 7 bits |
| LM75.EighthsTable | src/i2cusbdongles/sensors/LM75.py:91-101 | the data-sheet table's 11-bit values decode to their temperatures in eighths |
| LM75.Example1A80 | src/i2cusbdongles/sensors/LM75.py:28-40 | `1A 80` is 212 eighths and 53 halves, 26.5 °C |
| LM75.Example1AA0 | src/i2cusbdongles/sensors/LM75.py:22 | the logged ELV bytes `1A A0` are 53 halves, 26.5 °C, on a 9-bit LM75 and 213 eighths, 26.625 °C, on an LM75B |
| LM75.SensorLm75.constructor | src/i2cusbdongles/sensors/LM75.py:47-51 | the subtype `LM75B` selects eighths, anything else halves |
| LM75.SensorLm75.Init | src/i2cusbdongles/sensors/LM75.py:55-66 | initialisation performs one temperature transaction |
| LM75.SensorLm75.GetTemp | src/i2cusbdongles/sensors/LM75.py:69-79 | write `[0x00]`, read 2, decode answ[0] as msb and answ[1] as lsb; a short answer raises |
| HT16K33.PixelRowTable | src/i2cusbdongles/sensors/HT16K33.py:110-116 | the row byte is 0x80 for y = 0 and 1 << (y−1) otherwise; switched off it is xor'd with 0xFF |
| HT16K33.PixelRowNamesRow | src/i2cusbdongles/sensors/HT16K33.py:110-113 | the row byte of row y names row y: different rows get different bits |
| HT16K33.ColBitsMeaning | src/i2cusbdongles/sensors/HT16K33.py:129-132 | the column byte has bit 7 set and 2^clamp(y,0,7)−1 in its low bits |
| HT16K33.Pow2Monotone | src/i2cusbdongles/sensors/HT16K33.py:131-132 | 2^i grows with i |
| HT16K33.ColBitsMonotone | src/i2cusbdongles/sensors/HT16K33.py:131-132 | the column byte grows with y and is constant from y ≥ 7 and for y ≤ 0 |
| HT16K33.FillAll | src/i2cusbdongles/sensors/HT16K33.py:87-91 | the fill loop sends `[i, 0xFF]` for each i in order |
| HT16K33.BottomRow | src/i2cusbdongles/sensors/HT16K33.py:97 | the bottom-row loop sends one transaction per column |
| HT16K33.BottomRowPixels | src/i2cusbdongles/sensors/HT16K33.py:97 | column i of the bottom row is `[2i, 0x80]` |
| HT16K33.InitSequenceShape | src/i2cusbdongles/sensors/HT16K33.py:39-97 | initialisation sends 0x21, 0x81, 0xA0, then `[i, 0xFF]` for i = 0..15, then row 0 of each column: 27 transactions |
| HT16K33.LedHt16k33.constructor | src/i2cusbdongles/sensors/HT16K33.py:25-29 | a new driver holds its bus, address and name |
| HT16K33.LedHt16k33.Send | src/i2cusbdongles/sensors/HT16K33.py:118-121 | each command is one transaction reading 1 byte |
| HT16K33.LedHt16k33.SetPixel | src/i2cusbdongles/sensors/HT16K33.py:100-123 | outside 0..7 nothing is sent; otherwise `[2x, row byte]` |
| HT16K33.LedHt16k33.SetCol | src/i2cusbdongles/sensors/HT16K33.py:126-138 | sends `[2x, column byte]` with a 1-byte read; when 2x is not a byte the model sends nothing and returns `Raised`, a check the code does not make (see Left out) |
| HT16K33.LedHt16k33.Init | src/i2cusbdongles/sensors/HT16K33.py:32-97 | `HT16K33Init` sends `InitSequence` |
| HT16K33.LedHt16k33.FillRam | src/i2cusbdongles/sensors/HT16K33.py:87-91 | the fill loop sends `FillAll` |
| HT16K33.LedHt16k33.LightBottomRow | src/i2cusbdongles/sensors/HT16K33.py:97 | the pixel loop sends `BottomRow` |
| TSL2591.CommandFields | src/i2cusbdongles/sensors/TSL2591.py:48 | a command byte is 0xA0 or'd with the register: top bits 101, register in the low five |
| TSL2591.CommandBytes | src/i2cusbdongles/sensors/TSL2591.py:95-231 | the registers used give 0xA0, 0xA1, 0xB1, 0xB2, 0xB3, 0xB4 |
| TSL2591.SelectorOrder | src/i2cusbdongles/sensors/TSL2591.py:67-143 | selector index i has gain field i, and factors grow with the index |
| TSL2591.IntTable | src/i2cusbdongles/sensors/TSL2591.py:74-80 | integration field f stands for 100·(f+1) ms |
| TSL2591.ControlFields | src/i2cusbdongles/sensors/TSL2591.py:184-192 | the control byte is gain field·16 + time field, at most 0x35, and its nibbles give the fields back |
| TSL2591.ChannelIsLE16 | src/i2cusbdongles/sensors/TSL2591.py:235-236 | `a` or'd with `b << 8` is the little-endian 16-bit join |
| TSL2591.ChannelRoundTrip | src/i2cusbdongles/sensors/TSL2591.py:235-236 | every 16-bit count reads back from its two bytes |
| TSL2591.PackageIdBits | src/i2cusbdongles/sensors/TSL2591.py:109 | `& 0x30` keeps bits 5:4 |
| TSL2591.StepMoves | src/i2cusbdongles/sensors/TSL2591.py:161-177 | a step goes down one above 65000, up two below 152, up one below 2500, and stays in 0..3 |
| TSL2591.StepStops | src/i2cusbdongles/sensors/TSL2591.py:161-177 | the loop stops exactly for 2500..65000 or when the step would leave 0..3 |
| Bytes.Repeat | src/i2cusbdongles/sensors/TSL2591.py:221-227 | k repeats of a one-element sequence are k copies of its element: n status polls are the status transaction at each of n places |
| Bytes.RepeatAdd | src/i2cusbdongles/sensors/TSL2591.py:221-227 | a then b polls are a+b polls |
| TSL2591.PollAfter | src/i2cusbdongles/sensors/TSL2591.py:216-227 | the poll loop polls at most its bound again |
| TSL2591.PollAfterStep | src/i2cusbdongles/sensors/TSL2591.py:219-227 | a not-ready status leads to one more poll |
| TSL2591.Poll | src/i2cusbdongles/sensors/TSL2591.py:211-228 | the status is asked at least once and at most bound+1 times |
| TSL2591.PollReadsUntilReady | src/i2cusbdongles/sensors/TSL2591.py:211-228 | a ready outcome comes from the first reply with AVALID set; every earlier reply had it clear |
| TSL2591.SetupTxs | src/i2cusbdongles/sensors/TSL2591.py:191-205 | three transactions, the first writing the control byte |
| TSL2591.ReadOutSpec | src/i2cusbdongles/sensors/TSL2591.py:230-244 | raw counts are 16-bit and carry the gain factor and time used |
| TSL2591.LumSpec | src/i2cusbdongles/sensors/TSL2591.py:182-244 | a measurement takes at least four transactions, starts with the control byte, and reports the gain and time used |
| TSL2591.AutoContinues | src/i2cusbdongles/sensors/TSL2591.py:161-177 | a step inside 0..3 measures again at the new index |
| TSL2591.AutoSettles | src/i2cusbdongles/sensors/TSL2591.py:135-179 | auto-gain starts with the index's gain at 600 ms and returns a measurement taken at the last index, which the step rule accepts |
| TSL2591.AutoAfterSettles | src/i2cusbdongles/sensors/TSL2591.py:146-177 | from any measurement at an index the loop ends on one the step rule accepts |
| TSL2591.InitIdentifies | src/i2cusbdongles/sensors/TSL2591.py:90-113 | the sensor is found iff the ID reply is the subtype; the package id is confirmed iff bits 5:4 are 0 |
| TSL2591.SensorTsl2591.constructor | src/i2cusbdongles/sensors/TSL2591.py:83-87 | a new driver holds its bus, address, subtype and name |
| TSL2591.SensorTsl2591.Ask | src/i2cusbdongles/sensors/TSL2591.py:194 | each register access is one transaction |
| TSL2591.SensorTsl2591.Init | src/i2cusbdongles/sensors/TSL2591.py:90-132 | `TSL2591Init` follows the intended call (see Findings): its ending, its transactions and the answers left are those of `InitSpec` |
| TSL2591.InitAsWrittenDiffers | src/i2cusbdongles/sensors/TSL2591.py:97 | as written, init raises with nothing sent on every input, while the intended init always sends the id read first |
| TSL2591.SensorTsl2591.WaitReady | src/i2cusbdongles/sensors/TSL2591.py:211-228 | the status poll issues `Poll` status transactions |
| TSL2591.SensorTsl2591.WaitAfter | src/i2cusbdongles/sensors/TSL2591.py:216-227 | the poll loop follows `PollAfter` |
| TSL2591.SensorTsl2591.Configure | src/i2cusbdongles/sensors/TSL2591.py:184-205 | sends `SetupTxs` |
| TSL2591.SensorTsl2591.ReadOut | src/i2cusbdongles/sensors/TSL2591.py:230-236 | the data read follows `ReadOutSpec` |
| TSL2591.SensorTsl2591.GetLum | src/i2cusbdongles/sensors/TSL2591.py:182-244 | `TSL2591getLum` follows `LumSpec` |
| TSL2591.SensorTsl2591.NextIndex | src/i2cusbdongles/sensors/TSL2591.py:161-177 | the branch computes `Step` |
| TSL2591.SensorTsl2591.Round | src/i2cusbdongles/sensors/TSL2591.py:147-177 | one loop round measures and either stops or continues `Auto` |
| TSL2591.SensorTsl2591.GetLumAuto | src/i2cusbdongles/sensors/TSL2591.py:135-179 | `TSL2591getLumAuto` starts at index 1 and follows `Auto` |

## Left out

- The iowkit binding and `serial.Serial`: they are foreign code. They are
  replaced by the `SerialPort` and `HidDevice` classes in `transport.dfy`, whose
  incoming side is a script.
- Timing: `time.sleep`, `wait_time`, the serial timeout and the ISS/ELV pauses
  are not modelled as time. A serial timeout is a `Pause` token in the input
  queue. The `waitMs` parameters are accepted and ignored.
- Printing, `pTemplate` logging, `util` colour output and `doPrint`/`info`/`end`
  arguments: no observable result.
- `sys.exit` in the constructors: the ELV and ISS constructors set an
  `initialized` flag, and TSL2591 initialisation returns an `Init` outcome.
  The sensors' `except: sys.exit()` around `askDongle` is an `Outcome.Raised`
  result.
- The IOW wrong-kind retry and read re-loop have no bound in the code. An
  exhausted reply queue ends them with a `Stalled` outcome where the device
  would make the code spin forever; the loops decrease on the queue length.
- IOW.IowDongle.WriteReport: a payload longer than reportSize-2 makes the
  code call `sys.exit()` (IOW.py:373-375); the model returns `ok == false`
  and sends nothing instead. `IowFrames.WritePlanShape` proves that every
  payload `WriteData` hands it fits, so `askDongle` never reaches that branch.
- IOW.IowDongle.AskDongle: the Sensirion name test strips and upper-cases the
  name as bytes, with ASCII whitespace and ASCII case only. Python's `strip`
  and `upper` are Unicode-aware, so a name such as `"\u00a0SHT75"` or
  `"ſht75"` counts as Sensirion in the code and not in the model. The name
  is given to `IOW.IowDongle.AskDongle` as the byte sequence of its
  characters; the `string` name of a `Dongle.Transaction` is not converted
  into it, since no sensor of the model drives an IOW adapter directly.
- IOW.IowDongle.AskDongle: a Sensirion call with empty `data` and rbytes > 0
  answers `MissingCommand`, where the code raises `IndexError` on `data[0]`
  (IOW.py:295).
- HT16K33.LedHt16k33.SetCol: the code sends `round(x*2)` with no range check
  (HT16K33.py:129-137). The bus of the model carries bytes only, so when 2x
  is not a byte the model sends nothing and returns `Raised`. On the real
  adapters the outcome differs: ISS raises in `bytes()`, IOW truncates the
  value into a `c_ubyte`, and ELV formats it in hex as it stands (`"100"`,
  `"-2"`) and sends it.
- Bytes only on the bus: `Dongle.Transaction.data`, `Dongle.Transaction.rbytes`
  and the `Dongle.Bus` replies are bytes, and so is the `rbytes` of the IOW,
  ELV and ISS `AskDongle`. The code's `askDongle` accepts any int in `data`
  and in `rbytes`, and the ELV decoder can return values above 255 for a
  group such as `"1FF"` (ELV.py:190). `ELV.Decoded` keeps such values as
  ints, but a `Dongle.Bus` reply cannot carry them. A count outside 0..255
  is not modelled. On the real adapters it behaves as follows:
  - IOW stores it in the `c_ubyte` read-setup report, so it is truncated
    (IOW.py:445), while the gathering loop still waits for the full count
    (IOW.py:299).
  - ELV formats it with `"{:02X}"`, which gives three or more hex digits
    (ELV.py:144).
  - ISS raises `ValueError` in `bytes([count])` (ISS.py:154).
  - A negative count reads nothing and answers None on all three adapters
    (IOW.py:287, ELV.py:117, ISS.py:120), like a count of 0.

  No driver passes a count above 9.
- TSL2591.SensorTsl2591.WaitReady: the status poll has no bound in the code; the
  model takes a `pollFuel` bound and reports `NotReady` when it runs out.
- TSL2591.SensorTsl2591.GetLumAuto: the auto-gain loop ends in the code because
  the step rule is not cyclic in practice; the model takes a `fuel` bound and
  reports `Stalled` when it runs out.
- A sensor's `Dongle.Bus` never raises. A short or missing reply is the
  `IndexError` path, modelled as an error outcome (`Raised`, or `ShortId` in
  TSL2591 initialisation).
- SCD4x.Scd4x.GetDataReady: returns the corrected data-ready test, not the
  test as written; the code as written is `SCD4x.DataReadyAsWritten` (see
  Findings).
- Replies are not tied in time to the writes that provoke them: the incoming
  script is fixed when the port or bus is created.
- Floating point: the LM75 scale (×0.125, ×0.5), the SCD4x temperature and
  humidity formulas, and the TSL2591 vis/ir normalisation. LM75 is modelled
  in integer eighths and halves, and SCD4x and TSL2591 return the raw counts.
- HT16K33 coordinates are integers, so `round(x*2)` and `round(y)` are the
  identity. `HT16K33runAllFunctions` and `TSL2591runAllFunctions` (random
  numbers, sleeps, printing) are not modelled.
- `SCD4xready` calls a float and is not modelled.
- Forced recalibration's `input()` prompt, its 3-minute sleep and the
  stop/start around it are not modelled. Its result decoding is
  (`SCD4x.RecalibrationReads`).
- The SCD4x serial-number, altitude, pressure, factory-reset and reinit
  wrappers are single `I2CCommand` calls and are covered only through
  `SCD4x.Scd4x.I2CCommand`.
- TSL2591.SensorTsl2591.Init: models the intended id read, not the call as
  written. TSL2591.py:97 looks the adapter up in `glob.dongles` with the
  adapter object as key and passes it as an extra first argument, so the
  call raises KeyError before any transaction (see Findings,
  `TSL2591.InitAsWritten`). The model makes the plain
  `self.dongle.askDongle(...)` call that the next reads make. The system reset
  transaction is commented out in the source and is not sent.
- The string-keyed TSL2591 gain and integration tables are datatypes with the
  same field values, factors and times.
- The `glob.dongles[self.name]` lookup in the IOW `askDongle` is `this`.
- The ISS `__strCommand` is modelled only as its hex part (`Bytes.HexGroups`);
  the `str(command)` prefix is Python's repr and is left out.
- The ISS handshake treats an empty version reply as a refusal, where the code
  would fail on `rec[0]`.
- `ELV.Decoded` keeps a `BadGroup` outcome for a group `int(…, 16)` rejects,
  where the code raises `ValueError`.
- The `& 0xff` after the CRC xor is a no-op on bytes; `Bytes.OrXorBound` proves
  this instead of modelling the mask.
- `IOWshowInfo`, `ELVshowInfo`, `ELVshowMacro`, `ELVreset`, `ISSshowInfo`,
  `ISSreset` and `close`: diagnostics with no result beyond printing.
- The SHT7x driver: its only non-float logic is a 16-bit big-endian join,
  which `Bytes.BE16` covers.
- main.py, pytoolsPlot.py and the rest of util.py (measurement loop,
  plotting, keyboard, signals, files): outside the transaction layer.

## Findings

| source | as written | input that shows it | evidently intended | confidence | as-written member | corrected member |
|---|---|---|---|---|---|---|
| src/i2cusbdongles/sensors/SCD4x.py:149-154 | not ready iff `answ[0] + answ[1] + (answ[2] & 0x07) == 0`, which adds the whole high byte and masks the CRC byte | status word 0x0000 (not ready) arrives as `00 00 81`; the CRC byte's low bit makes the test say ready. Status 0x8000 (`80 00 A2`) shows it too | ready iff the low 11 bits of the status word are not 0, as the comment on line 149 says | not executed | SCD4x.DataReadyDiffersOnZero | SCD4x.DataReadyIntendedMeans |
| src/i2cusbdongles/sensors/TSL2591.py:97 | the id read is `glob.dongles[self.dongle].askDongle(self.dongle, self.addr, ...)`: the table of adapters is indexed with the adapter object, and the adapter is passed again as the address | any call of `TSL2591Init`: `glob.dongles` is keyed by names such as `"IOW-DG"` (main.py:138), so the lookup raises KeyError and nothing is sent | `self.dongle.askDongle(self.addr, data, rbytes, ...)`, as the PID read on line 108 does | not executed | TSL2591.InitAsWrittenDiffers | TSL2591.InitIdentifies |

# Arduino library algorithms, modelled and proved

This project models the algorithms and interrupt-driven protocols inside a collection of
Arduino libraries and proves what they promise. Registers, pins and delays appear only as
what they expose: a line level, a timer count, an interrupt, a message. Every file holds
one module or a few; `dafny verify dfyconfig.toml` checks all of them. `Basics` has what
several of them need.

**1-Wire search** (`RomOrder`, `OneWire`, `ValidBus`, `AlarmSearch`, `Bits`). A search call
walks a wired-AND bus down a binary trie of 64-bit ROM codes; one discrepancy index and the
last ROM are all that the next call has. `RomOrder` is the specification side: the wire
order, junctions, the pending discrepancy, and what a leaf that *follows* the rule is. The
classes `OneWire` and `DallasTemperature` keep the address bytes and masks of the source,
and are proved to reach exactly those leaves. Whole search loops then list each device once
and in order. Two conditions turn out to be exact: a device with family code zero makes the
general search find nothing at all; and on a compiler with unsigned `char` every alarm search
finds the first device again, so that on a bus of valid ROM codes the loop that runs the
alarm handler ends if and only if at most one device has an alarm. After `target_search` the search takes the least device of the family, unless
another device differs from it in the very last bit; two ROM codes with valid CRCs
never do.

**CRCs** (`OneWireCrc`, `BtleCodec`). The 256-entry table, the bit loop and the reflected
register are the same function, as are the parity trick of `crc16` and the bit-serial
register; the byte-wise Bluetooth CRC and whitening are the standard's shift registers
(Bluetooth Core 4.0, Vol 6 Part B, sections 3.1.1 and 3.2). All four detect any change
confined to one byte.

**Manchester link** (`Manchester`, `ManchesterLink`, `ManchesterWave`, `ManchesterNoise`, `ManchesterOverdue`,
`ManchesterMessage`). A transmitter
that holds levels for half a bit, and a sampling interrupt. For every waveform, noise
included, the interrupt writes inside the buffer it was given; for any sampling of a real transmission within the
windows, the message is complete exactly when enough bytes were sent, and is what was sent.
Every transmission has such samplings: its half bits merge into stretches of one or two.
No noise switches the receiver off. A stretch of a wrong length puts it back to waiting, and neither that
nor up to two pulses of any length keep it from receiving the next transmission; three or more can.

**AltSoftSerial** (`ByteRing`, `SoftSerialRx`, `SoftSerialLine`, `SoftSerialTx`,
`SoftSerialLink`, `SoftSerialEndToEnd`, `SoftSerialMargin`, `SoftSerialReader`). The receiver knows 16-bit timestamps of level
changes and one timeout; the transmitter schedules only level changes. Under any interleaving of writes and
compare interrupts nothing is lost or reordered, and a queued byte follows after exactly
ten bit times if and only if it was queued when the last level change of the byte before
it was served. End to end, with jitter below half a bit against each captured start edge, what `read` has
returned and what is left in the ring are exactly the bytes written, in order, as long as the
reader keeps up. For captures that are each off by some error, twice the error below half a
bit is the exact bound. `init` accepts bit times below two ticks; the receiver does not work there.

**IRremote** (`IrCapture`, `IrRc5`, `IrLink`). The 50 microsecond interrupt is a run-length
encoder with a full buffer and a timer that wraps; `decodeRC5` accepts exactly the recordings whose
widths stand for a biphase frame, and so inverts `sendRC5` through the interrupt. The
tolerance windows allow exactly a sensor lag from -111 to 339 microseconds. After a resume a
recording begins with the first mark that has a gap before it, and no other. (The comment
above the interrupt says that a long space makes the state idle; the code makes it stop,
and so does the model.)

**Time** (`Calendar`, `SystemTime`). Both conversions with their 8-, 16- and 32-bit widths,
closed forms of the Gregorian day count for years, months and whole dates, and the exact end of 32-bit time; the second
counter loses nothing to its calling pattern.

**Debouncing** (`DebounceFilter`, `DebounceTiming`). Two filters, the output and a change mark
share a 16-bit word, and no carry ever leaves its byte. With the default thresholds two changes
of the output are at least seven samples apart, whatever the samples; seven opposite samples
in a row always flip it. A sample of the output's own level can still flip it away, and so it
takes eight equal samples, and not seven, to be sure of the output after any history. Calls
4 to 1020 milliseconds apart always fall into different ticks of the rate-limited filter, and no other
distance below 1024 does.

**BTLE** (`BtleCodec`, `Btle`, `BtleRadio`), **CoAP** (`CoapOption`, `CoapClient`,
`CoapTransfer`, `CoapProgress`; RFC 7959, sections 2.2 and 2.3), **Firmata** (`FirmataParser`,
`FirmataRoundTrip`) and the two **Blynk rings** (`BlynkFifo2`, `BlynkFifo`) follow the same
pattern: a class or a step machine with the source's branches, specified by functions on values, and
theorems about whole transfers, streams and interleavings. A scanner that knows nothing of the sender
reads from a received packet exactly the flags, the name and the data. A CoAP request gets through to a
server that goes on asking, and its response back from one that delivers all blocks. Any mixture of the eleven
kinds of Firmata messages leads to exactly their callbacks. `sendDigitalPort` does not cut
its last byte to seven bits, so it comes through if and only if bit 14 of the port data is
clear. The client's size exponent `(size >> 5) & 7` is right for block sizes up to its
maximum of 64 and for no larger one.

Single bytes are bit-vectors where the source masks and shifts them (1-Wire, CRCs, BTLE),
sequences of eight bits where it sends and collects bits (Manchester, AltSoftSerial), and
numbers below 256 elsewhere.

## Model

| member | source | states |
|---|---|---|
| RomOrder.FollowsUnique | libraries/OneWire/OneWire.cpp:391-416 | the rule for directions leads to at most one device |
| RomOrder.FollowsFromStart | libraries/OneWire/OneWire.cpp:391-416 | without a remembered discrepancy the device reached is the least in wire order, whatever ROM_NO holds |
| RomOrder.FollowsFromLast | libraries/OneWire/OneWire.cpp:391-416 | with the discrepancy of the last find it is the immediate successor of that find: no device is skipped |
| RomOrder.PendingIsZero | libraries/OneWire/OneWire.cpp:446-451 | no discrepancy is left if and only if the find was the greatest device |
| RomOrder.RunEnumerates | libraries/OneWire/OneWire.cpp:331-346 | a finished run lists every device from its first find on, once, strictly increasing |
| RomOrder.RunFromLeast | libraries/OneWire/OneWire.cpp:331-346 | begun at the least device it lists the whole bus |
| RomOrder.LeastZeroFamily | libraries/OneWire/OneWire.cpp:457-463 | the first device has family code zero if and only if any device has |
| RomOrder.TargetReached | libraries/OneWire/OneWire.cpp:320-329 | after aiming at a family the walk ends at its least member, or at that member's sibling in the last bit |
| RomOrder.TargetIsLeast | libraries/OneWire/OneWire.cpp:320-329 | it is in the family, and its least member if and only if no device differs from that one in the last bit only |
| OneWireBus.Bus.Read | libraries/OneWire/OneWire.cpp:386-387 | a read slot gives the wired AND of all listening devices, then of their complements |
| OneWireBus.Bus.Write | libraries/OneWire/OneWire.cpp:425-426 | a direction slot leaves exactly the devices with that bit listening |
| OneWireSearch.WalkStep | libraries/OneWire/OneWire.cpp:383-441 | one level of the loop keeps the path on the rule and both noted discrepancies right |
| OneWireSearch.Arrived | libraries/OneWire/OneWire.cpp:443-453 | after 64 levels the path is a device, and the last zero is its pending discrepancy |
| OneWireSearch.OneWire.ResetSearch | libraries/OneWire/OneWire.cpp:305-315 | the next search starts over, and ROM_NO is zero |
| OneWireSearch.OneWire.TargetSearch | libraries/OneWire/OneWire.cpp:320-329 | ROM_NO is the family code and zeros, the discrepancy 64 |
| OneWireSearch.OneWire.Choose | libraries/OneWire/OneWire.cpp:394-416 | the direction due, and exactly when last zero and family discrepancy are noted |
| OneWireSearch.OneWire.Level | libraries/OneWire/OneWire.cpp:383-441 | one pass of the loop goes down one level on the side due, or finds nobody answering |
| OneWireSearch.OneWire.Search | libraries/OneWire/OneWire.cpp:347-468 | which device is reported and what is remembered for the next call, for every state and bus; otherwise a full reset of the search |
| OneWireSearch.OneWire.SearchAll | libraries/OneWire/OneWire.cpp:331-346 | the loop of search calls ends, and finds a finished run from the state it began in |
| OneWireSearch.LoopFromStart | libraries/OneWire/OneWire.cpp:347-468 | from the start, every device exactly once in wire order if and only if none has family code zero, else nothing |
| OneWireSearch.LoopFromTarget | libraries/OneWire/OneWire.cpp:320-468 | aimed at a family that is present, the first find is in it and the rest follows once each, in order; nothing is found if and only if the family code is zero |
| ValidBus.NoValidSibling | libraries/OneWire/OneWire.cpp:505-514 | two ROM codes with valid CRCs never differ in the last bit only |
| ValidBus.TargetOnValidBus | libraries/OneWire/OneWire.cpp:320-468 | so with valid ROM codes an aimed search begins with the least device of the family |
| AlarmSearch.DallasTemperature.ResetAlarmSearch | libraries/DallasTemperature/DallasTemperature.cpp:647-656 | junction and exhaustion are reset, seven of the eight address bytes cleared |
| AlarmSearch.DallasTemperature.Choose | libraries/DallasTemperature/DallasTemperature.cpp:692-716 | the direction due, and the junction notes after this level |
| AlarmSearch.DallasTemperature.Descend | libraries/DallasTemperature/DallasTemperature.cpp:681-724 | the 64-step loop ends at the device that the junction leads to, with the notes right |
| AlarmSearch.DallasTemperature.AlarmSearch | libraries/DallasTemperature/DallasTemperature.cpp:669-728 | which alarming device one call reports, when it is exhausted, and that a failing call changes nothing |
| AlarmSearch.DallasTemperature.ListAlarms | libraries/DallasTemperature/DallasTemperature.cpp:761-774 | with signed char the handler loop sees every alarming device once, in order, and is exhausted then |
| AlarmSearch.AlarmFound | libraries/DallasTemperature/DallasTemperature.cpp:669-728 | the new junction is one less than the pending discrepancy |
| AlarmSearch.Both | libraries/DallasTemperature/DallasTemperature.cpp:659-728 | call for call the alarm search and the conditional general search report the same address and stay in step |
| AlarmSearch.DallasTemperature.ListAlarmsUnsigned | libraries/DallasTemperature/DallasTemperature.cpp:669-774 | with an unsigned char the finds of the handler loop are a stuck run, and it has ended if and only if there is no alarm or the first find is the greatest |
| AlarmSearch.UnsignedCharRepeats | libraries/DallasTemperature/DallasTemperature.cpp:672-716 | with an unsigned char every call finds the first device again |
| AlarmSearch.UnsignedCharCovers | libraries/DallasTemperature/DallasTemperature.cpp:672-716 | so the loop covers the alarming devices if and only if there is one |
| AlarmSearch.UnsignedCharNeverDone | libraries/DallasTemperature/DallasTemperature.cpp:692-724 | of two alarming devices that differ before the last byte the one found is never the last, so the search is not exhausted |
| AlarmSearch.TwoAlarmsNeverDone | libraries/DallasTemperature/DallasTemperature.cpp:692-724 | two ROM codes for which that happens, whatever the address held before |
| ValidBus.UnsignedCharDone | libraries/DallasTemperature/DallasTemperature.cpp:692-724 | on a bus of valid ROM codes it is exhausted if and only if there is only one |
| ValidBus.AlarmLoopEnds | libraries/DallasTemperature/DallasTemperature.cpp:761-774 | so with an unsigned char the handler loop ends if and only if at most one device has an alarm |
| OneWireCrc.TableIsByte | libraries/OneWire/OneWire.cpp:480-496 | every table entry is eight steps of the shift register |
| OneWireCrc.Crc8Table | libraries/OneWire/OneWire.cpp:505-514 | the table version computes the register's CRC of every byte string |
| OneWireCrc.Crc8Bitwise | libraries/OneWire/OneWire.cpp:519-533 | and so does the version without a table |
| OneWireCrc.Residue | libraries/OneWire/OneWire.cpp:505-514 | a byte after a message gives residue zero if and only if it is the message's CRC |
| OneWireCrc.OneByteChange | libraries/OneWire/OneWire.cpp:505-514 | any change confined to one byte changes the CRC |
| OneWireCrc.ValidAddress | libraries/DallasTemperature/DallasTemperature.cpp:86-88 | valid if and only if the last byte is the CRC of the others, if and only if the residue is zero |
| OneWireCrc.ValidRomsFarApart | libraries/DallasTemperature/DallasTemperature.cpp:86-88 | no change of one byte leads from a valid address to another |
| OneWireCrc.ParityTrick | libraries/OneWire/OneWire.cpp:543-564 | the parity trick is eight steps of the reflected 0xA001 register |
| OneWireCrc.Crc16 | libraries/OneWire/OneWire.cpp:543-564 | crc16 is that register's CRC of every byte string from any start |
| OneWireCrc.CheckCrc16 | libraries/OneWire/OneWire.cpp:537-541 | true if and only if the two bytes are the inverted CRC, low byte first |
| OneWireCrc.CheckDetects | libraries/OneWire/OneWire.cpp:537-541 | a message with one byte changed fails the check that the original passes |
| OneWireCrc.Residue16 | libraries/OneWire/OneWire.cpp:537-541 | a message and two bytes bring the register to 0xB001 if and only if the check accepts the two bytes |
| Manchester.Transmitter.TransmitArray | libraries/arduino-libs-manchester-master/Manchester.cpp:137-165 | the half-bit levels are 14 zeros, a one, the masked data least significant bit first, two zeros |
| Manchester.Receiver.AddBit | libraries/arduino-libs-manchester-master/Manchester.cpp:445-469 | a half bit more, and a byte stored with each sixteenth |
| Manchester.Receiver.TakeByte | libraries/arduino-libs-manchester-master/Manchester.cpp:454-464 | the byte taken apart is the second half of each pair |
| Manchester.Receiver.Isr | libraries/arduino-libs-manchester-master/Manchester.cpp:482-580 | the interrupt is the specified step in every mode, and keeps the buffer safe |
| Manchester.TickSafe | libraries/arduino-libs-manchester-master/Manchester.cpp:545-575 | after the last byte at most two half bits can follow before a rising edge ends reception |
| Manchester.RunSafe | libraries/arduino-libs-manchester-master/Manchester.cpp:445-580 | for every waveform only the first maxBytes bytes of the buffer are ever written |
| ManchesterLink.Cross | libraries/arduino-libs-manchester-master/Manchester.cpp:484-492 | a run of samples comes down to one level change with the count at eight per sample |
| ManchesterLink.LockPhase | libraries/arduino-libs-manchester-master/Manchester.cpp:500-543 | the receiver locks on at the start pulse after 28 regular changes, also with up to seven of them missed or up to four more counted before them |
| ManchesterLink.LateFrame | libraries/arduino-libs-manchester-master/Manchester.cpp:491-543 | a receiver that begins to wait up to six half bits late answers the transmission rightly |
| ManchesterLink.DataPhase | libraries/arduino-libs-manchester-master/Manchester.cpp:545-575 | from there on the data and the end of the message are answered rightly |
| ManchesterLink.RoundTrip | libraries/arduino-libs-manchester-master/Manchester.cpp:137-580 | any sampling within the windows: complete if and only if at least maxBytes bytes were sent, and then the buffer holds the first maxBytes of them |
| ManchesterWave.ShapeOfFrame | libraries/arduino-libs-manchester-master/Manchester.cpp:137-184 | the half bits of every transmission merge into alternating stretches of one or two |
| ManchesterWave.CanBeSampled | libraries/arduino-libs-manchester-master/Manchester.cpp:484-492 | and there are sample counts inside the windows of all of them |
| ManchesterWave.Arrives | libraries/arduino-libs-manchester-master/Manchester.cpp:137-580 | whatever is sent, and for any such counts, the round trip holds |
| ManchesterNoise.StaysOn | libraries/arduino-libs-manchester-master/Manchester.cpp:482-580 | whatever the samples, the receiver is idle afterwards if and only if it was before |
| ManchesterNoise.Discards | libraries/arduino-libs-manchester-master/Manchester.cpp:505-555 | a level change puts it back to waiting if and only if it comes too early or too late, or the start pulse is overdue; a wrong length changes nothing else |
| ManchesterNoise.ArrivesDisturbed | libraries/arduino-libs-manchester-master/Manchester.cpp:137-580 | a transmission arrives, as it does undisturbed, also when it finds the receiver with up to three changes counted, or its first edge ends a stretch of a wrong length |
| ManchesterNoise.ArrivesAfterPulses | libraries/arduino-libs-manchester-master/Manchester.cpp:137-580 | and after up to two pulses of any length, with any pauses |
| ManchesterOverdue.ExactlyTwo | libraries/arduino-libs-manchester-master/Manchester.cpp:491-543 | that holds for k pulses, for all receivers, messages and timings, if and only if k is at most two |
| ManchesterNoise.ArrivesAfterDiscard | libraries/arduino-libs-manchester-master/Manchester.cpp:137-580 | and after a high or low stretch of a wrong length while locking on or receiving |
| ManchesterMessage.DecodesExactly | libraries/arduino-libs-manchester-master/Manchester.cpp:199-209 | decodeMessage accepts exactly what encodeMessage makes of the parts it finds |
| ManchesterMessage.MessageRoundTrip | libraries/arduino-libs-manchester-master/Manchester.cpp:199-217 | data always comes back, the identification if and only if it has four bits |
| ManchesterMessage.GroupDamage | libraries/arduino-libs-manchester-master/Manchester.cpp:199-209 | a change confined to one group of four bits is noticed |
| ByteRing.Ring.Put | libraries/AltSoftSerial/AltSoftSerial.cpp:257-262 | a byte joins the queue if there is room, and is dropped otherwise |
| ByteRing.Ring.Take | libraries/AltSoftSerial/AltSoftSerial.cpp:300-311 | the oldest byte leaves, or nothing if there is none |
| ByteRing.Ring.Available | libraries/AltSoftSerial/AltSoftSerial.cpp:324-332 | the length of the queue, wrapped around or not |
| SoftSerialRx.Receiver.CaptureInterrupt | libraries/AltSoftSerial/AltSoftSerial.cpp:222-273 | the interrupt is the specified step of the receiver |
| SoftSerialRx.Receiver.CompareBInterrupt | libraries/AltSoftSerial/AltSoftSerial.cpp:275-296 | the timeout fills the byte with the present level and stores it |
| SoftSerialLine.OffsetTest | libraries/AltSoftSerial/AltSoftSerial.cpp:248-251 | the wrapped 16-bit comparison tells on which side of a sampling point a capture lies |
| SoftSerialLine.LoopTakes | libraries/AltSoftSerial/AltSoftSerial.cpp:246-271 | a capture between two sampling points takes exactly the bits before it |
| SoftSerialLine.HearFrame | libraries/AltSoftSerial/AltSoftSerial.cpp:222-296 | the level changes of one frame, jitter below half a bit, store its byte |
| SoftSerialLine.StreamReceived | libraries/AltSoftSerial/AltSoftSerial.cpp:222-296 | any stream of frames with any pauses is stored in order, as far as there is room |
| SoftSerialTx.Transmitter.WriteByte | libraries/AltSoftSerial/AltSoftSerial.cpp:140-152 | a byte is queued, or begins a frame 16 ticks later |
| SoftSerialTx.Transmitter.CompareAInterrupt | libraries/AltSoftSerial/AltSoftSerial.cpp:155-210 | the interrupt is the specified step of the transmitter |
| SoftSerialLink.SeekFinds | libraries/AltSoftSerial/AltSoftSerial.cpp:160-184 | the loop finds the next level change of the frame, its time, and the bits after it |
| SoftSerialLink.MatchAtLastChange | libraries/AltSoftSerial/AltSoftSerial.cpp:185-209 | at the last change of a frame: a byte queued by then begins exactly ten bit times after the frame's start, else the stop bit is waited for |
| SoftSerialLink.MatchAtEnd | libraries/AltSoftSerial/AltSoftSerial.cpp:185-209 | at the end of the stop bit: stop with nothing queued, or begin a frame 16 ticks later |
| SoftSerialLink.StepKeeps | libraries/AltSoftSerial/AltSoftSerial.cpp:131-210 | every write and every interrupt keeps: written bytes = bytes of frames + queue, changes sent + changes to come = changes of frames, idle means empty |
| SoftSerialLink.NothingLost | libraries/AltSoftSerial/AltSoftSerial.cpp:131-210 | over every run bytes leave in order, frames never overlap, and in state 0 everything written has been sent |
| SoftSerialEndToEnd.HeardStream | libraries/AltSoftSerial/AltSoftSerial.cpp:222-296 | frames that do not overlap, their changes less than half a bit off as they are heard, are a stream the receiver understands |
| SoftSerialEndToEnd.RunNearHeard | libraries/AltSoftSerial/AltSoftSerial.cpp:131-210 | the changes a finished run has put out, captured exactly or less than a quarter bit off, are heard like this |
| SoftSerialEndToEnd.DeliveredFromStart | libraries/AltSoftSerial/AltSoftSerial.cpp:131-296 | from the level changes that any run of the sender puts out, jitter below half a bit against the captured start edges: its bytes end in the receiver's ring, in order |
| SoftSerialEndToEnd.Delivered | libraries/AltSoftSerial/AltSoftSerial.cpp:131-296 | the same for captures that are each off by less than a quarter bit |
| SoftSerialMargin.ExactMargin | libraries/AltSoftSerial/AltSoftSerial.cpp:222-273 | everything is always delivered with captures off by an error if and only if twice the error is below half a bit |
| SoftSerialReader.AllReceived | libraries/AltSoftSerial/AltSoftSerial.cpp:222-296 | a stream of any length is received byte by byte, whatever the ring holds |
| SoftSerialReader.SessionKeeps | libraries/AltSoftSerial/AltSoftSerial.cpp:222-311 | under any interleaving of level changes and reads, what was read and what is in the ring are what was received |
| SoftSerialReader.ReadInOrder | libraries/AltSoftSerial/AltSoftSerial.cpp:131-311 | from writeByte over the level changes put out to read, with a reader that keeps up: exactly the bytes written, in order |
| SoftSerialReader.ReadNearInOrder | libraries/AltSoftSerial/AltSoftSerial.cpp:131-311 | the same for captures that are each less than a quarter bit off |
| SoftSerialEndToEnd.ShortestBit | libraries/AltSoftSerial/AltSoftSerial.cpp:70-104 | every byte alone is received if and only if a bit lasts at least two ticks |
| IrCapture.Receiver.TimerInterrupt | Arduino-IRremote-master/Arduino-IRremote/IRremote.cpp:338-403 | the interrupt is the specified step, and never writes behind the buffer |
| IrCapture.UnrollRuns | Arduino-IRremote-master/Arduino-IRremote/IRremote.cpp:330-337 | run lengths and the first level determine the samples |
| IrCapture.SampleTracks | Arduino-IRremote-master/Arduino-IRremote/IRremote.cpp:338-403 | every sample keeps buffer and timer equal to the run lengths since recording began, modulo the timer's width |
| IrCapture.WaveformTracked | Arduino-IRremote-master/Arduino-IRremote/IRremote.cpp:338-403 | so from resume on over every waveform, with at most RAWBUF entries |
| IrCapture.EntriesAddUp | Arduino-IRremote-master/Arduino-IRremote/IRremote.cpp:330-403 | while recording, entries after the gap plus timer = interrupts since recording began |
| IrCapture.Parity | Arduino-IRremote-master/Arduino-IRremote/IRremote.cpp:330-403 | a mark is being timed if and only if the number of entries is odd |
| IrCapture.GapThenMark | Arduino-IRremote-master/Arduino-IRremote/IRremote.cpp:350-364 | after a resume, a mark begins a recording if and only if the timer then shows a gap; otherwise it only restarts the timer |
| IrCapture.NothingRecorded | Arduino-IRremote-master/Arduino-IRremote/IRremote.cpp:350-364 | whatever marks come: nothing has been recorded if and only if none of them had a gap before it, counted from the mark before, modulo the width of the timer |
| IrCapture.GapWhileStopped | Arduino-IRremote-master/Arduino-IRremote/IRremote.cpp:388-392 | with the recording stopped the timer shows the time since the last mark |
| IrCapture.TransmissionRecorded | Arduino-IRremote-master/Arduino-IRremote/IRremote.cpp:338-403 | from a gap to a long space the buffer ends up with the gap and exactly the runs |
| IrCapture.BufferFull | Arduino-IRremote-master/Arduino-IRremote/IRremote.cpp:345-385 | a transmission of more runs than there is room for ends in the stop state with the gap and the first 99 of them, whatever follows |
| IrRc5.SendRC5 | Arduino-IRremote-master/Arduino-IRremote/IRremote.cpp:129-148 | the marks and spaces are the half-bits of the frame of the bits shifted out |
| IrRc5.SentBits | Arduino-IRremote-master/Arduino-IRremote/IRremote.cpp:129-148 | those bits spell the data modulo 2^nbits, most significant first |
| IrRc5.GetRClevel | Arduino-IRremote-master/Arduino-IRremote/IRremote.cpp:729-766 | one half-bit of the recording's expansion, and progress unless it is an error |
| IrRc5.DecodeRC5 | Arduino-IRremote-master/Arduino-IRremote/IRremote.cpp:768-801 | terminates, with the number and value of the bits parsed from the expansion, or an error |
| IrRc5.DecodesExactly | Arduino-IRremote-master/Arduino-IRremote/IRremote.cpp:729-801 | a recording decodes to given bits if and only if it has 13 entries and its widths stand for their frame |
| IrLink.FrameRuns | Arduino-IRremote-master/Arduino-IRremote/IRremote.cpp:129-148 | half-bits of a frame merge into runs of one or two, never three |
| IrLink.SensorLag | Arduino-IRremote-master/Arduino-IRremote/IRremoteInt.h:184-192 | every run is sampled inside its window if and only if the sensor lag is between -111 and 339 microseconds |
| IrLink.RoundTrip | Arduino-IRremote-master/Arduino-IRremote/IRremote.cpp:129-801 | sent, sampled through the interrupt and decoded: the low nbits bits come back if and only if there are enough samples |
| IrLink.EnoughBits | Arduino-IRremote-master/Arduino-IRremote/IRremote.cpp:768-801 | ten bits always have enough samples, four never have |
| IrLink.RoundTripWithLag | Arduino-IRremote-master/Arduino-IRremote/IRremote.cpp:129-801 | with a tolerable sensor lag and interrupts falling anywhere, ten bits and more come back |
| Calendar.Gregorian | libraries/Time-master/Time.cpp:147-147 | the day count built from LEAP_YEAR is the Gregorian closed form |
| Calendar.MonthsClosed | libraries/Time-master/Time.cpp:149-149 | the month table is a closed form, for all years and months |
| Calendar.DayIsCivil | libraries/Time-master/Time.cpp:147-149 | every date has the day number of a closed form without tables, with years that begin in March |
| Calendar.SecondsInjective | libraries/Time-master/Time.cpp:151-202 | a time stamp belongs to one valid date and time only |
| Calendar.FindYear | libraries/Time-master/Time.cpp:170-178 | the year the day falls in; neither the 8-bit year nor the 16-bit comparison overflows |
| Calendar.FindMonth | libraries/Time-master/Time.cpp:180-199 | the month, and the day in it, against the closed form |
| Calendar.BreakTime | libraries/Time-master/Time.cpp:151-202 | the valid date and time of day, with its weekday, that the time stamp counts up to in closed form |
| Calendar.MakeTime | libraries/Time-master/Time.cpp:204-233 | the seconds of the date in closed form, modulo 2^32, every intermediate step on 32 bits; month 0 counts as January |
| Calendar.MakeOfBreak | libraries/Time-master/Time.cpp:151-233 | makeTime undoes breakTime for every 32-bit time stamp |
| Calendar.BreakOfMake | libraries/Time-master/Time.cpp:151-233 | breakTime undoes makeTime on a valid date if and only if its second count fits 32 bits |
| Calendar.UpTo2105 | libraries/Time-master/Time.cpp:204-233 | every date up to the year 2105 does |
| Calendar.EndOfTime | libraries/Time-master/Time.cpp:204-233 | the last one is 06:28:15 on Sunday, 7 February 2106 |
| SystemTime.Clock.CountSeconds | libraries/Time-master/Time.cpp:250-258 | with the counter read anew for every test: as many seconds as passes, up to the first test that finds less than one |
| SystemTime.CallCounts | libraries/Time-master/Time.cpp:250-258 | they are the whole seconds elapsed up to the last reading, as long as the backlog stays below a turn of the counter |
| SystemTime.TickingReturns | libraries/Time-master/Time.cpp:250-258 | the call returns when the counter gains less than a second a pass |
| SystemTime.CallAdvances | libraries/Time-master/Time.cpp:250-258 | which is the difference of the counter, less than one turn after the last second |
| SystemTime.Clock.Now | libraries/Time-master/Time.cpp:250-272 | seconds counted, and when and how the time source changes the clock |
| SystemTime.NoTimeLost | libraries/Time-master/Time.cpp:250-258 | two calls count what one would, across wraps of the millisecond counter |
| DebounceInput.SumIsBoth | libraries/DebounceInput-master/src/DebounceInput.cpp:28-43 | the packed sums are those of the two filters apart: no carry leaves its byte |
| DebounceInput.DebounceFilter.AddSample | libraries/DebounceInput-master/src/DebounceInput.cpp:24-64 | a sample is the specified step, for every word and all thresholds |
| DebounceInput.DebounceFilter4ms.AddSampleRateLimited | libraries/DebounceInput-master/src/DebounceInput.cpp:88-99 | one call is the rate-limited step: at most one sample a tick |
| DebounceInput.TickLasts | libraries/DebounceInput-master/src/DebounceInput.cpp:88-89 | calls some milliseconds apart fall into different ticks, whenever the first one comes, if and only if that is 4 to 1020 modulo 1024; always into the same one if and only if it is 0 |
| DebounceInput.SecondCall | libraries/DebounceInput-master/src/DebounceInput.cpp:88-99 | so a second call 4 to 1020 ms later takes its sample, and one within the same four milliseconds does not |
| DebounceInput.MarksChanges | libraries/DebounceInput-master/src/DebounceInput.cpp:24-99 | a change is reported if and only if this call has changed the output |
| DebounceTiming.StepMonotone | libraries/DebounceInput-master/src/DebounceInput.cpp:24-64 | a higher sample never leaves the filter lower |
| DebounceTiming.QuietAfterChange | libraries/DebounceInput-master/src/DebounceInput.cpp:45-62 | two changes are at least seven samples apart, whatever the samples |
| DebounceTiming.FlipsAfterSeven | libraries/DebounceInput-master/src/DebounceInput.cpp:24-64 | seven opposite samples always flip the output, and from rest fewer do not |
| DebounceTiming.FlipsAgainstSample | libraries/DebounceInput-master/src/DebounceInput.cpp:24-64 | the output can flip away on a sample of its own level |
| DebounceTiming.SettlesExactly | libraries/DebounceInput-master/src/DebounceInput.cpp:24-64 | n equal samples make the output that level after every history if and only if n is at least eight |
| BtleCodec.KeystreamIsStandard | libraries/BTLE/BTLE.cpp:203-222 | every whitening bit is the output of the 7-bit register of section 3.2 |
| BtleCodec.WhitenedTwice | libraries/BTLE/BTLE.cpp:203-222 | whitening undoes itself |
| BtleCodec.SwappedTwice | libraries/BTLE/BTLE.cpp:24-44 | and so does the change of bit order |
| BtleCodec.BitOrder | libraries/BTLE/BTLE.cpp:24-44 | bit k of a swapped byte is bit 7 - k |
| BtleCodec.PositionSteps | libraries/BTLE/BTLE.cpp:240-255 | a step on the three bytes is a clock of the 24-bit register, position by position |
| BtleCodec.CrcIsStandard | libraries/BTLE/BTLE.cpp:225-255 | crc is the CRC of section 3.1.1 on every byte string |
| BtleCodec.OneByteChange | libraries/BTLE/BTLE.cpp:225-255 | any change confined to one byte changes it |
| Btle.Recovered | libraries/BTLE/BTLE.cpp:143-200 | whatever trails a packet, the receiver finds size, header, address, payload and CRC as sent, and accepts |
| Btle.PayloadReads | libraries/BTLE/BTLE.cpp:120-141 | a reader of size-type-data structures finds exactly the flags, the name and the data, with no byte left over |
| Btle.ReceivedReads | libraries/BTLE/BTLE.cpp:108-200 | and so it does in the receive buffer, whatever trails the packet, with header, length and address as sent |
| Btle.ChannelKey | libraries/BTLE/BTLE.cpp:203-222 | packets are whitened with the keystream of section 3.2 for their channel index, 37 to 39 |
| Btle.DamageDetected | libraries/BTLE/BTLE.cpp:180-200 | a packet damaged in one byte on the air, other than the length, is not accepted |
| BtleRadio.FeedByte | libraries/BTLE/BTLE.cpp:236-254 | the inner loop of crc is the specified step |
| BtleRadio.BTLE.SwapBuf | libraries/BTLE/BTLE.cpp:24-44 | reverses the bits of the first len bytes in place and leaves the rest |
| BtleRadio.BTLE.Whiten | libraries/BTLE/BTLE.cpp:203-222 | mixes the key of the current channel into the first len bytes in place |
| BtleRadio.BTLE.FillPayload | libraries/BTLE/BTLE.cpp:113-141 | address and chunks are in place, in order, and nothing else has changed; PayloadReads says what they mean |
| BtleRadio.BTLE.Advertise | libraries/BTLE/BTLE.cpp:108-163 | what is sent, or that nothing is for a payload over 21 bytes |
| BtleRadio.BTLE.Listen | libraries/BTLE/BTLE.cpp:167-200 | true if and only if there are packets and all are acceptable; the last one is in the buffer |
| BtleRadio.AdvertiseAndListen | libraries/BTLE/BTLE.cpp:108-200 | what one object advertises another accepts, and a scanner reads from its buffer what was meant |
| CoapOption.ExponentRight | libraries/Temboo/src/TembooCoAPEdgeDevice.cpp:247-247 | the exponent is right for a standard block size if and only if it is at most 64 |
| CoapOption.OptionRoundTrip | libraries/Temboo/src/TembooCoAPEdgeDevice.cpp:241-254 | the option decodes to its more flag and exponent always, to its number if and only if that has 16 bits |
| CoapClient.TembooCoAPClient.SendChoreoRequest | libraries/Temboo/src/TembooCoAPEdgeDevice.cpp:547-574 | the block sent and the counters after it, whether the layer below takes it or not |
| CoapClient.TembooCoAPClient.SaveResponse | libraries/Temboo/src/TembooCoAPEdgeDevice.cpp:111-123 | the payload joins the response as far as there is room for it and one byte more |
| CoapClient.TembooCoAPClient.TakeResponseBlock | libraries/Temboo/src/TembooCoAPEdgeDevice.cpp:402-463 | a newer block aborts, an older one is only acknowledged, the expected one is saved |
| CoapClient.TembooCoAPClient.Loop | libraries/Temboo/src/TembooCoAPEdgeDevice.cpp:287-535 | one call of loop is the specified step for every event |
| CoapTransfer.NextBlockFits | libraries/Temboo/src/TembooCoAPEdgeDevice.cpp:552-574 | the next block's number times its size is the offset reached |
| CoapTransfer.AdjustKeeps | libraries/Temboo/src/TembooCoAPEdgeDevice.cpp:276-284 | a smaller block size still divides the offset reached |
| CoapTransfer.StepKeeps | libraries/Temboo/src/TembooCoAPEdgeDevice.cpp:287-361 | every event keeps the blocks of the request in order |
| CoapTransfer.RunUploads | libraries/Temboo/src/TembooCoAPEdgeDevice.cpp:287-361 | and so does every run of events |
| CoapTransfer.RequestInOrder | libraries/Temboo/src/TembooCoAPEdgeDevice.cpp:207-361 | from the first block on, over every run: number × size = bytes sent before, payloads are a beginning of the data, and all of it after a block without the more flag |
| CoapTransfer.RequestOptions | libraries/Temboo/src/TembooCoAPEdgeDevice.cpp:236-254 | over every run the Block1 option of each block sent decodes to its number, more flag and size |
| CoapTransfer.LoopKeeps | libraries/Temboo/src/TembooCoAPEdgeDevice.cpp:387-504 | the response buffer is blocks 0 to rxBlockNum - 1, each once, cut at 999 bytes, and the block asked for is the next |
| CoapTransfer.ReceiveKeeps | libraries/Temboo/src/TembooCoAPEdgeDevice.cpp:387-504 | so it is over every run of this server's messages |
| CoapTransfer.ResponseComplete | libraries/Temboo/src/TembooCoAPEdgeDevice.cpp:387-504 | from the request on, over every run with repeated old blocks, a response that is ready is the whole one, cut at 999 bytes |
| CoapProgress.AskedStep | libraries/Temboo/src/TembooCoAPEdgeDevice.cpp:336-361 | every question for the next block is answered with a block, in the size asked for |
| CoapProgress.RequestCompletes | libraries/Temboo/src/TembooCoAPEdgeDevice.cpp:207-361 | over every run of questions: one block each, of the smallest size asked for, and fewer questions than sixteenths of the data; the payloads are the data if and only if the last block says that no more will follow, and they are once the blocks would hold it |
| CoapProgress.DeliveredStep | libraries/Temboo/src/TembooCoAPEdgeDevice.cpp:401-463 | a new block is taken and the next one asked for, unless it was the last; an old one is answered with the number expected |
| CoapProgress.ResponseArrives | libraries/Temboo/src/TembooCoAPEdgeDevice.cpp:387-504 | over every run of blocks delivered, old ones repeated: the response is ready if and only if all its blocks have come, and is the whole one, cut at 999 bytes |
| CoapProgress.InTurnArrives | libraries/Temboo/src/TembooCoAPEdgeDevice.cpp:387-504 | so blocks delivered one after the other make it ready with the last one |
| CoapProgress.RequestAndResponse | libraries/Temboo/src/TembooCoAPEdgeDevice.cpp:207-504 | from the request to its response: the server has the data, and then the client the response |
| CoapProgress.CutOff | libraries/Temboo/src/TembooCoAPEdgeDevice.cpp:111-123 | a payload is cut if and only if it does not fit, and that is reported if and only if nothing of it is added |
| CoapProgress.GivesUp | libraries/Temboo/src/TembooCoAPEdgeDevice.cpp:287-535 | exactly which events are reported as errors, what is forgotten, and that the client is idle then, except after another block's number |
| CoapProgress.StaysIdle | libraries/Temboo/src/TembooCoAPEdgeDevice.cpp:287-300 | an idle client sends nothing, whatever comes |
| FirmataParser.FirmataClass.ParseByte | libraries/Firmata/Firmata.cpp:285-372 | one byte is the specified step, with its callbacks |
| FirmataParser.FirmataClass.DecodeCharacters | libraries/Firmata/Firmata.cpp:241-254 | decoding in place never overwrites what is still to be read |
| FirmataParser.FirmataClass.DecodeString | libraries/Firmata/Firmata.cpp:241-260 | and the string ends with a zero |
| FirmataParser.FirmataClass.SystemReset | libraries/Firmata/Firmata.cpp:629-646 | the parser is as new |
| FirmataParser.Sender.SendAnalog | libraries/Firmata/Firmata.cpp:394-399 | the three bytes of an analog message |
| FirmataParser.Sender.SendDigitalPort | libraries/Firmata/Firmata.cpp:435-440 | the three bytes of a port message, the last of them not cut to seven bits |
| FirmataParser.Sender.SendSysex | libraries/Firmata/Firmata.cpp:449-458 | start, command, two bytes of seven bits for each byte, end |
| FirmataRoundTrip.OneMessage | libraries/Firmata/Firmata.cpp:285-372 | a message of any of the eleven kinds, from any state outside a sysex message, leads to exactly its callback |
| FirmataRoundTrip.SysexMessage | libraries/Firmata/Firmata.cpp:235-300 | command and data of a sysex message come as they were sent, the request for the firmware version apart |
| FirmataRoundTrip.ResetForgets | libraries/Firmata/Firmata.cpp:629-646 | after a reset nothing is left of a message half received: data bytes lead to no callback |
| FirmataRoundTrip.DigitalExactly | libraries/Firmata/Firmata.cpp:435-440 | a port message leads to exactly its callback if and only if bit 14 of the data is clear |
| FirmataRoundTrip.RoundTrip | libraries/Firmata/Firmata.cpp:285-468 | any list of messages, in any mixture, parses to exactly their callbacks, in order |
| BlynkFifo2.PublishWrite | libraries/Blynk/utility/BlynkFifo2.h:62-85 | filled slots join the end of the queue when the write index moves, around the end or not |
| BlynkFifo2.PublishRead | libraries/Blynk/utility/BlynkFifo2.h:113-137 | the slots read are the front of the queue and leave it when the read index moves |
| BlynkFifo2.StepKeeps | libraries/Blynk/utility/BlynkFifo2.h:42-144 | every single access of either side keeps: put = got + queue, producer in free slots, consumer in filled ones |
| BlynkFifo2.UnreadKept | libraries/Blynk/utility/BlynkFifo2.h:62-85 | no step writes to a slot with unread data |
| BlynkFifo2.GotIsPrefixOfPut | libraries/Blynk/utility/BlynkFifo2.h:42-144 | from an empty ring, under every interleaving, what has been got is a prefix of what has been put, and the rest is in the ring |
| BlynkFifo2.Fifo.Put | libraries/Blynk/utility/BlynkFifo2.h:62-85 | without blocking, as much as there is room for joins the queue |
| BlynkFifo2.Fifo.Get | libraries/Blynk/utility/BlynkFifo2.h:113-137 | without blocking, the front of the queue, as much as is wanted and there |
| BlynkFifo.WriteJoins | libraries/Blynk/utility/BlynkFifo.h:32-50 | two chunks and the flag join the queue, up to the full size |
| BlynkFifo.ReadTakes | libraries/Blynk/utility/BlynkFifo.h:52-68 | two chunks are the front of the queue and leave it, also from a full buffer |
| BlynkFifo.Fifo.Write | libraries/Blynk/utility/BlynkFifo.h:32-50 | a bounded queue of the full size: what fits joins it |
| BlynkFifo.Fifo.Read | libraries/Blynk/utility/BlynkFifo.h:52-68 | and the front leaves it |
| BlynkFifo.Fifo.GetOccupied | libraries/Blynk/utility/BlynkFifo.h:74-82 | the length of the queue, full and empty told apart |

## Left out

- OneWireSearch.OneWire.Search: the bus is an ideal wired AND with a fixed population of devices during a call; electrical faults and devices that come or go within a call are not modelled.
- Manchester.Receiver.BeginReceiveBytes: modelled as one step; an interrupt between its three assignments is not modelled. Timer set-up, pulse timing in microseconds and the single-message receive buffer of `beginReceive` are not part of the model: a waveform is any sampling inside the stated windows.
- SoftSerialLink.StepKeeps: an interrupt is served less than one bit time after its compare match, as the source assumes; a later one is not modelled. The wait for room in `writeByte` is a condition on when a write can happen.
- SoftSerialReader.ReadInOrder: the timeout interrupt is served before the next level change or read that comes after it; `flushInput` is not modelled. What a reader that does not keep up loses is stated without reads, in SoftSerialEndToEnd.DeliveredFromStart.
- SoftSerialMargin.ExactMargin: bit times of zero ticks, which `init` accepts too, give no interrupt time to be served in and are excluded.
- ManchesterNoise.ArrivesAfterDiscard: says nothing of a receiver that has taken noise of regular lengths for data or for a start pulse.
- IrLink.RoundTrip: the carrier, and the order in which `decode` tries its protocols, are not modelled; `sendRC5` with zero bits shifts by the word width, which the language leaves undefined.
- The other infrared protocols: NEC, Sony, Sanyo, Mitsubishi, Panasonic, LG, JVC and Samsung read one width at a time and would repeat the easy half of the RC5 proof; RC6, and the hash decoder, are not modelled either.
- Calendar.MakeTime: a month above 13 reads behind the month table in the source and is excluded. Time zones and the string functions are not modelled.
- SystemTime.Clock.Now: a call that never returns, because the counter gains on it for ever, is excluded. The cache of broken-down elements is not modelled.
- BtleRadio.BTLE.Listen: a packet whose size byte points behind the 32-byte buffer, which the source does not check, is excluded, as is a payload over the 24 bytes of the buffer in `advertise`. The radio chip, and the address made from the build date, are parameters.
- CoapClient.TembooCoAPClient.SendChoreoRequest: called after `clearData` with bytes already counted as sent, the source makes a payload of negative length; excluded.
- CoapClient.TembooCoAPClient.Loop: tokens, message identifiers, acknowledgements and retransmission belong to layers below, which only report an event and take a block or do not. The source zeroes its data length just before it asks whether a request is still unfinished, so that question is always answered no and its branch is left out.
- CoapProgress.RequestCompletes: what a server or the layer below leaves undone is not: questions and deliveries come as stated, and how long they take is not modelled.
- CoapTransfer.ResponseComplete: a server that puts a Block2 option into a request to continue, or answers without one to a response of several blocks, is excluded: it does not always send the same payload for a block.
- FirmataParser.FirmataClass.ParseByte: all callbacks are attached. Sysex messages longer than 64 bytes, empty ones and empty strings are excluded where the source would read or write outside its buffer, or call back with a negative length.
- FirmataParser.FirmataClass.DecodeString: with length zero the source reads the byte before its buffer; excluded.
- BtleRadio.BTLE.FillPayload: a payload over 24 bytes is written behind the buffer by the source; excluded, in BtleRadio.BTLE.Advertise too.
- FirmataRoundTrip.RoundTrip: strings longer than 31 characters and sysex messages longer than 64 bytes do not fit the parser's buffer and are excluded, as is a string with a zero or a sysex message with the end mark in it, which ends there.
- BlynkFifo2.StepKeeps: reading or writing one index is a single step, and a chunk is copied slot by slot in ascending order; memory ordering between processors is not modelled.
- DebounceTiming.SettlesExactly: the times are those of the default thresholds; `DebouncedInput` and its pins are not modelled.
- Network adapters, displays, sensors with pulse timing, user interface pages and board tables are input and output without an algorithm of this kind.

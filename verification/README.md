# ECSS PUS flight software: a verified model

This project models the on-board software of `src/` and `include/pus/`, the ground codec of
`tests/integration/gsw/packets.py` and the driver loop of `sim/obc_sim.c`, and proves what they
promise. `dafny verify dfyconfig.toml` checks all of it (Dafny 4.11).

## How it is built

**Two layers.** The unit's state and every function of the flight software are first given as
values and functions (`Onboard`, with `HalHost`, `Downlink` and `Telecommand` below it); that is what
the properties over whole runs are proved about. The software itself, which works in place on
file-scope statics, is then given as classes with those statics as fields (`TmQueue`, `PusTm`,
`HalHost.Hal`, `Flight`): buffers are arrays, the C loops are loops, and each method is proved to
take the state exactly where the function of the same name takes it. A property of `Onboard.Run` is
therefore a property of any sequence of calls of the methods of `Flight.Flight`.

**History.** `Link.log` records every packet ever built and whether it found room, `Link.sent` the
packets taken off the queue, and `Obc.raised` every call of `svc05_report`, filtered or not. Nothing
but the properties reads them; in the classes they are ghost fields.

**Reference.** `Interface`, `Execution`, `Effects` and `MinorCycle` write down `docs/ICD.md` once more,
independently of the code's structure: places of octets, service numbers, failure codes, thresholds
and event words as numerals, a telecommand by the octets received. The unit is proved to agree with
them for every input and state; statements about thresholds, periods and queue depth elsewhere are
made in numerals too.

**Runs.** A run is a sequence of steps since `obc_init`: a telecommand of arbitrary octets, a minor
cycle, a fetch from the downlink queue into a buffer of any size, or a change of the thermistor.
Statements about runs hold for every interleaving.

| file | subject |
|---|---|
| `Octets`, `Arithmetic`, `Status`, `Binary` | octets and big-endian fields, division, status codes, octets as bits |
| `ShiftRegister`, `Polynomial`, `Divisors`, `Order`, `ErrorDetection`, `Crc`, `LinkErrors` | the checksum, its algebra over GF(2), and what it detects |
| `SpacePacket`, `Telecommand`, `Telemetry`, `Reports`, `GroundEncoder` | the packet codecs of both ends |
| `TmQueue`, `PusTm`, `Downlink`, `DownlinkRuns` | the downlink: ring, numbering, accounting |
| `HalHost` | the platform: time base, thermistor, heater line |
| `Onboard`, `Postings` | the application as a function, and exactly what each step sends |
| `Interface`, `Execution`, `Effects`, `MinorCycle` | the interface document as a reference, in octets and numbers, and the unit against it |
| `OverflowNotices`, `Capacity`, `ThermalControl`, `AlarmLatch`, `Hysteresis`, `Commands`, `HousekeepingRuns` | properties of whole runs |
| `Flight`, `Sim` | the application in place, and the driver around it |

## Where code and documents differ

The model follows the code.

- `include/pus/pus_tc.h:38-40` lists an older order of the acceptance checks; the code and
  SWREQ-TC-015 check the length and the checksum first (`Telecommand.ChecksInOrder`).
- `docs/SVP.md:83` calls the break of the one-shot loop unreachable. `svc03_generate` returns
  `PUS_ERR_QUEUE_FULL` when the queue fills up, so it is reached by exactly the lists longer than the
  room left (`Capacity.OneShotLength`): a well-formed request for fifteen reports with both
  acknowledgements does it right after initialisation (`Capacity.BreakReached`).
- `src/hal_host.c:63-64` promises that the commanded time reads back. The fine part is subtracted
  without taking its borrow from the seconds, so this fails exactly when the commanded fine part is
  below the elapsed fraction of the current second; then one second too many is reported
  (`HalHost.SetTimeReadBack`, with an instance in `HalHost.SetTimeMissesIntent`). Propagating the
  borrow repairs it for all inputs (`HalHost.BorrowingMeetsIntent`).
- `docs/SRS.md:146` reads as if the alarm fired in any mode; it is raised in NOMINAL only
  (`AlarmLatch.AlarmExactly`).
- SWREQ-APP-120: a cycle that samples the overflow counter at its maximum of 65535 while the queue
  is full takes the change as reported, its notice finds no room, and no notice is ever sent again
  (`OverflowNotices.SaturatedNoticeLost`). That is the only exception
  (`OverflowNotices.OverflowNeverLost`, an if-and-only-if), and 32775 rejected telecommands without a
  fetch reach it (`OverflowNotices.SaturationReached`).
- SWREQ-ROB-050: the driver hands over the header of an oversize packet, which is rejected, but its
  body is not discarded; it is framed as the next telecommands, whatever it contains
  (`Sim.OversizeHeader`). A stream of packets is framed as it was sent exactly if none of them is
  longer than the buffer (`Sim.FramingExact`).
- `sim/obc_sim.c:189` drains after every step, and yet one step can overflow the queue: a one-shot
  list whose entries and acknowledgements exceed sixteen. Nothing else can
  (`Capacity.DrainedRunsLoseNothing`, an if-and-only-if).
- The parser never looks at the sequence flags, so the encoding it accepts carries them through.

## Model

| member | source | states |
|---|---|---|
| `ShiftRegister.ShiftBranches` | src/crc16.c:28-32 | The two branches of the bit loop are multiplication by x modulo x^16 + x^12 + x^5 + 1 |
| `Crc.ComputeCrc16` | src/crc16.c:16-38 | The nested loops of the flight code compute the CRC of any string of octets |
| `Crc.GroundCrc16` | tests/integration/gsw/packets.py:33-43 | The ground's loop on masked integers computes the same CRC on every string |
| `Crc.CheckValue` | src/crc16.c:16-38 | The checksum of "123456789" is 0x29B1, the standard's check value |
| `Crc.FieldMatches` | src/pus_tc.c:56-60 | Computed and received checksum agree exactly if the CRC over the whole packet, field included, is zero |
| `Crc.DifferenceIsPoly` | src/crc16.c:24-35 | Two messages of one length have the same CRC exactly if P divides the polynomial of their differing bits |
| `ShiftRegister.ShiftsLinear` | src/crc16.c:26-33 | Repeated shifting is linear over GF(2) |
| `ShiftRegister.ShiftsZero` | src/crc16.c:26-33 | Repeated shifting is invertible: only zero goes to zero |
| `ShiftRegister.AbsorbIsFeed` | src/crc16.c:25-34 | Absorbing an octet is feeding its eight bits one by one, most significant first |
| `Polynomial.FeedIsPoly` | src/crc16.c:24-35 | The register after a message of any length is its polynomial times x^16 modulo P |
| `Polynomial.FeedLinear` | src/crc16.c:24-35 | The register is linear in seed and message together |
| `Order.PowersMultiply` | src/crc16.c:28-32 | Powers of x modulo P add their exponents under a Horner-rule product |
| `Order.OrderExact` | src/crc16.c:28-32 | n shifts of the word 1 return to 1 exactly if 32767 divides n |
| `ErrorDetection.BurstRemainder` | src/crc16.c:24-35 | A nonzero burst of at most sixteen bits is not divisible by P |
| `ErrorDetection.OddRemainder` | src/crc16.c:24-35 | An odd number of bits is not divisible by P |
| `ErrorDetection.PairRemainder` | src/crc16.c:24-35 | Two bits are divisible by P exactly if their distance is a multiple of 32767 |
| `LinkErrors.CaughtExactly` | src/pus_tc.c:50-60 | Damage to an accepted packet ends in BAD_LENGTH or BAD_CRC exactly if it changes the length field or P does not divide it |
| `LinkErrors.BurstCaught` | src/pus_tc.c:50-60 | Every burst of up to sixteen bits, in a packet of any length, ends in BAD_LENGTH or BAD_CRC |
| `LinkErrors.OddCaught` | src/pus_tc.c:50-60 | So does every odd number of flipped bits |
| `LinkErrors.PairCaughtExactly` | src/pus_tc.c:50-60 | So do two flipped bits, unless both lie outside the length field at a distance divisible by 32767 |
| `LinkErrors.PairCaught` | src/pus_tc.c:50-60 | So do any two flipped bits in a packet of at most 4095 octets |
| `Octets.U16RoundTrip` | include/pus/pus_bytes.h:19-41 | A sixteen-bit field written anywhere in a string reads back |
| `Octets.U32RoundTrip` | include/pus/pus_bytes.h:25-47 | A thirty-two-bit field written anywhere in a string reads back |
| `Octets.U32Canonical` | include/pus/pus_bytes.h:25-47 | Writing back a field that was read restores its octets |
| `SpacePacket.PackInto` | src/ccsds.c:12-38 | Writes the six header octets in place and nothing else, or reports a short buffer and writes nothing |
| `SpacePacket.UnpackPack` | src/ccsds.c:12-66 | A packed header reads back, cut to the widths of its fields |
| `SpacePacket.PackUnpack` | src/ccsds.c:12-66 | A header that was read packs to the same six octets |
| `Interface.HeaderOctets` | src/ccsds.c:12-38 | The six octets of any header: version, type, flag and APID, sequence flags and count, length, each at its bits and cut to its width |
| `Telecommand.ParseExact` | src/pus_tc.c:31-94 | Parsing yields a record exactly if it is well formed and the octets are its encoding |
| `Telecommand.EncodeParse` | src/pus_tc.c:31-94 | Re-encoding what was accepted, sequence flags included, gives back the same octets |
| `Telecommand.ChecksInOrder` | src/pus_tc.c:38-83 | On every string the status is that of the first failing check in the order of SWREQ-TC-015 |
| `Telecommand.NothingReadBeforeCrc` | src/pus_tc.c:41-60 | While the checksum fails, strings of one length are told apart by the length field alone |
| `Flight.ParseTc` | src/pus_tc.c:31-94 | The parser with its checksum loop takes exactly the decisions of the specification |
| `GroundEncoder.BuildTc` | tests/integration/gsw/packets.py:46-80 | The ground's encoder, step by step, produces the specified octets for every combination of overrides |
| `Interface.GroundOctets` | tests/integration/gsw/packets.py:46-80 | What the ground puts on the link, octet by octet, for every combination of overrides; it divides by the polynomial exactly if the checksum was not spoiled |
| `GroundEncoder.ParserAgrees` | tests/integration/gsw/packets.py:46-80 | The flight parser names exactly the first defect the ground put in, and decodes a clean packet to what was meant |
| `GroundEncoder.PlainAccepted` | tests/integration/gsw/packets.py:46-80 | A packet with default flags is accepted exactly if its data is at most 65529 octets, and BAD_LENGTH otherwise |
| `Telemetry.GroundReads` | tests/integration/gsw/packets.py:124-156 | The ground decodes every built packet to the service, subtype, counters, time and data put in |
| `Interface.GroundChecksInOrder` | tests/integration/gsw/packets.py:124-156 | The ground refuses telemetry for the first of its five reasons, with the CRC as a zero register over the whole packet, and reads every field from the octets at its place |
| `Interface.TmOctets` | src/pus_tm.c:79-111 | Every packet built is 0x08 0x0C, 0xC0 plus sequence count, length minus seven, 0x20, service, subtype, message counter, 0 1, time, data, octet by octet, and divides by the checksum polynomial |
| `Interface.ReportOctets` | docs/ICD.md:112-168 | Every report of every run lies in its packet with service, subtype, length and each field at the places of the document |
| `Interface.TcOctets` | src/pus_tc.c:75-91 | An accepted string is read as acknowledgement flags, service, subtype, source, data and request identifier from exactly its octets |
| `Interface.FailureCodes` | include/pus/pus_types.h:17-36 | The eighteen codes as frozen numbers |
| `Interface.CodesDiffer` | include/pus/pus_types.h:17-36 | No two status values share a code |
| `Reports.DecodeReport` | src/svc03_housekeeping.c:69-83 | Service, subtype and source data of every report determine all its values, housekeeping fields included |
| `TmQueue.TmQueue.constructor` | src/tm_queue.c:9-19 | Sixteen slots of 256 octets, empty, no drops counted |
| `TmQueue.TmQueue.Init` | src/tm_queue.c:14-19 | Empties the queue and clears the drop counter |
| `TmQueue.TmQueue.Push` | src/tm_queue.c:30-56 | Appends the packet octet for octet, or rejects its length, or drops it and counts the drop up to 65535; a failure leaves the queue as it was |
| `TmQueue.TmQueue.Pop` | src/tm_queue.c:59-85 | Takes the oldest packet into the buffer, or fails on an empty queue or a short buffer and changes nothing |
| `TmQueue.HoldsAppended` | src/tm_queue.c:48-53 | Writing the slot behind the newest packet appends to the sequence, wherever the ring wraps |
| `PusTm.PusTm.Build` | src/pus_tm.c:53-118 | Prints the next numbered packet at the start of the buffer and advances both counters, or reports a short buffer and changes nothing |
| `PusTm.PusTm.Send` | src/pus_tm.c:121-135 | Numbers the report whether or not it finds room, and queues it exactly if there is room; data too long for a packet changes nothing |
| `PusTm.PusTm.Restart` | src/pus_tm.c:35-43 | Clears queue, sequence count and all 256 message counters |
| `Downlink.PushAccounted` | src/pus_tm.c:84-114 | One send keeps the books: survivors, drop counter, sequence count and every service counter |
| `DownlinkRuns.RunAccounted` | src/pus_tm.c:84-114 | In every run the k-th packet built carries k mod 16384 and its place in its service mod 65536, and the survivors are the taken and the queued packets in order |
| `DownlinkRuns.RunConserves` | src/tm_queue.c:41-55 | In every run built = taken + queued + dropped, and the overflow counter is the number of drops up to 65535 |
| `Downlink.SequenceGap` | src/pus_tm.c:84 | Between neighbouring survivors the sequence counts differ by one more than the drops between them, mod 16384 |
| `Downlink.ServiceGap` | src/pus_tm.c:97 | The same for the message counter within one service, mod 65536 |
| `DownlinkRuns.StreamGap` | src/pus_tm.c:113-114 | For neighbours in the received stream of any run, the gap in the sequence counts is the number of packets dropped between them, mod 16384 |
| `DownlinkRuns.ServiceStreamGap` | src/pus_tm.c:97 | For neighbours of one service in the received stream of any run, the gap in the message counters is the number of packets of that service dropped between them, mod 65536 |
| `Downlink.PushAllAttempts` | src/tm_queue.c:41-56 | Of a list of sends the first ones join the queue, as many as there were free slots, and the rest are dropped |
| `Postings.TcPosts` | src/obc_app.c:157-190 | For every input and state, the reports a telecommand sends: rejection report and event, or acceptance, service output, completion and event, in this order |
| `DownlinkRuns.TelecommandTrace` | src/obc_app.c:157-190 | Those reports are attempted in order, and a prefix of them as long as the room joins the queue |
| `Postings.RequestIdEchoed` | src/svc01_verification.c:82-92 | Every verification report carries the number whose four octets are the first four of its telecommand, or zero if there are fewer |
| `Execution.OutcomeExact` | src/obc_app.c:121-190 | For every state and accepted telecommand the final code is the one the document's tables give for service, subtype, data octets, mode and free slots, as numbers |
| `Execution.ReportsExact` | src/obc_app.c:157-190 | For every state and accepted telecommand the reports sent, word for word and in order: acceptance, each one-shot report by the structure its octet names, mode and heater events, (1,7) or (1,8) with the code, event 3 |
| `Execution.RefusalExact` | src/obc_app.c:162-170 | A refused string sends (1,2) with its first four octets and the code of its first defect, and event 3 with that code |
| `Execution.AcknowledgedExactly` | src/pus_tc.c:97-103 | Among the service 1 reports there is a (1,1) exactly if bit 0 of octet 6 is set, and a (1,7) or (1,8) exactly if bit 3 is |
| `Postings.TickPosts` | src/obc_app.c:236-256 | A minor cycle sends the thermal events, then the overflow notice, then the housekeeping reports that are due |
| `MinorCycle.CycleExact` | src/obc_app.c:203-256 | For every state the reports of a cycle, word for word and in order: alarm, heater and mode events, overflow notice with the count, essential and diagnostic reports with the values the cycle leaves |
| `MinorCycle.CycleState` | src/obc_app.c:203-256 | For every state, mode, heater, line, latch, sample, uptime, phase and overflow mark after a cycle, by the sample and the thresholds |
| `DownlinkRuns.TickTrace` | src/obc_app.c:236-256 | The reports of a cycle are attempted in order, and a prefix of them as long as the room joins the queue |
| `OverflowNotices.OverflowNeverLost` | src/obc_app.c:248-253 | In every run with event 4 enabled at each cycle: the last queued notice shows the counter, or the next cycle will see a difference, exactly if no cycle sampled the saturated counter, for the first time, with the queue full |
| `OverflowNotices.NoticeStep` | src/obc_app.c:248-253 | One sampling loses a change exactly if the counter is at 65535 and the queue is full |
| `OverflowNotices.NoticeDelivered` | src/obc_app.c:248-253 | A cycle with a pending change queues the notice, with the count as sampled, exactly if the at most three thermal reports before it leave a slot free |
| `OverflowNotices.SaturatedNoticeLost` | src/obc_app.c:249-251 | After a cycle that samples 65535 with the queue full, no continuation of the run ever queues another notice |
| `OverflowNotices.SaturationReached` | src/tm_queue.c:41-46 | 32775 or more strings too short to be telecommands, without a fetch, and one cycle, are a run that gets there, and in every continuation of it no notice ever shows a drop |
| `OverflowNotices.FloodReaches` | src/tm_queue.c:41-46 | After n such strings two reports each have been sent: queue length and saturating counter as functions of n, event 4 enabled, nothing sampled |
| `Capacity.TickShort` | src/obc_app.c:236-256 | A cycle sends at most six reports |
| `Capacity.TcShort` | src/obc_app.c:157-190 | From an empty queue a telecommand sends more than sixteen reports exactly if it is a one-shot list whose acknowledgements and entries come to more than sixteen; any other sends at most four |
| `Capacity.ListSends` | src/svc03_housekeeping.c:122-135 | With a slot free, a one-shot list completes with one report per entry exactly if acceptance report and entries fit, and otherwise ends in QUEUE_FULL with more sent than there was room for |
| `Capacity.OneShotLength` | src/svc03_housekeeping.c:122-135 | A one-shot list sends one report per entry and completes, or stops with QUEUE_FULL at the first that finds no room |
| `Capacity.BreakReached` | src/svc03_housekeeping.c:127-131 | Sent right after initialisation, a well-formed request for n reports ends in QUEUE_FULL exactly if n and its acceptance report exceed fifteen |
| `Capacity.FullListLosesCompletion` | src/svc03_housekeeping.c:122-135 | From an empty queue a list completes although a report is dropped exactly if acceptance and entries make sixteen and completion is asked for: then the completion report is the one |
| `Capacity.DrainEmpties` | sim/obc_sim.c:91-107 | Draining empties the queue in order, since every packet fits the driver's buffer |
| `Capacity.DrainedRunsLoseNothing` | sim/obc_sim.c:161-189 | If the driver drains after every step, every packet ever built is delivered exactly if no one-shot list of the session has a load, acknowledgements and entries, of more than sixteen |
| `Capacity.ServeIsRun` | sim/obc_sim.c:161-189 | Every state of the draining driver is the state after some run, so that everything proved of runs holds for it |
| `HalHost.SetTimeReadBack` | src/hal_host.c:59-68 | The commanded time reads back exactly if its fine part is at least the elapsed fraction, and otherwise one second late |
| `HalHost.SetTimeMissesIntent` | src/hal_host.c:63-67 | An input on which the promise fails |
| `HalHost.BorrowingMeetsIntent` | src/hal_host.c:63-67 | With the borrow propagated every commanded time reads back |
| `HalHost.DriftFreeExactly` | src/hal_host.c:38-56 | The reported time is epoch plus elapsed time, rounded down once, mod 2^48, exactly while the tick count is at most 42949672 |
| `HalHost.TickAdvances` | src/hal_host.c:32-56 | Every tick advances the time by 6553 or 6554 units, while the count before it is below 42949672 |
| `HalHost.TenTicksAreOneSecond` | src/hal_host.c:32-56 | Any ten ticks advance it by exactly one second, while the count after them is at most 42949672 |
| `HalHost.Hal.GetCucTime` | src/hal_host.c:38-56 | Reads the time of the specification from the statics |
| `HalHost.Hal.SetCucTime` | src/hal_host.c:59-68 | Stores the epoch with two subtractions that wrap on their own |
| `HalHost.Hal.TimeAdvance` | src/hal_host.c:32-35 | Counts a tick, wrapping at 2^32 |
| `HalHost.Hal.TimeInit` | src/hal_host.c:23-30 | Power-on values, 20.0 degrees |
| `ThermalControl.AlwaysSafe` | src/obc_app.c:72-118 | In every reachable state the mirror equals the heater line, SAFE means off, and heater and mode events alternate 1, 0, 1, 0 and end in the present state |
| `ThermalControl.AlwaysRegulated` | src/obc_app.c:203-230 | After every cycle a sample of at least 400 means SAFE, and in NOMINAL at least 250 means off and at most 50 means on |
| `ThermalControl.TickSamples` | src/obc_app.c:203-256 | A cycle moves mode, heater, latch and events as the control machine does, and touches no other state than its clock, sample and overflow mark |
| `ThermalControl.TcSteers` | src/obc_app.c:85-118 | Only functions 1 and 2 of an accepted telecommand steer mode and heater, and 2 only in NOMINAL |
| `AlarmLatch.AlarmExactly` | src/obc_app.c:203-230 | In every run a step attempts the alarm exactly if it is a cycle in NOMINAL with a sample of at least 400 and every earlier alarm has been followed by a sample below 250 |
| `AlarmLatch.LatchIsHistory` | src/obc_app.c:209-229 | The latch is exactly that history: no command and no event filter moves it |
| `AlarmLatch.AlarmsSeparated` | src/obc_app.c:203-230 | Two alarms are always separated by a sample below 250 |
| `Hysteresis.HysteresisExact` | src/obc_app.c:216-222 | From any state in NOMINAL, over any cycles, fetches and sensor changes without a command whose samples stay below 400: the heater is on exactly if the latest sample outside the band was cold, and the number of switches is the number of complete traversals plus at most the first |
| `Hysteresis.SideMeaning` | src/obc_app.c:216-222 | The side used there is that of the latest sample outside the open band |
| `Commands.FailedCommandChangesNothing` | src/obc_app.c:157-190 | A telecommand that does not complete changes counters, failure code, link and raised events only, one-shot lists that stop half-way included |
| `Commands.SetFlagsMeaning` | src/svc05_event.c:99-102 | A list sets exactly the flags it names |
| `Effects.HkFlagAfter` | src/svc03_housekeeping.c:97-162 | Over any telecommand a structure's flag moves exactly if a (3,5) or (3,6) that completes carries its number in an octet of the list |
| `Effects.EventFlagAfter` | src/svc05_event.c:74-128 | Over any telecommand an event's flag moves exactly if a (5,5) or (5,6) that completes carries its number in a pair of octets of the list |
| `Effects.SteeredExactly` | src/obc_app.c:85-118 | Mode, heater, line and latch after any accepted telecommand, by its octets |
| `Commands.SensorAndTimeAfter` | src/svc08_function.c:70-87 | Only function 3 moves the thermistor, to the signed value carried; only function 5 moves the time, which then reads as commanded or one second late |
| `Commands.CountersCount` | src/obc_app.c:163-174 | In every run the accepted and rejected counters are the counts since the last reset, up to 65535 |
| `Effects.FailureCodeKept` | src/obc_app.c:57-64 | In every run the failure code is that of the latest telecommand that failed since the last reset, refused or not, and zero if none did |
| `Effects.PowerOnExact` | src/obc_app.c:26-50 | Every field of the state after initialisation, with the boot event as the first packet, as numbers |
| `HousekeepingRuns.PhaseCounts` | src/svc03_housekeeping.c:169-173 | In every run the phase is the number of cycles mod 10 and the uptime the number mod 2^32 |
| `HousekeepingRuns.Cadence` | src/svc03_housekeeping.c:165-180 | In every run housekeeping is attempted exactly on every tenth cycle, one report per enabled structure in ascending order, telling the state the cycle leaves |
| `Effects.DefaultHousekeeping` | src/svc03_housekeeping.c:30-41 | In every run without a (3,5) or (3,6), each tenth cycle sends exactly the essential report and no other cycle sends any |
| `HousekeepingRuns.RunReadable` | src/pus_tm.c:121-135 | Every packet built in any run can be printed and decoded |
| `HousekeepingRuns.GroundReadsPacket` | tests/integration/gsw/packets.py:124-156 | Such a packet is decoded to exactly its report, numbers and time |
| `Flight.Flight.constructor` | src/obc_app.c:19-23 | The statics at start-up, initialised |
| `Flight.Flight.Init` | src/obc_app.c:26-50 | Initialisation in place ends in the power-on state, which `Effects.PowerOnExact` spells out |
| `Flight.Flight.ReportEvent` | src/svc05_event.c:35-55 | Refuses a bad identifier or severity without effect, suppresses a disabled event, sends an enabled one |
| `Flight.Flight.ApplyHeater` | src/obc_app.c:72-82 | Moves line, mirror and event together, or nothing |
| `Flight.Flight.SetHeater` | src/obc_app.c:85-95 | Refused in SAFE, otherwise applied |
| `Flight.Flight.SetMode` | src/obc_app.c:101-118 | Idempotent; entering SAFE switches the heater off before the mode event |
| `Flight.Flight.ThermalControl` | src/obc_app.c:203-230 | The control law in place |
| `Flight.Flight.Generate` | src/svc03_housekeeping.c:58-87 | Builds and sends the report of a structure from the present state, or refuses an unknown one |
| `Flight.Flight.HkApplyList` | src/svc03_housekeeping.c:97-136 | Validates the whole list before the first entry takes effect |
| `Flight.Flight.OneShotAll` | src/svc03_housekeeping.c:122-132 | The one-shot loop stops at the first report that finds no room |
| `Flight.Flight.HkTick` | src/svc03_housekeeping.c:165-180 | Counts the phase and on the tenth cycle sends the enabled structures |
| `Flight.Flight.EventSetEnabled` | src/svc05_event.c:74-105 | Validates the whole list before the first flag is written |
| `Flight.Flight.FunctionHandle` | src/svc08_function.c:20-104 | Dispatches the five functions with their length and range checks |
| `Flight.Flight.TestHandle` | src/svc17_test.c:12-26 | Answers the connection test |
| `Flight.Flight.RejectRaw` | src/svc01_verification.c:82-92 | Reports the rejection with the recovered request identifier |
| `Flight.Flight.Route` | src/obc_app.c:121-144 | Routes by service type |
| `Flight.Flight.ProcessTc` | src/obc_app.c:157-190 | Parses, counts, executes and reports one telecommand |
| `Flight.Flight.NoticeOverflow` | src/obc_app.c:246-253 | Samples the drop counter and reports a change |
| `Flight.Flight.Tick` | src/obc_app.c:236-256 | One minor cycle |
| `Flight.Flight.Fetch` | src/tm_queue.c:59-85 | Takes the octets of the oldest packet, or changes nothing |
| `Sim.FramingExact` | sim/obc_sim.c:115-144 | Packets that declare their own length, whatever they contain, are framed as they were sent exactly if each of them fits the buffer |
| `Sim.AcceptedIsFramed` | sim/obc_sim.c:126-143 | Every telecommand the parser would accept, and that fits the buffer, is framed whole |
| `Sim.OversizeHeader` | sim/obc_sim.c:126-136 | An oversize header is handed over alone and rejected as truncated with its request identifier, and whatever octets follow are framed as the next telecommands |
| `Sim.DrainDownlink` | sim/obc_sim.c:91-107 | Writes out the queued packets, oldest first, and leaves the queue empty |
| `Sim.SessionFrames` | sim/obc_sim.c:161-186 | The telecommands of a session are the frames of the uplink stream, in order, as many as select reported input for |
| `Sim.SessionInStep` | sim/obc_sim.c:161-186 | While the stream lasts, each wake-up is one step: a cycle for a timeout, a telecommand for input |
| `Sim.ServeClient` | sim/obc_sim.c:146-193 | From the uplink stream and the wake-ups of select, the octets written over a session are the packets taken off the queue, in order |
| `Sim.SessionHeard` | sim/obc_sim.c:146-193 | End to end: if no list overloads the queue, the ground decodes the octets of a session, one by one and with consecutive counts, to every report the unit ever sent, in order |

## Left out

- NULL pointer guards: buffers, strings and telecommands are values here, so the returns for a missing pointer have no counterpart.
- The header errors at `src/pus_tc.c:46-48` and `src/pus_tm.c:88-90`: unreachable after the length checks before them.
- Sockets, `select`, retries, logging and argument parsing of `sim/obc_sim.c`: input and output; the driver is modelled over an abstract octet stream and a given sequence of wake-ups.
- `tests/integration/gsw/client.py`, the unit tests and `tools/`: harness and reporting code.
- `source_id.to_bytes` raising on a value beyond sixteen bits in `build_tc`: the request's source identifier is in range by type.
- The enumeration check of `obc_set_mode` at `src/obc_app.c:103-105`: a mode is one of two values here, and `svc08_handle` refuses every other octet before the call.
- Timing, stack use and concurrency with interrupts: not expressible in this model; the flight code is called one step at a time.
- PusTm.PusTm.Send: data that fits a packet is taken to be that of a report the services send; other source data would be numbered and queued alike.

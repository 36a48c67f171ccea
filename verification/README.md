# Verified models of the node firmware

Dafny models of five parts of the EmbeddedPixel node and of the two programs around it, with proofs about them:

* **the OTA pipeline**: the host updater's chunk loop, the firmware's staging service, the RAM control block, the
  bootloader's install loop, and the NOR flash it writes;
* **the checksums** that link those parts: the table-driven CRC-32 and the bitwise CRC-16-CCITT;
* **the disciplined clock**: stepping, slewing, holdover, and the 64-bit extension of the cycle counter under it;
* **the command stream**: packet framing over a TCP connection delivered in arbitrary buffers;
* **telemetry**: channels, frames, and the tick scheduler.

Each part that changes state in place is a class or a loop whose postconditions tie it to a function on values
(`AfterData`, `Boot`, `AfterBeacon`, `Parse`, `AfterPass`, ...). The results are lemmas about those functions, over every
input and every run. `dafny verify dfyconfig.toml` checks the whole project.

## How the files fit together

| files | content |
|---|---|
| `Bytes` | machine integers, buffers, little-endian fields |
| `Gf2`, `Crc32`, `Crc32Laws`, `Crc16`, `CrcCheck` | bit-vector algebra, the two checksums, streaming, linearity, burst detection, known values |
| `OtaTypes`, `OtaSession`, `OtaSessionLaws`, `OtaService` | control block, image header, boot record; the session as a state machine; the service object |
| `ImageHeader`, `OtaTransfer`, `OtaUpdater` | what the fields of an image header decide, the host's transfer by direct calls, and the path from the host to the flash |
| `CliLine`, `OtaWire`, `WireLayout`, `OtaConnection` | the same update as packets over command connections, the command line behind them, what lies where in the packets, and what one connection can do |
| `NorFlash`, `ExternalFlash`, `Bootloader`, `BootloaderLaws`, `BootOutcome` | flash semantics, faulty flash calls, the install loops, what they guarantee, and what becomes of each control block |
| `ExtMemFlash` | the application's flash driver: sector and page splitting |
| `Clock`, `ClockLaws`, `ClockMessages`, `ClockRuns`, `ClockAccuracy`, `ClockNetwork`, `TimeManager`, `DwtTimeSource`, `ClockSource` | the clock on values, single readings, what one message does, whole runs, error against host time, that error in terms of the network, the two objects, the clock on the cycle counter |
| `Packet`, `CommandStream`, `CommandService` | packet header, framing of a flat stream, the reader over network buffers |
| `Channels`, `Telemetry`, `TelemetryLaws`, `TelemetryReceiver`, `TelemetrySettings`, `TelemetryFrames`, `TelemetryService` | samples, frames and passes on values, whole runs, what a receiver can rely on, what requests leave, what lies where in a datagram, the service object |

## What the code does that its documentation does not say

Each item is either an if-and-only-if on what is known before the call or a statement about every state, with an
occurrence shown where that is not obvious.

* The updater sends everything over one connection, but the command server closes a connection after the first packet
  that is not OTA data. Behind its node-information query nothing is dispatched (`SingleConnectionEndsAtNodeInfo`), and
  no bytes at all on one connection take an idle node to READY (`OneConnectionNeverReady`). With a connection for each
  phase the update works, over any network (`OverWireIsConversation`, `EndToEndOverWire`).
* The clock header promises strict monotonicity. With any slowed-down rate the very first microsecond of a segment is
  not shown; every microsecond is shown exactly when the rate correction is not negative
  (`StrictExactlyWithoutSlowdown`). Readings never decrease without a step, and two local microseconds always show.
* A forced step changes what is shown only once the clock is synchronised (`ForceStepCorrects`).
* A round-trip sample is compared with the raw local clock. Whether it steps a synchronised clock does not depend on
  what that clock shows (`RttStepsOnRawOffset`), so a clock that shows host time exactly is stepped, too
  (`PerfectClockStepped`; a run that gets there: `LockedClockStepped`).
* The integral of the rate controller is not limited. A slew drives a clock that is ahead further ahead exactly when the
  accumulated error outweighs the present one (`SlewSteersAway`); two beacons are enough to get there (`WindupReached`,
  `WindupSteersAway`).
* Holdover is "five seconds since the last message" except when the 32-bit counter of elapsed milliseconds jumps over
  the timeout by wrapping (`HoldoverExactly`); one update above 2^32 - 5000 ms can do that
  (`HugeUpdateMissesHoldover`), none below (`HoldoverFromHistory`).
* A node told to end early takes the bytes never sent for 0xFF (`EarlyEnd`).
* A header the firmware refuses is refused after its bytes were stored, and the session goes on (`RefusedHeaderIsStored`);
  the bootloader's own gate is what keeps such an image out of the flash.
* Aborting a finished session leaves the control block armed (`AbortDoesNotDisarm`).
* A chunk whose CRC-16 happens to be zero is not checked (`DamagedChunkNoticed`, `UncheckedChunk`). There are such chunks
  behind every beginning: exactly one pair of last bytes in 65536 (`ZeroPair`).
* The chunk bounds check adds in 32 bits. It decides as unbounded arithmetic would exactly when the sum does not wrap to
  something the image size allows (`BoundsCheckSound`, `OverrunLeavesBuffer`).
* The flash driver's erase steps from the unrounded offset and misses the last sector of some unaligned ranges; exactly
  which is `SweepCoversRange`. An erase whose end wraps in 32 bits reports success and erases nothing.
* Starting a stream with a tag nobody registered turns streaming on with nothing to stream (`StartEnablesExactly`).
* A telemetry frame that is due is missed exactly when the scheduler stalls for at least a period of the tick counter
  and less than an interval of the stall is seen (`StallMissed`).
* A frame's time stamp is not its send time: the tick count is read again for it while the frame is built. Stamps are the
  send times exactly when every frame that is sent is built in its pass's own tick (`StampsAreSendTimes`); otherwise two
  stamps can be closer than the interval (`StampsCloserThanInterval`), by at most the delay (`ChannelOnSchedule`).
* The cycle counter's rate is rounded down to whole megahertz: at any other clock the time source runs ahead of time
  (`FractionalClockRunsFast`), at a whole number of megahertz it is exact (`SecondsExact`).
* A beacon before the first round-trip sample knows no delay and lags by all of it (`UncalibratedBeaconLags`).
* A channel's interval is computed from its stored batch, its frame from what is left of it: they agree exactly when the
  batch is at most 100 and fits the datagram (`FrameMatchesInterval`).

## Model

| member | source | states |
|---|---|---|
| Crc32.TableIsDivision | components/sys/Crc32.cpp:6-39 | every one of the 256 table entries is its index divided, eight reflected bit steps, by 0xEDB88320 |
| Crc32.TableStep | components/sys/Crc32.cpp:44-46 | one table step on any register and byte equals eight bit steps of the division |
| Crc32.Update | components/sys/Crc32.cpp:41-48 | the loop absorbs the bytes in order: the table form refines the bitwise definition |
| Crc32.Calculate | components/sys/Crc32.cpp:50-53 | the one-pass checksum is the finalized fold from the initial remainder |
| Crc32.BitInvertible | components/sys/Crc32.cpp:44-46 | a bit step can be undone, so no two registers are merged |
| Crc32Laws.FoldPartsIsFold | components/sys/Crc32.cpp:41-48 | feeding a buffer in any pieces, from any register, equals feeding it whole |
| Crc32Laws.StreamedChecksum | components/sys/Crc32.cpp:41-53 | Update over any partition, then Finalize, equals Calculate of the whole buffer |
| Crc32Laws.FoldLinear | components/sys/Crc32.cpp:41-48 | the register is linear over GF(2) in start value and message |
| Crc32Laws.FoldInjective | components/sys/Crc32.cpp:41-48 | equal bytes keep different registers different |
| Crc32Laws.BurstDetected | components/sys/Crc32.cpp:41-53 | two buffers of one length that differ only inside four consecutive bytes and have one checksum are equal |
| Crc16.Ccitt | components/net/proto/ProtocolTypes.h:374-388 | the nested loops compute the fold of the most-significant-bit-first division by 0x1021 |
| Crc16.BitInvertible | components/net/proto/ProtocolTypes.h:380-384 | a bit step can be undone |
| Crc16.FoldConcat | components/net/proto/ProtocolTypes.h:374-388 | the checksum can be continued over concatenated buffers through the seed |
| Crc16.ZeroPair | components/net/proto/ProtocolTypes.h:374-388 | behind any bytes exactly one pair brings the checksum to zero: the bytes of the checksum so far |
| Crc16.UncheckedIsZero | components/net/proto/ProtocolTypes.h:374-388 | 0xFF 0xFF followed by any number of zeros has checksum zero |
| Crc16.BurstDetected | components/net/proto/ProtocolTypes.h:374-388 | buffers that differ only inside two consecutive bytes and have one checksum are equal |
| CrcCheck.CheckValues | components/sys/Crc32.cpp:6-53 | the digits 1 to 9 have the CRC-32 0xCBF43926 and the CRC-16 0x29B1 |
| CrcCheck.Residue | components/sys/Crc32.cpp:41-53 | any message followed by its own CRC-32, low byte first, leaves 0xDEBB20E3 in the register |
| OtaService.Service.HandleBegin | components/net/services/OtaService.cpp:22-59 | new session and status, or refusal with only the error code changed; staging filled with 0xFF up to the next 256 bytes |
| OtaService.Service.HandleData | components/net/services/OtaService.cpp:61-119 | busy, bounds, checksum and header outcomes with the exact session, staging bytes and running CRC after each; excluded is only a copy that leaves the buffer |
| OtaService.Service.HandleEnd | components/net/services/OtaService.cpp:121-167 | READY with the control block written when the staged checksum matches, ERROR otherwise |
| OtaService.Service.WriteControlBlock | components/net/services/OtaService.cpp:185-207 | the RAM block describes the session and carries the checksum of its first 28 bytes |
| OtaService.Service.HandleAbort | components/net/services/OtaService.cpp:169-176 | back to IDLE with no pending reboot; staging and control block untouched |
| OtaService.Service.GetStatus | components/net/services/OtaService.cpp:178-183 | progress within the announced size and capacity, VERIFYING never reported |
| OtaSession.StepKeepsConsistent | components/net/services/OtaService.cpp:22-183 | every handler, accepted or refused, keeps the session invariant |
| OtaSessionLaws.SessionInvariant | components/net/services/OtaService.cpp:22-207 | after any sequence of calls: READY means matching checksum and an acceptable block for exactly that size and CRC; pending reboot means READY; progress within size within 160 KB; no VERIFYING |
| OtaSessionLaws.FreshSession | components/net/services/OtaService.cpp:10-20 | a node that has just started is idle with nothing announced, received or due, and in the invariant |
| OtaSessionLaws.BlockProvenance | components/net/services/OtaService.cpp:121-207 | the block found after any run was there before it, or was written when the staged bytes had the checksum it names |
| OtaSessionLaws.PendingBlockAccepted | components/net/services/OtaService.cpp:185-198 | every block written is accepted by the bootloader |
| OtaSessionLaws.BoundsCheckSound | components/net/services/OtaService.cpp:68-73 | the 32-bit check decides as unbounded arithmetic exactly when the sum does not wrap or the wrapped sum is refused as well |
| OtaSessionLaws.OverrunLeavesBuffer | components/net/services/OtaService.cpp:68-87 | a chunk past both checks stays inside the image exactly when its end does not wrap; otherwise it starts behind the buffer |
| OtaSessionLaws.OverrunExists | components/net/services/OtaService.cpp:68-87 | every receiving session has a request that does the latter |
| OtaSessionLaws.RefusedChunkLeavesNoTrace | components/net/services/OtaService.cpp:64-84 | a chunk refused for state, bounds or CRC-16 changes nothing but the error code |
| OtaSessionLaws.DamagedChunkNoticed | components/net/services/OtaService.cpp:76-84 | damage within two bytes of a chunk passes exactly when the sent checksum is zero |
| OtaSessionLaws.UncheckedChunk | components/net/services/OtaService.cpp:76-84 | in place of chunks of every length from two bytes on, anything at all is taken for intact |
| OtaSessionLaws.DamagedChunkPasses | components/net/services/OtaService.cpp:76-84 | at such a chunk one changed byte passes |
| OtaSessionLaws.DamagedImageNoticed | components/net/services/OtaService.cpp:132-148 | with damage confined to four bytes, the end request succeeds exactly when there is none |
| OtaSessionLaws.RefusedHeaderIsStored | components/net/services/OtaService.cpp:86-116 | after a header refusal bytes and progress are stored and the session can still end READY |
| OtaSessionLaws.AbortDoesNotDisarm | components/net/services/OtaService.cpp:169-176 | after aborting a READY session the bootloader judges the staged image as before |
| OtaSessionLaws.AbortEndsTransfer | components/net/services/OtaService.cpp:169-176 | from an abort on, until a begin request, nothing is stored and nothing changes: progress stays 0, staging and control block stay what they were |
| OtaSessionLaws.RefusedOutsideTransfer | components/net/services/OtaService.cpp:64-66 | outside a transfer chunks and end requests are answered with busy and change nothing |
| OtaSessionLaws.BeginAnswered | components/net/services/OtaService.cpp:22-59 | which begin requests are refused and how, and every field an accepted one sets |
| OtaSessionLaws.ChunkStored | components/net/services/OtaService.cpp:86-97 | a chunk past the checks is stored at its offset and nowhere else, whatever the header then says |
| OtaSessionLaws.ChunkRefusals | components/net/services/OtaService.cpp:64-84 | each refusal in front of that with its own answer |
| OtaSessionLaws.EndAnswered | components/net/services/OtaService.cpp:121-167 | READY with every field of the control block, or failed with the old one |
| OtaSessionLaws.FailedEndIsFinal | components/net/services/OtaService.cpp:137-148 | after a checksum mismatch later chunks and end requests are refused |
| OtaTransfer.NextChunk | scripts/ota_updater.py:314-324 | the host cuts an image into 1024-byte chunks without gap or overlap, the last one what is left |
| OtaTransfer.ChunkArrives | scripts/ota_updater.py:314-335 | one chunk of the host's loop extends the received prefix and its running CRC, and is acknowledged unless the gate speaks |
| OtaTransfer.TransferArrives | scripts/ota_updater.py:314-335 | the chunk loop is acknowledged throughout exactly when the image passes the gate, and then the whole image is staged |
| OtaTransfer.BegunBufferIsErased | components/net/services/OtaService.cpp:49-50 | a begun session has the image range filled with 0xFF up to the next 256 bytes and nothing else touched |
| OtaTransfer.EarlyEnd | components/net/services/OtaService.cpp:132-148 | ended early, the node takes the missing rest for 0xFF and accepts exactly when that has the announced checksum |
| OtaTransfer.ConversationDelivers | components/net/services/OtaService.cpp:22-167 | for every image: READY exactly when updates are allowed, it fits and passes the gate; staging, running CRC and block are then those of the image |
| ImageHeader.HeaderRead | components/sys/Version.h:112-133 | an image that carries a header laid out field by field at 0x400 is read as those fields |
| ImageHeader.FirmwareVerdict | components/net/services/OtaService.cpp:99-116 | the firmware's answer for such an image, from magic, checksum, board and version |
| ImageHeader.BootloaderVerdict | boards/nucleo_h7s3l8/apps/bootloader/main.cpp:138-177 | the bootloader takes it exactly when its checksum is right, its board id is 1 and it needs no more than version 1.0.0 |
| ImageHeader.HeaderlessPasses | components/sys/Version.h:149-163 | images too short for a header or without the magic number pass both |
| ImageHeader.UpdateByHeader | boards/nucleo_h7s3l8/apps/bootloader/main.cpp:71-249 | the whole update by the fields of the header: acknowledged and installed byte for byte, or refused with the status of the field that is wrong |
| OtaUpdater.RunOta | scripts/ota_updater.py:277-345 | the host program's chunk loop, calling the handlers directly, is that conversation and stops at the first refusal |
| OtaUpdater.GatesAgree | boards/nucleo_h7s3l8/apps/bootloader/main.cpp:138-177 | for a node that names this board and bootloader version, firmware gate and bootloader gate agree on every image |
| OtaUpdater.GatesAgreeAfterHandover | components/sys/SystemController.cpp:38-54 | so they do for the version the node takes from the boot record, or from its fallback |
| OtaUpdater.EndToEnd | boards/nucleo_h7s3l8/apps/bootloader/main.cpp:71-249 | direct calls, then bootloader on fault-free flash, install exactly the images that fit and pass the gate, byte for byte |
| OtaUpdater.UpdateNode | scripts/ota_updater.py:194-345 | the same for the two programs, joined by direct calls, run one after the other on shared RAM and flash |
| OtaWire.BeginUnderstood | scripts/ota_updater.py:277-283 | the firmware reads the host's begin packet as the request meant |
| OtaWire.DataUnderstood | scripts/ota_updater.py:314-324 | and every data packet as its offset, checksum and chunk |
| OtaWire.EndUnderstood | scripts/ota_updater.py:349-353 | and the end packet as its reboot flag |
| CliLine.TwoWords | components/sys/CliEngine.cpp:16-77 | a plain line of two words aborts the session exactly when it reads so |
| OtaWire.CliAbortUnderstood | components/net/services/CommandService.cpp:472-495 | a command-line packet with that text is an abort |
| CliLine.PaddedLine | components/sys/CliEngine.cpp:16-66 | blanks in front, several spaces between, further words, line ends and anything behind a zero byte do not change that |
| WireLayout.FrontOfStream | components/net/services/CommandService.cpp:181-205 | which bytes make a connection wait, refuse with which answer, or take which packet |
| WireLayout.ConnectionReads | components/net/services/CommandService.cpp:181-215 | a whole connection from its bytes, packet by packet, with its ending |
| WireLayout.BeginOnWire | components/net/proto/ProtocolTypes.h:231-239 | where the fields of a begin request lie; a shorter one is refused |
| WireLayout.DataOnWire | components/net/services/CommandService.cpp:402-418 | the same for a data request; what the packet lacks comes from the payload buffer |
| WireLayout.WholeChunkOnWire | components/net/services/CommandService.cpp:411-415 | a packet that brings its whole chunk does not depend on that buffer |
| WireLayout.OtherRequestsOnWire | components/net/services/CommandService.cpp:420-470 | end and abort requests, commands of other services, and unknown ones |
| WireLayout.CommandLineOnWire | components/net/services/CommandService.cpp:472-495 | a command-line packet acts on the session exactly when its text orders the abort |
| WireLayout.SetAside | components/net/services/CommandService.cpp:374-377 | short and unknown requests are answered with their errors and leave the session alone |
| WireLayout.AbortOnWire | components/net/services/CommandService.cpp:464-470 | an abort packet, whatever is in it, ends the transfer and is acknowledged |
| WireLayout.OverlongOnWire | components/net/services/OtaService.cpp:64-73 | a chunk announced past the payload buffer is refused outside a transfer or when it ends behind the image, and undefined otherwise |
| WireLayout.HostHeaderOnWire | scripts/ota_updater.py:97-98 | every byte of the host's packet headers |
| WireLayout.BeginPayloadBytes | scripts/ota_updater.py:279-282 | the bytes of its begin request |
| WireLayout.DataPayloadBytes | scripts/ota_updater.py:319-323 | of its data packets |
| WireLayout.EndAndTextBytes | scripts/ota_updater.py:349-353 | of its end request, and of its command lines |
| OtaWire.TrainServed | components/net/services/CommandService.cpp:402-418 | serving the data packets the host sends, the first refusal the last, is the transfer |
| OtaWire.OverWireIsConversation | components/net/services/CommandService.cpp:172-439 | with a connection for each phase, any network that keeps the order of bytes and anything in the payload buffer, session and last answer are those of the direct conversation |
| OtaWire.SingleConnectionEndsAtNodeInfo | scripts/ota_updater.py:224-283 | what the updater sends behind its node query on the same connection is never dispatched; the session stays as it was |
| OtaWire.NothingBehindBegin | components/net/services/CommandService.cpp:207-212 | nor is anything behind a begin request |
| OtaWire.OneConnectionNeverReady | components/net/services/CommandService.cpp:181-214 | no bytes on a single connection take a node outside a transfer to READY |
| OtaConnection.ProcessCommand | components/net/services/CommandService.cpp:369-470 | the packet's handler, the command line included, its answer, and the refusals in front of it, over the shared payload buffer |
| OtaConnection.ServeConnection | components/net/services/CommandService.cpp:172-215 | the service object behind a whole connection, from the chunks delivered and what earlier connections left in the payload buffer |
| OtaConnection.EndToEndOverWire | boards/nucleo_h7s3l8/apps/bootloader/main.cpp:71-249 | from the host's bytes to the flash: exactly the images that fit and pass the gate are installed |
| Bootloader.EraseSectors | boards/nucleo_h7s3l8/apps/bootloader/main.cpp:179-190 | the erase loop performs its sector plan up to the first reported failure |
| Bootloader.CopyImage | boards/nucleo_h7s3l8/apps/bootloader/main.cpp:192-210 | the copy loop programs the image in 1024-byte pieces up to the first reported failure |
| NorFlash.OperationsOfInstall | boards/nucleo_h7s3l8/apps/bootloader/main.cpp:179-210 | the operations of an install one by one: which sectors are erased, and which 1024 bytes are programmed where |
| Bootloader.ReadChecksum | boards/nucleo_h7s3l8/apps/bootloader/main.cpp:218-233 | the verify loop folds what reads deliver, and stops at a failed read |
| Bootloader.CheckAndInstallOta | boards/nucleo_h7s3l8/apps/bootloader/main.cpp:71-249 | flash, control block and boot record after any boot, for every image and script of flash results and every block that, if accepted, names the staging buffer or no RAM |
| BootloaderLaws.ChangedFieldRejected | boards/nucleo_h7s3l8/apps/bootloader/main.cpp:83-93 | changing any single 32-bit field of an accepted block makes the bootloader ignore it |
| BootloaderLaws.ReportedUpdateIsInstalled | boards/nucleo_h7s3l8/apps/bootloader/main.cpp:179-248 | on flash that reports its failures, OTA_UPDATE means image, 0xFF to the sector boundary, rest unchanged, from any earlier content |
| BootloaderLaws.FaultlessBootInstalls | boards/nucleo_h7s3l8/apps/bootloader/main.cpp:114-248 | on fault-free flash an acceptable image is installed, reported and its block cleared |
| BootloaderLaws.SilentBurstNotReported | boards/nucleo_h7s3l8/apps/bootloader/main.cpp:218-241 | as long as reads are honest, corruption the chip did not report and that is confined to four bytes is never reported as an update |
| BootloaderLaws.BootFrame | boards/nucleo_h7s3l8/apps/bootloader/main.cpp:95-248 | no install leaves the flash alone; any install stays inside the image's sectors; the block is cleared exactly on rejection or reported update |
| BootOutcome.NothingPending | boards/nucleo_h7s3l8/apps/bootloader/main.cpp:83-103 | a block with another magic number, state or checksum, or a size outside 1 byte to 8 MiB, is kept; power-on, flash untouched |
| BootOutcome.PendingOutcome | boards/nucleo_h7s3l8/apps/bootloader/main.cpp:105-249 | a pending block in RAM is thrown away with a fault, flash untouched, when the staged checksum differs or the header is refused, and installed otherwise |
| BootOutcome.ThrownAwayExactly | boards/nucleo_h7s3l8/apps/bootloader/main.cpp:129-177 | exactly then |
| BootOutcome.NotInRamThrownAway | boards/nucleo_h7s3l8/apps/bootloader/main.cpp:105-136 | a pending block that names no RAM is thrown away |
| BootOutcome.DamagedStagingThrownAway | boards/nucleo_h7s3l8/apps/bootloader/main.cpp:129-136 | an image damaged in staging within four bytes is thrown away, never installed or kept |
| BootOutcome.ClearedBlock | boards/nucleo_h7s3l8/apps/bootloader/main.cpp:83-103 | a cleared block is zero bytes, and the next boot finds nothing pending |
| BootOutcome.HeaderRefusedExactly | boards/nucleo_h7s3l8/apps/bootloader/main.cpp:138-177 | what the bootloader refuses in a header, in bytes of the image |
| BootOutcome.RecordWritten | boards/nucleo_h7s3l8/apps/bootloader/main.cpp:55-69 | every field of the boot record |
| BootOutcome.ChangedRecordFallsBack | components/sys/SystemController.cpp:38-54 | a boot record with one changed field is not believed: the node falls back to its own version |
| BootOutcome.VersionsCompare | components/sys/Version.h:12-17 | packed versions compare by major, minor, patch and build in this order |
| BootloaderLaws.RetriesConverge | boards/nucleo_h7s3l8/apps/bootloader/main.cpp:179-248 | boots repeated over failing flash end as one undisturbed install, and keep the block until then |
| BootloaderLaws.BootAfterInterruptions | boards/nucleo_h7s3l8/apps/bootloader/main.cpp:179-248 | so does a boot after any number of installs cut off between any two flash operations |
| BootloaderLaws.HandoverCarriesVersion | boards/nucleo_h7s3l8/apps/bootloader/main.cpp:55-69 | every boot record written is valid and hands over the bootloader version |
| NorFlash.InstallFromAnyContent | boards/nucleo_h7s3l8/apps/bootloader/main.cpp:179-210 | erase and program on NOR cells give the padded image from any content |
| NorFlash.InstallIsRestartable | boards/nucleo_h7s3l8/apps/bootloader/main.cpp:179-210 | cut-off attempts in front of a full install do not change its result |
| ExternalFlash.HonestRun | boards/nucleo_h7s3l8/apps/bootloader/main.cpp:183-210 | when failures are reported, a run without a report did everything asked |
| ExternalFlash.RunKeepsTail | boards/nucleo_h7s3l8/apps/bootloader/main.cpp:183-210 | whatever the flash does, cells behind the operations' range stay |
| ExtMemFlash.PagePlanTiles | targets/stm32h7/hal_impl/Stm32ExtMemFlash.cpp:135-159 | the page programs follow one another without gap or overlap over exactly the range, none crossing a 256-byte page |
| ExtMemFlash.AlignedSweep | targets/stm32h7/hal_impl/Stm32ExtMemFlash.cpp:107-121 | from a sector boundary exactly the covering sectors are erased |
| ExtMemFlash.SweepCoversRange | targets/stm32h7/hal_impl/Stm32ExtMemFlash.cpp:107-121 | from any offset, every sector of the range is visited exactly when offset and length do not carry into one sector more |
| ExtMemFlash.EraseThenWriteStores | targets/stm32h7/hal_impl/Stm32ExtMemFlash.cpp:101-165 | aligned erase, then write, stores exactly the data |
| ExtMemFlash.Stm32ExtMemFlash.Erase | targets/stm32h7/hal_impl/Stm32ExtMemFlash.cpp:101-127 | refusal without effect beyond the chip's size; otherwise the commands issued and the cells after them; none of either when the end wraps |
| ExtMemFlash.Stm32ExtMemFlash.Write | targets/stm32h7/hal_impl/Stm32ExtMemFlash.cpp:129-165 | refusal of null, empty and too long writes; otherwise the data ANDed into exactly its range although single page programs wrap |
| ClockLaws.ReadIsLine | components/sys/TimeManager.cpp:57-68 | a synchronised reading is the base plus the whole microseconds of the corrected line |
| ClockLaws.ReadStrictAfterTwo | components/sys/TimeManager.cpp:57-68 | two local microseconds always show |
| ClockLaws.StrictExactlyWithoutSlowdown | components/sys/TimeManager.cpp:57-68 | every single microsecond of a segment shows exactly when the rate correction is not negative |
| ClockLaws.SlewKeepsReading | components/sys/TimeManager.cpp:173-194 | a slew leaves the current reading unchanged and counts no step |
| ClockLaws.FirstSlewRate | components/sys/TimeManager.cpp:165-187 | after a step the next slew answers the error in proportion, up to 500 ppm |
| ClockLaws.SlewDirection | components/sys/TimeManager.cpp:173-187 | the sign of the new rate, both ways, from gains, accumulated error and offset |
| ClockLaws.SlewSteersAway | components/sys/TimeManager.cpp:173-187 | a slew drives the clock further off exactly when the accumulated error outweighs the present one |
| ClockLaws.SlewWithoutWindup | components/sys/TimeManager.cpp:173-187 | never while both have one sign and the gains are not negative |
| ClockMessages.SlewBends | components/sys/TimeManager.cpp:173-194 | the rate and the integral after a slew, written out, the limits of 500 ppm and the sign included |
| ClockMessages.SampleBends | components/sys/TimeManager.cpp:70-102 | a sample that does not step bends the rate by the measured offset, taken with the opposite sign, and by no other number |
| ClockMessages.SampleSteps | components/sys/TimeManager.cpp:70-102 | when a sample steps, and what it leaves |
| ClockMessages.SampleSteersTowardsHost | components/sys/TimeManager.cpp:87-102 | with equal delays, positive gains and no accumulated error, the clock runs slower exactly when it is ahead of the host |
| ClockMessages.BeaconBends | components/sys/TimeManager.cpp:104-128 | a beacon within the threshold bends the rate by the phase error |
| ClockMessages.BeaconSets | components/sys/TimeManager.cpp:104-128 | the first beacon and one beyond the threshold set the clock to the host's time plus the delay |
| ClockMessages.PhaseIsFound | components/sys/TimeManager.cpp:110-113 | the phase error is host time plus half the stored round trip, less what the clock shows |
| ClockMessages.UnsynchronizedShowsLocal | components/sys/TimeManager.cpp:57-62 | before the first message the clock shows local time |
| ClockMessages.GainsTakeEffect | components/sys/TimeManager.cpp:48-51 | new gains are those of the next slew |
| ClockLaws.WindupReached | components/sys/TimeManager.cpp:104-194 | two beacons after init, default gains, leave a locked clock wound up to 100 |
| ClockLaws.WindupSteersAway | components/sys/TimeManager.cpp:104-194 | the next beacon finds that clock ahead and drives it further ahead at 500 ppm |
| ClockLaws.StepSetsReading | components/sys/TimeManager.cpp:165-171 | after a step the clock shows the target at the reference time, with rate and integral cleared |
| ClockLaws.ForceStepCorrects | components/sys/TimeManager.cpp:141-145 | a forced step adds its correction to the reading exactly when synchronised (or the correction is zero) |
| ClockLaws.NtpAccuracy | components/sys/TimeManager.cpp:70-85 | measured round trip modulo 2^32, exact if and only if it fits; offset, and while it fits the assigned host time, within half the delay asymmetry, rounded; offset exact on symmetric paths (section 8 of RFC 5905) |
| ClockLaws.RttStepAccuracy | components/sys/TimeManager.cpp:70-102 | after a stepping sample the clock at t2 is within half the round trip of host time |
| ClockLaws.RttStepsOnRawOffset | components/sys/TimeManager.cpp:90-98 | a sample steps a synchronised clock exactly when raw offset and asymmetry exceed the threshold, whatever the clock shows |
| ClockLaws.PerfectClockStepped | components/sys/TimeManager.cpp:70-102 | a clock that shows host time exactly is then stepped off it by half the asymmetry and loses rate and state |
| ClockLaws.LockedClockStepped | components/sys/TimeManager.cpp:70-128 | one beacon after init leads to such a clock, and the first sample steps it |
| ClockRuns.RunStaysSound | components/sys/TimeManager.cpp:57-194 | over every plausible run the reference stays in the past, the rate within 500 ppm, the line far from overflow |
| ClockRuns.StepEffect | components/sys/TimeManager.cpp:165-193 | each event that steps clears rate and integral and counts one step; no other event counts one |
| ClockRuns.RunCountsSteps | components/sys/TimeManager.cpp:165-193 | over any run the step counter is the number of steps modulo 2^32 and the rate stays within 500 ppm |
| ClockRuns.RunCountsMessages | components/sys/TimeManager.cpp:87-107 | over any run the sample and beacon counters are the numbers of samples and beacons modulo 2^32 |
| ClockRuns.LastMessageShown | components/sys/TimeManager.cpp:70-128 | stamps, offset and round trip in the statistics are those of the last message, through any later steps and updates |
| ClockRuns.TickKeepsReading | components/sys/TimeManager.cpp:57-194 | no event but a step changes what is shown at its moment |
| ClockRuns.ReadingsAscend | components/sys/TimeManager.cpp:57-194 | over any run without a step the results of the reads never decrease |
| ClockRuns.UnsynchronizedUntilFirstMessage | components/sys/TimeManager.cpp:28-145 | UNSYNCHRONIZED holds exactly until the first message and never returns |
| ClockRuns.StateFromHistory | components/sys/TimeManager.cpp:87-139 | the state after any run is a function of the last message and the update deltas since, counter wrap included |
| ClockRuns.HoldoverFromHistory | components/sys/TimeManager.cpp:130-139 | HOLDOVER exactly when the last message locked the clock and the updates since add up to 5000 ms |
| ClockRuns.HoldoverExactly | components/sys/TimeManager.cpp:130-139 | for any updates: holdover means 5000 ms in total exactly when there were fewer or the 32-bit sum stood at the timeout after some update |
| ClockRuns.ElapsedFromHistory | components/sys/TimeManager.cpp:130-139 | the elapsed counter is the 32-bit sum of the updates since the last message, in holdover too, and zero after a message that set the clock |
| ClockRuns.HugeUpdateMissesHoldover | components/sys/TimeManager.cpp:130-139 | an update one millisecond larger than that lemma allows can leave the clock LOCKED |
| ClockAccuracy.ReadingError | components/sys/TimeManager.cpp:57-68 | how an error at the reference point bounds the error of a reading |
| ClockAccuracy.BeaconTracks | components/sys/TimeManager.cpp:104-128 | a beacon leaves the clock within the delay error (step) or within the threshold plus the delay error (slew) |
| ClockAccuracy.RttTracks | components/sys/TimeManager.cpp:70-102 | a sample leaves it within the delay error (step) or costs at most one microsecond of re-basing (slew) |
| ClockAccuracy.RoundTripIsAccurate | components/sys/TimeManager.cpp:70-102 | the delay error of a stepping sample is half the asymmetry plus half a microsecond |
| ClockAccuracy.BoundedClockError | components/sys/TimeManager.cpp:104-194 | from init on, every reading is within 100000 + E + (0.0005 + skew) * elapsed microseconds of host time, plus one per re-basing and one, locked or in holdover |
| ClockNetwork.SampleIsAccurate | components/sys/TimeManager.cpp:70-102 | the error of a sample's estimate and the range of its stored round trip, from delay bounds, turnaround and oscillator skew |
| ClockNetwork.BeaconTargetError | components/sys/TimeManager.cpp:110-111 | a beacon delayed by d has its target within half the stored round trip less d, and half a microsecond, of host time |
| ClockNetwork.BeaconIsAccurate | components/sys/TimeManager.cpp:104-128 | after a sample on the same network a beacon's estimate is as good, plus the time it waited |
| ClockNetwork.NetworkClockError | components/sys/TimeManager.cpp:70-194 | the error bound of every reading in terms of the network alone, when a sample comes before the first beacon |
| ClockNetwork.UncalibratedBeaconLags | components/sys/TimeManager.cpp:110-111 | a beacon without an earlier sample is behind by its whole delay |
| TimeManager.TimeManager.GetUtcEpochUs | components/sys/TimeManager.cpp:57-68 | the object's read is the value-level reading at the time source's time |
| TimeManager.TimeManager.ProcessRttSample | components/sys/TimeManager.cpp:70-102 | all fields after a sample |
| TimeManager.TimeManager.ProcessBeacon | components/sys/TimeManager.cpp:104-128 | all fields after a beacon |
| TimeManager.TimeManager.UpdateHoldover | components/sys/TimeManager.cpp:130-139 | all fields after a holdover update |
| TimeManager.TimeManager.ForceStepBy | components/sys/TimeManager.cpp:141-145 | all fields after a forced step |
| TimeManager.TimeManager.ApplySlew | components/sys/TimeManager.cpp:173-194 | all fields after a slew; the re-basing reads with the old rate |
| TimeManager.TimeManager.Init | components/sys/TimeManager.cpp:28-46 | everything but the gains is reset |
| TimeManager.Replay | components/sys/TimeManager.cpp:8-194 | the object driven through any history ends and reads as the value-level run, so the results about runs are about it |
| DwtTimeSource.CongruentCycles | targets/stm32h7/hal_impl/Stm32H7DwtTimeSource.cpp:71-78 | the accumulated count is congruent to the true cycles modulo 2^32, whatever the gaps |
| DwtTimeSource.RegisterRemembered | targets/stm32h7/hal_impl/Stm32H7DwtTimeSource.cpp:73-76 | the register value kept for the next read is the true one: the low 32 bits of the cycles so far |
| DwtTimeSource.CyclesAccounted | targets/stm32h7/hal_impl/Stm32H7DwtTimeSource.cpp:71-78 | what is lost is exactly the counter periods unseen between two reads |
| DwtTimeSource.ExactCycles | targets/stm32h7/hal_impl/Stm32H7DwtTimeSource.cpp:71-78 | the count is the true one exactly when every gap is shorter than a period |
| DwtTimeSource.TimeMonotone | targets/stm32h7/hal_impl/Stm32H7DwtTimeSource.cpp:63-98 | time never runs backwards, unseen periods or not |
| DwtTimeSource.TimeExact | targets/stm32h7/hal_impl/Stm32H7DwtTimeSource.cpp:63-98 | with short gaps the reading is the true number of whole microseconds |
| DwtTimeSource.ReadingInSeconds | targets/stm32h7/hal_impl/Stm32H7DwtTimeSource.cpp:43-98 | the reading against elapsed time at the clock's frequency: never behind, and the exact number of microseconds at whole megahertz |
| DwtTimeSource.SecondsExact | targets/stm32h7/hal_impl/Stm32H7DwtTimeSource.cpp:43-98 | k seconds at a whole number of megahertz read 1000000 k |
| DwtTimeSource.FractionalClockRunsFast | targets/stm32h7/hal_impl/Stm32H7DwtTimeSource.cpp:43-48 | at every other clock above one megahertz some elapsed time is read as more |
| DwtTimeSource.Driver.Init | targets/stm32h7/hal_impl/Stm32H7DwtTimeSource.cpp:29-61 | counter and sum at zero, rate from the core clock or the constructor and never zero |
| DwtTimeSource.Driver.GetTimeUs | targets/stm32h7/hal_impl/Stm32H7DwtTimeSource.cpp:63-98 | a read accumulates the 32-bit difference; the first read starts the counter |
| DwtTimeSource.Sample | targets/stm32h7/hal_impl/Stm32H7DwtTimeSource.cpp:63-98 | the driver read after every gap shows those values |
| ClockSource.HistorySplits | components/sys/TimeManager.cpp:53-55 | the runs of the clock results are the plausible ones in the order of local time |
| ClockSource.DriverOrders | targets/stm32h7/hal_impl/Stm32H7DwtTimeSource.cpp:63-98 | the times the cycle counter's driver delivers are in that order, whatever the gaps |
| ClockSource.DriverReadingsAscend | components/sys/TimeManager.cpp:57-194 | on the driver, the reads of a run without a step never decrease |
| ClockSource.DriverBoundedError | components/sys/TimeManager.cpp:104-194 | on the driver, the error bound holds from init on at every later read |
| Packet.HeaderRoundTrip | components/net/proto/ProtocolTypes.h:112-121 | every header is read back as written |
| Packet.HeaderRestored | components/net/proto/ProtocolTypes.h:112-121 | every 16 bytes are some header's layout: decoding loses nothing |
| Packet.PopulatedIsValid | components/net/proto/PacketHelper.h:13-63 | a populated header passes both checks after the trip, with at least its payload received, and only then |
| Packet.HeaderLayout | components/net/proto/ProtocolTypes.h:112-121 | which of the 16 bytes is which field |
| Packet.PopulatedFields | components/net/proto/PacketHelper.h:13-34 | every field of a populated header; no checksum unless asked for and there is a payload |
| Packet.HeaderAccepted | components/net/proto/PacketHelper.h:39-53 | accepted exactly with "EP", version 1 and every announced byte received; which error otherwise |
| Packet.PayloadChecked | components/net/proto/PacketHelper.h:58-63 | an empty payload passes any header; damage within two bytes of one that passed a non-zero checksum does not pass |
| Packet.DamagedPayloadNoticed | components/net/proto/PacketHelper.h:58-63 | damage within two payload bytes is noticed exactly when a checksum was asked for and is not zero |
| Packet.UncheckedPayload | components/net/proto/PacketHelper.h:58-63 | payloads of every length from two bytes on for which anything of that length is accepted |
| CommandStream.DispatchedExactly | components/net/services/CommandService.cpp:181-214 | on one connection a packet is dispatched exactly when every packet in front of it is OTA data |
| CommandStream.DataTrainArrives | components/net/services/CommandService.cpp:181-214 | OTA data packets arrive as sent and keep the connection open |
| CommandStream.CommandEndsConversation | components/net/services/CommandService.cpp:205-212 | any other command is served and closes the connection; nothing behind it is dispatched |
| CommandStream.DispatchedWasReceived | components/net/services/CommandService.cpp:181-214 | the dispatched packets, sent again, are a prefix of the received bytes |
| CommandStream.CutShort | components/net/services/CommandService.cpp:181-214 | a stream cut anywhere dispatches a prefix of what the whole one does |
| CommandService.Reader.ReadExact | components/net/services/CommandService.cpp:133-155 | exactly the next bytes of the flat stream, in place and nothing else written; fails exactly when too few are left |
| CommandService.Reader.Close | components/net/services/CommandService.cpp:127-131 | after the destructor every received buffer has been deleted exactly once |
| CommandService.HandleClient | components/net/services/CommandService.cpp:172-215 | the loop dispatches the parse of the concatenated chunks; no buffer leaks or is deleted twice |
| CommandService.Serve | components/net/services/CommandService.cpp:172-215 | the same for a whole connection: what is dispatched is a function of the bytes, not of the chunks |
| CommandService.RecutKeepsDispatch | components/net/services/CommandService.cpp:133-155 | cutting any chunk anywhere, empty pieces included, changes nothing |
| Channels.TelemetryChannel.ProduceSamples | components/net/ITelemetryChannel.h:138-147 | the bytes written in place and the new counter, for counter, temperature and stress channels |
| Channels.CounterWords | components/net/ITelemetryChannel.h:138-147 | read back, a counter batch is consecutive values modulo 2^32 |
| Channels.TelemetryChannel.SetEnabled | components/net/ITelemetryChannel.h:134-136 | the flag and nothing else |
| Channels.TelemetryChannel.SetSampleRateHz | components/net/ITelemetryChannel.h:103-108 | zero is ignored; counter and temperature fall back to one sample per packet |
| Channels.TelemetryChannel.SetBatchCount | components/net/ITelemetryChannel.h:114-116 | out-of-range batches become one, except on stress channels |
| Telemetry.FrameBound | components/net/services/TelemetryService.cpp:206-222 | for every width and batch the frame fits 1472 bytes, and one more sample would not fit or was not asked for |
| Telemetry.FrameReadBack | components/net/services/TelemetryService.cpp:224-256 | a receiver finds an acceptable header, its own length, number and sample count, and the samples |
| Telemetry.FrameNamesItsChannel | components/net/services/TelemetryService.cpp:233-241 | a frame's stream header carries its channel's tag and the tick it was built in |
| TelemetryFrames.DatagramHeader | components/net/services/TelemetryService.cpp:247-256 | the sixteen bytes of the packet header and the length of the datagram |
| TelemetryFrames.DatagramDescribesChannel | components/net/services/TelemetryService.cpp:239-245 | the twenty bytes of the stream header: time, tag, rate, samples, channels, sample type |
| TelemetryFrames.SamplesOfBatch | components/net/ITelemetryChannel.h:138-318 | every sample of a batch: counter values, the temperature or -999, or the stress pattern |
| TelemetryFrames.BatchesJoin | components/net/ITelemetryChannel.h:138-318 | a batch goes on where the one before it ended |
| TelemetryFrames.StreamUnbroken | components/net/ITelemetryChannel.h:138-318 | over any run the samples sent for a counter or stress channel are one batch of the stream it began with |
| TelemetryFrames.StressStreamUnbroken | components/net/ITelemetryChannel.h:306-318 | so a receiver of a stress channel's tag sees the pattern go on through every stop, start and change of settings |
| Telemetry.FrameMatchesInterval | components/net/services/TelemetryService.cpp:183-222 | a frame carries the samples its interval stands for exactly when the batch is at most 100 and fits the datagram |
| Telemetry.IntervalIsPeriod | components/net/services/TelemetryService.cpp:183-194 | the interval is the time the batch stands for at the rate, rounded down, and at least one tick |
| TelemetryLaws.RunNumbered | components/net/services/TelemetryService.cpp:244-252 | all frames of any run of registrations, starts, stops and passes are numbered consecutively |
| TelemetryLaws.CounterUnbroken | components/net/ITelemetryChannel.h:138-147 | the samples of all frames built for a counter slot in such a run are consecutive integers, no gap or repeat between frames |
| TelemetryReceiver.TagPicksChannel | components/net/services/TelemetryService.cpp:34-61 | the datagrams of a run with a channel's tag are exactly those built for it, in order |
| TelemetryReceiver.CounterStreamUnbroken | components/net/ITelemetryChannel.h:138-147 | so the samples in all datagrams with the counter's tag are consecutive |
| TelemetryReceiver.SlotFollowsSchedule | components/net/services/TelemetryService.cpp:165-241 | an enabled channel left alone sends in the passes of its schedule while others are registered, started and stopped at will, each frame stamped with the tick it was built in |
| TelemetryReceiver.ChannelOnSchedule | components/net/services/TelemetryService.cpp:165-241 | sends are one interval to one interval plus one pass apart, across rollover, none missing at the end; the stamps under the channel's tag trail them by at most the build delay, and so do their distances |
| TelemetryReceiver.StampsAreSendTimes | components/net/services/TelemetryService.cpp:175-234 | stamps equal send times exactly when every frame sent is built before the tick moves on |
| TelemetryReceiver.StampsCloserThanInterval | components/net/services/TelemetryService.cpp:175-234 | passes and build times at which two stamps are one tick apart where the interval is two |
| TelemetryLaws.RunKeepsWellFormed | components/net/services/TelemetryService.cpp:34-139 | at most eight channels with different tags, and no enabled channel without streaming |
| TelemetryLaws.StartStopOne | components/net/services/TelemetryService.cpp:72-139 | starting or stopping one stream touches no other; streaming stays on exactly while another is enabled |
| TelemetryLaws.StartEnablesExactly | components/net/services/TelemetryService.cpp:72-112 | when a start leaves a channel enabled, and that it always claims to stream |
| TelemetrySettings.StartLeaves | components/net/services/TelemetryService.cpp:72-112 | rate, batch and flag of every channel after a start, by kind, and what it leaves alone |
| TelemetrySettings.StopLeaves | components/net/services/TelemetryService.cpp:114-139 | the same for a stop, and when streaming goes on |
| TelemetrySettings.RegisterLeaves | components/net/services/TelemetryService.cpp:34-61 | in exactly with fewer than eight channels and a new tag, the period starting then |
| TelemetrySettings.SettingsStored | components/net/ITelemetryChannel.h:103-116 | what each setter stores for each kind of channel |
| TelemetrySettings.IdleRound | components/net/services/TelemetryService.cpp:166-173 | without streaming, network or channels a round sends nothing and restarts every period |
| TelemetrySettings.SlotInRound | components/net/services/TelemetryService.cpp:175-200 | otherwise a channel sends exactly when it is enabled, its period has passed and its samples fit |
| TelemetrySettings.StartedOnSchedule | components/net/services/TelemetryService.cpp:72-203 | after a start, the spacing of the channel's datagrams in terms of the rate and batch given |
| TelemetryLaws.WrapSafe | components/net/services/TelemetryService.cpp:175-203 | the 32-bit comparison sends at the same passes as one on unbounded time |
| TelemetryLaws.PassDecides | components/net/services/TelemetryService.cpp:196-199 | for one pass any time later, exactly when the two comparisons agree |
| TelemetryLaws.WrapSafeIsTight | components/net/services/TelemetryService.cpp:175-203 | with passes one tick further apart than WrapSafe allows a frame can be lost |
| TelemetryLaws.ScheduleHolds | components/net/services/TelemetryService.cpp:175-203 | the schedule of one slot: one interval to one interval plus one pass apart, across rollover, none missing at the end |
| TelemetryLaws.StallMissed | components/net/services/TelemetryService.cpp:196-199 | a frame that is due is missed exactly when a stall of at least a counter period shows less than an interval |
| TelemetryLaws.PassActsOnSlot | components/net/services/TelemetryService.cpp:177-200 | each slot of a pass follows that schedule independently of the others |
| TelemetryService.BuildFrame | components/net/services/TelemetryService.cpp:206-257 | the datagram assembled in the shared buffer is the frame, stamped with the tick read while building, and the channel has moved on |
| TelemetryService.TelemetryService.RegisterChannel | components/net/services/TelemetryService.cpp:34-61 | appended exactly when there is room and the tag is new |
| TelemetryService.TelemetryService.FindChannel | components/net/services/TelemetryService.cpp:63-70 | the channel with the tag, or none has it |
| TelemetryService.TelemetryService.StartStreaming | components/net/services/TelemetryService.cpp:72-112 | all slots and the flag after a start |
| TelemetryService.TelemetryService.StopStreaming | components/net/services/TelemetryService.cpp:114-139 | all slots and the flag after a stop |
| TelemetryService.TelemetryService.RunPass | components/net/services/TelemetryService.cpp:165-203 | all slots, the sequence number and the frames of one round of the scheduler, due by the tick read at its start, each stamped with its own |

## Left out

- DwtTimeSource.Sample: starts from an initialised driver; interrupts between the register read and the update are excluded, as the source's critical section does.
- OtaUpdater.RunOta: calls the handlers directly; the packets between are in OtaWire.OverWireIsConversation, whose host opens a connection for each phase where the script keeps one. The host's own version checks are not modelled.
- OtaWire.OverWireIsConversation: time-outs between packets and the reset after the end request are left out.
- ClockAccuracy.BoundedClockError: over reals, not IEEE doubles; gains that are not numbers, rounding of products and 64-bit overflow of signed sums are not modelled, and time stamps stay below 2^60 microseconds.
- OtaService.Service.HandleData: not defined for the requests whose copy leaves the staging buffer (OtaSessionLaws.OverrunLeavesBuffer); the invariants over call sequences cover every sequence without one.
- OtaConnection.ServeConnection: not defined for those either, nor for a data packet that gets past the bounds check while it announces a chunk that runs past the end of the 2048-byte payload buffer. The server is taken to have an OTA service and a command line, as the firmware sets it up; resets it orders end the model.
- ExtMemFlash.Stm32ExtMemFlash.Write: not defined for a write whose wrapped end gets past the bounds check, which programs addresses behind the chip.
- Bootloader.CheckAndInstallOta: an accepted block of allowed size that names RAM has to name the staging buffer and fit it, as the blocks the service writes do; other RAM addresses and sizes are not modelled. A block that names no RAM is covered only for a non-zero image checksum; with a zero checksum the source would go on to read that address.
- Telemetry.IntervalTicks: one tick is one millisecond, as configured; a tick-conversion macro that wraps for batches over 4294 on slow channels is not modelled (the kernel sources are not part of this model).
- Convergence of the proportional-integral loop: there is no anti-windup, and the code promises no steady-state error.
- The time source is constant within one handler call; the order of its readings inside one call is not modelled.
- The host and the firmware disagree on where the image header lies (scripts/ota_updater.py:65 says 0x200, components/sys/Version.h:112 says 0x400); the model follows the firmware.
- Data caches, barriers, memory maps and the jump to the application; staging buffer, control block and boot record are assumed to survive a soft reset and not to overlap.
- XSPI register sequences and delays: sector erase and page program are single operations on cells.
- lwIP, FreeRTOS and the vendor HAL; received data is a list of chunks ending in an error, ticks and cycles are inputs.
- What the command handlers do with a dispatched packet (replies, configuration, command lines), except to the OTA session and the streams.
- A scheduler pass is one step: a start or stop that another task makes in the middle of a pass counts as before or after it.
- Failing network-buffer allocation in telemetry and its packet and sample statistics; a frame built is a frame sent.
- The channel interface is one class with a kind instead of three classes behind virtual calls; the counter reset of the channels is not modelled.
- Discovery, heartbeat, network monitoring, the console, feature flags and version formatting, and the Python dashboards: input and output, or easy members.

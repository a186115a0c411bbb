# Serial IAP: a verified model of the A/B firmware update protocol

This project models the serial in-application-programming protocol of an ESP32-S3 firmware and proves what the
protocol promises. The protocol exists several times in the repository: as C in the second-stage bootloader and in the
running application, and as Python on the host. All of them share one frame format. The model covers

- the **frame format**: both encoders, the Python decoder, and the two streaming receivers (a C parser fed byte by byte
  into a fixed buffer, and a Python decoder fed in chunks into a growing one);
- the **checksums**: CRC-32 of section 3.2.9 of IEEE 802.3 and CRC-16/CCITT-FALSE, as shift registers;
- the **bootloader session**: HELLO, INFO, BEGIN, DATA, END, ABORT and BOOT over NOR flash, with the one-entry reply
  cache, the erase and padded-write arithmetic, the verify chain and the otadata commit;
- the **host**: the retrying transport, the stateful client and the transfer loop;
- **both ends together**, over two lossy FIFO channels with duplication, device resets and flash faults;
- the **application service**, which speaks the same protocol over the ESP-IDF OTA calls, alone and with the host.

## How it is organised

Pure functions state what one operation does; classes with mutable fields, buffers and arrays do it the way the code
does, and each of their methods is proved equal to the function. Properties of runs are proved about the functions.

| file | content |
|---|---|
| `Bytes`, `Modular` | integers of the wire format, little-endian fields, residues modulo the slot count |
| `ShiftRegister`, `Crc`, `CrcValues` | checksums as linear shift registers, the C loops, burst detection; check values and residues |
| `Frames`, `Scanner` | encoding and decoding; the reference meaning of a byte stream |
| `FrameBuffers`, `Parser`, `StreamDecoder` | the C encoder and parser on arrays, the Python decoder, their agreement |
| `SelfTest`, `Numbers` | the wire byte by byte, the self-test of the protocol core, the documented numbers |
| `Flash`, `OtaData` | NOR flash; the boot selection and its crash-atomic commit |
| `Device` | one frame of the bootloader session as a function of state, frame and faults |
| `Answers`, `AppAnswers` | what bootloader and application answer to every frame, read off the wire, each status by its cause |
| `Bootloader`, `BootSession` | the same on mutable state, and `iap_bootloader_run` with its receive loop |
| `ReplyCache`, `UpdateHistory`, `UpdateSafety` | exactly-once processing, flash contents, write confinement, commit safety over runs |
| `HostProtocol`, `ImagePlans` | the plan of one update, and how reading an image makes one |
| `HostTransport`, `ClientRuns`, `HostClient` | the Python transport; every way a call of the client can end, as values; the client |
| `Messages` | what two lossy channels can carry while a plan is carried out |
| `InStep`, `EndToEnd`, `FailedCalls`, `Completion` | host and bootloader in step, the end-to-end theorem, what a call that raised means, completion without faults |
| `AppService`, `AppDiscipline`, `IapService`, `ServiceTask` | the application service, its OTA handle discipline and reply cache, its loops |
| `AppInStep`, `AppEndToEnd`, `AppCompletion` | the end-to-end theorems for the host and the application |
| `Agreement` | where application and bootloader answer alike, exactly |

## Assumptions

- Application slots and the two otadata sectors are sector-aligned, disjoint and inside a flash of at most 4 GiB; there
  are at most 16 slots.
- The ESP-IDF selection rule: of the otadata entries whose checksum holds, whose sequence is not all ones and whose
  state is neither INVALID nor ABORTED, the one with the greatest sequence is active (the first on a tie), and it
  selects slot `(sequence - 1) mod slots`. Without an active entry the factory application boots.
- Erasing sets whole sectors to ones; programming is bitwise AND. An erase or write that fails, or is cut by a power
  loss, may leave anything in the cells it was working on. Only where a theorem says so: a torn otadata entry does not
  read as valid; a failed image write leaves the flash as it was (flash-content invariant) or at least clears no bit
  that the data keeps (end-to-end theorem).
- SHA-256, the image verifier, the otadata entry checksum and the reply texts are arbitrary functions. zlib's CRC-32 is
  taken to be the CRC-32 of the C loop.
- Each OTA call of the application has an arbitrary outcome; `esp_ota_begin` gives out handles that were not used before
  and erases the image range in whole sectors; `esp_ota_write` programs behind the last write, and a failed one may leave
  anything where it was working. Only where a theorem says so: a failed write leaves the flash as it was, or clears no
  bit that the data keep, or no other image has the announced hash.
- A reply of the application is reported as sent, or reported as failed although all of it went out, or not sent.
- Time is a number of polls, windows or clock readings supplied by the environment.

## What the proofs found

- **The erased marker can be committed.** With the active sequence at the top of the 32-bit range the commit writes
  `0xFFFFFFFF`, reports success and selects nothing. `OtaData.SuccessfulCommitSelects` gives the exact condition on the
  active sequence, the target and the slot count, and `OtaData.MarkerIsReachable` a flash image on which it happens.
- **Failure does not always mean an unchanged boot selection**, as `README.md` of the repository promises. If only the
  reply to END is lost, the host raises although the device has committed (`Completion.LostEndReplyHidesSuccess`).
  `FailedCalls.FailedCall` gives the exact condition: the selection is unchanged if and only if no END was accepted,
  and one can have been accepted only while the host waited for the reply to END.
- **Success always means committed**, on both sides: `EndToEnd.SuccessMeansCommitted` for the bootloader and
  `AppEndToEnd.AppSuccessMeansCommitted` for the application, in spite of the next finding.
- **The application can lose a reply for good.** It moves the key of its reply cache with every accepted request but the
  cached bytes only when the reply could be sent; after a failed send the older reply is repeated, which no host accepts.
  The protocol description (`docs/protocol.md`, section 4) promises the cached reply. `CacheCoherentUnlessReplyLost`
  gives the exact condition.
- **A retried write of the application can store something else.** The bits that a failed write cleared stay clear, and
  the retransmitted DATA is accepted all the same (`AppDiscipline.RetriedWriteCanDiffer`); only the hash at END catches
  it, which is why `AppEndToEnd.AppSuccessMeansCommitted` speaks of the hash first.
- **The application does not check the image length** that `docs/protocol.md`, section 8, step 4 promises
  (`Agreement.DueEndExactly`).
- **The application does not enforce the 4-byte rule** of `docs/protocol.md`, section 7
  (`Agreement.UnalignedDataDiverges`). `Agreement.StepAgrees` says exactly on which requests the two part.
- **A valid header inside noise can capture the frame behind it** (`Scanner.HeaderCapturesFrame`);
  `Scanner.RecoveryExactly` says exactly when.

## Model

| member | source | states |
|---|---|---|
| Bytes.Le16Inverse | components/iap_protocol/iap_protocol.c:20-24 | A two-byte field reads as x exactly when it holds the little-endian bytes of x. |
| Bytes.Le32Inverse | components/iap_protocol/iap_protocol.c:26-32 | The same for four-byte fields. |
| ShiftRegister.BurstDetected | components/iap_protocol/iap_protocol.c:51-63 | For every lawful shift register and messages of any length: two messages that differ only inside a window no longer than the register leave different remainders. |
| Crc.ComputeCrc32 | components/iap_protocol/iap_protocol.c:51-63 | The byte loop with the all-ones mask computes the bit-serial CRC-32 of exactly the given slice. |
| Crc.ComputeCrc16 | components/iap_protocol/iap_protocol.c:34-49 | The byte loop computes the bit-serial CRC-16/CCITT-FALSE of exactly the given slice. |
| Crc.Widen32Promotes | components/iap_protocol/iap_protocol.c:55-56 | The bits that a byte feeds into the CRC-32 register are the C promotion of the byte. |
| Crc.Widen16Promotes | components/iap_protocol/iap_protocol.c:38-39 | The bits that a byte feeds into the CRC-16 register are `(uint16_t)byte << 8`. |
| Crc.Crc32DetectsBitBurst | components/iap_protocol/iap_protocol.c:51-63 | Any difference confined to 32 consecutive bits, at any bit position and any length, changes CRC-32. |
| Crc.Crc32DetectsByteBurst | components/iap_protocol/iap_protocol.c:51-63 | Any difference confined to four consecutive bytes changes CRC-32. |
| Crc.Crc16DetectsBitBurst | components/iap_protocol/iap_protocol.c:34-49 | Any difference confined to 16 consecutive bits changes CRC-16. |
| Crc.Crc16DetectsByteBurst | components/iap_protocol/iap_protocol.c:34-49 | Any difference confined to two consecutive bytes changes CRC-16. |
| CrcValues.EmptyValues | components/iap_protocol/iap_protocol.c:34-63 | The empty input has CRC-32 zero and CRC-16 0xFFFF. |
| CrcValues.CheckValue16 | components/iap_protocol/iap_protocol.c:201-215 | CRC-16/CCITT-FALSE of "123456789" is 0x29B1. |
| CrcValues.CheckValue32 | components/iap_protocol/iap_protocol.c:51-63 | CRC-32 of "123456789" is 0xCBF43926. |
| CrcValues.Crc32Residue | components/iap_protocol/iap_protocol.c:51-63 | Data followed by their own little-endian CRC-32 have CRC-32 0x2144DF1C, whatever they are. |
| CrcValues.Crc16Residue | components/iap_protocol/iap_protocol.c:34-49 | Data followed by their own CRC-16, high byte first, have CRC-16 zero. |
| Frames.EncodedLayout | host/protocol.py:112-134 | Every field of an encoded frame is read back at its offset, and both checksums hold. |
| Frames.DecodedLayout | host/protocol.py:137-182 | Whatever decodes is within the length bound and re-encodes to the same bytes. |
| Frames.CodecInverse | host/protocol.py:112-182 | Bytes decode to a frame if and only if the frame is valid and the bytes are its encoding. |
| Frames.HeaderBurstRejected | components/iap_protocol/iap_protocol.c:128-136 | A header damaged inside two consecutive covered bytes is never accepted. |
| Frames.PayloadBurstRejected | host/protocol.py:160-175 | A frame whose payload is damaged inside four consecutive bytes decodes to a payload checksum error. |
| Frames.DecodeErrorsExactly | host/protocol.py:137-182 | Each rejection of a frame by its cause, the first check that fails. |
| SelfTest.WireOrder | host/protocol.py:112-134 | The place of every byte of a frame: fields and both checksums lowest byte first. |
| SelfTest.GoldenHello | components/iap_protocol/iap_protocol.c:203-206 | The first HELLO, byte for byte. |
| SelfTest.RunSelfTest | components/iap_protocol/iap_protocol.c:200-237 | The self-test of the protocol core always succeeds: check value, empty checksum, golden HELLO encoded and parsed. |
| Scanner.PendingIsFixed | components/iap_protocol/iap_protocol.c:93-162 | The buffers a receiver can hold are exactly the streams that scan to themselves: A5, then 5A, then a valid header and fewer bytes than it announces. |
| Scanner.RestIsPending | host/protocol.py:219-243 | What stays buffered is always such a buffer and at most 1037 bytes long. |
| Scanner.ScanAppend | host/protocol.py:201-252 | Scanning is incremental: only the pending suffix of a stream matters for what follows. |
| Scanner.ScanEncoded | host/protocol.py:241-250 | A frame at the front of a stream is emitted first, and the rest of the stream is scanned as if it stood alone. |
| Scanner.RecoveryFromNoise | components/iap_protocol/iap_protocol.c:72-136 | After noise in which no position starts a candidate with a valid header, also not one reaching into the frame, exactly the frames behind it come out. |
| Scanner.RecoveryExactly | components/iap_protocol/iap_protocol.c:72-151 | Exactly when a frame behind any noise is recovered: the scan comes to look at its first byte if and only if no candidate with a valid header that it looks at inside the noise reaches beyond the noise; then the frame comes out next and the rest is scanned alone. |
| Scanner.CandidateSwallows | components/iap_protocol/iap_protocol.c:138-162 | Otherwise that candidate holds everything back until it is complete, and then the scan goes on behind it. |
| Scanner.HeaderCapturesFrame | components/iap_protocol/iap_protocol.c:138-143 | A family in which recovery fails: a header that announces at least the bytes of the next frame swallows it. |
| Scanner.PayloadBurstLosesOneFrame | components/iap_protocol/iap_protocol.c:145-151 | A payload burst loses that one frame; the stream behind it is scanned as if the frame had not been sent. |
| FrameBuffers.EncodeInto | components/iap_protocol/iap_protocol.c:164-198 | The C encoder succeeds exactly when payload and capacity allow it, then writes exactly the bytes of the Python encoder and nothing beyond them; otherwise the output is untouched. |
| Parser.PushScan | components/iap_protocol/iap_protocol.c:93-162 | What one more byte does to any pending buffer, case by case; a complete header can turn out bad only at length ten. |
| Parser.Parser.KeepPossibleSof | components/iap_protocol/iap_protocol.c:72-91 | The in-place shift keeps exactly the pending suffix of the bytes after the dropped one, and never needs a rescan. |
| Parser.Parser.Push | components/iap_protocol/iap_protocol.c:93-162 | One byte advances buffer and frame exactly as the reference scan does; header errors occur only at length ten, and the overflow result is unreachable. |
| Parser.Parser.PushAll | main/iap_service.c:499-507 | Pushing a whole input gives the frames and the rest of the reference scan. |
| StreamDecoder.StreamDecoder.Feed | host/protocol.py:201-252 | A chunk of any length advances the decoder exactly as the reference scan does, and less than a maximal frame stays buffered. |
| StreamDecoder.DecodersAgree | host/protocol.py:201-252 | For every stream and every way of cutting it, both receivers emit the same frames and hold the same bytes. |
| Flash.ProgramErased | bootloader_components/main/iap_bootloader.c:315-317 | Programming erased cells stores the data exactly. |
| Flash.AndIsBitwise | bootloader_components/main/iap_bootloader.c:315-317 | Programming keeps exactly the bits that are set both in the cell and in the data. |
| OtaData.ChooseSequence | bootloader_components/main/iap_bootloader.c:341-350 | The guarded loop ends, and it succeeds exactly when some 32-bit sequence not below the active one selects the target; then it returns the least. |
| OtaData.NextSequenceLeast | bootloader_components/main/iap_bootloader.c:341-350 | The chosen sequence is the least one that selects the target and is not below the active one. |
| OtaData.NextSequenceSelects | bootloader_components/main/iap_bootloader.c:341-350 | For a target that does not boot now it is strictly above the active sequence, selects the target, and is not the erased marker unless the active one is within one slot count of the top. |
| OtaData.NextSequenceIsMarker | bootloader_components/main/iap_bootloader.c:341-350 | The chosen sequence is the erased marker if and only if the active one is within one slot count of the top and the marker selects the target. |
| OtaData.NextSequenceFits | bootloader_components/main/iap_bootloader.c:341-350 | The chosen sequence fits 32 bits if and only if some 32-bit sequence not below the active one selects the target. |
| OtaData.MarkerIsLost | bootloader_components/main/iap_bootloader.c:329-373 | On every two-slot flash whose active sequence is 2^32 - 2 a healthy commit of the chosen target reports success and selects nothing new. |
| OtaData.MarkerIsReachable | bootloader_components/main/iap_bootloader.c:341-350 | A flash image on which a healthy commit of the chosen target reports success while the old slot stays selected. |
| OtaData.CommitSucceedsExactly | bootloader_components/main/iap_bootloader.c:329-376 | A commit succeeds exactly when reading, erasing and writing do and some 32-bit sequence not below the active one selects the target; a commit that fails before the erase leaves the flash as it is. |
| OtaData.CommitTouchesOneSector | bootloader_components/main/iap_bootloader.c:362-371 | However the commit ends, only the sector of the entry that is not active can have changed. |
| OtaData.CommittedSector | bootloader_components/main/iap_bootloader.c:336-371 | What a successful commit leaves in the sector of the other entry: the sequence, a blank label, the undefined state, a checksum that holds, and otherwise ones. |
| OtaData.ActiveIsGreatest | bootloader_components/main/iap_bootloader.c:338 | The active entry is a valid one with the greatest sequence, the first on a tie. |
| OtaData.CutBeforeWriteIsBenign | bootloader_components/main/iap_bootloader.c:364-371 | A power cut between erase and write needs no assumption about torn entries. |
| OtaData.FailedCommitKeepsActive | bootloader_components/main/iap_bootloader.c:329-373 | A commit that fails or is cut anywhere leaves active entry, sequence and selection as they were, also when none was active. |
| OtaData.SuccessfulCommitSelects | bootloader_components/main/iap_bootloader.c:329-373 | A commit that reports success selects the target if and only if not both the active sequence is within one slot count of 2^32 - 1 and 2^32 - 1 itself selects the target; otherwise the old selection and sequence stay. |
| OtaData.CommitIsAtomic | bootloader_components/main/iap_bootloader.c:329-373 | Over all endings the selection is exactly the old one or exactly the target, and which of the two, decided by the result, the active sequence and the target. |
| OtaData.UpdatesAlternate | bootloader_components/main/iap_bootloader.c:185-373 | With two slots, sessions that each choose a target and commit it count the active sequence up by one, and each selects the slot that did not boot before it; from any flash, blank otadata included, until the sequence reaches the top. |
| OtaData.ChooseTarget | bootloader_components/main/iap_bootloader.c:185-204 | The target is a present slot and never the one that boots. |
| OtaData.TargetTable | docs/bootloader_interface.md:38-44 | The factory application updates slot 0, slot 0 updates slot 1, and every other slot updates slot 0. |
| Device.ExecuteSound | bootloader_components/main/iap_bootloader.c:478-527 | Every handler keeps the session invariant and never touches sequence, cache or target; only a success can end the session. |
| Device.ProcessSound | bootloader_components/main/iap_bootloader.c:442-540 | Every frame under every fault keeps the invariant: sizes bounded, offset within the image and word-aligned unless final, erased range inside the slot. |
| Device.ProcessEffect | bootloader_components/main/iap_bootloader.c:442-540 | Whatever the frame, the update part of the state changes only as its command says: ABORT and BOOT with an empty payload close the update, INFO, unknown commands and rejected ones leave it alone, the others act as their handler; only BOOT leaves the session and only an accepted END resets. |
| Device.ActionExactly | bootloader_components/main/iap_bootloader.c:478-539 | The session is left if and only if a BOOT was executed with success, and the device resets if and only if an END was. |
| Answers.GateExactly | bootloader_components/main/iap_bootloader.c:442-476 | A repetition brings back the cached bytes; a wrong version, a late HELLO and a request out of turn are turned away in this order with their status and text and change nothing; exactly the rest is executed. Statuses and texts are read off the decoded reply. |
| Answers.OpeningExactly | bootloader_components/main/iap_bootloader.c:561-566 | On a fresh device a frame opens a session if and only if it is a HELLO that is executed with success. |
| Answers.HelloAnswers | bootloader_components/main/iap_bootloader.c:462-482 | An executed HELLO is accepted, clears everything of an open update and restarts the sequence. |
| Answers.SimpleAnswers | bootloader_components/main/iap_bootloader.c:478-527 | INFO names the target; ABORT and BOOT close the update unless they carry a payload; anything else is an unsupported command. |
| Answers.BeginAnswers | bootloader_components/main/iap_bootloader.c:206-276 | Every BEGIN by its cause: encrypted flash, no second slot, a malformed or too large announcement, a rounded size that wraps or leaves the slot or a block that cannot be erased (the update is then closed), or the opened update with its size and digest. |
| Answers.DataAnswers | bootloader_components/main/iap_bootloader.c:278-327 | Every DATA by its cause, in the order of the checks; only an accepted one moves the offset, by exactly its bytes, and only a written one touches the flash. |
| Answers.EndAnswers | bootloader_components/main/iap_bootloader.c:375-430 | Every END by the first check of the verify chain that fails: payload, update, length, readable flash, hash (ERR_HASH), image and its length (ERR_IMAGE), otadata (ERR_FLASH); every rejected one leaves the update open. |
| Answers.RepliesAreMarked | bootloader_components/main/iap_bootloader.c:144-147 | A reply has the top bit of its command set, and it answers exactly the requests with that command and sequence. |
| Bootloader.Bootloader.ChooseSlot | bootloader_components/main/iap_bootloader.c:185-204 | The fields after the call are those of the chosen target, or untouched. |
| Bootloader.Bootloader.AbandonUpdate | bootloader_components/main/iap_bootloader.c:177-183 | Closes the update and clears size, offset and digest, and nothing else. |
| Bootloader.Bootloader.EraseTargetRange | bootloader_components/main/iap_bootloader.c:206-233 | The block loop erases exactly the rounded range, or stops inside the first failing block; sizes that would wrap or leave the slot change nothing; no 32-bit address or rounding wraps. |
| Bootloader.Bootloader.HandleBegin | bootloader_components/main/iap_bootloader.c:235-276 | State, status and text of the BEGIN function, in place, for every frame and fault. |
| Bootloader.Bootloader.HandleData | bootloader_components/main/iap_bootloader.c:278-327 | State, status and text of the DATA function, in place; the padded data fit the write buffer and the write is word-aligned. |
| Bootloader.Bootloader.FillWriteBuffer | bootloader_components/main/iap_bootloader.c:309-313 | The aligned buffer holds the data padded with ones up to the next word, and never overflows. |
| Bootloader.Bootloader.CommitTarget | bootloader_components/main/iap_bootloader.c:329-373 | Result and flash of the commit function for every ending. |
| Bootloader.Bootloader.HandleEnd | bootloader_components/main/iap_bootloader.c:375-430 | State, status and text of the END function, in place. |
| Bootloader.Bootloader.Respond | bootloader_components/main/iap_bootloader.c:132-175 | Sends exactly the encoded reply, and caches those bytes if and only if asked to. |
| Bootloader.Bootloader.RequestMatchesLast | bootloader_components/main/iap_bootloader.c:432-440 | Decides exactly whether the frame repeats the cached request. |
| Bootloader.Bootloader.Dispatch | bootloader_components/main/iap_bootloader.c:478-527 | The command switch leaves exactly the state, status, text and action of the session function. |
| Bootloader.Bootloader.ProcessFrame | bootloader_components/main/iap_bootloader.c:442-540 | Exactly the state, the bytes sent and the action of the session function, for every frame and fault. |
| BootSession.Session.ReceiveFrame | bootloader_components/main/iap_bootloader.c:97-119 | Polls at most the given time and stops at the first frame; without one the time or the input is used up; the pending rest is kept for the next call. |
| BootSession.Session.Enter | bootloader_components/main/iap_bootloader.c:554-568 | The session opens exactly when the first frame of the bytes polled in the entry window is the HELLO; otherwise nothing was processed. |
| BootSession.Session.Converse | bootloader_components/main/iap_bootloader.c:568-592 | The session loop ends for every finite input, and says why: at the first BOOT, at the first reset, or after the session timeout without a frame since the last one; every frame of the polled bytes was processed at its time, with its fault, in order. |
| BootSession.Session.RunSession | bootloader_components/main/iap_bootloader.c:542-595 | For every UART input and fault pattern: there is a session exactly when the first frame of the entry window is the HELLO; its events are the frames of the polled bytes, each within its window; it ends by BOOT if and only if its last frame is an executed BOOT, by a restart if and only if it is an executed END that passed the verify chain, else at the timeout, and no earlier frame is either; without a restart it returns with the boot selection of its entry, and only the timeout abandons the update. |
| BootSession.InactiveIsCleared | bootloader_components/main/iap_bootloader.c:177-183 | Over every session without a reset, size, offset and digest are zero whenever no update is open, whatever closed it. |
| BootSession.ResetIsJustified | bootloader_components/main/iap_bootloader.c:582-588 | A restart is preceded by the whole verify chain, judged against the frames of that session. |
| BootSession.ReturnKeepsSelection | bootloader_components/main/iap_bootloader.c:562-595 | Any session without a reset keeps the selection, a failed otadata write included. |
| ReplyCache.ReplyDecodes | bootloader_components/main/iap_bootloader.c:145-163 | Every reply decodes to the fields that were put in; it reads as an acceptance exactly when the status is OK. |
| ReplyCache.CoherentSession | bootloader_components/main/iap_bootloader.c:530-538 | In every state of every session the cached reply is the OK reply to the cached request and announces the expected sequence. |
| ReplyCache.ExactlyOnce | bootloader_components/main/iap_bootloader.c:442-453 | An accepted request delivered any number of times more changes neither session nor flash and returns identical bytes. |
| ReplyCache.OffsetIsNeverConfused | bootloader_components/main/iap_bootloader.c:432-440 | In every later state that still caches the accepted request, a request that differs from it inside four consecutive payload bytes, such as the offset, is not answered from the cache. |
| UpdateHistory.StoredRun | bootloader_components/main/iap_bootloader.c:206-327 | Over every run, while an update is open the target starts with exactly the DATA payloads accepted since the last BEGIN, everything behind them in the erased range is blank, the padding of the last word included, and the offset is word-aligned unless final. |
| UpdateHistory.AcceptedDataKeepsBlank | bootloader_components/main/iap_bootloader.c:305-317 | From any state: behind the offset that an accepted DATA leaves, every blank cell is still blank. |
| UpdateSafety.WriteConfined | bootloader_components/main/iap_bootloader.c:206-327 | One frame changes no cell outside the erased range of its update or the otadata entry that is not active. |
| UpdateSafety.AcceptedBeginErases | bootloader_components/main/iap_bootloader.c:206-276 | An accepted BEGIN blanks exactly the cells whose sector holds a byte of the announced image, and no other cell of the flash. |
| UpdateSafety.CommitSafety | bootloader_components/main/iap_bootloader.c:375-430 | Over every run of arbitrary frames and faults, failed writes that corrupt the target included, otadata changes only at an empty END whose image has the announced size, hash and verified length. |
| UpdateSafety.StepKeepsSelection | bootloader_components/main/iap_bootloader.c:421-426 | Unless it ends in a reset, a frame leaves the active entry alone. |
| UpdateSafety.StepCommits | bootloader_components/main/iap_bootloader.c:421-429 | An accepted END selects the target if and only if the sequence did not run into the erased marker, a condition on active sequence and target, and leaves the image alone. |
| UpdateSafety.SessionKeepsSelection | bootloader_components/main/iap_bootloader.c:562-595 | Over every session without a reset the boot selection is the one at entry. |
| UpdateSafety.SessionConfined | bootloader_components/main/iap_bootloader.c:185-373 | Over every session every changed cell lies in the chosen slot, which is not the one that boots, or in the otadata sector that is not active, as they were at entry. |
| UpdateSafety.BootSlotUntouched | bootloader_components/main/iap_bootloader.c:185-373 | Over every session, up to and including the resetting END, no cell of the slot that boots changes. |
| HostProtocol.BeginFields | host/protocol.py:255-267 | The bootloader reads back exactly the fields that the host wrote into BEGIN. |
| HostProtocol.DataFields | host/protocol.py:287-295 | The bootloader reads back exactly the offset and the data of DATA. |
| HostProtocol.ResponseFields | host/protocol.py:320-334 | The host reads back exactly the fields that the device wrote into a reply. |
| HostProtocol.PayloadErrorsExactly | host/protocol.py:255-334 | Which requests cannot be announced and which replies cannot be read, each by its cause. |
| Answers.VerdictExactly | host/transport.py:113-119 | The host ignores exactly the frames of another version, command or sequence, and accepts exactly an OK reply that announces the next sequence and, for BEGIN, DATA and END, the expected offset. |
| HostProtocol.OffsetBound | host/transport.py:218-234 | The offsets of a plan are contiguous and cut the image into its chunks. |
| HostTransport.SerialTransport.SendRequest | host/transport.py:84-130 | At most the allowed number of identical writes; every attempt but the last uses up its reads, a reply ends the last one at the very chunk that completes it, and a timeout uses up the reads of all attempts or all input; the first frame that answers the request in the whole input decides. |
| HostClient.IapClient.SuccessfulRequest | host/transport.py:248-271 | Success means an OK reply to this very request, complete within the reads of its attempts, that announces the next sequence; every error has its cause in what was written, read and decoded for it, says what is left on the line, and leaves sequence and offset alone. |
| HostClient.IapClient.Hello | host/transport.py:152-155 | HELLO goes out with sequence zero; accepted, it leaves the client at sequence one; an error has its cause on the line and leaves the client at zero. |
| HostClient.IapClient.Leave | host/transport.py:160-168 | An accepted BOOT or ABORT resets the client's offset; an error has its cause on the line and changes nothing. |
| HostClient.IapClient.SendExpecting | host/transport.py:205-246 | BEGIN, DATA and END count as accepted only if the reply announces the expected offset; an error is one of the request, or exactly another offset in a reply accepted otherwise. |
| HostClient.IapClient.Transfer | host/transport.py:218-236 | The loop terminates for every device and every image: chunk by chunk of the plan that the reads make, each accepted at the end of the one before, until all were, or one request raised for its cause, or the image ended. |
| HostClient.IapClient.FlashStream | host/transport.py:193-246 | Whatever the device answers: the requests of the plan that the image makes are written in order, each after the one before was accepted, until all were, or the next one raised for its cause, or the image ended early, with exactly those bytes on the line; without short writes it returns normally if and only if the announcement is valid, the image long enough and every request answered in time by an acceptance. |
| HostClient.IapClient.Update | host/transport.py:152-246 | The same, both directions, for the whole plan from HELLO on. |
| ClientRuns.SucceedsExactly | host/transport.py:193-271 | A call carried out as described returns normally if and only if every request it awaits is answered, within its reads, by an acceptance; unless a write was cut short or the image ended. |
| ClientRuns.ClientIsHost | host/transport.py:96-125 | On the frames that the client looked at, the host of the end-to-end protocol is exactly where the client is, and it has returned exactly when the call has. |
| ClientRuns.RaisedIsFailed | host/transport.py:96-125 | When a call raises, that host has failed at the very request that raised, or still awaits its reply and only has to give up. |
| ImagePlans.CutsExact | host/transport.py:218-226 | Reads of any lengths cut exactly the wanted bytes into chunks of 1 to 1020. |
| ImagePlans.CutsArePieces | host/transport.py:218-226 | With full-length reads these are the pieces of 1020 bytes. |
| ImagePlans.PiecesExact | host/transport.py:219-220 | Full-length reads cut the image into ceil(size / 1020) pieces that concatenate to it, all but the last full. |
| ImagePlans.FullReadsMakeAPlan | host/transport.py:218-226 | For every image of 1 to 2^32 - 1 bytes that is a valid plan with offsets 0, 1020, 2040 and so on, all but the last chunk word-sized. |
| ImagePlans.FullReadUpdateCompletes | host/transport.py:193-246 | On a conforming device without losses that update completes in exactly that many exchanges. |
| InStep.HelloSyncs | bootloader_components/main/iap_bootloader.c:462-471 | The first HELLO brings any coherent device in step, also one that still has that HELLO cached. |
| InStep.SyncStep | bootloader_components/main/iap_bootloader.c:442-540 | One request of the plan: either it is accepted and the device is one step further with its reply cached, or the device is still in step with the same request. |
| InStep.SyncEnd | bootloader_components/main/iap_bootloader.c:375-430 | The END request: a reset exactly when the host will accept the reply, and then the image is in the target and selected. |
| EndToEnd.StepKeeps | host/transport.py:96-125 | Every step of host, device or channel keeps the device in step with the request that the host awaits, or awaited when its call raised, or exactly one request ahead of it holding that reply, modulo 2^16. |
| EndToEnd.SuccessMeansCommitted | host/transport.py:193-246 | Over every interleaving of loss, duplication, retransmission, flash faults, resets and session ends: if the host's call returns, the target holds the image and is selected. |
| FailedCalls.CommittedExactlyWhenAccepted | bootloader_components/main/iap_bootloader.c:375-430 | Over every such run, whatever became of the call: the new image is stored and selected if and only if an END was accepted, and otherwise the selection is untouched. |
| FailedCalls.FailedCall | host/transport.py:193-246 | After a call that raised, the boot selection is the one at the start if and only if no END was accepted; one can have been accepted only while the call waited for the reply to END, and then the image is stored and selected. |
| Completion.CleanStep | bootloader_components/main/iap_bootloader.c:442-540 | Without faults every request of a fitting plan is accepted. |
| Completion.CleanUpdateCompletes | host/transport.py:193-246 | Without faults and losses one exchange per request completes the update. |
| Completion.BlankDeviceIsInitial | bootloader_components/main/iap_bootloader.c:185-204 | With blank otadata every device is an initial state of the end-to-end system, whatever else its flash holds. |
| Completion.SmallestUpdate | bootloader_components/main/iap_bootloader.c:542-595 | The hypotheses of the end-to-end and completion theorems can be met. |
| Completion.LostEndReplyHidesSuccess | host/transport.py:238-246 | If only the last reply is lost, the host raises while waiting for it although the device has committed. |
| Completion.UnsentEndCommitsNothing | host/transport.py:238-246 | If END never arrives, the host raises at the same point and nothing is committed. |
| AppService.AppProcessSound | main/iap_service.c:369-483 | Every frame and the timeout keep the service invariant: the offset never passes the image size, and the image fits the partition. |
| AppDiscipline.ClosedExactlyOnce | main/iap_service.c:108-122 | In every disciplined call sequence each handle is opened at most once and closed exactly once unless it is still open. |
| AppDiscipline.HandleDiscipline | main/iap_service.c:203-229 | Over every run of frames, timeouts and failing calls a handle is open exactly while receiving, at most one is open, and every other one was ended or aborted exactly once; from a tidy start no handle and no update is ever open without a session, and an idle service announces offset zero. |
| AppDiscipline.TimeoutCloses | main/iap_service.c:509-518 | A timeout of an open session aborts the handle that is open and leaves no update, handle, size or offset. |
| AppAnswers.AppGateExactly | main/iap_service.c:369-405 | A repetition brings back the cached bytes; a wrong version, a request without a session and one out of turn are turned away in this order with their status and text; exactly the rest is executed. |
| AppAnswers.AppHelloAnswers | main/iap_service.c:390-413 | The first HELLO aborts an open update, opens the session and restarts the sequence, from any state. |
| AppAnswers.AppSimpleAnswers | main/iap_service.c:411-460 | HELLO out of its first place, INFO, ABORT, BOOT and unknown commands: status, text, what is aborted, and the restart, which only an empty BOOT asks for. |
| AppAnswers.AppBeginAnswers | main/iap_service.c:185-230 | Every BEGIN by its cause; a well-formed one always closes an open update first, and an accepted one opens the next handle and blanks exactly the rounded image range. |
| AppAnswers.AppDataAnswers | main/iap_service.c:232-267 | Every DATA by its cause, in the order of the checks, with the call it makes. |
| AppAnswers.AppEndAnswers | main/iap_service.c:299-357 | Every END by the first check that fails: a due one always ends the handle, a rejected one leaves the service idle at offset zero, an accepted one sets the boot partition. |
| AppAnswers.TimeoutExactly | main/iap_service.c:509-518 | A timeout clears session, sequence, cached reply and update of an open session, and does nothing without one. |
| AppDiscipline.StoredOverRuns | main/iap_service.c:232-267 | Over every run in which a failed OTA write leaves the flash as it was: while receiving, the target starts with exactly the DATA accepted since the last BEGIN, and the rest of the image range is blank. |
| AppDiscipline.RetriedWriteCanDiffer | main/iap_service.c:255-266 | Without that assumption it fails: a retried write over a damaged cell is accepted and stores something else. |
| AppDiscipline.RemembersOverRuns | main/iap_service.c:185-267 | Over every run, whatever fails: an open update has the size and digest of the last accepted BEGIN, and its offset counts the DATA accepted since. |
| AppDiscipline.BootOnlyWhenVerified | main/iap_service.c:299-357 | Over every run the boot partition is set only by an END, right after a successful esp_ota_end, when as many bytes as announced were received and the target has the announced hash; it holds the bytes received if failed writes left the flash as it was. |
| AppDiscipline.CacheCoherentUnlessReplyLost | main/iap_service.c:176-181 | The reply cache stays coherent if and only if no accepted request has a reply not reported as sent while an older one is cached. |
| AppDiscipline.LostReplyIsNeverRepeated | main/iap_service.c:466-473 | After a reply that was not reported as sent a retransmission brings back the older reply, which the host ignores. |
| AppDiscipline.CacheCoherentOverRuns | main/iap_service.c:369-483 | While every reply is reported as sent the cache is coherent over every run. |
| AppDiscipline.GreetingCachedOverRuns | main/iap_service.c:369-483 | Over every run, lost replies included, a cached first HELLO is answered by the reply to it, in an open session. |
| AppInStep.ServeHello | main/iap_service.c:369-394 | The first HELLO brings the service in step from every state it can be in, open updates included; the reply is cached only if it was reported as sent. |
| AppInStep.ServeNext | main/iap_service.c:369-483 | One request of the plan on a service in step, whatever OTA call fails: either it is accepted and the service is one step further, or the service is still in step with the same request. |
| AppInStep.ServeEnd | main/iap_service.c:299-357 | END on a service in step: executed with success, it is accepted, the boot partition is set, the image is in the target, and the device restarts if the reply was reported as sent; otherwise the update is closed and the reply not accepted. |
| AppInStep.ServeAny | main/iap_service.c:369-483 | Any request of the plan, repeated, late or out of turn, in any state of the service after the first HELLO: unless it is an END executed with success, which commits, an open update stays the plan's own and no reply sent or cached is an acceptance of END. |
| AppEndToEnd.StepKeeps | main/iap_service.c:485-521 | Every step of host, service, channels, session timeout or power cycle keeps: before the commit no acceptance of END is cached or under way and an open update is the plan's own; after it nothing that could undo it is under way. Replies that arrive although their send reported an error are included. |
| AppEndToEnd.AppSuccessMeansCommitted | host/transport.py:193-246 | Over every interleaving of loss, duplication, retransmission, failing OTA calls, replies not sent or not reported as sent, timeouts and power cycles: if the host's call returns, the last OTA call has set the boot partition and the target has the announced hash; it holds the image if failed writes cleared no bit that the data keep, or if no other image has that hash. |
| AppCompletion.AppCleanUpdateCompletes | host/transport.py:193-246 | Without faults and losses one exchange per request completes the update of an application whose partition fits the image. |
| AppCompletion.AppFailedCall | host/transport.py:193-246 | After a call that raised, the boot partition was not set if and only if no END was executed with success; one can have been only while the call waited for the reply to END, and then the target has the announced hash, and holds the image under either assumption of the success theorem. |
| AppCompletion.EarlierRunsAreInitial | main/iap_service.c:369-483 | Whatever frames, timeouts and failures came before, the service is in an initial state of these theorems. |
| AppCompletion.AppSmallestUpdate | main/iap_service.c:369-483 | The hypotheses of these theorems can be met. |
| IapService.Service.ReadBack | main/iap_service.c:269-297 | The loop reads every byte up to the image size exactly once, in order, and fails exactly when one of its pieces does. |
| IapService.Service.AbortUpdate | main/iap_service.c:108-122 | Aborts the handle exactly when one is open, and clears the update. |
| IapService.Service.HandleBegin | main/iap_service.c:185-230 | State, calls, status and text of the BEGIN function, in place. |
| IapService.Service.HandleData | main/iap_service.c:232-267 | State, calls, status and text of the DATA function, in place. |
| IapService.Service.HandleEnd | main/iap_service.c:299-357 | State, calls, status and text of the END function, in place. |
| IapService.Service.Respond | main/iap_service.c:140-183 | Hands over exactly the encoded reply, and caches it only if it was sent. |
| IapService.Service.ProcessFrame | main/iap_service.c:369-483 | Exactly the state, the calls, the bytes and the restart of the service function. |
| ServiceTask.Task.CheckTimeout | main/iap_service.c:509-518 | The session times out exactly when it is open and no valid frame arrived for ten seconds. |
| ServiceTask.ClockFollowsFrames | main/iap_service.c:369-373 | The clock that the timeout reads is that of the last reading that completed a valid frame. |
| ServiceTask.TimesOutExactly | main/iap_service.c:509-518 | A reading that completes no frame ends the session if and only if one is open and the last valid frame is at least ten seconds old; a reading that completes one never ends it by silence. |
| ServiceTask.TaskHandlesTheInput | main/iap_service.c:485-521 | The frames processed are exactly those of the whole input, in order; if one of them restarts the device, those up to it. |
| ServiceTask.Task.PushByte | main/iap_service.c:499-507 | A frame is processed exactly when its last byte arrives, with its fault, and the device restarts exactly when that frame restarts it. |
| ServiceTask.Task.Serve | main/iap_service.c:485-521 | The loop over any readings ends exactly where the run over their frames and timeouts ends, and restarts exactly when that run does. |
| Agreement.StepAgrees | main/iap_service.c:369-472 | For related states both announce the same status, sequence and offset and stay related if and only if the request is not one of those on which they part: an END that is due, a BEGIN too large for the slot while an update is open or only when rounded to sectors, a current DATA that only the 4-byte rule rejects, and a due HELLO whose sequence is not zero. |
| Agreement.DataParts | main/iap_service.c:232-267 | The only DATA on which the two part are those the 4-byte rule rejects: ERR_LENGTH there, accepted here. |
| Agreement.AnswersAgree | main/iap_service.c:369-472 | The same over every sequence of requests on which they do not part. |
| Agreement.HostIsAnsweredAlike | main/iap_service.c:369-472 | From the first HELLO to the last DATA of any plan, with any number of retransmissions anywhere, the application and the bootloader announce the same. |
| Agreement.HostFramesReach | host/transport.py:96-125 | Those sequences contain every new request, up to the last DATA. |
| Agreement.DueEndExactly | main/iap_service.c:299-357 | On the same image a due END that the bootloader accepts is accepted by the application, and the application accepts what the bootloader rejects exactly when the hash is right and the verified image is not as long as announced or no otadata sequence is left. |
| Agreement.UnalignedDataDiverges | main/iap_service.c:251-254 | A non-final DATA that is not word-sized is accepted by the application and rejected by the bootloader. |

## Left out

- NULL-pointer checks of the C core, watchdog feeding, logging and UART set-up.
- A reply that fails to leave the bootloader's UART: the bootloader ignores that result, and a lost reply is a channel step.
- Byte corruption on the end-to-end channels: a damaged frame is a lost one there; what damage can do to a stream is proved at the receivers.
- Issue strings and error counters of the decoders, which depend on how the stream is cut.
- Progress callbacks, the hashing in `flash_file`, the short-write error text and the wall clock of the transport; the number of reads before each deadline is arbitrary.
- The UTF-8 decoding of version and detail texts, and the checks for values that do not fit their field (field types exclude them).
- Bootloader and application behind one host at once: the bootloader that has left stays silent until it is reset, and the application that has restarted into the new image stays silent for good.
- A build with rollback, whose commit writes the state NEW, and fall-back boot when the selected image does not verify; version 1 does not enable rollback.
- The alignment masks `& ~3` and `& ~4095` and the command bit `| 0x80` are written as divisions and as an addition with their values; `write_le` truncations are written as remainders.
- The reads that SHA-256 and the image verifier make on their own: both are functions of the flash contents, with a failure outcome.
- The descriptor texts of INFO, and `host/gui.py`, `host/iap_tool.py` and `host/hardware_validation.py`.

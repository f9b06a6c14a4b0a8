# A verified model of the IndiaLock server and its simulated lock

IndiaLock is a server for JT/T 808-2013 e-lock terminals and a simulated terminal to drive it. An operator's seal,
unseal or clear-alarm command becomes an e-lock business frame, a passthrough message, a checked and escaped packet,
and bytes on a TCP stream; the lock acknowledges delivery, acts after a delay and reports back through the same layers,
while timers, late replies, keypad operations, alarms and reconnects interleave. This project models that logic in
Dafny and proves what it keeps.

The files follow the program:

- `Bytes`, `Crc`, `BcdTime`, `Tlv`: byte-level codecs, check algorithms, calendar time, tag-length-value lists.
- `Escape`, `Framing`, `FramingLaws`, `Packet`, `Session`: the stream stack of sections 4.4.1 to 4.4.4 of JT/T 808-2013.
- `Elock`, `BusinessFrame`, `BusinessFrameLaws`: the e-lock payloads and the envelope whose decoder guesses its tail.
- `EndToEnd`: all layers on top of each other, under any TCP chunking, in both directions.
- `Commands`, `CommandSafety`, `CommandLaws`, `CommandRuns`, `CommandService`: the command lifecycle as atomic steps,
  what every run keeps, what holds while serials do not collide, and the imperative service that makes exactly those
  steps.
- `SimLock`, `KeyAgreement`, `StoredKeys`: the lock's own state machine, and server and lock joined by a connection.
- `AlarmKeys`, `Alarms`, `AlarmLaws`, `TelemetryService`: the alarm history and what it means.
- `Binding`: sessions, device binding and online status.

How to read it. Code that changes state step by step is a class (`FrameDecoder`, `Session`, `CommandService`,
`SimulatedLock`, `TelemetryService`, `Listener`) or a method with loops. Each is proved equal to a function on
values, and the properties are lemmas about those functions and about runs, which are sequences of events. Every
handler of the command service is one atomic step; `execute` is two, cut where it waits for `send`, because a reply can
be processed in between. Timers, clocks, random seeds and the network are events or parameters.

Five properties do not hold of the code without a condition. Each is proved with its condition and comes with an input
or a run beyond it:

- Chunk invariance of the frame decoder: the size limit is tested only at the end of each read, so where TCP cuts the
  stream matters as soon as some run without a delimiter exceeds the limit (`ChunkInvariance` is an if-and-only-if;
  `ChunkingCanMatter` is an input at the default limit).
- "Open exactly while pending": a business serial comes round after 65535 commands and overwrites the entry of a command
  still pending (`OpenIffPendingExactly` is an if-and-only-if over runs; `CollisionReachable` is a run).
- "A status never falls": after such a collision a command can end while its timer stays armed, and `onTimeout` asks
  only whether some command holds the serial (`StatusNeverFalls` is an if-and-only-if; `StatusCanFall` is a run in which
  a success becomes a timeout). For the same reason a command that had its success code stays successful exactly if no
  such timer fires after it (`SuccessExactly`). That a success needs its code (`SuccessNeedsItsCode`), and which command
  a reply may change, hold in every run.
- "The stored key is the key in the lock": a command written under the serial of one in flight takes its replies, so that
  the server can take the reply to one seal for the reply to another. That is the only collision that matters:
  `RepliesFindTheirCommands` says that replies find their commands over a run if and only if it has none, `KeysAgree`
  that the keys agree over such runs, and `KeysCanDiverge` is a run beyond. The guard is exact for replies finding their
  commands; for the keys it is sufficient, since a misdirected reply that is not the success of a seal stores nothing
  wherever it goes (`OnlySealsStoreKeys`).
- "The stored key opens": not if a seal with another key is already waiting for the lock (`StoredKeyOpens` is an
  if-and-only-if; `WaitingSealRefuses` is a run).

Likewise the 31st of February is accepted and rolls over (`ThirtyFirstOfFebruary`), and one family of legacy replies is
taken for the longer format (`MisreadOccurs`). docs/PROTOCOL_NOTES.md gives 0, 35 and 38 as the sizes of additional
information; the code also tries 28, and the model follows the code.

## Model

| member | source | states |
|---|---|---|
| CommandSafety.StatusNeverFalls | server/src/services/command-service.js:102-257 | over every run of begin, end, acknowledgement, reply, timeout and restart steps, serial collisions included, a command keeps its identity, its status rank never falls and completed, rejected and send_failed rows never change again, if and only if no timer fires for the command after it has ended while another command holds its serial |
| CommandSafety.StepAdvances | server/src/services/command-service.js:152-156 | the one-step form of that condition, and that such a timer turns the ended command into a timeout |
| CommandRuns.StatusCanFall | server/src/services/command-service.js:152-156 | a run from a fresh process, all its commands written and whatever their JT/T 808 serials, after which a command is completed with outcome success and the timer still armed for it makes it a timeout |
| CommandRuns.LegalIsNeverStale | server/src/services/command-service.js:104-106 | in a run that begins no command under a serial a pending command of its device still holds, no such timer ever fires |
| CommandSafety.StepKeepsSound | server/src/services/command-service.js:55-257 | every step, collisions included, keeps pending entries unique and tied to open rows of the same device, serial and lock key, and timers tied to their rows |
| CommandSafety.RunKeepsSound | server/src/services/command-service.js:55-257 | so does every run |
| CommandRuns.OpenMeansPending | server/src/services/command-service.js:102-183 | from a process just started on any table of well-formed rows, in every run in which fewer than 65535 commands are issued to a device while one of them is open, a row is open exactly when its own entry is pending, and no status ever falls |
| CommandRuns.CollisionOrphans | server/src/services/command-service.js:104-106 | beginning a command keeps "open iff pending" exactly when no pending command of the device holds the serial it gets |
| CommandRuns.OpenIffPendingExactly | server/src/services/command-service.js:102-183 | over every run, rows are open exactly while their own entries are pending before and after every step if and only if no command is begun under a serial that a pending command of its device holds |
| CommandRuns.CollisionReachable | server/src/services/command-service.js:35-43 | every run of 65536 commands to one device from a fresh process, all of them written and none answered, reaches a state where a row is open and nothing is pending for it |
| CommandRuns.SerialTaken | server/src/services/command-service.js:35-43 | the next serial is taken exactly when a pending command was issued a multiple of 65535 commands ago |
| CommandSafety.SuccessNeedsItsCode | server/src/services/command-service.js:189-244 | in every run from any state, a command that ends completed with outcome success had a reply that was correlated to it, carried the success code of its own type and named no other LockID |
| CommandSafety.SuccessExactly | server/src/services/command-service.js:228-244 | over every run, collisions included, a command ends completed with outcome success if and only if it was so from the start and no stale timer fired for it, or some reply succeeded for it and no stale timer fired for it after that |
| CommandSafety.StepSuccess | server/src/services/command-service.js:228-244 | in any state and for any step: no acknowledgement, timeout, restart, unknown code or code of another command makes a command successful, and the right code always does |
| CommandSafety.ReplyChangesOne | server/src/services/command-service.js:189-252 | in every reachable state a reply changes at most one command, which is open or timed out and of the device that replied, and no other device's key |
| CommandSafety.OnlySealsStoreKeys | server/src/services/command-service.js:247-252 | in every reachable state a reply changes a stored key only if it carries the success code of a seal and is correlated to a seal whose LockID it does not contradict, and then it stores that seal's key and format for the device that replied and touches no other |
| CommandSafety.SpontaneousReplyIsIgnored | server/src/services/command-service.js:194-224 | in every reachable state a reply with serial 0 whose source is not the platform changes nothing |
| CommandRuns.ReplyFindsItsCommand | server/src/services/command-service.js:189-200 | while no serial has collided, a reply that echoes the serial of an open command is correlated to it, and one that comes after the timeout, with no command pending under the serial, to the newest command with it |
| CommandLaws.StepKeepsInv | server/src/services/command-service.js:55-257 | every step that begins no command under a serial still held by a pending one keeps the invariant tying rows, pending entries, timers, waiting sends and serial counters together |
| CommandLaws.RestartKeeps | server/src/services/command-service.js:30-33 | a restart establishes that invariant on any table of well-formed rows, whatever collided before |
| CommandSafety.CorrelateSound | server/src/services/command-service.js:189-211 | in every reachable state correlation returns an open or timed-out command of the replying device, with the reply's serial, not 0, unless the reply came from the platform and the fallback chose it |
| CommandLaws.TimerFindsItsCommand | server/src/services/command-service.js:150-153 | while no serial has collided, a timer that fires finds its own command under its key |
| CommandLaws.SerialSequence | server/src/services/command-service.js:35-43 | the k-th business serial after s is ((s - 1 + k) mod 65535) + 1 |
| CommandLaws.SerialsDistinct | server/src/services/command-service.js:40 | two business serials of a process agree exactly when a multiple of 65535 commands lies between them, so any 65535 consecutive ones are distinct |
| Commands.Oldest | server/src/services/command-service.js:205 | the fallback returns a pending command of the device and type with the least JT/T 808 serial, and nothing only if there is none |
| Commands.FindLate | server/src/db/memory-store.js:123-126 | the newest row of the device with the serial that timed out or is open |
| Commands.FindSent | server/src/services/command-service.js:164 | an entry of the session sent under the serial, and nothing only if there is none |
| CommandService.CommandService.constructor | server/src/services/command-service.js:25-27 | a service on an existing table with nothing pending |
| CommandService.CommandService.NextBusinessSerial | server/src/services/command-service.js:35-43 | serials stay in 1 to 65535 and the counter of the device alone moves |
| CommandService.CommandService.ExecuteBegin | server/src/services/command-service.js:98-118 | execute up to its wait makes exactly the begin step: row, entry, timer, or the write failure |
| CommandService.CommandService.ExecuteEnd | server/src/services/command-service.js:120-125 | the tail of execute makes exactly the end step |
| CommandService.CommandService.OnTimeout | server/src/services/command-service.js:152-159 | makes exactly the timeout step |
| CommandService.CommandService.OnTerminalAck | server/src/services/command-service.js:162-183 | makes exactly the acknowledgement step |
| CommandService.CommandService.OnOperationReply | server/src/services/command-service.js:186-256 | makes exactly the reply step, correlation, outcome and key included |
| CommandService.CommandService.FindOldest | server/src/services/command-service.js:205 | the loop finds the head of the stable sort by JT/T 808 serial |
| CommandService.CommandService.FindCommandByBusinessSerial | server/src/db/memory-store.js:123-126 | the loop keeps the last matching row |
| CommandService.CommandService.FailOpenCommands | server/src/db/memory-store.js:127-131 | every open row becomes a timeout, every other row is untouched |
| CommandService.CommandService.Restarted | server/src/services/command-service.js:30-33 | a new process forgets what was in memory and times out what was open |
| KeyAgreement.KeysAgree | server/src/services/command-service.js:247-252 | over every lossless in-order run of server and lock in which no command is written to the device under the serial of one in flight for its lock, from any state of the server, with serial collisions of other devices and of pending commands, failed writes, timeouts, late replies, keypad operations and tampering included, once a remote seal has succeeded and no such seal's reply is on its way the stored key in the stored format encodes to the key in the lock |
| KeyAgreement.RepliesFindTheirCommands | server/src/services/command-service.js:189-211 | over every such connection, every reply that echoes the serial of a command in flight, whatever else it says, is correlated to that command throughout the run if and only if no command is written under the serial of one in flight |
| KeyAgreement.FoundExactly | server/src/services/command-service.js:104-106 | the same event by event: of all events of server, lock and connection only a command written under the serial of one in flight takes its replies, and it always does |
| KeyAgreement.ClearExactly | server/src/services/command-service.js:35-43 | the next serial is that of a command in flight exactly when one was issued a multiple of 65535 commands ago |
| KeyAgreement.InWindowIsClear | server/src/services/command-service.js:35-43 | in a run in which fewer than 65535 commands are issued to a device while one of them is in flight none is written under the serial of one in flight |
| StoredKeys.KeysCanDiverge | server/src/services/command-service.js:186-252 | beyond that, a run from a first connection, its 65536 commands all written and whatever their JT/T 808 serials, after which the stored key is that of a seal the lock has not received, while the lock holds another and nothing is on its way to the server |
| StoredKeys.StoredKeyOpens | simulator/device.js:395-400 | in every state such a run reaches, an unseal with the stored key is never answered 0x93, whatever happens before the lock gets to it, if and only if the last successful seal whose reply is on its way, if any, set the stored key and no seal for this lock with another key is waiting |
| StoredKeys.NeverRefusedIff | simulator/device.js:383-410 | in any state, an unseal waiting behind n commands is never refused for its key whatever happens next, if and only if the lock has no other key and none of those n is a seal for this lock with another key |
| StoredKeys.WaitingSealRefuses | simulator/device.js:388-400 | a run from a first connection in which such an unseal is issued behind a seal with another key and is answered 0x93 |
| KeyAgreement.NextKeepsGood | simulator/device.js:346-377 | every event of server, lock or connection but a command written under the serial of one in flight keeps the joint invariant: every command in flight can still be correlated, in order, and the last seal on its way carries the lock's key |
| KeyAgreement.AnswerSettles | server/src/services/command-service.js:226-252 | the lock's reply to a command completes exactly that command with the reply's code, and stores its key exactly when it was a seal that succeeded |
| SimLock.SimulatedLock.constructor | simulator/device.js:50-58 | initial state, key, voltage and tamper as the options say |
| SimLock.SimulatedLock.ApplyLockOperation | simulator/device.js:383-410 | the code and the new state of every remote operation |
| SimLock.SimulatedLock.KeypadOperation | simulator/device.js:252-263 | code, lock status byte and new state of a keypad operation; the key never changes |
| SimLock.SimulatedLock.RaiseTamper | simulator/device.js:238-241 | alarm, with the interrupted state remembered once |
| SimLock.CodesTellTheTruth | simulator/device.js:383-410 | every answer belongs to its command in the result-code table and is the success code exactly when the operation changed the lock state; otherwise nothing changed |
| SimLock.SilentForOthers | simulator/device.js:386 | operations for other LockIDs leave no trace: any run with them and the same run without them end in the same lock, which has sent the same codes |
| SimLock.KeyIsLastSeal | simulator/device.js:392-394 | in every run the key is that of the last successful remote seal, or the initial one |
| SimLock.UnsealNeedsTheKey | simulator/device.js:395-400 | after any run a remote unseal succeeds if and only if it is for this lock, the lock is sealed and the key is that of the last successful remote seal (or the initial one, or there is none) |
| SimLock.AlarmRemembers | simulator/device.js:238-241 | an alarm remembers the state and key it interrupted through any number of tampers and refused operations |
| SimLock.ClearRestores | simulator/device.js:401-406 | any number of tampers followed by a successful clear brings a sealed or unsealed lock back to its state and key from before the alarm; a lock in any other state, such as standby, becomes unsealed |
| SimLock.ClearNeedsTheKey | simulator/device.js:402-403 | a clear in alarm is refused exactly when the alarm interrupted a sealed lock and the key is wrong |
| SimLock.KeypadSealEndsAlarm | simulator/device.js:259-261 | sealing on the keypad leaves the alarm state without a clear, and a clear is then refused |
| EndToEnd.MessagesDelivered | server/src/protocol/frame-decoder.js:14-34 | any list of messages encodePacket accepts, under any chunking, comes out at the default 4096 limit as exactly those messages in order, nothing discarded, nothing left over |
| EndToEnd.CommandsDelivered | server/src/protocol/tt-elock.js:237-284 | any list of commands through encodeLockOperation, encodeBusinessFrame, encodePassthrough, encodePacket and any chunking reaches the lock with the same command byte, LockID digits, key bytes and serials |
| EndToEnd.ReportsDelivered | server/src/protocol/tt-elock.js:460-566 | any list of uplink data of a documented length, legacy replies included, with additional information of any size the decoder knows and through any chunking, reaches the server with the same data, additional bytes and serial, except exactly when the tail is misread |
| EndToEnd.RepliesDelivered | server/src/protocol/tt-elock.js:306-360 | any list of operation replies as encoded reaches the server with the same serial, result code, LockID and source |
| EndToEnd.CommandHeard | server/src/protocol/messages.js:253-266 | the passthrough body of a command gives the lock what it was built from, whatever LEN and CRC settings the two sides have |
| EndToEnd.OptionsAreEvidence | server/src/protocol/tt-elock.js:539-565 | the LEN and CRC configuration of the receiver never changes the data, additional bytes, serial or payload it decodes |
| Session.Session.Write | server/src/tcp-listener/session.js:41-49 | what is written, counted and returned, and that a refused write still uses up a serial on an open session |
| Session.SessionDelivers | server/src/tcp-listener/session.js:41-49 | over every session, identified when and as often as it may be, written to before and after, and closed, and under any chunking, the other side decodes exactly the messages sent |
| Session.SerialsDistinct | server/src/tcp-listener/session.js:34-38 | two points of a session have the same next JT/T 808 serial exactly when a multiple of 65536 writes on the open session lies between them |
| Framing.FrameDecoder.constructor | server/src/protocol/frame-decoder.js:7-11 | an empty, unsynchronised decoder |
| Framing.FrameDecoder.Push | server/src/protocol/frame-decoder.js:14-34 | the loop emits and keeps exactly what reading the bytes one at a time and then testing the limit gives |
| FramingLaws.DecoderConserves | server/src/protocol/frame-decoder.js:14-34 | for every input and chunking, oversize included, the input without its 0x7E bytes is the emitted data in order followed by the pending buffer |
| FramingLaws.ChunkInvariance | server/src/protocol/frame-decoder.js:16-32 | all chunkings of the same bytes agree on items and final state if and only if no run without 0x7E, the carried buffer included, exceeds the limit before its last byte: a run that a 0x7E ends must be within the limit, one that ends the input may be a byte longer |
| FramingLaws.ChunkingCanMatter | server/src/protocol/frame-decoder.js:28-32 | at the default limit of 4096 an input of 4098 bytes where the place of a cut changes the outcome |
| FramingLaws.Resynchronises | server/src/protocol/frame-decoder.js:18-27 | from every reachable state a delimited payload within the limit is delivered as a frame |
| FramingLaws.StreamDelivered | server/src/protocol/frame-decoder.js:14-34 | any list of delimited payloads within the limit, under any chunking, is delivered exactly and in order |
| Packet.PacketRoundTrip | server/src/protocol/packet.js:11-85 | every accepted message decodes to the same header fields and body, with or without delimiters, with no warning but the one about encryption |
| Packet.PacketReencodes | server/src/protocol/packet.js:24-85 | a packet that decodes without warnings and with zero reserved bits encodes to the identical frame |
| Packet.SingleByteChangeRefused | server/src/protocol/packet.js:54-72 | changing any single byte of any unescaped packet that decodes makes it refused |
| Packet.EscapedPacketBound | server/src/protocol/packet.js:11-18 | an encoded packet takes at most 2 x (16 + 1023 + 1) = 2080 bytes between its delimiters |
| Packet.EncodeAccepts | server/src/protocol/header.js:78-90 | which messages are accepted, exactly |
| Packet.PropertiesRoundTrip | server/src/protocol/header.js:9-24 | the bit packing is a bijection between words and fields in range and refuses only long bodies |
| Packet.HeaderRoundTrip | server/src/protocol/header.js:49-90 | a header decodes to the fields it was built from |
| Packet.EncodePacket | server/src/protocol/packet.js:11-18 | the encoder with its loops computes the specified frame or error |
| Packet.DecodePacket | server/src/protocol/packet.js:24-85 | the decoder with its early exits computes the specified result, error codes in the source's order |
| Crc.XorChecksum | server/src/protocol/checksum.js:2-6 | the loop computes the exclusive or of the range |
| Bytes.XorBit | server/src/protocol/checksum.js:4 | the exclusive or used throughout is the bitwise one: every bit of the result is set exactly when the bits of the operands differ |
| Escape.EscapeBuffer | server/src/protocol/escape.js:5-22 | the loops fill a buffer of exactly the right size with the escaped bytes |
| Escape.Unescape | server/src/protocol/escape.js:28-52 | the loop computes the data and the errors with their offsets |
| Escape.EscapingIsBijection | server/src/protocol/escape.js:5-52 | unescape undoes escape without errors, and any error-free unescape escapes back to the same bytes |
| Escape.EscapedHasNoFlag | server/src/protocol/escape.js:10-20 | escaped data contains no 0x7E |
| Escape.EscapedLength | server/src/protocol/escape.js:6-8 | the escaped length is between once and twice the original |
| Crc.Crc8 | server/src/protocol/crc.js:3-10 | the nested loops compute the specified CRC |
| Crc.Sum8 | server/src/protocol/crc.js:18-22 | the loop computes the specified sum |
| Crc.CrcLinear | server/src/protocol/crc.js:3-10 | the CRC of the exclusive or of equally long buffers is the exclusive or of their CRCs |
| Crc.CrcResidueZero | server/src/protocol/crc.js:3-10 | the CRC of data followed by its own CRC is zero |
| Crc.CrcKeepsParity | server/src/protocol/crc.js:3-10 | the CRC has the bit parity of its input |
| Crc.OddBitFlipsDetected | server/src/protocol/crc.js:3-10 | every odd number of flipped bits is detected |
| Crc.SingleByteChangeDetected | server/src/protocol/crc.js:3-22 | every algorithm detects every change confined to one covered byte |
| BusinessFrameLaws.BusinessFrameRoundTrip | server/src/protocol/tt-elock.js:460-566 | for documented data lengths and additional sizes, every LEN mode and CRC setting, the decoder recovers data, additional bytes and serial and reports the CRC as matching, if and only if the tail is not misread |
| BusinessFrameLaws.ChosenTail | server/src/protocol/tt-elock.js:501-524 | which candidate the scored, stable sort puts first |
| BusinessFrameLaws.MisreadOccurs | server/src/protocol/tt-elock.js:501-513 | a legacy reply with 38 additional bytes whose byte 9 is 0x23 that is taken as a 35-byte reply |
| BusinessFrameLaws.NoSpuriousWarning | server/src/protocol/tt-elock.js:518-563 | a documented frame that is not misread is decoded with no warning but one about its payload |
| BusinessFrameLaws.FindCandidates | server/src/protocol/tt-elock.js:501-510 | the two loops collect exactly the specified candidates in order |
| BusinessFrameLaws.DecodeBusinessFrame | server/src/protocol/tt-elock.js:483-566 | the decoder computes the specified result |
| BusinessFrame.SortIsStable | server/src/protocol/tt-elock.js:512 | the sort is a stable permutation by falling score |
| BusinessFrame.CandidatesInside | server/src/protocol/tt-elock.js:502-510 | every candidate leaves a non-empty slice inside the frame |
| Elock.LockOperationRoundTrip | server/src/protocol/tt-elock.js:237-284 | a lock operation decodes to the command byte, LockID, key bytes, bill, line code and time it was built from |
| Elock.LockOperationAccepts | server/src/protocol/tt-elock.js:237-265 | in the years 2000 to 2099 an operation is refused exactly for a bad LockID, key, bill or line code |
| Elock.OperationReplyRoundTrip | server/src/protocol/tt-elock.js:306-360 | an operation reply decodes to the fields it was built from |
| Elock.LockIdRoundTrip | server/src/protocol/tt-elock.js:153-167 | every LockID of eight digits comes back, and any four bytes that read as a LockID are its encoding |
| Elock.KeyRoundTrip | server/src/protocol/tt-elock.js:177-210 | every accepted key decodes to a text that encodes to the same bytes, the key itself for the digit formats |
| Elock.OneSuccessCode | server/src/protocol/tt-elock.js:49-77 | each command has exactly one success code and no code is a success for two commands |
| Calendar.CalendarRoundTrip | server/src/protocol/bytes.js:88-100 | days and dates are inverse exactly on real dates, as in section 21.4.1 of ECMA-262 |
| BcdTime.TimeRoundTrip | server/src/protocol/bytes.js:80-103 | for every minute offset an instant comes back truncated to whole seconds exactly when its local year is 2000 to 2099 |
| BcdTime.BytesRoundTrip | server/src/protocol/bytes.js:80-103 | an accepted time encodes back to the same bytes exactly when its day exists in its month |
| BcdTime.ThirtyFirstOfFebruary | server/src/protocol/bytes.js:85-88 | 31 February is accepted and does not come back |
| BcdTime.DecodedYear | server/src/protocol/bytes.js:84-89 | every decoded time is in a local year 2000 to 2099 |
| Bytes.BcdRoundTrip | server/src/protocol/bytes.js:56-73 | an accepted digit string comes back left-padded, and a valid BCD buffer comes back byte for byte |
| Bytes.BcdEncode | server/src/protocol/bytes.js:56-66 | the loop computes the specified bytes or error |
| Bytes.BcdDecode | server/src/protocol/bytes.js:69-73 | the loop computes the specified text |
| Bytes.IsValidBcd | server/src/protocol/bytes.js:48-53 | true exactly when every nibble is a digit |
| Bytes.HexTextInjective | server/src/protocol/bytes.js:68-73 | the text of a buffer determines the buffer |
| Tlv.DecodeList | server/src/protocol/location.js:226-260 | the shared loop computes the complete items and the error for the tail, and terminates |
| Tlv.EncodeList | server/src/protocol/location.js:330-333 | the loop writes the specified bytes |
| Tlv.ParseRebuilds | server/src/protocol/location.js:230-258 | the complete items followed by the unparsed tail are the buffer, with an error exactly when the tail is non-empty |
| Tlv.ListRoundTrip | server/src/protocol/location.js:226-260 | a list of items comes back exactly when every value has at most 255 bytes |
| Tlv.SetParamsRoundTrip | server/src/protocol/messages.js:184-236 | a parameter list comes back without error exactly when it has at most 255 parameters of at most 255 bytes each |
| AlarmLaws.HistoryRefinesConditions | server/src/services/telemetry-service.js:97-148 | over every run of reports the active rows are exactly the conditions last reported and not cleared by command, and the history stays well formed |
| AlarmLaws.HistoryAppendOnly | server/src/db/memory-store.js:89-103 | over every run cleared rows never change again and no row is dropped or rewritten |
| AlarmLaws.IntervalsDisjoint | server/src/db/memory-store.js:90-103 | after every run of reports the rows of one condition form raise-to-clear intervals that do not overlap, in table order, so at most one is uncleared |
| AlarmLaws.ReconcileRefines | server/src/services/telemetry-service.js:137-148 | after reconcile the device and source have exactly the reported types active and all others are untouched |
| AlarmLaws.ReportRefines | server/src/services/telemetry-service.js:15-117 | each report changes the set of active conditions as specified and keeps the history well formed |
| AlarmLaws.ActiveAlarmsComplete | server/src/db/memory-store.js:95-98 | after every run of reports a device has at most 67 active alarms, so the limit of 1000 rows never truncates and the query returns exactly the active rows of the device |
| AlarmKeys.KeysInjective | server/src/protocol/location.js:8-51 | different bits of one status word are different alarms |
| Alarms.DecodeAlarmFlags | server/src/protocol/location.js:76-85 | the loop collects the keys of the set bits in order |
| TelemetryService.TelemetryService.constructor | server/src/services/telemetry-service.js:10-12 | an empty, well-formed history |
| TelemetryService.TelemetryService.Reconcile | server/src/services/telemetry-service.js:137-148 | the loops make exactly the reconcile step and keep the history well formed |
| TelemetryService.TelemetryService.OnLockStatus | server/src/services/telemetry-service.js:66-94 | makes exactly the lock status and voltage steps |
| TelemetryService.TelemetryService.OnLocation | server/src/services/telemetry-service.js:49-60 | makes exactly the alarm steps of a location report |
| TelemetryService.TelemetryService.OnLockUpload | server/src/services/telemetry-service.js:97-107 | makes exactly the step of a lock upload |
| TelemetryService.TelemetryService.ClearByCommand | server/src/services/telemetry-service.js:110-117 | clears exactly the active lock upload and lock status alarms of the device |
| BindingLaws.OnlineStatusIsTrue | server/src/services/protocol-handler.js:319-333 | over every run a device with a live bound session is online and that session is its own, and once every session of a device has finished it is offline, unauthenticated and unbound |
| BindingLaws.ReplacedDisconnectIsHarmless | server/src/tcp-listener/session-manager.js:14-26 | once a newer session's first frame has replaced a session, at any point of any run, it is never bound again over any continuation, and its disconnect, whenever processed, removes no binding and does not mark the device offline while a live session is bound |
| BindingLaws.ReplacedForGood | server/src/services/protocol-handler.js:80-99 | a session that has spoken for a device and is not bound to it stays so through late frames, closes and disconnects |
| BindingLaws.NewestSessionWins | server/src/tcp-listener/session-manager.js:19-26 | the first frame of a session binds it, puts the device online and closes the session bound before |
| BindingLaws.StepKeepsValid | server/src/services/protocol-handler.js:80-99 | every step keeps the invariant tying sessions, bindings and device rows together |
| Binding.Listener.constructor | server/src/tcp-listener/session-manager.js:4-8 | no session and no binding |
| Binding.Listener.Bind | server/src/tcp-listener/session-manager.js:19-26 | rebinds the device and closes the session bound before, if another |
| Binding.Listener.Identify | server/src/services/protocol-handler.js:80-99 | makes exactly the binding step of a first frame |
| Binding.Listener.HandleItem | server/src/services/protocol-handler.js:61-72 | makes exactly the frame step |
| Binding.Listener.OnDisconnect | server/src/services/protocol-handler.js:319-333 | makes exactly the disconnect step |

## Left out

- TCP sockets, HTTP routes, PostgreSQL, capture files, loggers and configuration loading: I/O. The in-memory store is the store of the model, the default frame limit a constant.
- The dashboard and the Python Bluetooth tools: user interface and external drivers.
- Interleaving inside a handler: every handler is one atomic step, as it is with the in-memory store and the ordered session queue. With a store that answers slowly a timer could run between the two halves of `onOperationReply`; that window is not modelled.
- A message-log insert that fails after the bytes were written: `execute` would then record send_failed for a command already on its way; only a write that fails itself is modelled.
- `waitFor`, events to the dashboard and message-log rows: they read the command table and change nothing in it.
- Which device state a reply also updates: alarms and lock status after a reply are steps of the alarm model, not of the command model; a successful clear-alarm command appears there as its own report.
- Choosing key, format, LockID, gate and bill from request, device row and configuration: a request carries the values chosen.
- Key agreement covers one connection, which may begin with commands pending from an earlier one: a server restart, the loss of the connection with commands under way, late frames of a replaced session, and an operator overwriting the stored key are outside it.
- Commands.Oldest: says least JT/T 808 serial, not earliest in time, because that serial wraps and restarts with every session.
- A terminal ID that changes within one connection: one ID per connection is assumed, since `identify` leaves the old map entry in place.
- Registration, authentication policy, time synchronisation and diagnostics requests: short branches; the verdict of an authentication is an input.
- Latitude, longitude, speed and temperature: floating-point scaling of raw fields; the GPS block is carried as bytes and its decoding is not modelled.
- GBK text, hexadecimal rendering for logs, labels and JSON shapes: formatting. The hexadecimal text of a terminal ID is kept.
- The optional stripped form of a terminal ID and the operation identifier's reading as card, keypad or password: display only.
- The truncated last item that the location decoder also lists: it appears as the error for the tail, with its ID and lengths.
- The low-level types of parameter values: a parameter's value is its bytes.
- Server-side business codes 0xA0 and 0xA2 (dynamic and local passwords): known to the result-code table, never sent by the command service.

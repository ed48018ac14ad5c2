# The telemetry pipeline, modelled and proved

A Dafny 4.11 model of the pure cores of the telemetry pipeline: how derived parameters are ordered and
evaluated, how CCSDS packets are checked and generated, how recordings are indexed, read and replayed, how
packets are cut into parameters and calibrated, and how missions are identified. `dafny verify dfyconfig.toml`
checks everything.

Code that updates variables step by step is imperative Dafny here too: a method with the same loops, or a class
with the same fields. Its contract ties the result, or the new state, to a function of the inputs; the lemmas
beside it say what that function achieves. What comes from outside (the clock, the duration of a pass, the
iteration order of a hash map, the answers of a packet source, the commands and the moments at which they
arrive) is a parameter or a nondeterministic choice, and every theorem holds for all of it.

| file | subject |
|---|---|
| `Prelude`, `Bytes`, `BitStrings`, `StableSort` | option and result types, big-endian numbers, bits, the library sort |
| `Gf2`, `Crc16`, `SpacePacket` | polynomials over GF(2), the CRC register, packet headers, rules and generator |
| `CrcPeriod`, `TwoBitErrors` | the period of the CRC register, and which errors of two bits it detects |
| `PacketRules` | header fields, refusals and generated packets, told from the bits |
| `DependencyGraph`, `FormulaRegistry`, `DefinitionOrder` | derived parameters: cycles, Kahn's algorithm, and what its order means for the definitions |
| `DerivedEvaluation`, `FailedDerivations`, `EvaluatedValues` | their evaluation, failures, and the values computed with |
| `FrameIndex`, `FileReader`, `PacketIterator` | recordings: the index, the seekable reader, the streaming reader |
| `CcsdsRecordings`, `RecordingFaults` | recordings of packets read back, and how files are refused |
| `TimingEngine`, `ClockHistory` | the playback clock, and its delays told from the calls made to it |
| `ReplayScheduler`, `ReplayTrace`, `ReplayTiming` | one playback session: its steps, events and times |
| `SessionSettings` | the settings in force in a session, what its commands do, and how it ends |
| `PauseTransparency`, `PauseLateness`, `CommandWindow` | what pauses do to a session, and when it obeys commands |
| `ReplayOrchestrator`, `OrchestratorHistory` | the state machine and the lock around all sessions; what it sends and shows, told from its inputs |
| `PlaybackEnd` | what follows the end of a file |
| `BitFields`, `Decommutation`, `FieldMeanings`, `Calibration` | bit fields, container layout, what entries of each kind say, calibration curves |
| `Continuity`, `RuleLookup`, `RuleSpecificity` | sequence counts per APID, mission identification |

## What the proofs found

These are properties one could expect of the code and that do not hold without a condition. Each has a lemma
with the exact condition or with a run that shows the effect.

- A session rewinds to the timestamp of its first packet, not to its position. Every search that the library
  allows finds that packet again iff the timestamps do not decrease and no other entry, earlier or later, has the
  same one (`ReplayTrace.RewindsIff`). With two equal timestamps the first packet can be read and then skipped
  (`ReplayTrace.EqualTimestampsSkip`).
- A seek or a speed change during a pause charges the part of the pause before it to the new segment: playback
  then stands still for that long after resuming (`TimingEngine.RestartWhilePausedLoses`).
- A speed change after a seek in the same pause does not reach the clock, although it is stored and reported as
  the speed in force; the clock keeps its speed until a speed change comes with a packet in hand
  (`ReplayTiming.PausedSpeedTakesIff`, `ReplayTiming.SeekDropsPausedSpeed`, `ReplayTiming.ClockSpeedPersists`).
- A speed change while a packet is being waited for releases that packet: the next pass publishes it
  (`ReplayTiming.SpeedChangeReleases`, `ReplayTiming.SpeedChangePublishesNext`).
- A loop setting or a needless resume during a wait takes away the packet's gap to the one before: the wait goes on
  as it was iff it was over or the packet had no gap (`ReplayTiming.IdleCommandHarmlessIff`).
- A pass obeys a command only while it waits for a packet that is not due yet (`CommandWindow.CommandMattersIff`). A
  looping session over packets of one timestamp, a single packet for example, never waits: it can be neither
  stopped nor paused (`CommandWindow.NeverStops`).
- After the end of a file a start is accepted, but the new session reports the end at once. There is nothing to play
  until a file is opened, or a new session is stopped before its end is reported
  (`PlaybackEnd.NothingPlaysUntilRewound`, `PlaybackEnd.QuickStopRewinds`).
- Each return to an interrupted wait puts its packet off by the time the pass takes (`PauseLateness.NapsShift`). Over
  a run the packets are late by no more than all of that together (`PauseLateness.PausesDelayAtMost`).
- The end of a stopped session can be reported after the file was unloaded; the simulator then counts as
  completed, and starts again, without a file (`ReplayOrchestrator.AlwaysLoadedIff`,
  `ReplayOrchestrator.LateEndRevives`).
  Reported after the next start, it ends that next session, whose scheduler has been told nothing
  (`ReplayOrchestrator.AllOverByThemselvesIff`, `ReplayOrchestrator.LateEndEndsTheNext`).
- An `open` that fails has already replaced the file type. A reader that stays open then reads its next frame right
  iff the path was refused or the type is the one it was indexed with (`FileReader.FileReaderAdapter.Open`,
  `FileReader.ReadsBackIff`, `FileReader.ReadAfterFailedOpen`).
- The streaming reader stops at a CCSDS packet with less than 8 bytes of data, which the index accepts
  (`PacketIterator.CollectPackets`, `PacketIterator.ShortFrameIsIndexed`).
- After a CCSDS header without a secondary header the streaming reader stands six bytes beyond the offset it reports:
  all packets are located right iff none comes after such a header (`PacketIterator.AllLocatedRightIff`,
  `PacketIterator.PacketMislocated`).
- The mark of a failed derivation is not looked at: its users read a not-a-number, and can come out valid. Invalidity
  reaches all that depends on a failed derivation iff every definition fails on the not-a-numbers it reads
  (`FailedDerivations.SpreadsIff`, `FailedDerivations.ValidFromInvalid`).
- A 64-bit unsigned parameter with its first bit set comes out negative (`Decommutation.WideUintWraps`,
  `Decommutation.HighBitReadsNegative`).
- A spline knot less than 1e-9 above its predecessor is passed over (`Calibration.InnerKnotHitIff`,
  `Calibration.CloseKnotMissed`).
- A polynomial term is lost when a later one has its exponent. The calibrator computes the sum of its terms iff for
  every exponent the lost coefficients add up to zero (`Calibration.ComputesSumIff`).
- Losing a multiple of 16384 packets, or one less, is invisible or looks like a repeat
  (`Continuity.FlagsCountDisturbances`).
- Rule lookup compares only the first two of the best matches, so a third that ties can go unnoticed
  (`RuleLookup.AmbiguityRightIff`, `RuleLookup.TieUnnoticed`).

## Model

| member | source | states |
|---|---|---|
| Crc16.ComputeCrc16 | ccsds-decoder/src/domain/parser.rs:166-179 | the nested shift loops leave the register that `Crc` describes, which `CrcIsRemainder` identifies as a polynomial remainder |
| Crc16.PendingBits | ccsds-decoder/src/domain/parser.rs:169-177 | exclusive-or of a whole byte into the upper half and eight shifts equal feeding its bits one at a time |
| Crc16.RegisterDivides | ccsds-decoder/src/domain/parser.rs:166-179 | register and feedback bits are remainder and quotient of the complemented message times x^16 divided by x^16+x^12+x^5+1, at any length |
| Crc16.CrcIsRemainder | ccsds-decoder/src/domain/parser.rs:166-179 | the CRC of every byte sequence is that remainder, and the only polynomial of degree below 16 that is |
| Gf2.RemainderUnique | ccsds-decoder/src/domain/parser.rs:166-179 | division by the generator has one remainder of degree below 16 |
| Gf2.BurstNotMultiple | ccsds-decoder/src/domain/validator.rs:66-82 | no nonzero polynomial within 16 consecutive places is a multiple of the generator |
| Gf2.OddNotMultiple | ccsds-decoder/src/domain/validator.rs:66-82 | no polynomial with an odd number of terms is a multiple of the generator |
| SpacePacket.ParsersAgree | simulator-engine/src/domain/replay_packet.rs:122-149 | the byte-wise parser of the simulator and the word-wise parser of the decoder accept the same inputs and read the same seven fields |
| SpacePacket.ValidIffMultiple | ccsds-decoder/src/domain/validator.rs:66-82 | the CRC rule accepts a packet of at least 3 bytes iff its complemented polynomial is a multiple of the generator |
| SpacePacket.ValidIffZeroResidue | ccsds-decoder/src/domain/validator.rs:66-82 | equivalently, iff the CRC over the packet with its stored CRC is zero |
| SpacePacket.AcceptedIffErrorIsMultiple | ccsds-decoder/src/domain/validator.rs:66-82 | a damaged copy of a valid packet is accepted iff its error pattern is a multiple of the generator |
| SpacePacket.BurstsAreRejected | ccsds-decoder/src/domain/validator.rs:66-82 | every nonzero error within 16 consecutive bits is detected, in packets of any length |
| SpacePacket.OddErrorsAreRejected | ccsds-decoder/src/domain/validator.rs:66-82 | every odd number of wrong bits is detected, in packets of any length |
| CrcPeriod.ResidueOfDouble | ccsds-decoder/src/domain/parser.rs:166-179 | the register after twice as many shifts without input is the square of the register: the mixed terms cancel |
| CrcPeriod.ReturnsIff | ccsds-decoder/src/domain/parser.rs:166-179 | shifted without input, the register is back at 1 exactly after the multiples of 32767 shifts |
| TwoBitErrors.AcceptedIffErrorFeedsZero | ccsds-decoder/src/domain/validator.rs:66-82 | a damaged copy of a valid packet is accepted iff its error pattern alone leaves an empty register at zero |
| TwoBitErrors.TwoBitErrorAcceptedIff | ccsds-decoder/src/domain/validator.rs:66-82 | two wrong bits go undetected iff their distance is a multiple of 32767, wherever they are and however long the packet |
| PacketRules.HeaderIsItsBits | ccsds-decoder/src/domain/parser.rs:47-85 | the header is read as section 4.1.3 of CCSDS 133.0-B-2 lays it out: each field is the number that its bits of the packet write, and fewer than six bytes are refused with their count |
| PacketRules.PacketIsTold | ccsds-decoder/src/domain/validator.rs:31-107 | every packet is refused for the first rule it breaks, with the version, the two lengths or the two CRCs that break it, and accepted iff it breaks none; all told from its bits and the remainder they leave |
| SpacePacket.HeaderRoundTrip | verification-suite/dataset_generator.py:24-30 | a generated header parses back to the masked fields it was made from |
| SpacePacket.GeneratedAcceptedIff | verification-suite/dataset_generator.py:43-80 | a generated packet parses to the masked fields and the announced length it was made from, and passes all rules with CRC checking iff no fault that a rule looks at was injected |
| PacketRules.GeneratedCarries | verification-suite/dataset_generator.py:43-80 | behind its header a generated packet is its timestamp, its payload and the remainder of all before, complemented iff a wrong CRC was asked for |
| DependencyGraph.StuckIsLargestSupporting | engineering-conversion-service/src/domain/registry.rs:168-179 | the definitions that transitively depend on a cycle form the largest set in which every member has an input in the set |
| DependencyGraph.AcyclicIffNothingStuck | engineering-conversion-service/src/domain/registry.rs:168-179 | there is a cycle iff some definition depends on one |
| FormulaRegistry.BuildGraph | engineering-conversion-service/src/domain/registry.rs:121-143 | whatever order the map is walked in, in-degrees and adjacency lists count every input that names a definition, repeated ones and self-references included |
| FormulaRegistry.ReleaseUsers | engineering-conversion-service/src/domain/registry.rs:156-165 | finishing a name takes off each user's degree as often as it uses the name, never below zero, and queues each user once, when it reaches zero |
| FormulaRegistry.RemainderIsStuck | engineering-conversion-service/src/domain/registry.rs:168-179 | when the queue runs empty, what is left unsorted is exactly what depends on a cycle |
| FormulaRegistry.SortTopologically | engineering-conversion-service/src/domain/registry.rs:112-188 | succeeds iff the dependency multigraph is acyclic; on success every definition occurs once, after all its inputs; on failure the reported names are exactly those that depend on a cycle |
| DefinitionOrder.OrderIff | engineering-conversion-service/src/domain/registry.rs:112-188 | an evaluation order, as the sort returns one, holds the definitions that no later one of their name replaces, each once, and behind all those that it lists as an input |
| DefinitionOrder.AcyclicIff | engineering-conversion-service/src/domain/registry.rs:168-179 | there is a cycle iff some chain of such definitions, each of which lists the next, meets one twice |
| DefinitionOrder.StuckIff | engineering-conversion-service/src/domain/registry.rs:168-179 | the names reported for a cycle are those from which such a chain starts |
| FormulaRegistry.LoadDefinitions | engineering-conversion-service/src/domain/registry.rs:79-101 | succeeds iff names are unique, expressions compile and there is no cycle; the result is a permutation of what was loaded; each error names a culprit |
| DerivedEvaluation.Evaluate | engineering-conversion-service/src/domain/computation.rs:12-76 | the binding loop with its early failures computes `Evaluated`, for every expression language |
| DerivedEvaluation.EvaluationFrame | engineering-conversion-service/src/domain/computation.rs:17-56 | an evaluation depends on the parameter list only through the first parameter of each input name |
| DerivedEvaluation.DeriveParameters | engineering-conversion-service/src/application/orchestrator.rs:82-117 | the loop appends to the growing list one parameter per definition and counts successes and failures |
| DerivedEvaluation.LookupBefore | engineering-conversion-service/src/application/orchestrator.rs:86-117 | what a definition finds under a name: an original parameter if there is one, else the derived parameter of that name |
| DerivedEvaluation.SameParameter | engineering-conversion-service/src/application/orchestrator.rs:86-117 | a definition yields the same parameter wherever two evaluation orders place it |
| DerivedEvaluation.Confluence | engineering-conversion-service/src/application/orchestrator.rs:86-117 | whatever order the sort returns, the original parameters stay as a prefix and the same multiset is appended |
| DerivedEvaluation.OnePerDefinition | engineering-conversion-service/src/application/orchestrator.rs:86-117 | exactly one parameter is appended per definition, under its name |
| DerivedEvaluation.SameCounts | engineering-conversion-service/src/application/orchestrator.rs:82-117 | in every order the same definitions succeed, so the success and failure counts agree |
| EvaluatedValues.RawUnread | engineering-conversion-service/src/domain/computation.rs:31-34 | whatever raw value a parameter with an engineering value has, every evaluation is the same |
| EvaluatedValues.RawDecides | engineering-conversion-service/src/domain/computation.rs:31-34 | without an engineering value the raw value counts as if it were one |
| EvaluatedValues.AliasYieldsValue | engineering-conversion-service/src/domain/computation.rs:17-101 | in a language in which an expression returns the value of an alias, a definition with distinct aliases yields the engineering value of the input under that alias, else its raw value, kind and content unchanged |
| EvaluatedValues.FirstUnreadable | engineering-conversion-service/src/domain/computation.rs:17-46 | the first input that cannot be read decides the error: missing without parameter or value, a failed conversion for an empty value or a byte string |
| EvaluatedValues.LanguageFails | engineering-conversion-service/src/domain/computation.rs:47-75 | with readable inputs the errors are those of binding, of evaluation, and of a result that is no plain value |
| EvaluatedValues.SuccessesAreValid | engineering-conversion-service/src/application/orchestrator.rs:82-117 | the success count is the number of appended parameters marked valid; every other appended one is a not-a-number marked invalid |
| FailedDerivations.ValidityUnread | engineering-conversion-service/src/domain/computation.rs:17-56 | an evaluation gives the same whatever its inputs are marked as |
| FailedDerivations.FailedInputIsNaN | engineering-conversion-service/src/application/orchestrator.rs:105-114 | a definition that uses a failed one, in any evaluation order, reads a not-a-number from it |
| FailedDerivations.SpreadsIff | engineering-conversion-service/src/application/orchestrator.rs:86-117 | everything that depends on a failed derivation, over any number of uses, is marked invalid iff every definition that uses a failed one fails itself |
| FailedDerivations.RefusedNaNSpreads | engineering-conversion-service/src/application/orchestrator.rs:86-117 | it does in every language that cannot bind a not-a-number |
| FailedDerivations.ValidFromInvalid | engineering-conversion-service/src/application/orchestrator.rs:86-117 | two definitions of which the first is marked invalid and the second, which uses it, valid |
| FrameIndex.Build | simulator-engine/src/adapters/outbound/file_reader/timestamp_index.rs:27-149 | the loops for both formats, with resynchronisation byte by byte, end and give `Built`, whose meaning `BuildsIffFramed` states |
| FrameIndex.BuildsIffFramed | simulator-engine/src/adapters/outbound/file_reader/timestamp_index.rs:27-149 | the scan yields some entries iff they are the framing of the file: in bounds, disjoint, in order, with the right timestamps, and no frame, whole or broken, starting at any other place outside them |
| FrameIndex.FramingIsScan | simulator-engine/src/adapters/outbound/file_reader/timestamp_index.rs:27-149 | a file has at most one framing, and the scan finds it |
| FrameIndex.IndexRoundTrip | simulator-engine/src/adapters/outbound/file_reader/timestamp_index.rs:85-125 | indexing concatenated frames, behind any other bytes, recovers their offsets and timestamps |
| RecordingFaults.BuildFailsIff | simulator-engine/src/adapters/outbound/file_reader/timestamp_index.rs:27-149 | indexing fails with an error iff stepping over frames and unmarked bytes from the start of the file comes to a frame cut off, a packet without a secondary header or with too little behind it, or an unknown type, each with its own error, or if there is no frame at all |
| CcsdsRecordings.RecordingSummary | simulator-engine/src/adapters/outbound/file_reader/timestamp_index.rs:127-149 | for recordings in both formats the metadata give the number of records, the first record's time as start, the last one's as end, and their difference, or 0, as duration |
| FileReader.ReadFrame | simulator-engine/src/adapters/outbound/file_reader/mod.rs:81-139 | the two-stage read of one entry returns `ReadEntry`, its errors included |
| FileReader.BuiltEntryReads | simulator-engine/src/adapters/outbound/file_reader/mod.rs:67-144 | every entry of an index built from the file reads back as the whole frame |
| FileReader.RecordingReadsBack | simulator-engine/src/domain/replay_packet.rs:72-117 | a recording of any records is indexed entry by entry, and every read returns the recorded frame with its number, time, place in the file and payload |
| CcsdsRecordings.CcsdsReadsBack | simulator-engine/src/domain/replay_packet.rs:122-149 | so does a stream of CCSDS packets that hold a timestamp |
| FileReader.ReadsBackIff | simulator-engine/src/adapters/outbound/file_reader/mod.rs:81-139 | an indexed frame reads back right under its own file type and under no other, supported or not |
| FileReader.ReadAfterFailedOpen | simulator-engine/src/adapters/outbound/file_reader/mod.rs:33-65 | a run: with a recording open, a missing file opened as CCSDS makes the next read seven bytes short, for every recording |
| FileReader.ParentStepIff | simulator-engine/src/adapters/outbound/file_reader/mod.rs:34-37 | the paths refused are those that contain `..` |
| FileReader.NearestIsNearest | simulator-engine/src/adapters/outbound/file_reader/timestamp_index.rs:152-176 | with non-decreasing timestamps, whatever the library's search answers, a seek goes to an entry at least distance from the target, to the later timestamp on a tie |
| FileReader.NearestOfPresent | simulator-engine/src/adapters/outbound/file_reader/timestamp_index.rs:152-176 | a seek to a timestamp that is present arrives at an entry with that timestamp |
| FileReader.FileReaderAdapter.Open | simulator-engine/src/adapters/outbound/file_reader/mod.rs:33-65 | when an open succeeds, the new state, and what a failed open leaves behind: everything but the file type, so that the next read of an open reader is right iff the path holds `..` or the type is the one indexed with |
| FileReader.FileReaderAdapter.ReadNextPacket | simulator-engine/src/adapters/outbound/file_reader/mod.rs:67-144 | the packet of the current entry, the end or an error; the position moves on only past a packet |
| FileReader.FileReaderAdapter.Seek | simulator-engine/src/adapters/outbound/file_reader/mod.rs:146-153 | the position becomes the nearest entry, for any answer the library's search may give, or stays if nothing is open |
| FileReader.ReadToEnd | simulator-engine/src/adapters/outbound/file_reader/mod.rs:67-144 | repeated reads of an open reader return each indexed frame once, in order, numbered from 1, and then the end |
| PacketIterator.PacketIterator.Next | simulator-engine/src/domain/packet_iterator.rs:208-236 | one call changes position, offset, counters and the finished flag as `NextReading` says, which the next rows relate to the index |
| PacketIterator.NextProgresses | simulator-engine/src/domain/packet_iterator.rs:208-236 | every item moves the reader forward or ends the iteration: iterations terminate on every file |
| PacketIterator.NextKeepsPace | simulator-engine/src/domain/packet_iterator.rs:79-236 | on an indexable file each call returns the packet of the next index entry, passes a byte outside the frames, or stops where a frame has no room for a timestamp |
| PacketIterator.CollectPackets | simulator-engine/src/domain/packet_iterator.rs:208-236 | on every file that `build` accepts, the iterator without its error items yields exactly the packets of index and reader, iff every frame has room for a timestamp |
| PacketIterator.ShortFrameIsIndexed | simulator-engine/src/domain/packet_iterator.rs:141-206 | a file of two packets that `build` accepts and whose first packet stops the iterator |
| RecordingFaults.EveryCallIs | simulator-engine/src/domain/packet_iterator.rs:79-236 | on every file, each call until the first that ends the iteration answers as the bytes where the reader stands say: the packet, the end, or the error of a missing mark, a missing secondary header, a frame cut off or too little room for a timestamp; packets are numbered in order and counted |
| PacketIterator.PacketPlace | simulator-engine/src/domain/packet_iterator.rs:141-202 | on every file each packet is read six bytes beyond its reported offset for each header without a secondary header met before it |
| PacketIterator.AllLocatedRightIff | simulator-engine/src/domain/packet_iterator.rs:141-236 | over any number of calls all packets carry the bytes at their reported offsets iff none comes after such a header |
| PacketIterator.PacketMislocated | simulator-engine/src/domain/packet_iterator.rs:160-199 | a file whose packet at byte 6 is reported at byte 0 |
| TimingEngine.TimingEngine.ComputeDelay | simulator-engine/src/domain/timing_engine.rs:99-157 | the delay and the new state, for any earlier state |
| ClockHistory.DelayIs | simulator-engine/src/domain/timing_engine.rs:42-157 | every delay follows from how the clock was opened and what was called since: with drift correction it ends where the packet's place plus its gap lie after the opening in unpaused time, or at once, without it it is the gap; place and gap are the whole numbers n with n * speed <= recorded time < (n + 1) * speed |
| ClockHistory.LastsOnce | simulator-engine/src/domain/timing_engine.rs:119-129 | there is one such number for each recorded time and speed |
| ClockHistory.StatisticsAre | simulator-engine/src/domain/timing_engine.rs:99-163 | the statistics count the packets asked for with drift correction and sum how far behind its place each was |
| ClockHistory.UnopenedClock | simulator-engine/src/domain/timing_engine.rs:83-157 | a clock never opened asks for no delay first and then for the gaps alone, whatever it is paused or reset |
| TimingEngine.DelayReachesTarget | simulator-engine/src/domain/timing_engine.rs:99-157 | with drift correction the delay ends at the later of now and the packet's place on the clock plus its base delay |
| TimingEngine.BaseWithinGap | simulator-engine/src/domain/timing_engine.rs:99-157 | for packets in order the last place on the clock plus the base delay is at most the new place, rounding included |
| TimingEngine.PauseStopsClock | simulator-engine/src/domain/timing_engine.rs:54-66 | a pause and its end stop the active clock for exactly the time between |
| TimingEngine.RestartWhilePausedLoses | simulator-engine/src/domain/timing_engine.rs:83-91 | a reset during a pause keeps the clock true iff it comes at once; otherwise it stands still as long as the pause had lasted before the reset |
| ReplayScheduler.ReplayScheduler.Pass | simulator-engine/src/domain/replay_scheduler.rs:114-314 | one pass of the loop, paused or not, makes the step that the trace and timing theorems are about |
| ReplayScheduler.Run | simulator-engine/src/domain/replay_scheduler.rs:75-316 | the whole session: the end, or a fatal error on the first read or rewind, else the events of the script's passes until it stops |
| ReplayScheduler.StepFollows | simulator-engine/src/domain/replay_scheduler.rs:114-314 | every pass keeps the state consistent and causes at most one event, one allowed by the entry that comes next |
| ReplayScheduler.TraceShape | simulator-engine/src/domain/replay_scheduler.rs:75-316 | under any commands, faults and delays every trace is well-shaped and the state knows the entry that comes next |
| SessionSettings.SettingsInForce | simulator-engine/src/domain/replay_scheduler.rs:114-313 | in every run the loop flag, the speed and the pause are as the last command obeyed left them |
| SessionSettings.HeardDoes | simulator-engine/src/domain/replay_scheduler.rs:122-296 | an obeyed seek goes to the entry found for its own timestamp, gives up the packet in hand and restarts the clock there; every other command keeps place and packet, a speed change restarts the clock at that packet, and a pause keeps what is left of the wait |
| SessionSettings.SeeksAsHeard | simulator-engine/src/domain/replay_scheduler.rs:114-296 | a run seeks exactly as it is told: once for each seek obeyed, in order, to the timestamp given |
| SessionSettings.RunsUntilLast | simulator-engine/src/domain/replay_scheduler.rs:114-314 | a session runs on until it is told to stop, loses its command channel, or reports an end |
| SessionSettings.SessionEndsOrLoopsIff | simulator-engine/src/domain/replay_scheduler.rs:165-186 | in every run a pass reports the end, or goes back to the start, iff the session runs unpaused with its last packet out; it loops iff the loop flag of the last setting obeyed, else the initial one, is on |
| SessionSettings.PlaysThrough | simulator-engine/src/domain/replay_scheduler.rs:75-316 | without commands, faults and loop flag a session publishes the packets from its first to its last entry, each once, reports the end and does nothing more |
| ReplayTrace.EventFollows | simulator-engine/src/domain/replay_scheduler.rs:75-316 | each packet follows the event before it; loop restarts and the end come right after the last entry; a restart returns to the first packet; nothing follows the end |
| ReplayTrace.RunIsContiguous | simulator-engine/src/domain/replay_scheduler.rs:154-272 | between seeks and restarts the published packets are consecutive entries, none skipped or repeated |
| ReplayTrace.SessionTrace | simulator-engine/src/domain/replay_scheduler.rs:75-316 | all of this for every session over a file whose timestamps do not decrease and whose first packet shares its timestamp with no other, for every search the library allows |
| ReplayTrace.RewindsIff | simulator-engine/src/domain/replay_scheduler.rs:83-104 | every search that the library allows rewinds to the first packet iff the timestamps do not decrease and no other entry has its timestamp |
| ReplayTrace.EqualTimestampsSkip | simulator-engine/src/domain/replay_scheduler.rs:83-104 | two entries with one timestamp and an allowed search for which the session starts at the second, skipping its first packet |
| ReplayTiming.SentOnSchedule | simulator-engine/src/domain/timing_engine.rs:99-157 | in a run without commands packet k goes out at the later of being ready and its recorded offset plus its gap, for any overheads and any length |
| ReplayTiming.EventsInRecordedTime | simulator-engine/src/domain/replay_scheduler.rs:75-272 | told from the events: each undisturbed packet goes out at the later of when its pass is ready and start + offset + gap, the whole numbers with n * speed <= recorded time < (n + 1) * speed |
| ReplayTiming.PlayedInRecordedTime | simulator-engine/src/domain/replay_scheduler.rs:75-272 | the same session from its first read on: no packet goes out before its recorded time at playback speed, to the nanosecond |
| ReplayTiming.NeverEarly | simulator-engine/src/domain/timing_engine.rs:99-157 | no packet goes out before its recorded offset |
| ReplayTiming.LagStaysBounded | simulator-engine/src/domain/timing_engine.rs:99-157 | if no pass takes longer than the gap it bridges, the lag never exceeds a bound on the initial overhead and the gaps: drift does not accumulate |
| ReplayTiming.RunKeeps | simulator-engine/src/domain/replay_scheduler.rs:114-314 | every run that does not restart the clock in a pause keeps the active clock at or after its start, and every delay left over by a pause or a speed change still reaches its packet's place on the clock |
| ReplayTiming.AnyRunNeverEarly | simulator-engine/src/domain/replay_scheduler.rs:114-314 | after any such run, whatever the next pass brings, no packet is published before its place on the clock, interrupted waits included |
| ReplayTiming.AnyRunSendsOnTarget | simulator-engine/src/domain/timing_engine.rs:99-157 | after any such run, the next packet goes out when its left-over delay is over, if it has one, and otherwise at the later of now and its place on the clock plus its base delay |
| ReplayTiming.SessionSendsOnTarget | simulator-engine/src/domain/replay_scheduler.rs:75-316 | both of these for every session from its first pass on |
| ReplayTiming.SeekOpensSegment | simulator-engine/src/domain/replay_scheduler.rs:287-295 | after a seek, active time counts from that moment and places on the clock from the target, at the speed in force; no packet is left waiting |
| ReplayTiming.LoopOpensSegment | simulator-engine/src/domain/replay_scheduler.rs:168-182 | the same after a loop restart, from the first packet of the session |
| ReplayTiming.PausedSpeedTakesIff | simulator-engine/src/domain/replay_scheduler.rs:138-144 | a speed change during a pause reaches the clock iff a packet is in hand or the speed is the same |
| ReplayTiming.SeekDropsPausedSpeed | simulator-engine/src/domain/replay_scheduler.rs:128-144 | after a seek in the same pause it never does |
| ReplayTiming.ClockSpeedPersists | simulator-engine/src/domain/replay_scheduler.rs:114-314 | over any run the speed of the clock persists until a speed change comes in a wait or with a packet in hand |
| ReplayTiming.SpeedChangeReleases | simulator-engine/src/domain/replay_scheduler.rs:296-304 | a speed change during a wait leaves a remaining delay of zero |
| ReplayTiming.SpeedChangePublishesNext | simulator-engine/src/domain/replay_scheduler.rs:296-304 | the next pass publishes that packet as soon as it is ready, whatever it brings |
| ReplayTiming.IdleCommandDropsGap | simulator-engine/src/domain/replay_scheduler.rs:281-307 | after a loop setting or a needless resume during a wait, what is left is only the way to the packet's place on the clock |
| ReplayTiming.IdleCommandHarmlessIff | simulator-engine/src/domain/replay_scheduler.rs:281-307 | the wait goes on as it was iff it was over or the packet had no gap |
| PauseTransparency.SameStep | simulator-engine/src/domain/replay_scheduler.rs:114-314 | sessions that differ only in time spent paused do the same in every pass, whatever it brings |
| PauseTransparency.WaitSplits | simulator-engine/src/domain/replay_scheduler.rs:238-313 | a wait does what its remainder does from any point inside it |
| PauseTransparency.NapsErased | simulator-engine/src/domain/replay_scheduler.rs:274-280 | a wait interrupted by any number of pauses has the outcome of the wait without them, begun later by what the passes going back to it take |
| PauseTransparency.PausesOnlyDelay | simulator-engine/src/domain/replay_scheduler.rs:114-314 | so has a run with any number of pauses in its waits, whatever other commands it holds and however long its passes take, measured in unpaused time |
| PauseTransparency.PausesLeaveNoTrace | simulator-engine/src/domain/replay_scheduler.rs:114-152 | when going back takes no time, the pauses change no event and no publication time at all |
| PauseTransparency.SessionPausesOnlyDelay | simulator-engine/src/domain/replay_scheduler.rs:75-316 | both for every session from its first pass on |
| PauseLateness.NapsShift | simulator-engine/src/domain/replay_scheduler.rs:238-313 | pauses within a wait put its publication off by exactly what the passes going back to it take, and leave every other event alone |
| PauseLateness.PausesDelayAtMost | simulator-engine/src/domain/timing_engine.rs:99-157 | a run without other commands publishes the same packets, each no earlier than without its pauses and later by at most what going back to all waits took |
| PauseLateness.SessionPausesDelayAtMost | simulator-engine/src/domain/replay_scheduler.rs:75-316 | the same for every session from its first pass on |
| CommandWindow.CommandMattersIff | simulator-engine/src/domain/replay_scheduler.rs:198-313 | for an unpaused pass a command makes a difference iff the pass holds a packet that is not due and the command comes before it is; it then does what the command says |
| CommandWindow.NeverStops | simulator-engine/src/domain/replay_scheduler.rs:114-237 | a looping session whose packets share one timestamp runs on under every faultless script exactly as if no command had come |
| ReplayOrchestrator.TransitionsByCommand | simulator-engine/src/domain/state_machine.rs:58-106 | the transition table read by command: the states that accept it and the one state it leads to; seeking, speed and loop settings keep the state |
| ReplayOrchestrator.ReplayOrchestrator.ExecuteCommand | simulator-engine/src/application/orchestrator.rs:115-317 | validation, action with its early failures, and state change make the transition the next rows are about |
| ReplayOrchestrator.ReplayOrchestrator.HandleNotification | simulator-engine/src/application/orchestrator.rs:195-222 | the listener's effect on state, channel, counters and the recent packets, whichever scheduler reports |
| ReplayOrchestrator.AlwaysCoherent | simulator-engine/src/application/orchestrator.rs:115-371 | under any interleaving of commands, failing ones included, and reports of any scheduler, a channel is held iff running or paused; it is the newest, its scheduler has been told the state, speed and loop flag in force, and no scheduler gets a command out of turn |
| ReplayOrchestrator.StartFindsNoChannel | simulator-engine/src/application/orchestrator.rs:150-192 | an accepted start never replaces a held channel |
| ReplayOrchestrator.FailureChangesNothing | simulator-engine/src/application/orchestrator.rs:115-317 | in every reachable state a command that fails leaves everything as it was, although a failing unload has already dropped its channel field |
| ReplayOrchestrator.OnlyTheHeldChannelGrows | simulator-engine/src/application/orchestrator.rs:115-371 | a channel that is not held is never written to or held again; sent commands stay sent |
| OrchestratorHistory.ChannelsAreLog | simulator-engine/src/application/orchestrator.rs:115-371 | for every sequence of inputs: there is one channel for each accepted start, with the speed and loop flag then in force, and it has been sent exactly the translations, in order and with their arguments, of the commands that took effect while its session ran or was paused |
| OrchestratorHistory.StatusIsLatest | simulator-engine/src/application/orchestrator.rs:115-371 | speed, loop flag, file, stage, packet count and shown timestamp are those that the latest input to give one gave |
| OrchestratorHistory.AnswerIs | simulator-engine/src/application/orchestrator.rs:115-317 | a forbidden command is refused as such, one that the source fails says so, a load answers with the metadata of the file, every other with nothing |
| ReplayOrchestrator.SessionEndsIff | simulator-engine/src/application/orchestrator.rs:115-371 | in every reachable state a held session is over iff it is stopped or an end is reported, by whichever scheduler |
| ReplayOrchestrator.AllOverByThemselvesIff | simulator-engine/src/application/orchestrator.rs:195-222 | all through a run sessions end by their own scheduler's report or a stop, iff no earlier scheduler reports its end while a later session runs or is paused |
| ReplayOrchestrator.LateEndEndsTheNext | simulator-engine/src/application/orchestrator.rs:320-345 | a run in which the end of a stopped session completes the next one |
| ReplayOrchestrator.AlwaysLoadedIff | simulator-engine/src/application/orchestrator.rs:195-222 | all through a run metadata is present exactly outside the idle state, iff no end of a session is reported while idle |
| ReplayOrchestrator.LateEndRevives | simulator-engine/src/application/orchestrator.rs:320-345 | a run in which a late end of file makes an unloaded simulator start again without a file |
| ReplayOrchestrator.RecentAreTheLast | simulator-engine/src/application/orchestrator.rs:207-219 | the recent packets are the last hundred reported since the last load or unload that succeeded |
| PlaybackEnd.EofLeavesEnd | simulator-engine/src/domain/replay_scheduler.rs:165-186 | a session that reports the end is over and has left the reader behind the last entry |
| PlaybackEnd.PlaysNothingIff | simulator-engine/src/domain/replay_scheduler.rs:83-112 | every session started over a reader does nothing but report the end iff the reader is behind its last entry |
| PlaybackEnd.SeeksToNearest | simulator-engine/src/application/orchestrator.rs:232-256 | a seek without a session leaves the reader at an entry nearest to the timestamp sought, and a stop at one nearest to the start of the recording |
| PlaybackEnd.NothingPlaysUntilRewound | simulator-engine/src/application/orchestrator.rs:115-371 | after a session has ended and playback is completed, under any commands and reports, there is never anything to play again iff no file is opened and no session started since is stopped before its end is reported |
| PlaybackEnd.PlaybackStaysOver | simulator-engine/src/application/orchestrator.rs:115-371 | so without a load or a stop every later session only reports the end, whatever is started, paused, sought or set |
| PlaybackEnd.QuickStopRewinds | simulator-engine/src/application/orchestrator.rs:245-256 | a stop right behind a start after the end rewinds the reader |
| BitFields.ExtractUint | xtce-decoder/src/domain/decommutation.rs:6-31 | the bit loop yields the number written by the bits of the field, below 2^64, or fails as `UintFailsIff` says |
| BitFields.FieldIsShiftedAndMasked | xtce-decoder/src/domain/decommutation.rs:22-30 | a field is the buffer's big-endian number shifted right to the field's end, modulo 2^width |
| BitFields.FieldSplits | xtce-decoder/src/domain/decommutation.rs:22-30 | a field splits additively at any bit inside it |
| BitFields.UintFailsIff | xtce-decoder/src/domain/decommutation.rs:6-20 | extraction fails iff the field is wider than 64 bits or has a bit beyond the buffer |
| BitFields.ExtractInt | xtce-decoder/src/domain/decommutation.rs:34-50 | sign test, mask and cast give `Int`, which the next row characterises |
| BitFields.IntIsTwosComplement | xtce-decoder/src/domain/decommutation.rs:34-50 | for every width from 1 to 64 the result is the one number of that signed range congruent to the field |
| BitFields.ExtractBinary | xtce-decoder/src/domain/decommutation.rs:95-108 | the bytes at any bit offset, or a failure if the width is no multiple of 8 or the field ends beyond the buffer |
| BitFields.ExtractString | xtce-decoder/src/domain/decommutation.rs:74-92 | the loop with its break gives `Text`, for any notion of valid UTF-8 |
| BitFields.TextBytesIff | xtce-decoder/src/domain/decommutation.rs:81-88 | the text read is the one that stands before the first null byte or the field's end; a null byte saves a field that runs out of the buffer |
| FieldMeanings.BinaryIff | xtce-decoder/src/domain/decommutation.rs:95-108 | a byte string is read iff its width is that of whole bytes and its bits stand in the buffer, at any bit offset |
| FieldMeanings.TextIff | xtce-decoder/src/domain/decommutation.rs:74-92 | a text is read iff it is valid, has no null byte, its bits stand at the start of the field, and it fills the field or eight zero bits follow |
| Decommutation.LayOut | xtce-decoder/src/domain/registry.rs:211-241 | the running-offset loop gives the entries that `LayoutIff` characterises, or fails |
| Decommutation.LayoutIff | xtce-decoder/src/domain/registry.rs:211-241 | layout succeeds iff every reference is known; each entry has the size of its parameter and starts where told or where the one before it ends |
| Decommutation.LayoutTiles | xtce-decoder/src/domain/registry.rs:211-241 | without explicit offsets every bit below the sum of the widths lies in exactly one entry, and no other bit in any |
| Decommutation.Decommute | xtce-decoder/src/domain/decommutation.rs:120-169 | succeeds iff every entry can be read, with all values in order, and otherwise reports the first failure |
| Decommutation.NumbersDecommuteIff | xtce-decoder/src/domain/decommutation.rs:120-169 | a container of integers and booleans of at most 64 bits decommutes iff no entry with a bit in it ends beyond the payload |
| FieldMeanings.EntryReadsIff | xtce-decoder/src/domain/decommutation.rs:120-169 | an entry of any kind is read exactly as what its kind makes of its bits: unsigned numbers reduced to 64-bit signed ones, signed ones in two's complement, floats of 32 or 64 bits, booleans by any set bit, byte strings and texts; everything else fails as a decommutation |
| Decommutation.FieldReads | xtce-decoder/src/domain/decommutation.rs:120-169 | an encoded field of any kind reads back as its value from any bit offset |
| Decommutation.LayoutRoundTrip | xtce-decoder/src/domain/decommutation.rs:120-169 | fields written one after the other and laid out by running offsets decommute to their values: unsigned to 63 bits, signed to 64, booleans, raw floats, byte strings and texts |
| Decommutation.PackedCarries | xtce-decoder/src/domain/decommutation.rs:120-169 | for every bit sequence there is a payload that carries it, so the round trip applies to all fields |
| Decommutation.WideUintWraps | xtce-decoder/src/domain/decommutation.rs:135-138 | a 64-bit unsigned value comes back iff its first bit is not set |
| Decommutation.HighBitReadsNegative | xtce-decoder/src/domain/decommutation.rs:135-138 | a payload for which it does not: 2^63 reads as -2^63 |
| Calibration.CalibratePolynomial | xtce-decoder/src/domain/calibration.rs:7-15 | the running-power loop computes the sum of c_i x^i |
| Calibration.AssembleTerms | xtce-decoder/src/domain/registry.rs:266-283 | the resizing loop builds the coefficients that `AssembledSum` is about |
| Calibration.AssembledSum | xtce-decoder/src/domain/registry.rs:266-283 | terms of different exponents, in any order and with gaps, calibrate to their sum |
| Calibration.AssembledAndLost | xtce-decoder/src/domain/registry.rs:266-283 | for any terms the calibrator computes their sum less the polynomial of the replaced coefficients |
| Calibration.VanishingIsZero | xtce-decoder/src/domain/registry.rs:266-283 | a polynomial that is zero everywhere has only zero coefficients |
| Calibration.ComputesSumIff | xtce-decoder/src/domain/registry.rs:266-283 | the calibrator computes the sum of its terms everywhere iff for every exponent the replaced coefficients add up to zero |
| Calibration.RepeatedExponentLost | xtce-decoder/src/domain/registry.rs:266-283 | of two terms with one exponent, whatever it is, only the second counts |
| Calibration.CalibrateSpline | xtce-decoder/src/domain/calibration.rs:19-63 | the end tests and the segment scan compute `Spline`, which the next rows characterise |
| Calibration.ScanFinds | xtce-decoder/src/domain/calibration.rs:48-63 | for any points the scan behind the end tests finds a segment: the last return is never reached |
| Calibration.SplineIs | xtce-decoder/src/domain/calibration.rs:19-63 | for any points, in any order: none is an error, one a constant, and of several the first two, the last two or the first neighbours that enclose the value make the line |
| Calibration.SplineIsPiecewise | xtce-decoder/src/domain/calibration.rs:19-63 | for knots in order at least 1e-9 apart, calibration is the piecewise linear curve through them, extended on both sides |
| Calibration.HitsKnots | xtce-decoder/src/domain/calibration.rs:19-63 | it hits every knot |
| Calibration.StaysBetween | xtce-decoder/src/domain/calibration.rs:48-60 | between two neighbouring knots it stays between their values |
| Calibration.SplineMonotone | xtce-decoder/src/domain/calibration.rs:19-63 | it is monotone on the whole line, either way, if the knot values are |
| Calibration.InnerKnotHitIff | xtce-decoder/src/domain/calibration.rs:48-60 | for increasing knots, an inner one is hit iff it is at least 1e-9 above the one before or has its value |
| Calibration.CloseKnotMissed | xtce-decoder/src/domain/calibration.rs:48-60 | three knots of which the second is missed |
| Calibration.AnyOrderHitsPoints | xtce-decoder/src/domain/registry.rs:286-303 | points listed in any order, any two far enough apart, make a calibrator that passes through all of them |
| StableSort.SortOrders | xtce-decoder/src/domain/registry.rs:300-300 | the sort returns an ordered rearrangement |
| StableSort.SortIsStable | mission-identification-service/src/domain/lookup.rs:70-71 | the elements of any one key keep their order |
| Continuity.ContinuityEngine.Check | ccsds-decoder/src/domain/continuity.rs:35-67 | verdict and new expectation for first packets, clean ones, duplicates and gaps; no other APID is touched |
| Continuity.ApidsAreIndependent | ccsds-decoder/src/domain/continuity.rs:35-78 | in any interleaving, what is said of an APID depends only on its own packets and resets |
| Continuity.FlagsOfStream | ccsds-decoder/src/domain/continuity.rs:35-67 | gap and duplicate flags of a stream with losses and repeats, counted for losses of any length |
| Continuity.VerdictsOfStream | ccsds-decoder/src/domain/continuity.rs:35-67 | each single verdict of such a stream: the count expected, and gap or duplicate as the missing packets modulo 16384 decide |
| Continuity.ResetStartsAfresh | ccsds-decoder/src/domain/continuity.rs:70-78 | after a reset of an APID, or of all, what is said of it is what a new tracker would say, in any interleaving |
| Continuity.FlagsCountDisturbances | ccsds-decoder/src/domain/continuity.rs:35-67 | in any interleaving gap flags number the loss runs and duplicate flags the repeats, iff no loss run is a multiple of 16384 or one short of it |
| RuleLookup.Resolve | mission-identification-service/src/domain/lookup.rs:21-92 | the nested loops, the sort and the check of the first two give `Resolved`, characterised by the next rows |
| RuleLookup.CandidatesOffered | mission-identification-service/src/domain/lookup.rs:27-60 | the candidates are exactly the matching rules of the registry, scored by specificity |
| RuleLookup.UnidentifiedIff | mission-identification-service/src/domain/lookup.rs:62-68 | a packet is unidentified iff no rule matches |
| RuleLookup.SuccessIsFirstBest | mission-identification-service/src/domain/lookup.rs:70-92 | a success is the first best-scoring match in registry order |
| RuleSpecificity.MatchesIff | mission-identification-service/src/domain/models.rs:11-36 | a rule matches a packet iff one of the patterns it stands for, its source with one number of each list it has, fits the packet; a VCID list asks for a VCID |
| RuleSpecificity.UnidentifiedIffNoneFires | mission-identification-service/src/domain/lookup.rs:62-68 | a packet is unidentified iff no rule of the registry is about it |
| RuleSpecificity.SuccessIsMostSpecific | mission-identification-service/src/domain/lookup.rs:27-92 | a success names the satellite of a rule about the packet such that no rule about it lists more and all before it in the registry list less; its score is 1, 2 or 3 as the rule has neither list, one or both |
| RuleSpecificity.MostSpecificWins | mission-identification-service/src/domain/lookup.rs:70-92 | if one rule about the packet lists more than every other, its satellite is the answer, without ambiguity |
| RuleLookup.AmbiguityRightIff | mission-identification-service/src/domain/lookup.rs:73-90 | ambiguity is reported exactly when two satellites tie, iff the first two best matches belong to two satellites or all of them to one |
| RuleSpecificity.AmbiguousIffFirstTwoDiffer | mission-identification-service/src/domain/lookup.rs:73-90 | ambiguity is reported iff the first two of the most specific rules about the packet, in registry order, belong to different satellites |
| RuleLookup.AmbiguousIffTied | mission-identification-service/src/domain/lookup.rs:73-90 | with distinct satellites, none with two best matches, ambiguity is reported exactly when two satellites tie |
| RuleLookup.TieUnnoticed | mission-identification-service/src/domain/lookup.rs:73-90 | a registry in which a tie between two satellites goes unnoticed |

## Left out

- Message buses, gRPC and HTTP adapters, health and metrics endpoints, logging, error texts, configuration and
  file loading, XML and YAML parsing: the model starts from bytes, parsed definitions, rules and entry lists.
- Expression evaluation (`evalexpr`): any deterministic way to bind an alias and to evaluate an expression.
- IEEE 754: calibration is over the reals, speeds are positive reals with casts that round down, and a float
  field is read as its raw bits; the pass that turns them into a double is not modelled.
- ReplayTiming.SentOnSchedule: delays and timestamps are unbounded, so the saturation and wrap-around of 64-bit
  nanosecond arithmetic are not modelled.
- FileReader.FileReaderAdapter.Seek: the library's binary search is any function that keeps its documented
  promises; on timestamps out of order it promises only that a match it reports is one.
- ReplayScheduler.Run: one session over an unchanged file; two schedulers sharing a source after a quick stop
  and start are not modelled, only their reports to the orchestrator are. A seek commanded during the session
  succeeds, as it does on an open reader; the case in which it is only logged is left out.
- PlaybackEnd.NothingPlaysUntilRewound: the session whose end completed playback is the last one running; an
  earlier one that still runs would go on moving the shared reader.
- Channel capacity and liveness, and the order in which the runtime schedules tasks: a wait ends with whatever
  the script says.
- FrameIndex.Build: the file is a sequence of bytes that does not change while it is scanned; failing reads of
  the operating system are not modelled.
- Decommutation.LayOut: entry nodes and type sizes are given; an unreadable start offset counts as none, as in
  the source. Offsets are unbounded.
- SpacePacket.GeneratedAcceptedIff: the payload and the packed timestamp are arbitrary bytes; the telemetry
  values that the generator puts there are not modelled.
- Calibration.AnyOrderHitsPoints: `sort_by` of the standard library is modelled by a stable insertion sort.
- State calibrators and the engine's choice between raw and calibrated values: table lookups.
- Secondary headers beyond the eight timestamp bytes, wall-clock times, identifiers, envelopes, and the
  progress figure of the status display.

# Verification of the fountain controller firmware

A Dafny 4.11 project that models the parts of the firmware where a mistake is hardest to
see by reading, and proves what each of them promises over every input and every run.
`dafny verify dfyconfig.toml` checks all of it.

Where the source updates state step by step the model does too: a class with the same
fields and loops, whose methods are proved to do what a function on values does. What the
source promises is then proved about that function, as invariants of every run. Each
component has a module or two of specification, a module with the class, and modules of
results:

* **Log ring** (`LogRecord`, `LogLayout`, `LogSpec`, `LogRing`, `LogCursor`): a byte ring of
  variable-length records is a FIFO of records; its iterator decodes them.
* **Pump manager** (`PumpSpec`, `PumpManager`, `PumpSafety`, `PumpRuns`, `PumpCycle`): relay,
  faults, protections, the wear limits over every call sequence, the automatic cycle.
* **Canonical JSON** (`CanonTree`, `CanonText`, `CanonOrder`, `CanonPieces`, `CanonWriter`):
  equal texts mean equal values, whatever the order of object members; what makes the text
  canonical; a buffer whose growth may be refused.
* **CANopen slave** (`CoTypes`, `CoDictionary`, `CoParameters`, `CoPdo`, `CoDispatch`, `CoSdo`,
  `CoNet`, `CoInvariant`, `CoProvenance`, `CoAnswers`, `CoSize`, `CoQuiet`, `CoUpload`,
  `CoDownload`, `CoEffects`, `CoTiming`, `CoSync`, `CoNode`): object dictionary, SDO server,
  PDO engine and NMT of CiA 301 as a state machine over frames, ticks and owner calls;
  transfers end to end with a client conforming to section 7.2.4.3; where every frame and
  every write comes from; timing of TPDOs over whole runs. The application and the bus
  driver are arbitrary functions of what has happened so far.
* **Trial reboot** (`TrialSpec`, `TrialSafety`, `TrialWindow`, `TrialExact`, `TrialDevice`): network configuration on
  trial, with a power loss between any two flash operations.
* **Flash log** (`FlashSlots`, `FlashLog`): two slots across boots, power losses and
  acknowledgements.
* **Pressure ring** (`PressureRing`): samples and a polling client.
* **Datapoints** (`DpDigits`, `Datapoints`, `DpJson`, `DpMeaning`, `DpStore`, `DpReports`,
  `DpConcurrent`, `DpReader`): values through JSON, atomic batches over a byte image, what
  they mean in the values shown, constraints under concurrent writers and readers,
  on-change reports and their mirror.
* **Local server** (`ServerSpec`, `ServerSafety`, `ServerRuns`, `ServerRace`,
  `ServerDelivery`, `LocalServer`, `BufferPool`): every interleaving of the HTTP task and the
  worker; what becomes of a frame.

`Bytes` holds fixed-width integers and little-endian serialisation.

Clocks, received frames and requests are parameters; critical sections are single steps.
32-bit counters wrap as they do in the source, except where a statement says how many
events it is about. Pressures, deadbands and filter values are reals.

What the code does and its description does not say, each with an input at which it shows:

* MANUAL mode can start the pump by itself: a mode change while the pump is in STARTING is
  not looked at (`PumpSafety.TickStarts`, `PumpRuns.StartsInManual`).
* A timed manual run whose deadline is at 900 s of run time ends by the run-time fault, not
  by its deadline (`PumpSafety.DeadlineEndsRun`, `PumpRuns.FaultAtDeadline`).
* The canonical text is cut short without notice when memory runs out, and then different
  values can have equal texts (`CanonPieces.ExactlyShortTexts`,
  `CanonPieces.SameTextWithoutMemory`).
* A segmented download that announces size 0 is written with whatever length it has
  (`CoSize.ExactlyNonzeroSizes`, `CoSize.ZeroRun`).
* An object of length 0 is answered like one of four zero bytes
  (`CoUpload.ExpeditedIffNotEmpty`, `CoUpload.EmptyName`).
* A server session between arming a trial and the reboot destroys the backup the trial
  would fall back to (`TrialExact.ExactlyWithoutEarlySession`,
  `TrialSafety.EarlySessionLosesBackup`).
* A power failure while a session stores the backup leaves a mixture of two configurations,
  which a later trial can fall back to (`TrialExact.ExactlyWholeSaves`,
  `TrialExact.FallsBackToMixture`).
* With three or more local clients a full descriptor queue can make the protocol be called
  for the wrong connection (`ServerRace.ExactlyUpToTwoClients`, `ServerRace.Misdelivers`).
* A reader of configuration points that does not take the lock can see a half-committed
  batch that violates the constraints (`DpReader.ExactlyWithLock`, `DpReader.HalfCommitted`).
* A log slot whose header cannot be read at boot is taken for an invalid one
  (`FlashSlots.UnreadableHeader`, `FlashSlots.LosesLatestBoot`).
* The printer and the parser of 64-bit datapoints, taken as a pair, give a value back only
  below 8 (`DpDigits.ReadBackIffSmall`, `DpDigits.SixteenReadsEight`). The catalogue has two
  such points, both read-only, so no batch it accepts gets there.

## Model

| member | source | states |
|---|---|---|
| LogRecord.FieldsRoundTrip | src/components/logging/src/log_ring.c:186-214 | Every header field of an encoded record reads back as it was given: size, level, module, argument count, event, sequence number, uptime, and TRUNCATED set exactly when the text was cut. |
| LogRecord.ArgRoundTrip | src/components/logging/src/log_ring.c:204-206 | Each signed 32-bit argument reads back, however unaligned its bytes are. |
| LogRecord.TextRoundTrip | src/components/logging/src/log_ring.c:207-211 | The stored C string is the text given, cut to 47 bytes. |
| LogLayout.ChunkHere | src/components/logging/src/log_ring.c:173-184 | In every valid layout (linear, wrapped, with a pending gap, or filled exactly) record `i` lies where hopping from the tail finds it, and a zero size byte is found exactly before the wrap. |
| LogLayout.DroppedIsValid | src/components/logging/src/log_ring.c:53-74 | Dropping the oldest record keeps the layout valid: across the wrapped-to-linear transition, over a gap, and down to the empty ring. |
| LogLayout.DroppedKeepsStarts | src/components/logging/src/log_ring.c:53-74 | Dropping the oldest record moves no other record. |
| LogLayout.PlacedIsValid | src/components/logging/src/log_ring.c:118-157 | Placing a record where there is room keeps the layout valid and makes it the newest; a gap is marked only when the record does not fit behind the head. |
| LogLayout.EvictionsIsLeast | src/components/logging/src/log_ring.c:114-131 | A push evicts the least number of records that makes room, never one more. |
| LogLayout.EvictionsBound | src/components/logging/src/log_ring.c:96-157 | For every capacity and layout a push evicts no more records than it takes minimal ones to cover the bytes that are missing, plus as many again as cover the new record, because the room may have to be found at the start of the buffer. |
| LogSpec.PushEvictsFew | src/components/logging/src/log_ring.c:96-157 | ... which is at most 2 * ceil(needed / 15) <= 12 records. |
| LogSpec.PushedIsFifo | src/components/logging/src/log_ring.c:96-157 | A push appends the record to the history and leaves a suffix of it in the ring; the evicted records are the oldest ones and are counted. |
| LogSpec.RunIsFifo | src/components/logging/src/log_ring.c:53-161 | After every sequence of pushes and clears the ring holds the newest records pushed since the last clear, consecutively numbered, the newest among them; pushes = retained + overwritten + cleared; `first_seq == next_seq - count`. |
| LogSpec.RecordHolds | src/components/logging/src/log_ring.c:96-113 | What of a call is in its record: every field, at most four arguments, the first 47 bytes of the text, marked if there were more. |
| LogRing.LogRing.constructor | src/components/logging/src/log_ring.c:78-85 | The empty ring. |
| LogRing.LogRing.Clear | src/components/logging/src/log_ring.c:87-94 | Clearing empties the ring and keeps the numbering. |
| LogRing.LogRing.DiscardOldest | src/components/logging/src/log_ring.c:47-74 | The in-place discard drops exactly the oldest record of the sequence the bytes stand for. |
| LogRing.LogRing.MakeRoom | src/components/logging/src/log_ring.c:114-135 | The eviction loop ends with room for the record at the head, behind a gap marker if needed. |
| LogRing.LogRing.Push | src/components/logging/src/log_ring.c:96-157 | The in-place push, unaligned byte writes included, refines the push on sequences; it terminates because the record fits an empty ring. |
| LogRing.StoreRecord | src/components/logging/src/log_ring.c:138-149 | The bytes written are exactly the encoding of the record and nothing else changes. |
| LogCursor.RecordAt | src/components/logging/src/log_ring.c:173-184 | The iterator finds the next record, skipping the gap. |
| LogCursor.Cursor.constructor | src/components/logging/src/log_ring.c:164-171 | A cursor starts at the oldest record. |
| LogCursor.Cursor.Next | src/components/logging/src/log_ring.c:186-214 | The i-th step yields the i-th retained record with every field, argument and the text; it ends after the newest. |
| LogCursor.Cursor.Seek | src/components/logging/src/log_ring.c:216-229 | A seek stops before the first record whose number is larger than the given one. |
| LogCursor.SeekIsExact | src/components/logging/src/log_ring.c:216-229 | As long as numbers do not wrap, that leaves exactly the records newer than `since`. |
| LogCursor.ReadSince | src/components/logging/src/logging_core.c:102-136 | Reading since a number with a level filter copies exactly the newer records that pass, oldest first, at most `max`. |
| LogCursor.SelectedIsExact | src/components/logging/src/logging_core.c:115-131 | What a read delivers: exactly the first `max` records that are important enough, in order, each with all its fields; none is passed over while there is room. |
| PumpManager.PumpManager.Update | src/device/pump_manager.c:201-375 | The tick on mutable fields computes the tick of the specification: filters, event, protections, transition. |
| PumpManager.PumpManager.Protect | src/device/pump_manager.c:208-236 | The protections latch the first violated limit. |
| PumpManager.PumpManager.PumpOn | src/device/pump_manager.c:43-51 | Switching on records the start in the 16-entry history. |
| PumpManager.PumpManager.PumpOff | src/device/pump_manager.c:53-58 | Switching off records the stop. |
| PumpManager.PumpManager.LatchFault | src/device/pump_manager.c:33-41 | Latching a fault switches the relay off and records the stop. |
| PumpManager.PumpManager.StartsInLastHour | src/device/pump_manager.c:71-77 | The loop counts the recorded starts of the trailing hour. |
| PumpManager.PumpManager.FiltersUpdate | src/device/pump_manager.c:144-169 | Filter and slope as the specification computes them (reals). |
| PumpManager.PumpManager.OnRequest | src/device/pump_manager.c:379-399 | A remote start is accepted exactly when allowed in this state, by the rest time and by the hourly guard. |
| PumpManager.PumpManager.OffRequest | src/device/pump_manager.c:401-418 | A stop within the minimum run time is deferred. |
| PumpManager.PumpManager.RestartRequest | src/device/pump_manager.c:420-429 | A restart stops the pump at once, whatever the minimum run time. |
| PumpManager.PumpManager.SetMode | src/device/pump_manager.c:431-442 | A mode change. |
| PumpManager.PumpManager.AckFault | src/device/pump_manager.c:444-453 | A fault is acknowledged only with a healthy sensor. |
| PumpSafety.CallEffect | src/device/pump_manager.c:201-453 | Every call keeps relay on iff RUNNING and fault latched iff FAULT, and switches the relay at most once, in a permitted way. |
| PumpSafety.FaultIsLatched | src/device/pump_manager.c:444-453 | FAULT is left by an acknowledge with a healthy sensor and by nothing else, and the pump stays off. |
| PumpSafety.RunningIsSafe | src/device/pump_manager.c:201-330 | A tick that leaves a running pump on has found: sensor healthy, run time below its limit (900 s for a timed manual run, else `max_on_ms`), the dry-run rise met once due, no critical collapse of a pressurised event. |
| PumpRuns.EnvelopeKept | src/device/pump_manager.c:201-453 | The same over every call sequence from the initial state: after each call relay on iff RUNNING and fault latched iff FAULT, a fault is left by a healthy acknowledge alone, and each tick that leaves a running pump on found it within its limits. |
| PumpSafety.FaultHasCause | src/device/pump_manager.c:208-236 | Conversely a tick that stops the pump by a fault names a limit that was violated. |
| PumpSafety.OffIsHonoured | src/device/pump_manager.c:299-330 | A stop requested while the pump runs: through any number of ticks it stays on (unless a fault stops it) until the minimum run time is over, the first tick from then on stops it, and it stays off through all later ticks. |
| PumpSafety.DeadlineEndsRun | src/device/pump_manager.c:211-233 | A timed manual run, through any number of ticks and unless another protection trips, ends by its deadline without a fault if and only if a tick falls at or after the deadline (and the minimum run time) and before 900 s of run time; it ends by the run-time fault if and only if no tick falls there and one comes later. |
| PumpSafety.FullTimeIsFault | src/device/pump_manager.c:379-399 | A start for 900 s or more leaves no such time: its deadline is the time of the fault, so no tick ends the run without one. |
| PumpRuns.FaultAtDeadline | src/device/pump_manager.c:211-226 | Such a run: four concrete calls from the initial state, ticked one millisecond before the deadline and at it, end in the run-time fault. |
| PumpSafety.TickStarts | src/device/pump_manager.c:281-297 | A tick starts the pump if and only if it is in STARTING with a healthy sensor, a free start in the hour and the rest time over. The mode is not asked, so MANUAL mode can start by itself. |
| PumpRuns.StartsInManual | src/device/pump_manager.c:281-297 | Such a start: six concrete calls from the initial state, the last one a tick in MANUAL mode that switches the pump on. |
| PumpRuns.RingCount | src/device/pump_manager.c:43-77 | The 16-slot ring counts the starts of the trailing hour of the full history, up to 16. |
| PumpRuns.GuardExact | src/device/pump_manager.c:284-288 | The ring decides the hourly guard as the full history would, for every history, if and only if the limit is at most 16. |
| PumpRuns.NextKeeps | src/device/pump_manager.c:201-453 | Every call in time order keeps the relay log, the ring and the wear limits in agreement. |
| PumpRuns.EverySwitchWithinLimits | src/device/pump_manager.c:281-347 | Every start and every stop of every run was within the limits at its time: rest time, hourly guard on the full history, minimum run time. |
| PumpRuns.HourlyBound | src/device/pump_manager.c:71-77 | No window of 3,600,000 ms, wherever it begins, holds more starts than a constant limit of at most 16. |
| PumpRuns.RunWear | src/device/pump_manager.c:43-58 | Over every call sequence each start comes at least `min_off_ms` after the last stop, fault stops included, and each non-fault stop by a tick at least `min_on_ms` after its start; the hourly bound holds for both start sites. |
| PumpRuns.LimitsAdjacent | src/device/pump_manager.c:43-58 | The same limits read on neighbouring relay edges. |
| PumpCycle.AutoTick | src/device/pump_manager.c:301-325 | A tick that no protection trips stops an automatic run if and only if the filtered pressure is at least `off_bar` and the run has lasted `min_on_ms`. |
| PumpCycle.AutoRunEnds | src/device/pump_manager.c:301-325 | Through any ticks, unless a fault stops it, an automatic run goes on until the first tick that finds this, and stops there. |
| PumpCycle.OffTick | src/device/pump_manager.c:240-375 | Where a tick leads while the pump is off, state by state: a drop below `on_bar` in AUTO mode, its confirmation or its end, a collapse below `critical_bar`, recovery, lockout until the rest time is over. |
| PumpCycle.StartingTick | src/device/pump_manager.c:281-297 | From STARTING: the pump runs, or the start is one too many for the hour, or it waits for the rest time. |
| PumpCycle.DropIsConfirmed | src/device/pump_manager.c:245-279 | From IDLE in AUTO mode at low pressure, through any ticks: PRESSURE_DROP from the first on, STARTING at the first tick that finds the drop to have lasted `drop_confirm_ms`. |
| PumpCycle.FilterStep | src/device/pump_manager.c:144-169 | A tick leaves the share 1 - alpha of the distance between filtered and measured pressure, nothing at the first; the slope is the change of the filtered pressure per second. |
| PumpCycle.FilterConverges | src/device/pump_manager.c:144-169 | After n ticks at one pressure the share (1 - alpha)^n of the distance is left. |
| PumpCycle.PlateauStep | src/device/pump_manager.c:163-168 | During an event with stable pressure the plateau moves a tenth of the way to the filtered pressure, else it stays. |
| PumpCycle.RunReportsDemand | src/device/pump_manager.c:99-109 | Which demand an automatic run reports, and when it becomes a suspected leak. |
| PumpCycle.FaultShowsDemand | src/device/pump_manager.c:208-236 | A fault shows its cause in the demand: sensor lost, pipe broken; the other faults leave it. |
| PumpCycle.OnTaken | src/device/pump_manager.c:379-399 | When a remote start is taken and what it does to a resting and to a running pump; a refused one changes nothing. |
| PumpCycle.OthersTaken | src/device/pump_manager.c:401-453 | What the other requests do in each state. |
| CanonTree.BeforeIsTotal | src/components/clientside_protocol/src/fp_auth.c:126-129 | The order of names is total on distinct names. |
| CanonTree.SortSorted | src/components/clientside_protocol/src/fp_auth.c:131-137 | Sorting members by name gives an ascending permutation. |
| CanonTree.NormIffEquiv | src/components/clientside_protocol/src/fp_auth.c:131-166 | Two well-formed trees have the same normal form if and only if they are equal as JSON values, member order aside. |
| CanonTree.NormIdempotent | src/components/clientside_protocol/src/fp_auth.c:131-166 | Normalising twice is normalising once. |
| CanonText.RoundTrip | src/components/clientside_protocol/src/fp_auth.c:87-166 | A parser reads back every printed tree, whatever follows in the text. |
| CanonText.CanonRecovers | src/components/clientside_protocol/src/fp_auth.c:87-173 | The canonical text of a well-formed tree (distinct names, NUL-free strings, integers within 9e15) parses to its normal form, which is an equal value. |
| CanonText.CanonIffEquiv | src/components/clientside_protocol/src/fp_auth.c:131-173 | Two well-formed trees have equal canonical texts if and only if they are equal values: no collisions, no trace of member order. |
| CanonText.PrintIsPrintable | src/components/clientside_protocol/src/fp_auth.c:87-104 | No control character and no NUL is ever printed, so the text is its own C string. |
| CanonOrder.BeforeIffDiffers | src/components/clientside_protocol/src/fp_auth.c:126-129 | One name comes before another if and only if at the first place where they differ it ends or has the smaller byte. |
| CanonOrder.CanonIsOrdered | src/components/clientside_protocol/src/fp_auth.c:131-173 | What a parser finds in the canonical text is an equal value, and in every object of it, at any depth, the names ascend in that order. |
| CanonOrder.EscapeIsShortest | src/components/clientside_protocol/src/fp_auth.c:87-104 | Each character of a string is printed in the shortest way a parser takes for it; every other way is longer. |
| CanonOrder.NoLeadingZero | src/components/clientside_protocol/src/fp_auth.c:106-110 | Integers are printed without leading zeros, zero without a sign. |
| CanonOrder.EveryKindIsWellFormed | src/components/clientside_protocol/src/fp_auth.c:106-166 | The values this is about: every kind, integers up to 9e15 either way, any text without NUL. |
| CanonWriter.StringBuffer.constructor | src/components/clientside_protocol/src/fp_auth.c:23-29 | The empty buffer. |
| CanonWriter.StringBuffer.Grow | src/components/clientside_protocol/src/fp_auth.c:31-37 | The capacity doubles until it suffices and the text is kept; refused memory changes nothing. |
| CanonWriter.StringBuffer.Append | src/components/clientside_protocol/src/fp_auth.c:30-41 | Appending adds the piece and a terminator, or nothing at all when the memory for it is refused. |
| CanonPieces.PutAsks | src/components/clientside_protocol/src/fp_auth.c:30-41 | A piece asks for memory once if it does not fit with its terminator, else not at all; what it is granted is the least doubling that holds both. |
| CanonWriter.StringBuffer.EmitString | src/components/clientside_protocol/src/fp_auth.c:87-104 | The loop hands on, character by character, the string as section 3.2.2.2 of RFC 8785 escapes it, whatever memory is granted. |
| CanonWriter.SortByName | src/components/clientside_protocol/src/fp_auth.c:135-137 | The in-place sort permutes the member array, and names that are distinct ascend afterwards, byte by byte. |
| CanonWriter.CanonWrite | src/components/clientside_protocol/src/fp_auth.c:131-166 | The recursive writer makes of the buffer what the pieces of the normal form make of it, whatever memory is granted. |
| CanonWriter.WriteArray | src/components/clientside_protocol/src/fp_auth.c:147-154 | Items in order, separated by commas. |
| CanonWriter.WriteObject | src/components/clientside_protocol/src/fp_auth.c:132-146 | Members sorted by name, separated by commas. |
| CanonWriter.CanonBuild | src/components/clientside_protocol/src/fp_auth.c:168-173 | The text built is the canonical text if and only if no piece was dropped; the result does not tell. |
| CanonPieces.PiecesText | src/components/clientside_protocol/src/fp_auth.c:131-166 | The pieces of a tree, put together, are its text. |
| CanonPieces.ExactIffNothingLost | src/components/clientside_protocol/src/fp_auth.c:30-41 | For every behaviour of the memory the built text is the canonical one if and only if no piece was dropped. |
| CanonPieces.ExactlyShortTexts | src/components/clientside_protocol/src/fp_auth.c:23-41 | The built text is the canonical one whatever memory is granted, if and only if it is shorter than 128 bytes. |
| CanonPieces.SameTextWithoutMemory | src/components/clientside_protocol/src/fp_auth.c:30-41 | Such texts: without memory all strings of 126 letters or more have one text, so different values have equal texts. |
| CoDictionary.ValidateIffOk | src/components/canopen/src/co_core.c:306-328 | Mapping validation accepts exactly: widths in {8, 16, 32, 64}, at most 64 bits in all, existing objects, for a TPDO with the mapped length, for an RPDO with index >= 0x2000. |
| CoDictionary.WriteKeepsMappings | src/components/canopen/src/co_core.c:183-300 | No object write, whatever it targets, leaves a malformed mapping behind, and none touches the NMT state or the transfer in progress. |
| CoDictionary.WriteBeyondProfile | src/components/canopen/src/co_core.c:294-300 | A write to an index >= 0x2000 changes nothing but the application. |
| CoParameters.IdentityRead | src/components/canopen/src/co_core.c:101-135 | What the identity objects read: device type, error register, vendor, product, revision, serial number, names (cut to 31 bytes), heartbeat period. |
| CoParameters.AcceptedIffTaken | src/components/canopen/src/co_core.c:183-300 | Exactly which writes to the communication profile are accepted: lengths, ranges, a COB-ID that does not move an enabled PDO, a mapping that is valid, an entry while there is no mapping. A refused write changes nothing. |
| CoParameters.WrittenIsRead | src/components/canopen/src/co_core.c:101-300 | An accepted value is what is read afterwards; a COB-ID keeps its identifier and its invalid bit. |
| CoParameters.WriteIsLocal | src/components/canopen/src/co_core.c:183-300 | A write to one parameter leaves what every other object reads as it was. |
| CoParameters.ReadRefused | src/components/canopen/src/co_core.c:101-176 | A refused read names what is missing: the object, or the subindex. |
| CoParameters.WriteRefused | src/components/canopen/src/co_core.c:183-282 | A refused write is refused for the reason its abort code names. |
| CoPdo.PackThenApply | src/components/canopen/src/co_core.c:332-347 | Packing a TPDO and applying it through an RPDO with the same mapping writes exactly the bytes read, object by object. |
| CoPdo.ShortFrameWritesNothing | src/components/canopen/src/co_core.c:394-414 | A frame shorter than the mapping writes nothing; unless the node is stopped it is reported by exactly one EMCY frame with code 0x8210, the updated error register and five zero bytes. |
| CoDispatch.RpdoDispatch | src/components/canopen/src/co_core.c:434-461 | A frame reaches the first enabled RPDO with its identifier and no other: kept for the next SYNC or written at once, each mapped object with its part of the frame; with no such RPDO nothing happens. |
| CoDispatch.RemoteRequest | src/components/canopen/src/co_core.c:434-447 | A remote request is answered by the first enabled TPDO with its identifier: one frame there with the current values; with no such TPDO nothing happens. |
| CoSdo.AssemblesMore | src/components/canopen/src/co_core.c:554-584 | A segment with the right toggle bit extends a well-formed download, and the last one completes it if it fits the buffer and the length is the expected one; 0 stands for no expectation, also when the request announces size 0. |
| CoInvariant.NextOk | src/components/canopen/src/co_core.c:586-767 | Every frame, tick and owner call keeps: valid mappings, a well-formed transfer (position within the buffer, an upload not finished), no transfer while STOPPED, a permitted trace. |
| CoInvariant.RunIsSafe | src/components/canopen/src/co_core.c:394-767 | In every run: PDOs left only in OPERATIONAL, SDO and EMCY frames never in STOPPED, a heartbeat reported boot-up or the state it was sent in, and every object written by a segmented download came from a complete one: right toggle bits, not over-long, of the announced size if one other than 0 was announced. |
| CoSize.ZeroRun | src/components/canopen/src/co_core.c:542-571 | With 0 announced the promise fails: two frames from the initial state announce size 0 and have seven bytes written. |
| CoSize.ExactlyNonzeroSizes | src/components/canopen/src/co_core.c:542-584 | In every run each segmented download whose request announces a given size writes exactly that many bytes, if and only if the size is not 0. |
| CoInvariant.NmtFollowsCommands | src/components/canopen/src/co_core.c:607-645 | The NMT state follows the commands addressed to the node and nothing else; a reset ends in PRE-OPERATIONAL with all PDOs disabled and the boot-up message pending; stopping ends a transfer. |
| CoInvariant.PdosLeaveParameters | src/components/canopen/src/co_core.c:394-461 | No PDO frame and no SYNC changes an NMT, SDO or PDO parameter. |
| CoProvenance.MappedWritesAreHeard | src/components/canopen/src/co_core.c:394-461 | In every run each object written by an RPDO, at once or at a later SYNC, has its bytes from a frame received in OPERATIONAL at the identifier of an enabled RPDO. |
| CoProvenance.EveryEventIsJustified | src/components/canopen/src/co_core.c:332-767 | In every run each frame sent is at its own identifier (SDO 0x580, heartbeat 0x700, emergency 0x80, each plus the node number, PDOs at their COB-ID), and a PDO shows the values its objects had then. |
| CoAnswers.WrongCommand | src/components/canopen/src/co_core.c:586-602 | The answer to a request that does not fit the state of the server, with its abort code; an abort by the client ends the transfer. |
| CoAnswers.WrongSegment | src/components/canopen/src/co_core.c:504-584 | A wrong toggle bit, too many bytes, a length that is not the expected one, a size that does not fit: each ends the transfer with its abort code. |
| CoAnswers.Commands | src/components/canopen/src/co_core.c:607-645 | What each NMT command does to the whole node: start forgets what was sent, stop ends a transfer, a reset brings the predefined identifiers with all PDOs disabled; only a node reset clears the error register; other commands, and those for other nodes, change nothing. |
| CoAnswers.OwnerConfiguresTpdo | src/components/canopen/src/co_core.c:696-712 | A TPDO configuration by the owner reads back through the object dictionary; one that is not valid changes nothing. |
| CoAnswers.OwnerConfiguresRpdo | src/components/canopen/src/co_core.c:714-727 | Likewise for RPDOs. |
| CoAnswers.OwnerCalls | src/components/canopen/src/co_core.c:769-780 | The other calls of the owner: a TPDO request forgets what was sent, a heartbeat period reads back and starts anew. |
| CoAnswers.EmergencyTells | src/components/canopen/src/co_core.c:665-677 | An emergency sets or clears its bits of the error register and sends code, register and manufacturer bytes, unless the node is stopped. |
| CoAnswers.Timeout | src/components/canopen/src/co_core.c:758-767 | A transfer nobody continues for more than a second is ended by the next tick with code 0x05040000, and not before. |
| CoAnswers.BeatGrows | src/components/canopen/src/co_core.c:647-663 | The boot-up message until the driver takes it, then heartbeats with the state when due. |
| CoAnswers.HeartbeatOnTime | src/components/canopen/src/co_core.c:647-663 | Through ticks at any times a heartbeat follows the one before at the first tick after the period, and not before. |
| CoQuiet.QuietUnnoticed | src/components/canopen/src/co_core.c:735-767 | Steps that are no SDO request, no stop or reset and no overdue tick leave the transfer, the SDO frames sent and the SDO writes as they are. |
| CoUpload.UploadIsExact | src/components/canopen/src/co_core.c:480-524 | A conforming client gets any object of 5 to 128 bytes as it was read at initiate, in ceil(length / 7) segments with alternating toggle bits, the last bit on the final one only, with any quiet steps in between. |
| CoUpload.ExpeditedIffNotEmpty | src/components/canopen/src/co_core.c:487-491 | An object of up to 4 bytes is delivered at once; the client recovers it if and only if it is not empty. |
| CoUpload.EmptyName | src/components/canopen/src/co_core.c:487-491 | Such an object: a node with an empty device name answers a read of 0x1008 with 0x53 and four zero bytes, which the client takes for the value. |
| CoDownload.DownloadIsExact | src/components/canopen/src/co_core.c:526-584 | A segmented download of any value up to 128 bytes, cut into any segments, size announced or not, makes exactly one object write with exactly those bytes, none before the last segment; the client learns the outcome. |
| CoDownload.ExpeditedIsExact | src/components/canopen/src/co_core.c:530-540 | An expedited download of 1 to 4 bytes writes the object once with those bytes; the answer is the acknowledgement or the abort code. |
| CoEffects.TickEffect | src/components/canopen/src/co_core.c:758-767 | A tick sends a TPDO once if it is due and does nothing else to it. |
| CoEffects.SyncEffect | src/components/canopen/src/co_core.c:416-432 | A SYNC sends an acyclic TPDO on change and counts a cyclic one. |
| CoEffects.TickSendsExactly | src/components/canopen/src/co_core.c:364-392 | Exactly which TPDOs a tick sends, if the driver takes them: enabled, event-driven, readable, not inhibited, and due by timer or by change; each once. |
| CoEffects.SyncSendsExactly | src/components/canopen/src/co_core.c:416-432 | Exactly which TPDOs a SYNC sends, and how it counts for the others. |
| CoTiming.InhibitTimeKept | src/components/canopen/src/co_core.c:379-392 | In every run a tick that sends a TPDO does so no sooner after its last transmission than the inhibit time rounded up to ms (unless a restart, a request or a reconfiguration lifted it), however often the 32-bit clock has wrapped. |
| CoTiming.EventTimerKept | src/components/canopen/src/co_core.c:379-392 | With frames accepted, objects readable and ticks at most d apart, a TPDO is never left unsent for longer than max(event, inhibit) + d, at any step of the run and up to its end, where it is not overdue. |
| CoTiming.FirstTickSends | src/components/canopen/src/co_core.c:379-392 | The first tick after a restart, a request or a reconfiguration sends. |
| CoSync.EveryKthSync | src/components/canopen/src/co_core.c:416-432 | On N SYNCs a type-k TPDO goes out (c + N) / k times from a count of c, so floor(N / k) times from a fresh one, in every run that stays OPERATIONAL with frames accepted, mapped objects readable at each SYNC, its parameters not rewritten and no remote request for it. |
| CoNode.Slave.constructor | src/components/canopen/src/co_core.c:682-694 | A new node is the initial one: node number corrected to 127, PDOs disabled, boot-up pending. |
| CoNode.Slave.NodeReset | src/components/canopen/src/co_core.c:607-628 | Reset in place. |
| CoNode.Slave.MapValidate | src/components/canopen/src/co_core.c:306-328 | The validation loop computes the abort code of the first entry that cannot be mapped. |
| CoNode.Slave.OdWrite | src/components/canopen/src/co_core.c:183-300 | Object writes in place: communication and mapping parameters, heartbeat, the application. |
| CoNode.Slave.TpdoBuild | src/components/canopen/src/co_core.c:332-347 | The packing loop. |
| CoNode.Slave.TpdoTick | src/components/canopen/src/co_core.c:379-392 | The TPDO loop of a tick. |
| CoNode.Slave.RpdoApply | src/components/canopen/src/co_core.c:394-414 | The RPDO loops: length first, then the writes. |
| CoNode.Slave.SyncRx | src/components/canopen/src/co_core.c:416-432 | SYNC: all TPDOs, then the buffered RPDOs. |
| CoNode.Slave.PdoRx | src/components/canopen/src/co_core.c:434-461 | Remote requests and RPDO frames. |
| CoNode.Slave.SdoUploadInitiate | src/components/canopen/src/co_core.c:480-502 | Start of an upload over the shared 128-byte buffer. |
| CoNode.Slave.SdoUploadSegment | src/components/canopen/src/co_core.c:504-524 | One upload segment out of the buffer. |
| CoNode.Slave.SdoDownloadInitiate | src/components/canopen/src/co_core.c:526-552 | Start of a download. |
| CoNode.Slave.SdoDownloadSegment | src/components/canopen/src/co_core.c:554-584 | One download segment into the buffer, and the write after the last. |
| CoNode.Slave.SdoRx | src/components/canopen/src/co_core.c:586-602 | Dispatch on the command. |
| CoNode.Slave.NmtRx | src/components/canopen/src/co_core.c:630-645 | NMT commands. |
| CoNode.Slave.HeartbeatTick | src/components/canopen/src/co_core.c:647-663 | Boot-up message and heartbeat. |
| CoNode.Slave.Emcy | src/components/canopen/src/co_core.c:665-677 | Emergency message and error register. |
| CoNode.Slave.OnFrame | src/components/canopen/src/co_core.c:735-751 | A received frame does in place what the step on values does. |
| CoNode.Slave.OnTick | src/components/canopen/src/co_core.c:758-767 | A tick does in place what the step on values does. |
| CoNode.Slave.TpdoConfigure | src/components/canopen/src/co_core.c:696-712 | Configuration by the owner; accepted exactly when the mapping validates. |
| CoNode.Slave.RpdoConfigure | src/components/canopen/src/co_core.c:714-727 | Likewise for RPDOs. |
| CoNode.Slave.TpdoRequest | src/components/canopen/src/co_core.c:769-772 | A request by the owner. |
| CoNode.Slave.HeartbeatSet | src/components/canopen/src/co_core.c:776-780 | Heartbeat period set by the owner. |
| TrialSpec.SavePrefix | src/components/datapoints/datapoints.c:395-417 | A save interrupted by a power loss leaves a prefix of the keys new, the rest old, and everything else untouched. |
| TrialSafety.AtMostOneTrialBoot | src/network/network_config.c:171-262 | Once flag 1 is durable, and with no session before the reboot: for all power losses between flash operations, partial saves, restores and timeouts, until a session confirms, only the first boot that connects may use anything but the backup stored at arming. |
| TrialSafety.NextBootRollsBack | src/network/network_config.c:247-257 | The boot after an unconfirmed one that keeps its power connects with the backup and ends with no trial pending. |
| TrialWindow.WindowOpens | src/network/network_config.c:233-246 | The boot of an armed device connects with the configuration on trial and opens a window of 120 seconds. |
| TrialWindow.WindowEnds | src/network/network_config.c:264-272 | While the power lasts, a tick at or after the end of the window falls back: the backup in memory and in flash, flag 3, no trial active; an earlier tick does nothing. |
| TrialWindow.TrialEnds | src/network/network_config.c:233-272 | Through any ticks after the trial boot, with no session: on trial until a tick is 120 seconds past the boot, fallen back from then on. |
| TrialWindow.NextBootIsOnBackup | src/network/network_config.c:233-272 | ... and the next boot connects with the backup, with no trial pending. |
| TrialWindow.ConfirmedIsDurable | src/network/network_config.c:274-283 | A session within the window confirms exactly when the flag is erased in flash; if the power fails before, the flag still says that the trial is unconfirmed. |
| TrialSafety.EarlySessionLosesBackup | src/network/network_config.c:122-153 | Why the condition is needed: a session between arming and reboot makes the untested configuration the backup, and two boots connect with it. |
| TrialExact.ExactlyWithoutEarlySession | src/network/network_config.c:122-262 | A trial of any configuration other than the backup falls back to it, in all runs of all devices that arm it, if and only if no session is allowed between arming and reboot. |
| TrialExact.ExactlyWholeSaves | src/network/network_config.c:122-153 | Over every run of steps, writes and armings the backup in flash is a configuration some session stored, if and only if the power never fails while a session is handled. |
| TrialExact.FallsBackToMixture | src/network/network_config.c:122-257 | Such a run: the power fails in the save of the backup, after server and addresses and before SSID and password; a later trial falls back to the mixture, which no session ever had. |
| TrialSafety.SessionConfirms | src/network/network_config.c:274-283 | A session within the window confirms the configuration unless the power fails before the flag is erased. |
| TrialSafety.ConfirmedIsKept | src/network/network_config.c:122-153 | A confirmed configuration is used by every later boot, even if the power fails while it becomes the backup. |
| TrialDevice.Unit.constructor | src/network/network_config.c:33-37 | A device with these keys in flash. |
| TrialDevice.Unit.ConfigSave | src/components/datapoints/datapoints.c:395-417 | Saving key by key. |
| TrialDevice.Unit.TrialSet | src/network/network_config.c:51-59 | Writing or erasing the flag. |
| TrialDevice.Unit.Backup | src/network/network_config.c:122-153 | Copying the configuration to the backup, only if it differs. |
| TrialDevice.Unit.RestoreFromBackup | src/network/network_config.c:157-169 | Copying it back. |
| TrialDevice.Unit.TrialReboot | src/network/network_config.c:195-211 | Arming; refused without a backup. |
| TrialDevice.Unit.Rollback | src/network/network_config.c:222-231 | Restore, save, flag 3, in this order. |
| TrialDevice.Unit.BootCheck | src/network/network_config.c:233-262 | The check at boot. |
| TrialDevice.Unit.OnTick | src/network/network_config.c:264-272 | The end of the window. |
| TrialDevice.Unit.Confirm | src/network/network_config.c:274-283 | The confirmation. |
| TrialDevice.Unit.SessionReady | src/main/main.c:125-135 | Confirm first, then back up. |
| TrialDevice.Unit.Boot | src/main/main.c:458-514 | Load, defaults, check, connect, in this order. |
| TrialDevice.Unit.DefaultsApply | src/network/network_config.c:83-118 | Defaults only if there is no SSID. |
| FlashSlots.BootSpares | src/components/logging/src/logging_flash.c:131-155 | A boot that reads both headers never takes the slot of the most recent boot that completed its header, gives its own slot the largest generation, and offers the spared one unless the boot ids agree. |
| FlashSlots.OwnIsLeastLoss | src/components/logging/src/logging_flash.c:139-144 | Whatever is in flash, the slot taken is one without a header, or an acknowledged one, or else not the newer one. |
| FlashSlots.OfferIsUnread | src/components/logging/src/logging_flash.c:146-155 | What a boot offers is in the other slot, unacknowledged, and from another boot. |
| FlashSlots.LatestBootSurvives | src/components/logging/src/logging_flash.c:119-171 | Over every run of boots, power losses (also between erase and header), appends and acknowledgements that slot is intact, unacknowledged and under the largest generation. |
| FlashSlots.AckSafe | src/components/logging/src/logging_flash.c:217-233 | An acknowledgement never hits the slot of the running boot or the newest one. |
| FlashSlots.AckIsDurable | src/components/logging/src/logging_flash.c:217-233 | When an acknowledgement is taken, and that it is in flash then: the records are not offered again, and the next boot reuses their slot. |
| FlashSlots.UnreadableHeader | src/components/logging/src/logging_flash.c:135-145 | Exactly when an unreadable header makes a boot take that slot. |
| FlashSlots.LosesLatestBoot | src/components/logging/src/logging_flash.c:135-171 | Such a run: boot, log a record, boot again with that header unreadable. The record is gone although the other slot was free, and nothing is on offer. |
| FlashLog.NextBootReads | src/components/logging/src/logging_flash.c:146-151 | What a completed boot logged is what the next completed boot offers. |
| FlashLog.SelectedFilters | src/components/logging/src/logging_flash.c:200-214 | A read keeps the order, drops the records that are not important enough, and nothing else. |
| FlashLog.SelectedCut | src/components/logging/src/logging_flash.c:200-214 | With a limit it delivers the first so many of these. |
| FlashLog.Store.constructor | src/components/logging/src/logging_flash.c:59-67 | Empty slots. |
| FlashLog.Store.Init | src/components/logging/src/logging_flash.c:119-171 | Slot choice, erase and header in place, wherever the power fails. |
| FlashLog.Store.Append | src/components/logging/src/logging_flash.c:84-103 | Appending a record to the own slot. |
| FlashLog.Store.ReadPreviousBoot | src/components/logging/src/logging_flash.c:194-215 | Reading back the records up to a level, oldest first. |
| FlashLog.Store.AckPreviousBoot | src/components/logging/src/logging_flash.c:217-233 | The acknowledgement and when it is refused. |
| FlashLog.Choose | src/components/logging/src/logging_flash.c:139-144 | The slot choice. |
| FlashLog.Select | src/components/logging/src/logging_flash.c:200-214 | The reading loop. |
| PressureRing.Ring.constructor | src/components/pressure_history/src/pressure_ring.c:15-22 | The empty ring. |
| PressureRing.Ring.Push | src/components/pressure_history/src/pressure_ring.c:24-42 | A push appends one sample with the next number; the array holds the newest samples, and `overwritten` = pushes - count. |
| PressureRing.Ring.ReadSince | src/components/pressure_history/src/pressure_ring.c:44-64 | A read copies exactly the retained samples with larger numbers, oldest first, at most `max`, and nothing beyond. |
| PressureRing.Ring.FirstSeq | src/components/pressure_history/src/pressure_ring.c:68 | The number of the oldest retained sample. |
| PressureRing.PollExact | src/components/pressure_history/src/pressure_ring.c:44-64 | A poll with the last number received skips exactly the samples evicted since and brings the next ones without a gap. |
| PressureRing.NothingLostSilently | src/components/pressure_history/src/pressure_ring.c:24-64 | For every interleaving of pushes and polls what has come is what was pushed, unmodified, in order and once; what is missing had been evicted before the poll. |
| Datapoints.ParsedSize | src/components/datapoints/datapoints.c:134-184 | A value that parses fills its slot exactly. |
| DpDigits.ReadBackIffSmall | src/components/datapoints/datapoints.c:121-125 | A 64-bit value printed as sixteen hexadecimal digits is read back by the parser (base announced by the text) if and only if it is less than 8. |
| DpDigits.SixteenReadsEight | src/components/datapoints/datapoints.c:160-170 | Such a value: 16 comes back as 8. |
| DpJson.ReadBack | src/components/datapoints/datapoints.c:108-184 | A slot shown in a report and written back is unchanged: always for truth values and strings, for numbers exactly when they are in the range of the point, for 64-bit values exactly below 8. |
| DpJson.WriteLeavesClean | src/components/datapoints/datapoints.c:134-184 | Every slot a write leaves is of the form the last row speaks about. |
| Datapoints.StagedIs | src/components/datapoints/datapoints.c:241-250 | The private copy is the image with exactly the slots of the batch replaced, the last item for a point deciding; padding untouched. |
| Datapoints.CommitIsStaged | src/components/datapoints/datapoints.c:262-271 | Copying the named slots back gives the private copy. |
| Datapoints.CommittedSlots | src/components/datapoints/datapoints.c:266-271 | During the commit each slot has the copy's value if already named, else its old one. |
| Datapoints.ConstraintsDependOnFields | src/components/datapoints/datapoints.c:364-381 | The cross-field constraints look at nothing but their own nine points. |
| DpMeaning.ConstraintsMean | src/components/datapoints/datapoints.c:364-381 | The cross-field checks accept exactly the sensible configurations, in the values a report shows: ascending pressures, on-times, interval, bit rate. |
| DpMeaning.ViolationBlames | src/components/datapoints/datapoints.c:364-381 | For a configuration that is not sensible they blame the point of the first fault. |
| DpMeaning.NoErrorsMeans | src/components/datapoints/datapoints.c:241-250 | A batch has no errors if and only if each item names a writable point and has its type, range and length. |
| DpMeaning.ErrorsExplain | src/components/datapoints/datapoints.c:241-250 | The errors name the items that cannot be written, in order, each with its reason. |
| DpMeaning.WrittenIsShown | src/components/datapoints/datapoints.c:108-184 | A value that can be written is shown again: truth values and text as they are, whole numbers cut towards zero, 64-bit values as the number the text says. |
| DpMeaning.BatchShown | src/components/datapoints/datapoints.c:223-281 | After a batch each point it names shows the value of the last item that names it, the others are as they were. |
| DpDigits.DecimalRead | src/components/datapoints/datapoints.c:160-170 | Decimal text is read as its number, or as the largest value if that is too large. |
| DpDigits.HexRead | src/components/datapoints/datapoints.c:160-170 | Hexadecimal text behind 0x is read as its number. |
| DpStore.Store.constructor | src/components/datapoints/datapoints.c:43-56 | The zeroed image. |
| DpStore.Store.FindName | src/components/datapoints/datapoints.c:79-85 | Linear lookup by name. |
| DpStore.Store.Stage | src/components/datapoints/datapoints.c:226-250 | Validation of all items on a private copy; all errors are collected. |
| DpStore.Store.Commit | src/components/datapoints/datapoints.c:266-271 | The commit loop. |
| DpStore.Store.WriteBatch | src/components/datapoints/datapoints.c:223-281 | All or nothing: accepted exactly when every item can be written and the result is sensible; then exactly the named slots change. Otherwise the errors explain the items, or name the point of the first fault. |
| DpStore.Store.ReportFull | src/components/datapoints/datapoints.c:286-302 | The full report; the baseline becomes the snapshot. |
| DpStore.Store.ReportFullNoReset | src/components/datapoints/datapoints.c:307-322 | The report for another consumer leaves the baseline alone. |
| DpStore.Store.ReportChanges | src/components/datapoints/datapoints.c:324-359 | The on-change report and the advanced baseline. |
| DpReports.FullSets | src/components/datapoints/datapoints.c:286-302 | A receiver that applies a full report has every reported point. |
| DpReports.ChangesFollow | src/components/datapoints/datapoints.c:324-359 | A change report keeps baseline and receiver equal and leaves every eligible point close. |
| DpReports.MirrorFaithful | src/components/datapoints/datapoints.c:286-359 | After every report the receiver agrees with each eligible discrete point exactly and with each deadband F32 point to strictly less than its deadband, however the image moves and whatever local sessions are told, once baseline and receiver agree. |
| DpReports.MirrorFromFirstReport | src/components/datapoints/datapoints.c:286-359 | They do from the first full report on, whatever the baseline and the receiver held before. |
| DpReports.MirrorShows | src/components/datapoints/datapoints.c:286-359 | The same spelled out for each point: exact for truth values and enumerations, less than the deadband away for F32 points that have one. |
| DpReports.ChangesAreWorth | src/components/datapoints/datapoints.c:324-359 | An on-change report has one entry with the current value for each point that has moved enough, and none for any other. |
| DpConcurrent.ConstraintsKept | src/components/datapoints/datapoints.c:231-272 | Over every interleaving of batches and lock-free measurements the constraints, once they hold, hold whenever no batch is being committed, so in every snapshot. |
| DpConcurrent.SensibleKept | src/components/datapoints/datapoints.c:231-272 | The same in the values a report shows: a sensible configuration stays one. |
| DpConcurrent.UnlockedReadMayViolate | src/components/datapoints/datapoints.c:262-271 | A read without the lock between two slots of a commit can see them violated. |
| DpReader.HalfCommitted | src/components/datapoints/datapoints.c:266-271 | Such a read: nine points with their names in the source, a batch that raises both switching pressures, and two steps; for any conversions that keep small whole numbers (`DpReader.SomeCodec` gives one). |
| DpReader.ExactlyWithLock | src/components/datapoints/datapoints.c:231-272 | A reader finds the constraints met in every run from every good store if and only if it takes the lock; for any conversions that keep small whole numbers (`DpReader.SomeCodec` gives one). |
| DpConcurrent.BatchIsAtomic | src/components/datapoints/datapoints.c:223-281 | An accepted batch ends with exactly its own points changed and every measurement made meanwhile kept. |
| DpConcurrent.MeasurementShows | src/components/datapoints/datapoints.c:262-271 | A measurement is in the image at once, whoever has the lock, and touches no other point. |
| ServerSafety.PermitsKept | src/network/local_server/local_server.c:106-191 | Free permits + active sessions + permits on their way = the maximum. |
| ServerSafety.GrantedFindsSlot | src/network/local_server/local_server.c:161-176 | A handler with a permit always finds a free slot; the fallback is dead. |
| ServerSafety.HandlerBuffers | src/network/local_server/local_server.c:122-133 | Handler steps keep: each buffer in use has exactly one holder. |
| ServerSafety.WorkerBuffers | src/network/local_server/local_server.c:271-297 | Worker steps keep it too. |
| ServerSafety.HandlerCloses | src/network/local_server/local_server.c:136-144 | Handler steps keep: each active slot will be given back by exactly one party. |
| ServerSafety.WorkerCloses | src/network/local_server/local_server.c:292-294 | Worker steps keep it; a queued CLOSE is never stale. |
| ServerRuns.ServerConserves | src/network/local_server/local_server.c:106-297 | Over all interleavings: buffers in use = frames queued or held; permits + active + in flight = maximum; each connection's slot is returned exactly once. |
| ServerRuns.CallsKept | src/network/local_server/local_server.c:280-291 | A protocol call reaches the producing connection unless the handler cleaned a slot up after the worker's look at the table. |
| ServerRuns.RoomForClose | src/network/local_server/local_server.c:136-144 | With at most two clients a CLOSE always finds room in the queue of eight. |
| ServerRuns.FaithfulUpToTwo | src/network/local_server/local_server.c:271-297 | So with at most two clients every descriptor reaches only its own connection. |
| ServerDelivery.FrameQueued | src/network/local_server/local_server.c:189-241 | A text frame for an open session is queued with a buffer of its own if one is free and the queue has room; else nothing is left of it. |
| ServerDelivery.FrameHandled | src/network/local_server/local_server.c:285-289 | The protocol is called for a frame exactly when its connection is in the slot and not closing; its buffer is free afterwards. |
| ServerDelivery.CloseHandled | src/network/local_server/local_server.c:290-293 | A CLOSE for the connection in the slot ends its session and gives its permit back. |
| ServerDelivery.QueueIsDelivered | src/network/local_server/local_server.c:271-297 | While no session changes the worker delivers all queued frames, in order, each to its own connection, and frees their buffers. |
| ServerRace.Misdelivers | src/network/local_server/local_server.c:136-144 | The race: the inline clean-up on a full queue, between the worker's check and its dispatch, lets the protocol be called for another connection. |
| ServerRace.ExactlyUpToTwoClients | src/network/local_server/local_server.c:106-297 | Every descriptor of every run reaches only its own connection if and only if the server is built for at most two clients. |
| BufferPool.Pool.constructor | src/network/local_server/local_buffer_pool.c:15-19 | All buffers free. |
| BufferPool.Pool.Acquire | src/network/local_server/local_buffer_pool.c:21-34 | The first free buffer; none exactly when all are in use. |
| BufferPool.Pool.Release | src/network/local_server/local_buffer_pool.c:36-42 | Releasing frees that buffer only. |
| BufferPool.Pool.InUse | src/network/local_server/local_buffer_pool.c:44-52 | The number of buffers in use. |
| BufferPool.AcquireRelease | src/network/local_server/local_buffer_pool.c:21-42 | A buffer is not handed out twice before its release, and releasing undoes acquiring. |
| LocalServer.Tasks.constructor | src/network/local_server/local_server.c:373-380 | The idle server. |
| LocalServer.Tasks.Enqueue | src/network/local_server/local_server.c:122-133 | Queueing never blocks; what does not fit is dropped. |
| LocalServer.Tasks.OnHandshake | src/network/local_server/local_server.c:154-160 | A handshake takes a permit or is rejected. |
| LocalServer.Tasks.Activate | src/network/local_server/local_server.c:161-185 | The first free slot is taken for a new connection. |
| LocalServer.Tasks.OnTextFrame | src/network/local_server/local_server.c:189-241 | A text frame takes a buffer, if the session is open and one is free. |
| LocalServer.Tasks.OnSocketEnd | src/network/local_server/local_server.c:136-144 | The end of a socket marks the session as closing. |
| LocalServer.Tasks.Handle | src/network/local_server/local_server.c:106-144 | The remaining handler steps: queue or drop, inline clean-up, permit back. |
| LocalServer.Tasks.Work | src/network/local_server/local_server.c:271-297 | The worker steps: take, check, dispatch, release, clean up, permit back. |

## Left out

- LogRing.LogRing.Push: the record must fit an empty ring; with a smaller buffer the eviction loop of the source does not end. Whole runs assume a capacity of at least 78 bytes, the largest record.
- LogCursor.Cursor.Next: iterating over a buffer that was corrupted from outside, where the source stops early.
- PumpManager.PumpManager.FiltersUpdate: IEEE rounding and NaN; flow, volume, anomaly score, minimum and maximum of an event and the run-time meters are not modelled.
- CanonText.CanonRecovers: numbers outside the integer branch (`%.17g` printing), the order of RFC 8785 by UTF-16 units (the source compares bytes), names that occur twice in an object.
- CanonWriter.CanonWrite: the array of children is assumed to be allocated.
- CanonWriter.CanonBuild: the first 128 bytes are assumed to be allocated.
- CoNode.Slave.OnFrame: statistics counters and master presence; the owner's reset and NMT callbacks are calls that follow the step; a read callback never returns more than 128 bytes.
- CoNode.Slave.SdoUploadInitiate: the buffer is not overwritten by a read that fails, because nothing reads it afterwards.
- CoUpload.UploadIsExact: a client that loses a reply on the bus stops; block transfer is refused by the source.
- CoTiming.EventTimerKept: the sum of period and tick distance is below 2^32 ms.
- TrialSafety.AtMostOneTrialBoot: flash operations fail only by power loss, single keys are written atomically; DHCP mirroring into Network_*, writes to Network_* during a trial, the migration of legacy credentials, and the race between the trial tick and the confirmation (each is one step) are not modelled.
- FlashSlots.LatestBootSurvives: the header is written in one piece; fewer than 2^32 - 1 boots; the checksum of single records and a full slot are not modelled.
- PressureRing.NothingLostSilently: fewer than 2^32 - 1 pushes per boot.
- Datapoints.ParsedSize: conversions between decimal text, binary64 and binary32 are parameters; casts of numbers outside the width of the slot, which C leaves undefined, take the low bytes.
- DpStore.Store.WriteBatch: the save to flash that follows an accepted batch; what it does is in `TrialSpec.SavePrefix`.
- DpConcurrent.BatchIsAtomic: one measurement update is one step, and none hits a point the batch names; a snapshot is one step; taking the private copy, filling it and validating it are one step, while in the source a measurement can fall inside the copying (the points the batch names and the constraints speak about are not measured, so only bytes that are not copied back can differ).
- ServerRuns.ServerConserves: connection numbers do not wrap; the session state RUNNING, which a worker may write over CLOSING, rate limits, idle timeouts and frame contents are not modelled (a timeout or forced close is the end of a socket).
- Loading keys with a changed type or range, the migration of the legacy blob, and defaults of single datapoints.
- Hardware drivers, TLS, HMAC, base64, cJSON parsing, message envelopes, the session state machine of the protocol, OTA.

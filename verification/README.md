# car-can-proxy: a verified model

A Dafny 4.11 model of the vehicle-to-cluster proxy: a plugin thread polls an ECU, a shared store holds what it last
said, a publisher thread emits nine periodic CAN frames, and a consumer decodes them. Objects the source updates in
place are classes whose methods are proved against functions; the theorems are about those functions, over whole runs
and arbitrary interleavings.

| file | models |
|---|---|
| Contract, CodecLaws | the wire contract: encoders, pack and unpack, normal forms |
| BitMasks, Vehicle, Mapping, WireHonesty, WireValues, WireTable | the plugin's vocabulary and its translation to the wire |
| Publisher, Schedule, PublisherRuns, ContractDump | store, proxy state, schedule, runs of it, the dump tool as observer |
| Poller, PollerFairness | poll scheduling and bounded waiting |
| Options | a result that may be missing |
| J1979, J1979Client, Discovery | frames, requests, the supported-PID walk |
| Session, SessionLaws, SessionFairness, Obd2Ice | the obd2-ice loop, its invariants, bounded waiting over its turns |
| Pacing, RequestTimes | when the loop publishes and what it tells the host; when it asks for what |
| Provenance | which turn, which ECU and which discovery a stored value or an advertised PID goes back to |
| EndToEnd, Lamps, Announcements | the paths from ECU to consumer: polled signals, telltales, capabilities |
| Consumer | what a consumer may conclude from any frame of any run, in both directions |
| Departures | concrete runs: documented properties that fail, bounds that are attained |
| CanLog, LogGrammar, Replay | the log printer, its parser and the grammar it accepts, request/answer pairing |
| PluginHost | the plugin lifecycle |

How the environment enters: the vehicle bus delivers any sequence of frames, every wait may end without one, every read
of the clock may come arbitrarily later than the last, and the plugin's calls and the publisher's ticks interleave in any
way. Times are unbounded integers on one nanosecond clock; the plugin's millisecond clock is that clock rounded down.
Doubles are exact reals; bytes, words and masks are bounded integers.

Where code and documentation differ, the model follows the code:

- `plugins/obd2-ice/obd2_ice.cpp:14-16` says a signal is valid while its last answer is younger than three intervals. In
  the code an answer exactly three intervals old in whole milliseconds still counts, so the true age can exceed three
  intervals by just under a millisecond: `Departures.ValidBeyondThreeIntervals` is such a run for every configuration,
  `EndToEnd.PublishedExactlyWhenFresh` says exactly when a signal is valid and `EndToEnd.YoungerExactlyWhen` exactly
  when the documented limit is met.
- The same comment says five unanswered requests in a row mean the vehicle is gone. A filler lengthens the streak but
  only a request without a decodable answer can end the link: `Departures.FiveUnansweredKeepTheLink` is a run with a
  streak of five and the link up, `SessionLaws.DropsExactlyWhen` the exact condition, and
  `Provenance.GivenUpExactlyWhen` the same in terms of the frames read.
- `plugins/obd2-ice/obd2_ice.cpp:174-176` samples the clock before the host stamps the state
  (`core/PluginHost.cpp:103`), so the end-to-end age bound carries the delay between the two; with it the bound is
  attained (`Departures.AgeBoundIsAttained`).
- `tools/can-replay.cpp:6-7` promises the last answer in the log; the code gives the first matching response within
  fifteen records of the last request that has one. `Replay.LaterResponseIsIgnored` is a log where the two differ,
  `Replay.HoldsLastResponseExactlyWhen` the exact condition under which they agree.
- `docs/prd.md:276` describes degraded as stale signals; the code also reports degraded, with no signal available, when
  the plugin falls silent (`Departures.SilenceAloneDegrades`; exactly when, `PublisherRuns.HeartbeatReportsHistory`).

## Model

| member | source | states |
|---|---|---|
| Publisher.StateStore.Publish | core/Publisher.cpp:14-20 | the store becomes the given state, marked published at the given time, link knowledge untouched |
| Publisher.StateStore.SetLink | core/Publisher.cpp:22-28 | the link becomes known with the given value; the stored state and its time are untouched |
| Publisher.Publisher.constructor | core/Publisher.cpp:55-65 | nine slots in contract order with the contract's periods, unarmed, nothing sent |
| Publisher.Publisher.Arm | core/Publisher.cpp:67-72 | every slot becomes due at the given time and nothing else changes |
| Publisher.Publisher.SendFrame | core/Publisher.cpp:74-94 | hands to the bus the packed frame of the slot, or nothing for an unannounced assist frame |
| Publisher.Publisher.ServeSlot | core/Publisher.cpp:116-126 | one pass of the send loop for one slot and no other: count, send, reschedule a period on, and from now if that is already past |
| Publisher.Publisher.ServeAll | core/Publisher.cpp:116-126 | all nine passes together: every slot fired, every due frame sent in slot order, the counter advanced once |
| Publisher.Publisher.TickAt | core/Publisher.cpp:96-133 | one tick performs the tick function the run theorems are about and returns the earliest due time |
| Publisher.MinDue | core/Publisher.cpp:129-132 | the returned deadline is attained by some slot and exceeded by none |
| Schedule.DueSteps | core/Publisher.cpp:116-126 | no firing is early; the next due time is at least a period after the last and within [firing, firing + period] |
| Schedule.LateStartsAnew | core/Publisher.cpp:123-125 | whatever the tick times, a firing more than a period late makes the slot due a whole period after itself, any other firing keeps the grid; so no firing follows a late one within a period |
| Schedule.NoBurst | core/Publisher.cpp:123-125 | whatever the tick times, n consecutive firings of a slot span at least n - 2 periods |
| Schedule.OnGrid | core/Publisher.cpp:116-126 | with lateness below a period, firing k lies within the lateness after due + k periods, and nothing stays due after a tick |
| Schedule.FiringCount | core/Publisher.cpp:116-126 | after a tick at T the slot has fired exactly floor((T - due) / period) + 1 times |
| Schedule.FiringGaps | core/Publisher.cpp:116-126 | with any bounded lateness, consecutive firings are at most a period plus the lateness apart, and any tick comes less than a period after the last firing |
| Schedule.FiresSoonAfter | core/Publisher.cpp:116-126 | once the clock is a period past x, some firing lies after x and within a period plus the lateness of it |
| PublisherRuns.SlotFollowsSchedule | core/Publisher.cpp:96-133 | over any interleaving of publish, set_link and tick, each slot of the real publisher follows the single-slot schedule |
| PublisherRuns.SentAtFirings | core/Publisher.cpp:74-133 | the bus carries a published frame exactly at its slot's firing times |
| PublisherRuns.OncePerTick | core/Publisher.cpp:116-126 | a tick, however late, sends each frame at most once |
| PublisherRuns.TransmissionsOnGrid | core/Publisher.cpp:96-147 | drift-free closed form for transmissions on the bus, times and count, over every run with wake-ups less than a period late |
| PublisherRuns.TransmissionsNeverBurst | core/Publisher.cpp:123-125 | n consecutive transmissions span at least n - 2 periods even after arbitrary suspension |
| PublisherRuns.LateTransmissionsStartAnew | core/Publisher.cpp:123-125 | the same on the bus, over any run with any tick times: a transmission more than a period late starts a new grid a period after itself and is followed by none within a period, every other one keeps the grid |
| PublisherRuns.StepTimes | core/Publisher.cpp:116-126 | an event of a run sends a published frame if and only if it is a tick and the frame is due |
| PublisherRuns.AscendingIds | core/Publisher.cpp:49-126 | the frames of one tick leave in ascending order of their identifiers, each at most once |
| PublisherRuns.FirstTickSendsAll | core/Publisher.cpp:67-127 | the first tick of an unarmed publisher sends every frame at once (the assist frame if announced), in that order, and each is next due one of the contract's periods later |
| PublisherRuns.NeverStale | contract/can_proxy_contract.h:57-75 | with wake-ups less than three periods late, consecutive transmissions of a published frame are closer than its staleness window, and the last one is younger than that up to the latest punctual next wake-up |
| PublisherRuns.TraceIsWhatTicksSent | core/Publisher.cpp:96-133 | a frame is on the bus if and only if some tick of the run sent it |
| PublisherRuns.BuiltAtItsTick | core/Publisher.cpp:105-127 | whichever tick sent a frame built it from the snapshot the store held at that tick |
| PublisherRuns.FrameOrigin | core/Publisher.cpp:105-127 | every frame on the bus was built at a tick of the run from the snapshot the store held then |
| PublisherRuns.CounterRolls | core/Publisher.cpp:113-122 | the k-th status frame carries k modulo 256 |
| PublisherRuns.HeartbeatReportsHistory | core/Publisher.cpp:36-47 | each heartbeat's proxy state, all four values in both directions, in terms of the link and publish calls before it |
| PublisherRuns.SilenceIsReported | core/Publisher.cpp:36-47 | after plugin silence a heartbeat that is not OK leaves within timeout + heartbeat period + lateness |
| PublisherRuns.EarlyTickIsNoOp | core/Publisher.cpp:101-132 | a tick before the returned deadline changes nothing and sends nothing; the deadline is exactly the first instant something is due |
| PublisherRuns.EarlyTicksDoNotMatter | core/Publisher.cpp:101-132 | removing all early ticks from any interleaved run leaves store, schedule and bus identical |
| PublisherRuns.SleepingRefinesPolling | core/Publisher.cpp:135-149 | ticking only at returned deadlines produces byte for byte what ticking at every instant would |
| ContractDump.CountSkips | tools/contract-dump.cpp:155-182 | the dump tool's loop counts exactly the neighbouring status counters that are not consecutive modulo 256 |
| ContractDump.NoBreaksExactlyWhen | tools/contract-dump.cpp:178-181 | zero skips if and only if every counter is one more than its predecessor |
| ContractDump.BreaksAreCounted | tools/contract-dump.cpp:178-181 | the count is the number of places whose counter is not one more modulo 256 than the one before |
| ContractDump.PublisherNeverSkips | core/Publisher.cpp:120-121 | the independent observer reports no skip on any run of the publisher |
| Poller.Poller.NextDue | libobd/src/Poller.cpp:38-50 | the scan returns the first item of maximal lateness relative to its interval, or none if none is due |
| Poller.BestIsFirstMostOverdue | libobd/src/Poller.cpp:41-47 | the cross-multiplied comparison yields a true first maximum (transitivity of the ratios) |
| Poller.SelectionAgreesWithDeadline | libobd/src/Poller.cpp:38-59 | the deadline is never past, and now if nothing is scheduled; otherwise nothing is selected exactly when it lies ahead; nothing is due before it, something is at it |
| Poller.Poller.Clear | libobd/src/Poller.cpp:5-9 | no item and a zero streak remain |
| Poller.Poller.Add | libobd/src/Poller.cpp:11-16 | appends a new item due at once and never answered; an already scheduled PID changes nothing |
| Poller.Poller.Remove | libobd/src/Poller.cpp:18-22 | removes the item of that PID only |
| Poller.Poller.NextDeadline | libobd/src/Poller.cpp:52-59 | the earliest due time, not before now; now itself when nothing is scheduled |
| Poller.Poller.MarkRequested | libobd/src/Poller.cpp:61-67 | reschedules that PID's item one interval ahead and lengthens the streak; an unknown PID changes nothing |
| Poller.Poller.MarkAnswered | libobd/src/Poller.cpp:69-75 | stamps that PID's item and clears the streak; an unknown PID changes nothing |
| Poller.Poller.IsFresh | libobd/src/Poller.cpp:77-81 | fresh means scheduled, answered, and at most three intervals ago |
| PollerFairness.BoundedWaiting | libobd/src/Poller.cpp:38-67 | n items, selections at most `gap` apart: a due item past the stated threshold is among the next n choices |
| PollerFairness.NoStarvation | libobd/src/Poller.cpp:43-46 | no PID starves: once lateness plus one interval exceeds (n - 1) * gap * interval / shortest other interval, it is among the next n choices |
| PollerFairness.PreferredTwice | libobd/src/Poller.cpp:41-47 | what choosing another item twice over a waiting one implies about their lateness |
| PollerFairness.SelectedIsRequested | libobd/src/Poller.cpp:61-67 | the fairness model's reschedule is markRequested of the selected PID |
| SessionFairness.NoPidStarves | plugins/obd2-ice/obd2_ice.cpp:182-221 | over any n turns of the loop, n PIDs scheduled, with the vehicle there and no filler: a due PID of tier T late by more than T * ((n - 1) * gap - fast_ms) is requested in one of them |
| SessionFairness.NoPidWaitsLonger | plugins/obd2-ice/obd2_ice.cpp:182-221 | over any long enough steady stretch every scheduled PID is requested, at the latest n gaps after its lateness became critical |
| SessionFairness.EveryPidIsAskedFor | libobd/src/J1979Client.cpp:33-40 | the same for recorded runs, on the bus: the request frame for the PID is handed to the channel by that time |
| SessionFairness.StretchSelects | plugins/obd2-ice/obd2_ice.cpp:197-215 | turn by turn the session's schedule is that of the selections alone, whatever was answered |
| J1979.BuildRequest | libobd/src/J1979.cpp:6-12 | the request is the zero-padded single frame of ISO 15765-2 with mode 01 and the PID and nothing else, eight bytes on 0x7DF |
| J1979.ParsesExactlySingleFrames | libobd/src/J1979.cpp:14-32 | the parser accepts exactly the positive single frames of ISO 15765-2 and returns what they carry |
| J1979.WordBit | libobd/src/J1979.cpp:62-66 | the assembled 32-bit word tests the same bit as SAE J1979's byte-wise bitmap definition |
| J1979.SupportedPidsFrom | libobd/src/J1979.cpp:59-68 | the list holds base + n exactly for the bits n that are set, in ascending order |
| J1979.DecodesLinearly | libobd/src/J1979.cpp:34-94 | a payload decodes if and only if the PID is one of the eleven and the payload has the standard's length; the value lies between the ends of the PID's range in proportion to the big-endian number |
| J1979Client.AnswersExactlyWhen | libobd/src/J1979Client.cpp:49-63 | a frame is taken for the answer if and only if it is a positive mode 01 single frame for the PID on 0x7E8-0x7EF, off the broadcast identifier, and from the primary ECU once there is one |
| J1979Client.Client.Request | libobd/src/J1979Client.cpp:33-67 | the request is handed to the bus once; success means the last frame read is the first answer among those read, from the sticky ECU; failure means none was, and that the request was refused or the wait for the answer ended |
| J1979Client.Client.Await | libobd/src/J1979Client.cpp:41-66 | reading stops at the first answer, or when the wait for a frame ends, and at nothing else; the sink gets exactly the broadcasts read, in order |
| J1979Client.Client.AskBlock | libobd/src/J1979Client.cpp:75-80 | a block is answered by the first answer read from the sticky ECU, if it has four payload bytes; if not, no answer read had them, and the request was refused, the wait ended, or the last frame read was too short an answer |
| J1979Client.Client.AddBlock | libobd/src/J1979Client.cpp:81-83 | adds exactly the non-bitmap PIDs the block advertises |
| J1979Client.Client.WalkBlock | libobd/src/J1979Client.cpp:74-87 | one more block answered extends the walk and the set found; otherwise the walk is over and no frame read for the block was a bitmap of the ECU |
| J1979Client.Client.Discover | libobd/src/J1979Client.cpp:69-90 | block by block: asked in turn, answered by the first ECU to answer block 0, until the chain ends by itself or the frames read for a block asked for contain no bitmap, because the request was refused, the wait ended or the answer was too short; the set is what the answered blocks advertise, and is left alone if block 0 was not answered |
| J1979Client.Client.Query | libobd/src/J1979Client.cpp:92-102 | the request is handed to the bus; the answer is the first one of the sticky ECU among the frames read, none if and only if none of them was one, and then only after a refused request or an ended wait; an undecodable answer gives no value |
| J1979Client.Client.Idle | libobd/src/J1979Client.cpp:104-110 | at most one frame is read, and it reaches the sink exactly when it is a broadcast |
| Discovery.DiscoveryIsExact | libobd/src/J1979Client.cpp:69-90 | given the bitmaps an honest ECU sent: exactly its supported non-bitmap PIDs up to 0xDF whose block the chain reaches and which lie in the answered blocks; all of them exactly when the chain ends there by itself |
| Discovery.HonestWalk | libobd/src/J1979Client.cpp:69-90 | a whole walk against an honest ECU finds all its reachable PIDs, or those before the first block for which no bitmap of the ECU was read |
| Discovery.DiscoverHonest | libobd/src/J1979Client.cpp:69-90 | with several honest ECUs and stale frames queued, the reported set is that of the first ECU to answer, cut only before a block that was asked for and whose frames contain no bitmap of it; failure means no bitmap was read for block 0 |
| Contract.PutU16 | contract/can_proxy_contract.h:275-279 | writes the two little-endian bytes in place and no other |
| Contract.PutU32 | contract/can_proxy_contract.h:286-292 | writes the four little-endian bytes in place and no other |
| Contract.PackStatus | contract/can_proxy_contract.h:368-376 | the buffer holds exactly the status frame, reserved capability bits cleared |
| Contract.PackIdentity | contract/can_proxy_contract.h:398-406 | the buffer holds exactly the identity frame |
| Contract.PackMotion | contract/can_proxy_contract.h:434-441 | the buffer holds exactly the motion frame, SNA codes for invalid fields |
| Contract.PackEDrive | contract/can_proxy_contract.h:462-468 | the buffer holds exactly the electric-drive frame |
| Contract.PackTelltales | contract/can_proxy_contract.h:489-493 | the buffer holds exactly the telltale frame, reserved bits cleared |
| Contract.PackEnergy | contract/can_proxy_contract.h:504-514 | the buffer holds exactly the energy frame |
| Contract.PackTrip | contract/can_proxy_contract.h:538-544 | the buffer holds exactly the trip frame |
| Contract.PackThermal | contract/can_proxy_contract.h:561-567 | the buffer holds exactly the thermal frame |
| Contract.PackAssist | contract/can_proxy_contract.h:585-593 | the buffer holds exactly the assist frame |
| CodecLaws.RoundIsNearest | contract/can_proxy_contract.h:307-311 | rounding is to nearest, halves away from zero |
| CodecLaws.CodeMonotone | contract/can_proxy_contract.h:313-362 | a larger value never gets a smaller code |
| CodecLaws.CodeSaturates | contract/can_proxy_contract.h:313-362 | values beyond the range get the end codes |
| CodecLaws.CodeError | contract/can_proxy_contract.h:313-362 | inside the range, decoding the code errs by at most half a step |
| CodecLaws.SnaExactlyWhenInvalid | contract/can_proxy_contract.h:313-362 | all five encoders emit their SNA code exactly for invalid values |
| CodecLaws.StatusNormalForm | contract/can_proxy_contract.h:368-385 | pack(unpack(d)) = d exactly for frames with zero reserved bits; pack only produces such frames |
| CodecLaws.IdentityNormalForm | contract/can_proxy_contract.h:398-415 | every identity frame survives unpack and pack |
| CodecLaws.MotionNormalForm | contract/can_proxy_contract.h:434-456 | pack(unpack(d)) = d exactly when the reserved bytes are zero; pack only produces such frames |
| CodecLaws.EDriveNormalForm | contract/can_proxy_contract.h:462-483 | pack(unpack(d)) = d exactly when the reserved bytes are zero; pack only produces such frames |
| CodecLaws.TelltalesNormalForm | contract/can_proxy_contract.h:489-498 | pack(unpack(d)) = d exactly when the reserved bits and bytes are zero; pack only produces such frames |
| CodecLaws.EnergyNormalForm | contract/can_proxy_contract.h:504-532 | pack(unpack(d)) = d exactly when percent codes are in range and the reserved byte is zero |
| CodecLaws.TripNormalForm | contract/can_proxy_contract.h:538-555 | pack(unpack(d)) = d exactly when the reserved bytes are zero; pack only produces such frames |
| CodecLaws.ThermalNormalForm | contract/can_proxy_contract.h:561-579 | pack(unpack(d)) = d exactly when the percent code is in range and the reserved bytes are zero |
| CodecLaws.AssistNormalForm | contract/can_proxy_contract.h:585-609 | pack(unpack(d)) = d exactly when score and lane codes are in range and the reserved bytes are zero |
| CodecLaws.StatusRead | contract/can_proxy_contract.h:368-385 | a packed status reads back unchanged but for reserved capability bits |
| CodecLaws.TelltalesRead | contract/can_proxy_contract.h:489-498 | packed telltales read back unchanged but for reserved bits |
| CodecLaws.MotionRead | contract/can_proxy_contract.h:434-456 | validity and value of each motion field as a consumer reads them, including that a raw enum 0xFF reads as not available |
| CodecLaws.EDriveRead | contract/can_proxy_contract.h:462-483 | validity and value of each electric-drive field as a consumer reads them |
| CodecLaws.EnergyRead | contract/can_proxy_contract.h:504-532 | validity and value of each energy field as a consumer reads them |
| CodecLaws.TripRead | contract/can_proxy_contract.h:538-555 | validity and value of each trip field as a consumer reads them |
| CodecLaws.ThermalRead | contract/can_proxy_contract.h:561-579 | validity and value of each thermal field as a consumer reads them |
| CodecLaws.AssistRead | contract/can_proxy_contract.h:585-609 | validity and value of each assist field as a consumer reads them |
| Mapping.CapabilitiesFrom | core/Mapping.cpp:37-44 | the loop computes the translation the laws below are about |
| Mapping.CapabilityExactlyWhen | core/Mapping.cpp:6-44 | a capability bit is published exactly when some signal mapping to it is in the mask |
| Mapping.CapabilityMeaning | contract/can_proxy_contract.h:148-165 | each of the eighteen contract bits, by name, in terms of the plugin's signals, both directions |
| Mapping.CapabilitiesDistribute | core/Mapping.cpp:37-44 | the translation of a union is the union of the translations |
| Mapping.CapabilitiesBounded | contract/can_proxy_contract.h:166 | reserved capability bits 18-31 are never set |
| Mapping.TelltalesFrom | core/Mapping.cpp:46-81 | the loop keeps lamp bits 0-19 in place and drops all others |
| WireHonesty.ValidOnWireExactlyWhen | core/Mapping.cpp:149-229 | through mapping, pack and unpack, each of the 23 signals decodes valid exactly when live, valid, capable and (for three enumerations) in range |
| WireHonesty.NotLiveHidesEverySignal | core/Mapping.cpp:149-229 | without live data every signal decodes as not available |
| WireHonesty.NotLiveKeepsLayout | core/Mapping.cpp:157-187 | liveness decides the lamps only; capabilities and identity on the wire do not depend on it |
| WireHonesty.ValidImpliesAnnounced | core/Mapping.cpp:157-229 | a signal decoded as valid has its capability bit in the same tick's status frame; for assist signals that is the bit that publishes 0x450 |
| WireValues.ValueOnWire | core/Mapping.cpp:154-229 | the decoded number of every valid signal is the plugin's number rounded to the nearest wire step, halves away from zero, clamped into the wire's range; an out-of-range collision risk reads as none, a lane state as its low four bits |
| WireTable.ReadByTable | contract/can_proxy_contract.h:443-606 | for all 23 signals and any eight bytes: the decoders read the little-endian code at the place, width, sign and step of one layout table, and "not available" exactly for the reserved code |
| Consumer.BuiltFromHistory | core/Publisher.cpp:36-127 | over every run and interleaving, each frame is built from the state published last, with live data exactly while the last link call said present and that publish is within the timeout |
| Consumer.ShownExactlyWhen | core/Publisher.cpp:36-127 | a carrier frame of any run shows a signal as available if and only if the last link call said present, the last publish is at most the timeout old, and its state marks that signal valid and capable, with an enumeration in range, whatever the other signals; its number is then that state's, within half a step, read off the bytes |
| Consumer.LampsShownExactlyWhen | core/Mapping.cpp:46-187 | a telltale frame of any run holds the low 20 lamp bits of the state published last, little-endian, exactly under the same condition, and is dark otherwise |
| Consumer.StatusBytesOnBus | contract/can_proxy_contract.h:368-376 | every status frame of any run says contract version 1.1 and carries the capabilities published last, little-endian, live or not |
| Consumer.IdentityBytesOnBus | core/Mapping.cpp:117-169 | every identity frame of any run, byte by byte: drivetrain 1-5 and source 1-3 of the state published last, 0 for any other value, the plugin's version, the vehicle identifier little-endian |
| Obd2Ice.Plugin.CheckPlausible | plugins/obd2-ice/obd2_ice.cpp:69-87 | rejects exactly a module voltage below 6 V and an ambient temperature of -40 °C or less, and drops that PID from set, schedule and values |
| Obd2Ice.Plugin.Watch | plugins/obd2-ice/obd2_ice.cpp:99-107 | applies the telltale frames seen while waiting, in order |
| Obd2Ice.Plugin.Discover | plugins/obd2-ice/obd2_ice.cpp:109-138 | success replaces set, schedule and values by what the first ECU to answer advertised on the bus; failure means no bitmap was read for block 0, and changes nothing but lamps |
| Obd2Ice.Plugin.Reschedule | plugins/obd2-ice/obd2_ice.cpp:117-128 | schedules every wanted and advertised PID at its tier |
| Obd2Ice.Plugin.BuildState | plugins/obd2-ice/obd2_ice.cpp:140-176 | the published state, signal by signal |
| Obd2Ice.Plugin.Masks | plugins/obd2-ice/obd2_ice.cpp:148-173 | the announced and valid signals and the power state, signal by signal |
| Obd2Ice.Plugin.PublishState | plugins/obd2-ice/obd2_ice.cpp:140-177 | exactly one publish call reaches the host's store, stamped after sampling |
| Obd2Ice.Plugin.PollOnce | plugins/obd2-ice/obd2_ice.cpp:197-215 | the request or idle wait of a turn performs the session's poll transition; the PID due is asked for once, and the answer recorded is the first of the sticky ECU among the frames read, none if and only if none was one |
| Obd2Ice.Plugin.Greet | plugins/obd2-ice/obd2_ice.cpp:185-187 | a successful discovery: link up, then the vehicle is polled in the same turn |
| Obd2Ice.Plugin.GiveUp | plugins/obd2-ice/obd2_ice.cpp:188-193 | a failed discovery: link down, values cleared, that state published, and nothing recorded as answered |
| Obd2Ice.Plugin.RunOnce | plugins/obd2-ice/obd2_ice.cpp:182-221 | one turn of the loop performs one session transition, makes exactly its host calls, leaves exactly their effect in the store, and records exactly what the bus brought; with the vehicle there the ECU does not change |
| Obd2Ice.Plugin.Run | plugins/obd2-ice/obd2_ice.cpp:179-222 | any number of turns is a session run on the recorded inputs, with ordered clock readings; answers, failures, discoveries and lamp frames are recorded exactly as the bus brought them, and all requests and all frames read are accounted for |
| SessionLaws.InvAlways | plugins/obd2-ice/obd2_ice.cpp:71-222 | over every run: scheduled PIDs are exactly wanted and supported, unique, at their tier; values only for scheduled PIDs |
| SessionLaws.IterateKeeps | plugins/obd2-ice/obd2_ice.cpp:182-221 | every turn keeps that invariant |
| SessionLaws.TracksAlways | plugins/obd2-ice/obd2_ice.cpp:197-210 | over every run the streak equals the trailing requests without an accepted answer, and values are stored exactly for the PIDs whose last accepted answer still stands, each with that answer's value and time |
| SessionLaws.PublishedBits | plugins/obd2-ice/obd2_ice.cpp:148-173 | a signal is capable exactly when its PID is advertised and valid exactly when also stored and fresh; valid implies capable |
| SessionLaws.LinkProtocol | plugins/obd2-ice/obd2_ice.cpp:184-210 | two set_link(1) are always separated by set_link(0), and the last call matches whether a vehicle is believed present |
| SessionLaws.DropsExactlyWhen | plugins/obd2-ice/obd2_ice.cpp:200-210 | the poll path drops the link if and only if a request fails and it is at least the fifth since the last accepted answer or rediscovery |
| SessionLaws.FiveFailuresDrop | plugins/obd2-ice/obd2_ice.cpp:205-210 | no run of failing or idle turns survives a fifth failure with the link up |
| SessionLaws.CapabilitiesHeldWhileLost | plugins/obd2-ice/obd2_ice.cpp:109-116 | from losing the vehicle to the next successful discovery every publish carries the capabilities known at the loss and no valid signal, and the link is only reported down |
| SessionLaws.FillerIsDropped | plugins/obd2-ice/obd2_ice.cpp:69-87 | a filler answer removes its PID from set, schedule and values and keeps the link |
| SessionLaws.DroppedStaysOut | plugins/obd2-ice/obd2_ice.cpp:69-138 | a dropped PID stays out of all three until a later discovery succeeds |
| SessionLaws.PlausibleBytes | plugins/obd2-ice/obd2_ice.cpp:69-76 | on payload bytes: the fillers are exactly a module voltage below 6000 mV and an ambient temperature byte of zero |
| SessionLaws.TurnLearns | plugins/obd2-ice/obd2_ice.cpp:109-211 | what any turn leaves of the advertised set, the stored values and the streak: a discovery replaces set and values, a failed one clears the values; of a decodable answer to the PID due, a filler - and nothing else - takes the PID out of set, schedule and values, any other is stored with its time and ends the streak; nothing else changes set or values |
| RequestTimes.NeverAskedTooSoon | libobd/src/Poller.cpp:61-67 | over every run, while the vehicle stays, no PID is asked for twice within its interval: the fast period for speed and rpm, five for the coolant, twenty for the rest |
| RequestTimes.IdleOnlyWhenNoneIsDue | libobd/src/Poller.cpp:38-67 | over every run, a turn with the vehicle there that asks for nothing comes before the interval of every scheduled PID has passed since it was asked for last |
| RequestTimes.FirstAskedFor | plugins/obd2-ice/obd2_ice.cpp:117-198 | a vehicle just found is asked in the same turn for the first PID of the poll list it has, or for nothing if it has none |
| RequestTimes.RequestsOnBus | libobd/src/J1979Client.cpp:33-90 | all a recorded turn asks of the bus: mode 01 requests, for the bitmaps of blocks 0, 1, ... exactly when there is no vehicle, and for the PID due, one of the seven polled, exactly when there is one |
| Pacing.CallsExactly | plugins/obd2-ice/obd2_ice.cpp:182-221 | all a turn tells the host, in order: link down and an all-unknown state after a vain discovery; otherwise link up if just found, then link down and no publish if lost, else at most the state at the end of the turn |
| Pacing.PaceKept | plugins/obd2-ice/obd2_ice.cpp:216-219 | the publish timer is 50 ms past the last publish made with the vehicle there, through any loss and rediscovery |
| Pacing.PublishesExactlyWhen | plugins/obd2-ice/obd2_ice.cpp:197-220 | over every run, a turn that ends with the vehicle there, asking or idle, publishes if and only if no such turn has before or its clock reading is at least 50 ms past the one after the last such publish |
| Pacing.NextPublishComes | plugins/obd2-ice/obd2_ice.cpp:197-220 | while the vehicle stays and the deciding readings are at most `gap` apart, the next publish is decided upon less than 50 ms and one gap after the reading that followed the last |
| Provenance.StandingOrigin | plugins/obd2-ice/obd2_ice.cpp:197-204 | the answer that stands for a PID is that of one turn, since which the vehicle stayed, no other answer was accepted and no filler came |
| Provenance.StandingIs | plugins/obd2-ice/obd2_ice.cpp:197-204 | conversely, the answer of such a turn is the one that stands |
| Provenance.KnownFromDiscovery | plugins/obd2-ice/obd2_ice.cpp:109-138 | a vehicle believed present and every advertised PID go back to a last successful discovery |
| Provenance.OneEcu | libobd/src/J1979Client.cpp:57-62 | between rediscoveries one ECU is listened to, the one whose PIDs were adopted |
| Provenance.AnswerIsTheEcus | libobd/src/J1979Client.cpp:33-67 | every standing answer was asked for in its turn and is the first answer then read from the ECU first to answer the discovery in force |
| Provenance.FailedExactlyWhen | libobd/src/J1979Client.cpp:92-102 | a request is recorded as failed if and only if no frame read for it was a readable answer of the ECU |
| Provenance.GivenUpExactlyWhen | plugins/obd2-ice/obd2_ice.cpp:197-210 | on the bus: the vehicle is given up if and only if a PID was asked for, no frame read was a readable answer, and the four requests before brought no accepted answer |
| Provenance.NothingNewerRead | plugins/obd2-ice/obd2_ice.cpp:197-204 | since the turn whose answer stands, no later request for the PID brought a readable answer on the bus |
| Provenance.FoundIsHonest | libobd/src/J1979Client.cpp:69-90 | what an honest ECU advertised on the bus is all that is reachable along its chain, or what lies before the block for which it sent no bitmap |
| Provenance.SupportIsHonest | plugins/obd2-ice/obd2_ice.cpp:109-128 | over every run against honest ECUs, a PID believed advertised is supported by the ECU of the last discovery |
| Provenance.SilentBusFindsNothing | plugins/obd2-ice/obd2_ice.cpp:182-194 | on a silent bus no turn records an answer or a discovery and no vehicle is ever believed present |
| EndToEnd.StoreHoldsLast | core/Publisher.cpp:14-34 | the store holds the last state published to it, and no later publish exists |
| EndToEnd.PublishedAtTurnEnd | plugins/obd2-ice/obd2_ice.cpp:140-221 | every published state is the session's state at the end of its turn |
| EndToEnd.PublishedExactlyWhenFresh | plugins/obd2-ice/obd2_ice.cpp:148-173 | a signal is published as valid if and only if an answer for its PID stands at the end of the turn and is at most three intervals old in whole milliseconds; the value is that answer's |
| EndToEnd.YoungerExactlyWhen | plugins/obd2-ice/obd2_ice.cpp:14-16 | exactly when a valid signal meets the documented limit of three intervals |
| EndToEnd.PublishBehind | core/Publisher.cpp:14-34 | the store's state at any tick is that of the last publish before it, made in one determined turn of the plugin, no later than the tick |
| EndToEnd.ValidSignalIsRecent | plugins/obd2-ice/obd2_ice.cpp:140-220 | over every run and interleaving and every tick, a signal that decodes valid comes from the answer standing in the turn of the last publish before that tick, and is younger than timeout + three intervals + stamping delay + 1 ms |
| EndToEnd.FaithfulOnWire | libobd/src/J1979.cpp:75-94 | payload bytes to consumer's number for all eight polled signals: exact, clamped, or within half a step; the power state is ready exactly while the engine turns |
| EndToEnd.EcuToConsumer | plugins/obd2-ice/obd2_ice.cpp:140-220 | what a consumer reads is faithful to the first answer read from the discovered ECU to one determined request; no later request up to the last publish before the frame brought a readable answer; the age is below the bound, and not negative where the stamps are ordered |
| Consumer.VisibleExactlyWhen | plugins/obd2-ice/obd2_ice.cpp:140-220 | over every run, interleaving and frame: a signal is available if and only if the last link call said present, the last publish is within the timeout, and an answer to the signal's PID stood at the end of that publish's turn, at most 3 (speed, rpm, power), 15 (coolant) or 60 (rest) fast periods old at the sample |
| Consumer.IdentityIsThePlugins | plugins/obd2-ice/obd2_ice.cpp:140-146 | over every run and interleaving: before the first publish an identity frame carries the plugin's version only, from then on a combustion vehicle, the configured source and the vehicle identifier |
| Consumer.NothingInvented | plugins/obd2-ice/obd2_ice.cpp:140-176 | in every published state the field of a signal not marked valid is zero, and only the eight polled signals are ever marked |
| Lamps.SeenLogIsBroadcasts | libobd/src/J1979Client.cpp:49-52 | over a run the session is handed exactly the broadcasts read from the bus, in order |
| Lamps.LampsFollowSeen | plugins/obd2-ice/obd2_ice.cpp:99-107 | the session holds the lamps of the last lamp frame handed to it, with its time |
| Lamps.LampsReachTheWire | plugins/obd2-ice/obd2_ice.cpp:174-176 | over every run and interleaving, a telltale frame is dark without live data and otherwise carries, byte for byte, the last lamp frame up to the last publish, if at most 500 ms old at the sample; a lit frame's age is bounded |
| Announcements.AnnouncedExactlyWhen | core/Publisher.cpp:105-127 | over every run and interleaving, a heartbeat announces a polled signal exactly when the session believed its PID advertised at the last publish |
| Announcements.AnnouncedIsSupported | plugins/obd2-ice/obd2_ice.cpp:109-176 | against honest ECUs, an announced signal's PID is supported by the ECU found by the last discovery before the publish behind the heartbeat |
| Departures.ValidBeyondThreeIntervals | plugins/obd2-ice/obd2_ice.cpp:44-47 | for every configuration a run publishes a signal as valid although older than three intervals |
| Departures.FiveUnansweredKeepTheLink | plugins/obd2-ice/obd2_ice.cpp:200-210 | for every configuration a run has five requests in a row without an accepted answer and the link up |
| Departures.AgeBoundIsAttained | plugins/obd2-ice/obd2_ice.cpp:140-220 | for every timeout, period and stamping delay a run, given down to the frames on the vehicle bus, meets every premise of the end-to-end theorem and puts a signal on the wire one nanosecond short of its bound |
| Departures.SilenceAloneDegrades | core/Publisher.cpp:36-47 | after silence a heartbeat says degraded although the last publish announced a signal and every announced signal was valid |
| CanLog.Recorder.Record | libobd/src/CanChannel.cpp:83-95 | appends exactly the frame's line, or nothing when not recording |
| CanLog.ParseLine | tools/can-replay.cpp:31-48 | the byte-by-byte parser computes the scan of the line |
| CanLog.LineRoundTrip | tools/can-replay.cpp:31-48 | the parser undoes the printer for every frame with data, keeping the first eight bytes of a longer one, and rejects the line of a frame without |
| CanLog.LineIsCandump | libobd/src/CanChannel.cpp:83-95 | what a recorded line looks like: seconds, six digits of microseconds, interface, at least three hexadecimal capitals of identifier, two for each byte |
| LogGrammar.ParsesExactlyLines | tools/can-replay.cpp:31-48 | the parser accepts exactly the lines of a grammar written without scanning, and takes from them the time, the identifier and the first eight bytes |
| CanLog.LogRoundTrip | tools/can-replay.cpp:84-86 | reading a whole recorded log back yields the recorded frames in order, minus the empty ones |
| Replay.PairRequests | tools/can-replay.cpp:110-126 | the nested loops compute the answer table |
| Replay.TableHoldsLastAnswer | tools/can-replay.cpp:110-126 | a PID is answerable exactly when one of its requests has a response within fifteen records, and its answer is that of the last such request |
| Replay.TestsAgree | tools/can-replay.cpp:70-71 | a record asks or responds for a PID exactly when its identifier is the functional one, one of the eight ECUs' own, or eight above an ECU's own |
| Replay.ClientTrafficPairs | tools/can-replay.cpp:70-126 | a recorded request of the polling client and a recorded frame it takes for the answer are a request and a response for the same PID |
| Replay.HoldsLastResponseExactlyWhen | tools/can-replay.cpp:110-126 | the table holds the log's last response for a PID if and only if some request is paired with it or an identical record answers the last paired request; among distinct responses, if and only if some request is paired with it |
| Replay.LaterResponseIsIgnored | tools/can-replay.cpp:110-126 | a log whose last response for a PID is not the one in the table |
| PluginHost.PluginHost.LoadPlugin | core/PluginHost.cpp:18-46 | loads exactly the usable libraries: one that opens, has the entry symbol and returns a complete descriptor of ABI version 1; each error exactly for its cause; every library opened in vain is closed again |
| PluginHost.PluginHost.CreateInstance | core/PluginHost.cpp:48-65 | one create callback at most, its outcome reported and recorded; errors make none |
| PluginHost.PluginHost.StartInstance | core/PluginHost.cpp:67-76 | one start callback at most; starting twice makes none |
| PluginHost.PluginHost.StopPlugin | core/PluginHost.cpp:78-84 | one stop callback exactly when running |
| PluginHost.PluginHost.UnloadPlugin | core/PluginHost.cpp:86-98 | stop, destroy and close, each exactly when owed, in that order |
| PluginHost.PluginHost.Lifetime | core/PluginHost.cpp:16-98 | any sequence of host calls, then the destructor: the callbacks follow the life story, every library that could be opened was, once, and all opens, creates and starts are matched |
| PluginHost.StoryBalances | core/PluginHost.cpp:18-98 | at any point of a legal story the open, create and start counts exceed their counterparts by what is live |
| PluginHost.NothingAfterClose | core/PluginHost.cpp:86-98 | after close comes nothing but an open, after destroy nothing but close, after a successful start nothing but stop |

## Left out

- Sockets, ioctl, poll, dlopen, clocks, sleeping and threads: environment steps, frame sequences and event sequences stand for them.
- IEEE rounding, NaN and out-of-range double-to-integer casts: values are exact reals and the casts are taken as defined.
- Overflow of 64-bit times: times are unbounded.
- How long the plugin waits for the bus (`plugins/obd2-ice/obd2_ice.cpp:212-214` and the query timeouts): any wait may
  end at any time, so the computed length does not matter to any result.
- `Publisher.start` and `stop`: the sleeping loop is represented by tick events; `PublisherRuns.SleepingRefinesPolling` and the punctuality premises say what its wake-ups must satisfy.
- Unpacking is a set of functions from bytes to a structure rather than writes into a caller's structure.
- The FNV hash of the vehicle identity: the identifier is a parameter.
- Log messages, including the once-per-PID filler warning, and the text of error strings: they do not affect state.
- `plugins/emu-ev` and `Uds.cpp`: a second polling loop much like obd2-ice, and a few byte checks.
- `plugins/sim`, `plugins/forza`: demonstration formulas and fixed-offset reads.
- `IsoTp.cpp`: not used by obd2-ice.
- Command-line parsing, configuration, statistics and decoded printing in the tools: plumbing with no state to reason about.
- Timed replay, broadcast re-transmission and the live answering loop of the replay tool: sleeping loops around the pairing table modelled here.
- Bytes the replay parser cannot convert stay what the uninitialised variable held: a parameter of the parser.

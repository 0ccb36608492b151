# Verified model of the ESP-Miner control logic

This project models the parts of the miner firmware where a mistake is expensive: powering up and
clocking a Bonanza ASIC board, parsing its serial frames, updating its bridge, and the stores that many
threads share. Each part is a model in Dafny with proofs about every input, every run or every
interleaving. `dafny verify dfyconfig.toml` checks it all.

How the parts are modelled:

- Calls into hardware (`ops`, register access, telemetry, the bus, callbacks, the debug port) are methods
  that may return anything. They record what was done in ghost state: a trace of events, or a summary of
  what has been read back. A write that reports failure may still have had its effect.
- Code that changes an object in place is a class whose methods are tied to specification functions of
  the old state; loops stay loops. Laws about the specification functions are lemmas.
- Concurrent code is a transition system whose steps are the sections between lock operations. Runs are
  sequences of steps, and claims hold after every run.
- Failure is part of a contract like success. A report of failure must be deserved by what was answered, so
  that right answers lead to success; calls, updates and results are tied to what must become of them.
- Integers that wrap in the source and matter (16-bit slot counter, 64-bit handles, 32-bit counters of the
  parser, CRC registers) wrap in the model too. Frequencies are exact: every multiple of 6.25 MHz in range
  is a float without rounding.

Files: `FrameParser` (frame parser), `Topology`, `BalancedRamp` (engine ramp), `Bringup` (power-up stages),
`Telemetry` (samples and their confirmation), `BringupReport`,
`Frequency` and `LiveClock` (planner and live clock stepper), `Crc32`, `Manifest`, `BridgeFrame`,
`SafetyStatus`, `Flash` and `BridgeUpdate` (bridge and its update), `NvsConfig` (settings), `LogBuffer`
(log ring), `JobStore` and `ResultPath` (work from submission to share), `Modulo` and `Common` (helpers).

Results that are not simply what one would hope, each proved with its exact condition:

- The settings cache is reloaded exactly, except that an empty string comes back as its default
  (`Settings.ReloadIsCache`; `Settings.ClearedComesBack` is the failing case).
- A generated job handle survives the next capacity - 1 stores when the capacity divides 65536, the range
  of the slot counter; otherwise the job stored as the counter wraps is lost early
  (`JobTable.RetentionIsExact`). The firmware's 256 divides it.
- Handles are unique below 2^56 generations and collide exactly modulo 2^56 (`JobTable.HandlesCollideExactly`).
- A one-byte bridge response 0x10 to 0x13 cannot be told from an error code (`BridgeFrame.ResponseRoundTrip`).
- A live clock step that leaves a domain alone repairs nothing: after an ordinary step a domain other than
  the reported one runs on its record if and only if it was changed, or did so before
  (`LiveClock.AgreementAfterWalk`; `LiveClock.GoodStepKeepsDisagreement` is a run that ends so).
- The barrier's per-ASIC count check can reject nothing, and a barrier call on a failed ramp replaces the
  failure record (`BalancedRamp.Ramp.FinishBarrier`).

## Model

| member | source | states |
|---|---|---|
| FrameParser.Classify | components/asic/bzm_frame_parser.c:64-102 | an accepted header comes from a valid wire id and announces a frame that fits the buffer, so the buffer-full branch is never taken |
| FrameParser.LegalIsAccepted | components/asic/bzm_frame_parser.c:64-102 | a header is accepted exactly for the one size its frame may have: results and telemetry 8 bytes, a NOOP's answer 3, a register's reply as many as are awaited of that addressed ASIC |
| FrameParser.HeaderDecides | components/asic/bzm_frame_parser.c:104-142 | a frame of a legal size is waited for until it is whole, then delivered and its reply no longer awaited; without a legal size the first byte alone is dropped, and counted as an unexpected register exactly if it claims to be one |
| FrameParser.ParseComposes | components/asic/bzm_frame_parser.c:104-160 | parsing a stream in two parts, carrying leftover and expected lengths over, is parsing it at once |
| FrameParser.ParseConserves | components/asic/bzm_frame_parser.c:104-142 | emitted frames, discarded bytes and leftover are, in order, exactly the bytes fed |
| FrameParser.LeftoverIsShortAndStuck | components/asic/bzm_frame_parser.c:104-142 | what stays buffered is fewer bytes than a header or a proper prefix of one frame, always shorter than the buffer, and parses no further by itself |
| FrameParser.RoundTrip | components/asic/bzm_frame_parser.c:64-142 | any sequence of frames of legal kinds and sizes, at most one reply from each ASIC, put end to end, comes out as those frames with nothing discarded and nothing left, and uses up exactly the expectations it answers |
| FrameParser.Resynchronises | components/asic/bzm_frame_parser.c:104-142 | after noise that contains no wire id, exactly the noise is discarded and every legal frame that follows is recovered |
| FrameParser.ChunkingIsInvisible | components/asic/bzm_frame_parser.c:144-160 | for every stream and every way of cutting it up, chunk-wise parsing equals one parse of the whole |
| FrameParser.Parser.ExpectRegister | components/asic/bzm_frame_parser.c:25-34 | a reply length is accepted only for an addressed ASIC with none outstanding; nothing else changes |
| FrameParser.Parser.CancelRegister | components/asic/bzm_frame_parser.c:36-44 | only an outstanding expectation is cancelled |
| FrameParser.Parser.ParseBuffer | components/asic/bzm_frame_parser.c:104-142 | draining the buffer delivers, counts and discards what the pure parser says |
| FrameParser.Parser.Feed | components/asic/bzm_frame_parser.c:144-160 | feeding bytes one at a time does to frames, discards, counters, expectations and leftover what one pure parse of leftover and data does |
| FrameParser.Parser.RecentDiscards | components/asic/bzm_frame_parser.c:167-180 | the trace ring gives back the newest discarded bytes, oldest first |
| Topology.AsicIndex | components/asic/bzm_topology.c:23-34 | exactly the four wire ids have an index, and it is their position |
| RampTrace.LegalConfigs | components/asic/bzm_balanced_ramp.c:149-154 | of all readbacks only the written value, with or without the active bit, is accepted |
| RampTrace.PairOrderIsBalanced | components/asic/bzm_balanced_ramp.c:262-277 | engines started in pair order leave the stacks equal after each pair and one apart within it |
| RampTrace.BalancedAtEveryInstant | components/asic/bzm_balanced_ramp.c:232-277 | in every prefix of every safe trace each ASIC's running bottom and top engines differ by at most one, failed writes that landed included |
| RampTrace.SafeAt | components/asic/bzm_balanced_ramp.c:103-187 | safety at the end of a trace is safety at every instant of it; engines proven are a prefix of engines started |
| RampTrace.PairOrderIsExact | components/asic/bzm_balanced_ramp.c:232-277 | no engine is started twice |
| RampTrace.FullPairOrderIsEverything | components/asic/bzm_balanced_ramp.c:279-307 | an ASIC that has started 236 engines in pair order has started every engine of both stacks |
| BalancedRamp.Ramp.constructor | components/asic/bzm_balanced_ramp.c:189-194 | a fresh ramp is in the invariant with nothing started |
| BalancedRamp.Ramp.ActivateEngine | components/asic/bzm_balanced_ramp.c:103-158 | success adds one engine that was started, loaded and proven busy under a legal configuration, each start directly after a lease granted for that engine; failure leaves at most one unproven engine and blames the last event, which was refused or cannot be worked with |
| BalancedRamp.Ramp.AwaitBusy | components/asic/bzm_balanced_ramp.c:124-157 | one to three status reads with a pause between them and nothing else; only a busy bit with a legal configuration counts the engine; failure means three reads without a busy engine, or a busy one with another configuration than 0x04 or 0x14 |
| BalancedRamp.Ramp.ResetAsic | components/asic/bzm_balanced_ramp.c:166-184 | success leaves the ASIC's engines released from reset; only allowed while none of them runs, and directly after a granted lease |
| BalancedRamp.Ramp.PrepareAsic | components/asic/bzm_balanced_ramp.c:160-187 | an ASIC is reset once, before its first engine; a prepared one is not touched |
| BalancedRamp.Ramp.CommitPair | components/asic/bzm_balanced_ramp.c:232-277 | success starts both engines of the expected pair after a clean baseline and a valid sample with finite voltages; whenever one is started, the first is the bottom one exactly if the sample's bottom voltage is not below its top one; after a failure no operation is issued; every failure is blamed on the last event, and that event is at fault |
| BalancedRamp.Ramp.AcceptTransitionDiscards | components/asic/bzm_balanced_ramp.c:60-75 | only discarded bytes may be taken into the baseline, and only forwards |
| BalancedRamp.Ramp.FinishBarrier | components/asic/bzm_balanced_ramp.c:279-307 | passes exactly when nothing failed, all 118 pairs of all four ASICs are complete, the final barrier holds and the parser stayed clean; then all 944 engines are started and proven; with everything complete it fails only if the barrier does not hold or the parser did not stay clean |
| BalancedRamp.TallyOfPair | components/asic/bzm_balanced_ramp.c:262-277 | starting a pair in either order keeps pair order and adds exactly one completed pair |
| BalancedRamp.SweepShare | components/asic/bzm_bringup.c:1081-1114 | how many of the first n engines of a sweep are on each ASIC |
| BalancedRamp.SweepIsEven | components/asic/bzm_bringup.c:1081-1114 | at every instant of a sweep, failing ones included, no ASIC is more than one completed pair ahead of another |
| BalancedRamp.CommitNext | components/asic/bzm_driver.c:1275-1287 | a sweep committed on its next ASIC goes on as a sweep, or, if the commit fails anywhere, ends as one; in a sweep over the pair table it fails only on an answer that is at fault |
| BalancedRamp.PassBarrier | components/asic/bzm_driver.c:1290-1298 | the barrier passes only if all 236 engines of every ASIC are started and proven, and after a whole sweep fails only on its own two answers |
| Telemetry.Confirmation.Observe | components/asic/bzm_telemetry.c:262-324 | counts and stamps after a look, and its verdict, exactly: each new sample resets, raises or, on a trip, fills the row of anomalies; confirmed means something new and no row; continuous a row as long as required; nothing else but an unordered snapshot is invalid |
| Bringup.WriteAndVerify | components/asic/bzm_bringup.c:299-321 | success means every setting was read back after its write; no other register's or ASIC's evidence is touched; it fails only if nothing came through, or a register was read back as something else |
| Bringup.VerifySnapshot | components/asic/bzm_bringup.c:323-352 | good exactly when all four samples are received, not older than the configuration, fresh, safe and, if required, locked; otherwise the first that is not is named |
| Bringup.Acquire | components/asic/bzm_bringup.c:354-389 | one to five snapshots, the last either the fifth or the first in which every ASIC has reported since the configuration |
| Bringup.LookOnce | components/asic/bzm_bringup.c:396-427 | one look settles the verification well, badly or not at all exactly as the looks so far and this one amount to |
| Bringup.ConfirmedIsNotRefused | components/asic/bzm_bringup.c:391-440 | the looks that make a verdict good never make it bad |
| Bringup.VerifyTelemetry | components/asic/bzm_bringup.c:354-440 | a good verdict, with or without the lock requirement, rests on the four samples of a snapshot that was taken, fresh at a time read after it, not older than the configuration, clear, sound and, if required, locked; a bad one is deserved by the looks taken: the last is intolerable, a trip or the required number of anomalies in a row, or the last of the looks there are, with none confirmed; or a snapshot failed; blocked only without telemetry or delay |
| Bringup.AwaitAnswer | components/asic/bzm_bringup.c:226-238 | one to five probes, only silence being probed again |
| Bringup.Bringup.NumberAsic | components/asic/bzm_bringup.c:223-269 | one ASIC answers, is given its number and reads it back; a failure is five silences, a wrong number, or a failed transfer |
| Bringup.Bringup.StageChain | components/asic/bzm_bringup.c:215-285 | good means some ASIC answered the default address before each of the four numbers was written, every number was read back, and after the last the default address stayed silent; later stages are unproven; every failure is deserved by the last answers |
| Bringup.SensorsStayShown | components/asic/bzm_bringup.c:457-509 | one ASIC's sensor evidence survives the configuration of the others and of the drive strength |
| Bringup.Bringup.StageSensors | components/asic/bzm_bringup.c:442-532 | good means that all sensor settings of all ASICs had been read back when traffic was started, and the four samples of one snapshot were sound, fresh at a time read after it, and not older than a time read after the last write; with valid arguments it is bad only if nothing came through, a setting was read back otherwise, or the looks refuse; and blocked only by what it needs |
| Bringup.Bringup.AwaitLocks | components/asic/bzm_bringup.c:656-679 | good means both lock values read last were locked; unlocked means that in none of the given rounds both were |
| Bringup.Bringup.StartPlls | components/asic/bzm_bringup.c:609-679 | good means both PLLs' dividers were read back and both are locked, on a quiet bus; no divider is written unless all ASICs have confirmed quiet and its PLL was turned off; every failure is deserved by the last answers |
| Bringup.Bringup.ProgramClocks | components/asic/bzm_bringup.c:585-719 | traffic is stopped, confirmed off, all clocks are programmed and proven, and traffic is started; failure only on a failed transfer, a wrong readback, or PLLs not locked in any round |
| Bringup.ClocksStayShown | components/asic/bzm_bringup.c:607-710 | one ASIC's clock evidence survives the programming of the others |
| Bringup.ShownClocksAreAtPowerOn | components/asic/bzm_bringup.c:546-554 | what the clock stage reads back of all ASICs is the power-on frequency it records, for all eight domains |
| Bringup.Bringup.StageClocks | components/asic/bzm_bringup.c:568-727 | no register is read outside the two traffic broadcasts, and no divider set before all ASICs confirmed quiet; good means dividers, locks, DLLs and sensor controls of all ASICs were proven when traffic was started, and the four samples of one snapshot are safe, locked, fresh at a time read after it, and not older than a time read after traffic was started; with a valid profile and policy it is bad only if the answers or the looks deserve it |
| Bringup.Bringup.CloseReporting | components/asic/bzm_bringup.c:1063-1079 | good means result reporting is proven disabled on every ASIC |
| Bringup.Bringup.RampPair | components/asic/bzm_bringup.c:1081-1114 | one batch commits a pair on every ASIC; good means all four were then judged safe and locked, by one snapshot's samples that are fresh at a time read after it and not older than a time read after the last commit; a failure is deserved by a hook, by a commit blamed on an event at fault, or by the looks |
| Bringup.Bringup.RampAll | components/asic/bzm_bringup.c:1081-1114 | all 118 batches in turn, each judged before the next; stops only at a failure that is deserved |
| Bringup.Bringup.StageRamp | components/asic/bzm_bringup.c:1034-1123 | no pair is committed unless reporting is proven disabled everywhere and the batch before was judged good; whatever fails, the engines started are the beginning of a sweep; verified exactly on success, with every engine of every ASIC proven; from a fresh ramp with the right table it is bad only if an answer, a sample or the barrier was at fault |
| Bringup.Bringup.CheckRunning | components/asic/bzm_bringup.c:1125-1165 | reporting is opened only while the ramp is verified; running is set exactly on a good outcome, which rests on four safe, locked samples fresh at a time read after they were taken and not older than a time read after the last enabling write; running implies ramp, clocks, sensors and chain; with a valid policy and table it is bad only if the answers or the looks deserve it |
| Frequency.DividerIsNearest | components/asic/bzm_frequency.c:41-44 | no divider is nearer to the request, ties go to the lower, and the error is at most 3.125 MHz |
| Frequency.ResolveLandsOnGrid | components/asic/bzm_frequency.c:31-59 | a resolved target is in range, on the grid, near the clamped request, and resolves to itself |
| Frequency.ResolveIsMonotone | components/asic/bzm_frequency.c:31-59 | a higher request never resolves lower |
| Frequency.InitialIsBelow | components/asic/bzm_frequency.c:61-72 | the first jump passes neither its target nor 1425 MHz |
| Frequency.RampProgresses | components/asic/bzm_frequency.c:74-110 | a step is planned exactly when a valid target is still ahead, for any current frequency; it moves up, stays on the grid and does not overshoot |
| Frequency.RampTakesExactly | components/asic/bzm_frequency.c:74-110 | from the grid the upward ramp reaches its goal after exactly the initial jump, if there is one, and ceil(rest / 25 MHz) steps; each is planned and none is at the goal |
| Frequency.RampReachesFromAnywhere | components/asic/bzm_frequency.c:74-110 | from any frequency the first step lands on the grid, and at most ceil(distance / 25 MHz) further ones reach the goal |
| Frequency.LiveStepOnGrid | components/asic/bzm_frequency.c:112-149 | on the grid a live step goes four dividers or all the way, whichever is less, in either direction |
| Frequency.LiveRampTakesExactly | components/asic/bzm_frequency.c:112-149 | the goal is reached after exactly ceil(distance / 25 MHz) steps, and not before |
| LiveClock.LivePathIsPlanned | components/asic/bzm_frequency.c:112-149 | every point of that path is what the planner answers at the one before, and at the goal it answers nothing |
| LiveClock.PlannedStepIsAdmitted | components/asic/bzm_bringup.c:875-926 | the live stepper admits every step the planner plans, for any goals of the eight domains |
| LiveClock.InitialJumpIsAdmitted | components/asic/bzm_bringup.c:898-917 | it admits the planner's common first jump from power-on |
| LiveClock.OrdinaryIsAcceptable | components/asic/bzm_bringup.c:879-926 | from a point of the grid exactly the requests for a point at most 25 MHz away, up to 0.001 MHz, are acceptable |
| LiveClock.JumpIsAcceptable | components/asic/bzm_bringup.c:898-917 | a jump is acceptable exactly from power-on in all domains to one common point of the grid not above 1425 MHz |
| LiveClock.StepsAreSmall | components/asic/bzm_bringup.c:875-957 | no step moves a domain's clock by more than 25 MHz, but for that jump |
| LiveClock.Clocks.VerifyDomain | components/asic/bzm_bringup.c:741-792 | good means both dividers were read back right and the lock seen, all after the last write; bad means the last access failed, or a divider was read back as something else, or thirty reads of the enable register in a row showed no lock |
| LiveClock.Clocks.ProgramDomain | components/asic/bzm_bringup.c:794-819 | touches one domain; good means it runs on the target and is proven to; a failure is deserved in the same way |
| LiveClock.Clocks.ProgramAll | components/asic/bzm_bringup.c:821-854 | good means every domain runs on the target and is proven to; a failure is deserved by the domain it has come to |
| LiveClock.Clocks.Walk | components/asic/bzm_bringup.c:934-957 | the ordinary walk moves a row-major prefix and, taken up again, never loses one; a failure is deserved by the domain it names |
| LiveClock.StillAcceptable | components/asic/bzm_bringup.c:967-1001 | a retry is admitted whenever the first attempt was |
| LiveClock.AgreementAfterWalk | components/asic/bzm_bringup.c:934-957 | after an ordinary step a domain other than the reported one runs on its record if and only if it was reached and changed, or ran on it before |
| LiveClock.OnlyDoubtfulDisagree | components/asic/bzm_bringup.c:856-1001 | over every run of steps only domains a failed step reported, or all after a failed broadcast, and not changed since, can run on something else than recorded |
| LiveClock.PowerOnAgrees | components/asic/bzm_bringup.c:546-554 | a board at power-on is in agreement and on the grid, where runs of steps start |
| LiveClock.GoodStepKeepsDisagreement | components/asic/bzm_bringup.c:934-957 | a failed step after which domain 0 does not run on its record, and an admitted, good step after it that leaves it so |
| LiveClock.Clocks.RecordPowerOn | components/asic/bzm_bringup.c:724-725 | the clock stage's record makes steps possible, and is right if the hardware runs on the power-on dividers |
| LiveClock.Clocks.StepOnce | components/asic/bzm_bringup.c:856-965 | blocked exactly on inadmissible requests, with no bus access; otherwise a whole step or a prefix of one; bad only if deserved; the configuration time is read after everything else, and only then |
| LiveClock.Clocks.Step | components/asic/bzm_bringup.c:967-1001 | from any state: blocked means nothing was accessed or changed; good means all recorded clocks are at their targets and every changed domain runs on and is proven at its own; an ordinary failure moved exactly the domains before the reported one and disturbed none after it; every attempt but the last failed by I/O or read-back, and a last one that did is the third; the mean stays exact; an admissible step none of whose accesses deserved a failure is good at the first attempt |
| Crc32.MaskedShiftIsShift | components/asic/bzm_bridge_update.c:68-71 | the branch-free step is the conditional one |
| Crc32.FeedByte | components/asic/bzm_bridge_update.c:66-72 | eight steps absorb one byte |
| Crc32.ManifestCrc32 | components/asic/bzm_bridge_update.c:64-75 | the loop computes the register's complement over all bytes |
| Crc32.RegisterIsRemainder | components/asic/bzm_bridge_update.c:64-75 | the register is the remainder of polynomial long division by the generator |
| Crc32.CrcIsFrameCheckSequence | components/asic/bzm_bridge_update.c:64-75 | the result is the frame check sequence defined in section 3.2.9 of IEEE 802.3 |
| Crc32.ShiftIsInjective | components/asic/bzm_bridge_update.c:68-71 | no step merges two registers |
| Crc32.FeedIsInjective | components/asic/bzm_bridge_update.c:64-75 | a fixed run of bytes never merges two registers |
| Crc32.BurstIsDetected | components/asic/bzm_bridge_update.c:64-75 | inputs that differ only within four consecutive bytes have different checksums |
| Manifest.FindMagic | components/asic/bzm_bridge_update.c:143-160 | finds the one complete window that starts with the magic, or says whether there is none or more than one |
| Manifest.Validate | components/asic/bzm_bridge_update.c:137-201 | each verdict exactly when deserved: accepted if and only if one window carries the magic and it is well formed with a right checksum |
| Manifest.AcceptedIsCanonical | components/asic/bzm_bridge_update.c:161-201 | an accepted window is the one encoding of its contents |
| Manifest.CanonicalIsAccepted | components/asic/bzm_bridge_update.c:161-201 | the encoding of any legal contents is accepted |
| Manifest.DamageIsDetected | components/asic/bzm_bridge_update.c:161-201 | damage within four consecutive bytes of an accepted window's body is found out by the checksum |
| BridgeFrame.RequestRoundTrip | components/asic/bzm_bridge.c:23-45 | a request is refused for its size or recovered whole at the far end |
| BridgeFrame.ResponseRoundTrip | components/asic/bzm_bridge.c:47-79 | a response yields its payload exactly when ids match, it fits, and it is not one byte from 0x10 to 0x13 |
| BridgeFrame.ErrorCodesAreInBand | components/asic/bzm_bridge.c:64-77 | what a frame too short, of another length or for another request is answered with, and the one-byte payloads taken for each error |
| BridgeFrame.AcceptedIsItsFrame | components/asic/bzm_bridge.c:47-79 | only the frame of a payload decodes to it |
| SafetyStatus.EvidenceIsDetermined | components/asic/bzm_bridge.c:283-297 | an evidence word that passes is the one its facts call for |
| SafetyStatus.ReportIsAccepted | components/asic/bzm_bridge.c:205-368 | whatever a consistent bridge reports is accepted and read as it was |
| SafetyStatus.AcceptedIsReport | components/asic/bzm_bridge.c:205-368 | whatever is accepted is, byte for byte, the report of a consistent bridge |
| SafetyStatus.AcceptsExactlyReports | components/asic/bzm_bridge.c:205-368 | acceptance is exactly that; every rejection leaves the invalid fault-latched status of lines 128-136 |
| SafetyStatus.AcceptedIsCanonical | components/asic/bzm_bridge.c:205-368 | accepted payloads that agree on stage, state, fault, capabilities, lease, outputs, fan and trip are identical |
| SafetyStatus.ProductionGoodMeans | components/asic/bzm_bridge.c:325-367 | production-good exactly at the trip-latch stage with all capabilities, no fault or trip, and safe outputs or a live controlled lease |
| SafetyStatus.FaultClearWaitsForTrip | components/asic/bzm_bridge.c:621-628 | a latched fault may be cleared exactly when the trip input is gone; a rejected payload never allows it |
| FlashPlan.ChunkIsPages | components/asic/bzm_bridge_swd.c:811-827 | each chunk is whole pages, within the image but for one padded page, and advances to a page boundary or the end; it is a full 16 KiB unless less than a page of the image is left after it |
| FlashPlan.EraseCoversPages | components/asic/bzm_bridge_swd.c:836-836 | the erased length is whole sectors, less than one more than the image, covers every programmed page and stays inside the device |
| FlashPlan.PageProgrammedOnce | components/asic/bzm_bridge_swd.c:866-889 | no page belongs to two program operations |
| FlashPlan.NeverGoesBack | components/asic/bzm_bridge_swd.c:842-909 | any two reports are in order of phase and, within one, of progress |
| Flasher.ProgrammingBlank | components/asic/bzm_bridge_swd.c:880-884 | clearing bits of blank bytes writes exactly the data |
| Flasher.Device.WriteBlock | components/asic/bzm_bridge_swd.c:530-551 | packing bytes into words writes the data and zeros up to the word; it fails only with the error of its last access |
| Flasher.Device.VerifyBlock | components/asic/bzm_bridge_swd.c:553-575 | success means every byte was compared and equal; failure is the error of the last access, or a difference |
| Flasher.ChunkAdvances | components/asic/bzm_bridge_swd.c:866-889 | a padded chunk on blank flash extends the written image and leaves the rest blank |
| Flasher.WriteChunk | components/asic/bzm_bridge_swd.c:873-889 | one padded chunk, programmed once at its place, brings the image that much further on a device that does what it reports |
| Flasher.ProgramImage | components/asic/bzm_bridge_swd.c:864-889 | terminates, stays in the erased range, programs each page at most once and leaves the image followed by 0xff; it fails only with the error of its last access |
| Flasher.VerifyImage | components/asic/bzm_bridge_swd.c:891-902 | passes only a flash that holds every byte of the image, and fails only on a difference or a failed access |
| Flasher.FlashImage | components/asic/bzm_bridge_swd.c:829-912 | success means the image was read back and, on a device that does what it reports, the erased rest is 0xff; nothing outside the erased sectors changes on any path; it fails only with the error of the last access, or, on a device that does not do what it reports, because the flash differs |
| UpdateRun.Run | components/asic/bzm_bridge_update.c:304-351 | the trace of operations and the result fit one of three accounts |
| UpdateRun.OneRestorePerPrepare | components/asic/bzm_bridge_update.c:322-335 | a remark on Run: a successful prepare is followed by exactly one restore, whatever else fails; a failed one by none |
| UpdateRun.SuccessMeansAll | components/asic/bzm_bridge_update.c:322-351 | a remark on Run: success exactly when prepare, flash and restore succeeded and the query did or is unsupported |
| UpdateWorkers.StepKeepsInv | components/asic/bzm_bridge_update.c:250-573 | every step of every caller and worker keeps the invariant |
| UpdateWorkers.RunKeepsInv | components/asic/bzm_bridge_update.c:250-573 | so it holds after every run |
| UpdateWorkers.ReportedInOrder | components/asic/bzm_bridge_update.c:272-302 | the statuses published for successive reports of a flash are in order, because the reports are |
| UpdateWorkers.LeasesAndPreparesAreClosed | components/asic/bzm_bridge_update.c:373-434 | however a worker ends, its lease was given back exactly once through the hooks that granted it, and its prepare restored exactly once |
| UpdateWorkers.WorkersDoNotOverlap | components/asic/bzm_bridge_update.c:526-573 | only the newest worker is at work, and nothing another one does falls between two acts of one |
| UpdateWorkers.CompleteMeansVerified | components/asic/bzm_bridge_update.c:449-487 | "complete" implies a verified flash and, with a manifest, a matching running identity |
| UpdateWorkers.DoomedMeansCaused | components/asic/bzm_bridge_update.c:304-573 | in every run a worker is on its way to fail if and only if some step of it was refused, failed or unanswered |
| UpdateWorkers.CompleteUnlessCaused | components/asic/bzm_bridge_update.c:436-487 | a finished update is complete if and only if nothing in the run doomed it |
| UpdateWorkers.WorkersComeToAnEnd | components/asic/bzm_bridge_update.c:436-573 | an update can be started whenever none is running; its worker can always step, comes on with each step, and at the end publishes its result |
| UpdateWorkers.PublishedIsReported | components/asic/bzm_bridge_update.c:272-302 | while a flash runs the published status names the phase it reported last |
| UpdateWorkers.MaintenanceKeepsOthersOut | components/asic/bzm_bridge.c:536-562 | while flash is written no command goes out and the hooks do not change |
| UpdateWorkers.StatusNeverGoesBack | components/asic/bzm_bridge_update.c:272-302 | only the start of a new update takes the published phase back, given reports in the order the flash procedure is proved to keep |
| Settings.LoadSetting | main/nvs_config.c:429-521 | loading one setting adds exactly its entries, each with what flash gives, and tells whether any was found |
| Settings.Init | main/nvs_config.c:424-523 | the load loop fills the cache with what a reload gives, and marks exactly the settings found |
| Settings.WriteFollowsStore | main/nvs_config.c:329-396 | writing an update to flash and storing it in the cache keep the two in agreement, already after the main key alone |
| Settings.WritesFollowStores | main/nvs_config.c:343-396 | so do any number of them |
| Settings.InitAgrees | main/nvs_config.c:280-329 | start-up, with its takeover of the older fan key, leaves flash and cache in agreement |
| Settings.LegacyFanIsTakenOver | main/nvs_config.c:298-307 | an older firmware's positive fan value is used and kept if there is no newer one; nothing else in flash changes |
| Settings.ReloadIsCache | main/nvs_config.c:435-456 | a value survives a reload if and only if it is not an empty string with another default |
| Settings.ClearedComesBack | main/nvs_config.c:435-456 | an empty string stored over any other default reloads as that default |
| NvsConfig.LocksAreKept | main/nvs_config.c:588-713 | every step keeps each mutex with the one thread that took it |
| NvsConfig.StepKeepsInv | main/nvs_config.c:343-713 | every step of setters, getters and the save task keeps flash exactly the outstanding stores behind the cache |
| NvsConfig.DoorIsExact | main/nvs_config.c:588-713 | an idle thread can always call; a setter gets in exactly for a value of the setting's kind, in every entry of a string setting and the first of any other |
| NvsConfig.SetTakesEffect | main/nvs_config.c:588-713 | in every run a set call that has ended was at some instant of it the newest store to its slot, or found its value there and marked as set, or was a string's and was refused memory |
| NvsConfig.GetReturnsCached | main/nvs_config.c:550-586 | what a get call returns was the cached value of its slot at an instant of the call |
| NvsConfig.SetMeansStored | main/nvs_config.c:588-713 | in every run a setting is marked as set exactly if start-up found it or anything was stored in it |
| NvsConfig.ReloadOfEverythingIsCache | main/nvs_config.c:343-713 | in every interleaving, reloading flash with the in-flight, queued and pending updates gives the cached value of every key and index |
| NvsConfig.PowerLossIsAPastCache | main/nvs_config.c:343-396 | at any moment flash alone reloads as the cache was some stores ago, missing at most the outstanding ones |
| NvsConfig.NeverStuck | main/nvs_config.c:343-396 | unless all is at rest, the save task or some caller can step: the bounded queue and the mutexes never deadlock |
| NvsConfig.DrainIsBounded | main/nvs_config.c:343-396 | without new calls every run is at most as long as the work left |
| NvsConfig.RestIsSaved | main/nvs_config.c:343-396 | at rest flash reloads as the cache |
| LogBuffer.LogBuffer.RingWrite | main/log_buffer.c:47-69 | a write no longer than the ring appends to the log, and the ring holds its newest bytes |
| LogBuffer.LogBuffer.SoftReboot | main/log_buffer.c:217-223 | the log goes on with the restart line and the console joins at its end |
| LogBuffer.LogBuffer.CopyOut | main/log_buffer.c:306-314 | any range still in reach is copied out right, wrapped or not |
| LogBuffer.LogBuffer.ReadAbsolute | main/log_buffer.c:257-322 | a read is a slice of the log up to the new cursor, cut after its first newline, resuming at a line boundary when overrun |
| LogStream.ReadIsDetermined | main/log_buffer.c:257-322 | that description leaves a read no freedom |
| LogStream.ReaderReceivesTheLog | main/log_buffer.c:257-322 | a reader that is never overrun receives the whole log in order while it grows |
| LogStream.ReadMakesProgress | main/log_buffer.c:293-322 | a read of an unfinished log moves the cursor |
| LogBuffer.LogBuffer.FlushOnce | main/log_buffer.c:80-117 | one turn prints a slice and, before it, the count of exactly the bytes it skipped |
| LogBuffer.LogBuffer.Flush | main/log_buffer.c:76-119 | turns without a writer in between bring the console up to date |
| LogStream.Conservation | main/log_buffer.c:71-125 | bytes printed plus bytes counted as dropped are the cursor's advance, and without drops the print is the log |
| LogStream.ReplaysLonger | main/log_buffer.c:71-125 | what has been printed stays the log with its gaps removed as the log grows |
| JobTable.StoreGenerated | components/asic/asic_job_store.c:124-140 | a store keeps every entry at the slot its handle names |
| JobTable.HandlesCollideExactly | components/asic/asic_job_store.c:132-136 | two handles are equal exactly when slots agree and generations agree modulo 2^56 |
| JobTable.NeverReissued | components/asic/asic_job_store.c:124-140 | below 2^56 generations no generated handle is issued again, and none is the invalid one |
| JobTable.OnlyLoses | components/asic/asic_job_store.c:90-212 | over every run a generated handle resolves to its own entry or to nothing, and once to nothing always to nothing |
| JobTable.ResolvesToItsOwn | components/asic/asic_job_store.c:90-171 | what it resolves to is the job and context of its own store |
| JobTable.InvalidateTakesAll | components/asic/asic_job_store.c:187-212 | an invalidation takes every handle, a release exactly its own |
| JobTable.ResolveAfter | components/asic/asic_job_store.c:90-212 | what every handle resolves to after any operation: a store makes its own handle, slot number or generated, resolve to its job and bound context, and ends any other handle of that slot |
| JobTable.CountersAfter | components/asic/asic_job_store.c:124-212 | a generated store takes the next slot and generation, an invalidation begins again at slot 0 in a new generation, nothing else moves either |
| JobTable.RetainedUntilTheTableTurns | components/asic/asic_job_store.c:124-140 | a job outlives the next capacity - 1 generated stores when the capacity divides 65536 |
| JobTable.EvictedWhenItsSlotComesRound | components/asic/asic_job_store.c:124-140 | the store that comes round to its slot ends it |
| JobTable.UnevenSizeLosesEarly | components/asic/asic_job_store.c:132-132 | when the capacity does not divide 65536, a job stored as the counter wraps is lost before a full turn |
| JobTable.RetentionIsExact | components/asic/asic_job_store.c:124-140 | every job outlives the next capacity - 1 generated stores, in every run from start-up, if and only if the capacity divides 65536 |
| JobStore.JobStore.BeginSubmission | components/asic/asic_job_store.c:56-65 | only the binding changes |
| JobStore.JobStore.SubmissionContext | components/asic/asic_job_store.c:76-88 | the bound context for the bound job, the default for any other |
| JobStore.JobStore.StoreSlot | components/asic/asic_job_store.c:108-122 | the array does what the table does; no handle for a slot out of range |
| JobStore.JobStore.StoreGenerated | components/asic/asic_job_store.c:124-140 | likewise, with the handle the table generates |
| JobStore.JobStore.Snapshot | components/asic/asic_job_store.c:149-171 | finds exactly what the handle resolves to |
| JobStore.JobStore.ReleaseHandle | components/asic/asic_job_store.c:187-200 | releases exactly a handle that resolves |
| JobStore.JobStore.InvalidateAll | components/asic/asic_job_store.c:202-212 | the clearing loop leaves the invalidated table |
| Submissions.StepIsExclusive | components/asic/asic_job_store.c:56-74 | whoever is inside owns the submission lock and the binding |
| Submissions.SomeoneCanGoOn | components/asic/asic_job_store.c:56-74 | while anyone submits or waits to, someone can enter or leave; whoever is inside can store, and what it stores is what its handle resolves to |
| Submissions.StepKeepsProvenance | components/asic/asic_job_store.c:90-106 | every step keeps every entry traceable to a store that recorded the context its producer meant |
| Submissions.ResolvedContextIsItsProducers | components/asic/asic_job_store.c:56-106 | in any interleaving a resolved context is the one its own producer bound, or the default, never another's |
| ResultPath.Handle | components/asic/asic_result_handler.c:8-110 | the callbacks made and the status returned are those of the outcome function, for any answers |
| ResultPath.WellformedIsGenuine | components/asic/asic_result_handler.c:21-57 | a result is not rejected exactly if its protocol is known, its texts end, its version differs from the job's by the reported bits, all inside the mask, and its extranonce is at most 32 bytes in hexadecimal |
| ResultPath.SubmittedExactlyWhenWorthy | components/asic/asic_result_handler.c:59-98 | a share is submitted if and only if it is genuine, outside self-test, of current work, at or above a positive pool difficulty, with its protocol's callback installed and, for V1, a transport not known to be down |
| ResultPath.ReportedExactly | components/asic/asic_result_handler.c:8-110 | each status is returned, a share accounted and a self-test recorded exactly when it should be |
| ResultPath.SubmittedOnceAndRightly | components/asic/asic_result_handler.c:69-98 | at most one submission, by the protocol's route, for a share at or above a positive pool difficulty with version bits in its mask, after its generation was found current |
| ResultPath.AccountedOnlyIfStillCurrent | components/asic/asic_result_handler.c:100-110 | accounted last and only if the generation was current after any submission |
| ResultPath.RejectionIsSilent | components/asic/asic_result_handler.c:12-57 | a remark on Handle: rejected exactly when malformed, and then without any effect |
| ResultPath.ShareCarriesItsProducersGeneration | components/asic/asic_result_handler.c:18-53 | the generation a share is checked under is the one its producer submitted that very job with |
| ResultPath.SendJob | components/asic/asic_submit.c:9-35 | sent at the first turn that takes it, cancelled at the first that finds its generation retired; never offered after either |
| Modulo.Further | main/log_buffer.c:51-62 | moving at most a ring's length on lands further along or once round |
| Modulo.WrapsEvenly | components/asic/asic_job_store.c:132-132 | a counter that wraps at a multiple of the table's size still goes round it evenly |

## Left out

- NULL arguments and incomplete function tables, except where a missing optional callback changes what is done.
- `bzm_telemetry.c` below the confirmation: what a sample's readings amount to is two verdicts on its content, next to its age, trip and lock bit.
- Telemetry is taken to have one content for each ASIC and time stamp. The transport takes in frames and snapshots under one lock (`bzm_transport.c` lines 134-144 and 385-394).
- The engine grid behind the pair table: a table is a list of locations, and `topology_is_exact` is its check pair by pair, without the check that all 236 physical ids differ.
- The sentinel work of `bzm_work.c`: one operation that succeeds or fails.
- UART, GPIO, I2C, FreeRTOS task creation, delays, timeouts and heap failures, apart from the allocation a string setter makes.
- The wire level of the debug port below memory words, and the stub's own polling; an operation is reported done or not.
- Flasher.FlashImage: the 0xff after the image is claimed only for a device that does what it reports; for any other only the bytes that were read back are.
- Float settings, their `%f` text, and the takeover of older pool and theme keys by JSON; the formatting of numbered key names, which are taken as distinct.
- The settings cache is modelled on values: pointers to strings and their freeing are not.
- Failing flash writes of settings.
- Log writes longer than the ring, wrap-around of the 64-bit log position, and a header torn by a power cut.
- Generation counters beyond 2^56, beyond what HandlesCollideExactly says of them.
- Bodies of jobs: hashes and header fields that no claim needs, and the hash that gives a nonce its difficulty.
- The retry loop of ASIC_send_job is stated for any finite number of turns.
- Image vector checks and forced uploads in `bzm_bridge_update.c`, and the remaining bridge commands: branch-by-branch checks.
- LiveClock.Clocks.Step: says nothing of what the eight domains run on after a failed broadcast jump, since each may have taken either divider or none; the recorded clocks stay as they were.
- Float rounding off the 6.25 MHz grid.
- `bzm.c`, `asic.c`, the BM13xx drivers, screens, networking and tools.

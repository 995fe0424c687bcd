# A model of the GSP cold-boot planner and executor

This project models the part of the repository that takes a packaged set of firmware to a running GSP: the
planners that compute byte layouts and register actions, the auditors that re-check them, and the executors that
touch registers and VRAM. Each module is one component; `dafny verify dfyconfig.toml` checks them all.

## How it is organised

- `BootRun`, `BootPhaseExecutor`, `BootAttempts`, `BootReports`: the twelve-phase run and what may be released after a
  failure.
- `BootTransfers`, `BootTrace`, `AuditedRun`, `BarAccess`, `ColdBoot`: what a run loads, what its log says bit by bit, what
  the audit alone makes sure of, what a run can touch, and the way from package bytes to register writes.
- `Falcon`, `FalconPolicy`, `WriteReach`, `FalconExec`, `Mmio`: the action-list interpreter over a device, and its
  allow-list.
- `FalconLog`, `ExecTrace`, `PlanTrace`: what a device log says, and the log a successful execution leaves.
- `FalconPlan`, `FalconDma`, `FalconTrace`, `SequencePlan`, `BootSequencePolicy`: compiling loads, what plans and
  executions mean to the DMA engine, and the independent audit of the whole sequence.
- `Pramin`, `PraminDevice`, `WritePolicy`: windowed VRAM access and the backup, stage, verify and restore transaction.
- `Radix3`, `Rpc`, `RpcLaws`, `Ring`, `Registry`, `Bootstrap`, `QueueMemory`, `Metadata`: the byte structures GSP reads.
- `Wpr`, `Manifest`, `Artifacts`, `Frts`, `Prototype`, `Prepare`, `Placement`, `Resolve`,
  `ColdGraph`, `ColdReads`, `ResolutionLaws`: the cold address graph.
- `Package`, `PackageParse`, `PackageLaws`, `PackageReads`, `PackageDma`, `PackageResolve`: the boot package and its
  staging.
- `Sha256`, `Sha256Constants`: its hashes.
- `Dma`, `DmaBuffer`: scatter lists, page lists and prepared buffers.
- `Words`, `Arith`, `Bytes`, `Fields`, `Wrappers`, `Gsp`: machine words as bounded integers with bitwise operators,
  byte strings, fixed structures, and the planner's records.

`size_t` is 64 bits throughout. Words are bounded integers, with wrap-arounds and truncations written out. An overflow
guard that the constants and earlier guards already exclude is not always repeated.

## The device models

Registers: an environment decides, from the whole log of what was done so far, whether a mapping succeeds and what a
read returns. Nothing is assumed of it, so a statement about every environment covers registers that change on their own.

Windowed VRAM: any mapping may fail; an aperture write may store wrong bytes, but only inside the range it addresses;
selector writes and reads are truthful, because the code reads the selector back without comparing it. A device is
called exact when its aperture stores what it is given, and healthy when in addition no mapping is refused.

Falcon DMA: four address registers, the memory offset one of a given width, and a command word whose size and target
bits select a transfer; no timing.

## What turned out otherwise

- `Write32` stores the whole register and ignores its mask when executed; only the audit keeps its value inside the
  rule's mask. `MaskedWrite` alone preserves other bits: `FullWriteIgnoresMask` is an input, `BitsOutsideMask` the exact
  condition.
- The auditor and the planner differ on one point: the planner bounds a Falcon DMA destination by 32 bits, the
  allow-list by 24. Everything else agrees, and on a 24-bit register exactly the plans the auditor admits load right.
- The WPR heap can be smaller than requested, exactly when the request is not whole MiB and the firmware starts late in
  its MiB. The final ordering guard of the layout is unreachable.
- Acceptance of a layout is monotone in the boundary exactly for heap requests above 15 times 64 KiB. Every smaller
  nonzero request has a layout that a raised boundary loses.
- A lowered live boundary is never prepared. It ends in a placement mismatch, except where the scratch images do not
  fit below the reserved region, which is tested first: `LowCardUnderflows` is such a card.
- The bootstrap queue checks each record against the ring but not their sum. The system-info record can be read exactly
  when both fit together; `LongNameOverwrites` is a registry for which it cannot.
- The ring's write pointer is reduced after its sum has wrapped at 32 bits, which matters only for rings of more than
  2^31 slots, far beyond any queue.
- For some queue sizes other than the default the queue planner counts fewer entries than the allocation has pages.
- The queue planner's entry count is summed without a guard. It can wrap only with one-byte pages, which no planner asks
  for; `WrappedCountPlans` is a layout with no entries.
- The error status of the VRAM transaction is ambiguous: the rollback failed, or the original failure had that status.
  VRAM is as it was in every case but the first.

## Model

| member | source | states |
|---|---|---|
| BootRun.BootRunSafety | macos/Driver/RTXMacBootPhase.cpp:97-181 | over every run from a fresh Ready attempt, for every device behaviour and gate, a different accepted sequence on each call included: a cold-reversible failure has written no register; any write means the reset commit was crossed, and a later failure owes a full reset with buffers pinned; success means all twelve phases, once each, in order; every write was legal |
| BootRun.OverrideIsDead | src/core/boot_orchestrator.cpp:51-53 | in every reachable attempt the override of a recovery after the commit changes nothing: the failed phase alone already demands the full reset |
| BootRun.PlayKeeps | macos/Driver/RTXMacBootPhase.cpp:97-181 | the run invariant (log legality, phases done in order, commit crossed exactly when something was written, state against recovery) holds after any sequence of calls and postchecks |
| BootRun.CallProgress | macos/Driver/RTXMacBootPhase.cpp:97-181 | one call sleeps exactly what it reports and at most its budget; it either leaves the attempt as it was or uses up one of the results it has left, and with writes disabled it writes nothing |
| BootRun.CallDecides | macos/Driver/RTXMacBootPhase.cpp:97-181 | what one call comes to in any reachable attempt: not admitted, or closed by the gate, it changes nothing; otherwise it is recorded, unless its actions all passed without a write; a pass moves on by one phase, and a failure is reversible exactly in the first two phases with nothing written |
| BootReports.TakenExactly | src/core/boot_orchestrator.cpp:21-39 | which reports an attempt takes and how it refuses each other one, itself unchanged |
| BootReports.ReportsAreSafe | src/core/boot_orchestrator.cpp:21-85 | whatever is reported on an accepted sequence, in whatever order and however false: the successes taken are the phases in order, each with a start exactly when it has actions; a reversible end means no report taken said that something was written, and after one that did a failure owes a full reset |
| BootRun.VerdictNeedsPostcheck | src/core/boot_orchestrator.cpp:69-85 | over every run: it ends recovered only through a postcheck that clears it and unrecovered only through one that does not, and that verdict is final |
| BootTrace.BootRunLeaves | macos/Driver/RTXMacBootPhase.cpp:97-181 | over every run whose calls bring one sequence, on any device: while it can go on, and when it has succeeded, its log is the bitwise traces of the actions and checks of exactly the phases done, in order, and no write stands outside them |
| BootTrace.BootRunVerifies | src/core/gsp_manifest.cpp:185-192 | a run of one planned sequence that succeeded has, in this order, read 0x1FA828 as nonzero, 0x840040 as zero, 0x111388 with bit 7 set, and the status queue's word 28 as 0x1000 |
| AuditedRun.AuditedRunShows | src/core/boot_sequence_policy.cpp:54-194 | no run of a sequence the audit refuses succeeds; a run of one it accepts, whoever made it, succeeds only with WPR2 read as set, the expected libOS address written to GSP's mailbox, the booter's result read as zero, the expected version written, the core read as active and the status queue read as laid out, in that order |
| BootTrace.BootRunPrograms | src/core/gsp_manifest.cpp:184-192 | in such a run GSP is started with the FRTS firmware's parameters before WPR2 is verified; SEC2 then with the booter's, its two mailbox words joining to the WPR metadata's address, before its result is read; nothing is written after that but the version that releases the core; and when the core is seen active the GSP mailbox words join to the libOS arguments' address |
| BootTrace.BootRunResets | src/core/falcon_plan.cpp:76-96 | in such a run each engine was reset before it was started and GSP again, for RISC-V, between the two starts: the line raised, held 100 ms and released, scrubbing awaited, and the core selected as its configuration bit asks |
| BarAccess.BootRunStaysInside | macos/Driver/RTXMacFalcon.cpp:21-54 | over every run, whatever its calls bring: no read or write leaves BAR0 or is unaligned, and each bit a write sets, or changes when it is merged, is one of the listed bits of one of the 21 listed registers of an engine |
| ColdBoot.RunReadsPackage | src/core/gsp_manifest.cpp:172-193 | from package bytes to registers: a succeeded run over a parsed package's profile and resolved graph started GSP with the words at 72, 84, 96 and 98 of the file, SEC2 at the word at 100, released the core with the word at 56, and gave SEC2 and GSP the first pages of the WPR metadata's and libOS arguments' buffers |
| ColdBoot.RunLoadsPackage | src/core/gsp_manifest.cpp:172-193 | and both engines' memories hold the images the preparation placed, at the bases, offsets and sizes the file gives at 76 to 92 and 100 to 112 |
| BootTransfers.BootRunTransfers | macos/Driver/RTXMacBootPhase.cpp:97-181 | over every run whose calls bring one planned sequence, on any device and going by the writes in its log: a succeeded run has sent GSP exactly the FRTS firmware's transfers and SEC2 exactly the booter's, and no run, however it ends, has sent an engine more than a first part of its own |
| BootTransfers.BootRunLoadsFirmware | macos/Driver/RTXMacBootPhase.cpp:97-181 | after a succeeded run each engine's memories hold its firmware, from any VRAM that holds the image where the plan has it, as a successful staging transaction leaves it |
| BootTransfers.PhaseSends | macos/Driver/RTXMacBootPhase.cpp:130-167 | one phase of the plan sends an engine its load in its load phase, all of it if the phase succeeds, and in any other phase nothing |
| BootPhaseExecutor.ExecuteNextBootPhase | macos/Driver/RTXMacBootPhase.cpp:97-181 | the method re-audits, runs and records as the functional step says: result, attempt and device log all agree with it |
| BootPhaseExecutor.ExecuteCheck | macos/Driver/RTXMacBootPhase.cpp:68-95 | success means the last event is a reading of what the check looks at whose masked bits are as its kind demands, every earlier reading missed and was followed by a millisecond's sleep; a timeout means the whole budget was slept and the last reading still missed; otherwise the device refused; status, wait and log are those of the bounded wait |
| BootPhaseExecutor.ExecuteChecks | macos/Driver/RTXMacBootPhase.cpp:149-167 | the checks of a phase run in order on one wait budget and stop at the first failure; on success each check's passing trace is in the log, one behind the other |
| BootAttempts.BootAttempt.Begin | src/core/boot_orchestrator.cpp:5-19 | a new attempt is runnable exactly when preflight is ready and the audit accepts the sequence |
| BootAttempts.BootAttempt.RecordPhaseResult | src/core/boot_orchestrator.cpp:21-67 | the object's whole new state after a phase result, every refusal leaving it unchanged |
| BootAttempts.BootAttempt.RecordResetPostcheck | src/core/boot_orchestrator.cpp:69-85 | a postcheck counts exactly while a reset is awaited, and recovers exactly when it reports recovery, release and rebuild and no demand to keep the buffers pinned |
| FalconExec.FlatRefinesProg | macos/Driver/RTXMacFalcon.cpp:108-229 | the flat list with its skip flag performs the same reads, writes and sleeps as the structured program whose conditionals are blocks, for every device and starting point |
| FalconExec.ExecuteFalconPlan | macos/Driver/RTXMacFalcon.cpp:108-229 | on an accepted plan the report and the device log are those of the structured program; a refused plan touches nothing and names its first denial |
| FalconExec.RunIsSafe | macos/Driver/RTXMacFalcon.cpp:108-229 | an execution sleeps what it reports and never more than its budget, reports a start exactly when something was written, and writes only allow-listed registers: each masked write keeps every bit outside the rule's mask as just read, each full write carries none |
| FalconExec.BitsOutsideMask | macos/Driver/RTXMacFalcon.cpp:69-99 | an executed write keeps the bits its own mask leaves out if and only if it is masked or the register held none of them |
| FalconExec.FullWriteIgnoresMask | macos/Driver/RTXMacFalcon.cpp:81-99 | a concrete permitted full write of one bit that changes the 31 bits outside its mask |
| FalconExec.ExecutePoll | macos/Driver/RTXMacFalcon.cpp:153-174 | success means the last reading matches under the mask, bit by bit, after readings that all missed, each followed by a millisecond's sleep; a timeout means the last one misses and either the action's limit or the budget is used up; otherwise the device refused |
| FalconExec.ExecuteConcreteWrite | macos/Driver/RTXMacFalcon.cpp:69-99 | a successful write is logged bit by bit as the action says: a full write stores its value; a masked one reads the register, then stores the value's bits under the mask and the bits just read elsewhere; the ordering read follows. A refused write stores nothing |
| FalconExec.StartTrace | macos/Driver/RTXMacFalcon.cpp:187-206 | a successful CPU start read CPUCTL once: with bit 6 set it wrote bit 1 alone to the alias register, otherwise it merged bit 1 into CPUCTL |
| ExecTrace.AcceptedRunLeaves | macos/Driver/RTXMacFalcon.cpp:108-229 | every successful run of an accepted list leaves exactly the trace of the program it flattens, each action bit by bit and each block's body present exactly when the one reading of its test matches |
| FalconPolicy.CheckPlanPolicy | src/core/falcon_policy.cpp:161-209 | a plan is valid exactly when the scan accepts it; otherwise the report names the first action that spoils it |
| FalconPolicy.AcceptedIffStructured | src/core/falcon_policy.cpp:161-209 | the audit accepts exactly the flattenings of well-formed programs, blocks never nested, each action permitted |
| FalconPolicy.StartCpuResolves | src/core/falcon_policy.cpp:141-159 | resolving a permitted CPU start never fails: the alias register is used exactly when bit 6 of the live CPUCTL value is set, and either write is itself allowed |
| FalconPolicy.AllowedWriteFits | src/core/falcon_policy.cpp:79-139 | a permitted write's mask and value both lie in the register's writable bits |
| WriteReach.LegalReaches | src/core/falcon_policy.cpp:12-77 | a legal write sets, or changes when merged, only the listed bits of each register, given by number |
| WriteReach.AllowedExactly | src/core/falcon_policy.cpp:12-139 | the allow-list admits an action if and only if it is lawful by register number and bit: a write's mask among the bits its register may have written, a test's among those that may be tested, values under their masks, and every limit |
| Falcon.ParseFlatten | macos/Driver/RTXMacFalcon.cpp:130-139 | recovering blocks inverts flattening, so an action list determines its program |
| BootSequencePolicy.CheckSequence | src/core/boot_sequence_policy.cpp:131-194 | valid exactly for an accepted sequence, with its action count and four checks; a bad header, each case with its own failure, counts nothing; otherwise the report stops at the first failing phase with that phase's failure and the counts reached, the failing phase's own included once they are added |
| BootSequencePolicy.AuditPhase | src/core/boot_sequence_policy.cpp:54-129 | which failure a phase has, in the order place, action shape, denied action, checks, and what of it is counted; a denied action is the first one |
| FalconPlan.AddDma | src/core/falcon_plan.cpp:49-74 | a load is planned exactly when its source fits the two base registers, it is whole 256-byte blocks and no offset wraps 32 bits; then the actions appended are that load's |
| FalconPlan.PlanAuthenticatedExecution | src/core/falcon_plan.cpp:98-140 | the plan is valid exactly when both loads can be expressed, holds setup, IMEM load, DMEM load and finish in that order, and ends by register number with the boot ROM parameters, the boot vector, the mailbox words that join to the mailbox, the start and the wait for the halt |
| FalconPlan.PlanReset | src/core/falcon_plan.cpp:76-96 | the reset list for either core, the Falcon form closing its conditional block |
| PlanTrace.LoadTrace | src/core/falcon_plan.cpp:98-140 | a successful load by its log: setup values by register number; then a DMA load for each memory, every command behind a reading that shows room in the queue and each load ended by a reading that shows the engine idle; then the finish, event by event |
| PlanTrace.LoadPrograms | src/core/falcon_plan.cpp:121-138 | over that log: at the start write the last values of BOOTVEC, the boot ROM parameters and the mailbox are the load's, the two mailbox words joining to one address; the start is the last write; the log ends with a reading that shows the CPU halted |
| PlanTrace.ResetTrace | src/core/falcon_plan.cpp:76-96 | a successful reset event by event, with the values of every bit it writes and polls, its conditional block included |
| FalconDma.PlanTransfers | src/core/falcon_plan.cpp:98-140 | on a model of the DMA registers, whatever they held, a valid plan issues exactly the consecutive 256-byte blocks that copy image+codeOffset to IMEM and image+dataOffset to DMEM if and only if the memory offset register holds every destination; one of 32 bits always does, and the split base registers rebuild the source |
| FalconDma.IntendedLoads | src/core/falcon_plan.cpp:98-140 | after those transfers every byte of both memories is the VRAM byte it should be inside its range and unchanged outside |
| FalconDma.ImageIsLoaded | src/core/falcon_plan.cpp:98-140 | from any VRAM that holds the image at the plan's address, as a successful staging leaves it, those transfers put the firmware bytes into both memories |
| FalconDma.StagedFirmwareIsLoaded | src/core/falcon_plan.cpp:98-140 | and so they do from VRAM staged window by window |
| FalconTrace.RunTransfers | macos/Driver/RTXMacFalcon.cpp:108-229 | going by the writes the device log holds, every execution of an audited load plan, on any device and however it ends, issues only a first part of the intended transfers in order, and all of them when it succeeds, for a memory offset register of 24 bits or more |
| FalconTrace.AuditedLoadsRight | src/core/falcon_policy.cpp:161-209 | on the 24-bit memory offset register of the allow-list, the auditor admits exactly the valid load plans that make the intended transfers |
| FalconTrace.ExecutedPlanLoadsFirmware | macos/Driver/RTXMacFalcon.cpp:108-229 | staging an image and executing its load plan with success leaves the firmware bytes in both memories |
| FalconTrace.ActionDoes | macos/Driver/RTXMacFalcon.cpp:69-106 | an executed action does to the DMA registers what the plan's action says, reads, polls and the resolved CPU start included; a failed one does nothing to them |
| SequencePlan.PlannerMeetsAuditor | src/core/boot_sequence_policy.cpp:131-194 | over a planned manifest with a libOS page the audit accepts the planned sequence if and only if every Falcon DMA destination of both loads fits 24 bits |
| SequencePlan.LoadAccepted | src/core/falcon_policy.cpp:161-209 | a valid load plan passes the allow-list if and only if both destination ranges end below 2^24 |
| SequencePlan.ResetAccepted | src/core/falcon_plan.cpp:76-96 | every reset plan passes the allow-list, for both engines and every chip id |
| SequencePlan.WideDestinationIsRefused | src/core/falcon_plan.cpp:62-69 | a concrete load the planner calls valid and the audit refuses |
| SequencePlan.PlanBootSequence | src/core/gsp_manifest.cpp:172-193 | planning succeeds exactly under the stated guards and then yields the twelve phases with their loads, resets, mailbox words and checks |
| ColdGraph.ColdSequenceIsAudited | src/core/gsp_manifest.cpp:172-193 | over a resolved cold graph only the two load plans decide whether a sequence is planned, and only their destinations whether it passes the audit |
| Pramin.PlanPraminStage | src/core/pramin.cpp:9-62 | the windows a range is split into, refused exactly when the range is empty, outside VRAM or past the last selectable window |
| Pramin.PlannedIsExecutable | src/core/pramin.cpp:64-146 | what the dry run demands holds of a planned staging if and only if the plan is valid and offset and length are multiples of four |
| Pramin.BuildDryRun | src/core/pramin.cpp:64-146 | the dry run accepts a plan, edited ones included, exactly when its chunks tile the range, each in one window, placed and word aligned |
| Pramin.ReplayIsFlatCopy | src/core/pramin.cpp:64-146 | replaying the steps of any accepted plan on windowed VRAM is one flat copy of the source, whatever window was selected before |
| Pramin.StagingRules | src/core/pramin.cpp:64-146 | of registers staging may write 0x1700 alone, with any value; of the aperture exactly non-empty runs of whole words from 0x700000 up to 0x800000 |
| Pramin.ChunkInWindow | src/core/pramin.cpp:9-62 | the window a chunk selects shows the chunk's VRAM offset at the place in the aperture it is written to |
| PraminDevice.StagePramin | macos/Driver/RTXMacPramin.cpp:179-240 | bytes outside the range never change; success needs an executable plan; on an executable plan only a refused mapping fails it, and on an exact device success leaves the source in the range |
| PraminDevice.VerifyPramin | macos/Driver/RTXMacPramin.cpp:242-296 | success means the range equals the expected bytes; on an executable plan failure means a refused mapping, or the I/O error of a difference |
| PraminDevice.ReadPramin | macos/Driver/RTXMacPraminTransaction.cpp:141-174 | success means the destination is the range; failure on an executable plan comes only from a refused mapping |
| PraminDevice.StageTransactional | macos/Driver/RTXMacPraminTransaction.cpp:176-209 | all or nothing: success means the range is the source; any status but success and the ambiguous error leaves all of VRAM as it was, and that error does too unless the restoration failed; bytes outside the range never change; on a plan and buffers of the right shape, whatever the device, a failure is a refused mapping, a comparison that found wrong bytes, or a failed restoration, never chunk validation |
| PraminDevice.WindowedVram.WriteAperture | macos/Driver/RTXMacPramin.cpp:90-126 | a faulty aperture may store wrong bytes, but only inside the addressed range; an exact one stores the source |
| PraminDevice.WindowedVram.CompareAperture | macos/Driver/RTXMacPramin.cpp:128-164 | comparison succeeds only on equal bytes and fails only on a difference or a refused mapping |
| PraminDevice.WindowedVram.ReadAperture | macos/Driver/RTXMacPraminTransaction.cpp:86-116 | a read fills exactly its part of the destination with the bytes of the selected window |
| WritePolicy.RegionAdmits | include/rtxmac/write_policy.hpp:80-105 | one region rule admits exactly the non-empty, aligned ranges inside it |
| WritePolicy.FullMaskAdmits | include/rtxmac/write_policy.hpp:21-34 | a rule over a whole register admits every change of it |
| Radix3.PlanRadix3 | src/core/gsp_radix3.cpp:22-56 | planning succeeds exactly for images of 1 to 2^39 bytes, with the level counts and offsets of that size |
| Radix3.RootCapacity | src/core/gsp_radix3.cpp:30-38 | one root page suffices if and only if the image is at most 2^39 bytes, and each level covers the one below |
| Radix3.LayoutIsTight | src/core/gsp_radix3.cpp:22-56 | each level has the fewest pages that name the level below, levels and image follow each other page by page, and the allocation is whole pages of both |
| Radix3.BuildRadix3Tables | src/core/gsp_radix3.cpp:58-85 | over a planned layout building fails only on a wrong page count or an unaligned page and otherwise writes the three levels |
| Radix3.BuildRadix3AllocationImage | src/core/gsp_radix3.cpp:87-105 | the allocation is tables, firmware and zeros to the end of its last page, refused only for a wrong size or page list |
| Radix3.TreeIsWalkable | src/core/gsp_radix3.cpp:58-105 | for every accepted image size and aligned distinct page list a three-step walk from the root through the serialized entries reaches the physical page of every image page, and it holds the firmware, zero padded |
| Radix3.UnusedEntriesAreZero | src/core/gsp_radix3.cpp:71-83 | every table entry past the last child is zero, at all three levels |
| Rpc.RpcChecksum | src/core/gsp_rpc.cpp:35-47 | the 64-bit accumulation and its final fold give the exclusive or of the little-endian words, a short last word zero extended |
| Rpc.PlanRpcFragments | src/core/gsp_rpc.cpp:49-73 | the loop produces the fragment list whose tiling and round trip are stated below, none when a record cannot hold its headers |
| Rpc.BuildRpcRecord | src/core/gsp_rpc.cpp:75-122 | a record is built exactly when its payload and element count fit, with the checksum stored into its own field |
| RpcLaws.BuiltRecordValidates | src/core/gsp_rpc.cpp:124-146 | every built record passes validation with the same limits and carries payload, function, sequence and checksum |
| RpcLaws.BuiltRecordHolds | src/core/gsp_rpc.cpp:75-122 | a built record by offset: 32 zeros, sequence at 36, element count at 40, version and signature at 48 and 52, length and function at 56 and 60, both results pending, payload at 80, zeros to the end, in as few elements as hold it, its words cancelling |
| RpcLaws.BuildableIff | src/core/gsp_rpc.cpp:81-97 | a record can be built if and only if its payload is at most 2^32 - 33 bytes and, with 80 more, fits its elements |
| RpcLaws.AlteredWordIsRejected | src/core/gsp_rpc.cpp:124-146 | changing any one aligned word of the covered bytes, other than the length word, is rejected |
| RpcLaws.FragmentsTile | src/core/gsp_rpc.cpp:49-73 | fragments tile the payload exactly, all but the last of full capacity, and only later ones are continuations; none exist exactly when the capacity holds no payload |
| RpcLaws.FragmentsRoundTrip | src/core/gsp_rpc.cpp:49-122 | with a capacity above 80 and at most 2^32 bytes every fragment can be built with the same limits and the recovered payloads join to the original |
| Ring.PutRecord | src/core/gsp_bootstrap.cpp:21-33 | a put succeeds exactly under its guards, writes the record from the write pointer with wrap-around and moves the pointer; a refusal changes nothing |
| Ring.EveryRecordReadable | src/core/gsp_bootstrap.cpp:21-33 | after records whose elements total at most the ring's, put from any pointer, every one reads back from its slot |
| Ring.PutAllFrames | src/core/gsp_bootstrap.cpp:21-33 | puts leave the queue header and everything past the ring untouched |
| Ring.PointerAdvances | src/core/gsp_bootstrap.cpp:21-33 | the pointer advances by the total modulo the ring if and only if no single sum leaves 32 bits, as none does in a ring of at most 2^31 slots; a queue of 32-bit size has fewer than 2^20 |
| Ring.LargestRingLosesPointer | src/core/gsp_bootstrap.cpp:21-33 | in a ring of 2^32 - 1 slots a two-slot record put at the last slot gets the pointer wrong |
| Registry.BuildRegistryTable | src/core/gsp_bootstrap.cpp:62-95 | a table is built exactly for usable names within 32 bits, in one pass of entries and one of strings |
| Registry.TableReadsBack | src/core/gsp_bootstrap.cpp:62-95 | every entry reads back: its offset leads to its NUL-closed name, beside its type, value and size |
| Bootstrap.BuildGspSystemInfo | src/core/gsp_bootstrap.cpp:44-60 | read from the 928 bytes, each field has its value at its own offset, the passthrough flag at 840, and every gap is zero |
| Bootstrap.BuildBootstrapCommandQueue | src/core/gsp_bootstrap.cpp:101-138 | the queue is built exactly when the ring has at least two slots and each record alone fits it; header, both records and final pointer |
| Bootstrap.BothRecordsReadable | src/core/gsp_bootstrap.cpp:101-138 | when both records fit the ring together each reads back from its slot and the header holds the pointer behind them |
| Bootstrap.CommandQueueHolds | src/core/gsp_bootstrap.cpp:101-138 | when both records fit together, the queue by offset: its header words, the system-info record of function 72 in the first slot, the registry record of function 73 from the second, the write pointer behind them and zeros after |
| Bootstrap.FullRegistryOverwrites | src/core/gsp_bootstrap.cpp:21-33 | a registry record as long as the ring is accepted, and slot 0 then holds its last page |
| Bootstrap.SystemInfoSurvives | src/core/gsp_bootstrap.cpp:101-138 | in any queue that is built, slot 0 reads back as the system-info record if and only if both records fit the ring together |
| Bootstrap.LongNameOverwrites | src/core/gsp_bootstrap.cpp:101-138 | one value with a 4096-letter name is accepted for a three-page queue and costs the system-info record |
| Registry.TableHasNoZeroRun | src/core/gsp_bootstrap.cpp:62-95 | behind its head words a table holds a nonzero byte within any 32, up to its last byte |
| Bootstrap.BuildSharedQueueAllocationImage | src/core/gsp_bootstrap.cpp:140-167 | over a planned layout the allocation is built exactly when table and queue can be, and holds table, command queue and a zero status queue |
| Bootstrap.SharedParts | src/core/gsp_bootstrap.cpp:140-167 | each part of the allocation lies at the offset the layout gives |
| Bootstrap.ArgumentsLink | src/core/gsp_bootstrap.cpp:140-167 | following the argument block into the allocation: at the offset it gives at 16 lies that command queue, at the one at 24 the zero status queue, each filling the rest, and entry k at the front names page k |
| Bootstrap.DefaultRegistryFits | src/core/gsp_bootstrap.cpp:97-99 | the default registry is an 82-byte table that fits one element of any accepted queue beside system info |
| QueueMemory.QueuesPlannedExactly | src/core/gsp_boot.cpp:30-67 | for any queue and entry size, with pages of more than one byte, a layout is planned if and only if the sizes are nonzero, the queue is whole pages and table and queues together fit 64 bits, so no guard on the way refuses more; with one-byte pages the count wraps unguarded and the exact condition on the wrapped count is stated instead |
| QueueMemory.WrappedCountPlans | src/core/gsp_boot.cpp:47-49 | two queues of 2^62 bytes in one-byte pages with one-byte entries are planned with no entry at all |
| QueueMemory.CountIsExact | src/core/gsp_boot.cpp:47-49 | with pages of two bytes or more the unguarded sum never wraps |
| QueueMemory.QueuesShape | src/core/gsp_boot.cpp:30-67 | every planned layout, whatever its page and entry size, has table, command queue and status queue back to back in whole pages, with room for every entry counted |
| QueueMemory.EntryPerPage | src/core/gsp_boot.cpp:42-53 | for any page and entry size, where the count did not wrap, the plan never counts more entries than the allocation has pages, and counts one per page if and only if the entries for the table's own pages still fit the pages counted for the queues |
| QueueMemory.OneMegabyteQueuesMiscount | src/core/gsp_boot.cpp:42-53 | two 1 MiB queues are planned with 513 entries for 514 pages |
| QueueMemory.DefaultQueueCounts | src/core/gsp_boot.cpp:42-53 | the default size has one entry for each of its 129 pages |
| QueueMemory.BuildQueuePageTable | src/core/gsp_boot.cpp:69-88 | the table is built exactly for a matching, aligned page list and is its addresses, zero to the end |
| QueueMemory.TableEntry | src/core/gsp_boot.cpp:69-88 | entry i of the table reads back as page i |
| QueueMemory.BuildCachedArguments | src/core/gsp_boot.cpp:90-105 | read from the 72 bytes: the shared page at 0, the entry count at 8, the command queue's offset at 16, the status queue's at 24, a 1 at 48, and zeros elsewhere |
| Fields.FieldReadsBack | src/core/gsp_metadata.cpp:97-135 | in any structure serialized field by field, every field reads back whatever the others hold |
| Metadata.BuildWprMeta | src/core/gsp_metadata.cpp:97-135 | read from the 256 bytes, each of the thirty fields has its value at its own offset, boot count, verified word and every gap zero |
| Metadata.MakeLibosId8 | src/core/gsp_metadata.cpp:137-142 | an id of one to eight characters becomes one number, longer and empty ones are refused |
| Metadata.IdIsReversed | src/core/gsp_metadata.cpp:137-142 | stored little-endian, that number is the id's characters reversed and zero padded |
| Metadata.BuildLibosInitPage | src/core/gsp_metadata.cpp:144-162 | the page is built exactly for at most 128 regions with usable ids and sizes |
| Metadata.RegionReadsBack | src/core/gsp_metadata.cpp:144-162 | region i of the page reads back: id, address, size, kind and location |
| Wpr.PlanWprLayout | src/core/gsp_metadata.cpp:46-95 | a layout exists exactly when the chain of subtractions stays within VRAM and the heap keeps a MiB; the ordering guard before the result never rejects anything |
| Wpr.RegionsAreDisjointAndAligned | src/core/gsp_metadata.cpp:46-95 | the regions of every layout are ordered, disjoint, aligned to their granularity and large enough, below the boundary less its margin |
| Wpr.LayoutIsTight | src/core/gsp_metadata.cpp:46-95 | each region starts at the last boundary of its own granularity that leaves room for it, so no layout wastes a unit |
| Wpr.HeapCoversRequest | src/core/gsp_metadata.cpp:75-78 | the heap is the request rounded to a MiB, and covers it if and only if the request is whole MiB or the firmware starts early enough in its MiB |
| Wpr.SmallerHeapExample | src/core/gsp_metadata.cpp:75-78 | a concrete layout whose heap is smaller than requested |
| Wpr.LoweringShifts | src/core/gsp_metadata.cpp:59-83 | lowering the boundary by whole MiB moves every offset from the WPR end down by exactly that and changes no size |
| Wpr.AcceptanceIsMonotone | src/core/gsp_metadata.cpp:46-95 | for a nonzero heap request, raising the boundary within VRAM never loses a layout if and only if the request exceeds 15 times 64 KiB |
| Wpr.RaisingKeepsLayout | src/core/gsp_metadata.cpp:46-95 | an accepted layout survives a raised boundary if and only if the request is a MiB or more or the firmware then starts earlier in its MiB than the request reaches |
| Wpr.SmallLayoutIsLost | src/core/gsp_metadata.cpp:77-78 | for every nonzero request up to 15 times 64 KiB a layout that one raised boundary takes away |
| Wpr.AlignUp | src/core/gsp_metadata.cpp:18-25 | rounding up succeeds exactly when the next multiple fits 64 bits, and is that multiple |
| Manifest.PlanBootManifest | src/core/gsp_manifest.cpp:108-124 | a manifest is valid exactly when its three planners accept and every size rounds to pages, and then lists the nine allocations in order |
| Manifest.AllocationsRead | src/core/gsp_manifest.cpp:108-124 | one allocation of each kind, by kind: what it holds, rounded to the next page, and how the device reaches it |
| Manifest.ResolveSystemDmaAllocation | src/core/gsp_manifest.cpp:68-106 | a linear requirement resolves exactly on one aligned contiguous range, a page list exactly on an expandable one |
| Manifest.PlanFramebufferStaging | src/core/gsp_manifest.cpp:126-150 | both images are planned exactly when each lies aligned below the reserved region, within selector reach, and they do not overlap |
| Manifest.BuildFramebufferStageArtifact | src/core/framebuffer_stage.cpp:8-43 | an artifact is built exactly for a matching plan and firmware, and is the firmware zero padded to its allocation |
| Manifest.StagedImagesAreBuildable | src/core/framebuffer_stage.cpp:8-43 | every image of an accepted plan yields an artifact, and its staging plan passes all checks the transaction makes |
| Artifacts.BuildResolvedArtifacts | src/core/gsp_manifest.cpp:152-170 | the six buffers are built exactly when pages, firmware, regions and registry match a planned manifest |
| Frts.BuildFrtsCommand | src/core/frts.cpp:40-66 | a command exists exactly for a page-aligned VRAM of at least 2 MiB whose region fits 32 bits of pages |
| Frts.CommandNamesRegion | src/core/frts.cpp:40-66 | read as the firmware reads it, the command names the first MiB of the last two |
| Frts.CommandReads | src/core/frts.cpp:40-66 | the ten words of the command, each at its offset |
| Frts.FirstMapper | src/core/frts.cpp:106-113 | the scan finds the first DMEM mapper entry, or none exists |
| Frts.PlanFwsecFrtsPatch | src/core/frts.cpp:68-156 | the status of every image, descriptor and signature length is that of the first thing that does not fit, and an accepted plan is the one the first mapper entry leads to |
| Frts.PatchFollowsImage | src/core/frts.cpp:68-156 | an accepted plan followed through the image's bytes: header, a mapper entry of kind 4, its command field at 44, its command buffer and the signature, all inside the rounded image |
| Frts.PlannedPatchApplies | src/core/frts.cpp:158-181 | a planned patch can be applied with any signature of the stated length |
| Frts.ApplyFwsecFrtsPatch | src/core/frts.cpp:158-181 | patching succeeds exactly under its guards, for offsets whose sums stay within 64 bits, and writes the id, the command and the last bytes of the signature the plan asks for |
| Frts.PatchTouchesOnlyItsFields | src/core/frts.cpp:158-181 | command, signature and the id 0x15 each read back unless a later part overlaps it, and no other byte changes |
| Prototype.PrototypeLayout | src/core/ga10x_prototype.cpp:84-100 | with the prototype constants the heap is exactly the request and the WPR end is the boundary rounded down to 128 KiB |
| Prepare.PlanBootPreparation | src/core/ga10x_boot_prepare.cpp:81-185 | status and plan for every profile: ten generated buffers, reused sizes, scratch placements and the FRTS agreement |
| Placement.PreparationReads | src/core/ga10x_boot_prepare.cpp:96-150 | the ten generated buffers of a prepared profile by kind: size, whole pages, and consecutive for all but queue and firmware |
| Placement.PreparationOutcome | src/core/ga10x_boot_prepare.cpp:153-173 | what preparing a prototype profile comes to: it is prepared if and only if the images fit, the boundary is fbSize less 1 MiB and fbSize is whole 128 KiB; a lowered boundary never is, and ends in a placement mismatch unless the images do not even fit |
| Placement.PreparedIsDefault | src/core/ga10x_prototype.cpp:23-30 | a profile that can be prepared, whatever boundary was found live, is the one assumed without any |
| Placement.OneFrtsRegion | src/core/ga10x_boot_prepare.cpp:167-182 | in a prepared profile the FWSEC command, the WPR layout and the scratch plan name one FRTS region, and the scratch images lie directly below the reserved one |
| Resolve.ResolveBootMemory | src/core/ga10x_boot_resolve.cpp:30-156 | for every preparation plan, its buffers in any order, and every set of page lists: the status in the order of the checks; on success each generated address is the first page of the last buffer of its kind, signature and bootloader lie where the first staged entry of their kind has them, linear, aligned, nonzero and of the reused size, and the scratch images where the preparation put them; regions and page total |
| Resolve.RegionsBuildable | src/core/ga10x_boot_resolve.cpp:145-152 | the six libOS regions of a resolution always serialize |
| ResolutionLaws.ResolvesExactlyWhenFitting | src/core/ga10x_boot_resolve.cpp:34-156 | a prepared profile resolves if and only if there is one view per buffer, each with the counted, aligned, nonzero pages, consecutive where linear, beside reusable staged entries: the zero-count and page-total guards never fire |
| ResolutionLaws.PlanIsShaped | src/core/ga10x_boot_resolve.cpp:87-120 | what a preparation plans is in the order resolution records, the five logs last, so its log count guard never fires |
| ResolutionLaws.EveryPreparationResolves | src/core/ga10x_boot_resolve.cpp:34-156 | page lists that resolve exist for every prepared profile: preparation never asks for what resolution refuses |
| ResolutionLaws.CardResolves | src/core/ga10x_prototype.cpp:31-105 | a concrete 8 GiB card whose package has a profile, a preparation and a resolution, so the cold-graph statements are about something |
| ResolutionLaws.CardIsParsed | src/core/boot_package.cpp:286-381 | that card's package is the parsed view of a file the builder writes |
| ResolutionLaws.LowCardUnderflows | src/core/ga10x_boot_prepare.cpp:153-165 | a concrete card and lowered boundary whose profile is fine and whose preparation ends in a scratch underflow, not in a placement mismatch |
| ColdGraph.ArtifactsAlwaysBuild | src/core/gsp_manifest.cpp:152-170 | when profile, preparation and resolution succeed, the artifacts build for every firmware of the manifest's size with the default registry |
| ColdGraph.StagingAlwaysPlans | src/core/gsp_manifest.cpp:126-150 | and the staging planner accepts the scratch placements |
| ColdGraph.GraphAligned | src/core/ga10x_boot_resolve.cpp:87-143 | all nine resolved addresses are page aligned |
| ColdGraph.ParsedPackageFitsProfile | src/core/ga10x_prototype.cpp:31-76 | a package that parses is never refused a profile for its verification, its target or a missing section |
| PackageDma.PlanPackageDmaStaging | src/core/package_dma_plan.cpp:39-81 | every section gets the fewest whole pages that hold it, consecutive for signature and bootloader alone, with exact totals; the first failing section decides |
| PackageDma.ReusedSizesAgree | src/core/ga10x_boot_resolve.cpp:129-138 | the signature and bootloader sections are staged with exactly the sizes the preparation means to reuse |
| PackageResolve.ResolvePackageDmaSummary | src/core/package_dma_resolve.cpp:42-100 | the status of every staging plan and every set of staged sections, in the order of the checks, and on success where each section lies |
| PackageResolve.StagedPackageIsReusable | src/core/ga10x_boot_resolve.cpp:122-138 | whatever a package's staging plan and a successful summary of it, a prepared profile of that package can reuse signature and bootloader if and only if neither lies at address zero |
| PackageResolve.StagedPackageResolves | src/core/ga10x_boot_resolve.cpp:34-156 | over a prepared profile and its staged package, resolution succeeds if and only if the generated buffers' page lists fit and no reused allocation lies at zero |
| ColdReads.StagedAddresses | src/core/ga10x_boot_resolve.cpp:122-143 | over a package staged by its plan with a successful summary, the resolved signature and bootloader are the first pages of the first staged sections of those kinds, every generated address the first page of the buffer of its kind, and the scratch images lie where the preparation put them |
| ColdReads.StagedArtifactsRead | src/core/gsp_manifest.cpp:152-170 | and the built artifacts send the booter there: the signature's first page at 72 of the WPR metadata, the bootloader's at 32, the firmware root at 16; the argument block names the queue's first page, and the libOS page its five logs by name and first page |
| ColdReads.ManifestArtifactsRead | src/core/gsp_manifest.cpp:152-170 | every field of the metadata built for a manifest by its offset, and the queues the argument block leads to |
| Package.BuildPackage | src/core/boot_package.cpp:215-283 | for any metadata and five payloads: the status, the section records and the whole serialized file |
| PackageParse.ParseAndVerify | src/core/boot_package.cpp:286-381 | the verdict on any bytes, in the order of the checks, and the view of accepted ones |
| PackageLaws.BuiltPackageParses | src/core/boot_package.cpp:286-381 | parsing a built package accepts it and returns the same metadata and records |
| PackageLaws.PayloadsAreFound | src/core/boot_package.cpp:383-392 | each payload is found again by its kind |
| PackageLaws.ParsedPackageIsSound | src/core/boot_package.cpp:286-381 | whatever parses holds all five kinds once, page aligned, past the table, inside the file, pairwise disjoint, each with its hash |
| PackageReads.ParsesExactly | src/core/boot_package.cpp:286-381 | a file is accepted if and only if it conforms byte by byte: the header's words and zeros by offset, five records of different kinds, each a page-aligned part behind the table with the hash it states, no two meeting |
| PackageReads.BuiltFileReads | src/core/boot_package.cpp:230-283 | a built file conforms, has each metadata word at its offset, and packs its payloads tightly: each at the first page behind the one before, zeros between, the last one ending the file |
| PackageReads.ProfileReads | src/core/ga10x_prototype.cpp:31-105 | a parsed package's profile number by number: each descriptor field is the word at its offset, each input size that of the section with its code, and the constants |
| Sha256.Sha256 | src/core/sha256.cpp:53-78 | the digest equals the FIPS 180-4 definition: padding of section 5.1.1, blocks of 5.2.1, compression of 6.2.2 |
| Sha256.Transform | src/core/sha256.cpp:24-50 | one block updates the hash value in place as the standard's compression does |
| Sha256Constants.RoundConstants | src/core/sha256.cpp:9-18 | each of the 64 round constants is the first 32 fractional bits of the cube root of its prime (section 4.2.2 of FIPS 180-4) |
| Sha256Constants.InitialHash | src/core/sha256.cpp:53-56 | the initial hash value is that of the square roots of the first eight primes (section 5.3.3) |
| Sha256Constants.SigmaBits | src/core/sha256.cpp:24-50 | the four sigma functions bit by bit (section 4.1.2) |
| Sha256Constants.ChoiceBits | src/core/sha256.cpp:38-46 | choice and majority bit by bit |
| Sha256.Expand | src/core/sha256.cpp:25-37 | the array holds the message schedule, the source's order of additions included |
| Sha256.PadTail | src/core/sha256.cpp:59-66 | the one- or two-block tail is the message's rest, the closing bit, zeros and the bit length |
| Sha256.RorRotates | src/core/sha256.cpp:20-22 | two shifts and an or rotate |
| Sha256.PaddedSplits | src/core/sha256.cpp:57-68 | the padded message is its whole blocks followed by the padded tail |
| Sha256.Sha256Equal | src/core/sha256.cpp:80-84 | accumulated differences are zero exactly for equal digests |
| Dma.ValidateDmaSegments | src/core/dma.cpp:7-43 | coverage is Ok exactly when the segments exist in the address space and hold the bytes asked for; otherwise the status is that of the first fault |
| Dma.ResolveLinearDmaRange | src/core/dma.cpp:45-68 | a range resolves exactly for covering segments each starting where the previous ends |
| Dma.ExpandDmaSegmentsToPages | src/core/dma.cpp:70-125 | expansion succeeds exactly for a power-of-two page, a whole-page request and aligned covering segments; its own recount never fails |
| Dma.PageMapAgrees | src/core/dma.cpp:70-125 | the page list sends every byte offset to the address the scatter list gives it |
| Dma.LinearTestsAgree | src/core/package_dma_plan.cpp:83-103 | on page-aligned segments the range resolves if and only if the expanded list is a linear page list, up to the top of the address space, with the same base |
| Dma.IsLinearDmaPageList | src/core/package_dma_plan.cpp:83-103 | the scan accepts exactly the aligned lists whose pages follow one another |
| Dma.PageSizesArePowersOfTwo | src/core/dma.cpp:77-80 | the mask test passes exactly on powers of two |
| DmaBuffer.PrepareChunk | macos/Driver/RTXMacDma.cpp:39-110 | a chunk is prepared exactly for sound arguments and a segment list that covers it page by page |
| DmaBuffer.AllocateAndPrepare | macos/Driver/RTXMacDma.cpp:159-219 | success exactly when allocation and every chunk succeed; the chunks then tile the buffer in order |
| DmaBuffer.CollectDmaPageAddresses | macos/Driver/RTXMacDma.cpp:233-288 | collecting succeeds exactly for a sound buffer with room, and yields one address per page |
| DmaBuffer.CollectedIsExpanded | macos/Driver/RTXMacDma.cpp:233-288 | the collected list is the one expanding the buffer's whole scatter list gives |

## Left out

- Frts.ApplyFwsecFrtsPatch: edited plans whose offsets lie so close to 2^64 that the guards' sums wrap are not modelled; there the source writes outside the image. PlannedPatchApplies covers every plan the planner makes.
- BootTransfers.BootRunLoadsFirmware: other accesses to VRAM during a run are not modelled; the image is assumed to stay where staging put it.
- Radix3.BuildRadix3Tables: takes the layout `PlanRadix3` makes; on other layouts the source's bound checks can themselves wrap and its page list be read past its end.
- Radix3.BuildRadix3AllocationImage: likewise takes a planned layout.
- Bootstrap.BuildSharedQueueAllocationImage: takes a planned layout, since the source copies the page table without comparing its size with the allocation's.
- Artifacts.BuildResolvedArtifacts: takes a manifest `PlanBootManifest` made, or an invalid one.
- DmaBuffer.AllocateAndPrepare: one status stands for creating the descriptor, setting its length and allocating the chunk array; releasing what was prepared before a failure is not modelled.
- Package.BuildPackage: takes the five payloads and the metadata as given; parsing of VBIOS, ELF and firmware containers is not part of this model.
- PackageParse.ParseAndVerify: the view of a rejected package is left open beyond its status. The status for a section table without a first page cannot arise from its constants and is omitted.
- BootPhaseExecutor.ExecuteNextBootPhase: preflight, live arming and reset postcheck are inputs; their guard lists are not modelled.
- Null pointers in the VRAM functions, and the alignment arithmetic that rounds a mapping to pages beyond what bounds it.
- Byte assembly by `|=` of disjoint bytes is modelled as addition; masks of the form `value & (2^n - 1)` and shifts by constants as remainder and quotient.
- ParseWindowsPciHardwareId, EncodePciBdf, status names, chip names and diagnostics: lookups and text.
- PCI command, BAR decode and system-memory flush programming: single-register encodings.
- DriverKit, user client, Swift host, scripts and command line: I/O. Hardware timing, cache coherence, signature authenticity and hash collisions are outside any statement here.

# Models and proofs for the RZ/V2H CR8 port, its instruments and its Linux side

This project models the parts of the repository whose correctness is not visible from any one
function, and proves what they are there for.

**Interrupts and task switches on the Cortex-R8** (`Arm`, `PortAsm`, `TaskFrames`, `PortC`,
`BspIrq`, `Runs`, `Invariant`, `ExitProofs`, `RunTheorems`, `RunBuilding`, `FpState`, `Defects`).
`PortAsm.Cortex` executes `portASM.asm` instruction by instruction on a machine with banked
registers, 32-bit wrap-around and a word-addressed memory; each routine is proved equal to a closed
form. The interrupt frame is a parameter, with `lr` as it is now or without as it was, so that one
set of proofs covers both. `Runs` is a state machine over these forms: a FreeRTOS task computes, an
interrupt is taken at any depth, a handler computes and asks for a switch, returns, leaves through
either exit path, a task yields with SVC.
Handlers, hooks, scheduler and priorities are arbitrary within the procedure-call standard (AAPCS32
sections 6.1.1 and 6.1.2: they may change r0-r3, r12, lr, the flags, D0-D7 and FPSCR) and the GIC's
rule that only a higher priority preempts (IHI 0048, section 3.3.1).
One invariant over every run gives transparency of nested interrupts, isolation of tasks, exact
service of switch requests and the bound on the unchecked id stack. `FpState` is about the
floating-point registers, none of which `IRQ_Handler` saves. `Defects` shows what the two
repaired defects do: with the frame without `lr` exactly which interrupts are transparent, and a
run of every system that ends in the exit code; and the exit without a nesting test.

**The instruments that watch it** (`IrqGuard`, `GuardRuns`, `Watermark`, `FaultRecord`, `FaultRuns`,
`FaultRace`, `FaultWitness`). The padding-word guard runs alongside the machine above; the interrupt
history, the stack watermark and the first-fault record are each proved against a simple history of what happened. The fault
record is modelled one store at a time, under calls whose steps interleave in any order.

**The doorbell on the A55** (`Doorbell`, `RzRproc`): the interleavings of interrupt thread and
poller, with missed signals, spurious wake-ups and a clock; `rz_proc_notify` and
`rz_proc_irq_handler` as written.

**Smaller cores**: the web server's request/report protocol with `pwmd` (`PwmWeb`,
`PwmForeign`, `ServePwm`), the two ELF header tools (`ElfPatch`, `ElfLayout`), `uartd`'s rolling
window and JSON text (`UartText`), the select-interrupt registers (`SelectPacking`) and the
timestamp segments (`Timestamps`).

Four properties one might expect do not hold as they stand, and the model says when they do:

- An interrupt that switches no task, at any depth, gives back the floating-point registers exactly when
  `FreeRTOS_EndOfInterrupt` leaves D0-D7 and FPSCR at their values before the interrupt
  (`RunTheorems.InterruptsAreTransparent`); it does when all C code it ran was integer code
  (`FpState.IntegerHandlersAreTransparent`), and one store to D0 in a handler reaches the
  interrupted task (`FpState.HandlerFpReachesTask`).
- The fault record is first-wins and never torn only as long as at most one call still to run is in
  the middle of its stores, which masking or never returning ensures (`FaultRuns`). From any state in
  which that has held so far, with no initialisation half done, the remaining calls can spoil it
  exactly when, with the magic in place, two that differ are unfinished before publication or one
  past its test differs from the published record, where a call that has still to store the version
  counts as different; and without the magic, when two are unfinished, whatever they store
  (`FaultRace.NamedCallsGoWrongIff`). Two
  failing allocations in two tasks do it (`FaultWitness.MallocCallsTear`), and so do any two calls
  before the initialisation (`FaultWitness.CallsBeforeInitTear`).
- A report returned by the web server can be that of another command, exactly when the read before
  the command failed on a matching report or an identical command was left over
  (`PwmForeign.ForeignAnswerIff`); both happen from the start of the server (`PwmForeign.LeftoverRun`,
  `PwmForeign.FailedLookRun`).
- The stack scan under-reports when a store happens to write the paint value
  (`Watermark.ScanIsExactIff`).

The comments call 8-byte stack alignment at C calls the goal of the padding; the code gives 4 modulo
8, and that is what is proved.

`dafny verify dfyconfig.toml` checks everything.

## Model

| member | source | states |
|---|---|---|
| Arm.Psr.StatusRoundTrip | fsp-patches/portASM.asm:186-189 | a status register pushed as a word and moved back is the same status register |
| PortAsm.Cortex.IrqEntry | fsp-patches/portASM.asm:181-231 | entry up to the call of vApplicationIRQHandler: both frames, the padding word, the nesting count and the snapshot, nothing else; the two C calls with their return addresses, the acknowledged word in r0 and r4 |
| PortAsm.Cortex.IrqExit | fsp-patches/portASM.asm:233-330 | both exit paths; FreeRTOS_EndOfInterrupt is called with what r4 has kept, vTaskSwitchContext exactly when the count is back at 0 and a switch is requested; masked however it was entered |
| PortAsm.NestedSwitchIsRecorded | fsp-patches/portASM.asm:297-305 | a switch counts one, and its slot for nested switches stays 0 exactly when none was nested |
| PortAsm.Cortex.SaveContext | fsp-patches/portASM.asm:58-95 | portSAVE_CONTEXT in closed form, with and without floating point |
| PortAsm.Cortex.RestoreContext | fsp-patches/portASM.asm:99-135 | portRESTORE_CONTEXT in closed form, whatever the registers held |
| PortAsm.Cortex.SvcHandler | fsp-patches/portASM.asm:145-165 | SVC saves the running task, lets the scheduler choose, restores the chosen one |
| PortAsm.Cortex.StartFirstTask | fsp-patches/portASM.asm:172-177 | starting the scheduler restores the current task's frame |
| TaskFrames.SaveBuildsFrame | fsp-patches/portASM.asm:58-95 | saving stores exactly the task frame just below sp and changes no other word |
| TaskFrames.RestoreReadsFrame | fsp-patches/portASM.asm:99-135 | restoring recovers the context any such frame was made from |
| TaskFrames.SaveRestoreIdentity | fsp-patches/portASM.asm:58-135 | restore after save is the identity whatever the scheduler did in between, on the floating-point registers when the frame holds them |
| TaskFrames.TaskFrameLayout | fsp-patches/portASM.asm:58-95 | every word of the saved frame, from the status word at the top to the floating-point flag |
| PortC.Port.InitialiseStack | fsp-patches/port.c:207-295 | the words built for a new task, three guard words, nothing else touched |
| PortC.NewFrameIsTaskFrame | fsp-patches/port.c:207-295 | what is built is a frame portRESTORE_CONTEXT consumes |
| PortC.NewTaskStarts | fsp-patches/port.c:207-295 | restoring it starts at the entry point with its argument, return address, Thumb bit, nesting 0 and sp at the third guard word |
| PortC.Port.EnterCritical | fsp-patches/port.c:357-365 | interrupts off, one more section open |
| PortC.Port.ExitCritical | fsp-patches/port.c:369-386 | one section fewer; interrupts on again only with the last |
| PortC.CriticalSectionsNest | fsp-patches/port.c:357-386 | however calls nest, interrupts are off exactly while a section is open |
| BspIrq.PriorityBytesAreMultiplesOf16 | fsp-patches/bsp_irq.c:198-200 | every priority written is one of sixteen values |
| BspIrq.PrioritiesKeepOrderIff | fsp-patches/bsp_irq.c:198 | priorities 0 to 15 stay distinct and in order exactly when the mask lets bits 4 to 7 through |
| BspIrq.PriorityPigeonhole | fsp-patches/bsp_irq.c:198-200 | strictly rising priorities nest at most sixteen deep |
| BspIrq.Dispatcher.Begin | fsp-patches/bsp_irq.c:444-491 | pushes the number that with the core's own vectors added gives the ten-bit id, enables interrupts, branches inside the vector table or reports the id, ignores the spurious id |
| BspIrq.Dispatcher.End | fsp-patches/bsp_irq.c:492-495 | disables interrupts and pops the id |
| ExitProofs.ExitResumes | fsp-patches/portASM.asm:233-291 | an exit without a switch puts the interrupted context back, at any depth, D0-D7 and FPSCR being as FreeRTOS_EndOfInterrupt left them |
| ExitProofs.SwitchResumes | fsp-patches/portASM.asm:307-330 | a switch suspends the running task as it was and continues the chosen one exactly as that was suspended, touching nothing of the SVC and IRQ side |
| Invariant.InterruptFrameLayout | fsp-patches/portASM.asm:184-219 | every word of the two frames of an interrupt just taken, and where the padding word is |
| RunTheorems.BootKeepsInv | fsp-patches/port.c:316-344 | the started system satisfies the invariant and its first task runs at its entry point |
| RunTheorems.RunKeepsInv | fsp-patches/portASM.asm:145-330 | the invariant holds in every state of every run |
| RunTheorems.InterruptsAreTransparent | fsp-patches/portASM.asm:181-291 | whatever nested meanwhile, an interrupt without a switch returns registers, lr and sp of every mode, D8-D15, status, pc and live stack words as they were; D0-D7 and FPSCR, and lr_svc with the old frame, exactly when its last C call leaves them so |
| RunTheorems.SwitchingExit | fsp-patches/portASM.asm:283-330 | the outermost exit with a request suspends the interrupted task as it was, with the floating-point registers its handlers left, and continues the chosen one from its record |
| RunTheorems.ResumingStep | fsp-patches/portASM.asm:259-281 | another task runs only after an SVC or an exit that finds nesting at 0, with sp_svc and sp_irq at rest |
| RunTheorems.IsolatedFromInterruptToResume | fsp-patches/portASM.asm:293-330 | from being switched out by an interrupt to being resumed a task loses and gains nothing; of its floating-point registers exactly when the interrupt's last C call left them as they were |
| RunTheorems.IsolatedFromYieldToResume | fsp-patches/portASM.asm:145-165 | the same from an SVC to the instruction after it |
| RunTheorems.RequestSticks | fsp-patches/port.c:449-464 | a request made at any level stays until the outermost exit |
| RunTheorems.RequestsServedOnce | fsp-patches/portASM.asm:269-310 | an episode switches exactly once if any level asked, not at all otherwise, and leaves the flag clear |
| RunTheorems.NestingBounded | fsp-patches/port.c:417-432 | at most 16 of 32 id slots are ever used, the two counters differ by at most one, and observation and exit test agree |
| RunTheorems.HandlerSeesOwnId | fsp-patches/bsp_irq.c:454-493 | while a handler runs the top entry plus the core's own vectors is the ten-bit id it was acknowledged with, inner interrupts notwithstanding |
| RunTheorems.ActiveIdsDiffer | fsp-patches/bsp_irq.c:454-455 | two interrupts active at the same time with different ids have different entries |
| RunTheorems.EndsWhatItTook | fsp-patches/portASM.asm:228-252 | at any depth, whatever nested meanwhile, the word given to the handler, passed to FreeRTOS_EndOfInterrupt and left in the exit snapshot is the one acknowledged |
| RunTheorems.SwitchesCounted | fsp-patches/portASM.asm:151-163 | over every run, the two switch counters are the numbers of SVCs and of switching exits |
| RunTheorems.InstrumentsStayQuiet | fsp-patches/portASM.asm:213-257 | no exit runs unmasked, no switch is counted while nested, sp is 4 modulo 8 at the C calls of entry and exit, the popped padding word is the pushed one and leaves sp at the frame |
| FpState.IntegerCodeKeepsFp | fsp-patches/portASM.asm:181-257 | when every handler, hook and inner interrupt is integer code, the interrupted D0-D15 and FPSCR are in place at the exit, though nothing saved them |
| FpState.IntegerHandlersAreTransparent | fsp-patches/portASM.asm:181-291 | such interrupts give everything back, at any depth |
| FpState.IntegerHandlersIsolate | fsp-patches/portASM.asm:293-330 | and a task they switch out is resumed with all its state, floating point included |
| FpState.HandlerFpReachesTask | fsp-patches/portASM.asm:201-230 | in every system that boots, for every word, a handler that writes it to the lower half of D0 hands it to the interrupted task |
| Defects.OldFrameTransparentIff | fsp-patches/portASM.asm:194-201 | in every run with the old frame, at every depth, lr_svc comes back exactly when FreeRTOS_EndOfInterrupt happens to leave it; all else as with the new one |
| Defects.LrSvcIsDeadInTasks | fsp-patches/portASM.asm:196-200 | in system mode lr_svc is dead: neither the next interrupt nor the next SVC depends on it, so tasks never notice |
| Defects.OldFrameLosesLr | fsp-patches/portASM.asm:194-201 | every booted system has a run in which a nested interrupt comes and goes and the outer handler's return lands, with the old frame, behind the call of FreeRTOS_EndOfInterrupt, with the new one where it was called from |
| Defects.SomeSystemBoots | fsp-patches/port.c:316-344 | such systems exist, with either frame, with and without floating point |
| Defects.UncheckedExitParksHandler | fsp-patches/port.c:398-411 | without the nesting test, a nested switch stores the outer handler in SVC mode where a task context belongs, and no task context matches the frame |
| IrqGuard.CalibrationFindsPaddingWord | blackbox/r8_blackbox.c:432-440 | for every resting sp_svc inside the stack the computed address is the one the outermost PUSH {r2} writes; outside it and later nothing changes |
| IrqGuard.Guard.Calibrate | blackbox/r8_blackbox.c:402-441 | calibrates once, and only inside the SVC stack; keeps the range of resting stack pointers and copies the instruments' counters on every call, into the record only while the magic is there |
| IrqGuard.Guard.IrqGuard | blackbox/r8_blackbox.c:443-530 | one history entry more, the counters, the verdict on the word, and the first detection recorded once |
| IrqGuard.Guard.CheckWord | blackbox/r8_blackbox.c:494-530 | the check proper: the first detection is recorded, later ones are only counted |
| IrqGuard.Guard.Record | blackbox/r8_blackbox.c:460-492 | the three rings keep the same last eight interrupts at the same slots: id, sp and depth, the padding word, the pushed return state |
| IrqGuard.Guard.Snapshot | blackbox/r8_blackbox.c:590-605 | the copy made at an abort, walked as the reader does, gives the history in order |
| IrqGuard.WalkIsChronological | blackbox/bb.py:219-236 | the walk (idx + j) % 8 lists the last eight entries oldest to newest |
| GuardRuns.NoFalseAlarm | blackbox/r8_blackbox.c:494-519 | in every run irq_bad never moves, at any depth, and what was learned stays |
| GuardRuns.AlarmIff | blackbox/r8_blackbox.c:494-519 | whatever memory holds, a check counts exactly when it is calibrated and the word about to be popped is neither 0 nor 4 |
| GuardRuns.OffsetLearnedOnce | blackbox/r8_blackbox.c:499-510 | the first outermost check after calibration fixes the offset for all depths |
| Watermark.PaintOne | blackbox/r8_blackbox.c:271-294 | paints all of a stack not in use and every word below sp - 64 of the one in use, nothing else, and says whether it did |
| Watermark.PaintSparesLiveFrame | blackbox/r8_blackbox.c:277-291 | a word is left alone exactly when it reaches above sp - 64 of the stack in use |
| Watermark.UsedOne | blackbox/r8_blackbox.c:307-317 | the scan is the distance from the limit to the lowest word that is not paint |
| Watermark.ScanIsExactIff | blackbox/r8_blackbox.c:307-317 | the scan never over-reports and is exact exactly when the lowest word reached does not hold paint |
| Watermark.HighWaterMark | blackbox/r8_blackbox.c:271-317 | when no store writes the paint value, the scan is the high-water mark of the whole history and never shrinks |
| FaultRecord.BlackBox.Init | blackbox/r8_blackbox.c:48-66 | an empty record, every other field cleared, the boot count one higher if the magic survived and 1 if not |
| FaultRecord.BlackBox.Fault | blackbox/r8_blackbox.c:72-106 | undisturbed, the call records itself unless a fault is on record; the rest of the record is kept, or cleared when there was no magic |
| FaultRecord.StepsAgree | blackbox/r8_blackbox.c:72-106 | the single-store steps, undisturbed, do what the function does |
| FaultRecord.InitStepsAgree | blackbox/r8_blackbox.c:48-66 | the single-store steps of an initialisation, undisturbed, do the same, whatever the record held |
| FaultRuns.RecordStays | blackbox/r8_blackbox.c:83-88 | first fault wins: in every interleaving in which at most one live call is in the middle of its stores, a published record stays as it is until the next initialisation |
| FaultRuns.ReaderSeesOneCall | blackbox/r8_blackbox.c:90-105 | in those interleavings a reader taking magic, type and fields at different times sees arguments, lr and name of one call only |
| FaultRuns.MaskedOrNestedIsEnough | blackbox/r8_blackbox.c:116-136 | calls that run masked, or that preempt each other and never return, keep that discipline |
| FaultRecord.NameShown | blackbox/r8_blackbox.c:94-102 | the reader's string is the caller's name cut to 15; with NULL it is empty exactly if the field was |
| FaultRuns.FinishedCallIsOnRecord | blackbox/r8_blackbox.c:72-106 | no call that reaches its end leaves the record empty |
| FaultRuns.BootCountGrows | blackbox/r8_blackbox.c:48-66 | across faults and restarts, each completed initialisation adds one while the magic survives |
| FaultRace.GoesWrongIff | blackbox/r8_blackbox.c:72-106 | with no further calls, some order of the remaining steps changes a published record or publishes one that shows no call exactly when a store still to come differs from what another call leaves, or from the published record; without the magic, exactly when two calls are unfinished |
| FaultRace.NamedCallsGoWrongIff | blackbox/r8_blackbox.c:72-106 | for calls with names: exactly when two unfinished calls differ, or one past its test differs from the published record, or has the version to store; without the magic, when two are unfinished |
| FaultRace.DisciplinedIsCovered | blackbox/r8_blackbox.c:72-106 | the states these two speak of include all, in any run, in which the calls kept out of each other's stores so far, all have a real type and no initialisation is half done |
| FaultWitness.ResumedCallsTear | blackbox/r8_blackbox.c:72-106 | any two named calls that differ spoil the record in some run from power-up |
| FaultWitness.MallocCallsTear | blackbox/r8_blackbox.c:138-152 | so do two calls of the allocation hook with different figures or callers |
| FaultWitness.CallsBeforeInitTear | blackbox/r8_blackbox.c:75-81 | before the initialisation any two calls, even the same one twice, spoil the record in some run from power-up |
| FaultWitness.MixedRecord | blackbox/r8_blackbox.c:90-105 | two calls that differ in two fields can publish a record that shows neither |
| FaultWitness.MallocRecordsMix | blackbox/r8_blackbox.c:138-152 | for the allocation hook, one failure's free heap with the other's least heap |
| Doorbell.DeadlineIsOneMillisecondOn | examples/linux-client/platform_info.c:437-445 | the normalised timeout is one millisecond ahead |
| Doorbell.NoDoorbellLost | examples/linux-client/rz_rproc.c:367-372 | in every interleaving, what was posted before the flag was last raised is collected or still noticed |
| Doorbell.DrainCovers | examples/linux-client/platform_info.c:423-456 | a drain collects all that was posted before it started, announced or not |
| Doorbell.CollectedSoon | examples/linux-client/platform_info.c:421-457 | after the flag is raised at most five poller steps and one timed wait pass before the message is collected |
| Doorbell.FlagIsTaken | examples/linux-client/platform_info.c:423-428 | drains other than those after a timeout are no more than the times the flag was raised |
| Doorbell.TimeoutCollects | examples/linux-client/platform_info.c:447-456 | two steps after a wait that timed out, everything posted before it did has been collected |
| Doorbell.ReturnsOnlyWhenRung | examples/linux-client/platform_info.c:421-457 | a call that returns without being stopped found the flag raised |
| Doorbell.StopsSoon | examples/linux-client/platform_info.c:421 | once force_stop is set the poller is out within five of its steps |
| Doorbell.OneDrainAnswersAll | examples/linux-client/platform_info.c:423-429 | coalesced doorbells are all answered by one drain after the last |
| Doorbell.SignalCanBeMissed | examples/linux-client/platform_info.c:430-447 | a run from the start in which the signal falls between test and wait and the poller sleeps the full millisecond with the flag raised |
| RzRproc.Mailbox.Notify | examples/linux-client/rz_rproc.c:545-609 | the exact accesses, all on one side: the id in that side's word, 1 to 60,002 reads of that side's status, SET of that side only on success |
| RzRproc.RingsIff | examples/linux-client/rz_rproc.c:575-606 | SET is written exactly when one of the first 60,001 reads is 0 or finds force_stop, right after the first that does |
| RzRproc.SetFollowsItsOwnStatus | examples/linux-client/rz_rproc.c:579-606 | SET on a side comes right after a read of the same side's status that was 0, or of a program being stopped |
| RzRproc.EndsMeet | examples/linux-client/rz_rproc.c:348-360 | what a channel ringing on one side writes is what the other end fetches, and the side it clears is the side rung |
| RzRproc.Mailbox.Classify | examples/linux-client/rz_rproc.c:552-573 | the two table searches classify the channel |
| RzRproc.InterruptThread.Handle | examples/linux-client/rz_rproc.c:324-387 | raises the flag and signals for the addressed receiver and a valid id only; acknowledges a bad id; leaves unknown interrupts alone |
| RzRproc.TablesAreDisjoint | examples/linux-client/rz_rproc.c:65-96 | no interrupt is in both tables, so the order of the searches does not matter |
| PwmWeb.ReportsMatch | examples/pwm-web-demo/serve_pwm.py:130-150 | every report returned carries the four parameters asked for and a newer seq, and is the command's own when the first look worked and no identical command was left over |
| PwmWeb.OwnReportIsSeen | examples/pwm-web-demo/serve_pwm.py:119-151 | the command's own report is not overwritten before send sees it, and the next read returns it |
| PwmWeb.OwnReportIsSaved | examples/linux-client/main.c:1153-1162 | the report pwmd saves for the awaited command repeats its parameters and moves seq on |
| PwmWeb.AppliedIsTrue | examples/pwm-web-demo/serve_pwm.py:145-150 | each applied entry is a successful report for that GPT and channel, across restarts |
| PwmWeb.LastSuccessIsApplied | examples/pwm-web-demo/serve_pwm.py:145-150 | in every run the entry for a GPT and channel is the last successful report given for it, and there is none exactly when none was given |
| PwmWeb.RunKeepsInv | examples/pwm-web-demo/serve_pwm.py:54-63 | in every run, restarts included, commands are reported in order and a report in the file is of the daemon last started |
| PwmForeign.ForeignAnswerIff | examples/pwm-web-demo/serve_pwm.py:130-150 | some continuation answers with another command's report exactly when the look failed on a matching report or a matching command was still pending |
| PwmForeign.LeftoverRun | examples/pwm-web-demo/serve_pwm.py:130-150 | from the start of the server, for any parameters: a send that gave up, and the next with the same parameters gets the first one's report |
| PwmForeign.FailedLookRun | examples/pwm-web-demo/serve_pwm.py:130-150 | from the start of the server, for any parameters: one failed read before the command, and the report of the last one answers it |
| ServePwm.Daemon.Send | examples/pwm-web-demo/serve_pwm.py:117-152 | at most one restart in 30 seconds; the report returned is the first read that is newer than all before it and matches; applied moves only with a successful one |
| ServePwm.Daemon.PollLoop | examples/pwm-web-demo/serve_pwm.py:138-151 | the polling loop returns the first read it should take |
| ServePwm.FirstMeans | examples/pwm-web-demo/serve_pwm.py:138-150 | that read carries the parameters and is newer than the look and all reads before it, and no earlier one is; or there is none |
| ServePwm.SendIsARun | examples/pwm-web-demo/serve_pwm.py:117-152 | however the daemon's steps fall between the sender's, the protocol answers and updates applied as send does for what it observed |
| ServePwm.PollStepIsLoopTurn | examples/pwm-web-demo/serve_pwm.py:139-150 | one turn of the loop is one polling step of the protocol |
| ElfPatch.PatchElf | tools/patch-elf-phdr.py:29-77 | result and file for every input, errors included |
| ElfPatch.NullAt | tools/null_phdr_at.py:14-32 | result and file for every input, any entry size |
| ElfLayout.PatchNullsExactly | tools/patch-elf-phdr.py:29-77 | for every ELF32 file given by its fields: the type words of the loadable headers with nothing in the file and an address in DDR become 0, every other byte stays, and exactly those are reported |
| ElfLayout.NullAtNullsExactly | tools/null_phdr_at.py:14-29 | the same for the loadable headers at the given virtual addresses |
| ElfLayout.NotElfIsRefused | tools/patch-elf-phdr.py:33-34 | anything without the magic is refused and left alone |
| ElfPatch.PassBytes | tools/patch-elf-phdr.py:45-51 | only type words of matching headers change, judged on the original file |
| ElfPatch.LoadListIsFiltered | tools/patch-elf-phdr.py:45-51 | the remaining PT_LOAD list is the original list filtered |
| ElfPatch.NothingFromTheFileIsDropped | tools/patch-elf-phdr.py:49 | no segment with bytes in the file, and none below DDR, is dropped |
| ElfPatch.ContentsKeptIff | tools/patch-elf-phdr.py:45-51 | a stretch of the file is unchanged exactly when it holds the first byte of no changed header |
| ElfPatch.SelfCheckPasses | tools/patch-elf-phdr.py:60-76 | the self-check never fails, and the headers and counts reported are the right ones |
| ElfPatch.SelfCheckFinds | tools/patch-elf-phdr.py:60-68 | the self-check fails exactly when a header still matches, and names those that do |
| ElfPatch.PatchTwice | tools/patch-elf-phdr.py:53-54 | a second run finds nothing to do |
| ElfPatch.PassesCommute | tools/null_phdr_at.py:22-28 | in either order exactly the union of the matching headers is nulled |
| ElfPatch.ToolsCommute | tools/null_phdr_at.py:22-29 | the two tools give the same file in either order |
| UartText.Window.Accept | examples/linux-client/main.c:1061-1071 | the window holds the newest 4096 bytes of all replies accepted |
| UartText.Escape | examples/linux-client/main.c:502-512 | the escaped text of the bytes given |
| UartText.EscapedParses | examples/linux-client/main.c:502-512 | the text up to the closing quote is a JSON string (RFC 8259, section 7) that decodes to the bytes |
| UartText.EscapedIsPrintable | examples/linux-client/main.c:509-510 | only printable ASCII is emitted |
| UartText.EscapedFits | examples/linux-client/main.c:502-512 | plain text stands for itself, and no byte takes more than six characters |
| UartText.LinesStayShort | examples/linux-client/main.c:506-508 | lines of printable text take at most two characters a byte |
| UartText.Window.Publish | examples/linux-client/main.c:1072-1085 | what is published decodes to the newest 4096 bytes received |
| SelectPacking.Replace | fsp-patches/bsp_irq.c:421-423 | one field takes the event, the other fields and the spare bits stay |
| SelectPacking.ConfigureSelect | fsp-patches/bsp_irq.c:409-432 | unpacking gives back every event before the first NONE, every other field is kept |
| SelectPacking.PackedBits | fsp-patches/bsp_irq.c:418-424 | said of the registers: bits 10j to 10j + 9 of register n / 3 hold entry n, all others are as before |
| SelectPacking.PackOne | fsp-patches/bsp_irq.c:415-425 | field n % 3 of register n / 3 is the one that changes |
| Timestamps.DiffIsElapsedIff | examples/linux-client/main.c:97-102 | two samples differ by the true distance modulo wrap, exactly when below one wrap by the distance itself |
| Timestamps.CountsPerMicrosecond | examples/linux-client/main.c:101 | 200 counts are one microsecond, and differences add |
| Timestamps.SegmentsAddUp | examples/linux-client/main.c:169-176 | any chain of segments sums to the end-to-end difference modulo wrap |
| Timestamps.SumCheckIff | examples/linux-client/main.c:97-102 | for one round, the segments equal the round trip exactly when they sum to less than one wrap; a chain within one wrap is exact throughout |
| Timestamps.AveragesAgreeIff | examples/linux-client/main.c:169-176 | the two printed averages, in microseconds, agree exactly when every single round's segments sum to less than one wrap |
| Timestamps.SumIsElapsedIff | examples/linux-client/main.c:97-102 | the sum is the true total exactly when no gap reaches a wrap |

## Left out

- C handlers, `vTaskSwitchContext` and the two FreeRTOS hooks around the handler are arbitrary code that obeys AAPCS32 sections 6.1.1 and 6.1.2, keeps off live stack words, and leaves `ulCriticalNesting` alone.
- Stacks are disjoint and large enough; SVC is issued in system mode only; the GIC lets only strictly higher priorities preempt (IHI 0048, section 3.3.1), and all priorities go through `R_BSP_IrqCfg`.
- `portmacro.h` and the FSP feature headers are not part of this model: masking is the CPSR I bit, the floating-point bank is D0-D15 with FPSCR (33 words), `configUSE_TASK_FPU_SUPPORT` is 0 or 2, the spurious id is 1023.
- Interrupt masking inside a handler by `portSET_INTERRUPT_MASK_FROM_ISR` is part of the arbitrary handler step; barriers have no effect in the model.
- PwmWeb.ReportsMatch: says one way only when the report is the command's own; `PwmForeign.ForeignAnswerIff` says both ways when another's is possible, for a living `pwmd`.
- BspIrq.Dispatcher.Begin: asks for a free slot in the id stack, which the code does not test; `RunTheorems.NestingBounded` shows there always is one.
- PortC.Port.InitialiseStack: the top of a stack lies at address 220 or above, so the frame does not wrap around address 0.
- SelectPacking.Replace: the event fits its ten bits; a wider one would be or'ed into the fields above.
- SelectPacking.ConfigureSelect: the events written fit their ten bits and the registers cover the table, as the generated tables do.
- PortAsm.Cortex: the machine is one field holding a value, so that each instruction is one assignment; registers and memory are not separate objects.
- The protocols (`Runs`, `FaultRuns`, `Doorbell`, `PwmWeb`) are state machines on values because their steps interleave; the functions that run undisturbed are methods on objects, given what the other side shows them as parameters.
- `memset` in the fault record stores in ascending order, so the magic goes first.
- FaultRace.GoesWrongIff: speaks of calls with a type other than 0, as all in the source have, whose stores so far are still in place, and of states in which no initialisation is half done; a fault call that overlaps an initialisation is covered by `FaultRuns` only.
- FaultRecord.BlackBox.Init: ends before the stacks are painted; the painting is `Watermark.PaintOne`.
- The guard's own stack frame has the same size on every call.
- Watermark.PaintOne: no stack lies in the first 64 bytes of the address space.
- Watermark: the bit mask `r8_stack_paint` collects is not modelled.
- Doorbell: the timed wait returns at its deadline; a doorbell with an id out of range is cleared without raising the flag, so its message waits for a drain after a timeout (`Doorbell.DrainCovers`); late replies are not paired with commands, the code offers no way to.
- RzRproc: offsets outside the mailbox register range, which the accessors only log, are not modelled.
- PwmWeb: the decimal text of a command is read back as the same four numbers; one lock holder at a time stands for the lock; `writeline` belongs to the UART daemon.
- ElfLayout.NullAtNullsExactly: speaks of program headers of 32 bytes; `ElfPatch.NullAt` covers any entry size.
- ElfPatch: an exception leaves the file as it was; the `.prepatch` copy and the printed lines are not modelled.
- UartText.Window.Accept: a reply claiming more than 384 bytes would be read past its data by the code; the model takes the data as given.
- Timestamps: the microseconds are real numbers; the rounding of `double` and the percentiles are not modelled.
- `copy_from_shm`, latency statistics, sensor output, HTML and JavaScript, HTTP plumbing, shell scripts, SD images, device trees and the CM33 black box are not modelled.
- Whether every configured interrupt id is dispatched: the bound tested is tighter than the table declared, and only staying inside the table is proved.

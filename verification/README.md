# Verification of parts of the Bochs 2.6 emulator

This project models the parts of Bochs 2.6 whose correctness is hardest to see from the code, and proves what they are
for. Every file is one component of the emulator or of its BIOS:

| file | component |
|---|---|
| `TimerSpec.dfy`, `TimerProofs.dfy`, `TimerObligations.dfy`, `PcSystem.dfy` | the virtual-time timer scheduler: 64 slots, one 32-bit countdown, re-entrant callbacks |
| `SequentialTime.dfy` | the strictly increasing microsecond clock |
| `Crc.dfy` | the table-driven CRC-32 |
| `PciAlloc.dfy`, `Bits.dfy` | initialization of PCI devices: base-address allocation, and the ROMs found on the way |
| `RomShadow.dfy` | shadowing of ROMs |
| `Acpi.dfy`, `MpTable.dfy`, `Smbios.dfy`, `SmbiosContents.dfy`, `Firmware.dfy` | the tables the BIOS leaves for the operating system, and readers of them |
| `BiosSums.dfy`, `BiosStructures.dfy` | the checksum patcher of the BIOS build, and the structures it is for |
| `DumpTable.dfy`, `DmaReport.dfy`, `Numerals.dfy` | two compressing printers of the debugger, and readers of their output |
| `SegChecks.dfy` | segment limit checks with cached permission bits |
| `ConfigLine.dfy` | the configuration line tokenizer |
| `ConfigFile.dfy` | the reader of configuration files |
| `AtaDevice.dfy` | the lines of ATA devices written, read back and carried out |
| `Common.dfy` | shared definitions |

`dafny verify dfyconfig.toml` checks everything.

## How the models are built

Code that updates objects or buffers in place is a class or a method on arrays with the loops of the source; it is
proved to compute a function of its inputs or of the old state, and the properties are proved about that function.
Machine arithmetic is written out: 32-bit wrap-around as `U32`, 64-bit physical addresses as `U64`, bytes as naturals
below 256.

**Timers.** A state carries all fields of the scheduler and a log of what has fired and which slots API calls have
written. Callbacks are an arbitrary function from the whole state to a list of API calls, so a theorem about all
devices is a theorem about all callback behaviour. What the panics of `BX_TIMER_DEBUG` demand of callers, and what the
event loop needs of callbacks, is not a precondition of the model: a call that breaks it puts the state into the
absorbing condition `faulted`. `TimerObligations.Permitted` says for each call, from the state before it, what is
demanded: a registration needs a free slot (during an event, one of those there were when it began), an activation a
registered slot, and a slot that is still to be called in the running event must not be unregistered.
`TimerObligations.RunObeys` says it along a run: every request, and every call of a handler in the state in which the
event loop calls it, is permitted. Such runs never fault, and the theorems about time and about firing on schedule are
stated for all of them. Handlers that make permitted calls wherever they are called, among them those that start and
stop timers by fixed slots, keep to it by `TimerObligations.ObedientRun`.

**Readers.** The tables are read back by decoders written from the standards: a walk by section 6.1 of DMTF DSP0134, a
decoder for package lengths by section 20.2.4 of the ACPI Specification, one for MP configuration entries by chapter 4
of the MultiProcessor Specification. Printed text is read back by parsers that know only the format.

## Where the code does not do what one would expect

These are results of the proofs; each is the exact condition, stated by the named lemma.

- A timer that is deactivated never fires again, unless a handler does it in the very event in which the timer is due and
  has not yet had its turn: then it fires once more (`TimerObligations.StoppedTimerIsSilent`,
  `TimerObligations.StoppedByHandler`, and `TimerObligations.StoppedTimerFiresOnceMore` for an input).
- The MP configuration table announces smp_cpus + 18 entries and has smp_cpus + 17, so the announced count is never
  right (`MpTable.TableAsRead`).
- The SMBIOS table can be walked if and only if there are fewer than 208 processors; from 208 on the digit of a
  processor string is the NUL character (`Smbios.TableIsWalked`).
- A table header sums to zero if and only if the checksum byte was zero before the header was built
  (`Acpi.HeaderMakesSumZero`); the SSDT builder clears it.
- The report of a DMA queue cannot be read back exactly when its first operation has length zero, which is then printed
  without a header (`DmaReport.TextDecodes`, and `DmaReport.OutputDecodes` for whole sessions).
- A configuration line survives being written to a file and read if and only if it has at most 510 characters (the last
  of 510 no control character), at most 40 parameters, and no quoted value has a newline or two commas in a row
  (`ConfigFile.FileRoundTrip`). The reader cuts a longer line and takes the pieces for lines, although a path and a
  model alone may make up more (`AtaDevice.LongCdRom`); so no file without a variable overruns `string[512]`
  (`ConfigFile.FileStaysInside`). A command-line argument is not cut, and a parameter of more than 511 characters in it
  is stored beyond that buffer (`ConfigLine.RoundTrip`, `ConfigLine.LongPathOverruns`).
- A variable in a configuration line stands for its value written out, but the character behind its name is taken as it
  is (`ConfigLine.ScanVariable`): a quotation mark there does not close the quotation (`ConfigLine.QuotationStaysOpen`).
- A disk is restored from its line if and only if it has a path, its geometry is not 0/0/0, and no journal of before is
  left in its slot (`AtaDevice.DeviceConfigures`).
- The names of memory devices from 100 on lose their last digit (`SmbiosContents.DimmNames`).
- After the checksum passes a structure sums to zero if and only if its stated length covers its checksum byte, or it
  did so before (`BiosSums.RunSettles`; `BiosSums.ShortStructureKeepsItsSum` is one that does not). A signature at
  offset 0 is never met (`BiosSums.ScanMeets`).
- The address rounding of the PCI allocator goes backwards exactly when it passes 2^32 (`PciAlloc.AlignRoundsUp`); a run
  is well placed exactly if no region would end above 4GB (`PciAlloc.RegionsAreWellPlaced`;
  `PciAlloc.TwoGigabytesDoNotFit` is one that is not), and a register with a hardwired zero upper half is sized at
  nearly 4GB (`PciAlloc.NarrowRegister`).
- The simple limit test behind a cached permission bit is the limit check exactly for segments with a limit of at least
  length - 1 (`SegChecks.SimpleTestNeedsRoom`), which the threshold of 31 ensures for accesses of up to 32 bytes.

## Model

| member | source | states |
|---|---|---|
| `TimerSpec.FreeSlot` | Bochs-2.6/pc_system.cc:271-275 | the slot a registration gets is the first one from slot 1 on that is not in use, or the next new one |
| `TimerSpec.ApplyCall` | Bochs-2.6/pc_system.cc:258-315 | registering, activating, deactivating or unregistering a timer keeps the invariant: 1 <= countdown <= period <= 0xffffffff, nothing due before the running countdown ends, the null timer running |
| `TimerSpec.ApplyCalls` | Bochs-2.6/pc_system.cc:372-380 | whatever list of calls a handler makes, the invariant holds afterwards |
| `TimerSpec.MinTimeToFire` | Bochs-2.6/pc_system.cc:333-364 | the minimum is a lower bound of the times of all active timers and is the time of one of them |
| `TimerSpec.RearmedSlots` | Bochs-2.6/pc_system.cc:335-364 | the first loop changes exactly the slots it marks in triggered[], which are the active ones due now; afterwards no active slot is due any more, and the null timer is within its interval |
| `TimerSpec.NextDeadline` | Bochs-2.6/pc_system.cc:366-370 | the next deadline exists, lies in the future and at most 0xffffffff ticks away, so the narrowing to 32 bits loses nothing |
| `TimerSpec.Advance` | Bochs-2.6/pc_system.cc:330-370 | the first half of countdownEvent: the clock moves by exactly the elapsed period, the invariant is restored, and the new countdown ends when some active timer is due |
| `TimerSpec.FireSlot` | Bochs-2.6/pc_system.cc:376-378 | running a handler that makes arbitrary calls keeps the invariant |
| `TimerSpec.Dispatch` | Bochs-2.6/pc_system.cc:372-380 | running the handlers of all triggered slots keeps the invariant |
| `TimerSpec.CountdownEvent` | Bochs-2.6/pc_system.cc:317-381 | an expired countdown ends in a state that keeps the invariant, with arbitrary re-entrant handlers |
| `TimerSpec.TickN` | Bochs-2.6/pc_system.h:105-115 | a batch of ticks terminates for every request and keeps the invariant |
| `TimerSpec.Tick1` | Bochs-2.6/pc_system.h:100-104 | a tick keeps the invariant |
| `TimerProofs.TickNStep` | Bochs-2.6/pc_system.h:100-115 | one tick can be taken off the front of any batch |
| `TimerProofs.TickNIsTicks` | Bochs-2.6/pc_system.h:100-115 | for every state, batch size and handler behaviour, the batch form ends in the same state and fires the same callbacks in the same order at the same times as that many single ticks |
| `TimerProofs.CallEffect` | Bochs-2.6/pc_system.cc:258-315 | an API call takes no virtual time, and neither changes nor fires a slot it does not write |
| `TimerProofs.CallsEffect` | Bochs-2.6/pc_system.cc:372-380 | the same for all calls of a handler |
| `TimerProofs.FireSlotEffect` | Bochs-2.6/pc_system.cc:376-378 | firing a slot logs exactly that slot at the current time, whatever its handler does to other slots |
| `TimerProofs.DispatchEffect` | Bochs-2.6/pc_system.cc:372-380 | each triggered slot that nobody writes fires exactly once in an event |
| `TimerProofs.EventEffect` | Bochs-2.6/pc_system.cc:317-381 | an event fires a slot that is left alone once if it is due and not at all otherwise, and re-arms it |
| `TimerProofs.ScheduleElements` | Bochs-2.6/pc_system.cc:343-357 | the j-th firing of a continuous timer is j periods after the first |
| `TimerProofs.ScheduleLength` | Bochs-2.6/pc_system.cc:343-357 | how often a continuous timer has fired by a given time |
| `TimerProofs.TickFollows` | Bochs-2.6/pc_system.h:100-104 | a tick advances virtual time by one and fires slots that are left alone exactly when their schedule says |
| `TimerProofs.TicksFollow` | Bochs-2.6/pc_system.h:100-115 | the same for any number of ticks |
| `TimerProofs.RunFollows` | Bochs-2.6/pc_system.cc:317-381 | over any run of ticks, batches and requests, a slot that nobody writes fires exactly as scheduled |
| `TimerProofs.TimeOfUnfaultedRun` | Bochs-2.6/pc_system.h:123-126 | a run that has not faulted has moved virtual time by what it delivered |
| `TimerProofs.UntouchedTimerFires` | Bochs-2.6/pc_system.cc:317-381 | over any run in which nobody writes its slot, an active timer due one period from now fires as promised |
| `TimerObligations.FaultsExactly` | Bochs-2.6/pc_system.cc:258-315 | a call breaks an obligation exactly if all 64 slots are taken, or it is about a slot that is not there |
| `TimerObligations.EventFaults` | Bochs-2.6/pc_system.cc:372-380 | an event does if it comes to a slot that was not there when it began, or calls one without a handler |
| `TimerObligations.PermittedCall` | Bochs-2.6/pc_system.cc:455-563 | a call that meets the obligations of the callers neither faults nor leaves a slot that will be called without a handler |
| `TimerObligations.EventIsQuiet` | Bochs-2.6/pc_system.cc:317-381 | an event whose handlers make permitted calls, each in the state it is called in, does not call an unregistered slot and does not read triggered[] where it was not written |
| `TimerObligations.RunNeverFaults` | Bochs-2.6/pc_system.cc:317-381 | no run breaks an obligation whose requests and handlers make permitted calls in the states the run comes to |
| `TimerObligations.InitialIsQuiet` | Bochs-2.6/pc_system.cc:48-83 | the initial state meets what such a run starts from |
| `TimerObligations.ObedientRun` | Bochs-2.6/pc_system.cc:372-380 | handlers that make permitted calls in every state they might be called in, as long as the slots they know of are in use, do so along every run of permitted requests that gives none of these slots back |
| `TimerObligations.RestartingIsObedient` | Bochs-2.6/pc_system.cc:455-487 | a handler that starts its own timer again, with any period, is such a handler |
| `TimerObligations.UsersAreObedient` | Bochs-2.6/pc_system.cc:455-533 | so are handlers that start and stop timers by fixed slots they have been given |
| `TimerObligations.ClockTimersMeetAll` | Bochs-2.6/iodev/cmos.cc:699-703 | two timers registered with the initial machine, of which the handler of the first starts the second whenever it fires, meet what the theorems ask for over any number of ticks |
| `TimerObligations.RunSpares` | Bochs-2.6/pc_system.cc:271-315 | nobody writes a registered slot that no call of the run is about: registrations take slots that are not in use |
| `TimerObligations.TimeIsDelivered` | Bochs-2.6/pc_system.h:123-126 | time_ticks equals the ticks delivered so far, over every run that meets the obligations |
| `TimerObligations.ActivateSetsSlot` | Bochs-2.6/pc_system.cc:455-487 | activation sets the period, at least 1, and the first firing to the current time plus the period |
| `TimerObligations.RegisterSetsSlot` | Bochs-2.6/pc_system.cc:258-315 | registration of an active timer does the same for the first free slot |
| `TimerObligations.ActivatedTimerFiresOnSchedule` | Bochs-2.6/pc_system.cc:317-381 | over every run along which requests and handlers make permitted calls: a continuous timer activated at t with period p, and about which no other call is made, fires at exactly t+p, t+2p, ..., floor((T-t)/p) times by time T; a one-shot fires exactly once at t+p |
| `TimerObligations.RegisteredTimerFiresOnSchedule` | Bochs-2.6/pc_system.cc:258-315 | the same for a timer that is registered as active |
| `TimerObligations.StoppedTimerIsSilent` | Bochs-2.6/pc_system.cc:523-533 | over every run along which requests and handlers make permitted calls, a timer that is deactivated, and about which no other call is made, never fires again and keeps its period and handler |
| `TimerObligations.RegisteredIdleIsSilent` | Bochs-2.6/pc_system.cc:258-315 | nor does a timer ever fire that is registered as not active, and it keeps what it was registered with |
| `TimerObligations.IdleSlotIsTakenAgain` | Bochs-2.6/pc_system.cc:535-563 | a timer that is not active can be given back, and its slot is then the one the next registration gets unless a lower one is free |
| `TimerObligations.StoppedByHandler` | Bochs-2.6/pc_system.cc:366-380 | a timer that a handler deactivates fires once more exactly if its slot is marked to fire in the same event and has not yet had its turn, and never after the event |
| `TimerObligations.StoppedTimerFiresOnceMore` | Bochs-2.6/pc_system.cc:366-380 | two timers due at the same time: the second fires although the first has deactivated it |
| `PcSystem.BxPcSystem.constructor` | Bochs-2.6/pc_system.cc:48-83 | the constructor and initialize() reach the initial state: only the null timer |
| `PcSystem.BxPcSystem.TimeTicks` | Bochs-2.6/pc_system.h:123-126 | the reconstruction from ticksTotal and the two 32-bit counters |
| `PcSystem.BxPcSystem.SearchSlot` | Bochs-2.6/pc_system.cc:271-275 | the search finds the first free slot |
| `PcSystem.BxPcSystem.RegisterTimerTicks` | Bochs-2.6/pc_system.cc:258-315 | the fields after the call are those of the registration step; the id is the slot |
| `PcSystem.BxPcSystem.RegisterTimer` | Bochs-2.6/pc_system.cc:249-256 | a registration with the period converted to ticks |
| `PcSystem.BxPcSystem.ActivateTimerTicks` | Bochs-2.6/pc_system.cc:455-487 | the fields after the call are those of the activation step |
| `PcSystem.BxPcSystem.ActivateTimer` | Bochs-2.6/pc_system.cc:489-521 | 0 microseconds re-activate with the period the timer has; anything else with the converted one |
| `PcSystem.BxPcSystem.DeactivateTimer` | Bochs-2.6/pc_system.cc:523-533 | only the active flag of the slot changes |
| `PcSystem.BxPcSystem.UnregisterTimer` | Bochs-2.6/pc_system.cc:535-563 | an active timer is refused and nothing changes; otherwise the slot is free again |
| `PcSystem.BxPcSystem.Perform` | Bochs-2.6/pc_system.cc:372-380 | the calls of a handler, one after the other |
| `PcSystem.BxPcSystem.ServiceSlot` | Bochs-2.6/pc_system.cc:336-363 | one round of the first loop: only slot i changes |
| `PcSystem.BxPcSystem.ServiceSlots` | Bochs-2.6/pc_system.cc:333-364 | the loop re-arms exactly the due slots, records them and finds the minimum |
| `PcSystem.BxPcSystem.ServiceTimers` | Bochs-2.6/pc_system.cc:330-370 | the fields after the first half of countdownEvent are those of Advance |
| `PcSystem.BxPcSystem.RunCallbacks` | Bochs-2.6/pc_system.cc:372-380 | the second loop runs the handlers of the triggered slots in order |
| `PcSystem.BxPcSystem.FireTimer` | Bochs-2.6/pc_system.cc:376-378 | the handler runs with triggeredTimer set and its calls take effect |
| `PcSystem.BxPcSystem.CountdownEvent` | Bochs-2.6/pc_system.cc:317-381 | the method computes the specified event |
| `PcSystem.BxPcSystem.Tick1` | Bochs-2.6/pc_system.h:100-104 | the method computes the specified tick |
| `PcSystem.BxPcSystem.TickN` | Bochs-2.6/pc_system.h:105-115 | the loop computes the batch, which is that many single ticks |
| `PcSystem.BxPcSystem.TimeUsecSequential` | Bochs-2.6/pc_system.cc:432-446 | the result is max(current time, previous result) + 1 |
| `SequentialTime.TimeUsecMonotone` | Bochs-2.6/pc_system.cc:448-451 | time_usec never decreases as ticks are delivered |
| `SequentialTime.PeriodInTicks` | Bochs-2.6/pc_system.cc:252-253 | a period in microseconds is converted to the greatest number of ticks that time_usec does not read as more |
| `SequentialTime.ReadingsAreAhead` | Bochs-2.6/pc_system.cc:432-446 | whatever time_usec reads, the readings are strictly increasing and strictly ahead of it |
| `SequentialTime.ReadingsAreLeast` | Bochs-2.6/pc_system.cc:432-446 | no other strictly increasing sequence ahead of time_usec is below them anywhere |
| `SequentialTime.Perform` | Bochs-2.6/pc_system.h:100-115 | a permitted step leaves the machine sound and moves virtual time by what it delivers |
| `SequentialTime.Act` | Bochs-2.6/pc_system.cc:432-451 | an action, a step or a reading, returns the next reading of the specified ones |
| `SequentialTime.Session` | Bochs-2.6/pc_system.cc:432-451 | in every run of the machine, ticks and requests with readings in between, the readings are those of time_usec at the ticks delivered so far, strictly increasing and ahead of virtual time |
| `SequentialTime.Boot` | Bochs-2.6/pc_system.cc:48-83 | the same from construction on |
| `Crc.ShiftLinear` | Bochs-2.6/crc.cc:47-48 | the shift step is linear over GF(2) |
| `Crc.ShiftInjective` | Bochs-2.6/crc.cc:47-48 | the shift step is injective |
| `Crc.FeedBitsInjective` | Bochs-2.6/crc.cc:61-63 | feeding the same bits to different registers leaves different registers |
| `Crc.PackedFeed` | Bochs-2.6/crc.cc:62-63 | feeding up to 32 bits is adding them to the register and shifting that often |
| `Crc.WindowInjective` | Bochs-2.6/crc.cc:62-63 | from one register, different windows of up to 32 bits leave different registers |
| `Crc.TableStepIsBitSerial` | Bochs-2.6/crc.cc:62-63 | one table step is eight steps of bit-serial most-significant-bit-first division |
| `Crc.TableFeedIsBitSerial` | Bochs-2.6/crc.cc:61-63 | for every byte sequence the table-driven register is the bit-serial one |
| `Crc.EntryOne` | Bochs-2.6/crc.cc:58-59 | entry 1 of the table is the polynomial itself, so a nonzero entry 1 marks a built table |
| `Crc.Crc32.constructor` | Bochs-2.6/crc.cc:34 | static storage starts out as a table that counts as not built |
| `Crc.Crc32.InitCrc32` | Bochs-2.6/crc.cc:41-51 | all 256 entries are right afterwards |
| `Crc.Crc32.BuildEntry` | Bochs-2.6/crc.cc:47-49 | the inner loop computes eight shifts of the index |
| `Crc.Crc32.Divide` | Bochs-2.6/crc.cc:61-63 | the loop computes the table-driven register |
| `Crc.Crc32.Step` | Bochs-2.6/crc.cc:63 | the loop body is the table step |
| `Crc.Crc32.Crc` | Bochs-2.6/crc.cc:53-65 | the result is the bit-serial CRC of the first len bytes, and the table is built whenever its entry 1 is nonzero |
| `Crc.BurstChangesRemainder` | Bochs-2.6/crc.cc:39-65 | bit strings that differ only within 32 consecutive bits leave different remainders |
| `Crc.BurstDetected` | Bochs-2.6/crc.cc:39-65 | equal-length messages that differ only within 32 consecutive bits have different CRCs |
| `Crc.ByteBurstDetected` | Bochs-2.6/crc.cc:39-65 | in particular messages that differ only within 4 consecutive bytes |
| `Crc.AppendedCrcLeavesResidue` | Bochs-2.6/crc.cc:61-64 | a message followed by its own CRC, most significant byte first, always leaves the same register value |
| `Crc.FeedIsLongDivision` | Bochs-2.6/crc.cc:61-63 | the register is the remainder of schoolbook long division of the message followed by 32 zeros |
| `Crc.CrcIsLongDivision` | Bochs-2.6/crc.cc:39-65 | the CRC is the complemented remainder of that division by CRC32_POLY, from the one start value that stands for the preload |
| `Crc.CheckValue` | Bochs-2.6/crc.cc:39-65 | the CRC of the digits 1 to 9 is the check value 0xfc891918 of the most-significant-bit-first CRC-32 |
| `Bits.RoundDownIsGreatest` | Bochs-2.6/bios/rombios32.c:935 | rounding down is the greatest multiple not above |
| `Bits.AndHighMask` | Bochs-2.6/bios/rombios32.c:930-935 | masking off the low k bits rounds down to a multiple of 2^k |
| `PciAlloc.SizeOfDecoded` | Bochs-2.6/bios/rombios32.c:928-930 | the mask arithmetic finds the size a register decodes, and 16 bytes for a smaller one (section 6.2.5.1 of PCI Local Bus Specification 3.0) |
| `PciAlloc.AlignRoundsUp` | Bochs-2.6/bios/rombios32.c:935 | the aligned address is the least multiple of the size at or above the cursor exactly when the rounding does not pass 2^32; otherwise it ends up below the cursor |
| `PciAlloc.StepStaysIffAdvances` | Bochs-2.6/bios/rombios32.c:935-940 | a single placement, with the cursor behind it, stays below 2^32 exactly when base and cursor move forward |
| `PciAlloc.StaysIffAdvances` | Bochs-2.6/bios/rombios32.c:917-942 | over a whole run the allocator moves forward in both spaces exactly as long as no cursor reaches 2^32 |
| `PciAlloc.StepIsIdeal` | Bochs-2.6/bios/rombios32.c:935-940 | a region is placed at or above the cursor exactly if, in unbounded arithmetic, it ends at or below 4GB, and then at the least aligned address |
| `PciAlloc.RegionsAreWellPlaced` | Bochs-2.6/bios/rombios32.c:917-942 | every base is a multiple of its size and regions of one space are disjoint and increasing if and only if, rounding up in unbounded arithmetic, none ends above 4GB; then each has the smallest address it could have had |
| `PciAlloc.NarrowRegister` | Bochs-2.6/bios/rombios32.c:928-930 | an I/O register with a hardwired zero upper half is sized at nearly 4GB |
| `PciAlloc.TwoGigabytesDoNotFit` | Bochs-2.6/bios/rombios32.c:935-940 | a run that does not fit: two registers of 1GB, of which the second is not well placed |
| `PciAlloc.FixedAddressesAreClear` | Bochs-2.6/bios/rombios32.c:890-913 | as long as everything fits, nothing is given out at or below an address that the IDE, PIC and Apple branches fix in its space |
| `PciAlloc.PciFunction.constructor` | Bochs-2.6/bios/rombios32.c:867-880 | a function as it is found: what it is, and what its registers read back when probed |
| `PciAlloc.PciFunction.SetIoRegionAddr` | Bochs-2.6/bios/rombios32.c:643-669 | the base is stored, the expansion ROM with its enable bit, and the space the register had is enabled |
| `PciAlloc.PciFunction.DisableRom` | Bochs-2.6/bios/rombios32.c:863 | the low byte of the expansion ROM register is cleared |
| `PciAlloc.PciBios.constructor` | Bochs-2.6/bios/rombios32.c:999-1000 | the cursors start at 0xc000 and 0xc0000000 |
| `PciAlloc.PciBios.ShadowRom` | Bochs-2.6/bios/rombios32.c:821-865 | the ROM is installed behind the ones before it and its mapping switched off, or nothing changes |
| `PciAlloc.PciBios.MapRegion` | Bochs-2.6/bios/rombios32.c:929-941 | one implemented register gets its base, a display controller has its ROM copied from there, and the cursor moves on |
| `PciAlloc.PciBios.DefaultMap` | Bochs-2.6/bios/rombios32.c:917-942 | the loop places the implemented registers in order, leaves the others alone, and copies the ROM of a display controller |
| `PciAlloc.PciBios.SetFixed` | Bochs-2.6/bios/rombios32.c:892-895 | the registers get the fixed addresses and the others stay |
| `PciAlloc.PciBios.InitDevice` | Bochs-2.6/bios/rombios32.c:867-944 | class, vendor and device decide between the default mapping and the fixed addresses |
| `PciAlloc.PciBios.MapDevices` | Bochs-2.6/bios/rombios32.c:978-1005 | over all devices the regions are those of one run over the probed registers, well placed if and only if none ends above 4GB; the ROMs copied are those of the display controllers |
| `PciAlloc.RegionOf` | Bochs-2.6/bios/rombios32.c:917-942 | every implemented register has its region among those given out, at the place its turn gives it |
| `PciAlloc.DisplayRomIsRead` | Bochs-2.6/bios/rombios32.c:937-939 | the ROM of a display controller is copied from the region given to its ROM register, byte by byte |
| `PciAlloc.OptionRomIsRead` | Bochs-2.6/bios/rombios32.c:966-976 | the ROM of any other device is copied from the region given to its ROM register exactly if that is at a multiple of 1KB, as for every ROM of at least that size: the enable bit does not count |
| `PciAlloc.UnmappedRomIsSkipped` | Bochs-2.6/bios/rombios32.c:966-976 | a ROM register that holds 0 makes nothing be copied |
| `PciAlloc.DisplayRomsInOrder` | Bochs-2.6/bios/rombios32.c:937-939 | every display controller with a ROM has its turn, in the order of the devices |
| `PciAlloc.OptionRomsInOrder` | Bochs-2.6/bios/rombios32.c:966-976 | every other device has its turn behind them, in order |
| `PciAlloc.PciBios.InitOptRoms` | Bochs-2.6/bios/rombios32.c:966-976 | the ROMs copied are those the ROM registers of the other devices point to, as far as there is room |
| `PciAlloc.PciBios.Init` | Bochs-2.6/bios/rombios32.c:997-1008 | from the configuration headers to shadow RAM: the regions of one run, and all ROMs that fit installed intact, read-only and disjoint, display controllers first |
| `RomShadow.SetMode` | Bochs-2.6/bios/rombios32.c:852-857 | setting the mode of one 16KB segment keeps the other nibble and all other bits |
| `RomShadow.RomSize` | Bochs-2.6/bios/rombios32.c:831-836 | the length byte in units of 512 bytes is rounded up to 2KB |
| `RomShadow.HostBridge.constructor` | Bochs-2.6/bios/rombios32.c:999-1001 | the shadow area starts at 0xc0000 |
| `RomShadow.HostBridge.WriteByte` | Bochs-2.6/bios/rombios32.c:853-855 | a store reaches RAM only in a write-enabled segment |
| `RomShadow.HostBridge.Memcpy` | Bochs-2.6/bios/rombios32.c:855 | the copied bytes arrive, and nothing else changes |
| `RomShadow.HostBridge.SetSegmentMode` | Bochs-2.6/bios/rombios32.c:846-854 | the register and nibble computed from the address are those of its segment |
| `RomShadow.HostBridge.CopyChunk` | Bochs-2.6/bios/rombios32.c:842-857 | a chunk never crosses a 16KB segment, is copied while the segment is write-enabled, and leaves it read-only |
| `RomShadow.HostBridge.CopyRom` | Bochs-2.6/bios/rombios32.c:841-860 | every byte of the image is copied and exactly its segments become read-only |
| `RomShadow.HostBridge.InitPciRom` | Bochs-2.6/bios/rombios32.c:821-865 | the 2KB-rounded image is installed behind the earlier ones exactly if it ends at or below 0xe0000, and otherwise nothing changes; every ROM copied so far is what the processor reads at its place, and cannot be written |
| `RomShadow.HostBridge.InitOptRoms` | Bochs-2.6/bios/rombios32.c:966-976 | over any run of ROMs, exactly those that fit are installed one behind the other, and no byte outside of them changes |
| `RomShadow.ModeBits` | Bochs-2.6/iodev/pci.cc:304-317 | bits 0 and 1 of a register are those of the lower 16KB segment, bits 4 and 5 those of the upper |
| `RomShadow.InstalledServes` | Bochs-2.6/memory/memory.cc:278-300 | at every address of an installed ROM the processor reads the image and no store changes it: mode bit 0 reads and mode bit 1 writes shadow RAM |
| `RomShadow.StaysInstalled` | Bochs-2.6/bios/rombios32.c:821-865 | shadowing a further ROM keeps the earlier ones intact and read-only |
| `RomShadow.LoadedConcat` | Bochs-2.6/bios/rombios32.c:978-1008 | two passes over devices load the ROMs that one pass over both runs of them would |
| `RomShadow.NextChunk` | Bochs-2.6/bios/rombios32.c:841-860 | a chunk ends at the end of the image or at the next segment |
| `Firmware.PutBytes` | Bochs-2.6/bios/rombios32.c:1495-1526 | the bytes stored through a cursor, and no others |
| `Firmware.SumBytes` | Bochs-2.6/bios/rombios32.c:1448-1455 | the checksum loop computes the sum of the bytes |
| `Firmware.ChecksumStored` | Bochs-2.6/bios/rombios32.c:1448-1478 | storing the negated sum makes the sum zero if and only if the checksum byte was zero when the sum was taken |
| `Firmware.ReadLe32` | Bochs-2.6/bios/rombios32.c:1461 | a little-endian word reads back as the value modulo 2^32 |
| `Acpi.HeaderMakesSumZero` | Bochs-2.6/bios/rombios32.c:1457-1479 | a table whose header is built sums to zero if and only if its checksum byte was zero before |
| `Acpi.BuildTableHeader` | Bochs-2.6/bios/rombios32.c:1457-1479 | the header fields are stored and the rest of the table is kept |
| `Acpi.BuildProcessorSsdt` | Bochs-2.6/bios/rombios32.c:1481-1532 | the buffer holds the specified table, and nothing behind it has changed |
| `Acpi.EmitScope` | Bochs-2.6/bios/rombios32.c:1494-1526 | the scope header and the processor objects as specified |
| `Acpi.EmitProcessors` | Bochs-2.6/bios/rombios32.c:1509-1526 | the loop emits one object for each processor |
| `Acpi.ScopeLengthDecodes` | Bochs-2.6/bios/rombios32.c:1495-1502 | the package length decodes by section 20.2.4 of the ACPI Specification to the length of the scope, in one or two bytes |
| `Acpi.ScopeDecodes` | Bochs-2.6/bios/rombios32.c:1491-1526 | the block decodes to exactly the processors 0..n-1, in order, in the scope _PR_ |
| `Acpi.CpuNamesDiffer` | Bochs-2.6/bios/rombios32.c:1513-1519 | processors with different numbers have different names |
| `Acpi.CpuNamesAreSegments` | Bochs-2.6/bios/rombios32.c:1513-1519 | every name is a valid name segment |
| `Acpi.SsdtIsWellFormed` | Bochs-2.6/bios/rombios32.c:1481-1532 | the SSDT has its signature and its length, sums to zero, and decodes to min(smp_cpus, 255) processors |
| `Acpi.HeaderAsRead` | Bochs-2.6/bios/rombios32.c:1457-1479 | any header as it is read by section 5.2.6 of the ACPI Specification: signature, length, revision and makers |
| `Acpi.CpuNameIsItsNumber` | Bochs-2.6/bios/rombios32.c:1513-1519 | the name of processor i is CPU and its digit, or CP and its two digits |
| `MpTable.EntriesAreRead` | Bochs-2.6/bios/rombios32.c:1105-1151 | decoded by chapter 4 of the MultiProcessor Specification: smp_cpus processors with APIC ids from 0 and their CPUID words, one ISA bus, one I/O APIC at 0xfec00000, and the ISA interrupts but 2, interrupt 0 at input 2 and every other at its own |
| `MpTable.DescriptionIsConsistent` | Bochs-2.6/bios/rombios32.c:1105-1151 | exactly the first processor is the bootstrap processor and all are enabled; the interrupts go to the I/O APIC that is there, each to an input of its own among 1 to 15; no two APICs have the same id exactly for at most 255 processors |
| `MpTable.TableAsRead` | Bochs-2.6/bios/rombios32.c:1081-1157 | the table sums to zero, its length field is right exactly below 64KB, and its entry count is never the number of entries |
| `MpTable.FieldsAsRead` | Bochs-2.6/bios/rombios32.c:1081-1155 | the length and count fields as they are read back |
| `MpTable.MptableInit` | Bochs-2.6/bios/rombios32.c:1064-1162 | the buffer holds the specified table, and nothing else has changed |
| `MpTable.EmitTable` | Bochs-2.6/bios/rombios32.c:1080-1151 | header and entries before the patches |
| `MpTable.EmitProcessors` | Bochs-2.6/bios/rombios32.c:1099-1122 | one entry for each processor |
| `MpTable.EmitIrqs` | Bochs-2.6/bios/rombios32.c:1138-1151 | one entry for each interrupt but 2 |
| `MpTable.PointerAsRead` | Bochs-2.6/bios/rombios32.c:1166-1190 | the floating pointer as it is read: signature, place of the table, length, revision 1.4, zero sum |
| `MpTable.FloatingPointerInit` | Bochs-2.6/bios/rombios32.c:1173-1192 | the floating pointer structure is stored with its checksum |
| `Smbios.MemSizeIsCovered` | Bochs-2.6/bios/rombios32.c:531-546 | any memory size the CMOS can state is within what the table is modelled for |
| `Smbios.StringsClean` | Bochs-2.6/bios/rombios32.c:2068-2071 | the strings of a structure hold no pair of NULs before their end, except for a processor whose digit is the NUL character |
| `Smbios.WalkStep` | Bochs-2.6/bios/rombios32.c:2218-2247 | a walk by section 6.1 of DMTF DSP0134 reads type, length and handle of a structure and goes on behind its strings |
| `Smbios.TableIsWalked` | Bochs-2.6/bios/rombios32.c:2207-2247 | the walk meets exactly the structures written and ends at the end of the table if and only if there are fewer than 208 processors |
| `Smbios.HandlesDiffer` | Bochs-2.6/bios/rombios32.c:2207-2247 | below 208 processors no two structures have the same handle |
| `Smbios.SizesAddUp` | Bochs-2.6/bios/rombios32.c:2234-2244 | the device sizes add up to the memory size |
| `Smbios.RangesTile` | Bochs-2.6/bios/rombios32.c:2130-2172 | the ranges of types 19 and 20 tile the memory: each at most 16GB, every KB below the memory size in exactly one of them |
| `Smbios.RangesAreReadable` | Bochs-2.6/bios/rombios32.c:2138-2160 | a reader finds the ranges in the structures |
| `Smbios.ReferencesResolve` | Bochs-2.6/bios/rombios32.c:2151-2165 | the handles in a type 20 structure are those of its device and of its range |
| `Smbios.SizeIsReadable` | Bochs-2.6/bios/rombios32.c:2099-2115 | the size field of a memory device is its size in MB |
| `Smbios.EntryPointIsReadable` | Bochs-2.6/bios/rombios32.c:1876-1913 | both areas of the entry point sum to zero, and its fields read back what was stored |
| `Smbios.LargestIsMaximum` | Bochs-2.6/bios/rombios32.c:2220-2226 | the recorded maximum is the size of some structure, and none is larger |
| `Smbios.TableFits` | Bochs-2.6/bios/rombios32.c:1731-1731 | below 208 processors the table length fits its 16-bit field |
| `Smbios.EntryPointDescribesTable` | Bochs-2.6/bios/rombios32.c:2207-2257 | below 208 processors the entry point, as read, describes the table, as walked: count, length, address, largest size |
| `Smbios.LoopIds` | Bochs-2.6/bios/rombios32.c:2228-2244 | which structure each round of the loops adds |
| `Smbios.Type4Init` | Bochs-2.6/bios/rombios32.c:2035-2072 | the string is copied with a blank that the digit then replaces |
| `Smbios.Type17Init` | Bochs-2.6/bios/rombios32.c:2098-2126 | the locator is printed into 8 bytes and followed by a second terminator |
| `Smbios.AddStruct` | Bochs-2.6/bios/rombios32.c:2220-2226 | the structure is stored at the cursor, counted and measured |
| `Smbios.SmbiosInit` | Bochs-2.6/bios/rombios32.c:2207-2257 | entry point and table lie behind each other as specified, with count, length, address and maximum, and no other byte changes |
| `Smbios.EntryPointInit` | Bochs-2.6/bios/rombios32.c:1876-1913 | the entry point is stored with both checksums |
| `SmbiosContents.BiosAsRead` | Bochs-2.6/bios/rombios32.c:1918-1976 | type 0 by section 7.1 of DMTF DSP0134: 128KB from 0xe0000, with ACPI, release 1.0, no embedded controller |
| `SmbiosContents.BiosTextsAsRead` | Bochs-2.6/bios/rombios32.c:1918-1976 | vendor, version and date are the strings that its fields name |
| `SmbiosContents.BiosCharacteristics` | Bochs-2.6/bios/rombios32.c:1933-1960 | bit by bit, the characteristics that always hold and those that depend on what the BIOS was built with |
| `SmbiosContents.SystemAsRead` | Bochs-2.6/bios/rombios32.c:1980-2003 | type 1: the UUID, woken by the power switch |
| `SmbiosContents.EnclosureAsRead` | Bochs-2.6/bios/rombios32.c:2006-2033 | type 3: a safe enclosure of another type |
| `SmbiosContents.CpuAsRead` | Bochs-2.6/bios/rombios32.c:2036-2073 | type 4: the name of the socket with the digit, a central processor that is there and enabled, its CPUID words, no caches |
| `SmbiosContents.ArrayAsRead` | Bochs-2.6/bios/rombios32.c:2076-2096 | type 16: system memory on the board, its capacity in KB and how many devices it has |
| `SmbiosContents.DeviceAsRead` | Bochs-2.6/bios/rombios32.c:2099-2127 | type 17: in the array, 64 bits wide, its size, a DIMM with its name |
| `SmbiosContents.DimmNames` | Bochs-2.6/bios/rombios32.c:2116-2121 | the name is DIMM and the number, of which a third digit is cut |
| `SmbiosContents.MappedAsRead` | Bochs-2.6/bios/rombios32.c:2130-2172 | types 19 and 20: which array, which device and which array range |
| `SmbiosContents.EndAsRead` | Bochs-2.6/bios/rombios32.c:2175-2204 | types 32 and 127: no errors at boot, and the end |
| `SmbiosContents.AnchorsAsRead` | Bochs-2.6/bios/rombios32.c:1877-1913 | the entry point is found by its anchors and states its length and version 2.4 |
| `SmbiosContents.MemSizeIsWhole` | Bochs-2.6/bios/rombios32.c:2207-2216 | the memory size is the number of whole MB |
| `BiosSums.ScanMeets` | Bochs-2.6/bios/biossums.c:334-351 | the scan meets every signature on a 16-byte boundary from 0x10 on, once and in ascending order |
| `BiosSums.HitsKept` | Bochs-2.6/bios/biossums.c:361-365 | no store of the tool can touch a signature |
| `BiosSums.NeededSettles` | Bochs-2.6/bios/biossums.c:314-331 | the value a structure needs does not depend on the value it has |
| `BiosSums.SettledSums` | Bochs-2.6/bios/biossums.c:314-331 | a structure with the value it needs sums to zero if its length covers the checksum byte |
| `BiosSums.PassStep` | Bochs-2.6/bios/biossums.c:130-149 | a pass over separate structures succeeds, settles its own structure and disturbs no other |
| `BiosSums.RunSettles` | Bochs-2.6/bios/biossums.c:130-255 | for separate structures that pass the checks: the tool succeeds, the image sums to zero, a second run changes nothing, and a unique structure sums to zero if and only if its length covers its checksum byte or it did so before |
| `BiosSums.ShortStructureKeepsItsSum` | Bochs-2.6/bios/biossums.c:314-331 | the failing side: an image whose only $PnP structure has 4 bytes is accepted and the structure keeps a sum that is not zero |
| `BiosSums.OnlyChecksumsChange` | Bochs-2.6/bios/biossums.c:130-255 | for every image the tool accepts: the result sums to zero and only checksum bytes have changed |
| `BiosSums.GetOffset` | Bochs-2.6/bios/biossums.c:334-351 | the next signature behind the offset, or -1 |
| `BiosSums.CalcValue` | Bochs-2.6/bios/biossums.c:422-445 | the needed checksum, or no value exactly when a check fails |
| `BiosSums.SumExcept` | Bochs-2.6/bios/biossums.c:322-327 | the sum of all bytes but the checksum byte |
| `BiosSums.Scan` | Bochs-2.6/bios/biossums.c:130-141 | the number of structures, and place, present and needed checksum when there is one |
| `BiosSums.DoPass` | Bochs-2.6/bios/biossums.c:130-149 | a pass stores the checksum exactly when there is one structure and it needs another value |
| `BiosSums.PatchChecksums` | Bochs-2.6/bios/biossums.c:130-255 | the tool computes the specified image, or exits |
| `BiosStructures.Bios32IsHandled` | Bochs-2.6/bios/rombios.c:9519-9527 | the BIOS32 service directory as it is assembled is taken for one with its right length and checksum byte, and is left as it is |
| `BiosStructures.RoutingTableIsHandled` | Bochs-2.6/bios/rombios.c:9933-10024 | the PCI interrupt routing table is taken for one, and sums to zero afterwards |
| `BiosStructures.RoutingTableSum` | Bochs-2.6/bios/rombios.c:9933-10024 | the table as it is declared has the right checksum |
| `BiosStructures.PnpHeaderIsHandled` | Bochs-2.6/bios/rombios.c:10456-10469 | so is the Plug and Play header |
| `BiosStructures.PnpHeaderSum` | Bochs-2.6/bios/rombios.c:10456-10469 | its declared checksum is right exactly for certain places of its entry points |
| `BiosStructures.MpPointerIsHandled` | Bochs-2.6/bios/biossums.c:361-365 | the floating pointer that rombios32.c makes is taken for one and left as it is |
| `BiosStructures.MpTableIsHandled` | Bochs-2.6/bios/biossums.c:361-365 | so is its configuration table |
| `DumpTable.SentinelNeverMerges` | Bochs-2.6/bx_debug/dbg_main.cc:3601-3606 | the unaligned sentinel (1, 2) is at odds with every page |
| `DumpTable.MergesMeaning` | Bochs-2.6/bx_debug/dbg_main.cc:3606 | equal 32-bit and 64-bit distances mean that the page continues the interval |
| `DumpTable.Step` | Bochs-2.6/bx_debug/dbg_main.cc:3603-3622 | one round of the loop keeps the description of the pages so far |
| `DumpTable.DumpTable` | Bochs-2.6/bx_debug/dbg_main.cc:3585-3627 | the printed intervals are ascending, disjoint, describe exactly the valid pages with their addresses, and are as long as can be |
| `DumpTable.DescriptionIsUnique` | Bochs-2.6/bx_debug/dbg_main.cc:3585-3627 | there is only one such list of intervals, so the output is determined by the translation |
| `Numerals.ShowReads` | Bochs-2.6/bx_debug/dbg_main.cc:3567-3574 | a printed number reads back |
| `DmaReport.HeaderRead` | Bochs-2.6/bx_debug/dbg_main.cc:3567-3570 | an event header reads back: address, size, direction and value |
| `DmaReport.TextDecodes` | Bochs-2.6/bx_debug/dbg_main.cc:3526-3579 | the report of a queue decodes to its operations if the queue is empty or its first operation is not of length zero, and cannot be decoded otherwise |
| `DmaReport.BatchRuns` | Bochs-2.6/bx_debug/dbg_main.cc:3492-3521 | a batch exits exactly when more than 512 operations would be queued, and otherwise prints a report per full batch |
| `DmaReport.RunPrints` | Bochs-2.6/bx_debug/dbg_main.cc:2347-2366 | over any session the debugger exits exactly when a batch overruns the queue; otherwise the queue is empty between commands and exactly the reports have been printed |
| `DmaReport.OutputDecodes` | Bochs-2.6/bx_debug/dbg_main.cc:3492-3583 | the reports of a whole session decode to every operation that happened while reports were on, in order, if and only if no report starts with an operation of length zero |
| `DmaReport.LengthsSuffice` | Bochs-2.6/bx_debug/dbg_main.cc:3492-3583 | which is so when no operation is of length zero |
| `DmaReport.BatchDma.constructor` | Bochs-2.6/bx_debug/dbg_main.cc:225-226 | one operation per batch, empty queue |
| `DmaReport.BatchDma.PostReports` | Bochs-2.6/bx_debug/dbg_main.cc:3523-3583 | the report is printed if reports are on, and the queue is emptied in any case |
| `DmaReport.BatchDma.PrintLines` | Bochs-2.6/bx_debug/dbg_main.cc:3530-3579 | the loop prints the specified text |
| `DmaReport.BatchDma.DmaReport` | Bochs-2.6/bx_debug/dbg_main.cc:3492-3521 | the three exits, and otherwise the operation is queued and a full batch posted |
| `DmaReport.BatchDma.TakeCommand` | Bochs-2.6/bx_debug/dbg_main.cc:2347-2366 | the batch size holds for the operations of the command and is then reset; the error and done lines are printed |
| `SegChecks.TestsAreExact` | Bochs-2.6/cpu/access.cc:52-94 | for all 32-bit offsets, limits and lengths the wrapping tests hold exactly when every byte of the access is inside the segment, normal or expand-down |
| `SegChecks.RightsByType` | Bochs-2.6/cpu/access.cc:56-92 | the rights by the bits of the type field as the architecture defines them, except that execution of data is left to the load of CS |
| `SegChecks.DownIsTheRest` | Bochs-2.6/cpu/access.cc:82-92 | a segment that expands down has exactly those offsets that one with the same limit that expands up does not |
| `SegChecks.MarksAreWide` | Bochs-2.6/cpu/access.cc:71-80 | a check that passes caches the right on every normal segment of at least 32 bytes |
| `SegChecks.LoadedIsSound` | Bochs-2.6/cpu/access.cc:71-80 | a segment as loaded caches nothing unsound |
| `SegChecks.CheckKeeps` | Bochs-2.6/cpu/access.cc:71-80 | a check keeps the cached bits sound and changes nothing that later checks go by |
| `SegChecks.SimpleTestNeedsRoom` | Bochs-2.6/cpu/access32.cc:194-195 | the simple test agrees with the limit check for every offset if and only if the limit is at least length - 1 |
| `SegChecks.BitIsDeserved` | Bochs-2.6/cpu/access32.cc:194-195 | behind any set bit, however it was set, the simple test agrees with the full check for all offsets and up to 32 bytes if and only if the segment is present, not expand-down, has the right and a limit of at least 31 |
| `SegChecks.CachedBitSuffices` | Bochs-2.6/cpu/access.cc:71-80 | behind a cached bit the simple test cannot wrap for up to 32 bytes and agrees with the full check |
| `SegChecks.CachingIsTransparent` | Bochs-2.6/cpu/access32.cc:194-242 | over any run of accesses, cached or checked, each succeeds exactly if the segment as loaded permits it |
| `SegChecks.SegmentReg.constructor` | Bochs-2.6/cpu/segment_ctrl_pro.cc:149-153 | a loaded descriptor has only its valid bit set |
| `SegChecks.SegmentReg.WriteVirtualChecks` | Bochs-2.6/cpu/access.cc:38-101 | the result is whether a write is permitted, and the bits are marked exactly for normal writable segments of at least 32 bytes |
| `SegChecks.SegmentReg.ReadVirtualChecks` | Bochs-2.6/cpu/access.cc:104-163 | the same for a read |
| `SegChecks.SegmentReg.ExecuteVirtualChecks` | Bochs-2.6/cpu/access.cc:166-229 | the same for an instruction fetch |
| `SegChecks.SegmentReg.AttemptAccess` | Bochs-2.6/cpu/access32.cc:194-242 | the simple test behind a cached bit, the full check without one |
| `ConfigLine.CollapseKeeps` | Bochs-2.6/config.cc:1861 | a value survives tokenizing at commas exactly if it has no two commas in a row |
| `ConfigLine.CollapseSplits` | Bochs-2.6/config.cc:1804-1861 | joining the tokens of a quotation with single commas is what makes every run of commas one |
| `ConfigLine.QuotedRest` | Bochs-2.6/config.cc:1804-1861 | an open quotation goes on through its commas up to its quotation mark, as long as the text fits the buffer |
| `ConfigLine.PrintedLineReads` | Bochs-2.6/config.cc:1776-1873 | a printed line is tokenized into the directive and its parameters, with blanks, #, : and single commas inside quotes kept, if there are at most 40 of at most 511 characters each; otherwise an access leaves a buffer |
| `ConfigLine.RoundTrip` | Bochs-2.6/config.cc:1776-1873 | handed over as one string, the parameters come back as they were if and only if no quoted value has two commas in a row, the name and every parameter have at most 511 characters, and there are at most 40 |
| `ConfigLine.LongPathOverruns` | Bochs-2.6/config.cc:1781-1848 | handed over as one string, as on the command line, a path of 511 characters without a comma makes a parameter that does not fit string[512] |
| `ConfigLine.ShortLineStaysInside` | Bochs-2.6/config.cc:1776-1873 | a line of at most 511 characters without a variable neither leaves string[512] nor panics |
| `ConfigLine.StrTok` | Bochs-2.6/config.cc:1799-1861 | the next token behind leading delimiters, and what is left |
| `ConfigLine.ScanToken` | Bochs-2.6/config.cc:1804-1848 | quotation marks, comments, variables and blanks of one token, or a store outside of string[512] or varname[512] |
| `ConfigLine.Substitute` | Bochs-2.6/config.cc:1817-1840 | the name behind a dollar sign and the value it stands for |
| `ConfigLine.ScanVariable` | Bochs-2.6/config.cc:1814-1847 | at a dollar sign the value of the variable is appended, and then the character behind its name as it is |
| `ConfigLine.LongNameOverruns` | Bochs-2.6/config.cc:1816-1824 | a name of 512 characters or more is stored outside of varname[512] |
| `ConfigLine.VariableLine` | Bochs-2.6/config.cc:1814-1847 | a line with a variable in a bare parameter is read as the line in which its value is written out: that of the environment, or else the share path for BXSHARE |
| `ConfigLine.UnknownPanics` | Bochs-2.6/config.cc:1825-1836 | an unknown or empty name is a panic |
| `ConfigLine.QuotationStaysOpen` | Bochs-2.6/config.cc:1844-1847 | a variable right before the closing quotation mark takes the mark into the text, and the quotation stays open |
| `ConfigLine.BlanksAreDropped` | Bochs-2.6/config.cc:1845-1847 | blanks outside of quotation marks make no difference |
| `ConfigLine.BlankLine` | Bochs-2.6/config.cc:1790-1795 | a line says nothing exactly if it is made of blanks |
| `ConfigLine.ScanComment` | Bochs-2.6/config.cc:1809-1811 | a comment ends its token, except where the line has an include directive at the same distance from its start |
| `ConfigLine.CommentBehind` | Bochs-2.6/config.cc:1803-1861 | a comment behind the last parameter, and all that follows, is not read |
| `ConfigLine.CommentLine` | Bochs-2.6/config.cc:1803-1861 | a line that is only a comment has no parameters |
| `ConfigLine.IncludeLine` | Bochs-2.6/config.cc:1799-1861 | an include directive is read with its path as the one parameter |
| `ConfigLine.ParseLineUnformatted` | Bochs-2.6/config.cc:1776-1873 | the method computes the specified parameters, blank line, panic or access outside of a buffer |
| `ConfigFile.LinesConcat` | Bochs-2.6/config.cc:1717-1731 | behind a newline the reader starts anew |
| `ConfigFile.WholeLine` | Bochs-2.6/config.cc:1717-1731 | a line of up to 510 characters is handed on as it is; at 510 only if it does not end in a control character |
| `ConfigFile.BrokenLine` | Bochs-2.6/config.cc:1717-1731 | a longer line, or one with a newline in it, is handed on in at least two pieces |
| `ConfigFile.FailureEnds` | Bochs-2.6/config.cc:1724-1729 | reading ends with the first line that fails and not before |
| `ConfigFile.ClippedDiffers` | Bochs-2.6/config.cc:1720-1722 | a line of 510 characters whose last one is a control character loses it and is read as another directive |
| `ConfigFile.FileRoundTrip` | Bochs-2.6/config.cc:1702-1735 | a written line is read from a file as one directive with its parameters as they were if and only if it has at most 510 characters (the 510th no control character), at most 40 parameters, and no quoted value has a newline or two commas in a row |
| `ConfigFile.LineInFile` | Bochs-2.6/config.cc:1702-1735 | such a line is handed on whole wherever it stands in a file, and leaves the lines around it as they are |
| `ConfigFile.FileStaysInside` | Bochs-2.6/config.cc:1702-1735 | no file without a variable makes the tokenizer leave string[512] or panic, however long its lines |
| `ConfigFile.FGets` | Bochs-2.6/config.cc:1718 | the next piece: up to a newline, 510 characters or the end of the file, and whether the end has been seen |
| `ConfigFile.ParseBochsrc` | Bochs-2.6/config.cc:1702-1735 | the loop hands on the specified lines and stops at the first that fails |
| `AtaDevice.WriteAtaDevice` | Bochs-2.6/config.cc:3233-3268 | the sequential prints make up the line of the device and its parameters |
| `AtaDevice.DeviceReadsBack` | Bochs-2.6/config.cc:3233-3268 | the line of an ATA device is read back from a file as written if and only if it has at most 510 characters and neither path, model nor journal has a newline or two commas in a row |
| `AtaDevice.DeviceRoom` | Bochs-2.6/config.cc:3233-3268 | the line has at most 510 characters exactly if path, model and journal together are no longer than what its other parts leave |
| `AtaDevice.LongCdRom` | Bochs-2.6/config.cc:3233-3268 | a CD-ROM with a path of 400 and a model of 200 characters, neither with a comma or a newline, is written as a line that is cut and not read back |
| `AtaDevice.DecimalReads` | Bochs-2.6/config.cc:2304-2309 | numbers are read as they were printed, whatever is behind them, with a sign or without one |
| `AtaDevice.EchsIsLarge` | Bochs-2.6/config.cc:2320-2321 | echs is another name of the large translation |
| `AtaDevice.DeviceConfigures` | Bochs-2.6/config.cc:2270-2373 | the parameters written for a device set the slot of its name to it; a disk exactly if it has a path, not the geometry 0/0/0, which becomes 16 heads and 63 sectors, and no journal of before is left |
| `AtaDevice.NoTypeIsAbsent` | Bochs-2.6/config.cc:2341-2371 | a directive without a type switches the device off |
| `AtaDevice.SlotIsNamed` | Bochs-2.6/config.cc:2270-2289 | a name is taken for that of a slot only if it is ata, a channel from 0 to 3, and -master or -slave |
| `AtaDevice.DeviceSurvivesFile` | Bochs-2.6/config.cc:2270-2373 | from the settings of a device to a file and back: one directive, of its own slot, that sets it to what it was |
| `AtaDevice.AtaSlot.constructor` | Bochs-2.6/config.cc:1232-1370 | a slot with its settings |
| `AtaDevice.AtaSlot.Parse` | Bochs-2.6/config.cc:2289-2373 | the loop over the parameters and what is set behind it, or an error |

## Left out

- 64-bit overflow of virtual time: ticks are unbounded, so a run of 2^64 ticks is not described.
- Floating point: m_ips is an exact number, so the rounding of conversions between ticks and microseconds is not described.
- Timer ids (names), `nullTimer`'s debug output, the benchmark timer and the debugger's time breakpoints.
- Effects of callbacks other than timer calls: what a device does to itself is not part of the state.
- The panic of `unregisterTimer` for an active timer is taken to return, as the code behind it does.
- PciAlloc.PciBios.InitDevice: ends with the mapping of the interrupt line, which is not modelled; nor are power management and the pass over the bridges.
- What is read where a ROM is mapped is a fixed function of the address: a ROM does not change while it is copied, even where the allocator has wrapped around into RAM.
- Configuration space, MSR, SMM, CMOS and port accesses: what registers read back is a parameter, and the host bridge's shadow registers are a field.
- The choice of the address a table starts at (alignment to 16 bytes, the EBDA variants): the start is a parameter.
- RSDP, RSDT, FADT, FACS, MADT and HPET tables and the DSDT: they use the same header builder and would add only constants.
- biossums: the -pad mode, the messages, and reading and writing the file.
- The debugger's "paging off" and cr3 lines, and the page walk that `dbg_xlate_linear2phy` does: the translation is an arbitrary function of the page.
- DmaReport.BatchDma.DmaReport: the messages in front of its three exits are not part of the text that is read back.
- SegChecks.CachingIsTransparent: about segments whose bits come from the checks; for descriptor caches that instructions such as SYSENTER preset with all bits, BitIsDeserved says when a bit can be relied on.
- The TLB, page-crossing accesses and the linear access functions behind the segment checks.
- ConfigLine.ParseLineUnformatted: a panic is the end of the parse, and so is an access outside of a buffer, whose consequences are not described.
- ConfigFile.ParseBochsrc: of the directives only those of ATA devices are carried out, in AtaDevice and not in the loop, so a file is read to its end unless a line fails in the tokenizer, and an include directive is a line like any other.
- AtaDevice.AtaSlot.Parse: what an error leaves of the settings is not stated; ranges of numbers and what depends on a parameter in the menus are not modelled.
- Of the configuration writer only the lines of ATA devices are written out; the other quoted lines are instances of ConfigLine.Print.
- plugin.cc, ltdl.c, gui, logging and the simulation parameter tree.

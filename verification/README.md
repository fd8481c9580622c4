# Verified models of mini-kernel

Dafny models of the parts of the kernel and its build tools where a mistake is hardest to see:
protocols between CPUs, firmware and program loading, generated driver and system-call tables,
and the two image formats. `dafny verify dfyconfig.toml` checks everything.

| modules | what they model |
|---|---|
| `TlbModel`, `TlbSlots`, `TlbSafety`, `TlbPairs`, `TlbRuns`, `TlbWaits`, `TlbConditions`, `TlbProgress`, `TlbGate` | cross-CPU TLB invalidation as a state machine with one step for each shared access: page-table changes, root changes, request slots, interrupts, the handler, acknowledgement pairs, counters, polling, one wait at a time on each CPU, and which changes a space still takes |
| `Reschedule` | reschedule requests coalesced by a compare-and-swap |
| `ApBringup`, `ApStacks` | starting the application processors through a mailbox that is republished while late processors still read it, and which of them can run on one stack |
| `TimerCalibration` | the 32-bit acceptance test of the local timers and the accounts of concurrent calibrations |
| `CpuTopology`, `Madt`, `MadtBits` | from the bytes of the firmware's interrupt table to the CPU table and its lifecycle |
| `Aml` | the scan of the DSDT for the soft-off package, with its package-length and integer decoders |
| `ElfLoader` | accepted load ranges, page permissions, the order of mappings, and the frames behind them |
| `DriverGraph`, `DriverPolicy`, `DriverOrder` | the driver policy validator, its cycle search, the dependency sort, and the order in which drivers are loaded |
| `SyscallCatalog` | the system-call catalog validator and the generated descriptor rows |
| `Png` | in-place reconstruction of PNG scanlines |
| `FatNames`, `FatDirectory`, `FatImage`, `FatLayout`, `FatDriver`, `FatGreeting` | the FAT32 root-image builder and the kernel driver that reads its images back |
| `Basics`, `Bytes` | shared definitions |

## What turned out to depend on a condition

Where a promised property does not hold of the code in every case, the code is modelled as it
is, a lemma exhibits a case, and the condition under which it holds is proved. The conditions are
exact, that is, the property holds if and only if the condition does, except for the four of the
first item and for `OneSpaceIsFresh`, which are sufficient.

- TLB invalidation is safe in every run that obeys four conditions. A slot is claimed by one
  thread at a time. A request is posted only over a different acknowledgement pair. No flush of a
  space lands between the two writes of a change of root while the CPU has loaded the root of that
  space and does not record it, for it would be skipped. No flush of everything in the space a CPU
  is leaving lands after the CPU has loaded the new root, for it would load the old one again. All
  other flushes may land anywhere in a change of root: kernel-wide ones, those of other spaces, and
  any flush before the root is loaded. Together the conditions are sufficient, and each alone can be
  dropped exactly on at most two CPUs, one CPU, none and none (`ClaimsDroppedIff`,
  `PairsDroppedIff`, `SkipsDroppedIff`, `RevertsDroppedIff`, with the runs `TornRequestRun`,
  `ReusedPairRun`, `WindowRun`, `OwnWindowRun` and `RevertedRootRun`); the first because a CPU is in
  one wait at a time. They are not necessary in every state. Two of them are shown to be exact for a
  single request: a flush misses something exactly in the third case (`FlushIncompleteIff`), and a
  request posted over its own pair to the last CPU whose answer is missing can always end in a false
  success (`ReusedPairSucceeds`).
- `docs/phases/phase-4.6/implementation_plan.md` promises that an acknowledgement matches the
  identity of the address space. The code compares only a token and a generation, which every
  user space counts for itself and the kernel draws from two counters under no lock.
  `PairReusedIff` says exactly when a pair is met again: the last request the CPU handled came
  from another space that had counted equally far. Between a user space and the kernel that takes
  two kernel-wide invalidations that drew their numbers crosswise; one of them may have ended long
  before (`CrosswiseRun`). Without such overlaps one user space and the kernel never meet
  (`OneSpaceIsFresh`).
- A kernel-wide flush of everything loads the kernel root and leaves the record of a user space
  in place. The records are true in all runs exactly if kernel-wide changes stay within 32 pages
  (`TruthfulIff`, `KernelFlushRun`).
- A reschedule request that returned success behind another one is lost if that other one fails
  to send and clears the flag (`DroppedRequestRun`, `AnsweredIff`).
- The count of processors that failed to start is the number of records that are not ONLINE
  exactly if no processor went ONLINE between its time-out and the attempt to mark it FAILED and
  every ping was answered in time (`FailuresExactIff`, `LateArrivalRun`, `UnansweredPingRun`).
- A processor that comes late takes the stack that is published by then and runs on it until it
  halts. When a stack is about to be published, two processors can still come to run on it exactly
  if two are left that were told to start and have not taken a stack, or own this one
  (`SharedStackIff`, `LateOnStackRun`); at most one of them gets past activation.
- The timer test computes its error in 32 bits. It is sound exactly for references of at least
  1 MHz (`TestIsSoundIff`, `WronglyAccepted`).
- The counts of processor entries have 16 bits. They add up in all regions of at most n bytes
  exactly if n is below 524288 (`AddUpToIff`), and a valid table means what it says in all of them
  exactly if n is below 524352 (`SoundUpToIff`); the loader admits tables of up to 1 MiB. For a
  single region `MistakenIff` gives the exact entries that are mistaken.
- Boot drivers are loaded in the order of the boot modules, not of the list compiled into the
  kernel. The build writes the modules in the order of the make list, and `ActivationOrder` is
  proved for that order; a boot volume is built exactly if there are at most eight boot drivers of
  1 to 1048576 bytes and the volume has room for all its files.
- A page of a read-only ELF segment without execute permission ends up executable. A page that
  `LoadElf` leaves mapped can be executed although no loaded executable segment is on it exactly if
  every loaded segment on it is read-only data (`LoadElf`, `ConstantsAreExecutable`).
- The loader gives the frame of a new page back whenever the call that maps it fails. The call can
  fail after it has mapped, when the other CPUs do not acknowledge in time. A mapped page has a frame
  that was given back exactly if that happened, and it is that page (`MapNew`, `LoadElf`).
- The scan for the soft-off package accepts definitions that section 20.2.4 of the ACPI
  specification does not allow: lengths in longer forms than needed, spare bits that are set, and
  packages that run over the table. `MatchesIff` says exactly what is accepted; `ImproperAccepted`
  gives, for every table header, two tables in which the scan returns such a definition.
- The FAT32 builder checks neither the size of the image nor that of the names. It stops exactly if
  a name needs more than 255 entries or the table is too small; in between it writes an image of
  more than 32768 sectors, exactly if the files do not fit (`Build`, `OverfullList`). A file is then
  put before its cluster exactly if an earlier one ends beyond the image in a cluster it does not
  fill (`DisplacedIff`), and reading it fails or succeeds with bytes of later files
  (`ReadDisplaced`). A file is still read right exactly if its sectors are in the image and it is in
  its place, or happens to find its own contents later (`ReadRightIff`). The last file, the greeting,
  is read exactly if the files fit (`ReadGreetingSector`, `ReadGreeting`).
- The FAT32 builder strips only outer slashes from a name. A stored file can be read exactly if
  its name as the driver sees it, cut to 63 characters, holds no slash, is not one of the two dot
  names and is not the name of an earlier file (`ReadsIff`, `ReadableByNameIff`,
  `SlashedNameIsLost`). A file without a name is seen under its alias.

## Model

| member | source | states |
|---|---|---|
| `TlbSafety.RetiredNeverCached` | kernel/cpu/smp.cpp:505-762 | In every run that obeys the conditions, with any number of CPUs, spaces and concurrent invalidations: once an invalidation has reported success, no CPU caches a translation it removed, then or later |
| `TlbSafety.StepInv` | kernel/cpu/smp.cpp:547-691 | Every step of initiators, handlers, root changes, TLB fills and page-table changes keeps the invariant: a stale translation is cached only on a CPU that the invalidation still waits for, and that CPU's acknowledgement pair cannot be taken for the invalidation's |
| `TlbSafety.FlushClears` | kernel/cpu/smp.cpp:505-545 | Unless the root of its space is loaded and the record names another one, a flush leaves no translation of the requested pages, whether it is skipped, flushes page by page or flushes everything |
| `TlbSafety.FlushShrinks` | kernel/cpu/smp.cpp:505-545 | A flush never adds a translation |
| `TlbSafety.OneCurrent` | kernel/mm/address_space.cpp:590-618 | At every time, after any changes of any spaces, each page has exactly one translation that can be read: the one that the last change of the page left |
| `TlbSlots.StepSlots` | kernel/cpu/smp.cpp:621-660 | Every step keeps the request slots consistent: a pending slot holds exactly the request of its owner, and the handler works on that request |
| `TlbSlots.RequestsConserved` | kernel/cpu/smp.cpp:640-759 | In every run, between any two accesses: requests counted as sent + used slots not counted yet = counted as acknowledged + freed slots not counted yet + waiting in a slot + failed sends; a CPU outside its handler has acknowledged exactly what it received |
| `TlbPairs.SamePairIff` | kernel/mm/address_space.cpp:139-168 | Two invalidations carry the same token and generation exactly when they belong to different spaces that have counted equally far, each with its generation one ahead of its token; in a user space it always is |
| `TlbPairs.PairReusedIff` | kernel/cpu/smp.cpp:621-691 | A request is posted over its own acknowledgement pair exactly when the last request that CPU handled belongs to another space that had counted equally far |
| `TlbPairs.OneSpaceIsFresh` | kernel/cpu/smp.cpp:710-713 | As long as kernel-wide invalidations do not overlap in drawing their numbers, one user space and the kernel never meet the same pair twice |
| `TlbPairs.RecheckNeverFails` | kernel/mm/address_space.cpp:170-206 | Token and generation of the space are still those of every invalidation under way or just out of its wait, because the gate admits one at a time for each space; so the check before success is reported holds |
| `TlbGate.TakesChangeIff` | kernel/mm/address_space.cpp:79-137 | In every run: a user space takes a page-table change if and only if none of its changes is under way and none of them ended by timing out, said by the steps of the run |
| `TlbGate.ClosedForGood` | kernel/mm/address_space.cpp:170-206 | After a change of a user space has timed out, no later step of any run changes that space again |
| `TlbGate.FailedSendRun` | kernel/cpu/smp.cpp:640-652 | On every number of CPUs from two on, a run in which the interrupt cannot be sent: the slot is free again, the failure is counted, and the space takes no more changes |
| `TlbGate.DeadlineRun` | kernel/cpu/smp.cpp:661-691 | On every number of CPUs from two on, a run in which the request is sent and not answered in time: it stays in its slot and the space takes no more changes |
| `TlbGate.NobodyRun` | kernel/mm/address_space.cpp:170-206 | On every number of CPUs a change of a space that no CPU has used succeeds in four steps, without a wait, and the space takes further changes |
| `TlbGate.NoLockRun` | kernel/mm/address_space.cpp:184-187 | On every number of CPUs from two on, a run in which the change fails only because the lock cannot be had at its end, and the space takes further changes |
| `TlbGate.RefusedRun` | kernel/cpu/smp.cpp:558-586 | On every number of CPUs from one on, a run in which the request is refused before the wait is entered; then the space takes further changes exactly if its lock could not be had |
| `TlbPairs.AnswerIsLastHandled` | kernel/cpu/smp.cpp:661-691 | A CPU outside its handler answers a poll exactly when the last request it handled is the polled one or collides with it |
| `TlbConditions.FlushIncompleteIff` | kernel/cpu/smp.cpp:505-545 | In every run within the conditions the next flush of a request leaves something of its pages exactly if it lands between the two writes of a root change, with the root of its space loaded and not recorded, and something was cached |
| `TlbConditions.TruthfulIff` | kernel/cpu/smp.cpp:522-527 | All runs within the conditions whose kernel-wide changes cover at most n pages keep every CPU's record of its loaded space true if and only if n is at most 32 |
| `TlbConditions.KernelFlushRun` | kernel/cpu/smp.cpp:522-527 | A run in which a kernel-wide change of 33 pages leaves a CPU on the kernel root under a user space's record |
| `TlbConditions.WindowRun` | kernel/mm/address_space.cpp:283-335 | On every number of CPUs from two on, a run that keeps the other three conditions and ends with a retired translation cached because the flush of a request came between loading a root and recording it |
| `TlbConditions.OwnWindowRun` | kernel/cpu/smp.cpp:590-600 | On every number of CPUs from one on, a run that keeps the other three and ends so because the initiator's own flush came there |
| `TlbConditions.RevertedRootRun` | kernel/cpu/smp.cpp:522-524 | On every number of CPUs from one on, a run that keeps the other three and ends so because a full flush of the space that was left loaded its root again, under the record of the new space; a later flush is skipped although no change of root is under way |
| `TlbConditions.OwnLeavingRun` | kernel/mm/address_space.cpp:317-335 | The same while the CPU is leaving the space: its record is cleared and the old root still loaded |
| `TlbConditions.SkipsDroppedIff` | kernel/mm/address_space.cpp:283-335 | All runs on n CPUs that obey the conditions except that flushes may be skipped are safe if and only if n is 0 |
| `TlbConditions.RevertsDroppedIff` | kernel/cpu/smp.cpp:505-545 | All runs on n CPUs that obey the conditions except that flushes may load an old root are safe if and only if n is 0 |
| `TlbConditions.ReusedPairRun` | kernel/cpu/smp.cpp:661-691 | On every number of CPUs from two on, a run that keeps the other three and ends so because an old acknowledgement is taken for a new one |
| `TlbConditions.CrosswiseRun` | kernel/cpu/smp.cpp:710-713 | A run on two CPUs with one user space that ends so: two kernel-wide invalidations drew generation and token crosswise, one of them ran to its end, and its answer is taken for that of the first invalidation of the user space |
| `TlbConditions.KernelPageRun` | kernel/cpu/smp.cpp:693-717 | A run in which a kernel-wide change of one page succeeds: a CPU on a user root that cached the page and one of its own drops the first and keeps the second |
| `TlbConditions.TornRequestRun` | kernel/cpu/smp.cpp:621-642 | On every number of CPUs from three on, a run that keeps the other three and ends so because initiators on two CPUs claimed the slot of a third |
| `TlbConditions.StrayInterruptRun` | kernel/cpu/smp.cpp:721-733 | On every number of CPUs from three on, a run in which two requests in one slot are answered once and the second interrupt finds nothing to do |
| `TlbConditions.ClaimsDroppedIff` | kernel/cpu/smp.cpp:582-642 | All runs on n CPUs that obey the other three conditions are safe if and only if n is at most 2 |
| `TlbConditions.PairsDroppedIff` | kernel/cpu/smp.cpp:621-691 | All runs on n CPUs that obey the other three conditions are safe if and only if n is at most 1 |
| `TlbWaits.StepOneWait` | kernel/sync/spinlock.cpp:246-275 | No step brings two invalidations between entering and leaving the wait on the same CPU |
| `TlbWaits.RunClaimsAlone` | kernel/cpu/smp.cpp:582-642 | On at most two CPUs every run claims slots one thread at a time, whatever other conditions it obeys |
| `TlbWaits.RetiredNeverCachedOnTwo` | kernel/cpu/smp.cpp:505-762 | The main result on at most two CPUs without the condition on claims |
| `TlbProgress.AloneCanSucceed` | kernel/cpu/smp.cpp:655-690 | From every state in which an invalidation polls and since its capture no other thread posted, whatever the CPUs did meanwhile, some continuation ends with its success |
| `TlbProgress.CanSucceed` | kernel/cpu/smp.cpp:655-690 | The same from every state in which nobody has posted to one of its targets after it |
| `TlbProgress.FreedShows` | kernel/cpu/smp.cpp:750-758 | A CPU that has freed its slot, and to which nobody posted after the invalidation did, shows the pair its poll waits for |
| `TlbProgress.Drain` | kernel/cpu/smp.cpp:721-762 | A request whose interrupt was sent can always be handled to the end, without touching other CPUs, threads or spaces |
| `TlbProgress.ReusedPairSucceeds` | kernel/cpu/smp.cpp:661-691 | From every state in which a request is about to be posted over its own pair, to the last CPU whose answer is missing, some continuation within the other conditions ends with success and that CPU's TLB untouched |
| `Reschedule.OneInterruptInFlight` | kernel/cpu/smp.cpp:403-503 | In every run, between any two accesses: at most one interrupt in flight, the flag set whenever one is, sent = received + in flight, only failed sends are ignored, and every request was sent, joined, failed or is still to be sent, each count with what is not counted yet |
| `Reschedule.AnsweredIff` | kernel/cpu/smp.cpp:403-503 | When a run comes to rest, every step at which a request returned success is followed by a handler run that finds the flag set, before the flag is cleared in any other way, if and only if no flag was cleared under a request that relied on it |
| `Reschedule.AnsweredWithoutFailures` | kernel/cpu/smp.cpp:403-503 | Without failed sends every such step is followed by such a handler run |
| `Reschedule.DroppedRequestRun` | kernel/cpu/smp.cpp:403-443 | A run that comes to rest with a successful request that no handler run follows, with every counter at its end |
| `Reschedule.AnsweredRun` | kernel/cpu/smp.cpp:403-503 | Two requests, one interrupt and one handler run, with every counter at the end |
| `ApBringup.OnlineOrFailedForGood` | kernel/cpu/smp.cpp:311-333 | In every run, however late a processor arrives: a record that has gone ONLINE never goes FAILED, and a FAILED one never goes ONLINE |
| `ApBringup.OnlyTheRightCpu` | kernel/cpu/smp.cpp:229-256 | Only the processor with the APIC id of a record gets past activation as that logical id, and it runs on the stack of that id even if the mailbox changed while it was read |
| `ApBringup.OnlineMeansBroughtUp` | kernel/cpu/smp.cpp:245-266 | The online flag implies an ONLINE record, and an ONLINE record was brought up by its own processor |
| `ApBringup.RunningIsSeen` | kernel/cpu/smp.cpp:190-197 | In every run a processor that has come to its idle loop while it is waited for is seen online and cannot be given up, not even at the deadline |
| `ApBringup.SuccessMeansAllOnline` | kernel/cpu/smp.cpp:310-357 | Success means every processor is ONLINE and answered three pings, with attempted = online = n - 1 and pings sent = acknowledged = 3(n - 1), for every n and schedule; no record is left STARTING in any case |
| `ApBringup.StepInvariant` | kernel/cpu/smp.cpp:229-357 | Every single access of the bootstrap processor and of every arriving processor keeps the invariant behind these results and never leaves ONLINE or FAILED |
| `ApBringup.ApAdvances` | arch/x86_64/ap_trampoline.asm:61-65 | What a processor has read is no newer than the mailbox and no older than its own start, after each of its accesses |
| `ApBringup.LateArrivalRun` | kernel/cpu/smp.cpp:326-333 | From any start with two processors a run that reports one failure and ends with both records ONLINE, because the second came after its time-out |
| `ApBringup.UnansweredPingRun` | kernel/cpu/smp.cpp:336-350 | The same without a race, by a ping that is not answered in time; at its end one attempt, one processor online, one failure, one ping sent and none acknowledged |
| `ApBringup.FailuresAccounted` | kernel/cpu/smp.cpp:311-357 | In every run that comes to the end of the loop: failures counted = records not ONLINE + processors that went ONLINE after their time-out + failed or timed-out pings |
| `ApBringup.FailuresExactIff` | kernel/cpu/smp.cpp:311-357 | The count of failures is the number of records that are not ONLINE if and only if no step of the run is one of the last two kinds |
| `ApBringup.CountersBalance` | kernel/cpu/smp.cpp:310-357 | In every run, after every access: attempts = processors begun = online + given up + the one still waited for; pings sent = acknowledged + failed or timed out + the one still waited for; failures = refused + given up + lost pings, said by the steps of the run |
| `ApBringup.OnlyPreparedStart` | kernel/cpu/smp.cpp:311-325 | In every run only processors whose records were PREPARED when the loop began are told to start |
| `ApBringup.ComesUpIff` | kernel/cpu/smp.cpp:229-266 | A processor left alone with a mailbox comes up if and only if the mailbox is marked, its id is in the table, the record there and the expected id are its own, and the transition to ONLINE is legal |
| `ApBringup.SuccessRun` | kernel/cpu/smp.cpp:310-357 | From any start with two prepared processors a run that succeeds, with its exact counters |
| `ApBringup.ReportedErrorRun` | kernel/cpu/smp.cpp:319-333 | A run in which sending the start-up sequence reports an error although the processor received it: one failure is counted and both records end ONLINE |
| `ApBringup.SetUpFailsRun` | kernel/cpu/smp.cpp:257-262 | A run in which the processor finds its record but cannot set itself up: it halts and its record ends FAILED |
| `ApBringup.RefusedRun` | kernel/cpu/smp.cpp:311-318 | A run in which a processor is refused before anything is published, counted as failed and not as attempted |
| `ApStacks.SharedStackIff` | arch/x86_64/ap_trampoline.asm:61-65 | In every run that has come to the publication of a stack, some continuation brings two processors on it if and only if two are left that can take it: told to start before and without a stack, or its owner |
| `ApStacks.AtMostTheOwner` | kernel/cpu/smp.cpp:244-257 | Of two processors on one stack at most one, its owner, gets past activation; no processor runs on a stack before its own |
| `ApStacks.LateOnStackRun` | kernel/cpu/smp.cpp:310-333 | A run in which the second processor is online while the first, which came late, runs on its stack |
| `TimerCalibration.TestIsSoundIff` | kernel/cpu/smp.cpp:155-176 | All accepted clocks are within 15.01 percent of the reference if and only if the reference is at least 1 MHz |
| `TimerCalibration.AcceptedIsWithin` | kernel/cpu/smp.cpp:161-176 | From 1 MHz on a clock is accepted exactly when it is more than 84.99 and less than 115.01 percent of the reference |
| `TimerCalibration.NothingCut` | kernel/cpu/smp.cpp:163-164 | From 1 MHz on the error fits in 32 bits |
| `TimerCalibration.ErrorIsDivision` | kernel/cpu/smp.cpp:163-164 | The modelled error is the quotient of the code cut to 32 bits |
| `TimerCalibration.NoOverflow` | arch/x86_64/apic.cpp:349-359 | The product in the error computation fits in 64 bits for every measurable clock |
| `TimerCalibration.WronglyAccepted` | kernel/cpu/smp.cpp:163-176 | For every reference below 1 MHz a measurable clock that is accepted and far outside the tolerance |
| `TimerCalibration.Calibrated` | kernel/cpu/smp.cpp:129-183 | In every run: each CPU is calibrated at most once, scheduler CPUs + failures + calibrations under way = attempts, and every enabled CPU passed the test against the bootstrap processor's clock |
| `TimerCalibration.SecondCalibrated` | kernel/cpu/smp.cpp:129-183 | For every pair of measurable clocks, the first of at least 1 MHz, a run that calibrates the bootstrap processor and then the other CPU: the second is accepted exactly within the tolerance, with the exact accounts in both cases |
| `CpuTopology.Topology.Init` | kernel/cpu/cpu.cpp:62-110 | The table is valid exactly on a parse without overflow or error that lists the bootstrap processor and no xAPIC id twice; then it holds the bootstrap processor and the others in firmware order; the table invariant holds in any case |
| `CpuTopology.Topology.Append` | kernel/cpu/cpu.cpp:42-60 | Appending keeps logical ids equal to positions, APIC ids distinct, one bootstrap processor at 0, and both counters exact |
| `CpuTopology.Topology.AlreadyPresent` | kernel/cpu/cpu.cpp:33-40 | True exactly if the id is in the table |
| `CpuTopology.Topology.Find` | kernel/cpu/cpu.cpp:116-123 | Finds the one record with the id, or there is none |
| `CpuTopology.Topology.AppendOthers` | kernel/cpu/cpu.cpp:87-104 | All other xAPIC processors in order, with a duplicate counted exactly if an id repeats |
| `CpuTopology.Topology.Transition` | kernel/cpu/cpu.cpp:138-150 | Succeeds exactly on a legal transition of an existing record, changes only its lifecycle, keeps the counters exact without underflow, and no record makes more than four transitions after the table was filled |
| `CpuTopology.AtMostFour` | kernel/cpu/cpu.cpp:129-136 | Whatever transitions are requested, the ones that succeed fit above the rank of the first state |
| `CpuTopology.Lives` | kernel/cpu/cpu.cpp:129-136 | The histories of a discovered record: every sequence of transitions that all succeed is a beginning of prepared, starting, online, offline or of prepared, starting, failed, and all of these do |
| `Madt.Parse` | kernel/acpi/madt_cpu.cpp:53-98 | The loop succeeds exactly on a whole list of well-formed entries and then holds the first eight usable processors and the 16-bit counts of the list |
| `MadtBits.ParseRegion` | kernel/acpi/madt_cpu.cpp:24-98 | The same said by the bytes of the region: which offsets hold processors of either entry type, which of them have bit 0 or bit 1 of their flags set, and the counts of both |
| `MadtBits.DiscoverThree` | kernel/acpi/madt_cpu.cpp:24-98 | The bytes of two processors of type 0, with any flags that have bit 0 or bit 1 set, and one of type 9 between them give a table of the first two ids, the bootstrap processor's before the other's |
| `Madt.Retain` | kernel/acpi/madt_cpu.cpp:24-51 | One more processor entry gives the state of the list with that entry |
| `Madt.ParseEntry` | kernel/acpi/madt_cpu.cpp:61-95 | Accepts exactly a well-formed entry and accounts for the processor it describes |
| `Madt.NothingLost` | kernel/acpi/madt_cpu.cpp:29-42 | Total = disabled + overflow + retained on every completed parse, exactly below 2^19 bytes and modulo 2^16 otherwise |
| `Madt.AddUpToIff` | kernel/acpi/madt_cpu.cpp:29-42 | The counters add up for all regions of at most n bytes if and only if n is below 2^19 |
| `Madt.Discover` | kernel/cpu/cpu.cpp:62-110 | Parser and table together: valid exactly when the first usable entries are in order and the overflow count is a multiple of 2^16; then the table lists the bootstrap processor first and the other xAPIC ids in table order |
| `Madt.SmallRegionsDescribe` | kernel/acpi/madt_cpu.cpp:53-98 | Below 524352 bytes a valid table means at most eight usable entries with distinct xAPIC ids, and none is left out |
| `Madt.SoundUpToIff` | kernel/acpi/madt_cpu.cpp:53-98 | That holds for all regions of at most n bytes if and only if n is below 524352 |
| `Madt.MistakenIff` | kernel/acpi/madt_cpu.cpp:36-42 | A region is taken for a description and is none if and only if it lists eight usable processors in order and a positive multiple of 65536 more |
| `Madt.TooManyCpus` | kernel/acpi/madt_cpu.cpp:39-42 | 65544 usable entries make a table that counts as valid |
| `Aml.FindS5` | kernel/acpi/acpi_power.cpp:197-257 | On every byte string the scan stays in bounds and returns the match at the lowest offset, or there is no match |
| `Aml.FindKnown` | kernel/acpi/acpi_power.cpp:197-257 | For every table header, with the root prefix or without, for any number of parents and any encodings of the two numbers, the bytes of the definition right after the header are found and both sleep types returned |
| `Aml.ParsePackageLength` | kernel/acpi/acpi_power.cpp:139-158 | Computes the package length, reading no further than the end |
| `Aml.ParseInteger` | kernel/acpi/acpi_power.cpp:160-195 | Computes the integer, reading no further than the end |
| `Aml.LengthRoundTrip` | kernel/acpi/acpi_power.cpp:139-158 | Decoding inverts the encoding of section 20.2.4 of the ACPI specification for every length below 2^28 |
| `Aml.FormOf` | kernel/acpi/acpi_power.cpp:139-158 | Every length that is decoded stands there in one of the four forms |
| `Aml.IntegerRoundTrip` | kernel/acpi/acpi_power.cpp:160-195 | Decoding inverts the Zero, One, Byte, Word, DWord and QWord encodings of section 20.2.3 for every value they hold |
| `Aml.IntegerOf` | kernel/acpi/acpi_power.cpp:160-195 | Every integer that is decoded stands there in one of the encodings |
| `Aml.DefinitionMatches` | kernel/acpi/acpi_power.cpp:204-254 | A definition of the package with any prefixes and any encodings is accepted and its sleep types are read |
| `Aml.MatchesIff` | kernel/acpi/acpi_power.cpp:204-254 | The test at an offset reads two sleep types if and only if a definition with them stands there, its length in any form and cut by the end of the table |
| `Aml.ImproperAccepted` | kernel/acpi/acpi_power.cpp:139-158 | For every header of 36 bytes, two tables in which the scan returns a definition right after the header although its package runs over the table or its length is not in its shortest form |
| `ElfLoader.CollectLoadInfo` | kernel/process/userprog64.cpp:139-234 | Succeeds if and only if every segment passes its checks and a loaded one holds the entry point; then all loaded segments lie between the two bounds and both bounds are reached |
| `ElfLoader.CheckSegment` | kernel/process/userprog64.cpp:160-199 | The 64-bit comparisons accept exactly segments that do not wrap and whose file part is no larger than their memory |
| `ElfLoader.SegmentsInRange` | kernel/core/kernel64_user.cpp:225-250 | In an accepted image every segment's pages are within the page count and its bytes within the file |
| `ElfLoader.PageFlags` | kernel/core/kernel64_user.cpp:264-300 | A page becomes writable exactly if a loaded writable segment has a byte on it, and non-executable exactly then, for any overlapping segments |
| `ElfLoader.MarkPages` | kernel/core/kernel64_user.cpp:288-300 | One segment's pages, on top of the segments before it |
| `ElfLoader.LoadElf` | kernel/core/kernel64_user.cpp:304-470 | Whatever call fails, also after it has mapped, no page is ever both writable and executable and nothing outside the slot is mapped; on success the slot holds exactly the code pages with their computed permissions and the stack, the regions grant on every page exactly its rights, and a page is executable without an executable segment exactly if only read-only data is on it; a mapped page has a frame that was given back if and only if mapping it as a new page went unacknowledged, which makes the load fail; when no call is made to fail, every image that passes the checks and has fewer pages than the table has regions is loaded |
| `ElfLoader.LoadFlat` | kernel/core/kernel64_user.cpp:472-508 | The same for a flat program, whose slot holds one readable and executable page, the stack and nothing else; it is loaded whenever no call is made to fail |
| `ElfLoader.AddressSpace.MapPage` | kernel/mm/address_space.cpp:590-618 | A call that fails may have mapped its page or not; nothing else changes and no page is ever writable and executable; without failures from outside it succeeds |
| `ElfLoader.AddressSpace.MapNew` | kernel/core/kernel64_user.cpp:304-341 | After a failure the new page has a frame that was given back if and only if it is mapped |
| `ElfLoader.AddressSpace.Cleanup` | kernel/process/userprog64.cpp:387-414 | Whatever is taken back or stays, no further page is left with a frame that was given back |
| `ElfLoader.AddressSpace.Protect` | kernel/core/kernel64_user.cpp:440-470 | Gives the code pages their final permissions one by one and adds exactly those rights to what the regions grant |
| `ElfLoader.AddressSpace.MapStack` | kernel/core/kernel64_user.cpp:344-400 | Four writable, non-executable pages, and regions that grant that in addition |
| `ElfLoader.AddressSpace.AddRegion` | kernel/mm/address_space.cpp:337-392 | Whether a region is joined with a neighbour or recorded anew, the table grants what it granted before and what the region grants; it fails exactly without the lock, or with a full table and no neighbour |
| `ElfLoader.ConstantsAreExecutable` | kernel/core/kernel64_user.cpp:288-300 | Loading an image with a page of code and a page of constants succeeds when no call is made to fail; it maps both pages for execution and not for writing, four stack pages for writing and not for execution, and nothing else, and the regions grant just that |
| `DriverPolicy.FindCycles` | tools/driver_policy.py:256-278 | Every reported chain is a cycle, and one is reported if and only if the dependency graph has a cycle |
| `DriverPolicy.CycleSearch.Visit` | tools/driver_policy.py:259-274 | The visiting set is the chain of ancestors; drivers are finished after their dependencies as long as nothing was reported; the search ends |
| `DriverPolicy.ValidatePolicy` | tools/driver_policy.py:141-278 | Reports nothing if and only if names are unique, combinations allowed, settings present, dependencies known, enabled, no later and not manual, and the graph acyclic |
| `DriverPolicy.CheckDependencies` | tools/driver_policy.py:235-254 | Reports nothing if and only if every dependency is known and allowed |
| `DriverPolicy.CheckEntries` | tools/driver_policy.py:160-224 | Builds both tables and reports nothing if and only if every entry is in order and no name repeats |
| `DriverPolicy.AllowedIff` | tools/driver_policy.py:18-26 | The seven combinations in the table are all but those of a manual driver that is linked or not of the runtime stage |
| `DriverGraph.AcyclicIsRanked` | tools/gen_driver_build.py:55-72 | An acyclic graph has ranks that descend along every dependency |
| `DriverGraph.OrderedHasNoCycle` | tools/driver_policy.py:256-278 | A graph whose nodes can be listed after their dependencies has no cycle |
| `DriverOrder.DependencyOrder` | tools/gen_driver_build.py:55-72 | On an acyclic graph the sort ends with a permutation of its input in which every dependency in the input comes before its dependent |
| `DriverOrder.Sorter.Visit` | tools/gen_driver_build.py:60-68 | Marking only after the recursion is enough: what a visit adds has no higher rank, so no driver is listed twice |
| `DriverOrder.EmitMake` | tools/gen_driver_build.py:75-88 | The make lists hold exactly the enabled packages of each stage, in dependency order |
| `DriverOrder.EmitActivation` | tools/gen_driver_build.py:137-182 | The compiled lists are the automatic packages of each stage in dependency order |
| `DriverOrder.ActivateBoot` | tools/gen_driver_build.py:162-180 | The boot code loads exactly the drivers on its list whose module has an address and 1 to 1048576 bytes, in the loader's order, and nothing from a list of more than eight |
| `DriverOrder.PackModules` | tools/build_uefi_esp.py:69-77 | Succeeds if and only if there are at most eight boot drivers of 1 to 1048576 bytes and room on the volume; then every one of them is a usable module, in order |
| `DriverOrder.ActivationOrder` | tools/gen_driver_build.py:137-193 | For every accepted policy a boot volume is built if and only if its limits are kept; then the drivers loaded at each of the three stages are exactly the automatic enabled packages of that stage, each once, and each comes after all its packaged dependencies |
| `DriverOrder.SelectKeepsOrder` | tools/gen_driver_build.py:78-79 | Filtering keeps the order |
| `DriverOrder.DependencyLoadsItself` | tools/driver_policy.py:245-254 | In an accepted policy a packaged dependency of an automatic driver is automatic, enabled and in no later stage |
| `SyscallCatalog.ValidateCatalog` | tools/syscall_catalog.py:305-505 | Reports nothing if and only if the catalog is acceptable |
| `SyscallCatalog.CheckArgument` | tools/syscall_catalog.py:373-421 | Reports nothing if and only if the argument's kind, direction and policies agree |
| `SyscallCatalog.ArgumentTable` | tools/syscall_catalog.py:373-421 | The acceptable arguments one by one: three kinds of values without any policy, three kinds of pointers in three directions with one policy each |
| `SyscallCatalog.AlignmentIff` | tools/syscall_catalog.py:373-421 | The alignments are the powers of two up to 4096 |
| `SyscallCatalog.CheckOutput` | tools/syscall_catalog.py:465-483 | Reports nothing if and only if the output contract fits the presence of output pointers |
| `SyscallCatalog.CheckAuthority` | tools/syscall_catalog.py:152-171 | Reports nothing if and only if permissions are distinct and present exactly in the modes that need them |
| `SyscallCatalog.CheckNumbers` | tools/syscall_catalog.py:496-504 | The repetition, coverage and order checks together hold if and only if entry i has number i + 1 |
| `SyscallCatalog.CountRepeats` | tools/syscall_catalog.py:316-345 | The seen-set finds every repetition and nothing else |
| `SyscallCatalog.Describe` | tools/gen_syscall_catalog.py:182-224 | Bit i of each mask of a row is set exactly if argument i has the property, the authority is the call's own or else the default, and the masks of an acceptable call satisfy: pointers = read or written, copied = read, nullable and nested within pointers, publication none exactly without writes, permission bits exactly in the two modes |
| `SyscallCatalog.DescribeAll` | tools/gen_syscall_catalog.py:182-238 | An accepted catalog generates one well-formed row for each number from 1 to the maximum |
| `Png.RoundTrip` | tools/png_to_osimg.py:78-94 | For every image and any of the five filters on each row, the loop recovers the image from its filtered form |
| `Png.Reconstruct` | tools/png_to_osimg.py:78-94 | Fails exactly on an unknown filter type; otherwise every byte is the sum modulo 256 of the byte in the file and what its filter type says: nothing, the byte to the left, the one above, their mean rounded down, or the nearest of three to left + above - upper left; and filtering the scanlines again gives the input |
| `Png.ReconstructRow` | tools/png_to_osimg.py:84-94 | The same for one row, leaving the rows before it |
| `Png.SameRows` | tools/png_to_osimg.py:78-94 | Only one image has a given filtered form |
| `Png.PaethAgrees` | tools/png_to_osimg.py:16-20 | The first value at the smallest distance is PaethPredictor of section 6.6 of RFC 2083, ties included |
| `Png.FilteredIsOk` | tools/png_to_osimg.py:78-94 | Filtering by section 6 of RFC 2083 gives an input the loop accepts |
| `FatNames.DriverChecksum` | drivers/fs/fat32/src/fat32_common.cpp:78-84 | The driver's loop, which tests the low bit, computes the builder's checksum |
| `FatNames.ChecksumStep` | tools/build_fat32_root_image.py:27-31 | One more byte rotates the sum of 8 bits right by one and adds the byte modulo 256 |
| `FatNames.OneByteChecksum` | tools/build_fat32_root_image.py:27-31 | The checksum of an alias that is zero except for one byte is that byte rotated right once for each byte after it |
| `FatNames.HelloChecksum` | tools/build_fat32_root_image.py:27-31 | The checksum of the alias HELLO~1 TXT is 0xED |
| `FatNames.ChooseAlias` | tools/build_fat32_root_image.py:246-251 | Counting up ends, at the first number whose alias is not in use |
| `FatNames.AliasTellsSerial` | tools/build_fat32_root_image.py:43-55 | Aliases of one name with different numbers of at most six digits differ |
| `FatNames.PlainAlias` | tools/build_fat32_root_image.py:34-55 | Every character of the alias of a name of letters, for every stem, extension and number of one digit |
| `FatNames.DotsAlias` | tools/build_fat32_root_image.py:52-55 | A name with nothing but dots before its last dot gets an X instead, for every such name and number of one digit |
| `FatNames.MakeLfnEntries` | tools/build_fat32_root_image.py:58-85 | Fails exactly for names of more than 255 chunks; otherwise the entries hold the chunks of the name, last chunk first, with order, mark and checksum |
| `FatNames.MakeLfnEntry` | tools/build_fat32_root_image.py:67-84 | Every unit of the chunk is at its place in the entry |
| `FatNames.AppendChunk` | drivers/fs/fat32/src/fat32_common.cpp:93-121 | What the loop leaves in the name buffer |
| `FatNames.Collect` | drivers/fs/fat32/src/fat32_common.cpp:123-150 | The three runs of units at the place the order says |
| `FatNames.ChunkCollected` | drivers/fs/fat32/src/fat32_common.cpp:123-150 | Collecting one of the first 31 chunks writes exactly its part of the terminated name into the buffer, as far as the buffer goes |
| `FatDirectory.CollectsOne` | drivers/fs/fat32/src/fat32_dir.cpp:38-53 | Reading the chunks of a name of any length from the last to the first, after chunk c the buffer holds the name from there on, although higher chunks overwrite it, start it anew or look deleted |
| `FatDirectory.ScanGroup` | drivers/fs/fat32/src/fat32_dir.cpp:26-80 | The entries of one file are found under its long name cut to 63 characters, checksum included, or under its alias if it has no name, or passed with one more file seen, whatever the buffer held before |
| `FatDirectory.ScanFinds` | drivers/fs/fat32/src/fat32_dir.cpp:1-91 | The scan of a builder's directory finds exactly the files, in order, under those names |
| `FatDirectory.ScanFindsBegun` | drivers/fs/fat32/src/fat32_dir.cpp:1-91 | In a directory that is cut off anywhere, the scan finds a file if and only if all entries of the file are there, and runs out of entries otherwise |
| `FatDirectory.ScanStopsAt` | drivers/fs/fat32/src/fat32_dir.cpp:26-80 | In any directory, whoever made it, the scan for entry number n finds the entry before which n are counted, where deleted entries, parts of long names, volume labels and the two dot names are not counted; it finds nothing at an end mark before that, and fails where the entries run out |
| `FatDirectory.ShortNameIs` | drivers/fs/fat32/src/fat32_common.cpp:391-427 | The name of an entry without a long name is its stem, and a dot and its extension if it has one, for all stems and extensions |
| `FatImage.ComputeFatSectors` | tools/build_fat32_root_image.py:102-110 | The search ends with a table size that describes the space left beside it |
| `FatImage.SetFatEntry` | tools/build_fat32_root_image.py:98-99 | Sets one entry and no other |
| `FatImage.AllocateClusters` | tools/build_fat32_root_image.py:118-128 | Fails exactly if the clusters do not fit in the table; otherwise they form one chain, and all other entries are unchanged |
| `FatImage.WriteFileData` | tools/build_fat32_root_image.py:131-142 | Cluster by cluster the data end up as by one slice assignment, which also says what happens beyond the end of the image |
| `FatImage.MakeDirEntry` | tools/build_fat32_root_image.py:88-95 | Alias, attribute, first cluster and size are at their bytes, and all others are zero |
| `FatImage.ChainsApart` | tools/build_fat32_root_image.py:229-253 | The clusters of a file belong to no other file and not to the root directory |
| `FatImage.StoreFile` | tools/build_fat32_root_image.py:253-257 | Storing one more file ends the program exactly if the table is full; otherwise it leaves the file's chain, its bytes at their place, the length of the image that follows, and everything before that place |
| `FatImage.PlacesApart` | tools/build_fat32_root_image.py:131-142 | The bytes of a file end before those of a later one begin, wherever they were put |
| `FatImage.ListFile` | tools/build_fat32_root_image.py:246-256 | Listing one more file keeps all groups before it and gives it the first alias, counting from its position, that no file before it has |
| `FatImage.Assemble` | tools/build_fat32_root_image.py:175-269 | For every list of files it ends with an error exactly if a name is too long or the table too small; otherwise the sectors before the tables hold the boot sector field by field, its copy, the information sector and nothing else, the tables begin with their two marks and have no cluster in use that belongs to no file, and every file has its alias |
| `FatImage.Build` | tools/build_fat32_root_image.py:175-269 | For every list of files: an image that the files fit in has a boot sector, two equal tables, a directory that lists the files under distinct aliases, and the chains and bytes of all of them; with any data the image has 32768 sectors exactly if they fit; and every image, however long, has its boot sector, its tables with the chains of all files, its directory as far as it goes, and, if the directory is inside, the bytes of every file where the layout says |
| `FatLayout.FoundBytes` | drivers/fs/fat32/src/fat32_api.cpp:107-136 | In every image that is built, with the directory inside, what stands in the clusters of a file is the file, or, if it was displaced, the bytes that far on in the contents of the files from it on |
| `FatLayout.DisplacedIff` | tools/build_fat32_root_image.py:131-142 | A file is put before its cluster if and only if an earlier one ends beyond the image in a cluster it does not fill |
| `FatLayout.ReadRightIff` | tools/build_fat32_root_image.py:131-142 | Exactly which files can be read with their own contents, by their sizes and contents alone |
| `FatDriver.Volume.Open` | drivers/fs/fat32/src/fat32_api.cpp:1-42 | Accepts exactly the boot sectors of FAT32 volumes with 512-byte sectors and takes over their layout in 32 bits; the builder's is one of them |
| `FatDriver.Volume.ReadFatEntry` | drivers/fs/fat32/src/fat32_common.cpp:314-325 | Reads the entry from the first table |
| `FatDriver.Volume.ReadClusterSector` | drivers/fs/fat32/src/fat32_common.cpp:351-356 | Reads the bytes of the cluster the builder wrote, and fails exactly beyond the cluster or the image |
| `FatDriver.Scanner.Step` | drivers/fs/fat32/src/fat32_dir.cpp:30-79 | One entry changes the scan state as the scan function says |
| `FatDriver.Volume.ReadDirEntry` | drivers/fs/fat32/src/fat32_dir.cpp:1-91 | Chain, sectors and entries together scan the directory from its start; running out of entries is an error at the end of the image and none at the end of the chain |
| `FatDriver.Volume.FindInRoot` | drivers/fs/fat32/src/fat32_dir.cpp:101-121 | Finds the first file the driver sees under the name, or none exactly if there is none; where the image cuts the directory off before that file, it is an error |
| `FatDriver.Volume.ResolvePath` | drivers/fs/fat32/src/fat32_dir.cpp:270-349 | The status for every path by its components: the root for none, an error for one that is too long or a dot name, and a file exactly for a single component that names one |
| `FatDriver.Volume.ReadChain` | drivers/fs/fat32/src/fat32_api.cpp:107-136 | Following the chain and stopping at the stored size gives exactly what is in its clusters, and an error if and only if one of the sectors is beyond the image |
| `FatDriver.Volume.ReadFile` | drivers/fs/fat32/src/fat32_api.cpp:92-136 | On every image that is built, the status for every path and buffer size and what is in the clusters of the file on success; for a path that names no file the directory must be inside the image |
| `FatDriver.ReadBack` | tools/build_fat32_root_image.py:175-269 | Builder and driver together, for every list of named or unnamed files: when the build fails, when its image is whole, and that from a whole image the driver reads under every path of one component the bytes of the first file it sees under that name, finds no others, and answers every other path with its error; from an image that is too long, with the directory inside, the same except that it gives what the layout says or an I/O error |
| `FatDriver.ReadDisplaced` | tools/build_fat32_root_image.py:131-142 | For files of 4083 clusters and a byte, one cluster and one cluster, of any contents, the path of the second gives success with one of its own bytes and 4095 of the third file's |
| `FatDriver.ReadGreetingSector` | tools/build_fat32_root_image.py:131-142 | From every image that is built the driver can read the sector with the last file, the greeting, if and only if the files fit |
| `FatDriver.ReadGreeting` | drivers/fs/fat32/src/fat32_api.cpp:92-136 | For every list in which nothing else has the greeting's name: from every image that is built a path to it reads the greeting if the files fit and gives an I/O error if they do not, whether its entry can still be read or not |
| `FatDriver.GreetingAlways` | tools/build_fat32_root_image.py:238-244 | From every image that is whole the greeting is read under its name, whatever other files of that name were asked for |
| `FatGreeting.GreetingImage` | tools/build_fat32_root_image.py:175-269 | For every text of up to 4096 bytes, the image with nothing but that text as hello.txt: all entries of both tables, both directory entries byte by byte, the end mark and the text |
| `FatDriver.OverfullList` | tools/build_fat32_root_image.py:118-142 | Lists for which the table is large enough and the image is not |
| `FatDriver.OneComponentIff` | drivers/fs/fat32/src/fat32_dir.cpp:289-330 | The paths of one component are exactly a name without slashes with any number of slashes around it |
| `FatDriver.ReadsIff` | drivers/fs/fat32/src/fat32_dir.cpp:270-349 | A path reads a stored file if and only if it is the file's name as the driver sees it with slashes around it, that name holds no slash and is no dot name, and no earlier file is seen under it |
| `FatDriver.ReadableByNameIff` | drivers/fs/fat32/src/fat32_dir.cpp:270-349 | A file can be read by its own name if and only if it has one, the name holds no slash, is no dot name, has at most 63 characters, and no earlier file is seen under it |
| `FatDriver.SlashedNameIsLost` | tools/build_fat32_root_image.py:145-149 | A file stored as a/b is read by no path, and asking for a/b finds nothing unless there is a file a |

## Assumptions

- Shared accesses are sequentially consistent, and `cpu_transition` is one step.
- A failed interrupt send delivers nothing, except that a processor may start although sending
  its start-up sequence reported an error.
- Counters of 32 and 64 bits are unbounded unless the width matters; the 16-bit counts of the
  firmware parser, the 32-bit timer error and the 64-bit segment sums are exact.
- The bit PGE of CR4 is clear: the kernel changes only other bits of CR4
  (`arch/x86_64/ap_trampoline.asm:35-40`, `kernel/cpu/cpu_local.cpp:62-66`). So loading a root drops
  every cached translation, also of pages mapped with `VM_FLAG_GLOBAL` as in
  `kernel/mm/heap.cpp:261`; kernel-wide flushes of more than 32 pages rely on it.
- All modelled CPUs of the TLB protocol are online, and address spaces are not recycled.
- The boot loader verifies and hands over every boot driver of the volume in order, under the name
  in its manifest, which has at most 31 characters.
- Increments of counters are single steps, also where the code writes a plain `++`.
- Deadlines are steps that may be taken at any time; calls into the memory manager and fault
  injection may fail at any time, except where a parameter `calls` says what they do.

## Left out

- Liveness of the TLB protocol under fairness: `AloneCanSucceed` says that success stays within reach for one initiator, not that it comes before the deadline; with several initiators a later acknowledgement can overwrite an earlier one (`AnswerIsLastHandled`).
- Raw MMIO, port I/O, MSR access and inline assembly; TSC waits.
- Scheduler, wait queues, heap, VFS, IPC and the driver manager behind the generated lists.
- Linked drivers, which are ordered by priority and name and not by dependency.
- JSON loading, field and pattern checks, and error texts of the two validators; they work on parsed entries here.
- Error-code and error-set tables of the system-call catalog, and the alignment, size-register and flag columns of its descriptors: each is a lookup in a fixed table.
- The PNG chunk walk, zlib, CRC-32, premultiplication and packing of pixels.
- The FAT32 driver's writing operations, and directories below the root, which the builder never makes.
- The ELF link-address alias, the heap mappings and the copying of segment bytes.
- The rest of the power management code around the S5 scan, and tables longer than the loader's limit of 1 MiB.
- Names of the FAT32 image with codes above 255, whose upper case the alias would need; and names and paths with zero bytes, which neither program can be given.
- A directory that itself runs over the end of the image: where the bytes of the files are then, and what the driver answers for names that no file has.
- The driver's check that a cluster does not lead to itself, which no chain of the builder does.
- DriverOrder.PackModules: takes as given whether the boot volume has room for its files, most of which are not drivers.
- DriverOrder.ActivationOrder: the same.
- DriverPolicy.ValidatePolicy: leaves out the checks of paths, directories, fields and settings files, which decide one entry or one path at a time.
- DriverPolicy.CheckEntries: the same.
- SyscallCatalog.ValidateCatalog: leaves out the error tables and the execution and resource fields, which are checks against fixed sets.

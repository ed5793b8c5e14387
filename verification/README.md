# Verified models of the systems course code

This project models the parts of the repository that carry real invariants and proves them in Dafny:

* **WeensyOS paging** (`PageTable.dfy`, `VirtualMemory.dfy`): four-level page tables as a mutable tree in
  physical memory. Mapping a range is proved to refine a finite map from addresses to mappings: for every
  64-bit address, what `virtual_memory_lookup` reports afterwards is what the request says, or what it
  reported before. Failed requests, unmapping, allocation and the cached level-4 table are part of it.
* **The WeensyOS kernel and loader** (`Kernel.dfy`): page ownership, process setup, traps, scheduling. The
  kernel carries its own executable invariant, `check_virtual_memory`; it is specified in full and proved to
  hold at every trap of every run after boot.
* **The round-robin scheduler** (`RoundRobin.dfy`, `TurnPassing.dfy`): first the scheduling loop as a
  sequential program (makespan, response bound), then scheduler and workers as threads with one mutex and two
  condition variables (safety, deadlock freedom, termination on all interleavings). The threads are proved to
  carry out the sequential loop.
* **Remote calls with crash and restart** (`CrashConsistency.dfy`, `Persister.dfy`, `Connectivity.dfy`,
  `LogMonitor.dfy`): acknowledged calls survive crashes, dead instances disturb nobody, the network's enabled
  ends match the connectivity the driver asked for, and the commit monitor is sound.
* **Printing and pointer code** (`Printf.dfy`, `Printer.dfy`, `PrintLaws.dfy`, `LinkedList.dfy`): the format engine
  with its bounded buffer, the laws that say what it prints, and in-place reversal and removal in a doubly
  linked list.

`dafny verify dfyconfig.toml` checks everything.

## How the models are laid out

State that the program updates in place is a class (`Machine`, `Kernel`, `StringPrinter`, `Persister`,
`Config`, `Monitor`, `List`), and its methods follow the code's branches. A failed `assert`, `panic` or
`log.Fatalf` is a result of the method, never a precondition. Concurrent code is a state machine: a
datatype of actions, `Enabled`, and a step function `Do`; a run is any sequence of enabled actions. A critical
section is one step, or several where the code can wait in between.

`CrashConsistency` treats a persister as a value, the history of its saves, of which the last is what it holds.
That a copy, although it shares the old persister's slices, is such a value of its own is `Persisters.CrashCopy`.

Page-table words are integers; `PageTable.MasksAreDivisions` shows on 64-bit vectors that the header's masks and
shifts are the divisions used. A table's place in the tree is a ghost label (level, number among the
tables of its level); that every present entry's target has the label its place demands is what "tree
shaped" means, and non-sharing follows.

## Where code and documentation differ

* `virtual_memory_map` promises to map every aligned range, but its cached index starts at -1 and is
  truncated to `int`, so an address whose index truncates to -1 skips the walk (`SentinelClash`; the top 2 MB of
  the address space is such a place, no address below 2^48 is). There a map is refused whatever the
  table holds, and an unmap skips everything up to the next 2 MB boundary; `VirtualMemoryMap` states both,
  `ClashExactly` says which addresses clash, and `ClashHonoured` says exactly when such an unmap still does
  what was asked.
* Address bits 48 and up take no part in the walk, so a mapping is also seen at every address that is equal
  modulo 2^48. The specification (`Remapped`) says so instead of excluding such addresses.
* `program_load_segment` is documented to copy the file bytes to the segment's address, but copies to the
  address rounded down to a page. `FaithfulIffAligned` shows that this is right for every image content if and only
  if the segment is page-aligned or has no file bytes.
* `process_setup` ignores whether its stack page could be assigned; `GiveStack` says what happens then.
* `reverse_helper` dereferences the head, so it needs a non-empty list.

## Model

| member | source | states |
|---|---|---|
| `PageTable.MasksAreDivisions` | modules/m3/x86-64.h:28-49 | On all 64-bit words, the page macros' masks, shifts and flag tests equal the division and remainder forms used by the model, and OR-ing flags into an aligned address is addition |
| `PageTable.PageIndexIsIndex` | modules/m3/x86-64.h:29-32 | `pageindex` of a 64-bit address is the base-512 digit of its 36-bit page number; higher bits do not matter |
| `PageTable.AddressParts` | modules/m3/x86-64.h:28-39 | An address put together from four nine-bit indices and an offset, under any higher bits, has exactly those indices and that offset |
| `PageTable.RightsBits` | modules/m3/x86-64.h:46-49 | Bit 0 of an entry is the present bit, bit 1 the write bit and bit 2 the user bit |
| `PageTable.WordParts` | modules/m3/x86-64.h:41-45 | An entry with a page number, nine further bits and three permission bits has that page address and those permissions |
| `PageTable.WalkIsLabelled` | modules/m3/k-hardware.c:345-377 | In a tree-shaped table every walk ends at the table whose label is determined by level and page number |
| `PageTable.TreeDoesNotShare` | modules/m3/k-hardware.c:345-377 | Two walks that meet in a table are at the same level of the same path |
| `PageTable.LeafWrite` | modules/m3/k-hardware.c:334-337 | Storing a level-4 entry changes the translation of that page to the new entry's, of no other page, and keeps the tree |
| `PageTable.HangTree` | modules/m3/k-hardware.c:355-363 | Attaching a cleared, unused page under a missing entry gives a tree again |
| `PageTable.HangReaches` | modules/m3/k-hardware.c:355-363 | The walk then reaches the new table with the rights the path above leaves |
| `PageTable.HangTranslates` | modules/m3/k-hardware.c:355-363 | and no page's translation changes |
| `VirtualMemory.Machine.VirtualMemoryLookup` | modules/m3/k-hardware.c:384-401 | The loop returns the abstract translation of the address: the frame plus offset and the AND of the rights on the path, or the unmapped record exactly when some entry is missing |
| `VirtualMemory.LookupByEntries` | modules/m3/k-hardware.c:384-401 | From the four entries on the path: if all are present, the page and address of the last with the rights all four grant, otherwise pn -1, pa all ones and no rights |
| `VirtualMemory.NegativeMeansUnmapped` | modules/m3/k-hardware.c:394-399 | For frames in physical memory the page number is negative exactly when the page is not mapped |
| `VirtualMemory.Machine.NextTable` | modules/m3/k-hardware.c:348-375 | One level down: existing table, fresh table, NULL or failed assertion; no translation changes; the allocator is called only for a missing entry of a present-permission request |
| `VirtualMemory.Machine.AttachTable` | modules/m3/k-hardware.c:359-362 | The entry leads to the page with P, W and U, the page is cleared and no other word changes; tree, allocator freshness and every translation kept |
| `VirtualMemory.Machine.LookupL4` | modules/m3/k-hardware.c:345-377 | Reaches the level-4 table of the address with at least the wanted rights, or NULL with the table missing and (if allocation was allowed) the allocator exhausted; every translation unchanged either way |
| `VirtualMemory.Machine.MapPage` | modules/m3/k-hardware.c:334-340 | Serves one page once the level-4 table is known: stores exactly pa with perm, or perm alone, and fails exactly when the table is missing for a present-permission request |
| `VirtualMemory.Machine.MapStep` | modules/m3/k-hardware.c:329-340 | One loop round through the cache: a hit uses the table a walk would find |
| `VirtualMemory.Machine.CacheIsRight` | modules/m3/k-hardware.c:329-333 | On consecutive pages, equal truncated indices mean the same level-4 table, with the same rights |
| `VirtualMemory.Machine.MapLoop` | modules/m3/k-hardware.c:326-342 | The loop serves exactly the pages it has passed, from the first table lookup on |
| `VirtualMemory.Machine.VirtualMemoryMap` | modules/m3/k-hardware.c:312-343 | Success: every 64-bit address looks up as the request says or as before. Failure: exactly a prefix is mapped and the next table is missing. Unmapping never allocates or fails. Argument assertions fail exactly on bad arguments. Full behaviour in the sentinel clash. Tree shape and freshness kept |
| `VirtualMemory.ArgumentsExactly` | modules/m3/k-hardware.c:315-324 | The assertions on the arguments, by their numbers |
| `VirtualMemory.ToInt32Parts` | modules/m3/k-hardware.c:329 | The conversion to a 32-bit int, from the high and low halves |
| `VirtualMemory.ClashExactly` | modules/m3/k-hardware.c:326-333 | Which addresses equal the sentinel: index bits all ones after truncation, among them the top 2 MB |
| `VirtualMemory.NoClashBelow48Bits` | modules/m3/k-hardware.c:326-333 | No address below 2^48 clashes |
| `VirtualMemory.ClashHonoured` | modules/m3/k-hardware.c:326-342 | After a clash an unmap does what was asked if and only if the skipped bytes were unmapped before |
| `VirtualMemory.PagesGiveBytes` | modules/m3/k-hardware.c:312-401 | Page-wise agreement with the request is byte-wise agreement of lookups, for all addresses |
| `VirtualMemory.ServedNext` | modules/m3/k-hardware.c:328-341 | Serving page k after the first k pages serves the first k+1 |
| `VirtualMemory.KernelWalk` | modules/m3/k-hardware.c:271-287 | The five static tables give level-4 tables to exactly the first 4 MB |
| `VirtualMemory.KernelUpperIsTree` | modules/m3/k-hardware.c:271-282 | The five linked tables form a tree that withholds no right |
| `VirtualMemory.Machine.VirtualMemoryInit` | modules/m3/k-hardware.c:271-287 | Afterwards every address below 2 MB (modulo 2^48) is identity-mapped with P, W and U, and every other address is unmapped |
| `Kernel.Kernel.SetPagetable` | modules/m3/k-hardware.c:409-420 | The assertions hold if and only if the table is aligned and maps the checked addresses to themselves |
| `Kernel.Kernel.KernelTableSwitchable` | modules/m3/k-hardware.c:409-420 | For the kernel table they hold in every state with the identity mapping |
| `Kernel.Kernel.AssignPhysicalPage` | modules/m3/kernel.c:162-172 | 0 exactly for an aligned, existing, free page, which then has the owner and count 1; else -1 and nothing changes |
| `Kernel.AssignBalances` | modules/m3/kernel.c:162-172 | Giving a free page to a live process keeps all page accounts, every owner, and costs exactly one free page |
| `Kernel.FreePagesCounts` | modules/m3/kernel.c:162-172 | The number of free pages is the number of pages with count 0 |
| `Kernel.UsersCounts` | modules/m3/kernel.c:385-397 | The number of users is the number of processes that are not free, and the one being set up |
| `Kernel.SetupBalances` | modules/m3/kernel.c:134-140 | The extra reference keeps the kernel table's count at 1 plus its users |
| `Kernel.DescriptorBalances` | modules/m3/kernel.c:134-154 | A descriptor change that does not change who uses the kernel table keeps all accounts |
| `Kernel.Kernel.MapIdentity` | modules/m3/kernel.c:149-151 | Re-mapping an existing page onto itself succeeds and keeps the identity mapping of all memory |
| `Kernel.Kernel.AssignAndMap` | modules/m3/kernel.c:240-244 | The page goes to the process exactly if it was free; invariant kept |
| `Kernel.Kernel.PageInfoInit` | modules/m3/kernel.c:330-346 | Page 0 and pages 0xA0 to 0xFF reserved, the kernel image from page 0x40 and page 0x7F the kernel's, all others free; counted unless free |
| `Kernel.Kernel.AssignPages` | modules/m3/k-loader.c:87-95 | Succeeds exactly when every page the segment covers exists and is free, and assigns exactly those; on failure exactly the pages before the first unavailable one were assigned |
| `Kernel.Kernel.CopySegment` | modules/m3/k-loader.c:100-102 | Every byte of memory afterwards: the image from the rounded address on, then zeros up to the memory size, and everything else unchanged |
| `Kernel.Kernel.MemCpy` | modules/m3/lib.c:12-18 | Copies exactly n bytes and changes no other |
| `Kernel.Kernel.MemSet` | modules/m3/lib.c:36-41 | Sets exactly n bytes and changes no other |
| `Kernel.Kernel.ProgramLoadSegment` | modules/m3/k-loader.c:80-107 | Success exactly when all covered pages are free; then they belong to the process, are identity-mapped P, W, U, and hold the file bytes (of an aligned segment) and zeros from filesz to memsz, with all bytes outside unchanged; on failure memory is unchanged and exactly the pages before the first unavailable one were assigned |
| `Kernel.LoadedIsFilled` | modules/m3/k-loader.c:100-102 | What the copy and the clearing leave: file bytes, zeros, nothing else |
| `Kernel.FaithfulIffAligned` | modules/m3/k-loader.c:83-102 | The file bytes land at the segment's address for every image content if and only if the segment is page-aligned or empty |
| `Kernel.NextPlaceable` | modules/m3/k-loader.c:56-65 | After k segments the next one loads exactly when its pages were free at the start and no earlier segment took them |
| `Kernel.LoadedIsResident` | modules/m3/k-loader.c:80-107 | A loaded segment's pages and bytes are the process's, and no page that was in use has changed a byte |
| `Kernel.ResidentIsImaged` | modules/m3/k-loader.c:100-102 | A resident segment lies in memory and holds its file bytes, if aligned, and then zeros |
| `Kernel.ResidentKept` | modules/m3/k-loader.c:56-65 | A resident segment stays resident while pages in use keep owner and bytes |
| `Kernel.Kernel.ProgramLoad` | modules/m3/k-loader.c:48-70 | Success exactly when all needed pages are free and no two segments share one; then all segments are resident, nothing else changed, and the entry point is set. On success and failure no byte of a page in use, and so of no page table, has changed |
| `Kernel.TablesAreUsed` | modules/m3/k-loader.c:100-102 | What leaves the bytes of used pages alone leaves the five page tables alone, in every state of the accounts |
| `Kernel.Kernel.ProcessSetup` | modules/m3/kernel.c:134-154 | The assertion fails exactly when the program cannot be placed; otherwise the program is resident, the process runnable at its entry with its stack pointer, used pages untouched, invariant kept |
| `Kernel.NewProcessIs` | modules/m3/kernel.c:134-153 | A new process has its number, is runnable, starts at its entry, has its stack pointer at the end of its own pages, the kernel table and cleared registers |
| `Kernel.Kernel.GiveStack` | modules/m3/kernel.c:146-153 | The stack page is the process's if it was free, and is left alone otherwise; the process is runnable |
| `Kernel.Kernel.Boot` | modules/m3/kernel.c:87-119 | Images inside their processes' pages always boot; after a boot the invariant holds, every program is resident and runnable, and every segment holds its file bytes, if aligned, and then zeros |
| `Kernel.Kernel.Run` | modules/m3/kernel.c:312-324 | Under the invariant a runnable process runs with no failed assertion |
| `Kernel.Kernel.CheckMappings` | modules/m3/kernel.c:353-375 | Passes if and only if kernel memory and stack are identity-mapped and data and stack writable |
| `Kernel.MappingsMean` | modules/m3/kernel.c:353-375 | The mapping check, address by address |
| `Kernel.Kernel.CheckOwnershipLevel` | modules/m3/kernel.c:401-415 | Passes if and only if the whole subtree has the owner, with the given count at its root and 1 below |
| `Kernel.OwnershipMeans` | modules/m3/kernel.c:401-415 | The ownership check of a whole table, path by path over three levels of nonzero entries |
| `Kernel.Kernel.CheckOwnership` | modules/m3/kernel.c:385-399 | Passes if and only if the kernel table counts 1 plus its users, or a private table belongs to its process |
| `Kernel.Kernel.CheckVirtualMemory` | modules/m3/kernel.c:422-450 | Passes if and only if all the self-check's conditions hold |
| `Kernel.SelfChecksMean` | modules/m3/kernel.c:422-450 | The self-check, condition by condition, with the expected count as a number of processes |
| `Kernel.Kernel.InvariantPassesChecks` | modules/m3/kernel.c:422-450 | Every state of the invariant passes the self-check |
| `Kernel.Kernel.KernelTableOwned` | modules/m3/kernel.c:401-415 | The kernel table's subtree passes the ownership check in every state of the invariant |
| `Kernel.Kernel.MemshowPhysical` | modules/m3/kernel.c:464-483 | Stays inside the table of colours if and only if every page, free or by its owner, has one |
| `Kernel.ColorsExactly` | modules/m3/kernel.c:456-475 | Free pages have a colour, and so do those of the kernel, the reserved ones and those of the 16 processes; no others |
| `Kernel.Kernel.MemshowVirtual` | modules/m3/kernel.c:490-522 | Its assertions hold if and only if the table is page-aligned and every mapped address it shows lies in physical memory, on a page that has a colour |
| `Kernel.Kernel.MemshowVirtualAnimate` | modules/m3/kernel.c:529-551 | Moves on after half a second, skips exactly the processes that are gone, shows a live one if there is one, and no assertion fails if and only if its table can be drawn |
| `Kernel.Kernel.LiveTablesShow` | modules/m3/kernel.c:490-522 | Under the invariant every live process's table can be drawn |
| `Kernel.Kernel.Exception` | modules/m3/kernel.c:186-286 | No assertion fails on the way, those of the self-check and of drawing memory included. By trap number: getpid answers the caller's number; page_alloc answers 0 and gives the page exactly if it was free, else -1; a user page fault breaks the process, which does not run next; timer and yield leave it alone and call the scheduler; every other trap halts. All other processes and pages unchanged, ticks counted, invariant and owners kept |
| `Kernel.Kernel.Serve` | modules/m3/kernel.c:186-286 | Over any sequence of traps: invariant kept, no owner changed, pages granted equal free pages lost and are bounded by those free at the start, a halt means a fatal trap, and a process that is runnable at NPROC scheduling traps in a row is picked at one of them |
| `Kernel.Kernel.Schedule` | modules/m3/kernel.c:293-303 | Runs the first runnable process cyclically after the current one; spins exactly when none is |
| `Kernel.Probe` | modules/m3/kernel.c:293-303 | The probing loop finds the first runnable process within NPROC probes |
| `Kernel.NextIsNearest` | modules/m3/kernel.c:293-303 | If some process is runnable, the pick is runnable and none nearer is |
| `Kernel.ScheduleApproaches` | modules/m3/kernel.c:293-303 | Each call runs p or strictly reduces the cyclic distance to p |
| `Kernel.ScheduleIsFair` | modules/m3/kernel.c:281-303 | Whatever happens to the others in between, a process that stays runnable runs within NPROC calls |
| `Kernel.HistoryIsFair` | modules/m3/kernel.c:281-303 | In any record of scheduling calls, a process runnable at NPROC calls in a row is picked at one of them |
| `RoundRobin.PickThread` | assignments/a2/scheduling_rr/main.c:209-214 | The do-while search returns the cyclic pick, or -1 |
| `RoundRobin.PickIsNearest` | assignments/a2/scheduling_rr/main.c:209-214 | The pick is runnable and no runnable thread is nearer to the pointer |
| `RoundRobin.FindNextArrival` | assignments/a2/scheduling_rr/main.c:218-224 | The loop computes the specified search with its -1 sentinel |
| `RoundRobin.NextArrivalIsLeast` | assignments/a2/scheduling_rr/main.c:218-224 | When unfinished threads arrive at non-negative times, -1 means exactly that there are none; otherwise it is the least arrival |
| `RoundRobin.PickMeansSlice` | assignments/a2/scheduling_rr/main.c:229-245 | An iteration with a pick grants the nearest runnable thread min(rem, q) |
| `RoundRobin.NoPickMeansIdle` | assignments/a2/scheduling_rr/main.c:216-227 | Any other iteration of an unfinished schedule moves the clock forward to the earliest arrival |
| `RoundRobin.StepKeepsSound` | assignments/a2/scheduling_rr/main.c:207-246 | Every iteration keeps the bookkeeping, the no-idle busy period and every thread's waiting bound |
| `RoundRobin.IdleMeasure` | assignments/a2/scheduling_rr/main.c:216-227 | Each idle jump makes some thread runnable |
| `RoundRobin.StepMeasure` | assignments/a2/scheduling_rr/main.c:207-246 | Remaining work, then the idle flag, strictly decreases |
| `RoundRobin.RunIsSound` | assignments/a2/scheduling_rr/main.c:200-246 | Every state of every schedule is sound |
| `RoundRobin.FinalClock` | assignments/a2/scheduling_rr/main.c:200-246 | At the end the clock and the last finish time are the maximum of arrival plus later work, and every finish time lies between at+bt and the response bound |
| `RoundRobin.SlicesSuffice` | assignments/a2/scheduling_rr/main.c:229-231 | The number of slices in the response bound is the least that covers the burst |
| `RoundRobin.Iteration` | assignments/a2/scheduling_rr/main.c:208-245 | The loop body computes one step of the specification and keeps the finished counter exact |
| `RoundRobin.Schedule` | assignments/a2/scheduling_rr/main.c:200-246 | The loop terminates, at the makespan, with every thread within its bounds |
| `RoundRobin.MakespanPermutes` | assignments/a2/scheduling_rr/main.c:200-246 | Inputs with the same jobs in any order and any quanta end at the same time |
| `RoundRobin.Report` | assignments/a2/scheduling_rr/main.c:256-266 | The clamp of negative waiting times never fires; the totals are the sums of finish - at and of finish - at - bt |
| `TurnPassing.StepKeepsSafe` | assignments/a2/scheduling_rr/main.c:80-129 | Every step of every thread, spurious wakeups included, keeps mutual exclusion, flags, no lost wakeup, turn discipline, and agreement with the sequential schedule |
| `TurnPassing.RunsAreSafe` | assignments/a2/scheduling_rr/main.c:80-129 | So does every run |
| `TurnPassing.WorkerRunMoves` | assignments/a2/scheduling_rr/main.c:85-107 | A worker that holds the mutex passes the barrier, waits, exits, or goes to work on exactly its grant: the unscheduled branch and the clamps are dead code |
| `TurnPassing.TurnSafety` | assignments/a2/scheduling_rr/main.c:84-126 | On every interleaving: one worker at most in the work section, the one `turn_id` names, with a slice equal to the grant; the unscheduled branch and the clamps are never taken; what is accounted for is what was granted |
| `TurnPassing.StepFollows` | assignments/a2/scheduling_rr/main.c:207-246 | Each step is invisible to the scheduling loop or is exactly one of its iterations |
| `TurnPassing.NoDeadlock` | assignments/a2/scheduling_rr/main.c:85-92 | Every reachable unfinished state has an enabled step that is not a spurious wakeup |
| `TurnPassing.StepBelow` | assignments/a2/scheduling_rr/main.c:80-129 | Each such step strictly decreases a well-founded measure |
| `TurnPassing.FinishedRun` | assignments/a2/scheduling_rr/main.c:248-253 | After the joins the finish times are those of the sequential schedule |
| `TurnPassing.ProgramEnds` | assignments/a2/scheduling_rr/main.c:199-253 | Every history with finitely many spurious wakeups ends with all workers exited, at the makespan and within the bounds |
| `CrashConsistency.FinalCheckKeeps` | modules/m5/labrpc/labrpc.go:266-276 | A request with a reply passes the last check if and only if its end is enabled and its server's name leads to its own instance; then its handler has returned and its persister has not been copied; invariant kept |
| `CrashConsistency.RepliedWasLive` | modules/m5/labrpc/labrpc.go:210-218 | In every run, a call that returned true took its last check after its handler returned, over an enabled end, with the instance that served it still serving |
| `CrashConsistency.LocateAnswers` | modules/m5/labrpc/labrpc.go:194-223 | A request gets the live server its enabled, connected end leads to; otherwise it fails before any handler starts |
| `CrashConsistency.FailedForEver` | modules/m5/labrpc/labrpc.go:294-309 | A request that failed without a handler never gets one |
| `CrashConsistency.DisabledEndFails` | modules/m5/labrpc/labrpc.go:210-218 | Over a disabled end a request finds no server and does not pass its last check |
| `CrashConsistency.DeadServerFails` | modules/m5/labrpc/labrpc.go:252-276 | A waiting request whose server is gone or whose end is disabled ends its wait at the next timeout and fails |
| `CrashConsistency.LiveServerWaits` | modules/m5/labrpc/labrpc.go:256-262 | A timeout while the server lives changes nothing |
| `CrashConsistency.DropsFail` | modules/m5/labrpc/labrpc.go:230-234 | A dropped request fails before any handler starts; a dropped reply fails the call |
| `CrashConsistency.EndsAreSwitched` | modules/m5/labrpc/labrpc.go:362-375 | Connect and Enable change just that end |
| `CrashConsistency.SaveKeeps` | modules/m5/raft/persister.go:53-58 | A save by any instance, dead or alive, keeps isolation, inheritance and acknowledgements |
| `CrashConsistency.CopyKeeps` | modules/m5/raft/config.go:112-125 | The copy of `crash1` gives every instance of the server a legacy: for the one that had none, all it ever saved, which is also what the server now holds; invariant kept |
| `CrashConsistency.SupersedeKeeps` | modules/m5/raft/config.go:135-140 | The later copies replace a persister no instance owns, and lose nothing |
| `CrashConsistency.MakeKeeps` | modules/m5/raft/config.go:301-321 | A new instance starts from all legacies of its predecessors |
| `CrashConsistency.StepKeeps` | modules/m5/labrpc/labrpc.go:194-311 | Every step of requests, handlers, instances and driver keeps the invariant |
| `CrashConsistency.RunsKeep` | modules/m5/labrpc/labrpc.go:194-311 | So does every run |
| `CrashConsistency.AcknowledgedSavesSurvive` | modules/m5/labrpc/labrpc.go:266-293 | If a call returned true, all saves of its handler came before the copy of any later crash of that server, and stand at the same place in what every later instance starts from |
| `CrashConsistency.SavesAreIsolated` | modules/m5/raft/config.go:119-140 | A save by one instance changes no other instance's persister |
| `CrashConsistency.DeadSavesAreIsolated` | modules/m5/raft/config.go:119-140 | Once an instance has been copied, nothing it saves changes what any next instance will be given |
| `CrashConsistency.CallsCanSucceed` | modules/m5/labrpc/labrpc.go:220-293 | From every state of the invariant, a call over an enabled end to a live server can append its save to that server's persister and be acknowledged, with no other effect, so the guarantees are not empty |
| `CrashConsistency.RestartCarriesOver` | modules/m5/raft/config.go:276-333 | From every state with an idle driver a server can be restarted, and the new instance starts from exactly what was held for it |
| `Persisters.Clone` | modules/m5/raft/persister.go:24-28 | A fresh slice with the same bytes, also for nil |
| `Persisters.Persister.Copy` | modules/m5/raft/persister.go:30-37 | A fresh persister that shares both slices |
| `Persisters.Persister.ReadRaftState` | modules/m5/raft/persister.go:39-43 | A fresh slice holding the state |
| `Persisters.Persister.ReadSnapshot` | modules/m5/raft/persister.go:60-64 | A fresh slice holding the snapshot |
| `Persisters.Persister.Save` | modules/m5/raft/persister.go:53-58 | Holds the given bytes in fresh slices; no existing slice is written |
| `Persisters.CrashCopy` | modules/m5/raft/config.go:119-140 | Although slices are shared, any saves of the dead instance between any two steps of the driver leave the next instance exactly what the old persister held at the copy |
| `Persisters.SaveAll` | modules/m5/raft/persister.go:53-58 | After any number of saves a persister holds the last one |
| `Connectivity.Config.SetOutgoing` | modules/m5/raft/config.go:364-370 | Switches exactly the masked outgoing ends of one server |
| `Connectivity.Config.SetIncoming` | modules/m5/raft/config.go:372-378 | Switches exactly the masked incoming ends of one server |
| `Connectivity.Config.Connect` | modules/m5/raft/config.go:359-379 | Keeps: an end is enabled exactly when both its servers are connected, and retired ends are disabled |
| `Connectivity.Config.Disconnect` | modules/m5/raft/config.go:382-402 | Keeps the same with the server disconnected |
| `Connectivity.Config.MakeEnds` | modules/m5/raft/config.go:286-291 | Dies exactly when a drawn name exists already or is drawn twice; otherwise the new ends are disabled and connected to their servers, and no other end is switched |
| `Connectivity.Renamed` | modules/m5/raft/config.go:279-284 | A fresh row of names keeps all end names apart |
| `Connectivity.Config.Start` | modules/m5/raft/config.go:276-291 | Disconnects the server, then dies exactly when a drawn name exists already or is drawn twice; otherwise the old incarnation's ends are disabled and connectivity is as specified |
| `Connectivity.Config.EndsReplaced` | modules/m5/raft/config.go:279-291 | Replacing a disconnected server's ends by new, disabled ones keeps connectivity as specified, and the old ones off |
| `Connectivity.Config.Drive` | modules/m5/raft/config.go:276-402 | Over any sequence of operations connectivity stays as specified, and an end of an earlier incarnation is never enabled again |
| `LogMonitor.Monitor.CheckLogs` | modules/m5/raft/config.go:143-160 | Reports a mismatch exactly on conflict with some log, says whether the previous entry is there, and records the entry |
| `LogMonitor.Monitor.Apply` | modules/m5/raft/config.go:164-183 | Succeeds exactly without conflict and in order, and then keeps agreement and contiguity |
| `LogMonitor.StaysContiguous` | modules/m5/raft/config.go:154-155 | An in-order entry keeps the positive indices 1 to k |
| `LogMonitor.Monitor.NCommitted` | modules/m5/raft/config.go:491-513 | Under agreement the mismatch abort is unreachable; the count is the number of logs that hold the index, and the command is the one they share |
| `LogMonitor.HoldersPositive` | modules/m5/raft/config.go:494-511 | The count is positive exactly when some log holds the index |
| `LogMonitor.Monitor.Watch` | modules/m5/raft/config.go:143-183 | In any run without a reported error all logs agree, each is contiguous, and every applied command is recorded |
| `LinkedLists.List.ReverseHelper` | modules/m2/double_link/linked_list/linked_list.c:151-165 | In place, the well-formed list becomes exactly the reversed node sequence, prev and next consistent |
| `LinkedLists.Flip` | modules/m2/double_link/linked_list/linked_list.c:155-163 | The loop flips every node's pointers, and the new head is the last node |
| `LinkedLists.FlippedIsReversed` | modules/m2/double_link/linked_list/linked_list.c:151-165 | A list with all pointers flipped is the reversed list, properly linked |
| `LinkedLists.ReversedAt` | modules/m2/double_link/linked_list/linked_list.c:151-165 | Place k of the reversed list is place n-1-k of the list |
| `LinkedLists.List.ReverseTwice` | modules/m2/double_link/linked_list/linked_list.c:151-165 | Reversing twice restores the list |
| `LinkedLists.List.RemoveElement` | modules/m2/double_link/linked_list/linked_list.c:119-144 | Unlinks exactly the first match and nothing else; 0 exactly when there is none |
| `LinkedLists.MatchesBytes` | modules/m2/double_link/linked_list/linked_list.c:127 | A match is equality of the first size bytes |
| `LinkedLists.List.Unlink` | modules/m2/double_link/linked_list/linked_list.c:128-135 | The pointer surgery removes just that node and keeps the list well formed |
| `Printf.DigitsDenote` | modules/m3/lib.c:112-128 | The digit string has only digits of the base, is not empty, and denotes the value |
| `PrintLaws.DigitsAreDenoted` | modules/m3/lib.c:112-128 | The digits denote the value, have the letter case of the base and no leading zero |
| `PrintLaws.DenotationIsUnique` | modules/m3/lib.c:112-128 | and there is only one such digit string |
| `Printf.WordFits` | modules/m3/lib.c:142-144 | Every 64-bit value has at most 20 digits in base 10 and 16 |
| `Printf.FillNumbuf` | modules/m3/lib.c:112-128 | Stays inside the 24 bytes for every 64-bit value and leaves its digits and a NUL |
| `Printf.FieldLength` | modules/m3/lib.c:283-298 | The five output loops emit max(width, prefix + zeros + data) characters |
| `Printf.NumberReadsBack` | modules/m3/lib.c:248-298 | Whatever the flags, width and precision, an independent reader recovers the number, and the length is max(width, prefix + zeros + digits) |
| `PrintLaws.NumberFieldShape` | modules/m3/lib.c:248-298 | Every numeric field is blanks, prefix, zeros, digits, blanks: the right prefix; max(precision, digits) digits with a precision; zeros up to the width with the zero flag, no `-` and no precision; blanks on the right exactly with `-`; max(width, rest) characters |
| `PrintLaws.TextFieldShape` | modules/m3/lib.c:268-298 | Every other field is as much of the text as the precision allows, with blanks on one side up to the width |
| `PrintLaws.ArgumentsAreTruncated` | modules/m3/lib.c:203-226 | Arguments are the low 32 or 64 bits, in two's complement if signed |
| `PrintLaws.NumberForIs` | modules/m3/lib.c:203-226 | Sign, magnitude, base and prefix kind that each numeric conversion character makes of its argument |
| `Printer.ArgumentReadsBack` | modules/m3/lib.c:203-226 | What a numeric conversion prints reads back, in base 10 for d, i and u and in base 16 for x, X and p, as the argument |
| `Printer.ReadSpec` | modules/m3/lib.c:152-202 | The parsing loops compute the specified flags, width, precision and length and stop at or before the NUL |
| `PrintLaws.DirectiveIsRead` | modules/m3/lib.c:152-202 | Every directive is read as it is written: any flags in any order, a width or `*`, a precision, a dot alone or `.*`, and length letters |
| `Printer.StringPrinter.Putc` | modules/m3/lib.c:350-356 | The buffer holds the longest prefix of the output that fits; nothing outside is written |
| `Printer.StringPrinter.PutField` | modules/m3/lib.c:283-298 | The five loops append exactly the field |
| `Printer.StringPrinter.PutConversion` | modules/m3/lib.c:197-298 | Each conversion appends the specified text and continues at the specified place |
| `PrintLaws.NumberIsShown` | modules/m3/lib.c:203-226 | A numeric conversion shows the next argument and uses it up |
| `PrintLaws.TextIsShown` | modules/m3/lib.c:227-246 | A string, a character unless NUL, the character itself for `%%` and unknown conversions, and `%` at the end of the format; which of them use an argument |
| `PrintLaws.ColorIsSilent` | modules/m3/lib.c:230-232 | `%C` takes an argument and prints nothing |
| `Printer.StringPrinter.VPrintf` | modules/m3/lib.c:142-301 | Terminates and appends exactly the rendering of the format, which the laws around it determine, never reading past its NUL |
| `PrintLaws.RenderIs` | modules/m3/lib.c:142-150 | A character other than `%` prints itself, a directive prints its conversion, and the rendering goes on after it |
| `PrintLaws.NumericDirective` | modules/m3/lib.c:142-298 | A numeric directive, from format to text: the field for its flags, width, precision and argument, and then the rest |
| `PrintLaws.PlainFormat` | modules/m3/lib.c:146-150 | A format without `%` prints itself |
| `Printer.Vsnprintf` | modules/m3/lib.c:358-368 | Stores the first min(size-1, n) characters of the full rendering and a NUL, returns that count, writes nothing else; size 0 writes nothing |
| `Printer.RenderNoNul` | modules/m3/lib.c:142-301 | No format prints a NUL |
| `Printer.PanicBuffer` | modules/m3/process.c:29-38 | The 160-byte buffer is never overrun, and holds a C string: "PANIC: ", then the rendering if it ends in a newline and fits, else its first 151 characters at most and a newline |

## Left out

- Kernel and loader: per-process page tables, `fork`, `exit` and user isolation are marked as unfinished in the source; processes act on kernel state through traps only.
- Kernel and loader: TICK_LIMIT, keyboard polling, memory dumps and the characters drawn on the console; checks of the program number and the ELF magic number.
- Kernel and loader: memory contents (`ram`) and page-table words (`Machine.mem`) are kept apart. The loader leaves the table pages' bytes alone (`ProgramLoad`); that no running process writes to them, which the finished part of the source does not prevent, is the trap assumption.
- Kernel and loader: where the linker puts the kernel is a parameter (`Layout`), with the constraints of `GoodLayout`; segment ends do not wrap around 2^64.
- Paging: TLB, large pages (PTE_PS) and the hardware's use of the table. Entries' higher bits (NX, available) are part of the physical address, as in the source's masks.
- Paging: the allocator is a list of answers fixed in advance; freshness of its pages is an assumption (`FreshPool`), wrong answers are failed assertions.
- Round robin: ints are unbounded, the number of threads is not limited to ten; reading the input, the logging threads and sleeping are not modelled. Work done outside the mutex is one step, and a worker's updates on retaking the mutex are one step with taking it.
- Remote calls: real time, drop rates and the byte and call counters; drops and delays are choices of the run. Encoding is assumed to round-trip. `rf.Kill` has no effect on the modelled state. Service dispatch and reflection are not modelled.
- Config: snapshot mode (`ingestSnap`, `applierSnap`), in which logs are replaced without being compared, so that agreement does not follow from this code.
- Connectivity.Config.Start: on a name clash the source ends the program; beyond that the server is disconnected, the contract does not describe the state it leaves.
- Printing: `int` width and precision are unbounded; colours (`%C`) and the console back end are dropped. `%d` of the least `long`, where the source's negation overflows, is taken to have its mathematical magnitude. `strlen`, `strnlen` and `strchr` appear as sequence operations.
- Linked list: `free` and allocation; the other operations of the file are unfinished or faulty (`length_list`, `insert_last`, `remove_first`).
- `raft.go`, the MapReduce coordinator, the allocators, the games and the chat programs: they are exercise skeletons whose bodies are still to be written.

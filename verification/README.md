# Verification of the JOS kernel, user library and file server

A Dafny 4.11 model of the lab4 kernel and user library and of the lab5 file server, with proofs.
`dafny verify dfyconfig.toml` checks everything.

The model keeps the source's form.  Physical memory, the environment table, the block cache and the file
server are classes whose methods follow the C functions branch by branch; what they promise is said about
values (`Mem`, `seq<Env>`, `seq<Block>`), and the theory of those values is a set of lemmas.  The kernel
lock with its many CPUs and the prime sieve with its many processes are state machines whose runs are all
interleavings.

## Main results

* **Pages.**  After every operation on the tables, `pp_ref` is the number of references to the page (user
  mappings, tables, roots, kernel tables), the free list is exactly the unreferenced pages once each, and
  each environment's two-level table is a finite map that operations change one key at a time.  `env_free`
  frees exactly what only that environment held.
* **Copy-on-write.**  `CowMachine.Execute`: any list of loads, stores, allocations, unmappings, forks and
  exits, run through the system calls and `fork.c` on the real tables, reads exactly what it would with a
  private copy of every page, to the end of the list, whatever is refused or panics on the way.  Page faults
  write to the program's memory themselves: to its exception stack, and one word below its stack pointer.
  The private copies get those words too; outside them (`CowMarks.Marks`) every read is what it is
  without any faults, and on the exception stack it need not be (`UserFaults.ExceptionStackShows`).  The
  hypothesis is that writable frames are not shared at the start.  `CowMachine.ForkThenStore`: whatever the
  parent could store to, both can store to after a fork.
* **Many CPUs.**  `MultiCpu.Safety` over all interleavings of single lock-word accesses.  Two calls can
  break it, `sys_env_set_status` and a second `env_destroy`: from every state of the invariant, the exact
  condition under which a state that is not safe can follow, and a run from boot for each.  `CpuCalls`: the
  machine's kernel steps are what the calls do on the environment table.
* **IPC.**  `IpcMachine.Execute`: any list of recv, try_send and other calls, run on the environment table
  and the page tables, is a history in which each send answers one recv of its receiver; until its next
  recv the receiver finds that sender, value and permission, and at the address it named the sender's page.
* **Scheduling.**  Round robin: whoever can run runs within NENV-1 calls, and who yields gets the CPU back.
* **The sieve.**  Its stages print exactly the primes in order under every schedule.
* **File server.**  `FsMachine.Execute`: in any run of reads, writes, resizes, flushes and syncs on any files,
  each read shows the byte last written at each position.  In every state each block is free,
  reserved or named by exactly one slot; after every single block write the on-disk Files are safe to restart from;
  `fsformat`'s image satisfies all this if and only if it was given at least one file.
* **Algorithms.**  Symbol-table search, number printing and parsing, nested fault frames.

## Files

`Mmu`, `PageRefs`, `PageCounts`, `Spaces`, `Pmap`, `KernMap`, `EnvVm`, `Mappings`: pages and page tables.
`EnvIds`, `Envs`, `Syscalls`, `IpcSyscalls`, `IpcHistory`, `IpcMachine`: environments and system calls.
`Cow`, `CowMarks`, `UserPages`, `UserFaults`, `Fork`, `Dumbfork`, `CowMachine`: copy-on-write.
`MultiCpu`, `CpuCalls`, `Sched`, `Sieve`, `FaultFrames`: concurrency and traps.
`StabSearch`, `PrintNum`: algorithms.
`FsTypes`, `BlockCache`, `FsOwn`, `FsCrash`, `FsContents`, `Fs`, `FsFiles`, `FsTruncate`, `FsWrite`,
`FsFlush`, `FsMachine`, `FsFormat`: the file server.

## Reading the contracts

* A page-table word is a frame number and twelve flag bits; page contents are words.  Page numbers stand
  for addresses where the source only uses page-aligned ones.
* `pp_ref` is 16 bits wide: the increments and decrements wrap, and callers are asked for room for one more
  mapping (`FewMappings`, `Fork.RoomToFork`), a test on the count kept in the page.
* `hold` and `limbo` are ghost: references the kernel has counted and not stored yet, and pages it has
  allocated and not counted yet.  Between system calls both are empty (`Syscalls.Quiet`).  In the file
  server `pend` and `busy` play that part (`Settled`).
* A panic is an outcome, not a precondition: `Panicked` of fork, not-ok of `pgfault`, `Panic` of the file
  server.  After a user program's panic the others go on, and the claims about them stand.  Nothing is
  claimed about the file server's memory after its panic; every disk image before it is still covered.
* Blocks are typed by use (data, block numbers, bitmap, Files); a former indirect block read as data
  shows its words little-endian.

## Where the code and its comments disagree

The model follows the code.

* `page_lookup` and `page_remove` walk with create set and can allocate an empty table (`lab4/lab/kern/pmap.c:551`).
* `utf_err` is the trap number, whose write bit is set, so only the copy-on-write bit decides in `pgfault`
  (`lab4/lab/kern/trap.c:416`, `lab4/lab/lib/fork.c:30`).
* `env_ipc_perm` keeps an old value when no page is sent (`lab4/lab/kern/syscall.c:392-397`); `MessageStays`
  speaks of it only for page transfers.
* `alloc_block() < 0` is tested on an unsigned variable, so a full disk ends in the panic of `diskaddr`, not
  in `-E_NO_DISK` (`lab5/lab/fs/fs.c:173`, `lab5/lab/fs/fs.c:217`).
* `alloc_block` writes only the first bitmap block; crash safety is stated for disks one bitmap block covers.
* `stab_binsearch`: when all matches lie above the address the result is not `left > right` as the comment
  says (`lab4/lab/kern/kdebug.c:43-44`); `Found` gives the actual one.
* `stab_binsearch`: `addr++` wraps at 2^32, so with an entry at the highest address the search loses it
  (`lab4/lab/kern/kdebug.c:84-90`, `StabSearch.Overruns`).
* `finishdir` rounds a signed zero up to a whole block (`lab5/lab/fs/fsformat.c:175`), so an image without
  files has a root directory that names a free block (`FsFormat.EmptyIsNotOk`).
* `page_fault_handler` treats a stack pointer equal to `UXSTACKTOP` as outside the exception stack, and the
  word below it, through which the return goes, is then part of the frame (`FaultFrames.ResumedIff`).
* `sys_env_set_status` makes a blocked receiver RUNNABLE without a message (`lab4/lab/kern/syscall.c:117-140`).
  Sends and receives still pair up (`IpcHistory` allows it); with a second CPU `MultiCpu.Safety` needs it excluded.

## Model

| member | source | states |
|---|---|---|
| Pmap.PhysMem.constructor | lab4/lab/kern/pmap.c:130-191 | after booting, the counting invariant holds: every count is zero, the allocator owns exactly the pages page_init hands over |
| Pmap.PhysMem.PageInit | lab4/lab/kern/pmap.c:320-356 | the loop leaves on the free list each usable page once and no page below or inside the reserved ranges |
| Pmap.PhysMem.PageAlloc | lab4/lab/kern/pmap.c:371-386 | takes the head of the list or fails on an empty one; the page is cleared when asked; nothing else changes |
| Pmap.PhysMem.PageFree | lab4/lab/kern/pmap.c:392-406 | an unreferenced page goes to the front of the list and the invariant still holds |
| Pmap.PhysMem.PageDecref | lab4/lab/kern/pmap.c:412-417 | one held reference is given up; the page is freed exactly when it was the last |
| Pmap.PhysMem.PgdirWalk | lab4/lab/kern/pmap.c:441-464 | finds the table, or hangs one cleared page with one count under the directory, or fails without a change |
| Pmap.PhysMem.NewTable | lab4/lab/kern/pmap.c:448-456 | takes the head of the free list, cleared, with one count in the kernel's hands |
| Pmap.PhysMem.PageLookup | lab4/lab/kern/pmap.c:547-559 | finds the mapped page if and only if the address space has the key; even when it allocates a table no address space and no count of a page in use changes |
| Pmap.PhysMem.PageInsert | lab4/lab/kern/pmap.c:516-533 | sets exactly one key of the address space; fails only for lack of a table; re-inserting a page where it is leaves its count and the free list as they were, otherwise its count grows by one |
| Pmap.PhysMem.PageRemove | lab4/lab/kern/pmap.c:576-587 | deletes exactly one key, frees the page exactly when that was its last reference, and is silent when nothing is mapped |
| Pmap.InsertRef | lab4/lab/kern/pmap.c:509-533 | the count of the inserted page moves by one unless the page was already mapped there |
| KernMap.BootMapRegion | lab4/lab/kern/pmap.c:467-488 | exactly the pages of the region get the stated translation, every other kernel translation and every count of a page in use stays |
| PageCounts.InvStore | lab4/lab/kern/pmap.c:516-587 | a store into a page table hands the old reference back and uses up the new one, keeping count = references + held |
| PageCounts.InvAttach | lab4/lab/kern/pmap.c:448-461 | hanging a cleared page table keeps counts, free list and back pointers in agreement |
| PageCounts.InvDetach | lab4/lab/kern/env.c:468-470 | taking an empty page table out of a directory returns its one reference |
| PageCounts.InvSetRoot | lab4/lab/kern/env.c:195-209 | a filled-in directory becomes the root of an environment and its count is that reference |
| PageCounts.InvClearRoot | lab4/lab/kern/env.c:473-476 | clearing env_pgdir returns the directory's reference |
| PageCounts.StructureHasOneRef | lab4/lab/kern/pmap.c:441-464 | a page directory or page table is referenced from exactly one place |
| PageCounts.BootInv | lab4/lab/kern/pmap.c:320-356 | the boot state satisfies the counting invariant |
| Mappings.RefIsPlaces | lab4/lab/inc/memlayout.h:178-188 | pp_ref of an ordinary page is the number of (environment, page number) pairs that map it |
| EnvVm.FreeIffUnreferenced | lab4/lab/kern/pmap.c:392-417 | with nothing in flight a page is on the free list if and only if nothing in memory refers to it |
| Spaces.Translate | lab4/lab/kern/pmap.c:547-559 | the two-level lookup agrees with the finite map |
| Spaces.StoreSpace | lab4/lab/kern/pmap.c:527-531 | a page-table store changes one key of one map |
| Spaces.WalkSpaces | lab4/lab/kern/pmap.c:448-461 | a new page table changes no address space and no page in use |
| Spaces.SpaceFrames | lab4/lab/kern/pmap.c:547-559 | user maps name ordinary allocator pages only, never directories or tables |
| Mmu.ForSyscallIs | lab4/lab/inc/mmu.h:72-73 | a permission is fit for a system call exactly when its 12-bit value is PTE_U and PTE_P with PTE_W and the AVAIL bits as they are |
| Mmu.IncludesIs | lab4/lab/kern/syscall.c:372-395 | the permission test of a send holds exactly when every bit asked for is set |
| EnvVm.EnvFree | lab4/lab/kern/env.c:433-476 | the free set grows by exactly the pages held only by that address space; every other address space and all page contents stay |
| EnvVm.EnvFreeTable | lab4/lab/kern/env.c:450-471 | one directory entry: all its pages are unmapped, the table is released |
| EnvVm.EnvFreeExact | lab4/lab/kern/env.c:433-476 | a page ends up free if and only if it was free or all its references lay in the freed address space, and its count drops by exactly those references |
| EnvVm.FreedRefs | lab4/lab/kern/env.c:433-476 | exactly the references inside the address space are gone |
| EnvVm.FreedOthers | lab4/lab/kern/env.c:433-476 | no other environment's map and no kernel table changes |
| EnvVm.EnvSetupVm | lab4/lab/kern/env.c:168-212 | an empty user map, the kernel's upper entries, the self-map; failure leaves everything as it was |
| EnvVm.FillUpper | lab4/lab/kern/env.c:199-209 | the copy loop makes the upper entries equal to the kernel's and puts the self-map at UVPT |
| EnvIds.KthIdFormula | lab4/lab/kern/env.c:236-240 | the k-th identifier of a slot in closed form, positive, with the slot number in its low bits, through 32-bit wrap-around |
| EnvIds.StaleIdCollides | lab4/lab/kern/env.c:236-240 | two lives of a slot share an identifier if and only if 2^19-1 divides their distance |
| Envs.StaleIdRejected | lab4/lab/kern/env.c:75-109 | envid2env accepts an old identifier only a whole number of generation cycles later |
| Envs.EnvTable.constructor | lab4/lab/kern/env.c:119-134 | the free list holds every slot once, in order |
| Envs.EnvTable.Envid2Env | lab4/lab/kern/env.c:75-109 | succeeds if and only if the identifier is zero, or current and permitted; yields that slot |
| Envs.EnvTable.ResolvesIs | lab4/lab/kern/env.c:75-109 | looking at the one slot that the low bits name finds an environment exactly when any slot in use has that identifier and the caller may touch it |
| Envs.EnvTable.EnvAlloc | lab4/lab/kern/env.c:222-285 | takes the first free slot, gives it its next identifier and an empty address space; the two failures change nothing |
| Envs.EnvTable.EnvFree | lab4/lab/kern/env.c:433-481 | the slot returns to the front of the list and its address space is released |
| Envs.EnvListPop | lab4/lab/kern/env.c:228-285 | after the pop the list is still exactly the FREE slots, once each |
| Envs.EnvListPush | lab4/lab/kern/env.c:477-480 | after the push the list is still exactly the FREE slots, once each |
| Syscalls.SysPageAlloc | lab4/lab/kern/syscall.c:184-222 | each error, out of memory included, if and only if its condition; failure leaves all address spaces, contents and counts; success sets one key to a cleared page |
| Syscalls.AllocAndMap | lab4/lab/kern/syscall.c:210-222 | fails exactly with no free page, or with one and no table for the address; the allocation is undone then |
| Syscalls.SysPageMap | lab4/lab/kern/syscall.c:242-286 | each error, out of memory included, if and only if its condition; failure disturbs nothing; success sets one key of the target to the source's frame with exactly the permissions asked for |
| Syscalls.MapArgsIs | lab4/lab/kern/syscall.c:242-286 | the arguments accepted, one by one: aligned addresses below UTOP, permission bits, a mapped source, and a writable mapping from a writable one only |
| Syscalls.SysPageUnmap | lab4/lab/kern/syscall.c:296-316 | removes one key of one address space |
| IpcSyscalls.SysExofork | lab4/lab/kern/syscall.c:82-107 | a child that is NOT_RUNNABLE with an empty map, or an error that changes nothing |
| IpcSyscalls.SysEnvSetStatus | lab4/lab/kern/syscall.c:117-140 | changes one status field under exactly the stated permissions |
| IpcSyscalls.SysIpcTrySend | lab4/lab/kern/syscall.c:357-407 | each error, out of memory included, if and only if its condition and without effect; after a success the receiver is RUNNABLE and not receiving, has the sender's identifier and the value, keeps identity and counters, and no other record changes; when a page moves, one key of its map names the sender's frame with permissions the sender has |
| IpcSyscalls.SendPage | lab4/lab/kern/syscall.c:372-395 | the page half: permission test against the sender's own entry, then one mapping |
| IpcSyscalls.SysIpcRecv | lab4/lab/kern/syscall.c:422-436 | rejects an unaligned address, or leaves the caller NOT_RUNNABLE and receiving at the address it named, with everything else as it was |
| IpcHistory.RecvingIff | lab4/lab/kern/syscall.c:357-436 | in every history an environment is receiving exactly when its last relevant event is its own recv |
| IpcHistory.SendAnswersRecv | lab4/lab/kern/syscall.c:357-407 | each successful send answers the one recv of the receiver since which nothing was sent to it |
| IpcHistory.AnsweredOnce | lab4/lab/kern/syscall.c:357-407 | no recv is answered twice |
| IpcHistory.NoOverwrite | lab4/lab/kern/syscall.c:357-436 | between two messages to one environment it has called recv again |
| IpcHistory.MessageStays | lab4/lab/lib/ipc.c:43-53 | from the send until its next recv the receiver finds that sender's identifier, the value and, if a page moved, the permission |
| IpcHistory.PageStays | lab4/lab/kern/syscall.c:372-400 | and while nobody maps or unmaps that address, its map names there the frame the sender had, with the permissions sent, all of which the sender's entry had |
| IpcMachine.Perform | lab4/lab/kern/syscall.c:82-436 | each call on the real table and page tables is answered as the source's tests of the state say, out of memory only with fewer than two free pages, and is the history steps it records: one RecvE or SendE exactly when a recv or try_send succeeds, with the caller as sender |
| IpcMachine.Execute | lab4/lab/kern/syscall.c:82-436 | any list of calls by any environments (recv, try_send, exofork, set_status, page calls, destroy, zombie exit, yield) is a history through the states between the calls; each is answered as its state demands and changes the state field by field as a call of its kind does, a failed one not at all; so all that holds of histories holds of it |
| IpcMachine.ReceiverCanRun | lab4/lab/kern/syscall.c:391-407 | after each successful try_send the receiver is RUNNABLE, so from every CPU the scheduler reaches it |
| IpcMachine.EachSendAnswersARecv | lab4/lab/kern/syscall.c:357-436 | in any such list each successful try_send answers an earlier successful recv of its receiver, with no other recv by it and no other try_send to it in between |
| UserPages.SelfMap | lab4/lab/inc/memlayout.h:150-165 | reading uvpt[n] through the self-map yields the entry that translates page n |
| UserPages.PgFault | lab4/lab/lib/fork.c:15-55 | succeeds if and only if the page is copy-on-write and memory suffices for PFTEMP; then it moves, contents and all, to an unused frame; otherwise no map and no mapped page changes |
| UserPages.MoveTemp | lab4/lab/lib/fork.c:44-53 | unmap, map, unmap: the page moves from PFTEMP to its address and every mapped page keeps its contents |
| UserFaults.PushFrame | lab4/lab/kern/trap.c:404-418 | the frame goes on the exception stack: at its word utf_fault_va stands the faulting address, no word at or above the interrupted stack pointer changes, and no other page |
| UserFaults.PushReturn | lab4/lab/lib/pfentry.S:68-72 | the return address goes below the interrupted stack pointer, faulting once more if that page is copy-on-write; fails exactly when neither works |
| UserFaults.Fault | lab4/lab/kern/trap.c:352-429 | a fault, from the kernel's frame to the return to the interrupted instruction: comes back if and only if the exception stack is mapped user-writable, the page is copy-on-write, memory suffices and the return address can be written and used; without an exception stack the environment is destroyed |
| UserFaults.UserWrite | lab4/lab/lib/fork.c:15-55 | a store in place where the page is writable; elsewhere a fault with all its own stores, and then the store; succeeds if and only if the fault comes back |
| UserFaults.SpareBelowTop | lab4/lab/kern/trap.c:409-412 | a return address that goes on the exception stack goes among the words a fault may write there |
| UserFaults.ExceptionStackShows | lab4/lab/kern/trap.c:418 | after a faulting store word 1011 of the exception stack shows the address that faulted, and without the fault what stood there before |
| UserFaults.WordOfIs | lab4/lab/kern/trap.c:418 | the word the frame holds is the faulting address, bit by bit |
| UserFaults.UserRead | lab4/lab/lib/fork.c:15-55 | a load of a mapped page shows the word the model says and changes nothing; a load of any other page ends its environment or its program |
| Fork.DupPage | lab4/lab/lib/fork.c:73-99 | child and parent map the old frame for user mode; a writable or copy-on-write page is then copy-on-write and not writable in both, any other stays as it was in the parent and is read-only in the child; nothing else changes, and no failure with two free pages |
| Fork.DupPages | lab4/lab/lib/fork.c:138-143 | the page loop duplicates exactly the mapped pages below the exception stack |
| Fork.ForkEnv | lab4/lab/lib/fork.c:116-160 | a fork that succeeds is the Fork action of the copy-on-write model and leaves a RUNNABLE child with the next identifier, and both address spaces as ForkedSpaces says, bit by bit; it does succeed when a slot and enough pages are free; one that fails has done nothing, or the page loop up to some page |
| Fork.ForkGivesSpaces | lab4/lab/lib/fork.c:73-160 | after the Fork action every page below the exception stack is shared, copy-on-write and writable in neither where the parent could write, the child has a writable exception stack of its own, and no other address space changes |
| Fork.PlacesAtMostDouble | lab4/lab/lib/fork.c:138-143 | no page is mapped more than twice as often as before |
| Dumbfork.DupPage | lab4/lab/user/dumbfork.c:25-38 | the child gets its own copy in an unused frame |
| Dumbfork.GivenCopyIsEager | lab4/lab/user/dumbfork.c:25-38 | one such call adds one private page to the eager machine |
| Dumbfork.DumbFork | lab4/lab/user/dumbfork.c:40-82 | makes a RUNNABLE child whose contents are full copies of the program's pages and of one stack page, and changes no other contents; does so when a slot and enough pages are free |
| Dumbfork.CopyAllIsEagerFork | lab4/lab/user/dumbfork.c:40-82 | full copies of all pages below the exception stack are the eager fork, up to the exception stack that fork.c adds |
| Cow.InPlace | lab4/lab/lib/fork.c:80-96 | stores to a writable page touch one private copy, because writable frames are not shared |
| Cow.CopyRefines | lab4/lab/lib/fork.c:30-53 | moving a page to a frame of its own changes no contents |
| Cow.SharedKeepsPrivate | lab4/lab/lib/fork.c:73-99 | the page loop of fork, however far it gets, leaves a frame mapped more than once writable nowhere |
| Cow.SharedContents | lab4/lab/lib/fork.c:138-143 | the page loop, however far it gets, gives every place the contents that full copies would |
| Cow.ForkRefines | lab4/lab/lib/fork.c:116-160 | the whole fork leaves every place what the eager fork gives it, and sharing read-only |
| Cow.StepRefines | lab4/lab/lib/fork.c:15-160 | every action keeps sharing read-only and acts on the contents as on private copies |
| Cow.CowIsInvisible | lab4/lab/lib/fork.c:15-160 | in every run of the model's actions, each read returns what it returns with private full copies |
| CowMachine.Perform | lab4/lab/lib/fork.c:15-160 | each action on the real tables is the asides of its fault, if it faults, and then the model's action, nothing, a fork cut short or the end of its environment; it goes through whenever it is allowed and memory suffices |
| CowMarks.SameRun | lab4/lab/lib/fork.c:15-55 | an eager machine that makes the faults' own stores and one that does not agree at every word that is not marked by such a store, through stores, new pages, forks and exits |
| CowMarks.SeenOutside | lab4/lab/lib/fork.c:15-55 | so a read of an unmarked word shows what it shows without the faults |
| CowMachine.MarkedWords | lab4/lab/kern/trap.c:404-418 | every marked word is on an exception stack, or is the word below the stack pointer of some fault |
| CowMachine.Execute | lab4/lab/lib/fork.c:15-160 | any list of loads, stores, allocations, unmappings, forks and exits, run on the kernel's tables, reads exactly what the eager machine reads that also makes the faults' own stores; outside the marked words, what the eager machine reads without any faults; to the end of the list, whatever is refused on the way |
| CowMachine.StillReady | lab4/lab/lib/fork.c:15-160 | wherever the parent could store before a fork, parent and child can both store after it |
| CowMachine.ForkThenStore | lab4/lab/lib/fork.c:15-160 | on the kernel's tables: a fork and then such a store, by either of the two, succeeds when memory suffices |
| MultiCpu.AcquireKeeps | lab4/lab/kern/spinlock.c:60-79 | the atomic exchange and the owner store keep mutual exclusion |
| MultiCpu.ReleaseKeeps | lab4/lab/kern/spinlock.c:82-116 | clearing the owner and the releasing exchange keep mutual exclusion |
| MultiCpu.TrapKeeps | lab4/lab/kern/trap.c:303-316 | a trap takes the lock once: for a halted CPU or for user mode, never twice |
| MultiCpu.ReapKeeps | lab4/lab/kern/trap.c:319-324 | collecting a zombie leaves no CPU with a FREE environment |
| MultiCpu.EnvRunKeeps | lab4/lab/kern/env.c:537-572 | the environment switched to is on no other CPU |
| MultiCpu.RestKeeps | lab4/lab/kern/sched.c:45-100 | halting or keeping the current environment keeps the invariant |
| MultiCpu.KernelStep | lab4/lab/kern/env.c:488-572 | a step under the lock that leaves the other CPUs' environments alone keeps the invariant |
| MultiCpu.DestroyKeepsIff | lab4/lab/kern/env.c:488-505 | env_destroy keeps the inductive invariant if and only if its target is not DYING already |
| MultiCpu.DestroyBreaksIff | lab4/lab/kern/env.c:488-505 | after env_destroy careful steps can lead to an unsafe state if and only if its target was DYING |
| MultiCpu.DestroyRun | lab4/lab/kern/env.c:488-505 | a run from boot to a second env_destroy and a CPU in user mode with a FREE environment |
| MultiCpu.StatusKeepsIff | lab4/lab/kern/syscall.c:117-140 | sys_env_set_status keeps the inductive invariant if and only if its target is the caller or on no CPU, and, with a second CPU, is not a blocked receiver made RUNNABLE |
| MultiCpu.StatusBreaksIff | lab4/lab/kern/syscall.c:117-140 | after sys_env_set_status careful steps can lead to an unsafe state if and only if that guard fails |
| MultiCpu.StatusRun | lab4/lab/kern/syscall.c:117-140 | a run from boot to a sys_env_set_status that stops an environment in user mode on another CPU |
| MultiCpu.IpcKeeps | lab4/lab/kern/syscall.c:391-434 | waking a receiver and blocking in recv keep the invariant |
| MultiCpu.StepKeeps | lab4/lab/kern/trap.c:290-348 | every guarded step of every CPU keeps the invariant |
| MultiCpu.InvSafe | lab4/lab/kern/trap.c:290-348 | the inductive invariant implies safety |
| MultiCpu.Safety | lab4/lab/kern/trap.c:290-348 | over all interleavings: one holder of the lock, none that holds it waits for it, no panic; a CPU in user mode has a RUNNING or DYING environment, one that dispatches a trap a RUNNING one; with the lock free each such environment is on exactly one CPU |
| CpuCalls.RecvAgrees | lab4/lab/kern/syscall.c:422-436 | a recv on the environment table is the machine's blocking step |
| CpuCalls.SendAgrees | lab4/lab/kern/syscall.c:391-407 | a try_send is the machine's waking step |
| CpuCalls.StatusAgrees | lab4/lab/kern/syscall.c:117-140 | sys_env_set_status is the machine's step for it |
| CpuCalls.ExoforkAgrees | lab4/lab/kern/syscall.c:82-107 | exofork is the machine's step for it, on a free slot |
| CpuCalls.DestroyAgrees | lab4/lab/kern/env.c:488-505 | env_destroy is the machine's step for it, for a zombie and for an environment freed at once |
| CpuCalls.ReapAgrees | lab4/lab/kern/trap.c:319-324 | so is the end of a zombie |
| CpuCalls.YieldAgrees | lab4/lab/kern/sched.c:11-53 | sched_yield is the machine's step that runs the chosen environment or keeps the current one |
| CpuCalls.PageAgrees | lab4/lab/kern/syscall.c:184-316 | the page calls change no environment, as the step of the machine that only ends the call |
| Sched.SchedYield | lab4/lab/kern/sched.c:11-53 | picks the first RUNNABLE slot after the current one in circular order; keeps the current one only if none is RUNNABLE; halts only if it may not even do that; the chosen one is RUNNING, the one that was running RUNNABLE, and no other record changes |
| Sched.FirstIsNext | lab4/lab/kern/sched.c:29-43 | no slot between the current and the chosen one is RUNNABLE |
| Sched.OneRunning | lab4/lab/kern/env.c:560-564 | on one CPU, if only the current environment was RUNNING, only the next one is |
| Sched.Closer | lab4/lab/kern/sched.c:29-43 | every choice lies closer to a waiting environment |
| Sched.BoundedWaiting | lab4/lab/kern/sched.c:11-53 | an environment that stays RUNNABLE is chosen within NENV-1 calls |
| Sched.EachGetsATurn | lab4/lab/kern/sched.c:11-53 | while environments only yield, each that can run is chosen within NENV-1 calls |
| Sched.YielderRunsAgain | lab4/lab/kern/sched.c:11-53 | and one that yields while another can run has the CPU back within NENV calls |
| Sieve.StepKeeps | lab4/lab/user/primes.c:13-52 | whatever was sent has been received, is about to be, or was sieved out, after every step |
| Sieve.StageStream | lab4/lab/user/primes.c:31-36 | stage k has received an initial part of the integers the first k values leave over |
| Sieve.NextPrime | lab4/lab/user/primes.c:31-36 | the smallest number the first k primes leave over is the next prime |
| Sieve.ValuesArePrimes | lab4/lab/user/primes.c:19-22 | the values of the stages are all the primes up to the last, in order |
| Sieve.SieveCorrect | lab4/lab/user/primes.c:13-52 | under every schedule: the streams and the values are as above in every reachable state |
| Sieve.NeverStuck | lab4/lab/user/primes.c:13-52 | as long as no fork has failed some environment can take a step |
| FaultFrames.Disjoint | lab4/lab/kern/trap.c:409-412 | frames and spare words of nested faults never overlap |
| FaultFrames.Machine.PageFault | lab4/lab/kern/trap.c:405-430 | writes struct UTrapframe word by word where it belongs, as the newest frame, or fails exactly when the exception stack is full |
| FaultFrames.Machine.Unwind | lab4/lab/lib/pfentry.S:65-94 | the instructions keep all older frames and restore eip, esp, eflags and registers of the newest interrupted context if and only if the word they return through is not part of its frame, or holds eip there already |
| FaultFrames.Machine.Work | lab4/lab/lib/pfentry.S:34-39 | a handler that leaves frames and spare words alone keeps every saved context |
| FaultFrames.ResumedIff | lab4/lab/lib/pfentry.S:65-94 | for every word-aligned stack pointer: the context comes back if and only if the spare word lies outside the frame or the lost word is the right one by accident |
| FaultFrames.SpareInFrameIff | lab4/lab/kern/trap.c:409-412 | the spare word lies in the frame exactly for the stack pointer UXSTACKTOP |
| StabSearch.StabBinsearch | lab4/lab/kern/kdebug.c:59-103 | terminates through 32-bit wrap-around; on sorted entries it returns the last match at or below the address and the index before the next match if and only if the address is not 2^32-1 with an entry there; all three outcomes are described |
| StabSearch.TopOfMemory | lab4/lab/kern/kdebug.c:84-90 | one entry at 2^32-1, searched for: the result is not the promised one |
| StabSearch.Probe | lab4/lab/kern/kdebug.c:66-91 | each turn lowers the region plus the number of matches at or above the address, or is the one in which the address wraps |
| StabSearch.ExactBetter | lab4/lab/kern/kdebug.c:84-90 | an exact hit may leave the region as it is, but keeps what is known and lowers the number of entries at or above the address searched for, unless the address wraps |
| StabSearch.SearchDone | lab4/lab/kern/kdebug.c:93-102 | the final scan turns that knowledge into the result |
| PrintNum.Output.PrintNum | lab4/lab/lib/printfmt.c:37-52 | writes padding up to the width, then the digits, most significant first |
| PrintNum.DigitsBack | lab4/lab/lib/printfmt.c:37-52 | the digits written denote the number |
| PrintNum.Strtol | lab4/lab/lib/string.c:239-284 | reads every number spelled out with blanks, a sign, a prefix and digits of either case, in bases 2 to 36 and in base 0, up to the first character that is no digit, as that number modulo 2^32 |
| PrintNum.ParsedSpells | lab4/lab/lib/string.c:239-284 | the grammar of the loops gives every spelled number its value in positional notation |
| PrintNum.DenotesExactly | lab4/lab/lib/string.c:239-284 | in the range of a long that is the number itself, with its sign |
| PrintNum.DigitsSpell | lab4/lab/lib/printfmt.c:37-52 | printnum writes positional notation with small letters and no zero in front |
| PrintNum.ReadBack | lab4/lab/lib/string.c:239-284 | strtol reads printed digits of any size back after blanks, with a sign, in the call's base or behind the prefix of theirs |
| PrintNum.RoundTrip | lab4/lab/lib/string.c:239-284 | for base 2 to 16, any width, padding with blanks or zeros: the length is as promised and strtol reads it all back to the number |
| BlockCache.Cache.Fault | lab5/lab/fs/bc.c:30-78 | a fault changes the logical content of no block and leaves the page clean |
| BlockCache.Cache.Store | lab5/lab/fs/bc.c:30-78 | a store changes the logical content of one block |
| BlockCache.Cache.Flush | lab5/lab/fs/bc.c:87-109 | the disk now has that block's logical content, no logical content changes, the page is clean |
| Fs.FileSystem.constructor | lab5/lab/fs/fs.c:109-130 | on an image in which every block is accounted for, all invariants hold |
| Fs.FileSystem.Load | lab5/lab/fs/bc.c:74-77 | the "reading free block" panic is unreachable |
| Fs.FileSystem.AllocBlock | lab5/lab/fs/fs.c:58-80 | the first free block, marked in use in memory and at once on disk; fails if and only if there is none |
| Fs.FileSystem.BlockWalk | lab5/lab/fs/fs.c:151-188 | every outcome if and only if its condition; a new indirect block is cleared and changes no other slot |
| Fs.FileSystem.GetBlock | lab5/lab/fs/fs.c:201-226 | yields the block the slot names, adding at most what is missing; panics if and only if fewer blocks are free than are missing |
| Fs.FileSystem.FlushBlock | lab5/lab/fs/bc.c:87-109 | writing a block keeps ownership and crash safety |
| FsOwn.TakeBlock | lab5/lab/fs/fs.c:70-77 | taking a free block keeps ownership, the block pending |
| FsOwn.AttachSlot | lab5/lab/fs/fs.c:214-220 | naming a pending block in an empty slot keeps ownership |
| FsOwn.AttachIndirect | lab5/lab/fs/fs.c:170-181 | so does hanging a cleared indirect block |
| FsOwn.ReleaseSlot | lab5/lab/fs/fs.c:453-456 | freeing a block and clearing its slot keeps ownership |
| FsOwn.ReleaseIndirect | lab5/lab/fs/fs.c:481-484 | so does releasing an indirect block whose entries are zero |
| FsOwn.SetSizeOk | lab5/lab/fs/fs.c:493-494 | a new size keeps ownership when the slots past it are zero |
| FsCrash.TakeBehind | lab5/lab/fs/fs.c:70-77 | allocation writes the bitmap before any pointer can reach the disk |
| FsCrash.FlushBehind | lab5/lab/fs/bc.c:87-109 | writing any block keeps the disk safely behind memory |
| FsCrash.StoreBehind | lab5/lab/fs/fs.c:445-496 | so does every store that keeps the pointers of files not being truncated |
| FsCrash.BehindSafe | lab5/lab/fs/bc.c:87-109 | a disk that is behind memory is crash-safe |
| FsFlush.EveryImageSafe | lab5/lab/fs/fs.c:419-517 | after every single block write of every run: each pointer in an on-disk File is marked in use on disk and no two of them name one block |
| FsFlush.SmallFilesSafe | lab5/lab/fs/fs.c:419-517 | without indirect blocks these are all the pointers there are |
| FsFlush.FileFlush | lab5/lab/fs/fs.c:502-517 | afterwards the disk alone yields the file's size, map and contents |
| FsFlush.SavedContents | lab5/lab/fs/fs.c:502-517 | the blocks that must be on disk for that |
| FsFlush.FsSync | lab5/lab/fs/fs.c:521-527 | the disk equals the logical content for all blocks from 1 |
| FsContents.GrownContents | lab5/lab/fs/fs.c:201-226 | adding blocks to one file keeps all its bytes and every other file |
| FsContents.ChunkContents | lab5/lab/fs/fs.c:433-438 | storing a chunk changes exactly those positions of that file |
| FsFiles.FileRead | lab5/lab/fs/fs.c:390-412 | returns the bytes of the file: none from its end on, the count asked for where there are so many, else all up to the end; cannot panic where the file has no holes |
| FsFiles.ReadN | lab5/lab/lib/fd.c:223-235 | reads of a page at most, each where the last has ended, return the whole rest of the file or the count asked for |
| FsFiles.ChunkStep | lab5/lab/fs/fs.c:402-409 | the chunks of the loop tile the range block by block |
| FsFiles.BudgetStep | lab5/lab/fs/fs.c:402-409 | at most one block per turn is used up, and one for the index |
| FsWrite.FileWrite | lab5/lab/fs/fs.c:419-441 | the buffer stands at the offset, every other byte stays, the size is the larger of the old one and the end of the write, every other file is unchanged, across the direct and indirect blocks |
| FsWrite.WriteThenRead | lab5/lab/fs/fs.c:390-441 | reading after writing returns what was written |
| FsTruncate.FileFreeBlock | lab5/lab/fs/fs.c:445-458 | clears exactly one slot and frees its block, with each outcome's condition |
| FsTruncate.TruncateBlocks | lab5/lab/fs/fs.c:469-485 | every slot past the new end is zero, nothing before it has changed |
| FsTruncate.SetSize | lab5/lab/fs/fs.c:488-496 | shrinking keeps exactly the bytes below the new size, growing keeps all; every other file is unchanged |
| FsTypes.NBlocksIs | lab5/lab/fs/fs.c:469-485 | a size takes as many blocks as hold it and not one more |
| FsTypes.BitBlocksIs | lab5/lab/fs/fsformat.c:117-119 | the bitmap takes as many blocks as hold one bit per block and not one more |
| FsTruncate.ResizedBy | lab5/lab/fs/fs.c:488-496 | what clearing slots and setting the size do to the contents |
| FsMachine.Perform | lab5/lab/fs/fs.c:390-527 | each operation keeps the table of known bytes true; only a read through a hole, or a write past the free blocks or the maximal size, can fail |
| FsMachine.Execute | lab5/lab/fs/fs.c:390-527 | any list of reads, writes, resizes, flushes and syncs of any regular files: every read shows at each position the byte last written there, and every disk image on the way is crash-safe |
| FsFormat.Format | lab5/lab/fs/fsformat.c:219-243 | an image comes out if and only if the files fit; every block of it is accounted for if and only if at least one file was given; the directory entries hold the given files |
| FsFormat.FaithfulRegular | lab5/lab/fs/fsformat.c:181-209 | the files of an image are regular, so every run of the file server may start from it |
| FsFormat.RoundUps | lab5/lab/fs/fsformat.c:32-32 | the rounding macro on unsigned and on signed operands, which differ at zero |
| FsFormat.EmptyIsNotOk | lab5/lab/fs/fsformat.c:169-178 | an empty directory names a block that is free |
| FsFormat.Formatter.FinishFile | lab5/lab/fs/fsformat.c:134-148 | consecutive data blocks, then the indirect block from ten blocks on |
| FsFormat.Formatter.FinishDir | lab5/lab/fs/fsformat.c:169-178 | the entries in whole blocks and the root's own File |
| FsFormat.Formatter.FinishDisk | lab5/lab/fs/fsformat.c:122-132 | exactly the blocks below diskpos are marked in use |
| FsFormat.ImageOwnOk | lab5/lab/fs/fsformat.c:81-178 | consecutive extents are owned by exactly one slot each |

## Left out

- Registers and trap frames of environments, segment and interrupt tables, ELF loading, the monitor, devices and boot code: plumbing.
- `user_mem_check`, `mmio_map_region` and `tlb_invalidate`: no property beyond their bodies; flushing a translation does not change memory.
- `sys_env_set_pgfault_upcall` and `set_pgfault_handler`: one field each; faults and fork are modelled with the handler registered.
- `lib/ipc.c`: its retry loop is the Send step of the sieve, which is enabled only when the receiver waits; its out-parameters are the fields of `MessageStays`.
- `trap` as a method on the environment table: its interplay with the scheduler and the lock is in `MultiCpu`; in `IpcMachine` the end of a zombie and the yield after a call are calls of their own.
- EnvVm.EnvSetupVm: stores env_pgdir after filling the directory instead of before; nothing reads it in between.
- CowMachine.Execute: actions do not include sharing a writable page with sys_page_map or IPC, which is visible by design.  Not taken as actions, and so refused: accesses at or above UTOP, accesses to pages mapped without PTE_U, faults with PFTEMP mapped, and faults whose frame does not fit on the exception stack.
- Cow.Fork and Cow.Copy: the page loop of fork and the system calls of pgfault are one action each, though other environments can run between their system calls; fork's own stores to its stack are stores of the program before or after it.
- UserFaults.Fault: what the handler's own stack and a second fault leave on the exception stack is arbitrary; that it fits on the page is assumed, and stack pointers are multiples of four.
- FaultFrames.Machine.PageFault: the exception stack is one page; a program that maps the page below it writable would get frames there.
- Fork.ForkEnv: the bound on free pages that guarantees success is generous (two per page); what a failed fork leaves behind is described by the page at which it stopped.
- Dumbfork.DumbFork: the range of program pages and the stack page are parameters, and UTEMP is unmapped as at program start.
- IpcMachine.Execute: a call is made by a RUNNING environment, and a page is sent or mapped once more only while its 16-bit count has room; stores to memory are left out, because they change no record and no map.
- Fs.FileSystem.GetBlock: is asked for blocks below the end of the file, as by all its callers; past the end the source would leave a block that no later truncation finds.
- FsFlush.EveryImageSafe: speaks of direct and f_indirect pointers in Files of any size; entries inside an indirect block are not covered, because truncation does not write that block.
- FsFiles.FileRead: for regular files; directory blocks are typed as Files and have no bytes here.
- Directory lookup and growth, path walking, `file_create`, the request loop `serv.c`: name handling, and a new directory block is not cleared by the source.
- Bytes of a struct File and of the bitmap words: Files are records and bitmap bits are booleans.
- FsWrite.FileWrite: off_t is unbounded; the source's promise assumes no overflow.  New data blocks hold whatever the disk held, so nothing is said about gaps.
- Memory exhaustion in the file server's own address space: a cache fault always gets its page.
- Sieve.SieveCorrect: integers are unbounded, and a failed fork stops its stage; that every stage is reached is not claimed, only that the chain never stands still (Sieve.NeverStuck).
- FaultFrames.Machine.Work: stands for any handler that keeps its stack on the exception stack below its frame and leaves active frames alone; stack pointers are multiples of four.
- StabSearch.StabBinsearch: the number of entries is below 2^32.
- MultiCpu.Safety: instruction-level memory ordering is not modelled; the exchange is one step.
- NENV, NDIRECT, NINDIRECT and the page size are the source's constants; the number of CPUs, pages and blocks is arbitrary.

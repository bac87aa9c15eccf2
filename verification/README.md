# The JOS kernel, modelled and proved in Dafny

JOS is a teaching kernel for x86 with its user library. This project models its most intricate
parts, mostly as of lab 4, and proves what they keep over every input, every run and every
interleaving:

- **Memory** (`PhysicalMemory`, `PageTables`, `Lab4Paging`, `AddressSpaces`, `Pmap`, `Tlb`,
  `PageSyscalls`, `KernelPages`, `PageContents`, `FreeListSplit`). Physical memory is one flat array of words in
  which page directories and page tables live beside ordinary pages. The invariant says that
  reference counts are exact, that the free list is disjoint from everything reachable, and that no
  page table is mapped as data. On top of it the two-level tables are a finite map. `Pmap` is the
  code itself, on arrays and links; `Tlb` adds a processor that may cache translations between any
  two writes (Intel SDM volume 3A, section 4.10.4); `PageSyscalls` adds the system calls and their
  argument checks, `KernelPages` runs of them, and `PageContents` what the pages hold meanwhile.
  `Words` is bitwise or, `Layout` the constants of the headers.
- **Environments** (`Scheduler`, `Machine`, `KernelEntry`, `RoundRobin`, `EnvIds`). Any number of
  CPUs take user steps, spin on the kernel lock, and work under it. NENV and NCPU are parameters;
  cpunum() is the acting CPU.
- **Messages** (`Ipc`, `Sieve`). The mailbox protocol with the library calls around it, and the
  prime sieve of processes on top.
- **Fork** (`CowFork`, `ForkProgress`, `FaultStack`). Copy-on-write fork against eager copying, what
  its loop has given the child at each moment, and the stack of nested user page faults.
- **Text** (`Numerals`, `Printf`, `StabSearch`). The formatter and its buffer, the number parser,
  and the binary search in the debugging tables.

Code that assigns to fields, arrays and links is a class or a method with loops here, proved equal to
a function of the old state; theorems are about those functions. Concurrent code is a step relation,
and its theorems are about lists of steps.

Where the code does less than its comments say, the model keeps the code, and a lemma gives the exact
condition under which the promise holds:

- lab 4's page_remove frees page 0 when the address has a table but no mapping (`Remove4Exact`).
- sys_page_alloc looks at two bits of perm only, and higher bits can turn the entry to another page
  (`EntryNamesExact`, `AllocMapsAnother`); it accepts va == UTOP, where it overwrites an entry of the
  kernel's (`AllocAtUtop`, `SysPageAllocExact`).
- sys_page_map takes page 0 for an unmapped source (`UnmappedSourceExact`).
- pp_ref has 16 bits (`InsertCorrect`, `FillWraps`).
- lab 3's re-insertion invalidates the TLB entry before it rewrites the entry (`Reinsert3Exact`).
- A second env_destroy of a dying environment, or a status set from outside, can put one environment
  on two CPUs (`BodyExact`, `SecondDestroyRunsTwice`, `SetStatusRunsTwice`, `WokenReceiverRunsTwice`).
- "A zombie environment will be freed the next time it traps" holds for traps only; system calls
  enter by a path without the test (`ZombieCollected`).
- A receiver woken by sys_env_set_status returns a message nobody sent (`WokenReadsStale`), and
  ipc_recv's permission can be nonzero without a page (`PermExact`, `PermWithoutPage`).
- pgfault's test accepts any mapped page (`TestExact`), so a read-only page comes out writable
  (`ReadOnlyGivenAway`, `HandledExact`), and it leaves PFTEMP aliased to the page it has just handled
  (`PftempStoreExact`).
- user_mem_check wraps at the top of the address space, and refuses an empty range that starts inside
  an unmapped page (`MemCheckExact`, `MemCheckWraps`, `EmptyRangeRefused`).
- The kernel knows a nested fault by esp alone, and can put a frame onto a pending one
  (`OffStackOverwrites`).
- stab_binsearch takes an entry at addr + 1 for a second exact match (`SearchExact`); debuginfo_eip
  takes a file's own entry for a function (`FunctionTestExact`, `FileTakenForFunction`), and leaves
  the table at its start (`LeavesTableExact`, `LeavesTable`).
- Padding with '-' puts dashes before a number (`RoundTripExact`), and padding comes between the sign
  and the digits (`SignedReadsBack`); a 0 that starts a precision is read as a flag
  (`PrecisionExact`, `NoZeroPrecision`).

## Model

| member | source | states |
|---|---|---|
| `PhysicalMemory.PteStore` | lab3/kern/pmap.c:535-557 | a store through the entry of one (directory, va) changes that mapping and no other, although every page table lies in the same flat memory |
| `PhysicalMemory.DataStore` | lab4/inc/memlayout.h:175-191 | a store into a page that is neither a directory nor a table changes no mapping and keeps every count exact |
| `PhysicalMemory.LiveCounted` | lab3/kern/pmap.c:412-430 | whatever an entry or a root points at has a positive count and is not on the free list |
| `PhysicalMemory.FreeUnreferenced` | lab3/kern/pmap.c:322-336 | no directory, table entry or root points at a page on the free list, so page_alloc hands out unreferenced memory |
| `PageTables.RemoveCorrect` | lab3/kern/pmap.c:600-613 | page_remove takes exactly the named key out of the map, disturbs no other reference, and keeps counts, free list and tables in order |
| `PageTables.RemoveParts` | lab3/kern/pmap.c:600-613 | removing a mapping lowers the page's count by one and puts it at the head of the free list exactly if that was the last reference |
| `PageTables.WalkCreateCorrect` | lab3/kern/pmap.c:455-482 | pgdir_walk with create adds a table but no mapping; it fails exactly when there is neither a table nor a free page, and then changes nothing |
| `PageTables.InsertCorrect` | lab3/kern/pmap.c:536-557 | page_insert updates exactly the named key; a failed insert leaves map, counts and free list alone; counts stay exact if and only if the 16-bit count does not wrap |
| `PageTables.InsertRights` | lab3/kern/pmap.c:536-557 | the mapping page_insert leaves names the page, is present, and has in its low 12 bits exactly the permissions asked for |
| `PageTables.NewTableRights` | lab3/kern/pmap.c:455-482 | the directory entry of a new table is writable and open to the user, so that rights are decided by the entries in the table |
| `PageTables.FillWraps` | lab4/inc/memlayout.h:185-190 | the mapping that wraps pp_ref to 0 leaves 65536 references on a count of 0 |
| `PageTables.WalkInsertable` | lab3/kern/pmap.c:536-557 | creating the table cannot consume the page that is being inserted |
| `Lab4Paging.RemoveAgree` | lab4/kern/pmap.c:596-635 | lab4 page_remove equals the one of lab3 wherever the address is mapped or has no table |
| `Lab4Paging.Remove4Exact` | lab4/kern/pmap.c:596-635 | without the present-bit test page_remove keeps the invariant if and only if the address is mapped or has no table; otherwise page 0 goes onto the free list |
| `Lab4Paging.InsertAgree` | lab4/kern/pmap.c:563-582 | removing first and pulling the page back off the list head gives the same memory, counts, free list and result as decrementing in place, for any page not free |
| `Lab4Paging.Insert4Correct` | lab4/kern/pmap.c:563-582 | lab4 page_insert implements the same map update, with the same failure case and the same exact condition on the count |
| `Lab4Paging.Insert4Rights` | lab4/kern/pmap.c:563-582 | so does lab4 page_insert |
| `Lab4Paging.EntryPermissions` | lab4/kern/pmap.c:563-582 | for any 32-bit perm the stored word has its low 12 bits, PTE_P apart, and so its W and U |
| `Lab4Paging.SysPageAllocCorrect` | lab4/kern/syscall.c:174-203 | sys_page_alloc writes its entry, with the permissions of perm, under exactly its own key, or fails with -E_NO_MEM and gives the page back; it succeeds exactly when enough free pages exist; it maps the page it has allocated, and counts stay exact, if and only if the bits of perm above the low 12 are set in that page's number already |
| `Lab4Paging.EntryNamesExact` | lab4/kern/pmap.c:563-582 | the word page_insert stores for a page names that page if and only if every bit of perm above the low 12 is set in the page's number |
| `Lab4Paging.EntryAlwaysNames` | lab4/kern/pmap.c:563-582 | permissions for which it names every page rightly are exactly those below 4096 |
| `Lab4Paging.AllocMapsAnother` | lab4/kern/syscall.c:174-203 | allocating page 1 with bit 13 of perm set succeeds, maps page 3, and breaks the invariant |
| `Lab4Paging.AllocAtUtop` | lab4/kern/syscall.c:185-203 | at va == UTOP a call succeeds whenever a page is free, maps nothing for the environment, overwrites the kernel's shared entry for envs[], and breaks the invariant |
| `Lab4Paging.AllocKeeps` | lab3/kern/pmap.c:322-336 | a page just allocated is zero, referenced by nobody, and may be inserted anywhere |
| `AddressSpaces.SetupVmCorrect` | lab4/kern/env.c:170-207 | env_setup_vm adds a root with an empty user part, changes nobody else's mappings, and fails exactly without free pages; above UTOP it has the kernel directory's entries, but for the one at UVPT, which lets the user read the new directory itself and not write it |
| `AddressSpaces.ClearPtesCorrect` | lab4/kern/env.c:449-453 | the inner loop of env_free unmaps exactly the first n entries of one table |
| `AddressSpaces.DropTable` | lab4/kern/env.c:455-458 | an emptied table can be dropped: its page is released and no mapping goes with it |
| `AddressSpaces.FreeTablesCorrect` | lab4/kern/env.c:437-459 | after n turns of the outer loop the first n tables are gone and everything else stands |
| `AddressSpaces.FreeVmCorrect` | lab4/kern/env.c:422-469 | env_free releases every page, table and directory that only this environment referenced, once each, leaves all other mappings alone, and lowers each count by exactly this environment's share |
| `PageSyscalls.SysPageMapCorrect` | lab4/kern/syscall.c:222-266 | with a mapped source the destination alone gets the source page under the requested permissions; a read-only page never becomes writable; failures have no effect |
| `PageSyscalls.SysPageMapRights` | lab4/kern/syscall.c:222-266 | the destination maps the source page with the rights asked for, and may be written only if the source may |
| `PageSyscalls.SysPageMapErrors` | lab4/kern/syscall.c:222-266 | -E_INVAL is the answer exactly for a bad address, bad permissions, a source without a table, or write permission asked of a page without it; no refused or failed call has an effect |
| `PageSyscalls.SysPageUnmapErrors` | lab4/kern/syscall.c:268-291 | an address that is no page below UTOP is refused, without effect, and nothing else is |
| `PageSyscalls.UnmappedSourceExact` | lab4/kern/syscall.c:205-266 | an unmapped source is refused, as documented, if and only if it has no table or write permission is asked for; otherwise, memory for a table permitting, page 0 is mapped in its place and the invariant is broken |
| `PageSyscalls.SysPageAllocExact` | lab4/kern/syscall.c:157-203 | a call is refused as its comment promises if and only if the address is not UTOP and no bit outside PTE_SYSCALL is set, failed checks apart; one that succeeds has mapped its own page in good order if and only if the address is below UTOP and the high bits of perm lie within the page's number |
| `PageSyscalls.SysPageUnmapExact` | lab4/kern/syscall.c:268-291 | sys_page_unmap removes exactly the key and keeps the invariant if and only if the address is mapped or has no table |
| `PageSyscalls.MapUnmap` | lab4/kern/syscall.c:222-291 | mapping a page at an unmapped address and unmapping it again restores memory, counts and free list |
| `PageSyscalls.AllocPage` | lab4/kern/syscall.c:173-203 | the argument checks in order, for any 32-bit perm and any address, the allocation, and the page given back when no table can be had |
| `PageSyscalls.MapPage` | lab4/kern/syscall.c:222-266 | the checks of sys_page_map in order, the source lookup, the write-permission test and the insertion |
| `PageSyscalls.UnmapPage` | lab4/kern/syscall.c:275-291 | the checks of sys_page_unmap and the removal |
| `KernelPages.StepExact` | lab4/kern/syscall.c:173-291 | each call on pages, env_setup_vm, env_free and each store of a program keeps the invariant together with page 0 reserved and envs[] mapped, if and only if it meets a condition read off the tables before the call |
| `KernelPages.RunGood` | lab4/kern/syscall.c:173-291 | so does every run of calls that meet their conditions |
| `KernelPages.SetupVmFacts` | lab4/kern/env.c:170-207 | a new directory has envs[] mapped at UTOP because the kernel's has |
| `PageContents.StepContents` | lab4/kern/syscall.c:173-291 | no call, env_setup_vm or env_free of anyone changes a word of a page that is mapped when it starts |
| `PageContents.RunContents` | lab4/kern/syscall.c:173-291 | a page that stays mapped holds at the end of any run of calls exactly what the stores of programs have made of it |
| `PageContents.AllocatedZero` | lab4/kern/syscall.c:174-203 | the page that sys_page_alloc has mapped is full of zeros |
| `Pmap.AddressOf` | lab4/inc/mmu.h:24-57 | PDX, PTX and the offset make up the address again, so page-aligned addresses with the same PDX and PTX are the same |
| `Pmap.Pmap.PageInit` | lab4/kern/pmap.c:295-355 | the two loops build an acyclic list of exactly the unreserved pages in ascending order, all counts 0, and establish the invariant |
| `Pmap.ChainPush` | lab4/kern/pmap.c:451-456 | linking a page in front of a NULL-terminated list without repetition gives such a list again |
| `Pmap.ChainPop` | lab4/kern/pmap.c:366-381 | following the head link of such a list leaves such a list |
| `Pmap.Pmap.PageAlloc` | lab4/kern/pmap.c:366-381 | the in-place list operation takes the head off and zeroes the page, as the specification says, and NULL means an empty list |
| `Pmap.Pmap.PageFree` | lab4/kern/pmap.c:451-456 | the page becomes the new head of the linked list |
| `Pmap.Pmap.PageDecref` | lab4/kern/pmap.c:463-467 | the 16-bit decrement, with the page freed exactly when it reaches 0 |
| `Pmap.Pmap.PgdirWalk` | lab3/kern/pmap.c:455-482 | the returned address is the entry for va inside the table the directory names, and memory changes as the specification says |
| `Pmap.Pmap.PageLookup` | lab3/kern/pmap.c:571-582 | finds exactly the page mapped at va, and its entry, without changing anything |
| `Pmap.Pmap.PageRemove` | lab3/kern/pmap.c:600-613 | array and list stores of page_remove compute the specified state |
| `Pmap.Pmap.PageRemove4` | lab4/kern/pmap.c:624-635 | the same for lab4, whether or not the address is mapped |
| `Pmap.Pmap.PageInsert` | lab3/kern/pmap.c:536-557 | array and list stores of page_insert compute the specified state and result |
| `Pmap.Pmap.PageInsert4` | lab4/kern/pmap.c:563-582 | the same for lab4, with the two walks, the pull-back, and any 32-bit perm |
| `Pmap.Pmap.EnvSetupVm` | lab4/kern/env.c:170-207 | the copy of the kernel directory and the UVPT entry, in place, reach the specified state |
| `Pmap.Pmap.EnvFree` | lab4/kern/env.c:422-469 | the nested unmapping loops, run in place, reach the specified state and keep the list linked |
| `FreeListSplit.SplitFreeList` | lab4/kern/pmap.c:759-772 | the pointer-to-pointer pass leaves a NULL-terminated acyclic list of the low pages and then the high pages, each in the old order, also when a half is empty |
| `FreeListSplit.SelectPartition` | lab4/kern/pmap.c:759-772 | low and high pages together are the old list, each page as often as before |
| `Tlb.FillAgrees` | lab4/kern/pmap.c:637-647 | fills and evictions by the processor never introduce a stale translation |
| `Tlb.RemoveRunAgrees` | lab4/kern/pmap.c:624-647 | page_remove carried out write by write, with fills in between, leaves no stale translation |
| `Tlb.InsertRunAgrees` | lab4/kern/pmap.c:563-647 | so does page_insert, including one that only lowers permissions as duppage does |
| `Tlb.Reinsert3Exact` | lab3/kern/pmap.c:536-557 | lab3 invalidates before it stores: every run ends in agreement if and only if the directory is not loaded or the entry keeps its value |
| `Tlb.FreeRunAgrees` | lab4/kern/env.c:422-469 | env_free with its switch to kern_pgdir, carried out write by write down to the single entries with fills in between, leaves no stale translation |
| `Tlb.RunGood` | lab4/kern/env.c:525-557 | over every run of kernel operations, fills, user stores and context switches, cached user translations agree with the loaded tables, the paging invariant holds, and the directory loaded is that of the current environment |
| `Scheduler.SchedPick` | lab4/kern/sched.c:9-71 | the choice is the circularly first runnable non-idle environment after the current one, else the running current one, else this CPU's idle environment, or the monitor when nothing is left |
| `Scheduler.PickUnique` | lab4/kern/sched.c:9-71 | that description leaves one choice only |
| `Scheduler.Search` | lab4/kern/sched.c:42-48 | the search finds an eligible slot whenever one exists, and none that lies circularly nearer is eligible |
| `Scheduler.Kernel.SearchRunnable` | lab4/kern/sched.c:36-48 | the do-while scan with its wrap-around visits every slot once and computes the search |
| `Scheduler.Kernel.SchedYield` | lab4/kern/sched.c:9-71 | the loops and the following env_run switch to the environment described, or change nothing when they give up |
| `Scheduler.Kernel.RunEnv` | lab4/kern/env.c:525-557 | the assignments of env_run demote the old current environment only if it was running, and promote the new one |
| `Scheduler.EnvRunEffect` | lab4/kern/env.c:525-557 | env_run leaves its environment RUNNING and current here, the one that was running before RUNNABLE, and all others, and every recving flag, as they were |
| `Scheduler.Kernel.Destroy` | lab4/kern/env.c:477-493 | env_destroy marks an environment running elsewhere and frees any other at once |
| `Machine.LockFree` | lab4/kern/env.c:476-557 | whenever the lock is free nothing is current on two CPUs, every current environment is RUNNING or DYING, and idle environment i is current on CPU i only |
| `Machine.StepKeeps` | lab4/kern/trap.c:303-356 | each harmless step of any CPU, in user mode, at the exchange or under the lock, keeps the invariant, mutual exclusion included |
| `Machine.XchgKeeps` | lab4/kern/spinlock.c:62-80 | an attempt at the exchange, whoever makes it, keeps at most one CPU past the lock and the lock word in agreement |
| `Machine.LeaveKeeps` | lab4/kern/spinlock.c:84-121 | releasing the lock leaves an environment that is RUNNING or DYING on the CPU |
| `Machine.PickMayRun` | lab4/kern/sched.c:9-71 | the environment sched_yield chooses is current on no other CPU |
| `Machine.EnvRunOk` | lab4/kern/env.c:525-557 | env_run disturbs no other CPU and leaves its environment RUNNING |
| `Machine.SwitchLosesNobody` | lab4/kern/env.c:525-557 | a CPU that switches leaves the environment it ran eligible, and everybody else that may run goes on waiting or running |
| `Machine.CallEffect` | lab4/kern/syscall.c:424-484 | what each system call does to which environment, that all others stay as they are, and that exactly sys_yield, sys_ipc_recv and destroying oneself lead to sched_yield |
| `Machine.TrapEffect` | lab4/kern/trap.c:303-356 | a trap frees a zombie or a faulty environment and reschedules; a timer reschedules with the environment still RUNNING; any other trap resumes it; nobody else is touched |
| `Machine.CalledOk` | lab4/kern/syscall.c:424-501 | every system call leaves a resumable or schedulable state, for all targets that the two conditions admit |
| `Machine.TrappedOk` | lab4/kern/trap.c:303-356 | so does every trap, zombie collection included |
| `Machine.RunSafe` | lab4/kern/trap.c:303-356 | every interleaving of harmless steps keeps the invariant |
| `Machine.BootSafe` | lab4/kern/init.c:68-148 | from the state i386_init and mp_main set up, every such interleaving is safe and no CPU panics for want of an idle environment |
| `Machine.BodyExact` | lab4/kern/syscall.c:47-134 | serving a request keeps the invariant if and only if it is no second destruction of an environment dying elsewhere, no status change that takes a current environment out of RUNNING and DYING, and none that makes a receiver RUNNABLE |
| `Machine.SecondDestroyRunsTwice` | lab4/kern/env.c:477-493 | a run in which an environment destroyed twice by its parent ends up current on both CPUs |
| `Machine.SetStatusRunsTwice` | lab4/kern/syscall.c:118-134 | a run in which an environment sets its own status to RUNNABLE and ends up current on both CPUs |
| `Machine.WokenReceiverRunsTwice` | lab4/kern/syscall.c:118-134 | a run in which a receiver made RUNNABLE from outside is scheduled, then receives, and ends up current on both CPUs |
| `Machine.ZombieCollected` | lab4/kern/syscall.c:487-501 | a zombie entering the kernel is freed if and only if it traps, or its own call destroys it or declares it free: system calls lack the test that traps make |
| `KernelEntry.Trap` | lab4/kern/trap.c:303-356 | trap(), run to the end, collects a zombie first, dispatches, and resumes the environment only if it is still running |
| `KernelEntry.SyscallDummy` | lab4/kern/syscall.c:487-501 | syscall_dummy(), run to the end, serves each call on the tables and resumes its caller whatever the status, or reschedules |
| `KernelEntry.EnteredIsRun` | lab4/kern/trap.c:303-356 | what those two do in one go is what the machine does in a row of locked steps |
| `RoundRobin.YieldCloser` | lab4/kern/sched.c:36-48 | a yield that does not pick a waiting environment brings the CPU strictly closer to it |
| `RoundRobin.OtherStepSame` | lab4/kern/sched.c:36-48 | no step of any other kind, on any CPU, changes that distance |
| `RoundRobin.BoundedWaiting` | lab4/kern/sched.c:36-48 | an environment that stays RUNNABLE is picked within NENV - 1 yields of any CPU whose current environment never becomes NULL |
| `RoundRobin.PreemptedReady` | lab4/kern/env.c:525-557 | a running environment whose CPU has switched to another is RUNNABLE and in the race again |
| `RoundRobin.PreemptedComesBack` | lab4/kern/sched.c:36-48 | it gets a CPU back within NENV - 1 yields, as long as it is not stopped meanwhile |
| `EnvIds.NextIdAfter` | lab4/kern/env.c:231-235 | the id arithmetic, with its 32-bit wrap, steps through generations 1 to 2^19 - 1 and starts over |
| `EnvIds.IdShape` | lab4/kern/env.c:231-235 | ids are positive, fit 32 bits and carry their slot in the low ten bits |
| `EnvIds.IdsAgree` | lab4/inc/env.h:12-30 | two ids agree exactly for the same slot at a multiple of the period |
| `EnvIds.EnvAllocOk` | lab4/kern/env.c:217-280 | env_alloc takes the first free slot and issues its next id, or changes nothing and says which of slots and memory has run out |
| `EnvIds.AllocParent` | lab4/kern/env.c:217-280 | the new environment is RUNNABLE and has the parent named; everybody else keeps status, id and parent |
| `EnvIds.ParentMay` | lab4/kern/env.c:75-109 | of the environments in use exactly the one that has just made a child, and the child, may manage the child |
| `EnvIds.FreeSlotExact` | lab4/kern/env.c:465-468 | the free list stays exact under env_free if and only if the environment was in use: freeing it twice makes a ring |
| `EnvIds.StatusStoreExact` | lab4/kern/syscall.c:127-133 | a status stored from outside keeps the list exact if and only if it does not enter or leave ENV_FREE |
| `EnvIds.RunGood` | lab4/kern/env.c:111-137 | env_free_list holds exactly the ENV_FREE slots, each once, after every run |
| `EnvIds.LiveDistinct` | lab4/kern/env.c:231-235 | ids of environments in use are positive and pairwise distinct |
| `EnvIds.StaleExact` | lab4/kern/env.c:75-109 | after any run envid2env accepts an old id exactly if its slot is in use and was reallocated a multiple of 2^19 - 1 times |
| `EnvIds.StaleRejected` | lab4/kern/env.c:75-109 | a stale id is rejected until its slot has been reallocated 2^19 - 1 times |
| `EnvIds.EnvTable.EnvInit` | lab4/kern/env.c:117-137 | both loops leave all slots free, id 0, and listed in order from slot 0 |
| `EnvIds.EnvTable.Allocate` | lab4/kern/env.c:217-280 | the assignments of env_alloc compute the specified table and result |
| `EnvIds.EnvTable.Release` | lab4/kern/env.c:465-468 | the slot becomes the new head of the linked list |
| `EnvIds.FindExact` | lab4/kern/env.c:75-109 | an environment is found for a nonzero id if and only if it is in use, has that id, and no check is asked for or it is the caller or a child of the caller |
| `EnvIds.EnvTable.Find` | lab4/kern/env.c:75-109 | the checks of envid2env in order find exactly that environment; id 0 is the caller |
| `Ipc.StepExact` | lab4/kern/syscall.c:332-420 | a step keeps the mailbox discipline if and only if it does not wake a blocked receiver from outside |
| `Ipc.ExactlyOnce` | lab4/lib/ipc.c:22-79 | under every schedule what ipc_recv has returned is exactly what was successfully sent, in order, up to one message not yet read out; `ReceivedAsSent` says what was sent |
| `Ipc.ReceivedAsSent` | lab4/lib/ipc.c:22-79 | under every schedule each message ipc_recv returns carries the value its sender passed and the id of that sender, in the order of the successful sends |
| `Ipc.DeliveredIsRead` | lab4/kern/syscall.c:332-420 | after a successful send the receiver can go on, and its three reads give exactly that message |
| `Ipc.SendErrorExact` | lab4/kern/syscall.c:332-389 | which error answers which arguments, -E_IPC_NOT_RECV, on which ipc_send tries again, included |
| `Ipc.NoOverwrite` | lab4/kern/syscall.c:332-389 | a send succeeds only when every earlier message has been returned, so nothing is overwritten before it is read |
| `Ipc.PermExact` | lab4/kern/syscall.c:376-384 | a send without a page stores permission 0 if and only if the receiver gave no address or the sender passed 0 |
| `Ipc.PermWithoutPage` | lab4/kern/syscall.c:376-384 | a receiver that waits for a page reads permission 7 from a send that carries none |
| `Ipc.WokenReadsStale` | lab4/kern/syscall.c:118-134 | a receiver woken by sys_env_set_status returns a message nobody sent |
| `Ipc.Kernel.SysIpcRecv` | lab4/kern/syscall.c:403-420 | a misaligned address below UTOP is refused without effect; otherwise the stores of sys_ipc_recv, in order, put the caller to wait |
| `Ipc.Kernel.SysIpcTrySend` | lab4/kern/syscall.c:332-389 | the checks of sys_ipc_try_send in order, those of a page included; it delivers exactly when all pass, and otherwise changes nothing |
| `Sieve.NextPrime` | lab4/user/primes.c:30-35 | the first number that none of the first k primes divides is the next prime |
| `Sieve.SiftSurvivors` | lab4/user/primes.c:30-35 | filtering once more gives the numbers undivided by one more prime, in order |
| `Sieve.NextKeeps` | lab4/user/primes.c:13-52 | each small step of any process keeps each stage's output the filtered input, also when a fork or a send fails |
| `Sieve.Stream` | lab4/user/primes.c:13-52 | in every reachable state the stream into a stage is the numbers from 2 up undivided by the primes before it |
| `Sieve.SieveCorrect` | lab4/user/primes.c:13-52 | under every schedule the stream into stage k is the integers that none of the first k - 1 primes divides, in increasing order, and stage k has fetched the k-th prime |
| `CowFork.StepRefines` | lab4/lib/fork.c:14-172 | every step of fork, page faults and user stores keeps the frame discipline and is matched by eager copying |
| `CowFork.ForkRefinesEagerCopy` | lab4/lib/fork.c:14-172 | for every interleaving the eager machine has a run in which each running environment sees the same contents on every page but PFTEMP |
| `CowFork.StartOk` | lab4/lib/fork.c:139-172 | an environment with distinct frames satisfies the discipline to begin with |
| `CowFork.Unshared` | lab4/lib/fork.c:97-117 | the frame of a writable page is mapped at no other page of anyone, PFTEMPs and the one page being duplicated apart |
| `CowFork.FaultStepOk` | lab4/lib/fork.c:48-61 | the four calls of pgfault change no environment's view |
| `CowFork.ForkStepMatch` | lab4/lib/fork.c:75-120 | each step of duppage shows the child the contents the parent has at that moment |
| `CowFork.PftempStoreExact` | lab4/lib/fork.c:58-61 | a store through PFTEMP agrees with eager copying if and only if it changes nothing or no page shares its frame |
| `CowFork.FaultLeavesAlias` | lab4/lib/fork.c:58-61 | pgfault always leaves such a shared frame behind |
| `CowFork.TestExact` | lab4/lib/fork.c:21-47 | pgfault goes on where its comment asks for a panic if and only if the page is mapped and is not a copy-on-write page being written; it never panics on one that is |
| `CowFork.ReadOnlyGivenAway` | lab4/lib/fork.c:21-61 | a store to a read-only page passes the test, and the page comes out writable |
| `CowFork.HandledExact` | lab4/lib/fork.c:48-61 | the handled page is alone on its frame but for PFTEMP, keeps its contents unless it is PFTEMP, all other views stay, and it gains rights if and only if it was read-only |
| `CowFork.FaultStepsHandle` | lab4/lib/fork.c:48-61 | the four steps of a fault in a row have that same effect |
| `CowFork.Memories.Pgfault` | lab4/lib/fork.c:14-62 | panics without effect exactly on an unmapped page; on any other, whatever its permission and the kind of access, it reaches the handled state |
| `CowFork.Memories.Duppage` | lab4/lib/fork.c:75-120 | an unmapped page is skipped, a read-only page shared, any other made copy-on-write in the child first and then in the parent |
| `CowFork.Memories.CopyPages` | lab4/lib/fork.c:156-163 | uninterrupted, the loop and the allocation after it give the child every page with the same contents and its own exception stack, and what was writable is copy-on-write in both |
| `CowFork.Memories.Fork` | lab4/lib/fork.c:139-172 | fork as a whole, uninterrupted: the handler set up on first use, the child made, filled, given its handler and started; both see below the exception stack what the parent saw |
| `ForkProgress.PagesBehind` | lab4/lib/fork.c:156-163 | in every state of every run, whatever runs in between, the pages that the loop of fork has passed are in the child exactly if they are in the parent, read-only exactly if they are so there, and otherwise copy-on-write |
| `ForkProgress.ChildComplete` | lab4/lib/fork.c:139-172 | when fork starts the child it has a handler, an exception stack of its own, and exactly the pages of the parent below that, PFTEMP apart |
| `ForkProgress.ForkStepsDuplicate` | lab4/lib/fork.c:75-120 | the small steps of one page in a row are what duppage does uninterrupted |
| `CowFork.Memories.DumbDuppage` | lab4/user/dumbfork.c:25-38 | the child gets a frame of its own with the parent's contents, and the parent loses UTEMP only |
| `CowFork.Memories.DumbCopy` | lab4/user/dumbfork.c:65-69 | the eager loop gives the child equal contents on all pages, in frames of their own |
| `FaultStack.UserMemCheck` | lab4/kern/pmap.c:670-721 | the loop answers for every page from va's up to the rounded 32-bit bound, and reports the first erroneous address |
| `FaultStack.MemCheckExact` | lab4/kern/pmap.c:670-721 | that answer is right for the range if and only if, for no bytes, va starts a page or lies in the last one or its page passes, and for some bytes va + len stays out of the last page, or the wrapped bound lies above va and va's own page fails |
| `FaultStack.EmptyRangeRefused` | lab4/kern/pmap.c:670-721 | no bytes at 0x1001 are refused when nothing is mapped |
| `FaultStack.MemCheckWraps` | lab4/kern/pmap.c:670-721 | with nothing mapped the range of one byte at 0xfffff000 passes |
| `FaultStack.FrameFields` | lab4/kern/trap.c:410-445 | every field of the frame lies at its struct offset with the trap-time value, and nothing outside the frame changes |
| `FaultStack.SavedOffsets` | lab4/inc/trap.h:77-87 | the saved registers, eip, eflags and esp are found at offsets 8 to 48, where struct UTrapframe has them |
| `FaultStack.PageFaultHandler` | lab4/kern/trap.c:360-451 | the decrementing stores write exactly the frame, or the environment is destroyed with memory untouched |
| `FaultStack.PushExact` | lab4/kern/trap.c:410-425 | with the page below unmapped a frame is pushed if and only if it fits on the exception page |
| `FaultStack.FramesDisjoint` | lab4/kern/trap.c:413-425 | pending frames are disjoint, inside the exception page, with a free word above each nested one |
| `FaultStack.ReturnRestores` | lab4/lib/pfentry.S:62-93 | returning through the top frame restores the faulting state and leaves the other frames intact |
| `FaultStack.ReturnExact` | lab4/lib/pfentry.S:62-93 | the return can be made exactly while the word below the trap-time esp may be written, and never for an esp below 4 or above the exception page |
| `FaultStack.RunKeeps` | lab4/kern/trap.c:360-451 | faults at any esp and returns, to any depth and under changing page tables, keep the stack of frames |
| `FaultStack.LastInFirstOut` | lab4/kern/trap.c:360-451 | whatever faults come in between, a fault's return restores the state in which it was taken |
| `FaultStack.OffStackOverwrites` | lab4/kern/trap.c:413-425 | a further fault's frame shares bytes with the outermost one if and only if esp has left the exception page or lies in its last 47 bytes or at its upper end; it lands on the same place exactly in the first case |
| `StabSearch.Next` | lab4/kern/kdebug.c:66-92 | each pass of the main loop lowers the pair (width of the window, exact match pending), although a match may leave the window as it is |
| `StabSearch.StabBinsearch` | lab4/kern/kdebug.c:59-103 | the nested loops and the closing scan terminate and leave the region that the search function describes, for any table and any window |
| `StabSearch.SearchBrackets` | lab4/kern/kdebug.c:59-103 | on a sorted unambiguous range the result runs from the last entry at or below the address to just before the next one |
| `StabSearch.SearchExact` | lab4/kern/kdebug.c:59-103 | every part of the table is bracketed if and only if the table does not hold the address together with its successor, or the address is 0xfffffffe and the two entries are neighbours |
| `StabSearch.TwinsMislead` | lab4/kern/kdebug.c:84-90 | with entries at addr and addr + 1 the search returns the second one |
| `StabSearch.DebugInfo` | lab4/kern/kdebug.c:171-182 | for any table: gives up if the first search ends at entry 0, leaves the table if it ends before it, and otherwise returns that region and, searched inside it, the function's; in an ordered unambiguous table both are brackets |
| `StabSearch.LeavesTable` | lab4/kern/kdebug.c:171-182 | a table that starts with a file entry above the address makes the lookup go on at stabs[-1] |
| `StabSearch.LeavesTableExact` | lab4/kern/kdebug.c:171-182 | in a sorted table the lookup leaves it if and only if entry 0 is a file entry above the address, or both are the largest address and no other file entry lies in the first half |
| `StabSearch.FunctionTestExact` | lab4/kern/kdebug.c:184-200 | the test lfun <= rfun says whether a function was found, unless all functions of the file lie above the address |
| `StabSearch.FileTakenForFunction` | lab4/kern/kdebug.c:184-200 | a file whose one function lies above the address passes the test with the file's own entry |
| `Numerals.PaddedLength` | lab4/lib/printfmt.c:37-52 | printnum emits exactly max(width, digit count) characters |
| `Numerals.StrtolRun` | lab4/lib/string.c:243-288 | the loops of strtol compute its value and end pointer, reading no further than the terminating NUL |
| `Numerals.RoundTripExact` | lab4/lib/printfmt.c:37-52 | strtol returns the number printnum was given, below 2^31 and in base 8, 10 or 16, if and only if the padding is not dashes, or there is none, or the number is 0 |
| `Numerals.DashPadding` | lab4/lib/printfmt.c:37-52 | one dash of padding reads back as a minus sign, two or more as the number 0 |
| `Numerals.DigitsValue` | lab4/lib/printfmt.c:37-52 | the digits of a number of any size have its value in the base |
| `Numerals.StrtolReads` | lab4/lib/string.c:243-288 | for text made of blanks, a sign, a prefix the base allows, and digits, strtol gives the value of the digits in 32 bits, negated for a minus sign, and stops just behind them |
| `Printf.SprintBuf.Putch` | lab4/lib/printfmt.c:305-311 | the buffer keeps the first characters that fit and counts all |
| `Printf.SprintBuf.PrintNum` | lab4/lib/printfmt.c:37-52 | the recursion emits padding and digits in order |
| `Printf.SprintBuf.PrintString` | lab4/lib/printfmt.c:177-190 | the three loops of %s emit the padded, truncated, filtered string |
| `Printf.ScanEscape` | lab4/lib/printfmt.c:106-158 | the reswitch loop gathers flags, width and precision and ends at the conversion |
| `Printf.Rewind` | lab4/lib/printfmt.c:279-284 | the rewind loop stops just after the escape's own % |
| `Printf.Vprintfmt` | lab4/lib/printfmt.c:84-287 | vprintfmt terminates, never reads past the NUL, and emits the text the format stands for |
| `Printf.Vsnprintf` | lab4/lib/printfmt.c:313-328 | the buffer ends up with the first min(len, n - 1) characters and a NUL, nothing else is written, and the full length is returned |
| `Printf.FormatPlain` | lab4/lib/printfmt.c:94-98 | text without escapes stands for itself |
| `Printf.FormatUnknown` | lab4/lib/printfmt.c:279-284 | an unrecognised escape is copied verbatim, up to its conversion character and wherever it occurs |
| `Printf.FormatConcat` | lab4/lib/printfmt.c:84-287 | formats compose, the second taking the arguments the first leaves |
| `Printf.StringLength` | lab4/lib/printfmt.c:177-190 | %s emits max(width, characters shown) |
| `Printf.PrecisionExact` | lab4/lib/printfmt.c:106-145 | digits straight after a dot become the precision and nothing else if and only if the first is not 0, or 0 is the padding already and the number is positive or the precision was 0 before |
| `Printf.NoZeroPrecision` | lab4/lib/printfmt.c:106-190 | "%.0s" shows the whole string |
| `Printf.DecimalReadsBack` | lab4/lib/printfmt.c:192-200 | what "%d" writes, strtol reads back, sign included |
| `Printf.SignedReadsBack` | lab4/lib/printfmt.c:192-200 | with a width and padding strtol reads the number back if and only if nothing is padded, or it is at least 0 and not padded with dashes (0 excepted), or it is negative and padded with zeros |
| `Printf.SignedText` | lab4/lib/printfmt.c:192-200 | for all three sizes of argument %d writes a minus sign for a negative number, then padding and decimal digits whose value is its magnitude |
| `Printf.UnsignedText` | lab4/lib/printfmt.c:202-232 | %u, %o and %x write, after the padding, digits of base 10, 8 and 16 whose value is the argument mod 2^32, or mod 2^64 with two l |
| `Printf.UnsignedReadsBack` | lab4/lib/printfmt.c:202-232 | strtol in base 10, 8 and 16 reads a number below 2^31 back from them, with any width, if and only if it is not padded with dashes, or fills the width, or is 0 |
| `Printf.UnsignedFormat` | lab4/lib/printfmt.c:202-232 | "%u", "%o" and "%x" as whole formats read back |
| `Printf.PointerText` | lab4/lib/printfmt.c:219-227 | %p writes 0x, padding, and digits of base 16 whose value is the address; below 2^31 strtol reads them back, with or without the 0x, in base 16 or with the base left open |
| `Printf.StringLayout` | lab4/lib/printfmt.c:177-190 | %s puts the part of the string that the precision lets through flush with one side of the field and fills the other; with # what does not print comes out as ? |
| `Printf.EscapeForm` | lab4/lib/printfmt.c:106-158 | of an escape of flags, width, precision and l, each part is read as what it says: the last padding flag, the values of the digits, the number of l, and # |
| `Printf.StarAsDigits` | lab4/lib/printfmt.c:125-145 | a * stands for the digits of its argument, as width or precision |
| `Printf.ErrorNested` | lab4/lib/printfmt.c:165-174 | %e prints what its nested calls print, "%s" of the text of a known code and "error %d" of any other, whatever the sign |

## Left out

- Console, PIC, LAPIC, RTC, MP table parsing and the boot loader: device plumbing.
- Trap entry, sysenter, iret, MSR and GDT/IDT setup are step boundaries; of the assembly only the
  return path of lib/pfentry.S is modelled.
- page_alloc_4pages, page_free_4pages and the chunk list, which do not keep the free list consistent.
- sys_map_kernel_page, which maps pages outside the reference-count discipline, and boot_map_region,
  which maps only above UTOP.
- region_alloc and load_icode.
- The runs of `Ipc` and `Sieve` carry values only. Ipc.Kernel.SysIpcTrySend makes the checks of a
  page too, with the word that *pte reads and the answer of sys_page_map as parameters.
- sfork, PTE_SHARE, and the %n conversion.
- The kernel monitor, command parsing, debug printing; lab 1, lab 2 and duplicated headers.
- sys_exofork ignores a failed env_alloc and goes on with an uninitialised pointer: a fork step of
  `Machine` needs a free slot.
- Signed overflow in C (a width of more than nine digits, a count beyond 2^31, the sieve's i++ at
  INT_MAX) is undefined and not followed.
- The permission test of envid2env is in `EnvIds`; `Machine` lets every environment act on every
  other that is neither free nor idle, which includes all permitted calls.
- The memmove of pgfault is one step of `CowFork`: the invariant says that nobody else can write
  either frame meanwhile. A panic of the library at any point is the step Die.
- User stores in `CowFork` go to writable or copy-on-write pages other than PFTEMP; what the others
  do is in `PftempStoreExact`, `TestExact` and `HandledExact`.
- Frames are never reused in `CowFork`; reuse and counting are the subject of the memory modules.
- A handler in `FaultStack` is assumed to leave the frames above it alone and to keep esp on the
  exception page; `OffStackOverwrites` says what happens when esp leaves it. At each fault the
  exception page is writable and the page below it unmapped.
- Nested page faults of one handler are in `FaultStack`; in `CowFork` a handler makes stores to
  writable pages, and faults one at a time.
- StabSearch.LeavesTableExact: sorted tables only; `DebugInfo` covers every table.
- StabSearch.SearchExact: for the address 0xfffffffe, where the key can wrap twice, it takes tables
  with at most one entry at 0xffffffff; with several, whether the result is right depends on where
  the midpoints fall. That an unambiguous table is bracketed (`SearchBrackets`) covers these too.
- EnvIds fixes NENV at 1024, since the id arithmetic uses its bits.
- printfmt's sink is the bounded buffer of snprintf; the console's putch is not modelled. Calls that
  C leaves undefined (a missing or mistyped argument) make the text undefined here too.
- The primes program and the library loops of lib/ipc.c are step machines, one step for each system
  call and each read of a mailbox field.

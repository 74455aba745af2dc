# JEOS kernel: verified model

This project models the parts of the JEOS kernel that hold state and arithmetic with hard
invariants, and proves what they promise. The parts stack as they do in the kernel: page tables
take their pages from the buddy allocator, fork and process release work on page tables.

- **Buddy allocator.** `Bits` and `Blocks` are the theory: aligned power-of-two blocks of pages, and
  the canonical decomposition of a free set into its maximal blocks. `BuddySpec` is the contract: a
  step relation over the free pages and the live blocks, and theorems about all its runs.
  `BuddyAllocator` is the code: twelve list heads in an array, lists threaded through the first word
  of each free block, the pointer-to-pointer unlink, XOR of virtual addresses, splitting, merging.
  Every method is proved to perform its step of `BuddySpec` and to keep the lists canonical.
  `BuddySizes` says the same in plain numbers of pages.
- **Page tables.** `PageTree` defines walks, the pages a tree owns, the ownership invariant that no
  page is reached by two paths, and what user mode may do at an address: the processor ANDs bits 1 and 2
  over all four entries of a walk. `PageTables` is map_page_pml4. `UserImage` says what it means that
  page tables stand for a flat map of pages, how many tables that takes, and what mapping one page more
  does. On it rest `CopySpace`, the deep copy for fork, and the ELF loader. `AddressSpaces` is create and
  release, and the round trip of fork down to the allocator.
- **Processes and proc_lock.** `Sched` is a step relation with one program point per CPU. acquire and
  release are taken apart into their single reads and writes; a timer interrupt may land wherever
  interrupts are on. `SchedSafety` is the invariant, `SchedRuns` the safety theorems over all runs,
  `SchedHistory` the theorems about process identifiers and wait. `SchedCalls` says what fork, wait and
  creation promise over every run, `SchedTurns` what the scheduler does, `SchedThreads` what a process may
  rely on across switches and interrupts.
- **Open files.** `Files` is the table of descriptors of all processes and the reference counts.
- **ELF loading.** `Elf` is the flat image a file asks for; `WordBytes` pages as bytes and as words;
  `ElfLoad` the loader on the allocator and the page tables, and the undoing of a failed load. `ElfFile`
  starts from the other end: the bytes of a file whose headers were written field by field, and what the
  loaded program reads at every address. `LittleEndian` is packed structures, written and read back.
- **ext2 and block devices.** `Ext2Map` is the block map against a recursive tree walk, `Ext2File` the read
  loop with its cached block against the file byte by byte, `Ext2Dir` lookup and readdir against the
  list of live records, `BlkDev` unaligned access to a disk of sectors against a flat byte array.
  `Ext2Layout` is the format as a writer lays it out, and that it is read back. `Arith` and `Flattening`
  hold what they share.
- **Paths, mounts, pipes.** `Vfs` is path splitting, against paths spelled out from names and slashes,
  walking, the parent walk and mounting; `Pipe` the ring
  with 32-bit cursors under any interleaving of readers and writers.

Modelling choices a reader should know:

- Memory is a sequence of pages of 512 words, indexed by physical page. The allocator works on the
  direct-map virtual addresses of pages (`hhdm` + 4096 * page), as the code does; the page-table
  methods name a table by its page number.
- The four nested loops of copy_user_pml4 and free_user_pml4 are one method each that calls itself a
  level down; the body of the loop is a second method. The walk of map_page_pml4 is its three equal
  steps as three calls of one method.
- `free`, `live` and `lists` of the allocator, `held` of the file table, `owner` of a process slot and
  the logs are auxiliary: they record history or ownership and no branch reads them.
- A step of the scheduler is one access to the lock, or a stretch of code that touches only this CPU
  or fields that are guarded by the lock it holds. Assumed, as the code needs it: no interrupt lands in
  yield between reading the CPU and taking the lock; fewer than 2^32 processes are created.
- Allocation failure is a branch wherever the code checks for it (kalloc, create_user_pml4, the page copy
  of copy_user_pml4, the loader, proc_alloc, proc_fork, ext2_read, ext2_lookup, ext2_readdir,
  blkdev_read, blkdev_write, both allocations of vfs_mount). map_page_pml4 does not check, so enough free
  pages for the tables it creates are a precondition, stated exactly: for one page by
  `PageTree.Missing`, for a load or a deep copy by `UserImage.Ample`, which only says that where a page
  is left for the data of the next user page, its tables fit as well.
- Preconditions on the allocator are the kernel's own: the direct map starts at a multiple of 8 MiB,
  addresses fit in 64 bits, kfree gets a live block with the order it was allocated with, freerange
  gets pages that are neither free nor live.
- Where the code and its comments differ the code is followed.

Four findings, each with an input that shows it or the exact outcome, and the exact condition:

- A second mount over "/" is never entered by any lookup: `Vfs.ThreeMountsOnRoot` mounts three file
  systems on "/" and still finds the second; `Vfs.MountSeen` says exactly when a mount is seen.
- The index of a triple-indirect lookup stays inside its pointer block exactly below 12 + P + P^2 + P^3
  blocks (`Ext2Map.IndexBounds`); the block after that makes the index P (`Ext2Map.PastTheLimit`).
- Two segments that share a page: the later one's page replaces the earlier one's, bytes and frame
  (`Elf.SharedPage`). Every page reads as the last segment to cover it says (`ElfLoad.LoadedBytes`), and
  releasing the space loses as many frames as pages were mapped over, none exactly when no page comes
  twice (`AddressSpaces.Discard`, `UserImage.RepeatsNone`).
- A fork whose copy does not fit in memory goes on with a part of it: the child has the pages at the
  lowest addresses, as many as fit, and the rest are missing without notice. The copy is complete exactly
  when data pages and tables fit (`CopySpace.CopyUserPml4`).

`dafny verify dfyconfig.toml` checks the whole project.

## Model

| member | source | states |
|---|---|---|
| BuddySpec.OrderFor | src/kernel/mem.c:27-32 | the order is the least o with 2^o >= n |
| Bits.XorShifted | src/kernel/mem.c:82 | XOR of a multiple of 2^k with 2^k flips the last bit of the quotient |
| BuddyAllocator.BuddyAddress | src/kernel/mem.c:82 | XOR on the virtual address of a block gives the virtual address of its buddy, because the direct map is 8 MiB aligned |
| Blocks.Nested | src/kernel/mem.c:63-139 | two blocks that share a page are nested |
| Blocks.MaximalUnique | src/kernel/mem.c:63-139 | a page lies in at most one block of the canonical decomposition |
| Blocks.MaximalPartition | src/kernel/mem.c:63-139 | every free page lies in exactly one block of the canonical decomposition |
| Blocks.RemoveMaximal | src/kernel/mem.c:51-61 | taking one maximal block off leaves exactly the maximal blocks of the remaining free pages |
| Blocks.AddMaximal | src/kernel/mem.c:78-92 | adding a block whose buddy is not a maximal block adds exactly that block to the decomposition and changes no other; this is why merging stops at the right place |
| Blocks.Climb | src/kernel/mem.c:109-112 | a wholly free block of any order lies in a maximal block of that or a higher order |
| BuddySpec.StepKeeps | src/kernel/mem.c:63-169 | each call keeps free pages and live blocks disjoint and accounts for exactly the pages handed in |
| BuddySpec.RunPartition | src/kernel/mem.c:63-169 | over every run live blocks and free pages are disjoint and together are exactly the pages handed in |
| BuddySpec.RunRestores | src/kernel/mem.c:63-139 | a run that frees all it allocated ends with the same free pages and so the same block set on every list |
| BuddySizes.SatisfiableMeans | src/kernel/mem.c:27-32 | a request for n pages can be met exactly when 1 <= n <= 2048 and some aligned run of free pages has the size n rounded up to a power of two |
| BuddySizes.BlockPagesAre | src/kernel/mem.c:63-139 | a block is a run of 1, 2, 4, ... or 2048 pages, aligned to its size |
| BuddySizes.FreeSize | src/kernel/mem.c:66-71 | kfree rounds a count as kalloc does, and takes any count above 2048 as 2048 |
| BuddySizes.AllocThenFree | src/kernel/devfs.c:256-270 | freeing what a request was given puts free pages and live blocks back as they were |
| BuddyAllocator.Buddy.FindSlot | src/kernel/mem.c:51-60 | the walk along the links terminates and finds the slot that points at the block exactly when the block is on the list |
| BuddyAllocator.Buddy.Unlink | src/kernel/mem.c:54-55 | writing through the found slot takes exactly that element out of the list and no other list changes |
| BuddyAllocator.Buddy.BuddyRemove | src/kernel/mem.c:51-61 | returns 1 exactly when the block is a maximal free block, and then only its pages leave the free set |
| BuddyAllocator.Buddy.Push | src/kernel/mem.c:90-92 | pushing a block whose buddy is not free keeps every list canonical and acyclic |
| BuddyAllocator.Buddy.BuddyAddr | src/kernel/mem.c:82 | the address computed is the buddy's |
| BuddyAllocator.Buddy.InsertMerging | src/kernel/mem.c:80-92 | the merging loop adds exactly the block's pages to the free set and leaves the lists canonical |
| BuddyAllocator.Buddy.Kfree | src/kernel/mem.c:63-97 | ignores unaligned addresses and zero counts; otherwise performs the Free step of the block the address and count name, fills its pages with the byte 1 apart from their first words, and changes at most the first word of any other free page |
| BuddyAllocator.Buddy.KfreeTakesBack | src/kernel/mem.c:63-77 | whatever kalloc returned for n pages meets what kfree asks of its caller for the same n |
| BuddyAllocator.Buddy.Kalloc | src/kernel/mem.c:99-139 | returns 0 exactly when no aligned block of the rounded size is wholly free; otherwise a block carved as the lowest part of the smallest maximal block that holds it, its requested pages filled with the byte 5 |
| BuddyAllocator.Buddy.PopAndSplit | src/kernel/mem.c:122-133 | popping and splitting gives back exactly the rest of the block to the lists |
| BuddyAllocator.FitOrder | src/kernel/mem.c:145-153 | the order chosen is the largest that is aligned at the page and fits in the range |
| BuddyAllocator.Buddy.Freerange | src/kernel/mem.c:141-169 | adds exactly the whole pages inside the range, whatever its alignment |
| PageTree.VaOfPath | src/kernel/mem.c:184-187 | the four indices of an address make up the start of its page again |
| PageTree.VaRoundTrip | src/kernel/mem.c:184-187 | the address rebuilt from four indices has those indices |
| PageTree.SamePath | src/kernel/mem.c:184-187 | two user addresses have the same indices exactly when they are in the same page |
| PageTree.FramesDistinct | src/kernel/mem.c:240-267 | under the ownership invariant two pages of a tree never share a frame |
| PageTree.SpineWalk | src/kernel/mem.c:240-267 | changing one subtree changes no walk that does not go through it |
| PageTree.SetEntry | src/kernel/mem.c:240-267 | writing one entry changes the pages a tree owns by exactly what the old and new entry own and keeps the ownership invariant |
| PageTree.Rights | src/kernel/mem.c:240-267 | below table entries that all have bits 1 and 2, what user mode may do at an address is what the last entry says |
| PageTables.AllocPage | src/kernel/mem.c:99-139 | kalloc(1) fails exactly when nothing is free, else hands out one free page |
| PageTables.FreePage | src/kernel/mem.c:63-97 | kfree of one page puts exactly that page back |
| PageTables.Descend | src/kernel/mem.c:241-247 | one step of the walk: follows the entry, or hangs a zeroed table there, open to user mode and writes if the tables above are; no walk and no mapped page changes |
| PageTables.MapPagePml4 | src/kernel/mem.c:240-267 | updates the flat map at one page: its walk then finds frame and flags with PRESENT, every other walk is unchanged, the tree owns exactly the new tables and frame more, the kernel half and all other pages are untouched; in a tree whose table entries have bits 1 and 2, it keeps that, the page is readable and writable from user mode as bits 2 and 1 of the flags say, and no other page changes its rights |
| AddressSpaces.CreateUserPml4 | src/kernel/mem.c:269-281 | a fresh root with an empty user half and the kernel's upper half, or 0 exactly when no page is free |
| CopySpace.PagesHas | src/kernel/mem.c:287-305 | the pages the nested loops visit are exactly those a walk finds present for the user |
| CopySpace.PagesIncrease | src/kernel/mem.c:287-301 | they are visited in address order, each once |
| CopySpace.PagesOfSpace | src/kernel/mem.c:287-305 | both, for a whole space |
| CopySpace.CopyLeaf | src/kernel/mem.c:300-310 | one user page is copied into a fresh frame and mapped with the flags it had, or skipped with nothing changed when no page is free |
| CopySpace.CopyLevel | src/kernel/mem.c:287-314 | copies the user pages under a table in address order, at every level of the nesting, all of them unless memory runs out |
| CopySpace.CopyUserPml4 | src/kernel/mem.c:283-315 | the first user pages of the old tree in address order, all of them exactly when data pages and tables fit in free memory and else as many as fit, are mapped at the same address with equal flags and contents in fresh frames, with the rights those flags give, and nothing else is mapped; the old tree and the kernel half stay as they were |
| CopySpace.CopyWhole | src/kernel/mem.c:283-315 | a copy of all pages of the old tree is a deep copy of it |
| CopySpace.CopyRights | src/kernel/mem.c:300-310 | user mode may read and write a page of the copy exactly where it may in an old tree with open tables |
| AddressSpaces.FreeLevel | src/kernel/mem.c:321-341 | releases every page under a table and the table, each once, reading no page after freeing it |
| AddressSpaces.FreeUserPml4 | src/kernel/mem.c:317-345 | returns every user frame and every table below the root to the allocator exactly once, clears the user half and leaves the kernel half alone |
| AddressSpaces.ForkThenReap | src/kernel/mem.c:269-345 | create, copy, release and kfree of the root restore the allocator's free pages and live blocks exactly, and change no page in use, whether the copy is complete or cut short |
| SchedSafety.AcquireInv | src/kernel/spinlock.h:67-77 | every step of acquire keeps the invariant |
| SchedSafety.ReleaseInv | src/kernel/spinlock.h:79-89 | every step of release keeps the invariant |
| SchedSafety.ScheduleInv | src/kernel/proc.c:486-508 | every step of the scheduler keeps it, the switch to a process included |
| SchedSafety.LeaveInv | src/kernel/proc.c:474-484 | every step of yield and exit keeps it, the switch to the scheduler included |
| SchedSafety.ScanInv | src/kernel/proc.c:68-85 | every step under the lock in wait, creation and making runnable keeps it |
| SchedSafety.ChooseInv | src/kernel/proc.c:356-392 | every step outside the lock keeps it, giving a slot back without the lock included |
| SchedSafety.StepInv | src/kernel/proc.c:66-92 | every step of every CPU keeps the invariant |
| SchedRuns.NeverHalts | src/kernel/spinlock.h:48-82 | over every run the halts of acquire, release and popcli and the panic after sys_exit are unreachable |
| SchedRuns.SwitchUnderLock | src/kernel/proc.c:474-508 | every swtch happens with proc_lock held by that CPU, ncli 1 and interrupts off, and leaves it so at the scheduler's loop or at a release |
| SchedRuns.HeldUntilReleased | src/kernel/proc.c:87-92 | a CPU that holds the lock holds it until the store in its own release |
| SchedRuns.OneReleaseEach | src/kernel/spinlock.h:67-89 | between two releases by a CPU it takes the lock again, so each taking is followed by exactly one release |
| SchedRuns.FreeLockMatch | src/kernel/proc.c:486-508 | while proc_lock is free cpu.proc matches busy CPUs and RUNNING processes one to one |
| SchedRuns.StacksInUse | src/kernel/proc.c:77-80 | no two CPUs are on the same kernel stack and every stack in use is allocated |
| SchedRuns.FreedUnused | src/kernel/syscall.c:142-147 | sys_wait frees a kernel stack only while no CPU is on it |
| SchedHistory.StepHistory | src/kernel/syscall.c:32-48 | every step keeps the history in order |
| SchedHistory.RunHistory | src/kernel/proc.c:68-85 | over every run identifiers increase strictly and are unique among live slots |
| SchedHistory.WaitedOnce | src/kernel/syscall.c:127-155 | sys_wait returns each child at most once, to the process whose pid is its ppid, after that child exited, with its own exit code |
| SchedCalls.CreatorIsParent | src/kernel/proc.c:384 | the step that gives a new process its parent gives it the pid of the process on that CPU, 0 on the boot CPU |
| SchedCalls.CreatedBy | src/kernel/proc.c:356-392 | over every run the parent on record is the process that ran on the CPU which made the child |
| SchedCalls.WaiterReaps | src/kernel/syscall.c:135-148 | the step of sys_wait that returns a child does so for the process on that CPU, with the pid and exit code of a zombie, and frees its slot and its kernel stack |
| SchedCalls.WaitSeesAll | src/kernel/syscall.c:131-152 | over every run sys_wait yields only after a scan, under the lock throughout, that has looked at each of the 64 slots and found there no zombie created by the caller |
| SchedCalls.AllocSeesAll | src/kernel/proc.c:68-85 | over every run proc_alloc fails for want of a slot only after a scan, under the lock throughout, that has found each of the 64 slots in use |
| SchedTurns.Lifecycle | src/kernel/proc.c:356-392 | a slot changes state only along unused, embryo, runnable, running, zombie, unused, back from running to runnable and from embryo to unused, each move made by its own piece of code |
| SchedTurns.PassSeesAll | src/kernel/proc.c:486-508 | over every run the scheduler ends a pass only after it has looked at each of the 64 slots in it and claimed the process there if it was runnable |
| SchedThreads.ThreadStays | src/kernel/proc.c:474-484 | no step moves the thread of a live process but one by the CPU on its stack: a switch resumes it at the very point, with the very frames, at which it left |
| SchedThreads.YieldLeaves | src/kernel/proc.c:474-484 | a process that yields is left runnable, at the release that ends yield |
| SchedThreads.RunNested | src/kernel/idt.c:53-57 | over every run interrupt frames nest: inside a trap, and only there, there is a frame to return to |
| SchedThreads.UserUninterrupted | src/kernel/idt.c:53-57 | over every run a process in user mode or in a system call has no interrupt to return from |
| SchedThreads.WaitsUntilReturned | src/kernel/syscall.c:127-155 | over every run a process in sys_wait stays in its loop, on whatever CPU, until a step returns it a child |
| SchedThreads.FlagRestored | src/kernel/spinlock.h:38-57 | over every run a popcli that closes a section without a switch puts the interrupt flag back as it was before the pushcli |
| SchedThreads.RunListens | src/kernel/proc.c:486-490 | over every run interrupts are on in user mode and whenever a scheduler goes for the lock |
| Files.FileTable.FdAlloc | src/kernel/proc.c:23-32 | the least empty descriptor, -1 exactly when there is none |
| Files.FileTable.CloseFds | src/kernel/proc.c:40-48 | empties exactly the process's own row |
| Files.FileTable.InitFds | src/kernel/proc.c:52-64 | the console file for output is shared by descriptors 1 and 2 |
| Files.FileTable.CopyRow | src/kernel/proc.c:374-380 | the child's row becomes the parent's and each file counts its new holders |
| Files.FileTable.Fork | src/kernel/proc.c:356-392 | fork takes an unused slot or fails; on failure nothing has changed |
| Files.FileTable.FileGet | src/kernel/vfs.c:43 | one more reference |
| Files.FileTable.VfsClose | src/kernel/vfs.c:554-565 | one reference less; the file is freed with the last |
| Files.FileTable.SysOpen | src/kernel/syscall.c:50-65 | the new file takes the least empty descriptor, or is closed again |
| Files.FileTable.SysClose | src/kernel/syscall.c:67-75 | for a descriptor from 0 to 31 whose slot is not empty returns 0 and empties that slot; else -1 with nothing changed |
| Files.FileTable.SysDup | src/kernel/syscall.c:157-166 | for a descriptor from 0 to 31 whose slot is not empty the least empty descriptor shares the file; else -1 with nothing changed |
| Files.FileTable.SysDup2 | src/kernel/syscall.c:168-182 | the new descriptor shares the file of the old one, also when it already held it or is the old one; -1 with nothing changed for an empty slot or a descriptor out of range |
| Files.FileTable.SysPipe | src/kernel/syscall.c:210-227 | both ends get descriptors, or nothing has changed, which happens only without two empty ones |
| Files.FileTable.SysExit | src/kernel/syscall.c:32-48 | the process gives up all its files |
| Files.FileTable.FreedWithLastSlot | src/kernel/vfs.c:45-52 | between calls a file exists exactly while some slot holds it and its count is the number of slots that do |
| Files.FileTable.SlotHeld | src/kernel/proc.c:34-38 | no slot holds a freed file and only processes in use have files |
| Files.PlaceClose | src/kernel/syscall.c:67-75 | closing the descriptor open or dup returned leaves every slot as it was |
| Files.ForkExit | src/kernel/proc.c:356-392 | fork and the child's exit leave every slot as it was |
| WordBytes.ByteInWords | src/kernel/proc.c:128-129 | a byte copied into a page is the byte read from it |
| LittleEndian.FieldRead | src/kernel/elf.h:24-55 | a field of a packed structure is read back where the sizes of the fields before it put it |
| ElfFile.HeaderChecked | src/kernel/proc.c:100-104 | the header passes exactly when it was written with the ident bytes 7F 45 4C 46 02 and machine 62 |
| ElfFile.FileRead | src/kernel/elf.h:46-55 | of a file whose table holds segments written in gABI field order, the loader reads exactly those segments |
| ElfFile.SaneFile | src/kernel/proc.c:98-133 | a file whose table and segments lie in it, with segments in user space, is what the loader asks for |
| ElfFile.ProgramLoaded | src/kernel/proc.c:98-147 | what user mode reads and may write at every user address of a program loaded from such a file: byte p_offset + (a - p_vaddr) below p_filesz, else 0, for the last segment to cover the page, zeros on the stack, nothing elsewhere |
| UserImage.MissingCost | src/kernel/mem.c:240-267 | the tables map_page_pml4 creates for a page are those above it that are above no page mapped before |
| UserImage.MapData | src/kernel/proc.c:131 | mapping one page more updates the flat map the page tables stand for at that page alone, takes that page and its missing tables, and touches nothing else in use |
| ElfLoad.RefinesByte | src/kernel/mem.c:240-267 | reading through the page tables from user mode is reading the flat map, and may be writing it exactly where the map is writable |
| UserImage.RepeatsNone | src/kernel/proc.c:107-133 | no page is mapped over exactly when no page comes twice |
| ElfLoad.FillPage | src/kernel/proc.c:118-130 | the clamped copy into a zeroed page gives exactly the page of the flat image |
| ElfLoad.LoadSegment | src/kernel/proc.c:115-132 | maps the pages of a segment over what is mapped, or stops with no page free |
| ElfLoad.LoadSegments | src/kernel/proc.c:98-147 | succeeds exactly when the header is right and the data pages with all their tables fit in free memory; the page tables then stand for segments and stack and nothing else; a failure for want of memory leaves none free |
| ElfLoad.LoadedBytes | src/kernel/proc.c:107-133 | byte v of the last segment to cover its page is read from user mode through the page tables as file byte p_offset + (v - p_vaddr) below p_filesz and 0 elsewhere in the segment's pages, and may be written exactly if the segment is writable; with page-disjoint segments that is every segment (`Elf.DisjointLast`) |
| ElfLoad.LoadedStack | src/kernel/proc.c:135-142 | both stack pages are mapped, may be written from user mode and read as zeros, and nothing but segments and stack is mapped |
| AddressSpaces.Discard | src/kernel/proc.c:292-295 | releasing a space, complete or not, gives back all it took but one frame for each page mapped over |
| ElfLoad.CreateImage | src/kernel/proc.c:287-299 | create and load succeed exactly when root, data and tables fit; on failure with page-disjoint segments the allocator is exactly as before |
| Elf.SharedPage | src/kernel/proc.c:115-131 | two segments in one page take it twice, and the bytes of the first are lost |
| Elf.SegmentAddresses | src/kernel/proc.c:110-112 | the pages mapped for a segment are exactly those its memory touches |
| Ext2Map.BlockMapReaches | src/kernel/ext2.c:55-112 | below the limit the block map is the recursive walk of the pointer tree |
| Ext2Map.IndexBounds | src/kernel/ext2.c:75-111 | the double and triple indices stay inside a pointer block exactly below the limits |
| Ext2Map.PastTheLimit | src/kernel/ext2.c:92-111 | the first block past the limit is a 32-bit number and gives an index one past the pointer block |
| Ext2Map.LbnOfPath | src/kernel/ext2.c:55-112 | the number of a block can be read back from the indices that lead to its pointer, so distinct blocks have distinct indices |
| Ext2Map.CellsDiffer | src/kernel/ext2.c:55-112 | with no pointer shared, distinct blocks have their pointers in distinct places |
| Ext2Map.BlockMapFollows | src/kernel/ext2.c:55-112 | the block map reads exactly the slot of its block |
| Ext2Map.BlockMapInjective | src/kernel/ext2.c:55-112 | with no pointer shared, distinct blocks that are not holes are distinct disk blocks |
| Ext2Layout.PointersRead | src/kernel/ext2.c:63-69 | a block of little-endian pointers is read back pointer by pointer |
| Ext2Layout.BlockMapInOrder | src/kernel/ext2.c:55-112 | the map finds block lbn in the list of twelve inode pointers followed by the leaves of the three trees from left to right |
| Ext2Layout.BlockCount | src/kernel/ext2.c:55-112 | that list has 12 + P + P^2 + P^3 blocks, P a quarter of the block size |
| Ext2File.OpenFile.Read | src/kernel/ext2.c:241-277 | copies the file's bytes from the offset in order, up to the count, the end or the first hole, and advances the offset by what it copied; the file may be larger than its pointers reach |
| Ext2File.BytesExact | src/kernel/ext2.c:257-272 | the bytes read are the file's and it stops short only at the first byte of a hole |
| Ext2File.ReadInFull | src/kernel/ext2.c:247-248 | without holes a read yields min(count, size - off) bytes |
| Ext2File.SplitRead | src/kernel/ext2.c:241-277 | one read split into two yields the same bytes, holes or not |
| Ext2File.Fetch | src/kernel/ext2.c:263-268 | the cached block is never stale |
| Ext2Layout.ReadIsSlice | src/kernel/ext2.c:241-277 | a read yields the slice from off to off + count, the end of the file or the first hole of the contents of the file's blocks joined in order |
| Ext2Dir.OpenDir.Readdir | src/kernel/ext2.c:279-326 | the next live entry in disk order, or ENOENT without moving |
| Ext2Dir.LayoutEntries | src/kernel/ext2.c:279-326 | in a directory whose blocks are tiled by records the scan finds exactly the live records, block by block, in disk order |
| Ext2Dir.ListAll | src/kernel/ext2.c:279-326 | calling readdir from 0 to ENOENT terminates and yields what the scan finds; in a tiled directory each live record once, in disk order |
| Ext2Dir.Lookup | src/kernel/ext2.c:175-225 | succeeds exactly when some entry readdir yields has the name, in a tiled directory some live record, and then gives the first one's inode |
| Ext2Dir.FirstMatchExact | src/kernel/ext2.c:202-218 | first match means first in the order readdir yields |
| Ext2Layout.RecordRead | src/kernel/ext2.h:111-117 | a record written as inode, record length, name length, type and name is read back field by field, wherever it lies |
| Ext2Layout.BlockWritten | src/kernel/ext2.c:279-326 | a block written record after record is tiled by those records |
| BlkDev.BlockDevice.Read | src/kernel/devfs.c:246-273 | returns exactly the bytes [off, off + count) of the flat disk, failing exactly when they are not all on it |
| BlkDev.BlockDevice.Write | src/kernel/devfs.c:275-301 | changes exactly the bytes [off, off + count) of the flat disk, at any offset and sector size |
| Flattening.FlatSlice | src/kernel/devfs.c:251-254 | a run of sectors is a slice of the flat disk |
| Flattening.FlatAt | src/kernel/devfs.c:251-254 | byte i of sector k is byte k * ss + i of the flat disk |
| Vfs.NextComponent | src/kernel/vfs.c:176-196 | the next component, without a slash in it, and the place after all slashes behind it |
| Vfs.SplitJoin | src/kernel/vfs.c:176-196 | joining with a slash joins the components, so leading, trailing and repeated slashes do not matter |
| Vfs.SplitSpelled | src/kernel/vfs.c:176-196 | names, each after one or more slashes, with any slashes behind, are split into exactly those names |
| Vfs.ComponentsPlain | src/kernel/vfs.c:176-196 | no component of a path is empty or contains a slash |
| Vfs.Respelled | src/kernel/vfs.c:176-196 | every path is its components spelled out with slashes between |
| Vfs.WalkName | src/kernel/vfs.c:354-382 | one turn of the walk: "." is skipped, an error ends it, anything else steps to the child or into what is mounted on it |
| Vfs.ChildLeads | src/kernel/vfs.c:211-242 | every outcome of looking up a name: -20 for no directory, -38 for no lookup, -12 for a name of 255 or more, the driver's error, -2 for no such entry, else the entry, or the root of the newest mount on it |
| Vfs.FindByInodeFirst | src/kernel/vfs.c:138-150 | the mount found on an inode is the first of the list on it |
| Vfs.FindByEntryFirst | src/kernel/vfs.c:125-133 | the mount found at an entry is the first of the list at it |
| Vfs.Vfs.Lookup | src/kernel/vfs.c:335-387 | the result depends only on the components other than "." |
| Vfs.Vfs.LookupParent | src/kernel/vfs.c:247-331 | the directory of the last component and that component |
| Vfs.WalkViaParent | src/kernel/vfs.c:247-387 | when the last component is not ".", full lookup is parent lookup and then child lookup of the leaf, errors included |
| Vfs.Vfs.MountOn | src/kernel/vfs.c:391-454 | the exact result, either allocation failing included, and the mount it adds in front of the list |
| Vfs.MountedResolves | src/kernel/vfs.c:138-150 | after a mount on a directory that is no mounted root, target/rest leads where rest leads from the new root |
| Vfs.OthersResolve | src/kernel/vfs.c:138-150 | every path whose walk never enters that inode leads where it did |
| Vfs.MountSeen | src/kernel/vfs.c:125-133 | a mount is seen at its target exactly when the target is no mounted root or the very first root |
| Vfs.ThreeMountsOnRoot | src/kernel/vfs.c:391-454 | three mounts on "/" all succeed and "/" leads to the root of the second |
| Pipe.Shared.TakeByte | src/kernel/pipe.c:40-42 | takes the byte at the read cursor |
| Pipe.Shared.StoreByte | src/kernel/pipe.c:64-66 | stores a byte at the write cursor |
| Pipe.ReadInv | src/kernel/pipe.c:23-46 | every turn of a reader keeps order, cursors and accounts |
| Pipe.WriteInv | src/kernel/pipe.c:48-70 | every turn of a writer does |
| Pipe.FirstInFirstOut | src/kernel/pipe.c:23-70 | in every interleaving the bytes taken are a prefix of those put, the rest is the ring, and count is write_pos - read_pos modulo 2^32 and at most 4096 |
| Pipe.OwnShare | src/kernel/pipe.c:23-70 | each reader and writer has moved exactly its share of the history, in order |
| Pipe.ShortReturns | src/kernel/pipe.c:31-61 | a short read happens only when empty with the writer closed, a -1 write only when full with the reader closed |
| Pipe.WaitsOnly | src/kernel/pipe.c:23-70 | a turn waits only as a reader of more at an empty pipe with the write end open, or a writer of more at one with 4096 bytes and the read end open; otherwise it moves a byte or returns |

## Left out

- Device drivers, interrupts other than the timer, the console, keyboard, fonts and formatted printing.
- CR3 and the TLB: which page table a CPU has loaded is not modelled.
- buddy.lock and all spinlocks other than proc_lock and the pipe's turns: their pairs are taken as balanced inside a step.
- CopySpace.CopyUserPml4: the root copied into is fresh, as create_user_pml4 makes it; memory that runs out inside map_page_pml4, which does not check, is excluded by `UserImage.Ample`.
- PageTables.MapPagePml4: entry bits 52-63 are taken to be clear and there are no large pages, so the frame of an entry is all bits above the low twelve.
- BuddySpec.OrderFor: is over unbounded numbers; for more than 2^63 pages the code's shift wraps and its loop does not end.
- memset and memcpy write a page at once: a page of words, or of bytes turned into words by `WordBytes.ToWords`.
- Sched.Scan: one step reaps a child whole; the user pointer sys_wait writes the status through is not modelled, nor is the release of the child's page tables, which AddressSpaces.FreeUserPml4 covers.
- Sched.Schedule: swtch is an abstract transfer of control; registers and trap frames are reduced to program points.
- Liveness and fairness: wait may spin for ever and the locks are unfair.
- proc_exec, setup_user_stack, brk, seek, stat, and creation's names and register frames.
- Files.FileTable.VfsClose: the driver's close never fails; inode reference counts behind a file are not modelled.
- Files.FileTable.SysClose: descriptors are small integers; the code's truncation of a 64-bit argument to 32 bits for one of its two uses is not modelled.
- ElfLoad.LoadSegments: the file lies in memory as its headers say and its segments in user space, neither of which the code checks; memory that runs out inside map_page_pml4, which it does not check either, is excluded by `UserImage.Ample`.
- ext2_read_inode, the superblock and group descriptors, and mounting an ext2 volume; reading an inode is taken to succeed in Ext2Dir.Lookup.
- Ext2Map.BlockMapReaches: the page buffers of the block map are taken to be available; the code maps a block to a hole when they are not.
- Ext2File.OpenFile.Read: device reads succeed; the bytes asked for lie where the inode's pointers reach; offset plus count is below 2^64, as the system call's 32-bit count makes it.
- BlkDev.BlockDevice.Read: the device fails only for sectors it does not have.
- Vfs.Vfs.Lookup: paths with ".." are excluded, since the code's walk does not restore the parent mount and may drop a root entry; reference counts and release of entries are not modelled.
- vfs_umount, create, mkdir, unlink and the operations on an open file that only forward to a driver.
- Pipe creation, the close count of its ends and the path from a descriptor to the pipe; the ends' counts may change at any time in `Pipe`.

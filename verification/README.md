# zy_os in Dafny

A model of the kernel's stateful core and proofs of what it keeps over whole runs: the file system from formatting to
unlink, the scheduler with semaphores and locks under every interleaving, the page and heap allocators, the
self-mapped page tables, and the path functions. Every `ASSERT` in modelled code is an obligation: either it is proved
never to fire, or it is one of the outcomes of the operation (`...Halted`), with the exact condition under which it fires.

The modules follow the program.

| Dafny file | models |
|---|---|
| Bitmap, IntrusiveList, CString, Disk | bytes, bitmaps, the doubly linked list with two sentinels, C strings, sectors and words |
| Threads, ThreadLists, Sync, Turns | the scheduler's steps as functions; the same on real linked lists; all interleavings of threads, locks, timer and disk interrupts; who runs next and for how long |
| Pages, Heap, PageTables, HeapPaging | `malloc_page`/`mfree_page` and the pools; `sys_malloc`/`sys_free`; paging hardware, `page_table_add`, `create_page_dir`; that the first two show in the page tables |
| Ownership, Files, FileSystem | who owns which block; what a file is; `file_write` and `file_read` |
| Entries, Directory, DirectoryMap, FullDirectory | directory entries and the table of a directory; insert, delete, search; the finite map and `dir_read`; an entry behind a table |
| Unlink, MakeDir, Format | `file_create`, `inode_release`, `sys_unlink`; `sys_mkdir`, `sys_rmdir`; `partition_format` |
| Records, SlotRefinement, FsRuns, TreeRuns | the slots that inodes are synced to and read back from, and that they are the bytes of the table; what each operation keeps of the partition and of its directory tree |
| Histories, SystemCalls, NameSpace | all histories of system calls by path, with inodes opened and closed in between; that the code's methods take these steps; what each call does to the names |
| InodeTable, Paths, Tree, Trails, Ide, IoQueue | the packed inode table and the open-inode list; `wash_path`; `search_file` and `sys_getcwd`; that a search follows the entries of the path; disk commands; the keyboard ring |

Conventions. Code that changes state is a class or a method with loops, proved against relations on values (`Wrote`,
`Inserted`, `Erased`, `Released`, `Mapped`, `Allocated`, ...); the theorems are about those relations. A stretch of code
with interrupts off is one atomic step. The disk is a sequence of 512-byte sectors. Clocks, interrupts and the spare frame
of a page table are parameters. A partition's inodes are a map from inode number to record, `synced` is the
inode table as `inode_sync` and `inode_delete` left it. In `Histories` a closed inode has only its slot in that table.

Where the code departs from its comments or its evident intent, the model does what the code does:

- `bitmap_scan` stops the kernel on a full map (lib/kernel/bitmap.c:32), so its callers' handling of -1 for one bit is dead; for several bits its last trip tests the bit behind the map. `OverrunExactly` says when that bit is returned as part of a run, `OverrunOnOneByte` is a map where it is, and `MallocPage` then maps a page behind the heap (`Beyond`), after which bitmap and page table disagree (`BeyondBreaks`).
- `file_write` accepts a final size of 71680 bytes and then stops on its own ASSERT (fs/file.c:288 and 348); `file_read` stops when the block index behind the last byte is 139 or more, earlier than the write limit (fs/file.c:532). `FileWrite` and `FileRead` state both conditions exactly. A zero-length write to an empty file leaves the position at 2^32 - 1 (fs/file.c:464), after which every read stops the kernel.
- `inode_sync` narrows the inode number to eight bits (fs/inode.c:68), `inode_open` and `inode_delete` do not. `SyncedExactly`: a record comes back iff its number is below 256. From 256 on a closed file's slot is zero and the ASSERT of `inode_release` (fs/inode.c:223) stops `sys_unlink` (`UnlinkAt256`), and a new directory is lost at once (`MkdirAt256`). `StepExactly` states the guard of a caller: some number below 256 is free.
- `sys_rmdir` of a path that ends in "." finds the directory as its own parent, deletes no entry and releases the inode all the same (fs/fs.c:343-366, fs/dir.c:465): `RmdirSlashADot` at "/a/.", `DotDangles` in general. `sys_rmdir` of a directory that is open elsewhere leaves its object in the list of open inodes (`OpenStays`). A creation in a directory of 252 entries succeeds, but `sync_dir_entry` never loads the table (fs/dir.c:173-177): the first one leaves a directory with a table (`FullParentFirst`), the next one overwrites the table's address, so two blocks stay marked without an owner and an entry is lost (`FullParentSecond`); deleting an entry that is alone behind the table never ends (fs/dir.c:337-341). `StepExactly`: these three and the numbers from 256 on are what can go wrong in the calls that are steps there. A directory is open elsewhere also after any file in it was opened by `sys_open`, which never closes it (fs/fs.c:429-431): `OpenLeaks`.
- `sys_unlink` has no test of the depth, unlike `sys_open` (fs/fs.c:403-411): where "/f" is a file, unlinking "/f/x" removes it (`SearchThroughFile`).
- `search_file` of "//" returns an entry that was never filled in (fs/fs.c:327-366), and a name of 16 bytes or more runs over `char name[16]` (fs/fs.c:318, shell/buildin_cmd.c:19): `SearchTwoSlashes`, `SearchExactly`, `WashPath`.
- `partition_format` clears one bit more than its comment says (fs/fs.c:184), and for fewer than eight blocks also the root's bit: `FillBitmap` and `ClearBitsInside` state when a clear bit lies outside the partition, `ClearBitOutside` a size where it does.
- `strncmp` also compares the byte at position `size` (lib/string.c:61-71), which is why its calls with the length of one string test equality.
- The boot page directory shares one table between entries 0 and 768 (boot/loader.s:326-334), so mapping a page of the first 4 MiB of the kernel also maps its low alias: `AddTranslates` says exactly which translations change, `BootAlias` that the two always agree, `AddMapsOnePage` that without sharing only one page changes.

## Model

| member | source | states |
|---|---|---|
| `Bitmaps.FullByte` | lib/kernel/bitmap.c:22-24 | skipping bytes equal to 0xff skips exactly the bytes whose eight bits are set |
| `Bitmaps.SetAt` | lib/kernel/bitmap.c:68-77 | the mask update changes the addressed bit of the whole map and no other |
| `Bitmaps.Bitmap.Init` | lib/kernel/bitmap.c:8-10 | every bit of the map is clear and memory behind it untouched |
| `Bitmaps.Bitmap.Test` | lib/kernel/bitmap.c:12-16 | reads the bit, also the one behind the map |
| `Bitmaps.Bitmap.Set` | lib/kernel/bitmap.c:68-77 | the map with one bit replaced |
| `Bitmaps.Bitmap.Scan` | lib/kernel/bitmap.c:18-66 | halts iff the map is full; for one bit the first clear one; else the leftmost run in the map and its guard bit, or none exists |
| `Bitmaps.OverrunExactly` | lib/kernel/bitmap.c:46-64 | when no run exists in the map, the scan still reports one iff the guard bit and the last n-1 bits are clear; otherwise the guard does not matter |
| `Bitmaps.OverrunOnOneByte` | lib/kernel/bitmap.c:46-64 | on a map of the byte 0x7f with a clear byte behind it a scan for two bits answers 7, although the map has no two clear bits |
| `Bitmaps.ScanAgrees` | lib/kernel/bitmap.c:18-66 | whatever the guard bit, the scan's promises determine its answer: the function its callers use |
| `Bitmaps.ScanMeans` | lib/kernel/bitmap.c:18-66 | an answer inside the map is the leftmost run there; an answer that reaches one bit behind it is given exactly when the scan overruns; -1 only when the map has no run |
| `IntrusiveLists.List.InsertBefore` | lib/kernel/list.c:13-29 | relinking four pointers is sequence insertion before the given node |
| `IntrusiveLists.List.Push` | lib/kernel/list.c:32-35 | the node becomes the first |
| `IntrusiveLists.List.Append` | lib/kernel/list.c:38-41 | the node becomes the last |
| `IntrusiveLists.List.Remove` | lib/kernel/list.c:44-51 | the sequence without that node |
| `IntrusiveLists.List.Pop` | lib/kernel/list.c:54-58 | returns the first node, the rest remains |
| `IntrusiveLists.List.Find` | lib/kernel/list.c:61-70 | true iff the node is in the sequence |
| `IntrusiveLists.List.Len` | lib/kernel/list.c:95-103 | the length of the sequence |
| `IntrusiveLists.List.Empty` | lib/kernel/list.c:106-109 | true iff the sequence is empty |
| `Threads.ScheduleSafe` | thread/thread.c:180-208 | from any state the callers leave, schedule never fails an ASSERT, idle is blocked when it must be woken, and exactly one task runs afterwards |
| `Threads.BlockSafe` | thread/thread.c:215-226 | thread_block keeps the scheduler invariant |
| `Threads.UnblockSafe` | thread/thread.c:233-248 | unblocking a sleeping task keeps the invariant |
| `Threads.YieldSafe` | thread/thread.c:254-262 | thread_yield keeps the invariant |
| `Threads.StartSafe` | thread/thread.c:132-160 | a new thread keeps the invariant |
| `Threads.TimerSafe` | device/timer.c:28-42 | a tick keeps the invariant: ticks never exceed the priority and never underflow |
| `Threads.ScheduleProgress` | thread/thread.c:180-208 | rescheduling brings a queued task nearer by the slices of the tasks before it |
| `Turns.ScheduleExactly` | thread/thread.c:180-208 | the first of the ready list and the task that still runs, or idle if there is neither, runs next; the task put back has a full slice, and no other slice, status or place in the list changes |
| `Turns.TimerExactly` | device/timer.c:28-42 | a tick takes one off the slice, or reschedules and refills it when nothing is left |
| `Turns.BlockExactly` | thread/thread.c:215-230 | the task sleeps with the status asked for, the next one runs, and no slice changes |
| `Turns.YieldExactly` | thread/thread.c:254-262 | the task goes behind all the others with what is left of its slice |
| `Turns.WokenNext` | thread/thread.c:233-249 | a woken task stands in front: block, yield or the end of the slice hand it the processor, and the others keep their order behind it |
| `ThreadLists.Scheduler.ThreadUnblock` | thread/thread.c:233-248 | the step on the real ready list refines the function, and the ASSERTs hold |
| `ThreadLists.Scheduler.DoSchedule` | thread/thread.c:180-208 | the same for schedule |
| `ThreadLists.Scheduler.ThreadBlock` | thread/thread.c:215-226 | the same for thread_block, with the invariant |
| `ThreadLists.Scheduler.ThreadYield` | thread/thread.c:254-262 | the same for thread_yield |
| `ThreadLists.Scheduler.ThreadStart` | thread/thread.c:132-160 | the same for thread_start |
| `ThreadLists.Scheduler.TimerInterrupt` | device/timer.c:28-42 | the same for the timer handler |
| `ThreadLists.Scheduler.SemaDown` | thread/sync.c:33-53 | one pass of sema_down on real lists: the tag that serves the ready list and every waiters list is on none when it is appended |
| `ThreadLists.Scheduler.SemaUp` | thread/sync.c:60-75 | the first waiter's tag moves from the waiters to the front of the ready list |
| `Sync.AfterThreadInit` | thread/thread.c:357-369 | the state thread_init leaves, main running with init and idle ready, is one the runs start from |
| `Sync.StepSafe` | thread/sync.c:33-108 | every enabled step of any thread, the timer or the disk keeps the global invariant and fails no ASSERT |
| `Sync.RunInv` | thread/sync.c:33-108 | the invariant holds in every state of every run |
| `Sync.NoPanic` | thread/sync.c:33-108 | no interleaving of any length reaches a failing ASSERT |
| `Sync.MutualExclusion` | thread/sync.c:33-108 | at most one thread is inside a lock, the repeat count is its nesting depth, the semaphore is 0 or 1 and is 1 iff nobody is inside, and no wake-up is lost |
| `Sync.ListsDisjoint` | thread/thread.c:180-262 | one task runs; ready means on the ready list; all lists are duplicate free and pairwise disjoint |
| `Sync.DiskHandshake` | device/ide.c:232-321 | while an interrupt is expected disk_done is 0, so the handler's sema_up cannot fail; one thread is on a channel at a time |
| `Sync.BoundedWaiting` | thread/thread.c:180-262 | without unblocks, a ready task waits fewer timer ticks than the slices before it allow, whatever yields, blocks and starts occur |
| `Turns.StepSlices` | thread/thread.c:180-262 | in every step of every interleaving a slice changes only by a timer tick on the running task |
| `Turns.KeepsTurn` | device/timer.c:28-42 | a task that does not give up keeps the processor while its slice lasts |
| `Turns.FullTurn` | thread/thread.c:180-208 | a task that used up its slice and is dispatched again keeps the processor for `priority` ticks unless it gives up, and loses it to the next one |
| `Turns.WokenRuns` | thread/thread.c:233-249 | after sema_up, the disk interrupt or thread_unblock the next task to get the processor is the woken one, unless another was woken in between |
| `Turns.WaitersInOrder` | thread/sync.c:33-75 | waiters join at the end of a semaphore's list and the first one is woken |
| `Turns.DepthCounts` | thread/sync.c:82-108 | between its calls a thread holds a lock as often as it took it more than it gave it back |
| `Pages.PlanFits` | kernel/memory.c:312-385 | for every memory size the three bitmaps end below the main thread's PCB, the kernel pool below the user pool, and both pools lie in memory iff there are 2 MiB |
| `Pages.InitInv` | kernel/memory.c:358-381 | the cleared bitmaps satisfy the invariant |
| `Pages.KernelPages.VaddrGet` | kernel/memory.c:70-107 | reserves what the scan found, the bit behind the map included when the scan overran |
| `Pages.KernelPages.MallocPage` | kernel/memory.c:184-209 | maps the leftmost run to fresh distinct frames and keeps virtual bitmap, page table and pool in agreement; halts iff the count is out of range, the map is full or frames run out; hands out a page behind the heap iff the scan overran and frames suffice |
| `Pages.BeyondOnOneByte` | kernel/memory.c:184-209 | on such a map malloc_page of two pages neither halts nor fails: it hands out a page behind the heap |
| `Pages.BeyondBreaks` | kernel/memory.c:184-209 | after such an overrun a page is mapped that no bit stands for, so the three structures no longer agree |
| `Pages.KernelPages.Pfree` | kernel/memory.c:530-543 | the address alone selects the pool and bit the frame came from, for both pools |
| `Pages.KernelPages.MfreePage` | kernel/memory.c:572-616 | unmaps exactly the run and clears exactly its frames; its ASSERTs hold |
| `Pages.MappedInv` | kernel/memory.c:184-209 | mapped pages have set bits, translation stays injective onto taken frames |
| `Pages.UnmappedInv` | kernel/memory.c:545-616 | the same after freeing |
| `Pages.FreeRestores` | kernel/memory.c:184-209 | freeing an allocation gives the previous state back, bit for bit |
| `Heaps.DescInit` | kernel/memory.c:392-403 | block sizes double and each arena holds as many blocks as fit |
| `Heaps.PlacesApart` | kernel/memory.c:412-424 | different blocks never overlap |
| `Heaps.HeadersApart` | kernel/memory.c:412-424 | no block reaches into an arena header |
| `Heaps.BlockToArena` | kernel/memory.c:422-424 | masking a block's address yields its arena |
| `Heaps.KernelHeap.SysMalloc` | kernel/memory.c:432-523 | one new live block, zeroed, and no byte of a live block changed: a small request takes the head of the list of the smallest class that is large enough, a page joining only an empty list, a large one the leftmost run of no more pages than it needs; NULL iff the size is out of range or no run of pages is free, and then nothing changes; halts iff a page is needed and malloc_page halts; leaves the heap iff malloc_page does |
| `Heaps.KernelHeap.SysFree` | kernel/memory.c:623-663 | exactly that block stops being live and goes to the end of its list, the others keep their bytes, a fully free arena goes with its blocks, and the ASSERTs on the free list hold |
| `Heaps.AllFreedRestores` | kernel/memory.c:623-663 | two states without live blocks have the same virtual and frame bitmaps |
| `Heaps.RunInv` | kernel/memory.c:432-663 | in every state of every run of sys_malloc, sys_free and writes by owners: cnt is the number of free blocks, no arena is fully free, bitmaps and mappings agree |
| `Heaps.RunApart` | kernel/memory.c:432-663 | in every such state blocks in use are pairwise apart and clear of every arena header |
| `Heaps.RunContents` | kernel/memory.c:432-663 | until it is freed a block stays in use and its bytes change only when its owner writes to it |
| `Heaps.RunZeroed` | kernel/memory.c:432-523 | a fresh block reads as zeros until its owner writes to it |
| `Heaps.RunLive` | kernel/memory.c:432-663 | after any run the live blocks are those its own history says |
| `Heaps.RunRestores` | kernel/memory.c:432-663 | after any run in which everything was freed both kernel bitmaps are as before |
| `PageTables.Masks` | kernel/memory.c:115-133 | the masks and shifts of pte_ptr and pde_ptr pick the index fields |
| `PageTables.ShiftsAreIndices` | kernel/memory.c:115-133 | these fields of the 32-bit word are the indices and the offset of the address as a number |
| `PageTables.PdePtrReaches` | kernel/memory.c:129-133 | through any self-mapped directory pde_ptr(v) translates to v's directory entry |
| `PageTables.PtePtrReaches` | kernel/memory.c:115-121 | pte_ptr(v) translates to v's entry in v's own table, or faults iff there is no table |
| `PageTables.Machine.PageTableAdd` | kernel/memory.c:146-181 | done only through virtual loads and stores, the memory afterwards is the one with v mapped, a missing table added and cleared |
| `PageTables.AddTranslates` | kernel/memory.c:146-181 | v's page translates to p; any other address changes iff it goes through the same table entry |
| `PageTables.AddMapsOnePage` | kernel/memory.c:146-181 | with an unshared table nothing else outside the self map changes |
| `PageTables.Machine.AddrV2p` | kernel/memory.c:300-305 | returns what the hardware translates v to |
| `HeapPaging.AddShows` | kernel/memory.c:146-181 | page_table_add of a heap page: what the page allocator enters in its map is what the hardware then walks, for every heap page |
| `HeapPaging.RemoveShows` | kernel/memory.c:545-551 | the same for page_table_pte_remove |
| `HeapPaging.PteRemove` | kernel/memory.c:545-551 | done through the self map, only the present bit of v's own entry changes |
| `HeapPaging.HeapTranslation` | kernel/memory.c:300-305 | addr_v2p of a mapped heap page is the frame the allocator has for it |
| `PageTables.Machine.CreatePageDir` | user_process/process.c:111-130 | the new directory has the kernel quarter and itself as last entry, and nothing else changed |
| `PageTables.BootAlias` | boot/loader.s:326-334 | the two boot aliases always translate alike |
| `PageTables.BootInv` | boot/loader.s:320-359 | the boot directory satisfies the paging invariant |
| `PageTables.KernelSharedForever` | user_process/process.c:111-130 | in every run of page_table_add and create_page_dir all directories agree on entries 768 to 1022 and on every kernel translation |
| `Ownership.ExtendsInv` | fs/file.c:85-93 | an inode that gains granted blocks keeps the invariant that no block has two owners, and no other inode changes |
| `Ownership.ShrinksInv` | fs/inode.c:221-271 | the same for giving blocks back |
| `Ownership.BitsDetermined` | fs/file.c:85-93 | the block bitmap is a function of the owned blocks |
| `FileSystem.Partition.AllocBlock` | fs/file.c:85-93 | the first clear bit is set and its lba returned, or the map is full |
| `FileSystem.Partition.GrowDirect` | fs/file.c:371-396 | situation 1: exactly the missing direct blocks are gained, data and other inodes kept |
| `FileSystem.Partition.GrowAcross` | fs/file.c:397-435 | situation 2: table and blocks across the direct limit |
| `FileSystem.Partition.GrowIndirect` | fs/file.c:436-458 | situation 3: the table is read, extended and written back |
| `FileSystem.Partition.FileWrite` | fs/file.c:286-492 | too big iff above 71680; halts iff exactly 71680 or too few free blocks; else the bytes are the old bytes followed by the payload, blocks 0 to size/512 exist, every other inode is the same block by block |
| `FileSystem.Partition.FileRead` | fs/file.c:503-600 | returns exactly the slice at the position across the direct and indirect blocks, all that was asked for or all that is left; end of file and the halting condition exactly, and never a missing table |
| `FileSystem.RunAppends` | fs/file.c:286-492 | for every run of writes a file's bytes are its first bytes followed by all payloads written to it, in order |
| `FileSystem.RunKeeps` | fs/file.c:286-492 | an inode no write went to is unchanged by the run |
| `CStrings.Strlen` | lib/string.c:54-59 | the length up to the first NUL |
| `CStrings.Strncmp` | lib/string.c:61-71 | the order of the signed bytes where the strings part, end or `size` is reached; so 0 iff the bytes up to and including position min(size, strlen a) agree, and string equality when size is the length of either |
| `Directories.SearchDirEntry` | fs/dir.c:47-111 | finds a live entry of that name, or there is none |
| `Directories.SyncDirEntry` | fs/dir.c:156-252 | the entry goes to the first free slot of the table, with size and block invariants kept and other inodes unchanged; with all 252 direct slots taken, behind a new table whether or not there was one; halts iff there are fewer free blocks than that needs |
| `FullDirectory.FirstOverflow` | fs/dir.c:195-221 | the first entry behind a table: ownership stays exact, the directory is no longer well formed |
| `FullDirectory.SecondOverflow` | fs/dir.c:195-221 | the second one: the old table and its block stay marked, are owned by no inode and not reserved |
| `Directories.DeleteDirEntry` | fs/dir.c:264-369 | frees the slot that leads to the inode iff there is one, and the block with it iff nothing else was in it; the invariant is kept |
| `DirectoryMap.InsertedMap` | fs/dir.c:156-252 | insertion is map update |
| `DirectoryMap.ErasedMap` | fs/dir.c:264-369 | deletion is map removal of the one name that leads to the inode |
| `DirectoryMap.SearchIsLookup` | fs/dir.c:47-111 | search is map lookup, both ways |
| `DirectoryMap.InsertDelete` | fs/dir.c:156-369 | inserting and deleting gives the inode and all entries back, whatever happened to other inodes meanwhile |
| `DirectoryMap.DirRead` | fs/dir.c:377-429 | the j-th call returns the j-th live entry, NULL iff there are no more |
| `DirectoryMap.ListAll` | fs/dir.c:377-429 | reading until NULL yields every live entry once, in order |
| `DirectoryMap.DirIsEmpty` | fs/dir.c:438-442 | the size test is exact: no live entry but the two dot entries |
| `DirectoryMap.EmptyHasOneBlock` | fs/dir.c:451-458 | an empty directory has only its first block: the ASSERT of dir_remove |
| `Unlink.MadeEntry` | fs/dir.c:138-145 | create_dir_entry: name, number and type read back as given |
| `Unlink.EntryLayout` | fs/dir.h:42-49 | the byte offsets of name, number and type in an entry |
| `Unlink.FileCreate` | fs/file.c:130-198 | a new empty inode and its entry, in the parent's slots or behind a new table; halts iff there is no free inode or there are too few free blocks |
| `Unlink.InodeRelease` | fs/inode.c:221-271 | stops the kernel iff the record it opens carries another number; otherwise the bits of exactly the inode's blocks and table are cleared, the inode is gone, its slot zero, and its ASSERTs on block numbers hold |
| `Unlink.UnlinkFile` | fs/fs.c:611-613 | delete_dir_entry, then inode_release with its exact halting condition; both bitmaps follow |
| `Unlink.LifeEnds` | fs/inode.c:221-223 | the ASSERT of inode_release at the end of a file's life holds iff the file's number is below 256 and is not the narrowed number of its directory |
| `Unlink.CreateWriteUnlink` | fs/fs.c:570-618 | create in a directory with a free slot, any number of writes, close, unlink: goes through exactly under that condition, and then inodes, directory entries, all other inodes and both bitmaps are as before, with any block the parent gained |
| `MakeDir.Mkdir` | fs/fs.c:655-718 | a new directory with its dot entries and an entry in the parent, in its slots or behind a new table; halts iff inodes or blocks run out |
| `MakeDir.Rmdir` | fs/fs.c:809-835 | removes iff there is no entry but the dot entries, and refusing changes nothing; the parent may be the directory itself, and then no entry is deleted |
| `Format.LayoutFits` | fs/fs.c:92-136 | for every admissible size the areas are contiguous and inside the partition and the bitmap covers all counted blocks |
| `Format.FillBitmap` | fs/fs.c:161-187 | the exact bits written, with the code's loop and with the intended one |
| `Format.ClearBitsInside` | fs/fs.c:161-187 | every clear bit is a sector of the partition with the intended loop; with the code's iff the bitmap's last sector is full or a sector was left uncounted |
| `Format.ClearBitOutside` | fs/fs.c:161-187 | at 621 sectors the code's loop leaves a clear bit for the sector behind the partition, the next to be handed out once the nine blocks are taken |
| `Format.FormatYields` | fs/fs.c:92-239 | for every admissible size, with the intended loop or under the exact condition of `ClearBitsInside`, formatting yields the state that the invariants start from |
| `Format.FormatEstablishes` | fs/fs.c:188-239 | the formatted partition satisfies the invariants |
| `Records.SyncedExactly` | fs/inode.c:67-158 | sync, then a fresh open: the record and its number come back iff the number is below 256 |
| `Records.SyncAt256` | fs/inode.c:67-71 | number 256: its own slot stays zero and the root's slot carries it |
| `SlotRefinement.SyncShows` | fs/inode.c:67-100 | inode_sync on the bytes of the table is the step on the slots that the file system works with |
| `SlotRefinement.DeleteShows` | fs/inode.c:189-213 | the same for inode_delete |
| `SlotRefinement.FetchRecord` | fs/inode.c:125-150 | inode_open reads the record that the slots have |
| `FsRuns.WriteStepInv` | fs/file.c:286-492 | file_write keeps the invariant of the whole partition |
| `FsRuns.CreateStepInv` | fs/file.c:130-198 | file_create in a directory with a free slot keeps it |
| `FsRuns.MkdirStepInv` | fs/fs.c:655-718 | sys_mkdir in a directory with a free slot keeps it |
| `FsRuns.RemoveStepInv` | fs/fs.c:570-835 | deleting an entry and releasing its inode keeps it |
| `FsRuns.Wholeness` | fs/file.c:85-93 | under the invariant no data block or table has two owners, a bit is set iff its block is owned or reserved, files and directories are well formed |
| `TreeRuns.EditedTree` | fs/dir.c:156-369 | adding or deleting the entry of a file keeps the directory tree and every level |
| `TreeRuns.PlantedTree` | fs/fs.c:655-718 | after sys_mkdir the new directory hangs one level below its parent and every other directory keeps its place |
| `TreeRuns.FelledTree` | fs/fs.c:809-835 | after sys_rmdir of an empty directory nobody has lost a parent |
| `TreeRuns.StillFit` | fs/dir.c:156-369 | a live entry is of directory type iff it leads to a directory, and its name has no slash: kept when a slot changes |
| `TreeRuns.WalkFacts` | fs/fs.c:299-367 | what search_file reports: a directory reached through an entry of the parent with the last name, a file with an entry in the parent, or a name that is in no entry |
| `TreeRuns.EmptyReached` | fs/fs.c:343-366 | the parent reported for an empty directory has its entry unless the last name is ".", and then it is the directory itself |
| `Histories.StepExactly` | fs/fs.c:370-835 | from a whole partition, a successful open, close, write, create, mkdir, unlink or rmdir by path leaves a whole partition (ownership, bitmaps, tree, slots that agree with the inodes) iff the caller was careful: a number below 256 is free, the parent has fewer than 252 entries, the directory is not open, the path does not end in "." |
| `Histories.FullParentFirst` | fs/dir.c:195-221 | the first creation in a full directory leaves exact ownership and a directory with a table |
| `Histories.FullParentSecond` | fs/dir.c:173-221 | the second one leaks the old table and its block |
| `Histories.SearchThroughFile` | fs/fs.c:345-347 | where "/f" is a file the search of "/f/x" ends at the same entry |
| `Histories.HistoryInv` | fs/fs.c:370-835 | every state reachable by careful calls from formatting is whole; formatting means one whose clear bits all name sectors of the disk, see `ClearBitsInside` |
| `SystemCalls.Write` | fs/file.c:286-492 | in a whole partition file_write's preconditions hold and its result is the step of the histories; too big iff more than 71680 bytes would result, and stopped iff it would be exactly that or blocks are missing |
| `SystemCalls.Create` | fs/fs.c:415-435 | the same for file_create; it stops iff all numbers are taken or blocks are missing, and the entry goes behind a table iff the parent has 252 entries |
| `SystemCalls.Mkdir` | fs/fs.c:625-718 | the same for sys_mkdir, which needs one block more |
| `SystemCalls.Unlink` | fs/fs.c:570-618 | sys_unlink of a file that is not open always goes through: no ASSERT fails |
| `SystemCalls.Rmdir` | fs/fs.c:809-835 | sys_rmdir removes exactly the empty directories, no ASSERT fails and no record is read with another number |
| `NameSpace.CreateNames` | fs/fs.c:415-435 | a careful sys_open with O_CREAT adds the last name of the path, with the new number, to the names of its directory; every other directory keeps its table |
| `NameSpace.MkdirNames` | fs/fs.c:655-718 | the same for sys_mkdir, and the new directory has the names "." and ".." |
| `NameSpace.UnlinkNames` | fs/fs.c:570-618 | sys_unlink takes away exactly the name at which the search stopped, which led to the inode |
| `NameSpace.RmdirNames` | fs/fs.c:809-835 | a careful sys_rmdir takes away exactly the last name of the path, which led to the directory |
| `NameSpace.StillNames` | fs/fs.c:394-492 | opening, closing and writing change no name |
| `Histories.Reachable` | fs/file.c:85-93 | in every such state, for the records inode_open returns: no data block or table has two owners, a bit is set iff its block is owned or reserved, files and directories are well formed |
| `Histories.ReachableAssert` | fs/inode.c:221-223 | in every such state the ASSERT of inode_release on the number holds |
| `Histories.ReachableContents` | fs/file.c:286-492 | over any stretch of a history in which a file is not removed it holds what it held followed by everything written to it, through closes and re-opens and whatever happens to other files |
| `Histories.ReachableByName` | fs/fs.c:844-961 | in every such state the directories form a tree, the path sys_getcwd writes for a directory resolves to it, and search_file finds it when the path is below 512 bytes |
| `Histories.CreateAt256` | fs/inode.c:67-71 | a file with number 256 leaves its own slot zero and its record in the root's |
| `Histories.UnlinkAt256` | fs/inode.c:221-223 | once it is closed the ASSERT of inode_release fails for it |
| `Histories.MkdirAt256` | fs/fs.c:655-718 | a directory with number 256 cannot be read back at all |
| `Histories.SearchSlashADot` | fs/fs.c:343-366 | where "/a" is a directory, search_file returns it for "/a/." with itself as the parent |
| `Histories.RmdirSlashADot` | fs/fs.c:809-835 | sys_rmdir of "/a/." leaves an entry that leads to a free inode |
| `Histories.DotDangles` | fs/dir.c:451-470 | the same for every path that ends in "." |
| `Histories.OpenLeaks` | fs/fs.c:423-435 | sys_open of a file that is there leaves the file's directory open, also after the file was closed |
| `Histories.OpensChange` | fs/inode.c:110-181 | only opening and closing change how often an inode is open, by exactly one each; a new file is open once |
| `Histories.OpenStays` | fs/fs.c:809-835 | sys_rmdir of a directory that is open elsewhere leaves an object without an inode in the list |
| `InodeTable.TwoSectors` | fs/inode.c:34-58 | two_sec iff the slot crosses a sector boundary |
| `InodeTable.SlotsApart` | fs/inode.c:34-58 | slots are disjoint and all inside the table |
| `InodeTable.RecordRoundTrip` | fs/inode.h:23-53 | the 76-byte record decodes to what was encoded |
| `InodeTable.RecordLayout` | fs/inode.h:24-56 | the byte offsets of the fields in the record, lowest byte first |
| `InodeTable.InodeDisk.Sync` | fs/inode.c:67-100 | exactly the 76 bytes of slot i_no mod 256 are rewritten, across sectors if need be |
| `InodeTable.InodeDisk.Delete` | fs/inode.c:189-213 | exactly the 76 bytes of the slot are zeroed, the number not narrowed |
| `InodeTable.InodeDisk.Fetch` | fs/inode.c:125-150 | decodes the slot's bytes from one or two sectors |
| `InodeTable.SyncOpen` | fs/inode.c:67-158 | below 256, sync then a fresh open returns the persistent fields; every other slot is unchanged |
| `InodeTable.SyncMisses` | fs/inode.c:67-71 | from 256 on the record lands in another slot and its own is stale |
| `InodeTable.OpenInodes.Open` | fs/inode.c:110-158 | one object per inode, its count one higher, all others the same, and a new object in front |
| `InodeTable.OpenInodes.Close` | fs/inode.c:165-181 | its count one lower, gone at zero, all others the same |
| `Paths.PathParse` | fs/fs.c:248-264 | the next component and the rest; the callers stop at a component that does not fit in their buffer |
| `Paths.Strrchr` | lib/string.c:84-95 | the last slash |
| `Paths.WashPath` | shell/buildin_cmd.c:17-57 | equals the stack fold over the components; runs over its name buffer iff a component has 16 bytes or more |
| `Paths.WashedNames` | shell/buildin_cmd.c:17-57 | the result has no ".", "..", or empty component and is the rendering of its own components |
| `Paths.WashTwice` | shell/buildin_cmd.c:17-57 | washing twice equals washing once |
| `Paths.RootStays` | shell/buildin_cmd.c:31-43 | ".." at the root stays at the root |
| `Paths.ComponentsSplit` | fs/fs.c:248-264 | the names of a path are the names of its parts, however many slashes stand between them |
| `Paths.WashDotFree` | shell/buildin_cmd.c:43-50 | leaving every "." out of the names changes nothing |
| `Paths.WashDot` | shell/buildin_cmd.c:43-50 | "/." anywhere in a path changes nothing |
| `Paths.WashUp` | shell/buildin_cmd.c:30-42 | a name followed by ".." cancels, wherever it stands |
| `Paths.WashRoot` | shell/buildin_cmd.c:30-42 | ".." in front of everything goes nowhere |
| `Paths.WashPlain` | shell/buildin_cmd.c:43-50 | a path without dot names becomes the rendering of its names |
| `Trees.SearchFile` | fs/fs.c:299-367 | the inode, the parent and how far it got, for every path, with the cases in which it halts on the length, returns what it never wrote or runs over its name buffer |
| `Trails.SearchFollows` | fs/fs.c:318-366 | in every tree a search returns r iff r is where the entries lead that bear the names of the path, one directory after the other, up to the first name that is missing or a file's |
| `Trees.SearchExactly` | fs/fs.c:299-367 | with short names the result equals resolving the components iff the path is "/" or has a component |
| `Trees.SearchTwoSlashes` | fs/fs.c:327-366 | for "//" the result is undefined |
| `Trees.FindsChild` | fs/fs.c:868-905 | the first slot with the child's number is the child's own entry, in every tree |
| `Trees.ChainResolves` | fs/fs.c:299-367 | the chain of names of a directory resolves to it |
| `Trees.GetcwdFound` | fs/fs.c:844-961 | search_file of the path of a directory returns that directory |
| `Trees.FileFound` | fs/fs.c:318-366 | search_file of the path of a regular file returns that file |
| `Trees.Getcwd` | fs/fs.c:915-961 | walking up terminates by depth and the reversed chain is the absolute path, which resolves to the directory; its buffer of 512 bytes overflows and its ASSERT fails exactly as stated |
| `Ide.Channel.Read` | device/ide.c:232-273 | commands tile the range in order, all but the last with 256 sectors, and the data is the range's |
| `Ide.Channel.Write` | device/ide.c:283-321 | commands tile the range in order, all but the last with 256 sectors, and exactly the range is written |
| `Ide.TilesCover` | device/ide.c:232-321 | every sector of the range is in exactly one command |
| `Ide.FewestCommands` | device/ide.c:232-321 | so no transfer takes more commands than its length needs |
| `Ide.Channel.WriteRead` | device/ide.c:232-321 | a read returns what was written, for any length |
| `IoQueue.Keyboard.Press` | device/keyboard.c:209-225 | a byte is dropped iff 63 are held, else appended and the sleeper woken |
| `IoQueue.Keyboard.Get` | device/io_queue.c:81-100 | takes the oldest byte, or sleeps iff the ring is empty; what was taken is a prefix of what was accepted |

## Left out

- boot code, interrupt entry, context switch, TSS, console, printing, `sys_ps`, the shell's command loop: machine setup and output.
- user_process/fork.c and exec.c, `partition_scan`, `identify_disk`, `busy_wait`, keyboard scan codes: hardware, or state shared in ways the models exclude.
- the user side of `malloc_page` (`get_user_pages`, `get_a_page`): page tables it allocates are never freed, so only the kernel side restores its state.
- the disk copies of the two bitmaps (`bitmap_sync`): the table's own bit is not synced by itself (fs/file.c:404-411), so all bitmap theorems are about the maps in memory.
- file descriptors, `write_deny`, `sys_lseek`, `path_depth_cnt`, `make_clear_abs_path`, a current directory that was removed, and calls that fail half-way (their rollback, and the opens they keep).
- file system calls that interleave: each file system operation is one step of a run.
- `io_buf` and `all_blocks` allocation failures, and the one-sector buffer that `file_write` passes to `inode_sync` (fs/file.c:292, 488): buffers are always there and large enough.
- TLB contents and the user and write bits of page-table entries; the counters `ticks` and `elapsed_ticks` of the timer handler, which no scheduling decision reads.
- Threads.StartSafe: thread_start's allocation and the all-threads list are not modelled; its two list operations are one step.
- Bitmaps.Bitmap.Scan: requires the byte behind the map to be readable, because the code reads it.
- Pages.KernelPages.MallocPage: after `Beyond`, which leaves a page outside the heap, nothing is claimed about later calls.
- Heaps.KernelHeap.SysMalloc: for kernel threads; the pointers that the free lists keep inside free blocks are arbitrary values, and the lists are sequences (the linked form is proved in IntrusiveLists).
- Heaps.KernelHeap.SysFree: requires a pointer that sys_malloc returned and that was not freed since.
- FileSystem.Partition.FileWrite: requires a buffer of at most 3 GiB, the size of the address space below the kernel, so that the size sum does not wrap.
- FileSystem.Partition.FileRead: requires a position inside the file or the one a zero-length write leaves on an empty file.
- Directories.DeleteDirEntry: requires a well-formed directory, which has no table: behind a table the source's count loop does not advance (fs/dir.c:337-341).
- Unlink.FileCreate: names have 1 to 15 characters: of a longer one `search_file` has already run over its name buffer.
- Unlink.InodeRelease: requires that a slot which carries the inode's number carries its record, which holds in every history.
- MakeDir.Rmdir: what happens after dir_open found a record with another number (`Astray`) is not followed.
- Histories.StepExactly: a call is a step if it succeeds and its path has a defined search (`SearchExactly`), and if the directory it works in is read back with its own number, which fails only after a call that was not careful.
- Trees.SearchFile: works on the entry tables; `Directories.SearchDirEntry` proves the lookup in one table on the disk's sectors.
- Format.FillBitmap: the buffer is one sector longer than the bitmap; for a bitmap of 608 sectors or more whose last sector is full the source's memset runs past its buffer.
- IoQueue.Keyboard.Get: one reader and the non-blocking keyboard producer; blocking producers and several readers are not modelled.

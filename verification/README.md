# Siath OS: a verified model of its kernel core

Siath OS is a small x86_64 kernel written in C and assembly. This project models the parts of it that are easy to get
wrong and proves what they are for: physical frames, page tables and process address spaces; the pointer gate of the
system calls; ELF loading and argument passing; the user-space and kernel heaps; the scheduler together with the
assembly that parks and resumes processes; SHA-256, HMAC and PBKDF2; mailboxes; path normalisation; the in-memory file
system. Code that changes things in place is modelled by classes and loops; what it promises is stated on values and
proved by lemmas. `dafny verify dfyconfig.toml` checks everything.

## The files

| file | what it models |
|---|---|
| PhysMemory, Alignment, FrameAllocator | memory as frames of bytes; multiples of 8, 16 and the page; the bitmap allocator |
| PageTables, TableDepth, Teardown, AddressSpaces | four-level tables in that memory, who owns which frame, how many tables a mapping makes, clone / map / unmap / free |
| UserRights | what the processor lets ring 3 do at an address, from the entries it walks |
| ProcessMemory, ClearedPages, UserMemory, Argv, ProcessCreation, ProcessLife, ElfLoader, SysExec | what a process maps: SYS_MMAP, SYS_DEV_MAP, the pointer gate, creation from an ELF image, argv, SYS_EXEC, a whole life |
| ElfImages | ELF images written field after field, and that the loader reads what was written |
| Counterexamples | runs on concrete memories, for properties the code does not have |
| UserHeap, SpudHeap | malloc and free of the user-space library |
| KernelHeap | kmalloc and kfree over the frame allocator |
| Scheduler, ActiveSpace, ContextSwitch, KernelSteps | the process table, which page tables CR3 holds, the processor with its kernel stacks, and all together |
| SchedulerLaws | what every step does to every process, who runs again, who waits for whom |
| Sha256, Pbkdf2, ByteBits | the hash, HMAC and key derivation |
| Sha256Constants, HashTraces, AnswerTraces, KnownAnswers | where the hash's constants come from, and published answers |
| Mailboxes, PathNormalize, RamFs, FileLaws | messages, paths, files |

## Main results

- Address spaces. Physical memory holds the real page-table words; each address space is the map those words translate
  to. Mapping changes exactly one page of one address space, unmapping it again gives the earlier map back where
  nothing was mapped, and freeing an address space frees exactly its own frames, each once: none that another process
  owns, and no table the kernel's PML4 reaches, although the PML4s share them.
- Frames, exactly. Every mapping takes the lowest free frame for each table that is missing on its walk and fails
  exactly when there are fewer. So SYS_MMAP and SYS_DEV_MAP succeed exactly when the free frames suffice for their
  pages and new tables, and what a failed call leaves is known page by page.
- Creating a process. With a slot and a kernel stack, the result, the bitmap after it and whether every page got
  mapped are functions of the bitmap before it and the segments: a segment fails exactly when no free run of its pages
  is left then, the stack exactly when no 16 frames in a row are left, and a free run of 1 + 4 * (pages + 16) frames
  is always enough.
- A process's life. Creation from page-disjoint segments, any mix of SYS_MMAP and SYS_DEV_MAP calls, exit and whatever
  the scheduler does then leave the frame bitmap and its counter as they were except in cases that are exact (below);
  every other process keeps its layout whatever happens.
- ELF. After a successful load every byte of every PT_LOAD segment the loader looks at reads back through the new page
  tables, zeros included. The loader gets back exactly the segments of any image written as the format asks. The
  program starts at the file's entry; SYS_EXEC copies its caller's argument vector exactly when it is readable, and
  the program finds those strings, in order, and a final null.
- Protection. From the entries the processor walks, on every level: ring 3 may execute exactly the segments with PF_X,
  write exactly those with PF_W and not PF_X, and read both; it may read and write, and not execute, the stack, the
  pages SYS_MMAP returns and the device window; and a call changes its rights nowhere else.
- User heap. Blocks with boundary tags tile the region after every call, the free list holds exactly the free blocks,
  payloads never change under the client's feet, and no two free blocks are neighbours unless a growth was in vain.
- Scheduling. In every reachable state exactly one process is RUNNING, and a READY process runs before the processor
  has been handed on more than 63 times; one that neither blocks nor exits runs again within 64 hand-overs from any
  moment on. Each step moves the processes between their states exactly as it should: the one left is READY, BLOCKED
  or TERMINATED by what it did, and no other changes unless it is chosen or woken. The process resumed always has a
  truthful context: an interrupted process gets back exactly its 15 registers and its frame on all three resume paths,
  and a new ring-3 process enters its program in user mode, interrupts on, with the stack pointer and the two
  arguments it was created with. From its creation until it exits a process with page tables of its own runs on them.
- SHA-256 equals FIPS 180-4 for every cut into updates. Its constants are the fractions of the roots of the first 64
  and 8 primes that the standard names, and it gives the standard's digest of "abc"; PBKDF2 gives the first answer of
  section 11 of RFC 7914. HMAC equals RFC 2104 also when the data or the key is the output array; PBKDF2 equals RFC
  8018 for an output array that is neither password nor salt.
- Paths. Normalising changes no result twice; "name/.." and "." make no difference, ".." at the root neither, and a
  relative path is the one below the working directory.
- Files. Over any sequence of calls on a new file system every call succeeds exactly when it must (a write that finds
  no memory exactly when the file's buffer, whose size follows from the calls, suffices), the nodes stay a tree, and a
  read gives what the last successful write to that file left, cut to the buffer. A file's buffer is the smallest of
  256, 512, 1024, ... that holds the most it ever held.

## What the code does not do

Each of these is a proved statement about the code as it stands (the members are named in brackets).

- When no 16 free frames in a row are left for the user stack, process creation returns -5 and abandons the address
  space it built. It happens, for a process of one page, with 75 frames free. A segment that fails gives all frames
  back exactly when there were frames for all the tables asked for before; the result of paging_map_user is not looked
  at. [ProcessCreation.FragmentedFails, Counterexamples.StarvedOfStack, ProcessCreation.CreateRegions]
- The frames of a process that lived come back when its slot is collected, except in two cases: the slot is reused
  before, which a process created right after the exit does exactly when every lower slot is in use; or it is
  collected while CR3 still holds its PML4, which right after the exit is so exactly when the next process has no page
  tables of its own (or the same). There are runs for each. [ProcessLife.Life, ActiveSpace.ReusedExactly,
  ActiveSpace.HeldAfterExit, Counterexamples.AfterExit]
- A segment with PF_R alone is mapped without the user bit: ring 3 cannot read it, although the pointer gate accepts
  its addresses and the kernel reads them. [ProcessCreation.ImageProtected, ElfLoader.Exec]
- A process parked in a C call (yield, block) regains its callee-saved registers when context_switch resumes it. When
  a timer interrupt resumes it, it finds those of the process that was interrupted; when an exit resumes it, zeros. So
  it regains them there exactly when they happen to be equal, or all zero. [KernelSteps.Kernel.Tick, ExitNow]
- malloc adds the tags neither to the request nor to the pages it asks for, and does not merge new pages with a free
  last block: a request within 32 bytes of a page multiple fails after growing, and leaves two free neighbours when
  the last block was free. [SpudHeap.GrownTooSmall, SpudHeap.SpudHeap.Malloc]
- kfree merges neighbours of the list without comparing addresses. That is right exactly when free neighbours of the
  list touch. With a second arena elsewhere, freeing everything leaves one block that covers foreign frames between
  the arenas; with a third arena there, a live block lies inside that free one. [KernelHeap.MergedExact,
  KernelHeap.FreedOverGap, KernelHeap.LiveInsideFree]
- kmalloc of more than 1 MB minus a header that finds no block uses up every run of 256 free frames and returns null.
  A request above 2^64 - 16 wraps to zero: it gets a payload of less than 64 bytes, or null after one more arena.
  [KernelHeap.KHeap.Kmalloc, Alignment.RoundedCovers]
- waitpid refuses a child whose slot was already collected, although its exit code was left in the parent, then and
  ever after. A parent already waiting gets the code exactly when no other child of it exits before it runs; otherwise
  it gets -1 or follows a null pointer. [Scheduler.CollectedRefused, Scheduler.WaitEnterExact, Scheduler.WaitAnswered]
- PBKDF2 uses at most 128 bytes of salt and runs at least once. [Pbkdf2.DeriveKey]
- SYS_DEV_MAP that fails leaves the pages it mapped, as many as there were frames for. A call for two pages that fails
  after one leaves that page mapped above what the process's counter says. [UserMemory.Process.DevMap,
  Counterexamples.StopsHalfway]
- The device window is never checked, and its running counter belongs to the slot: a new process starts where the
  slot's earlier owners stopped. 65536 calls of 1 MB use the window up, whoever made them, and the next one starts in
  the upper half. [Counterexamples.TwoOwners, Counterexamples.WindowUsedUp, UserMemory.WindowEnd]
- Nor is the heap kept below that window. SYS_MMAP that fails restores every translation exactly when no page it had
  mapped held a device leaf; one that succeeds overwrites a translation exactly when its range held one. A segment
  placed high enough makes both happen. A heap that starts 2 GB and 32 MB below the window never reaches it.
  [ClearedPages.ClearedRestores, UserMemory.HeapOverWindow, Counterexamples.HeapMeetsWindow, UserMemory.RoomForHeap]
- The ELF loader compares 64-bit sums that may wrap. Its tests let an entry through exactly when it is acceptable, or
  when its sum wraps into the file and its address is below the kernel half: 16 bytes that start 8 below 2^64 pass.
  [ElfLoader.EntryTestsExact, ElfLoader.WrappedThrough]

The API document differs from the code in three places: it says that freed blocks are not merged yet, that messages
are 64 bytes and that senders wait for a free slot; the code merges, carries 4096 bytes and drops the message. The
model follows the code.

## Model

| member | source | states |
|---|---|---|
| PhysMemory.PutWordReads | src/kernel/paging.c:95-115 | a 64-bit store is read back and leaves every other word of the page |
| PhysMemory.WordRoundTrip | src/kernel/paging.c:75-89 | words and bytes of memory are two views of one thing |
| FrameAllocator.Pmm.constructor | src/kernel/util.c:90-136 | after boot exactly the unavailable, reserved and low frames are marked, and the counter is their number |
| FrameAllocator.Pmm.Open | src/kernel/util.c:103-113 | one available region clears exactly the bits of the whole frames it offers |
| FrameAllocator.Pmm.Mark | src/kernel/util.c:80-89 | a reservation sets exactly the bits of the frames its bytes touch and keeps the counter exact |
| FrameAllocator.Pmm.Alloc | src/kernel/util.c:141-157 | the lowest run of free frames, never frame 0; null exactly when there is none; the counter stays the number of set bits |
| FrameAllocator.Pmm.Free | src/kernel/util.c:158-170 | clears the bits of the run and keeps the counter exact, so its clamp to zero is never taken; frame 0 stays in use exactly unless an address inside it is freed |
| FrameAllocator.CountSetRun | src/kernel/util.c:150-153 | taking a free run raises the count by its length |
| FrameAllocator.FreeUndoesAlloc | src/kernel/util.c:141-170 | freeing what was allocated restores the bitmap |
| FrameAllocator.LowFirstAlloc | src/kernel/util.c:141-157 | first fit takes every free stretch from its low end on |
| FrameAllocator.LowFirstLeaves | src/kernel/util.c:141-157 | so after u frames have been taken anywhere, all but the first u frames of a free run are still free |
| FrameAllocator.TakeRunIs | src/kernel/util.c:141-157 | the bitmap after an allocation is a function of the one before: its lowest free run is set |
| FrameAllocator.TakeOnesCount | src/kernel/util.c:141-157 | n requests for one frame take n frames, or all there are |
| TableDepth.AddTableDepth | src/kernel/paging.c:75-89 | a new table takes the walk of every address that shares it one level further, and no other |
| TableDepth.FreshTablesAre | src/kernel/paging.c:95-116 | the tables that pages need in a process are those they share neither with its earlier pages nor with each other |
| TableDepth.NextPageFits | src/kernel/paging.c:95-116 | a further page fits exactly when the frames for it and its missing tables are free |
| TableDepth.NextPageMade | src/kernel/paging.c:95-116 | what mapping it takes, and which walks it completes |
| PageTables.Digits | src/kernel/paging.c:50-53 | the four indices are the digits of the page number |
| PageTables.SamePageIsSameFrameOfAddresses | src/kernel/paging.c:50-53 | two user addresses have the same indices exactly when they are in the same page |
| PageTables.OwnEntry | src/kernel/paging.c:75-89 | a present entry of a process's table leads to a table of that process |
| PageTables.AddTableInv | src/kernel/paging.c:75-89 | a new empty table keeps the ownership invariant |
| PageTables.AddTableTranslate | src/kernel/paging.c:75-89 | a new empty table changes no translation of any address space |
| PageTables.SetLeafInv | src/kernel/paging.c:111-115 | writing a leaf keeps the ownership invariant |
| PageTables.SetLeafTranslate | src/kernel/paging.c:111-115 | writing a leaf changes the translation of exactly the page that reaches it |
| PageTables.TagsReach | src/kernel/paging.c:95-111 | a chain of tables from a root is a walk of its addresses |
| PageTables.ReachesOnePage | src/kernel/paging.c:95-111 | a leaf entry is reached by one page of one address space only |
| PageTables.SameKernel | src/kernel/paging.c:60-72 | the tables the kernel's PML4 reaches depend on nothing but those tables |
| PageTables.KernelStaysApart | src/kernel/paging.c:60-116 | a change that spares them keeps them in use and owned by no process |
| UserRights.RightsOfLeaf | src/kernel/paging.c:75-116 | what the processor lets ring 3 do at a user address, which takes the user, write and no-execute bits of all four levels, is what the leaf alone says: the tables above it, as the kernel makes them, take nothing away |
| Teardown.SharedEntry | src/kernel/paging.c:187-197 | comparing whole entries with the kernel's PML4 tells inherited slots from own ones |
| Teardown.SubtreeExact | src/kernel/paging.c:168-185 | freeing a subtree visits each table and each own leaf below it once, and nothing else |
| Teardown.SpaceExact | src/kernel/paging.c:187-198 | the frames freed are exactly those the address space owns, without repetition; none is a table the kernel's PML4 reaches |
| Teardown.FreedCount | src/kernel/paging.c:187-198 | the number of frames in use falls by the number of frames freed |
| Teardown.TornDownInv | src/kernel/paging.c:187-198 | all other address spaces keep their tables and frames, and the kernel's tables their contents and their frames |
| AddressSpaces.AddressSpaceTable.NewAddressSpace | src/kernel/paging.c:60-72 | a new PML4 equal to the kernel's in a frame that was free; nothing else changes |
| AddressSpaces.AddressSpaceTable.EnsureTable | src/kernel/paging.c:75-93 | the child table of an entry, made empty in the lowest free frame if missing; null exactly when it is missing and no frame is free; no translation changes |
| AddressSpaces.AddressSpaceTable.EnsureWalk | src/kernel/paging.c:97-111 | all tables on the walk of an address; fails exactly when fewer frames are free than tables are missing |
| AddressSpaces.AddressSpaceTable.MapUser | src/kernel/paging.c:95-116 | success sets the translation of exactly one page of one address space; failure changes none, and comes exactly when fewer frames are free than tables are missing |
| AddressSpaces.AddressSpaceTable.UnmapUser | src/kernel/paging.c:121-139 | clears exactly one translation and returns its frame, 0 if there was none |
| AddressSpaces.AddressSpaceTable.PhysOfUser | src/kernel/paging.c:144-163 | the physical address behind a user address, 0 when there is none (0 also for the first byte of a device page at address 0) |
| AddressSpaces.AddressSpaceTable.FreeSubtree | src/kernel/paging.c:168-185 | the recursion, bounded by level, frees what hangs below a table |
| AddressSpaces.AddressSpaceTable.FreeAddressSpace | src/kernel/paging.c:187-198 | frees exactly the frames the address space owns, each once |
| AddressSpaces.GrownThenMapped | src/kernel/paging.c:95-116 | making tables and then writing the leaf is one mapping |
| AddressSpaces.CloneInv | src/kernel/paging.c:60-72 | sharing the kernel's tables keeps the ownership invariant |
| ProcessMemory.MapThenUnmap | src/kernel/paging.c:95-139 | unmapping what was just mapped returns the frame, and restores every translation exactly when nothing was mapped there before |
| ProcessMemory.KernelKept | src/kernel/paging.c:95-116 | however much a process maps, the kernel's tables are the same frames with the same contents |
| ProcessMemory.ExtendedTransitive | src/kernel/syscall.c:484-550 | what two calls map is what one longer call would |
| ProcessMemory.LifeConserves | src/kernel/proc.c:615-636 | clone, any growth and teardown leave the bitmap as it was, up to frames whose mapping failed |
| UserMemory.Process.Mmap | src/kernel/syscall.c:484-530 | succeeds exactly when the free frames suffice for the pages and their tables; then a new contiguous range that ring 3 may read and write and may not execute, replacing the device leaves in it; a failed call leaves the k pages it got to without translation and everything else as before |
| UserMemory.Process.MapOne | src/kernel/syscall.c:509-516 | one page, a data leaf (user, writable, no-execute): fails exactly when the frame for it or a missing table is not to be had, and gives the frame back |
| UserMemory.DataRights | src/kernel/syscall.c:511-516 | pages mapped as data are memory that ring 3 may read and write and may not execute, as the processor decides it from the entries of all levels |
| UserMemory.RightsKept | src/kernel/paging.c:95-116 | at every other address, and in every other address space, ring 3 may do what it could before |
| ClearedPages.ClearedRestores | src/kernel/syscall.c:512-523 | a failed call restores every translation exactly when no page it had mapped held a leaf before |
| ClearedPages.WipePages | src/kernel/syscall.c:516-519 | the state before the call without the device leaves of those pages, from which the rollback is exact |
| UserMemory.Process.Rollback | src/kernel/syscall.c:512-523 | a failed call unmaps and frees every page it mapped |
| UserMemory.NextBaseContiguous | src/kernel/syscall.c:493-507 | the next call continues where this one ended |
| UserMemory.HeapBounded | src/kernel/syscall.c:493-530 | each heap page holds a frame of its own, so the heap is never larger than memory |
| UserMemory.RoomForHeap | src/kernel/syscall.c:493-507 | a heap that starts 2 GB and 32 MB below the device window never reaches it, whatever is asked for |
| UserMemory.HeapOverWindow | src/kernel/syscall.c:505-530 | a heap call that succeeds overwrites a translation exactly when its range held a device leaf |
| UserMemory.WindowEnd | src/kernel/syscall.c:537-548 | exactly when the next device address is in the upper half |
| UserMemory.Process.DevMap | src/kernel/syscall.c:531-550 | maps the device range in order into the window, readable and writable by ring 3 and not executable, without taking a data frame; succeeds exactly when the free frames suffice for the new tables; a failed call leaves as many pages as they sufficed for |
| UserMemory.Process.UserPtrOk | src/kernel/syscall.c:32-45 | accepts exactly ranges inside one region, every byte of them mapped; every mapped byte below the device window is accepted |
| UserMemory.Process.UserStr | src/kernel/syscall.c:57-70 | the string in the process's memory, each byte checked before it is read; refused exactly when there is none below the limit whose bytes all lie in recorded regions |
| Argv.Marshal | src/kernel/proc.c:200-224 | which arguments are laid down, where, with their pointers and the final null; what an argument that does not fit leaves |
| Argv.StringsDisjoint | src/kernel/proc.c:200-224 | strings overlap neither each other nor the pointer array |
| Argv.AdmittedFits | src/kernel/syscall.c:136-154 | 16 strings below 128 bytes always fit the zone |
| ProcessCreation.LoadSegment | src/kernel/proc.c:359-384 | one segment: its frames, bytes, zeros and what ring 3 may do with them, and the tables it makes; -10 exactly below the user area and -11 exactly when no free run of its pages is left, with nothing changed; a page stays unmapped exactly when the frames do not suffice for the tables |
| ProcessCreation.ImageProtected | src/kernel/proc.c:376-384 | by the processor's own rule, for every address of the segment: ring 3 may fetch exactly with PF_X, write exactly with PF_W and without PF_X, and read exactly with one of the two |
| ProcessCreation.LoadAll | src/kernel/proc.c:359-384 | all segments together, each readable through the new tables, up to exactly the first that fails; the bitmap after each of them as a function of the one before all |
| ProcessCreation.ImageLoaded | src/kernel/proc.c:372-384 | reading vaddr + k gives the file byte, and zero past the file part |
| ProcessCreation.BuildStack | src/kernel/proc.c:177-224 | the stack pages, which ring 3 may read and write and may not execute, and the argv block on the top one; fails exactly when no 16 free frames in a row are left |
| ProcessCreation.AdmittedArgvComplete | src/kernel/syscall.c:136-154 | nothing of an admitted argument vector is dropped |
| ProcessCreation.AdmittedFound | src/kernel/proc.c:200-224 | following argv through user addresses that ring 3 may read gives exactly the strings of an admitted vector, in order, and a final null |
| ProcessCreation.LayoutBuilt | src/kernel/proc.c:269-276 | the regions recorded for the pointer gate are exactly what the tables map |
| ProcessCreation.CreateRegions | src/kernel/proc.c:337-390 | which result comes, the bitmap after it and whether every page got mapped, as functions of the bitmap before; what is given back, what -5 abandons, what the program starts with, which tables it has; the slot keeps its device window's counter |
| ProcessCreation.SegmentsMore | src/kernel/proc.c:359-384 | the frames one more segment takes, from the pages mapped before it |
| ProcessCreation.RoomSuffices | src/kernel/proc.c:337-390 | a free run of 1 + 4 * (pages + 16) frames makes creation succeed |
| ProcessCreation.FragmentedFails | src/kernel/proc.c:386-387 | room for the segments but no 16 free frames in a row makes it return -5 |
| ProcessCreation.Collect | src/kernel/proc.c:615-636 | collection frees the address space unless CR3 still refers to it |
| ProcessLife.Life | src/kernel/proc.c:575-636 | from creation to collection, for every exit and everything the scheduler does after it, exactly when frames are conserved; no other process's layout changes; what the slot's counter is afterwards |
| ProcessLife.Calls | src/kernel/syscall.c:484-550 | any sequence of SYS_MMAP and SYS_DEV_MAP, refused requests included, keeps tables, regions and pointer gate in agreement |
| ProcessLife.LayoutIsolated | src/kernel/paging.c:95-116 | what one process maps never changes another's layout |
| ProcessLife.OthersKept | src/kernel/proc.c:337-390 | nor does creating, growing or tearing down a process |
| Counterexamples.WindowUsedUp | src/kernel/syscall.c:537-548 | 65536 calls of 1 MB use up the device window, whichever owners of the slot made them; the next address is in the upper half |
| Counterexamples.HighSegment | src/kernel/syscall.c:493-507 | a segment the loader accepts whose process's second heap page is the first device page |
| Counterexamples.StarvedOfStack | src/kernel/proc.c:386-387 | on a fragmented memory with 75 free frames, creating a process of one page returns -5 and loses frames |
| Counterexamples.AfterExit | src/kernel/proc.c:575-636 | a whole life on a booted machine, and exactly which of three runs after its exit give its frames back |
| Counterexamples.TwoOwners | src/kernel/syscall.c:537-548 | two lives in one slot: the second one's first device address is where the first one's last range ended |
| Counterexamples.StopsHalfway | src/kernel/syscall.c:540-546 | a device request that fails after one page, which stays mapped above the counter |
| Counterexamples.HeapMeetsWindow | src/kernel/syscall.c:505-530 | that segment's process: a heap call that succeeds puts its page where a device page was, one that fails leaves nothing there |
| Counterexamples.CreatesInRange | src/kernel/proc.c:337-390 | on a memory with one free stretch a creation takes its next frames, as many as it needs |
| ElfLoader.Decode | src/kernel/elf.c:10-12 | the little-endian value of n bytes |
| ElfLoader.Parse | src/kernel/elf.c:33-62 | accepts an image exactly when its header is good, it has a PT_LOAD entry and the first seven of them are acceptable, and gives their segments, for every image where no 64-bit sum wraps into the file |
| ElfLoader.AcceptableMeans | src/kernel/elf.c:41-62 | the entries that decide are those with fewer than seven PT_LOAD entries before them |
| ElfImages.WrittenIsRead | src/kernel/elf.c:33-62 | an image written field by field as the System V gABI lays it out, with one to seven segments whose addresses are below the kernel half, is accepted, and its segments and its entry are what the loader gets |
| ElfLoader.EntryTestsExact | src/kernel/elf.c:48-51 | the loader's tests of an entry pass exactly when it is acceptable or its 64-bit sum wraps into the file |
| ElfLoader.WrappedThrough | src/kernel/elf.c:48 | an image of 120 bytes with such an entry passes the tests, though it is not acceptable |
| ElfLoader.Exec | src/kernel/elf.c:21-80 | succeeds exactly when the image is accepted and creation succeeds, else -1; every segment looked at reads back byte for byte and ring 3 may do with it exactly what p_flags says as ImageProtected puts it, the stack is data memory, the program finds its arguments, and exactly when a failure loses frames |
| SysExec.CopyArgs | src/kernel/syscall.c:136-151 | the argument vector is copied exactly when it is readable: the array in a recorded region, each pointer null or to a string below 128 bytes |
| SysExec.CopiedAsFound | src/kernel/syscall.c:142-149 | what is copied is what the caller itself finds when it follows its vector |
| SysExec.SysExec | src/kernel/syscall.c:126-154 | the new program finds the strings that the caller's pointers gave, in order |
| UserHeap.Covered | src/userspace/spud.h:634-645 | every address of the region lies in exactly one block |
| UserHeap.MergedTiles | src/userspace/spud.h:703-723 | a block and its successor become one block, all others as before |
| UserHeap.SplitTiles | src/userspace/spud.h:664-677 | a block is cut in two, all others as before |
| UserHeap.LongerTiles | src/userspace/spud.h:646-659 | new pages at the end become one more block |
| UserHeap.UnlinkChain | src/userspace/spud.h:697-701 | taking a block off leaves the rest of the list, acyclic and complete |
| UserHeap.SplitChain | src/userspace/spud.h:664-677 | the remainder takes the place of its block on the list |
| SpudHeap.NeedCovers | src/userspace/spud.h:686-688 | the rounded request is enough exactly when the rounding does not wrap |
| SpudHeap.GrownTooSmall | src/userspace/spud.h:646-656 | growing is in vain exactly when the request ends within 32 bytes of its last page |
| SpudHeap.SpudHeap.AllocLocked | src/userspace/spud.h:660-685 | first fit; null exactly when no free block is large enough; only that block becomes allocated |
| SpudHeap.SpudHeap.Unlink | src/userspace/spud.h:697-701 | takes the block off the list if it is there, changing links only |
| SpudHeap.SpudHeap.Coalesce | src/userspace/spud.h:703-723 | the block ends with no free neighbour; allocated blocks untouched |
| SpudHeap.SpudHeap.Free | src/userspace/spud.h:724-731 | exactly that block stops being allocated, and no free blocks become neighbours |
| SpudHeap.SpudHeap.Grow | src/userspace/spud.h:646-659 | one more free block, first on the list; nothing when SYS_MMAP fails |
| SpudHeap.SpudHeap.Malloc | src/userspace/spud.h:686-695 | null exactly when nothing fits and growing failed or was too small; else a new payload, everything else untouched |
| SpudHeap.PayloadsApart | src/userspace/spud.h:634-645 | payloads of different blocks share no byte |
| SpudHeap.SpudHeap.Run | src/userspace/spud.h:646-731 | over any run of calls and stores the client finds everything it stored, and free neighbours only after a growth in vain |
| KernelHeap.JoinExact | src/kernel/util.c:251 | one merge keeps the addresses the heap owns exactly when the blocks touch |
| KernelHeap.MergedGood | src/kernel/util.c:246-253 | where free neighbours touch, the pass keeps blocks apart and owns the same addresses |
| KernelHeap.MergedExact | src/kernel/util.c:246-253 | on a list in address order, exactly then |
| KernelHeap.MergedNoPair | src/kernel/util.c:250-251 | after the pass no two free blocks are neighbours on the list |
| KernelHeap.MergedLive | src/kernel/util.c:250-251 | the pass never changes an allocated block |
| KernelHeap.FreedOverGap | src/kernel/util.c:246-254 | two arenas with a foreign frame between them, everything freed: the heap's one block covers a frame that is free for anyone |
| KernelHeap.LiveInsideFree | src/kernel/util.c:246-254 | with a third arena in the gap, a live block lies inside the merged free one |
| KernelHeap.TakenGood | src/kernel/util.c:217-228 | taking or cutting a block keeps blocks aligned and apart |
| KernelHeap.TakenContiguous | src/kernel/util.c:217-228 | and an arena tiled, with the same bounds |
| KernelHeap.KHeap.Init | src/kernel/util.c:197-208 | one free block over 1024 frames, if there is such a run |
| KernelHeap.KHeap.Kmalloc | src/kernel/util.c:209-236 | first fit with 16-aligned payloads; null in exactly the cases listed; a new arena is the lowest run of 256 free frames; the recursion ends because every call takes one |
| Alignment.RoundedCovers | src/kernel/util.c:211 | the rounded size covers the request exactly up to 2^64 - 16, and is zero above |
| KernelHeap.KHeap.Kfree | src/kernel/util.c:246-254 | frees exactly that block, leaves no free pair; valid while free neighbours touch |
| KernelHeap.KHeap.Serve | src/kernel/util.c:197-254 | while the first arena suffices, every run keeps it tiled with no free pair |
| Scheduler.PickNearest | src/kernel/proc.c:406-412 | the search finds the nearest READY slot going around |
| Scheduler.StartStarts | src/kernel/proc.c:561-573 | starting makes exactly one process RUNNING |
| Scheduler.StepSafe | src/kernel/proc.c:459-608 | every step keeps exactly one RUNNING process, the one at current_index, or halts |
| Scheduler.RunSafe | src/kernel/proc.c:459-608 | so does every run |
| Scheduler.StepCloser | src/kernel/proc.c:459-608 | each tick, yield, block or exit comes closer to every READY process |
| Scheduler.Fair | src/kernel/proc.c:406-412 | a READY process runs before the processor is handed on more than 63 times |
| Scheduler.WaitAnswered | src/kernel/proc.c:575-608 | a parent blocked in waitpid runs within 63 switches after its child exits and finds the exit code exactly when no other child of it exits first |
| Scheduler.WaitEnterExact | src/kernel/proc.c:641-653 | waitpid gives a code exactly when a slot still holds that child and its code is there |
| Scheduler.CollectedRefused | src/kernel/proc.c:615-653 | after exit and collection the code is there, and waitpid refuses the pid, then and after every further run |
| Scheduler.RunPids | src/kernel/proc.c:337-347 | no two slots in use share a pid, over every run |
| SchedulerLaws.LeavesBehind | src/kernel/proc.c:459-608 | the process that was running goes on, or is left READY by a tick or a yield, BLOCKED by a block and TERMINATED by an exit |
| SchedulerLaws.Enters | src/kernel/proc.c:459-608 | who gets the processor was READY, or is woken by this very step, and is RUNNING |
| SchedulerLaws.HandsOn | src/kernel/proc.c:406-533 | a tick, a yield or a block hands the processor on exactly when another process is READY; an exit halts exactly when none is and no parent is woken |
| SchedulerLaws.OthersStay | src/kernel/proc.c:459-608 | every other live process keeps slot, pid, parent and state, unless it gets the processor, is woken by its pid or is the blocked parent of the process that exits |
| SchedulerLaws.EndedGoes | src/kernel/proc.c:615-636 | a slot that is not in use comes into use by creation alone, and a terminated one becomes empty with the next tick, yield or collection |
| SchedulerLaws.RunsAgain | src/kernel/proc.c:406-516 | over every run in which a runnable process neither blocks nor exits it runs again within 64 hand-overs, counted from any moment, also one at which it is running |
| SchedulerLaws.CreatesOne | src/kernel/proc.c:337-356 | a creation takes one slot that was not in use, for a READY process with a pid nobody has whose parent is its creator or none, and changes nothing else; without such a slot it does nothing |
| SchedulerLaws.CreatorIsParent | src/kernel/proc.c:337-356 | a process and the child it just created are parent and child, the child READY |
| SchedulerLaws.WaitsExactly | src/kernel/proc.c:641-661 | a look at a child says keep waiting exactly while some slot in use holds a child with that pid and its code is not there |
| SchedulerLaws.KeepsWaiting | src/kernel/proc.c:641-661 | over every run in which neither exits, a parent is told to keep waiting for its child |
| Scheduler.Table.NextReadyFrom | src/kernel/proc.c:406-412 | the loop returns that slot, or -1 when there is none |
| Scheduler.Table.PreemptPick | src/kernel/proc.c:495-516 | a tick, as the step of the model whose effect on every process LeavesBehind, Enters and OthersStay state |
| Scheduler.Table.SchedYield | src/kernel/proc.c:459-488 | a yield, as a step of the model |
| Scheduler.Table.SchedBlock | src/kernel/proc.c:519-533 | a block, as a step of the model; alone, the process goes on |
| Scheduler.Table.Wakeup | src/kernel/proc.c:536-541 | wakes exactly the named process, if it is blocked |
| Scheduler.Table.ProcExit | src/kernel/proc.c:575-608 | an exit, as a step of the model; halts when nothing is READY |
| Scheduler.Table.GcRun | src/kernel/proc.c:615-636 | every terminated slot becomes free |
| Scheduler.Table.CreateProc | src/kernel/proc.c:337-356 | takes the first free slot |
| Scheduler.Table.RunFirst | src/kernel/proc.c:561-573 | the start, as a step of the model |
| Scheduler.Table.WaitOnce | src/kernel/proc.c:646-661 | one round of the wait loop: the code, none, wait on, or a null pointer followed |
| ActiveSpace.SlotOfDead | src/kernel/proc.c:615-636 | the slot of a process that has ended is emptied by collection, filled by creation, and touched by nothing else |
| ActiveSpace.ReusedExactly | src/kernel/proc.c:26-29 | a process created right after an exit gets that slot exactly when every lower slot is in use |
| ActiveSpace.HeldAfterExit | src/kernel/arch/x86_64/ctxswitch.asm:155-158 | after an exit CR3 still holds the old tables exactly when the next process has none of its own, or the same |
| ActiveSpace.NeverSkipped | src/kernel/proc.c:615-636 | where every process has page tables of its own no address space is skipped, whatever happens |
| ActiveSpace.RunsOnOwn | src/kernel/arch/x86_64/ctxswitch.asm:155-158 | over every run, from its creation until it exits, a process with page tables of its own runs on them, whatever the other processes are and do |
| ActiveSpace.ThreeFates | src/kernel/proc.c:575-636 | one run each that reuses, skips and frees |
| ContextSwitch.OrdersMatch | src/kernel/arch/x86_64/idt.asm:116-198 | registers are taken back in the reverse of the order in which they were saved |
| ContextSwitch.StaysTruthful | src/kernel/arch/x86_64/idt.asm:97-239 | a parked process stays as parked whatever other stacks hold |
| ContextSwitch.Machine.Enter | src/kernel/arch/x86_64/idt.asm:97-131 | an interrupt leaves the block of registers and frame on the right stack |
| ContextSwitch.Machine.ResumeFrame | src/kernel/arch/x86_64/idt.asm:183-202 | taking the block back gives exactly the registers and frame it holds |
| ContextSwitch.Machine.StubSwitch | src/kernel/arch/x86_64/idt.asm:134-210 | parks the interrupted process truthfully and resumes the other, by each of the three ways |
| ContextSwitch.Machine.SwitchContext | src/kernel/arch/x86_64/ctxswitch.asm:30-106 | parks the caller truthfully, resumes the other; a caller's registers come back |
| ContextSwitch.Machine.SwitchFirst | src/kernel/arch/x86_64/ctxswitch.asm:114-161 | enters or resumes; a C caller's saved registers come back as zeros |
| ContextSwitch.Machine.FirstStack | src/kernel/proc.c:237-254 | the first stack of a process, with its first iretq frame and the two argument words inside it; EnterProgram says that the frame is one of user mode |
| ContextSwitch.Machine.EnterUser | src/kernel/arch/x86_64/usermode.asm:21-35 | the trampoline loads exactly those words and that frame |
| KernelSteps.Kernel.Tick | src/kernel/isr.c:94-113 | every tick keeps all contexts truthful; an interrupted process is parked with and resumes with exactly what it had, in user mode if it was; CR3 and the saved values change as ActiveSpace says |
| KernelSteps.Kernel.YieldNow | src/kernel/proc.c:438-488 | the same for a yield; a C park regains its callee-saved registers |
| KernelSteps.Kernel.BlockNow | src/kernel/proc.c:519-533 | the same for a block |
| KernelSteps.Kernel.ExitNow | src/kernel/proc.c:575-608 | the same for an exit; a C park regains its callee-saved registers exactly when they were zero |
| KernelSteps.Kernel.Spawn | src/kernel/proc.c:237-276 | a new process will enter at its entry with its arguments, a user process with a frame of user mode (ring-3 selectors, interrupts on), and every further step keeps it so; nobody else is disturbed |
| KernelSteps.Kernel.EnterProgram | src/kernel/arch/x86_64/usermode.asm:21-35 | the program starts in user mode, interrupts on, with the entry, stack pointer and arguments it was created with, and its next interrupt lands on its own kernel stack |
| KernelSteps.Kernel.Boot | src/kernel/proc.c:561-573 | the first process enters, and all contexts are truthful from then on |
| KernelSteps.Kernel.Compute | src/kernel/arch/x86_64/idt.asm:97-239 | whatever the running process does on its own stack keeps them so |
| Sha256Stream.Context.ExpandBuf | src/kernel/crypto.c:35-41 | the loop computes the message schedule of section 6.2.2 of FIPS 180-4 |
| Sha256Stream.Context.CompressBuf | src/kernel/crypto.c:34-55 | one block of the hash computation, whose constants ConstantsFounded derives and whose answers KnownAnswers fixes |
| Sha256Stream.Context.Update | src/kernel/crypto.c:63-72 | the context stands for the message so far followed by the new bytes |
| Sha256Stream.PaddedIs | src/kernel/crypto.c:74-88 | both ways of filling the last blocks give the padding of section 5.1.1 |
| Sha256Stream.Context.Final | src/kernel/crypto.c:74-90 | the digest of everything fed |
| Sha256Stream.HashPieces | src/kernel/crypto.c:57-90 | however the message is cut into updates, the digest is SHA-256 of the whole |
| Sha256Constants.ConstantsFounded | src/kernel/crypto.c:19-60 | the 64 round constants are the first 32 bits of the fractions of the cube roots of the first 64 primes, and the 8 initial words those of the square roots of the first 8 |
| HashTraces.Traced | src/kernel/crypto.c:34-55 | a table of intermediate values whose every row follows from the ones before is what the compression of that block computes |
| KnownAnswers.Sha256OfAbc | src/kernel/crypto.c:34-90 | the digest of "abc" is that of appendix B.1 of FIPS 180-2, all 32 bytes |
| Pbkdf2.HmacSha256 | src/kernel/crypto.c:92-102 | HMAC of RFC 2104, also when data or key is the output array |
| Pbkdf2.BlockOf | src/kernel/crypto.c:110-125 | one block F of RFC 8018 |
| Pbkdf2.LastOut | src/kernel/crypto.c:122-125 | every iterate is in the block: taking the last one out again leaves the block of one iteration less |
| ByteBits.XorTwice | src/kernel/crypto.c:124 | exclusive or with the same byte twice changes nothing |
| Pbkdf2.DeriveKey | src/kernel/crypto.c:104-129 | PBKDF2 of RFC 8018 for every output length, with the salt cut to 128 bytes |
| KnownAnswers.DerivedFromPasswd | src/kernel/crypto.c:92-129 | the 64 bytes derived from "passwd" and "salt" with one iteration are those of section 11 of RFC 7914 |
| Mailboxes.PushIsAppend | src/kernel/ipc.c:32-37 | the ring is a queue; a message is dropped only when 64 wait |
| Mailboxes.PopIsTail | src/kernel/ipc.c:39-45 | the oldest message comes out |
| Mailboxes.TakenInOrder | src/kernel/ipc.c:24-124 | what a process received is at every moment the beginning of what was accepted for it |
| Mailboxes.Post.MailboxFor | src/kernel/ipc.c:24-31 | one mailbox a process, claimed on first use |
| Mailboxes.Post.Send | src/kernel/ipc.c:53-68 | the message, with its true sender, joins the queue; dropped only when 64 wait; the two errors exactly |
| Mailboxes.Post.TryReceive | src/kernel/ipc.c:110-124 | the next message not yet received, cut to the buffer; empty exactly when there is none |
| PathNormalize.RenderedComponents | src/kernel/vfs.c:85-123 | reading a rendered path gives back its components |
| PathNormalize.NormalIsProper | src/kernel/vfs.c:85-123 | a result is absolute, shorter than the buffer and free of empty, "." and ".." components |
| PathNormalize.Idempotent | src/kernel/vfs.c:85-123 | normalising a result changes nothing |
| PathNormalize.TakenBack | src/kernel/vfs.c:85-123 | wherever it stands in a path that fits the buffer, a name followed by ".." makes no difference, unless the path up to that name does not fit |
| PathNormalize.NothingAdded | src/kernel/vfs.c:85-123 | nor does a ".", or a slash too many |
| PathNormalize.RelativeIs | src/kernel/vfs.c:85-95 | a relative path gives what the working directory, a slash and the path give |
| PathNormalize.RootIsTop | src/kernel/vfs.c:100-110 | ".." at the root stays there |
| PathNormalize.LastSlashIs | src/kernel/vfs.c:105-108 | cutting at the last slash drops exactly the last component |
| PathNormalize.Normalize | src/kernel/vfs.c:85-123 | the loop does what the stack of components does, and fails exactly when the path would not fit |
| RamFs.FilesChildless | src/kernel/fs.c:163-194 | files have no children |
| RamFs.AllRooted | src/kernel/fs.c:163-194 | from every node one climbs through directories to the root |
| RamFs.SetTree | src/kernel/fs.c:163-231 | adding below a directory, rewriting, and removing what has nothing below it keep the tree |
| RamFs.Fs.Create | src/kernel/fs.c:163-194 | succeeds exactly for a new path below a directory with a node free; nothing else changes |
| RamFs.Fs.Write | src/kernel/fs.c:196-211 | replaces the contents of exactly that file; succeeds exactly when the data fit the old buffer or memory is found; how large the buffer is then |
| RamFs.Fs.Read | src/kernel/fs.c:213-220 | the contents cut to the buffer |
| RamFs.Fs.Remove | src/kernel/fs.c:222-231 | refuses exactly the root, missing paths and directories with something below |
| RamFs.Fs.Copy | src/kernel/fs.c:233-239 | a new file with the same contents in a buffer of its own; left empty when memory runs out |
| RamFs.Fs.Move | src/kernel/fs.c:241-245 | the contents change their path, everything else stays |
| RamFs.LastWriteStays | src/kernel/fs.c:196-220 | a file holds what the last successful write put there while nothing touches it |
| RamFs.Session | src/kernel/fs.c:152-245 | over any sequence of calls every one succeeds exactly when it must and every read gives what was last written, cut to the buffer |
| FileLaws.NextRead | src/kernel/fs.c:163-245 | what reading any path gives right after a call: nothing in a new file, the bytes just written, an error where something was removed, the source's bytes in a copy and at the new path of a move, and no difference anywhere else |
| FileLaws.RoomIsPeak | src/kernel/fs.c:196-211 | over every run a file's buffer is the smallest of 256, 512, 1024, ... that holds the most the file ever held, and none before it held anything |

## Left out

- The bitmap has one entry a frame; how 64 of them share a word is not shown.
- Hardware Accessed and Dirty bits are taken not to be set, as the comparison of whole PML4 entries needs.
- The TLB, caches and the control bits of CR3 are not part of this model.
- Entries into the kernel are atomic steps; interrupts inside ring-0 C code are not modelled, nor is stack overflow.
- The kernel's PML4 is taken to leave the user slots empty when a process is created (the placement of user addresses in the source relies on it).
- paging_map_device_identity, the flat-image variant proc_create_user_args and the argv of ring-0 processes are not modelled.
- Pages the kernel maps outside RAM read as zero in the walk; its own tables are taken to lie in RAM and to be marked in use at boot.
- UserMemory.Process.Mmap: calls after one that ended inside the device window are not covered; the process's records and its tables disagree from then on.
- UserMemory.Process.DevMap: requests it acts on must find room in the device window, which the source never checks; WindowUsedUp says when they do not.
- UserMemory.Process.UserStr: ring-0 callers, whose pointers are not checked, are excluded.
- SysExec.SysExec: the path is already resolved to the file's contents; a null array with a positive argument count, for which the source passes on uninitialised pointers, is excluded.
- ElfLoader.Parse: images where a sum on the way wraps into the file are excluded, as the loader then reads outside it; EntryTestsExact says which they are.
- ElfLoader.Exec: a memory size below the file size, segments sharing a page, and segments or a stack that reach the device window are excluded.
- ProcessCreation.CreateRegions: page-disjoint segments are required; on another layout the loader overwrites the earlier mapping.
- ProcessLife.Life: for a creation that succeeds, frames for all its page tables are assumed, and a heap placed 2 GB and 32 MB below the device window; the process in the slot is created once, what other processes map meanwhile is not shown.
- ActiveSpace.Step: ctx.cr3 of a slot that is not in use is not followed (the collector sets it to zero).
- ProcessCreation.Collect: the kernel stack and the kernel heap's arenas are accounted for in KernelHeap, not here.
- SpudHeap.SpudHeap.Malloc: requests above 2^64 - 16, whose rounding wraps to zero, are excluded; NeedCovers states the limit.
- SpudHeap.SpudHeap.Free: pointers that malloc did not return are excluded, as in C.
- UserHeap.FlagWord: the free flag is a whole word here; in C it is an int followed by padding.
- KernelHeap.KHeap.Kmalloc: the magic number and the halt on a wrong one are not shown.
- Scheduler.Table.CreateProc: pids grow without wrapping at 2^32; names, rights and capabilities are not shown.
- Scheduler.Table.WaitOnce: proc_waitpid's loop is one round of this and one block, as often as needed; the entry test is the function WaitEnter; the fields read through a null pointer are not modelled.
- sched_tick is never called and not modelled; SYS_YIELD from ring 3 does nothing.
- KernelSteps.Kernel.Tick: the C handler is taken to respect the calling convention; isr_park_check only prints.
- KernelSteps.Kernel.Spawn: the new kernel stack is taken to be 16-aligned and apart from the others; KernelHeap proves that of kmalloc.
- Sha256Stream.Context.Final: messages of 2^61 bytes and more are excluded, as in FIPS 180-4.
- Pbkdf2.DeriveKey: an iteration count of 2^32 - 1, with which the loop never ends, outputs beyond the limit of RFC 8018, and an output array that is the password or the salt are excluded.
- Pbkdf2.BlockOf: the iteration count 2^32 - 1, with which the loop never ends, is excluded.
- Mailboxes.Post.TryReceive: pid 0, which marks unused mailboxes, is excluded as a receiver; ipc_receive is this with a block while empty.
- PathNormalize.Normalize: a missing working directory is written "/", which it equals in every branch.
- RamFs.Fs.Create: ownership, permissions and the listing are not shown; paths are absolute, as vfs_normalize gives them.
- Devices, console, USB, the shell, the services and their stores are not part of this model.

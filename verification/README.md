# GalaxyOS: heap, memory, scheduling, messages, files and strings

A Dafny model of the parts of GalaxyOS, a small i386 kernel with its libc, whose correctness rests on
invariants over whole runs. The model follows the C code branch by branch; what the code promises is proved
about it for every input and every run.

| files | component |
|---|---|
| `HeapLayout`, `HeapImage`, `Liballoc` | the heap allocator, on raw memory bytes, in its kernel and its libc version |
| `PageTables`, `Paging`, `FramePool`, `Boot` | free frames, two-level page tables behind a recursive window, kernel page runs, and the boot code that sets them up |
| `ProgramBreak`, `Heaps`, `FreeAll`, `AddressSpaces`, `StackTables`, `ParkedTables` | the program break of one and of all processes; the memory of a process from its creation to its end; thread stacks |
| `SchedState`, `SchedProofs`, `SchedPick`, `SchedRuns`, `SchedEffects`, `SchedWaits`, `ThreadTable`, `Scheduler` | threads, processes, the round-robin queue and waiting |
| `InterfaceState`, `Interfaces` | named message queues |
| `Fat`, `FatFile` | reading files from FAT12, FAT16 and FAT32 volumes |
| `CStrings`, `Paths`, `VfsPaths` | `strtok_r` and its scans; printing a path and resolving it again |
| `ArgStack`, `EnvironList`, `Environ` | the argument image on a new stack; environment variables |
| `Memchr` | the word-at-a-time `memchr` |
| `Bytes`, `Errno`, `Wrappers` | little-endian memory, the error numbers, optional values |

Code that changes state step by step is a class or a method with the loops of the source (`Heap`, `Machine`,
`Process`, `Scheduler`, `Interface`, `Manager`, `Environment`, and the methods over arrays). Each such method is
proved against a specification on values, and the properties are proved about that specification: for
instance `Scheduler.PickNext` against `SchedPick.Pick`, and about `Pick` that it is safe and fair. The scheduler has two
invariants: `Sound`, which scheduling needs and every event keeps, and `Inv`, which the lifetime of processes needs
besides and which suspension for an interrupt breaks.

Some results are limits of the code. They are stated with the condition under which the code does what it
should, and proved in both directions where the table says "if and only if": the size of a request, the memory map, IRQ suspension
and the waiter counts, exit codes of processes that are killed after their end, the capacity of queue, thread table
and tid lists, reads that do not fit the clusters fetched, shadowed directories, variable names with '='.

Memory is sound outside the boot window, the first 12 MiB of kernel space: there the boot code maps low memory for
good, free frames and page tables included, and the frame of the screen twice. Its comment says that the tables are
cleared; the loop stores the low byte of the boot loader's magic number, 2, which leaves every entry not present.

Check the project with `dafny verify dfyconfig.toml` and the options
`--resource-limit 2000000 --verification-time-limit 0`.

## Model

| member | source | states |
|---|---|---|
| `HeapLayout.RoomIsAGap` | kernel/kernel/mem/liballoc.c:397-560 | a major has a free span of `need` bytes anywhere if and only if one of the gaps malloc examines (in front of the first minor, between two, behind the last) is that large |
| `HeapLayout.RoomFrom` | kernel/kernel/mem/liballoc.c:356-560 | there is room for a block exactly if that many bytes of some major, behind its header, belong to no block and no header: the one direction |
| `HeapLayout.RoomAt` | kernel/kernel/mem/liballoc.c:356-560 | and the other |
| `HeapLayout.GapsWithinFree` | kernel/kernel/mem/liballoc.c:356-395 | no gap is larger than `size - usage` of its major, since usage and gaps together make up the major |
| `HeapLayout.SmallMajorHasNoRoom` | kernel/kernel/mem/liballoc.c:356-395 | the case 1 skip is sound: a major whose `size - usage` is too small has no free span for the request |
| `HeapLayout.InsertGeometry` | kernel/kernel/mem/liballoc.c:397-560 | a block put into a fitting gap keeps the minors of a major sorted by address, disjoint and inside the major |
| `HeapLayout.RemoveGeometry` | kernel/kernel/mem/liballoc.c:685-697 | so does taking a block out |
| `HeapLayout.InsertSums` | kernel/kernel/mem/liballoc.c:397-560 | an insertion adds size + 24 to usage and size to the bytes in use |
| `HeapLayout.RemoveSums` | kernel/kernel/mem/liballoc.c:685-697 | a removal subtracts the same |
| `HeapLayout.InsertLive` | kernel/kernel/mem/liballoc.c:397-560 | an insertion makes exactly one allocation more live, whatever the other majors hold |
| `HeapLayout.RemoveLive` | kernel/kernel/mem/liballoc.c:685-697 | a removal makes exactly one allocation less live |
| `HeapLayout.BlocksDisjoint` | kernel/kernel/mem/liballoc.c:77-100 | any two different live allocations, in the same major or in different ones, do not overlap, headers included |
| `HeapImage.MajorStored` | kernel/kernel/mem/liballoc.c:62-80 | the six header words of a major are read back as stored, and no other header changes |
| `HeapImage.MinorStored` | kernel/kernel/mem/liballoc.c:81-100 | likewise for a minor |
| `HeapImage.PayloadPlacement` | kernel/kernel/mem/liballoc.c:35-58 | the payload lies 16-aligned inside its block, behind at least 16 bytes of alignment information, with `req_size` bytes before the end of the block |
| `HeapImage.InsertedRegion` | kernel/kernel/mem/liballoc.c:397-560 | storing the new header and relinking its two neighbours turns the bytes of a major into the encoding of the major with the block inserted |
| `HeapImage.RemovedRegion` | kernel/kernel/mem/liballoc.c:685-697 | relinking around a minor turns them into the encoding of the major without it |
| `HeapImage.AppendedRegion` | kernel/kernel/mem/liballoc.c:385-390 | linking a new major behind the last one encodes the longer list |
| `HeapImage.DroppedRegion` | kernel/kernel/mem/liballoc.c:702-711 | relinking around an empty major encodes the list without it |
| `HeapImage.PlacedHeap` | kernel/kernel/mem/liballoc.c:397-560 | the whole heap is encoded again after a placement, and no live payload has changed |
| `HeapImage.UnlinkedHeap` | kernel/kernel/mem/liballoc.c:685-697 | the whole heap is encoded again after an unlinking |
| `HeapImage.ShrunkHeap` | kernel/kernel/mem/liballoc.c:825-832 | recording a smaller request in place keeps the heap encoded and all payloads intact |
| `Liballoc.RequestArithmetic` | kernel/kernel/mem/liballoc.c:200-250 | the padded size and the page count of a request wrap around nowhere if and only if req + 80 is at most 2^32 - 4096 |
| `Liballoc.PagesLeast` | kernel/kernel/mem/liballoc.c:200-218 | a new major has 16 pages, or the least number of pages that holds the padded size and two headers |
| `Liballoc.WrappedRequest` | kernel/kernel/mem/liballoc.c:200-285 | for every request beyond that bound: what its padded size, the demand of the search and the size of a new major wrap to; the largest 32 get a block with at most 15 bytes for the payload |
| `Liballoc.Heap.FirstWrapped` | kernel/kernel/mem/liballoc.c:200-429 | the first request of an empty heap, if it is among the 80 largest but for 2^32 - 32: a pointer into a major of 64 KiB, recorded with the size requested |
| `Liballoc.Heap.StoreWrapped` | kernel/kernel/mem/liballoc.c:397-429 | the stores for it |
| `Liballoc.PlacedServed` | kernel/kernel/mem/liballoc.c:397-560 | a placement makes one new allocation live, of the requested size, with the returned pointer as its payload |
| `Liballoc.FreedLive` | kernel/kernel/mem/liballoc.c:608-731 | the layout free leaves has exactly the freed allocation less, also when the major goes |
| `Liballoc.Heap.constructor` | kernel/kernel/mem/liballoc.c:104-117 | an empty heap is well formed, for the kernel copy and the libc copy alike |
| `Liballoc.Heap.TakenByOthers` | kernel/kernel/mem/vmm.c:86-93 | pages that others take from the page source between two calls, whatever they write there, leave the heap well formed and all payloads intact |
| `HeapImage.AboveTop` | kernel/kernel/mem/vmm.c:86-93 | bytes above the last major mean nothing to the heap |
| `Liballoc.Heap.Align` | kernel/kernel/mem/liballoc.c:35-48 | moves a pointer to the next payload position and notes the distance 16 bytes in front of it |
| `Liballoc.Heap.LiveHeader` | kernel/kernel/mem/liballoc.c:51-58 | from the payload of any live allocation UNALIGN recovers exactly the pointer ALIGN started from, and the header in front of it is that of the allocation |
| `Liballoc.Heap.AllocateNewPage` | kernel/kernel/mem/liballoc.c:200-250 | a new major has the least number of pages, but at least 16, that holds size + 48 bytes, accounts for itself, and is refused exactly when the page source has fewer |
| `Liballoc.Heap.AppendMajor` | kernel/kernel/mem/liballoc.c:385-390 | the new major is linked behind the last, or nothing changes |
| `Liballoc.Heap.StoreBlock` | kernel/kernel/mem/liballoc.c:397-429 | the stores common to all cases: header, counters, first minor, alignment byte |
| `Liballoc.Heap.PlaceFirst` | kernel/kernel/mem/liballoc.c:397-429 | case 2: the first block of an empty major |
| `Liballoc.Heap.PlaceFront` | kernel/kernel/mem/liballoc.c:431-465 | case 3: in front of the first minor |
| `Liballoc.Heap.PlaceAfter` | kernel/kernel/mem/liballoc.c:468-560 | cases 4.1 and 4.2: behind a minor, at the end or in front of the next |
| `Liballoc.Heap.FindMinor` | kernel/kernel/mem/liballoc.c:468-560 | the walk over the minors returns the first with room behind it, and 0 only if no gap of the major is large enough |
| `Liballoc.Heap.PlaceInMajor` | kernel/kernel/mem/liballoc.c:397-560 | cases 2 to 4 for one major succeed exactly when it has a free span for header and block |
| `Liballoc.Heap.StartOfSearch` | kernel/kernel/mem/liballoc.c:326-341 | the search starts at the best bet exactly if the free bytes of that major exceed the need, and otherwise at the root |
| `Liballoc.Heap.PlaceInNewMajor` | kernel/kernel/mem/liballoc.c:385-390 | a major added when nothing else had room serves the request |
| `Liballoc.Heap.Search` | kernel/kernel/mem/liballoc.c:343-589 | the loop over the majors, with its restart at the root and its growth by a major, ends and has exactly the outcome of malloc |
| `Liballoc.Heap.RootThenSearch` | kernel/kernel/mem/liballoc.c:290-341 | the same with the creation of the first major in front of it |
| `Liballoc.Heap.Malloc` | kernel/kernel/mem/liballoc.c:256-606 | the heap is well formed again; one new allocation of the requested size is live, or 0 is returned; without a free span of req + 56 bytes exactly the least n >= 16 with req + 80 <= 4096 n pages are added, and 0 is returned if and only if fewer can be supplied; no other payload byte has changed |
| `Liballoc.Heap.Unlink` | kernel/kernel/mem/liballoc.c:685-697 | exactly the minor is unlinked and marked dead; all other payloads are intact |
| `Liballoc.Heap.ReleaseMajor` | kernel/kernel/mem/liballoc.c:702-711 | an empty major leaves the list, the root, the best bet and the totals |
| `Liballoc.Heap.CleanUp` | kernel/kernel/mem/liballoc.c:700-723 | only the kernel copy gives an emptied major back |
| `Liballoc.Heap.CountBadMagic` | kernel/kernel/mem/liballoc.c:632-653 | a bad magic number is counted, and as a possible overrun exactly when its low byte is right |
| `Liballoc.Heap.Free` | kernel/kernel/mem/liballoc.c:608-731 | of a live payload: exactly that allocation less; of anything else whose header can be read: only the counters change |
| `Liballoc.Heap.Copy` | kernel/kernel/mem/liballoc.c:130-153 | word by word and byte by byte, exactly n bytes are copied and no other byte changes |
| `Liballoc.Heap.ShrinkInPlace` | kernel/kernel/mem/liballoc.c:825-832 | realloc to a size that fits changes the recorded request and nothing else |
| `Liballoc.Heap.Move` | kernel/kernel/mem/liballoc.c:836-841 | a growing realloc replaces the allocation by one with the same leading bytes; without memory for it the copy to address 0 faults before anything is freed, unless there is nothing to copy |
| `Liballoc.Heap.ServeMeans` | kernel/kernel/mem/liballoc.c:836-838 | when malloc can serve the growing request, in numbers |
| `Liballoc.Heap.Carry` | kernel/kernel/mem/liballoc.c:838-841 | the copy and the release of the old block, once the new one is there |
| `Liballoc.Heap.Realloc` | kernel/kernel/mem/liballoc.c:753-842 | for every live payload and size: the allocation is replaced by one of the new size whose first min(old, new) bytes are the old ones and no other is disturbed; if it must grow and malloc has nothing, exactly then the call faults, or frees a block of size 0; size 0 frees, NULL allocates, other pointers change nothing |
| `PageTables.DirectoryWindow` | kernel/kernel/mem/vmm.c:28-29 | through the recursive slot the directory is read at 0xFFFFF000 |
| `PageTables.TableWindow` | kernel/kernel/mem/vmm.c:28-29 | and table i at 0xFFC00000 + 0x1000 i, if it is present |
| `PageTables.ResolveIsLookup` | kernel/kernel/mem/vmm.c:39-54 | below the window the two-level walk is the flat page-to-frame map |
| `PageTables.StoreEntry` | kernel/kernel/mem/vmm.c:79-106 | one store to a table entry changes one page of the flat map, in one space or, for kernel pages, in all, and no other translation of any space |
| `PageTables.StoreTable` | kernel/kernel/mem/vmm.c:86-93 | hooking a zeroed frame into an empty directory slot changes no translation and keeps table frames unshared |
| `PageTables.WhoseTable` | kernel/kernel/mem/vmm.c:79-106 | two directory entries name the same table only if they are the same entry or a shared kernel entry |
| `PageTables.MappingKeepsInjective` | kernel/kernel/mem/vmm.c:79-106 | mapping a frame that was mapped nowhere outside the boot window keeps every frame mapped at most once outside it |
| `PageTables.MappingUndone` | kernel/kernel/sched/sched.c:355-362 | unmapping the last page of a run undoes its mapping |
| `Paging.Machine.AllocFrame` | kernel/kernel/mem/pmm.c:51-64 | the top frame of the stack, which holds no table in use and is mapped at no page outside the boot window |
| `Paging.Machine.FreeFrame` | kernel/kernel/mem/pmm.c:67-69 | the frame becomes the top of the stack |
| `Paging.Machine.GetPhysaddr` | kernel/kernel/mem/vmm.c:39-54 | the flat translation plus the offset in the page, 0 if there is none |
| `Paging.Machine.UnmapPage` | kernel/kernel/mem/vmm.c:178-198 | exactly one page of the current space is no longer mapped; no directory and no data frame is written |
| `Paging.Machine.MapPresent` | kernel/kernel/mem/vmm.c:95-105 | exactly one page is mapped; a page already mapped is refused without `overwrite` |
| `Paging.EntryBits` | kernel/kernel/mem/vmm.c:102 | bit 0 of the word written is set, bits 1 to 11 are those of the flags, bits 12 to 31 those of the frame |
| `Paging.MappedWritable` | kernel/kernel/mem/vmm.c:86-106 | a user page mapped with the three low flags can be written by user code, since every user table is hooked in with them |
| `Paging.WritableBits` | kernel/kernel/mem/vmm.c:62-77 | what that means bit by bit, at both levels |
| `Paging.Machine.AddTable` | kernel/kernel/mem/vmm.c:86-93 | a new user table takes one frame, appears as one more kernel page, and changes no other translation |
| `Paging.Machine.MapPage` | kernel/kernel/mem/vmm.c:79-106 | the page is mapped to the frame with exactly the flags given and the present bit; with flags 7 at a user address user code can write it; besides it at most one kernel page, that of a new table, appears |
| `Paging.Machine.MapPagesK` | kernel/kernel/mem/vmm.c:109-123 | the run of frames appears at consecutive pages from the end of kernel memory |
| `Paging.Machine.UserRangeWritable` | kernel/kernel/mem/vmm.c:57-77 | true exactly if every byte of the range lies below the kernel on a page that is present, user and writable in both levels |
| `Paging.Machine.TakeFrames` | kernel/kernel/mem/liballoc-vmm.c:60-67 | the top `pages` frames of the stack, distinct and unused |
| `Paging.Machine.LiballocAlloc` | kernel/kernel/mem/liballoc-vmm.c:50-69 | for every n, also above 1024: n consecutive kernel pages on the n top frames of the stack, no table added |
| `Paging.Machine.ReleasePage` | kernel/kernel/mem/liballoc-vmm.c:73-82 | the page is unmapped and its frame, if it had one, is back on the stack; the frame of an ended directory counts as free |
| `Paging.Machine.PushAndUnmap` | kernel/kernel/mem/liballoc-vmm.c:73-82 | its frame goes on the stack and the page is unmapped |
| `Paging.Machine.LiballocFree` | kernel/kernel/mem/liballoc-vmm.c:71-85 | pages above the boot window are given back up to the first unmapped one, each with its own frame, a page directory too |
| `Paging.KernelRunAppend` | kernel/kernel/mem/liballoc-vmm.c:50-57 | two runs allocated one after the other are one run on the frames both took |
| `Paging.RunBits` | kernel/kernel/mem/liballoc-vmm.c:50-69 | kernel pages are writable and not for user code, each on its frame |
| `Paging.AllocFreeRoundTrip` | kernel/kernel/mem/liballoc-vmm.c:50-85 | freeing a run returns exactly its frames and restores every translation |
| `Paging.PoolBounded` | kernel/kernel/mem/pmm.c:33-34 | distinct frames never overflow the static stack |
| `Paging.Machine.constructor` | kernel/kernel/mem/vmm.c:32-33 | the static variables at the start |
| `Boot.BootTables` | kernel/kernel/i386/boot.S:61-116 | whatever memory held before, the stores of the boot code leave the first 12 MiB mapped linearly in two places, the screen at the last page of them, and all other slots not present |
| `Boot.DirectoryAt` | kernel/kernel/i386/boot.S:113 | the directory is reached in the linear window and through its last slot |
| `Boot.UnmapIdentity` | kernel/kernel/i386/boot.S:140-143 | the identity map is gone |
| `Boot.VmmInit` | kernel/kernel/mem/vmm.c:200-206 | every kernel slot has its table |
| `Boot.FirstSpace` | kernel/kernel/i386/boot.S:69-116 | the first space is well formed; it shows the linear window and nothing else |
| `Boot.ScreenTwice` | kernel/kernel/i386/boot.S:101-102 | the frame of the screen is mapped at two pages of the boot window |
| `Boot.LinearFrames` | kernel/kernel/i386/boot.S:69-102 | page n of the boot window shows frame n, the last one the screen, and none is for user code |
| `Boot.Boot` | kernel/kernel/kernel.c:133-134 | from any contents of memory the boot code, pmm_init and vmm_init establish the invariant of all later operations on memory |
| `Boot.FirstPool` | kernel/kernel/mem/pmm.c:82-88 | no frame on the first stack holds a table or is mapped outside the boot window |
| `FramePool.PagesFromExact` | kernel/kernel/mem/pmm.c:82-88 | the inner loop pushes every page of a region above the kernel once, also where its 32-bit addresses wrap |
| `FramePool.FramesExact` | kernel/kernel/mem/pmm.c:71-93 | whatever the memory map, the initial stack holds exactly the pages of available memory above the kernel image, by the low words of their addresses |
| `FramePool.FramesDistinct` | kernel/kernel/mem/pmm.c:71-93 | no page is on the stack twice if and only if no two available regions share a page above the kernel in 32 bits |
| `FramePool.FramesFit` | kernel/kernel/mem/pmm.c:33-34 | then the static stack is large enough |
| `FramePool.PcMapOk` | kernel/kernel/mem/pmm.c:71-93 | an ordinary memory map with unaligned and topmost reserved regions: exactly which frames are on the stack |
| `FramePool.HighMemoryTwice` | kernel/kernel/mem/pmm.c:82-88 | with 1 GiB of memory above 4 GiB pages are on the stack twice |
| `FramePool.FillStack` | kernel/kernel/mem/pmm.c:71-93 | the nested loops fill the stack with these frames, as long as the static array has room |
| `FramePool.FramesConserved` | kernel/kernel/mem/pmm.c:51-69 | in every run in which frames are freed once, free and handed-out frames partition the initial stack without duplicates |
| `ProgramBreak.GrowOnePage` | kernel/kernel/sched/sched.c:335-346 | one more heap page on a fresh frame, or nothing if the reserve is reached or the page is taken |
| `ProgramBreak.GrowPages` | kernel/kernel/sched/sched.c:333-346 | the growing loop; with enough frames it stops early only at a page that is already mapped |
| `ProgramBreak.GrowingStep` | kernel/kernel/sched/sched.c:335-346 | frames are conserved page by page: what left the stack is data or a new table |
| `ProgramBreak.GrowingUndone` | kernel/kernel/sched/sched.c:355-362 | rolling one page back is the inverse of that step |
| `ProgramBreak.RollBack` | kernel/kernel/sched/sched.c:355-362 | after a failed growth the break fields and the heap mapping are as before and every data frame is back; only new tables stay |
| `ProgramBreak.ShrinkPages` | kernel/kernel/sched/sched.c:368-376 | exactly the pages above the new end are unmapped and exactly their frames returned, also while a directory is already on the stack |
| `ProgramBreak.GrowBreak` | kernel/kernel/sched/sched.c:324-363 | growing is all or nothing, and succeeds whenever frames suffice and the pages are free; the stack never runs empty |
| `ProgramBreak.ShrinkBreak` | kernel/kernel/sched/sched.c:364-380 | shrinking always succeeds |
| `ProgramBreak.HeapGrown` | kernel/kernel/sched/sched.c:324-363 | old heap pages keep their data frames through a growth and its rollback |
| `ProgramBreak.SetBrk` | kernel/kernel/sched/sched.c:292-387 | over every call pgbrk - brk_offset stays, brk <= pgbrk < brk + 4096 with all heap pages mapped to distinct data frames, and each kind of request has exactly its effect (in numbers: GrowBy, ShrinkBy, RefuseBreak) |
| `ProgramBreak.GrowBy` | kernel/kernel/sched/sched.c:292-363 | for every n >= 1: a request that ends n pages above the heap, below the stack region, succeeds if the pages are unmapped and n + n / 1024 + 10 frames are free; then exactly these n pages are new and user code can write them; with fewer than n + n / 1024 + 2 frames, or a page that is mapped, it fails and no user page changes |
| `ProgramBreak.ShrinkBy` | kernel/kernel/sched/sched.c:364-380 | for every n: a request that ends n pages below the end succeeds, unmaps exactly these pages and returns n frames |
| `ProgramBreak.RefuseBreak` | kernel/kernel/sched/sched.c:292-307 | a query, and requests below the loader's break or above 0xBFC00000, change nothing |
| `ProgramBreak.GrownWritable` | kernel/kernel/sched/sched.c:335-346 | every page a growth maps can be written by user code |
| `ProgramBreak.GrowOrUndo` | kernel/kernel/sched/sched.c:324-363 | the growing loop with its rollback: all pages or none |
| `ProgramBreak.TryGrow` | kernel/kernel/sched/sched.c:324-346 | the test for enough frames and the growing loop; with enough frames only a mapped page stops it |
| `Heaps.OtherGrows` | kernel/kernel/sched/sched.c:324-363 | a growth leaves the pages of every other space as they are, and none of their frames becomes a table |
| `Heaps.OtherShrinks` | kernel/kernel/sched/sched.c:364-380 | so does a shrinking |
| `Heaps.HeapsApart` | kernel/kernel/sched/sched.c:335-346 | no frame is a heap page of two processes |
| `Heaps.CallTotals` | kernel/kernel/sched/sched.c:292-387 | frames on the stack, kernel pages and heap pages together stay the same |
| `Heaps.SetBrkCall` | kernel/kernel/sched/sched.c:292-387 | every call does nothing, shrinks the heap of its process or grows it |
| `Heaps.SetBrkAmong` | kernel/kernel/sched/sched.c:292-387 | a call for one of any number of processes keeps all their heaps and the total of frames |
| `Heaps.SetBrkRun` | kernel/kernel/sched/sched.c:292-387 | so does every sequence of calls by any of them |
| `FreeAll.FreeRegions` | kernel/kernel/sched/sched.c:404-414 | every page of every region is unmapped, exactly the frames behind them are pushed, and no other translation changes |
| `FreeAll.BothCleared` | kernel/kernel/sched/sched.c:393-422 | heap and regions together: frames of both are on the stack, also where they overlap |
| `FreeAll.SchedFreeAll` | kernel/kernel/sched/sched.c:393-422 | afterwards no heap or region page is mapped and exactly the frames behind them are back; the directory may already be on the stack, where it stays, and is not written |
| `FreeAll.PushedAddress` | kernel/kernel/sched/sched.c:407-411 | the address pushed for a region page is that of a frame if and only if the region is page-aligned |
| `AddressSpaces.NewSpaceOk` | kernel/kernel/sched/sched.c:271-277 | a zeroed directory with 256 copied entries and its own slot keeps all address spaces well formed |
| `AddressSpaces.NewSpaceView` | kernel/kernel/sched/sched.c:271-277 | it shows the kernel pages and no others, and is the only new table |
| `AddressSpaces.NewSpaceInjective` | kernel/kernel/sched/sched.c:271-277 | every frame stays mapped at most once outside the boot window |
| `AddressSpaces.FillDirectory` | kernel/kernel/sched/sched.c:271-277 | the copying loop and the store of the last slot change no translation of any other space |
| `AddressSpaces.CreateSpace` | kernel/kernel/sched/sched.c:243-277 | the directory of a new process on the top frame of the stack; every earlier translation stays but for the one more kernel page |
| `AddressSpaces.FreeDirectory` | kernel/kernel/sched/sched.c:540 | the directory goes on the stack although its space is still used |
| `AddressSpaces.ReapMemory` | kernel/kernel/sched/sched.c:524-565 | exactly the directory, the heap and the regions of the process are given back; no other translation and no directory changes |
| `AddressSpaces.FewerSpaces` | kernel/kernel/sched/sched.c:559-561 | without the ended space the stack holds free frames only |
| `AddressSpaces.Retire` | kernel/kernel/sched/sched.c:559-561 | once another space is loaded the invariant holds in full again |
| `AddressSpaces.WhenHandedOut` | kernel/kernel/sched/pload.c:141-188 | n frames taken one after the other contain a given frame of the stack if and only if n exceeds the number of frames above it |
| `AddressSpaces.TakeWhileLoaded` | kernel/kernel/sched/pload.c:141-188 | frames taken while a freed directory may still be loaded are in no use, except that they contain its frame if and only if more are taken than lie above it |
| `AddressSpaces.SpaceRoundTrip` | kernel/kernel/sched/sched.c:243-565 | creating a space and reaping it restores the free frames and every translation |
| `StackTables.SwitchSpaces` | kernel/kernel/mem/vmm.c:166-176 | hooking a parked table into the stack slot keeps all spaces well formed |
| `StackTables.SwitchTables` | kernel/kernel/mem/vmm.c:166-176 | the table it replaces is the only one that is none any more |
| `StackTables.SwitchLookup` | kernel/kernel/mem/vmm.c:166-176 | exactly the stack pages of the space change, to what the new table maps |
| `StackTables.SwitchInjective` | kernel/kernel/mem/vmm.c:166-176 | every frame stays mapped at most once outside the boot window |
| `StackTables.SwitchPool` | kernel/kernel/mem/vmm.c:166-176 | the frames on the stack of free ones stay free |
| `StackTables.SwitchParked` | kernel/kernel/mem/vmm.c:166-176 | the replaced table is parked: what it maps is visible nowhere, free nowhere, and held by no other parked table |
| `StackTables.SwitchBack` | kernel/kernel/mem/vmm.c:166-176 | switching to another stack and back restores every translation |
| `StackTables.MapStack` | kernel/kernel/mem/vmm.c:160-164 | the table of a new thread is one more parked table |
| `StackTables.SwitchStack` | kernel/kernel/mem/vmm.c:166-176 | switching stacks keeps the invariant of memory and of the parked tables, also when the table is hooked in already |
| `StackTables.FaultKeepsParked` | kernel/kernel/sched/sched.c:699-712 | a page mapped on a frame from the stack of free ones keeps what is parked hidden |
| `StackTables.StackFault` | kernel/kernel/sched/sched.c:699-712 | a fault in the stack region maps one page on the top frame, which user code can write, and keeps both invariants |
| `ParkedTables.KeepsParked` | kernel/kernel/mem/vmm.c:160-176 | what writes only to tables and free frames, shows only what was visible or free, and gives back only user data and tables, leaves the parked tables and what they map alone |
| `ParkedTables.AllocKeepsParked` | kernel/kernel/mem/liballoc-vmm.c:50-69 | so does liballoc_alloc |
| `ParkedTables.SetBrkKeepsParked` | kernel/kernel/sched/sched.c:292-387 | and every call for the program break |
| `ParkedTables.CreateKeepsParked` | kernel/kernel/sched/sched.c:243-277 | and the creation of a space |
| `ParkedTables.ReapKeepsParked` | kernel/kernel/sched/sched.c:524-565 | and the reaping of one |
| `SchedEffects.WaitEffect` | kernel/kernel/sched/sched.c:464-479 | wait() returns 0, makes its caller WAITING on the pid and counts it in that record, and changes nothing else; without a record it answers -ESRCH, for its own process -EINVAL, and changes nothing |
| `SchedEffects.KillAnswer` | kernel/kernel/sched/sched.c:435-444 | what kill() answers, in the order of the source |
| `SchedEffects.ForkEffect` | kernel/kernel/sched/sched.c:77-164 | what a new thread is like, and that nothing else changes |
| `SchedEffects.SpawnEffect` | kernel/kernel/sched/sched.c:217-283 | what a new process and its thread are like, with the privilege asked for |
| `SchedEffects.WaitMessageEffect` | kernel/kernel/sched/interface.c:211-220 | waiting for a message blocks exactly the caller |
| `SchedEffects.WakeEffect` | kernel/kernel/sched/interface.c:82-89 | deleting a queue makes exactly its waiters RUNNING |
| `SchedEffects.InterruptEffect` | kernel/kernel/sched/sched.c:452-505 | a suspended thread runs again exactly with its own interrupt |
| `SchedEffects.StartEffect` | kernel/kernel/sched/sched.c:638-656 | the turn of a STARTING thread: it runs unless its process must be loaded and cannot |
| `SchedEffects.MessageEffect` | kernel/kernel/sched/sched.c:613-622 | the turn of a thread that waits for a message |
| `SchedEffects.ExitingEffect` | kernel/kernel/sched/sched.c:657-663 | the turn of a thread that has ended alone |
| `SchedEffects.DeadEffect` | kernel/kernel/sched/sched.c:664-685 | the turn of a dead thread: it is freed, leaves the queue, and is a waiter less where its `wait` says |
| `SchedEffects.SuspendedEffect` | kernel/kernel/sched/sched.c:600-612 | the turn of a suspended thread does nothing |
| `SchedEffects.RunningEffect` | kernel/kernel/sched/sched.c:600-612 | a running thread is selected at its turn |
| `SchedEffects.WaiterEffect` | kernel/kernel/sched/sched.c:507-522 | the turn of a thread that waits for a process: nothing while threads are listed, else it is selected with the exit code and counted no more |
| `SchedProofs.WaitersAfterSet` | kernel/kernel/sched/sched.c:464-479 | how one thread changes the number of threads waiting for a process |
| `SchedProofs.ReapSound` | kernel/kernel/sched/sched.c:524-565 | reaping a process whose listed threads are all still there keeps what scheduling needs: queue entries distinct and exactly the threads not freed, owners alive, the idle thread ready |
| `SchedProofs.ForkSound` | kernel/kernel/sched/sched.c:77-164 | so does a new thread of a living process |
| `SchedProofs.SpawnSound` | kernel/kernel/sched/pload.c:52-103 | and a new process with its first thread |
| `SchedProofs.WaitSound` | kernel/kernel/sched/sched.c:464-479 | and wait() |
| `SchedProofs.WaitMessageSound` | kernel/kernel/sched/interface.c:211-220 | and waiting for a message |
| `SchedProofs.WakeSound` | kernel/kernel/sched/interface.c:82-89 | and the deletion of a message queue |
| `SchedProofs.SuspendSound` | kernel/kernel/sched/sched.c:452-462 | and the suspension of the running thread for an interrupt |
| `SchedProofs.InterruptSound` | kernel/kernel/sched/sched.c:495-505 | and the interrupt |
| `SchedProofs.ThreadExitSound` | kernel/kernel/sched/sched.c:431-433 | and the end of a single thread |
| `SchedProofs.ExitSound` | kernel/kernel/sched/sched.c:424-429 | and exit(), with all threads of the process still there |
| `SchedProofs.KillSound` | kernel/kernel/sched/sched.c:435-444 | and kill(), likewise |
| `SchedProofs.ResumeSound` | kernel/kernel/sched/sched.c:623-636 | and resuming a waiter |
| `SchedProofs.BurySound` | kernel/kernel/sched/sched.c:664-685 | and freeing a dead thread |
| `SchedProofs.StartSound` | kernel/kernel/sched/sched.c:638-656 | and starting a thread |
| `SchedProofs.VisitSound` | kernel/kernel/sched/sched.c:600-686 | so every turn of the scheduling loop keeps it, with threads in any state |
| `SchedProofs.ReapInv` | kernel/kernel/sched/sched.c:524-565 | reaping an ended process keeps, besides, what the lifetime of processes needs: thread lists exact, waiter counts exact, no thread suspended |
| `SchedProofs.ForkInv` | kernel/kernel/sched/sched.c:77-164 | so does a new thread of a living process |
| `SchedProofs.SpawnInv` | kernel/kernel/sched/pload.c:52-103 | and a new process with its first thread |
| `SchedProofs.WaitInv` | kernel/kernel/sched/sched.c:464-479 | and wait(), by a user thread or by the kernel's own |
| `SchedProofs.WaitMessageInv` | kernel/kernel/sched/interface.c:211-220 | and waiting for a message |
| `SchedProofs.WakeInv` | kernel/kernel/sched/interface.c:82-89 | and the waking of all threads that wait on a deleted message queue |
| `SchedProofs.ExitInv` | kernel/kernel/sched/sched.c:424-429 | and exit() |
| `SchedProofs.KillInv` | kernel/kernel/sched/sched.c:435-444 | and kill() |
| `SchedProofs.NoPanicReachable` | kernel/kernel/sched/sched.c:589-599 | for the thread taken in any turn none of the three panics can happen, with threads in any state |
| `SchedProofs.ResumeInv` | kernel/kernel/sched/sched.c:623-636 | resuming a waiter, with the second reaping, keeps the invariant |
| `SchedProofs.BuryInv` | kernel/kernel/sched/sched.c:664-685 | removing and freeing a dead thread keeps it, the waiter count included |
| `SchedProofs.StartInv` | kernel/kernel/sched/sched.c:638-656 | starting a thread keeps it |
| `SchedProofs.VisitInv` | kernel/kernel/sched/sched.c:600-686 | every turn of the scheduling loop keeps it, if no thread is suspended or ending alone |
| `SchedPick.PickFromSafe` | kernel/kernel/sched/sched.c:569-688 | with threads in any state, suspended and ending ones included: a pick ends with a running thread of a live process, chooses the idle thread only if no queued thread was running, and leaves the queue in order without the freed threads |
| `SchedPick.PickProgress` | kernel/kernel/sched/sched.c:569-688 | each pick selects a given ready thread or brings it strictly closer to its turn |
| `SchedPick.SelectedWithin` | kernel/kernel/sched/sched.c:569-688 | a ready thread is selected within as many picks as entries lie in front of it |
| `SchedPick.BoundedWaiting` | kernel/kernel/sched/sched.c:488-493 | a queued thread that stays ready is selected within `queue_end` picks while no thread is created, whatever the other threads do in between |
| `SchedRuns.EndedProcess` | kernel/kernel/sched/sched.c:524-565 | the end of a process kills exactly its threads, keeps its record exactly if somebody waits for it, and touches nothing else |
| `SchedRuns.ExitEnds` | kernel/kernel/sched/sched.c:424-429 | exit() ends the calling process with the given code |
| `SchedRuns.KillEnds` | kernel/kernel/sched/sched.c:435-444 | kill() succeeds exactly for another process with a record and no higher privilege, ended ones that are still waited for included; it ends it with the caller's pid + 255; otherwise nothing changes |
| `SchedRuns.KillOfEnded` | kernel/kernel/sched/sched.c:435-444 | a process that has ended and is kept for a waiter can be killed once more, and its exit code is then the killer's pid + 255 |
| `SchedRuns.VisitAwaiting` | kernel/kernel/sched/sched.c:507-522 | a waiting thread stays waiting until the process has ended |
| `SchedRuns.PickFromExitCode` | kernel/kernel/sched/sched.c:623-636 | a thread that a pick wakes from wait(p) gets the code in the record of p, and p has ended |
| `SchedRuns.ResumedWithExitCode` | kernel/kernel/sched/sched.c:569-688 | the same for whole picks |
| `SchedRuns.PickFromKeepsExits` | kernel/kernel/sched/sched.c:569-688 | a pick ends no process and changes no exit code |
| `SchedRuns.StepExits` | kernel/kernel/sched/sched.c:424-444 | in one event a process ends exactly if the event is its own exit or a successful kill of it, with that code; all other records keep their codes |
| `SchedRuns.RecordKeepsCode` | kernel/kernel/sched/sched.c:424-565 | after any run, suspensions included, the record of an ended process holds the code it ended with, or that of the last successful kill since |
| `SchedRuns.WaiterGetsExitCode` | kernel/kernel/sched/sched.c:435-636 | in runs without suspensions and ends of single threads, from the event that ends p to the pick that wakes a waiter: the waiter gets the code p ended with if and only if no kill of p has succeeded since, or the last one left the same number |
| `SchedRuns.KilledAfterExit` | kernel/kernel/sched/sched.c:435-444 | a run in which it does not: exit(7), a later kill, and the waiting thread is told the killer's pid + 255 |
| `SchedRuns.StepSound` | kernel/kernel/sched/sched.c:424-688 | every event for which the tables have room, interrupts, suspensions and ends of single threads included, keeps what scheduling needs |
| `SchedRuns.StepInv` | kernel/kernel/sched/sched.c:424-688 | every event of a run for which the tables have room, but suspensions and ends of single threads, keeps the lifetime invariant |
| `SchedRuns.InitIsCreated` | kernel/kernel/sched/sched.c:724-742 | the initial state is what sched_init creates, and satisfies the invariant |
| `SchedRuns.WaitersAreCounted` | kernel/kernel/sched/sched.c:464-479 | after any run within the capacity of the tables, without suspensions and ends of single threads, the record of a process some thread waits for exists, and its count is the number of these threads |
| `SchedRuns.ScopeMeans` | kernel/kernel/sched/sched.c:77-164 | which events are in scope, in numbers: all but creations without room and ends of processes with freed threads |
| `SchedWaits.StepHolds` | kernel/kernel/sched/sched.c:464-479 | no event but the end of p lets a thread go that waits for p |
| `SchedWaits.PickFromHolds` | kernel/kernel/sched/sched.c:569-688 | no pick does, and none selects it |
| `SchedWaits.WaitHoldsUntilEnd` | kernel/kernel/sched/sched.c:464-479 | over runs without suspensions and ends of single threads: after wait(p) no pick selects the caller as long as p has not ended |
| `SchedWaits.PickWakes` | kernel/kernel/sched/sched.c:507-522 | each pick selects a thread whose process has ended or brings it closer to its turn |
| `SchedWaits.WokenWithin` | kernel/kernel/sched/sched.c:569-688 | it is selected within as many picks as entries lie in front of it |
| `SchedRuns.RunInv` | kernel/kernel/sched/sched.c:424-688 | such runs keep the lifetime invariant |
| `SchedRuns.PickFromInv` | kernel/kernel/sched/sched.c:569-688 | and so do their picks |
| `SchedRuns.QueueNeverPanics` | kernel/kernel/sched/sched.c:589-599 | after any run within the capacity of the tables, suspensions, interrupts and ends of single threads included, no queued thread can make the scheduler panic |
| `SchedRuns.SuspensionKeepsCounts` | kernel/kernel/sched/sched.c:452-457 | an IRQ suspension of a running thread keeps the waiter counts if and only if the IRQ number is 0 or not the pid of a process with a record, and leaves a thread without the record its `wait` names if and only if it is neither |
| `SchedRuns.SuspensionFreesWaitedProcess` | kernel/kernel/sched/sched.c:664-685 | a run from a state with the lifetime invariant: suspension for IRQ 1, a pick, a kill, a pick and an exit free the record of a process that is still waited for |
| `SchedRuns.ThreadExitLeavesTid` | kernel/kernel/sched/sched.c:431-433 | a thread that ends alone is freed while its process goes on listing it, so that the process cannot be reaped any more without a write to a freed thread |
| `SchedRuns.EnqueueAppends` | kernel/kernel/sched/sched.c:155-159 | the array enqueue appends if and only if the queue stays shorter than the process table; otherwise it empties the queue |
| `SchedRuns.TidListFits` | kernel/kernel/sched/sched.c:149-153 | the tid of a new thread is written inside its process's list if and only if that list has fewer than 128 entries |
| `ThreadTable.ThreadTableFits` | kernel/kernel/sched/sched.c:83-88 | over every sequence of creations: all thread pointers are stored inside the block allocated for the table if and only if there are at most 1024, or some process has two threads among the first 1025, or no process has and there are at most 9472 |
| `ThreadTable.GrowsInTime` | kernel/kernel/sched/sched.c:83-88 | once the block is as large as threads_size says it grows in time |
| `ThreadTable.NeverEnlarged` | kernel/kernel/sched/sched.c:83-88 | with one thread per process it is never enlarged |
| `ThreadTable.ShrunkInstead` | kernel/kernel/sched/sched.c:83-88 | a first enlargement after thread 1024 makes the recorded request smaller |
| `ThreadTable.ThreadsFound` | kernel/kernel/sched/sched.c:83-88 | in those runs every thread pointer is found in its slot |
| `ThreadTable.ThreadLost` | kernel/kernel/sched/sched.c:83-88 | in any run with a first enlargement at a later multiple of 512, and a second with the next thread, the pointer of thread 1536 is lost |
| `ThreadTable.SmallestLoss` | kernel/kernel/sched/sched.c:83-88 | such a run: one thread in each of 1536 processes, then two more |
| `SchedRuns.RunHistory` | kernel/kernel/sched/sched.c:77-164 | how the threads of a run came into being, and the capacity of the table |
| `SchedRuns.NextThreadFits` | kernel/kernel/sched/sched.c:83-88 | after any run the next thread has a slot if and only if the run with it is of that kind |
| `Scheduler.NextTableSize` | kernel/kernel/sched/sched.c:222-227 | the process table grows by 512 exactly when it is full |
| `Scheduler.Scheduler.constructor` | kernel/kernel/sched/sched.c:724-742 | sets up the tables with the idle thread; the block for the threads has room for 9472 pointers |
| `Scheduler.Scheduler.CreateProcess` | kernel/kernel/sched/sched.c:217-283 | appends the process, growing table and queue without losing queue entries |
| `Scheduler.Scheduler.CreateThread` | kernel/kernel/sched/sched.c:77-164 | appends the thread to the table, its process and the queue |
| `Scheduler.Scheduler.ReapProcess` | kernel/kernel/sched/sched.c:524-565 | the loop over the tids and the freeing do what Reap says |
| `Scheduler.Scheduler.ExitProcess` | kernel/kernel/sched/sched.c:424-429 | does what Exit says |
| `Scheduler.Scheduler.KillProcess` | kernel/kernel/sched/sched.c:435-444 | returns and does what Kill says |
| `Scheduler.Scheduler.WaitProcess` | kernel/kernel/sched/sched.c:464-479 | returns and does what Wait says, which WaitEffect states field by field |
| `Scheduler.Scheduler.CheckSuspendedThreads` | kernel/kernel/sched/sched.c:495-505 | wakes exactly the threads suspended for this IRQ, as Interrupt says |
| `Scheduler.Scheduler.SuspendThread` | kernel/kernel/sched/sched.c:452-457 | does what Suspend says |
| `Scheduler.Scheduler.ExitCurrentThread` | kernel/kernel/sched/sched.c:431-433 | does what ExitThread says |
| `Scheduler.Scheduler.CheckWaitingThread` | kernel/kernel/sched/sched.c:507-522 | does what CheckWaiting says |
| `Scheduler.Scheduler.PopNextTid` | kernel/kernel/sched/sched.c:488-493 | the entry at the read position, if there is one |
| `Scheduler.Scheduler.NextThread` | kernel/kernel/sched/sched.c:569-588 | a second round through the queue, then the idle thread |
| `Scheduler.Scheduler.CloseGap` | kernel/kernel/sched/sched.c:666-668 | the in-place shift removes exactly one entry |
| `Scheduler.Scheduler.RemoveDead` | kernel/kernel/sched/sched.c:664-685 | does what Bury says |
| `Scheduler.Scheduler.StartThread` | kernel/kernel/sched/sched.c:638-656 | does what Start says |
| `Scheduler.Scheduler.TakeTurn` | kernel/kernel/sched/sched.c:600-686 | the switch does what Visit says |
| `Scheduler.Scheduler.PickNext` | kernel/kernel/sched/sched.c:569-688 | with threads in any state the loop ends, passes its panic checks in every turn, and does what Pick says |
| `InterfaceState.CreateAnswer` | kernel/kernel/sched/interface.c:44-67 | an interface is created exactly if its name is new and there are fewer than 256; with its creator, flags and no message |
| `InterfaceState.DeleteAnswer` | kernel/kernel/sched/interface.c:69-99 | only the creator deletes an interface; -ENOENT and -EACCES otherwise |
| `InterfaceState.SendAnswer` | kernel/kernel/sched/interface.c:101-152 | a message is queued exactly if it has at most 1 MiB, fewer than 1024 messages with at most 4 MiB together are queued, the sender may address it, a creator addressed is alive and the buffer can be read; else nothing changes and the first failing test gives the error |
| `InterfaceState.ReceiveAnswer` | kernel/kernel/sched/interface.c:154-191 | the oldest message for the caller, for the creator it is, or for anybody is taken; -EAGAIN without one, -EFAULT if it cannot be written |
| `InterfaceState.NoSuchName` | kernel/kernel/sched/interface.c:34-42 | without such an interface nothing is sent or received |
| `InterfaceState.RunBounded` | kernel/kernel/sched/interface.c:29-32 | in every run names are unique, with at most 256 interfaces and 1024 messages and 4 MiB per queue |
| `InterfaceState.ReceiveOrWait` | kernel/kernel/sched/interface.c:193-209 | a message can be received exactly if the scheduler would wake a thread waiting for one; -EAGAIN is returned exactly otherwise, and a failed receive changes nothing |
| `InterfaceState.ReceivedInOrder` | kernel/kernel/sched/interface.c:154-191 | taking the oldest eligible message overtakes none |
| `InterfaceState.ExactlyOnceInOrder` | kernel/kernel/sched/interface.c:101-191 | in every run a queue holds exactly the messages sent and not received, in order; none is received twice; every receiver gets its messages in order of sending |
| `InterfaceState.NamedAfterDelete` | kernel/kernel/sched/interface.c:94-97 | deleting removes that name and no other |
| `Interfaces.Interface.FindMessage` | kernel/kernel/sched/interface.c:158-173 | the first message addressed to the pid, to the creator it is, or to anybody |
| `Interfaces.Interface.HasMessage` | kernel/kernel/sched/interface.c:193-209 | true exactly if some message is eligible |
| `Interfaces.Interface.QueuedBytes` | kernel/kernel/sched/interface.c:107-110 | the sum of the message sizes |
| `Interfaces.Interface.Grow` | kernel/kernel/sched/interface.c:130-133 | more room, the same messages |
| `Interfaces.Interface.Remove` | kernel/kernel/sched/interface.c:185-188 | the in-place shift removes exactly one message |
| `Interfaces.Manager.FindInterface` | kernel/kernel/sched/interface.c:34-42 | the first interface of that name or -ENOENT |
| `Interfaces.Manager.Create` | kernel/kernel/sched/interface.c:44-67 | returns and does what the specification Create says |
| `Interfaces.Manager.Delete` | kernel/kernel/sched/interface.c:69-99 | likewise; exactly the threads waiting on the interface are made RUNNING, so that no waiting thread points at a freed record |
| `Interfaces.Manager.Send` | kernel/kernel/sched/interface.c:101-152 | returns 0 with the message last in the queue if and only if the seven conditions on size, queue, flags, addressee and buffer hold, stated in numbers; else nothing changes |
| `Interfaces.Manager.Receive` | kernel/kernel/sched/interface.c:154-191 | likewise; the caller gets as much of the message as fits |
| `Interfaces.Manager.Wait` | kernel/kernel/sched/interface.c:211-220 | the thread waits on a listed interface |
| `Fat.Decoded12` | kernel/kernel/drv/fs/vfat.c:98-106 | 12-bit decoding inverts the encoding of two entries in three bytes |
| `Fat.Decoded16` | kernel/kernel/drv/fs/vfat.c:107-113 | 16-bit decoding inverts the encoding |
| `Fat.Decoded32` | kernel/kernel/drv/fs/vfat.c:114-122 | 28-bit decoding inverts the encoding whatever the reserved bits |
| `Fat.LbaExact` | kernel/kernel/drv/fs/vfat.c:53-57 | the block address of a sector is exact if and only if it starts on a block and below 4 GiB |
| `Fat.ClusterBlocks` | kernel/kernel/drv/fs/vfat.c:43-57 | on a block-aligned volume the blocks read for a cluster are exactly the cluster |
| `Fat.ClusterPlaces` | kernel/kernel/drv/fs/vfat.c:43-57 | cluster 2 starts with the data area and the others follow one behind the other |
| `Fat.SectorPlaces` | kernel/kernel/drv/fs/vfat.c:43-57 | the sector computed is that of the cluster as long as nothing wraps |
| `Fat.ContentOne` | kernel/kernel/drv/fs/vfat.c:60-95 | one cluster of a chain is its bytes on the device, and the next what the table says |
| `Fat.ContentSplit` | kernel/kernel/drv/fs/vfat.c:633-646 | a chain followed a clusters, then b, is the chain of a + b clusters |
| `FatFile.ReadBlocks` | kernel/kernel/drv/fs/vfs.c:361-367 | consecutive blocks of the device reach the buffer |
| `FatFile.ReadCluster` | kernel/kernel/drv/fs/vfat.c:60-95 | the cluster reaches the buffer and its successor is returned |
| `FatFile.ReadChain` | kernel/kernel/drv/fs/vfat.c:643-646 | the buffer holds the content of the chain |
| `FatFile.CountInside` | kernel/kernel/drv/fs/vfat.c:623-631 | inside the file the byte count is the request cut at the end of the file |
| `FatFile.CountBeyond` | kernel/kernel/drv/fs/vfat.c:623-631 | beyond the end bytes are transferred whenever some are asked for, unless both the request and the distance are huge |
| `FatFile.FittingRead` | kernel/kernel/drv/fs/vfat.c:633-648 | a read that fits returns exactly bytes loc .. loc + bytes of the cluster chain |
| `FatFile.ReadExactIffFits` | kernel/kernel/drv/fs/vfat.c:633-648 | a read is right for every state of memory if and only if (loc % cs) + bytes is at most bytes rounded up to clusters |
| `FatFile.AlignedReadsFit` | kernel/kernel/drv/fs/vfat.c:633-648 | reads from a cluster boundary, so whole-file reads, are right |
| `FatFile.AccessFile` | kernel/kernel/drv/fs/vfat.c:615-651 | the call returns the count and transfers these bytes, and nothing else in the buffer changes |
| `CStrings.Strspn` | libc/string/strspn.c:5-30 | the length of the longest prefix made of accepted bytes, for all three ways of scanning |
| `CStrings.Strcspn` | libc/string/strspn.c:32-49 | the length of the longest prefix without rejected bytes |
| `CStrings.StrtokR` | libc/string/strtok.c:34-59 | cuts off the first token in place and leaves the position of exactly the rest |
| `Paths.FirstComponent` | libc/string/strtok.c:34-59 | a path that starts with a plain name has it as first component |
| `Paths.PathTokens` | kernel/kernel/drv/fs/vfs.c:242-280 | the components of a printed path are the names from the root down |
| `Paths.VolumeFound` | kernel/kernel/drv/fs/vfs.c:43-67 | a printed path leads to its volume, if names are unique, 1 to 16 characters long and free of colons |
| `Paths.StepDown` | kernel/kernel/drv/fs/vfs.c:211-218 | looking a directory up in its parent finds it if and only if no child of its own name comes later than it does |
| `Paths.ResolveNames` | kernel/kernel/drv/fs/vfs.c:198-240 | the names down to a directory lead to it, whatever follows |
| `Paths.ResolveParent` | kernel/kernel/drv/fs/vfs.c:219-230 | ".." leads to the parent, and from a root to nothing |
| `Paths.ResolveDot` | kernel/kernel/drv/fs/vfs.c:231-233 | "." leads nowhere else |
| `Paths.ResolveUnknown` | kernel/kernel/drv/fs/vfs.c:234-237 | a name no entry has is an error in last place only |
| `Paths.NoVolume` | kernel/kernel/drv/fs/vfs.c:43-67 | no volume without a colon, with more than 16 characters in front of it, or with an unknown name, and only then |
| `Paths.PrintedPath` | kernel/kernel/drv/fs/vfs.c:242-295 | a directory is printed as its parent, a slash unless that is a root, and its name |
| `Paths.RoundTripClear` | kernel/kernel/drv/fs/vfs.c:198-295 | resolving the printed path of a directory returns it if no directory on the way is shadowed |
| `Paths.RoundTripIffUnshadowed` | kernel/kernel/drv/fs/vfs.c:198-295 | all printed paths resolve to their directories if and only if no directory has a later child of its own name |
| `VfsPaths.FindBlockDevice` | kernel/kernel/drv/fs/vfs.c:43-67 | the first mounted volume named before the first colon, within 16 characters |
| `VfsPaths.ScanEntries` | kernel/kernel/drv/fs/vfs.c:211-218 | the scan, which goes on in the directory it has just entered |
| `VfsPaths.FindDirectory` | kernel/kernel/drv/fs/vfs.c:198-240 | strtok_r on a copy of the path and the scans do what Lookup says |
| `VfsPaths.PrependInPlace` | kernel/kernel/drv/fs/vfs.c:253-276 | a name and a slash in front of the path so far |
| `VfsPaths.GetPath` | kernel/kernel/drv/fs/vfs.c:242-295 | writes the full path and a NUL and nothing else, or returns -1 exactly if they do not fit |
| `ArgStack.PlacesDisjoint` | kernel/kernel/i386/syscall.c:408-416 | the strings do not overlap and lie between the vector and the old stack pointer |
| `ArgStack.ArgumentsRecovered` | kernel/kernel/i386/syscall.c:393-441 | reading argc, argv and the strings back yields exactly the arguments |
| `ArgStack.ImageAligned` | kernel/kernel/i386/syscall.c:411 | from an aligned start everything is 4-aligned |
| `ArgStack.TotalGrows` | kernel/kernel/i386/syscall.c:408-441 | the image takes 12 bytes, and for each argument a pointer and its string padded to the next multiple of 4 |
| `ArgStack.PushStrings` | kernel/kernel/i386/syscall.c:408-416 | the strings with their padding, unless they do not fit |
| `ArgStack.PushVector` | kernel/kernel/i386/syscall.c:419-426 | the vector and its NULL |
| `ArgStack.Setup` | kernel/kernel/i386/syscall.c:393-441 | the image is built if and only if it fits between stack pointer and region start, and nothing outside it is written |
| `EnvironList.MatchesKey` | kernel/kernel/i386/syscall.c:298-305 | for names without '=' the prefix test finds exactly the variable of that name |
| `EnvironList.SetThenLookup` | kernel/kernel/i386/syscall.c:292-391 | for such names setenv changes what getenv finds under that name and nothing else |
| `EnvironList.UpdateIffNoEquals` | kernel/kernel/i386/syscall.c:329-391 | setenv acts as the update of a map if and only if the name has no '=' |
| `EnvironList.RunRefinesMap` | kernel/kernel/i386/syscall.c:292-391 | after any sequence of such calls the list answers like a finite map of at most 4096 names |
| `Environ.SetAnswer` | kernel/kernel/i386/syscall.c:329-391 | what setenv answers, condition by condition in numbers |
| `Environ.NameAnswer` | kernel/kernel/i386/syscall.c:292-297 | which names getenv accepts |
| `Environ.Environment.constructor` | kernel/kernel/sched/sched.c:234-236 | a process starts without variables |
| `Environ.Environment.Duplicate` | kernel/kernel/sched/pload.c:80-89 | a new process gets its parent's list |
| `Environ.Environment.Grow` | kernel/kernel/i386/syscall.c:374-380 | room for one variable and the trailing NULL, the same list |
| `Environ.Environment.SetEnv` | kernel/kernel/i386/syscall.c:329-391 | returns the error of the source and changes nothing, or leaves the list Set describes with its trailing NULL |
| `Environ.Environment.GetEnv` | kernel/kernel/i386/syscall.c:292-327 | the value cut to size - 1 bytes with a NUL, -ENOENT if there is none, -EFAULT exactly if one of the copies that are needed fails, and what has then been written |
| `Memchr.SkippedWord` | libc/string/memchr.c:16-34 | a word is skipped if and only if none of its bytes is the target |
| `Memchr.Spread` | libc/string/memchr.c:17-20 | the mask holds the target in every byte |
| `Memchr.Memchr` | libc/string/memchr.c:5-46 | the first occurrence as a linear search would find it, for every content, alignment, byte and length |

## Left out

- Malloc: requires req + 80 <= 2^32 - 4096; `Liballoc.RequestArithmetic`, `Liballoc.WrappedRequest` and, on an empty heap, `Liballoc.Heap.FirstWrapped` say what happens beyond. Calls are serialised: the source ignores the result of its lock.
- Malloc: that no page is available is a return of 0; the kernel copy panics in that case.
- Free: a second free in the kernel copy of a pointer into a major that was given back faults on reading its header, which is not modelled: all of `ram` can be read.
- Free: pointers that are neither NULL nor a live payload are taken to show no magic number in front of them, as `FreeArgument` says. A stray pointer into user data that happens to look like a header is not modelled.
- Realloc: requires what Malloc and Free require. A copy to address 0 is taken to fault, since no page is mapped there.
- NoteBest: how good the best bet is, is not stated; it only saves time.
- Heap addresses: new majors come from increasing addresses, as both page sources hand them out; a released address range is not handed out again.
- `calloc`, the statistics dump and the unused `liballoc_memset` of the allocator: easy members.
- AllocFrame: an empty stack is excluded by `0 < top`; the source panics. SetBrk is proved never to get there.
- SetBrk: `BreakRoom` demands kernel address space for new page tables, without which the source panics.
- MapPage: the translation caches of the processor are not modelled, and loading CR3 selects an address space.
- LiballocFree: requires the run to be data pages, which `LiballocAlloc` guarantees, or a page directory; pages of the boot window are never freed.
- FillStack: requires available regions that start on pages (`MapOk`), without which frames would straddle pages, and whose length is at most 2^32 - 4096, without which the loop does not end; and no more frames than the array holds, which the source does not check.
- Boot: requires a memory map whose regions share no page in 32 bits (`Apart`); `FramePool.FramesDistinct` says that otherwise the stack has duplicates.
- Boot: requires the page tables inside a kernel image that ends below the page of the screen, as the linker script places them for an image of less than 11 MiB.
- Machine: that the processor sets accessed and dirty bits in entries is not modelled; kernel slots of two spaces are compared by the table they name, so such bits would do no harm.
- CreateSpace: requires a frame and kernel address space for the directory, without which the source panics.
- SchedFreeAll: requires page-aligned regions; `FreeAll.PushedAddress` says what is pushed otherwise.
- ReapMemory: the `kfree` calls between the two parts are not modelled; all they do to memory frames is to push those of an emptied major. The frames of user page tables are not given back, neither by the source nor here.
- Retire: requires another directory to be loaded. After exit() that is so from the next switch on; `AddressSpaces.TakeWhileLoaded` says when the frame of the loaded directory is handed out before. The set of spaces exists in the model only.
- TakeWhileLoaded: what the program loader writes to the frames is not modelled; at its end it loads the old directory again.
- `vmm_map_pages_u`, `vmm_map_pages_loc`: the same loops and stores as the modelled ones.
- SwitchStack: the tables of dead threads stay parked, as the source never frees them.
- Scheduler.CreateThread: requires `queue_end + 1 < processes_size`, a slot in the thread table and fewer than 128 threads in the process, the scope in which the source writes inside its tables (`SchedRuns.EnqueueAppends`, `ThreadTable.ThreadTableFits`, `SchedRuns.TidListFits`), and thread and process numbers below their limits, where the source panics.
- ThreadTable: a freed slot holds NULL, which matters for no capacity; a pointer stored behind the recorded request but inside the block is still found until the block is moved.
- StepInv: the lifetime results speak of runs without IRQ suspension and without the end of single threads (`Lifetime`); `SchedRuns.SuspensionKeepsCounts` and `SchedRuns.ThreadExitLeavesTid` say why. The scheduling results have no such restriction.
- StepSound: runs stay within the capacities of the tables, and a process ends only while all threads it lists are still there (`Fits`); otherwise the source writes to a thread it has freed.
- Bury: the `wait` of a dead thread may be an IRQ number beyond the last process; the slot of the process table the source then reads was never written, and is taken to be empty.
- fork(): its checks of free memory and of the user stack pointer, and the copy of the stack.
- StartThread: the program loader is an oracle, `Env.loadable`; so is the state of message queues during a pick, `Env.ready`.
- Scheduler records: a process or thread is a value in a table, and `currentps` is its pid; register frames are reduced to the value wait() returns.
- Manager: the growth of the list of interfaces by 32 is not modelled, its shifting is. User copies succeed or fail as a whole.
- AccessFile: writing is refused by the source. Directory parsing, mounting and the detection of the FAT type are left out. `beyond` stands for the memory behind the temporary buffer.
- ReadCluster: requires a block-aligned volume (`GeometryOk`) and clusters on the device; `Fat.LbaExact` says what misalignment does to an address. No driver errors.
- FindDirectory: on paths that were not printed by the kernel only `Lookup` is stated, which lets unknown components in the middle pass, as the source does.
- GetPath: its two temporary buffers are always available.
- `strtok`: differs from `strtok_r` in where it keeps its position only.
- Setup: addresses and sizes are unbounded numbers below 2^32; on failure the stack pointer may have moved, as in the source.
- GetEnv: a failing user copy writes nothing of its part.
- Port I/O and device drivers, the boot code but for its page tables, ISO 9660, ELF loading, system call dispatch, user programs: hardware plumbing and thin wrappers.
- Simple libc routines (`strlen`, `memcpy`, `strcmp`, `memset`) appear only where a modelled loop uses them.

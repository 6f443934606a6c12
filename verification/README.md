# Pintos with virtual memory, modelled and verified in Dafny

Pintos is a teaching operating system in C. This project models the part of it that is hard to get right and proves, for every input or every run, what that part promises:

- **Virtual memory** (`Paging*.dfy`): the supplemental page table, the frame table with its clock, the swap area, file mappings, the page fault handler and stack growth. `Paging` to `PagingSteps` hold the state, the invariant and each transition as a function; `PagingViews` to `PagingAccess` say what each transition does to the bytes a user sees; `PagingProgress` says when an access completes and `PagingClock` what is evicted; `PagingRuns`, `PagingMemory` and `PagingMapped` put the transitions together into runs of any number of processes and compare them with a flat memory that knows nothing of frames, swap slots and files; `PagingMappings` has what runs keep of mappings and page directories; `PagingHazards` and `PagingHazardRun` have the loads that go wrong; `PagingKernel` is the kernel's code in its own form, an object updated in place, proved to compute those transitions.
- **Page directories** (`PageDirectory.dfy`): two levels of 32-bit entries as a map from user pages to frames and flags, in the format of section 3.7.6 of the IA-32 Intel Architecture Software Developer's Manual, volume 3A; `PagingDirectory.dfy` shows that they hold the paging model's page table entries.
- **Scheduling** (`Synch.dfy`, `Timer.dfy`, `ProcessLife.dfy`, `ProcessHistory.dfy`): semaphores, locks and the ready list as a state machine over all interleavings; the alarm clock; exec, wait and exit, and what a wait returns in terms of what the processes have done.
- **The file system** (`InodeIo.dfy`, `FileSystem.dfy`, `FileSystemHistory.dfy`, `FileSystemCode.dfy`): inode reads and writes as operations on one array of bytes; who owns which sector over every run of create, open, remove and close; what names and open files lead to.
- **Allocation** (`Bitmap.dfy`, `Malloc.dfy`, `MallocHistory.dfy`, `MallocCode.dfy`): bitmaps packed in words, page pools, arenas and blocks; which addresses are live.
- **Data structures** (`LinkedList.dfy` with `Ordering.dfy`, `HashTable.dfy`): the doubly linked list with its in-place natural merge sort, and the chained hash table that resizes itself.
- **Arithmetic** (`Arithmetic.dfy`; `Basics.dfy` is shared by several modules): 64-bit division out of 32-bit divide instructions.
- **Formats** (`Elf.dfy` with `Loading.dfy`, `Arguments.dfy` with `UserStack.dfy`, `Octal.dfy`, `Names.dfy`, `Ustar.dfy`, `UstarCode.dfy`): loading ELF segments lazily (Book I, "Program Header", of the TIS ELF specification 1.2), from a command line to the argv of the new program and back, and ustar archive headers ("ustar Interchange Format" under the pax utility of SUSv3).

Code that updates things in place is a class or a method with loops whose `ensures` ties the new state to a function of the old one; the lemmas are about those functions. Protocols are step functions with an invariant, and `Reached` is the state at the end of a run, so a lemma about `Reached` is a statement about every reachable state. The invariants say what no step may break; the modules named above as histories and laws say, independently of the step functions, what each step does and what a whole run amounts to.

## What turned out not to hold

- `load_page` moves the position of the file before it allocates the frame. When that allocation evicts a dirty page of the same `struct file`, the write-back moves the position and the load reads other bytes. `PagingHazardRun.LoadReadsWrongPage` is a run from boot, with three frames, that ends in such a read; `PagingTransparency.LoadPosition` shows that the load reads from the right place if and only if `LoadHazard`, which looks at the state before the load, is false, and `PagingHazards.HazardLoads` says which bytes arrive if it is true. Pages of executables and anonymous pages are never affected.
- `umod64` and `smod64` return 32 bits. `umod64` is right for every dividend if and only if the divisor is at most 2^32, `smod64` if and only if its magnitude is at most 2^31 (`Arithmetic.UMod64RightFor`, `Arithmetic.SMod64RightFor`); `Arithmetic.UMod64LosesHighBits` and `Arithmetic.SMod64LosesHighBits` are calls that return other numbers. `sdiv64` is exact for all pairs but the smallest number divided by -1.
- A `filesys_create` that fails when the name is added gives back the inode's sector but not the data sectors: `FileSystem.FailedCreateLeaks` says exactly when, and `FileSystem.LeakingRun` is a run from a formatted disk in which it happens.
- `malloc` of one of the last eleven sizes below 2^32 gets a single page, because rounding the size up wraps around. The block it returns is large enough if and only if size and header do not exceed 2^32, or no page is free (`Malloc.MallocServes`); `Malloc.WrappedRequest` is a call that returns too small a block.
- `argument_parse` and `argument_push` keep the argument pointers in pages of 1024 slots, one of them for the null. No store leaves these pages if and only if the command line has at most 1023 tokens (`UserStack.StartArguments`), which holds for every argument list whose frame fits the stack page (`UserStack.FrameFitsSlots`). A line of less than a page can have more (`UserStack.TooManyTokens`); the stores of `argument_parse` then go past the end of its page, and the model does not say what they overwrite.
- `ustar_make_header` accepts a negative size for a regular file, and `ustar_parse_header` then refuses the header; for all other arguments the two are inverse (`Ustar.RoundTrip`).
- The comment on `bitmap_scan_and_flip` says that it returns 0 for a count of zero; the code returns the start of the scan. The comment in `malloc.c` speaks of blocks up to 2 kB; the code has descriptors up to 1 kB. The comment on `frame_free` says that `pagedir_destroy` frees the frames; the code frees them in `frame_free`, and `PagingDirectory.ExitFreesTables` shows that `pagedir_destroy` does not free them again. The model follows the code in all three.

## Model

| member | source | states |
|---|---|---|
| PagingMemory.LastWriteIsRead | src/userprog/exception.c:192-243 | Over every run from boot, any number of processes and any pattern of eviction, swapping, loading and stack growth: a read of a page that no mapping made completes if and only if the page is in memory or a frame can be had, and it returns the byte written there last. |
| PagingMapped.LastWriteIsReadMapped | src/vm/spt.c:106-176 | Over every run from boot, the same for a page of a writable file that is mapped once, within the bytes its file holds, as long as nobody maps or runs the file besides, writes those bytes by a system call, or loads the page in the hazard: the read completes if and only if the page is in memory or a frame can be had, and returns the last byte written. |
| PagingMapped.MappedReadsAsWritten | src/vm/spt.c:295-332 | From any good state on, a read of such a mapped page completes under the same condition, and the page reads as it was in that state but for the completed writes since. |
| PagingMapped.MappedUndisturbed | src/vm/frame.c:121-161 | Over every such run the page stays the only one to map its bytes, and no event removes or endangers it. |
| PagingMapped.StepSole | src/userprog/syscall.c:381-444 | No event but a mapping or a start of the same inode can make a second page share the bytes, or deny writes to them. |
| PagingMapped.StepUndisturbed | src/vm/spt.c:295-332 | An event that neither maps, runs nor overwrites the file, and does not load the page in the hazard, does not endanger the page. |
| PagingMapped.MapsAsFile | src/userprog/syscall.c:381-444 | A page of a new mapping shows its part of the file, and is the only one to map it if nobody maps or runs the file already. |
| PagingMemory.ReadsAsWritten | src/vm/spt.c:106-176 | From any good state on, such a page reads as it was in that state but for the completed writes since. |
| PagingMemory.ReadsRewritten | src/vm/spt.c:295-332 | The same for any page, mapped ones too, as long as no event removes or endangers it, within the bytes its file holds. |
| PagingMemory.RunRemembers | src/vm/frame.c:121-161 | A page that no event of a run removes or endangers keeps its entry's backing, and its bytes change by writes to it only. |
| PagingMemory.OrdinaryUndisturbed | src/vm/frame.c:121-161 | Nothing but its removal disturbs a page that no mapping made. |
| PagingMemory.StepStill | src/vm/spt.c:75-199 | No event takes an entry out of the page table or changes its backing, except the unmapping or exit that removes it. |
| PagingMemory.StepPages | src/vm/spt.c:75-199 | After any event a page is there if and only if it was and the event does not remove it, or the event adds it: stack growth its page, exec the stack and the image, mmap the pages of the file. |
| PagingMemory.LoadedIsRead | src/userprog/exception.c:192-243 | A read of a page that does not wait for its executable completes if and only if the page is in memory or a frame can be had. |
| PagingMemory.RunLoaded | src/vm/spt.c:106-176 | A page that does not wait for its executable never does so again, over every run that does not remove it. |
| PagingMemory.StartIs | src/userprog/process.c:343-471 | exec completes if and only if a frame can be had for the stack; the process then has a page of zeros as its stack and the pages of its image, no other process gains or loses a page, and the executable is open and write-protected. |
| PagingMemory.StartsAsFile | src/userprog/process.c:343-471 | Right after exec each page of the image shows its bytes of the executable, and zeros beyond them. |
| PagingRuns.Transparent | src/userprog/exception.c:192-243 | After any run from boot a completed read returns what flat memory holds. |
| PagingRuns.RunAgrees | src/vm/frame.c:121-161 | Over every run the invariant holds and the machine shows the flat memory. |
| PagingRuns.StepAgrees | src/vm/spt.c:75-199 | One event, of any kind, keeps machine and flat memory in agreement. |
| PagingRuns.StepKeepsMachine | src/vm/spt.c:75-199 | Every event keeps the invariant. |
| PagingRuns.FlatRemembers | src/vm/spt.c:106-176 | In flat memory a page that an event neither removes nor endangers is changed by completed writes to it and by nothing else. |
| PagingRuns.OrdinaryPageIsSafe | src/vm/frame.c:121-161 | No event endangers a page that no mapping made. |
| PagingRuns.SinglyMappedPageIsSafe | src/vm/spt.c:295-332 | An event endangers a page mapped once from a writable file only by writing its bytes through another call, or by loading it in the hazard; PagingMapped.MappedUndisturbed carries this over runs. |
| PagingRuns.Reached | src/vm/frame.c:35-97 | Every reachable state satisfies the machine invariant. |
| PagingRuns.PagesCorrespond | src/vm/spt.c:75-199 | In every reachable state a page table entry is present exactly if the page is resident, and points at the frame that this page owns. |
| PagingRuns.FramesAreUsedPages | src/vm/frame.c:35-97 | In every reachable state the frame table lists each used page of the user pool exactly once, and the hand rests on a live frame if on any. |
| PagingRuns.SlotsCorrespond | src/vm/swap.c:29-68 | In every reachable state the set swap bits and the swapped pages are in one-to-one correspondence. |
| PagingRuns.StartedAgrees | src/userprog/process.c:343-471 | Starting a program, with its stack page, keeps the agreement. |
| PagingRuns.MappedAgrees | src/userprog/syscall.c:381-444 | Mapping a file keeps the agreement; it fails on an empty file or pages in use. |
| PagingRuns.MappingIsNew | src/userprog/syscall.c:381-444 | The pages of a mapping are new and their file ranges do not overlap. |
| PagingRuns.WrittenAgrees | src/filesys/inode.c:257-318 | A file write by a system call keeps the agreement, less the mapped bytes it rewrites. |
| PagingRuns.FileWriteStores | src/filesys/inode.c:257-318 | A file write stores exactly its bytes that lie inside the file, in this file and no other, or none if writes are denied; nothing else of the machine changes. |
| PagingRuns.ReadAgrees | src/userprog/exception.c:192-243 | A read, with the fault it may cause, agrees with flat memory in state and in the byte returned. |
| PagingRuns.WriteAgrees | src/userprog/exception.c:192-243 | A write, with the fault it may cause, agrees with flat memory. |
| PagingPersistence.UnmapPersists | src/vm/mmap.c:35-76 | After munmap the file holds, byte for byte, what every page of the mapping showed, unless the file is denied writes. |
| PagingPersistence.ExitPersists | src/userprog/process.c:617-663 | After exit a file holds what a mapped page showed, unless it is denied writes or another mapping of the process covers the same bytes. |
| PagingMachine.UnmapKeepsInv | src/vm/mmap.c:35-76 | munmap keeps the invariant and removes exactly the pages of the mapping. |
| PagingMachine.UnmapAgrees | src/vm/mmap.c:35-76 | munmap leaves every other page as its user sees it, unless the write-back covers its bytes. |
| PagingMachine.ExitKeepsInv | src/userprog/process.c:617-663 | A process's exit keeps the invariant and leaves none of its pages behind. |
| PagingMachine.ExitAgrees | src/userprog/process.c:617-663 | An exit does not disturb the pages of other processes, unless a write-back covers their bytes. |
| PagingMachine.AddedKeepsInv | src/vm/spt.c:225-258 | Entering lazy pages keeps the invariant. |
| PagingTeardown.TornKeeps | src/vm/mmap.c:35-76 | Unmapping any sequence of mapped pages removes exactly those and keeps frames, directories and swap consistent. |
| PagingTeardown.TornFields | src/vm/mmap.c:35-76 | It leaves the entry, frame, slot, file bytes and dirty bit of other pages alone. |
| PagingTeardown.DestroyedKeeps | src/vm/spt.c:180-199 | Destroying entries, resident, swapped or lazy, releases what they own. |
| PagingAccess.PageFaultKept | src/userprog/exception.c:192-243 | A fault changes no page as its user sees it that was not in danger before. |
| PagingAccess.PageFaultBringsIn | src/userprog/exception.c:192-243 | A fault that is served leaves the page present, adds no page but the faulting one, and a page made by stack growth is zero; the four lemmas PagingProgress.Access… say when it is served. |
| PagingAccess.AnonymousIsSafe | src/vm/frame.c:121-161 | A page that no mapping made is never in danger from a fault. |
| PagingAccess.SinglyMappedIsSafe | src/vm/spt.c:295-332 | A page mapped once from a writable file is in danger only from its own load, in the hazard. |
| PagingAccess.ReadyBringsIn | src/userprog/exception.c:141-243 | After the hardware's checks and the handler, a page is present with the rights the access needs, or the process is killed; PagingProgress says which. |
| PagingProgress.AccessResident | src/userprog/exception.c:141-243 | An access to a page in memory completes, except that a write to a read-only page kills the process. |
| PagingProgress.AccessSwapped | src/userprog/exception.c:192-243 | An access to a swapped page completes if and only if a frame can be had and a write is allowed; the kernel panics if and only if none can be had. |
| PagingProgress.AccessLazy | src/userprog/exception.c:192-243 | An access to a page still to be loaded, outside the hazard, completes if and only if a frame can be had, the file has the bytes, and a write is allowed; each failure has its own outcome. |
| PagingProgress.AccessAbsent | src/userprog/exception.c:192-243 | An access without a page grows the stack if and only if the address is in the last 8 MB below PHYS_BASE and at most 32 bytes below the stack pointer; otherwise the process is killed and nothing changes. |
| PagingProgress.ReadCompletes | src/userprog/exception.c:192-243 | A read of a page that does not wait for its executable, outside the hazard, never kills the process, and panics if and only if the page is not in memory and no frame can be had. |
| PagingProgress.MakesRoom | src/vm/frame.c:35-77 | frame_alloc panics if and only if no page is free, the victim of the clock is not mapped, and swap is full. |
| PagingProgress.SwapsIn | src/vm/spt.c:143-162 | spt_swap_to_memory fails only for want of a frame. |
| PagingProgress.Loads | src/vm/spt.c:295-332 | Outside the hazard load_page succeeds if and only if the file has all bytes of the page. |
| PagingProgress.GetsFresh | src/vm/spt.c:75-102 | A zeroed page can be made if and only if a frame can be had. |
| PagingProgress.GrowthIs | src/userprog/exception.c:192-243 | The test for stack growth, with its 32-bit arithmetic, is that rule. |
| PagingClock.VictimIs | src/vm/frame.c:121-161 | The victim is the first page from the hand that has not been accessed, and exactly the pages before it lose their accessed bits; if all have been accessed, all lose them and the page at the hand goes. |
| PagingClock.EvictIs | src/vm/frame.c:121-161 | Eviction takes the victim's frame out of the table, leaves the hand on the next node, changes no other entry, and leaves exactly the accessed pages it did not pass marked. |
| PagingTransparency.LoadPosition | src/vm/spt.c:295-332 | A load reads from the page's own file offset if and only if no dirty page of the same struct file is evicted for it. |
| PagingTransparency.ExecutableLoadsSafely | src/vm/spt.c:295-332 | Loads of executable pages are never in that danger. |
| PagingTransparency.ReadInKept | src/vm/spt.c:295-332 | A load from the right position succeeds if and only if the file has the bytes, and then the page shows them. |
| PagingTransparency.LazyToMemoryKept | src/vm/spt.c:164-176 | spt_lazy_to_memory disturbs no page that is not in danger and brings the page in as its file has it. |
| PagingTransparency.SwapToMemoryKept | src/vm/spt.c:143-162 | spt_swap_to_memory brings back exactly what was swapped out and leaves the others alone. |
| PagingTransparency.MakeRoomKept | src/vm/frame.c:35-77 | Eviction in frame_alloc changes no page as its user sees it, except an alias of a mapped page that is written back. |
| PagingHazardRun.LoadReadsWrongPage | src/vm/spt.c:295-332 | A run from boot with three frames: a program with a page of code starts, pushes, maps a file of four pages, writes the second and reads the first. A read of the fourth page's first byte then returns the third page's byte, although the file never changed. |
| PagingHazardRun.ImageIsLoaded | src/userprog/process.c:369-443 | The image in that run is the one that load makes of the program's header. |
| PagingHazardRun.AllAccessed | src/vm/frame.c:121-161 | If all pages have been accessed and the hand is not on a frame, the clock clears all accessed bits and takes the first frame of the table. |
| PagingHazardRun.NextIsVictim | src/vm/frame.c:121-161 | If the hand is on an accessed page and the next one has not been accessed, that one is evicted. |
| PagingHazards.HazardLoads | src/vm/spt.c:295-332 | A load in the hazard brings in the bytes from behind the page that was written back, and fails exactly if the file has too few of them. |
| PagingHazards.EvictInodes | src/vm/frame.c:121-161 | Evicting a dirty mapped page overlays its file with the page and changes no other file. |
| PagingHazards.ReadsFromPosition | src/vm/spt.c:295-332 | A load brings in the bytes from wherever the position is. |
| PagingViews.FlushEffect | src/vm/spt.c:106-124 | A write-back overlays the file with the page's read_bytes at its offset, exactly if the page is dirty and the inode is not denied, and changes only file bytes and positions. |
| PagingViews.FlushHolds | src/vm/spt.c:106-124 | After it the file holds the page. |
| PagingViews.ReleasedKept | src/vm/spt.c:106-124 | A page that its file holds can give up its frame unnoticed. |
| PagingViews.ToSwapKept | src/vm/spt.c:126-140 | Swapping a page out is not visible. |
| PagingViews.SlotHolds | src/vm/swap.c:29-58 | Reading a slot gives back the page that was written to it, over eight sectors. |
| PagingViews.SlotElsewhere | src/vm/swap.c:44-58 | Writing a slot leaves every other slot alone. |
| PagingSteps.EvictKeepsInv | src/vm/frame.c:121-161 | Eviction leads to a good state with a page to spare, so the second try of frame_alloc succeeds; it panics exactly if the victim must be swapped and no slot is free. |
| PagingSteps.PageFaultKeepsInv | src/userprog/exception.c:192-243 | A fault keeps the invariant whatever it ends in. |
| PagingSteps.MakeRoomKeepsInv | src/vm/frame.c:35-77 | frame_alloc's search ends with a free page in a good state, or in a panic. |
| PagingKernel.Kernel.ClockScan | src/vm/frame.c:121-161 | Ends within two laps if a frame is unpinned; the victim is the first unpinned frame from the hand on that was not accessed, else the first unpinned one; exactly the frames passed over lose their accessed bit. |
| PagingKernel.SweepAdvances | src/vm/frame.c:121-161 | An inspection that finds no victim is in the first lap, or of a pinned frame. |
| PagingKernel.SweepFinds | src/vm/frame.c:121-161 | The frame on which the loop stops is the victim defined by distance from the hand. |
| PagingKernel.SweepEnds | src/vm/frame.c:121-161 | Two laps without a victim are impossible if some frame is unpinned. |
| PagingKernel.Kernel.EvictFrame | src/vm/frame.c:121-161 | The code computes the eviction transition, or panics exactly when that does. |
| PagingKernel.Kernel.AllocFrame | src/vm/frame.c:35-77 | The new frame is pinned, in the first free page, and everything else is as after making room. |
| PagingKernel.Kernel.FreeFrame | src/vm/frame.c:81-97 | The frame leaves table and pool, and the hand steps off it. |
| PagingKernel.Kernel.SwapOut | src/vm/swap.c:44-58 | The sector loop stores the page in the first free slot, marks it, and changes nothing else; without a free slot it changes nothing. |
| PagingKernel.Kernel.SwapIn | src/vm/swap.c:29-42 | The sector loop fills the frame with the slot and frees the slot. |
| PagingKernel.Kernel.MemoryToLazy | src/vm/spt.c:106-124 | The code computes the write-back transition. |
| PagingKernel.Kernel.MemoryToSwap | src/vm/spt.c:126-140 | The code computes the swap-out transition, and fails exactly without a free slot. |
| PagingKernel.Kernel.SwapToMemory | src/vm/spt.c:143-162 | The code computes the swap-in transition, with the eviction it may need. |
| PagingKernel.Kernel.InitializeAsMemory | src/vm/spt.c:75-102 | The code makes a zeroed, present, writable, anonymous page. |
| PagingKernel.Kernel.ReadPage | src/vm/spt.c:295-332 | The read starts at the file's position of that moment; a short read gives the frame back and kills the process. |
| PagingKernel.Kernel.LazyToMemory | src/vm/spt.c:164-176 | Seek, then allocate, then read: the code computes the load transition, hazard included. |
| PagingKernel.Kernel.HandlePageFault | src/userprog/exception.c:192-243 | The dispatch on entry status, rights and the stack-growth rule computes the fault transition, whose outcome in every case PagingProgress decides. |
| PagingKernel.Kernel.FileWrite | src/filesys/file.c:94-100 | A write at the position advances it by the bytes that fit; a denied inode is left alone. |
| PagingKernel.Kernel.DestroyEntry | src/vm/spt.c:180-199 | The code removes the entry with its frame or slot. |
| PagingKernel.Kernel.UnmapPage | src/vm/mmap.c:35-76 | The loop body writes back a dirty page and removes it. |
| PagingKernel.Kernel.UnmapAndFlush | src/vm/mmap.c:35-76 | The loop over the file's length unmaps every page of the mapping, then closes the file. |
| PagingMappings.SysMunmap | src/userprog/syscall.c:446-454 | After every run from boot, the loop for a mapping that the run has left takes the machine's munmap step, and cannot miss or exceed the mapping's pages. |
| PagingMappings.MunmapIsPossible | src/vm/mmap.c:35-76 | After every run from boot, the pages that the loop goes through for a mapped page's mapping are exactly the pages mapped from its file. |
| PagingMappings.ReachedKeeps | src/userprog/syscall.c:381-444 | After every run from boot every mapped page is part of a mapping that has all pages of its file, in order and in one process; and page table entries and mappings belong to pages or running processes. |
| PagingMappings.StepKeepsWhole | src/vm/spt.c:75-199 | No event takes a part of a mapping away or adds to it. |
| PagingMappings.StepMapping | src/vm/spt.c:75-199 | A mapping stays whole until the event that unmaps it or ends its process. |
| PagingMappings.NewMapping | src/userprog/syscall.c:381-444 | sys_mmap makes a whole mapping. |
| PagingMappings.StepKeepsEntered | src/userprog/process.c:230-252 | Page table entries come with pages and go with their process. |
| PageDirectory.PagesApart | src/threads/pte.h:32-39 | Different pages never share a directory and table index, and user pages use user entries only. |
| PageDirectory.PtNoIs | src/threads/pte.h:32-39 | Masking and shifting extracts the page number modulo 1024. |
| PageDirectory.CreatedEntry | src/threads/pte.h:84-98 | Decoding a new entry gives back frame and rights, present, neither accessed nor dirty. |
| PageDirectory.CreatedPde | src/threads/pte.h:71-81 | A directory entry gives back the table it was made of. |
| PageDirectory.ClearedEntry | src/userprog/pagedir.c:143-157 | Clearing the present bit leaves all other fields. |
| PageDirectory.DirtyEntry | src/userprog/pagedir.c:172-186 | Setting or clearing the dirty bit changes that field only. |
| PageDirectory.AccessedEntry | src/userprog/pagedir.c:201-215 | Setting or clearing the accessed bit changes that field only. |
| PageDirectory.NewTable | src/userprog/pagedir.c:56-86 | Adding an empty table changes the entry of no page. |
| PageDirectory.OneEntry | src/userprog/pagedir.c:56-86 | Writing one slot of a table changes one page's entry and no other page's. |
| PageDirectory.FreedOnce | src/userprog/pagedir.c:27-48 | The addresses freed are exactly the mapped frames, the page tables and the directory; and none is freed twice if and only if no frame is mapped twice and none is a page table or the directory. |
| PageDirectory.VisitedOnce | src/userprog/pagedir.c:27-48 | The loops visit exactly the present entries and the tables, each once. |
| PagingDirectory.DestroyFreesOnce | src/userprog/pagedir.c:27-48 | In every good state of the machine a process's directory meets that condition, so destroying it frees nothing twice. |
| PagingDirectory.ExitFreesTables | src/userprog/process.c:230-252 | When a process has ended, destroying its directory frees exactly the page tables and the directory, each once, and no frame, so none that frame_free has given back. |
| PagingDirectory.PoolIsPlaced | src/threads/palloc.c:71-101 | The pages of every pool that physical memory can hold have aligned addresses of their own, as these statements ask for. |
| PagingDirectory.InstallPage | src/userprog/pagedir.c:98-119 | Mapping a frame of the pool in the two-level directory is the paging model's new entry, and cannot fail for a page that has an entry. |
| PagingDirectory.RemovePage | src/userprog/pagedir.c:143-157 | Clearing a page in the directory is the paging model's clearing. |
| PagingDirectory.GiveSecondChance | src/userprog/pagedir.c:201-215 | Clearing the accessed bit in the directory is what the clock does to the paging model's entries. |
| PagingDirectory.LookAt | src/userprog/pagedir.c:163-197 | The directory's dirty and accessed bits are those the paging transitions look at. |
| PagingDirectory.CreatedHolds | src/userprog/pagedir.c:16-23 | A new directory holds the entries of a process that has none. |
| PagingDirectory.StartHolds | src/userprog/pagedir.c:16-23 | So the new directory of a program started after any run from boot holds that process's entries. |
| PageDirectory.PageDir.constructor | src/userprog/pagedir.c:16-23 | A new directory maps no user page. |
| PageDirectory.PageDir.LookupPage | src/userprog/pagedir.c:56-86 | Finds a slot exactly if the table exists or may be made, and changes no page's entry. |
| PageDirectory.PageDir.SetPage | src/userprog/pagedir.c:98-119 | Fails exactly if a table is needed and there is no memory; else the page has the frame and rights, and no other page changes. |
| PageDirectory.PageDir.GetPage | src/userprog/pagedir.c:125-137 | The frame and offset for a present page, null otherwise. |
| PageDirectory.PageDir.ClearPage | src/userprog/pagedir.c:143-157 | The page is not present afterwards; its other fields and all other pages stay. |
| PageDirectory.PageDir.IsDirty | src/userprog/pagedir.c:163-168 | The dirty field of the page's entry. |
| PageDirectory.PageDir.IsAccessed | src/userprog/pagedir.c:192-197 | The accessed field of the page's entry. |
| PageDirectory.PageDir.SetDirty | src/userprog/pagedir.c:172-186 | Changes that field of that page only. |
| PageDirectory.PageDir.SetAccessed | src/userprog/pagedir.c:201-215 | Changes that field of that page only. |
| PageDirectory.PageDir.Remap | src/userprog/pagedir.c:98-157 | A page mapped once can be cleared and mapped again without memory, never fails, and starts out clean and unaccessed. |
| PageDirectory.PageDir.Destroy | src/userprog/pagedir.c:27-48 | The loops, and the free of the directory after them, pass the addresses to palloc that FreedOnce speaks of. |
| LinkedList.List.Sort | src/lib/kernel/list.c:404-440 | For any strict weak order: terminates, the list is well formed, holds the same nodes, in order, equal ones in their old order. |
| LinkedList.List.SortPass | src/lib/kernel/list.c:404-440 | One pass merges adjacent runs pairwise and counts the output runs. |
| LinkedList.List.InplaceMerge | src/lib/kernel/list.c:379-399 | Relinking merges two adjacent runs stably and leaves the rest of the list alone. |
| LinkedList.List.FindEndOfRun | src/lib/kernel/list.c:357-372 | Stops at the end of the maximal nondecreasing run. |
| LinkedList.List.Splice | src/lib/kernel/list.c:183-204 | Moves a range to before any node outside of it, earlier or later in the list, the tail included: links in both directions agree, the other nodes keep their order. |
| LinkedList.List.SpliceFrom | src/lib/kernel/list.c:183-204 | Moves a range from one list into another: both are well formed afterwards, and the elements of both keep their order. |
| LinkedList.List.Insert | src/lib/kernel/list.c:168-178 | Inserts before the given node, tail included. |
| LinkedList.List.PushFront | src/lib/kernel/list.c:208-212 | The new node is first. |
| LinkedList.List.PushBack | src/lib/kernel/list.c:216-220 | The new node is last. |
| LinkedList.List.Remove | src/lib/kernel/list.c:248-255 | Takes one node out and returns its successor. |
| LinkedList.List.PopFront | src/lib/kernel/list.c:259-265 | Takes the first node out. |
| Ordering.PassHalvesRuns | src/lib/kernel/list.c:404-440 | A pass over r runs leaves at most ceil(r/2), and counts exactly that many. |
| Ordering.PassStable | src/lib/kernel/list.c:404-440 | A pass keeps the order inside each class of equal elements. |
| Ordering.PassRearranges | src/lib/kernel/list.c:404-440 | A pass neither loses nor duplicates an element. |
| Ordering.StableSortUnique | src/lib/kernel/list.c:404-440 | Sorted and stable determines the result: two such rearrangements are equal. |
| Ordering.MergeSorted | src/lib/kernel/list.c:379-399 | Merging sorted runs gives a sorted run. |
| Ordering.MergeStable | src/lib/kernel/list.c:379-399 | Merging puts each class in the order left run, then right run. |
| Ordering.RunIsMaximal | src/lib/kernel/list.c:357-372 | The run found is nondecreasing and cannot be extended. |
| Arithmetic.UDiv64 | src/lib/arithmetic.c:77-127 | Floor of the quotient for all 64-bit arguments; the divide error exactly for a zero divisor. |
| Arithmetic.UDivNarrow | src/lib/arithmetic.c:77-127 | The branch for 32-bit divisors: neither instruction traps, and the two halves make up the quotient. |
| Arithmetic.UDivWide | src/lib/arithmetic.c:77-127 | The branch for wider divisors: the instruction cannot trap and the correction step yields the quotient. |
| Arithmetic.WideEstimate | src/lib/arithmetic.c:77-127 | The estimate from the normalized divisor is the quotient or one more. |
| Arithmetic.NarrowQuotient | src/lib/arithmetic.c:77-127 | Dividing the remainder of the high word fits the instruction. |
| Arithmetic.Nlz | src/lib/arithmetic.c:41-73 | Shifting by the result brings the top set bit to bit 31. |
| Arithmetic.SDiv64 | src/lib/arithmetic.c:139-146 | Truncated quotient, exactly unless it is 2^63. |
| Arithmetic.TruncatedMeaning | src/lib/arithmetic.c:139-146 | What truncation means: the remainder is smaller than the divisor and has the dividend's sign. |
| Arithmetic.UMod64 | src/lib/arithmetic.c:131-135 | The low 32 bits of the remainder; the remainder itself if and only if it fits, and always for a divisor up to 2^32. |
| Arithmetic.UMod64RightFor | src/lib/arithmetic.c:131-135 | The remainder fits for every dividend if and only if the divisor is at most 2^32. |
| Arithmetic.SMod64RightFor | src/lib/arithmetic.c:150-154 | The signed remainder fits for every dividend if and only if the divisor's magnitude is at most 2^31. |
| Arithmetic.SMod64LosesHighBits | src/lib/arithmetic.c:150-154 | smod64 of 2^31 and 2^31 + 1 returns -2^31; the remainder is 2^31. |
| Arithmetic.SMod64 | src/lib/arithmetic.c:150-154 | Congruent to the signed remainder modulo 2^32; equal to it if and only if it fits, and always for a divisor of magnitude up to 2^31. |
| Arithmetic.UMod64LosesHighBits | src/lib/arithmetic.c:131-135 | umod64 of 2^32 + 5 and 2^32 + 7 returns 5; the remainder is 2^32 + 5. |
| Timer.WokenOnceOnTime | src/devices/timer.c:91-206 | Over every run the wakeups and the sleepers are together exactly the calls of timer_sleep in the run, one for each; each wakeup is at the later of the next tick and the deadline of the call, a call sleeps exactly while that tick has not come, and equal deadlines are answered in the order of the calls. |
| Timer.CallIsAnswered | src/devices/timer.c:103-117 | Over every run a call that asks for n ticks from its start is woken at that tick, or at the next one if that is past, and sleeps until then. |
| Timer.HistoryIs | src/devices/timer.c:91-206 | The recorded calls and the time after a run are those of the events. |
| Timer.TimerSleep | src/devices/timer.c:103-117 | timer_sleep on the linked list takes the step of the state machine. |
| Timer.TimerInterrupt | src/devices/timer.c:190-206 | timer_interrupt on the linked list takes the step of the state machine, and wakes the threads of the step's wakeups, in order. |
| Timer.TickKeeps | src/devices/timer.c:190-206 | After each interrupt every remaining sleeper's deadline is later. |
| Timer.SleepKeeps | src/devices/timer.c:103-117 | Going to sleep keeps the list ordered and adds exactly this call to the history; Timer.HistoryIs says which call. |
| Timer.RunKeeps | src/devices/timer.c:91-206 | Every run keeps that. |
| Timer.SortInserts | src/devices/timer.c:103-117 | Appending to the sorted list and sorting it stably is insertion behind equal deadlines. |
| Timer.AlarmClock.Sleep | src/devices/timer.c:103-117 | The linked list of sleepers after list_sort is that insertion. |
| Timer.AlarmClock.Interrupt | src/devices/timer.c:190-206 | The loop wakes exactly the sleepers that are due, in order. |
| Synch.NoLostWakeup | src/threads/synch.c:60-121 | Over every run the value is the initial one plus the ups in the run less the downs that came through, and the waiters are the threads that had to wait, in order, without as many as there were ups with a waiter; while threads wait the value is at most the number of threads popped but not yet resumed, each of them running or ready. |
| Synch.FirstReadyFirst | src/threads/thread.c:223-325 | Over every run the ready list is the line of all threads made ready, in order, without as many as there were switches, and the processor idles or is with the last one switched to. |
| Synch.StepSema | src/threads/synch.c:60-121 | What each step does to each semaphore: one more for an up, one less for a down that comes through, a waiter at the back for one that does not, the front waiter gone for an up. |
| Synch.StepReady | src/threads/thread.c:223-325 | What each step does to the ready list and the processor: who is made ready goes to the back, and the processor goes to the front exactly when the running thread gives way. |
| Synch.StepThreads | src/threads/synch.c:60-236 | Where each step leaves the running thread in its call; the others stay where they were. |
| Synch.StepHolders | src/threads/synch.c:192-236 | A lock's holder changes at its claim and its release only. |
| Synch.OneList | src/threads/thread.c:223-253 | A waiting thread is on one waiters list, not on the ready list and not running. |
| Synch.MutualExclusion | src/threads/synch.c:192-236 | At most one thread is inside a lock, and it is the holder if one is recorded. |
| Synch.NextKeeps | src/threads/synch.c:60-236 | Every step of every interleaving, by threads and interrupt handlers, keeps the invariant. |
| Synch.Reached | src/threads/synch.c:60-236 | Every state a run from boot can reach satisfies it. |
| Synch.DownKeeps | src/threads/synch.c:60-76 | A turn of sema_down's loop, taking the unit or blocking, keeps it. |
| Synch.UpKeeps | src/threads/synch.c:108-121 | sema_up, with or without a waiter, keeps it. |
| Synch.PreemptKeeps | src/threads/thread.c:311-325 | Yielding keeps it. |
| Synch.SpawnKeeps | src/threads/thread.c:168-215 | Creating a thread keeps it. |
| Synch.ClaimKeeps | src/threads/synch.c:192-201 | Recording the holder keeps it. |
| Synch.DropKeeps | src/threads/synch.c:228-236 | Releasing a lock keeps it. |
| ProcessLife.ReleasedOnce | src/userprog/process.c:617-663 | In every interleaving a child's zombie_sema is upped at most once, exactly once when its parent has been through its cleanup, and no process is gone before its up. |
| ProcessLife.ListedIsAlive | src/threads/thread.c:540-568 | No thread on a live parent's child list, or in its hands, has been freed. |
| ProcessLife.WaitReturns | src/userprog/process.c:198-227 | A successful wait returns the status that this waiter's child passed on exit, and no child is collected twice; any other wait returns -1; ProcessHistory.WaitIs says which wait is which. |
| ProcessLife.LaterWaitsFail | src/userprog/process.c:198-227 | Waiting again for a collected child returns -1 and changes nothing. |
| ProcessHistory.WaitIs | src/userprog/process.c:198-227 | Over every run a wait is for a child if and only if the caller has started it, it has loaded, and the caller has not collected it; the caller then waits for its exit, and otherwise gets -1 and nothing else changes. |
| ProcessHistory.WaitAnswered | src/userprog/process.c:198-227 | Over every run from such a wait on, the caller is still in it or its first return is for this child with the status that the child passed to exit. |
| ProcessHistory.NobodyStuck | src/userprog/process.c:617-663 | In every reachable state a process can take a step unless it waits for its child to load or exit, or for its parent to release it, and that has not happened. |
| ProcessHistory.ListedAre | src/userprog/process.c:37-75 | In every reachable state the children on a process's list are those it started that loaded and that it has not collected. |
| ProcessHistory.NextPhase | src/userprog/process.c:198-227 | Where each step leaves the process that takes it. |
| ProcessHistory.NextRest | src/userprog/process.c:617-663 | No step changes another process's place, its parent, or what it has passed to exit. |
| ProcessHistory.NextKeepsFamily | src/userprog/process.c:617-663 | Every step keeps the agreement between a parent's list, its place and its children's semaphores. |
| ProcessHistory.ReachedTraced | src/userprog/syscall.c:165-184 | Over every run the state agrees with what the processes have done. |
| ProcessLife.NextKeeps | src/userprog/process.c:198-227 | Every step of exec, wait and exit keeps the invariant, in any interleaving. |
| ProcessLife.Reached | src/userprog/process.c:617-663 | Every reachable state satisfies it. |
| ProcessLife.DiscardUpKeeps | src/userprog/syscall.c:165-184 | Giving up a child that failed to load keeps it. |
| ProcessLife.OrphanAllKeeps | src/userprog/process.c:617-663 | The loop that releases the remaining children keeps it. |
| InodeIo.Device.WriteAt | src/filesys/inode.c:257-318 | A write overlays the device, seen as one array, with exactly the bytes that lie inside the file, over any number of partial and full sectors, and changes no other byte; a denied write changes nothing. |
| InodeIo.Device.ReadAt | src/filesys/inode.c:200-250 | A read returns the slice of the file's content. |
| InodeIo.NextChunk | src/filesys/inode.c:25-54 | The chunk lies in one sector of the file, at the byte's place on the device. |
| InodeIo.FlatUpdate | src/filesys/inode.c:257-318 | Rewriting part of a sector rewrites those bytes of the device and no others. |
| InodeIo.WriteIsOverlay | src/filesys/inode.c:257-318 | So the file's content is overlaid at the offset ... |
| InodeIo.WriteLeavesOthers | src/filesys/inode.c:257-318 | ... and files in other sectors keep theirs. |
| FileSystem.SectorsOwnedOnce | src/filesys/inode.c:72-195 | Over every run the sectors of live inodes, named or open, are marked, reserved for nobody else, and in no other live inode's footprint. |
| FileSystem.MarkedIsOwned | src/filesys/free-map.c:27-50 | Every marked sector is reserved, leaked by a failed creation, or in a live inode's footprint. |
| FileSystem.OneInodePerSector | src/filesys/inode.c:111-142 | Over every run there is one in-memory inode per sector, deny_write_cnt is between zero and open_cnt, and an inode is removed exactly if it has no name. |
| FileSystem.FailedCreateLeaks | src/filesys/filesys.c:50-64 | Creation succeeds if and only if there is space and the name can be added; a failed one leaves the free map as it was unless data sectors were allocated and the name was refused. |
| FileSystem.LeakingRun | src/filesys/filesys.c:50-64 | A run from a formatted disk whose second creation, under a name in use, leaves a data sector marked that no live inode owns. |
| FileSystem.CreateKeeps | src/filesys/filesys.c:50-64 | Creation, successful or not, keeps the ownership invariant. |
| FileSystem.OpenKeeps | src/filesys/filesys.c:71-82 | Opening keeps it: an open inode is shared, another is read in; FileSystemHistory.OpenLaw says which inode the file gets. |
| FileSystem.ReopenKeeps | src/filesys/file.c:38-42 | Reopening keeps it. |
| FileSystem.DenyKeeps | src/filesys/file.c:118-141 | Denying and allowing writes, repeatedly or not, keep it. |
| FileSystem.DenyBounds | src/filesys/inode.c:322-338 | deny_write_cnt stays between zero and open_cnt, as the assertions want. |
| FileSystem.CloseKeeps | src/filesys/file.c:45-54 | Closing keeps it. |
| FileSystem.CloseReleases | src/filesys/inode.c:163-186 | Closing frees sectors exactly if it is the last close of a removed inode, and then exactly its footprint. |
| FileSystem.EndKeeps | src/filesys/inode.c:163-186 | At the last close of a removed inode the assertions of free_map_release hold. |
| FileSystem.RemoveKeeps | src/filesys/filesys.c:88-96 | Removing a file, open or not or missing, keeps the invariant. |
| FileSystem.RemoveOpen | src/filesys/directory.c:184-216 | An open file that is removed loses its name and keeps its sectors. |
| FileSystem.RemoveClosed | src/filesys/inode.c:163-195 | A file nobody has open is released at once. |
| FileSystem.NextKeeps | src/filesys/filesys.c:50-96 | Every operation keeps the invariant. |
| FileSystem.Reached | src/filesys/filesys.c:50-96 | Every state a run from a formatted disk can reach satisfies it. |
| FileSystemHistory.CreatedIsOpened | src/filesys/filesys.c:50-82 | Over every run: once a name has been created, and until it is removed, opening it yields a file on the sector that the creation took, an inode of the size asked for. |
| FileSystemHistory.FileLasts | src/filesys/inode.c:111-195 | Over every run an open file goes on reading the inode it was opened on until it is closed, whatever happens to its name. |
| FileSystemHistory.NameLasts | src/filesys/directory.c:91-216 | Over every run a name leads to the same inode until it is removed. |
| FileSystemHistory.DeniesIs | src/filesys/file.c:118-141 | Over every run a file denies writes if and only if the last call about it that opens, closes, denies or allows was a deny. |
| FileSystemHistory.NamesAfter | src/filesys/directory.c:141-216 | A name comes with a creation that succeeds, on the first free sector, and goes with its removal; no other operation changes what a name leads to. |
| FileSystemHistory.FilesAfter | src/filesys/file.c:18-54 | Opening gives a file on the inode the name leads to, reopening one on the same inode, closing takes the file away; no other operation changes what an open file reads. |
| FileSystemHistory.DeniesAfter | src/filesys/file.c:118-141 | What each operation does to a file's mark. |
| FileSystemHistory.OpenLaw | src/filesys/filesys.c:71-82 | filesys_open succeeds if and only if the directory has the name, the new file reads the inode that the name leads to, and the other files, the directory and the disk stay as they are. |
| FileSystemHistory.CreateLaw | src/filesys/filesys.c:50-64 | A creation that succeeds enters a name that was not there, for the first free sector, takes exactly the sectors asked for, all free before, and changes no other name, inode or file. |
| FileSystemHistory.RemoveLaw | src/filesys/filesys.c:88-96 | filesys_remove succeeds if and only if the directory has the name, takes this one name away, and leaves the open files on their inodes. |
| FileSystemHistory.ReopenLaw | src/filesys/file.c:38-42 | The new file reads what the old one reads, and the others stay. |
| FileSystemHistory.DenyLaw | src/filesys/file.c:118-141 | Denying and allowing set the file's mark and change nothing that any file reads. |
| FileSystemHistory.CloseLaw | src/filesys/file.c:45-54 | The file is gone, and the others read what they did. |
| FileSystemCode.FileSys.constructor | src/filesys/filesys.c:99-108 | A formatted file system, with the inodes of the free map and the root directory in sectors 0 and 1, satisfies the invariant's starting condition. |
| FileSystemCode.FileSys.CreateFile | src/filesys/filesys.c:50-64 | The code, with its scans of the free map and its rollback, computes the creation that the lemmas are about. |
| FileSystemCode.FileSys.FindName | src/filesys/directory.c:91-112 | The scan finds the name's slot. |
| FileSystemCode.FileSys.AddName | src/filesys/directory.c:141-179 | Refuses a bad or existing name, else writes the first free slot. |
| FileSystemCode.FileSys.OpenInode | src/filesys/inode.c:111-142 | Shares the open inode of the sector or makes one, at the front of the list. |
| FileSystemCode.FileSys.OpenFile | src/filesys/filesys.c:71-82 | The code computes the opening transition, which FileSystemHistory.OpenLaw is about. |
| FileSystemCode.FileSys.CloseInode | src/filesys/inode.c:163-186 | The code computes the inode's part of a close. |
| FileSystemCode.FileSys.FreeMapRelease | src/filesys/free-map.c:44-50 | Clears exactly the released bits. |
| FileSystemCode.FileSys.CloseFile | src/filesys/file.c:45-54 | The code computes the close transition. |
| FileSystemCode.FileSys.RemoveFile | src/filesys/filesys.c:88-96 | The code computes the removal transition. |
| Bitmap.ChangesOne | src/lib/kernel/bitmap.c:144-179 | Setting or clearing a bit in its word changes that bit of the map and no other. |
| Bitmap.MasksDiffer | src/lib/kernel/bitmap.c:35-47 | Masks of different bits of a word do not overlap. |
| Bitmap.Scan | src/lib/kernel/bitmap.c:295-310 | The first group of the wanted bits at or after the start, or none if there is none. |
| Bitmap.FirstGroupUnique | src/lib/kernel/bitmap.c:295-310 | That description determines the answer. |
| Bitmap.Bitmap.constructor | src/lib/kernel/bitmap.c:78-94 | All bits are clear. |
| Bitmap.Bitmap.Test | src/lib/kernel/bitmap.c:197-203 | The bit. |
| Bitmap.Bitmap.Set | src/lib/kernel/bitmap.c:144-179 | That bit and no other changes. |
| Bitmap.Bitmap.SetMultiple | src/lib/kernel/bitmap.c:217-228 | Exactly the range changes. |
| Bitmap.Bitmap.Contains | src/lib/kernel/bitmap.c:250-263 | Whether some bit of the range has the value. |
| Bitmap.Bitmap.ScanFor | src/lib/kernel/bitmap.c:295-310 | The nested loops compute Scan. |
| Bitmap.Bitmap.ScanAndFlip | src/lib/kernel/bitmap.c:319-326 | The group found is flipped, and nothing else. |
| Malloc.BlocksDisjoint | src/threads/malloc.c:89-154 | Over every run a byte of a live block is in no other live block and in no arena header, and its page is marked used. |
| Malloc.CountsAreTrue | src/threads/malloc.c:218-264 | Over every run free_cnt is the number of the arena's blocks on the free list, and no wholly free arena keeps its page. |
| Malloc.MallocServes | src/threads/malloc.c:89-154 | For every heap and every size, the block malloc returns, if any, is large enough if and only if size and header do not exceed 2^32 or there is no free page. |
| Malloc.MallocReturns | src/threads/malloc.c:89-154 | For every size, malloc returns a block that was not live and is now, with the size asked for, or null and then changes nothing. |
| Malloc.MallocKeeps | src/threads/malloc.c:89-154 | For every size, malloc keeps the invariant if and only if size and header do not exceed 2^32 or there is no free page. |
| Malloc.FreeKeeps | src/threads/malloc.c:218-264 | free keeps it, and returns a page exactly when its arena has become wholly free. |
| Malloc.NextKeeps | src/threads/malloc.c:89-264 | Every call of a run keeps the invariant: malloc of any size that MallocKeeps allows, free, and page allocations by others. |
| Malloc.Reached | src/threads/malloc.c:71-264 | Every state a run from malloc_init can reach satisfies it. |
| MallocHistory.LiveIs | src/threads/malloc.c:89-264 | Over every run the live addresses, and for how many bytes each is live, are what the calls and the pointers they returned say. |
| MallocHistory.LiveLasts | src/threads/malloc.c:218-264 | Over every run an address stays live for the bytes asked for until it is freed. |
| MallocHistory.LiveAfter | src/threads/malloc.c:89-264 | malloc makes the address it returns live, free takes away the one it is given, and page allocations by others change no live address. |
| MallocHistory.ForeignAfter | src/threads/palloc.c:70-142 | Pages pass to other users in the first row that is long enough and come back when they are freed; malloc and free leave them alone. |
| MallocHistory.MallocLaw | src/threads/malloc.c:89-154 | malloc makes one address live that was not, for the bytes asked for, and leaves the others as they are, or returns null and changes nothing. |
| MallocHistory.MallocFails | src/threads/malloc.c:89-154 | malloc returns null if and only if the size is zero, or the free list for a small size is empty and no page is free, or no row of free pages is long enough for a big one. |
| MallocHistory.FreeLaw | src/threads/malloc.c:218-264 | free takes away exactly the address it is given. |
| MallocHistory.TakeLaw | src/threads/palloc.c:70-101 | palloc hands out the first row of free pages that is long enough, if there is one; the heap does not notice. |
| MallocHistory.GiveBackLaw | src/threads/palloc.c:117-142 | Exactly the pages given back are free again. |
| Malloc.TakeKeeps | src/threads/palloc.c:70-101 | Pages handed out to others do not disturb the heap. |
| Malloc.GiveBackKeeps | src/threads/palloc.c:117-142 | Nor do pages they return. |
| Malloc.AddressRoundTrip | src/threads/malloc.c:267-294 | block_to_arena undoes arena_to_block, and its assertions hold. |
| Malloc.Descriptors | src/threads/malloc.c:71-85 | Each descriptor's arena holds as many blocks as fit beside the header; sizes double and stop below half a page. |
| Malloc.PagesSuffice | src/threads/malloc.c:89-154 | The pages of a big block hold it and its header if and only if the sum does not wrap. |
| Malloc.WrappedRequest | src/threads/malloc.c:89-154 | On a fresh pool of one page, malloc of 2^32 - 1 bytes returns a block of 4084. |
| Malloc.WrappedPages | src/threads/malloc.c:89-154 | Where rounding up wraps, the page count is zero, or one for the last eleven sizes. |
| MallocCode.Allocator.constructor | src/threads/malloc.c:71-85 | An unused pool and empty free lists. |
| MallocCode.Allocator.FindDesc | src/threads/malloc.c:89-154 | The first descriptor whose blocks are large enough. |
| MallocCode.Allocator.GetPages | src/threads/palloc.c:70-101 | The first group of unused pages, marked used. |
| MallocCode.Allocator.FreePages | src/threads/palloc.c:117-142 | Exactly those pages are unused again. |
| MallocCode.Allocator.MakeArena | src/threads/malloc.c:89-154 | The loop puts every block of the page on the free list once. |
| MallocCode.Allocator.Allocate | src/threads/malloc.c:89-154 | The code computes the malloc that the lemmas are about. |
| MallocCode.Allocator.Release | src/threads/malloc.c:218-264 | The code computes the free that the lemmas are about. |
| MallocCode.Allocator.RemoveBlocks | src/threads/malloc.c:218-264 | The loop takes exactly the arena's blocks off the free list. |
| HashTable.Table.Insert | src/lib/kernel/hash.c:98-110 | Adds the element unless an equal one is there, which it returns. |
| HashTable.Table.Replace | src/lib/kernel/hash.c:114-127 | The element takes the place of the equal one, if any. |
| HashTable.Table.Find | src/lib/kernel/hash.c:131-135 | Finds an equal element if and only if the table has one. |
| HashTable.Table.Delete | src/lib/kernel/hash.c:144-154 | Takes an equal element out if and only if there is one. |
| HashTable.Table.Rehash | src/lib/kernel/hash.c:351-413 | Keeps the contents with or without memory; with memory the bucket count becomes the ideal one. |
| HashTable.Table.IdealCount | src/lib/kernel/hash.c:351-413 | The largest power of two up to half the element count, and at least four. |
| HashTable.Table.FindBucket | src/lib/kernel/hash.c:305-310 | The masked hash is the index of a bucket. |
| HashTable.Table.FindElem | src/lib/kernel/hash.c:314-326 | An equal element of the bucket, or none if there is none. |
| HashTable.Table.RemoveElem | src/lib/kernel/hash.c:424-429 | Exactly one element leaves. |
| HashTable.Table.constructor | src/lib/kernel/hash.c:24-42 | An empty table of four buckets. |
| HashTable.OnlyThere | src/lib/kernel/hash.c:305-326 | Equal elements can only be in the bucket searched. |
| HashTable.MaskIsRemainder | src/lib/kernel/hash.c:305-310 | Masking with a power of two less one is the remainder. |
| HashTable.PowerOfTwo | src/lib/kernel/hash.c:329-340 | is_power_of_2 is true exactly of the powers of two. |
| HashTable.TurnOffKeepsTop | src/lib/kernel/hash.c:329-333 | Turning off the lowest of several bits leaves the highest. |
| Elf.NothingWraps | src/userprog/process.c:408-518 | For every header validate_segment accepts, no sum wraps, and the range of whole pages covers the segment below PHYS_BASE. |
| Elf.ValidateIs | src/userprog/process.c:475-518 | validate_segment, with sums that wrap around, accepts exactly the nonempty segments that lie in user memory above its first page, have their file size within their memory size, begin inside the file, and keep their place in a page. |
| Elf.SegmentImage | src/userprog/process.c:408-443 | Each byte of the segment lies in one page of the split; the first p_filesz come from the file at p_offset, the others are zero. |
| Loading.ProgramReadsFile | src/userprog/process.c:343-471 | After exec of an executable whose headers load accepts, and in every run from there that does not store to the address, a read of p_vaddr + k that does not panic returns byte p_offset + k of the file for k below p_filesz, and 0 up to p_memsz; it can kill the process only if the file lacks the segment's bytes. |
| Loading.ProgramAccesses | src/userprog/process.c:343-471 | In every run from there, if the file has the segment's bytes, an access to the segment panics if and only if its page is not in memory and no frame can be had, and kills the process if and only if it writes to a segment without PF_W. |
| Loading.LoadImage | src/userprog/process.c:408-443 | The loop over the headers succeeds if and only if every header is valid and no two share a page; the image then has exactly their pages. |
| Loading.ImageByte | src/userprog/process.c:537-572 | The page table entries for a header show byte p_offset + k of the file at p_vaddr + k below p_filesz, and zero up to p_memsz. |
| Elf.SegmentLoads | src/vm/spt.c:295-332 | All pages can be loaded if and only if the file has the segment's bytes. |
| Elf.ByteOfPage | src/vm/spt.c:48-73 | Page by page splitting puts every byte of a range at its place. |
| Elf.InitializeLazy | src/vm/spt.c:48-73 | The loop enters each page once, in order, without its counts going below zero, and stops exactly at the first page already in use. |
| Elf.MappingRange | src/userprog/syscall.c:381-444 | The range of a mapping is a whole number of pages. |
| Arguments.StrtokR | src/lib/string.c:234-275 | Finds the next maximal space-free piece, ends it with a null, saves the position behind it, and changes no other byte. |
| Arguments.ArgumentParse | src/userprog/process.c:126-139 | The slots of the argv page point, in order, to the line's tokens, each made a string, with a null behind them; a store would leave the page if and only if there are 1024 tokens or more. |
| Arguments.TokensOfJoin | src/lib/string.c:234-275 | Splitting undoes joining with spaces. |
| Arguments.TokensAreTokens | src/lib/string.c:234-275 | Every token is nonempty and free of spaces. |
| UserStack.StartArguments | src/userprog/process.c:72-123 | A new program that reads argc and argv from its stack pointer gets exactly the tokens of the command line, with a null behind the last pointer and an aligned stack pointer. It starts if and only if the frame fits the stack page; a store leaves the pages of pointers if and only if there are more than 1023 tokens; otherwise the process ends. |
| UserStack.FrameFitsSlots | src/userprog/process.c:141-187 | Every argument list whose frame fits the stack page leaves a slot for the null. |
| UserStack.TooManyTokens | src/userprog/process.c:126-139 | A command line of less than a page with more than 1023 tokens. |
| UserStack.ArgumentPush | src/userprog/process.c:141-187 | Given the argv page, succeeds if and only if the frame fits the stack page; it then decodes to the arguments, ends at the computed address, and leaves the rest of the page alone. All addresses are kept in a page of 1024 slots. |
| UserStack.DecodedIs | src/userprog/process.c:141-187 | Strings, pointers and entry words in place are enough for decoding from the stack pointer. |
| UserStack.PushStrings | src/userprog/process.c:141-187 | The loop leaves each string whole, one below the other, exactly if they fit, and its address in its slot. |
| UserStack.Align | src/userprog/process.c:141-187 | The pointer goes down to the next multiple of four. |
| UserStack.PushPointers | src/userprog/process.c:141-187 | The loop stores the addresses of the slots in order with a null behind them. |
| UserStack.PushEntry | src/userprog/process.c:141-187 | argv, argc and a null return address stand below them. |
| UserStack.Strlcpy | src/lib/string.c:325-343 | The destination holds the string, and nothing outside it changes. |
| UserStack.Strlen | src/lib/string.c:292-302 | The length up to the first null. |
| Ustar.RoundTrip | src/lib/ustar.c:181-227 | Parsing a header in the format made for a file gives back the stripped name, the type and the size, 0 for a directory; refused exactly for a regular file of negative size. |
| Ustar.AcceptedIsSafe | src/lib/ustar.c:181-227 | Every header that is accepted, made here or not, has the magic, version 00, a type flag for its kind and its own checksum, and yields a name without antisocial prefix and a size that fits an int. |
| Ustar.CorruptionIsNoticed | src/lib/ustar.c:36-54 | A change of any one byte outside the chksum field turns an accepted header into a refused one. |
| Ustar.ChecksumStable | src/lib/ustar.c:36-54 | The checksum does not depend on the chksum field. |
| Ustar.ChecksumSees | src/lib/ustar.c:36-54 | Any change of another byte shows in it. |
| Ustar.CalculateChksum | src/lib/ustar.c:36-54 | The loop computes that sum. |
| UstarCode.MakeHeader | src/lib/ustar.c:82-118 | Succeeds if and only if the stripped name has at most 99 bytes; then every field of the 512 bytes is as the format wants it and the header parses back; else it is untouched. |
| UstarCode.ParseHeader | src/lib/ustar.c:181-227 | The checks in their order give the header's meaning, with the name as a pointer to the stripped string. |
| UstarCode.WriteNumbers | src/lib/ustar.c:82-118 | The numeric fields hold their numbers in octal. |
| UstarCode.WriteTexts | src/lib/ustar.c:82-118 | Type, magic, version and names are in place and the rest is zero. |
| UstarCode.Snprintf | src/lib/stdio.c:25-72 | The text is cut to the buffer and always ends in a null. |
| UstarCode.IsAllZeros | src/lib/ustar.c:166-173 | True exactly of a block of zeros. |
| Octal.OctalRoundTrip | src/lib/ustar.c:129-162 | Parsing an octal field gives back the number printed, if it fits an unsigned long. |
| Octal.ParseOctalField | src/lib/ustar.c:129-162 | Accepts exactly a nonempty run of digits that ends inside the field at a space or null and does not overflow, and returns its number. |
| Octal.FormatOctal | src/lib/stdio.c:469-547 | The text stands for the number, has at least the width, and is longer only with a nonzero first digit. |
| Octal.AccumulateDigits | src/lib/stdio.c:469-547 | The buffer holds the number's digits in reverse, at least one and never more than it has room for. |
| Octal.WidthFits | src/lib/stdio.c:469-547 | A number below 8 to the width is printed in exactly the width. |
| Names.StripPrefixes | src/lib/ustar.c:65-73 | The loops compute the stripped name. |
| Names.StripIsSafe | src/lib/ustar.c:65-73 | The result is nonempty, not "..", starts with none of the prefixes, and is a suffix of the name or ".". |
| Names.StripTwice | src/lib/ustar.c:65-73 | Stripping again changes nothing. |
| Names.StripLeavesRest | src/lib/ustar.c:65-73 | However a name is cut into such prefixes and a rest without one, the rest is the result. |

## Left out

- Device drivers, interrupt gates, context switches, the TLB and the hardware side of page tables; the accessed and dirty bits are set by the model's reads and writes.
- Priority donation and the multilevel feedback scheduler: the code has round robin only.
- Failures of kernel memory in the virtual memory code, and what a half-finished load leaves behind; a full swap area is a panic and ends a run.
- Preemption inside a page fault: faults are single steps, so a frame is pinned only within a step, and the pinned flags matter to `PagingKernel.Kernel.ClockScan` alone.
- Mappings that reach beyond user memory or wrap around, and an executable whose image covers the stack page; program headers of other types than PT_LOAD, and the checks of the ELF header.
- PagingKernel.Kernel.LazyToMemory: the `file_read` is one transfer of the bytes in range; `InodeIo` has the sector loop.
- In `load`, the stack page is made after the image's pages have been entered; the model enters them after it, which no page can tell apart.
- The child-list loop of `process_cleanup` is one step, as are the other list operations of `ProcessLife`; a child that fails to load is discarded through `sys_exec`, and the initial thread's direct use of `process_execute` is not modelled for failing loads.
- Condition variables, thread exit and priorities in `Synch`; interrupts are disabled inside a step.
- The list's other operations: reverse, unique, ordered insertion, minimum and maximum.
- Heap sort and binary search in the standard library, hash iteration and clearing, `calloc` and `realloc`.
- The file system's own I/O on the directory and the free map file, and their failures; directory entries and free map bits are fields of the model. Writes to files do not occur in `FileSystem` because they change no sector's owner; `InodeIo` has them.
- Malloc.NextKeeps: runs leave out the eleven sizes for which malloc returns too small a block, where a page is free for it; `Malloc.MallocServes` and `Malloc.MallocKeeps` say which they are.
- MallocCode.Allocator.GetPages: one of the two page pools, the kernel's; the user pool is part of `Paging`.
- UserStack.StartArguments: the load between parsing and pushing, and what stores past the end of the page of pointers overwrite.
- UstarCode.Snprintf: conversions other than octal with the zero flag.
- UstarCode.MakeHeader: the message printed for a long name.
- Tests, user programs, documentation and utilities.

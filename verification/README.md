# SarOSx64 kernel: verified model

A Dafny model of the memory, process and file-reading core of the SarOSx64 kernel, with proofs of what that
core promises. `dafny verify dfyconfig.toml` checks the whole project.

## What is modelled

- **Frames** (`Blocks`, `Regions`, `LinkedLists`, `Buddy`). The buddy allocator is a class whose free lists are
  threaded through words of memory at the addresses of the free frames, as in the kernel. Its abstract state is
  a tag for every managed frame: the order of its block, and whether the block is free.
- **Address spaces** (`PageTables`, `Translation`, `AccessRights`, `TableWalks`, `TableNodes`, `MapRanges`, `AddressSpaces`, `Fork`,
  `UserSpaces`, `Isolation`). Physical memory is a map from frame numbers to frames, each a table of 512 entries or a
  page of bytes. An entry is a record of its frame number (bits 12 to 51), the bits present, writable, user, large and
  no-execute, and the rest. Four-level tables are trees; their meaning is a finite map from page numbers to leaves. A
  frame given back leaves the map. A tree covers the first `lim` slots of its PML4, 256 for a user space; the other
  slots are stated to be kept. `Walk` is the processor's own walk (section 4.5 of the Intel Software Developer's
  Manual, volume 3A), with 1 GiB and 2 MiB pages, and `Access` the rights it grants (section 4.6): write and user
  access need every entry on the way, no-execute any. In `Isolation` a run creates, forks, faults, unmaps, drops, and
  stores bytes from user mode or from the kernel through `translate`; the kernel maps nothing for itself in it.
- **User memory** (`UserMemory`, `Exec`, `ElfFiles`, `ElfLoader`, `UserStack`, `AuxVectors`, `Processes`): writing and
  reading user bytes through `translate`, loading ELF files, building the first stack, reading argument arrays and the
  auxiliary vector, and starting a process from these parts.
- **Kernel heap** (`Slabs`, `Heap`): slab headers are fields by slab address, free objects hold their links, and
  pages come from the buddy allocator.
- **Scheduling** (`Scheduler`, `SpinLocks`, `Keyboard`): the run queue, locks that save the interrupt flag, the
  keyboard ring buffer, and an interleaving model of `wait_key` with timer and keyboard interrupts on one CPU.
- **FAT32** (`Fat32`, `FatVolumes`): cluster chains, reads into a buffer, whole files. A sector that is not in the disk
  map cannot be read. `FatVolumes` lays files out on a drive byte by byte, to be read back.

The direct map of physical memory is a constant offset, aligned to the largest block where the heap needs it.
A context switch is a change of the current process that turns interrupts on.

## What the proofs found

- `add_region` never merges a new block with blocks of earlier regions. Merging stays complete exactly when no
  free block next to the region has its buddy inside it (`SeedCoalescedIff`); two pages seeded apart that are
  buddies break it (`TouchingRegions`).
- A failed `map` or a failed clone leaves no frame free, because the frames taken on the way are not returned.
  The success conditions are exact: as many free frames as missing tables, or as tables to copy.
  `map_range` takes every missing table of the range once (`MapRange`).
- `map_user_stack` ignores the result of `map`. That is harmless: when `map` fails there, no frame is left for the
  next page, so the build fails (`MapUserStack`). The ignored result in `handle_cow` is always true (`HandleCow`).
- `handle_cow` never frees the old frame, and gives the copy fixed rights. They are those of the page, writable again,
  exactly when it was a user page that is executable and has no further bits (`CowRights`).
- `translate` is not the processor's walk. Where no large entry lies above the page directory, the two agree exactly
  when the directory's entry, if large, is present and aligned to 2 MiB; under a larger page, exactly when the bytes
  found there happen to lead to the right address (`TranslateIsWalk`). It misses a 1 GiB page (`GiantPageMissed`) and
  takes the attribute bit of a 2 MiB entry for a frame bit (`AttributeMisread`). On the trees that the kernel builds
  it agrees (`WalkIsView`).
- System calls store into user memory through `translate`, past the write protection. Such a store is private exactly
  when it changes nothing or no other leaf maps the frame (`KernelStorePrivateIff`); after a fork the child reads what
  the kernel stores for the parent (`KernelStoreAfterFork`).
- A segment loaded later replaces the pages it shares with an earlier one. A byte of a segment is loaded as the file
  promises exactly when the last header that maps its page, or brings file bytes there, promises the same byte
  (`SegmentByteExact`); a file with two one-byte segments on one page, which passes every
  check, loses the first byte (`SharedPageLoses`).
- A stack builder that overruns the 64 KiB it committed and finds other pages mapped below goes on writing into them
  (`BuildUserStack`, `StackFits`).
- A process that cannot be started returns its tables and loses its pages (`StartProcess`).
- Arguments reach the next program unchanged exactly when they hold no zero byte and are within the reader's limits
  (`ArgumentsBack`).
- The initial stack pointer is a multiple of 16, as the ABI asks, exactly when the number of arguments and
  environment strings is odd (`RspAligned`).
- Slab pages of 2048-byte objects are never returned; the caches keep as many as were in use at the busiest
  moment (`AllFreed`).
- Spin-lock guards dropped out of order turn interrupts on under a held lock, exactly when the guard is the oldest
  of several and saved interrupts as on (`DropQuietIff`, `OutOfOrder`).

## Model

| member | source | states |
|---|---|---|
| Blocks.BuddyFacts | src/mm/pmm.rs:153-157 | toggling one bit pairs the two halves of a block: an involution, and the lower of the two starts the joined block |
| Blocks.AllocKeeps | src/mm/pmm.rs:121-142 | handing out 2^o frames of a free block keeps the tiling, takes exactly those frames off the free set, touches no live block, and keeps merging complete |
| Blocks.FreeKeeps | src/mm/pmm.rs:144-166 | giving a block back keeps the tiling, frees exactly its frames, touches no other live block, and keeps merging complete |
| Blocks.FreeRunIsOneBlock | src/mm/pmm.rs:144-166 | without free buddies, a wholly free aligned run of 2^o frames lies in one free block |
| Blocks.FitsIffFreeRun | src/mm/pmm.rs:121-130 | a free block of order o or more exists if and only if some aligned run of 2^o frames is wholly free |
| Blocks.Canonical | src/mm/pmm.rs:121-166 | free frames and live blocks determine the whole block structure: two complete tilings that agree on them are equal |
| Blocks.FreeUndoesAlloc | src/mm/pmm.rs:121-166 | freeing what was just allocated restores the free frames, and every block when merging was complete |
| Regions.SeedKeeps | src/mm/pmm.rs:93-119 | seeding adds exactly the region's frames, all free, and keeps the tiling |
| Regions.SeedCoalescedIff | src/mm/pmm.rs:93-119 | seeding leaves merging complete if and only if no free neighbour block has its buddy inside the region |
| Regions.NotTouching | src/mm/pmm.rs:93-119 | a region with no managed frame just below and just above it meets that condition |
| Regions.TouchingRegions | src/mm/pmm.rs:93-119 | two touching one-page regions at 2 MiB, the start of managed memory, after which two free buddies coexist |
| Regions.RunKeeps | src/mm/pmm.rs:93-166 | in every state reached by seeding, allocating and freeing, blocks tile the managed frames and no two free buddies coexist |
| Regions.RunComplete | src/mm/pmm.rs:93-166 | in every such state a block of order o is available if and only if an aligned run of 2^o managed frames is wholly free |
| LinkedLists.ChainCut | src/mm/pmm.rs:53-67 | redirecting the link before a node removes exactly that node from a threaded list |
| Buddy.ScaledBlock | src/mm/pmm.rs:100-101 | alignment and the exclusive-or with the block size on byte addresses are alignment and buddy of frame numbers |
| Buddy.BuddyAllocator.Push | src/mm/pmm.rs:32-39 | the list gains the block in front, its link word is written, no other word changes |
| Buddy.BuddyAllocator.Pop | src/mm/pmm.rs:41-51 | the first block of the list, or none exactly when the list is empty |
| Buddy.BuddyAllocator.Remove | src/mm/pmm.rs:53-67 | found if and only if the block is on the list; then exactly it is taken out, and only words of that list change |
| Buddy.BuddyAllocator.Alloc | src/mm/pmm.rs:121-142 | fails exactly when no free block is large enough (when complete: no aligned run is wholly free); otherwise a smallest sufficient block is split; page count and lists agree; writes only into frames that were free |
| Buddy.BuddyAllocator.Free | src/mm/pmm.rs:144-166 | the block is merged as far as possible; page count and lists agree; writes only into frames free afterwards |
| Buddy.BuddyAllocator.AddRegion | src/mm/pmm.rs:93-119 | the whole pages of the region are seeded greedily, both page counters grow by their number, writes only into them |
| Buddy.WholeInRegion | src/mm/pmm.rs:93-98 | those are exactly the pages that lie whole within the region |
| Buddy.BuddyAllocator.AllocFrame | src/mm/pmm.rs:217-219 | one frame moves from the free frames to the frames handed out singly, or none is free |
| Buddy.BuddyAllocator.FreeFrame | src/mm/pmm.rs:225-227 | exactly that frame becomes free again |
| Buddy.OwnerWritesKeepLists | src/mm/pmm.rs:32-67 | any write of an owner into frames that are not free leaves every free list intact |
| PageTables.PathIsPage | src/mm/vmm.rs:59-74 | two pages take the same path through all four tables if and only if they are the same page |
| Translation.PageIndices | src/mm/vmm.rs:59-74 | the four table indices of an address are the base-512 digits of its page number |
| Translation.TranslateIsWalk | src/mm/vmm.rs:207-226 | for all tables and addresses, with no large entry above the page directory `translate` equals the processor's walk if and only if the directory's entry is not large, or is present and aligned; under a larger page, if and only if the bytes read there as a directory lead to the same address |
| Translation.GiantPageMissed | src/mm/vmm.rs:207-226 | tables with a 1 GiB page at address 0, which the processor maps and `translate` does not find |
| Translation.AttributeMisread | src/mm/vmm.rs:213-217 | a 2 MiB entry with bit 12 set, which `translate` takes for a frame bit |
| Translation.TranslateIsView | src/mm/vmm.rs:207-226 | on tree-shaped tables `translate` reads exactly the finite map from pages to leaves |
| Translation.WalkIsView | src/mm/vmm.rs:207-226 | on tree-shaped tables whose 2 MiB entries are aligned, the processor's walk and `translate` agree on every address |
| Translation.UpperTranslates | src/mm/vmm.rs:207-226 | two roots that share their upper slots, and the tables under them, translate every address there alike |
| Translation.UpperWalks | src/mm/vmm.rs:81-93 | two roots that share their upper slots are walked alike by the processor there, 1 GiB pages included |
| AccessRights.AccessIsPath | src/mm/vmm.rs:111-140 | on tree-shaped tables with aligned 2 MiB pages the processor grants at every address the rights of its leaf, as far as all links on the way allow them |
| AccessRights.OpenAccess | src/mm/vmm.rs:111-140 | where no link takes a right away, exactly the rights of the leaf |
| AccessRights.InstallLinks | src/mm/vmm.rs:114-128 | a new table hung from an entry that is writable, user and executable changes what no path allows |
| TableWalks.OnePageTranslates | src/mm/vmm.rs:111-140 | a map or unmap of one page changes `translate` only for addresses with the same bits 12 to 47, kernel addresses of a user space included |
| TableWalks.OnePageAccess | src/mm/vmm.rs:111-140 | after a map the processor grants at that page the rights asked for, as far as the links that were there allow, and everywhere else what it granted; after an unmap nothing there |
| TableNodes.RangeGained | src/mm/vmm.rs:41-48 | mapping the pages of a range in turn adds exactly the tables that their walks lacked at the start, each once |
| TableNodes.RangeLeft | src/mm/vmm.rs:41-48 | after tables were added, a range lacks exactly those it lacked before that were not among them |
| AddressSpaces.Vmm.AllocZeroed | src/mm/pmm.rs:233-238 | a free frame becomes a zeroed table or page, and nothing else changes |
| AddressSpaces.Vmm.GetOrAllocTable | src/mm/vmm.rs:41-48 | an absent entry gets a fresh empty table behind an entry that is present, writable, user and executable; fails exactly when no frame is free; a present entry is followed unchanged |
| AddressSpaces.Vmm.Map | src/mm/vmm.rs:111-140 | succeeds if and only if there are as many free frames as missing tables; then the view changes in that page alone, to a leaf with the rights asked for, and the tables added are those of its path; on failure no translation changes; what the links of every path allow and the root's slots outside the tree are kept |
| AddressSpaces.Vmm.Unmap | src/mm/vmm.rs:192-205 | exactly that page leaves the view; no table, no link and no slot outside the tree changes |
| AddressSpaces.Vmm.MapLarge | src/mm/vmm.rs:142-166 | succeeds if and only if the tables down to the page directory can be allocated; then the 512 pages of the slot map to consecutive frames, whatever the slot held; otherwise no translation changes; no path allows less than before |
| AddressSpaces.Vmm.MapRange | src/mm/vmm.rs:168-190 | succeeds if and only if there are as many free frames as the range lacks tables, each counted once; with its 2 MiB fast path it leaves the view that mapping page by page would leave, up to where frames ran out; no path allows less than before |
| MapRanges.RangeIsMapEach | src/mm/vmm.rs:168-190 | the range mapped in large and small steps equals the page-by-page definition |
| MapRanges.StepNeeds | src/mm/vmm.rs:168-190 | at every step the path lacks exactly the tables of the range that no earlier step could have added |
| MapRanges.RangeTranslates | src/mm/vmm.rs:168-190 | after mapping a range, the address i bytes into it translates to i bytes into the physical range |
| MapRanges.RangeAccess | src/mm/vmm.rs:168-190 | and in a space without restricting links the processor grants it exactly the rights asked for |
| MapRanges.RangeOthers | src/mm/vmm.rs:168-190 | and every address outside the range translates as before |
| Fork.FreeTables | src/mm/vmm.rs:245-277 | every table frame of the tree is given back exactly once and nothing else |
| Fork.ClonePt | src/proc/fork.rs:94-119 | the copy of a page table maps the same frames with the same bits, user entries write-protected |
| Fork.CloneTable | src/proc/fork.rs:50-119 | a fresh tree of as many frames as the original, with the same meaning write-protected and links that allow the same; fails exactly when the original has more tables than frames are free, and then changes nothing that existed |
| Fork.Protect | src/proc/fork.rs:121-169 | the tree keeps its tables, translations and links and loses write permission on user leaves only |
| UserSpaces.NewUser | src/mm/vmm.rs:81-93 | an empty user half without restricting links and the kernel's upper half, from one fresh frame |
| UserSpaces.CloneAddressSpace | src/proc/fork.rs:13-48 | child and parent views are the parent's view write-protected, the child's tables are all fresh, links allow what they did, the kernel half is kept; a failed clone leaves the parent's tables unchanged |
| UserSpaces.ForkTranslates | src/proc/fork.rs:13-48 | after a fork both spaces map the pages the parent mapped, to the same frames with the same user, no-execute and further bits, writable exactly if writable and not user; so they translate every user address as before |
| UserSpaces.ForkAccess | src/proc/fork.rs:13-48 | the processor then grants both the same rights: those of before, without write access where user code had access |
| UserSpaces.MapFresh | src/proc/elf.rs:222-227 | a zeroed page is mapped if and only if frames suffice for it and the missing tables; the kernel half is kept |
| UserSpaces.HandleDemandPage | src/mm/vmm.rs:330-346 | the faulting page gets a fresh zeroed page with the area's rights; exact success condition; the kernel half is kept |
| UserSpaces.HandleCow | src/mm/vmm.rs:348-369 | succeeds if and only if the page is mapped and a frame is free; the page then maps a private writable copy of its bytes, and the kernel half is kept; its ignored `map` always succeeds |
| UserSpaces.CowRights | src/mm/vmm.rs:348-369 | the copy has the rights of the page, writable again, if and only if the page was a user page that is executable and has no further bits |
| UserSpaces.UnmapPage | src/mm/vmm.rs:192-205 | in a user space: exactly that page leaves the view, the kernel half and other frames are untouched |
| UserSpaces.DropSpace | src/mm/vmm.rs:239-277 | the user-half tables and the PML4 return to the allocator once each, and no leaf frame or kernel table |
| Isolation.CowIsolated | src/proc/fork.rs:94-169 | write-protecting parent and child keeps writable frames unshared |
| Isolation.StepKeeps | src/mm/vmm.rs:330-369 | creating, forking, demand paging, copy-on-write, unmapping, dropping and stores, the kernel's included, keep the invariant: spaces are trees of tables of their own without restricting links, writable frames unshared, and every space has the kernel's upper half |
| Isolation.RunIsolated | src/mm/vmm.rs:330-369 | in every run a frame mapped by a writable user leaf is mapped by no other leaf in any space |
| Isolation.RunAccess | src/mm/vmm.rs:111-140 | in every run the processor maps every user address of every space as its leaf says, with exactly the leaf's rights |
| Isolation.WritablePrivate | src/mm/vmm.rs:348-369 | in every run a frame that user code of a space may write through a page is reached by the processor's walk from no other page and no other space |
| Isolation.StoreIsPrivate | src/mm/vmm.rs:348-369 | in every run a user store changes one byte of one space and nothing any space reads elsewhere |
| Isolation.KernelStorePrivateIff | src/syscall.rs:227-237 | a byte stored by the kernel through `translate` changes nothing else that any space reads if and only if it changes nothing at all or no other leaf maps the frame |
| Isolation.KernelStoreAfterFork | src/proc/fork.rs:13-48 | after a fork, a byte that the kernel stores into the parent is read by the child |
| Isolation.KernelEverywhere | src/mm/vmm.rs:81-93 | in every run the processor walks every kernel address from every user space to where the kernel's own tables led at the start, with the same rights, large pages included; `translate` too, where no large entry lies above the page directory |
| UserMemory.TranslateByte | src/mm/vmm.rs:207-226 | the byte read through `translate` is the byte of the page's leaf |
| UserMemory.FreshAdded | src/proc/elf.rs:222-227 | mapping a fresh page adds a private page of zeros and leaves every other page mapped and filled as before |
| UserMemory.WriteAt | src/proc/stack.rs:109-124 | stores the bytes up to the first address that is not mapped, in order, also where pages share a frame; succeeds if and only if there is no such address |
| UserMemory.PokedPrivate | src/proc/stack.rs:109-124 | on private pages the data then stands at the address and every other mapped byte is as before |
| Exec.WordRoundTrip | src/proc/stack.rs:156-161 | little-endian words read back as written |
| Exec.ReadUserString | src/proc/exec.rs:207-232 | returns the bytes up to and with the first zero, or none on a null pointer, an unmapped address or too long a string |
| Exec.ReadUserStringArray | src/proc/exec.rs:234-264 | returns the strings up to the null pointer, or none; the empty array for a null argument |
| Exec.StringBack | src/proc/exec.rs:207-232 | any string laid out with a terminator reads back up to its first zero byte if and only if that fits |
| Exec.StringsBack | src/proc/exec.rs:234-264 | an array laid out in memory reads back exactly, if and only if it is short enough and its strings are |
| Exec.CStringTwice | src/proc/exec.rs:207-232 | strings pass unchanged through repeated reads and rebuilds |
| Exec.CStringWhole | src/proc/exec.rs:207-232 | a string is read whole, its terminator added, if and only if it has no zero byte |
| ElfFiles.FileReadBack | src/proc/elf.rs:103-182 | for all program headers, a file written to the format passes the header checks and reads back as the headers written |
| ElfFiles.ByteChecked | src/proc/elf.rs:103-132 | a good header with any one of its first twenty bytes changed is refused with the error for that byte, or accepted where the loader does not look |
| ElfFiles.LengthChecked | src/proc/elf.rs:103-143 | a good file cut short is refused if it is shorter than the header or than its program headers, and accepted otherwise |
| ElfLoader.ScanHeaders | src/proc/elf.rs:148-182 | least address, greatest end, last PT_PHDR and last PT_INTERP of the headers; fails exactly on an interpreter path outside the file |
| ElfLoader.SegmentPages | src/proc/elf.rs:195-199 | the page range covers the segment and ends less than a page past it |
| ElfLoader.MapSegment | src/proc/elf.rs:220-230 | every page of the range becomes a private zero page with the segment's rights, if and only if there are as many free frames as pages and missing tables, each table once; on every exit the kernel half and all frames of others are untouched |
| ElfLoader.LoadSegment | src/proc/elf.rs:186-273 | file bytes, then zeros in the segment's pages, everything else as before; succeeds if and only if the file range lies in the file, its bytes go to mapped pages and the frames suffice; three errors with their causes; the kernel half and all frames of others are untouched |
| ElfLoader.LoadSegments | src/proc/elf.rs:186-273 | memory after all headers is what loading them in turn gives, byte for byte, with the rights of the last mapper; exact success condition on the frames before the call; the same three errors; the kernel half and all frames of others are untouched |
| ElfLoader.SizesMapped | src/proc/elf.rs:240-268 | with no file size above the memory size every file byte goes to a mapped page |
| ElfLoader.BreakFrom | src/proc/elf.rs:275-276 | the break is the first page boundary at or after every segment end |
| ElfLoader.LoadElf | src/proc/elf.rs:103-306 | header errors in the code's order leave memory alone; after a good header success is exactly that file ranges lie in the file, file bytes go to mapped pages and there are as many free frames as pages and missing tables; then image, break, entry, load base, header address and interpreter are right; on every exit the kernel half and all frames of others are untouched |
| ElfLoader.LastTouchDecides | src/proc/elf.rs:186-273 | for every file, the last segment touching a byte decides it |
| ElfLoader.ImageFaithful | src/proc/elf.rs:186-273 | for page-disjoint segments every byte is the file's below filesz and zero up to memsz |
| ElfLoader.SegmentInMemory | src/proc/elf.rs:186-273 | after a successful load every segment address is mapped with its header's rights and reads the promised byte |
| ElfLoader.SegmentByteExact | src/proc/elf.rs:220-268 | for all headers, a byte of a segment is loaded as promised if and only if the last header that touches it promises the same byte |
| ElfLoader.LastToucherMaps | src/proc/elf.rs:220-268 | with no file size above the memory size, that header is the last one to map the page |
| ElfLoader.SharedPageLoses | src/proc/elf.rs:220-230 | a file that passes every check, with two one-byte segments on one page, whose first byte, 7, is loaded as 0 |
| ElfLoader.HeadersInMemory | src/proc/elf.rs:278-285 | the header address taken from the segment at file offset 0 holds the program header table |
| UserStack.MapUserStack | src/proc/stack.rs:219-236 | commits sixteen private zero pages, writable and not executable, if and only if frames suffice; other pages keep their frames and bytes, and the kernel half and all frames of others are untouched |
| UserStack.PushStrings | src/proc/stack.rs:138-152 | succeeds if and only if every string lies on mapped pages; within the committed stack each pointer leads to its terminated string, and every byte outside them is kept; no table changes |
| UserStack.PushWords | src/proc/stack.rs:156-161 | succeeds if and only if the words lie on mapped pages; within the committed stack they stand in order at the new stack pointer, and every byte outside them is kept; no table changes |
| UserStack.BuildUserStack | src/proc/stack.rs:95-217 | succeeds if and only if frames suffice and every byte written is mapped; if everything fits in 64 KiB, argument count, both arrays with their strings and the auxiliary vector are at the computed stack pointer, with zeros below, and every byte mapped outside the stack is as before; the kernel half and all frames of others are untouched |
| UserStack.StackFits | src/proc/stack.rs:95-217 | what fits in 64 KiB is on mapped pages, and with nothing mapped below only that is |
| UserStack.StackReadBack | src/proc/exec.rs:234-264 | the array reader returns argv at rsp + 8 and envp behind it, for all byte strings, if and only if they are within its limits |
| UserStack.ArgumentsBack | src/proc/exec.rs:234-264 | what is read back is exactly the arguments given, terminators added, if and only if none has a zero byte and they are within the limits; the same for the environment |
| AuxVectors.AuxBack | src/proc/stack.rs:163-200 | a program that walks past its arguments and environment to the auxiliary vector finds for every type what the ABI gives it: entry, header address, size and count, page size, load base, random bytes and name, zero for user and group, and nothing for any other type |
| UserStack.RspAligned | src/proc/stack.rs:153-212 | the stack pointer is a multiple of 16 if and only if argc + envc is odd |
| Processes.StartProcess | src/proc.rs:122-146 | a new space with its image and stack, if and only if the file is good, every byte written has a page and there are as many free frames as PML4, pages and distinct tables; nothing that existed changes, and the kernel half is the kernel's; a failure returns every table and loses only pages |
| Processes.ProcessImage | src/proc.rs:122-146 | in the process so started, for page-disjoint segments off the stack, every address of every segment is mapped with its rights and reads the byte the file promises, the stack in place |
| Processes.ProcessAccess | src/proc.rs:122-146 | for such an address the processor reads the promised byte, and lets the program write exactly if header flag 2 is set and execute exactly if flag 1 is |
| Processes.StackAccess | src/proc/stack.rs:223 | the processor lets the program write its stack and not execute it |
| Processes.HeadersRead | src/proc/stack.rs:190-191 | the address that the program is told for its headers reads the program header table, whenever it is the table's place in a segment that holds it |
| Processes.HeadersFound | src/proc/elf.rs:278-285 | without a PT_PHDR header it is, in the first segment at file offset 0 |
| Processes.HeadersNamed | src/proc/elf.rs:148-182 | with one it is where the last one says, moved like the program; the interpreter is the path that the last PT_INTERP header names |
| Processes.SlideIs | src/proc.rs:126-130 | a position-independent program is moved to 0x555555550000, any other stays where it is linked |
| Slabs.FreshList | src/mm/heap.rs:39-46 | the objects of a fresh slab are distinct, aligned, past the header and inside the page |
| Slabs.FreshListFull | src/mm/heap.rs:29-30 | and they are all such places: no smaller header and no further object would fit |
| Slabs.SlabsTake | src/mm/heap.rs:51-59 | an object popped was not in use, and every slab's list and count stay right |
| Slabs.SlabsGive | src/mm/heap.rs:61-66 | an object pushed is free again, and every slab's list and count stay right |
| Heap.KernelHeap.UnlinkSlab | src/mm/heap.rs:134-154 | walking the links takes exactly the target off its list |
| Heap.KernelHeap.MakeSlab | src/mm/heap.rs:24-49 | a fresh page becomes a slab with all objects free, or no frame is free |
| Heap.KernelHeap.CacheAlloc | src/mm/heap.rs:94-113 | a new object of the cache's size, with at most one retry; fails exactly when the cache has no free object and no frame is free; frames only move between free and slabs, and frames of others keep their tags |
| Heap.KernelHeap.CacheDealloc | src/mm/heap.rs:115-132 | exactly that object is freed; an emptied slab's page goes back; free frames and slab pages together are the same set, and frames of others keep their tags |
| Heap.KernelHeap.FindCache | src/mm/heap.rs:180-188 | the smallest cache that fits, none exactly beyond 2048 |
| Heap.KernelHeap.Alloc | src/mm/heap.rs:196-222 | an unused region that fits the layout, aligned to it up to the object or block size; null exactly when memory is exhausted; a large block takes exactly its frames out of the free ones, small objects only move frames between free and slabs, and every frame of others keeps its tag |
| Heap.KernelHeap.Dealloc | src/mm/heap.rs:224-244 | exactly the given region is released; a large block puts exactly its frames back among the free ones, and every other live frame keeps its tag |
| Heap.KernelHeap.Disjoint | src/mm/heap.rs:24-155 | regions in use never overlap |
| Heap.KernelHeap.PastHeaders | src/mm/heap.rs:24-49 | no region in use overlaps a slab header |
| Heap.KernelHeap.FreeObjectApart | src/mm/heap.rs:39-66 | no region in use overlaps a free object |
| Heap.KernelHeap.OwnerWritesKeepSlabs | src/mm/heap.rs:39-66 | any write of owners into their objects and blocks leaves every slab's free list intact |
| Heap.KernelHeap.AllFreed | src/mm/heap.rs:115-132 | with every object freed, the caches hold exactly the peak number of 2048-byte objects in pages, and no other page |
| Scheduler.Best | src/proc.rs:213-222 | a runnable entry of least priority, first among equals, or none exactly when none is runnable |
| Scheduler.RunQueue.TakeNext | src/proc.rs:213-222 | takes out exactly that entry |
| Scheduler.RunQueue.Reschedule | src/proc.rs:253-273 | the current process goes to the back of the queue, with a full slice if it was running, or is dropped if it has ended; then the best runnable entry, if any, becomes current and running |
| Scheduler.ScheduleEffect | src/proc.rs:253-273 | `schedule` puts the current process at the end of the line unless it has ended, with a full slice if it was running; it takes out the first of the best runnable ones and leaves the rest in order; nobody runs exactly if nobody can; nothing else about any process changes |
| Scheduler.RunQueue.TimerTick | src/proc.rs:235-251 | the current slice loses one unit, not below zero, and a process whose slice is used up is rescheduled |
| Scheduler.RunQueue.SleepCurrent | src/proc.rs:308-313 | the current process is queued asleep and not current, with nothing else about it changed, and another is picked |
| Scheduler.RunQueue.ExitCurrent | src/syscall.rs:71-77 | the current process is dead and in the scheduler no more, and another is picked |
| Scheduler.RunQueue.WakeUp | src/proc.rs:315-324 | wakes that queued process if it sleeps |
| Scheduler.RunQueue.WakeUpAllSleeping | src/proc.rs:327-342 | wakes every sleeping process, queued or current |
| Scheduler.StepKeeps | src/proc.rs:213-342 | every operation keeps: no process twice, none queued as running, slices within base; only an ended current process is dropped |
| Scheduler.RunKeeps | src/proc.rs:213-342 | in every state of every run no process is queued twice, none queued is running, and no slice exceeds its base |
| Scheduler.BoundedWaiting | src/proc.rs:213-342 | a runnable process with k entries ahead becomes current within k + 1 schedules, in every run without a strictly better one |
| Scheduler.TurnLength | src/proc.rs:235-251 | a process that is current with n units left and does not give way itself stays current for n - 1 ticks and gives way at the n-th |
| Scheduler.TurnBound | src/proc.rs:235-251 | while it stays current its ticks number less than its slice, which is at most its base |
| Scheduler.NextTurnFull | src/proc.rs:235-273 | a running process that had to give way starts its next turn, whenever that is, with a full slice |
| SpinLocks.DropQuietIff | src/sync/spinlock.rs:65-72 | dropping a guard keeps interrupts off under the rest if and only if it is not the oldest of several that saved them on |
| SpinLocks.NestedQuiet | src/sync/spinlock.rs:21-72 | in every nested run interrupts are off while a lock is held and restored when none is |
| SpinLocks.OutOfOrder | src/sync/spinlock.rs:65-72 | two guards dropped in the order taken leave interrupts on under the second lock |
| Keyboard.KbBuffer.Push | src/drivers/keyboard.rs:101-107 | appends the byte, or drops it when 255 are held |
| Keyboard.KbBuffer.Pop | src/drivers/keyboard.rs:109-116 | takes the oldest byte, or none exactly when empty |
| Keyboard.StepSound | src/drivers/keyboard.rs:238-258 | every event of processes and interrupts keeps the machine sound |
| Keyboard.BootSound | src/drivers/keyboard.rs:92-99 | any scheduler state with nobody in `wait_key` and the idle process ready is a sound start |
| Keyboard.NoLostWakeup | src/drivers/keyboard.rs:243-258 | in every interleaving no process is asleep in `wait_key` while the buffer holds a byte |
| Keyboard.KeysInOrder | src/drivers/keyboard.rs:101-116 | in every interleaving the bytes that found room are returned once each and in order, or still wait in the buffer |
| Keyboard.WaiterSleeps | src/drivers/keyboard.rs:243-258 | a process that finds the buffer empty is put to sleep and another runs, with interrupts on |
| Keyboard.KeyWakes | src/drivers/keyboard.rs:201-203 | a key wakes every process that sleeps in `wait_key` |
| Keyboard.CheckReturns | src/drivers/keyboard.rs:249-255 | a process that finds a byte returns the oldest one, with the interrupt flag it found |
| Fat32.ClusterChain | src/fs/fat32.rs:65-80 | the loop returns the clusters that links lead to from the start, at most one more than the limit, and fails if and only if a table sector on the way cannot be read |
| Fat32.ChainFollows | src/fs/fat32.rs:47-80 | the chain follows the table from the start to an end marker or is cut at the limit, cyclic tables included |
| Fat32.ContentsAt | src/fs/fat32.rs:31-45 | cluster i of the chain is the i-th slice of the contents |
| Fat32.ReadChain | src/fs/fat32.rs:323-344 | the loop copies the slice, reading exactly the clusters it needs |
| Fat32.Read | src/fs/fat32.rs:311-345 | the slice of the chained clusters within size and buffer, the rest of the buffer untouched; succeeds if and only if the chain and the needed clusters can be read |
| Fat32.ReadFile | src/fs/mount.rs:217-231 | the whole prefix that size and chain allow, under the exact read condition |
| FatVolumes.ContentsByte | src/fs/fat32.rs:31-45 | byte k of cluster i of the contents is a byte of the drive: cluster 2 starts the data region and each next cluster starts where the one before ends |
| FatVolumes.EntryBytes | src/fs/fat32.rs:47-63 | the entry of a cluster is the number in its four bytes of the table, lowest first, without the upper four bits |
| FatVolumes.FileRoundTrip | src/fs/fat32.rs:47-345 | a file written over any distinct clusters of a volume, in any order, with any end mark and any reserved bits, reads back as written |

## Left out

- AddressSpaces.Vmm.Map: requires that no 2 MiB entry covers the page; the code would follow the large page as if it were a table.
- AddressSpaces.Vmm.Unmap: requires that no 2 MiB entry covers the page, for the same reason.
- AddressSpaces.Vmm.MapRange: requires that a 2 MiB entry in the range is one that the range itself overwrites, for the same reason.
- UserSpaces.CloneAddressSpace: requires a user half without 2 MiB pages. `clone_pd` tests the large bit of the entry that leads to the page directory (src/proc/fork.rs:71), not of the entries in it, so a 2 MiB page would be read as a page table and the child given a large entry on a fresh 4 KiB frame (src/proc/fork.rs:87).
- Isolation.KernelEverywhere: assumes that the kernel maps nothing for itself during the run; `translate` is covered where no large entry lies above the page directory, since below one it reads the bytes of the page.
- Isolation.KernelStorePrivateIff: one byte at a time, within a page; `sys_uname` and `sys_clock_gettime` translate the start of a buffer and write on past the end of its page.
- ElfLoader.LoadElf: requires that the program header table read lies in the file, that sums of header fields do not wrap and that segments lie in the user half; the code checks none of these.
- UserStack.BuildUserStack: requires that the sizes do not wrap, and promises the stack image only if it fits in the committed pages.
- Processes.StartProcess: the address-space part of `new_user`; the kernel stack, the process record and the first context are not modelled, and it requires what `LoadElf` and `BuildUserStack` require. If the stack image does not fit in 64 KiB, only the condition for success and the limits of what is touched are promised.
- Heap.KernelHeap.Alloc: of heap memory only headers and links of free objects are modelled, so neither its zeroing nor `realloc` (allocate, copy, free) appears; a layout aligned beyond its block gets only the block's alignment.
- Keyboard.NoLostWakeup: assumes one CPU and an idle process that is always runnable.
- Fat32.Read: a failed read reports an error and says nothing about the part of the buffer already written.
- Virtual memory areas, `handle_page_fault`'s choice between its cases, `clone_vmspace` and the break call: lookups in a list of ranges.
- Page faults that should copy on write: areas keep their write flag across a fork, so the code does not reach `handle_cow` from there; it is modelled as a step that may happen.
- `AddressSpace::kernel` and its drop: several values share one table.
- TLB flushes, CR3 loads, assembly, register contexts, descriptor tables and interrupt controllers.
- `exec` as a whole, the initial RAM disk lookup, the unused stack builder type and the system call table.
- `waitpid` and zombies: no code sets the zombie state.
- Directory parsing, BPB and MBR decoding in the FAT32 driver; the IDE driver; other file systems, the mount table and the shell.
- `RwSpinLock` and `try_lock`.
- The processor's spinning on a lock held by the same CPU: taking a held lock is not a step of the model.

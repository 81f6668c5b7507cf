# PyroOS in Dafny

A model of the hard core of the PyroOS kernel and its user heap, with proofs. Where the kernel
updates state in place, the model is a class whose methods have the kernel's branches, loops and
constants; what the kernel promises is proved about the values those methods compute.

Five parts:

- **Address spaces and processes** (`Words`, `Pmm`, `Ownership`, `Vmm`, `Demand`, `World`, `Procs`, `Laws`).
  RAM is pages of 32-bit words; page directories and tables are ordinary pages of it. A ghost map
  lists every reference to a frame, and its well-formedness (`Ownership.Wf`) is kept by every call.
  `World` is the same system with no frames, tables or sharing: every process has a memory of its
  own, fork copies it, and promised pages appear on first touch. Every run of the kernel is proved to be
  a run of `World`, with `vmm_clone_cow` and with `vmm_clone_dir` alike, so copy-on-write is
  indistinguishable from copying. What the machine decides at a call is a value beside it (`World.Luck`),
  and `World.Feasible` says what it can decide: how many frames were free before each call, when a call
  can be refused, and which promises a new process can find. `Laws` says what several calls of `World` do
  together, as a program would rely on them.
- **PyroFS** (`Bytes`, `Fs`, `PyroFs`). A drive that commits one sector at a time and may fail, the
  metadata in memory, and the exact list of sector writes of an `fs_write`. Cutting that list anywhere
  is a crash; a finite map from names to bytes is the specification.
- **Threads and the mutex** (`Mutex`, `Tasks`). One step system for every preemptive interleaving, and
  one for the turns that the round robin of `task_yield` actually gives.
- **The user heap** (`Heap`). `umalloc` and `ufree` over headers linked in memory, on `SYS_SBRK`.
- **Loading a program** (`Elf`, `Args`). Validation, loading, page permissions, and argc/argv.

Properties that turned out not to hold as one would state them. Each has the exact condition proved for
all inputs, and an input where it fails:

- `vmm_map_alloc` loses a frame for good when exactly one frame is free and the page has no table yet
  (`Vmm.AddressSpaces.MapAlloc`; `Vmm.FrameLost` is such a call).
- Teardown does not always free every frame. From boot over any run of calls it does if and only if no access
  or mapping was refused a frame while one was still free, and no page was backed in the kernel's own memory, whose
  table `vmm_unmap` keeps (`Procs.Lifetime` with `World.Spoils`). Before each call it is known whether it
  will be refused: an access or a mapping when fewer frames are free than it needs
  (`Procs.ProcTable.Touch`, `Procs.ProcTable.Map`). `Vmm.FrameLost` and `Vmm.TableStays` are calls of the
  two kinds.
- A demand region outlives its directory, so a new process can find pages promised to it. It finds exactly
  the promises made for the frame its directory got, the lowest free one (`Procs.Found` in
  `Procs.ProcTable.Fork` and `Procs.ProcTable.Spawn`), and none as long as no process has gone with a
  promise outstanding since the last `demand_clear`. `Procs.WarmedFinds` is a run in which one does.
- `demand_region` promises the pages a range overlaps if and only if the range does not end in the last page
  of memory, and is not empty inside one page (`Demand.PromiseIsOverlap`; `Demand.OddRanges` is a range of
  each kind). `Demand.Reaches` says which pages it promises in every case.
- Everybody has a live parent after `proc_free` if and only if the process had no children
  (`Procs.ParentedVacate`; `Procs.ChildLeftBehind` is a run to a process that has one).
- A file written under a name of 20 characters or more cannot be read back, and each such write takes
  another directory entry (`PyroFs.ReadableIffShort`; `PyroFs.LongNameIsLost` is such a name).
- Overwriting a file in place is atomic if and only if the sectors written hold what was there before, or the
  old and new contents have one length and differ within one sector (`Fs.OverwriteIsAtomicIff`;
  `Fs.OverwriteCanTear` is a pair that tears). Creating a file is always atomic (`Fs.CrashSafe`).
- `umalloc` wraps in 32 bits for requests from 0xFFFFFFE9 on; `Heap.Manageable` says exactly when the
  answer is still right (`Heap.UserHeap.Malloc`; `Heap.WrappedRequest` is a request it gets wrong).
- `paging_set_user_writable` goes over the pages a range overlaps if and only if the range rounds to pages
  without losing any to the 32-bit wrap (`Elf.MarkedIsOverlap` with `Elf.Rounds`; `Elf.WrappedRange` is one
  that loses all).

The condition of `Procs.Lockstep` cannot be dropped either: `Procs.WarmedFinds` and `Procs.FreshFindsNone` make
the same calls from the same world, are refused nothing, and part once a process has gone with a promise
outstanding.

The header comment of kernel/fs.c speaks of 8-sector slots; the code uses 32, and so does the model.

## Model

| member | source | states |
|---|---|---|
| Words.EncodeThenDecode | kernel/vmm.h:13-16 | the fields of a page-table word are one 32-bit value and the masks read them back |
| Words.DecodeThenEncode | kernel/vmm.h:13-16 | every 32-bit value is the encoding of its fields, so nothing of a page-table word is lost in the model |
| Words.MasksRead | kernel/vmm.h:13-16 | PF_PRESENT, PF_RW, PF_USER, PF_COW and the frame address are at the bits 0x1, 0x2, 0x4, 0x200 and from 0x1000 of that value |
| Pmm.FrameAllocator.constructor | kernel/pmm.c:39-52 | an allocator over the frames above 4 MB, at most 32768, all free |
| Pmm.FrameAllocator.Alloc | kernel/pmm.c:54-73 | the hinted two-pass scan returns the lowest free frame, and 0 exactly when every frame is in use |
| Pmm.FrameAllocator.Free | kernel/pmm.c:75-95 | one owner fewer; the last one frees the frame; anything else is ignored; the allocator invariant is kept |
| Pmm.FrameAllocator.Incref | kernel/pmm.c:99-106 | one owner more up to 255, invariant kept |
| Pmm.TakeKeepsOk | kernel/pmm.c:62-69 | taking the lowest free frame keeps used_frames equal to the number of set bits and every frame below the hint in use |
| Pmm.ReleaseKeepsOk | kernel/pmm.c:75-95 | releasing keeps the same invariant, with the hint pulled back |
| Ownership.OwnersBound | kernel/pmm.c:99-106 | a frame has at most one owner per address space, since a space maps a frame at most once |
| Ownership.CountsDetermined | kernel/pmm.c:54-106 | the owners determine the counts, the bits and used_frames: equal owners, equal allocator state |
| Ownership.StoreWord | kernel/vmm.c:302-336 | a store through a writable page changes that page of that address space and no page any other one sees |
| Ownership.ShareLeaf | kernel/vmm.c:263-277 | sharing a page read-only on both sides with one reference more keeps counts exact and all views unchanged |
| Ownership.UnlinkLeaf | kernel/vmm.c:111-122 | dropping an entry and its reference keeps counts exact and every other view unchanged |
| Vmm.AddressSpaces.constructor | kernel/vmm.c:30-33 | the boot directory over an unused pool is a well-formed start with no references |
| Vmm.AddressSpaces.CreateDir | kernel/vmm.c:50-64 | a new empty address space with the kernel's two entries, or 0 and no change when no frame is free; that every address space has them is kept by this and every other call |
| Vmm.AddressSpaces.TableFor | kernel/vmm.c:66-79 | the table of an entry, made if asked; it fails exactly when it must be made and no frame is free; no view changes |
| Vmm.AddressSpaces.Map | kernel/vmm.c:81-89 | the caller's frame becomes visible at that page only, with the given flags; exact failure condition |
| Vmm.AddressSpaces.MapAlloc | kernel/vmm.c:91-98 | a zeroed page in the lowest free frame, if and only if one frame is free, or two when a table is missing, and used_frames grows by that many; refused with a frame free, that frame is lost; refused with none free, no reference changes |
| Vmm.FrameLost | kernel/vmm.c:91-98 | with a pool of one frame, backing the first page above 8 MB fails and the frame stays taken with nothing left that could free it |
| Vmm.TableStays | kernel/vmm.c:111-122 | a page of the kernel mapped and unmapped leaves its table taken |
| Vmm.AddressSpaces.Translate | kernel/vmm.c:100-109 | nonzero exactly for mapped pages, and then the frame whose contents the page shows |
| Vmm.AddressSpaces.Unmap | kernel/vmm.c:111-122 | the page is gone from that address space, every other view and count stays exact |
| Vmm.AddressSpaces.DestroyDir | kernel/vmm.c:124-141 | exactly the references of that address space go, counts stay exact, other address spaces see no change |
| Vmm.AddressSpaces.Clone | kernel/vmm.c:161-200 | both clones: refused exactly when fewer frames are free than a directory, a table for each table and, for the eager one, a page for each page; granted, that many are taken, the new address space shows what the old one did, maps the kernel as the boot directory does, and nobody's view changes; refused, CloneRefused |
| Vmm.AddressSpaces.SharePageAt | kernel/vmm.c:263-277 | the page loop of the copy-on-write clone advances the clone by one shared page |
| Vmm.AddressSpaces.CopyPageAt | kernel/vmm.c:184-197 | the page loop of the eager clone advances the clone by one copied page |
| Vmm.CloneIsRefused | kernel/vmm.c:253-256 | a clone that runs out part-way leaves the same references, counts, bits, used_frames and views |
| Vmm.RefusedCloneCostsNoCopy | kernel/vmm.c:253-256 | after a refused copy-on-write clone a page that was writable has one owner and is writable or marked copy-on-write |
| Vmm.AddressSpaces.CowHandle | kernel/vmm.c:302-336 | a write fault is handled if and only if the page is copy-on-write and its entry is the last owner or a frame is free; a last owner keeps its frame and the allocator is untouched, any other takes one frame for a copy of its own; no view changes, and not handled changes nothing |
| Vmm.AddressSpaces.Duplicate | kernel/vmm.c:325-333 | a shared page moves to a fresh copy with one owner, the old frame loses one, no view changes; it fails exactly when no frame is free, and then nothing changes |
| Vmm.LastOwner | kernel/vmm.c:322-324 | the count is at most one exactly when the entry is the frame's only owner |
| Vmm.CowPays | kernel/vmm.c:325-333 | each copy of a frame takes one owner from it |
| Vmm.CopiesAreBounded | kernel/vmm.c:302-336 | over any stretch without a fork, a frame with k owners is copied at most k - 1 times |
| Vmm.AddressSpaces.DirFrames | kernel/vmm.c:205-220 | one for each reference the address space holds: what destroying it takes away, and what cloning it eagerly takes |
| Demand.Pager.AddRegion | kernel/demand.c:28-40 | exactly the pages that Reaches names are promised, after every earlier promise; with 16 regions active nothing changes |
| Demand.RoundedReaches | kernel/demand.c:33-34 | masking both bounds to 4096 in 32 bits takes in the pages the range overlaps, none for a range ending in the last page, and one for an empty range inside a page |
| Demand.PromiseIsOverlap | kernel/demand.c:33-34 | the pages promised are those that share a byte with the range, if and only if the range rounds |
| Demand.OddRanges | kernel/demand.c:33-34 | a range up to the last page promises nothing, and an empty range inside a page promises that page |
| Demand.Pager.Clear | kernel/demand.c:42-47 | no promise is left and the counter is zero |
| Demand.Pager.DemandHandle | kernel/demand.c:51-76 | a missing promised page becomes zeros with the flags of the first matching region and costs one count and one or two frames, refused exactly when they are not free; otherwise the view is unchanged |
| Demand.Pager.PageFault | kernel/isr.c:138-147 | demand paging is tried before copy-on-write; for a present page handled exactly when copy-on-write can handle it; handled or not, no other page's view changes |
| Demand.Pager.Load | kernel/isr.c:138-147 | a load, retried after handled faults, reads the promised or mapped page; it fails only where there is none or when the frames it needs are not free, and takes exactly those |
| Demand.Pager.StoreMapped | kernel/isr.c:138-147 | a store to a mapped page fails exactly if it is read-only, or shared with no frame free; a last owner's store never needs a frame |
| Demand.Pager.Store | kernel/isr.c:138-147 | a store, retried after handled faults, changes that word of that page alone; each missing page is counted once; it is refused exactly when the frames it needs are not free and takes exactly those; a page with one owner needs none |
| Demand.CloneThenStore | kernel/vmm.c:240-280 | after a refused copy-on-write clone, a store to any page that was writable succeeds and leaves it writable, with the counts, bits, used_frames and copies as before |
| Demand.AddedPromise | kernel/demand.c:30-38 | filling the first inactive slot adds the promise behind all earlier ones |
| Demand.InWholePage | kernel/demand.c:33-34 | rounded bounds promise a page as a whole or not at all |
| Demand.Run | kernel/demand.c:51-76 | while frames last, any run of accesses answers as if every promised page had been zeros from the start, and faults_served grows by the number of promised pages first touched |
| World.Find | kernel/proc.c:41-47 | the first slot that passes a test, as every table scan of the kernel finds it |
| Procs.ProcTable.constructor | kernel/proc.c:21-34 | slot 0 is the kernel, running in the boot directory; every other slot is unused |
| Procs.ProcTable.Alloc | kernel/proc.c:49-63 | the first unused slot becomes a ready child of the current process with the next pid; a full table changes nothing |
| Procs.ProcTable.Get | kernel/proc.c:41-47 | the slot in use with that pid, if any |
| Procs.ProcTable.Fork | kernel/proc.c:130-157 | the child has a copy of the parent's pages, however the clone was made, the parent's pid, entry and break, the kernel mapped, and exactly the promises still standing for its directory's frame, the lowest free one; no other slot changes; refused exactly when the table is full or the clone needs more frames than are free, and then no memory changes and at most next_pid has moved |
| Procs.ProcTable.KernelStaysMapped | kernel/vmm.c:57-62 | in every state each process with an address space, and CR3, has the two kernel entries of the boot directory |
| Procs.ProcTable.Exit | kernel/proc.c:159-192 | a zombie with its code and no private memory, the kernel running in its own directory, the children the kernel's, all else in the table as it was; a promise it had is left behind |
| Procs.ProcTable.HandOver | kernel/proc.c:187-191 | exactly the children of the dead process change parent |
| Procs.ProcTable.Wait | kernel/proc.c:194-209 | the first zombie child is reaped once, with its own exit code; no frame changes hands |
| Procs.ProcTable.SwitchTo | kernel/proc.c:211-225 | 0 exactly for a live process with an address space; then it is current and in CR3, and nothing but who runs has changed; otherwise nothing changes |
| Procs.ProcTable.Release | kernel/proc.c:65-73 | the slot and its private address space go, nothing else |
| Procs.ParentedVacate | kernel/proc.c:65-73 | after the slot is released everybody still has a live parent if and only if the process had no children |
| Procs.ProcTable.BeginUser | kernel/proc.c:238-247 | a process in the kernel's address space, made current |
| Procs.ProcTable.EndUser | kernel/proc.c:249-255 | back to the kernel and its directory; no slot is in use under that pid any more, and every other slot keeps its pid, parent, directory, break and code |
| Procs.ProcTable.Touch | kernel/isr.c:138-147 | a load or store of the current process is a load or store of its own memory in World, where a promised page appears as zeros when first touched; refused exactly when fewer frames are free than it needs; a page with one owner needs none |
| Procs.ProcTable.Map | kernel/vmm.c:91-98 | mapping an unmapped page is giving the current process zeros there in World; refused exactly when no frame is free, or just one and the table is missing |
| Procs.ProcTable.Unmap | kernel/vmm.c:111-122 | unmapping takes the page from the current process's memory in World and from nobody else's |
| Procs.ProcTable.Spawn | kernel/shell.c:252-256 | a process with an empty address space of its own, and exactly the promises still standing for its directory's frame |
| Procs.ProcTable.Promise | kernel/demand.c:28-40 | the current process is promised the pages that Reaches names behind its earlier promises, and nobody else is; with 16 regions taken nothing changes |
| Procs.ProcTable.Clear | kernel/demand.c:42-47 | no process is promised anything, and what gone processes left behind is forgotten |
| Procs.ProcTable.Do | kernel/proc.c:130-225 | each call is a step of World with what the machine can decide there: how many frames it takes or frees, when it is refused, what promises a new process finds; frames become impossible to give back exactly at an access or mapping that backs a kernel page or is refused a frame while one is free |
| Procs.ProcTable.Run | kernel/proc.c:130-225 | every run of calls, demand paging included, is a run of World with the same replies; the frames free before each call, the refusals and the promises found are feasible from the frames free at the start to those free at the end, and pmm_alloc_frame failed once for each refusal; while frames last and no process goes with a promise outstanding it is the run in which the machine decides nothing; the table invariant holds throughout and every process maps the kernel as at the start; without forks every copy is paid for; what teardown cannot undo is exactly what the run's calls spoilt |
| World.RunNext | kernel/proc.c:130-225 | one more call extends the run, its refusals, its frame accounts and what it spoilt, and keeps it calm if the call was granted and nothing was left behind |
| Procs.CloneNeedIs | kernel/vmm.c:161-200 | a fork never takes more than 1023 frames beside one for each page the parent shows |
| Procs.Lockstep | kernel/vmm.c:240-280 | a copy-on-write kernel and an eager one give the same replies and show the same memory over every run in which no allocation fails and no process goes with a promise outstanding |
| Procs.Lifetime | kernel/proc.c:159-209 | from boot over any run of calls, with the replies, refusals and frame accounts of that run: once everyone else is dead the kernel reaps each zombie exactly once with its own code, and then every frame is free if and only if no call of the run spoilt that |
| Procs.StrandThenSpawn | kernel/demand.c:28-47 | from the world at boot the same calls end with a process that finds a promise if the kernel had a page table of its own before, and with one that finds none if not |
| Procs.WarmedFinds | kernel/demand.c:28-47 | from boot, a kernel that has mapped and unmapped a page comes to a process that finds a promise |
| Procs.FreshFindsNone | kernel/demand.c:28-47 | from boot, a kernel given the same calls afterwards comes to one that finds none |
| Procs.ChildLeftBehind | kernel/proc.c:238-255 | from boot, a user process comes to have a child that would be left without a parent if the process were ended |
| Laws.KernelIsNumbered | kernel/proc.c:49-63 | in every state of the kernel pids are distinct and below next_pid, parents too, and only the current process runs |
| Laws.BeginThenEnd | kernel/proc.c:238-255 | proc_begin_user gives a process in the kernel's memory with the break at 0x90000, and proc_end_user after it leaves everything as before but next_pid |
| Laws.ForkThenSwitch | kernel/proc.c:130-157 | the child has a new pid and the parent's pid as parent; switched to, it sees the parent's pages; nothing has changed for anybody else |
| Laws.ForkIsolates | kernel/vmm.c:240-280 | whatever the child does with its memory, the parent switched back to finds its own as it was |
| Laws.ForkIsolatesChild | kernel/vmm.c:240-280 | whatever the parent does with its memory after a fork, the child finds the copy |
| Laws.MemoryIsPrivate | kernel/isr.c:138-147 | loads, stores, mapping, unmapping and promising touch the memory of the current process and nothing else |
| Laws.ExitThenWait | kernel/proc.c:159-209 | the parent that waits is told the pid and the exit code, the slot is free, and the dead process's children are the kernel's |
| Laws.SpawnIsEmpty | kernel/shell.c:252-256 | a spawned process, switched to, faults at every access |
| Laws.StoreThenLoad | kernel/isr.c:138-147 | a stored word is read back and every other word of the page reads as before |
| Laws.MapThenLoad | kernel/vmm.c:91-122 | a mapped page reads as zero words, and unmapping it undoes the call |
| Laws.MapThenStore | kernel/vmm.c:91-98 | a mapped page takes a store exactly if it was mapped writable |
| Laws.NothingThere | kernel/isr.c:138-147 | an access to a page neither mapped nor promised faults and changes nothing |
| Laws.PromiseThenLoad | kernel/demand.c:28-76 | after demand_region the first load from a page of the range reads zero and is counted, and one from any other new page faults |
| Laws.ClearThenTouch | kernel/demand.c:42-47 | after demand_clear an unmapped page faults whatever was promised |
| Procs.CountsNeverSaturate | kernel/pmm.c:99-106 | in every reachable state counts equal owners, stay at most 17 and below the 255 cap, bits and used_frames agree, and a writable page has one owner |
| Procs.ZombiesAreChildless | kernel/proc.c:187-191 | every process in use has a live parent, so a zombie has no children |
| Procs.ProcTable.WaitForAll | kernel/proc.c:194-209 | once all other processes are dead, waiting until -1 reaps each zombie exactly once with its own code |
| Procs.ProcTable.ReapAll | kernel/proc.c:194-209 | then only slot 0 is used, and every frame is free if and only if none was lost and the kernel has no page table of its own |
| Bytes.StrcmpIsEquality | kernel/string.c:46-52 | strcmp gives 0 exactly for equal strings |
| Bytes.LittleEndian | kernel/elf.h:38-53 | the least significant byte of a 32-bit word comes first |
| Fs.CopyName | kernel/string.c:65-71 | a name field ends up holding the name cut to 19 characters and a NUL |
| Fs.MountRoundTrip | kernel/fs.c:48-52 | the superblock and directory sectors carry the metadata exactly, both ways |
| Fs.FormatIs | kernel/fs.c:31-42 | magic and next_free_lba lead sector 99; each 32-byte entry of sector 100 is name, size, start_lba, used |
| Fs.ContentAt | kernel/fs.c:144-156 | byte k of a file is byte k % 512 of sector start_lba + k / 512 |
| Fs.Index | kernel/fs.c:71-77 | the first used entry of a name |
| Fs.SectorsExact | kernel/fs.c:115-117 | a write takes as many sectors as the bytes need, and one for an empty file |
| Fs.WriteKeepsSound | kernel/fs.c:98-112 | opening and sizing an entry keep used slots disjoint and below next_free_lba |
| Fs.WriteKeepsRoom | kernel/fs.c:104-110 | taking an entry and a slot keeps a slot addressable for every entry left |
| Fs.WriteKeepsNames | kernel/fs.c:98-112 | the name, as stored, is found again unless an earlier entry has it; every other name keeps its entry |
| Fs.NeverHides | kernel/fs.c:100-109 | used entries come first, so a write under any name hides no file: a long name whose first 19 characters name a file leaves that file to be found |
| Fs.OthersKept | kernel/fs.c:96-133 | whatever happens in the slot being written, every name it is not stored under reads as before |
| Fs.WriteRefines | kernel/fs.c:96-133 | a completed write maps the stored name to the first 16384 bytes of the data, or all of it, and changes no other name |
| Fs.FullMeansSixteenNames | kernel/fs.c:100-105 | a write is refused exactly when the name is new and 16 names exist |
| Fs.CutMount | kernel/fs.c:48-52 | a remount after a cut sees the old directory until the very last sector write |
| Fs.CrashSafe | kernel/fs.c:96-133 | wherever a write under any name is cut, the remounted volume is sound with at most one slot lost; until the last sector write the same files are there and only one being overwritten may differ, so a new file is absent or complete |
| Fs.CutOverwrite | kernel/fs.c:119-131 | a cut overwrite leaves the metadata alone and the file with its old length, new sectors up to the cut and old ones after it |
| Fs.OverwriteIsAtomicIff | kernel/fs.c:119-131 | every cut leaves the old file or the new one if and only if the sectors written hold what was there before, or the two have one length and differ within one sector |
| Fs.OverwriteCanTear | kernel/fs.c:119-131 | on any formatted disk, 1024 zeros overwritten with 1024 ones and cut after one sector are neither |
| Fs.CrashesLoseNothingWritten | kernel/fs.c:96-133 | through any number of writes under any names, each cut anywhere and remounted, the disk stays sound and shows exactly the completed writes, save files cut while being overwritten and not rewritten since |
| PyroFs.Drive.Write | kernel/ata.c:88-107 | one sector is committed or an error is reported, or both |
| PyroFs.Drive.Read | kernel/ata.c:71-86 | the sector, or an error |
| PyroFs.FileSystem.constructor | kernel/fs.c:64-69 | without drive errors a disk with the magic is mounted unchanged, whatever its metadata, and any other is formatted empty; a superblock that is foreign or cannot be read means a format, which touches the two metadata sectors alone; a directory that cannot be read means an empty one in memory and an untouched disk; a sound disk gives a sound volume |
| PyroFs.FileSystem.LoadMeta | kernel/fs.c:48-52 | each sector that could be read replaces its part of the metadata in memory; the other part stays |
| PyroFs.FileSystem.Format | kernel/fs.c:54-62 | an empty sound volume; each metadata sector is as before or blank, and no other sector is touched |
| PyroFs.FileSystem.Find | kernel/fs.c:71-77 | the strcmp loop finds the first entry of that name |
| PyroFs.FileSystem.WriteData | kernel/fs.c:119-128 | the sector loop leaves the data, padded with zeros, in the slot and touches nothing else, stopping at the first error |
| PyroFs.FileSystem.Write | kernel/fs.c:96-133 | -1 exactly for a full directory or an error on a data sector; the exact metadata and slot contents; no sector outside the slot, superblock and directory changes, with or without errors; without errors, the exact list of sector writes in order |
| PyroFs.WroteMeans | kernel/fs.c:96-133 | for any name, a write that returns 0 is a write to the map under the stored name even if a metadata write failed; one that returns -1 leaves all other files alone |
| PyroFs.FileSystem.Read | kernel/fs.c:135-159 | the first min(size, max) bytes of the file, -1 exactly for a missing name or a drive error |
| PyroFs.WriteThenRead | kernel/fs.c:96-159 | in any run a read returns the start of the data last granted under that name, as many bytes as the data, 16384 and the reader's maximum allow, whatever happens to other files in between |
| PyroFs.WriteReadBack | kernel/fs.c:96-159 | fs_write and then fs_read of a short name on the disk return those bytes; without drive errors it fails only for a new name in a full directory |
| PyroFs.ReadableIffShort | kernel/fs.c:106-109 | a written file is found under its name if and only if the name has under 20 characters |
| PyroFs.LongNameIsLost | kernel/fs.c:106-109 | on a blank volume a file written as twenty letters is found under the first nineteen and not under its name |
| PyroFs.Run | kernel/fs.c:64-159 | over any error-free run of writes, reads and remounts with short names the replies are those of a finite map |
| Mutex.StepKeeps | kernel/task.c:214-224 | each atomic step of each thread keeps the invariant |
| Mutex.LockedCounter | kernel/task.c:214-224 | under every schedule at most one thread is between lock and unlock, the counter is the number of completed updates, and n * K when all have exited |
| Mutex.SomeoneMoves | kernel/sync.c:32-36 | no deadlock: until all have exited some thread's step is not a wait |
| Mutex.MovesAreBounded | kernel/sync.c:32-36 | a schedule makes at most 4nK steps that are not waits, and exactly that many when and only when all have exited |
| Tasks.Scheduler.constructor | kernel/task.c:226-236 | task 0 inactive and n fresh workers |
| Tasks.Scheduler.Yield | kernel/task.c:56-82 | the next active worker round the ring; the same one if it is alone; task 0 if none is left |
| Tasks.ScanIsNext | kernel/task.c:63-81 | the scan picks the active worker at the smallest ring distance |
| Tasks.NearerTo | kernel/task.c:63-71 | every yield brings each other active worker nearer |
| Tasks.UpdatesSpanAYield | kernel/task.c:204-224 | in both workers a written value is one more than the task read before its last yield, and a safe_worker that yields in the middle holds the lock |
| Tasks.SafeStepKeeps | kernel/task.c:214-224 | each turn keeps mutual exclusion and loses no update, and comes nearer the end in updates left, active tasks, the free lock, and ring distance to its holder |
| Tasks.RunLocked | kernel/task.c:226-237 | n safe_workers of K iterations finish in finitely many turns, back in task 0, with the total n * K and the lock free |
| Tasks.RaceStepKeeps | kernel/task.c:204-212 | all racers read the same value in each round, so a round adds one |
| Tasks.RunRacing | kernel/task.c:226-237 | n >= 1 racers of K iterations finish, back in task 0, after exactly K + 1 turns each, with the total exactly K whatever n is |
| Heap.PayloadsApart | user/umalloc.h:31-41 | payloads are 8-aligned, inside the heap and disjoint |
| Heap.AllFreeIsOne | user/umalloc.h:51-62 | a tiled heap with no free neighbours and nothing in use is one block |
| Heap.UserHeap.Sbrk | kernel/syscall.c:69-88 | the old break and a moved break, or -1 and no change exactly when it would pass the end; wrap-around included |
| Heap.UserHeap.Coalesce | user/umalloc.h:51-62 | no two free neighbours remain, the tiling and links hold, blocks in use keep their place and contents |
| Heap.UserHeap.FirstFit | user/umalloc.h:71-72 | following the links finds the earliest free block that is big enough |
| Heap.UserHeap.SplitOff | user/umalloc.h:73-81 | the block is cut exactly if 24 bytes or more are left over |
| Heap.UserHeap.Take | user/umalloc.h:73-83 | the block is in use with at least the wanted size, cut if worth it; other blocks in use keep their contents; nothing outside the heap is written |
| Heap.UserHeap.Append | user/umalloc.h:91-101 | exactly one new last block, if the break has moved past it; other blocks in use keep their contents |
| Heap.UserHeap.Malloc | user/umalloc.h:64-103 | 0 exactly when nothing fits and the break cannot grow, else the earliest fit, never a block in use, with the resulting block list and contents preserved; and exactly the requests for which this holds |
| Heap.WrappedRequest | user/umalloc.h:64-103 | a fresh heap answers a request of 0xFFFFFFF0 bytes with a pointer, and no block of that size is behind it |
| Heap.WhenCut | user/umalloc.h:73-81 | a free block of 104 bytes is cut for 8 and for 80 bytes and given whole for 88 |
| Heap.FirstAnswers | user/umalloc.h:64-103 | from a fresh heap umalloc(100) and umalloc(1) answer 0x90010 and 0x90088 |
| Heap.UserHeap.Free | user/umalloc.h:105-112 | that block is no longer in use, all others are with their contents, no two neighbours are free |
| Heap.UserHeap.Store | user/umalloc.h:31-41 | a program writing inside a block it holds damages no header and no other block |
| Heap.UserHeap.FreeAll | user/umalloc.h:105-112 | freeing every block, in any order, leaves one block spanning the heap |
| Elf.Validate | kernel/elf.c:15-62 | every verdict if and only if its defect is the first, on every byte string, with all reads in bounds |
| Elf.Machine.Load | kernel/elf.c:129-164 | each return code exactly when due; on failure memory is unchanged; on success it is the in-order overlay of the segments, unchanged outside the window, with the entry inside |
| Elf.LinkedHeader | kernel/elf.h:38-53 | the header of an i386 executable laid out field by field reads back: identification, type, machine, entry, table offset, entry size and count |
| Elf.LinkedSegment | kernel/elf.h:55-64 | each program header laid out field by field reads back, and the file holds the segment's bytes at its offset |
| Elf.LoadLinked | kernel/elf.c:129-164 | an image laid out from an entry and a list of segments is refused exactly when a segment or the entry is outside the window; else the entry is returned and each segment's bytes, then zeros, are at its own address where no later one lies over it |
| Elf.LinkedReadOnly | kernel/elf.c:175-185 | a page of such an image is to be read-only exactly when a segment without PF_W lies in it |
| Elf.SampleReads | kernel/elf.h:38-64 | an image given as 86 literal bytes is valid and reads as the segment and entry it encodes |
| Elf.LastSegmentWins | kernel/elf.c:152-159 | a byte holds what the last segment covering it says: file bytes, then zeros |
| Elf.OverlayStaysInside | kernel/elf.c:140-147 | segments checked against the window write nothing outside it |
| Elf.Machine.SetUserWritable | kernel/paging.c:108-123 | only the writable bit, and only of the rounded and clamped range, in 32 bits |
| Elf.MarkedIsOverlap | kernel/paging.c:110-113 | those are the user-zone pages that share a byte with the range if and only if the rounding does not wrap or cuts off no page of the zone, and an empty range does not start inside a page of it |
| Elf.WrappedRange | kernel/paging.c:110-113 | a range from the start of the zone to the end of memory but one byte overlaps every page of the zone and marks none |
| Elf.Machine.Protect | kernel/elf.c:175-185 | the pages of segments without the write flag become read-only |
| Elf.Machine.ResetAndProtect | kernel/elf.c:175-185 | afterwards a user-zone page is read-only if and only if such a segment overlaps it, whatever the segment order; all other bits and entries are unchanged |
| Args.SplitAtSpace | kernel/args.c:34-49 | a space separates words: the words of two halves are the words of the line |
| Args.JoinThenSplit | kernel/args.c:34-49 | splitting words joined by spaces gives the words back |
| Args.SplitLine | kernel/args.c:34-49 | the pointer-walking loop finds the first eight words and their total length |
| Args.TwoWords | kernel/args.c:34-49 | leading and repeated spaces make no words, and two words take their lengths and two NULs |
| Args.UserStack.CopyText | kernel/args.c:56-68 | each word and its NUL at its own place, nothing outside the text |
| Args.UserStack.PutPointers | kernel/args.c:70-76 | the pointer array and its NULL |
| Args.UserStack.Build | kernel/args.c:27-92 | a cdecl callee reads back exactly the first eight words from the returned esp, which is 4-aligned and at most 304 below an aligned top; only that block is written; 0 and no write exactly when the text passes 256 bytes |

## Left out

- Hardware I/O (ATA ports, PIC, PIT, VGA, keyboard), boot code and assembly: a drive is sectors that are read and written whole.
- Ring-3 access checks, the two shared kernel directory entries beyond their being copied, and the TLB: a table change takes effect at once.
- Frames above 8 MB are treated as reachable by the kernel, although only the first 8 MB are identity-mapped at boot.
- Pmm.FrameAllocator.Alloc: the bitmap is one flag per frame, not packed into 32-bit words.
- Process names and 32-bit overflow of pids: pids are unbounded.
- Procs.ProcTable.Run: a call to end a user process that has children is skipped, because proc_free does not hand them over.
- Procs.ProcTable.Do: addresses from 8 MB on.
- Procs.ProcTable.Touch: addresses from 8 MB on.
- Procs.ProcTable.Unmap: addresses from 8 MB on.
- Procs.ProcTable.Map: addresses from 8 MB on; a mapped page is refused in the model, because vmm_map over one drops the old frame without freeing it, and no caller does so.
- Vmm.AddressSpaces.TableFor: addresses from 8 MB on; directory entries 0 and 1 are the identity map that every address space shares, and their tables are not frames of the pool.
- Vmm.AddressSpaces.Map: addresses from 8 MB on, an unmapped page, and a frame the caller holds, as every caller in the kernel passes it.
- Vmm.AddressSpaces.MapAlloc: addresses from 8 MB on and an unmapped page, as demand_handle and the shell call it.
- Vmm.AddressSpaces.Translate: addresses from 8 MB on.
- Vmm.AddressSpaces.CowHandle: addresses from 8 MB on.
- Vmm.AddressSpaces.Unmap: addresses from 8 MB on.
- Demand.Pager.DemandHandle: addresses from 8 MB on.
- Demand.Pager.PageFault: addresses from 8 MB on.
- Demand.Pager.Load: addresses from 8 MB on.
- Demand.Pager.StoreMapped: addresses from 8 MB on.
- Demand.Pager.Store: addresses from 8 MB on.
- Demand.CloneThenStore: addresses from 8 MB on.
- Procs.ProcTable.Release: only for a process without children that is not running; ParentedVacate says exactly what children would cost.
- Procs.ProcTable.EndUser: only for a process without children, because proc_free does not hand them over.
- Vmm.AddressSpaces.Clone: one method for both clone functions, which differ only in what they do with a page; the copy-on-write form asks for fewer than 253 address spaces, and the process table never has more than 16.
- PyroFs.Run: starts from a disk that is not formatted or was left sound, as every disk the kernel writes is.
- PyroFs.FileSystem.Write: next_free_lba is required to leave room within the 28-bit addresses the drive can take.
- Whether PyroFS overlaps the kernel image on the boot disk.
- Tasks.RunLocked: any number of workers, although the table has eight entries; the counter is unbounded.
- Semaphores, spinlocks, the printing workers and the timed preemption demo.
- kernel/kheap.c, an easier relative of the user heap.
- Heap.UserHeap.Free: only for 0 or a block in use, as umalloc.h asks of its callers.
- Elf.Machine.Load: the image buffer lies outside the window; a null image is an empty one.
- Args.UserStack.Build: the stack top is at least 308, so that no address wraps below zero.
- System calls other than SYS_SBRK, the shell and the user programs.

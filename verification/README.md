# NexusOS kernel verification

A Dafny model of the kernel mechanisms of NexusOS, with proofs of what they
promise over every input and every run:

- the writable FAT32 driver (`Fat32`, on `FatTypes`, `FatChains`, `FatTree`,
  `FatEntries`, `FatGrow`, `FatScan`, `FatPaths`, `FatSteps`, `FatFiles`);
- the page tables and address spaces (`PageTables`, `Paging`), the boot-time
  identity map (`BootTables`) and the two together (`BootSpaces`);
- the physical page manager (`Pmm`) and the kernel heap (`HeapBlocks`, `Heap`);
- the cooperative scheduler, as a state machine (`Schedule`, with the effect and
  the timing of its sections in `Sections`) and on its intrusive lists
  (`Scheduler`);
- the interrupt event ring (`EventQueue`), the wait queues (`WaitQueues`) and
  the event layer on top of them (`KernelEvents`, `EventLayer`);
- the module loader (`Modules`) and the IPC channels (`Ipc`).

State that the C code updates in place is a class here, and each of its methods
is proved against a function or relation on values. The properties over runs
are lemmas about these, or loops over arbitrary sequences of operations.
`dafny verify dfyconfig.toml` checks the project.

How the models read the code:

- **FAT32.** The device is an array that does not fail. A volume is the copies
  of the FAT (32-bit cells: a top nibble and a 28-bit value) and the bytes of each
  cluster. Ghost state says which path each chain, slot and cluster belongs to,
  and `VolumeOk` ties it to the bytes; `FilesOf` is the map of files it stands
  for. Directory and cluster scans, chain walks with their guards, rollback and
  the path and name loops are those of the driver. Paths are byte strings
  without a zero byte. Chains that no entry points to are a ghost set, so the
  operations are proved on volumes that have lost chains as well. The formats follow the Microsoft FAT32 File
  System Specification 1.03, sections "FAT Data Structure" and "FAT Directory
  Structure"; like the code, and unlike that document, `..` of a directory in
  the root names the root cluster and not 0.
- **Paging.** An entry is its frame number, its present and page-size bits and
  the other attributes. A ghost map gives the place of every table in its tree,
  so `Look` is the translation of a page in a space. The walk follows section
  4.5 of the Intel SDM, Volume 3A.
- **Heap.** Memory is 64-bit words; block headers are six words inside it. All
  sums of the size computations wrap around at 64 bits. Mapping calls are an
  oracle: each takes a number of frames for page tables, as long as there are
  any, and may fail.
- **Scheduler and events.** Each section between `irq_save` and `irq_restore`
  is one step; the timer interrupt may come between any two. Which processes
  are alive, which can be reaped and whether a stack could be allocated are
  parameters of the steps. A thread inside the wait call is a program counter.
- **Event ring.** A push is one step, as interrupts are off during it. A pop is
  seven: two loads, the three fields of the event, the store of the tail and
  the count.
- **Modules.** The outcome of each init call is fixed. `Loadable` is the least
  set of modules whose init succeeds and whose dependencies are in the set.
- **IPC.** Ghost logs record what was sent to each side of a channel and what
  each receive returned.

Results about cases where the code does not meet a property; each has a
concrete input and the exact condition:

- A name that starts with the byte 0xE5 is accepted and stored, but every scan
  takes its entry for a deleted one: the call succeeds, no path changes, and the
  clusters are lost (`Fat32.Volume.WriteFile`, `Fat32.Volume.Mkdir`,
  `FatSteps.MarkedPath`).
- A path of two slashes and one component is written in the root but looked up
  in a directory with a blank name, so it does not read back unless that
  directory has such a file (`Fat32.Volume.WriteThenRead`, `FatPaths.TwoSlashes`).
- A page mapped no-execute translates to an address with bit 63 set, so the
  address is the requested one exactly without that flag
  (`Paging.AddressSpaces.MapThenTranslate`, `BootSpaces.NoExecPage`).
- Splitting a 2 MiB leaf drops its no-execute bit (`PageTables.SplitNoExec`). At
  boot such a leaf arises exactly from a region at 2^63 or above
  (`BootTables.BootNoExec`, `BootSpaces.SplitOfBoot`).
- No table ever gets the user bit, so a page mapped for user mode is not open to
  it (`PageTables.NoUserAccess`, `BootSpaces.UserPage`).
- A clone of an address space that runs out of frames gives back only the tables
  that it was still copying. It loses no frame exactly when it had fewer free
  frames below 4 GiB than there are tables on the path of first links of the
  kernel's tree (`Paging.AddressSpaces.CreateAddressSpace`). A clone of the boot
  tables with four frames loses two (`BootSpaces.CloneOfBoot`).
- Boot regions above 512 GiB are not mapped. They overwrite entries below: a page
  below 512 GiB stays mapped to itself exactly when the last region page written
  to its entry is its own up to the bits above the 48th (`BootTables.Mapper.Init`,
  `BootTables.IdentityExactly`, `BootTables.InitAbove`).
- Giving back address 0 makes page 0 free, and handing it out looks like a
  failure (`Pmm.PageManager.AllocPage`, `Pmm.FreeZero`).
- `heap_validate` rejects a sound heap of more than 1000001 blocks, and then
  nothing can be allocated or freed (`Heap.KernelHeap.Malloc`,
  `Heap.KernelHeap.Free`, `Heap.KernelHeap.Overfill`).
- A decision that picks a thread whose process is gone breaks the place of the
  old thread or the count of threads, unless the old thread had exited
  (`Schedule.StepOk`, `Schedule.DeadPickBreaks`). It breaks the wait queues
  exactly when the thread it ends is still queued (`KernelEvents.SectionOk`).
- A process that exits leaves a channel in use exactly if its peer's side is open,
  and takes the handle from the peer: no process has the channel any more and no
  run frees it (`Ipc.Kernel.ExitProcess`, `Ipc.Kernel.ExitThenRun`). After sixteen
  such exits no channel can be created (`Ipc.Kernel.StrandAll`).
- `module_load_all` never ends when two modules have the same name
  (`Modules.Loader.LoadSome`, `Modules.LoadTwins`).

## Model

| member | source | states |
|---|---|---|
| FatTypes.DecodeEncode | fs/fat32.c:43-56 | a 32-byte directory entry read back is the entry written: the split first cluster, the size and the time stamps survive |
| FatTypes.EncodedAt | fs/fat32.c:43-56 | the byte positions of every field of an encoded entry: the name, the attributes, the halves of the first cluster at 20 and 26, the size at 28 |
| FatTypes.Merged | fs/fat32.c:443-451 | the merged 32-bit cell has the low 28 bits of the value and the top nibble of the old cell |
| FatTypes.SlotAfterPut | fs/fat32.c:587-593 | writing slot i of a directory cluster changes that slot and no other |
| FatTypes.SlotAfterDelete | fs/fat32.c:745-747 | the deletion mark changes the first name byte of its slot and no other slot |
| FatPaths.ToShortName | fs/fat32.c:114-135 | the lenient conversion computes the 8.3 name of any component |
| FatPaths.MakeComponentName | fs/fat32.c:500-527 | the strict conversion accepts exactly the valid 8.3 components and then gives the same name as the lenient one, so writers and readers agree |
| FatPaths.ValidDotted | fs/fat32.c:500-527 | of the components with a dot the valid ones are those of one to eight characters before it and at most three after it |
| FatPaths.ValidPlain | fs/fat32.c:500-527 | of the components without a dot the valid ones are those of one to eight characters |
| FatPaths.ValidParts | fs/fat32.c:500-527 | every valid component is of one of these two forms |
| FatPaths.ShortNameParts | fs/fat32.c:114-135 | the name of a component is its two parts in upper case, filled up with spaces to eight and three characters |
| FatPaths.NoSmallLetters | fs/fat32.c:114-135 | no byte of a name is a small letter |
| FatPaths.NamesCase | fs/fat32.c:232-270 | paths that differ only in letter case are looked up as the same names |
| FatPaths.ShowShortName | fs/fat32.c:315-322 | a listing shows a component as it was given, in upper case, exactly when it has no spaces and does not end in a dot |
| FatPaths.NextComponent | fs/fat32.c:247-252 | reads one component of at most 12 characters and skips the slashes after it |
| FatPaths.SplitParent | fs/fat32.c:557-580 | splits off the last component of an absolute path, with the length limits of the two buffers |
| FatPaths.SplitFound | fs/fat32.c:557-580 | a parent, a slash, a component and any number of slashes are split into the parent and the component, within the limits of the two buffers |
| FatPaths.SplitIs | fs/fat32.c:557-580 | every path that is split is made up like that |
| FatPaths.SplitNames | fs/fat32.c:557-585 | looking a path up names the same components as creating it, except exactly when the path is two slashes and one component |
| FatPaths.BlankParent | fs/fat32.c:232-270 | a path of two slashes and one component is looked up in a directory with a blank name |
| FatPaths.LastComponent | fs/fat32.c:500-527 | the name of an accepted last component reads as deleted exactly when it starts with the byte 0xE5 |
| FatChains.ChainDistinct | fs/fat32.c:488-498 | a chain visits no cluster twice, so it is shorter than the guard of every walk |
| FatChains.AllocChains | fs/fat32.c:470-486 | allocating a free cluster adds a chain of its own and keeps all chains disjoint and exactly the used clusters |
| FatChains.LinkChains | fs/fat32.c:669-675 | linking a one-cluster chain behind the last cluster of another keeps all chains disjoint and exactly the used clusters |
| FatChains.FreeChains | fs/fat32.c:488-498 | zeroing every entry of a chain removes that chain and no cluster of another |
| FatEntries.PublishVolume | fs/fat32.c:707-720 | a new entry in a reusable slot keeps the volume well formed and gives its chain an owner |
| FatEntries.PublishLookup | fs/fat32.c:707-720 | a new entry adds exactly its path; every other path names what it named |
| FatEntries.DeadVolume | fs/fat32.c:707-720 | an entry whose name starts with the deletion mark keeps the volume well formed and leaves its chain without an owner |
| FatEntries.DeadLookup | fs/fat32.c:530-554 | such an entry makes no path name anything, and every path names what it named |
| FatEntries.ReplaceVolume | fs/fat32.c:699-725 | overwriting the entry of a file keeps the volume well formed and orphans exactly the old chain |
| FatEntries.ReplaceLookup | fs/fat32.c:699-725 | overwriting the entry of a file changes what that path names and nothing else |
| FatEntries.DeleteVolume | fs/fat32.c:732-752 | deleting the entry of a file or childless directory keeps the volume well formed and orphans exactly its chain |
| FatEntries.DeleteLookup | fs/fat32.c:732-752 | deleting an entry removes that path and changes no other |
| FatEntries.ExtendVolume | fs/fat32.c:606-614 | a cleared cluster behind a full directory adds free slots only |
| FatGrow.SameCopies | fs/fat32.c:438-462 | copies of the FAT with equal 28-bit values and equal top nibbles are the same copies |
| FatGrow.GrownFree | fs/fat32.c:672-674 | freeing a chain built from free clusters restores the FAT and the tree exactly |
| FatGrow.NeededFits | fs/fat32.c:666 | the rounded-up cluster count holds the file, and is zero exactly for an empty file |
| FatGrow.NeededLeast | fs/fat32.c:666 | a number of clusters holds the file exactly if it is at least the rounded-up count |
| FatScan.FullSame | fs/fat32.c:595-618 | building a chain neither fills a directory nor frees a slot of one |
| FatSteps.NoLeaks | fs/fat32.c:470-498 | a cluster is in use exactly when it is in the chain of a live entry or in a lost chain, and never in both; without lost chains there are no leaks |
| FatSteps.ChainsApart | fs/fat32.c:470-498 | chains of different paths share no cluster, and no chain visits a cluster twice |
| FatSteps.UniqueNames | fs/fat32.c:595-650 | two live entries of a directory with the same name are the same slot |
| FatSteps.ReadBack | fs/fat32.c:652-727 | the path of a file just written names that file, unless the name starts with 0xE5 (then nothing) or the path is two slashes and one component (then what it named before) |
| FatSteps.MarkedPath | fs/fat32.c:500-527 | the path of a slash and the byte 0xE5 is accepted by the write operations on every volume |
| FatSteps.TargetCase | fs/fat32.c:557-585 | paths that differ only in letter case create, overwrite and remove the same entry |
| FatSteps.DirContentIs | fs/fat32.c:620-650 | a new directory cluster holds `.` for itself, `..` for the directory above, and free slots |
| FatFiles.CostIs | fs/fat32.c:652-727 | the clusters that the budget of a run sets aside for an operation: the least number that holds the file and one, two for a directory, none for a removal |
| Fat32.Volume.SetEntry | fs/fat32.c:438-462 | merges the 28-bit value into every copy of the FAT, which keep agreeing, and leaves every top nibble alone |
| Fat32.Volume.AllocCluster | fs/fat32.c:470-486 | succeeds exactly when a cluster is free, takes the lowest one, marks it as an end and clears it |
| Fat32.Volume.FreeChain | fs/fat32.c:488-498 | frees exactly the clusters of the chain, always succeeds on a chain, and adds its length to the free clusters |
| Fat32.Volume.BuildChain | fs/fat32.c:668-676 | builds a chain of the needed length exactly when that many clusters are free; otherwise every FAT copy is bit for bit as before |
| Fat32.Volume.WriteContents | fs/fat32.c:678-697 | the bytes along the chain start with the buffer, whatever the fragmentation |
| Fat32.Volume.FindEntry | fs/fat32.c:530-554 | finds an entry exactly when the directory tree has that child, and returns its slot and contents; never a deleted entry, a long-name fragment or a volume label |
| Fat32.Volume.FindFreeSlot | fs/fat32.c:595-618 | succeeds exactly when the directory has a free or deleted slot or a cluster is free, and takes a cluster exactly when the directory is full; a failure changes nothing |
| Fat32.Volume.IsEmptyDir | fs/fat32.c:769-786 | the scan accepts a directory exactly when it has no children |
| Fat32.Volume.ResolvePath | fs/fat32.c:232-270 | resolves a path exactly when it is in the directory tree, to the entry of that path |
| Fat32.Volume.ResolveParent | fs/fat32.c:557-585 | succeeds exactly when the last component is a valid name and the rest is a directory |
| Fat32.Volume.WriteFile | fs/fat32.c:652-727 | succeeds exactly for a writable path for which some number of clusters holds the file and is free, with one more when the directory is full; then the path is a file with exactly these bytes, the archive attribute and the least number of clusters, no other path changes, and every cluster is accounted for; under a name that starts with 0xE5 no path changes and the clusters are lost; a failure changes nothing |
| Fat32.Volume.ReadFile | fs/fat32.c:381-410 | succeeds exactly on files and returns their bytes, cut to the buffer |
| Fat32.Volume.Mkdir | fs/fat32.c:620-650 | succeeds exactly for a free valid path with enough free clusters; then adds a directory with its two special entries and changes no other path; under a name that starts with 0xE5 no path changes and its cluster is lost; failure leaves the volume as before |
| Fat32.Volume.RemoveFile | fs/fat32.c:732-752 | succeeds exactly on files, removes that path, gives back exactly its clusters and changes no other path |
| Fat32.Volume.RemoveEmptyDir | fs/fat32.c:757-794 | succeeds exactly on directories without children, removes that path, gives back exactly its clusters and changes no other path |
| Fat32.Volume.Perform | fs/fat32.c:620-794 | each operation succeeds exactly when it is allowed on the abstract map of files and there is room, and acts on that map as specified or not at all; it loses a chain exactly under a name that starts with 0xE5 |
| Fat32.Volume.Run | fs/fat32.c:620-794 | every run keeps the volume well formed, the FAT copies equal and the top nibbles untouched; its files are those of the abstract run, the chains it loses are counted exactly, and with enough free clusters at the start every allowed operation succeeds |
| Fat32.Volume.WriteThenRead | fs/fat32.c:652-727 | a file read back is the file written, except exactly under a name that starts with 0xE5 or a path of two slashes and one component; every other path reads as before |
| PageTables.SamePage | kernel/mm/paging.c:205-217 | two addresses share a page exactly when their bits 12 to 47 agree |
| PageTables.PageDigits | kernel/mm/paging.c:205-217 | the four table indices are the base-512 digits of the page number |
| PageTables.WalkFollowsPlaces | kernel/mm/paging.c:283-309 | the hardware walk from the root finds what the tree of table places says |
| PageTables.AddTable | kernel/mm/paging.c:218-236 | hanging an empty table into an absent entry changes no translation of any space |
| PageTables.SplitHuge | kernel/mm/paging.c:238-254 | replacing a 2 MiB leaf by 512 small leaves changes neither the address nor the attribute bits of the leaf of any page of any space |
| PageTables.SplitNoExec | kernel/mm/paging.c:244-257 | a split drops the no-execute bit of exactly the pages of its 2 MiB leaf |
| PageTables.NoUserAccess | kernel/mm/paging.c:205-260 | no page of any space is open to user mode through all four levels, whatever the user bit of its leaf: no link to a table carries that bit |
| PageTables.WriteAccessIs | kernel/mm/paging.c:205-260 | a mapped page can be written through all four levels exactly if its leaf has the bit: every link to a table carries it |
| PageTables.LeafBits | kernel/mm/paging.c:283-309 | the address of a 2 MiB leaf is in bits 21 to 47 of its entry, that of a 1 GiB leaf in bits 30 to 51 |
| PageTables.SetPage | kernel/mm/paging.c:262-281 | writing a last-level entry changes the translation of that page of that space alone |
| Paging.AddressSpaces.AllocTable | kernel/mm/paging.c:190-203 | takes a zeroed frame below 4 GiB; fails exactly when none is free there, and then changes nothing |
| Paging.AddressSpaces.SplitLarge | kernel/mm/paging.c:243-257 | a split fails exactly without a free frame below 4 GiB, changes no translation, and drops the no-execute bit of exactly the pages of the leaf |
| Paging.AddressSpaces.WalkCreate | kernel/mm/paging.c:205-260 | the walk that creates tables changes no translation, whether it succeeds or runs out of frames part way; it succeeds exactly when there are frames below 4 GiB for the missing tables, and takes one for each |
| Paging.AddressSpaces.MapPage | kernel/mm/paging.c:262-271 | 0 sets the translation of exactly that page, to the address and the attribute bits asked for, and makes it writable through all levels exactly with the writable flag; 1 and -1 change no translation at all; an aligned request fails exactly when the free frames below 4 GiB are fewer than the missing tables |
| Paging.AddressSpaces.UnmapPage | kernel/mm/paging.c:273-281 | clears exactly the translation of a mapped small page; otherwise nothing changes |
| Paging.AddressSpaces.MapThenUnmap | kernel/mm/paging.c:262-281 | a successful map and an unmap of the page restore every translation |
| Paging.MappedAddress | kernel/mm/paging.c:262-309 | the address of a new leaf is the requested one, with bit 63 added exactly when the no-execute flag leaks into it |
| Paging.AddressSpaces.VirtToPhys | kernel/mm/paging.c:283-309 | the address that the walk returns is that of the translation of the page plus the offset, or 0 when the page is not mapped |
| Paging.AddressSpaces.MapThenTranslate | kernel/mm/paging.c:262-309 | says exactly when a map succeeds; after it every byte of the page translates to the requested address exactly when the no-execute bit does not leak into it |
| Paging.AddressSpaces.CloneTable | kernel/mm/paging.c:314-338 | copies a table tree into frames of its own, one frame per table, all of them from the free pool; succeeds exactly when there are as many free frames below 4 GiB as tables; otherwise the copy has used them up before one table, and the frames of the tables above that one are given back |
| Paging.StoppedSpine | kernel/mm/paging.c:314-338 | a copy that stops at some table of a tree gives back as many frames as that table has tables above it, and that is all of them exactly when it had fewer than the path of first links takes |
| Paging.AddressSpaces.CreateAddressSpace | kernel/mm/paging.c:371-376 | succeeds exactly when the free frames below 4 GiB suffice for the tables of the kernel; a new space translates every address as the kernel does and shares no table frame with any other; a failure gives back every frame exactly when the frames were fewer than the tables on the path of first links |
| Paging.AddressSpaces.DestroyTable | kernel/mm/paging.c:340-351 | gives back every table frame of the tree exactly once and no leaf frame |
| Paging.AddressSpaces.DestroyAddressSpace | kernel/mm/paging.c:378-382 | gives back exactly the frames of that space and changes no translation of another |
| Paging.AddressSpaces.RunOps | kernel/mm/paging.c:353-397 | after any maps and unmaps in one space every page translates as the last successful one on it says, and all translations of the other spaces are unchanged |
| Paging.AddressSpaces.Lifecycle | kernel/mm/paging.c:371-397 | create, any maps and unmaps, destroy: the free set of the page manager is as before exactly when the create succeeds, which needs a frame per table, or fails on the path of first links |
| Paging.TakeFromBoth | kernel/mm/pmm.c:164-175 | the page manager with its bitmap hands out the page that the free set of the address spaces gives up |
| Paging.GiveToBoth | kernel/mm/pmm.c:177-187 | it takes back the page that the free set regains |
| BootTables.OwnersBounded | kernel/mm/paging.c:52-81 | the extra page directories in use are no more than the slots above the base ones |
| BootTables.Mapper.PdTableFor | kernel/mm/paging.c:52-81 | there is always a directory for a slot: the branch for an exhausted pool is never taken |
| BootTables.Mapper.MapRegion | kernel/mm/paging.c:94-103 | every entry holds the last 2 MiB page that the regions so far write to it, with the wrap-around of the rounded end and of the slot |
| BootTables.Mapper.Init | kernel/mm/paging.c:105-151 | every page below 512 GiB translates as the last region page written to its entry says; the boot map is the identity on the first 4 GiB, every described region and the framebuffer exactly when all of them lie below 512 GiB; then a page is mapped exactly when a region touches its 2 MiB page |
| BootTables.RegionBytes | kernel/mm/paging.c:105-151 | the bytes that the boot maps: the first 4 GiB, what the memory map describes, and the framebuffer |
| BootTables.InitAbove | kernel/mm/paging.c:105-151 | a page that the memory map describes at 512 GiB is not mapped to itself, and the first 2 MiB lead there instead |
| BootTables.IdentityIff | kernel/mm/paging.c:105-151 | the translation is the identity on the regions exactly when they lie below the limit, and then maps nothing that they do not touch |
| BootTables.IdentityExactly | kernel/mm/paging.c:52-103 | a page below 512 GiB is mapped to itself exactly when the last region page written to its entry is its own up to the bits above the 48th |
| BootTables.BootNoExec | kernel/mm/paging.c:84-90 | a page below 512 GiB is mapped no-execute at boot exactly when its entry was last written for an address at 2^63 or above |
| BootSpaces.CloneOfBoot | kernel/mm/paging.c:371-376 | a clone of the boot tables with fewer than six free frames below 4 GiB fails, and two of them at most are left |
| BootSpaces.SplitOfBoot | kernel/mm/paging.c:243-257 | after a boot with 2 MiB of memory described at 2^63 the first 2 MiB are no-execute, and a split of their leaf makes them executable |
| BootSpaces.NoExecPage | kernel/mm/paging.c:262-309 | one page mapped no-execute above the boot map, with three free frames, is found at its address plus 2^63 |
| BootSpaces.UserPage | kernel/mm/paging.c:262-271 | one page mapped with the user bit above the boot map has that bit in its leaf and is not open to user mode |
| Pmm.PageManager.ReserveRange | kernel/mm/pmm.c:47-63 | marks used exactly the tracked pages that the range touches, and keeps the count of clear bits exact |
| Pmm.PageManager.ReleaseRange | kernel/mm/pmm.c:65-81 | frees exactly the tracked pages that the range wholly contains, and keeps the count of clear bits exact |
| Pmm.PageManager.ScanMax | kernel/mm/pmm.c:83-92 | the highest end that a descriptor describes, capped at 64 GiB, or 0 |
| Pmm.PageManager.Init | kernel/mm/pmm.c:94-162 | a page is free exactly when it lies wholly in a conventional descriptor and touches no reserved range |
| Pmm.AllocatableBytes | kernel/mm/pmm.c:94-162 | a page can be handed out exactly if one conventional descriptor holds all its bytes and none is in the first 2 MiB, the kernel, the boot data, the memory map or the framebuffer |
| Pmm.PageManager.AllocPage | kernel/mm/pmm.c:164-175 | hands out the lowest free page; the result is 0 exactly when there is none or that page is page 0 |
| Pmm.PageManager.FreePage | kernel/mm/pmm.c:177-187 | gives back a used tracked page, page 0 included; other addresses are ignored |
| Pmm.FreeZero | kernel/mm/pmm.c:164-187 | after address 0 was given back the next allocation returns 0 although a page is free |
| Pmm.RunRequests | kernel/mm/pmm.c:164-187 | over every run the count is the number of clear bits, and no page is handed out twice or from outside the pool |
| Pmm.ReleaseExact | kernel/mm/pmm.c:65-81 | clipping and saturation of the ends lose no page below the limit |
| HeapBlocks.SplitLinked | kernel/mm/heap.c:103-125 | splitting a block keeps the headers in memory a doubly linked list that tiles the arena |
| HeapBlocks.MergeLinked | kernel/mm/heap.c:127-136 | merging with the next block keeps the headers a doubly linked list that tiles the arena |
| HeapBlocks.AppendLinked | kernel/mm/heap.c:237-254 | a block appended by growth keeps the headers a doubly linked list that tiles the longer arena |
| HeapBlocks.SplitIntact | kernel/mm/heap.c:103-125 | splitting a block writes no word of any other payload |
| HeapBlocks.MergeIntact | kernel/mm/heap.c:127-136 | merging writes no word of any payload |
| HeapBlocks.StoreLinked | kernel/mm/heap.c:196-299 | a client write inside its own payload touches no header and no other payload |
| Heap.AlignSizeIs | kernel/mm/heap.c:39-49 | the aligned request is the next multiple of 16, or 0 exactly when that does not fit in 64 bits |
| Heap.GrowthFits | kernel/mm/heap.c:223-229 | a growth that passes the checks is large enough and stays in the arena, whatever 64-bit sum wrapped around |
| Heap.GrowableIs | kernel/mm/heap.c:223-229 | the checks admit a growth exactly if the block and its header fit between the end of the arena and its limit |
| Heap.PagesForIs | kernel/mm/heap.c:51-54 | the pages of a growth hold the block and its header, and one page less would not |
| Heap.TakenIs | kernel/mm/heap.c:103-125 | a block is taken whole if less than a header and 16 bytes would be left, and split otherwise, with the rest a free block |
| Heap.TakeThenFree | kernel/mm/heap.c:103-137 | freeing a block that was just taken restores the layout of the arena |
| Heap.FreeCompact | kernel/mm/heap.c:283-296 | freeing with both merges leaves no two free blocks in a row |
| Heap.FreedCovered | kernel/mm/heap.c:283-296 | a freed block lies in one free block afterwards |
| Heap.KernelHeap.MapNewPages | kernel/mm/heap.c:70-101 | succeeds exactly if every call does and the frames suffice for the pages and their page tables; a failure leaves no page mapped and gives back every data frame, whichever call failed, and loses a computed number of frames to page tables |
| Heap.FailsAt | kernel/mm/heap.c:70-101 | a growth that stops at some page, for want of a frame for it or for one of its tables or because the call fails, is one whose frames or calls did not suffice, and loses exactly the tables made so far |
| Heap.KernelHeap.Validate | kernel/mm/heap.c:155-183 | the walk accepts every reachable state up to its block limit and rejects every longer one |
| Heap.KernelHeap.FindFit | kernel/mm/heap.c:210-211 | finds the first free block that is large enough |
| Heap.KernelHeap.TakeBlock | kernel/mm/heap.c:211-220 | takes the block, splits off a rest that is large enough for a block, and keeps every live block and its contents |
| Heap.KernelHeap.Grow | kernel/mm/heap.c:223-260 | appends a used block of whole pages, or changes nothing but the frames lost to page tables, which are counted; succeeds exactly if the arena has room, every mapping call succeeds and the frames suffice for the pages and their tables |
| Heap.KernelHeap.Malloc | kernel/mm/heap.c:196-261 | a result is 16-byte aligned, has at least the requested bytes, is disjoint from every live block and leaves their words intact; the first fitting free block is used, whole or with its rest split off as a free block, all others unchanged and in order; a growth takes as few pages as hold the block; failure changes no block, word or mapping, loses exactly the frames of the page tables made, and happens exactly for a size of 0 or out of range, too many blocks, or no fit and no way to grow |
| Heap.KernelHeap.Free | kernel/mm/heap.c:263-299 | frees exactly a pointer with the header of a block in use before it: the block lies in a free block then, merged with its free neighbours, one allocation less is counted, and every other live block keeps its contents |
| Heap.KernelHeap.Overfill | kernel/mm/heap.c:155-183 | one allocation per page, each with the page tables it needs, up to 1000002 blocks: from then on nothing can be allocated, although frames and room are left for one more page |
| Heap.NextHolds | kernel/mm/heap.c:196-299 | what clients may expect after an operation: a word written, until its bytes are given back, and nothing else forgotten |
| Heap.KernelHeap.Run | kernel/mm/heap.c:196-299 | over every run of allocations, frees and client writes the blocks tile the arena and the byte and allocation counts are exact; the pointers handed out belong to different live blocks, and every word a client wrote is still there |
| Schedule.StepOk | kernel/core/scheduler/scheduler.c:339-563 | a section keeps each thread in exactly the place its state says, the ids unique, the thread count exact and the sleep list in order, exactly unless it picks a thread whose process is gone while the old thread has not exited |
| Schedule.RunOk | kernel/core/scheduler/scheduler.c:293-563 | every state of every run without such a pick satisfies that invariant |
| Schedule.RunExactly | kernel/core/scheduler/scheduler.c:293-563 | the runs considered here are exactly those that never leave the invariant |
| Schedule.StartOk | kernel/core/scheduler/scheduler.c:293-337 | the initial state satisfies the invariant |
| Schedule.RequeueOk | kernel/core/scheduler/scheduler.c:386-402 | when a decision is made some thread is ready, so the halt loop is never reached |
| Schedule.WakeDueExact | kernel/core/scheduler/scheduler.c:123-133 | a sleeper is woken exactly when its tick has come |
| Schedule.WakeDueIs | kernel/core/scheduler/scheduler.c:123-133 | the due sleepers are a front part of the sleep list and join the ready list in its order |
| Schedule.LeavesSleep | kernel/core/scheduler/scheduler.c:123-148 | a sleeper leaves the sleep list only when its tick has come or it is woken by name |
| Schedule.SleepForOk | kernel/core/scheduler/scheduler.c:103-121 | a new sleeper goes behind all that wake no later, so the list stays ordered by tick with first come first served among equals |
| Schedule.WakeUpOk | kernel/core/scheduler/scheduler.c:135-148 | ending a sleep early keeps the order of the remaining sleepers |
| Schedule.ReapOk | kernel/core/scheduler/scheduler.c:150-177 | reaping frees only zombies and keeps the invariant |
| Schedule.SwitchOk | kernel/core/scheduler/scheduler.c:404-432 | switching to the first ready thread keeps the invariant |
| Schedule.DeadPick | kernel/core/scheduler/scheduler.c:423-428 | when the picked thread has lost its process, the invariant survives exactly if the old thread had exited |
| Schedule.DeadPickBreaks | kernel/core/scheduler/scheduler.c:423-428 | starting the scheduler, creating a thread of a process and deciding after that process has died ends outside the invariant |
| Schedule.CreateOk | kernel/core/scheduler/scheduler.c:447-486 | a new thread in a free slot keeps the invariant |
| Schedule.NoOvertaking | kernel/core/scheduler/scheduler.c:366-445 | nothing overtakes a ready thread: each decision brings it one place closer and nothing sends it back; at the front it runs, or is ended if its process is gone |
| Schedule.Fairness | kernel/core/scheduler/scheduler.c:366-445 | a ready thread with k threads ahead runs within k + 1 decisions, whatever the others do, unless the decision finds its process gone |
| Sections.TickIs | kernel/core/scheduler/scheduler.c:339-360 | what a tick does: a decision is due exactly if one was, at the end of the quantum, or when the first sleeper is due; nothing but the time changes |
| Sections.QuantumEnds | kernel/core/scheduler/scheduler.c:348-352 | after the remaining ticks of the quantum a decision is due, and stays due |
| Sections.QuantaDecide | kernel/core/scheduler/scheduler.c:339-445 | if a decision follows every tick, each quantum of ticks brings one that picks a thread |
| Sections.FairInTime | kernel/core/scheduler/scheduler.c:339-445 | then a ready thread with k threads ahead runs within k + 1 quanta, unless its process is gone by then |
| Sections.DecideClears | kernel/core/scheduler/scheduler.c:366-380 | a decision leaves no flag set and does not touch the time |
| Sections.DecideFrees | kernel/core/scheduler/scheduler.c:150-177 | a decision frees the slots of exactly those zombies that are not current and whose process can be reaped |
| Sections.SleepTicksIs | kernel/core/scheduler/scheduler.c:518-528 | a sleep lasts at least the milliseconds asked for and at most one tick more, if nothing wraps around |
| Sections.SleepForIs | kernel/core/scheduler/scheduler.c:518-528 | the running thread joins the sleep list with its wake tick, and a decision is due |
| Sections.SleepsOn | kernel/core/scheduler/scheduler.c:103-148 | over every run a sleeper stays asleep until its tick, unless it is woken by name |
| Sections.WakesInTime | kernel/core/scheduler/scheduler.c:123-133 | the first decision at or after its tick makes a sleeper ready, or runs it |
| Sections.WakeUpIs | kernel/core/scheduler/scheduler.c:533-554 | a sleeping thread that is named becomes the last ready one, and a decision is due; otherwise nothing changes |
| Sections.WakeIs | kernel/core/scheduler/scheduler.c:257-264 | a blocked thread that is named becomes the last ready one, and a decision is due; otherwise nothing changes |
| Sections.BlockIs | kernel/core/scheduler/scheduler.c:266-276 | the running thread is blocked and a decision is due; nothing else changes |
| Sections.ExitIs | kernel/core/scheduler/scheduler.c:556-560 | the running thread becomes a zombie, is counted out, and a decision is due; nothing else changes |
| Sections.CreateIs | kernel/core/scheduler/scheduler.c:447-486 | a new thread takes the first free slot, with a number of its own, at the end of the ready list; without a slot or a stack nothing changes |
| Sections.StartIs | kernel/core/scheduler/scheduler.c:293-337 | at the start thread 0 runs with a full quantum, and there is no other |
| Scheduler.Threads.ReadyAppend | kernel/core/scheduler/scheduler.c:79-90 | appends to the intrusive ready list and leaves the sleep list alone |
| Scheduler.Threads.ReadyPop | kernel/core/scheduler/scheduler.c:92-101 | takes the first thread of the intrusive ready list |
| Scheduler.Threads.SleepInsert | kernel/core/scheduler/scheduler.c:103-121 | links the thread into the sleep list at the place its wake tick calls for |
| Scheduler.Threads.SleepUnlink | kernel/core/scheduler/scheduler.c:135-148 | unlinks exactly the given thread from the sleep list |
| Scheduler.Threads.constructor | kernel/core/scheduler/scheduler.c:293-337 | starts with thread 0 running and nothing queued |
| Scheduler.Threads.TickIrq | kernel/core/scheduler/scheduler.c:339-360 | the timer interrupt counts, touches no list, and asks for a decision exactly at the end of the quantum and when the first sleeper is due |
| Scheduler.Threads.WakeDueThreads | kernel/core/scheduler/scheduler.c:123-133 | the links follow the state machine: due sleepers move to the ready list in order |
| Scheduler.Threads.ReapZombies | kernel/core/scheduler/scheduler.c:150-177 | frees the slots that the state machine frees |
| Scheduler.Threads.Schedule | kernel/core/scheduler/scheduler.c:366-445 | the scheduling section on the linked lists does what the state machine does |
| Scheduler.Threads.CreateThread | kernel/core/scheduler/scheduler.c:447-486 | succeeds exactly when a slot and a stack are free, and queues the new thread last |
| Scheduler.Threads.SleepMs | kernel/core/scheduler/scheduler.c:518-528 | puts the running thread to sleep as the state machine does; thread 0 is refused |
| Scheduler.Threads.WakeSleeper | kernel/core/scheduler/scheduler.c:533-554 | wakes exactly a sleeping thread |
| Scheduler.Threads.WakeBlocked | kernel/core/scheduler/scheduler.c:257-264 | makes exactly a blocked thread ready |
| Scheduler.Threads.BlockCurrent | kernel/core/scheduler/scheduler.c:266-276 | blocks the running thread; thread 0 is refused |
| Scheduler.Threads.ExitCurrent | kernel/core/scheduler/scheduler.c:556-560 | makes the running thread a zombie and counts it out; thread 0 is refused |
| Scheduler.Threads.Run | kernel/core/scheduler/scheduler.c:339-563 | the linked lists follow every run of the state machine |
| EventQueue.Ring.Push | kernel/core/events/event_queue.c:30-57 | an event is dropped only when 255 are outstanding, and a push overwrites no slot that is being read |
| EventQueue.Ring.PopStep | kernel/core/events/event_queue.c:59-71 | each instruction of a pop sees the oldest outstanding event, whatever was pushed between the instructions |
| EventQueue.Ring.Pop | kernel/core/events/event_queue.c:59-71 | a pop interrupted anywhere returns the next accepted event, and fails only if none was there when it began |
| EventQueue.Ring.Count | kernel/core/events/event_queue.c:73-78 | the count is the number of outstanding events; at rest pushed is popped plus count |
| EventQueue.Ring.Run | kernel/core/events/event_queue.c:30-71 | over every interleaving the popped events are a prefix of the accepted ones |
| EventQueue.PushHolds | kernel/core/events/event_queue.c:39-54 | writing at the head overwrites no event that is still held |
| WaitQueues.WaitQueue.Contains | kernel/core/scheduler/scheduler.c:231-238 | finds a thread number exactly when it is queued |
| WaitQueues.WaitQueue.Push | kernel/core/scheduler/scheduler.c:240-246 | appends a thread number that is not zero and not queued yet |
| WaitQueues.WaitQueue.Pop | kernel/core/scheduler/scheduler.c:248-255 | takes the first thread number, or 0 |
| KernelEvents.NextOk | kernel/core/events/kernel_events.c:30-112 | a step of waiting, handling and scheduling keeps every waiting thread queued or about to see a new count, exactly unless it ends a thread while the old one has not exited or while the thread is still queued |
| KernelEvents.SectionOk | kernel/core/scheduler/scheduler.c:423-428 | a section of the scheduler keeps the invariant of all waiters exactly if a thread it ends is picked after the old one exited and is not queued any more |
| KernelEvents.NeverLost | kernel/core/events/kernel_events.c:88-112 | in every history a thread blocked in the wait call is queued for its type and no event of it was handled since it looked |
| KernelEvents.HistoryExactly | kernel/core/events/kernel_events.c:30-112 | the histories considered here are exactly those that never leave the invariant of the waiters |
| KernelEvents.NoLostWakeup | kernel/core/events/kernel_events.c:88-112 | a blocked waiter is queued and its sequence number is unchanged |
| KernelEvents.QueueFits | kernel/core/scheduler/scheduler.c:240-246 | a wait queue never fills up, so a push is never refused |
| KernelEvents.HandleOk | kernel/core/events/kernel_events.c:76-82 | handling an event keeps the invariant of all waiters, of this type and of the others |
| KernelEvents.HandleWakes | kernel/core/events/kernel_events.c:30-42 | handling one event empties the queue of its type and makes every waiter ready to return 1 |
| KernelEvents.HandleCounts | kernel/core/events/kernel_events.c:76-82 | handling an event adds one to the count of its type, empties its queue and touches no other type |
| KernelEvents.WakeAllOrder | kernel/core/events/kernel_events.c:30-42 | the blocked threads of a queue become ready in the order of the queue |
| KernelEvents.WaitStepOk | kernel/core/events/kernel_events.c:92-111 | each step of the wait call keeps the invariant, also after a wakeup that was not its own |
| KernelEvents.WaitIs | kernel/core/events/kernel_events.c:92-111 | a thread that finds its count unchanged is queued, then blocked with a decision due; one that finds it changed returns; no other thread is touched |
| EventLayer.Notifier.WakeWaiters | kernel/core/events/kernel_events.c:30-42 | pops the ring until it is empty and wakes every thread it held, first come first served |
| EventLayer.Notifier.HandleEvent | kernel/core/events/kernel_events.c:76-82 | counting and notifying on the rings is one step of the state machine |
| EventLayer.Notifier.Observe | kernel/core/events/kernel_events.c:94 | looking at the count is one step of the state machine |
| EventLayer.Notifier.EnqueueSelf | kernel/core/events/kernel_events.c:95-106 | the section that checks the count and pushes the thread into the ring is one step of the state machine |
| EventLayer.Notifier.ParkSelf | kernel/core/scheduler/scheduler.c:266-275 | the section that makes sure the thread is in the ring and blocks it is one step of the state machine |
| EventLayer.Notifier.CheckAgain | kernel/core/events/kernel_events.c:110 | the check after the wakeup is one step of the state machine |
| EventLayer.Boot | kernel/core/events/kernel_events.c:12-14 | the counters, rings and threads as they start satisfy the invariant of the state machine |
| Modules.LoadableFix | kernel/core/module/module.c:73-114 | the loadable modules are a fixpoint of: own init succeeds and every dependency resolves and is loadable |
| Modules.LoadableLeast | kernel/core/module/module.c:73-114 | the loadable modules are in every set closed under that rule |
| Modules.CycleNotLoadable | kernel/core/module/module.c:80-83 | a dependency on a module of the stack, or on itself, means the module is not loadable |
| Modules.Loader.constructor | kernel/core/module/module.c:24-40 | registers the valid descriptors in order, at most 32 |
| Modules.RegisteredAre | kernel/core/module/module.c:24-40 | the registered modules are the first 32 valid ones, in order |
| Modules.Loader.LoadIndex | kernel/core/module/module.c:73-114 | the recursion ends, and the module is loaded exactly when it is loadable and failed otherwise; each init is called at most once and after its dependencies |
| Modules.Loader.Load | kernel/core/module/module.c:116-123 | succeeds exactly for the name of a loadable module |
| Modules.Loader.FindNext | kernel/core/module/module.c:57-65 | finds the declared module of lowest priority value, the first of these |
| Modules.Loader.LoadAll | kernel/core/module/module.c:125-134 | with unique names it ends with every module loaded or failed, loaded exactly when loadable, and loaded + failed is the count; every turn takes a declared module of lowest priority value, the first of these |
| Modules.Loader.LoadSome | kernel/core/module/module.c:125-134 | the loop ends by itself exactly when no module has the name of an earlier one |
| Modules.LoadTwins | kernel/core/module/module.c:125-134 | with two valid descriptors of one name the loop is not over after any number of turns |
| Ipc.EnqueueIs | kernel/core/ipc/ipc.c:155-160 | writing behind the last slot of the ring appends the message to the queue |
| Ipc.DequeueIs | kernel/core/ipc/ipc.c:181-187 | advancing the head takes the first message off the queue |
| Ipc.RecvLog | kernel/core/ipc/ipc.c:181-187 | the message received is the next one sent, cut only to the room offered |
| Ipc.CloseStep | kernel/core/ipc/ipc.c:115-136 | closing a side leaves no handle dangling |
| Ipc.CreateStep | kernel/core/ipc/ipc.c:74-113 | a new channel gives each process one handle to it |
| Ipc.Kernel.FindEnd | kernel/core/ipc/ipc.c:36-46 | every non-zero handle resolves: it names an active channel with that process on an unclosed side |
| Ipc.Kernel.CreateChannel | kernel/core/ipc/ipc.c:74-113 | succeeds exactly when both processes are alive and different and there are free handles and a free channel; then both handles stand for the two ends of the first free channel; touches nothing else |
| Ipc.Kernel.CloseChannel | kernel/core/ipc/ipc.c:115-136 | closes exactly that side and gives up the handle; the channel is free exactly if the other side was closed before; its queues and the other side are unchanged |
| Ipc.Kernel.CloseBoth | kernel/core/ipc/ipc.c:115-163 | after one end is closed nothing can be sent to it, and after both the channel is free |
| Ipc.Kernel.SendMessage | kernel/core/ipc/ipc.c:138-163 | succeeds exactly for a message of a fitting size to an open side with fewer than eight messages waiting, and appends it; no other channel or direction changes |
| Ipc.Kernel.RecvMessage | kernel/core/ipc/ipc.c:165-190 | returns the oldest message sent to this side, cut only to the room; no other channel or direction changes |
| Ipc.Kernel.Poll | kernel/core/ipc/ipc.c:192-203 | the number of messages sent and not yet received |
| Ipc.Kernel.ExitProcess | kernel/core/ipc/ipc.c:205-234 | an exiting process keeps no handle, and no process keeps one to a channel it held; exactly its sides of these channels are closed, and such a channel is free exactly if the other side was closed before |
| Ipc.Kernel.ExitThenRun | kernel/core/ipc/ipc.c:205-234 | a channel whose other side was open is in use and without a handle after the exit, and after every run from there |
| Ipc.Kernel.StrandAll | kernel/core/ipc/ipc.c:74-234 | sixteen channels whose owners exit one after the other: no channel can be created any more |
| Ipc.Kernel.Run | kernel/core/ipc/ipc.c:74-234 | over every run each handle is valid and unique in its process, each side of every channel, open or closed, has received a prefix of what was sent, and a channel in use without a handle stays so |

## Left out

- Device errors, long file names, FSInfo, mounting from raw sectors and the locks of the FAT32 driver.
- The console output of fat32_list and the copying loop of fat32_list_entries; only the rendering of a name is modelled.
- Attribute bits 12 to 62 of page-table entries, CR3 and TLB instructions, and mapping regions after boot.
- The parsing of the memory map from bytes: descriptors are records.
- Heap.KernelHeap.Free: a pointer whose preceding words a client has made to look like the header of a block in use must be the payload of a block, because the code takes those words for the header.
- Exact used-byte accounting in the heap: the code adds the request and subtracts the enlarged size.
- Scheduler.Threads.Run: a run that picks a thread whose process is gone before the old thread has exited leaves the invariant and is not followed further.
- KernelEvents.NeverLost: a history is not followed past a step that breaks the invariant; KernelEvents.NextOk says exactly which steps do.
- Paging.AddressSpaces.Lifecycle: the free set is tied to the bitmap call by call (Paging.TakeFromBoth, Paging.GiveToBoth), not by holding the page manager in the class.
- Saved stacks, context switching in assembly, run-time counters and the watchdog of the scheduler.
- Wrap-around of the 64-bit event, sequence and thread counters.
- The dispatch of events to drivers and the budget of 128 events per drain.
- Modules.Loader.LoadIndex: init functions that load further modules themselves are not modelled, so the loading state is never seen.
- User page mapping of processes, the ELF loader, the virtual file system, drivers, the graphical interface and the shell: hardware, tables or string handling.

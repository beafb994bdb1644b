# AetherOS core, verified in Dafny

A model of the hard parts of the AetherOS kernel (a small x86-64 kernel in C), with proofs: the writable ext2
driver and path resolution, the physical page allocator, the four-level page tables and address spaces, the ELF
loader, the kernel heap, and the SMP scheduler with its mutexes and process wait. `dafny verify dfyconfig.toml`
checks the whole project.

How the files fit together:

- `Machine`, `Bytes`, `Paths`: word widths and the page size; little-endian fields in byte buffers; paths as components.
- `Ext2Map` (block map and ownership as values), `Ext2Volume` (bitmaps, counters, the `Volume` class), `Ext2File`
  (write, read, truncate), `Ext2Dirent` (packed records of one block), `Ext2Dir` (a directory as a map), `Ext2Names`
  (the name space: lookup, create, unlink, rename), `Ext2Format` (a freshly formatted volume that meets all of the
  invariants).
- `VfsPath`: the path normaliser `vfs_resolve`, and the laws of what it evaluates.
- `HeapLayout` (tiling, free list, coalescing as values), `Heap` (the `KernelHeap` class).
- `SchedModel` (the protocol as steps, one per spinlock critical section or unlocked access), `SchedInv` (what every
  step keeps), `SchedRuns` (whole runs from boot), `SchedKernel` (the linked lists and arrays of the kernel, each
  method refining one step).
- `Pmm` (the page bitmap), `Paging` (tables, walks and the forest of spaces as values), `Access` (the rights that all
  entries of a walk grant together), `Teardown` (the frames of a space as a tree), `Vmm` (the `MemoryManager` class),
  `Spaces` (translations, isolation, the life of a space).
- `ElfImage` (headers and page images), `Elf` (the loader).

The main results, in the kernel's terms:

- ext2: a write that returns its full size and ends below 2^32 reads back exactly, and the byte view of every other
  position of every file is unchanged; every run of writes (full, short, out of space) and truncates keeps each block in
  one slot of one inode and marked used; group and superblock counts stay equal to the clear bits; a directory is a map from names to
  inodes whose records tile their blocks; rename, create and unlink succeed exactly when stated, change exactly the
  names they should, and leave every file but the parents and the one removed, its inode and its contents, alone.
- Heap: blocks tile the heap, the free list is exactly the free blocks with right links, neighbours are never both
  free, live payloads are disjoint, large enough and 8-byte aligned, through every run of allocations and frees;
  `kmalloc` returns NULL in exactly the stated cases.
- Scheduler: under every interleaving on any number of CPUs no thread is in two places, dead threads are freed once and
  only when linked nowhere, mutexes exclude and lose no wake-up, process wait wakes each waiter exactly once, and the
  run queue is round robin.
- Memory: page tables refine a map from pages to frames; spaces are isolated, and through any later operations keep
  translating as the kernel does under every kernel slot present at their creation; a mapped page has user and write
  access exactly if its flags and every table on its way grant it; creating, filling and destroying a space conserves
  every frame; each page of a loaded ELF image reads, from user mode, as the last program header that takes it says,
  and every frame taken is accounted for.

Where the code and its own words differ, the code is followed, with the exact condition and a failing case:

- The heap's comment promises 16-byte alignment, which the 40-byte header defeats (`FirstPayload`): a payload is
  16-byte aligned exactly when an odd number of the blocks below it have an odd multiple of 8 for their size
  (`LiveAligned`, `Kmalloc`).
- The page count of `kmalloc` wraps for requests near 2^64, which then get NULL without an expansion
  (`WrappedRequest`; `PageCountWraps` in `Kmalloc`).
- Truncate and unlink leave a double-indirect tree allocated: `ReleasesAllIff` says exactly when nothing is left, and
  `WriteThenTruncate` reaches the other case.
- A rename onto another name of the same inode succeeds and leaves the old name (`Rename`, `RenameToSelf`).
- A read stops at a missing pointer block instead of giving zeros, as it does for a hole under one that is there
  (`ReadsInFull` says exactly when it is complete; `ReadPastHole`, `ReadsThroughHoles`).
- `free_block` and `free_inode` count a number that is free already once more: the counters stay right exactly when it
  was in use (`FreeBlock`, `FreeInode`).
- The block number of a file position is cut to 32 bits, so that a write past 2^32 blocks goes on at the start of the
  file: `Write` says where every byte goes, `CoversOwnRange` exactly when that is its own range, and `WriteWraps` is a
  write that is not.
- `i_size` is cut to 32 bits: a completed write reads back if and only if it ends below 2^32 (`WriteThenRead`). With
  4 KiB blocks a file goes further (`DoubleRangePast4GiB`).
- The driver does not look at the mode of a parent: what is not a directory keeps inode and contents under `Create`
  and `Unlink` if and only if the parent is a directory, and under `Rename` if and only if both are.
  `CreateBelowFile` puts a directory record into a regular file.
- A page that two program headers take holds what the last one says (`LastRead` in `Load`), and each page load that maps
  no new page loses exactly one frame (`Lost` in `Load`).

Modelling choices:

- Device transfers and the driver's own `kmalloc` calls succeed. The superblock, group descriptors, bitmaps and inode
  table are records and bit sequences beside the data blocks; that file operations never touch blocks outside the files
  is proved (`ReservedKept` in the contracts). Bitmap padding bits are set, as mkfs leaves them.
- Words of the page bitmap are their 64 bits. Page-table entries are 64-bit numbers with explicit decoding; flags are
  bits outside the address field. A frame holds a table or bytes. Zeroing a table or a page is one assignment.
- `expand` of the heap is told by a parameter whether the page and its mapping are granted; the heap never grows past
  the 64 GiB that the page allocator tracks. The header's magic number is the presence of a header at that address.
- Scheduler critical sections are atomic steps. Thread numbers are not reused; the set of mutexes and processes is
  fixed; idle threads take no protocol steps.
- `elf_load` gets its image as a byte string; a null image is the empty one. Its failure paths keep the new space, as in
  the source, which does not destroy it.

## Model

| member | source | states |
|---|---|---|
| Ext2Volume.BlockNumbering | kernel/fs/ext2.c:305-320 | free_block's group and bit of a block number invert alloc_block's numbering, both ways |
| Ext2Volume.GroupsCoverVolume | kernel/fs/ext2.c:273-288 | the scan gives each group at least one and at most the regular number of blocks, and all together exactly s_blocks_count numbers from s_first_data_block on |
| Ext2Volume.InodeNumbering | kernel/fs/ext2.c:371-381 | the same for inodes, whose numbers start at 1 |
| Ext2Volume.FlipBlockCounts | kernel/fs/ext2.c:295-303 | setting or clearing one block bit with its counters keeps every group count equal to its clear bits and the superblock count equal to the sum |
| Ext2Volume.FlipInodeCounts | kernel/fs/ext2.c:361-369 | the same for inode bits |
| Bytes.FirstClear | kernel/fs/ext2.c:289-293 | the bit scan finds the first clear bit, or none |
| Ext2Volume.Volume.AllocBlock | kernel/fs/ext2.c:271-312 | fails exactly when no block is free, changing nothing; else exactly one unused block becomes used, zeroed, and counted at every level |
| Ext2Volume.Volume.FreeBlock | kernel/fs/ext2.c:315-338 | exactly that block becomes unused and the counters follow at every level; a number before the first data block is ignored; the counters stay right if and only if the block was in use or ignored |
| Ext2Volume.Volume.AllocInode | kernel/fs/ext2.c:341-374 | fails exactly when no inode is free; else exactly one unused inode becomes live |
| Ext2Volume.Volume.FreeInode | kernel/fs/ext2.c:377-399 | exactly that inode stops being live and the counters follow; numbers 0 and 1 are ignored; the counters stay right if and only if the inode was in use or ignored |
| Ext2Map.DataSlotInjective | kernel/fs/ext2.c:682-705 | different logical blocks use different slots of the direct, indirect and double-indirect map |
| Ext2Map.RowByRow | kernel/fs/ext2.c:690-700 | the double-indirect range is numbered row by row: index 12 + n + row * n + column is entry `column` of the block in entry `row` |
| Ext2Map.ChunkPlace | kernel/fs/ext2.c:678-679 | a chunk that stays in its block covers exactly the positions of the range, by slot and offset |
| Ext2Map.OneSlotPerBlock | kernel/fs/ext2.c:800-876 | a block reachable from live inodes sits in one slot of one inode and is marked used |
| Ext2Map.Attach | kernel/fs/ext2.c:800-876 | filling an empty slot with a fresh zeroed block keeps ownership, only adds pointers, and no file reads differently |
| Ext2Map.AttachRoot | kernel/fs/ext2.c:800-815 | the same for a pointer in i_block |
| Ext2Map.AttachEntry | kernel/fs/ext2.c:821-829 | the same for an entry of a pointer block that is itself a block of the file |
| Ext2Map.WriteData | kernel/fs/ext2.c:881-887 | storing a data block changes the contents of its own slot of its own file and nothing else |
| Bytes.GetIsValue | kernel/fs/ext2.c:83-89 | the 16-, 32- and 64-bit accessors read their bytes as a little-endian number, the first byte counting ones |
| Bytes.LowByteFirst | kernel/fs/ext2.c:83-89 | a byte followed by zeros has its own value at every width |
| Ext2File.EnsureRoot | kernel/fs/ext2.c:800-815 | i_block[r] holds a block afterwards unless the volume is full; ownership and all contents kept |
| Ext2File.EnsureEntry | kernel/fs/ext2.c:816-830 | an entry of an indirect block holds a block afterwards unless the volume is full; ownership and all contents kept |
| Ext2File.MapSingle | kernel/fs/ext2.c:807-830 | the single-indirect case, with up to two allocations |
| Ext2File.MapDouble | kernel/fs/ext2.c:831-876 | the double-indirect case, with up to three allocations, any of which may fail |
| Ext2File.MapIndex | kernel/fs/ext2.c:797-879 | the block of a logical index is found or made; 0 only when the volume is full or the index is past the double-indirect range |
| Ext2File.WriteChunk | kernel/fs/ext2.c:792-889 | one round of the loop: exactly one data block of one file changes, by the bytes of the chunk |
| Ext2File.WrittenStep | kernel/fs/ext2.c:791-890 | a stored chunk extends the written prefix and leaves every other position alone |
| Ext2File.CoversOwnRange | kernel/fs/ext2.c:791-795 | a write covers its own range of positions if and only if it ends within 2^32 blocks |
| Ext2File.CutIndex | kernel/fs/ext2.c:792-793 | the block number and offset computed with the 64- and 32-bit casts are those of the position cut at 2^32 blocks |
| Ext2File.CoversNext | kernel/fs/ext2.c:791-795 | the next chunk of a write holds exactly its next bytes, counting round at 2^32 blocks |
| Ext2File.NotWrittenBack | kernel/fs/ext2.c:893-906 | a write that stored nothing leaves the old inode in place, and ownership still holds |
| Ext2File.Write | kernel/fs/ext2.c:778-908 | for any offset and buffer: a prefix is stored, all of it unless out of space or range, byte i at the position off + i cut at 2^32 blocks; no other byte of any file changes; the size is the new end cut to 32 bits, and below 2^32 the larger of that and the old size; ownership, counters and reserved blocks are right |
| Ext2File.WriteWraps | kernel/fs/ext2.c:791-795 | a write at block 2^32 of a file lands in its first block |
| Ext2File.Walk | kernel/fs/ext2.c:682-705 | the read's walk gives up if and only if, by the pointers, the indirect block, the double-indirect block or its row is missing or the index is past the range; otherwise it finds the slot's block, or 0 for a hole |
| Ext2File.Read | kernel/fs/ext2.c:663-722 | the result is the byte view of the range, cut at the end of the file or at the first position to which no pointer block leads |
| Ext2File.ReadsInFull | kernel/fs/ext2.c:681-717 | a read is complete if and only if a pointer block leads to every position of its range; a hole in it reads as zeros |
| Ext2File.ReadsThroughHoles | kernel/fs/ext2.c:709-711 | with all pointer blocks in place any read in range is complete, and 0 wherever nothing is mapped |
| Ext2File.AvailableExactly | kernel/fs/ext2.c:668-670 | a read asks for exactly the positions of its range that lie before the end of the file |
| Ext2File.ReadBack | kernel/fs/ext2.c:663-722 | after a completed write the walk cannot give up inside the range, so the read returns the buffer |
| Ext2File.WriteThenRead | kernel/fs/ext2.c:663-908 | a write that returns the full size is read back exactly if and only if it ends below 2^32 |
| Ext2File.NewSizeFits | kernel/fs/ext2.c:893-896 | i_size reaches the end of a write if and only if that is below 2^32 |
| Ext2File.NewSizeIs | kernel/fs/ext2.c:893-896 | i_size never shrinks and grows to the end of the write if that is below 2^32, and is cut to 32 bits otherwise |
| Ext2File.DoubleRangePast4GiB | kernel/fs/ext2.c:831-832 | with 4 KiB blocks the double-indirect range ends past 2^32 |
| Ext2File.ReadPastHole | kernel/fs/ext2.c:682-705 | a file without an indirect block reads exactly up to the end of its twelve direct blocks, whatever its size |
| Ext2File.FreeDirect | kernel/fs/ext2.c:916-921 | frees exactly the direct blocks, each once |
| Ext2File.FreeIndirect | kernel/fs/ext2.c:922-936 | frees exactly the blocks of the indirect block and the block itself, each once |
| Ext2File.ReleasedCount | kernel/fs/ext2.c:916-936 | the released blocks are all distinct, so the free count rises by their number |
| Ext2File.KeptAfterRelease | kernel/fs/ext2.c:910-940 | every block still referenced after the release is still used and in its one slot |
| Ext2File.ReleasesAllIff | kernel/fs/ext2.c:910-940 | truncation returns every block of the file if and only if i_block[13] is 0 |
| Ext2File.Truncate | kernel/fs/ext2.c:910-940 | size 0, direct and single-indirect blocks released and counted, no other file touched |
| Ext2File.WriteThenTruncate | kernel/fs/ext2.c:778-940 | after a completed write into the double-indirect range, a truncated file has size 0 and still holds a used block |
| Ext2File.RunFileOps | kernel/fs/ext2.c:778-940 | any run of writes and truncates keeps counters, ownership and all blocks outside the files |
| Ext2Dirent.SearchStep | kernel/fs/ext2.c:428-436 | a valid record advances the walk inside the block, and decides the search or leaves it to the rest |
| Ext2Dirent.RecordSizeLeast | kernel/fs/ext2.c:432-432 | a record takes the least multiple of four bytes that holds header and name |
| Ext2Dirent.RecordDecodes | kernel/fs/ext2.c:83-89 | a record laid out field by field in the on-disk order is valid and reads as its inode, length and name |
| Ext2Dirent.FindInBlock | kernel/fs/ext2.c:604-619 | on any bytes: terminates inside the block with the inode of the first live record of that name, or 0 |
| Ext2Dirent.ReplaceRecord | kernel/fs/ext2.c:459-492 | rewriting the bytes of one record leaves all other records as they were |
| Ext2Dirent.ReplaceTiled | kernel/fs/ext2.c:459-492 | records that take the exact place of one record leave the block tiled by its records |
| Ext2Dirent.Deleted | kernel/fs/ext2.c:542-548 | zeroing the inode of a live record takes exactly its pair out of the list of names, leaves its place usable, and keeps the tiling |
| Ext2Dirent.Reused | kernel/fs/ext2.c:463-472 | reusing a deleted record puts exactly the new pair into the list and keeps the tiling |
| Ext2Dirent.Appended | kernel/fs/ext2.c:474-489 | splitting the last record puts exactly the new pair into the list and keeps the tiling |
| Ext2Dirent.RemoveInBlock | kernel/fs/ext2.c:538-550 | succeeds exactly when the name is in the block, and removes the first pair with it; the records still tile the block |
| Ext2Dirent.AddInBlock | kernel/fs/ext2.c:457-492 | succeeds exactly when a deleted record or the last slack fits, and inserts the pair; the records still tile the block |
| Ext2Dirent.FreshNames | kernel/fs/ext2.c:499-506 | a new directory block holds exactly the one pair, in a record that covers it |
| Ext2Dirent.FreshRoom | kernel/fs/ext2.c:474-489 | a block with one record takes another if and only if the two fit the block together |
| Ext2Dir.MapOf | kernel/fs/ext2.c:604-619 | a list without repeated names is a map, and searching it is lookup |
| Ext2Dir.GetIsMap | kernel/fs/ext2.c:604-619 | also with repeated names, a search is lookup in the map of first occurrences |
| Ext2Dir.InsertIsUpdate | kernel/fs/ext2.c:439-521 | inserting an absent name is a map update and keeps names unique |
| Ext2Dir.RemoveIsDelete | kernel/fs/ext2.c:524-554 | removing a pair is a map deletion and keeps names unique |
| Ext2Dir.FindInDir | kernel/fs/ext2.c:639-647 | the search over the direct blocks of any live inode is map lookup |
| Ext2Dir.LocateName | kernel/fs/ext2.c:533-551 | finds the block whose record goes, exactly when the name is there |
| Ext2Dir.RemoveEntry | kernel/fs/ext2.c:524-554 | of any live inode: the first record of the name goes and other names stay; fails exactly when the name is absent; in a well-formed directory this is map deletion, names stay unique and records tile their blocks |
| Ext2Dir.LocateRoom | kernel/fs/ext2.c:452-493 | the first block with room, or that none has any |
| Ext2Dir.AddBlock | kernel/fs/ext2.c:495-520 | a new block is attached at the first unused direct slot exactly when one is free and there is one; else nothing changes; a packed, tiled directory stays so |
| Ext2Dir.AddEntry | kernel/fs/ext2.c:439-521 | to any live inode: succeeds exactly when there is room or a block to be had; an absent name is found afterwards and other names stay; a failure changes no list of names; in a well-formed directory this is map update, names stay unique and records tile their blocks |
| Ext2Dir.Appears | kernel/fs/ext2.c:604-619 | a name that was not in a list is found where it was put, whatever follows |
| Paths.PathSplit | kernel/fs/ext2.c:404-421 | for any non-empty path: the components are those of the parent and then the leaf; fails exactly for an empty or over-long leaf; a path without a slash loses its first byte |
| Paths.CompsJoin | kernel/fs/ext2.c:628-650 | the components of two paths joined by a slash are the components of both in turn |
| Ext2Names.ResolveLast | kernel/fs/ext2.c:628-650 | a path resolves by its last component in the directory that the others lead to |
| Ext2Names.Lookup | kernel/fs/ext2.c:621-654 | resolution of the components from the root through what a search finds in each live inode, directory or not; 0 when that fails |
| Ext2Names.PathInTree | kernel/fs/ext2.c:621-654 | for a path that leads only through directories, that is resolution in the name space, by its last component in its parent |
| Ext2Names.SplitAndFindParent | kernel/fs/ext2.c:945-949 | parent inode and leaf name of a path, and what the whole path resolves to by them |
| Ext2Names.NewInode | kernel/fs/ext2.c:954-964 | a fresh live inode, empty and named by nothing; fails exactly when no inode is free |
| Ext2Names.AddName | kernel/fs/ext2.c:966-969 | adding an entry binds one name in one directory of the name space, or changes only the one inode it was added to |
| Ext2Names.RemoveName | kernel/fs/ext2.c:1061-1061 | removing an entry unbinds one name, or changes only the one inode it was removed from |
| Ext2Names.Create | kernel/fs/ext2.c:942-971 | for a path through any live inodes: succeeds exactly when parent, absent leaf, inode and room are there; binds the name to a new empty file; a failure restores the inode; no file but the parent changes; what is not a directory keeps inode and contents if and only if the parent is a directory |
| Ext2Names.CreateBelowFile | kernel/fs/ext2.c:942-971 | below a regular file without blocks a file is created too, outside the name space, and its record goes into the regular file |
| Ext2Names.RegularIff | kernel/fs/ext2.c:948-969 | where one inode changes, all that is no directory is kept if and only if that inode is one |
| Ext2Names.DropLink | kernel/fs/ext2.c:1028-1059 | the last link returns the inode and its direct and single-indirect blocks; otherwise the count drops |
| Ext2Names.Unlink | kernel/fs/ext2.c:1018-1062 | of a regular file, by a path through any live inodes: succeeds exactly when the path resolves; exactly its name leaves the name space; the last link returns the inode and its blocks, else only the link count drops; no file but it and the parent changes; what else is not a directory keeps inode and contents if and only if the parent is a directory |
| Ext2Names.CreateThenUnlink | kernel/fs/ext2.c:942-1062 | restores the name space, the live inodes and the free-inode count |
| Ext2Names.PathInKeptDirectory | kernel/fs/ext2.c:621-654 | a path in a directory that a change keeps still resolves by that directory's entry |
| Ext2Names.RenamedResolves | kernel/fs/ext2.c:1097-1101 | after the move the new path leads to the file and the old one to nothing |
| Ext2Names.Rename | kernel/fs/ext2.c:1064-1132 | of a regular file, by paths through any live inodes: the exact condition for success; then exactly the two names change, or nothing if the new path named the inode already; through directories the new path then leads to the file, and the old one to nothing if and only if it did not; no file but the parents and the one replaced changes; what else is not a directory keeps inode and contents if and only if both parents are directories; a failure leaves the name space |
| Ext2Names.TargetChanged | kernel/fs/ext2.c:1089-1098 | the new parent changes by a rename whatever was removed from it before, because it has one more record of the moved name |
| Ext2Names.RenameToSelf | kernel/fs/ext2.c:1071-1073 | renaming a file to its own path succeeds and changes nothing |
| VfsPath.GuardNeverFires | kernel/fs/vfs.c:205-205 | a buffer larger than what is left to push makes the guarded evaluation the plain one |
| VfsPath.JoinedIsPrefix | kernel/fs/vfs.c:172-187 | the working buffer holds the first 511 bytes of the path meant, absolute or continuing the working directory; nothing is cut if and only if that path is below 512 bytes |
| VfsPath.WholeComps | kernel/fs/vfs.c:172-187 | the components of the path meant: those of an absolute path alone, else the working directory's and then the path's |
| VfsPath.EvalConcat | kernel/fs/vfs.c:189-210 | evaluating one list of components after another is evaluating both together |
| VfsPath.ParentOfChild | kernel/fs/vfs.c:197-203 | a name followed by ".." drops out, wherever the two stand |
| VfsPath.ParentOfRoot | kernel/fs/vfs.c:197-203 | ".." at the root drops out |
| VfsPath.SameDirectory | kernel/fs/vfs.c:195-196 | "." drops out |
| VfsPath.GuardStops | kernel/fs/vfs.c:205-205 | in a buffer of any size the result is the evaluation of the components before the first name that does not fit |
| VfsPath.NormalisedIsNormal | kernel/fs/vfs.c:166-213 | absolute, no empty, "." or ".." component, equal to the stack evaluation, no longer than the joined input, and a fixed point of normalising |
| VfsPath.PopLast | kernel/fs/vfs.c:198-203 | the in-place scan removes exactly the last component |
| VfsPath.PushName | kernel/fs/vfs.c:206-208 | appends a slash and the component |
| VfsPath.Component | kernel/fs/vfs.c:194-209 | one component acts on the buffer as one step of the stack evaluation |
| VfsPath.Resolve | kernel/fs/vfs.c:166-213 | the buffer ends up holding the guarded stack evaluation of the joined path, for any size; from 512 bytes on, and where the path meant is below 512 bytes, the plain evaluation of the components of an absolute path, or of the working directory and the path |
| HeapLayout.BlocksDisjoint | kernel/mem/heap.c:25-36 | blocks of a tiled heap do not overlap |
| HeapLayout.LiveDisjoint | kernel/mem/heap.c:25-36 | live payloads are disjoint, inside the heap, and reach no header |
| HeapLayout.Parity | kernel/mem/heap.c:126-127 | every block starts at a multiple of 8, and at a multiple of 16 exactly when an even number of the blocks below it have an odd multiple of 8 for their size |
| HeapLayout.LiveAligned | kernel/mem/heap.c:126-127 | every live payload is 8-byte aligned; the exact condition for 16, by the blocks below it |
| HeapLayout.LinkedWithout | kernel/mem/heap.c:48-60 | unlinking a block leaves a well-linked list of the others |
| HeapLayout.TiledSplit | kernel/mem/heap.c:152-168 | splitting a block keeps the tiling and every back link |
| HeapLayout.TiledMerge | kernel/mem/heap.c:203-210 | merging two neighbours keeps the tiling and every back link |
| Heap.KernelHeap.constructor | kernel/mem/heap.c:104-108 | the empty heap is well formed |
| Heap.KernelHeap.FreeListAdd | kernel/mem/heap.c:38-46 | the block becomes the head; links stay consistent |
| Heap.KernelHeap.FreeListRemove | kernel/mem/heap.c:48-60 | exactly that block leaves the list; links stay consistent |
| Heap.KernelHeap.Expand | kernel/mem/heap.c:72-102 | one page more: a trailing free block of the right size heads the list; a refusal changes nothing |
| Heap.KernelHeap.FirstFit | kernel/mem/heap.c:130-134 | NULL if and only if every listed block is too small; else a listed block that is large enough, with every one listed before it too small |
| Heap.FirstFitFits | kernel/mem/heap.c:130-134 | the search yields NULL if and only if every listed block is too small, and else the first that is not |
| Heap.RoomIsListed | kernel/mem/heap.c:130-134 | the search yields NULL if and only if no unused block of the heap is large enough |
| Heap.KernelHeap.Grow | kernel/mem/heap.c:136-142 | the expansions coalesce into one trailing block of at least that many pages; they fail exactly when fewer are granted |
| Heap.KernelHeap.CutTail | kernel/mem/heap.c:152-170 | the tail becomes a listed free block and the block comes off the list |
| Heap.KernelHeap.Take | kernel/mem/heap.c:152-176 | the block is live for exactly the caller; the rest stays free when it is worth a block |
| Heap.TotalBounds | kernel/mem/heap.c:124-137 | the size is rounded up to the next multiple of 16 plus the header and never overflows; the page count is 0 exactly when its sum wraps, and else the least that is enough |
| Heap.KernelHeap.Kmalloc | kernel/mem/heap.c:120-188 | NULL if and only if the size is 0 or too large, or no unused block has the rounded size and the page count wraps or too few pages are granted; how far a refused request grew the heap; the payload lies in the first listed block that fits, or, only if none does, in the block that growth makes; the new allocation and no other; 8-byte alignment, and the exact condition for 16 by the blocks below the place, before the call |
| Heap.FirstPayload | kernel/mem/heap.c:127-127 | the first allocation of a fresh heap is 8 past a multiple of 16 |
| Heap.WrappedRequest | kernel/mem/heap.c:136-150 | a request whose page count wraps gets NULL on every heap, without growing it; the largest request that passes the overflow test is one |
| Heap.KernelHeap.JoinNext | kernel/mem/heap.c:199-211 | the freed block absorbs a free successor |
| Heap.KernelHeap.JoinPrev | kernel/mem/heap.c:213-226 | a free predecessor absorbs the freed block |
| Heap.KernelHeap.Kfree | kernel/mem/heap.c:191-239 | for any address: ends exactly the given allocation and keeps the heap well formed; panics exactly where no block in use starts |
| Heap.RunHeap | kernel/mem/heap.c:120-239 | every run of allocations, refused or not, and frees keeps the heap well formed and live payloads disjoint and 8-byte aligned |
| SchedInv.CoreSwitch | kernel/sched/sched.c:185-206 | a context switch keeps CPUs, run queue, states and reap slots right, and takes the head of the queue |
| SchedInv.LockBlock | kernel/sync/mutex.c:13-19 | blocking on a locked mutex keeps the waiting protocol |
| SchedInv.LockTaken | kernel/sync/mutex.c:32-34 | taking a free mutex makes exactly the taker its holder and owner |
| SchedInv.LockHandedOn | kernel/sync/mutex.c:40-47 | unlocking pops one waiter, which then has yet to retest |
| SchedInv.ExitBlock | kernel/proc/process.c:79-83 | enqueueing on a live process is counted once for the thread |
| SchedInv.QueueDetached | kernel/proc/process.c:96-101 | exit empties the queue into one waker's hands |
| SchedInv.Woke | kernel/sched/sched.c:136-139 | a woken thread leaves the waker's hands and is counted once |
| SchedInv.KeepSwitch | kernel/sched/sched.c:185-206 | the switch keeps the whole invariant |
| SchedInv.KeepReap | kernel/sched/sched.c:148-161 | the reaper keeps the whole invariant |
| SchedInv.KeepLockTest | kernel/sync/mutex.c:10-35 | mutex_lock's section keeps the whole invariant |
| SchedInv.KeepTryLock | kernel/sync/mutex.c:53-64 | mutex_try_lock keeps the whole invariant |
| SchedInv.KeepUnlock | kernel/sync/mutex.c:37-51 | mutex_unlock's section keeps the whole invariant |
| SchedInv.KeepWaitTest | kernel/proc/process.c:75-90 | process_wait's section keeps the whole invariant |
| SchedInv.KeepMarkExited | kernel/proc/process.c:94-101 | process_mark_exited's section keeps the whole invariant |
| SchedInv.KeepWaker | kernel/proc/process.c:103-108 | reading the next link, ending the spin, and dying keep the whole invariant |
| SchedInv.KeepWakeEnqueue | kernel/sched/sched.c:125-140 | the locked part of sched_wake keeps the whole invariant |
| SchedInv.KeepCreate | kernel/sched/sched.c:106-111 | adding a new thread keeps the whole invariant |
| SchedInv.StepKeepsInv | kernel/sched/sched.c:125-208 | every step on any CPU keeps the whole invariant |
| SchedRuns.BootOk | kernel/sched/sched.c:82-94 | the state after boot on any number of CPUs satisfies the invariant |
| SchedRuns.RunKeepsInv | kernel/sched/sched.c:125-208 | so does every state of every run |
| SchedRuns.EveryRunIsSafe | kernel/sched/sched.c:33-208 | in every run: no thread current twice or queued twice, the run queue exactly the READY threads and all off-CPU, on_cpu exactly for current threads, mutual exclusion by the owner, no lost wake-up, every blocked thread on its list or in a waker's hands, exact process wait, freed at most once and dead or freed threads linked nowhere |
| SchedRuns.ReapIsSafe | kernel/sched/sched.c:146-161 | the thread freed is dead, off its CPU, linked nowhere and not freed before |
| SchedRuns.DeadIsFreed | kernel/sched/sched.c:146-192 | a dead thread is retired by its CPU's next switch and freed when that CPU reaps, whatever the others do between |
| SchedRuns.EndsAndIsFreed | kernel/sched/sched.c:146-192 | a thread that ends is off its CPU after one switch and freed once when that CPU reaps |
| SchedRuns.LockOutcome | kernel/sync/mutex.c:10-65 | lock and try-lock make the caller the one holder of a free mutex; on a locked one the holder stays, try-lock changes nothing and lock blocks the caller on it |
| SchedRuns.UnlockOutcome | kernel/sync/mutex.c:37-51 | unlock leaves the mutex free and held by nobody, and if threads waited, one of them is going to try again |
| SchedRuns.ExitOutcome | kernel/proc/process.c:75-109 | after an exit the process is marked and all its waiters are in a waker's hands; waiting for an exited process returns |
| SchedRuns.NoBlockAfterExit | kernel/proc/process.c:75-109 | no run enqueues a thread on an exited process |
| SchedRuns.AllWokenOnce | kernel/proc/process.c:94-109 | once the wakers are done, every thread ever enqueued on an exited process was woken exactly once |
| SchedRuns.SpinEnds | kernel/sched/sched.c:127-135 | one switch of the CPU that a blocked thread still occupies ends the waker's spin |
| SchedRuns.QueueStep | kernel/sched/sched.c:33-56 | a switch takes the head of the queue; every other step only appends, and a new or woken thread goes to the end |
| SchedRuns.RoundRobin | kernel/sched/sched.c:33-56 | a thread at index k of the run queue is current right after the (k+1)-th later switch, whatever happens in between |
| SchedKernel.ChainAppend | kernel/sched/sched.c:33-42 | writing the tail's link appends to the list |
| SchedKernel.ChainPop | kernel/sched/sched.c:44-56 | following the head's link drops the first element |
| SchedKernel.NextWritten | kernel/proc/process.c:103-108 | writing wait_next of a thread on no list leaves every wait list and every detached list intact |
| SchedKernel.WokenIsLoose | kernel/proc/process.c:104-106 | the thread being woken is on no list, so clearing its link is safe |
| SchedKernel.Kernel.constructor | kernel/sched/sched.c:82-94 | the boot data represents the boot state |
| SchedKernel.Kernel.RqAdd | kernel/sched/sched.c:33-42 | head, tail and links represent the queue with the thread appended |
| SchedKernel.Kernel.RqTake | kernel/sched/sched.c:44-56 | returns the first thread, or NULL, and leaves the rest |
| SchedKernel.Kernel.SchedAdd | kernel/sched/sched.c:106-111 | refines the creation step |
| SchedKernel.Kernel.Reap | kernel/sched/sched.c:148-161 | refines the reaping step |
| SchedKernel.Kernel.PutBack | kernel/sched/sched.c:185-192 | a preempted thread goes to the tail, a dead one to the reap slot |
| SchedKernel.Kernel.Switch | kernel/sched/sched.c:185-206 | refines the switching step: the queue is requeued and taken from, the reap slot filled, and CPU and on_cpu mark handed to the next thread |
| SchedKernel.Kernel.LockOrBlock | kernel/sync/mutex.c:12-34 | refines the locking step, on linked lists |
| SchedKernel.Kernel.TryLock | kernel/sync/mutex.c:53-64 | refines the try-lock step; true exactly when the mutex was free |
| SchedKernel.Kernel.Unlock | kernel/sync/mutex.c:39-49 | refines the unlocking step, popping the head of the list |
| SchedKernel.Kernel.WaitOrReturn | kernel/proc/process.c:78-89 | refines the waiting step |
| SchedKernel.Kernel.MarkExited | kernel/proc/process.c:96-101 | refines the exit step; the detached list stays a chain |
| SchedKernel.Kernel.NextToWake | kernel/proc/process.c:103-105 | refines one turn of the drain loop; the rest stays a chain |
| SchedKernel.Kernel.SpinOnce | kernel/sched/sched.c:133-135 | ends the spin exactly when on_cpu is false |
| SchedKernel.Kernel.Wake | kernel/sched/sched.c:136-139 | refines the enqueueing step |
| SchedKernel.Kernel.Die | kernel/sched/thread.c:161-164 | refines the dying step |
| Pmm.PageAllocator.constructor | kernel/mem/pmm.c:79-83 | all pages used |
| Pmm.PageAllocator.BitmapSet | kernel/mem/pmm.c:22-25 | exactly that page becomes used; the counter stays the number of clear bits |
| Pmm.PageAllocator.BitmapClear | kernel/mem/pmm.c:27-31 | exactly that page becomes free; the counter stays the number of clear bits |
| Pmm.PageAllocator.BitmapTest | kernel/mem/pmm.c:33-37 | true exactly for a used page |
| Pmm.PageAllocator.MarkRangeFree | kernel/mem/pmm.c:39-56 | exactly the pages wholly inside the range become free |
| Pmm.PageAllocator.MarkRangeUsed | kernel/mem/pmm.c:58-75 | exactly the pages that the range touches become used |
| Pmm.PageAllocator.Init | kernel/mem/pmm.c:77-121 | for any memory map, with 64-bit wrap-around: a page is free if and only if some usable range covers it and no reserved range touches it; panics exactly when none is |
| Pmm.PageAllocator.Alloc | kernel/mem/pmm.c:123-139 | the lowest free page; fails exactly when there is none |
| Pmm.PageAllocator.Free | kernel/mem/pmm.c:141-157 | exactly that page becomes free; panics exactly on a misaligned, out-of-range or already free page |
| Paging.EntryLayout | kernel/mem/vmm.c:188-188 | an entry put together from its bits decodes to them: present, writable, user, large, and the frame number in bits 12 to 51 |
| Paging.EntryFields | kernel/mem/vmm.c:188-188 | an entry made from an address and any flags outside the address field decodes to that frame, present, and large exactly by flag bit 7 |
| Paging.EntryFlags | kernel/mem/vmm.c:188-188 | it is writable and for user access exactly by flag bits 1 and 2 |
| Paging.PathIsPage | kernel/mem/vmm.c:55-58 | two addresses have the same four indices exactly when they are in the same page of the 48-bit space |
| Paging.RegionTranslates | kernel/mem/vmm.c:72-95 | all addresses of one 4 KiB, 2 MiB or 1 GiB page translate through its entry, to results as far apart as they are themselves; its first address to the entry's frame |
| Paging.WalkSame | kernel/mem/vmm.c:61-96 | a walk depends only on the slots of the tables that the forest says it visits |
| Paging.PutLocal | kernel/mem/vmm.c:188-188 | a slot write changes no walk that does not go through the slot |
| Paging.Arrives | kernel/mem/vmm.c:138-165 | a walk reaches every table that the forest has on its way |
| Paging.Grow | kernel/mem/vmm.c:117-133 | hanging an empty table into an absent slot keeps all tables in distinct frames and changes no walk from any root |
| Paging.PutLeaf | kernel/mem/vmm.c:188-188 | writing a lowest-level entry changes the walk of exactly that page, from exactly the roots that share its table |
| Paging.KernelShared | kernel/mem/vmm.c:246-248 | in a space that has the slot, kernel-half walks and translations are the kernel's |
| Paging.PutLeafLeaves | kernel/mem/vmm.c:337-337 | a user page's entry is the space's record of that page and of no other |
| Access.GrewTable | kernel/mem/vmm.c:218-234 | a new table changes no present entry above the lowest level, and its own entry is writable and for user access as asked |
| Access.RightsOfPage | kernel/mem/vmm.c:320-337 | after a map a page has a right, over all entries of its walk, if and only if its own entry and every table entry that was on the way before grant it and the new tables are made with it |
| Access.RightsKept | kernel/mem/vmm.c:320-337 | a page whose walk did not change keeps its rights over the whole walk, from every root |
| Access.StaysOpen | kernel/mem/vmm.c:320-337 | if all table entries of a space grant a right, they still do after tables are added, unless one without user access is added to it |
| Access.OpenRights | kernel/mem/vmm.c:320-337 | in such a space a user page has the right if and only if it is mapped with it |
| Vmm.MemoryManager.constructor | kernel/mem/vmm.c:36-51 | takes over boot tables that stand in distinct used frames |
| Vmm.MemoryManager.VirtToPhys | kernel/mem/vmm.c:53-97 | the four-level walk is the translation of the recursive definition; the whole 1 GiB, 2 MiB or 4 KiB page around the address is mapped in one piece from the entry's frame on |
| Vmm.MemoryManager.EnsureTable | kernel/mem/vmm.c:114-234 | the child table is there afterwards; no walk changes, tables stay distinct, the frame comes from the free set; upper entries that were there stay, and the new one is writable and has the extra flag; None only at a large page or without free frames |
| Vmm.MemoryManager.EnsurePath | kernel/mem/vmm.c:323-335 | the three levels above a page, added where absent with the flags asked for, any allocation of which may fail; entries that were there stay |
| Vmm.MemoryManager.Map | kernel/mem/vmm.c:167-191 | on success exactly the named page changes, in the kernel and where its slot is shared, and has exactly the rights that its flags and all entries of its walk grant; on failure no translation and no right does, and the cause is a large page or no free frame; every space keeps its kernel slots |
| Vmm.MemoryManager.PteFor | kernel/mem/vmm.c:138-165 | the lowest-level table on the walk, unless the walk ends before it |
| Vmm.MemoryManager.Unmap | kernel/mem/vmm.c:193-202 | succeeds exactly on a mapped 4 KiB page and unmaps exactly that page; every space keeps its kernel slots |
| Vmm.MemoryManager.Protect | kernel/mem/vmm.c:204-213 | succeeds exactly on a mapped 4 KiB page, which keeps its frame and gets the flags; every space keeps its kernel slots |
| Vmm.MemoryManager.SpaceMap | kernel/mem/vmm.c:305-339 | refuses the kernel half; on success exactly that page of that space changes, and it has user or write access over its whole walk if and only if the flags ask for it and every table already on the way grants it; no other page's rights change; on failure no translation and no right does; upper entries that were there stay, new ones are writable and for user access exactly if the flags are; frames move from the free set to the space, and a frame mapped there before to neither; every space keeps its kernel slots |
| Vmm.MemoryManager.SpaceCreate | kernel/mem/vmm.c:236-251 | empty user half, so that its tables grant every right, every kernel slot copied, kernel half as the kernel's, one frame taken; fails exactly without free frames; other spaces keep their kernel slots and their tables |
| Vmm.MemoryManager.FreeTable | kernel/mem/vmm.c:262-302 | frees exactly what hangs below a table and the table, each once, with no panic |
| Vmm.MemoryManager.FreeSlot | kernel/mem/vmm.c:291-297 | frees exactly what hangs below one slot; large pages do not occur in a space |
| Vmm.MemoryManager.SpaceDestroy | kernel/mem/vmm.c:253-303 | gives back exactly the frames of the space, each once; the counter rises by their number; a null or the kernel's root is left alone |
| Vmm.MemoryManager.FillPage | kernel/exec/elf.c:112-122 | writing a frame that holds no table changes no walk and no kernel slot |
| Teardown.SlotsApart | kernel/mem/vmm.c:262-302 | frames below one slot are apart from those below earlier slots and from the table |
| Teardown.OwnedIsBelow | kernel/mem/vmm.c:253-303 | the frames of a space are exactly those below its root |
| Teardown.SpaceGone | kernel/mem/vmm.c:253-303 | without a space's tables the rest is still a well-formed forest |
| Spaces.MapTranslates | kernel/mem/vmm.c:167-191 | a successful map is a map update of the kernel's translation at one 4 KiB page |
| Spaces.UnmapTranslates | kernel/mem/vmm.c:193-202 | a successful unmap is a map deletion |
| Spaces.ProtectTranslates | kernel/mem/vmm.c:204-213 | a successful protect changes no translation, in the kernel or in any space |
| Spaces.MapIsShared | kernel/mem/vmm.c:167-251 | a kernel mapping under a slot present when a space was created gives the same translation in the space |
| Spaces.SharedForLife | kernel/mem/vmm.c:167-339 | create a space, then any run of kernel maps, unmaps and protects, creations, page maps and destructions of other spaces: every address under a kernel slot present at its creation translates in the space as in the kernel; a page of its user half is writable over its whole walk exactly if mapped so, and for user access exactly if mapped so provided every map into the space asked for it |
| Spaces.OpenDecides | kernel/mem/vmm.c:320-337 | in a space whose tables all grant a right the entry of each user page alone decides it |
| Spaces.Isolation | kernel/mem/vmm.c:305-339 | a space's map changes no translation in any other space and no kernel-half translation anywhere |
| Spaces.MappedIffWalks | kernel/mem/vmm.c:305-339 | a user page is recorded as mapped exactly when it translates, and to that frame |
| Spaces.Lifecycle | kernel/mem/vmm.c:236-339 | create, any successful and failed maps of distinct pages with fresh frames holding any bytes, destroy: the free set and the counter are as before |
| ElfImage.PageHolds | kernel/exec/elf.c:100-125 | page by page the copies hold the file byte at the offset, or 0 past p_filesz |
| ElfImage.SegmentDecodes | include/os/elf64.h:41-50 | a program header laid out field by field in the gABI's order is read as the segment it describes |
| ElfImage.HeaderDecodes | include/os/elf64.h:24-39 | a file header laid out so is read so, and accepted exactly for a 64-bit x86-64 executable with program headers |
| ElfImage.PagesExact | kernel/exec/elf.c:88-101 | a segment takes no page past that of its last byte |
| Elf.OffsetWraps | kernel/exec/elf.c:62-70 | the 64-bit header check passes exactly when the header lies inside the image |
| Elf.SegmentChecks | kernel/exec/elf.c:77-99 | the 64-bit segment checks pass exactly when file data and addresses are in range |
| Elf.LoadPage | kernel/exec/elf.c:106-130 | one page is taken, filled and mapped, and all pages loaded before keep their bytes; exactly the frame mapped there before is lost, or the new one if it cannot be mapped |
| Elf.LoadSegment | kernel/exec/elf.c:100-131 | every page of the segment holds its image; other pages keep theirs, and all tables of the space grant user and write access; each page load that maps no new page loses one frame; fails only without free frames |
| Elf.LoadSegments | kernel/exec/elf.c:61-132 | all segments in turn, for any byte string: each page holds the image of the last segment that takes it; as many frames are lost as page loads mapped no new page; fails only on a malformed image or without free frames |
| Elf.NextSegment | kernel/exec/elf.c:61-132 | one more segment: its pages hold its image, and every other page that of the last segment before |
| Elf.NextHeader | kernel/exec/elf.c:61-99 | a program header is refused only in a malformed image; one that is taken is loadable and in range |
| Elf.LoadStack | kernel/exec/elf.c:134-148 | four zeroed writable pages below the stack top; pages mapped before lose their frames |
| Elf.HeldReads | kernel/mem/vmm.c:53-97 | reading an address through the tables gives the byte of the page loaded there |
| Elf.HeldMapped | kernel/exec/elf.c:84-86 | a loaded page is accessible from user mode over its whole walk, and writable exactly if its flags say so |
| Elf.Load | kernel/exec/elf.c:22-154 | for any byte string: on success every address below the stack reads as the last segment on its page says, file byte or 0, every segment address if no two share a page, and the stack as 0; all of it from user mode, and writable exactly where the segment is, over all entries of the walk; frames taken are the new space's, but for one per page load that mapped no new page; the failures are a malformed image or no free frame, and lose at most one frame more; no read leaves the image |
| Elf.LoadThenDestroy | kernel/test/test_userspace.c:24-39 | loading and then destroying the space restores the free set and the counter but for the lost frames, of which there are none where segments share no page |

## Left out

- Device errors and failing `kmalloc` inside the ext2 driver, `ext2_mount`, and the byte layout of superblock, descriptors and inodes: they would only add error paths and field copies.
- `ext2_mkdir`, `ext2_list_dir`, chmod, chown, timestamps and `i_blocks`: they only add easy members or are not kept up by the code.
- Renaming a directory, with its `..` update, and unlinking a directory: the source itself does not keep link counts and the tree right there.
- Rename: the moved inode is a regular file; a target that is a regular file is not itself read as a parent of one of the paths.
- Unlink: the path leads to a regular file or nothing, and not to the file that is read as its own parent.
- CreateThenUnlink: the path leads through directories.
- Create: paths are absolute and below the 256-byte buffers of the callers, and lead through live inodes, as for Lookup.
- Lookup: components are at most 255 bytes and are looked up in live inodes; the source cuts longer component lengths to eight bits and reads any inode number.
- SplitAndFindParent: as for Lookup, for absolute paths below the 256-byte buffers of its callers.
- FreeBlock: numbers past the volume, whose group descriptor does not exist, are not modelled.
- FreeInode: numbers past the inode table are not modelled.
- KeepUnlock: only the holder unlocks; the source does not check, and mutual exclusion needs it.
- Unlock: as for KeepUnlock.
- Sleeping, `process_kill`, `process_reap`, process identifiers, saved stack pointers and interrupt state: outside the protocol that the steps model.
- Liveness of the scheduler beyond the round-robin bound and the end of each spin.
- The LAPIC, CR3 switches, TLB invalidation and the direct-map bounds check of page tables, whose frames are always inside it.
- Map: flags inside the address field, which would change the frame, are excluded; Protect and SpaceMap likewise.
- SpaceDestroy: frames mapped in the user half of a space are its own; the source frees them unchecked.
- EnsureTable: zeroing the new table is one assignment instead of a loop.
- Load: a failed load keeps the partly filled space, as the source does.
- User-space malloc, pipes, credentials, networking, drivers, the shell and the graphical interface.

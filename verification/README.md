# A model of rCore's file system, address spaces and processes

This project models three parts of the rCore teaching kernel and proves what they promise over
every run:

- **easy-fs**, a file system over 512-byte blocks: the block cache, the bitmaps, the inode tree
  with direct, single-indirect and double-indirect blocks, the directory, and the `Inode`
  operations. The main result (`FsRuns.Run`) is that every run of writes, clears, creations, links,
  unlinks, reads and lookups on disk blocks gives the answers of the same run on plain byte
  sequences and leaves its bytes, while the set bits of the data bitmap stay the disjoint union of
  all files' blocks and no more than three cache entries are ever held at once. From formatting on,
  a run whose links are all flushed is found again, to the byte, by a remount
  (`Durability.FormatRunRemount`). What is written is what is read later (`FileLaws.ReadBack`).
- **virtual memory**: the frame allocator, the three-level Sv39 page table, map areas, memory sets,
  `fork`'s copy of an address space, and user buffers. The main result (`Worlds.World.Run`) is that
  every run of area insertions and removals, stores, loads, forks, exits and reapings by any number
  of processes over shared frames gives each process the answers and the contents of a memory of
  its own, that every frame in use has exactly one owner, and that the kernel's own frames are left
  alone. A process gets from such a run what it would get alone (`PrivateMemories.AsIfAlone`), and
  loads what it stored (`MemoryLaws.LoadBack`).
- **processes**: fork, spawn, yield, exit with reparenting, waitpid, priorities and the stride
  scheduler. The main results are that every run of system calls follows a specification of the
  whole state and keeps the process tree and the ready queue intact (`Kernels.Kernel.Run`), that
  an exit code waits for the parent and is delivered once (`ExitCodes.ExitCodeIsDelivered`), that a
  parent that waits does collect it, at once by pid and in its turn otherwise
  (`ExitCodes.CollectedInTurn`), that turns follow priorities (`Strides.SharesByPriority`), and
  exactly when a waiting task is served while all tasks yield (`Strides.ServedExactly`).

The modules follow the source. Objects whose methods update fields are classes
(`BlockCacheManager`, `DiskInode`, `EasyFileSystem`, `Inode`, `Machine`, `PageTable`, `MemorySet`,
`World`, `Task`, `Kernel`), loops are loops, and each method is proved against a function or
relation on values; the theorems about runs are then theorems about those values.

| part | files |
|---|---|
| all | Basics |
| easy-fs | Bytes, BlockCache, Bitmap, Layout, Files, DiskInode, InodeTable, Geometry, FsState, EasyFs, Directory, FsSpec, DirSpec, Vfs, Runs, FileLaws, Durability |
| virtual memory | Pages, Frames, PageTables, Spaces, MemorySets, MemorySet, Fork, PrivateMemory, Views, Reclaim, SpaceSteps, World, MemoryLaws, Refusal, UserBuffer |
| processes | Stride, Tasks, Kernel, ExitCodes, Schedules |

How the source's world is represented: a block is 512 bytes and a frame 512 words; raw casts of a
block become little-endian encode and decode functions; a cache handle is held from `Acquire` to
`Release`, and the device keeps its copy of the block for as long; taking a block twice (a
self-deadlock on its lock) and running out of victims are excluded by preconditions that every
caller discharges; physical memory is a sequence of frames;
running out of frames, where the kernel unwraps a `None` and stops, is a `None` result together
with the fact that no frame is free; a context switch is one step.

## Findings

- `find("")` and `unlink("")` match a blanked directory entry, whose inode number is 0, the root.
  `unlink("")` with exactly one blank entry therefore clears the root directory.
  `DirSpec.UnlinkKeepsOtherNames` says exactly when an unlink keeps all other names, and
  `DirSpec.EmptyNameLosesAFile` is an instance where it does not.
- A refused `push` frees the frames of the pages it had mapped before the conflict but leaves their
  entries in the page table. `AddressSpaces.MemorySet.Push` says exactly when the set is intact
  after a refusal: when the first page was the one already mapped. `Refusals.TornArea` is an
  instance: with page 1 mapped, an area of the pages 0 and 1 leaves page 0 leading to a free frame.
  With all processes there (`Worlds.World.Insert`), every frame in use still has one owner after
  such a refusal, but the torn page leads to a frame that its process does not own. Whatever the
  others then do (`Refusals.OthersGoOn`), that frame is free or one of theirs, and once no frame is
  free it is one of theirs. In `Refusals.SharedFrame` page 0 of one space is page 0 of the next.
- A priority above `BIG_STRIDE` makes a turn cost nothing, so every task with a larger stride waits
  for as long as all tasks only yield; the wait ends if the task in front exits or lowers its
  priority. `Strides.ServedExactly` gives the exact condition for runs of yields; in
  `Schedules.Starvation`, a run from boot, the child starves initproc. `sys_set_priority` checks
  only the lower bound.
- A new task starts at stride 0, so the spread of strides is not kept by fork and spawn;
  `Strides.SpreadWithNew` and `Kernels.Kernel.Do` say exactly when it is, and in
  `Schedules.LateFork`, a run from boot, it is not.
- `link` is the one change to the file system that does not end with a flush of the cache.
  A device that is current stays so over every run in which each link is followed by a flush
  (`FsRuns.Run`, `FsRuns.CurrentAfterMeans`). Among the runs that read no file whose inode lies in
  another block than the root's, only those leave it current. A read elsewhere may evict the blocks of a link, and
  eviction writes them back: sixteen blocks that are not cached are enough
  (`Durability.ReadsBringTheLink`). In `Durability.LostLink` the system has two names for a file,
  and open finds one.
- `translate_va` does not check the entry it finds. `UserBuffers.TranslateExactly` says which
  addresses translate, and in `UserBuffers.TranslatesUnmapped` one does that is not mapped.
- The comment on `TaskManager` calls it a FIFO scheduler; the code, and this model, pick the first
  task of least stride.

## Model

| member | source | states |
|---|---|---|
| BlockCaches.BlockCacheManager.Acquire | easy-fs/src/block_cache.rs:91-122 | a hit or a load after eviction returns the queue's own entry for the block and leaves the logical disk unchanged |
| BlockCaches.BlockCacheManager.VictimExists | easy-fs/src/block_cache.rs:102-112 | with fewer than 16 handles out, a full queue has an entry nobody holds, so eviction never panics |
| BlockCaches.BlockCacheManager.Evict | easy-fs/src/block_cache.rs:102-112 | dropping a victim, with its write-back, loses nothing: the logical disk is the same |
| BlockCaches.BlockCache.Sync | easy-fs/src/block_cache.rs:65-77 | a dirty entry reaches its own block of the device and is clean afterwards |
| BlockCaches.BlockCacheManager.SyncAll | easy-fs/src/block_cache.rs:139-144 | afterwards the device equals the logical disk |
| BlockCaches.Replay | easy-fs/src/block_cache.rs:91-144 | any run in which handles are taken, read, written through and dropped in any order, up to 16 out at once, with flushes between, sees what a plain array of blocks would show, whatever is evicted on the way; after a flush the device holds it |
| BlockCaches.ReadsWriteBack | easy-fs/src/block_cache.rs:65-122 | sixteen blocks read that are not cached push every change out to the device, first in, first out, without a flush |
| Bitmaps.TrailingOnes | easy-fs/src/bitmap.rs:47-49 | the lowest clear bit of a word that is not full |
| Bitmaps.SetBitOf | easy-fs/src/bitmap.rs:47-52 | setting a clear bit changes that bit alone |
| Bitmaps.ClearBitOf | easy-fs/src/bitmap.rs:63-72 | clearing a set bit changes that bit alone |
| Bitmaps.AllocBits | easy-fs/src/bitmap.rs:41-57 | within a block the lowest clear bit is found and set, and no other changes |
| Bitmaps.Bitmap.Alloc | easy-fs/src/bitmap.rs:36-61 | returns the lowest clear bit of the whole bitmap and sets only it; None exactly when every bit is set |
| Bitmaps.Bitmap.Dealloc | easy-fs/src/bitmap.rs:63-72 | clears a set bit and only it |
| Layout.DataBlocks | easy-fs/src/layout.rs:117-123 | enough blocks for the size, and one fewer would not do |
| Layout.DataBlocksIsLeast | easy-fs/src/layout.rs:117-123 | n blocks hold a size if and only if n is at least that many |
| Layout.TotalBlocksMeans | easy-fs/src/layout.rs:124-139 | of the positions that total_blocks counts exactly the data blocks of the size hold data, and every index block has a child |
| Layout.BlockIdIsFlat | easy-fs/src/layout.rs:146-174 | the walk through direct, indirect1 and indirect2 finds the id at a closed-form position of the inode's flat id list |
| Layout.IndexedIsUnique | easy-fs/src/layout.rs:146-257 | an inode and the disk determine the flat list |
| Layout.HomeIsUnique | easy-fs/src/layout.rs:177-257 | no two positions of the flat list are stored in the same place |
| Layout.AppendInBlock | easy-fs/src/layout.rs:208-257 | storing one more id in an index block appends it to the flat list and moves no earlier id |
| DiskInodes.DiskInode.IncreaseSize | easy-fs/src/layout.rs:177-257 | the new blocks become the next positions of the flat list, in order, across the direct, indirect1 and indirect2 boundaries |
| DiskInodes.DiskInode.ClearSize | easy-fs/src/layout.rs:260-345 | returns exactly the flat list, in order, and empties the inode |
| DiskInodes.GrowAllAndClear | easy-fs/src/layout.rs:141-345 | any series of growths followed by a clear gives back the concatenation of all the lists, as many as `total_blocks` of the last size |
| DiskInodes.DiskInode.BlockId | easy-fs/src/layout.rs:146-174 | get_block_id through the cache is the i-th data id |
| DiskInodes.DiskInode.ReadAt | easy-fs/src/layout.rs:347-383 | reads 0 bytes from the end on, else as many as fit the buffer and the file has, each the byte of the content at its place; the rest of the buffer is untouched |
| DiskInodes.DiskInode.WriteAt | easy-fs/src/layout.rs:386-420 | overwrites the content at the offset, clipped to the size, and changes no block but the file's own |
| Files.StoredContentIsUnique | easy-fs/src/layout.rs:347-420 | blocks and size determine the content, so the refinement to byte sequences is a function |
| Files.GrowStores | easy-fs/src/vfs.rs:211-226 | zeroed new blocks and a zero tail make the grown file its old bytes followed by zeros |
| InodeTable.DecodeOfEncode | easy-fs/src/layout.rs:88-107 | an inode record written into its slot of a block is read back unchanged |
| InodeTable.DecodeOfOtherSlot | easy-fs/src/efs.rs:131-136 | writing one slot leaves the other inodes of the block unchanged |
| Geometries.LayOutIsOk | easy-fs/src/efs.rs:29-53 | the five regions tile the device, and the data bitmap is the smallest that covers the data area |
| Geometries.InodesAreContiguous | easy-fs/src/efs.rs:131-136 | the inodes lie one after another in the inode area and none crosses a block |
| Geometries.DecodeOfEncodeSuper | easy-fs/src/layout.rs:51-74 | open reads from the super block the geometry that create wrote |
| Geometries.InodeNumberInverts | easy-fs/src/vfs.rs:41-47 | get_ino inverts get_disk_inode_pos for every inode |
| FsState.FirstFitOnDevice | easy-fs/src/efs.rs:146-148 | while fewer than `data_area_blocks` blocks are in use, the lowest clear bit is that of a block on the device, though the bitmap may have more bits |
| FsState.AllocStep | easy-fs/src/efs.rs:146-148 | an allocated block was used by nobody and is all zero, and the file system invariant stays |
| FsState.DeallocStep | easy-fs/src/efs.rs:150-158 | a freed and zeroed block leaves the invariant intact |
| FsState.NextInode | easy-fs/src/efs.rs:142-144 | first fit hands out inode numbers in order |
| EasyFs.EasyFileSystem.Create | easy-fs/src/efs.rs:29-91 | formats any feasible device into an empty root directory that satisfies the invariant, and syncs it |
| EasyFs.EasyFileSystem.Open | easy-fs/src/efs.rs:93-116 | on a device with a valid file system, rebuilds the same geometry |
| EasyFs.EasyFileSystem.AllocData | easy-fs/src/efs.rs:146-148 | a block on the device that nothing uses, all zero |
| EasyFs.EasyFileSystem.DeallocData | easy-fs/src/efs.rs:150-163 | zeroes the block and gives it back; the invariant that free blocks are zero stays |
| EasyFs.EasyFileSystem.AllocInode | easy-fs/src/efs.rs:142-144 | the number of files so far, with its bit set and no other bit changed |
| Directories.DecodeOfEncodeDirent | easy-fs/src/layout.rs:433-477 | an entry with a storable name survives its 32-byte form |
| Directories.EntriesOfAppended | easy-fs/src/vfs.rs:100-119 | appending an entry's bytes appends the entry |
| Directories.EntriesOfBlanked | easy-fs/src/vfs.rs:121-153 | overwriting an entry with zeros blanks that entry and no other |
| Directories.FindFrom | easy-fs/src/vfs.rs:170-193 | the first entry with the name |
| Vfs.FindInodeId | easy-fs/src/vfs.rs:170-193 | the inode number of the first entry with the name |
| Vfs.CountLinks | easy-fs/src/vfs.rs:68-98 | the number of entries whose name resolves to the inode |
| Vfs.Inode.IncreaseSize | easy-fs/src/vfs.rs:211-226 | the content is zero-extended, old blocks keep their places, and exactly the blocks needed are newly used |
| Vfs.Inode.WriteAt | easy-fs/src/vfs.rs:305-313 | the content becomes the old one zero-extended and overwritten; no other file changes; the device is synced |
| Vfs.Inode.ReadAt | easy-fs/src/vfs.rs:298-303 | reads 0 bytes from the end on, else as many as fit the buffer and the file has, each the byte of the content at its place, with the disk unchanged; a current device stays current, and the block of the inode is not written back |
| Vfs.Inode.Clear | easy-fs/src/vfs.rs:315-326 | the file is empty and exactly its blocks are free again; the length assertion holds |
| Vfs.Inode.Find | easy-fs/src/vfs.rs:195-209 | an inode for the number the directory lists, None exactly when the name is not listed; the device as for a read |
| Vfs.Inode.GetNlink | easy-fs/src/vfs.rs:68-98 | the link count of the inode at a position; the device as for a read |
| Vfs.Inode.Link | easy-fs/src/vfs.rs:100-119 | the directory grows by one entry and nothing else changes; if the device is current and the entry needs no new block, nothing on the device changes |
| Vfs.Inode.GetIno | easy-fs/src/vfs.rs:41-47 | the number of the inode at this position |
| Vfs.Inode.Unlink | easy-fs/src/vfs.rs:121-153 | the entry is blanked, and the file is cleared when that was its last link |
| Vfs.Inode.Create | easy-fs/src/vfs.rs:228-275 | None exactly when the name exists; otherwise a new empty file and one more entry |
| FsSpec.Step | easy-fs/src/vfs.rs:100-326 | every callable operation keeps the root a directory of distinct valid names |
| DirSpec.LookupIsBinding | easy-fs/src/vfs.rs:170-209 | find agrees with a finite map of names |
| DirSpec.NlinkCountsNames | easy-fs/src/vfs.rs:68-98 | the link count of a file is the number of its names |
| DirSpec.RootLinksAreBlanks | easy-fs/src/vfs.rs:68-98 | the link count of the root is the number of blank entries |
| DirSpec.CreateMeaning | easy-fs/src/vfs.rs:228-275 | create adds one binding to a new empty file, or does nothing |
| DirSpec.LinkMeaning | easy-fs/src/vfs.rs:100-119 | link adds one binding and changes no file |
| DirSpec.UnlinkMeaning | easy-fs/src/vfs.rs:121-153 | unlink of a name removes that binding, and empties the file exactly when it was its last name |
| DirSpec.UnlinkOfEmptyName | easy-fs/src/vfs.rs:121-153 | what unlinking the empty name does for every number of blank entries |
| DirSpec.UnlinkKeepsOtherNames | easy-fs/src/vfs.rs:121-153 | all other names survive an unlink if and only if it is not the empty name with exactly one blank entry and some name bound |
| DirSpec.EmptyNameLosesAFile | easy-fs/src/vfs.rs:121-153 | a directory in which unlinking the empty name loses a file |
| FileLaws.WriteMeaning | easy-fs/src/vfs.rs:305-313 | byte by byte, what a write leaves in its file: its own bytes, the old ones, and zeros in a gap; no other file changes |
| FileLaws.ClearMeaning | easy-fs/src/vfs.rs:315-326 | clear empties one file and changes no other |
| FileLaws.ReadMeaning | easy-fs/src/vfs.rs:298-303 | byte by byte, what a read answers, and how many bytes |
| FileLaws.NameAnswers | easy-fs/src/vfs.rs:68-275 | what create, find and get_nlink answer, in terms of the finite map of names |
| FileLaws.SparedRun | easy-fs/src/vfs.rs:100-326 | a run without a write to a file, a clear of it or an unlink of one of its names leaves it as it was |
| FileLaws.ReadBack | easy-fs/src/vfs.rs:298-313 | write, any run that spares the file, read of the same range: the answer is what was written |
| FsRuns.OwnershipPartition | easy-fs/src/vfs.rs:211-326 | under the invariant the set bits of the data bitmap are the disjoint union of the files' blocks |
| FsRuns.UsedIsTotal | easy-fs/src/layout.rs:125-139 | as many blocks are in use as the file sizes call for |
| FsRuns.Do | easy-fs/src/vfs.rs:100-326 | one operation through the code is one step on byte sequences, with its answer; writes, clears, unlinks and creations leave the device current, reads leave it as current as it was, and link leaves it behind |
| FsRuns.Run | easy-fs/src/vfs.rs:100-326 | every run of operations on the disk, reads and lookups among them, gives the answers of the run on byte sequences and refines it, keeps the ownership partition, and never holds more than three cache entries; the device is current afterwards if each link is flushed, and its directory too short if and only if one is not, as long as nothing is read elsewhere |
| FsRuns.CurrentAfterMeans | easy-fs/src/vfs.rs:100-326 | a run is sure to leave the device current if and only if every link has a flush after it and, unless it was current, there is a flush |
| FsRuns.Remount | easy-fs/src/efs.rs:93-129 | after a flush, a new cache over the same device and open give the same files with the same contents |
| FsRuns.OpenDevice | easy-fs/src/efs.rs:93-129 | open and root_inode over a new cache give a root at rest with the files that the device holds |
| FsRuns.DeviceDetermines | easy-fs/src/efs.rs:93-116 | the blocks of a device determine its geometry and all its files, so there is one file system for open to find |
| FsRuns.BehindIsNotCurrent | easy-fs/src/vfs.rs:100-119 | a device whose directory is too short does not hold what the cache stands for, so the two outcomes of a run exclude each other |
| Durability.Start | easy-fs/src/efs.rs:29-129 | create and root_inode give an empty root directory from which runs may start, all of it on the device |
| Durability.RunAndRemount | easy-fs/src/efs.rs:93-129 | any run whose links are all flushed gives the answers of the run on byte sequences, and opening the device again finds what it left |
| Durability.FormatRunRemount | easy-fs/src/efs.rs:29-129 | the same from formatting on |
| Durability.LinkStaysBehind | easy-fs/src/vfs.rs:100-119 | any link made while the device is current leaves the block of the root's inode on the device as it was, with the old size; unless the directory needs a new block, nothing on the device changes |
| Durability.LinkThenLoss | easy-fs/src/vfs.rs:100-119 | opening the device after such a link, the cache being lost, finds the files without it |
| Durability.ReadsBringTheLink | easy-fs/src/block_cache.rs:65-122 | from any state, reading sixteen blocks that are not cached makes the device current |
| Durability.LostLink | easy-fs/src/vfs.rs:100-119 | a new file system in which the second name of a file is in use, while the device holds, and open finds, the file with its first name only |
| Pages.AddressSplits | os/src/mm/address.rs:92-104 | page and offset make up the address |
| Pages.CeilMeans | os/src/mm/address.rs:95-97 | the first page boundary at or after the address |
| Pages.RangePages | os/src/mm/address.rs:92-97 | floor and ceil of a nonempty range give exactly the pages that hold an address of it |
| Pages.Indexes | os/src/mm/address.rs:142-152 | the loop takes the three nine-bit indexes of a page number |
| Pages.IndexesSpellKey | os/src/mm/address.rs:142-152 | the indexes are the low 27 bits of the page number, nine by nine, the first the most significant |
| Pages.IndexesAreKey | os/src/mm/address.rs:142-152 | the indexes of two page numbers agree exactly when their low 27 bits do |
| Pages.PteRoundTrip | os/src/mm/page_table.rs:30-47 | page number, flags and validity are read back from an entry |
| Pages.PteBits | os/src/mm/page_table.rs:30-35 | bit by bit, an entry has the flags in its low ten bits and the page number above |
| Pages.FindPteIsLeaf | os/src/mm/page_table.rs:100-116 | the walk of find_pte ends at the leaf slot of the tree, or at none |
| Pages.SetLeaf | os/src/mm/page_table.rs:118-133 | writing a leaf entry changes the finite map at one key only |
| Pages.AddMid | os/src/mm/page_table.rs:91-95 | a new table below the root changes no translation |
| Pages.AddLow | os/src/mm/page_table.rs:91-95 | a new table of the last level changes no translation |
| Frames.Machine.Alloc | os/src/mm/frame_allocator.rs:67-76 | a frame that was free and is now in use, the one returned last if there is one; None exactly when none was free |
| Frames.Machine.FrameAlloc | os/src/mm/frame_allocator.rs:16-25 | the frame handed out is all zero and no other frame changed |
| Frames.Machine.FrameDealloc | os/src/mm/frame_allocator.rs:77-86 | a frame in use becomes free; both checks pass |
| PageTables.PageTable.FindPteCreate | os/src/mm/page_table.rs:81-99 | the slot of the page, in at most two new tables made from free frames, with every translation unchanged |
| PageTables.PageTable.FindPteOf | os/src/mm/page_table.rs:100-116 | the loop of find_pte finds the leaf slot |
| PageTables.PageTable.MapPage | os/src/mm/page_table.rs:118-127 | adds exactly one entry to the finite map, or returns -1 and changes none when the key is mapped |
| PageTables.PageTable.UnmapPage | os/src/mm/page_table.rs:129-133 | removes exactly one entry and creates no table |
| PageTables.PageTable.Translate | os/src/mm/page_table.rs:134-136 | the page number of the mapped entry |
| MemorySets.MapOneFramed | os/src/mm/memory_set.rs:334-348 | one more page over a new zeroed frame, or -1 and a frame too many |
| MemorySets.MapFramed | os/src/mm/memory_set.rs:360-367 | every page gets a zeroed frame of its own, or the loop stops at the first mapped page |
| MemorySets.UnmapArea | os/src/mm/memory_set.rs:350-372 | exactly the area's pages go and exactly its frames are free again |
| AddressSpaces.MemorySet.Push | os/src/mm/memory_set.rs:104-113 | 0 exactly without a conflict, and then a sound set; after -1 the set is sound if and only if the first page was already mapped, else an entry leads to a free frame; after any refusal the space owns what it owned and at most some tables more; n pages never fail for lack of memory with more than 3n frames free |
| AddressSpaces.MemorySet.InsertFramedArea | os/src/mm/memory_set.rs:56-66 | the same for an address range: after 0 every address of it is mapped, and every newly mapped page holds one of them |
| AddressSpaces.MemorySet.RemoveFramedArea | os/src/mm/memory_set.rs:68-92 | the first area inside the range goes, with its pages and frames, each of which holds an address of the range; 0 exactly when every address of the range was in it, and then none is mapped any more |
| AddressSpaces.InsertThenRemove | os/src/mm/memory_set.rs:56-92 | inserting and removing the same range returns 0 twice, restores the map and the areas, and keeps only new tables |
| Refusals.TornArea | os/src/mm/memory_set.rs:104-113 | sixteen frames, page 1 mapped: an area of the pages 0 and 1 is refused and page 0 leads to a free frame |
| Refusals.Beside | os/src/mm/memory_set.rs:46-113 | if the second page was the one in the way, the next space gets the frame of the torn page for its own first page |
| Refusals.SharedFrame | os/src/mm/memory_set.rs:104-113 | two spaces of one machine, one torn and one intact, whose pages 0 are the same frame, owned by the intact one |
| Refusals.OthersGoOn | os/src/mm/memory_set.rs:104-113 | over every run of the other processes after a torn insertion, the torn page keeps its entry, and its frame is free or owned by one of them; they get the answers of private memories |
| Forks.NewBare | os/src/mm/memory_set.rs:46-51 | an empty set over a new root |
| Forks.MapTrampoline | os/src/mm/memory_set.rs:115-121 | one fixed entry outside the areas |
| Forks.CopyArea | os/src/mm/memory_set.rs:276-282 | each page of the child's area holds the words of the parent's, and no other frame changed |
| Forks.FromExistedUser | os/src/mm/memory_set.rs:267-285 | areas and permissions like the parent's, the same words page by page, in frames that were free; the parent's map and memory are unchanged |
| PrivateMemories.Untouched | os/src/mm/memory_set.rs:41-300 | in any run, a process whose memory no operation names finds it as it left it |
| PrivateMemories.ForkIsPrivate | os/src/mm/memory_set.rs:267-285 | after a fork, whatever both then do, the parent ends as one that never forked and the child as one that started with the parent's memory of that moment |
| PrivateMemories.AsIfAlone | os/src/mm/memory_set.rs:41-300 | in any run a process gets the answers and the memory that its own operations alone would give it |
| Views.ViewInserted | os/src/mm/memory_set.rs:104-113 | what a process sees after an insertion: zeroed pages in addition, nothing else changed |
| Views.ViewRemoved | os/src/mm/memory_set.rs:368-372 | what it sees after a removal: the area's pages gone, the rest unchanged |
| Views.ViewForked | os/src/mm/memory_set.rs:267-285 | the child sees exactly the parent's pages, contents and flags |
| Views.ViewStored | os/src/mm/page_table.rs:199-208 | a store through one page is seen in that page alone |
| Reclaims.RecycleDataPages | os/src/mm/memory_set.rs:296-299 | all data frames and only they come back; the tables stay |
| Reclaims.DropTables | os/src/mm/frame_allocator.rs:33-37 | dropping a page table returns exactly its table frames |
| SpaceSteps.Insert | os/src/mm/memory_set.rs:56-66 | the process sees the insertion of the private memory, and only free frames were taken, if and only if the range was free or its first page taken; otherwise its first page leads to a free frame |
| SpaceSteps.Remove | os/src/mm/memory_set.rs:68-92 | the process sees the removal of the private memory, and only its own frames were freed |
| SpaceSteps.Store | os/src/mm/page_table.rs:199-208 | a store through a translated reference is a store to the private memory, and of all memory changes the word at the physical address that translate_va gives |
| SpaceSteps.Load | os/src/mm/page_table.rs:194-197 | a load through a translated reference reads the private memory, the word at the physical address that translate_va gives |
| SpaceSteps.Fork | os/src/mm/memory_set.rs:267-285 | the child's private memory is the parent's |
| MemoryLaws.LoadAfterStore | os/src/mm/page_table.rs:194-208 | a load after a store answers the word stored if page and offset agree, and else what it answered before, for any two processes |
| MemoryLaws.LoadBack | os/src/mm/page_table.rs:194-208 | store, any run of any processes that spares the word, load: the answer is what was stored |
| MemoryLaws.InsertedRange | os/src/mm/memory_set.rs:56-66 | after an insertion that is not refused every address of the range is there and zero, the old pages are as before, and every new page holds an address of the range |
| MemoryLaws.RemovedRange | os/src/mm/memory_set.rs:68-92 | after a removal the pages left are as before, every page gone held an address of the range, and after 0 none of its addresses is there |
| Worlds.World.Insert | os/src/mm/memory_set.rs:56-66 | with all processes there, an insertion is a step on private memories if and only if the range was free or its first page taken; otherwise it is refused, its first page leads to a free frame, and the frames in use are still partitioned and the other processes intact |
| Worlds.World.Do | os/src/mm/memory_set.rs:45-300 | one operation of any process on the shared frames is one step on private memories, with the same answer |
| Worlds.World.Run | os/src/mm/memory_set.rs:45-300 | every run over the shared frames refines the run on private memories, and keeps the partition of the frames among the processes' tables and pages and the kernel; the kernel's frames hold what they held |
| Worlds.NothingLeaks | os/src/mm/frame_allocator.rs:52-86 | when the last process is reaped every managed frame but the kernel's is free |
| UserBuffers.TokenRoundTrip | os/src/mm/page_table.rs:75-80 | from_token recovers the root from the token |
| UserBuffers.TranslateMapped | os/src/mm/page_table.rs:137-146 | a mapped address translates to its entry's frame at the same offset |
| UserBuffers.TranslateExactly | os/src/mm/page_table.rs:137-146 | an address translates if and only if the tables above its page exist; an entry that was never set leads to page 0 |
| UserBuffers.TranslatesUnmapped | os/src/mm/page_table.rs:137-146 | a page table in which an unmapped address translates |
| UserBuffers.TranslatedByteBuffer | os/src/mm/page_table.rs:153-173 | nonempty slices, len bytes in all, whose bytes are in order the translations of ptr+k |
| UserBuffers.UserBufferIterator.Next | os/src/mm/page_table.rs:249-265 | yields the remaining addresses one by one and then None |
| UserBuffers.Walk | os/src/mm/page_table.rs:153-265 | iterating over a translated buffer visits the translation of each byte once, in order |
| Strides.FirstMin | os/src/task/manager.rs:30-44 | the first task of least stride |
| Strides.SpreadKept | os/src/task/manager.rs:30-44 | a fetch keeps all strides within half of BIG_STRIDE of each other |
| Strides.SpreadForever | os/src/task/manager.rs:26-44 | so does any number of rounds |
| Strides.SpreadWithNew | os/src/task/task.rs:216-226 | a new task keeps the spread if and only if no stride exceeds the bound |
| Strides.PassMeans | os/src/task/task.rs:80-82 | a turn costs BIG_STRIDE divided by the priority, rounded down |
| Strides.PaidForTurns | os/src/task/task.rs:80-82 | after any number of rounds a stride is its start plus turns times pass |
| Strides.FairShares | os/src/task/manager.rs:26-44 | from equal strides, turns times pass of any two tasks differ by at most half of BIG_STRIDE, for ever |
| Strides.SharesByPriority | os/src/task/manager.rs:26-44 | from equal strides, turns are in proportion to priorities: turns of x times priority of y exceed turns of y times priority of x by at most half the product of the priorities if that of x divides BIG_STRIDE, and in general by at most what rounding adds per turn |
| Strides.WaitShrinks | os/src/task/manager.rs:30-44 | a round that passes over an unblocked task shortens its wait |
| Strides.Starved | os/src/task/task.rs:80-82 | a task behind one that pays nothing is never fetched |
| Strides.ServedExactly | os/src/task/manager.rs:26-44 | while all tasks yield, a waiting task is eventually fetched if and only if no task of smaller stride has a priority above BIG_STRIDE, and then within its wait |
| Strides.BoundedWaiting | os/src/task/manager.rs:26-44 | with priorities up to BIG_STRIDE and the spread bound, every task is fetched within HALF rounds per rival |
| Schedules.Starvation | os/src/syscall/process.rs:144-150 | boot, fork, and a child of priority BIG_STRIDE + 1: after two more turns initproc is never fetched again |
| Schedules.LateFork | os/src/task/task.rs:216-226 | boot, eight yields and a fork: the strides are further apart than half of BIG_STRIDE |
| Tasks.ParentAlive | os/src/task/mod.rs:57-88 | no task has a zombie for a parent |
| Tasks.SomeoneReady | os/src/task/processor.rs:54-77 | with no task running, initproc is ready, so a fetch never indexes an empty queue |
| Tasks.ReachesInit | os/src/task/mod.rs:66-78 | following parents leads from every task to initproc |
| Tasks.BornFamily | os/src/task/task.rs:186-239 | a new child keeps every task in exactly one list, its parent's |
| Tasks.GoneFamily | os/src/task/mod.rs:57-88 | so does exit, whose children initproc adopts |
| Tasks.ReapedFamily | os/src/syscall/process.rs:88-97 | so does the collection of a zombie |
| Tasks.ReapedUnreferenced | os/src/syscall/process.rs:94-96 | nothing else refers to the zombie removed, so the reference-count assertion holds |
| Tasks.DispatchIsRound | os/src/task/manager.rs:30-44 | a fetch, seen from the next one, is a round of the scheduler |
| Kernels.PidAllocator.Alloc | os/src/task/pid.rs:27-34 | a pid not in use |
| Kernels.PidAllocator.Dealloc | os/src/task/pid.rs:35-43 | returns a pid in use; both assertions hold |
| Kernels.Boot | os/src/task/mod.rs:102-104 | the first fetch runs initproc, charged for one turn, in an intact system |
| Kernels.Kernel.Select | os/src/task/manager.rs:30-41 | the scan finds the first task of least stride |
| Kernels.Kernel.Fetch | os/src/task/processor.rs:54-77 | the task of least stride is charged, leaves the queue and runs, and nothing else changes; tree and queue stay intact |
| Kernels.Kernel.Yield | os/src/task/mod.rs:38-54 | the running task goes to the back of the queue and the next is fetched: exactly one round of the scheduler |
| Kernels.Kernel.NewChild | os/src/task/task.rs:242-289 | one fresh task with an unused pid, child of the running one, ready with stride 0 and priority 16; nothing else changes |
| Kernels.Kernel.Fork | os/src/syscall/process.rs:44-56 | a child joins the queue and its pid, which no task had, is returned |
| Kernels.Kernel.SetPriority | os/src/syscall/process.rs:144-150 | changes the running task's priority to any value of at least 2, else -1 |
| Kernels.Kernel.Reparent | os/src/task/mod.rs:69-75 | the loop gives all children of the exiting task to initproc |
| Kernels.Kernel.Exit | os/src/task/mod.rs:57-88 | the task is a zombie with its exit code and no children, initproc has them, the next task is fetched, and nothing else changes |
| Kernels.Kernel.WaitPid | os/src/syscall/process.rs:75-107 | -1 exactly without a matching child, -2 exactly while none of them is a zombie, else the first zombie's pid and exit code, after which nothing refers to it |
| Kernels.Kernel.YieldUntil | os/src/task/mod.rs:38-54 | an unblocked waiting task runs after at most its wait of rounds |
| Kernels.Kernel.Do | os/src/syscall/process.rs:27-185 | each call changes the whole state and answers as specified; calls without a new task keep the spread, calls with one keep it exactly when no stride exceeds the bound |
| Kernels.Kernel.Run | os/src/syscall/process.rs:27-185 | every run of calls is a chain of specified steps, in each state of which every task that is not a zombie runs or is queued exactly once and every task but initproc is in exactly its parent's list; pids stay unique and none is lost |
| ExitCodes.WaitPidAnswers | os/src/syscall/process.rs:75-107 | -1 if and only if no child matches the pid, -2 if and only if some does and none of those has exited, else pid and code of one that has, which is then gone |
| ExitCodes.ExitLeavesZombie | os/src/task/mod.rs:57-88 | exit leaves a zombie with the code given |
| ExitCodes.ZombieStep | os/src/syscall/process.rs:75-107 | any call leaves a zombie and its code alone, or is the waitpid of its parent that returns exactly its pid and code |
| ExitCodes.ExitCodeIsDelivered | os/src/syscall/process.rs:75-107 | over any run a zombie stays until the first waitpid of its parent that collects it, which gets its pid and exit code |
| ExitCodes.ParentCanCollect | os/src/task/mod.rs:57-88 | a zombie whose parent runs is among that parent's children |
| ExitCodes.WaitForPidCollects | os/src/syscall/process.rs:75-107 | a waitpid of the parent for the zombie's pid collects it at once |
| ExitCodes.CollectedInTurn | os/src/syscall/process.rs:75-107 | of repeated waitpids for any child, the one after as many as there are zombies before it in the list collects the zombie |

## Left out

- DiskInodes.DiskInode.WriteAt: a write that starts at the end of the content and at a block boundary is excluded, where the source asks for a block that the file does not have.
- Vfs.Inode.WriteAt: likewise an empty write at a block boundary at or past the end; and writes that do not fit the device, where the source would run past the data area.
- Vfs.Inode.Create: likewise only while an inode and the blocks for one more entry are left.
- FsRuns.CurrentAfterMeans: once files elsewhere are read, what reaches the device without a flush depends on what is cached, which the run does not say.
- FsRuns.Run: covers links to new names only, since the source does not refuse a name that exists already; `Vfs.Inode.Link` itself covers any name.
- Directories below the root, `ls` and file modes: the source creates files in the root only.
- Locks and `UPSafeCell`: one processor; a lock is only the fact that a block is held.
- Identity-mapped areas: they are part of the invariant of a memory set and can be unmapped; the loop that maps them, `new_kernel` and its linker symbols are not part of this model.
- `from_elf` and `copy_data`: parsing executables; a new space is `New` followed by insertions and stores.
- MemorySets.MapOneFramed: the branch for framed areas; identity-mapped pages are not mapped one by one in this model.
- MemorySets.MapFramed: likewise, and areas of at most 2^27 pages, beyond which the pages of one area would share page-table slots.
- AddressSpaces.MemorySet.InsertFramedArea: ranges of at most 2^27 pages, for the same reason.
- SpaceSteps.Insert: ranges of at most 2^27 pages, for the same reason.
- Worlds.World.Insert: ranges of at most 2^27 pages, for the same reason.
- Worlds.World.Do: insertions that conflict past their first page are excluded; `Worlds.World.Insert` covers them and shows that they are the ones that tear a space.
- Worlds.World.Run: so are runs with such insertions; and the kernel's frames are the same throughout, while in the source each process takes frames for its kernel stack when it is made and returns them when it is reaped.
- Worlds.NothingLeaks: likewise without the kernel stacks.
- AddressSpaces.MemorySet.Push: framed areas of at most 2^27 pages; on running out of frames it says only that none is free and how few there were, since the kernel stops there.
- `exec`, file descriptors, trap contexts, kernel stacks and `TaskInfo`: they do not enter the properties here.
- UserBuffers.TranslatedByteBuffer: buffers that reach into the last page of the address space are excluded, where the source's page arithmetic wraps around.
- UserBuffers.Walk: so are they here.
- Kernels.Kernel.Exit: initproc never exits; in the source it would borrow itself twice and panic.
- Kernels.Kernel.Fetch: at most 4 * 10^11 fetches, so that no 64-bit stride overflows.
- Kernels.Kernel.WaitPid: pids stay below 2^63, so a negative argument other than -1 matches none.
- Spawn and fork differ in the memory they give the child, which is the concern of the memory model; a process and its address space are linked by pid only.
- Devices, the console, timers, assembly, the heap allocator and the packing tool: outside code and I/O.

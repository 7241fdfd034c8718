# xv6 in Dafny

A model of the parts of the xv6-riscv kernel and its user programs whose correctness is hard
to see from the code, with proofs about it. `dafny verify dfyconfig.toml` checks everything.

## What is modelled

**Log and buffer cache** (`Storage`, `Lists`, `Sets`, `LruRing`, `BufferCache`, `RedoLog`, `Log`,
`Recovery`, `LogProtocol`, `LogRefinement`, `LogRuns`, `LogSpace`). The cache and the log are classes whose methods
have the loops of the source; every disk write is recorded. The crash theorem speaks about the sequence of
disk writes, and `Log.Logger.Commit` and `Recovery.RecoverFromLog` are proved to make exactly that sequence.
`LogProtocol` and `LogRefinement` take the same actions apart into the steps of concurrent threads, a committing
thread, crashes at any point and recovery, and prove that every run is a run of an atomic store, given the size of
the log that `LogRuns` shows to be needed.

**File system** (`Blocks`, `Files`, `FileCrash`, `Mkfs`, `Names`, `Icache`). Block ownership and file contents are proved of
balloc, bmap, itrunc, readi, writei and the chunk loop of filewrite; mkfs is proved to establish the
invariant. A crash inside filewrite leaves whole chunks. Directory operations and link counts are proved for sequences of completed calls; the inode cache
for all interleavings.

**Virtual memory** (`PageTable`, `UserCopy`). The three-level page tables over the page free list. The tree is kept in
page memory; beside it stand the flat map it means and one owner for every page.

**Processes and devices** (`Scheduler`, `ExitWait`, `Pipe`, `Virtqueue`). State machines over the steps between lock
operations, and classes for the rings. The driver side follows the source, the device side what section 5.2 of
Virtio 1.1 lets it do with a chain.

**User programs** (`Umalloc`, `Shell`, `ShellGrammar`, `Grep`). The Kernighan and Ritchie allocator over headers in memory, the shell's
parser with its in-place termination of words and the grammar it accepts, and the regular-expression matcher.

Panics are results or preconditions: where a method has an `ok` result or an `Outcome`, the contract says exactly when
it panics; where the source panics on a caller's mistake, the caller must not make it. User memory that
cannot be copied, pages that sbrk refuses and what the disk device does are parameters or separate methods.

## What turned out not to hold

Each of these is proved; where a property fails, the exact condition under which it holds is proved with it.

- A commit can panic for want of buffers with fewer than NBUF blocks pinned. bget fails exactly when its block is not cached and pinned
  blocks and buffers in other use fill the cache (`LogProtocol.GetExactly`, `LogProtocol.CommitGetsExactly`, and `Log.Logger.Commit` when
  the others stand still). One reader beside a full log of mkfs is enough (`LogRuns.ReaderStopsCommit`). Recovery, in contrast, never
  runs out on a disk this kernel wrote (`LogRefinement.RecoveryHasBuffers`).
- log_write tests for room before it takes the lock, so two operations can pass the test together. Every run is crash safe exactly when the log
  region has one block or at least LOGSIZE (`LogRuns.CrashSafeExactly`, `LogRefinement.CrashSafety`); on one of 2 to LOGSIZE - 1 blocks a commit can
  overwrite the block after the log for good (`LogRuns.TestRaced`). mkfs lays out LOGSIZE blocks.
- Recovery unpins buffers nobody pinned, so the cache it leaves is sound exactly when the log was empty
  (`Recovery.SoundExactly`, `Recovery.LockedButFree`).
- Admitted operations within their budget never panic in log_write exactly when the log region has at least LOGSIZE + 1 blocks; the one mkfs
  lays out has LOGSIZE (`LogSpace.PanicExactly`, `LogSpace.MkfsImagePanics`).
- Rounding the root directory's size up leaves an unmapped block below it exactly when its entries end on a block boundary
  (`Mkfs.Image.RoundRoot`, `Mkfs.FullRoot`).
- Link counts are shorts; link keeps counts above names exactly when the count does not wrap (`Names.LinkExactly`), and two directories
  have room for enough names (`Names.LinkWraps`). mkdir never wraps one (`Names.CreateKeeps`).
- create makes files in a directory that has been removed and is still in use. When the last reference frees the directory, its files keep
  their links and have no name; the counts stay right exactly when the directory names nothing (`Names.ReapCounts`, `Names.LeftBehind`).
- iput's comment promises that the last reference to an inode without links frees it. That holds in every run in which ialloc takes no
  number still in the cache and a new inode is locked before it is put (`Icache.NothingOrphaned`). ialloc makes no such check, and an inode
  can be left unfreed (`Icache.OrphanRun`). The second is what the interface asks of callers (`Icache.UnlockedOrphan`); create meets it.
- exit's comment calls a wakeup that init misses harmless. init can be left asleep over a zombie (`ExitWait.InitForgotten`); which steps
  lead there is exact (`ExitWait.InitExactly`).
- A pipe reader may sleep on a full pipe, exactly after a writer, killed or without an open reader, came with more than PIPESIZE bytes
  while it slept (`Pipe.Pipe.WriteSession`, `Pipe.LostWakeup`).
- malloc hands sbrk the wrong amount exactly for requests above 0x7fffffe0 bytes: a negative one up to 0xffffffe0, and 0 or 16 bytes for
  the rest (`Umalloc.RequestExactly`, `Umalloc.RequestRanges`). When sbrk answers all the same, the allocator deals in memory it
  does not have (`Umalloc.Allocator.Malloc`).
- writei returns the full count even when the copy stopped early (`Files.Volume.Writei`), so filewrite can return n, or move the file
  offset past the end, with only a prefix written (`Files.Volume.FileWrite`); and piperead consumes a byte it could not deliver
  (`Pipe.Pipe.ReadSession`).
- The comment on uvmdealloc allows an old size above the process's; the code panics exactly when a page between the two sizes is not
  mapped (`PageTable.Machine.UvmDealloc`, `PageTable.OldSizeTooLarge`).

## Model

| member | source | states |
|---|---|---|
| `LruRing.Ring.constructor` | kernel/bio.c:35-50 | binit links every buffer into one closed ring, the last buffer most recently used |
| `LruRing.Splice` | kernel/bio.c:113-121 | the six pointer writes of brelse take one node out of a well-linked ring and leave a well-linked ring with that node first and the others in their order |
| `LruRing.Ring.MoveToFront` | kernel/bio.c:113-121 | the ring's order afterwards is the old order with the buffer moved to the front; the links stay consistent both ways |
| `BufferCache.Cache.constructor` | kernel/bio.c:35-50 | every buffer starts unreferenced, unlocked and of device 0 over the given disk |
| `BufferCache.Cache.Bget` | kernel/bio.c:55-84 | a cached block wins and only its count and lock change; otherwise the least recently used unreferenced buffer is recycled as not valid; the panic exactly when neither exists |
| `BufferCache.Cache.Bread` | kernel/bio.c:87-96 | as bget, with the buffer holding the disk's contents when it was not valid |
| `BufferCache.Cache.Brelse` | kernel/bio.c:106-124 | the lock and one reference go; a buffer whose unsigned count reaches zero becomes the most recently used |
| `BufferCache.ReadsKeeps` | kernel/bio.c:55-96 | bread delivers what the cache shows for its block, shows the same for every other block, and keeps one buffer per block and agreement with the disk |
| `BufferCache.ReadLocks` | kernel/bio.c:55-96 | bread of a block nobody has locked locks exactly its buffer, whoever has others |
| `BufferCache.ReleaseKeeps` | kernel/bio.c:106-124 | releasing a buffer that is pinned or agrees with the disk keeps the cache coherent and every block's shown contents |
| `BufferCache.ModifyKeeps` | kernel/bio.c:87-102 | changing a locked buffer changes what is shown for its block and for no other |
| `BufferCache.WriteKeeps` | kernel/bio.c:99-102 | bwrite changes nothing that is shown and makes the disk agree with the buffer |
| `BufferCache.PinKeeps` | kernel/bio.c:126-130 | pinning adds exactly that block to the pinned set of a coherent cache |
| `BufferCache.UnpinKeeps` | kernel/bio.c:132-136 | unpinning removes exactly that block from the pinned set of a coherent cache |
| `Log.Logger.constructor` | kernel/log.c:54-62 | an empty log with no operation outstanding |
| `Log.Logger.WriteLogStep` | kernel/log.c:165-171 | one log slot gets what the cache shows for a home block; everything else is shown as before; fails exactly when the pinned blocks and those other threads have locked fill the cache |
| `Log.Logger.InstallStep` | kernel/log.c:69-76 | one home block gets its log slot's contents and is unpinned; everything else is shown as before, and other threads keep the buffers they have |
| `BufferCache.FreeExactly` | kernel/bio.c:55-84 | a block neither pinned nor locked can get a buffer if and only if fewer than NBUF blocks are pinned or locked |
| `BufferCache.CleanView` | kernel/bio.c:87-96 | what is shown for a block neither pinned nor locked is what the disk holds |
| `RedoLog.CommitCrash` | kernel/log.c:161-182 | for every transaction and a crash after any number of the commit's block writes: recovery leaves exactly the home blocks from before, or with the whole transaction, the latter exactly from the first header write on |
| `RedoLog.CommitThenCrashes` | kernel/log.c:65-182 | the same with any number of further crashes, each inside a recovery |
| `RedoLog.RecoveryCrash` | kernel/log.c:65-111 | a crash after any write of recovery leaves a disk that recovers to the same home blocks |
| `RedoLog.RepeatedCrashes` | kernel/log.c:106-111 | any chain of recoveries cut short anywhere ends at the home blocks the first would have reached |
| `RedoLog.RecoveredEmpty` | kernel/log.c:106-111 | a recovered disk has an empty log |
| `RedoLog.RecoveredIdle` | kernel/log.c:106-111 | recovery of an empty log leaves every home block |
| `RedoLog.CommitStateAtomic` | kernel/log.c:174-182 | every intermediate disk of a commit satisfies the all-or-nothing condition |
| `Log.Logger.LogWrite` | kernel/log.c:193-210 | panics exactly when the log is full or no operation is outstanding; otherwise the block is listed and pinned once, an already listed one is absorbed, and what the cache shows is unchanged |
| `Log.Logger.WriteLog` | kernel/log.c:161-172 | copies what the cache shows for each listed block into its log slot, in order, one disk write each; fails before the first write exactly when the n listed blocks and those other threads have locked fill the cache |
| `Log.Logger.WriteHead` | kernel/log.c:94-104 | one disk write: the header block lists the in-memory header's blocks; nothing else is shown differently |
| `Log.Logger.InstallTrans` | kernel/log.c:65-77 | each listed home block gets its slot's contents and is unpinned; what is shown for home blocks does not change |
| `Log.Logger.Commit` | kernel/log.c:174-182 | beside any set of locked blocks it does not need, the disk writes are exactly the write sequence the crash theorem quantifies over, with the contents the cache showed; afterwards the log is empty, nothing is pinned and every home block nobody has locked is on disk as shown; it panics exactly when n > 0 and the n blocks and the others' fill the cache |
| `Recovery.RecoverFromLog` | kernel/log.c:106-111 | the disk writes are exactly the recovery sequence of the crash theorem; it would panic exactly on a header of NBUF blocks, which RecoveryHasBuffers excludes; the cache it leaves is sound exactly when the log was empty |
| `Recovery.RecoverInstall` | kernel/log.c:65-77 | install_trans at boot: each listed block is installed, and its buffer's count, never pinned, wraps below zero |
| `Recovery.ReadHead` | kernel/log.c:80-89 | the in-memory header is what the header block lists; no block is written |
| `Recovery.FreeLeft` | kernel/bio.c:55-84 | during recovery a buffer is free if and only if installed blocks and buffers in use are fewer than NBUF |
| `Recovery.SoundExactly` | kernel/log.c:65-77 | after recovery the cache is coherent if and only if no block was installed |
| `Recovery.LockedButFree` | kernel/log.c:72-75 | a read of a block that recovery installed returns a locked buffer whose count is zero, so another bget may recycle it |
| `Recovery.CleanBoot` | kernel/log.c:106-111 | a boot with an empty log starts with a coherent cache and nothing pinned |
| `LogProtocol.GetKeeps` | kernel/bio.c:55-84 | bget by any thread at any point keeps one buffer per block, exact counts and agreement with the disk except where pinned or dirty |
| `LogProtocol.GetExactly` | kernel/bio.c:55-84 | bget by any thread at any point finds a buffer if and only if the block is cached or the pinned blocks and the buffers locked, waited for or in the middle of brelse are fewer than NBUF |
| `LogProtocol.CommitGetsExactly` | kernel/log.c:161-172 | write_log gets a buffer for its log block if and only if that block is cached or the logged blocks and the buffers locked, waited for or in the middle of brelse are fewer than NBUF |
| `LogProtocol.CopyRoom` | kernel/log.c:161-172 | a commit that has a buffer for a log block has logged fewer than NBUF blocks, and on a large enough region they fit its slots |
| `LogProtocol.AcquireKeeps` | kernel/bio.c:55-84 | taking the buffer's sleep-lock keeps the cache invariant |
| `LogProtocol.LoadKeeps` | kernel/bio.c:87-96 | the disk read of bread keeps the cache invariant |
| `LogProtocol.AppendKeeps` | kernel/log.c:199-210 | the locked part of log_write, whatever others have appended since the test, keeps the cache invariant, the block now pinned and no longer dirty |
| `LogProtocol.AppendInBounds` | kernel/log.c:193-210 | although the test is made without the lock, an append never leaves the header's array: the pinned blocks leave the buffer it holds, so fewer than LOGSIZE are listed |
| `LogProtocol.ReleaseKeepsCache` | kernel/bio.c:106-109 | giving back the sleep-lock, with the reference still counted, keeps the cache invariant |
| `LogProtocol.DropKeepsCache` | kernel/bio.c:111-124 | the decrement that follows, whatever has happened in between, keeps the cache invariant |
| `LogProtocol.ModifyShows` | kernel/log.c:193-210 | a change inside an operation shows as a change to that home block only |
| `LogProtocol.CopyKeeps` | kernel/log.c:161-172 | write_log's step copies exactly the last logged contents of its block into its slot, at any point of any interleaving |
| `LogProtocol.HeadKeeps` | kernel/log.c:94-104 | the first header write lists exactly the logged blocks, whose contents the slots hold |
| `LogProtocol.InstallKeeps` | kernel/log.c:65-77 | install_trans writes to each home block what the cache shows for it |
| `LogProtocol.UnpinKeepsInv` | kernel/log.c:65-77 | an installed block can be unpinned: its buffer agrees with the disk again |
| `LogProtocol.ClearKeeps` | kernel/log.c:174-182 | when the header is cleared every listed block is installed |
| `LogProtocol.CommitClean` | kernel/log.c:132-158 | while a commit runs nothing is dirty and nobody is between the test and the append of log_write |
| `LogRefinement.StepRefines` | kernel/log.c:106-210 | on a log region of one block or of LOGSIZE and more: every step of every thread, log_write's test and its append apart, of a commit, of a crash and of recovery is a step (or none) of a store whose only commit is atomic and happens between operations |
| `LogRefinement.CommitPoint` | kernel/log.c:174-182 | the first header write makes everything shown committed at once |
| `LogRefinement.CommittedInstalling` | kernel/log.c:65-111 | between the two header writes, what recovery would restore is what the cache shows |
| `LogRefinement.BootAction` | kernel/log.c:106-111 | a crash keeps exactly what is committed, and every step of recovery keeps it too |
| `LogRefinement.RunInv` | kernel/log.c:106-210 | on such a region the invariant holds in every state of every run |
| `LogRefinement.CrashSafety` | kernel/log.c:65-210 | on such a region, in every state of every run, recovering the disk gives what the cache showed at the latest commit point |
| `LogRefinement.CommitBetweenOps` | kernel/log.c:114-158 | on a region of any size every commit point of every run falls when no operation is in progress and no change is unlogged |
| `LogRefinement.RecoveryHasBuffers` | kernel/log.c:65-111 | on such a region every disk of every run, crashes included, lists distinct blocks and fewer than NBUF of them, so recovery finds a buffer for each log block |
| `LogRuns.CrashSafeExactly` | kernel/log.c:193-210 | every run is crash safe if and only if the log region has one block or at least LOGSIZE |
| `LogRuns.TestRaced` | kernel/log.c:193-210 | on every region of 2 to LOGSIZE - 1 blocks a run from boot, each operation within its ten blocks: two pass the test together, the commit writes past the log before it has committed anything, and recovery leaves a home block overwritten |
| `LogRuns.ReaderStopsCommit` | kernel/log.c:161-172 | a run from boot, each operation within its ten blocks, to a commit of LOGSIZE - 1 blocks, fewer than NBUF, for which write_log finds no buffer because a reader outside any operation has one |
| `LogRefinement.EndNeverCommits` | kernel/log.c:132-158 | in every run end_op never finds a commit under way, so its panic is not reached |
| `LogRefinement.LoggedStaysCached` | kernel/bio.c:55-136 | on such a region, in every run a logged block not yet installed has exactly one buffer, valid and never recycled |
| `LogSpace.SpaceFits` | kernel/log.c:114-158 | over every interleaving, with log_write's test and append apart, blocks logged plus unused reservations never exceed LOGSIZE if each operation appends at most MAXOPBLOCKS |
| `LogSpace.AppendHasRoom` | kernel/log.c:114-158 | an operation within its budget finds fewer than LOGSIZE blocks logged, at the test and at the append |
| `LogSpace.RunFits` | kernel/log.c:114-158 | in every run of the cache and the log, crashes included and on a region of any size, in which no operation appends more than MAXOPBLOCKS blocks: the blocks logged and what the operations in progress may still append fit LOGSIZE |
| `LogSpace.RunHasRoom` | kernel/log.c:114-158 | in such a run an operation with budget left finds fewer than LOGSIZE blocks logged |
| `LogSpace.PanicExactly` | kernel/log.c:193-196 | some admitted operation within its budget panics if and only if the log region is smaller than LOGSIZE + 1 blocks |
| `LogSpace.MkfsImagePanics` | mkfs/mkfs.c:30 | the region mkfs lays out, of LOGSIZE blocks, is one short |
| `LogSpace.AbsorbedCanPanic` | kernel/log.c:193-203 | on a log region of two blocks or more, however large, some run has an admitted operation and a block it could absorb, and log_write panics all the same |
| `Blocks.AllocatedInv` | kernel/fs.c:58-78 | marking and zeroing a free block keeps ownership: no block in two slots, bits exactly the owned blocks |
| `Blocks.PlacedInv` | kernel/fs.c:344-368 | putting a fresh block into an empty address slot of an inode or indirect block keeps ownership and moves no other slot |
| `Blocks.FreedInv` | kernel/fs.c:81-92 | freeing a direct or the indirect block finds its bit set and keeps ownership |
| `Blocks.EntryFreedInv` | kernel/fs.c:384-393 | freeing a block listed by the indirect block finds its bit set and touches no other slot |
| `Blocks.WrittenInv` | kernel/fs.c:436-463 | writing a data block changes no address and no other slot's contents |
| `Files.Volume.Balloc` | kernel/fs.c:58-78 | the lowest free block, now marked, zeroed and until then in no slot; the panic exactly when every bit is set; the bitmap block and the block are logged |
| `Files.Volume.constructor` | kernel/fs.c:39-43 | a disk with the ownership invariant is a valid volume with nothing logged |
| `Files.Volume.Bmap` | kernel/fs.c:344-368 | the slot's block; a missing one, and a missing indirect block, are allocated zeroed; no other slot of any inode changes; a mapped one changes nothing; the blocks logged are bounded case by case |
| `Files.Volume.Itrunc` | kernel/fs.c:372-397 | each block the file owned is freed exactly once and becomes free, every other block keeps its owner, the file is empty and on disk, no other file changes |
| `Files.Volume.Readi` | kernel/fs.c:413-430 | returns the slice of the contents that the size, the destination and 32-bit overflow allow; changes and logs nothing, so it never allocates |
| `Files.Volume.Writei` | kernel/fs.c:436-463 | the contents become the old ones with the copied bytes spliced in; -1 exactly when off is past the end or the file would pass MAXFILE blocks; otherwise it returns n even if the copy stopped early; other files unchanged; the blocks logged are at most LogCost |
| `Files.Volume.FileWrite` | kernel/file.c:114-153 | for a source readable up to any point: the contents get a prefix of it spliced in, all of its whole chunks before the stop and no unreadable byte; the offset moves on over what could not be copied, up to the first chunk that starts past the end or would end past MAXFILE blocks, and the call returns n exactly when there is none; every chunk logs at most MAXOPBLOCKS blocks, for any alignment and disk size; the short-write panic is not reached |
| `Files.OtherContents` | kernel/fs.c:436-463 | what leaves other slots alone leaves every other file's contents |
| `Files.ContentsAt` | kernel/fs.c:344-368 | every byte below the size is in a mapped block |
| `Files.ChunkCost` | kernel/file.c:131-146 | 4 data, 3 + 1 bitmap, 1 indirect and 1 inode block: at most ten, because an unaligned write's first block is mapped already |
| `Files.WholeWrite` | kernel/file.c:131-150 | with the whole source readable no chunk is refused exactly when the write starts inside the file and ends within MAXFILE blocks |
| `FileCrash.FileWriteCrash` | kernel/file.c:132-150 | wherever in a run the call begins and whenever the crash comes, if nobody else changes the file meanwhile: recovery gives the home blocks it would have given when the call began, if nothing was committed since, and otherwise the contents shown then with exactly the chunks spliced in that were ended at the latest commit point |
| `FileCrash.FileKeeps` | kernel/file.c:132-150 | between two chunks the file as shown is what it was when the call began, with the chunks so far |
| `Mkfs.Image.constructor` | mkfs/mkfs.c:67-115 | the zeroed image with its metadata blocks taken satisfies ownership |
| `Mkfs.Image.Ialloc` | mkfs/mkfs.c:217-227 | the next inode number, an empty file; existing files unchanged |
| `Mkfs.Image.BlockFor` | mkfs/mkfs.c:256-274 | the block of a part of a file, at most two blocks taken from the counter, no other slot changed |
| `Mkfs.Image.Iappend` | mkfs/mkfs.c:245-285 | the file's contents are extended by the bytes; ownership and other files kept; no block is left mapped past a file's size |
| `Mkfs.Image.Balloc` | mkfs/mkfs.c:229-241 | the bitmap marks exactly the first blocks up to the counter |
| `Mkfs.RootRoundedExactly` | mkfs/mkfs.c:160-165 | in an image without blocks past a file's size, rounding the root's size leaves every block below it mapped if and only if the entries did not end on a block boundary |
| `Mkfs.Image.RoundRoot` | mkfs/mkfs.c:160-165 | the rounding as mkfs does it keeps the kernel's invariant if and only if the root's entries did not end on a block boundary |
| `Mkfs.FullRoot` | mkfs/mkfs.c:114-165 | mkfs over 62 programs: the entries fill the block and the image violates the invariant |
| `Mkfs.Finish` | mkfs/mkfs.c:160-167 | otherwise the finished image, bitmap included, is a volume on which the kernel's invariant holds |
| `Blocks.CutEnded` | kernel/fs.c:395-396 | when every slot of a file being truncated is empty, size 0 restores the full invariant |
| `Blocks.ResizedInv` | kernel/fs.c:456-463 | a size below which every block is mapped keeps the invariant |
| `Files.Volume.AllocAddr` | kernel/fs.c:349-356 | an empty address of the inode gets a fresh zeroed block; no other slot of any inode changes |
| `Files.Volume.AllocEntry` | kernel/fs.c:359-362 | an empty entry of the indirect block gets a fresh zeroed block; no other slot of any inode changes |
| `Files.WriteDone` | kernel/fs.c:436-463 | once the size is raised, the blocks written so far read back as the splice |
| `Mkfs.Image.Place` | mkfs/mkfs.c:257-273 | the next block of the counter goes into an empty slot; no other slot changes |
| `Names.Namespace.constructor` | mkfs/mkfs.c:114-125 | the root directory alone satisfies the link-count invariant |
| `Names.Namespace.DirLookup` | kernel/fs.c:471-489 | the first used entry with the name; none exactly when no used entry has it |
| `Names.Namespace.DirLink` | kernel/fs.c:492-514 | refuses exactly a name that is taken and panics exactly on a full directory; else the entry goes into the first empty slot or the end |
| `Names.Namespace.IsDirEmpty` | kernel/sysfile.c:141-150 | true exactly when every entry past the first two is unused |
| `Names.Namespace.Ialloc` | kernel/fs.c:182-200 | the lowest free inode number |
| `Names.Namespace.Iget` | kernel/fs.c:225-253 | a further reference keeps the invariant |
| `Names.OpenOutlivesName` | kernel/fs.c:303-327 | create, open and unlink on a new image: the file is there without links and names while the reference lasts |
| `Names.Namespace.Create` | kernel/sysfile.c:202-238 | an existing file is returned to a caller that wants a file, anything else there is refused; the panic exactly when no inode is free, the directory is full or a ".." leads nowhere; a new name gets the lowest free inode, of the kind asked for, with exactly one link, its entry, and for a directory one more link on the parent; the links of every other inode are accounted for as before; the inode returned is named and referenced; the invariant is always kept |
| `Names.Namespace.Link` | kernel/sysfile.c:95-138 | refuses exactly a directory, a missing parent and a taken name, giving back the count taken in advance; panics only on a full directory; the invariant is kept exactly when the count does not wrap, and then every inode has as many links beyond its names as before |
| `Names.Namespace.Unlink` | kernel/sysfile.c:152-200 | refuses exactly dots, missing names and non-empty directories; the nlink panic is not reached; parent and inode are each freed exactly when their last link goes and nothing refers to them; unless the parent is freed, every inode has as many links beyond its names as before |
| `Names.Namespace.Reap` | kernel/fs.c:306-325 | an inode without links and references is freed, and then nothing names it; otherwise nothing changes |
| `Names.UnlinkTarget` | kernel/sysfile.c:170-174 | the inode of an ordinary entry exists and has a link; an empty directory is not its own parent, and its parent has a link to spare |
| `Names.Namespace.Iput` | kernel/fs.c:303-327 | frees an inode exactly when it was the last reference and there is no link, and then no directory entry names it; every other inode has as many links beyond its names as before exactly when nothing was freed or what was freed named nothing |
| `Names.LinkExactly` | kernel/sysfile.c:114-125 | linking keeps nlink at least the ordinary names plus the ".." of named directories, if and only if the short does not wrap |
| `Names.LinkWraps` | kernel/sysfile.c:114-125 | a sequence of calls on a new image, 32766 links in two directories and one more, that leaves a named file with a count of -32768 |
| `Names.CountFits` | kernel/fs.c:492-514 | a directory's link count stays below 17152: one for its name and one for each directory among its entries, of which a file has room for no more |
| `Names.CreateKeeps` | kernel/sysfile.c:218-233 | creating a file or a directory always keeps the link-count invariant and the bound on directories: the parent's short cannot wrap |
| `Names.UnlinkKeeps` | kernel/sysfile.c:174-190 | removing an ordinary entry of a file or empty directory keeps the invariant, leaves the inode a link to give back and takes no count below zero |
| `Names.DropLink` | kernel/sysfile.c:188-190 | giving back a spare link keeps the invariant |
| `Names.ReapKeeps` | kernel/fs.c:306-325 | freeing an inode without links keeps the invariant: nothing named it |
| `Names.NoLinksNoNames` | kernel/fs.c:306-307 | an inode whose count is zero has no ordinary name and no named directory has it as ".." |
| `Names.CreateCounts` | kernel/sysfile.c:218-233 | a new inode of any kind has that kind, one name and one link; every other inode has as many links beyond its names as before |
| `Names.LinkCounts` | kernel/sysfile.c:114-125 | linking adds one name and one link |
| `Names.UnlinkCounts` | kernel/sysfile.c:174-190 | unlinking takes one name and one link, and for a directory the parent's link for its ".." |
| `Names.ReapCounts` | kernel/fs.c:306-325 | freeing an inode leaves every other count as right as it was if and only if the inode named nothing |
| `Names.LeftBehind` | kernel/fs.c:303-327 | mkdir, unlink, create in the removed directory and the last iput on a new image: the file is left with a link and no name |
| `Icache.StepKeeps` | kernel/fs.c:182-327 | every step of iget, idup, ilock, iupdate, iunlock, ialloc and iput keeps: one cache entry per inode, exact counts, one lock holder, and agreement with the disk of every valid entry except one whose holder has freed the inode on disk and is about to clear valid |
| `Icache.RunKeeps` | kernel/fs.c:182-327 | the invariant holds in every state of every interleaving |
| `Icache.PutNeverBlocks` | kernel/fs.c:306-311 | when iput decides to free, the inode's lock is free, so its acquiresleep does not block |
| `Icache.TruncatesAlone` | kernel/fs.c:311-317 | until the truncated inode is free on disk no other reference to its number exists |
| `Icache.LoadFindsType` | kernel/fs.c:274-286 | ilock never reads a free inode, so its panic is not reached |
| `Icache.LockedSeesDisk` | kernel/fs.c:266-287 | a holder of the loaded, locked inode sees what is on disk |
| `Icache.ReusedIsReread` | kernel/fs.c:266-318 | whoever gets the inode lock finds the entry not valid, and reads it, or finds what is on disk, allocated and not just handed out by ialloc: so an inode allocated again before the old reference is dropped is read before it is used |
| `Icache.ReusedWhileValid` | kernel/fs.c:316-318 | why the lock is needed: a run in which iget, between iput's write of the free inode and its clearing of valid, returns an entry still valid with the freed inode's type over the new inode on disk |
| `Icache.NewbornUnused` | kernel/fs.c:311-325 | a reference to a number that ialloc has just handed out is one on its way out of iput |
| `Icache.Scan` | kernel/fs.c:225-243 | iget's scan finds the entry of the inode, else the first unreferenced one |
| `Icache.OrphansExactly` | kernel/fs.c:303-327 | for one step: no unlinked inode loses its last reference unfreed, except exactly in iput's last decrement or in an iput of an inode nobody has read, for such an inode |
| `Icache.NothingOrphaned` | kernel/fs.c:303-327 | in every run in which ialloc takes no number that is in the cache, and a new inode is locked before it is put, the last reference to an inode without links frees it |
| `Icache.DisciplineKeeps` | kernel/fs.c:182-327 | each such step keeps: what is between freeing and the last decrement stays free, and an unlinked inode not yet read has a holder who will read it |
| `Icache.FreeInCache` | kernel/fs.c:311-325 | a free number is in the cache if and only if somebody is between freeing the inode and dropping the reference |
| `Icache.UnlockedOrphan` | kernel/fs.c:303-327 | the second condition is one on callers, which create meets by locking at once: ialloc, iget and iput without a lock would leave an allocated inode nobody frees |
| `Icache.OrphanRun` | kernel/fs.c:303-327 | the first condition is needed: freed, allocated again and unlinked by a second holder while the first is still to drop its reference, an inode is left that nobody frees |
| `PageTable.Machine.constructor` | kernel/kalloc.c:26-35 | every page of the range is on the free list once |
| `PageTable.Machine.Kalloc` | kernel/kalloc.c:60-70 | the first free page, held by the caller, or 0 exactly when none is free |
| `PageTable.Machine.Walk` | kernel/vm.c:67-81 | returns the bottom entry of the address; fails exactly when more nodes are missing than may be allocated, and otherwise takes exactly those; mappings, other tables and held pages are untouched |
| `PageTable.Machine.WalkAddr` | kernel/vm.c:86-98 | the page the flat map gives for a user-accessible address, else 0; changes nothing |
| `PageTable.Machine.MapPages` | kernel/vm.c:127-142 | the flat map gains exactly the mapped prefix of the range, all of it on success; the prefix is the longest for whose missing nodes the free pages suffice; no other mapping, table or page changes |
| `PageTable.Machine.UvmUnmap` | kernel/vm.c:147-163 | panics exactly on an unaligned address or a page that is not mapped, at the first such page and with the pages before it gone; otherwise exactly the given range disappears from the flat map and owned pages return to the free list |
| `PageTable.Machine.UvmCreate` | kernel/vm.c:167-173 | an empty table at a page no table used, or 0 and no change |
| `PageTable.Machine.UvmAlloc` | kernel/vm.c:190-211 | succeeds exactly when the free pages suffice for the new pages and the nodes their paths lack; then all new pages are mapped, zeroed and for the user, and else every mapping of every table is as before; no page is leaked |
| `PageTable.Machine.UvmDealloc` | kernel/vm.c:217-226 | panics exactly when a whole page between the sizes is not mapped; otherwise exactly the whole pages above the new size are unmapped and freed |
| `PageTable.OldSizeTooLarge` | kernel/vm.c:213-226 | an old size above the process's, which the comment allows, on an empty table: the call panics |
| `PageTable.Machine.FreeWalk` | kernel/vm.c:230-244 | every node at or below the given one is freed once, nothing else changes, the leaf panic is not reached |
| `PageTable.Machine.UvmFree` | kernel/vm.c:248-251 | every page of the table, nodes and leaves, becomes free and every other page keeps its owner |
| `PageTable.Machine.UvmCopy` | kernel/vm.c:259-282 | succeeds exactly when the free pages suffice for the copies and the nodes their paths lack; then the child maps fresh pages with the parent's contents and permissions, and else every mapping of every table is as before; no page is leaked |
| `PageTable.Machine.ProcPagetable` | kernel/proc.c:143-167 | a table with exactly the trampoline and trapframe mapped, not for the user; no trace of it exactly when fewer than three pages are free |
| `PageTable.Machine.ProcFreePagetable` | kernel/proc.c:171-175 | all of the table's pages become free and every other page keeps its owner |
| `PageTable.PagePartition` | kernel/vm.c:127-282 | every managed page is exactly one of free (listed once), one node of one table, the page of one mapping, or held |
| `PageTable.Path` | kernel/riscv.h:356-358 | the 9-bit index fields of an address are the steps of its path, for every address below MAXVA |
| `PageTable.MappedFrame` | kernel/vm.c:127-142 | updating one page of the flat map changes no other page and no other table |
| `PageTable.Machine.NewPage` | kernel/vm.c:197-208 | exactly when a page is free for the contents and one for each missing node, one fresh page with the given bytes and permissions is mapped; else nothing changes and no page is leaked |
| `PageTable.MissingNext` | kernel/vm.c:127-142 | the nodes a range of virtual pages lacks are those its first part lacks and those the rest lacks once the first part has its own, so the cost of mapping pages one after the other is the cost of the whole |
| `PageTable.MappedInv` | kernel/vm.c:135-137 | adding a mapping keeps tree, flat map and page ownership in agreement |
| `PageTable.NodeRemovedInv` | kernel/vm.c:230-244 | freeing a node without children and mappings keeps them in agreement |
| `PageTable.UnmappedInv` | kernel/vm.c:147-163 | removing a mapping keeps tree, flat map and page ownership in agreement |
| `PageTable.NodeAddedInv` | kernel/vm.c:74-78 | linking a zeroed page as a node keeps them in agreement |
| `PageTable.AllReturned` | kernel/vm.c:248-251 | a table without nodes and mappings owns no page |
| `UserCopy.CopyIn` | kernel/vm.c:318-334 | the bytes copied are the byte-by-byte translated ones up to the first unmapped address; success exactly when there is none in range |
| `UserCopy.CopyOut` | kernel/vm.c:297-313 | memory afterwards is the byte-by-byte store up to the first unmapped address; success exactly when there is none in range |
| `UserCopy.CopyInStr` | kernel/vm.c:340-373 | succeeds exactly when the first NUL lies within max user-mapped bytes; what is copied ends with that NUL |
| `UserCopy.StoredByte` | kernel/vm.c:297-313 | after copyout every byte of every address space reads as before except the copied ones |
| `UserCopy.StoredChunk` | kernel/vm.c:301-311 | copying a page-bounded chunk at once is copying its bytes one by one |
| `UserCopy.RoundTrip` | kernel/vm.c:297-334 | copyin after a successful copyout returns what was copied out |
| `Umalloc.Allocator.constructor` | user/umalloc.c:21-22 | before the first call nothing is obtained, free or allocated |
| `Umalloc.Allocator.Predecessor` | user/umalloc.c:27-29 | the scan ends, at the free block that precedes the address |
| `Umalloc.Allocator.Release` | user/umalloc.c:24-41 | the free list is the old one with the block inserted in address order and merged with both neighbours it touches; the ring in memory represents it |
| `Umalloc.Allocator.Morecore` | user/umalloc.c:43-54 | at least 4096 units from sbrk are inserted as a free block, or no change when sbrk refuses |
| `Umalloc.Allocator.Carve` | user/umalloc.c:66-75 | an exact fit is unlinked, otherwise the end of the block is taken; the units become one allocated block |
| `Umalloc.Allocator.Malloc` | user/umalloc.c:56-80 | for every request: first fit from freep; the units of the block after its header hold the bytes asked for and one unit less would not; null exactly when no block fits and sbrk refuses; at most one sbrk call, made exactly when no block fits; the allocator comes to deal in units it was not granted exactly when it then asks for more than 0x7fffffe0 bytes |
| `Umalloc.InsertedOrdered` | user/umalloc.c:30-39 | inserting keeps one address-ordered list in which no two blocks touch |
| `Umalloc.InsertedUnits` | user/umalloc.c:30-39 | inserting frees exactly the block's units |
| `Umalloc.ReleaseKeeps` | user/umalloc.c:24-41 | after free every unit obtained from sbrk is free or in exactly one allocated block |
| `Umalloc.TakeKeeps` | user/umalloc.c:66-75 | after malloc too, and the new block overlaps no allocated one |
| `Umalloc.GrowKeeps` | user/umalloc.c:43-52 | new memory above the break is one more allocated block, ready to be freed |
| `Umalloc.Canonical` | user/umalloc.c:24-41 | the free units and the base determine the free list |
| `Umalloc.SameFreeList` | user/umalloc.c:24-80 | with the same memory and the same allocated blocks the free list is the same, whatever the order of calls |
| `Umalloc.RequestExactly` | user/umalloc.c:48-60 | sbrk receives the byte count meant if and only if the request is at most 0x7fffffe0 bytes |
| `Umalloc.RequestRanges` | user/umalloc.c:48-60 | it receives a negative one exactly from there to 0xffffffe0, and 0 or 16 for the last 31 requests |
| `Umalloc.GrantExactly` | user/umalloc.c:43-54 | what morecore records is memory the process has if and only if sbrk was asked for exactly that much |
| `Scheduler.StepKeeps` | kernel/proc.c:415-529 | every step of the scheduler loop, of acquire and release, of giving up the CPU and of changing a process's state under its lock keeps the machine invariant |
| `Scheduler.OneCpuEach` | kernel/proc.c:415-529 | in every state of every run a running process is on exactly one CPU, a CPU whose process is not running holds its lock, and noff is the number of locks held |
| `Scheduler.ChecksExactly` | kernel/proc.c:461-464 | a thread that has given up running passes all four checks of sched exactly when its own lock is the only one it holds |
| `Scheduler.IntrFollowsThread` | kernel/spinlock.c:86-92 | releasing its last lock, a thread has interrupts as before its first lock, on whatever CPU it is |
| `Scheduler.WantStays` | kernel/proc.c:466-468 | no step but a thread's own first lock changes what it will restore |
| `Scheduler.RunKeeps` | kernel/proc.c:415-529 | the machine invariant holds in every state of every run |
| `Scheduler.GoneUntilChanged` | kernel/proc.c:347-355 | in every run, from the step in which a process exits or goes to sleep until another reaps or wakes it: it keeps that state, no CPU can dispatch it, and from its switch on it is on none |
| `Scheduler.ExitedUntilReused` | kernel/proc.c:347-355 | a process that has exited is dispatched only after its slot has been freed and then made ready again, in this order |
| `Scheduler.SleepsUntilWoken` | kernel/proc.c:501-529 | a process that has gone to sleep is dispatched only after a step that made it ready |
| `Scheduler.ReadyUntilDispatched` | kernel/proc.c:472-478 | from a yield, a wakeup or a fork until it is dispatched: a process can be dispatched by whichever scheduler has its lock, and by any idle CPU that finds the lock free, and is then on that CPU |
| `Scheduler.NewThreadIntr` | kernel/proc.c:482-495 | the first thread in a slot starts with the interrupt state of its CPU's scheduler, whatever the slot's last process left |
| `ExitWait.StepKeeps` | kernel/proc.c:272-406 | every step of fork, exit, reparent, wait and kill keeps the process-table invariant |
| `ExitWait.NobodyForgotten` | kernel/proc.c:272-406 | in every state of every run no process has an exited parent, and a parent other than init asleep in wait has no zombie child |
| `ExitWait.InitExactly` | kernel/proc.c:272-406 | init too is sure of the children its scan or sleep has passed, kept by every step except exactly: a zombie is given to init after init has passed it, or a process given to init becomes a zombie after that |
| `ExitWait.InitNotForgotten` | kernel/proc.c:272-406 | in every run without such a step init asleep in wait has no zombie child |
| `ExitWait.InitForgotten` | kernel/proc.c:272-292 | a run that leaves init asleep over a zombie with nobody in exit to wake it |
| `ExitWait.ReapedByParent` | kernel/proc.c:371-391 | the process that reaps is the zombie's parent at that moment although it looked without the lock; no child of the zombie is left |
| `ExitWait.ZombieKeeps` | kernel/proc.c:339-350 | the last locked section of exit keeps the invariant: the new zombie leaves no child behind and its parent is not asleep over it |
| `ExitWait.GiveKeeps` | kernel/proc.c:272-292 | handing a child to init keeps the invariant |
| `ExitWait.SleepKeeps` | kernel/proc.c:397-404 | going to sleep after the scan keeps the invariant: no child became a zombie unseen since the scan began |
| `ExitWait.RunKeeps` | kernel/proc.c:272-406 | the process-table invariant holds in every state of every run |
| `ExitWait.AwakeUntilSleep` | kernel/proc.c:547-574 | in every run, a process woken in wait by kill, by exit's early wakeup of init or by a child's exit is not asleep again before its own next sleep, and can go on as soon as its lock is free |
| `Virtqueue.Disk.constructor` | kernel/virtio_disk.c:49-106 | all descriptors free, nothing in flight |
| `Virtqueue.Disk.AllocDesc` | kernel/virtio_disk.c:109-117 | the lowest free descriptor, or -1 exactly when none is free |
| `Virtqueue.Disk.Alloc3` | kernel/virtio_disk.c:139-148 | three distinct free descriptors, or none taken, exactly when there are not three |
| `Virtqueue.Disk.Submit` | kernel/virtio_disk.c:150-216 | takes a request exactly when fewer than two are in flight: a chain of three descriptors that were free, linked in order, published last in the ring; no descriptor of another chain changes |
| `Virtqueue.Disk.DeviceTake` | kernel/virtio_disk.c:210-216 | the entry the device reads next is the chain published next, which is then taken: ring slots are never overwritten too early |
| `Virtqueue.Disk.DeviceReturn` | kernel/virtio_disk.c:231-243 | a returned chain waits last in the used ring |
| `Virtqueue.Disk.HandleNext` | kernel/virtio_disk.c:234-243 | the first completion, and no other, is handled against the buffer recorded for its chain, which is no longer busy; the status panic is not reached |
| `Virtqueue.Disk.Intr` | kernel/virtio_disk.c:231-247 | while the device goes on taking chains and giving them back, every completion there was and every one that comes is handled exactly once and no other request changes |
| `Virtqueue.Disk.FreeChain` | kernel/virtio_disk.c:129-137 | exactly the three descriptors of the chain are freed, none twice |
| `Virtqueue.Disk.Finish` | kernel/virtio_disk.c:220-228 | a requester whose buffer is no longer busy retires exactly its own chain: its three descriptors and no others become free, the recorded buffer is cleared, every other request and its descriptors are as before, and fewer than two requests are left, so the next one is taken |
| `Virtqueue.PublishedInv` | kernel/virtio_disk.c:150-216 | publishing a chain of three free descriptors keeps the ring invariant: no descriptor in two chains, each entry in its slot |
| `Virtqueue.HandleInv` | kernel/virtio_disk.c:234-243 | the next completion's entry is intact, its status is success, and handling it keeps the ring invariant |
| `Virtqueue.RetiredInv` | kernel/virtio_disk.c:129-137 | a handled chain's links are intact and its three descriptors in use; freeing them keeps the ring invariant |
| `Virtqueue.AtMostTwo` | kernel/virtio_disk.c:139-148 | at most two chains are in flight |
| `Virtqueue.RoomExactly` | kernel/virtio_disk.c:139-148 | three descriptors are free if and only if fewer than two requests are in flight |
| `Virtqueue.WaiterProceeds` | kernel/virtio_disk.c:159-166 | a request that had to wait for descriptors is published once another has finished |
| `Virtqueue.WaitingExactly` | kernel/virtio_disk.c:234-242 | the comparison modulo NUM holds exactly when a completion waits, for all values of the wrapping 16-bit counters |
| `Pipe.Pipe.constructor` | kernel/pipe.c:29-32 | an empty pipe with both ends open and nobody asleep |
| `Pipe.CountersTell` | kernel/pipe.c:74-96 | the wrapped 32-bit counters tell exactly when the pipe is full and when it is empty |
| `Pipe.Pipe.Append` | kernel/pipe.c:83-83 | the byte is appended to the bytes written and no unread byte is overwritten |
| `Pipe.Pipe.Take` | kernel/pipe.c:105-105 | the byte delivered is the next one appended |
| `Pipe.Pipe.WriteSession` | kernel/pipe.c:67-88 | appends as much as fits; sleeps exactly on a full pipe with an open reader and a caller not killed; a writer asleep always has a full pipe and an open reader; readers keep waiting only for an empty pipe, exactly unless one sleeps while a writer that is killed or has no open reader comes with more than PIPESIZE bytes |
| `Pipe.Pipe.ReadSession` | kernel/pipe.c:90-111 | delivers the next appended bytes in order; sleeps exactly on an empty pipe with an open writer; a byte that cannot be delivered is consumed all the same |
| `Pipe.Pipe.Close` | kernel/pipe.c:51-65 | one end closes and wakes the other side; both waiting conditions are kept |
| `Pipe.Pipe.Kill` | kernel/proc.c:557-574 | a killed sleeper wakes; both waiting conditions are kept |
| `Pipe.LostWakeup` | kernel/pipe.c:75-78 | a concrete run in which a killed writer fills the pipe and the reader sleeps on |
| `Shell.GetToken` | user/sh.c:237-273 | the loops compute the token at a position: kind, both ends, and where the next one starts |
| `Shell.Peek` | user/sh.c:275-282 | skips white space and tells whether the next character is one of those given |
| `Shell.ParseRedirs` | user/sh.c:330-350 | the loop over a moving position computes the redirections that follow a position, in order, or the panic of a missing file |
| `Shell.ParseExec` | user/sh.c:364-389 | computes the simple command at a position, redirections anywhere among its words, or the panic of a misplaced symbol or too many words; ShellGrammar says of that function what it derives |
| `Shell.ParseBlock` | user/sh.c:352-362 | computes the parenthesised command at a position, or the panic of a missing parenthesis; ShellGrammar says of that function what it derives |
| `Shell.ParsePipe` | user/sh.c:319-328 | computes the pipeline at a position, nested to the right; ShellGrammar says of that function what it derives |
| `Shell.ParseLine` | user/sh.c:304-317 | computes the line at a position, on every input in finitely many steps; ShellGrammar, RoundTrip and LineWords are about that function |
| `Shell.ParseCmd` | user/sh.c:289-302 | terminates on every input; succeeds exactly when the whole input is one line of the grammar |
| `Shell.NulTerminate` | user/sh.c:392-432 | writes NUL at exactly the end of every word of the command |
| `Shell.LineWords` | user/sh.c:304-389 | every argument and file of a parsed command spans a maximal word of the input |
| `Shell.CmdReads` | user/sh.c:392-432 | with the NULs written, every word read as a C string from its start is exactly its token |
| `Shell.ParseBuffer` | user/sh.c:289-302 | parse and terminate in place: the command read back from the buffer is the command of the input's tokens |
| `Shell.RoundTrip` | user/sh.c:289-389 | printing any command with at most nine words per exec and parsing the text gives the same command |
| `ShellGrammar.ParsesExactly` | user/sh.c:289-389 | for every input and every command: the parser succeeds with the command if and only if the input's tokens derive it in the grammar of lines, ampersands, pipelines, blocks and simple commands with redirections anywhere; so no word, redirection or symbol is lost, added or moved |
| `ShellGrammar.PanicsExactly` | user/sh.c:289-389 | the parser panics if and only if the tokens derive no command: leftovers, misplaced symbols, missing files and parentheses, ten words or more; and they never derive two |
| `ShellGrammar.LexExactly` | user/sh.c:237-273 | the input is covered by one sequence of maximal words, symbols and double arrows with only white space around them, and gettoken returns exactly that sequence |
| `ShellGrammar.ExecSound` | user/sh.c:364-389 | what parseexec accepts is derived as words with redirections anywhere, or as a block, from exactly the tokens it has passed |
| `ShellGrammar.SimpleComplete` | user/sh.c:364-389 | words and redirections in any order, fewer than ten words, before an operator or the end: parseexec accepts them with all words in order and all redirections in order, and stops right after them |
| `ShellGrammar.LineComplete` | user/sh.c:304-317 | tokens that derive a line, before a closing parenthesis or the end, are accepted with the command they derive |
| `Grep.MatchHere` | user/grep.c:75-81 | true exactly when some prefix of the text is in the pattern's language |
| `Grep.MatchStar` | user/grep.c:84-89 | true exactly when some run of fitting characters is followed by a match of the rest |
| `Grep.Match` | user/grep.c:66-72 | true exactly when some substring, or some prefix under ^, is in the pattern's language, for all patterns and texts |
| `Grep.StarStep` | user/grep.c:77-77 | the language of a starred first item, unrolled |
| `Grep.OneStep` | user/grep.c:79-79 | the language of a single first item, unrolled |
| `Grep.EndStep` | user/grep.c:76-78 | the end of the pattern matches everywhere, and a final $ only at the end of the text |
| `Grep.OccurrenceShift` | user/grep.c:66-72 | occurrences from a position on are the occurrences in the rest of the text |

## Left out

- Files.Volume.Writei: a copy that fails is modelled as touching nothing of its block; a copy that stops inside a block can leave an unlogged change in the buffer.
- Files.Volume.Balloc: the bitmap is a sequence of bits, 8192 to a bitmap block, not bytes under a mask.
- Recovery.RecoverFromLog: the header on disk lists distinct home blocks within the disk, as RecoveryHasBuffers proves of every disk of every run; other disks are not considered.
- LogRefinement.CrashSafety: after a boot that recovered a non-empty log, whose reference counts have wrapped, only further crashes and recoveries are considered.
- LogRefinement.RunInv: the same.
- Log.Logger.Commit: other threads keep what they have locked and lock none of the blocks the commit needs; threads that move are those of LogProtocol.
- Log.Logger.WriteLogStep: as Log.Logger.Commit.
- Log.Logger.InstallStep: as Log.Logger.Commit.
- Log.Logger.WriteLog: as Log.Logger.Commit.
- Log.Logger.WriteHead: as Log.Logger.Commit.
- Log.Logger.InstallTrans: as Log.Logger.Commit.
- Files.Volume.FileWrite: the source is readable up to some point and not after it; memory that is readable again further on is not modelled.
- FileCrash.FileWriteCrash: what each operation does to the file is taken from the contract of Writei for a chunk copied whole or refused, through any reading of files off the home blocks; the layout of inodes and their blocks in them, and a second writer of the file during the call, are not modelled.
- PageTable.Machine.UvmDealloc: sizes of 2^43 bytes and more, whose page count does not fit the source's int, are excluded.
- Mkfs.Image.Iappend: requires room for two blocks per block touched, where mkfs itself never checks for room.
- PageTable.Machine.MapPages: page-table entries are records of page number and flags, not 64-bit words.
- PageTable.Machine.FreeWalk: pages hold entries or bytes as one typed value; the memory is not one array of bytes.
- Umalloc.Allocator.Malloc: addresses count in headers, so an sbrk by the program that breaks 16-byte alignment is not modelled; a region sbrk answers lies above everything recorded, so what follows an overlapping one is not modelled.
- Umalloc.Allocator.Morecore: as Malloc.
- Names.Namespace.Create: calls are completed ones; the interleaving of several calls on directories is not modelled, nor is path resolution (skipelem, namex).
- Scheduler.StepKeeps: an interrupt handler that runs on an idle CPU's scheduler stack takes no locks in the model.
- ExitWait.NobodyForgotten: leaves init to InitExactly and InitNotForgotten, since the claim fails for it.
- Shell.ParseCmd: the panics are one result; which message each prints is not modelled.
- Virtqueue.Disk.Submit: the sleep until descriptors are free, and the wakeups, are not modelled.
- Pipe.Pipe.Close: freeing the pipe's page when both ends are closed is not modelled.
- Progress: nothing is said about fairness, deadlock or prompt wakeups.
- Weak memory: lock operations are sequentially consistent steps.
- Boot, traps, console, UART, formatted output, exec and system-call argument handling: device registers and plumbing, without state worth a proof here.
- The file table, file descriptors and pipealloc: reference counting that repeats the inode cache's argument.
- The read loop of grep and the other user programs: thin clients of system calls.

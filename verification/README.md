# xv6: a model of the kernel's hard parts, with proofs

This project models the parts of the xv6 kernel (and its shell and user-level allocator) whose correctness
rests on invariants that the C code never writes down, and proves those invariants and what follows from
them.  Code that updates fields in loops is a Dafny class with methods; protocols that interleave are
systems of atomic steps, and their theorems are about every run.

| part | files | what it covers |
|---|---|---|
| log | Disk, LogProtocol, LogInvariant, LogTheorems, Allowance, LogSpace, LogCode | write-ahead log, group commit, crash and recovery, log space |
| buffer cache | BufRing, BufCache, BufSteps, BioCode | the prev/next ring, recycling, buffer locks, the cache as an uncached disk with pending writes |
| file system | Words, Bitmap, Inodes, Files, Writing, FileRuns, Logging, FsCode, FsStart | block ownership, block maps, reading and writing files, truncation, chunked writes, what has to be logged |
| directories | Links, LinkOps, Paths, LinkRuns, LinkCode, LinkStart | link counts, the directory tree, path lookup, where paths lead after each call |
| processes | ProcTable, ProcInvariant, ProcTheorems, ProcCode, Scheduler, SleepWakeup, SleepLock | fork, exit, wait, kill, the priority scheduler, sleep and wakeup on any channel, sleep-locks |
| memory | Frames, Spaces, KernelMap, Break, VmRuns, VmCode | physical frames, page tables and their permissions, growing, copying and freeing address spaces |
| user programs | Umalloc, UmallocFree, UmallocBreak, UmallocHeap, UmallocUnique, UmallocRuns, ShellLex, ShellTree, ShellGrammar, ShellDecide, ShellParse, ShellBuffer | malloc and free, the shell's parser against its grammar |
| pipe | PipeCode | the pipe's ring buffer |

Ghost parameters and fields record what the C code leaves implicit: the owner of every block and frame, the
order of the buffer ring, the history of writes, how often kalloc found no frame.  A panic of the kernel is an
out-parameter `panicked`, and contracts say when it is set.

## Where the code does less than it seems to promise

- The log.  `begin_op` reserves MAXOPBLOCKS = 10 blocks for every operation, but `log_write` refuses at
  `log.size - 1` entries and mkfs makes `log.size` equal to LOGSIZE with the header included.  The panic is
  unreachable exactly if every operation appends at most nine blocks (`LogSpace.MkfsLogSpace`; for any layout
  `LogSpace.LogNeverOverflowsIff`).
- `malloc` rounds up in 32-bit arithmetic, and `morecore` passes a number of bytes to `sbrk`, which takes an int.  A
  block that comes from `sbrk` holds the request and is made of memory that was granted exactly up to 2^31 - 16 bytes
  (`UmallocBreak.Served`).  For 2^31 bytes `sbrk` is asked for a negative number (`UmallocBreak.HugeRequest`), and the
  break does not move up (`UmallocBreak.BreakStays`).  For 2^32 - sz - 8 bytes in a process of sz bytes, such as
  malloc(0xFFFFBFF8) in one of 0x4000, it is asked for -sz bytes, frees all pages and refuses
  (`UmallocBreak.FreesItself`).  `UmallocHeap.Heap.Malloc` has the exact condition.
- mkfs rounds up the size of the root directory; if the entries end on a block boundary this leaves a hole
  (`Writing.RootSize`), and a write into the hole changes an address in the inode that `writei` does not pass
  on to the disk (`Writing.HoleBreaksWriteThrough`; on a disk as mkfs makes it, `FsStart.LostAddress`).
  `FsCode.FileSystem.Writei` says exactly when it does.
- `filewrite` returns -1 although a prefix has been written, if only a later chunk does not fit
  (`FsCode.FileSystem.Filewrite`).
- `link` and `create` in a directory that was itself unlinked break the link counts or the tree; the invariant
  survives exactly if the directory is linked (`LinkCode.LinkGood`, `LinkCode.CreateGood`).  A process gets there by
  chdir into a directory that is then removed (`LinkStart.OrphanReached`, `LinkStart.OrphanBreaks`).
- A buffer that its holder changed and released without writing or pinning it may lose the change; `brelse` keeps the
  cache right exactly if that has been done (`BioCode.Bcache.Brelse`).
- `kill(0)`, or kill of a pid that a failed fork left behind, marks an unused slot, and the next process there is
  born killed (`ProcTheorems.BornKilled`; exactly these steps do it, `ProcTheorems.CleanIff`).
- `growproc` to size zero frees the pages but reports failure and keeps the size; the page counters agree after
  a call exactly if it is not such a shrink (`VmCode.Memory.Growproc`).

## Model

| member | source | states |
|---|---|---|
| `LogTheorems.CrashAtomicity` | xv6-public/log.c:68-202 | in every run, with any number of operations and crashes also during recovery, recovering the disk yields exactly the writes of a prefix of the history that cuts no operation in two |
| `LogTheorems.OnlyHeaderWriteCommits` | xv6-public/log.c:192-202 | the only steps that change what a crash would leave are the header write of commit and the end of an operation that logged nothing |
| `LogTheorems.CommittedTogether` | xv6-public/log.c:125-174 | a write and the end of its operation are committed together: every operation falls into exactly one commit |
| `LogTheorems.UnfinishedIsNotCommitted` | xv6-public/log.c:145-174 | no write of an operation that has not ended is committed |
| `LogTheorems.CommitExcludesOps` | xv6-public/log.c:145-174 | no operation is outstanding while a commit runs, so the panic "log.committing" is unreachable and the log does not change under a commit |
| `LogTheorems.WriteLogReadsModifiedData` | xv6-public/log.c:177-190 | while write_log copies, every logged block is pinned in the cache with exactly the data the operations wrote |
| `LogTheorems.IdleIsDurable` | xv6-public/log.c:145-202 | with no operation outstanding the home blocks hold every write made so far and the log is empty |
| `LogTheorems.RecoveryCompletes` | xv6-public/log.c:115-122 | from any reachable state a crash followed by recovery reaches a running system with exactly the committed contents |
| `LogTheorems.RecoveryRestarts` | xv6-public/log.c:69-82 | recovering a disk whose recovery was cut short after any number of copies, or was already complete, gives the same contents |
| `LogTheorems.HoldsRecovers` | xv6-public/log.c:69-82 | recovery rebuilds the contents a disk holds in its home blocks and committed log blocks |
| `LogTheorems.RecoveredHolds` | xv6-public/log.c:115-122 | every disk with a well-formed header holds the contents that recovery gives it |
| `LogInvariant.StepKeeps` | xv6-public/log.c:53-233 | every step of begin_op, log_write, end_op, commit, recovery, the cache and a crash keeps the protocol invariant |
| `LogInvariant.CrashKeeps` | xv6-public/log.c:115-122 | losing the cache and all in-memory state at any moment leaves a disk that still holds the committed contents |
| `LogSpace.LogSpaceBound` | xv6-public/log.c:125-141 | log entries plus appends still allowed to outstanding operations never exceed 10 + 2 * bound |
| `LogSpace.LogNeverOverflowsIff` | xv6-public/log.c:213-233 | the panic "too big a transaction" is unreachable if and only if 10 + 2 * bound is below the limit of log_write |
| `LogSpace.MkfsLogSpace` | xv6-public/mkfs.c:25 | on the layout of mkfs this holds if and only if every operation appends fewer than MAXOPBLOCKS blocks |
| `LogSpace.FillsUp` | xv6-public/log.c:125-141 | otherwise a run that fills the log exists |
| `LogCode.Log.WriteLog` | xv6-public/log.c:176-190 | the log blocks receive the cached data; every intermediate disk still recovers to the old contents |
| `LogCode.Log.WriteHead` | xv6-public/log.c:101-113 | only the header block changes, and it lists exactly the logged blocks |
| `LogCode.Log.InstallTrans` | xv6-public/log.c:69-82 | every logged block reaches its home; every intermediate disk recovers to the new contents |
| `LogCode.Log.Erase` | xv6-public/log.c:199-200 | the header is cleared when all blocks are home; the contents are unchanged |
| `LogCode.Log.Commit` | xv6-public/log.c:192-202 | of the disks seen during a commit there is one from which on all recover to the new contents, and all before recover to the old ones |
| `LogCode.Log.ReadHead` | xv6-public/log.c:84-96 | the in-memory header equals the list on disk |
| `LogCode.Log.RecoverFromLog` | xv6-public/log.c:115-122 | after boot the home blocks are the recovered contents, the log is empty, and every disk on the way recovers to the same |
| `LogCode.Log.constructor` | xv6-public/log.c:53-66 | after initlog the home blocks are the recovered contents and the log is empty |
| `LogCode.Log.BeginOp` | xv6-public/log.c:126-142 | an operation starts exactly if no commit runs and the log has room for ten blocks of every operation, and the counters follow its step |
| `LogCode.Log.EndOp` | xv6-public/log.c:146-175 | only the end of the last outstanding operation writes, and then a crash leaves all or nothing |
| `LogCode.Log.LogWrite` | xv6-public/log.c:213-233 | the block is logged, once, behind those logged before, and pinned; the panics happen exactly at the limit or outside of an operation |
| `BufRing.Unlink` | xv6-public/bio.c:132-133 | joining the neighbours of a buffer leaves a ring of the others in the same order |
| `BufRing.Push` | xv6-public/bio.c:134-137 | linking a buffer behind the head gives the ring with it in front |
| `BioCode.Bcache.constructor` | xv6-public/bio.c:38-56 | all buffers are in the ring once, and the cache stands for the image of the disk |
| `BioCode.Bcache.Bget` | xv6-public/bio.c:61-93 | a reference to the only buffer of the block, or else to the idle buffer released longest ago; panics exactly if NBUF other blocks are open or pinned; no contents change |
| `BioCode.Bcache.Bread` | xv6-public/bio.c:96-106 | returns the contents of the block, locked, or sleeps exactly if somebody holds it; the disk does not change |
| `BioCode.Bcache.Iderw` | xv6-public/memide.c:38-60 | a dirty buffer goes to the disk, an invalid one is read from it; panics exactly if the caller does not hold the lock, there is nothing to do, or the block is out of range |
| `BioCode.Bcache.Bwrite` | xv6-public/bio.c:109-116 | exactly the holder writes: the contents of its block become durable and nothing else changes |
| `BioCode.Bcache.Brelse` | xv6-public/bio.c:120-141 | exactly the holder releases; afterwards unlocked clean buffers equal the disk if and only if what it changed was written or pinned before |
| `BioCode.Bcache.EnterBuffer` | xv6-public/bio.c:96-106 | with the lock free, bread sees the contents of the block |
| `BioCode.Bcache.ModifyBuffer` | xv6-public/log.c:182-186 | the block contains what its holder wrote into the buffer, and all others are as before |
| `BioCode.Bcache.PinBuffer` | xv6-public/log.c:231 | the block is pinned: its buffer cannot be reused |
| `BioCode.Bcache.LeaveBuffer` | xv6-public/bio.c:122-125 | letting go of the lock is safe if and only if the contents are written or pinned |
| `BioCode.Bcache.UnrefBuffer` | xv6-public/bio.c:127-140 | a buffer nobody uses any more is the one released last, and the ring stays in the order of the last releases |
| `BioCode.Bcache.Perform` | xv6-public/bio.c:61-141 | each step of any caller does what it does to an uncached disk with pending writes |
| `BioCode.Bcache.Run` | xv6-public/bio.c:61-141 | in every interleaving of callers who write or pin what they change, every bread answers as the uncached disk does, the disk is what is durable there, and it stops only where bget panics |
| `BufCache.PendingIsKept` | xv6-public/bio.c:78-80 | in every run, what is not on the disk yet is pinned or in the hands of a holder |
| `BufCache.LastModify` | xv6-public/bio.c:96-106 | in every run a block contains what was put there last, whoever did it |
| `BufCache.LastWrite` | xv6-public/bio.c:109-116 | in every run the disk holds what a block contained when it was written last |
| `BufCache.NewNumber` | xv6-public/bio.c:61-93 | in a run numbered by its steps every new reference has a new name, so that bget is never left out |
| `BufSteps.MissKeeps` | xv6-public/bio.c:81-90 | recycling an idle buffer keeps one buffer per block and loses nothing |
| `BufSteps.LeaveKeeps` | xv6-public/bio.c:120-125 | nothing is lost by letting go of a lock if and only if the contents are saved |
| `BufSteps.NoBuffer` | xv6-public/bio.c:92 | no buffer is found exactly if as many other blocks as there are buffers are open or pinned |
| `BufRing.ReleaseFront` | xv6-public/bio.c:128-137 | moving a buffer to the front keeps the ring in the order of the last releases |
| `BufCache.ShowsOne` | xv6-public/bio.c:61-106 | every block shows exactly one content |
| `Bitmap.FindFree` | xv6-public/fs.c:63-76 | the nested scan finds the lowest clear bit, or there is none |
| `Bitmap.CountFree` | xv6-public/fs.c:697-706 | the nested scan counts the clear bits |
| `Bitmap.SetBitSets` | xv6-public/fs.c:66-68 | setting the bit of a block in the packed map sets that bit and no other |
| `Bitmap.ClearBitClears` | xv6-public/fs.c:88-92 | clearing it clears that bit and no other |
| `Words.WordSet` | xv6-public/fs.c:390-392 | storing a 32-bit word in a block changes that word and no other |
| `Inodes.AttachKeeps` | xv6-public/fs.c:379-394 | hanging a free block into an empty slot keeps unique ownership: a bit is set exactly if the block is metadata or exactly one slot names it |
| `Inodes.WriteBlockKeeps` | xv6-public/fs.c:501 | overwriting a data block changes no slot of any inode |
| `Inodes.FreeDirect` | xv6-public/fs.c:414-419 | freeing a direct block finds its bit set and keeps unique ownership |
| `Inodes.FreeEntry` | xv6-public/fs.c:424-427 | freeing the block of an indirect entry finds its bit set; only the entries already freed are exempt from ownership |
| `Inodes.FreeIndirect` | xv6-public/fs.c:429-430 | freeing the indirect block restores unique ownership |
| `Inodes.FreeIsUnowned` | xv6-public/fs.c:697-706 | clear bits number the disk size less metadata less owned blocks |
| `FsCode.FileSystem.Balloc` | xv6-public/fs.c:56-78 | the lowest free block, marked and zeroed, and both changes are logged; panics exactly if the disk is full |
| `FsCode.FileSystem.Bfree` | xv6-public/fs.c:81-95 | clears the bit and logs the bitmap block; panics exactly if it is clear already |
| `FsCode.FileSystem.Bmap` | xv6-public/fs.c:372-400 | the block of the file, allocated with a zero block if missing; nothing any slot named is lost or changed |
| `FsCode.FileSystem.Itrunc` | xv6-public/fs.c:408-435 | never meets a free block; afterwards exactly the blocks of the other inodes are owned, and the inode has no blocks in memory and on disk; every block that changed, bitmap and inode blocks included, is logged |
| `FsCode.FileSystem.Readi` | xv6-public/fs.c:452-476 | the bytes of the file from the offset, cut at the end; changes nothing unless the file has holes, and then no byte of any file |
| `FsCode.FileSystem.Writei` | xv6-public/fs.c:481-511 | splices the bytes into the file and touches no other file; every block that changed, bitmap and inode blocks included, is logged; keeps files without holes so; the disk inode stays equal to the in-memory one exactly if the file grew or no address in the inode was missing; logs at most WriteCost blocks |
| `FsCode.FileSystem.WriteTransaction` | xv6-public/file.c:140-145 | one transaction of filewrite logs every block it changes; on a file without holes at most ten, and seven if the disk has one bitmap block |
| `FsCode.FileSystem.Filewrite` | xv6-public/file.c:117-155 | writes all bytes exactly if they fit and otherwise a prefix; each of its transactions logs every block that it changes; in a file without holes at most ten blocks each, or seven with one bitmap block, and with the inode on disk up to date |
| `FsCode.FileSystem.Iupdate` | xv6-public/fs.c:220-236 | the disk inode equals the in-memory one |
| `FsCode.FileSystem.GetFsStats` | xv6-public/fs.c:672-707 | the counts of files, directories and inodes in use, and free blocks as size less metadata less owned blocks |
| `FsCode.FileSystem.constructor` | xv6-public/mkfs.c:237-251 | on the fresh disk of mkfs exactly the metadata bits are set, no block is owned and every file is empty |
| `FsCode.FileSystem.Perform` | xv6-public/fs.c:408-511 | a read, write or truncation of one file answers as the byte sequence would and changes that file only, in memory and on disk |
| `FsCode.FileSystem.Run` | xv6-public/fs.c:372-511 | every run of reads, writes and truncations gives exactly the answers and contents of a table of byte sequences, keeps unique block ownership and files without holes, and stops only if the disk is full |
| `FileRuns.WriteFiles` | xv6-public/fs.c:481-511 | writing one file leaves the contents of all others |
| `FileRuns.TruncFiles` | xv6-public/fs.c:408-435 | so does truncating it |
| `FileRuns.ReadBack` | xv6-public/fs.c:452-511 | what was written is read back where it was written; all that does not overlap, and all other files, read as before |
| `Logging.CoversTrans` | xv6-public/log.c:213-233 | what two steps of an operation log covers what they change together |
| `Logging.ChainMore` | xv6-public/file.c:126-145 | a further transaction that logs what it changes extends a chain of such transactions |
| `Writing.ChunkFits` | xv6-public/file.c:126-133 | for every size, offset and length up to the chunk size a write costs at most ten blocks |
| `Writing.ChunkOneBitmapBlock` | xv6-public/file.c:126-133 | with a single bitmap block it costs at most seven |
| `Writing.BoundedStep` | xv6-public/fs.c:498-504 | the bound on logged blocks is kept by every iteration: data, bitmap, indirect and inode blocks |
| `Writing.ProgressStep` | xv6-public/fs.c:498-504 | so are the bytes written so far, the other files, and the exact condition for a changed address in the inode |
| `Writing.NoHolesTop` | xv6-public/fs.c:506-509 | in a file without holes a write that does not grow it needs no new address in the inode |
| `Writing.OthersRead` | xv6-public/fs.c:481-511 | files other than the written one keep their bytes |
| `Writing.RootSize` | xv6-public/mkfs.c:158-163 | the rounding of the root size adds no unmapped block exactly if the entries do not end on a block boundary |
| `Writing.HoleBreaksWriteThrough` | xv6-public/fs.c:506-509 | a write into a hole behind the mapped blocks changes an address of the inode without growing the file |
| `FsStart.FilewriteFitsLog` | xv6-public/file.c:126-145 | on the disk and layout of mkfs, operations that log no more than a transaction of filewrite there never reach the panic "too big a transaction" |
| `FsStart.RootHole` | xv6-public/mkfs.c:158-163 | a root directory with one full block and its size rounded up has a hole, and its bytes read as zero there |
| `FsStart.MakeRoot` | xv6-public/mkfs.c:87-163 | the disk of mkfs with such a root directory |
| `FsStart.LostAddress` | xv6-public/fs.c:506-509 | writing the next entry into it succeeds and leaves the inode on disk without the new address |
| `Files.SpliceTwice` | xv6-public/fs.c:498-504 | splicing adjacent pieces one after the other is splicing their concatenation |
| `Files.PatchSplices` | xv6-public/fs.c:499-502 | patching the block of an offset is splicing the bytes of the file |
| `Files.ExtendedReads` | xv6-public/fs.c:372-400 | filling missing blocks with zero blocks changes no byte of any file |
| `Files.Grows` | xv6-public/fs.c:372-400 | a file without holes that gets its next block is a file without holes |
| `Links.UpReachesRoot` | xv6-public/fs.c:516-578 | from every linked directory, following ".." leads to the root |
| `Links.EmptyDirNamedOnce` | xv6-public/sysfile.c:168-181 | an empty linked directory is named by its one entry only, so its link count is one |
| `LinkOps.LinkCounts` | xv6-public/sysfile.c:118-165 | a new link keeps every count equal to the number of entries naming the inode in linked directories exactly if its directory is linked |
| `LinkOps.CreateTree` | xv6-public/sysfile.c:241-283 | a new inode in a linked directory keeps the tree, the dots and unique names |
| `LinkOps.CreateCounts` | xv6-public/sysfile.c:241-283 | and every link count, with the entry ".." of a new directory counted for its parent |
| `LinkOps.CreateUnlinked` | xv6-public/sysfile.c:241-283 | in an unlinked directory no choice of a tree makes the invariant true afterwards |
| `LinkOps.UnlinkCounts` | xv6-public/sysfile.c:184-239 | unlink keeps every link count, also that of the parent of a removed directory |
| `LinkOps.UnlinkTree` | xv6-public/sysfile.c:184-239 | and the tree |
| `LinkOps.UnlinkSafe` | xv6-public/sysfile.c:210-212 | the entry to remove names an inode with a positive link count, other than the directory itself |
| `LinkOps.DirStaysLinked` | xv6-public/sysfile.c:221-224 | a directory that loses a subdirectory stays linked |
| `LinkOps.FreeKeeps` | xv6-public/fs.c:331-352 | freeing an inode without links keeps the invariant |
| `LinkCode.LinkGood` | xv6-public/sysfile.c:118-165 | link keeps the invariant if and only if the directory is linked |
| `LinkCode.CreateGood` | xv6-public/sysfile.c:241-283 | create keeps it if and only if the directory is linked |
| `LinkStart.FreshTreeGood` | xv6-public/mkfs.c:117-128 | it holds of a root directory with its dots |
| `LinkStart.MkfsGood` | xv6-public/mkfs.c:117-163 | it holds of the root directory with the files of mkfs and the empty entries that rounding adds |
| `LinkStart.OrphanReached` | xv6-public/sysfile.c:184-239 | a directory removed while a process is in it is reached from the tree of mkfs, and the invariant still holds |
| `LinkStart.OrphanBreaks` | xv6-public/sysfile.c:118-283 | the calls lead there from the tree of mkfs, and from there create and link lead to trees without the invariant |
| `LinkCode.DirTree.Dirlookup` | xv6-public/fs.c:524-548 | finds an entry in use with the name, compared on 14 bytes, exactly if there is one |
| `LinkCode.DirTree.Dirlink` | xv6-public/fs.c:551-578 | fails without change exactly if the name is present; otherwise writes the first free entry or appends |
| `LinkCode.DirTree.Isdirempty` | xv6-public/sysfile.c:168-181 | true exactly if nothing but the dots is in use |
| `LinkCode.DirTree.Ialloc` | xv6-public/fs.c:194-214 | the first free inode; panics exactly if there is none |
| `LinkCode.DirTree.Iput` | xv6-public/fs.c:331-352 | an inode without links and other references is free afterwards, with nothing in it; otherwise nothing changes; the invariant stays |
| `LinkCode.DirTree.SysLink` | xv6-public/sysfile.c:118-165 | succeeds exactly for an existing non-directory, an existing directory and a new name: then the name finds the inode, which has one link more, and no other entry or inode changes; a failed call restores everything; keeps the invariant exactly if it failed or the directory is linked |
| `LinkCode.DirTree.SysUnlink` | xv6-public/sysfile.c:184-239 | never panics, keeps the invariant; removes the entry exactly if it exists, is no dot and no directory with entries: then the name is not found, the inode has one link less and is free exactly if that was the last one and nobody has it open, and nothing else changes; otherwise changes nothing |
| `LinkCode.DirTree.CreateNode` | xv6-public/sysfile.c:241-283 | a name of a file asked for as a file yields that file, and any other existing name nothing, without change; a new name gets an inode of the kind asked for with one link, and finds it, and no other entry or inode changes; panics exactly if no inode or entry is free, or the name found leads to a free inode; keeps the invariant exactly if nothing was made or the directory is linked |
| `Links.SameChars` | xv6-public/fs.c:516-520 | names are the same exactly if their first fourteen characters are, up to the end of the string |
| `LinkRuns.OrphanStep` | xv6-public/fs.c:331-352 | only unlink of the last name of an open file leaves an inode in use without links, and closing it ends that |
| `LinkRuns.OrphansAreOpen` | xv6-public/fs.c:331-352 | in every run an inode in use without links lost its last name while it was open, and has not been closed since |
| `Paths.Skipelem` | xv6-public/fs.c:595-618 | the next element, cut to 14 characters, and the rest without leading slashes; fails exactly if there is none |
| `Paths.SplitJoined` | xv6-public/fs.c:583-594 | splitting a path undoes joining its elements, up to the cut to 14 characters |
| `Paths.ElemsBehind` | xv6-public/fs.c:583-618 | the elements of two paths joined by a slash are those of the first and then those of the second |
| `Paths.WalkLinked` | xv6-public/fs.c:624-657 | from a linked directory every path leads to an inode in use, and to linked directories only |
| `LinkCode.WalksLinked` | xv6-public/fs.c:624-670 | so do namei and nameiparent, from the root or a linked directory |
| `LinkCode.DirTree.Namex` | xv6-public/fs.c:624-657 | namei yields the inode the elements lead to and nameiparent the directory of the last one and that element, or 0; it panics exactly if a free inode is on the way, and never from the root or a linked directory |
| `LinkRuns.RelativePath` | xv6-public/fs.c:629-632 | from the directory that an absolute path leads to, a relative path leads where the two joined by a slash lead, from any directory |
| `LinkRuns.RelativeHolder` | xv6-public/fs.c:629-632 | so does nameiparent, with the same last element |
| `LinkRuns.ShortPaths` | xv6-public/fs.c:629-632 | the empty path leads to the current directory and a slash to the root |
| `LinkRuns.NameHere` | xv6-public/fs.c:629-643 | a name without a slash is looked up in the current directory |
| `LinkRuns.AbsolutePath` | xv6-public/fs.c:629-632 | where an absolute path leads does not depend on the current directory |
| `LinkCode.DirTree.Perform` | xv6-public/sysfile.c:118-393 | link, unlink, create and chdir by path name have exactly their effect on the tree and the current directory, panic exactly as described, and keep the invariant if and only if they make no entry in an unlinked directory |
| `LinkCode.DirTree.RunPaths` | xv6-public/sysfile.c:118-393 | in every sequential run of such calls, the states are those the calls lead to, each keeps link counts, unique names and the tree, and the run stops only at a panic or at an entry made in an unlinked directory |
| `LinkCode.DirTree.Run` | xv6-public/sysfile.c:118-367 | the same for every sequential run of link, unlink, create and close on inodes |
| `LinkCode.StartedSafe` | xv6-public/sysfile.c:118-393 | calls whose paths start at the root or in a linked directory keep the invariant and meet no free inode |
| `LinkRuns.LinkedPath` | xv6-public/sysfile.c:118-165 | after a successful link the new path leads to the inode of the old one, and every path that led somewhere leads to the same inode |
| `LinkRuns.CreatedPath` | xv6-public/sysfile.c:241-283 | after create the path leads to a fresh inode of the kind asked for, and every path that led somewhere still leads there |
| `LinkRuns.UnlinkedPath` | xv6-public/sysfile.c:184-239 | after unlink the path leads nowhere, and every path that still leads somewhere leads where it did |
| `LinkRuns.PutFind` | xv6-public/fs.c:551-578 | after dirlink, lookup finds the new name and every other name as before |
| `LinkRuns.EraseFind` | xv6-public/sysfile.c:219-223 | after an entry is erased its name is not found, and every other name is found as before |
| `LinkRuns.RemovesOrRefuses` | xv6-public/sysfile.c:184-239 | an entry that unlink removes and one it refuses cannot share a name |
| `SleepWakeup.StepKeeps` | xv6-public/proc.c:430-487 | every step of sleep, wakeup, the schedulers, a preemption or a kill keeps the invariant of locks, process states and wakeups owed, for any channels and locks |
| `SleepWakeup.NoLostWakeup` | xv6-public/proc.c:430-487 | in every run, for every channel and every condition that is changed under its lock: if a process sleeps while what it waits for is true, the holder of that lock is still to wake the channel |
| `SleepWakeup.SleeperRoused` | xv6-public/proc.c:470-510 | in every run a sleeper is made runnable by exactly the wakeups of its channel and the kills of itself |
| `SleepWakeup.ForgottenWakeup` | xv6-public/proc.c:480-487 | whoever lets go of a lock without waking loses a wakeup exactly if somebody waits on one of its channels for what is true |
| `SleepWakeup.NobodyStranded` | xv6-public/proc.c:430-487 | such a process can still be woken, in a number of steps bounded by what the holder of ptable.lock has to do |
| `SleepLock.StepKeeps` | xv6-public/sleeplock.c:22-42 | every step of any process, of a scheduler, a preemption or a kill keeps the invariant of lock fields, process states and waiters |
| `SleepLock.MutualExclusion` | xv6-public/sleeplock.c:22-42 | in every run at most one process has the sleep-lock, and pid names it |
| `SleepLock.NoLostWakeup` | xv6-public/sleeplock.c:22-42 | the corollary for sleep-locks: if a process sleeps on a free sleep-lock, the holder of lk->lk is still to call wakeup |
| `SleepLock.RunSimulated` | xv6-public/sleeplock.c:22-42 | every run of acquiresleep and releasesleep is a run of sleep and wakeup with one channel |
| `SleepLock.CanAcquire` | xv6-public/sleeplock.c:22-42 | in every state of every run, each process in acquiresleep can still get the sleep-lock, within 102 steps of processes and schedulers whatever the number of processes |
| `ProcInvariant.StepKeeps` | xv6-public/proc.c:73-313 | every step of fork, exit, wait, kill, sleep, wakeup and switching keeps the invariant of the process table |
| `ProcInvariant.ExitKeeps` | xv6-public/proc.c:251-266 | exit leaves no parent asleep with a zombie child and no child without a live parent |
| `ProcTheorems.NoMissedExit` | xv6-public/proc.c:251-313 | in every run no process sleeps in wait while a child of it is a zombie |
| `ProcTheorems.ParentsLive` | xv6-public/proc.c:181-266 | every parent is a live process, and every live process or zombie but init has one |
| `ProcTheorems.PidsDistinct` | xv6-public/proc.c:88-91 | pids of slots in use are distinct |
| `ProcTheorems.ReapedOnce` | xv6-public/proc.c:273-313 | along every run the pids that wait returns are distinct and belong to processes that exited |
| `ProcTheorems.ReaperIsParent` | xv6-public/proc.c:284-300 | whoever reaps a process forked it or is init |
| `ProcTheorems.ExitedIsKept` | xv6-public/proc.c:265-269 | a process that exited and was not reaped is a zombie with a live parent |
| `ProcTheorems.KillFindsProcess` | xv6-public/proc.c:492-510 | kill of a pid in use marks that process |
| `ProcTheorems.KilledIsAwake` | xv6-public/proc.c:500-503 | in every run, right after a kill the process is marked and not asleep, and nothing else has changed |
| `ProcTheorems.SleeperRoused` | xv6-public/proc.c:251-503 | in every run a sleeper becomes runnable exactly by a wakeup of what it sleeps on, a kill of itself, or the exit of a child, or of a process that leaves it a zombie if it is init |
| `ProcTheorems.KilledStays` | xv6-public/proc.c:500 | nothing takes the mark back: a killed process is killed for as long as it has its pid |
| `ProcTheorems.PidGone` | xv6-public/proc.c:88-91 | a pid that was given out and has left its slot never comes back |
| `ProcTheorems.CleanIff` | xv6-public/proc.c:492-510 | a step leaves no mark in an unused slot exactly if it is neither a kill that matches an unused slot nor a fork giving up a killed embryo |
| `ProcTheorems.BornKilled` | xv6-public/proc.c:492-510 | kill(0) marks an unused slot and the next process is born killed |
| `ProcCode.Ptable.Allocproc` | xv6-public/proc.c:73-93 | the first unused slot becomes an embryo with the next pid, and no other slot changes; or there is none, and nothing changes |
| `ProcCode.Ptable.Wakeup1` | xv6-public/proc.c:470-478 | exactly the sleepers on the channel become runnable, and nothing else changes |
| `ProcCode.Ptable.Exit` | xv6-public/proc.c:251-266 | the process is a zombie, its children are init's, and exactly the parent, and init if one of the children is a zombie, are woken from wait; keeps the invariant |
| `ProcCode.Ptable.PassChildren` | xv6-public/proc.c:257-263 | every child goes to init, which is woken exactly if one of them is a zombie |
| `ProcCode.Ptable.Wait` | xv6-public/proc.c:280-312 | one scan frees the slot of a zombie child and answers with its pid, or there is none and it sleeps on itself, or fails exactly if it has no child or was killed |
| `ProcCode.Ptable.KillProc` | xv6-public/proc.c:492-510 | the first slot with the pid is marked, and made runnable if it slept, and nothing else changes; fails exactly if there is none |
| `Scheduler.IsHighest` | xv6-public/proc.c:340-348 | true exactly if no runnable process has a higher priority |
| `Scheduler.Pass` | xv6-public/proc.c:334-366 | one pass dispatches the sequence of processes that Scan defines, whatever the table becomes while they run |
| `Scheduler.DispatchesMaximal` | xv6-public/proc.c:336-364 | every dispatch picks a runnable process such that no runnable one has a higher priority in the table then seen, in the order of the slots |
| `Scheduler.PassDispatches` | xv6-public/proc.c:334-366 | a pass over a table with a runnable process dispatches at least one |
| `Scheduler.RoundRobin` | xv6-public/proc.c:323-369 | from any point of a pass, a process that is runnable with maximal priority until its turn is dispatched before NPROC others; what it does afterwards does not matter |
| `Scheduler.SetPriority` | xv6-public/proc.c:550-565 | changes the priority of the first slot with the pid, or fails exactly if there is none |
| `VmCode.Memory.Kalloc` | xv6-public/kalloc.c:82-95 | a frame that nobody owns, or none exactly if the free list is empty |
| `VmCode.Memory.Kfree` | xv6-public/kalloc.c:59-77 | the frame is on the free list once again; its guard never fires |
| `VmCode.Memory.Walkpgdir` | xv6-public/vm.c:35-55 | the page table of the entry; at most an empty one is added, and no mapping changes |
| `VmCode.Memory.MapPage` | xv6-public/vm.c:60-80 | maps one user page and changes no other; panics exactly if it was mapped; otherwise fails, without change, exactly if kalloc finds no frame |
| `VmCode.Memory.Mappages` | xv6-public/vm.c:60-80 | maps a segment of the kernel without the panic "remap"; fails exactly if kalloc finds no frame |
| `VmCode.Memory.Setupkvm` | xv6-public/vm.c:118-136 | a directory with exactly the kernel's pages: physical memory and the devices, none for the user, and the kernel text not writable; or, exactly if kalloc finds no frame, everything as before |
| `VmCode.Memory.Deallocuvm` | xv6-public/vm.c:257-283 | exactly the pages in the range are unmapped and freed; the 4 MB steps skip nothing; no panic |
| `VmCode.Memory.Allocuvm` | xv6-public/vm.c:221-251 | the pages in the range are mapped to fresh zeroed frames, present, writable and for the user, and no other page changes; it fails exactly if the size is too large or kalloc finds no frame, and then the pages are as before; no panic |
| `VmCode.Memory.Clearpteu` | xv6-public/vm.c:306-315 | the page is no longer for the user, and nothing else about it or any other page changes; panics exactly if it has no page table |
| `VmCode.Memory.Freevm` | xv6-public/vm.c:287-302 | everything the address space owned becomes free and nothing else changes; no panic |
| `VmCode.Memory.Copyuvm` | xv6-public/vm.c:319-349 | equal pages and flags in new frames, and the kernel's pages; or, exactly if kalloc finds no frame, everything as before; the panics happen only if a page below the size is missing |
| `VmCode.Memory.Growproc` | xv6-public/proc.c:159-176 | succeeds, and leaves the size, exactly as Break says: growing fails exactly if the size is too large or kalloc finds no frame; the pages present are exactly those below the size afterwards, with their rights, if and only if it is not a shrink to zero, which frees all of them |
| `VmCode.Memory.Getptentries` | xv6-public/sysproc.c:57-76 | counts the present pages below the size, and so equals the page count when the pages are exact |
| `VmCode.Memory.constructor` | xv6-public/kalloc.c:31-53 | after kinit every frame above the kernel is on the free list, once |
| `VmCode.Memory.NewSpace` | xv6-public/exec.c:38-68 | the address space of exec, with the guard page and the stack; or none, and everything as before, exactly if the sizes are not acceptable or kalloc finds no frame |
| `VmCode.Memory.GrowAll` | xv6-public/exec.c:41-58 | the segments of exec leave exactly the pages below the largest end; it succeeds exactly if the sizes are acceptable and kalloc finds the frames |
| `VmCode.Memory.NewStack` | xv6-public/exec.c:63-68 | two pages above the segments, the lower one closed to the user; or none exactly if they do not fit or kalloc finds no frame |
| `VmCode.Memory.ForkSpace` | xv6-public/proc.c:192-199 | a child with equal pages in frames of its own; or, exactly if kalloc finds no frame, everything as before; the panics of copyuvm do not happen |
| `VmCode.Memory.GrowSpace` | xv6-public/proc.c:159-176 | growproc of one process among many: its size is the one asked for, or stays exactly if kalloc finds no frame; the others keep their pages |
| `VmCode.Memory.Perform` | xv6-public/proc.c:159-226 | each call has its whole effect on the sizes and guard pages, or none exactly if kalloc finds no frame |
| `VmCode.Memory.Run` | xv6-public/proc.c:159-226 | in every run of exec, growproc (not to zero), fork and exit no panic happens, every frame in use belongs to one process, and every process has the kernel's pages and exactly the pages below its size, all present, writable and for the user but for the guard page; sizes and guard pages are those the calls ask for, but for exactly as many calls as kalloc found no frame |
| `VmRuns.UserReach` | xv6-public/vm.c:49-52 | in such a state user code reads and writes, by both levels of the page table, exactly the pages below its size without the guard page, and no page of the kernel |
| `VmRuns.UserApart` | xv6-public/vm.c:319-349 | what it reaches is data in a frame above the kernel that is not free and that no other process, and no other page, reaches |
| `VmRuns.SpaceAdded` | xv6-public/vm.c:319-349 | a new address space leaves the pages of all others |
| `VmRuns.SpaceGone` | xv6-public/vm.c:287-302 | a freed one leaves the others, and no frame of it stays in use |
| `VmRuns.NoneLeft` | xv6-public/vm.c:287-302 | without processes every frame is free |
| `Spaces.CutSkip` | xv6-public/vm.c:271-272 | skipping the rest of 4 MB without a page table is cutting every page of it |
| `Spaces.DisjointFrames` | xv6-public/vm.c:319-349 | two address spaces share no user frame |
| `Spaces.RolledBack` | xv6-public/vm.c:237-248 | what a failed allocuvm added is removed again |
| `Spaces.ExactCopied` | xv6-public/vm.c:319-349 | a forked child has exactly the pages of its parent, with the same rights |
| `Spaces.ExactClosed` | xv6-public/vm.c:306-315 | clearpteu closes one page and leaves the rights of all others |
| `Spaces.FreeingEnd` | xv6-public/vm.c:295-301 | after the loop and the last kfree only the frames of others are owned |
| `Frames.Retire` | xv6-public/vm.c:294-301 | without user pages, a directory and its tables can be given up |
| `Frames.MapUser` | xv6-public/vm.c:69-73 | mapping a held frame as a user page keeps unique ownership of frames |
| `Frames.UnmapUser` | xv6-public/vm.c:273-280 | clearing a user entry keeps it and leaves the frame to be freed |
| `Frames.NewTab` | xv6-public/vm.c:45-52 | a new page table maps nothing and keeps it |
| `KernelMap.KernelNext` | xv6-public/vm.c:60-80 | each iteration maps the next kernel page to its physical page, and it was not mapped |
| `KernelMap.KernelExact` | xv6-public/vm.c:105-136 | the segments of kmap are exactly the kernel's pages: physical memory from 0x80000000 on, read-only from 1 MB up to data, the devices from 0xFE000000 on one to one, none for the user |
| `UmallocHeap.Heap.Free` | xv6-public/umalloc.c:24-44 | the block joins the free list, which stays one ascending cycle of blocks that do not touch; units are conserved; the search ends within one lap |
| `UmallocHeap.Heap.Search` | xv6-public/umalloc.c:30-32 | stops at the one place where the block belongs |
| `UmallocHeap.FreePlan` | xv6-public/umalloc.c:24-44 | the search can stop at one block only, and the header writes there give a valid heap |
| `UmallocHeap.Heap.MoreCore` | xv6-public/umalloc.c:46-61 | what sbrk answers becomes part of one free block; the blocks are made of memory that the process has exactly if sbrk was asked for a positive number, or refused and there are no blocks |
| `UmallocHeap.Heap.Carve` | xv6-public/umalloc.c:75-84 | the block handed out is new, and all other live blocks are untouched |
| `UmallocHeap.Heap.Lap` | xv6-public/umalloc.c:74-86 | one lap finds a block that fits, or there is none |
| `UmallocHeap.Heap.Malloc` | xv6-public/umalloc.c:63-90 | a new live block disjoint from all others; fails only if none fits and sbrk refuses; asks sbrk at most once, and only if no free block fits; all blocks stay in memory that the process has if and only if sbrk was not asked for a number of bytes that is no positive int, or refused and there are no blocks |
| `UmallocBreak.UnitsSuffice` | xv6-public/umalloc.c:69 | the block is large enough for the request if and only if the rounding does not wrap |
| `UmallocBreak.GrownLeast` | xv6-public/umalloc.c:52-53 | morecore makes the smallest block that has the units asked for and at least 4096 of them |
| `UmallocBreak.AskedExactly` | xv6-public/umalloc.c:46-54 | sbrk is asked for all the bytes of the block if and only if the request is at most 2^31 - 16 bytes or its rounding wraps around |
| `UmallocBreak.Served` | xv6-public/umalloc.c:46-90 | a request served by sbrk gets a block that holds it, in granted memory, if and only if it is at most 2^31 - 16 bytes |
| `UmallocBreak.HugeRequest` | xv6-public/umalloc.c:54 | for 2^31 bytes sbrk is asked for a negative number |
| `UmallocBreak.BreakStays` | xv6-public/umalloc.c:54 | beyond that limit the break does not move up, so the next answer of sbrk lies at or below the block handed out |
| `UmallocBreak.FreesItself` | xv6-public/umalloc.c:54 | for 2^32 - sz - 8 bytes in a process of sz bytes sbrk is asked for -sz bytes: it frees all pages and refuses |
| `UmallocBreak.ObtainedIff` | xv6-public/umalloc.c:46-61 | what morecore takes for its own is what the process has exactly if sbrk was asked for a positive number, or refused and there was nothing to lose |
| `UmallocRuns.Run` | xv6-public/umalloc.c:24-90 | in every run of malloc, free and sbrk the live blocks are exactly those that malloc returned and nobody freed, none was returned while live, and they and the granted memory fix the free list; it ends early only when sbrk was not asked for a positive number |
| `UmallocUnique.FreeListUnique` | xv6-public/umalloc.c:24-90 | live blocks and obtained units determine the free list and its headers |
| `UmallocFree.JoinKeeps` | xv6-public/umalloc.c:33-42 | joining two blocks that touch keeps the heap |
| `UmallocFree.StopsAtBelow` | xv6-public/umalloc.c:30-32 | the condition of the search holds at the block below the freed one and nowhere else |
| `ShellLex.Gettoken` | xv6-public/sh.c:266-309 | the next token, its kind, its bounds and the start of the one after |
| `ShellLex.Peek` | xv6-public/sh.c:311-321 | whether the next character is one of a set |
| `ShellLex.ToksAreWords` | xv6-public/sh.c:266-309 | the words that repeated gettoken finds are exactly the maximal runs of word characters, each once |
| `ShellParse.Parseredirs` | xv6-public/sh.c:375-398 | the redirections read account for exactly the tokens consumed; it fails exactly at an operator without a file name behind it |
| `ShellParse.Parseexec` | xv6-public/sh.c:416-447 | accepts only commands of the grammar, with at most nine arguments; and for every derivation before a token that may follow a command, the answer is its tree |
| `ShellParse.Parseblock` | xv6-public/sh.c:400-414 | a parenthesised line with redirections, of the grammar and the only one, with its parentheses matched |
| `ShellParse.Parsepipe` | xv6-public/sh.c:362-373 | accepts only pipelines of the grammar; and for every derivation before a token that may follow, the answer is its tree |
| `ShellParse.Parseline` | xv6-public/sh.c:345-360 | accepts only lines of the grammar, and answers with their only tree; the tree has exactly the tokens consumed |
| `ShellDecide.ItemsRun` | xv6-public/sh.c:430-446 | every derivation of words and redirections is a beginning of the one reading from left to right |
| `ShellDecide.SimpleOnly` | xv6-public/sh.c:416-447 | words and redirections before a token that may follow have one tree |
| `ShellDecide.SimpleNone` | xv6-public/sh.c:430-446 | where parseexec panics there is no command of the grammar |
| `ShellDecide.BlockOnly` | xv6-public/sh.c:400-414 | a block has one tree if its line has |
| `ShellDecide.BlockNoFile` | xv6-public/sh.c:375-398 | a block followed by an operator without a file name is no command |
| `ShellDecide.PipelineMore` | xv6-public/sh.c:362-373 | a pipeline has one tree if its parts have |
| `ShellDecide.BacksRun` | xv6-public/sh.c:351-354 | every derivation of background commands is a beginning of the one reading |
| `ShellDecide.LineMore` | xv6-public/sh.c:345-360 | a line has one tree if its parts have |
| `ShellBuffer.Nulterminate` | xv6-public/sh.c:449-494 | exactly the ends of the strings of the tree are overwritten with NUL |
| `ShellBuffer.CutLeavesWords` | xv6-public/sh.c:449-494 | no string contains the end of another, so each C string is exactly its word |
| `ShellBuffer.EveryWordOnce` | xv6-public/sh.c:328-343 | every word of the line stands for exactly one string of the tree |
| `ShellBuffer.WrittenOnly` | xv6-public/sh.c:328-343 | the whole line is written in the grammar with a tree exactly if parseline answers with that tree and leaves nothing |
| `ShellBuffer.Parsecmd` | xv6-public/sh.c:328-343 | accepts exactly the lines of the grammar and answers with their only tree; then its tokens are those of the tree, the file of an outer redirection stands right of that of an inner one, its parentheses match, and every argument and file name is, as a C string in the buffer, its word |
| `PipeCode.PipeRing.Write` | xv6-public/pipe.c:78-98 | the bytes are appended to those written; it stops early exactly when the ring is full |
| `PipeCode.PipeRing.Read` | xv6-public/pipe.c:100-121 | the bytes read continue those read before, so all bytes read are a prefix of those written, at most PIPESIZE behind, across the wrap-around of the counters |
| `PipeCode.PipeRing.Close` | xv6-public/pipe.c:59-75 | closes one end; the pipe goes when both are closed |

## Left out

- Boot, drivers, interrupts, traps, spin locks' instructions and segment set-up: an acquire or release is an atomic step, a context switch is a step under ptable.lock, and the disk is the block map of memide.c.
- The encoding of directory entries as 16-byte records in a file, and the cache and locks of in-memory inodes.
- LinkCode.DirTree.Perform: link looks up the new path before it raises the link count, which lookup does not read; the C code does it after.  Other processes do not come in between.  That chdir drops its reference to the old directory is a separate call, Close.
- T_DEV branches of readi and writei, the console, exec's ELF loading, argument fetching, user demos and tests.
- LinkCode.DirTree.SysLink: link counts are unbounded integers; the C field is a short, and a disk of FSSIZE = 1000 blocks holds fewer than 32768 entries.  There is one device, so the comparison of devices is left out.
- LinkCode.DirTree.CreateNode: running out of disk blocks, which panics in balloc, is not modelled there; running out of inodes and of room in a directory is.
- FsCode.FileSystem.Writei: the requires that the file reads as c only names its bytes; inode locks and the cache of inodes are not modelled, and log_write is the set of blocks it was called for.
- FsCode.FileSystem.constructor: mkfs's own files are left out; the disk starts without any.
- FsCode.FileSystem.Filewrite: the inode is not changed by others between transactions; in a file with holes the bound on logged blocks is not claimed.
- LinkCode.DirTree.Iput: the reference count of the in-memory inode is a parameter, whether there are other references.
- UmallocHeap.Heap.Malloc: the size of the process and whether the kernel has frames are parameters; that the process is killed when it touches memory it does not have is left out.  Addresses are counted in header-sized units.
- ProcTable: the counter of pids does not overflow; kernel stacks, open files and page tables of processes are not part of the table.
- ProcTheorems.NoMissedExit: the steps outside ptable.lock in fork (adopting and launching the embryo) are atomic.
- SleepLock.CanAcquire: the sleep-lock can always still be got; that it is got, if others keep taking it, would need fairness.
- SleepWakeup: a process holds at most one spin lock besides ptable.lock; begin_op, pipes and sys_sleep are instances, of which acquiresleep is worked out.
- Scheduler.RoundRobin: for one scanning CPU; the effect of other CPUs is in the tables it sees.
- BioCode.Bcache.Run: bcache.lock and the waiting in acquiresleep are taken as atomic steps; the sleep-locks themselves are SleepLock's.
- VmCode.Memory.Allocuvm: at page granularity; a page is mapped as a whole, and the 32-bit arithmetic of mappages does not wrap for the calls made here.
- VmCode.Memory.NewSpace: what exec loads into the segments and puts on the stack is left out; the old address space is given up by a separate call, Exit.
- VmCode.Memory.Setupkvm: the address of the symbol data is a parameter, between KERNLINK and PHYSTOP.
- ShellParse.Parseexec: the C code adds arguments to an execcmd already wrapped in redircmds; here the list of redirections is kept aside and wrapped around at the end.
- PipeCode.PipeRing.Write: wakeups and sleeps are outside the model; a method is what happens between two sleeps.
- runcmd of the shell, usertests and the other user programs are not part of this model.

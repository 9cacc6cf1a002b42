# xv6 in Dafny

A model of the hard core of xv6 for RISC-V (with its kernel threads, signals and binary semaphores),
and proofs of what that core is for. `dafny verify dfyconfig.toml` checks all of it.

| part | modules | main results |
|---|---|---|
| redo log | Disk, Log, LogDriver, GroupCommit, LoggedWrites | a crash after any disk write, with any number of crashes inside recovery, leaves a prefix of whole transactions; group commit over every interleaving; a crash during filewrite leaves a prefix of its transactions, and on a long enough log it never runs out of log space |
| files | Bytes, FsModel, FsOps, FsWrite, FileSystem, Mkfs | files are flat byte strings over direct and indirect blocks; every block has one owner; every block changed is logged; a write chunk fits its log reservation |
| names | Directory, Paths | a directory is a finite map on names; paths compose |
| memory | Pages, PageTable, Kalloc, Costs, FreeWalk, Vm | the three-level page table is a map from pages to entries; every physical page has exactly one role; growing fails exactly when there are fewer free pages than frames and missing tables, and then rolls back |
| heap | Heap, Malloc | live and free blocks tile the memory obtained; the free list is one sorted circle; the search ends |
| buffers | Ring, BufferCache | the cache agrees with the logical disk; the victim is the least recently released |
| disk driver | Virtio, VirtioDisk, DiskRuns | requests own disjoint chains; no ring entry is overwritten; 16-bit indices may wrap; each request is carried out once |
| waiting | Csemaphore, Sleep, Semaphores | a counting semaphore from two binary ones counts its calls; one down for each up of a binary one; no lost wakeup on any of many channels; mutual exclusion |
| signals | Signals | sigret resumes what a delivery interrupted, over every run |
| shell | ShellGrammar, ShellLexer, Shell | the parser undoes a printer, whatever the spacing, and loses nothing of the line; cutting the line into C strings spoils no word |
| grep | Regexp | the matcher is a declarative semantics |

Sets has the one fact about set sizes that several parts use.

Code that changes things in place is a class whose methods are proved against functions of the old
state; lemmas about those functions and states say what the code promises. Protocols are step machines
with an invariant over every run. A kernel panic is a result (`Stopped`, `Panic`, or a false `ok`),
never a precondition, unless a caller in xv6 rules it out.

Ghost fields name what the C code leaves implicit: `owner` (which slot holds a block), `role` (what a
physical page is used for), `live` and `tag` (the heap's blocks in use, and the block of every unit),
`ring` and `stamp` (the buffer list as a sequence, and when each buffer last moved to the front),
`reqs` and `own` (requests in flight and their descriptors), `names` (the map a directory stands for).

Where a wanted property is false of the code, the model keeps the code and says exactly when it holds:

- log_write's "too big a transaction" guard can stop an admitted operation, because mkfs makes the log
  LOGSIZE blocks long and one of them is the header (mkfs/mkfs.c:25, kernel/log.c:220). Operations that
  have logged fewer than MAXOPBLOCKS blocks are never stopped, whether they log a new block or one again,
  if and only if the log region is longer than LOGSIZE (`GroupCommit.NeverTooBigIff`). One that has spent
  its allowance can still be stopped on any log, because the guard comes before the search for a block
  that is logged already (`GroupCommit.RepeatStops`); on such a log that happens exactly when the header
  is full, and then every operation has spent its allowance (`GroupCommit.StopsWhenSpent`). filewrite
  logs the inode last and fewer than MAXOPBLOCKS blocks before it, so it is never stopped there
  (`LoggedWrites.ChunkNeverStops`).
- writei logs every block it changes, but for one: when the copy from user memory fails inside a block, what
  was copied stays in the buffer and the block is not logged for it (kernel/fs.c:500-503). All changes are
  logged if and only if nothing was copied of that block, or what was there already, or the operation has
  logged the block (`FsWrite.SpilledRecorded`, `FsWrite.SpilledExample`).
- mkfs rounds the root directory's size up even when it is already a multiple of the block size
  (mkfs/mkfs.c:169), which leaves a hole; there is no hole if and only if the size is not such a
  multiple or the file is as long as a file can be (`Mkfs.RoundingHoles`; `Mkfs.RoundingExample` is a
  root of 64 entries, which gets a hole).
- A buffer let go of changed but never written is forgotten when it is recycled: what the kernel sees of
  the disk survives recycling if and only if the victim's content is on the disk
  (`BufferCache.RecycleView`). From a cache where that holds of every unreferenced buffer, it goes on to
  hold through a release if and only if the released buffer, if now unreferenced, has its content on the
  disk (`BufferCache.BufferCache.Brelse`, `BufferCache.BufferCache.Bunpin`); every other operation keeps it.
- uvmfree panics unless exactly the first `sz` bytes are mapped (`Vm.Memory.UvmFree`, both directions).
- sigret called outside a handler puts an old mask back; the mask a process chose survives a run if and
  only if every sigret is called from a handler, or while the mask of the last delivery is the one last
  chosen (`Signals.MaskKept`; `Signals.StrayExample` is a run that loses it). SIGKILL waits while a
  handler runs (`Signals.KillWaits`).
- Pending signals outlive their process: freeproc, allocproc and fork do not clear them
  (kernel/proc.c:251-293, 437-461), and kill with pid 0 reaches an unused slot, whose pid is 0
  (kernel/proc.c:763-780). A new process starts with none if and only if every signal posted to the slot
  since, to its predecessor or between the two, had been acted on (`Signals.StartsClean`,
  `Signals.StaleSignal`).
- bsem_alloc unlocks a slot without waking anyone (kernel/proc.c:1219-1236), so a semaphore freed while
  it has waiters can lose their wakeups; none is lost if and only if no slot is allocated that a thread
  sleeps on (`Sleep.NoLostWakeup`, `Sleep.FreedWithWaiter`).
- virtio_disk_intr panics if and only if the device reported a status other than 0
  (`VirtioDisk.Disk.Intr`).
- A command line with MAXARGS arguments to one command does not parse; printing and parsing a tree gives
  the tree back if and only if every command has fewer (`ShellGrammar.ParsePrints`).

## Model

| member | source | states |
|---|---|---|
| Log.HeaderRoundTrip | kernel/log.c:86-114 | reading the header that write_head writes gives the logged block numbers back |
| Log.RecoveryInstalls | kernel/log.c:69-123 | recovery of any well-formed disk leaves every home block with its committed content and the log empty |
| Log.RecoveryPrefixKeeps | kernel/log.c:69-123 | recovery cut after any prefix of its writes leaves the committed content unchanged |
| Log.CommitPrefixAtomic | kernel/log.c:178-203 | commit cut after k writes: committed content is all old up to the header write, all new from it on |
| Log.CrashAtomic | kernel/log.c:67-123 | commit cut anywhere, recovery cut any number of times, one recovery finished: every home block is old, or every home block is new, by where commit was cut |
| Log.CommitInstalls | kernel/log.c:193-203 | a finished commit leaves every home block with the logged content and the log empty |
| LogDriver.KernelLog.constructor | kernel/log.c:54-65 | the log starts empty with nothing outstanding |
| LogDriver.KernelLog.ReadHead | kernel/log.c:86-97 | the in-memory header becomes the entries of the on-disk header |
| LogDriver.KernelLog.WriteHead | kernel/log.c:102-114 | one disk write, of the header stamped over the old header block |
| LogDriver.KernelLog.WriteLog | kernel/log.c:178-191 | the writes are exactly the log copies of the cached blocks, in order |
| LogDriver.KernelLog.InstallTrans | kernel/log.c:68-83 | the writes are exactly the installs of the log copies; outside recovery the blocks are unpinned |
| LogDriver.KernelLog.LogTransaction | kernel/log.c:193-197 | the copies and then the header: after it the disk's header lists the transaction |
| LogDriver.KernelLog.InstallAndClear | kernel/log.c:197-202 | installs and then the empty header: the same writes as recovery |
| LogDriver.KernelLog.Commit | kernel/log.c:193-203 | the disk trace grows by exactly the writes that `Log.CrashAtomic` cuts |
| LogDriver.KernelLog.RecoverFromLog | kernel/log.c:116-123 | the disk becomes its recovered image, by exactly the recovery writes |
| LogDriver.KernelLog.BeginOp | kernel/log.c:126-142 | an operation is admitted exactly when no commit runs and the log has room for MAXOPBLOCKS more from everyone |
| LogDriver.KernelLog.LogWrite | kernel/log.c:214-235 | absorbs a block already logged, else appends and pins it; stops exactly on the two panics |
| LogDriver.KernelLog.EndOp | kernel/log.c:146-175 | the last operation commits, the others do not write; every block reads as before; the committing panic is the only stop |
| GroupCommit.NextKeeps | kernel/log.c:126-235 | every step of every interleaving, and every crash, keeps the log invariant |
| GroupCommit.ExecKeeps | kernel/log.c:126-235 | the invariant holds after every run from boot |
| GroupCommit.RecoveredIsPrefix | kernel/log.c:126-235 | after every run the recovered disk is the replay of a prefix of the transactions that holds every completed commit |
| GroupCommit.CompletedStays | kernel/log.c:126-235 | whatever happens later, completed transactions stay, in order |
| GroupCommit.RestFinishes | kernel/log.c:116-203 | a commit or recovery that is let run ends with every group on disk |
| GroupCommit.LastEndDurable | kernel/log.c:146-203 | when the last outstanding operation ends and its commit is let run, the transaction is on disk, every home block reads there as the transactions left it, and no later crash undoes it |
| GroupCommit.OperationInOneGroup | kernel/log.c:126-175 | all writes of one operation are in one transaction |
| GroupCommit.CommitRunsAlone | kernel/log.c:126-175 | commit runs only with nothing outstanding, nothing is admitted meanwhile, and the committing panic is unreachable |
| GroupCommit.ReadsSeeLatest | kernel/log.c:214-235 | between commits every block reads as the replay of all logged writes so far |
| GroupCommit.ReservationHolds | kernel/log.c:126-142 | on every run logged blocks plus the unused allowance of all operations never exceed LOGSIZE, so an operation with allowance left finds fewer than LOGSIZE logged |
| GroupCommit.NeverTooBigIff | kernel/log.c:214-235 | on every run no log_write of an operation with allowance left hits the "too big" guard, whether for a new block or one logged before, if and only if the log region is longer than LOGSIZE |
| GroupCommit.StopsWhenSpent | kernel/log.c:214-235 | on a log longer than LOGSIZE a log_write within the allowance is stopped exactly when the header is full; then every operation has spent its allowance and the block is logged already |
| GroupCommit.RepeatStops | kernel/log.c:214-235 | on any log longer than LOGSIZE there is a run in which logging a block again stops the kernel |
| Bytes.WordAfterWrite | kernel/fs.c:394-399 | a 32-bit entry stored in an indirect block reads back and no other entry changes |
| Bytes.BitAfterWrite | kernel/fs.c:72-100 | a bit stored in a bitmap block reads back and no other bit changes |
| FsModel.MarkedIff | kernel/fs.c:64-103 | a bitmap bit is set exactly for metadata and for blocks some slot holds |
| FsModel.OneSlot | kernel/fs.c:377-405 | a block is held by at most one inode or indirect slot, and is a data block |
| FsModel.LinkFrame | kernel/fs.c:377-405 | putting a zeroed block in an empty slot changes that slot only and no file's bytes |
| FsModel.PatchFrame | kernel/fs.c:486-510 | writing into one mapped block changes exactly those bytes of that file |
| FsOps.BallocFresh | kernel/fs.c:64-86 | balloc never returns a metadata or log block or one in a slot, and stops only when every block is marked |
| FsOps.BallocRecorded | kernel/fs.c:64-86 | both blocks that balloc changes are logged |
| FsOps.FillKeeps | kernel/fs.c:377-405 | filling a slot keeps ownership, files and sizes and logs the bitmap block, the new block and the indirect block |
| FsOps.BmapKeeps | kernel/fs.c:377-405 | bmap keeps ownership and every file, returns the slot's block, changes nothing when it is mapped, and logs no more than stated |
| FsOps.BmapRecorded | kernel/fs.c:377-405 | every block that bmap changes is logged |
| FsOps.PutKeeps | kernel/fs.c:497-506 | one round of writei is one splice of one file's bytes |
| FsWrite.WroteContent | kernel/fs.c:486-517 | after a write the file is old[..off] + data + old[off+n..] with size the larger end; every other file is unchanged |
| FsWrite.WroteTwice | kernel/file.c:155-174 | two adjoining writes are one write of the joined data |
| FsWrite.SpentMore | kernel/fs.c:497-506 | each further block of a write accounts for at most itself, its bitmap block and the indirect blocks |
| FsWrite.LogBound | kernel/file.c:155-174 | a chunk of at most 3072 bytes logs at most MAXOPBLOCKS blocks, even if every allocation hits another bitmap block, fewer before it comes to the inode, and none of them in the log |
| FsWrite.SpilledKeeps | kernel/fs.c:500-503 | bytes left in the buffer by a failed copy show in the file, and change no size, slot or other file |
| FsWrite.SpilledRecorded | kernel/fs.c:500-503 | when the copy fails inside a block, all changes are logged if and only if the block was logged or its bytes are the same |
| FsWrite.SpilledExample | kernel/fs.c:500-503 | a byte copied over another before the copy fails, in a block not logged, is a change that is not logged |
| FsWrite.FirstMapped | kernel/fs.c:486-517 | a file without holes has the block of an unaligned first byte, so it is not allocated again |
| FsWrite.OthersNoHoles | kernel/fs.c:486-517 | writing one file leaves no holes in another |
| FsWrite.ReadRound | kernel/fs.c:455-477 | one round of readi copies exactly that slice of the file |
| FsWrite.KeptContent | kernel/fs.c:455-477 | what a read may do to the block map changes no file's content |
| FsWrite.NeverStops | kernel/fs.c:455-477 | reading below the size of a file without holes never allocates, so never panics |
| FsWrite.FreeingFrees | kernel/fs.c:409-437 | a block of a file being truncated is marked when it is freed: "freeing free block" is unreachable |
| FsWrite.Truncated | kernel/fs.c:409-437 | truncation leaves ownership sound, the file empty, and every other file as it was |
| FileSystem.FileSystem.Balloc | kernel/fs.c:64-86 | marks and zeroes the first free block and logs every block it changes; stops exactly when none is free |
| FileSystem.FileSystem.FillDirect | kernel/fs.c:383-393 | an inode slot keeps its block or gets the next free one |
| FileSystem.FileSystem.FillEntry | kernel/fs.c:394-401 | an indirect slot keeps its block or gets the next free one |
| FileSystem.FileSystem.Bmap | kernel/fs.c:377-405 | the block of the file's slot, allocated if it was empty; no file and no other slot of a mapped block changes; every changed block is logged; ownership holds; stops only out of range or out of blocks |
| FileSystem.FileSystem.WriteLoop | kernel/fs.c:497-506 | the loop writes a prefix of the source, all of it unless the source ends, else up to the end of a block; every block changed for it is logged, within the log account; bytes of a copy that fails in a block stay there unlogged |
| FileSystem.FileSystem.Writei | kernel/fs.c:486-517 | -1 exactly for a start past the end or a file too long; else the file has the written prefix spliced in, ownership holds, holes do not appear; every block changed for it and the inode are logged, at most MAXOPBLOCKS for a chunk, the inode last; bytes of a copy that fails in a block stay there unlogged |
| FileSystem.FileSystem.ReadLoop | kernel/fs.c:466-475 | returns exactly the wanted slice of the file, or -1 when the destination is too small |
| FileSystem.FileSystem.Readi | kernel/fs.c:455-477 | the slice clipped at the end of the file, 0 past it or on 32-bit overflow, no file changed and any allocation logged; nothing at all changed when there are no holes |
| FileSystem.FileSystem.TruncDirect | kernel/fs.c:416-421 | frees the direct blocks, never stopping |
| FileSystem.FileSystem.TruncEntries | kernel/fs.c:423-430 | frees the blocks of the indirect block, never stopping |
| FileSystem.FileSystem.Itrunc | kernel/fs.c:409-437 | never stops; the file is empty with no slot left, all else unchanged, ownership holds; every changed block and the inode are logged |
| FileSystem.FileSystem.FileWrite | kernel/file.c:134-181 | the chunks together are one write; n is returned exactly when all of it fits and is there; the state goes through the chunks one after another, each logging every block it changes for them, at most MAXOPBLOCKS and fewer before the inode |
| LoggedWrites.ChunkNeverStops | kernel/file.c:150-176 | on a log longer than LOGSIZE, at every point of every interleaving, each log_write of a chunk that FileWrite is proved to log can go ahead |
| LoggedWrites.ReplayedChunks | kernel/log.c:116-203 | replaying the logged blocks of the transactions of a write gives the blocks of the file system after each |
| LoggedWrites.CrashBetweenChunks | kernel/file.c:150-176 | stopped at any moment of any run, recovery shows the file system as it was between two transactions of a write, with all completed ones |
| Mkfs.Image.constructor | mkfs/mkfs.c:93-112 | a blank image satisfies the invariant of mkfs |
| Mkfs.Image.PlaceDirect | mkfs/mkfs.c:279-287 | the slot keeps its block or gets the next free one, and no file changes |
| Mkfs.Image.PlaceEntry | mkfs/mkfs.c:288-293 | the same for an entry of the indirect block |
| Mkfs.Image.IAppend | mkfs/mkfs.c:263-305 | the file grows by exactly the data, the invariant holds; fails only when too long or out of blocks |
| Mkfs.Image.FixRoot | mkfs/mkfs.c:166-171 | only the root's size changes, to the rounded one |
| Mkfs.Image.Balloc | mkfs/mkfs.c:245-259 | the bitmap written marks exactly metadata and owned blocks, so the kernel's ownership invariant holds; refuses exactly from 8192 blocks up |
| Mkfs.AppendedContent | mkfs/mkfs.c:263-305 | appending is concatenation, and no other file changes |
| Mkfs.ExactNoHoles | mkfs/mkfs.c:263-305 | files grown from empty have no holes |
| Mkfs.RoundingHoles | mkfs/mkfs.c:166-171 | the rounded root has no hole if and only if its size was not a multiple of the block size or is the largest |
| Mkfs.RoundingExample | mkfs/mkfs.c:166-171 | a root of 64 entries fills one block exactly and is given a second that is a hole |
| Mkfs.MapWritten | mkfs/mkfs.c:245-259 | from mkfs's invariant and its bitmap, the kernel's ownership invariant |
| Directory.NameCmp | kernel/fs.c:521-525 | 0 exactly when the names agree in their first DIRSIZ characters |
| Directory.StrnCpy | kernel/string.c:67-78 | the stored name reads back as the name cut to DIRSIZ |
| Directory.OneMap | kernel/fs.c:527-553 | the entries of a directory stand for one map only |
| Directory.LinkHolds | kernel/fs.c:577-580 | a new name in a free place adds that name to the map and nothing else |
| Directory.ClearHolds | kernel/sysfile.c:218-220 | clearing an entry removes its name from the map and no other |
| Directory.OnlyDots | kernel/sysfile.c:168-182 | no entry after the first two if and only if the map has only . and .. |
| Directory.DotsForever | kernel/sysfile.c:185-239 | over every sequence of links and unlinks . and .. keep their inodes |
| Directory.LastLink | kernel/sysfile.c:122-239 | over every sequence of links and unlinks a name that is there has the inode of the last link of it that was not refused, and has been there since; or it never went |
| Directory.UnlinkUndoes | kernel/sysfile.c:185-239 | linking an absent name and unlinking it gives the map back |
| Directory.Directory.constructor | kernel/sysfile.c:270-276 | a new directory is the map of . and .. |
| Directory.Directory.DirLookup | kernel/fs.c:527-553 | the inode number the map has for the cut name, with its place, or 0 exactly when it is absent |
| Directory.Directory.FreePlace | kernel/fs.c:569-575 | the first free entry, or the end |
| Directory.Directory.DirLink | kernel/fs.c:555-583 | -1 exactly when the cut name is present; else a lookup of it gives inum modulo 65536 and every other name looks up as before, in the first free place or at the end; stops exactly when full and unable to grow; names stay unique |
| Directory.Directory.DirUnlink | kernel/sysfile.c:200-224 | refuses exactly . and .., an absent name, or one whose inode is a directory in use beyond its first two entries; else exactly that name goes |
| Directory.Directory.IsDirEmpty | kernel/sysfile.c:168-182 | true exactly when no entry after the first two is in use, so with . and .. there exactly when the map has only those |
| Paths.SkipElem | kernel/fs.c:585-622 | the first element between slashes, cut to DIRSIZ, and the rest of the path; none exactly when none is left |
| Paths.NameI | kernel/fs.c:628-668 | the walk from the root or the current directory through all elements, 0 when one is missing or not in a directory |
| Paths.NameIParent | kernel/fs.c:628-674 | the directory of the last element and that element, nowhere when there is none |
| Paths.ParentHolds | kernel/fs.c:663-674 | namei finds what nameiparent's directory has under the last element |
| Paths.LookupJoin | kernel/fs.c:628-661 | a/b is b looked up from a |
| Paths.SpelledBack | kernel/fs.c:587-622 | the elements of a path spelled from elements are those elements |
| Paths.Rooted | kernel/fs.c:628-637 | a path with a leading slash goes from the root whatever the current directory, any other from the current directory |
| Paths.WalkLeads | kernel/fs.c:638-661 | where there is such a way the walk ends where it ends |
| Paths.WayOf | kernel/fs.c:638-661 | if the walk gets somewhere there is a way: directories each holding the next under the element between them |
| Pages.EntryParts | kernel/riscv.h:335-340 | page number and flags of an entry read back |
| Pages.IndicesDiffer | kernel/riscv.h:342-351 | different pages differ in one of the three indices |
| Pages.PxIndices | kernel/riscv.h:342-345 | PX gives the three 9-bit parts of the page number |
| PageTable.WalkTables | kernel/vm.c:80-98 | the path of a page runs through tables of its own tree, one level down at a time |
| PageTable.SlotsDistinct | kernel/vm.c:80-98 | two pages, of one or of two address spaces, never share a leaf slot |
| PageTable.LinkKeeps | kernel/vm.c:90-95 | hanging a zeroed table changes no translation of any address space |
| PageTable.LeafKeeps | kernel/vm.c:150 | writing a leaf entry changes the translation of exactly that page of exactly that address space |
| Kalloc.ChainPop | kernel/kalloc.c:68-82 | taking the first page leaves the rest of the list linked |
| Kalloc.ChainPush | kernel/kalloc.c:46-63 | putting a page in front leaves the list linked |
| Kalloc.OwnsOnce | kernel/vm.c:171-183 | a frame is mapped by one page of one address space only |
| Kalloc.GrownUndone | kernel/vm.c:229-238 | unmapping what was grown gives every translation back |
| Kalloc.NewRoot | kernel/vm.c:186-197 | a zeroed page is an address space with nothing mapped |
| Costs.HungTabling | kernel/vm.c:90-95 | a table hung on the way to a page is one fewer missing there and changes nothing for pages it does not serve |
| Costs.LacksStep | kernel/vm.c:87-95 | making the tables of the first of a run of pages leaves the rest lacking exactly those fewer |
| FreeWalk.FreedSpaces | kernel/vm.c:261-279 | taking down one page table changes no other address space |
| FreeWalk.AllGone | kernel/vm.c:281-289 | frames and then tables: together exactly the pages of the address space become free |
| FreeWalk.EmptyNoLeaves | kernel/vm.c:261-279 | an address space with nothing mapped has no leaf for freewalk to find |
| FreeWalk.NoLeavesEmpty | kernel/vm.c:261-279 | tables in which freewalk finds no leaf map nothing |
| Vm.Memory.constructor | kernel/kalloc.c:26-31 | every page between end and the top of memory starts held |
| Vm.Memory.FreeRange | kernel/kalloc.c:33-40 | every page becomes free |
| Vm.Memory.Kalloc | kernel/kalloc.c:65-82 | 0 exactly when none is free; else a free page becomes held, filled with junk, and no translation changes |
| Vm.Memory.Kfree | kernel/kalloc.c:42-63 | the page becomes free and first in the list; stops exactly on an unaligned or foreign address |
| Vm.Memory.Descend | kernel/vm.c:87-95 | a missing table is allocated, zeroed and hung, or memory is out and nothing changes |
| Vm.Memory.Walk | kernel/vm.c:68-98 | the leaf slot of the page; changes no translation; takes exactly the missing tables, and is missing exactly when not asked to make them or when fewer pages are free |
| Vm.Memory.MapPage | kernel/vm.c:146-150 | maps exactly that page, panics exactly on a mapped page or past MAXVA, fails exactly when fewer pages are free than tables are missing |
| Vm.Memory.MapPages | kernel/vm.c:133-157 | success maps exactly the requested pages and takes exactly the missing tables; failure has mapped a prefix of them and nothing else, and there were too few free pages for the tables up to the next |
| Vm.MappedRange | kernel/vm.c:137-157 | unless the addresses wrap, the pages mapped are exactly those that some byte of the range falls in |
| Vm.Memory.UnmapPage | kernel/vm.c:171-183 | clears exactly that entry and frees its frame if asked; panics exactly when it is not mapped |
| Vm.Memory.UvmUnmap | kernel/vm.c:159-184 | clears exactly those pages and frees exactly their frames; panics if and only if one is not mapped or unaligned |
| Vm.Memory.UvmCreate | kernel/vm.c:186-197 | an address space with nothing mapped, from a free page, or 0 when there is none |
| Vm.Memory.UvmDealloc | kernel/vm.c:243-259 | the pages between the sizes are unmapped and exactly their frames freed; panics if and only if one is not mapped |
| Vm.Memory.GrowPage | kernel/vm.c:228-238 | one page with a fresh frame of the given content, or no translation changed; fails exactly when fewer pages are free than the frame and the missing tables, and takes exactly those |
| Vm.Memory.RollBack | kernel/vm.c:229-238 | every translation is as before the growth |
| Vm.Memory.UvmAlloc | kernel/vm.c:215-241 | success adds zeroed pages in fresh frames with all permissions and takes exactly those and the missing tables; failure restores every translation; short of a panic it succeeds if and only if that many pages were free |
| Vm.Memory.CopyPage | kernel/vm.c:305-319 | one page copied to a fresh frame with the same flags, or no translation changed; fails exactly when fewer pages are free than the frame and the missing tables |
| Vm.Memory.UvmCopy | kernel/vm.c:291-325 | success gives equal bytes and flags in fresh frames; failure gives every translation back, so a new space has no leaves; short of a panic it succeeds if and only if enough pages were free for the frames and the missing tables |
| Vm.Memory.FreeTables | kernel/vm.c:261-279 | succeeds if and only if no leaf is left; then exactly the tables from p down are free |
| Vm.Memory.UvmFree | kernel/vm.c:281-289 | succeeds if and only if exactly those pages are mapped; then every frame and table of the space is free and nothing else has changed |
| Heap.MergeTiles | user/umalloc.c:33-42 | joining two touching blocks keeps the tiling |
| Heap.SplitTiles | user/umalloc.c:78-82 | splitting a block keeps the tiling |
| Heap.ExtendTiles | user/umalloc.c:54-59 | memory above all that was obtained is one more block |
| Heap.FreeCircle | user/umalloc.c:33-43 | after free's two-sided joining the list is one sorted circle with no two touching blocks |
| Heap.FreeKeeps | user/umalloc.c:24-44 | free keeps the whole heap invariant: the block is no longer live, other live blocks are untouched |
| Heap.UnlinkKeeps | user/umalloc.c:76-77 | taking a whole block off the circle keeps the invariant |
| Heap.SplitKeeps | user/umalloc.c:78-82 | taking the end of a block keeps the invariant and yields a new live block |
| Heap.MoreKeeps | user/umalloc.c:46-61 | new memory as one live block keeps the invariant |
| Malloc.Stops | user/umalloc.c:30-32 | the two tests of free's loop stop exactly at the block's place on the circle |
| Malloc.DistStep | user/umalloc.c:30-32 | each step of a search is one nearer to its end, so searches end |
| Malloc.FreedFits | user/umalloc.c:46-61 | after free some free block is at least as big as the freed one, even when it was joined |
| Malloc.UserHeap.constructor | user/umalloc.c:21-22 | the heap starts with nothing obtained |
| Malloc.UserHeap.Predecessor | user/umalloc.c:29-32 | the loop ends at the free block the freed one belongs after |
| Malloc.UserHeap.Free | user/umalloc.c:24-44 | exactly that block is no longer live; all other live blocks and the memory obtained are the same |
| Malloc.UserHeap.MoreCore | user/umalloc.c:46-61 | at least 4096 units more, and a block big enough is now free; nothing when sbrk fails |
| Malloc.UserHeap.Take | user/umalloc.c:75-85 | a fresh live block of exactly the units asked for |
| Malloc.UserHeap.Restart | user/umalloc.c:86-89 | after more memory the search goes on from freep and will meet a big enough block before it is back there |
| Malloc.UserHeap.Search | user/umalloc.c:74-90 | ends; takes the end of the first block after freep, round the circle, that is big enough, exactly when there is one; else asks sbrk |
| Malloc.UserHeap.Malloc | user/umalloc.c:63-90 | room for nbytes, to the unit, in a block disjoint from every live one, taken from the first that is big enough after freep; asks for memory exactly when no free block is; 0 only when sbrk failed |
| Ring.RemoveLinks | kernel/bio.c:128-129 | unlinking keeps a circular doubly linked list of the rest |
| Ring.FrontLinks | kernel/bio.c:130-133 | linking at the front keeps a circular doubly linked list |
| BufferCache.SameView | kernel/bio.c:92-103 | reading a block in leaves the logical disk as it was |
| BufferCache.RecycleView | kernel/bio.c:75-87 | recycling an unreferenced buffer reverts its block to what the disk has; the logical disk stays the same if and only if that is what the buffer held |
| BufferCache.MovedRecent | kernel/bio.c:126-134 | moving a buffer to the front keeps the list sorted by last move |
| BufferCache.Oldest | kernel/bio.c:75-87 | the first unreferenced buffer from the back is the one whose last move to the front is oldest |
| BufferCache.BufferCache.constructor | kernel/bio.c:36-53 | the list is a circle of all buffers, all of them (dev 0, block 0), and the logical disk is the disk |
| BufferCache.BufferCache.Lookup | kernel/bio.c:65-73 | finds the buffer of a block exactly when there is one |
| BufferCache.BufferCache.Victim | kernel/bio.c:75-88 | the least recently released unreferenced buffer, or none |
| BufferCache.BufferCache.Bget | kernel/bio.c:55-89 | the block's only buffer, or the oldest unreferenced one recycled; stops exactly when all are referenced; the logical disk changes exactly when the recycled buffer differs from the disk |
| BufferCache.BufferCache.Bread | kernel/bio.c:91-103 | the buffer holds the block's logical content, which is what it was before the call |
| BufferCache.BufferCache.Change | kernel/log.c:214-235 | changing a referenced buffer changes that block of the logical disk only |
| BufferCache.BufferCache.Bwrite | kernel/bio.c:105-112 | the disk block gets the content; the logical disk is the same; the buffer is clean |
| BufferCache.BufferCache.Brelse | kernel/bio.c:114-137 | one reference less; at none the buffer moves to the front; the logical disk is the same; unreferenced buffers stay clean if and only if this one is |
| BufferCache.BufferCache.Bpin | kernel/bio.c:139-144 | one reference more and nothing else |
| BufferCache.BufferCache.Bunpin | kernel/bio.c:146-151 | one reference less and nothing else; unreferenced buffers stay clean if and only if this one is |
| Virtio.ChainsDisjoint | kernel/virtio_disk.c:203-280 | two requests in flight share no descriptor |
| Virtio.EmptyIff | kernel/virtio_disk.c:300-312 | the 16-bit indices are equal exactly when the ring is empty, across wrap-around |
| Virtio.PushAt | kernel/virtio_disk.c:259-265 | a new entry goes to a slot that holds no unconsumed one |
| Virtio.PopAt | kernel/virtio_disk.c:300-312 | the consumed entry is the oldest one |
| Virtio.Room | kernel/virtio_disk.c:259-265 | there is always a slot, because requests are fewer than descriptors |
| VirtioDisk.Disk.constructor | kernel/virtio_disk.c:77-141 | all descriptors free, both rings empty |
| VirtioDisk.Disk.AllocDesc | kernel/virtio_disk.c:143-154 | the lowest free descriptor is taken, -1 exactly when there is none |
| VirtioDisk.Disk.FreeDesc | kernel/virtio_disk.c:156-170 | the descriptor is cleared and free; stops exactly on its two panics |
| VirtioDisk.Disk.Alloc3Desc | kernel/virtio_disk.c:187-201 | three different free descriptors, or those taken are given back and fewer than three are free |
| VirtioDisk.Disk.Format | kernel/virtio_disk.c:223-253 | the three descriptors lead to the header, the buffer and the status byte, with lengths, flags and links as section 5.2 of Virtio 1.1 asks, and no other changes |
| VirtioDisk.Disk.Post | kernel/virtio_disk.c:249-265 | the head goes into the avail ring, over no unconsumed entry |
| VirtioDisk.Disk.Submit | kernel/virtio_disk.c:203-265 | the request is in flight with its own three descriptors, or fewer than three are free and no request is added |
| VirtioDisk.Disk.DeviceTake | kernel/virtio_disk.c:259-269 | the device takes the oldest avail entry |
| VirtioDisk.Disk.Transfer | kernel/virtio_disk.c:226-247 | following the chain moves the data the request is for |
| VirtioDisk.Disk.Report | kernel/virtio_disk.c:249-253 | the status goes where the third descriptor says and the head into the used ring, over no unseen entry |
| VirtioDisk.Disk.DeviceDone | kernel/virtio_disk.c:282-315 | any taken request may end, with any status, through the addresses in its chain: with status 0 exactly its block or its buffer gets the data; it is reported once |
| VirtioDisk.Disk.See | kernel/virtio_disk.c:300-312 | the oldest completion clears the buffer that issued it, or stops exactly on a bad status |
| VirtioDisk.Disk.Intr | kernel/virtio_disk.c:282-315 | succeeds if and only if every unseen completion has status 0; exactly the completions before a bad one are seen and their buffers released |
| VirtioDisk.Disk.FreeChain | kernel/virtio_disk.c:172-185 | exactly the three descriptors of the request are free; the free_desc panics are unreachable |
| VirtioDisk.Disk.Release | kernel/virtio_disk.c:276-277 | the request's descriptors are given back and its slot is cleared |
| VirtioDisk.Disk.Finish | kernel/virtio_disk.c:271-280 | the request is gone and everything else in flight is as it was |
| DiskRuns.CarriedOnce | kernel/virtio_disk.c:203-315 | over every run from queueing a request to finishing it: it is taken, carried out and seen once each, in that order; a write left its block with the content the buffer had, a read left the buffer with the content the block had |
| DiskRuns.StandsAfter | kernel/virtio_disk.c:203-315 | at every moment of every run the phase of a request says exactly which moves it has had, and its buffer is touched by no other |
| Csemaphore.StepKeeps | user/Csemaphore.c:6-36 | every step of any thread keeps the invariant |
| Csemaphore.RunKeeps | user/Csemaphore.c:6-36 | the invariant holds on every run |
| Csemaphore.Counts | user/Csemaphore.c:6-36 | counting the calls that have ended: the value is never negative, downs never outrun the start plus ups, and with nobody inside the s1 section the value is the start plus ups less downs and s2 open plus threads past it is 1 exactly when it is positive |
| Csemaphore.Balanced | user/Csemaphore.c:23-36 | on every run the value is the start plus the ups less the downs that have ended, but for what the thread inside has yet to finish |
| Csemaphore.NoUpLost | user/Csemaphore.c:23-36 | an up on s2 always finds it locked with nobody past it |
| Csemaphore.NobodyStuck | user/Csemaphore.c:23-36 | while the start plus the ups that have ended exceed the downs and nobody is inside, of the threads waiting in down one can go on |
| Csemaphore.DeadlockIff | user/Csemaphore.c:6-36 | on every run no thread can go on if and only if all threads wait in down and the value is 0, or there are none |
| Sleep.StepInv | kernel/proc.c:705-756 | every step of sleep, wakeup, down, up, acquiresleep, releasesleep, alloc, free and sigKillHandler keeps the invariant, unless bsem_alloc takes a slot someone sleeps on |
| Sleep.RunInv | kernel/proc.c:705-756 | the invariant holds at every moment of every such interleaving, over any number of semaphores under one lock and sleep locks with their own |
| Sleep.NoLostWakeup | kernel/proc.c:1248-1269 | for each channel, at every moment: no thread sleeps on it or is about to while its flag is clear and its lock free, if and only if bsem_alloc never takes a slot that a thread sleeps on |
| Sleep.ProperNeverLoses | kernel/proc.c:1219-1269 | when semaphores are used only while allocated and freed only while unused, no wakeup is lost |
| Sleep.FreedWithWaiter | kernel/proc.c:1219-1246 | a run that frees a semaphore with a waiter, allocates it again, and loses the wakeup |
| Sleep.MutualExclusion | kernel/sleeplock.c:21-41 | on every run no two threads hold the same sleep lock, though a thread may hold several |
| Semaphores.DownsBounded | kernel/proc.c:1219-1269 | on every run the downs of a semaphore that have ended are at most its allocations and the ups that have begun; those of a sleep lock at most one more than its releases |
| Semaphores.ClearedBetween | kernel/proc.c:1248-1259 | between any two downs that end on a semaphore or sleep lock its flag is cleared |
| Semaphores.UpClears | kernel/proc.c:1261-1269 | an up that ends had the flag clear at some moment since it began |
| Semaphores.StuckIff | kernel/proc.c:705-756 | on every run no thread can do anything if and only if all sleep, and then each on a flag that is set unless bsem_alloc took a slot that was slept on |
| Signals.ReturnTakes | kernel/proc.c:1003-1096 | a return to user space takes at most the signal it acts on, and SIGCONT when it thaws; all others stay pending |
| Signals.ReturnDelivers | kernel/proc.c:961-1000 | a user handler starts exactly when the least signal to act on has one; frame and mask are then saved |
| Signals.ReturnActs | kernel/proc.c:1025-1089 | by the least signal to act on and its handler: SIGKILL, SIG_DFL and a handler SIGKILL end the process, SIGSTOP freezes it, SIG_IGN drops the signal, and anything else starts a handler |
| Signals.ReturnIdles | kernel/proc.c:1003-1096 | with no signal to act on, a return changes nothing but what it saves |
| Signals.UntilSigret | kernel/trap.c:108-113 | over every run from a delivery, until sigret: saved frame and mask stay, nothing else is delivered, posted signals stay pending |
| Signals.SigretResumes | kernel/proc.c:866-881 | over every run from delivery to sigret: the mask and every register but a0 are as when interrupted, a0 is 0, no signal is lost |
| Signals.KillWaits | kernel/trap.c:77-85 | a run inside a handler ends the process if and only if it exits or faults: no signal, SIGKILL included, does so before sigret |
| Signals.KillWithin | kernel/proc.c:1025-1089 | no run in which SIGKILL is pending from the start and no lesser signal is posted has more than ten returns made outside handlers, and after ten the process is killed |
| Signals.SigretUndoes | kernel/proc.c:866-1000 | sigret undoes userhandler, but for the signal it was for |
| Signals.BackupIs | kernel/proc.c:961-1007 | over every run the saved frame is that of the last return outside handlers and the saved mask that of the last delivery |
| Signals.MaskKept | kernel/proc.c:853-881 | over every run the mask outside handlers is always the one last chosen there, if and only if every sigret is called from a handler or while the mask of the last delivery is the one last chosen |
| Signals.StraySigret | kernel/proc.c:866-881 | over every run, sigret outside a handler goes back to the frame of the last return to user space and the mask of the last delivery |
| Signals.StrayExample | kernel/proc.c:866-881 | a run that loses its mask |
| Signals.PendingSince | kernel/proc.c:763-780 | over every run a signal is pending exactly when it was posted and no return has acted on it since |
| Signals.StartsClean | kernel/proc.c:251-293 | a process in a used slot starts with nothing pending if and only if every signal posted to the slot before had been acted on |
| Signals.StaleSignal | kernel/proc.c:251-293 | a signal posted to a process that exits is pending for the next one |
| Signals.Process.constructor | kernel/proc.c:78-85 | a slot that no process has had: nothing pending, default handlers, empty mask |
| Signals.Process.Reuse | kernel/proc.c:437-461 | mask and handlers of the parent, no handler running, not frozen; what was pending stays pending |
| Signals.Process.PostSignal | kernel/proc.c:763-780 | adds exactly that signal, -1 exactly when out of range |
| Signals.Process.SetMask | kernel/proc.c:851-862 | sets the mask and returns the old one |
| Signals.Process.SigAction | kernel/proc.c:923-956 | installs the action that copyin left in the kernel and gives the old one; refuses exactly out of range, SIGKILL and SIGSTOP |
| Signals.Process.HandlePending | kernel/proc.c:1002-1096 | acts on the least unblocked signal, or returns it for a user handler |
| Signals.Process.Trap | kernel/trap.c:57-73 | a system call served in place is the step of the machine the runs are made of: a killed process and one that exits end here |
| Signals.Process.UserTrapRet | kernel/trap.c:108-113 | the return whose effect the lemmas above state; nothing while a handler runs |
| ShellLexer.ReadsSpaced | user/sh.c:262-308 | reading tokens spelled with any blanks between them, or none where none is needed, gives the tokens back |
| ShellGrammar.LineBack | user/sh.c:344-359 | a printed command read as a line is the command, whatever may follow a line |
| ShellGrammar.PipeBack | user/sh.c:361-372 | the same for pipelines |
| ShellGrammar.SimpleBack | user/sh.c:399-446 | the same where only a simple command or a block may stand |
| ShellGrammar.ParsePrints | user/sh.c:327-446 | parsing what the printer gives gives the tree back if and only if every command has fewer than MAXARGS arguments |
| ShellGrammar.ParseStable | user/sh.c:327-446 | printing and parsing again what was parsed changes nothing |
| ShellGrammar.NothingLost | user/sh.c:327-446 | a parsed tree has exactly the words and marks of the line, each as often |
| Shell.GetToken | user/sh.c:265-308 | NUL exactly at the end; else the first token's code and place, with the cursor at the rest |
| Shell.ScanToken | user/sh.c:276-300 | code and end of the token at a position |
| Shell.Peek | user/sh.c:310-320 | the cursor at the next token, and whether it starts with a given character |
| Shell.ReadRedirs | user/sh.c:374-397 | gathers exactly the redirections at the cursor; panics exactly when a file is missing |
| Shell.ReadBlock | user/sh.c:399-413 | a parenthesised line and its redirections, as the grammar says |
| Shell.ReadArgs | user/sh.c:422-446 | words and redirections in any order, as the grammar says; panics exactly on its errors |
| Shell.ReadExec | user/sh.c:415-446 | agrees with the grammar's simple command |
| Shell.ReadPipe | user/sh.c:361-372 | agrees with the grammar's pipeline |
| Shell.ReadBacks | user/sh.c:350-353 | agrees with the grammar's background marks |
| Shell.ReadLine | user/sh.c:344-359 | agrees with the grammar's line; always ends |
| Shell.NulTerminate | user/sh.c:449-493 | writes NUL exactly at the ends of the tree's words |
| Shell.CutTree | user/sh.c:449-493 | no cut reaches into a word: every pointer of the tree points to its word as a C string |
| Shell.ReadCmd | user/sh.c:327-342 | panics exactly when the line does not parse; else the tree the pointers stand for is the parse of the line as it was |
| Shell.LineReadsBack | user/sh.c:265-493 | a tree printed and spelled as a line, with any blanks, is what parsing the line gives |
| Regexp.HereOne | user/grep.c:83-94 | a literal or dot takes one fitting character |
| Regexp.HereStar | user/grep.c:97-104 | a starred item takes a run of any length, then the rest |
| Regexp.SomewhereIs | user/grep.c:70-80 | matching somewhere is matching from some position |
| Regexp.Match | user/grep.c:70-80 | true exactly when the text has a split that the pattern accepts, at the start after ^ |
| Regexp.MatchHere | user/grep.c:83-94 | true exactly when a beginning of the text does; the mutual recursion ends |
| Regexp.MatchStar | user/grep.c:97-104 | the same after a starred item |

## Left out

- Disk contents are words or bytes by module: the log's blocks and the file system's blocks are not one type, and the log's step machine takes any block content.
- Locks, scheduling and interrupts, except in the step machines; processes, kthread_exit, kthread_join, exit, exec and freeproc.
- ialloc, iget, iput, ilock and link counts: the inode table is kept apart from the bytes of the inode blocks, and iupdate copies an entry from one to the other.
- copyin, copyout, copyinstr: given by how many bytes are there (`src`, `room`); what a failed copy to user space leaves there is not in the model.
- Mkfs.Image.IAppend: mkfs does not check for the end of the image; here it stops there.
- kvmmake, kvmmap, uvminit, uvmclear and walkaddr, which would only add easy members.
- Malloc.UserHeap.Malloc: addresses count headers, and requests are small enough that neither the 32-bit rounding of nbytes nor the int argument of sbrk overflows.
- VirtioDisk.Disk.DeviceDone: the device is a step that ends any request it took; its registers and the fences are not in the model.
- Csemaphore.Counts: both allocations succeed and the start value is not negative.
- Sleep.MutualExclusion: other users of sleep and wakeup (wait, pipes, the disk, the console) are not channels of the model.
- Signals: signals in a process of several threads, exec, the user stack that userhandler writes to, and yield inside the frozen wait, which is a return that cannot happen yet.
- Directory.Directory.DirLink: whether the directory can grow is the parameter `room`; the writes below it are those of the file system model.
- Directory.Directory.DirUnlink: which directory an inode number is, is the parameter `dirs`; the link counts that unlink lowers are not in the model.
- Paths.NameI: inode reference counts and locks along the walk.
- Shell.ReadArgs: the node of a simple command is built when its words are known, not filled in under its redirections; runcmd and the allocation of nodes.
- kernel/pipe.c, kernel/console.c, kernel/uart.c, system-call argument handling, boot and trap entry, and the other user programs, which are easier or are assembly and I/O.

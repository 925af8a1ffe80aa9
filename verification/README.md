# xv6 for RISC-V: verified models

This project models the hard parts of the xv6 teaching kernel (with memory-mapped files added), its `mkfs`
and two of its user programs, and proves what they are for. Each component is one or a few modules:

- **The crash-safe log over the buffer cache** (`LogDisk`, `LogProtocol`, `LogProofs`, `LogTheorems`,
  `LogSpace`, `LogDriver`). A state machine in which any number of processes begin, read, modify, log and end
  operations, buffers are recycled at any time, `commit` and recovery advance one block write at a time, and
  the machine may crash between any two writes, recovery included. The theorems are about every run. The class
  `LogDriver.Log` has the source's fields and loops; each of its methods takes steps of that machine.
- **Block and inode layer** (`FsFormat`, `FsLayout`, `FileSystem`), **directories** (`Directory`) and **`mkfs`** (`Mkfs`,
  `RootDirectory`). Bitmap, direct and indirect blocks on a disk of bytes refine one flat byte sequence per file, with
  exact ownership of blocks and exact answers of every operation.
- **Both together** (`FsImage`, `CrashSafety`). Each operation on files is one transaction of the log, with the inode
  table packed into blocks. After a crash at any moment of any run, the disk that recovery leaves can be mounted and its
  files are, byte by byte, those a number of whole operations left; the history goes on from there through any
  number of crashes.
- **Sv39 page tables and the page allocator** (`Sv39`, `Vm`, `VmProcs`, `Mmu`). A three-level tree spelled out in
  physical pages refines a map from virtual page to entry, and the hardware's own walk translates by that map; with any
  number of processes, every allocatable page is free, kept by the kernel, or held by exactly one of them.
- **The user heap** (`Heap`). The circular, address-ordered free list of `malloc` and `free`.
- **Processes** (`Process`, `ProcessInv`, `ProcessTheorems`, `ProcessLinks`). Scheduler hand-off, sleep and wakeup, fork, exit,
  reparent and wait as a state machine for any number of CPUs and processes, one lock-protected step at a time, with
  timer interrupts wherever no lock is held.
- **The shell's parser** (`ShellGrammar`, `ShellText`, `Shell`, `ShellSyntax`, `ShellLayout`). The running parser accepts
  exactly the lines of a grammar written down apart from it, in any layout of blanks, and builds the tree they mean.
- **The virtio block driver** (`VirtioDisk`), **the buffer list** (`BufferList`), **open files** (`FileTable`)
  and **mapped regions** (`Regions`). `Basics` holds what several of these share.

Spinlocks and sleeplocks make a critical section one step. A `panic` is an outcome that is proved unreachable
(`panicked` stays false, or the condition it tests is excluded) or, where it can happen, has its exact condition.

Five promises of the source turn out to hold only under a condition; in each case the model follows the code and
the exact condition is proved:

- The log is documented to have room for operations of up to MAXOPBLOCKS blocks each. The header block takes one
  block of the log and the check for a full log precedes absorption, so the panic is unreachable if and only if every
  operation stays below MAXOPBLOCKS (`LogSpace.SpaceGuaranteeIsExact`). A `filewrite` chunk needs at most seven.
- `mkfs` rounds the root directory's size up past its last block. The image has a hole in the root directory if and only
  if the number of files plus two is a multiple of 64 (`Mkfs.Image.Build`).
- `fileread` and the load fault of a mapped file call `readi` without beginning an operation. Where the file has a hole
  `readi` allocates a block, and `log_write` panics unless some other process has an operation outstanding. A read
  panics if and only if nothing is outstanding, a data block is free and the read gets as far as a hole
  (`FileSystem.Fs.Readi`). A file system without holes stays without, so on it no run panics (`FileSystem.Fs.Run`);
  on a fresh image the first read panics if and only if it reads the hole `mkfs` left (`Mkfs.FirstReadPanics`), and
  `Mkfs.HoledBoot` is such a run.
- `morecore` passes an unsigned byte count to the signed argument of `sbrk`. The heap records the memory it gets if
  and only if the request is at most 0x7FFF_FFE0 bytes (`Heap.SbrkGetsWhatMorecoreRecords`); for a larger one its blocks
  reach past the break (`Heap.MorecoreBacksItsBlock`), unless a free block fits (`Heap.Allocator.Malloc`).
- `mmap` checks no length. Regions stay disjoint between the top and the trapframe if and only if the length is at most
  the top, the new top is not above the trapframe, and no mapped address lies below the new top
  (`Regions.PlacedStacked`); for lengths that are not negative this comes down to there being room
  (`Regions.RoomIsEnough`). `Regions.NegativeLengthOverlaps` makes the calls that break it, and
  `Regions.NegativeLengthAfterUnmap` calls with a negative length that do not.

Images with a hole are covered like all others: every operation keeps ownership and contents, and nothing but such a
read panics. Inside an operation, reading a hole maps a zeroed block there, so a read can log blocks and can stop short
on a full disk; `FileSystem.Fs.Readi` says exactly when.

## Model

| member | source | states |
|---|---|---|
| `LogDisk.InstallKeepsView` | kernel/log.c:68-83 | Installing any one logged block leaves what recovery would restore unchanged, so installation can be cut and repeated. |
| `LogDisk.HeaderWriteCommits` | kernel/log.c:102-114 | The one header write turns complete log blocks into a committed transaction: from then on recovery yields the new contents of every home block. |
| `LogProofs.ViewIsStable` | kernel/log.c:116-123 | In every phase of commit, installation and recovery, recovering the disk as it stands restores exactly the durable contents of each home block. |
| `LogProofs.StepInv` | kernel/log.c:126-235 | Every enabled step (begin, read, modify, log, end, recycle, commit write, crash, recovery write) keeps the invariant that ties disk, header, cache and history together. |
| `LogProofs.RunInv` | kernel/log.c:54-235 | The invariant holds at every state of every run that starts from a freshly made file system. |
| `LogTheorems.RecoveredDiskIsClosedPrefix` | kernel/log.c:116-203 | At every moment of every run, recovery would leave each home block as a prefix of the requested writes leaves it, and that prefix contains each operation wholly or not at all. |
| `LogTheorems.CompletedRecoveryRestores` | kernel/log.c:116-123 | A recovery that completes, after however many crashes, has put exactly that prefix into the home blocks. |
| `LogTheorems.DurableOnlyGrows` | kernel/log.c:193-203 | What is durable stays durable across every step, crashes included. |
| `LogTheorems.CommitRunsAlone` | kernel/log.c:126-175 | While a commit runs nothing is outstanding and no operation begins, modifies, logs or ends; an idle log with nobody in progress has made everything durable. |
| `LogTheorems.BreadReturnsLastWrite` | kernel/bio.c:92-103 | In every run `bread` returns the last data written to the block, from the cache or from the disk. |
| `LogTheorems.LoggedBlocksAreNotRecycled` | kernel/bio.c:139-151 | A logged block is never recycled before it has been installed. |
| `LogTheorems.WriteLogCopiesLastWrite` | kernel/log.c:178-191 | Each log block written holds the last data written to its home block, never a stale copy. |
| `LogTheorems.RecoversToQuietMoment` | kernel/log.c:126-203 | Whatever is recovered, at any moment of any run, is the simple store as it stood at one earlier moment with no operation in progress; so whatever holds between operations survives every crash. |
| `LogSpace.QuotaBelowMaxNeverPanics` | kernel/log.c:126-142 | With operations below MAXOPBLOCKS distinct blocks, `begin_op`'s reservation keeps every run, with any number of operations at once, from the "too big a transaction" panic. |
| `LogSpace.MaxOpBlocksPanics` | kernel/log.c:214-235 | A run of three operations that log MAXOPBLOCKS blocks each reaches the panic. |
| `LogSpace.SpaceGuaranteeIsExact` | kernel/log.c:214-235 | The panics are unreachable if and only if each operation logs fewer than MAXOPBLOCKS distinct blocks. |
| `LogDriver.CommitIsAtomic` | kernel/log.c:193-203 | After any number of the steps of one commit, the disk recovers to all-before or to all-after. |
| `LogDriver.RecoverIsIdempotent` | kernel/log.c:116-123 | After any number of the steps of recovery, the disk still recovers to the same contents. |
| `LogDriver.Log.TryBeginOp` | kernel/log.c:126-142 | One pass of the waiting loop admits the operation exactly when the protocol's begin step is enabled, and takes that step. |
| `LogDriver.Log.EndOp` | kernel/log.c:146-163 | The first half takes the protocol's end step; commit is requested exactly when it was the last operation. |
| `LogDriver.Log.EndOpWhole` | kernel/log.c:146-175 | From every reachable state: no panic; the last operation out commits, after which everything that ended is durable and the log is idle and empty; otherwise nothing is written. |
| `LogDriver.Log.FinishCommit` | kernel/log.c:165-174 | The log becomes idle by a commit step of the protocol, so operations may begin again. |
| `LogDriver.Log.LogWrite` | kernel/log.c:214-235 | Absorbs a block already logged, otherwise appends and pins it, as the protocol's log step; panics exactly when that step does. |
| `LogDriver.Log.WriteHeadBlock` | kernel/log.c:102-114 | The header block on disk and in the cache holds the count and the entries, its other words unchanged. |
| `LogDriver.Log.WriteLog` | kernel/log.c:178-191 | The loop is a run of commit steps that copies every logged block and changes no history. |
| `LogDriver.Log.InstallTrans` | kernel/log.c:68-83 | The loop is a run of commit (or recovery) steps that installs every block; it unpins only in a commit. |
| `LogDriver.Log.RunCommit` | kernel/log.c:193-203 | The method is a run of commit steps, after each of which the disk recovers to all-before or all-after; at the end everything is durable and the log is empty. |
| `LogDriver.Log.ReadHead` | kernel/log.c:86-97 | Afterwards the in-memory header lists exactly the block numbers of the on-disk header. |
| `LogDriver.Log.RecoverFromLog` | kernel/log.c:116-123 | The method is a run of recovery steps, each of which keeps what would be restored; at the end the home blocks hold it and the log is empty. |
| `FsFormat.WordOfSet` | kernel/fs.c:382-421 | Storing a word of an indirect block in bytes gives that word back and leaves all others. |
| `FsFormat.BitOfSet` | kernel/fs.c:65-105 | Setting or clearing one bit of a bitmap block changes that bit and no other. |
| `FsImage.InodeRound` | kernel/fs.h:32-39 | An inode read back from its sixteen words is the inode. |
| `FsImage.BytesRound` | kernel/fs.h:6-7 | A block read back from its words is the block. |
| `FsImage.ImageRound` | kernel/fs.h:32-51 | Inode table, bitmap and data read back from the blocks on disk are those that were put there. |
| `FsImage.RecordedBlock` | kernel/log.c:214-235 | One more logged block accounts for the change of that block. |
| `FsImage.RecordedInode` | kernel/fs.c:225-240 | The one inode block `iupdate` logs accounts for the change of that inode and of no other. |
| `FsLayout.StoreElsewhere` | kernel/fs.c:50-59 | Writing a block no slot refers to changes no reference and no byte of any file. |
| `FsLayout.StoreData` | kernel/fs.c:505-539 | Writing an owned data block changes that block of its one file and no other byte of any file. |
| `FsLayout.Attach` | kernel/fs.c:382-394 | Putting a zeroed free block into an empty inode slot keeps ownership exact and changes no byte of any file. |
| `FsLayout.AttachIndirect` | kernel/fs.c:399-417 | The same for an entry of the indirect block. |
| `FsLayout.Truncated` | kernel/fs.c:425-453 | With its address table cleared the inode owns nothing and reads as zeros, and all other files keep bytes and blocks. |
| `FileSystem.ChunkFitsLog` | kernel/file.c:155-174 | One `filewrite` transaction logs at most seven blocks when one bitmap block covers the disk. |
| `FileSystem.Spliced` | kernel/fs.c:505-539 | Bytes stored in place and the size set to the maximum are exactly a splice of the file's flat byte sequence; other files are equal. |
| `FileSystem.StaysWhole` | kernel/fs.c:505-539 | A write that starts within the file adds no hole, also when it stops early. |
| `FileSystem.Fs.constructor` | kernel/fs.c:41-47 | A consistent image with sizes that fit is a file system at rest; these are the conditions `Mkfs.Image.Build` establishes for every list of files. |
| `FileSystem.Fs.FindFree` | kernel/fs.c:65-88 | The scan finds the lowest clear bit, or none exactly when every data block is in use. |
| `FileSystem.Fs.Balloc` | kernel/fs.c:65-88 | Returns a zeroed block nobody owned and marks it, or 0 when none is left; no file changes. It panics exactly when a block is free and no operation is outstanding. |
| `FileSystem.Fs.Bfree` | kernel/fs.c:91-105 | Panics exactly when the bit is clear; otherwise clears that bit and touches only the bitmap block. |
| `FileSystem.Fs.Bmap` | kernel/fs.c:382-421 | Returns the block that holds the file block, allocating it and the indirect block if needed; 0 only when the disk is full; no byte of any file changes and existing mappings stay. It panics exactly when there is none, a block is free and no operation is outstanding. |
| `FileSystem.Fs.Itrunc` | kernel/fs.c:425-453 | No `bfree` panics; exactly this inode's direct, indirect and indirect-table blocks become free and every other file is untouched. |
| `FileSystem.Fs.Readi` | kernel/fs.c:471-496 | Panics exactly when no operation is outstanding, a block is free and the read gets to a hole before a copy fails. Otherwise returns exactly a slice of the file's bytes below its size, nothing for a bad or wrapping offset, -1 only when a copy fails; it changes no file, and outside an operation nothing at all; without holes it is never short, with holes it is short only on a full disk. |
| `FileSystem.WholeReads` | kernel/fs.c:471-496 | Reading a file without holes never panics, whether or not an operation is outstanding. |
| `FileSystem.Fs.Read` | kernel/file.c:120-124 | In the flat view a read changes nothing and answers what the size allows, with exactly those bytes, or -1 if and only if the destination cannot take them; only a hole on a full disk makes it shorter. The offset advances by the bytes read; it panics exactly as `readi` does, so never where no file has a hole. |
| `FileSystem.Fs.Writei` | kernel/fs.c:505-539 | Refuses exactly a bad offset or an oversize end; otherwise replaces exactly `off..off+r` and sets the size to the maximum, where `r` is all of the source, or its whole blocks before the first byte that cannot be read, and less only on a full disk; holes elsewhere do not matter and none is added. |
| `FileSystem.Fs.FileWrite` | kernel/file.c:155-174 | The chunks together replace exactly the bytes reached, the offset advances by them, -1 is returned only for a stated reason, and every chunk logs at most seven blocks. |
| `FileSystem.Fs.Write` | kernel/fs.c:505-539 | Between operations: the file becomes its old contents with the bytes spliced in, all of them unless the source cannot be read or the disk is full, and every other file is the same; blocks, bitmap and inodes are in order again. |
| `FileSystem.Fs.Ialloc` | kernel/fs.c:198-219 | Takes the lowest free inode and changes no other, or returns 0 exactly when none is free. |
| `FileSystem.Fs.FreeInode` | kernel/fs.c:336-362 | The last-reference branch of `iput` frees exactly this inode's blocks without a panic and leaves it free and empty. |
| `FileSystem.Fs.Truncate` | kernel/fs.c:425-453 | In the flat view truncation empties one file. |
| `FileSystem.Fs.Perform` | kernel/fs.c:198-539 | Every operation on the block layout does to the flat files exactly the step of the same name and answers what that step answers: the bytes read, the count written, the lowest free inode; the blocks it wrote account for all that changed on the disk. It panics exactly if it is a read outside every operation that gets to a hole while a block is free, and then nothing has changed. |
| `FileSystem.Fs.Run` | kernel/fs.c:198-539 | From any consistent image, holed or not, any sequence of reads, creations, writes, truncations and removals keeps bitmap, ownership and sizes exact and refines the flat store step by step, answers included, up to the first read that panics as above, if there is one; without holes there is none. The writes of each operation lead from one disk to the next, and the inode table on disk keeps up with memory unless a read inside an operation may fill a hole. |
| `Mkfs.Image.constructor` | mkfs/mkfs.c:110-115 | A blank image in which nothing is allocated. |
| `Mkfs.Image.Iappend` | mkfs/mkfs.c:252-294 | The file grows by exactly the bytes given and no other byte changes; it succeeds exactly when size and blocks fit, and takes exactly the blocks the growth needs. |
| `Mkfs.Image.Ialloc` | mkfs/mkfs.c:220-232 | Inodes are handed out in order and no contents change; fails exactly when none is left. |
| `Mkfs.Image.AddFile` | mkfs/mkfs.c:130-161 | One more directory entry, one more inode with exactly the file's bytes, all else kept; succeeds exactly when inode, sizes and blocks fit. |
| `Mkfs.Image.MakeRoot` | mkfs/mkfs.c:117-128 | The root directory is inode 1 and lists itself twice. |
| `Mkfs.Image.AddAll` | mkfs/mkfs.c:117-161 | The directory lists the files in order and each inode holds its file; succeeds exactly when they fit. |
| `Mkfs.Image.Balloc` | mkfs/mkfs.c:234-248 | A bit is set exactly for metadata and blocks some slot refers to; no file changes. |
| `Mkfs.Image.Build` | mkfs/mkfs.c:110-172 | Succeeds exactly when the inodes, the file sizes and the number of blocks the files need fit; the image is consistent, holds exactly the files and uses exactly the blocks they need; it has no hole if and only if the number of files plus two is no multiple of 64, and otherwise exactly the one in the last block of the root directory. |
| `Mkfs.Boot` | mkfs/mkfs.c:110-172 | For every list of files that fits: the image can be mounted, and any sequence of operations on it runs and refines the flat store, answers included, up to the first read that panics on a hole; with no hole in the image nothing panics. |
| `Mkfs.BootedFiles` | mkfs/mkfs.c:110-172 | The flat files such a run starts from are the files given. |
| `Mkfs.FirstReadPanics` | mkfs/mkfs.c:163-168 | On a fresh image an operation panics if and only if it is a read of the root directory outside every operation that gets to its last block, the number of files plus two is a multiple of 64 and a data block is left. |
| `Mkfs.HoledImage` | mkfs/mkfs.c:163-168 | Sixty-two empty files give an image whose root directory has two blocks by its size and one in fact. |
| `Mkfs.HoledBoot` | kernel/log.c:222-223 | With those sixty-two files, reading the directory entry after the last one outside every operation panics. |
| `Directory.NameCmp` | kernel/fs.c:543-547 | The loop over fourteen bytes finds two names equal exactly when the C string in the entry is the name, cut to fourteen bytes. |
| `Directory.DirLookup` | kernel/fs.c:551-575 | Returns inode and offset of the first entry in use with that name, or nothing exactly when there is none; panics on what is no directory and otherwise only for a ragged size or a hole on a full disk. |
| `RootDirectory.EntryAt` | mkfs/mkfs.c:120-152 | Entry by entry, the bytes `mkfs` writes read back as the inode number and the name, cut to fourteen bytes. |
| `RootDirectory.FindsFirst` | mkfs/mkfs.c:117-161 | A lookup in those bytes finds the first file of that name, or nothing exactly when no entry has it. |
| `RootDirectory.BootAndLookup` | kernel/fs.c:551-575 | On the mounted image `dirlookup` of any name finds that file's inode, which holds that file's bytes. |
| `CrashSafety.ClosedPrefix` | kernel/log.c:146-175 | A prefix of serial operations that cuts none in two is a number of whole operations. |
| `CrashSafety.ReplaySerial` | kernel/log.c:193-203 | The writes of the first operations leave on the disk the file system as it was after them. |
| `CrashSafety.Mounts` | kernel/fs.c:41-47 | Any disk that agrees with a sound file system from the inode table on mounts as one, with the same files. |
| `CrashSafety.CrashLeavesWholeOperations` | kernel/log.c:116-203 | At every moment of every run, recovery would leave a consistent file system whose files are those after a number of whole operations, all of them when the log is idle. |
| `CrashSafety.CrashForgetsTheRest` | kernel/log.c:116-123 | A crash drops the requests of the operations it does not keep and no others. |
| `CrashSafety.RebootFindsWhatWasKept` | kernel/log.c:116-123 | A recovery that completes, after however many crashes, leaves a disk that mounts with exactly the files of the operations kept. |
| `CrashSafety.ChronicleGoesOn` | kernel/log.c:54-66 | What was kept followed by what was done after the reboot is again a history these theorems apply to. |
| `CrashSafety.FirstBoot` | mkfs/mkfs.c:110-172 | From a fresh image, operations up to the first panic make such a history, starting with the files given and refining the flat store at every step, answers included; with no hole in the image any operations do, and nothing panics. |
| `CrashSafety.Remount` | kernel/fs.c:41-47 | Mounting such a disk gives a file system at rest with those files, without holes if there were none. |
| `CrashSafety.Reboot` | kernel/fs.c:41-47 | Operations after a reboot start from the files kept, refine the flat store, answers included, up to the first panic and extend the history. |
| `Sv39.PteFields` | kernel/riscv.h:348-350 | Packing a page number and flags into an entry and taking them out again is the identity; it is a leaf exactly when R, W or X is set. |
| `Sv39.IndexFields` | kernel/riscv.h:355-357 | The three index fields of an address below MAXVA are those of its page. |
| `Sv39.AtInjective` | kernel/riscv.h:355-363 | Two pages with the same three index fields are the same page. |
| `Sv39.ReprFrame` | kernel/vm.c:86-103 | Memory outside the table pages does not affect what the tree denotes. |
| `Sv39.SetLeaf` | kernel/vm.c:143-199 | Storing or clearing one leaf entry changes the translation of that page and no other. |
| `Sv39.AddMid` | kernel/vm.c:86-103 | Hanging a zeroed page under the root adds a table and no translation. |
| `Sv39.AddLow` | kernel/vm.c:86-103 | The same one level further down. |
| `Vm.Kernel.Kfree` | kernel/kalloc.c:46-63 | The page joins the free set; no other page is written. |
| `Vm.Kernel.Kalloc` | kernel/kalloc.c:68-82 | Takes a page from the free set, or returns 0 exactly when it is empty; no other page is written. |
| `Vm.Kernel.FreeRange` | kernel/kalloc.c:33-40 | After start-up the free set is all of allocatable memory. |
| `Vm.Kernel.Walk` | kernel/vm.c:86-103 | Reaches the bottom table of the address; building tables leaves the denoted map unchanged and takes pages only from the free set; it fails only when they run out. |
| `Vm.Kernel.MapPages` | kernel/vm.c:143-172 | Adds exactly the entries of its range, or of the prefix before it stopped; it fails only when no page is free, and panics exactly on an unaligned or empty range or when the next page lies beyond MAXVA or is mapped already. |
| `Vm.Kernel.UvmUnmap` | kernel/vm.c:177-199 | Removes exactly the range, frees exactly its frames if asked to, and none of its panics is reachable. |
| `Vm.Kernel.UvmDealloc` | kernel/vm.c:262-274 | Frees exactly the pages between the two sizes and removes exactly their translations. |
| `Vm.Kernel.UvmAlloc` | kernel/vm.c:232-256 | Adds zeroed pages between the two sizes, or returns 0 with the map as before and every page accounted for; it fails only with fewer than three free pages for each page asked. |
| `Vm.Kernel.Undo` | kernel/vm.c:232-256 | The roll-back restores the map and returns every data page. |
| `Vm.Kernel.UvmCopy` | kernel/vm.c:312-340 | The child gets equal pages with equal flags, or nothing at all; the parent's map and pages are untouched; it fails only with fewer than three free pages for each page copied. |
| `Vm.Kernel.FreeWalk` | kernel/vm.c:278-294 | Exactly the table pages of the subtree join the free set and the leaf panic is unreachable. |
| `Vm.Kernel.UvmFree` | kernel/vm.c:298-304 | Exactly the user pages and the table pages join the free set. |
| `Vm.Kernel.ProcPagetable` | kernel/proc.c:186-215 | A table that maps trampoline and trapframe and nothing else, or nothing taken at all; it fails only with fewer than five free pages. |
| `Vm.Kernel.ProcFreePagetable` | kernel/proc.c:219-225 | Exactly what the table held is free again. |
| `Vm.BelowTrapframe` | kernel/memlayout.h:44-64 | A process cannot own more pages than the machine has, so one `sbrk` never reaches the trapframe although nothing checks it. |
| `Vm.Kernel.GrowProc` | kernel/proc.c:268-284 | For every amount: the memory is resized with every page accounted for, and every new page is zero with V, R, W and U set and X clear; a failure changes neither size nor map and happens only when memory runs out; shrinking by more than the size changes nothing. |
| `Vm.Kernel.ForkMemory` | kernel/proc.c:288-306 | The child's memory equals the parent's and shares no page with it, with the trampoline and its own trapframe mapped in their places, or the free set is as before. |
| `Vm.Kernel.Lifecycle` | kernel/proc.c:186-306 | Creating, any sequence of `sbrk` amounts, forking and freeing returns the free set to its starting value whatever fails on the way, and writes no page outside it. |
| `VmProcs.Machine.AllocProc` | kernel/proc.c:137-150 | A new process with a trapframe and an empty table that maps it and the trampoline, or nothing at all and fewer than six free pages; no other process notices. |
| `VmProcs.Machine.GrowProc` | kernel/proc.c:268-284 | The process keeps translations and contents below both sizes and gets zeroed, writable pages above; it fails only for want of memory; no other process notices. |
| `VmProcs.Machine.Fork` | kernel/proc.c:288-306 | The child has the parent's size, flags and contents on pages of its own, or nothing was taken; no other process notices. |
| `VmProcs.Machine.FreeProc` | kernel/proc.c:164-181 | Exactly what the process held is free again; no other process notices. |
| `VmProcs.Machine.Run` | kernel/proc.c:164-306 | Any sequence of creations, resizes, forks and exits of any number of processes does at every step what the operation is to do; afterwards every page is free, the kernel's, or held by exactly one process, and every process has trampoline and trapframe in place; when all have exited, all of it is free. |
| `Mmu.HardwareAgrees` | kernel/riscv.h:341-357 | The walk the hardware makes through the words in memory translates exactly the pages of the map, to the frame and with the flags it says. |
| `Mmu.FreshIsUsable` | kernel/proc.c:268-284 | At every address `sbrk` handed out user code may load and store but not execute, and finds zero. |
| `Mmu.FixedIsForTheKernel` | kernel/proc.c:185-214 | User code may do nothing in the trampoline and the trapframe; the kernel finds the one executable and the other writable, each at its address and in its frame. |
| `Mmu.ChildSeesTheSame` | kernel/vm.c:312-343 | After `fork`, the child may do at every address what the parent may, and finds the same there. |
| `Heap.CoalescedIsCanonical` | user/umalloc.c:24-44 | A fully coalesced set of free blocks is determined by the bytes it covers. |
| `Heap.FreeListDetermined` | user/umalloc.c:24-90 | Whatever calls led there, the free list is a function of what is allocated. |
| `Heap.StopsOnlyThere` | user/umalloc.c:24-44 | The loop condition of `free` holds at one place of the list only, between the block's neighbours. |
| `Heap.FreedList` | user/umalloc.c:24-44 | After `free` the list is circular, sorted and coalesced, and covers the old free bytes and the block; all other headers are untouched. |
| `Heap.SbrkGetsWhatMorecoreRecords` | user/umalloc.c:46-61 | The size handed to `sbrk` is the size recorded if and only if the request is at most 0x7FFF_FFE0 bytes. |
| `Heap.MorecoreBacksItsBlock` | user/umalloc.c:46-61 | With the block `morecore` records, free and allocated blocks tile memory below the new break if and only if the request is at most 0x7FFF_FFE0 bytes. |
| `Heap.Allocator.constructor` | user/umalloc.c:21-22 | Before the first call nothing is allocated or obtained. |
| `Heap.Allocator.Search` | user/umalloc.c:24-44 | From any start the loop ends, at the last list element below the block. |
| `Heap.Allocator.Free` | user/umalloc.c:24-44 | Exactly this block stops being allocated; free and allocated blocks still tile the memory obtained, coalesced and sorted; no allocated header is written. |
| `Heap.Allocator.Morecore` | user/umalloc.c:46-61 | Adds at least 4096 units (64 kB) and at least what was asked above the break to the free list, or changes nothing when `sbrk` fails. |
| `Heap.Allocator.Take` | user/umalloc.c:63-90 | The fitting block is unlinked or its tail cut off, and exactly that block becomes allocated. |
| `Heap.Allocator.Malloc` | user/umalloc.c:63-90 | The search ends after at most one successful `morecore`; the bytes asked for lie in memory obtained, behind a header, in a block with less than sixteen to spare that meets no other block, allocated or free; memory grows or 0 is returned only when no free block was large enough. The heap is ruined exactly when no free block fits a request above 0x7FFF_FFE0 bytes and `sbrk` does not fail. |
| `Heap.Allocator.MallocThenFree` | user/umalloc.c:24-90 | Freeing what was just allocated restores the free list block for block when the heap did not grow. |
| `ProcessInv.SchedStep` | kernel/proc.c:483-551 | Every step keeps CPUs, process states and process locks in agreement across `swtch`, with timer interrupts wherever interrupts are on, in the kernel too. |
| `ProcessInv.OneHolder` | kernel/proc.c:366-474 | At most one process is between acquiring and releasing `wait_lock`. |
| `ProcessInv.FamilyStep` | kernel/proc.c:350-425 | Every step keeps parents alive and keeps sleepers in `wait` free of zombie children, up to the one wakeup still to come. |
| `ProcessInv.PidStep` | kernel/proc.c:93-104 | Every step keeps pids of live processes distinct and unreturned. |
| `ProcessTheorems.StepInv` | kernel/proc.c:288-648 | Every step of every process and CPU keeps the whole invariant. |
| `ProcessTheorems.RunInv` | kernel/proc.c:288-648 | The invariant holds at every state of every run. |
| `ProcessTheorems.NoLostWakeup` | kernel/proc.c:407-474 | In every interleaving, when `wait_lock` is free no process asleep in `wait` has a zombie child. |
| `ProcessTheorems.ParentsAreAlive` | kernel/proc.c:350-361 | In every interleaving every process but init has a parent, and it has not exited. |
| `ProcessTheorems.PidReturnedOnce` | kernel/proc.c:429-474 | No two `wait` calls of a run return the same pid. |
| `ProcessTheorems.RunningMeansOnOneCpu` | kernel/proc.c:483-551 | A process whose lock is free is RUNNING exactly when a CPU's `proc` points to it, and never do two. |
| `ProcessTheorems.ReapedStackIsIdle` | kernel/proc.c:429-474 | `wait` frees a zombie only when no CPU is on its kernel stack or switching to or from it. |
| `ProcessTheorems.SchedIsCalledRight` | kernel/proc.c:522-540 | The checks at the head of `sched` never fail: the caller holds its own lock and no other, and is not RUNNING. |
| `ProcessLinks.RunLinks` | kernel/proc.c:288-474 | In every run unused slots have no parent, a slot being forked into has its forker once linked, and the scan of `wait` knows exactly whether it has passed a child. |
| `ProcessLinks.WaitReturnsZombie` | kernel/proc.c:440-458 | In every run, `wait` at a zombie child returns its pid, which was never returned before, frees exactly that slot and lets go of the lock. |
| `ProcessLinks.OnlyWaitReaps` | kernel/proc.c:429-474 | The pids returned change exactly at such a step. |
| `ProcessLinks.WaitFailsOnlyWithoutZombie` | kernel/proc.c:462-470 | `wait` comes back empty-handed only without any child, or killed; and then no child of its caller has exited. |
| `ProcessLinks.WaitSleepsWithLiveChild` | kernel/proc.c:462-472 | `wait` sleeps only with a child, none of which has exited. |
| `ProcessLinks.WaitHeedsKill` | kernel/proc.c:462-467 | After a scan without a zombie, `wait` returns exactly when its caller has been killed or has no child, and lets go of the lock exactly then. |
| `ProcessLinks.StatesChangeOnlySo` | kernel/proc.c:111-648 | In every run each change of a process's state has its one cause: the life cycle, with who may cause each step. |
| `ProcessLinks.LinksChangeOnlySo` | kernel/proc.c:288-474 | A parent link is set by its `fork`, moved to init by the parent's `exit` and removed by the parent's `wait`, and never otherwise. |
| `ProcessLinks.ForkStartsChild` | kernel/proc.c:335-345 | `fork` starts a child of the caller under a pid that nobody else has and that was never returned. |
| `ProcessLinks.KillRousesTarget` | kernel/proc.c:629-648 | A killed process is marked and does not stay asleep; nobody else changes. |
| `ProcessLinks.SleepUntilWoken` | kernel/proc.c:579-625 | `sleep` waits on the channel it names and `wakeup` of that channel, and of no other, makes the sleeper runnable. |
| `ProcessLinks.SwitchingIsInvisible` | kernel/proc.c:483-577 | However a process is interrupted and switched, in `fork` and `wait` too, it goes on where it was. |
| `ProcessLinks.TimerTakesUnlockedCpu` | kernel/trap.c:196-198 | The timer can take a CPU from a process exactly while that CPU holds no lock. |
| `ProcessLinks.NoSlotLeaks` | kernel/proc.c:111-181 | In every run a slot that is taken has a live process forking into it, and one that has exited a live parent to wait for it. |
| `ShellGrammar.LineRound` | user/sh.c:345-360 | Parsing the printed tokens of any command tree of any shape gives the tree back and stops exactly behind it. |
| `ShellGrammar.ExecRound` | user/sh.c:416-447 | The same for simple commands, blocks and redirections. |
| `ShellGrammar.PipeRound` | user/sh.c:362-373 | The same for pipelines. |
| `ShellText.LexSpelled` | user/sh.c:266-309 | Scanning spelled-out tokens finds exactly those tokens again. |
| `ShellText.LineText` | user/sh.c:345-360 | Parsing positions in the buffer and then reading their text is parsing the texts. |
| `Shell.Peek` | user/sh.c:311-321 | Skips blanks only and answers whether the next token starts with one of the symbols. |
| `Shell.GetToken` | user/sh.c:266-309 | Returns the first token of the scanner's list and leaves the rest; `ShellLayout.LexWritten` says what that list is for every line. |
| `Shell.ParseRedirs` | user/sh.c:375-398 | Agrees with the grammar on which redirections follow, and fails exactly when it does. |
| `Shell.ParseArgs` | user/sh.c:416-447 | The argument loop agrees with the grammar, the limit on arguments included. |
| `Shell.ParseBlock` | user/sh.c:400-414 | Agrees with the grammar on parenthesised commands. |
| `Shell.ParseExecAt` | user/sh.c:416-447 | Agrees with the grammar on commands. |
| `Shell.ParsePipeAt` | user/sh.c:362-373 | Agrees with the grammar on pipelines. |
| `Shell.ParseLineAt` | user/sh.c:345-360 | Agrees with the grammar on lines. |
| `Shell.NulTerminate` | user/sh.c:450-494 | The buffer has a NUL exactly at the end of every word of the tree and is otherwise unchanged. |
| `Shell.StringsSurvive` | user/sh.c:450-494 | After all the cuts, every argument and file name read as a C string is the token scanned. |
| `Shell.ParseCmd` | user/sh.c:328-343 | Succeeds exactly when the scanner's tokens of the whole line parse; the tree it leaves in the buffer reads back as that command. |
| `Shell.RoundTrip` | user/sh.c:266-494 | For every tree with non-empty plain words and few enough arguments, the grammar parses its canonical line to exactly that tree. |
| `Shell.ParsePrinted` | user/sh.c:328-343 | The same through the running code: `parsecmd` on that line succeeds, and the C strings left in the buffer make up exactly that tree. |
| `ShellSyntax.LineSound` | user/sh.c:345-447 | Whatever the parser accepts has a derivation in the grammar, with the tree it built. |
| `ShellSyntax.LineComplete` | user/sh.c:345-447 | Every derivation, redirections and parentheses anywhere the grammar allows them, is accepted with its tree. |
| `ShellSyntax.ParserIsExact` | user/sh.c:345-447 | So the parser takes a token sequence and builds a tree if and only if the grammar derives it with that meaning. |
| `ShellLayout.LexWritten` | user/sh.c:263-309 | Tokens typed with any spaces, tabs, carriage returns, newlines and vertical tabs around them, and none needed next to a symbol, are scanned as those tokens. |
| `ShellLayout.EveryLineIsWritten` | user/sh.c:263-309 | Every line is its tokens in some such layout. |
| `ShellLayout.LineMeans` | user/sh.c:263-447 | Scanning and parsing a line give a tree if and only if the line is a derivation of it in some layout; no line means two things. |
| `ShellLayout.ParseAny` | user/sh.c:328-343 | The running code on any line: it succeeds exactly on lines that mean something, and the C strings in the buffer make up what the line means. |
| `VirtioDisk.Push` | kernel/virtio_disk.c:215-292 | Publishing an entry overwrites none that is still unread, also when the 16-bit index wraps. |
| `VirtioDisk.Pop` | kernel/virtio_disk.c:294-327 | The reader takes the entries in the order they were published, also across the wrap. |
| `VirtioDisk.EmptyRing` | kernel/virtio_disk.c:294-327 | The two indices are equal exactly when nothing is left to read. |
| `VirtioDisk.DeviceReadsRequest` | kernel/virtio_disk.c:215-292 | As long as a request is on its way, a device that follows the chain by section 5.2 of Virtio 1.1 makes out exactly the direction, sector and buffer that were submitted. |
| `VirtioDisk.Disk.constructor` | kernel/virtio_disk.c:61-153 | Initially every descriptor is free and both rings are empty. |
| `VirtioDisk.Disk.AllocDesc` | kernel/virtio_disk.c:156-166 | Takes the lowest free descriptor, or none exactly when none is free. |
| `VirtioDisk.Disk.Alloc3` | kernel/virtio_disk.c:201-213 | Three different free descriptors, or everything given back when fewer than three are free. |
| `VirtioDisk.Disk.Submit` | kernel/virtio_disk.c:215-292 | Adds one request on three free descriptors, which the device reads as submitted; keeps every descriptor free or in exactly one chain and every other request readable. |
| `VirtioDisk.Disk.DeviceTake` | kernel/virtio_disk.c:215-292 | The device sees requests in the order they were published, and reads each as it was submitted. |
| `VirtioDisk.Disk.DeviceComplete` | kernel/virtio_disk.c:294-327 | Requests may complete in any order and with any status, and the used ring never overflows. |
| `VirtioDisk.Disk.IntrOne` | kernel/virtio_disk.c:294-327 | Panics exactly when the device reported a failure; otherwise releases the buffer of a request that has completed and was not released before. |
| `VirtioDisk.Disk.Intr` | kernel/virtio_disk.c:294-327 | Afterwards every reported completion has been handled, up to the first failure; without a failure there is no panic. |
| `VirtioDisk.Disk.FreeChain` | kernel/virtio_disk.c:185-197 | Following the links frees exactly the chain's three descriptors without a panic. |
| `VirtioDisk.Disk.Finish` | kernel/virtio_disk.c:215-292 | A request whose wait has ended had completed and been released once; exactly its descriptors become free. |
| `BufferList.Unlinked` | kernel/bio.c:116-137 | The two stores take the buffer out of the circular list and keep the rest in order. |
| `BufferList.PutInFront` | kernel/bio.c:116-137 | The four stores put the buffer behind the head and keep the rest in order. |
| `BufferList.MovedToFront` | kernel/bio.c:116-137 | The list stays ordered by when each buffer was last released. |
| `BufferList.Cache.constructor` | kernel/bio.c:36-53 | The list built in a loop is circular and holds every buffer once. |
| `BufferList.Cache.Brelse` | kernel/bio.c:116-137 | At the last reference the buffer moves to the front; otherwise the list does not change; the list stays a permutation of all buffers. |
| `BufferList.Cache.Lookup` | kernel/bio.c:58-89 | Finds the buffer of the block, or none exactly when no buffer holds it. |
| `BufferList.Cache.Victim` | kernel/bio.c:58-89 | Finds the least recently released unreferenced buffer, or none exactly when all are referenced. |
| `BufferList.Cache.Bget` | kernel/bio.c:58-89 | At most one buffer per block of a real device; a referenced buffer keeps its identity; a recycled one is the least recently released; panics exactly when nothing can be found. |
| `BufferList.Cache.Bpin` | kernel/bio.c:139-144 | One more reference, same list. |
| `BufferList.Cache.Bunpin` | kernel/bio.c:146-151 | One reference fewer, same list. |
| `FileTable.GivenUpAtLastClose` | kernel/file.c:59-83 | Between system calls the pipe end or inode of a file has been given up if and only if no descriptor or region names the file any more, and at most once. |
| `FileTable.OkClosed` | kernel/file.c:59-83 | Closing keeps counts, types and history in agreement; a half-built file gives up nothing. |
| `FileTable.Files.constructor` | kernel/file.c:22-26 | Initially no file is in use. |
| `FileTable.Files.FileAlloc` | kernel/file.c:29-44 | Takes the lowest unused file with one reference in hand, or fails exactly when all are in use. |
| `FileTable.Files.FdAlloc` | kernel/sysfile.c:39-52 | The lowest free descriptor takes over the reference, or -1 exactly when none is free. |
| `FileTable.Files.FileDup` | kernel/file.c:47-56 | One more reference, in the caller's hand. |
| `FileTable.Files.FileClose` | kernel/file.c:59-83 | One reference fewer; the last one makes the file unused and gives up what it stood for, if anything; the panic is unreachable. |
| `FileTable.Files.SysDup` | kernel/sysfile.c:54-66 | Counts equal names afterwards; fails exactly on a bad descriptor or a full table, without a trace. |
| `FileTable.Files.SysClose` | kernel/sysfile.c:97-108 | Exactly this descriptor goes and counts equal names again. |
| `FileTable.Files.SysOpen` | kernel/sysfile.c:344-361 | A new file under the lowest free descriptor, or failure without a trace exactly when files or descriptors ran out. |
| `FileTable.Files.PipeAlloc` | kernel/pipe.c:22-56 | Two different new files, or none and nothing given up. |
| `FileTable.Files.SysPipe` | kernel/sysfile.c:477-505 | Two new descriptors, or everything as before with both ends of a pipe that was made closed once. |
| `FileTable.Files.SysMmap` | kernel/sysfile.c:525-547 | The lowest free region names the file and is counted; panics exactly on a descriptor that is not open or when all regions are in use, and refuses exactly a shared writable mapping of a read-only file. |
| `FileTable.Files.Retire` | kernel/sysfile.c:579-585 | The region lets go of the file exactly when the counter did not stand at one; counts equal names either way. |
| `FileTable.Files.Fork` | kernel/proc.c:311-328 | The child names exactly what the parent names and counts equal names again. |
| `FileTable.Files.Exit` | kernel/proc.c:371-400 | The process names nothing any more, no other slot changes, and counts equal names again. |
| `Regions.PlacedStacked` | kernel/sysfile.c:525-547 | A new region keeps all mapped addresses disjoint and between top and trapframe if and only if the length is at most the top, the new top is not above the trapframe and no mapped address lies below it. |
| `Regions.RoomIsEnough` | kernel/sysfile.c:525-547 | For lengths that are not negative, if and only if the length is at most the top. |
| `Regions.PlacedPaged` | kernel/sysfile.c:525-547 | Below a page boundary, no page is shared between a region and anything else if and only if the length is a multiple of the page size. |
| `Regions.NegativeLengthOverlaps` | kernel/sysfile.c:534-546 | Three calls of `mmap`, one with a negative length, leave two regions that share an address. |
| `Regions.NegativeLengthAfterUnmap` | kernel/sysfile.c:534-546 | After the region above is retired, a negative length keeps the layout: the condition is exact. |
| `Regions.Mapped.constructor` | kernel/proc.c:129-135 | A new process has no regions and its top is the trapframe. |
| `Regions.Mapped.Mmap` | kernel/sysfile.c:525-547 | Uses the lowest free region just below the top; keeps the layout exactly under the condition above; fails (a panic in the source) exactly when all are in use. |
| `Regions.Mapped.Find` | kernel/sysfile.c:557-568 | Finds the first match, and when the regions are disjoint it is the only one. |
| `Regions.Mapped.LoadFault` | kernel/trap.c:72-103 | Panics exactly on a mapped address that is not page-aligned, is present already, has no memory left for its page and tables, or whose part of the file has a hole that `readi` would fill outside every operation; otherwise the new page holds the file's bytes from the faulting address on and zeros past the end of the file (earlier only where a hole meets a full disk). |
| `Regions.Mapped.Munmap` | kernel/sysfile.c:549-592 | Whichever branch is taken the regions stay disjoint and no other region changes. |
| `Regions.Mapped.Fork` | kernel/proc.c:311-320 | The child has exactly the parent's regions in use, at the same addresses. |

## Left out

- LogDriver.Log.EndOpWhole: requires, like `RunCommit`, that the buffers a commit needs are not locked; the source would wait for them.
- LogDriver.Log.RunCommit: requires that nobody holds the lock of a logged block or of a block of the log region; the source would wait for it.
- FileSystem.Fs.Readi: whether an operation is outstanding is taken not to change during one call; inside another process's operation, the blocks a read maps into holes are logged on that operation's account, which `LogSpace` does not count.
- FileSystem.Fs.Writei: a copy from user memory fails as a whole for one block or not at all; `good` says where.
- FileSystem.Fs.Iupdate: keeps the inode table as a sequence; `FsImage` packs it into blocks and reads it back. Device numbers are not part of an inode, and the superblock is a record.
- CrashSafety.CrashLeavesWholeOperations: takes the operations one after another, though the log commits them in groups, and states in which the inode table on disk is the one in memory. Only a read inside an operation that fills a hole leaves any other (`FileSystem.Fs.Run`): the block is in the bitmap before it is in the inode.
- Vm.Kernel.MapPages: takes physical pages by number.
- Heap.Allocator.constructor: places the list head `base` below the break, as the linker does.
- Mkfs.Image.Build: takes file names after prefixes are stripped and gives up where the source would run past the disk or the inode table unchecked.
- Shell.ParseArgs: attaches redirections to the command when its argument list is complete, where the source wraps the node while still filling it in.
- VirtioDisk.Disk.DeviceTake: memory ordering and the register interface of the device are not modelled.
- BufferList.Cache.Bunpin: `bunpin` does not move the buffer, so the order is that of releases through `brelse`.
- FileTable.Files.SysMmap: whether flags and the file's mode clash is a parameter, and a descriptor number outside the table counts as not open. System calls on files are taken one at a time.
- FileTable.Files.SysOpen: starts where the inode has been found; putting the inode back on failure is the caller's.
- Regions.Mapped.LoadFault: the mapping's offset is ignored, as in the source; whether a page is present and whether memory is left are parameters, so the page table itself is not updated; store faults are not modelled.
- Regions.Mapped.Munmap: says nothing about write-back and page removal, which do not do in the source what their comments say.
- ProcessTheorems.PidReturnedOnce: pids are unbounded, so their wrap-around is not modelled.
- VmProcs.Machine.Run: the pages of the kernel itself are one set that never changes; operations that name no process, or a pid in use, are refused. Pages that load faults of mapped regions enter into a page table are in no process's map here.
- The in-memory inode table (`iget`, reference counts of inodes), link counts, directories and path names: they would add members of the same kind as the file table.
- Pipes, console, uart, `exec`, system call argument fetching, `copyin`/`copyout`, kernel page table set-up, string routines and the other user programs.
- Assembly, trap entry, interrupts and timers, memory ordering and the spin loop of `acquire`.

# The xv6 kernel and its shells, modelled and proved in Dafny

This project models the parts of xv6 whose correctness no test settles, and proves what they
promise. `dafny verify dfyconfig.toml` checks all of it.

Storage, from the disk up:

- `LogSpec`, `LogProtocol`, `LogBudget`, `LogAdmission` - the write-ahead log as disk images and as a state machine over every interleaving of operations, commits, crashes and recoveries, with the exact conditions under which it is safe.
- `Bcache`, `Storage`, `Log` - the buffer cache and the log as they run, on linked buffers with flags, proved to write exactly the images of the crash model. `Blocks`, `Lists` and `CacheStore` hold what they share.
- `FsLayout`, `FsSpec`, `FsFile`, `FsWrite`, `FsTrunc`, `FsInodes`, `FsOps`, `FileIo` - bitmap, inodes, indirect blocks, readi, writei, itrunc, ialloc, iput and filewrite, with the ownership of every block and the byte string of every file.
- `Writes`, `FsLog` - the log_write calls each of these makes, in order: they make the disk it leaves of the disk it found.
- `FsCrash` - the file system over the log, in use by any number of processes: what a crash leaves of it.
- `Links` - directories and link counts over create, link and unlink.

Processes and memory:

- `SleepWakeup`, `SleepChannels` - acquire, release, sleep and wakeup step by step, for any number of processes: the counter of sleep1.p, and any data with any conditions on any channels.
- `ProcTable` - the process table under fork, exit, wait, sleep, wakeup and kill.
- `VmSpec`, `Vm` - two-level page tables, their frames, copyuvm and freevm.
- `Umalloc` - the user-level allocator.

Text and rings:

- `ShellLex`, `ShellGrammar`, `ShellSyntax`, `ShellParse` - the shell's lexer, grammar, command language and in-place parser.
- `Strtok` - the student shell's tokeniser.
- `Grep` - the regular expression matcher.
- `Pipe`, `Console`, `Counters` - ring buffers with wrapping 32-bit counters. `CTypes` holds what these and the shells share.

How to read it. A panic is a result value, and a contract says exactly when it occurs or that it
cannot. Ghost fields hold what the code only implies: who owns a block, a frame or a heap unit, the
bytes that went through a pipe, the order of the buffers. A class's `Valid` is what holds between
calls, so it holds after every sequence of them. Code that sleeps is cut at the sleep: one call is
one stretch under the lock, and every interleaving is a sequence of such calls or of the explicit
steps of a state machine. log_write tests lh.n before it takes its lock, so there it is two steps,
with anything between them.

Where the code and its own description differ, the model follows the code:

- mkfs makes the log region LOGSIZE blocks long (mkfs.c:25), so log_write's limit is LOGSIZE-1 (log.c:215) and operations that log MAXOPBLOCKS blocks can reach the panic; `TooBigUnreachable` gives the exact condition, in the number of processes and of blocks that one operation may log. In a log that is full up to the limit even a block that is in it already panics, because log_write tests before it absorbs.
- log_write tests lh.n before it takes log.lock (log.c:215-220), so calls in flight together can take lh.n past the limit. In a log region of 2 to 29 blocks a commit then writes past its end; from 30 on the cache is full before that. `GroupCommitExactly` says when, with the run.
- filewrite's chunk of 13 blocks (file.c:132) exceeds MAXOPBLOCKS (param.h:10): `FileIo.File.WriteChunk` bounds what it logs by 16 blocks and the bitmap's, in at most 59 calls. So filewrite is not assumed to keep to MAXOPBLOCKS. By `FileIo.ChunkFits` operations of that size cannot reach the panic while a single process runs them: 17 blocks, with one bitmap block, are fewer than the 29 the test lets in. Next to operations of another process they can.
- create and link work in a directory that has been unlinked and is still held by a process (sysfile.c:114-281); what they make there is miscounted, `Links.Tree.Create` and `Links.Tree.Link` say exactly when.
- With lh.n equal to NBUF commit runs out of buffers; `Log.Log.Commit` says so.
- deallocuvm says its sizes need not be page-aligned in any way (vm.c:245-248), but its leap over an absent page table can miss pages when it starts inside one; `VisitsExactly` says which.
- `>>` is parsed apart from `>` and opened the same way (sh.c:387-392).
- sleep1.p's consumer does not test again after sleeping; every sleep in the kernel is in a loop, and so is the model's.
- malloc's rounding wraps for the seven largest requests, and sbrk takes the size as an int (umalloc.c:54, 69).
- A killed writer leaves a full pipe without waking the reader (pipe.c:84-88); `Pipe.PipeBuf.Write` says exactly when that strands one.

## Model

| member | source | states |
|---|---|---|
| `LogSpec.WriteHeadReads` | log.c:100-112 | Writing a header and reading it back gives the same block list, whatever was in the block before |
| `LogSpec.RecoveryImagesRecover` | log.c:114-121 | A crash after any number of recovery's block writes leaves an image whose recovery ends in the same home blocks as an uninterrupted one |
| `LogSpec.CrashChainRecovers` | log.c:114-121 | So does any chain of crashes inside recoveries of recoveries |
| `LogSpec.CommitCrashAtomic` | log.c:174-199 | Crash atomicity: after k of commit's block writes, recovery gives the whole pre-image if the header is not yet written and the whole post-image if it is |
| `LogSpec.CommitCrashChainAtomic` | log.c:68-199 | The same when recovery itself crashes any number of times |
| `LogSpec.CommitEnds` | log.c:189-199 | A commit that runs to its end leaves the post-image and an empty header |
| `LogSpec.CommitTraceInstalls` | log.c:189-199 | The images install_trans produces are those of the second half of a commit |
| `LogProtocol.StepInv` | log.c:123-230 | Every step keeps the protocol invariant: begin_op, the unlocked test and the locked append of log_write, end_op, bread and brelse by any process, each block write of a commit, a crash, each block write of recovery. What is given up is only said once a store has gone past lh.block or past the log region |
| `LogProtocol.GroupCommit` | log.c:123-230 | In every reachable state, of any interleaving and with crashes anywhere, unless a store has gone astray: a recovery would show exactly a well-bracketed prefix of the operations with none open. Always: committing implies outstanding == 0, and the panics "log.committing" and "log_write outside of trans" are unreachable |
| `LogProtocol.QuiescentDurable` | log.c:144-171 | Once no operation is outstanding and no commit runs, the whole history is on disk |
| `LogProtocol.DurableGrows` | log.c:144-199 | What is durable stays durable over every run, crashes included |
| `LogProtocol.SleeperHasWaker` | log.c:124-171 | A process asleep in begin_op implies committing or outstanding >= 1 |
| `LogProtocol.WakesAll` | log.c:144-171 | When an operation ends among others, and when a commit is over, nobody is left asleep in begin_op, and everybody who was tests for admission again |
| `LogBudget.BudgetStep` | log.c:124-140 | Each logged or held block has a buffer of its own, so lh.block is never overrun; with allowances of at most MAXOPBLOCKS blocks, lh.n plus what is left of them never exceeds MAXOPBLOCKS plus two allowances; with a single process it never exceeds one |
| `LogBudget.ReachableBudget` | log.c:123-230 | When there is only one process, or the log region holds NBUF blocks or more, or more than MAXOPBLOCKS plus two allowances, or lets no call pass, or there are fewer other blocks than it has, no copy of a commit ever leaves it |
| `LogAdmission.TooBigUnreachable` | log.c:211-230 | "too big a transaction" is unreachable if and only if operations log nothing, or the disk has too few blocks to fill the log, or the limit of the test exceeds one allowance for a single process, MAXOPBLOCKS plus two allowances for more; otherwise a run that panics is constructed |
| `LogAdmission.CanStray` | log.c:173-230 | Otherwise two processes pass the unlocked test at once, both append, and the commit's last copy lands on the block after the log region, before the header is written |
| `LogAdmission.StrayBreaks` | log.c:173-199 | A recovery from that disk shows no prefix of the operations with none open: neither the old blocks nor the new |
| `LogAdmission.GroupCommitExactly` | log.c:123-230 | So crash atomicity holds in every reachable state if and only if that condition holds, for every layout, every number of processes and every allowance |
| `LogAdmission.MkfsLog` | mkfs.c:25 | With mkfs's log atomicity always holds, and the "too big" panic is unreachable if and only if operations log fewer than MAXOPBLOCKS blocks each, or fewer than LOGSIZE - 1 when there is only one process |
| `Bcache.Cache.constructor` | bio.c:39-57 | After binit the list holds every buffer once, all free, and the file system's view is the disk |
| `Bcache.UnlinkLinked` | bio.c:131-132 | Taking a buffer out of the doubly linked list leaves the list of the others, both directions |
| `Bcache.PushFrontLinked` | bio.c:133-136 | Putting a buffer first leaves it followed by the others in their order, both directions |
| `Bcache.Cache.Scan` | bio.c:69-81 | The forward scan finds the buffer of a cached block and answers none only if no buffer holds it |
| `Bcache.Cache.ScanFree` | bio.c:83-95 | The backward scan finds the least recently released buffer that is neither busy nor dirty, or there is none |
| `Bcache.Cache.Bget` | bio.c:62-96 | The cached buffer, or the least recently released free one; a busy or dirty buffer is never recycled; "no buffers" if and only if the block is not cached and nothing is free; what the file system sees is unchanged though a recycled buffer is not read yet |
| `Bcache.Cache.Iderw` | memide.c:37-59 | Which requests panic, and what an accepted one does to the buffer and the disk |
| `Bcache.Cache.Bread` | bio.c:98-109 | bread returns the home disk overlaid by pinned buffers and changes neither that view nor the pinned set; other calls may come between its two halves |
| `Bcache.Cache.Fill` | bio.c:103-107 | The read after bget: the buffer shows its block as the file system sees it, and nothing else changes |
| `Bcache.FetchedKeepsView` | bio.c:62-109 | Neither half of bread changes what any block looks like or which are pinned, whatever other buffers are held or still to be read |
| `Bcache.Cache.Bwrite` | bio.c:111-119 | bwrite puts the buffer's data on the disk, in the view and in the write trace, and unpins it; the panic exactly for a buffer nobody holds |
| `Bcache.Cache.Brelse` | bio.c:121-142 | The buffer becomes free and first in release order; the cache stays in step with the disk if and only if the holder had logged or written what it changed |
| `Bcache.LogicalIsOverlay` | bio.c:98-109 | Between holders the file system sees the disk overlaid by the dirty buffers |
| `Bcache.NotBoth` | bio.c:62-96 | No real block has two buffers |
| `Storage.CommitStoreImages` | log.c:189-199 | commit through the cache writes exactly the images of the crash model, in order, unpins everything and leaves the view of the home blocks alone |
| `Storage.CommitImagesAtomic` | log.c:173-199 | Each image that a running commit writes, one by one, is crash-atomic: recovery shows the disk from before up to the last copy into the log, and what the file system saw from the header on |
| `Storage.RecoverStoreImages` | log.c:114-121 | recover_from_log through the cache writes exactly the recovery images |
| `Storage.CommitKeepsView` | log.c:189-199 | Committing changes nothing the file system can see |
| `Log.Log.WriteLog` | log.c:173-187 | write_log copies every logged block from the cache to its log slot; it hits "no buffers" if and only if lh.n >= NBUF |
| `Log.Log.WriteHeader` | log.c:97-112 | write_head stores the list in the header block through the cache |
| `Log.Log.InstallTrans` | log.c:67-81 | install_trans copies every log slot to its home block and unpins it |
| `Log.ProtocolPins` | log.c:68-85 | What the protocol counts as pinned in the middle of a commit is what install_trans has not released yet |
| `Log.Log.Commit` | log.c:189-199 | commit succeeds if and only if fewer than NBUF blocks are pinned, with no other holder, and then has the effect of CommitStore |
| `Log.Log.ReadHeader` | log.c:83-95 | read_head reads back the list write_head stored |
| `Log.Log.RecoverFromLog` | log.c:114-121 | Recovery through the cache installs the committed transaction and clears the header |
| `Log.Log.LogWriteTest` | log.c:211-218 | Exactly when each panic occurs, on the values of lh.n and outstanding at the time |
| `Log.Log.LogWriteAppend` | log.c:220-230 | Under the lock, whatever lh.n has become since the test: the block is recorded once and its buffer pinned, unless lh.block is full |
| `Log.Log.LogWrite` | log.c:211-230 | Both halves with nothing between them |
| `Log.Log.UpdateBlock` | log.c:201-209 | bread, modify, log_write, brelse: the view changes at one block, the disk not at all |
| `Log.Log.BeginOp` | log.c:123-140 | Admission exactly when no commit runs and the reservation fits |
| `Log.Log.EndOp` | log.c:142-171 | The last operation commits; the outcomes and panics with their exact conditions |
| `Log.SomeFree` | bio.c:83-95 | With fewer than NBUF blocks pinned and nothing held, some buffer is free |
| `Log.FreeBesides` | bio.c:83-95 | With two to spare, some buffer besides the held one is free |
| `FsLayout.DecodeEncode` | fs.c:198-215 | An inode stored in its block and read back is the same inode |
| `FsLayout.DecodeOther` | fs.c:198-215 | Storing an inode leaves the others of its block alone |
| `FsLayout.MkfsLaidOut` | mkfs.c:94-108 | The superblock mkfs writes meets the layout the file system relies on exactly when the metadata fits on the disk: each inode and each block's bit has its place between the log and the data |
| `FsSpec.MarkUsedBits` | fs.c:62-66 | Setting a bit marks that block and no other |
| `FsSpec.MarkFreeBits` | fs.c:84-91 | Clearing a bit frees that block and no other |
| `FsSpec.OneOwner` | fs.c:356-384 | No block belongs to two inodes or two places of one |
| `FsSpec.ConservedGain` | fs.c:356-384 | Filling an empty slot with an unowned block keeps: set bits are metadata plus blocks owned exactly once |
| `FsSpec.ConservedLoss` | fs.c:391-419 | So does emptying a slot and clearing its bit |
| `FsFile.MappedBoth` | fs.c:367-380 | bmap that must allocate the indirect block and an entry of it keeps conservation and every other mapping |
| `FsFile.MappedOthers` | fs.c:356-384 | bmap leaves every other file alone |
| `FsFile.MappedBytes` | fs.c:356-384 | bmap changes no byte that was mapped |
| `FsFile.UpdatedOnDisk` | fs.c:198-215 | iupdate puts the in-memory inode on disk and no other |
| `FsWrite.WriteRound` | fs.c:471-484 | One round of writei's loop keeps: bytes so far in place, all other bytes and files unchanged, and a block is mapped only past the old size |
| `FsWrite.WriteEndsInside` | fs.c:486-489 | A hole-free file that does not grow needs no iupdate: its block list did not change |
| `FsWrite.WriteEndsPast` | fs.c:486-489 | A file that grows is hole-free, equals the spliced byte string, and its inode is on disk |
| `FsOps.FileSystem.Balloc` | fs.c:50-74 | The lowest free block, not owned before, marked and zeroed; "out of blocks" only when every block is in use; its two log_write calls, the bitmap block and the block, make the new disk of the old |
| `FsOps.FileSystem.Bfree` | fs.c:76-93 | "freeing free block" exactly when the bit is clear; otherwise only that bit changes, and one log_write call of a bitmap block makes the change |
| `FsOps.FileSystem.Bmap` | fs.c:352-384 | The block's address, allocating what is missing and nothing else; panics exactly out of range or when the disk is full; a mapped block costs nothing; its log_write calls make the new disk of the old, at most three, two more for a new indirect block |
| `FsOps.FileSystem.Readi` | fs.c:432-459 | Reading gives the bytes of the file from the offset on, exactly as many as asked for or up to the end of the file, and never allocates; the failures with their exact condition, 32-bit wrap included |
| `FsOps.FileSystem.Writei` | fs.c:461-492 | Writing splices the bytes into the file's byte string, keeps it hole-free and its inode in step with the disk, and every other hole-free file reads as before; the failures with their exact condition; its log_write calls applied in order make the new disk of the old, none goes to the log or before it, they go to at most one block for each block touched, the indirect block, the inode's and the bitmap's, and are at most four for each block touched and three |
| `FsOps.FileSystem.Iupdate` | fs.c:198-215 | The inode on disk is the in-memory one; no other changes; one log_write call of its block makes the change |
| `FsTrunc.FreeEntry` | fs.c:403-410 | Freeing an entry's block keeps conservation although the indirect block still names it |
| `FsOps.FileSystem.Itrunc` | fs.c:386-419 | Exactly the inode's blocks are freed, each once; "freeing free block" is unreachable; the file is empty on disk and every other file reads as before; its log_write calls make the new disk of the old and go to the bitmap and the inode's block only |
| `FsOps.FileSystem.Ialloc` | fs.c:176-196 | The lowest free inode after inode 0, blank with the type, in memory and on disk; "no inodes" exactly when none is free; every other file as before; one log_write call makes the change |
| `FsOps.FileSystem.Describe` | fs.c:198-215 | An inode whose type, device numbers or link count were set is written back with its content untouched and every other file as before |
| `FsOps.FileSystem.Iput` | fs.c:317-336 | The last reference to an inode without links frees the inode and exactly its blocks, on disk too; otherwise nothing changes; the log_write calls go to the bitmap and the inode's block and make the change |
| `Writes.AppliedJoin` | log.c:201-230 | Calls of one function after those of another act as both in a row |
| `FsLog.FileLogNext` | fs.c:478-485 | A round of writei adds at most one block of data and four calls to what it has logged, the indirect block and the bitmap aside |
| `FileIo.SpliceTwice` | file.c:116-155 | Two writes one after the other are one write |
| `FileIo.WroteTrans` | file.c:116-155 | The same for the whole file system state |
| `FileIo.File.Write` | file.c:114-155 | A filewrite that returns n equals one n-byte write whatever the chunking, and every other file reads as before; on -1 a whole number of chunks is in the file; it fails exactly when writei would refuse the whole write; it runs out of blocks only when every block is in use; "short filewrite" is unreachable |
| `FileIo.File.WriteChunk` | file.c:125-150 | One transaction of filewrite: its log_write calls make the new disk of the old; they go to at most 14 data blocks, the indirect block, the inode's and the bitmap's, and are at most 59 |
| `FileIo.ChunkFits` | file.c:116-132 | With mkfs's log, operations that log as much as a chunk may cannot reach "too big a transaction" if and only if a single process runs them and the bitmap has at most twelve blocks |
| `FsCrash.SameHomeSound` | log.c:114-121 | Whether a disk holds a sound file system, every block owned once or free, no file with a hole and no free inode with content, does not depend on the log region |
| `FsCrash.CallHealthy` | fs.c:176-492 | A call that writes one inode back and leaves the others alone keeps the file system sound, and memory what a fresh mount of the disk shows |
| `FsCrash.LoggedReplay` | log.c:201-230 | The history of a call's log_write calls replays to the disk that the calls make, and keeps operations bracketed |
| `FsCrash.RestsLogged` | log.c:123-171 | A call inside an open operation leaves the disk sound at every moment when none is open |
| `FsCrash.Volume.Writei` | fs.c:461-492 | writei by any process in an open operation, whatever others are open: the history grows by its log_write calls, memory stays what the history makes of the disk, and the file system sound; the "out of blocks" panic leaves the history sound at every moment when no operation was open |
| `FsCrash.Volume.Itrunc` | fs.c:386-419 | The same for itrunc |
| `FsCrash.Volume.Ialloc` | fs.c:176-196 | The same for ialloc and its panic |
| `FsCrash.Volume.Iupdate` | fs.c:198-215 | The same for iupdate as create, link and unlink call it |
| `FsCrash.Volume.Iput` | fs.c:317-336 | The same for iput when it frees the inode |
| `FsCrash.Volume.End` | log.c:142-171 | When an operation ends, the disk of the history is sound, so it is when the last one does |
| `FsCrash.Volume.Reboot` | log.c:114-121 | After a crash the volume comes up on the recovered disk with the files of that moment, and every property continues to hold |
| `FsCrash.CrashLeavesSound` | log.c:114-230 | Crash safety of the file system: in every reachable state of the log whose history is that of calls on a volume, several operations open at once and crashes anywhere, recovery leaves a sound file system whose inodes and file contents are those of a moment when no operation was open, and on which the volume can come up again |
| `FileIo.File.Read` | file.c:94-112 | fileread gives the bytes at the offset, as many as asked for or up to the end of the file, and moves the offset past them; the failures with their exact condition |
| `Umalloc.OneWrap` | umalloc.c:24-44 | Exactly one link of the free list goes backwards, from the highest block to base |
| `Umalloc.ReachesAll` | umalloc.c:24-44 | The free list is circular: from any free block every other is reached |
| `Umalloc.Disjoint` | umalloc.c:24-90 | Free and live blocks are pairwise disjoint |
| `Umalloc.NoNeighbour` | umalloc.c:33-42 | A free block that does not touch its successor touches no free block |
| `Umalloc.FreeInSteps` | umalloc.c:33-43 | free's four cases come to linking the block in and then merging up and down |
| `Umalloc.FreeGood` | umalloc.c:24-44 | free keeps order, one wrap, no adjacent free blocks, every other live block and every unit |
| `Umalloc.Heap.FindGap` | umalloc.c:29-32 | free's search terminates and finds the block's place in address order |
| `Umalloc.Heap.Free` | umalloc.c:24-44 | The block is no longer live, every unit obtained from sbrk stays accounted for, no other live block is written to |
| `Umalloc.Heap.Morecore` | umalloc.c:46-61 | At least 4096 new units join the free list; when the size is not a positive int for sbrk |
| `Umalloc.Heap.MallocUnits` | umalloc.c:70-90 | The search terminates; a new live block disjoint from all others, from the free list alone if a free block is large enough, else with exactly one sbrk of at least 4096 units; 0 exactly when no free block fits and sbrk refuses |
| `Umalloc.Heap.Malloc` | umalloc.c:63-90 | The same for a request in bytes; the block holds the bytes asked for when the rounding does not wrap |
| `Umalloc.LargeEnough` | umalloc.c:69 | nunits covers the request if and only if nbytes <= 0xFFFFFFF8 |
| `Umalloc.WrapsToNothing` | umalloc.c:69 | A request of 0xFFFFFFFF bytes is rounded to one header |
| `SleepWakeup.StepInv` | proc.c:366-421 | Every step of acquire, release, sleep, wakeup and kill keeps the invariant, for any number of processes |
| `SleepWakeup.NoLostWakeup` | proc.c:366-421 | No lost wakeup: a process SLEEPING while the condition holds implies a waker that has yet to look at it, whether wakeup comes before or after release |
| `SleepWakeup.CountsAgree` | sleep1.p:96-133 | Productions equal consumptions plus value; the locks are mutually exclusive; a consumer never takes from 0 |
| `SleepWakeup.SomeoneCanGo` | sleep1.p:14-18 | No deadlock while a process sleeps although value > 0 |
| `SleepWakeup.WakeupComes` | proc.c:402-421 | From every reachable state such a sleeper can be woken by the wakers already on their way |
| `SleepChannels.StepInv` | proc.c:367-421 | For any shared data, any conditions on it and any number of channels: every step keeps that a process asleep on a channel whose condition holds is owed a look |
| `SleepChannels.NoLostWakeup` | proc.c:367-421 | So in every reachable state such a process has another that has yet to finish wakeup on its channel and has not come to it |
| `SleepChannels.WaitEnds` | proc.c:365-399 | A wait is over exactly when its condition holds, and the lock is held then; otherwise the process goes on to sleep |
| `SleepChannels.OthersMove` | proc.c:402-444 | Nobody moves another process but to wake it, and only from a sleep on the channel scanned for, or by kill |
| `SleepChannels.OneHolder` | spinlock.c:24-69 | Neither lock has two holders |
| `SleepChannels.WakeupComes` | proc.c:402-421 | And it can be woken by the wakeups already owed, without another change to the data |
| `ShellLex.Peek` | sh.c:311-321 | peek tells whether the next token starts with one of the given symbols |
| `ShellLex.GetToken` | sh.c:266-309 | gettoken returns the next token and leaves the rest; a word's ends are exactly where it is delimited, with nothing but white space before it |
| `ShellLex.LexExactly` | sh.c:266-309 | The tokens of a line are exactly those whose texts make it up in order, each as long as it can be, with nothing but white space between them |
| `ShellLex.LexRender` | sh.c:266-309 | Tokens written out with blanks and read again are the same tokens |
| `ShellGrammar.LineBack` | sh.c:345-360 | Parsing a printed line gives the tree back |
| `ShellGrammar.SimpleBack` | sh.c:375-448 | Parsing a printed command, with its redirections and parentheses, gives the tree back |
| `ShellGrammar.RoundTrip` | sh.c:328-343 | For every tree with at most MAXARGS-1 words per command, the canonical printed text lexes and parses back to the tree |
| `ShellGrammar.WordLimit` | sh.c:433-445 | A command of words parses back if and only if it has fewer than MAXARGS of them |
| `ShellSyntax.ItemsThen` | sh.c:375-448 | Words and redirections in any order, up to the end of a command: the command runs all the words, in order, under all the redirections, in order, each with its file and mode; a redirection without a file, a tenth word and a parenthesis are each their own panic |
| `ShellSyntax.LineMeant` | sh.c:345-414 | Every line of the language, whatever its parentheses, pipes, semicolons and ampersands, parses to its meaning |
| `ShellSyntax.LineSpelt` | sh.c:345-414 | Whatever the parser accepts is such a line, and the tree is its meaning |
| `ShellSyntax.CommandExactly` | sh.c:328-343 | So the parser accepts exactly the lines of the language and panics on all others |
| `ShellParse.ParseRedirs` | sh.c:375-398 | parseredirs agrees with the grammar, panics included, and terminates |
| `ShellParse.ParseExec` | sh.c:416-448 | parseexec agrees with the grammar, panics included, and terminates; what the grammar makes of its words and redirections is `ItemsThen` |
| `ShellParse.ParseBlock` | sh.c:400-414 | parseblock agrees with the grammar, panics included |
| `ShellParse.ParsePipe` | sh.c:362-373 | parsepipe agrees with the grammar |
| `ShellParse.ParseLine` | sh.c:345-360 | parseline agrees with the grammar |
| `ShellParse.NulTerminate` | sh.c:450-494 | nulterminate writes a NUL at the end of each word and file name and nowhere else |
| `ShellParse.TreeReads` | sh.c:450-494 | After that every word and file name, read as a C string, is its token |
| `ShellParse.EndsOutside` | sh.c:450-494 | No NUL lands inside a word |
| `ShellParse.ParseCmd` | sh.c:328-343 | parsecmd: the grammar's tree with its words as C strings in the buffer, or the grammar's panic with the buffer untouched |
| `ProcTable.ParentsLive` | proc.c:163-208 | Whenever ptable.lock is free no process in use has an UNUSED or ZOMBIE parent |
| `ProcTable.NoMissedExit` | proc.c:210-258 | Whenever ptable.lock is free no process asleep in wait has a ZOMBIE child |
| `ProcTable.ExitedOk` | proc.c:184-207 | exit keeps the table's invariant, children handed to init included |
| `ProcTable.Table.constructor` | proc.c:77-104 | After userinit the invariant holds |
| `ProcTable.Table.AllocProc` | proc.c:37-53 | The first unused slot, with a pid never used before; -1 exactly when there is none |
| `ProcTable.Table.ForkFails` | proc.c:141-146 | A fork that cannot copy the address space gives the slot back |
| `ProcTable.Table.ForkSetsParent` | proc.c:148 | The unlocked write of the parent keeps the invariant |
| `ProcTable.Table.ForkRuns` | proc.c:161-168 | The child becomes runnable and keeps its pid |
| `ProcTable.Table.Wakeup1` | proc.c:402-412 | Exactly the processes asleep on the channel become runnable |
| `ProcTable.Table.Wakeup` | proc.c:414-421 | The same under the lock, keeping the invariant |
| `ProcTable.Table.Yield` | proc.c:329-341 | The caller becomes runnable, nothing else changes and the invariant holds |
| `ProcTable.Table.Sleep` | proc.c:383-386 | Only the caller goes to sleep, on that channel |
| `ProcTable.Table.Kill` | proc.c:423-445 | The first process with the pid is marked and woken if asleep; failure only if nobody has it |
| `ProcTable.Table.Exit` | proc.c:170-208 | The caller is a zombie with a living parent that is awake; exactly its children become init's; exactly the processes asleep on the parent, and on init if one of the children is a zombie, are woken; init exiting panics |
| `ProcTable.Table.Wait` | proc.c:210-258 | wait reaps the first zombie child, whose pid was never reaped before; without one it fails exactly when the caller has no children or was killed, and otherwise sleeps |
| `VmSpec.NotShared` | vm.c:45-90 | No frame is mapped at two places, in one address space or two |
| `VmSpec.VisitsExactly` | vm.c:258-271 | Exactly which mapped pages deallocuvm's skip misses: those lower in their table than the start is in its own when no table was met before |
| `VmSpec.FromTableStart` | vm.c:258-271 | From 0, or any start of a table, it misses nothing |
| `VmSpec.LeapMisses` | vm.c:258-262 | From page 1 before an absent table it misses the first page of the next |
| `VmSpec.BuiltThenTorn` | vm.c:277-337 | Building an address space and freeing it restores exactly the earlier free-page set |
| `Vm.Machine.Kalloc` | kalloc.c:79-95 | kalloc takes the head of the free list, a frame nobody uses |
| `Vm.Machine.Kfree` | kalloc.c:59-77 | The panic exactly for a frame outside memory; otherwise the frame heads the free list |
| `Vm.Machine.WalkAlloc` | vm.c:42-65 | walkpgdir with alloc makes the missing table, from one frame, and changes no mapping; it fails exactly when a table is missing and no frame is free |
| `Vm.Machine.MapUserPage` | vm.c:67-90 | mappages of one page changes exactly that entry; "remap" only when it was mapped |
| `Vm.Machine.SetupKvm` | vm.c:127-144 | A new directory that maps each page of each of the kernel's ranges to its own frame with the range's permissions and maps nothing else, at the cost of one frame and one for each page table; everything else unchanged, no frame lost; "remap" if and only if two ranges overlap, unless frames run out before |
| `Vm.Machine.CopyUvm` | vm.c:307-337 | A successful copy maps the same pages with the same flags and contents onto frames not in use before, and the kernel as setupkvm does, at the cost of exactly one frame for the directory and one for each table and page; nothing else changes and no frame is lost; "page not present" only when a page is not mapped, "remap" only when kernel ranges overlap, failure only when frames run out |
| `Vm.Machine.DeallocUvm` | vm.c:245-273 | Exactly the pages the walk visits are unmapped and freed, once; kfree's panic is unreachable |
| `Vm.Machine.FreeVm` | vm.c:275-292 | Every frame of the address space is free again, none twice, and every other address space is unchanged; no kfree panics |
| `Vm.Machine.CopyThenFree` | vm.c:275-337 | copyuvm followed by freevm of the copy leaves exactly the frames free that were |
| `Links.NamedIsLinked` | sysfile.c:204-209 | An entry of a live directory names an inode with a link: "unlink: nlink < 1" is unreachable |
| `Links.EmptyHasOneLink` | sysfile.c:164-178 | An empty directory other than the root has exactly one link |
| `Links.AddNameInv` | sysfile.c:137-148 | One more name and one more link keep: link count equals entries naming the inode in live directories, names unique |
| `Links.AddDirInv` | sysfile.c:258-276 | So does a new directory, whose ".." counts for its parent |
| `Links.DropNameInv` | sysfile.c:215-226 | So does removing a file's name |
| `Links.DropDirInv` | sysfile.c:215-226 | So does removing an empty directory |
| `Links.DeadNameBreaks` | sysfile.c:114-281 | A new name for a file in a directory already unlinked leaves the file with one link too many |
| `Links.DeadDirBreaks` | sysfile.c:260-276 | A new directory in one already unlinked brings that one back to life, and the count of the inode its ".." names is too small |
| `Links.Tree.constructor` | mkfs.c:117-129 | The root directory alone satisfies the invariant |
| `Links.Tree.DirLookup` | fs.c:503-529 | Found exactly when a used entry has the name, and then the first that has it |
| `Links.Tree.DirLink` | fs.c:531-559 | Fails exactly when the name is taken; otherwise the first unused entry is filled |
| `Links.Tree.IsDirEmpty` | sysfile.c:164-178 | True exactly when only the dots are used |
| `Links.Tree.Link` | sysfile.c:114-162 | link succeeds exactly for a non-directory and a new name in a directory that exists, and then puts the name in the first unused entry and counts it; failure undoes the count; the counts are right afterwards if and only if it failed or the directory was not unlinked |
| `Links.Tree.Unlink` | sysfile.c:180-236 | unlink removes the name and one link, for a directory only when empty and with its parent's link; it fails exactly for a dot, a name that is not there and a directory that is not empty; in a directory already unlinked it fails; the panic is unreachable |
| `Links.Tree.Ialloc` | fs.c:175-196 | The first free inode, or none is free |
| `Links.Tree.Create` | sysfile.c:238-281 | create returns the inode of an existing name exactly when a file is asked for and the name is that of a file, and fails for any other name that is taken; otherwise it adds the name for the first free inode, with one link and, for a directory, its dots and a link for the parent; "no inodes" exactly when none is free; "create dots" and "create: dirlink" are unreachable; the counts are right afterwards if and only if nothing was created or the directory was not unlinked |
| `Links.Tree.Reclaim` | fs.c:316-336 | Freeing an inode without links keeps the invariant |
| `Links.CreateInDeadDir` | sysfile.c:180-281 | The run that breaks them: make a directory, remove it, create something in it |
| `Counters.Wraps` | pipe.c:84-115 | Counting modulo 2^32 gives the same ring positions and the same full and empty tests |
| `Pipe.PipeBuf.constructor` | pipe.c:32-35 | A new pipe is empty and open at both ends |
| `Pipe.PipeBuf.Close` | pipe.c:58-74 | Closing an end wakes the other side; freed exactly when both are closed |
| `Pipe.PipeBuf.Write` | pipe.c:76-97 | pipewrite appends its bytes in order up to its end or a sleep; exactly when each outcome occurs; readers sleep beside an empty open pipe only, afterwards, if and only if it did not give up with readers asleep |
| `Pipe.PipeBuf.ReadSome` | pipe.c:99-120 | Bytes read are the next ones written, as many as asked for or there; exactly when it reads, sleeps or gives up; nothing is returned only at the end of the stream |
| `Pipe.PipeBuf.KillWakes` | proc.c:435-440 | kill takes a process out of its sleep; the others sleep on, with reason |
| `Pipe.KilledSleeper` | pipe.c:104-108 | A reader killed in its sleep resumes, gives up and leaves the rest as it was |
| `Pipe.StrandedReader` | pipe.c:84-88 | A killed writer can leave a reader asleep beside a full pipe |
| `Console.Input.KillLine` | console.c:200-206 | Control-U erases exactly the unfinished line |
| `Console.Input.Type` | console.c:189-230 | No committed character ever changes; what each key does to the unfinished line; when a line is committed |
| `Console.Input.ReadLine` | console.c:232-268 | A read returns the next committed characters of one line; it ends exactly when these hold a newline, a control-D or as many as it wants, else a killed reader fails and any other sleeps; a zero-length read happens exactly for a control-D at the front, which it consumes |
| `Grep.Match` | grep.c:72-82 | match is true if and only if some suffix of the text, or the text itself after ^, begins with a word of the pattern's language |
| `Grep.MatchHere` | grep.c:84-96 | matchhere is true if and only if some prefix of the text is in the pattern's language |
| `Grep.MatchStar` | grep.c:98-106 | matchstar likewise for a starred character |
| `Grep.PlainBegins` | grep.c:84-96 | A pattern without operators matches exactly the texts that start with it |
| `Strtok.Tokeniser.Next` | xvsh.c:243-292 | strtok returns the next maximal delimiter-free run, NUL-terminated in place, and keeps the rest for later |
| `Strtok.RunsInside` | xvsh.c:243-292 | Each run is maximal and holds no delimiter |
| `Strtok.RunsCover` | xvsh.c:243-292 | Every character that is no delimiter lies in a run |
| `Strtok.RunsByBlanks` | xvsh.c:166-175 | There is at most one run more than blanks after the first character, so the token array is large enough |
| `Strtok.CountTokens` | xvsh.c:166-173 | num_tok is one more than those blanks |
| `Strtok.Tokenise` | xvsh.c:159-209 | On every non-empty line all tokens are stored in order with a closing NULL, never past the num_tok+1 slots, each a C string equal to its run |
| `Strtok.MarksMean` | xvsh.c:185-209 | bg, pip and red with their positions are those of the last token that starts with an ampersand, a bar or a greater-than sign |

## Left out

- Device drivers, boot code, traps, system-call arguments, exec and swtch: hardware or glue; a context switch is an atomic change of the running process, and memory is sequentially consistent below xchg.
- LogProtocol.StepInv: once a store has gone past lh.block or past the log region, what the kernel does next is not followed; the disk is judged as it is then. That the caller of log_write may hold further buffers, and that anyone may read, is modelled; that a commit holds one buffer itself between its reads and its write is not, so a reader that panics for want of it is a commit that does.
- FsCrash.CrashLeavesSound: calls of different operations come in any order, but one call at a time; that two calls on different inodes interleave block by block is not modelled.
- Inode caching and locking (iget, ilock, iput's reference counts): they keep one in-memory copy of an inode and serialise calls on it; the table of `FsOps` is that copy, and each of its methods is one call under the lock.
- Path names (skipelem, namex): they turn a string into the directory and the name that `Links` is given.
- File and pipe reference counts (filedup, fileclose): they decide when `Pipe.PipeBuf.Close` and `Links.Tree.Reclaim` are called, which here any caller may.
- Device inodes: readi and writei report that the device is to be asked.
- Links.Tree.Create: directories are sequences of entries; that entries are 16-byte records read and written with readi and writei, and that names are cut at DIRSIZ, is not modelled. nlink is unbounded, not a short.
- FileIo.File.Write: other processes writing to the same file between two chunks are not modelled.
- Umalloc.Heap.Malloc: the case where sbrk is asked for a size that is not positive as an int is a result of its own; what the heap looks like afterwards is not modelled.
- ProcTable.Table.AllocProc: process numbers do not wrap; the page, kernel stack and trap frame of a process are not modelled.
- ProcTable.Table.Kill: a slot left UNUSED with an old pid can be marked, as in the code; what the mark does to the slot's next user is not modelled.
- Allocation failures in vm.c: conservation of frames is stated for success only; setupkvm, allocuvm and copyuvm do not return every page when they fail. allocuvm, loaduvm and copyout are not modelled.
- Vm.Machine.MapRange: addresses are page numbers, so ranges that are not page-aligned are not modelled.
- Pipe.PipeBuf.Write: what a killed writer has put into the pipe stays there.
- SleepChannels.StepInv: a sleep whose lk is ptable.lock itself, as in wait, is that of `ProcTable`.
- grep's buffering loop, runcmd, the student shell's process_pipe, process_redirect and process_normal, printf, and the screen half of the console: input, output and process spawning only.
- ShellParse.ParseCmd: commands are values; that parseexec fills one exec node in place while redirections already point to it appears as `AddWord`. Failing malloc is not modelled.
- spinlock.c's interrupt nesting (pushcli, popcli): a lock is held or free.

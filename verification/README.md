# Verification of four operating-systems projects

A Dafny model of the code in this repository, with proofs of what it promises. Each C
program that works by updating state is modelled twice: as step functions on values, about
which the theorems are proved, and as a class or method with the program's own arrays and
loops, proved to compute those functions. What each step answers and changes is stated a third
time, without the step functions, in single amounts, flags, positions and names (`RsmMeaning`,
`MfsPaths`, `TusMeaning`, `WordMeaning`). `dafny verify dfyconfig.toml` checks everything.

## The four systems

**Resource manager** (`Project3/rsm.c`; `Vectors`, `Reduction`, `RsmState`, `RsmInvariant`,
`RsmFuture`, `RsmMeaning`, `RsmExample`, `RsmSession`, `ResourceManager`). Processes claim, request and release
resources; a banker's test guards grants when avoidance is on, and a graph reduction finds
deadlocks when it is off. Each call is one atomic step because the code holds one mutex
throughout. The theory rests on stuck sets: sets of processes each of which wants more than
is left outside the set. Safety is the absence of stuck sets, and both reductions compute
the largest one. The main results hold for any number of processes and resource types:
every reachable avoidance state is safe and conserves resources, no wake-up is lost, one
wake-up pass is enough, avoidance is free of deadlock, detection is exact and decides the
future, and a complete session of one process leaves no trace. `Manager` keeps its arrays
as 32-bit ints, so that every store is also a proof that nothing overflows.

**File system** (`Project4/mfs.c`, `Project4/make_mfs.c`; `Bits`, `MfsDisk`, `MfsOps`,
`MfsInvariant`, `MfsAppend`, `MfsFiles`, `MfsRuns`, `MfsPaths`, `MfsSpace`, `FileSystem`). A disk of 16384-byte
blocks with two bitmaps, an inode table, a flat root directory and one index block per
file. The invariant `Consistent` says which bits are set (exactly those of blocks and
inodes in use), that no block has two owners, and that each file's blocks are all there.
From formatting on, the disk refines a map from names to byte strings: reads return exact
slices, writes append exactly what there is room for, unlink undoes create, and free blocks
and files together account for the whole data region.

**Thread library** (`Project2/tus.c`; `RingQueue`, `TusState`, `TusTable`, `TusInvariant`,
`TusFairness`, `TusLifecycle`, `TusMeaning`, `ThreadLibrary`). Cooperative threads over saved contexts. A
context is `Fresh` or `InYield`; `setcontext` is the dispatch of one. The invariant makes
the recovery branches unreachable; under FCFS the wait of a ready thread is bounded by its
place in the queue; a yield returns the tid it switched to; a join waits for one thread.

**Word finder** (`Project1/findlwp.c`, `Project1/findlwt.c`; `TextLines`, `WordRecords`,
`RecordOrder`, `WordGroups`, `WordScan`, `WordMeaning`, `WordStream`, `WordExample`, `WordFinder`). Children print one
record per word into pipes; the parent reassembles the records from whatever chunks arrive
in whatever interleaving, sorts and groups them. findlwt does the same in one address
space and is the reference.

`CommonTypes` and `Counting` are shared helpers.

## Assumptions

- A call is made under one apid by one process, and an apid that is waiting, or whose
  semaphore has been posted but not yet taken, makes no call (`Blocked`). The semaphore of
  a process is a count of tokens.
- `Project3/README.txt` line 85 describes a barrier semaphore that delays requests until all
  processes have registered or claimed. The code has none, and neither has the model.
- Reading and writing a block of the disk succeeds. Paths are never "/." or "/..", which
  the kernel resolves itself. The mounted disk was made by `make_mfs`.
- `rand()` is a parameter `pick`; what `write`, `select` and `read` bring in Project 1 are
  parameters too (`results`, `schedule`, `chunks`). Memory allocation succeeds.
- One `char` is one byte. Lines of a file can be counted by an int (`CountableLines`).
- `qsort` is any sort: only its contract is used, and `SortedIsUnique` shows that the choice
  cannot be seen.

## What does not hold

findlwp does not always agree with findlwt. Its tokenizer (`Project1/findlwp.c:163`) splits
on space, tab, carriage return and newline; its parser splits on everything `isspace`
accepts, which includes vertical tab and form feed. A word with one of these is lost or read
as another occurrence. `WordStream.ProgramsAgreeIff` states the exact condition and
`WordExample.FormFeedDivides` gives an input file on which the two reports differ.

## Model

| member | source | states |
|---|---|---|
| Reduction.SafeIffNothingStuck | Project3/rsm.c:148-201 | A safe order exists iff no nonempty set of processes is stuck (each wants more than is left outside the set), iff the largest stuck set is empty. |
| Reduction.ResidueIsLargestStuck | Project3/rsm.c:605-629 | Stuck sets have a largest one, and it contains all others. |
| Reduction.StuckSurvivesFinish | Project3/rsm.c:176-190 | Finishing whichever eligible process comes first loses no member of any stuck set, so the greedy scan never misses an order. |
| Reduction.ReductionEndsAtResidue | Project3/rsm.c:605-629 | Whatever order a reduction took, what it leaves when nobody can finish is exactly the largest stuck set. |
| Reduction.BuildOrder | Project3/rsm.c:167-192 | With no stuck set a safe order of any remainder is built greedily. |
| Reduction.StuckTransfer | Project3/rsm.c:176-190 | A set stays stuck when no demand of its members falls by more than what is left for them does. |
| Reduction.RunnerMayBeGranted | Project3/rsm.c:503-512 | A process whose whole demand fits the pool can safely be granted any part of it. |
| Reduction.SafeHasRunner | Project3/rsm.c:167-192 | A safe system with processes left has one whose demand fits the pool. |
| Reduction.ReducedAfterFinish | Project3/rsm.c:184-190 | Letting one eligible process finish keeps the loop invariant of both reductions and shrinks the unfinished set. |
| Reduction.ReducedAtEnd | Project3/rsm.c:192-200 | When a scan finds nobody, the unfinished set is the largest stuck set. |
| RsmState.RunConcat | Project3/rsm.c:341-570 | A run of calls can be cut anywhere. |
| RsmInvariant.InitHasInv | Project3/rsm.c:248-316 | The initial state satisfies the invariant in either mode. |
| RsmInvariant.StartKeepsInv | Project3/rsm.c:341-367 | Registering keeps the invariant: a newcomer holds and needs nothing. |
| RsmInvariant.ClaimKeepsSound | Project3/rsm.c:409-449 | A claim within the existing amounts keeps the state safe: the claimer holds nothing, so it can go last. |
| RsmInvariant.ClaimKeepsQuiet | Project3/rsm.c:409-449 | Nor does a claim make any waiter grantable, though it does not run the wake-up loop. |
| RsmInvariant.ClaimKeepsInv | Project3/rsm.c:409-449 | So a claim, accepted or refused, keeps the whole invariant. |
| RsmInvariant.GrantKeepsSound | Project3/rsm.c:504-512 | Granting what the banker's test allows keeps conservation, bounds and safety. |
| RsmInvariant.RequestKeepsInv | Project3/rsm.c:451-532 | A request, whether refused, granted at once or left waiting, keeps the whole invariant. |
| RsmInvariant.GiveBackKeepsSound | Project3/rsm.c:557-563 | A release keeps the state safe: need rises by exactly what the pool gains. |
| RsmInvariant.RetireKeepsSound | Project3/rsm.c:384-397 | Ending keeps the state safe and conserved. |
| RsmInvariant.ResumeKeepsInv | Project3/rsm.c:521-531 | Returning from the semaphore wait keeps the invariant. |
| RsmInvariant.RefusedStaysRefused | Project3/rsm.c:211-244 | A waiter refused now is still refused after anyone else has been granted something. |
| RsmInvariant.WakeFromSettles | Project3/rsm.c:211-244 | One pass over the waiters leaves no waiter whose request is both available and safe. |
| RsmInvariant.OnePassIsEnough | Project3/rsm.c:207-245 | A second pass of the wake-up loop never grants anything. |
| RsmInvariant.QuietNeedsNoWake | Project3/rsm.c:203-246 | With nobody grantable the wake-up loop changes nothing, so grants, claims and starts need not run it. |
| RsmInvariant.StepKeepsInv | Project3/rsm.c:341-570 | Every call, with any arguments, in either mode, keeps: available plus the column sum of allocation equals existing; inactive processes hold nothing; under avoidance allocation plus need equals max_demand and the state is safe; no lost wake-up. |
| RsmInvariant.ReachableHasInv | Project3/rsm.c:248-570 | So every reachable state satisfies all of it. |
| RsmFuture.RunnerIsAwake | Project3/rsm.c:203-246 | Under avoidance a process whose need fits the pool is never asleep: no wake-up is lost. |
| RsmFuture.AskAllIsGranted | Project3/rsm.c:503-515 | Such a process is granted all it still needs at once. |
| RsmFuture.FinishOne | Project3/rsm.c:369-532 | It can therefore obtain its whole claim and end, by a legal run of calls that leaves the others' claims alone. |
| RsmFuture.FinishAll | Project3/rsm.c:341-570 | From any invariant state a legal run lets every active process obtain its full claim and end. |
| RsmFuture.AvoidanceIsDeadlockFree | Project3/rsm.c:203-532 | Deadlock freedom: in every reachable avoidance state with active processes one is not waiting, and some run lets all obtain their claims and end. |
| RsmFuture.BlockedIffStuck | Project3/rsm.c:584-629 | A set is stuck for detection iff each member waits for more than exists outside the set. |
| RsmFuture.DeadlockedIsLargestBlockedSet | Project3/rsm.c:584-636 | What detection counts is the largest set of mutually blocked resource holders. |
| RsmFuture.AvoidanceLeavesNothingToDetect | Project3/rsm.c:572-640 | In every state satisfying the invariant under avoidance, detection finds nobody. |
| RsmFuture.StepKeepsGrip | Project3/rsm.c:341-570 | No call loosens the grip of a deadlocked set on itself and on those it dooms. |
| RsmFuture.DeadlockIsForever | Project3/rsm.c:203-246 | A process counted as deadlocked is never granted anything and stays counted, in every continuation. |
| RsmFuture.NothingDeadlockedNobodyDoomed | Project3/rsm.c:588-603 | Detection looks only at resource holders, yet returns 0 exactly when nobody at all is doomed. |
| RsmFuture.EndAllButDoomed | Project3/rsm.c:341-570 | Without avoidance, some continuation ends every process but the doomed ones. |
| RsmFuture.DetectionDecidesTheFuture | Project3/rsm.c:572-640 | Without avoidance, detection returns 0 iff some continuation ends every process; the doomed are exactly those no continuation ends. |
| RsmMeaning.InitMeans | Project3/rsm.c:248-316 | A new manager is in the mode asked for, has everything in the pool, empty tables and nobody registered. |
| RsmMeaning.StartMeans | Project3/rsm.c:341-367 | Registering fails iff the apid is out of range or in use; otherwise it changes two flags and nothing else. |
| RsmMeaning.ClaimMeans | Project3/rsm.c:409-449 | A claim is refused iff an amount is negative, the caller is not registered or, under avoidance, has claimed or requested before or claims more than exists; an accepted one is recorded as maximum and as need, and without avoidance ignored. |
| RsmMeaning.CanHaveIff | Project3/rsm.c:148-201 | The grant test, told in amounts: all of r is available and, under avoidance, with r moved to the caller the active processes can finish one after the other. |
| RsmMeaning.RequestMeans | Project3/rsm.c:451-532 | A request is refused, with no change, iff an amount is negative, above what exists or above the remaining claim, or the caller is not active or has no claim; otherwise it is granted iff available and safe, and then exactly r moves from the pool to the caller; otherwise the caller waits for exactly r. |
| RsmMeaning.ResumeMeans | Project3/rsm.c:521-531 | The end of the wait takes one token and changes nothing else. |
| RsmMeaning.WakeIsAPass | Project3/rsm.c:203-246 | The wake-up loop gives each waiter one turn in the order of apids: it gets exactly what it waits for and one token if it can have it then, and nothing happens otherwise. |
| RsmMeaning.PassServes | Project3/rsm.c:203-246 | Over such a pass each process is as before or has got exactly its request; the pool has lost what those got; nobody is left waiting for what he can have. |
| RsmMeaning.ReleaseMeans | Project3/rsm.c:534-570 | A release is refused, with no change, iff an amount is negative or more than the caller holds, or the caller is not active; otherwise r is given back and the waiters have one turn each. |
| RsmMeaning.ReleaseLeaves | Project3/rsm.c:534-570 | After a release the caller holds exactly r less and, under avoidance, may ask for it again; the pool has r more, less what woken waiters got; every other process is as before or got exactly its request; no grantable waiter is left. |
| RsmMeaning.EndMeans | Project3/rsm.c:369-407 | Ending fails iff the caller is not active; otherwise all it held is back in the pool, its rows and flags are cleared, and the waiters have one turn each. |
| RsmExample.CrossedRequestsRun | Project3/rsm.c:451-532 | Without avoidance two processes, each taking one resource and then asking for the other, reach a state in which both wait. |
| RsmExample.DeadlockHappens | Project3/rsm.c:572-640 | That reachable state is a deadlock of both processes, so the theorems about deadlock are not empty. |
| RsmSession.SoloIsQuiet | Project3/rsm.c:369-407 | One process using the resources of a quiet state wakes nobody by giving them back. |
| RsmSession.SessionLeavesNoTrace | Project3/rsm.c:341-570 | A process that starts, makes any calls of its own and ends, uninterrupted, leaves every cell of the state as it found it. |
| ResourceManager.RsmInit | Project3/rsm.c:248-316 | Refused exactly for counts, amounts or mode out of range or when the shared segment exists already; otherwise the manager starts in the initial state. |
| ResourceManager.Manager.IsSafe | Project3/rsm.c:148-201 | Returns true iff the request fits the pool and some safe order exists with it granted. |
| ResourceManager.Manager.SafetyPass | Project3/rsm.c:169-191 | One scan keeps the reduction invariant and reports whether it finished anybody; it reports nobody only when nobody is eligible. |
| ResourceManager.Manager.TrySatisfyWaiting | Project3/rsm.c:203-246 | Brings the arrays to the state of one complete pass, and makes at most two passes. |
| ResourceManager.Manager.SatisfyPass | Project3/rsm.c:211-244 | One scan leaves no grantable waiter, and makes no progress if there was none. |
| ResourceManager.Manager.NeedFits | Project3/rsm.c:176-182 | Whether a need fits work, with every value it computes on the way held in an int. |
| ResourceManager.Manager.TryGrant | Project3/rsm.c:212-243 | Grants a waiter iff its request is available and, under avoidance, safe, and makes no other waiter grantable. |
| ResourceManager.Manager.ProcessStarted | Project3/rsm.c:341-367 | New state and return value of registering; invariant kept. |
| ResourceManager.Manager.ProcessEnded | Project3/rsm.c:369-407 | New state and return value of ending, wake-ups included; invariant kept. |
| ResourceManager.Manager.MakeClaim | Project3/rsm.c:409-449 | New state and return value of a claim; invariant kept. |
| ResourceManager.Manager.MayAsk | Project3/rsm.c:456-484 | The argument checks of a request accept exactly amounts within existing and, under avoidance, within the remaining claim. |
| ResourceManager.Manager.MakeRequest | Project3/rsm.c:451-519 | New state of a request and whether it fails, is granted or blocks; invariant kept. |
| ResourceManager.Manager.MakeRelease | Project3/rsm.c:534-570 | New state and return value of a release, wake-ups included; invariant kept. |
| ResourceManager.Manager.TakeToken | Project3/rsm.c:521-531 | The end of the wait on the caller's semaphore. |
| ResourceManager.Manager.Detection | Project3/rsm.c:572-640 | Returns the size of the largest set of mutually blocked resource holders. |
| ResourceManager.CountUnfinished | Project3/rsm.c:631-636 | Counts exactly the processes left unfinished. |
| ResourceManager.WithinBounds | Project3/rsm.c:108-123 | Accepts exactly the vectors without negative amounts. |
| ResourceManager.PretendIsBounded | Project3/rsm.c:156-192 | In the safety test every value work can take lies between 0 and existing. |
| ResourceManager.PendingIsBounded | Project3/rsm.c:584-629 | Likewise in detection. |
| Bits.SetThenGet | Project4/mfs.c:40-52 | Setting a bit gives it its value and leaves all other bits alone. |
| Bits.BitmapIsItsBits | Project4/mfs.c:40-52 | Bitmaps with the same bits are the same bytes. |
| MfsDisk.PutInode | Project4/mfs.c:92-108 | Writing an inode changes that inode alone and no block outside the inode table. |
| MfsDisk.FileFrame | Project4/mfs.c:465-494 | A file's content depends only on its own blocks. |
| MfsOps.FindEntry | Project4/mfs.c:129-141 | First used entry with that name; none before it matches. |
| MfsOps.FirstClear | Project4/mfs.c:152-161 | First clear bit of a range; all before it are set. |
| MfsOps.PathNameMeans | Project4/mfs.c:54-63 | The name is found, at any length, in exactly the paths that are a slash and a name without slashes. |
| MfsInvariant.OneSlotChanged | Project4/mfs.c:110-118 | If one directory slot changes, the others keep their blocks, and the bitmaps follow, the disk stays consistent. |
| MfsInvariant.FormatConsistent | Project4/make_mfs.c:84-153 | Formatting establishes the ownership invariant, with no files, whatever was on the disk. |
| MfsInvariant.AddFileConsistent | Project4/mfs.c:324-346 | Creating in a free slot with a free inode keeps the disk consistent and all other files as they were. |
| MfsInvariant.RemoveFileConsistent | Project4/mfs.c:386-417 | Unlinking frees exactly the blocks and inode of that file and keeps the disk consistent. |
| MfsInvariant.FreeIsUnowned | Project4/mfs.c:189-201 | A block with a clear bit belongs to no file. |
| MfsInvariant.GiveIndexConsistent | Project4/mfs.c:537-549 | A new index block keeps the disk consistent and gives the file that block alone. |
| MfsAppend.FillTailAppends | Project4/mfs.c:586-600 | Writing into the tail block appends exactly the chunk and keeps everything else. |
| MfsAppend.GrowAppends | Project4/mfs.c:574-605 | Adding a block appends exactly the chunk, enters the block in the index and keeps everything else. |
| MfsAppend.IndexHasRoom | Project4/mfs.c:567-571 | On a formatted disk a file never fills its index block, so EFBIG is unreachable. |
| MfsAppend.AppendStepAppends | Project4/mfs.c:556-608 | Each turn of the write loop appends what it took, or stops with ENOSPC and changes nothing. |
| MfsAppend.AppendExtends | Project4/mfs.c:556-619 | The whole loop appends exactly the bytes it says it wrote and touches no other file. |
| MfsAppend.AppendIsExact | Project4/mfs.c:556-619 | It writes exactly as much as fits the tail block and the free blocks. |
| MfsFiles.FullIff | Project4/mfs.c:314-322 | All directory slots are used iff there are 254 files. |
| MfsFiles.InodesNeverRunOut | Project4/mfs.c:144-164 | On a consistent disk allocate_inode never fails: a free inode exists whenever create looks for one. |
| MfsFiles.CreateMeans | Project4/mfs.c:288-347 | Create succeeds iff the name is legal, new, and fewer than 254 files exist; it then adds an empty file; ENOSPC iff all slots are used; errors change nothing. |
| MfsFiles.CreateErrors | Project4/mfs.c:300-308 | EEXIST iff the file exists; ENAMETOOLONG iff the name is too long; EINVAL iff there is no name. |
| MfsFiles.UnlinkMeans | Project4/mfs.c:363-418 | Unlink succeeds iff the file exists and removes it and nothing else; its errors change nothing. |
| MfsRuns.WriteSlotMeans | Project4/mfs.c:536-624 | A write to a file appends exactly what there is room for; with f free blocks that is the tail room plus 16384 times f, or f - 1 if an index block is needed. |
| MfsRuns.WriteFindsSlot | Project4/mfs.c:516-534 | EINVAL without a name, ENOENT without a file, EOPNOTSUPP unless the offset is the size. |
| MfsRuns.WriteMeans | Project4/mfs.c:499-625 | A write at the end returns n = min(size, room), appends buf[..n] and changes no other file; ENOSPC iff n is 0. |
| MfsRuns.OneOpRefines | Project4/mfs.c:288-625 | Each operation has on the map of files exactly the effect its answer announces. |
| MfsRuns.DiskRefinesMap | Project4/mfs.c:288-625 | After formatting and any run, the disk holds exactly the files a caller who sees only the answers believes in. |
| MfsRuns.OwnershipAfterAnyRun | Project4/mfs.c:181-217 | After any run a data-region bit is set iff some file owns the block, and then exactly one file, exactly once, as index block or as one index entry. |
| MfsPaths.FormatMeans | Project4/make_mfs.c:84-153 | Formatting sets the first six block bits and the first inode bit and no other, writes the superblock, the root inode and the two dot entries, and leaves the data region as it was. |
| MfsPaths.CreateByName | Project4/mfs.c:288-347 | Creating "/name" answers EINVAL for no name, then ENAMETOOLONG above 31 characters, then EEXIST, then ENOSPC at 254 files, and otherwise adds an empty file of that very name. |
| MfsPaths.UnlinkByName | Project4/mfs.c:363-418 | Unlinking "/name" removes that file and no other, or answers ENOENT, or EINVAL for no name. |
| MfsPaths.WriteByName | Project4/mfs.c:499-625 | A write to "/name": no bytes are written as asked, a missing file is ENOENT, any offset but the end EOPNOTSUPP; otherwise it appends as much as there is room for to that file. |
| MfsPaths.NoNameNoFile | Project4/mfs.c:54-63 | Any other path is EINVAL and changes nothing, though a write of no bytes succeeds even there. |
| MfsPaths.RoomInNumbers | Project4/mfs.c:536-624 | The room of a file: what its last block still holds and 16384 bytes for every free block, one block less if it has yet to get its index block. |
| MfsSpace.SpaceIsAccounted | Project4/mfs.c:181-217 | On a consistent disk the free blocks and the blocks of all files together are the data region. |
| MfsSpace.SpaceAfterAnyRun | Project4/mfs.c:288-625 | So after formatting and any run no block is lost. |
| MfsSpace.FileSpace | Project4/mfs.c:536-608 | A file takes an index block and a block for every 16384 bytes begun; an empty one takes at most its index block. |
| MfsSpace.RoomIsWhatTheFilesLeave | Project4/mfs.c:536-624 | How much a write can still append is a function of the file and of the blocks that all files leave free. |
| MfsRuns.BitmapsFollowFiles | Project4/mfs.c:144-217 | Disks with the same other files and an empty slot have the same bitmaps, byte for byte. |
| MfsRuns.WritesStayInSlot | Project4/mfs.c:499-625 | Any sequence of writes to one file, failed ones included, keeps the others and the directory as they were. |
| MfsRuns.UnlinkRestoresBitmaps | Project4/mfs.c:363-418 | Create, any writes, unlink restores both bitmaps bit for bit and the map of files. |
| FileSystem.FormatDisk | Project4/make_mfs.c:59-157 | Refuses disks of the wrong size untouched; otherwise lays out six blocks and leaves a consistent disk without files. |
| FileSystem.Mfs.AllocateInode | Project4/mfs.c:144-164 | Takes the first free inode and marks it, or changes nothing. |
| FileSystem.Mfs.FreeInodeNo | Project4/mfs.c:166-179 | Clears exactly that bit; refuses the root inode and numbers out of range. |
| FileSystem.Mfs.AllocateBlock | Project4/mfs.c:181-201 | Takes the first free block and marks it, or changes nothing. |
| FileSystem.Mfs.FreeBlockNo | Project4/mfs.c:203-217 | Clears exactly that bit; refuses numbers outside the data region. |
| FileSystem.Mfs.ReadInode | Project4/mfs.c:65-90 | Returns the numbered inode, or ENOENT. |
| FileSystem.Mfs.WriteInode | Project4/mfs.c:92-108 | Replaces exactly that inode, or refuses. |
| FileSystem.Mfs.FindDirEntry | Project4/mfs.c:120-142 | Index of the entry with that name, or none. |
| FileSystem.Mfs.Create | Project4/mfs.c:288-347 | The block-by-block program does what Create says and keeps the disk consistent. |
| FileSystem.Mfs.Unlink | Project4/mfs.c:363-418 | Likewise for Unlink. |
| FileSystem.Mfs.FreeFile | Project4/mfs.c:389-402 | Frees the data blocks in order and then the index block. |
| FileSystem.Mfs.Read | Project4/mfs.c:420-497 | Returns content[offset..min(offset + size, length)] of the file, nothing past the end, EINVAL or ENOENT without a file. |
| FileSystem.Mfs.ReadBlocks | Project4/mfs.c:469-496 | The read loop returns exactly that slice over any number of block crossings; the hole branch is never reached. |
| FileSystem.Mfs.Write | Project4/mfs.c:499-625 | The program with its local copies of index block and inode does what Write says and keeps the disk consistent. |
| FileSystem.TotalTurn | Project4/mfs.c:556-608 | One turn of the loop on the local copies is one turn of the append on the disk they will be committed to. |
| RingQueue.Queue.Push | Project2/tus.c:46-55 | Appends to the queue unless 64 are queued. |
| RingQueue.Queue.Pop | Project2/tus.c:57-68 | Takes the head, or reports an empty queue. |
| RingQueue.Queue.PushFront | Project2/tus.c:70-79 | Puts in front unless 64 are queued. |
| RingQueue.Queue.Remove | Project2/tus.c:81-101 | Removes the first occurrence, keeps the order of the rest, and says whether there was one. |
| RingQueue.Queue.Take | Project2/tus.c:185-203 | Removes the chosen place and keeps the order of the rest. |
| TusState.LeastFree | Project2/tus.c:153-160 | The smallest tid in 1..64 no thread has, or none. |
| TusInvariant.InitIsGood | Project2/tus.c:215-259 | Initialisation establishes the scheduler invariant. |
| TusInvariant.QueueHasRoom | Project2/tus.c:390-395 | The running thread is not queued, so there is always room to queue it: the queue-full branches are unreachable. |
| TusInvariant.TidIsLeft | Project2/tus.c:271-283 | With fewer than 64 threads a tid is left. |
| TusInvariant.CreateKeepsGood | Project2/tus.c:261-327 | Create fails iff 64 threads exist, and keeps the invariant. |
| TusInvariant.YieldKeepsGood | Project2/tus.c:329-419 | Yield, to anyone or to a tid, keeps the invariant, failed yields included. |
| TusInvariant.ExitKeepsGood | Project2/tus.c:421-453 | Exit with somebody queued keeps the invariant. |
| TusInvariant.CancelKeepsGood | Project2/tus.c:487-508 | Cancel keeps the invariant. |
| TusInvariant.JoinKeepsGood | Project2/tus.c:455-485 | Each turn of join keeps the invariant. |
| TusInvariant.DoKeepsGood | Project2/tus.c:261-508 | Every call keeps: the queue holds exactly the ready tids, each once; exactly the current thread runs; tids are distinct in 1..64; every ready context starts fresh with flag 0 or resumes in yield with flag 1. The process ends only when the last thread that could run exits. |
| TusMeaning.InitMeans | Project2/tus.c:215-259 | After initialisation there is one thread, tid 1, running, with nobody queued, under the algorithm asked for. |
| TusMeaning.CreateMeans | Project2/tus.c:261-327 | With fewer than 64 threads create puts a fresh one with the smallest free tid into the table and at the end of the queue and returns the tid; with 64 it returns -1 and changes nothing. |
| TusMeaning.YieldToAnyMeans | Project2/tus.c:355-416 | Yielding to any queues the caller, takes the head under FCFS or the place rand() says, and that thread runs; the order of the rest and all other threads stay. |
| TusMeaning.YieldStays | Project2/tus.c:370-400 | A yield to the caller itself returns its tid, one to an unknown, ended or negative tid returns -1; the queue and the other threads stay. |
| TusMeaning.YieldSwitches | Project2/tus.c:378-416 | A yield to a ready thread runs it, takes it out of its place in the queue and puts the caller at the end, asleep. |
| TusMeaning.ExitMeans | Project2/tus.c:421-453 | An exit leaves the caller ended and unqueued; the next thread was queued, is the head under FCFS, and now runs; the rest of the queue keeps its order and all other threads are as before. |
| TusMeaning.JoinAfterExit | Project2/tus.c:421-485 | After an exit the first join of that tid, however much later and by whichever thread, returns the tid. |
| TusMeaning.JoinMeans | Project2/tus.c:455-485 | A turn of join is an error for the caller or an unknown tid, returns the tid of an ended thread and removes that thread alone, and is otherwise a yield to any. |
| TusMeaning.CancelMeans | Project2/tus.c:487-508 | Cancel ends any other thread that has not ended, takes it out of the queue and returns 0; otherwise it returns -1 and changes nothing. |
| TusMeaning.DecisionMeans | Project2/tus.c:176-207 | The scheduling decisions that fairness counts are the exits and the switches that name no thread. |
| TusFairness.EveryRunIsGood | Project2/tus.c:215-508 | So it holds after any run from initialisation. |
| TusFairness.CallAdvances | Project2/tus.c:176-207 | Under FCFS no call moves a waiting thread back, and each scheduling decision moves it one place forward or dispatches it. |
| TusFairness.FcfsBoundsTheWait | Project2/tus.c:329-453 | Under FCFS a thread at position p, if not cancelled, is dispatched within p + 1 scheduling decisions, over any run. |
| TusFairness.YieldPutsToSleep | Project2/tus.c:343-416 | A yield that switches leaves the caller asleep in it, with the tid it switched to as pending result. |
| TusFairness.YieldReturnsWhoRan | Project2/tus.c:347-352 | However long it sleeps, a thread's yield returns the tid it switched to, and its flag is 0 again. |
| TusLifecycle.OthersAreUntouched | Project2/tus.c:261-508 | A call changes no thread but the caller, the one it names and the one that runs next. |
| TusLifecycle.EndedUntilJoined | Project2/tus.c:421-485 | An ended thread is never queued and never runs again, over any run; only joining it removes it. |
| TusLifecycle.JoinReapsTheEnded | Project2/tus.c:463-485 | A turn of join returns the tid iff that thread has ended, and then frees its slot; ERROR iff it is the caller or unknown. |
| TusLifecycle.CallWhileJoining | Project2/tus.c:473-481 | While one thread joins another and nobody else does, no call ends the process, the joiner or the joined tid. |
| TusLifecycle.JoinWaitsForOneThread | Project2/tus.c:473-484 | Over any run of the whole loop of join the joined tid stays with its thread, every turn before that thread has ended switches away, and the first turn that finds it ended returns it. |
| TusLifecycle.JoinReturnsUnderFcfs | Project2/tus.c:473-484 | Under FCFS a joiner with p threads before it runs within p + 1 scheduling decisions once its target has ended, and that turn returns the tid. |
| TusLifecycle.JoinedTidComesBack | Project2/tus.c:153-160 | After a join creating cannot fail, and gives a free tid no larger than the joined one. |
| TusLifecycle.RandomCanPickAnyone | Project2/tus.c:185-203 | Under random scheduling every waiting thread can be the one picked. |
| TusTable.TableSet | Project2/tus.c:318-318 | Filling a slot adds or replaces that thread in the table read as a map. |
| TusTable.TableClear | Project2/tus.c:162-174 | Clearing a slot removes exactly that thread. |
| ThreadLibrary.Scheduler.FindSlotByTid | Project2/tus.c:108-115 | The slot of the thread with that tid, or none. |
| ThreadLibrary.Scheduler.FindFreeSlot | Project2/tus.c:128-135 | An empty slot, none iff 64 threads exist. |
| ThreadLibrary.Scheduler.CountExisting | Project2/tus.c:141-151 | The number of threads. |
| ThreadLibrary.Scheduler.AllocateTid | Project2/tus.c:153-160 | The smallest free tid. |
| ThreadLibrary.Scheduler.PickNext | Project2/tus.c:176-207 | The head under FCFS, the place chosen by rand() otherwise; the rest keep their order. |
| ThreadLibrary.Scheduler.TusInit | Project2/tus.c:215-259 | Fails iff already initialised or the algorithm is unknown; otherwise the initial state. |
| ThreadLibrary.Scheduler.CreateThread | Project2/tus.c:261-327 | Table and queue after create are those of Create; slot, tid and queue-full failures cannot happen past the count check. |
| ThreadLibrary.Scheduler.TusYield | Project2/tus.c:329-419 | Table, queue and current thread after yield are those of Yield; its recovery branches cannot be reached. |
| ThreadLibrary.Scheduler.TusExit | Project2/tus.c:421-453 | Likewise for exit. |
| ThreadLibrary.Scheduler.TusJoinTurn | Project2/tus.c:455-485 | Likewise for one turn of join. |
| ThreadLibrary.Scheduler.TusCancel | Project2/tus.c:487-508 | Likewise for cancel. |
| TextLines.LinesOfPieces | Project1/findlwp.c:325-344 | Lines can be found piece by piece, carrying the unfinished line over. |
| TextLines.ChunkingIsInvisible | Project1/findlwp.c:264-346 | However a stream is cut into chunks, the lines are those of the whole stream. |
| WordRecords.StrToLReads | Project1/findlwp.c:112-123 | A printed int is read back by strtol, up to its last digit. |
| WordRecords.DigitsAreTheNumber | Project1/findlwp.c:374-376 | Any digits without a leading zero are how their number is printed. |
| WordRecords.NoLeadingZero | Project1/findlwp.c:374-376 | Every number prints without a leading zero. |
| WordRecords.StrToLMeans | Project1/findlwp.c:112-123 | Of any text strtol skips blanks, takes a sign and a whole run of digits, fails without a digit, and holds the value within a long. |
| WordRecords.ParseInvertsPrint | Project1/findlwp.c:92-133 | A record is parsed back to its occurrence iff its word is nonempty and free of isspace characters and NULs. |
| WordRecords.ParsedIsPlain | Project1/findlwp.c:97-104 | Whatever line is parsed, the word read is free of isspace characters. |
| RecordOrder.StrCmpMeans | Project1/findlwp.c:86-87 | strcmp is negative iff, where the two strings first part, the first ends or has the smaller byte. |
| RecordOrder.CmpMeans | Project1/findlwp.c:83-90 | cmp_occurrence is negative iff the word comes before, or it is the same word in an earlier file, or on an earlier line of the same file. |
| RecordOrder.CmpIsTotalOrder | Project1/findlwp.c:83-90 | cmp_occurrence is a total order in which only equal occurrences compare equal. |
| RecordOrder.CmpFitsAnInt | Project1/findlwp.c:88-89 | Its subtractions do not overflow for numbers that are not negative. |
| RecordOrder.SortSorts | Project1/findlwp.c:356-358 | Sorting gives a sorted permutation. |
| RecordOrder.SortedIsSort | Project1/findlwp.c:356-358 | A sorted arrangement of the occurrences, however found, is the one the report is defined by. |
| RecordOrder.SortedIsUnique | Project1/findlwp.c:356-358 | One bag of occurrences has one sorted arrangement, so any correct qsort gives the same. |
| WordGroups.GroupsCover | Project1/findlwp.c:367-383 | The groups are runs of one word each and together are the whole list, in order. |
| WordGroups.GroupsAreExact | Project1/findlwp.c:367-383 | For any bag of occurrences: each is reported once, words go up in byte order, each count is the number of times the word occurs, and its places go up by file and then by line. |
| WordGroups.PlacesAreSeparated | Project1/findlwp.c:375-380 | Places are separated by a comma and a blank, wherever the list is cut. |
| WordGroups.ReportIsOfTheBag | Project1/findlwp.c:356-383 | The report depends only on the bag of occurrences, not on the order they arrived in. |
| WordGroups.ReportHasOdd | Project1/findlwp.c:374-381 | A vertical tab or form feed is in the report iff it is in some word. |
| WordScan.TokensAreTheRuns | Project1/findlwp.c:163-167 | A string is among the tokens iff it is a maximal run of characters that are no delimiters. |
| WordScan.TokensKeepTheText | Project1/findlwp.c:163-167 | The tokens in order are the text without its delimiters. |
| WordScan.WordsAreTokens | Project1/findlwt.c:94-108 | Every collected word is a nonempty string without delimiters and NULs. |
| WordMeaning.TokensCount | Project1/findlwp.c:163-167 | A string is among the tokens as often as the text has it as a whole run between space, tab, carriage return, newline or the ends. |
| WordMeaning.GetLinesMeans | Project1/findlwt.c:94-97 | The lines together are the text; none is empty, a newline is only at the end of a line, and only the last may lack it. |
| WordMeaning.WordsOfFileMeans | Project1/findlwt.c:94-108 | A word of at least k characters is in the list of a file, with that line number, as often as that line has it; nothing else is. |
| WordMeaning.AllWordsMeans | Project1/findlwt.c:158-170 | The merged list has of file number i exactly the words of the i-th file, none if it cannot be opened. |
| WordStream.PrintedIsLines | Project1/findlwp.c:173-184 | What a child writes is one complete line per word. |
| WordStream.PlainWordsComeBack | Project1/findlwp.c:332-334 | Words without isspace characters come back as the same list of occurrences. |
| WordStream.DeliveryIsInvisible | Project1/findlwp.c:264-346 | For any chunking and any interleaving of the pipes, the parent holds exactly the records of the whole streams, and each pipe's unfinished line. |
| WordStream.ProgramsAgreeIff | Project1/findlwp.c:163-184 | For every delivery, findlwp's report equals findlwt's iff no kept word has a vertical tab or form feed: the tokenizer does not split on them, the parser does. |
| WordStream.FormFeedMisleads | Project1/findlwp.c:97-134 | A word that breaks agreement: "a", form feed, "5" on line 2 of file 1 is read as "a" on line 1 of file 5. |
| WordExample.WordsOfText | Project1/findlwt.c:94-108 | The file with an empty line and the line "a", form feed, "5" has one word, on line 2. |
| WordExample.FormFeedDivides | Project1/findlwp.c:163-184 | On that input the reports of the two programs differ, however the bytes arrive. |
| WordExample.WhatEachProgramFinds | Project1/findlwp.c:92-133 | findlwt has the word on line 2 of file 1; findlwp has "a" on line 1 of file 5 and nothing else. |
| WordExample.FoundReport | Project1/findlwp.c:356-383 | The report of three occurrences of two words, character by character. |
| WordFinder.OccurrenceList.Push | Project1/findlwp.c:55-74 | Appends one occurrence, doubling a full array. |
| WordFinder.OccurrenceList.SortAll | Project1/findlwp.c:356-358 | Leaves the array sorted by cmp_occurrence and holding the same occurrences. |
| WordFinder.CollectWords | Project1/findlwt.c:94-108 | Adds exactly the words of at least k characters, with file and line number, in order. |
| WordFinder.WriteToParent | Project1/findlwp.c:36-53 | Whatever each write accepts, and however often it is interrupted, the bytes written are the buffer, at most dataLength at a time; -1 iff a write fails, and then a prefix is written. |
| WordFinder.Child | Project1/findlwp.c:136-187 | Over one sequence of write results, none a failure, a child writes exactly one record per kept word, and nothing if its file cannot be opened. |
| WordFinder.ParseRecordLine | Project1/findlwp.c:92-133 | The character loops compute ParseRecord, failures included. |
| WordFinder.LineBuffer.Append | Project1/findlwp.c:307-323 | Adds the bytes, growing the buffer, with a byte to spare for the NUL. |
| WordFinder.LineBuffer.TakeRecords | Project1/findlwp.c:325-344 | Pushes the records of all complete lines and keeps exactly the unfinished one, moved to the front. |
| WordFinder.Gather | Project1/findlwp.c:264-346 | The parent's loop ends with exactly the occurrences of the whole delivery. |
| WordFinder.WriteReport | Project1/findlwp.c:367-383 | The grouping loops write one line per group with count and places. |
| WordFinder.SortAndReport | Project1/findlwp.c:356-383 | Sorting and grouping write the report of the bag of occurrences. |
| WordFinder.Worker | Project1/findlwt.c:76-113 | A worker collects the words of its file, none if it cannot be opened. |
| WordFinder.RunChildren | Project1/findlwp.c:229-249 | Each child leaves in its pipe the records of its file. |
| WordFinder.Deliver | Project1/findlwp.c:264-346 | Whichever pipe each read is made on and however much it can have, every pipe is read to its end, in order, and then closed once. |
| WordFinder.EndToEnd | Project1/findlwp.c:136-392 | For any pieces the children write and any chunking and interleaving of them, the two reports agree iff no kept word has a vertical tab or form feed. |
| WordFinder.Merge | Project1/findlwt.c:158-170 | Adds one worker's words to the merged list in order. |
| WordFinder.FindWithThreads | Project1/findlwt.c:115-207 | findlwt writes the report of all words of all files that can be opened. |
| WordFinder.FindWithProcesses | Project1/findlwp.c:189-392 | Children, pipes and parent together, for any write results without failure and any schedule of reads: the report is findlwt's iff no kept word has a vertical tab or form feed. |

## Left out

- Shared memory mapping, lookup of the caller by pid and `g_local_apid` (`Project3/rsm.c:43-146`): the apid is a parameter, -1 for an unknown caller.
- `rsm_destroy`, `rsm_print_state` and the demo programs of Project 3: they compute nothing the properties speak of.
- ResourceManager.WithinBounds: takes a vector, never null; the source refuses a null one in every rsm call.
- Null arguments elsewhere: a null thread function, which `tus_create_thread` refuses. Vectors are as long as the number of resource types.
- Failures of semaphores, of `mmap`, and of `shm_open` for other reasons than an existing segment: operating-system plumbing.
- Failed block I/O in mfs, and with it crash consistency: on some failed writes the code leaves allocated blocks unowned, so the invariant would not survive them.
- Raw layout of blocks in mfs: inode table, directory, index and data blocks are typed, not bytes cast to structs; the bitmaps are bytes. Reading a block as the wrong type is excluded by the invariant rather than modelled.
- FileSystem.Mfs.Create: the mode and the three times the source stores in a new inode are not in the model's inode.
- FileSystem.Mfs.Write: the modification time is not modelled.
- `getattr`, `readdir`, `open`, `release` and the FUSE interface: no state of interest.
- The magic number and sizes checked when a superblock is loaded (`Project4/mfs.c:645-661`): mounting requires a formatted disk.
- Copying by `strncpy` into fixed-size names: the length check before it makes it exact.
- TCBs as heap objects in tus: a slot of the table holds the thread's fields as a value, so aliasing of TCBs is not modelled; slots are written one at a time as the code does.
- Stacks, registers, the entry stub and the bytes of a context in tus; malloc and getcontext failures; the distribution of `rand`.
- ThreadLibrary.Scheduler.TusJoinTurn: is one turn of the loop in `tus_join`, since control leaves the call at each yield; the whole loop is `TusLifecycle.JoinWaitsForOneThread`, on the step functions.
- TusLifecycle.JoinReapsTheEnded: likewise describes one turn.
- TusLifecycle.JoinWaitsForOneThread: holds while nobody else joins the same tid; with two joiners and tid reuse the code can end up waiting for a new thread.
- RecordOrder.CmpIsTotalOrder: subtracts mathematically; for file or line numbers of opposite extreme signs, which only a misread record could carry, the C subtraction would overflow.
- The parent's count of open pipes and its select sets: reads arrive as a sequence, and a pipe is closed when a read brings nothing.
- WordFinder.OccurrenceList.SortAll: sorts by insertion, in place; how `qsort` permutes the array is not modelled.
- WordFinder.Child: says nothing about what reaches the parent after a failed write, which the source ignores, going on with the next record.
- File names, opening of files, argument checks, fork, pipes and threads as such in Project 1: a file is its bytes, or nothing if it cannot be opened.
- The int cast of a token's length: tokens are shorter than 2^31 bytes.

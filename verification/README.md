# A verified model of OSDesign

This project models the three state machines of the repository and proves what holds in every run of
each of them. To verify it: `dafny verify dfyconfig.toml` (Dafny 4.11).

## The file system

`Volume`, `DiskLayout` and `FileSystem` model the disk: 32768 blocks, an inode map, a data map, two inodes
to a block and 16 directory slots to a block. The class `FileSystem.Disk` works on the blocks as `sfs.c`
does, with the same scan loops, the same block arithmetic and the same order of block writes. `Lookup`,
`Paths`, `Tree`, `TreeWrites`, `Creation` and `Operations` give the meaning of those writes: an abstract
tree that maps dot-free paths to inodes. `Runs` is about whole runs, in which every create or mkdir may be
cut off after any of its writes. `Listings` ties readdir to navPath, path by path, and gives two runs that lead
to surprises. `Entries` says the same things in terms of single slots, pointers and map bytes: which entry a name leads
to, what a listing holds, and when create and mkdir succeed.

How the source is read where it leaves a choice:

- `i` in `updateDir` is taken as 0 and is advanced from one directory block to the next. As written it is
  not initialised, and a full block would be read again for ever (filesystem/src/sfs.c:310-311).
- `navPath` does not stop at a missing component that is not the last one; it goes on from the directory it
  has reached. This is modelled as it is. `Surviving` is the path without those components, and `Landing` is the
  directory reached that way. `NavAgreesExactly` says for which directories the results are nevertheless those of
  a plain resolver, and `SkippedOnRun` is a run after which they are not.
- create and mkdir take a regular file for a parent, since no kind is tested (filesystem/src/sfs.c:547-568).
  navPath then finds the new path, and readdir refuses to list the parent: `FileAsParentOnRun`. `ListedIffPathFound`
  has the kind in its condition for that reason.
- create and mkdir do not check whether the name exists. The new entry is then written behind the old one
  and stays invisible; `MakeRefinesTree` includes this case.
- Names are shorter than the 24-byte name buffers, and "." and ".." do not occur in the paths that create
  and mkdir get, since the kernel resolves them (`Nameable`).
- mkdir gives a new directory no block, so an empty directory has neither "." nor ".."; it gets them with its first
  entry (`DotEntriesExactly`).
- A block is read with the shape it was written with; a block that never was is read as zeros.

## The thread library

`ThreadState` is `my_pthread.c` as a state machine over any number of threads and mutexes. A step is one
region that runs with the timer signal masked, or one test-and-set, and the running thread can be preempted
between any two steps, also between a failed test-and-set and the masked re-check. `ThreadInvariant` and
`ThreadSteps` hold the invariant and show that each step keeps it. `ThreadRuns` states what follows for
every run, and `ThreadLaws` what a step does to each part of the state: who runs next, when the library ends, and how
the queues and records change. `LinkedQueue` is `LinkedList.c`: a class over linked nodes that refines a sequence, and the laws of
its ordered insertion. The class `ThreadLibrary.Library` has the library's procedures over its globals, with such
a list for the run queue; each call takes one step, so whatever client threads do is a run. The join and mutex
queues are sequences in the records of their owners, with the same insertion for joiners.

What is assumed: `testAndSet` is indivisible (my_pthread.c:268-273); so is "reassign `running` and switch
context" (my_pthread.c:237-241, 292-295), although the signal mask is restored before the switch; only a
thread inside a mutex unlocks it; freshly allocated lists are empty; the main thread has a join queue as the
others do. Priorities and times are natural numbers without wrap-around.

Join and exit end the model when the run queue is empty (status `Ended`); a lock call that pops an empty run
queue is a null dereference in the source (status `Faulted`).

## The page manager

`Bytes` is memory as bytes with little-endian words. `Chunks` is one page of `vm.c`: chunk headers read from its
bytes, the walk that rebuilds the links of a page that has moved, and the list that allocation follows. `Carving` is
the fresh page, first fit and the split of a chunk, and `Blocks` shows where chunks start and that their blocks keep
apart. `Frames` is the frame table with the exchange of two pages and the
second-chance choice of a victim. `PageTable`, `PageRuns`, `Placement`, `PageLoading` and `PageContents` look at whole
pages: which (process, order) is in which frame, and what becomes of its bytes. The class `PageManager.Manager` has the
procedures of `vm.c` over a frame array, a page array and swap slots; `PageLaws` says what some of them do to headers
and bytes. Dereferencing a null pointer is a `Fault` (on
tables) or a `Crash` (in the class).

Five properties one would expect of the page manager are not true of the code. Each has a concrete case and a
condition:

- A page does not always keep its contents when it moves. The walk writes `start`, `next` and `prev` at every offset
  that it takes for a header (vm.c:213-231), always at offset 0. `ByteSurvivesExactly` says that a byte survives,
  whatever it is, exactly if it is not one of those (`LinkByte`). In a page whose list tiles it the blocks have none
  of them (`MoveKeepsBlocks`). A continuation page (vm.c:759-760) holds data from its first byte on and always loses
  24 bytes (`FirstLinkBytes`); `ContinuationLosesData` is a run of two processes that loses what the first has stored.
- A chunk list does not always survive the move of its page, because `createSpace` records a remainder that
  does not leave room for its own header (vm.c:113-123) and the walk steps by recorded sizes.
  `MoveKeepsListExactly` says it survives exactly if it tiles the page, `CarveKeepsTilingExactly` says which
  splits keep it so, and `SecondCarveLosesList` gives two allocations that do not. The same remainder lets a block
  end behind the page: `BlockInPageExactly` says after how many splits, and `ThirdCarveLeavesPage` gives three
  allocations. A split is therefore a `Carve`: `InPage`, or `Behind` with the place of a header that is not wholly
  in the page.
- Loading a process does not always put its pages in consecutive frames, because `p1 = p2` (vm.c:699) follows
  the frame that has just been vacated. `LoadsInOrderExactly` says for which placements it does, for any number
  of pages and frames. The condition, `Placement.Ready`, is on the placement before the loop: every page but the
  last is in its frame or has changed places with the next one; or, once, a page is in the last frame but one and
  the pages behind it are placed so that the loop puts them back (`Placement.Crossing`).
  `SwitchExactly` is the case of a context switch: a process of m pages whose first m frames are taken by another
  process is put in order exactly if m is at most 2. `ReachableScatter` is a run of two processes that is not.
- Loading can crash: a page found in the last frame has no frame behind it, and `makeContiguous` then swaps with
  NULL (vm.c:679-680). With five frames, the run of `ReachableScatter` does. It does so only if the last frame holds
  a page of the process other than its first and its last one (`LoadIsSafe`), and it does if that is not one of the
  last two either and the frame before holds none of the pages well before it (`LoadCrashes`);
  `ThreePagesCrashExactly` is exact for three pages.
- A request does not always end in a block or NULL. Besides the crash above, `getVictimPage` runs off the frame
  list exactly if all frames belong to the requester and none has used up its chances (vm.c:324-331,
  `NoVictimExactly`), as when a process that has all frames was just loaded (`OwnerOfAllIsStuck`). For a process that
  the load puts in order (`Loadable`, which is `Placement.Ready` again, and holds of every process of one or two
  pages) a request crashes in no other case: `GetFreeElement` crashes only once the process has all frames, and
  otherwise leaves it in order. Where it does not crash, it ends in a block, or in NULL with no frame and no slot
  left.

Also, eviction leaves the order of the evicted page in the frame (vm.c:376, 154-155);
`StartAfterEvictionExactly` says when a process that is then started can be loaded.

## Model

| member | source | states |
|---|---|---|
| DiskLayout.WriteChangesOneCell | filesystem/src/sfs.c:93-97 | each kind of block write stays in its own region of the disk and changes one cell of the four tables; sibling inode, other map bytes and superblock are untouched |
| Lookup.NavResolvesSurviving | filesystem/src/sfs.c:238-299 | navPath is the plain resolver on the components that survive, and the parent it returns is the directory that was searched |
| Lookup.SurvivingIsAll | filesystem/src/sfs.c:289-292 | no component is dropped exactly if the directory part of the path resolves |
| Lookup.NavAgreesExactly | filesystem/src/sfs.c:214-300 | navPath agrees with a component-by-component resolver on every name in a directory exactly if that directory resolves, or the directory reached by dropping missing components is empty |
| Lookup.NavLands | filesystem/src/sfs.c:238-299 | navPath on dir/name looks the name up in the directory reached by dropping missing components, and returns that directory as the parent |
| Lookup.MissingDirectoryIsSkipped | filesystem/src/sfs.c:289-292 | a path through a missing directory leads to a file the resolver rejects |
| Lookup.ResolveSplit | filesystem/src/sfs.c:238-293 | resolving a path is resolving its front and then the rest from there |
| Lookup.UsedNames | filesystem/src/sfs.c:813-823 | the names of a block passed to the filler are exactly those that the slot search finds |
| Lookup.ListedIffFound | filesystem/src/sfs.c:807-825 | a name is among the entries of an array of pointers exactly if looking it up there succeeds |
| Entries.LookupIsFirst | filesystem/src/sfs.c:260-288 | a name leads to the inode of the first slot, by pointer and then by place, that is in use under it; nowhere exactly if no slot is |
| Entries.ListingInOrder | filesystem/src/sfs.c:807-825 | a listing holds the names of all used slots of a directory, each slot once and in the order of pointers and places |
| Listings.ListedIffPathFound | filesystem/src/sfs.c:784-828 | readdir on a path lists a name exactly if the path leads to a directory and navPath finds path/name; it refuses exactly what is not a directory |
| Listings.SkippedOnRun | filesystem/src/sfs.c:289-292 | a run of one create after which navPath finds a file through a directory that does not exist |
| Listings.FileAsParentOnRun | filesystem/src/sfs.c:547-568 | a run of two creates, the second with the first file as its parent, after which navPath finds the new path and readdir refuses the parent |
| Paths.ComponentsRoundTrip | filesystem/src/sfs.c:237-257 | cutting a canonical path into words gives its names back |
| Paths.ComponentsArePath | filesystem/src/sfs.c:237-257 | every path, canonical or not, is behind its first character the words that navPath visits, slash-free and with single slashes between them, and up to two slashes at the end |
| Paths.SplitRoundTrip | filesystem/src/sfs.c:537-546 | cutting a canonical path at its last slash separates the directory path from the new name |
| Tree.ResolveStaysLive | filesystem/src/sfs.c:262-288 | on a consistent disk every path, dots included, stays among the linked inodes |
| Tree.OnePath | filesystem/src/sfs.c:262-288 | two dot-free paths to one inode are the same path |
| TreeWrites.LinkTreeOk | filesystem/src/sfs.c:318-330 | linking a prepared directory block keeps the disk consistent |
| TreeWrites.LinkResolve | filesystem/src/sfs.c:318-330 | linking a prepared directory block changes no dot-free path |
| TreeWrites.AddTreeOk | filesystem/src/sfs.c:338-347 | writing the entry of a fresh inode keeps the disk consistent |
| TreeWrites.AddResolve | filesystem/src/sfs.c:338-347 | writing an entry binds the new path, unless it was bound, and changes no other dot-free path |
| Creation.EntryCrash | filesystem/src/sfs.c:302-351 | after every prefix of the writes of updateDir the disk is consistent, and the new path is absent or leads to the new inode |
| Creation.NodeCrash | filesystem/src/sfs.c:552-571 | the same with the inode reserved first: only leaks are possible before the last write |
| Operations.MakeRefinesTree | filesystem/src/sfs.c:524-576 | every prefix of the writes of a create or mkdir leaves the abstract tree as it was, except that all of them bind the new path, unless it was bound, to an inode that was unmarked and now has the kind asked for, its own number and 44 unused pointers; a failed call binds nothing |
| Entries.EntryFitsExactly | filesystem/src/sfs.c:311-350 | updateDir succeeds exactly if the first pointer below 44 that is not a full block leads to a block with an unused slot, or is unused with a data block unmarked |
| Entries.MakeSucceedsExactly | filesystem/src/sfs.c:524-576 | on a consistent disk create and mkdir succeed exactly if the path has fewer than 255 characters and a slash, what stands before its last slash is found, an inode is unmarked, and some pointer below 44 of the directory leads to a block with an unused slot, or is unused with a data block unmarked |
| Entries.NewPathLists | filesystem/src/sfs.c:143-162 | after a successful call on a new canonical path, readdir on it gives an empty listing if it was a mkdir, and refuses if it was a create |
| Operations.NavFindsParent | filesystem/src/sfs.c:295-299 | a found target is linked and the returned parent is its parent |
| Runs.RunKeepsPaths | filesystem/src/sfs.c:674-725 | over every run with a crash at any write, the disk stays a consistent tree and no path is lost or redirected |
| Runs.FormattedIsTree | filesystem/src/sfs.c:399-448 | a formatted disk, with only inode 0 and data block 0 marked, is a consistent tree with only the root |
| Runs.ReachableIsAllocated | filesystem/src/sfs.c:105-169 | whatever a path leads to is a marked, initialised inode with marked data blocks |
| Runs.NoSharedBlocks | filesystem/src/sfs.c:312-330 | no data block belongs to two (inode, pointer) pairs that paths lead to |
| Runs.PathsFormTree | filesystem/src/sfs.c:338-347 | dot-free paths form a tree rooted at inode 0: one path per inode, and every path has a parent path with a smaller inode |
| Runs.DotDotLeadsBack | filesystem/src/sfs.c:188-212 | ".." in a directory names the directory that its path came through if the directory has a block, and is not there if it has none |
| Runs.DotEntriesExactly | filesystem/src/sfs.c:188-212 | a linked inode has "." exactly if it has a block, and ".." exactly if it is not the root besides |
| Runs.CreatedPathIsFound | filesystem/src/sfs.c:524-576 | after a successful create or mkdir of a new name in an existing directory, navPath finds the new inode there, with its parent |
| Runs.NothingGrantedTwice | filesystem/src/sfs.c:73-169 | over any sequence of reservations, from any maps, nothing is handed out twice |
| Runs.GrantsStayInRange | filesystem/src/sfs.c:73-169 | every data block handed out is in 1089..31808, and every inode in 1..2047: inode 0, which means failure, is never handed out |
| Runs.FailsOnlyWhenFull | filesystem/src/sfs.c:73-169 | a reservation fails exactly if its map is full |
| FileSystem.ZeroByte | filesystem/src/sfs.c:90-91 | the scan stops at the first zero byte of a map block |
| FileSystem.ReadWord | filesystem/src/sfs.c:246-253 | the name buffer gets the word up to the next slash or the end |
| FileSystem.UnusedSlot | filesystem/src/sfs.c:338-339 | the scan stops at the first slot that is not in use |
| FileSystem.FillNames | filesystem/src/sfs.c:813-823 | the names in use are passed on in order until the filler is full |
| FileSystem.Disk.ReserveFreeData | filesystem/src/sfs.c:73-103 | the nested scan marks the first free data block and returns its block number, or -1 if there is none |
| FileSystem.Disk.ReserveFreeInode | filesystem/src/sfs.c:105-169 | the nested scan marks the first unmarked inode and writes it in its half block, with the kind asked for, its own number and 44 unused pointers; returns 0 exactly if all are marked |
| FileSystem.Disk.InitDir | filesystem/src/sfs.c:188-212 | the block gets ".", "..", unless it would name the directory itself, and free slots |
| FileSystem.Disk.FindEntry | filesystem/src/sfs.c:262-288 | the search over pointers and slots finds the first entry in use under the name |
| FileSystem.Disk.NavRound | filesystem/src/sfs.c:246-292 | one round takes one word, looks it up and tells whether it was the last |
| FileSystem.Disk.NavPath | filesystem/src/sfs.c:214-300 | the loop computes the specified result, target inode and parent inode |
| FileSystem.Disk.AddBlock | filesystem/src/sfs.c:312-330 | a new directory block is marked, prepared and linked, in this order |
| FileSystem.Disk.UpdateDir | filesystem/src/sfs.c:302-351 | succeeds exactly if the first pointer that is not a full block has a place for the entry; performs exactly the specified writes, in order |
| FileSystem.Disk.Make | filesystem/src/sfs.c:524-576 | succeeds exactly if the path can be made, as in MakeSucceedsExactly; the disk stays consistent and exactly the specified writes are performed |
| FileSystem.Disk.ReadDir | filesystem/src/sfs.c:784-828 | the entries of the directory found are listed in order, up to what the filler takes |
| FileSystem.Disk.Init | filesystem/src/sfs.c:392-449 | a disk without the magic number becomes a formatted one; another is left alone, whatever is on it |
| LinkedQueue.InsertedIsPermutation | LinkedList.c:31-69 | ordered insertion adds exactly the new element |
| LinkedQueue.SortedStaysSorted | LinkedList.c:42-66 | ordered insertion keeps a sorted queue sorted exactly if the head's key is not larger than the new key |
| LinkedQueue.FirstComeFirstServed | LinkedList.c:42-66 | a newcomer goes behind all its peers, and others keep their order |
| LinkedQueue.PushedExactly | LinkedList.c:42-66 | in any queue, sorted or not, the new element goes right behind the head if the head has a larger key, else behind all leading elements with keys not larger than its own, and nowhere else |
| LinkedQueue.OrderSortsExactly | LinkedList.c:71-79 | orderByOldest yields a permutation, and a stable sort exactly if the head is already the oldest |
| LinkedQueue.OrderIsExactly | LinkedList.c:71-79 | what orderByOldest gives for any queue: the head, then the elements older than it in reverse order, then all others sorted, with ties in the order they had |
| LinkedQueue.Queue.Push | LinkedList.c:17-28 | appends to the sequence that the linked list stands for |
| LinkedQueue.Queue.Pop | LinkedList.c:81-91 | removes and returns the first element |
| LinkedQueue.Queue.PushOrdered | LinkedList.c:31-69 | inserts behind the leading run of elements with a key not larger, but never in front of the head |
| LinkedQueue.Queue.LastPassed | LinkedList.c:42-55 | the walk ends at the last node of that leading run, or at the head |
| LinkedQueue.Queue.OrderByOldest | LinkedList.c:71-79 | the queue becomes the reordered sequence, in new nodes |
| ThreadInvariant.StartOk | my_pthread.c:153-177 | the first state satisfies the invariant |
| ThreadSteps.ScheduleKeeps | my_pthread.c:60-83 | a scheduler round keeps the invariant |
| ThreadSteps.YieldKeeps | my_pthread.c:202-212 | yield keeps the invariant |
| ThreadSteps.TestAndSetKeeps | my_pthread.c:268-273 | a test-and-set, failed or not, keeps the invariant |
| ThreadSteps.RecheckKeeps | my_pthread.c:285-298 | the masked part of lock keeps the invariant, whether it blocks, retries or faults |
| ThreadSteps.UnlockKeeps | my_pthread.c:304-319 | unlock by the holder keeps the invariant |
| ThreadSteps.JoinKeeps | my_pthread.c:221-255 | join, blocking or not, also on oneself, keeps the invariant |
| ThreadSteps.ExitKeeps | my_pthread.c:17-44 | exit keeps the invariant |
| ThreadSteps.CreateKeeps | my_pthread.c:179-199 | creating a thread keeps the invariant |
| ThreadRuns.InvAlways | my_pthread.c:17-319 | the invariant holds in every state of every run |
| ThreadRuns.PcChanges | my_pthread.c:276-301 | where every thread is in its library call after any step: only the running thread moves, and from inside lock it moves to user code only by a test-and-set that finds the mutex free |
| ThreadRuns.LockReturns | my_pthread.c:281-300 | whatever step takes a thread from inside its lock call back to user code, it finds the mutex unlocked and leaves it locked and held by that thread |
| ThreadRuns.LockReturnsInside | my_pthread.c:276-301 | in every run nobody is inside the mutex before such a step, and that thread alone after it |
| ThreadRuns.InsideIsHeld | my_pthread.c:276-319 | the mutexes recorded as held are exactly those locked and not yet unlocked in the history of the run |
| ThreadRuns.MutualExclusion | my_pthread.c:276-319 | in every run at most one thread is between a return from lock, by whatever step, and its unlock |
| ThreadRuns.LockedIffInside | my_pthread.c:276-319 | a mutex is marked locked exactly while a thread is inside it |
| ThreadRuns.NoLostWakeup | my_pthread.c:281-314 | in every run, while a thread waits for a mutex, some thread is inside it or a runnable thread will try it again |
| ThreadRuns.ThreadsAreConserved | my_pthread.c:17-319 | in every state of every run each thread created so far is in exactly one place: processor, run queue, one join queue, one mutex queue, or finished |
| ThreadRuns.JoinSafety | my_pthread.c:228-241 | in every run a thread is in a join queue only while the target is unfinished, and a blocked join resumes only after it has finished |
| ThreadRuns.ExitReleasesJoiners | my_pthread.c:22-29 | in every run exit marks the thread finished, makes everyone in its join queue runnable and empties the queue |
| ThreadRuns.OthersStayRunnable | my_pthread.c:60-83 | a thread stops being runnable only by its own call |
| ThreadRuns.HolderIsQueued | my_pthread.c:285-292 | if no thread blocks or exits inside a mutex, then whenever a lock call blocks the thread inside is in the run queue |
| ThreadRuns.FaultsExactly | my_pthread.c:285-292 | a step pops an empty run queue exactly if it is a blocking lock call with nobody in the queue |
| ThreadLaws.EndsExactly | my_pthread.c:27-44 | a step ends the library exactly if it is an exit, or a join that blocks, after which no thread is runnable: the run queue was empty and, for an exit, nobody waited for the thread |
| ThreadLaws.NextThread | my_pthread.c:60-83 | who runs after a step: the front of the run queue if the running thread blocks, exits, yields or is interrupted; after an exit with an empty run queue, the first of its joiners; else who ran before |
| ThreadLaws.RunQueueChanges | my_pthread.c:17-83 | how each step changes the run queue: threads leave at the front only; a created, woken or interrupted thread is pushed by the recorded priorities; exit pushes its joiners in order; in every 151st round the queue is first ordered by age |
| ThreadLaws.KeysAreRecorded | LinkedList.c:42-55 | the keys that the queues are ordered by are the priorities and birth times recorded in the threads |
| ThreadLaws.JoinersChange | my_pthread.c:228-229 | a blocking join pushes the caller by the recorded priorities into the queue of its target; exit empties it; nothing else changes it |
| ThreadLaws.RecordStays | my_pthread.c:22 | a thread finishes by its own exit only, and no step changes its birth time |
| ThreadLaws.CreatedThread | my_pthread.c:119-151 | only create makes a thread, with a new number, in user code, with priority 0, holding nothing, unfinished, and with the time of the call as its birth time |
| ThreadLaws.BirthAlways | my_pthread.c:131 | in every run a thread keeps the birth time it was created with |
| ThreadRuns.LockNeverPopsEmpty | my_pthread.c:285-292 | under the same discipline the run queue is never popped while empty |
| ThreadRuns.RelockFaults | my_pthread.c:281-292 | without it, it is: a single thread locks its own mutex again |
| ThreadRuns.WaitersInOrderOfArrival | my_pthread.c:285-314 | in every run threads are woken from a mutex in the order in which they queued up for it: the queue is the history of arrivals without as many as have been woken |
| ThreadRuns.SchedulerSwitches | my_pthread.c:60-83 | in every run an interrupted or yielding thread gives way to another whenever there is one, and goes to the run queue |
| ThreadRuns.PriorityCountsInterrupts | my_pthread.c:64-70 | in every run a thread's priority number is how often it was interrupted or yielded at 0, and the round counter counts rounds modulo 151 |
| ThreadLibrary.Library.constructor | my_pthread.c:153-177 | the empty run, with the main thread running |
| ThreadLibrary.Library.CreateThread | my_pthread.c:179-199 | takes the create step; the new thread is new, born at the time given, and pushed into the run queue by priority |
| ThreadLibrary.Library.PushRun | my_pthread.c:28 | a thread goes into the linked run queue behind the leading run of threads with no larger priority number, but never in front of the head |
| ThreadLibrary.Library.OrderRun | my_pthread.c:65-68 | the linked run queue is reordered by age |
| ThreadLibrary.Library.DrainJoiners | my_pthread.c:27-29 | the loop moves all joiners to the run queue, front first |
| ThreadLibrary.Library.ThreadExit | my_pthread.c:17-44 | takes the exit step: the caller is finished, everyone who waited for it is runnable, the front of the run queue or else the first joiner runs; ends the library exactly if the run queue and the join queue were empty |
| ThreadLibrary.Library.Schedule | my_pthread.c:60-83 | performs one scheduler round |
| ThreadLibrary.Library.YieldProcessor | my_pthread.c:202-212 | takes the yield step: the front of the run queue runs, and the caller is queued |
| ThreadLibrary.Library.JoinThread | my_pthread.c:221-255 | takes the join step: returns at once for a finished target, else the caller is in its queue and the front of the run queue runs; ends the library exactly if it blocks with the run queue empty |
| ThreadLibrary.Library.ReturnFromJoin | my_pthread.c:241-254 | a join returns only with its target finished |
| ThreadLibrary.Library.MutexInit | my_pthread.c:258-266 | a new unlocked mutex |
| ThreadLibrary.Library.TestAndSetMutex | my_pthread.c:268-273 | returns the old mark and sets it; on a free mutex the caller is then the one thread inside and back in user code, else still in its lock call |
| ThreadLibrary.Library.BlockIfLocked | my_pthread.c:285-298 | takes the re-check step: on a locked mutex the caller waits at the end of its queue and the front of the run queue runs; on a free one it tests the mutex again; in neither case does the lock call return |
| ThreadLibrary.Library.UnlockMutex | my_pthread.c:304-319 | takes the unlock step: nobody is inside afterwards, and the first waiter, if any, has left the queue of the mutex and is runnable |
| Chunks.RestorePointers | vm.c:205-235 | the loop rewrites the bytes of the page as specified |
| Chunks.RestoredIsLinked | vm.c:205-235 | after the walk every header visited has the links that the walk gives |
| Chunks.LinksAreInverse | vm.c:218-234 | in a linked page, at addresses of 64 bits, start leads behind the header, next to the header visited after and prev to the one before |
| Chunks.ByteSurvivesExactly | vm.c:218-234 | a byte survives the move of its page, whatever it is, if and only if it is not a link byte of a header that the walk visits |
| Chunks.LinkByteIsLost | vm.c:218-231 | the moved page is the same whatever a link byte was |
| Chunks.FirstLinkBytes | vm.c:759-760 | in every page, also one with data from its first byte on, bytes 16-23 and 32-47 are link bytes |
| Chunks.MoveKeepsBlocks | vm.c:205-235 | in a page that its list tiles, the block of every chunk survives a move byte by byte, with its size and its free mark |
| Chunks.LinkedIsFixed | vm.c:205-235 | a page whose links are right is left alone |
| Chunks.RestoredTwice | vm.c:205-235 | rebuilding for a second address leaves no trace of the first |
| Chunks.MovedTwice | vm.c:383-427 | moving a linked page away and back is the identity |
| Chunks.TilesIffVisited | vm.c:213-233 | the walk visits exactly the chunks of the list if and only if the list tiles the page |
| Chunks.MoveKeepsListExactly | vm.c:205-235 | a chunk list is found at the same offsets after a move if and only if it tiles the page |
| Carving.FreshTiles | vm.c:86-103 | the single chunk of a fresh page is free, has the size of the page less a header, and tiles it |
| Carving.FindFreeSpace | vm.c:74-84 | finds the first chunk that is free and large enough on the list as far as that stays in the page; or says that there is none, and whether the list goes on elsewhere |
| Chunks.GetLastElement | vm.c:709-720 | the walk ends at the last chunk of the list that is in the page, and tells whether the list goes on elsewhere |
| Carving.CreateSpace | vm.c:105-137 | splits a free chunk, wherever the new header falls, and refuses one in use; with the new header in the page, what is read back is a chunk of n bytes in use, followed by a free one with the rest as its size, its start right behind its header, the old next link, and the chunk it was split from as prev |
| Carving.SplitStartsRight | vm.c:118-132 | the chunk left over by a split starts right behind its header, and its prev is the chunk it was split from |
| Blocks.AllocationsStartRight | vm.c:86-137 | after any sequence of allocations from a fresh page every chunk on the list starts right behind its header, and only the last one can be free |
| Blocks.AllocationsKeepChain | vm.c:86-137 | and every chunk but the last is in use, ends where the next one starts, and is what the prev of the next one names |
| Blocks.CarveStartsRight | vm.c:105-137 | a split of any chunk of a tiled page, also one that does not keep it tiled, leaves every chunk on the list starting right behind its header |
| Blocks.MoveStartsRight | vm.c:205-235 | so does a move, at the new address |
| Blocks.TiledBlocksApart | vm.c:105-137 | in a tiled page the block of a chunk ends before the header of every chunk behind it |
| Blocks.TakeSpace | vm.c:815-859 | in such a page findFreeSpace and createSpace together split the first chunk that fits and hand out the address right behind its header |
| Carving.CarveKeepsTilingExactly | vm.c:105-137 | a split of any chunk of a tiled list leaves the page tiled if and only if nothing is left over, or the chunk is the last and the walk takes the new chunk's end as createSpace does; splits with a header behind the page do not |
| Carving.BlockInPageExactly | vm.c:105-137 | after any number of splits of the last chunk the recorded end is 56 bytes too far per split; a block ends in the page, and a new header falls behind it, exactly as these say |
| Carving.ThirdCarveLeavesPage | vm.c:113-133 | three allocations in a fresh page of 4096 bytes, on lists that tile it, the last of which ends at 4098 |
| Carving.SecondCarveLosesList | vm.c:113-133 | two allocations in a fresh page of 4096 bytes, with both headers in the page, after which a move loses the list |
| Carving.FirstCarveTiles | vm.c:105-137 | the first split of a fresh page always keeps it tiled |
| Frames.SwapExchanges | vm.c:383-427 | swapPages exchanges the two pages, with the bytes that the walk takes for links rebuilt for the new addresses, and keeps every frame's address and links |
| Frames.SwapTwice | vm.c:383-427 | swapping two linked pages twice is the identity |
| Frames.SwapKeepsTiledLists | vm.c:383-427 | a list is found where its page went if and only if it tiled the page |
| PageLaws.SwapMovesHeaders | vm.c:383-427 | swapPages exchanges every field of the two headers but address and links, and leaves all other frames and pages alone |
| Frames.ReserveCounts | vm.c:767-789 | a page more for one process is a free frame less |
| Frames.NoVictimExactly | vm.c:314-333 | getVictimPage runs off the list exactly if every page belongs to the requester and has a chance left |
| Frames.LastPageIsVictim | vm.c:322-331 | a last page of another process is the victim |
| Frames.OwnVictimExactly | vm.c:322-331 | the victim is a page of the requester exactly if the last page that is not passed over is one of its own without a chance left |
| PageLaws.VictimExactly | vm.c:322-332 | the victim is the last frame that is not the requester's with fewer than 3 on its clock, all but the last frame counting one more; there is none exactly if there is no such frame |
| PageTable.LoadExchanges | vm.c:685-707 | loading a process is a series of exchanges of frames, each of which rebuilds links |
| PageTable.LoadRearranges | vm.c:685-707 | loading a process rearranges the pages: none is lost or doubled, owner, order and marks stay, and a page that has moved is the old one with its links rebuilt for its new frame, however often it moved |
| PageTable.RearrangedKeepsBytes | vm.c:685-707 | so every byte of every page is kept but for link bytes |
| PageContents.RearrangedKeepsBlocks | vm.c:685-707 | and in a page that its list tiles every block is found at the same offset with the same bytes |
| PageTable.LoadKeepsOrder | vm.c:685-707 | loading a process whose pages are in order changes nothing |
| PageLaws.LoadPlacesFirstTwo | vm.c:685-707 | after every load that does not crash page 1 is in the first frame and page 2, if there is one, in the second, wherever the pages were |
| PageTable.GrowthIsContiguous | vm.c:767-789 | a process with pages in the first m frames has them in the first m+1 after reserveAnotherPage; the page that was there moves to the frame that was free, the first page has been away and back, the last page may have a larger chunk, and every other page is as it was |
| PageContents.GrowthForgets | vm.c:767-789 | of a link byte in the page that makes room nothing is left: the result is the same whatever it was |
| PageContents.GrowthKeepsOthers | vm.c:767-789 | every other byte of that page is kept, in the frame that was free |
| PageContents.ContinuationLosesData | vm.c:759-760 | from any blank memory of four frames or more, a run of two processes that ends in the same table for every byte stored at certain offsets of the first one's continuation page |
| PageRuns.OwnershipAlways | vm.c:430-459 | in every state that a run without eviction reaches before it ends or crashes, whatever the processes store in their pages, the pages of each process are numbered 1 to its size, each once, and free frames have pid 0 and order 1 |
| PageRuns.BlankRuns | vm.c:430-459 | requests that lead from a blank table to another are a run |
| PageRuns.AloneInOrder | vm.c:767-789 | a process that is alone always has its pages in order in the first frames |
| Placement.ReadyExactly | vm.c:693-703 | with the first page in place, the loop puts every page in its frame if and only if the placement is ready, for any number of pages and frames |
| PageLoading.LoadsInOrderExactly | vm.c:685-707 | loading puts the pages of a process in order if and only if they are ready once the first page is first |
| PageLoading.RunLoadsExactly | vm.c:685-707 | in every state of every run without eviction this holds of every process |
| PageLoading.TwoPagesAlwaysInOrder | vm.c:685-707 | in every such state a process of one or two pages is loaded in order, wherever they are |
| PageLoading.LoadIsSafe | vm.c:675-683 | loading crashes only if, once the first page is first, the last frame holds a page of the process that is neither its first nor its last |
| PageLoading.LoadCrashes | vm.c:675-683 | loading crashes if that is page l, not one of the last two, and the frame before holds none of pages 1 to l-2 |
| PageLoading.ForeignEndIsSafe | vm.c:675-683 | loading does not crash if the last frame belongs to another process |
| PageLoading.ThreePagesCrashExactly | vm.c:675-683 | with three pages it crashes if and only if the second is then in the last frame and the third is not in the second frame |
| PageLoading.ThreePagesExactly | vm.c:685-707 | three pages are loaded in order if and only if, once the first is first, the second is in its frame or the second and third are in each other's |
| PageLoading.SwitchExactly | vm.c:685-707 | a process of m pages whose first m frames hold another process's pages is put in order if and only if m is at most 2 |
| PageLoading.ReachableScatter | vm.c:698-700 | from any blank memory of five frames or more, for any two processes, a run of a three-page and a two-page process reaches a table from which loading does not put the pages in order; with five frames it crashes |
| PageManager.StartAfterEvictionExactly | vm.c:430-459 | a process started in the frame of an evicted page can be loaded if and only if that page had order 1 |
| PageLaws.ClaimedIsEmpty | vm.c:430-459 | getFreePage takes the first free frame, with the order and the mark it had, as one free chunk of 4040 bytes, and exchanges it with the first frame; no other frame changes |
| PageManager.OwnerOfAllIsStuck | vm.c:314-333 | a process that has all frames and was just loaded leaves no victim |
| PageManager.OrderedReserves | vm.c:767-789 | growing a process that is in order crashes exactly if it has all frames, and else leaves it in order with a page more, eviction included |
| PageManager.LoadableLoads | vm.c:804 | loading a process whose placement is ready puts it in order, with free frames still nobody's |
| PageManager.SmallAlwaysLoadable | vm.c:804 | in every run without eviction a process of one or two pages is such a process at any time |
| PageManager.Manager.constructor | vm.c:985-1012 | all frames are linked, free, with pid 0 and order 1 |
| PageManager.Manager.FindFreePage | vm.c:64-72 | the first free frame, or NULL |
| PageManager.Manager.FindPage | vm.c:462-513 | the first frame with that pid and order, or NULL; only its swapclock is reset |
| PageManager.Manager.SwapPages | vm.c:383-427 | exchanges headers but for address and links, and bytes, with the link bytes that the walk finds rewritten |
| PageManager.Manager.GetContiguousPage | vm.c:662-673 | the next frame, found by address, or NULL for the last |
| PageManager.Manager.LoadProcessPages | vm.c:685-707 | the loop computes the specified table, or crashes where specified |
| PageManager.Manager.GetLastProcessPage | vm.c:722-735 | the last page found when counting up from page 1, or NULL; without a first page it may still be the second |
| PageManager.Manager.JoinFreeSpace | vm.c:737-765 | the new page is marked as a continuation, and the last chunk of the last page enlarged by a page, exactly if that chunk is free and the last page is not itself a continuation; crashes exactly if the process has no page |
| PageLaws.EndJoinExactly | vm.c:756-761 | the chunk enlarged is at offset `at` exactly if that is the last of the list and free |
| PageLaws.JoinEnlarges | vm.c:758-760 | enlarging adds the size of the new page to the size of that chunk, in 32 bits, and marks the new page; no other byte, header or page changes |
| PageLaws.JoinedCoversNext | vm.c:758-760 | the chunk of an empty page, once joined, ends where the page behind it ends |
| PageManager.Manager.GetVictimPage | vm.c:314-333 | the walk from the last frame ends at the specified victim, with the clocks of the frames it moved to advanced, or runs off the list |
| PageManager.Manager.MovePageToSwap | vm.c:335-379 | the victim goes whole to the first free slot and its frame is freed; crashes exactly if there is no victim, and fails exactly if there is no free slot, changing nothing but the clocks of the frames passed |
| PageManager.Manager.GetFreePage | vm.c:430-459 | claims a free frame, after at most one eviction, with frames and slots together one less; crashes exactly if no frame is free and there is no victim, and fails exactly if frames and slots are full, changing nothing but those clocks |
| PageManager.Manager.ReserveAnotherPage | vm.c:767-789 | performs the specified growth, with one frame or slot less; crashes exactly if there is no victim or the specified load faults, and fails exactly if frames and slots are full, changing nothing but those clocks |
| PageManager.Manager.GetFreeElement | vm.c:793-860 | terminates; NULL only with frames and slots full; without a crash, free frames plus free slots go down by exactly one per retry; a process whose placement is ready crashes only with all frames its own, and else is in order afterwards, with a page more per retry |

## Left out

- FileSystem.ReadWord: names of 24 or more characters, which overrun the name buffer in the source, are not modelled.
- FileSystem.Disk.NavRound: the same.
- FileSystem.Disk.NavPath: the same.
- FileSystem.Disk.Make: the same, and paths with "." or ".." in them, which the kernel resolves.
- FileSystem.Disk.ReadDir: the same as NavPath, and paths of more than 10000 components, for which readdir goes on with an inode that was never filled in.
- PageLoading.LoadIsSafe: `LoadCrashes` is not its full converse: between the two lie placements with page m-1, or with the frame before the last held by an early page, for which no condition simpler than the loop itself was found.
- PageManager.Manager.JoinFreeSpace: whether the chunk at the end of a list that leaves its page is free is left open, in `join`.
- PageManager.Manager.GetFreeElement: whether a page has a chunk of the right size is left open, since chunks that continue over several pages are not modelled.
- Carving.CreateSpace: the padding of a new header, and two of its fields that the source does not initialise, are left as they were; the part in this page of a header that is not wholly in it is not written.
- Blocks.CarveStartsRight: pages that are not tiled are covered only while they have only been allocated from (`AllocationsStartRight`); else a chunk can record an end behind the next header, and a split of it can write over that header.
- Frames.Victim: `swapclock` is a natural number, without the range of a char.
- LinkedQueue.Queue: nodes refer to threads by number, and the priorities or times of creation are passed in.
- Reading and writing of file contents, removal, attributes, permissions, timestamps and the indirect pointer: the source has only stubs for most of them.
- Errors returned by block reads and writes.
- Crash safety of `sfs_init`: the magic number is written before the maps and the root (filesystem/src/sfs.c:399-404), so crash claims start from a formatted disk.
- Coalescing of chunks in `removeSpace`, byte counts of the allocator, shared and OS memory.
- Swap-in (`findPageInSwap`), which is switched off (vm.h:19), and the other strategy for victims.
- `mprotect`, signal handling, `ucontext` and timers, other than as indivisible steps.
- Return values of threads, `my_pthread_mutex_destroy`, the release of memory in join (my_pthread.c:243-245), and a null thread argument of create.

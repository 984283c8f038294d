# Verified models of the systems components

This project models the parts of the repository whose correctness is least obvious from one
function body, and proves what they promise. Each part is a set of modules:

- **Allocator** (`AllocBlocks`, `AllocLinks`, `Alloc`; `malloc/alloc.c`). `Alloc.Heap` is the heap as
  a sequence of cells, with headers of 32 bytes (size, free flag, next and previous link at their
  offsets) and footers of 8, and its methods do the stores of the C code. A ghost sequence of blocks
  says what the cells mean; `AllocBlocks` says what each call makes of that sequence and proves
  what every run of calls keeps.
- **Monitors** (`Barrier`, `Queue`, `CrackerRounds`, `Counting`; `barrier.c`, `queue.c`, `cracker2.c`).
  Each section between taking a mutex and giving it up or going to sleep is one step of a step
  system over any number of threads. A class with the C variables performs every step, and the
  theorems are about every reachable state.
- **Graph algorithms** (`DrmGraph`, `Drm`; `libdrm.c`, and `MakeGraph`, `MakeCycle`, `MakeRun`, `Parmake`,
  `MakeWorkers`, `MakeFailures`, `MakeSchedule`, `MakeAborts`; `parmake.c`). Two depth-first searches,
  the resource graph they guard, and the dependency-ordered scheduler, with one worker down to the
  loops and with any number of workers as a step system.
- **Virtual memory** (`MmuMemory`, `Mmu`; `mmu.c`). A pointer to a page table entry is the frame of its
  table and an index. The ghost field `flat` is what every process has written, and the unit has to
  agree with it through faults, evictions, process switches and TLB drops.
- **File contents** (`MinixfsContents`, `Minixfs`; `minixfs.c`). A file is one flat sequence of bytes,
  and the three copy paths of reading and writing refine it.
- **Search arithmetic** (`CrackerSearch`; `cracker1.c`, `cracker2.c`). Lower-case words numbered in
  dictionary order.
- **Supporting structures** (`Vector`, `SString`, `Scheduler`, `ParReduce`, `Listing`).

Integers are unbounded except where a width matters (`MmuMemory.MasksAreDivisions`). A loop over a
vector handed out by the graph library goes through its members in an unknown order. What the
outside world decides (whether `sbrk` succeeds, which page the kernel evicts and whether it has a
frame, whether the disk has a free block, when files were modified and what commands return) is left
open, so that the theorems hold for every choice, and where a call can fail the theorems say which of
these choices makes it fail.

Some promises turned out to depend on a condition, and the condition is part of what is proved:

- A rule is pulled once by parmake's single worker exactly when no goal without dependencies can be
  reached from an earlier goal (`Parmake.Make.Build`); `Parmake.LeafGoalTwice` is an input where it is
  not.
- The assertions at `parallel_make/parmake.c:126` and `:142` hold in every run exactly when there is at
  most one worker, or no needed rule depends on two rules or on a leaf that is on the queue twice
  (`MakeAborts.AbortsExactly`). Line 142 always holds. `MakeAborts.SecondWorkerAborts` has rules and
  two workers for which line 126 fails.
- Dropping cyclic goals leaves exactly the others if and only if at most one goal has a cycle
  (`MakeCycle.DropExact`).
- The inode size after a write is right exactly for appends (`MinixfsContents.SizeExact`).
- A substitution whose target does not occur fails properly unless the string ends in the middle of
  the target; then a NULL pointer is followed (`SString.SString.Substitute`).
- No thread leaves the barrier before all have entered it, exactly in the runs in which no thread
  returns from the wait of line 35 while `count` and `times_used` are both `n_threads`
  (`Barrier.OnTimeExactly`). A spurious wakeup at line 35 can bring that about
  (`Barrier.SpuriousWakeupBreaksTheBarrier`), and nothing else: spurious wakeups at line 44 do no harm
  (`Barrier.BroadcastsSuffice`). The queue and the cracker stand spurious wakeups anywhere.
- Adding a process number that is in use leaves the TLB right exactly if the process is not the
  current one or the TLB is empty (`Mmu.AddedAgain`).

## Model

| member | source | states |
|---|---|---|
| AllocBlocks.FirstFit | malloc/alloc.c:91-99 | the lowest-addressed free block that is large enough, or none if there is none |
| AllocBlocks.Rounded | malloc/alloc.c:86-89 | at least the request, at most 15 more, and always 8 mod 16 |
| AllocBlocks.TilesAt | malloc/alloc.c:85-170 | every block lies in the heap, its size is 8 mod 16, and its distance from the start of the heap is a multiple of 16 |
| AllocLinks.Splice | malloc/alloc.c:118-286 | replacing part of the heap and relinking its two neighbours leaves a doubly linked, address-ordered list of exactly the free blocks |
| AllocBlocks.MallocWellFormed | malloc/alloc.c:83-173 | after malloc the blocks still tile the heap, sizes are 8 mod 16 and no two neighbours are free |
| AllocBlocks.FreeWellFormed | malloc/alloc.c:191-288 | the same for free, with its four ways to merge |
| AllocBlocks.MallocLive | malloc/alloc.c:83-173 | malloc adds exactly one live block, 16-aligned, at least the request and below request + 15 + 1064, and takes none away |
| AllocBlocks.FreeLive | malloc/alloc.c:191-288 | free takes exactly the given block away |
| AllocBlocks.ReallocIsAllowed | malloc/alloc.c:335-356 | malloc inside realloc leaves the old block live, so freeing it is allowed |
| AllocBlocks.LiveDisjoint | malloc/alloc.c:83-173 | a live payload overlaps no other block, header or footer |
| AllocBlocks.MallocAnswers | malloc/alloc.c:83-173 | malloc fails if and only if the request is 0, or nothing fits and sbrk fails, and then nothing changes; else one block more is in use, cut from the lowest free block that fits or, only if none does, at the old end of the heap |
| AllocBlocks.LiveDetermines | malloc/alloc.c:191-288 | the blocks in use and the end of the heap determine all blocks |
| AllocBlocks.RunWellFormed | malloc/alloc.c:83-356 | tiling and coalescing hold after every run of malloc, calloc, realloc and free |
| AllocBlocks.FreedHeapIsOneBlock | malloc/alloc.c:191-288 | once everything is freed, one free block spans all the heap ever grew to |
| Alloc.Heap.Malloc | malloc/alloc.c:83-173 | the cells, links and globals represent the blocks malloc should leave; no live payload changes; it fails if and only if the request is 0, or no free block fits and sbrk fails, and then changes nothing; else the block handed out is the one that belongs there |
| Alloc.Heap.FirstFitSearch | malloc/alloc.c:91-99 | the walk along the free list finds the first fit over all blocks |
| Alloc.Heap.Sbrk | malloc/alloc.c:101-104 | contiguous growth that keeps what is there, or failure without effect |
| Alloc.Heap.Extend | malloc/alloc.c:100-117 | a block of the size asked for at the end of the heap |
| Alloc.Heap.Split | malloc/alloc.c:118-158 | the block becomes one in use and one free, linked in its place |
| Alloc.Heap.Unlink | malloc/alloc.c:159-170 | the whole block is taken off the list |
| Alloc.Heap.Free | malloc/alloc.c:191-288 | the cells, links and globals represent the merged blocks, exactly the block given back is no longer in use, and no other live payload changes |
| Alloc.Heap.Coalesce | malloc/alloc.c:201-253 | merging happens exactly when a neighbour is free, and covers exactly the free neighbours |
| Alloc.Heap.Adjacent | malloc/alloc.c:201-209 | footer and header arithmetic finds the blocks on either side, where there are any |
| Alloc.Heap.MergePrevious | malloc/alloc.c:210-217 | the block before grows over this one and keeps its links |
| Alloc.Heap.MergeNext | malloc/alloc.c:218-239 | this block takes the place of the one behind it in the list |
| Alloc.Heap.MergeBoth | malloc/alloc.c:240-253 | the block before grows over both and takes over the forward link |
| Alloc.Heap.Insert | malloc/alloc.c:254-286 | the block is linked between its free neighbours in address order |
| Alloc.Heap.FindPlace | malloc/alloc.c:260-267 | where the walk for the place to insert stops |
| Alloc.Heap.Calloc | malloc/alloc.c:50-60 | succeeds and fails as malloc(num * size) does, and the payload is zero |
| Alloc.Heap.Realloc | malloc/alloc.c:335-356 | fails if and only if malloc of the size would, and then changes nothing; else the old block is exchanged for a new one where it belongs; contents agree up to the lesser of old capacity and new size |
| Alloc.Heap.Exchange | malloc/alloc.c:344-356 | the same for a block in use and a size that is not 0 |
| Alloc.Heap.MallocCopy | malloc/alloc.c:344-354 | the new block holds what the old one held, and both are live |
| Barrier.ReachableInv | critical_concurrency/barrier.c:27-49 | the invariant of the two phases in every state reached without passing line 34 between two rounds |
| Barrier.OnTimeExactly | critical_concurrency/barrier.c:27-49 | in every run, whatever wakeups are spurious: nobody ever leaves a call before all have entered it if and only if nobody passes line 34 between two rounds |
| Barrier.BroadcastsSuffice | critical_concurrency/barrier.c:34-45 | nobody does so if there is no spurious wakeup at line 35 |
| Barrier.NobodyLeavesEarly | critical_concurrency/barrier.c:27-49 | no thread has left its k-th call before every thread has entered its k-th |
| Barrier.RoundsStayClose | critical_concurrency/barrier.c:27-49 | completed calls of two threads differ by at most one |
| Barrier.NeverAllAsleep | critical_concurrency/barrier.c:27-49 | the n threads are never all asleep, and one of them can run |
| Barrier.EveryCallCounts | critical_concurrency/barrier.c:27-49 | in every run, a thread has entered as often as it called barrier_wait, and returned as often, or once less while it is inside |
| Barrier.ReturnsExactly | critical_concurrency/barrier.c:27-49 | a thread that runs comes out of its call if and only if all threads have arrived at that call |
| Barrier.SleepersWait | critical_concurrency/barrier.c:34-45 | a thread asleep at line 44 waits for one that has not arrived at its call, one asleep at line 35 for one that has not entered it |
| Barrier.AllGetThrough | critical_concurrency/barrier.c:27-49 | when all threads have made k calls and none is on its way, all have returned from k |
| Barrier.SpuriousWakeupBreaksTheBarrier | critical_concurrency/barrier.c:34-36 | a run with one spurious wakeup in which a thread leaves too early |
| Barrier.Monitor.EnterSection | critical_concurrency/barrier.c:28-45 | performs the step of entering, and counts the call |
| Barrier.Monitor.ResumeDrain | critical_concurrency/barrier.c:34-45 | performs the step after the first wait |
| Barrier.Monitor.ArriveSection | critical_concurrency/barrier.c:38-46 | performs the arrival |
| Barrier.Monitor.ResumeGather | critical_concurrency/barrier.c:43-48 | performs the step after the second wait |
| Barrier.Monitor.LeaveSection | critical_concurrency/barrier.c:46-48 | performs the departure |
| Queue.RunInv | critical_concurrency/queue.c:65-105 | in every reachable state the values pushed are those pulled and then those queued |
| Queue.FirstInFirstOut | critical_concurrency/queue.c:65-105 | for every interleaving the values pulled are a prefix of those pushed, and the size limit holds |
| Queue.NoLostWakeup | critical_concurrency/queue.c:65-105 | a sleeping puller means empty, a sleeping pusher means full, so the two kinds never sleep together |
| Queue.EveryCallCounts | critical_concurrency/queue.c:65-105 | as often as a value was brought to queue_push, it was pulled, is queued, or its thread still waits; every call of queue_pull has taken one value, or still waits |
| Queue.ReturnsExactly | critical_concurrency/queue.c:65-105 | a thread that runs is through if and only if there is room, or something to take |
| Queue.Monitor.PushSection | critical_concurrency/queue.c:65-84 | the linked list holds the values with the new one at its end and the thread is out, or, exactly if it is full, the thread sleeps |
| Queue.Monitor.PullSection | critical_concurrency/queue.c:86-105 | the first value is unlinked and returned and the thread is out, or, exactly if there is none, the thread sleeps |
| CrackerRounds.ReachableInv | password_cracker/cracker2.c:34-183 | the invariant of a round in every reachable state |
| CrackerRounds.NobodyTakesTwo | password_cracker/cracker2.c:40-50 | no worker takes two units of push in one round |
| CrackerRounds.RoundIsComplete | password_cracker/cracker2.c:96-172 | when start goes on, each worker took one unit of the last password, totalcount is the number of hashes computed for it in the run, found says whether one of them hit, and unless one did all candidates were tried |
| CrackerRounds.HashesExactly | password_cracker/cracker2.c:75-83 | a worker computes its next hash if and only if none has hit since the password was handed out and it has candidates left |
| CrackerRounds.RoundsEnd | password_cracker/cracker2.c:40-172 | every step of a round but a spurious wakeup lowers a bound on the steps left, or ends the round |
| CrackerRounds.EveryoneLeaves | password_cracker/cracker2.c:40-50 | after end of file every worker that runs leaves |
| CrackerRounds.InfoIsStable | password_cracker/cracker2.c:52-106 | info does not change while a worker is between taking work and threadexit++ |
| CrackerRounds.NobodyIsStuck | password_cracker/cracker2.c:40-172 | while start waits, some worker can run and finds a unit, is at work, or finds that all have finished; after end of file every worker is gone or finds a unit |
| CrackerRounds.SleepHasCause | password_cracker/cracker2.c:41-163 | a worker sleeps at line 42 only if no unit is left, at line 104 only if not all have finished, and start only if not all have left |
| CrackerRounds.Cracker.TakeSection | password_cracker/cracker2.c:40-50 | performs the step of taking work |
| CrackerRounds.Cracker.ProbeSection | password_cracker/cracker2.c:75-83 | performs the step before a hash |
| CrackerRounds.Cracker.ResultSection | password_cracker/cracker2.c:84-95 | performs the step after a hash |
| CrackerRounds.Cracker.FinishSection | password_cracker/cracker2.c:97-110 | performs the report of a worker |
| CrackerRounds.Cracker.PassSection | password_cracker/cracker2.c:103-110 | performs the step at the second wait |
| CrackerRounds.Cracker.StartSection | password_cracker/cracker2.c:148-162 | performs the handing out of a password |
| CrackerRounds.Cracker.ResumeSection | password_cracker/cracker2.c:161-172 | performs the step of start after its wait |
| CrackerRounds.Cracker.EofSection | password_cracker/cracker2.c:141-145 | performs the step at end of file |
| DrmGraph.ForestPlusEdge | deadlock_demolition/libdrm.c:83-96 | an edge between two parts that are not connected closes no cycle |
| Drm.StackedCycle | deadlock_demolition/libdrm.c:16-18 | meeting a vertex of the current path again, not by the way one came, shows a cycle |
| Drm.Resources.Neighbors | deadlock_demolition/libdrm.c:20 | the vertices edges lead to, each once |
| Drm.Resources.Antineighbors | deadlock_demolition/libdrm.c:26 | the vertices edges come from, each once |
| Drm.Resources.IsCyclic | deadlock_demolition/libdrm.c:15-35 | a cycle is reported only if there is one; otherwise no edge but the one back leaves what was marked |
| Drm.Resources.SearchAll | deadlock_demolition/libdrm.c:21-31 | one of the two loops: all listed neighbours are searched, except the one come from |
| Drm.Resources.Init | deadlock_demolition/libdrm.c:36-47 | a new vertex without edges |
| Drm.Resources.Post | deadlock_demolition/libdrm.c:49-65 | succeeds exactly if the edge is there, and removes just that |
| Drm.Resources.Wait | deadlock_demolition/libdrm.c:67-100 | granted exactly if drm and thread were not connected; the graph stays a forest; a granted wait adds its edge and nothing else, a refused one no edge |
| Drm.Resources.Destroy | deadlock_demolition/libdrm.c:102-110 | the vertex goes with its edges |
| Drm.RefusedExactly | deadlock_demolition/libdrm.c:83-91 | the edge of a wait would close a cycle if and only if its ends were connected |
| Drm.HeldExactly | deadlock_demolition/libdrm.c:36-110 | after any calls the edges are exactly the waits that were granted and neither posted nor destroyed since |
| Drm.RunForest | deadlock_demolition/libdrm.c:36-110 | the graph stays a forest over every sequence of calls |
| MakeGraph.SortedIsAcyclic | parallel_make/parmake.c:246-265 | no cycle can be reached from what a finished search has listed |
| MakeCycle.Search.IsCyclic | parallel_make/parmake.c:246-265 | recurv is the current path; a cycle is reported only if one is reached; otherwise all reached rules are listed after what they depend on |
| MakeCycle.Search.HasCycle | parallel_make/parmake.c:183-192 | 1 if and only if a directed cycle can be reached from the goal |
| MakeCycle.Search.DropCyclic | parallel_make/parmake.c:182-196 | the goals at the places found are erased one after the other |
| MakeCycle.DropExact | parallel_make/parmake.c:193-196 | what is left is exactly the acyclic goals if and only if at most one goal is cyclic |
| Parmake.Make.Dfs | parallel_make/parmake.c:228-244 | marks what the vertex reaches as needed and pushes each new leaf once; a rule seen before is only pushed again if a leaf |
| Parmake.Make.SearchGoals | parallel_make/parmake.c:199-203 | exactly what the goals reach is needed; the queue holds the leaves, without repetition if and only if no leaf goal is reached from an earlier goal |
| Parmake.Make.ReadDependencies | parallel_make/parmake.c:129-145 | whether some dependency is not done, and else whether one failed; line 142 holds |
| Parmake.Make.RunCommands | parallel_make/parmake.c:266-274 | fails if and only if some command does, and is logged |
| Parmake.Make.Update | parallel_make/parmake.c:56-104 | commands are run if and only if the file is missing, or a dependency is missing or more than a second newer; it fails if and only if one of them does |
| Parmake.Make.Push | parallel_make/parmake.c:150-155 | a ready rule is pushed, as failed if a dependency failed, and only before "EOF" |
| Parmake.Make.Consider | parallel_make/parmake.c:116-155 | one dependent rule is looked at and the invariant of the run kept |
| Parmake.Make.Scan | parallel_make/parmake.c:109-160 | all dependents of the rule just done are looked at |
| Parmake.Make.Take | parallel_make/parmake.c:46-107 | the first rule of the queue is pulled, and its commands run only if it has not failed and all it depends on is satisfied |
| Parmake.Make.CountGoal | parallel_make/parmake.c:161-174 | goals are counted once each |
| Parmake.Make.Turn | parallel_make/parmake.c:44-176 | one turn of the worker keeps the invariant, and pushes nothing it has pulled before |
| Parmake.Make.Work | parallel_make/parmake.c:204-216 | the worker and the waiting main thread terminate with every goal counted and an empty queue |
| Parmake.Make.Build | parallel_make/parmake.c:197-218 | exactly what the goals reach is pulled, each after all it depends on; once each if and only if no leaf goal is reached from an earlier goal; commands are run exactly for rules that are out of date, whose dependencies are all satisfied and whose commands have not failed before; a rule fails if and only if its commands were run and one failed, or a dependency failed |
| Parmake.Make.MakeGoals | parallel_make/parmake.c:178-227 | the same for parmake as a whole, with at most one cyclic goal |
| Parmake.LeafGoalTwice | parallel_make/parmake.c:200-202 | goals for which a rule is pulled twice |
| MakeRun.ReadyToRun | parallel_make/parmake.c:54-58 | when commands run, everything the rule depends on is satisfied |
| MakeRun.AfterPull | parallel_make/parmake.c:51-107 | pulling and deciding a rule keeps the invariant |
| MakeRun.NotYetSatisfied | parallel_make/parmake.c:126 | the assertion holds with one worker |
| MakeRun.AfterPush | parallel_make/parmake.c:146-155 | pushing a ready rule keeps the invariant |
| MakeRun.AllPulled | parallel_make/parmake.c:43-177 | with an empty queue no needed rule was skipped |
| MakeWorkers.PulledAfterDependencies | parallel_make/parmake.c:43-176 | with any number of workers a pulled rule has all its dependencies failed or satisfied |
| MakeWorkers.NeverIdle | parallel_make/parmake.c:142 | the assertion holds with any number of workers |
| MakeWorkers.NothingSkipped | parallel_make/parmake.c:43-176 | with any number of workers, when all are back at an empty queue every needed rule was pulled |
| MakeFailures.FailuresHaveCauses | parallel_make/parmake.c:58-65 | with any number of workers a rule is satisfied only if its commands succeeded, fails only if commands of it or of something below it failed, and is failed if its commands only failed |
| MakeSchedule.Drive | parallel_make/parmake.c:43-176 | one worker alone can always go on, with commands that succeed, until the queue is empty or its head is a given rule |
| MakeSchedule.GoesLifted | parallel_make/parmake.c:43-176 | what one worker does does not depend on where another one waits |
| MakeAborts.NeverAborts | parallel_make/parmake.c:126-142 | with one worker, or if no needed rule is contended, no assertion fails in any run |
| MakeAborts.AbortsExactly | parallel_make/parmake.c:126-142 | some run fails an assertion if and only if there are two workers or more and a needed rule depends on two rules, or on a leaf that is on the queue twice |
| MakeAborts.SecondWorkerAborts | parallel_make/parmake.c:126 | for instance two workers and one rule with two dependencies |
| MmuMemory.MasksAreDivisions | ideal_indirection/mmu.c:34-39 | masks and shifts on 32 bits are divisions and remainders |
| MmuMemory.AddressParts | ideal_indirection/mmu.c:34-39 | directory index, table index and offset give back the address |
| MmuMemory.PartsAddress | ideal_indirection/mmu.c:34-39 | and every such triple is that of one address |
| MmuMemory.WalkOnce | ideal_indirection/mmu.c:43-54 | two pages of one or two processes never have the same entry |
| MmuMemory.PagesApart | ideal_indirection/mmu.c:58-65 | nor, while present, the same frame |
| MmuMemory.EvictKeeps | ideal_indirection/mmu.c:60 | an eviction keeps ownership, walks and every byte |
| MmuMemory.AddTableKeeps | ideal_indirection/mmu.c:45-52 | a new page table keeps them too |
| MmuMemory.LoadKeeps | ideal_indirection/mmu.c:58-66 | and so does bringing in a page |
| MmuMemory.StoreKeeps | ideal_indirection/mmu.c:136-144 | a store changes exactly the bytes stored |
| MmuMemory.WithoutKeeps | ideal_indirection/mmu.c:240-262 | taking away all frames of a process keeps the others' walks and bytes |
| Mmu.Mmu.AskKernelForFrame | ideal_indirection/mmu.c:47-60 | the frame is unused; tables stay, and evicted data is kept |
| Mmu.Mmu.SwitchTo | ideal_indirection/mmu.c:24-27 | after a switch every TLB entry is right for the new process |
| Mmu.Mmu.TlbAdd | ideal_indirection/mmu.c:55-56 | the entry is there afterwards, and entries stay what the walk gives, whatever is dropped |
| Mmu.Mmu.WalkTables | ideal_indirection/mmu.c:43-54 | the entry found is the one the page walk gives; a table that is there is used, and it fails only if the kernel gives no frame |
| Mmu.Mmu.PageFault | ideal_indirection/mmu.c:58-66 | the page is present afterwards and holds what was written to it, unless the kernel gives no frame |
| Mmu.Mmu.Locate | ideal_indirection/mmu.c:34-66 | hit or miss, the entry is that of the page walk, and present; it fails if and only if the kernel gives no frame, and asks for none if the page is there; misses and page faults are counted |
| Mmu.Mmu.CopyOut | ideal_indirection/mmu.c:68-75 | the bytes copied are those written last |
| Mmu.Mmu.CopyIn | ideal_indirection/mmu.c:136-144 | the flat memory changes in exactly the bytes copied |
| Mmu.Mmu.Read | ideal_indirection/mmu.c:18-80 | a permitted read returns the last bytes the process wrote there; nothing written changes; if the page is there and every segment permits it, it is done; it panics if and only if the kernel gives no frame |
| Mmu.Mmu.Write | ideal_indirection/mmu.c:82-149 | a permitted write changes exactly the bytes written, a refused one none; if the page is there and every segment permits it, it is done; it panics if and only if the kernel gives no frame |
| Mmu.Mmu.AddProcess | ideal_indirection/mmu.c:163-238 | a new process gets its directory, segments and testing pages, and no other notices |
| Mmu.Mmu.AddTestingPage | ideal_indirection/mmu.c:230-236 | an absent entry gets a frame, and no other entry changes |
| Mmu.AddedAgain | ideal_indirection/mmu.c:163-223 | for a process number in use: TLB entries stay right if and only if it is not the current process or there are none |
| Mmu.Mmu.AddTestingTable | ideal_indirection/mmu.c:220-237 | the first table with its two pages |
| Mmu.Mmu.ReturnFrames | ideal_indirection/mmu.c:243-261 | the loops give back exactly the frames and swap files of the process |
| Mmu.Mmu.RemoveProcess | ideal_indirection/mmu.c:240-270 | the process and what it wrote are gone, and no other notices |
| MinixfsContents.PatchMore | finding_filesystems/minixfs.c:189-192 | one more piece copied extends the range written, and touches no other file |
| MinixfsContents.PatchedFiles | finding_filesystems/minixfs.c:179-269 | patched blocks are a written file |
| MinixfsContents.SizeExact | finding_filesystems/minixfs.c:269 | the new size is right if and only if the write was an append or empty |
| MinixfsContents.AppendsConcatenate | finding_filesystems/minixfs.c:160-273 | any run of appends makes the file the concatenation |
| Minixfs.FileSystem.BlockRange | finding_filesystems/minixfs.c:167-173 | first block, shift and number of blocks of a range |
| Minixfs.FileSystem.ReadPiece | finding_filesystems/minixfs.c:304-313 | one piece of a block is copied to where the reading has got to |
| Minixfs.FileSystem.ReadBlocks | finding_filesystems/minixfs.c:314-324 | so are the blocks behind it |
| Minixfs.FileSystem.ReadDirect | finding_filesystems/minixfs.c:303-324 | the direct path returns the bytes of the range |
| Minixfs.FileSystem.ReadAcross | finding_filesystems/minixfs.c:326-360 | so does the path from direct to indirect blocks |
| Minixfs.FileSystem.ReadIndirect | finding_filesystems/minixfs.c:361-386 | and the indirect path |
| Minixfs.FileSystem.ReadRange | finding_filesystems/minixfs.c:294-389 | all bytes asked for are copied, and count reaches 0 |
| Minixfs.FileSystem.Read | finding_filesystems/minixfs.c:275-393 | the result is the slice of the file from off on, cut off at its size |
| Minixfs.FileSystem.MinBlockcount | finding_filesystems/minixfs.c:174-178 | the file has the blocks asked for, or there was no free block or no file can have so many; no byte of any file changes |
| Minixfs.FileSystem.CreateInode | finding_filesystems/minixfs.c:163-166 | a new, empty file |
| Minixfs.FileSystem.WritePiece | finding_filesystems/minixfs.c:183-192 | one piece is written where the writing has got to |
| Minixfs.FileSystem.WriteBlocks | finding_filesystems/minixfs.c:193-203 | so are the blocks behind it |
| Minixfs.FileSystem.WriteDirect | finding_filesystems/minixfs.c:182-203 | the direct path writes the range and nothing else |
| Minixfs.FileSystem.WriteAcross | finding_filesystems/minixfs.c:205-239 | so does the path from direct to indirect blocks |
| Minixfs.FileSystem.WriteIndirect | finding_filesystems/minixfs.c:240-265 | and the indirect path |
| Minixfs.FileSystem.WriteRange | finding_filesystems/minixfs.c:180-269 | the file is written in exactly the range, and count reaches 0 |
| Minixfs.FileSystem.WriteFile | finding_filesystems/minixfs.c:167-272 | the same with the blocks provided first, or nothing written |
| Minixfs.FileSystem.Write | finding_filesystems/minixfs.c:160-273 | the bytes [off, off+count) of the file and no others change, no other file changes, and the size grows by count; it fails if and only if an inode or a block is missing, or the range ends behind all blocks a file can have |
| CrackerSearch.RankBounds | password_cracker/cracker2.c:61-71 | ranks of words of n letters are below 26 to the n |
| CrackerSearch.RankOrder | password_cracker/cracker1.c:70-76 | ranks follow dictionary order, and are different for different words |
| CrackerSearch.Searcher.Test | password_cracker/cracker1.c:59-78 | 0 exactly if a word hashes to the target; pwd holds the one of lowest rank and numhash has grown by its rank + 1, or by the number of all words |
| CrackerSearch.FirstInDictionary | password_cracker/cracker1.c:59-78 | the word found comes before every other with that hash |
| CrackerSearch.NotInDictionary | password_cracker/cracker1.c:77 | if none is found, no word has the hash |
| CrackerSearch.FirstCandidate | password_cracker/cracker2.c:61-71 | the letters set are the word of rank startidx, and every digit is below 26 |
| CrackerSearch.PowerLoop | password_cracker/cracker2.c:63-66 | the divisor is the power of 26 |
| CrackerSearch.TopDigit | password_cracker/cracker2.c:67-69 | the digit is below 26 if and only if the number is below the number of words |
| Vector.GetNewCapacity | vector/vector.c:76-87 | the smallest power of two that is enough |
| Vector.Vector.constructor | vector/vector.c:89-105 | an empty vector |
| Vector.Vector.Resize | vector/vector.c:130-177 | cut off, or filled up with the default |
| Vector.Vector.Reserve | vector/vector.c:191-207 | room for n, with the elements as they were |
| Vector.Vector.Set | vector/vector.c:216-222 | one element replaced |
| Vector.Vector.Get | vector/vector.c:224-231 | the element, or NULL beyond the end |
| Vector.Vector.PushBack | vector/vector.c:245-256 | the element at the end |
| Vector.Vector.PopBack | vector/vector.c:258-264 | the last element gone |
| Vector.Vector.Insert | vector/vector.c:266-288 | the element put before the position, or at the end |
| Vector.Vector.CopyInserting | vector/vector.c:273-283 | the copy holds the element in its place |
| Vector.Vector.Erase | vector/vector.c:290-309 | the element at the position gone |
| Vector.Vector.Clear | vector/vector.c:311-318 | no elements |
| SString.PiecesUnique | vector/sstring.c:52-69 | pieces without the delimiter are determined by what they join to |
| SString.SString.constructor | vector/sstring.c:20-29 | the characters up to the first NUL |
| SString.SString.ToCstr | vector/sstring.c:31-41 | the text with a NUL behind it |
| SString.SString.Append | vector/sstring.c:43-50 | the text of the other behind this one, and the new length |
| SString.SString.Split | vector/sstring.c:52-69 | no piece holds the delimiter, and joined with it they are the string |
| SString.SString.Slice | vector/sstring.c:104-117 | the characters from start to end |
| SString.SString.Matches | vector/sstring.c:79-85 | whether the target occurs at a place, or is cut off by the end of the string |
| SString.SString.Find | vector/sstring.c:74-90 | the first occurrence from offset on |
| SString.SString.Substitute | vector/sstring.c:71-102 | replaces exactly the first occurrence if there is one; otherwise changes nothing, and crashes exactly if the end of the string cuts the target off |
| SString.SString.Replace | vector/sstring.c:94-99 | erasing and inserting replace the occurrence |
| Scheduler.ComparerIsOrder | savvy_scheduler/libscheduler.c:83-137 | every comparer is a total order up to ties |
| Scheduler.MinimalIsPolicy | savvy_scheduler/libscheduler.c:83-137 | the minimal jobs are those of earliest arrival, least priority number, remaining or running time or sequence number, as the policy has it, ties being broken by arrival |
| Scheduler.Scheduler.constructor | savvy_scheduler/libscheduler.c:39-77 | an empty queue and no jobs finished |
| Scheduler.Scheduler.Poll | savvy_scheduler/libscheduler.c:172 | a minimal job, taken out of the queue |
| Scheduler.Scheduler.NewJob | savvy_scheduler/libscheduler.c:141-156 | the job waits behind the others with a fresh sequence number, which is a step of a round robin run |
| Scheduler.Scheduler.QuantumExpired | savvy_scheduler/libscheduler.c:158-177 | without preemption the job goes on; otherwise the next is minimal among those waiting and the one evicted, and under RR the one that waited longest, which is a step of a round robin run |
| Scheduler.Scheduler.TakeNext | savvy_scheduler/libscheduler.c:172-176 | a job that goes first is taken out and, if it has not run yet, started |
| Scheduler.Scheduler.JobFinished | savvy_scheduler/libscheduler.c:179-187 | total turnaround less total waiting is the time the finished jobs needed |
| Scheduler.FirstIsMinimal | savvy_scheduler/libscheduler.c:119-127 | under RR only the job offered first is minimal |
| Scheduler.RoundRobinIsFair | savvy_scheduler/libscheduler.c:158-177 | over every run under RR a waiting job is passed over once for each job ahead of it, and then returned |
| ParReduce.ThreadLengths | teaching_threads/par_reduce.c:44-50 | the chunk lengths add up to the list and differ by at most one |
| ParReduce.StartR | teaching_threads/par_reduce.c:22-32 | a thread computes the left fold of its chunk |
| ParReduce.RunThreads | teaching_threads/par_reduce.c:51-70 | the chunks follow one another through the list, each with its own result |
| ParReduce.Combine | teaching_threads/par_reduce.c:71-75 | the results of the chunks reduce to the fold of the list |
| ParReduce.TakeIn | teaching_threads/par_reduce.c:73 | taking in one result extends the fold over one chunk |
| ParReduce.Reduce | teaching_threads/par_reduce.c:34-76 | equals the sequential left fold if the reducer is associative and the base case a right identity, or if there are fewer elements than threads |

## Left out

- Mmu.Mmu.AddProcess: requires a process number that is not in use; for one that is, the code replaces its directory without flushing the TLB, and `Mmu.AddedAgain` says when that goes wrong.
- Mmu.Mmu.Read: promises nothing about bytes the process never wrote, whose contents the kernel is free to choose; the buffer it fills is a separate one.
- Minixfs.FileSystem.Read: requires the range to lie within the blocks of the file, which the size in the inode does not guarantee after an overwrite.
- Minixfs.FileSystem.Write: the modification and access times are not modelled, and a negative offset is not either.
- Parmake.Make.MakeGoals: with more than one cyclic goal only what is erased is modelled (`MakeCycle.DropExact`), not the run that follows.
- Parmake.Make.Build: a rule that is called "EOF" is not modelled, and the files are looked at as they are when a rule is pulled.
- MakeWorkers.NothingSkipped: with several workers a rule may be pulled more than once, and no bound is given; the unprotected goal list at lines 161-174 is not part of the step system.
- Barrier.OnTimeExactly: assumes exactly n_threads callers.
- Barrier.ReturnsExactly: like SleepersWait, AllGetThrough and NobodyLeavesEarly it speaks of runs in which nobody passes line 34 between two rounds; `Barrier.OnTimeExactly` shows that the others go wrong.
- MakeAborts.AbortsExactly: the order of the needed rules that it takes exists unless a rule with a cycle was kept, which needs two cyclic goals (`MakeCycle.DropExact`).
- Drm.Resources.Wait: line 92 locks the mutex of the drm while the global one is held; it is taken to have no effect on the graph, and no progress is claimed.
- SString.SString.Append: a string appended to itself is required away, because the loop then chases its own end.
- Queue.Monitor.constructor: starts from an empty list, although queue_create leaves head and tail unset.
- CrackerSearch.FirstCandidate: the start of the range is a parameter, because getSubrange is not in the repository; incrementString is not modelled.
- In the allocator a size or pointer field occupies one cell at its real offset, and payload bytes one cell each; overflow of sizes, foreign calls of sbrk and the diagnostic exit at lines 124-127 are not modelled.
- Directories, tables and pages of the MMU are kept in separate maps by frame, so reading a table as data is not expressible; kernel frames, the TLB store and find_segment appear by contract only.
- Indirect blocks of the file system are likewise kept apart from data blocks; path lookup, directories, permissions and the virtual file are left out.
- The priority queue of the scheduler is a sequence from which some minimal job is taken; averages are not modelled.
- Freed memory, errno, printing and timing are left out everywhere.
- Shell, mapreduce, chatroom, networking, utilities, mini_memcheck, semamore and the other assignments are left out: they are input and output, or easy.

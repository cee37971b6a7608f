# Models of the algorithms and protocols in the APUE exercises

Most programs of the repository try out one system call. Eight of them hold an algorithm or
a protocol, and those are modelled here and proved correct.

* **Parallel heap sort** (`11.threads/09_barrier.c`). `HeapSort.dfy` states what each routine
  computes as a function of its slice, proves the result sorted, and has the in-place
  routines, which are proved to compute exactly that and to touch nothing outside their
  slice. `HeapCost.dfy` bounds the exchanges and says for which lengths the index arithmetic
  fits an `int`. `Merge.dfy` is the k-way merge for any number of slices; the method at its
  end works on the flat arrays. `ParallelSort.dfy` is the whole program as threads that take
  turns in any order: every schedule gives the same output, every run takes the same
  number of turns, and it is known beforehand which arrays are read past their end.
* **Asynchronous copy** (`14.advio/05_rot13.c`). `AioCopy.dfy` is the slot machine together
  with a kernel that completes requests in any order and at any time; the program as
  written translates nothing, so it is a copy. `AioProgram.dfy` is `main` as a program over its
  variables, with a kernel that chooses freely.
* **Directory walk** (`04.filedir/07_ftw.c`). `TreeWalk.dfy` has the recursion over the one
  growing path buffer and proves its callbacks to be the preorder of the tree.
* **Reference-counted hash table** (`11.threads/05_mutex.c`). `FooRegistry.dfy` is what the
  table stands for: the live objects, newest first. `FooTable.dfy` is the table with its
  chains in the heap; `FooProtocol.dfy` interleaves threads that use it.
* **Work pool** (`11.threads/06_condition_variables.c`). `WorkPool.dfy` is a state machine with
  one step for each test and assignment and each call of `malloc`, `free` or a mutex or condition
  function, for any number of producers, consumers and messages, with spurious wakeups.
* **Job queue** (`11.threads/08_rwlock.c`). `JobQueue.dfy` has the doubly linked list between
  its sentinels.
* **Transfer loops** (`14.advio/07_mmap_io.c`, `14.advio/06_readn.c`). `MmapCopy.dfy` and
  `Transfer.dfy`.

`Sequences.dfy` holds what several of these share. A method whose source works in place or
step by step is tied by its postcondition to the function that the lemmas are about.

## How the models read the source

* Line 78 of `09_barrier.c` reads the element at a cursor before line 79 checks that the cursor
  is inside its slice. Behind the end of any slice but the last comes another slice; behind
  the last one the array ends. The models keep the order of the two lines and record a read
  past the end: `Merge.FindSmallest` and `Merge.Merge` in `inside`, the threads in `outside`.
  Such a read happens as soon as the last slice is used up while something is left to output:
  `Merge.ReadsInsideExactly` and `ParallelSort.ReadsPastEndExactly` prove that a run stays
  inside the array exactly if the last slice held, before the sorting, a number that no
  other exceeds, or one that is never chosen. `Merge.SmallestReadPastEnd` is the smallest array
  on which it does not. What the read yields does not matter for the slice that is chosen.
* merge never chooses a slice if every element left is `RAND_MAX` or more, because line 78
  compares with `<`; it then indexes its cursors with `INT_MAX`. `Merge.MergeCompletes` and
  `ParallelSort.RunCrashesExactlyAtMax` say when that happens: exactly if some number is not
  below `RAND_MAX`. The program fills its array with `random() % NUMBER_COUNT`, which is.
* A worker's turn in `ParallelSort.dfy` is one pass through the loop it is in, with at most
  one exchange. The list of slices is the flat array cut into pieces; `TurnOnFlatArray` shows
  that each turn is one exchange in the flat array that changes the worker's own piece only,
  and `ThreadFunction` the same of a worker as a whole.
* The kernel of `AioCopy.dfy` serves a file whose size does not change: a read returns what is
  asked for or what is left, a write takes everything, and a write behind the end of the
  file fills the gap with zeros. `aio_suspend` returns once some listed request is done.
  `AioCopy.WrongCountsAreNoticed` is about a kernel that reports other counts: the program
  takes its error exits exactly at a short write and at a short read of any block but the
  last; a short read of the last block goes unnoticed, because `last` switches the check of
  line 76 off.
* The file system of `TreeWalk.dfy` says for each path what `lstat`, `opendir` and `readdir`
  report there; the walk asks it for the string that its buffer holds at that moment. What
  is below the starting path is a finite tree, because links are not followed. A name has
  at most `NAME_MAX` bytes and no terminator.
  Line 125 of `07_ftw.c` falls through, so `ndir` counts the files as well: `Walk.MyFtw` states
  its exact value, the directories plus all files, and that this is the number of directories
  exactly if there are no files of any kind; `DirCountOfOneFile` is a tree for which it is not.
  An unreadable directory is reported a second time, with a slash behind its path.
* The channel of `Transfer.dfy` has a list of answers, one for each call, that says how much
  the call transfers at most: any pattern of failures, stops and short counts is one. The
  kernel of `AioProgram.dfy` has a list of the requests that it completes at each moment.
* In `05_mutex.c` the code between a lock and its unlock is one step, and what a thread
  does before and after it is a step of its own. Threads release or hand over only what
  they hold. Addresses may be used again after `free`.
* In `06_condition_variables.c` a message is its address, which may be used again after
  `free`; the log of events says which pushes have been followed by their take and their free.
* `job_queue_init` of `08_rwlock.c` never stores its sentinels. The queue here starts from
  sentinels that are stored. `job_find` returns without its unlock; only what it finds is
  modelled.

## Model

| member | source | states |
|---|---|---|
| HeapSort.SiftRepairs | 11.threads/09_barrier.c:36-51 | node_adjust_down turns a heap that is broken at its start node only into a heap |
| HeapSort.LargestIsFirst | 11.threads/09_barrier.c:39-43 | the child that node_adjust_down descends to: the first largest of the node, its left and its right child |
| HeapSort.SiftPermutes | 11.threads/09_barrier.c:36-51 | it permutes the array and leaves everything behind the prefix as it was |
| HeapSort.SiftDraws | 11.threads/09_barrier.c:36-51 | what ends at a position of the prefix came from a position of the prefix |
| HeapSort.BuildMakesHeap | 11.threads/09_barrier.c:27-34 | once the array is a heap from some node on, the rest of build_heap makes all of it a heap |
| HeapSort.BuildHeapMakesHeap | 11.threads/09_barrier.c:27-34 | build_heap makes a heap of any array, with the same elements |
| HeapSort.ExtractStep | 11.threads/09_barrier.c:19-24 | a pass of heap_sort keeps a heap in front of a sorted rest that nothing in the heap exceeds |
| HeapSort.SortIsSort | 11.threads/09_barrier.c:13-25 | heap_sort yields the one sorted permutation of its input |
| HeapSort.Exchange | 11.threads/09_barrier.c:20-22 | the three assignments exchange two elements of the slice and touch no other |
| HeapSort.NodeAdjustDown | 11.threads/09_barrier.c:36-51 | in place: the sift of the slice, with the number of exchanges and the last node, and nothing outside the slice changed |
| HeapSort.BuildHeap | 11.threads/09_barrier.c:27-34 | in place: the heap of the slice, with the number of exchanges, and nothing outside changed |
| HeapSort.HeapSort | 11.threads/09_barrier.c:13-25 | in place: the sorted slice, with the number of exchanges, and nothing outside changed |
| HeapCost.LogRatioIsLog | 11.threads/09_barrier.c:36-51 | the bound used below is floor(log2(n / k)) |
| HeapCost.SiftCost | 11.threads/09_barrier.c:36-51 | one sift from node i exchanges at most floor(log2(n / (i + 1))) times |
| HeapCost.SiftStopsBelow | 11.threads/09_barrier.c:36-51 | the value of the start node ends where the sift stops, exactly as many levels down as there were exchanges, and exceeds its children there |
| HeapCost.HeightsSum | 11.threads/09_barrier.c:27-34 | the heights of the nodes of a heap add up to less than its size |
| HeapCost.BuildCost | 11.threads/09_barrier.c:27-34 | build_heap exchanges fewer times than the array has elements |
| HeapCost.SortCost | 11.threads/09_barrier.c:13-25 | heap_sort exchanges at most (n - 1) + (n - 1) * (1 + floor(log2 n)) times, root exchanges included |
| HeapCost.IndexFitsExactly | 11.threads/09_barrier.c:39 | started where build_heap and heap_sort start it, index * 2 + 2 never exceeds INT_MAX, whatever the contents, exactly for lengths up to 2^30 - 1 |
| Merge.ScanFindsFirstSmallest | 11.threads/09_barrier.c:75-83 | the inner loop finds the smallest element at a cursor and the lowest slice that has it |
| Merge.PickIsFirst | 11.threads/09_barrier.c:75-85 | on sorted slices the element it picks comes before all others that are left, by value, slice and position |
| Merge.CompleteExactlyBelowMax | 11.threads/09_barrier.c:74-86 | from any cursors merge finds a slice for each output exactly if all that is left is below RAND_MAX |
| Merge.CompletePermutes | 11.threads/09_barrier.c:74-86 | a complete merge outputs each element that was left exactly once |
| Merge.OutputIsStable | 11.threads/09_barrier.c:74-86 | the positions it copies from are in stable order, and each was left before |
| Merge.MergeCompletes | 11.threads/09_barrier.c:67-87 | the whole merge runs to its end exactly if every number is below RAND_MAX |
| Merge.RemaindersComplete | 11.threads/09_barrier.c:103-105 | the program's own numbers, remainders by 80000000, complete the merge |
| Merge.MergeIsStableSort | 11.threads/09_barrier.c:67-87 | on sorted slices the output is the stable sort of the input |
| Merge.InitialCursors | 11.threads/09_barrier.c:70-73 | the cursors begin at the starts of their slices |
| Merge.TurnReadsInsideExactly | 11.threads/09_barrier.c:77-79 | the reads of one turn are inside the array exactly if the last slice is not used up |
| Merge.ReadsInsideExactly | 11.threads/09_barrier.c:74-86 | from any cursors merge of sorted slices reads nothing past the end of the array exactly if nothing is left or the last element of the last slice is left and is never chosen or exceeded by nothing that is left |
| Merge.MergeReadsInsideExactly | 11.threads/09_barrier.c:67-87 | for the whole merge: exactly if there is nothing to merge or the last slice holds a largest number |
| Merge.SmallestReadPastEnd | 11.threads/09_barrier.c:77-79 | merging [5] and [3] reads past the end of the array, merging [3] and [5] does not |
| Merge.FindSmallest | 11.threads/09_barrier.c:75-83 | the inner loop on the flat arrays, with the read of line 78 in front of the check of line 79, computes the scan of the slices and tells whether each read was of an element of the array |
| Merge.TakeSmallest | 11.threads/09_barrier.c:75-85 | one turn writes the scanned number to its place in the output, moves the one cursor, and tells whether it read inside the array |
| Merge.Merge | 11.threads/09_barrier.c:67-87 | the loops on the flat arrays write exactly the merged output; if they end, every cursor is at the end of its slice; they tell exactly whether some read was past the end of the array |
| ParallelSort.TurnProgress | 11.threads/09_barrier.c:13-51 | each turn of a worker permutes its slice, keeps what heap_sort will make of it, and is one of the turns counted |
| ParallelSort.SortSwapsAreExchanges | 11.threads/09_barrier.c:13-51 | heap_sort's count of exchanges is the number of the worker's turns that exchange two elements, and the number of its other turns depends on the length alone |
| ParallelSort.ThreadFunction | 11.threads/09_barrier.c:60-65 | a worker on the shared array sorts its own slice and leaves every other slice alone |
| ParallelSort.ExchangeInSlice | 11.threads/09_barrier.c:46-48 | an exchange of two elements of a slice in the shared array is that exchange in the slice and leaves the other slices alone |
| ParallelSort.TurnOnFlatArray | 11.threads/09_barrier.c:13-51 | each turn of a worker is one exchange in the shared array that leaves its slice as the turn does and the other slices alone |
| ParallelSort.WorkerKeepsInv | 11.threads/09_barrier.c:60-65 | whatever a worker does next, every slice is still on its way to its sorted form and the barrier's count is right; behind the barrier no worker writes |
| ParallelSort.MainKeepsInv | 11.threads/09_barrier.c:102-115 | the same for main's creation of threads, its wait and each turn of merge |
| ParallelSort.MergeSeesSortedSlices | 11.threads/09_barrier.c:60-65 | in every run, once merge has started all slices are sorted and no later turn of anyone writes to one |
| ParallelSort.ScheduleDoesNotMatter | 11.threads/09_barrier.c:102-115 | in every run that finishes, the output is what heap_sort alone makes of all the numbers |
| ParallelSort.FlatArrayIsSorted | 11.threads/09_barrier.c:102-115 | the same for the flat array of K slices of length L |
| ParallelSort.RunCrashesExactlyAtMax | 11.threads/09_barrier.c:74-86 | no run takes merge out of its arrays if every number is below RAND_MAX, and otherwise no run finishes |
| ParallelSort.RemaindersDoNotCrash | 11.threads/09_barrier.c:103-105 | no schedule of the program with its own numbers takes merge out of its arrays |
| ParallelSort.ReadsPastEndExactly | 11.threads/09_barrier.c:77-79 | whatever the schedule, a run whose merge is over has read past the end of the array exactly if there was something to merge and the last slice held no largest number at the start; no other run has |
| ParallelSort.FlatArrayReadsPastEndExactly | 11.threads/09_barrier.c:77-79 | for the flat array: exactly if none of its last L numbers is a largest of all |
| ParallelSort.SomeoneIsEnabled | 11.threads/09_barrier.c:107-115 | the barrier never leaves everyone waiting: while turns are left somebody can take one |
| ParallelSort.OnlyTheBarrierBlocks | 11.threads/09_barrier.c:107-115 | in every run each worker that has been created and is not done, and main, can take the next turn, unless it waits at the barrier while another has not arrived |
| ParallelSort.MainTakesAllItsTurns | 11.threads/09_barrier.c:110-115 | main creates the workers one by one, waits, and then outputs one number in each turn |
| ParallelSort.StuckExactlyAtTheEnd | 11.threads/09_barrier.c:102-115 | when nobody can take a turn main has finished if every number is below RAND_MAX, and else has left its arrays |
| ParallelSort.EveryRunHasTheSameLength | 11.threads/09_barrier.c:102-115 | every schedule takes the same number of turns, after which main has finished and nobody can move |
| AioCopy.WriteAtReads | 14.advio/05_rot13.c:84-90 | a write changes its own range, keeps the rest and extends the file to its end, with zeros in a gap |
| AioCopy.WriteLandsOnlyItsBlock | 14.advio/05_rot13.c:84-90 | writing a block puts it into the output and undoes no other block |
| AioCopy.ServeKeepsInv | 14.advio/05_rot13.c:66-111 | a completion at any time keeps the slot invariant |
| AioCopy.ExamineKeepsInv | 14.advio/05_rot13.c:47-113 | so does the switch on a slot, and it takes no exit |
| AioCopy.ExamineAdvances | 14.advio/05_rot13.c:47-113 | a slot that can move advances by one of the three stages of its block, and one that cannot is left alone |
| AioCopy.ProceedKeepsPace | 14.advio/05_rot13.c:46-122 | each pass over a non-empty file advances at least one slot |
| AioCopy.PaceBounds | 14.advio/05_rot13.c:46-122 | there are at most max(1, 3 * ceil(size / BSZ)) passes |
| AioCopy.ExitedMeansCopied | 14.advio/05_rot13.c:114-116 | when the loop is left the output is the input and offset is the size rounded up to blocks |
| AioCopy.EveryRunCopies | 14.advio/05_rot13.c:46-122 | in every run, for every size and order of completions: no error exit, never stuck, a bounded number of passes, and an exact copy at the end |
| AioCopy.EveryBlockHasOneOwner | 14.advio/05_rot13.c:36-121 | in every run each block below offset is in the output or owned by exactly one busy slot, num_to_process counts those, and aio_list names exactly those |
| AioCopy.LastIsTheLastBlock | 14.advio/05_rot13.c:54-56 | in every run a busy slot is marked as the last exactly if its block reaches the end of the input |
| AioCopy.LastIsNeverCleared | 14.advio/05_rot13.c:54-56 | the mark is set when the last block is started and never cleared |
| AioCopy.WrongCountsAreNoticed | 14.advio/05_rot13.c:76-104 | in every run another count from the kernel leads to an error exit exactly if a read of a block that is not the last was not full or a write not complete |
| AioCopy.OnlySuspendWaits | 14.advio/05_rot13.c:117-121 | in every run the kernel can complete any listed request next, and the program waits only in aio_suspend and only while no listed request is done |
| AioCopy.OffsetFitsExactly | 14.advio/05_rot13.c:42-55 | in every run offset fits an int for sizes up to INT_MAX - (BSZ - 1), and in every run that ends it does so for no larger size |
| AioCopy.StepCounts | 14.advio/05_rot13.c:46-122 | each step is one of the program's, which leaves the outstanding completions alone, or one of the completions |
| AioCopy.RunsAreBounded | 14.advio/05_rot13.c:46-122 | a run has at most NBUF + 1 steps of the program for each possible pass and two completions for each block |
| AioCopy.EveryRunCanExit | 14.advio/05_rot13.c:46-122 | every run can be continued to one that ends, and has nothing more to do exactly when it has ended |
| AioProgram.Program.constructor | 14.advio/05_rot13.c:32-45 | the variables begin as the initial state |
| AioProgram.Program.Complete | 14.advio/05_rot13.c:59-90 | what the kernel does to a slot and the output when it completes a request |
| AioProgram.Program.CompleteSome | 14.advio/05_rot13.c:59-90 | at each moment the kernel completes those requests that it chooses and no others |
| AioProgram.Program.Suspend | 14.advio/05_rot13.c:117-121 | aio_suspend has something to wait for and returns with a listed request done |
| AioProgram.Program.Examine | 14.advio/05_rot13.c:48-112 | the switch computes the step of the state machine whatever the kernel has reported, error exits included, and takes none of those in a good state |
| AioProgram.Program.Copy | 14.advio/05_rot13.c:46-122 | the loop ends whatever the kernel does, within the bound on passes, and has copied the input |
| TreeWalk.PreorderReportsEveryNode | 04.filedir/07_ftw.c:59-97 | the preorder holds exactly the calls of the nodes that a route of entries leads to, each with its slash-joined path |
| TreeWalk.EveryOtherEntryIsWalked | 04.filedir/07_ftw.c:84-90 | an entry with any name but "." and ".." is walked, in one stretch of the calls of its directory |
| TreeWalk.DotsMakeNoDifference | 04.filedir/07_ftw.c:85-86 | an entry with one of those two names makes no difference |
| TreeWalk.RouteIsReported | 04.filedir/07_ftw.c:65-83 | the calls at the end of every route, spelled out for each kind of node; at an unreadable directory the second call, with the slash, follows at once |
| TreeWalk.TargetPathJoins | 04.filedir/07_ftw.c:80-87 | the path at the end of a route is that of the directory, a slash and the entry's name |
| TreeWalk.PreorderIsInOrder | 04.filedir/07_ftw.c:59-97 | its calls correspond one to one to the routes, in lexicographic order: a parent before its entries, entries in the order of readdir |
| TreeWalk.VisitsAreOrdered | 04.filedir/07_ftw.c:84-91 | of two different calls exactly one is before the other in that order |
| TreeWalk.PreorderCounts | 04.filedir/07_ftw.c:99-140 | it has as many calls of a type as the tree has nodes that are reported with it |
| TreeWalk.DirCountIsRightExactly | 04.filedir/07_ftw.c:102-127 | what ndir counts is the number of directories exactly if the tree has no files of any kind |
| TreeWalk.DirCountOfOneFile | 04.filedir/07_ftw.c:102-127 | a directory with one file in it is counted as two |
| TreeWalk.OneDoublingIsEnoughExactly | 04.filedir/07_ftw.c:72-79 | one doubling makes room for a slash, any name and the terminator behind every string that fits, exactly if the buffer has more than NAME_MAX bytes |
| TreeWalk.GrownExactly | 04.filedir/07_ftw.c:73-79 | the buffer is doubled exactly if there is no room for a slash, the longest name and the terminator |
| TreeWalk.NoneIsLonger | 04.filedir/07_ftw.c:72-79 | the length that bounds the growth of the buffer is that of the longest directory path: no route leads to a longer one |
| TreeWalk.OneIsThatLong | 04.filedir/07_ftw.c:72-79 | and one leads to a directory path of exactly that length |
| TreeWalk.PathAllocIsEnough | 04.filedir/07_ftw.c:152-183 | with the limits that POSIX allows path_alloc yields such a buffer, or exits because pathconf failed |
| TreeWalk.PathAllocHoldsEveryPath | 04.filedir/07_ftw.c:152-183 | the buffer of path_alloc holds every path that the limit allows, with its terminator, and at most one byte more |
| TreeWalk.StrLen | 04.filedir/07_ftw.c:72 | strlen of the string in the buffer |
| TreeWalk.StrCpy | 04.filedir/07_ftw.c:87 | strcpy into the buffer leaves what is in front of it |
| TreeWalk.Realloc | 04.filedir/07_ftw.c:74-75 | realloc keeps the contents |
| TreeWalk.Walk.MyFunc | 04.filedir/07_ftw.c:99-140 | the callback keeps each counter equal to the number of calls of its kind, ndir being that of directories and files, and returns 0 |
| TreeWalk.Walk.constructor | 04.filedir/07_ftw.c:16 | the counters begin at zero |
| TreeWalk.Walk.Stat | 04.filedir/07_ftw.c:65-68 | lstat reports the node at the path in the buffer |
| TreeWalk.Walk.OpenDirectory | 04.filedir/07_ftw.c:82-84 | opendir and readdir report the entries of the directory whose path is in the buffer, less the slash |
| TreeWalk.Walk.AppendSlash | 04.filedir/07_ftw.c:72-81 | the buffer then holds the path with a slash and has room for any name |
| TreeWalk.Walk.WalkEntry | 04.filedir/07_ftw.c:87-88 | the calls of one entry are made with its path in the buffer, and the prefix in front of its name is still there afterwards |
| TreeWalk.Walk.ReadDirectory | 04.filedir/07_ftw.c:84-91 | the entries' preorders are reported in order, the prefix survives reallocation below, the directory's own path is back at the end, and the buffer grows only for need |
| TreeWalk.Walk.DoPath | 04.filedir/07_ftw.c:59-97 | dopath reports the preorder of its node, restores the string, except for the slash of an unreadable directory, and grows the buffer only for need |
| TreeWalk.Walk.MyFtw | 04.filedir/07_ftw.c:40-52 | myftw reports the preorder of the tree; the counters are the numbers of its nodes, and ndir is the number of directories exactly if there are no files; the buffer ends as it was first allocated if that had room, and else below twice what the longest directory path needs |
| FooRegistry.Hash | 11.threads/05_mutex.c:4-5 | the bucket of any int is within the table |
| FooRegistry.HashOfNegative | 11.threads/05_mutex.c:5 | the conversion to unsigned long moves a negative id by 24 buckets from its remainder |
| FooRegistry.SharesBucketExactly | 11.threads/05_mutex.c:4-5 | two ids of one sign share a bucket exactly if they differ by a multiple of 29; for a negative and another one it is 24 more than that |
| FooRegistry.Newest | 11.threads/05_mutex.c:46-51 | the newest live object with an id, or none exactly if there is none |
| FooRegistry.ReleaseUndoes | 11.threads/05_mutex.c:18-76 | a release undoes the allocation or the find before it |
| FooTable.BucketAround | 11.threads/05_mutex.c:63-69 | removing an object removes it from its own chain and leaves every other chain as it is |
| FooTable.ChainSearchIsSearch | 11.threads/05_mutex.c:43-51 | searching the chain of an id finds what searching all live objects finds |
| FooTable.Table.constructor | 11.threads/05_mutex.c:15 | the table begins empty |
| FooTable.Table.FooAlloc | 11.threads/05_mutex.c:20-34 | the new object becomes the newest live one with one reference, and each chain is again the live objects filtered by hash |
| FooTable.Table.Search | 11.threads/05_mutex.c:43-51 | the loop over one chain finds the newest object with the id, or NULL if there is none |
| FooTable.Table.FooFindAndHold | 11.threads/05_mutex.c:41-54 | it returns that object and counts one more reference of it and of nothing else |
| FooTable.Table.Predecessor | 11.threads/05_mutex.c:62-67 | the walk ends at the object in front of the released one and never meets NULL |
| FooTable.Table.Relink | 11.threads/05_mutex.c:60-69 | the object in front, or the bucket, skips the released object; all other links stay |
| FooTable.Table.Unlink | 11.threads/05_mutex.c:60-69 | the object leaves the table and each chain is again the live objects filtered by hash |
| FooTable.Table.FooRelease | 11.threads/05_mutex.c:56-76 | one reference less, and the object leaves the table exactly if that was the last one |
| FooProtocol.StepKeepsInv | 11.threads/05_mutex.c:18-76 | every step of every thread keeps counts equal to holders and private objects private |
| FooProtocol.CountsAreHolders | 11.threads/05_mutex.c:18-76 | in every run the linked objects are those that are held, and f_reference is the number of holders |
| FooProtocol.HoldingsBalance | 11.threads/05_mutex.c:18-76 | in every run a thread holds an object as often as it allocated, found or was handed it, less what it handed on or released |
| FooProtocol.AllocatedExactly | 11.threads/05_mutex.c:18-76 | in every run allocated memory is exactly the linked objects and those that a thread is about to link or to free |
| FooProtocol.OnlyAllocatedIsTouched | 11.threads/05_mutex.c:18-76 | in every run no step touches memory that is not allocated |
| FooProtocol.OnlyTouchedMatters | 11.threads/05_mutex.c:18-76 | a step neither depends on nor changes an object outside those it touches |
| FooProtocol.NobodyReachesAtFree | 11.threads/05_mutex.c:70-72 | at the free after the unlock no other thread can come to the object |
| FooProtocol.UnlinkedExactlyByTheLastHolder | 11.threads/05_mutex.c:58-75 | a release unlinks its object and no other, exactly if nobody else holds it |
| FooProtocol.AllocThenRelease | 11.threads/05_mutex.c:18-76 | from every state that keeps the invariants a thread can allocate at any free address, which makes the object the newest, and release it, which puts everything back |
| FooProtocol.FindThenRelease | 11.threads/05_mutex.c:41-76 | it can look for any id, holds the newest object with it once more, and releasing that puts everything back |
| FooProtocol.HandOverAndBack | 11.threads/05_mutex.c:56-59 | a holder can hand its reference to any thread, and handing it back puts everything back |
| FooProtocol.EveryRunCanFreeEverything | 11.threads/05_mutex.c:56-76 | every run can go on, by finishing calls and releasing what is held, until the table is empty and all memory is freed |
| WorkPool.StepKeepsInv | 11.threads/06_condition_variables.c:14-49 | every step of every thread keeps exclusion, the list, ownership, conservation and the wakeup invariant |
| WorkPool.TakeKeepsList | 11.threads/06_condition_variables.c:20-21 | a take removes the first message of the list, which is the most recently pushed one |
| WorkPool.PushKept | 11.threads/06_condition_variables.c:34-35 | a push puts its message in front of the pending ones and makes it the first of the list, and the message is then no thread's |
| WorkPool.WakeKept | 11.threads/06_condition_variables.c:17-18 | if `tasks` is not empty and a consumer sleeps, some producer is between its push and its broadcast |
| WorkPool.SafeInEveryRun | 11.threads/06_condition_variables.c:14-49 | in every run: at most one thread inside, nothing unallocated loaded from, stored to or freed, takes in last-in first-out order; the pushes of a message are its takes and one more if it is pending, the takes its frees and one more if it is held; what is allocated is exactly what is pending or owned by a thread |
| WorkPool.QuiescentMeansDone | 11.threads/06_condition_variables.c:14-49 | when only spurious wakeups are possible every producer has pushed all its messages, each message has been pushed, taken and freed equally often, and no memory is left allocated |
| WorkPool.SleepsAndWakesExactly | 11.threads/06_condition_variables.c:17-37 | in every run a sleeping consumer wakes up exactly by a broadcast or for no reason, and one falls asleep exactly when it tests the condition and nothing is pending |
| WorkPool.OnlyTheMutexBlocks | 11.threads/06_condition_variables.c:14-49 | in every run any sleeper can wake up spuriously, and any other thread can take its next step, whatever free address malloc finds, unless it needs the mutex while a thread is inside or has nothing left to push |
| WorkPool.EveryRunCanBeFinished | 11.threads/06_condition_variables.c:14-49 | every run can go on, without spurious wakeups, until nothing but those is possible |
| WorkPool.StepCounts | 11.threads/06_condition_variables.c:57-65 | messages pushed and messages to be pushed always add up to those there were |
| WorkPool.StepLowers | 11.threads/06_condition_variables.c:14-49 | every step but a spurious wakeup lowers a measure, and a spurious wakeup raises it by 3 |
| WorkPool.RunsAreBounded | 11.threads/06_condition_variables.c:14-49 | a run is at most as long as the measure it starts from plus 4 for each spurious wakeup |
| WorkPool.RunsAreBoundedFromTheStart | 11.threads/06_condition_variables.c:51-65 | the bound in numbers of messages, consumers and spurious wakeups |
| JobQueue.Queue.WalksAgree | 11.threads/08_rwlock.c:4-14 | reading forward from head and backward from tail yields the one list of jobs in the two orders, and nothing else |
| JobQueue.Queue.InsertFront | 11.threads/08_rwlock.c:44-52 | the job is put in front of the list |
| JobQueue.Queue.Append | 11.threads/08_rwlock.c:54-62 | the job is put behind the list |
| JobQueue.Queue.Remove | 11.threads/08_rwlock.c:64-70 | the job is taken out of its place in the list |
| JobQueue.Queue.Find | 11.threads/08_rwlock.c:72-82 | the first job with the id, or NULL exactly if none has it |
| JobQueue.Queue.InsertFrontThenRemove | 11.threads/08_rwlock.c:44-70 | removing a job just put in front restores every link of the queue |
| JobQueue.Queue.AppendThenRemove | 11.threads/08_rwlock.c:54-70 | removing a job just put behind restores every link of the queue |
| MmapCopy.CopyFromCopies | 14.advio/07_mmap_io.c:21-41 | from any point up to which the files agree, the loop makes the output the input |
| MmapCopy.Resize | 14.advio/07_mmap_io.c:20 | ftruncate cuts the file off or extends it with zeros |
| MmapCopy.MappingsTile | 14.advio/07_mmap_io.c:22-40 | the mappings cover the rest of the file without overlap, each from a multiple of MAX_MAPSIZE |
| MmapCopy.Copy | 14.advio/07_mmap_io.c:20-41 | whatever the output file held, the loop makes it the input, with those mappings |
| MmapCopy.CopiesAgree | 14.advio/07_mmap_io.c:20-41 | every run of the asynchronous copy that ends has made the same file |
| Transfer.Channel.Read | 14.advio/06_readn.c:8 | read fails, or moves some bytes from the channel to the buffer, as the channel's answers say |
| Transfer.Channel.Write | 14.advio/06_readn.c:26 | write fails, or puts some bytes of the buffer into the channel, as the channel's answers say |
| Transfer.Readn | 14.advio/06_readn.c:3-19 | the buffer gets a prefix of the channel of exactly the length returned; -1 exactly if the first call failed; short only after a call that failed or moved nothing, which is the last call; each call asks for all that is left |
| Transfer.Writen | 14.advio/06_readn.c:21-37 | the channel gets a prefix of the buffer, with the same meaning of the result |
| Transfer.WriteThenRead | 14.advio/06_readn.c:3-37 | readn takes out what writen has put in: all of it if neither stops early, as when no call fails or moves nothing, else a prefix |

## Left out

- The other programs: I/O plumbing, process control, signals, sockets, IPC and printing.
- `09_barrier.c`: failed thread creation, timing, and the random generator beyond the range of its values.
- `05_rot13.c`: errors that the kernel reports, the final `aio_fsync`, and files whose size changes during the copy.
- `07_ftw.c`: callbacks that return something other than 0, a failing `closedir`, a failing `realloc`, and the printed percentages.
- `05_mutex.c`: failing `malloc` and `pthread_mutex_init`, a count of more than INT_MAX holders, and whether a finder sees a fully initialised object, which lines 34-37 do not promise.
- `06_condition_variables.c`: fairness between threads. The program never returns: a run that is over has its consumers asleep.
- `06_condition_variables.c` is modelled as a state machine on values, because its claims are about interleavings; there is no method for a single thread.
- `08_rwlock.c`: the lock itself, `job_queue_init` as written and `job_queue_destroy`.
- `07_mmap_io.c` and `06_readn.c`: failing `mmap`, and the width of `off_t`, `size_t` and `ssize_t`.

# Boehm collector verification

A model of the garbage collector under `boehmgc/`, the memory manager of the virtual machine, and proofs of what it
promises. Everything is in Dafny; `dafny verify dfyconfig.toml` covers the whole project.

## What is modelled

* `Heap`, `Collector`, `CollectorSafety`: client, allocator, lazy sweeper and mostly-parallel marker as one transition
  system over an object graph in blocks, with write-protected pages, dirty and grungy page sets, a bounded mark stack
  and a heap scan position. Its steps interleave freely. The invariant is the one the design rests on: a pointer out of
  a marked object leads to a marked object, or is still to be looked at, or its page was written, or the heap scan will
  come by. From it follows, for every run, that nothing reachable is ever swept, as long as finalization leaves the
  marks closed, and exactly when it does.
* `FullMarking`: with the world stopped, exactly what a full mark phase marks.
* `MarkPhase`, `CollectorControl`: the marker and the collection control as imperative code whose methods are proved to
  take steps of that system, with termination of marking after any number of mark-stack overflows.
* `ClientProgram`, `ControlRuns`: the moves of the client, and whole runs of moves and calls into the collector in any
  order, with the client also running while the collector holds the allocation lock.
* `Finalization`: `GC_finalize`, with the exact set of objects it queues, whatever the mark procedures and wherever the
  mark stack overflows. `UnorderedRun`: a run in which it leaves the marks open and a reachable object is lost.
* `StopWorld`: the suspend and restart signal protocol, one atomic action at a time, with safety and with progress.
* `ParallelMark`: the work-stealing marker, one shared access at a time. `ParallelProgress`: it can always finish.
  `ParallelSteps`: on the collector's mark stack, as a step of the collector.
* `BlockLists`, `BlockTiling`, `HblkAlloc`, `BlockSearch`, `AllocHblk`: the heap-block allocator on its linked free
  lists. `BlackList`: the tables it consults.
* `HeaderIndex`: the two-level header index, against a flat block map. `ObjMap`: object maps and `GC_base`, on top of it.
* `Sweep`: the sweeps of a block and the building of free lists, word by word. `FreeLists`: their lists against the
  objects the collector frees. `HashTables`: the tables behind weak links and finalizers. `Exclusions`: ranges excluded
  from the static roots. `Sizes`, `Options`, `Arithmetic`: what the others share.

Integers are unbounded. Where a table or a field has a size in the source the model has it too: 1024 words to a block,
32 bits to a mark word, 1024 entries to a bottom index, forwarding counts up to 4095, map entries up to 0xfd. Blocks are
counted in units of HBLKSIZE where the source counts bytes that are multiples of it. Addresses start at 1; 0 is null.
The outcome of a clock, of `stop_func`, of `GC_should_collect` and of memory allocation is a parameter or an arbitrary
choice.

## Where the code is not what it says, or what one would like

* `GC_add_to_fl` pushes at the head; its comment says that lists are sorted by address. The model follows the code.
* `GC_finalize` has the comment that the world is stopped. `GC_stopped_mark` restarts it before `GC_finish_collection`
  calls `GC_finalize` with the allocation lock held. The model follows the code.
* Unordered finalizers keep the marks closed in Java mode only: `NonJavaNoOrderCounterexample`, and exactly when they do
  otherwise: `NonJavaClosedIff`, `RunFinalize`. The virtual machine registers all its finalizers without order
  (`vm/boehm-gc.c:21-27`) and its build of the collector is not in Java mode (`boehmgc/Makefile:19`,
  `boehmgc/finalize.c:25-29`). What that can lose: `UnorderedLosesObject`.
* `GC_MARK_FO` marks the finalizable object itself when the mark stack overflows, so that it is not queued in this
  cycle: `OverflowDelaysExample`, and exactly: `OverflowDelays`, `QueueExact`.
* `GC_add_map_entry` goes one step too far for large objects. It writes one byte behind the map exactly if all interior
  pointers are recognized or the byte it reads for that offset, far behind the table of valid offsets, is not zero:
  `LargeMap`, `AddMapEntry`. Without interior pointers it always reads behind that table.
* `GC_unregister_disappearing_link` looks up an aligned address in a table that does not exist, if no link was ever
  registered: `UnregisterLink`.
* A held thread may not have stored `last_stop_count` when `GC_stop_world` returns, because it posts its acknowledgement
  first: `LastStopCountMayLag`, `LastStopCountIff`. Safety does not depend on it.
* The contents of an object map depend on the order of building and registering, `GC_base` does not:
  `RegisteringOrder`, `RegisteringOrderMatters`, `Base`.
* `GC_build_fl_clear3` leaves the last word of a block as it was, the default case clears it: `Clear3Tail`.
* `GC_exclude_static_roots` accepts inverted ranges: `InvertedRangeIsAccepted`, `InsertSorted`, `ExtendRight`. Its overlap
  check, called incomplete in a comment, is complete for ranges that are not inverted: `NextIsUnique`.

## Model

| member | source | states |
|---|---|---|
| `Heap.PathToReachable` | boehmgc/doc/gcdescr.html:41-51 | Whatever a chain of pointers from a directly held object leads to is reachable |
| `Heap.ReachableHasPath` | boehmgc/doc/gcdescr.html:41-51 | Whatever is reachable is at the end of such a chain |
| `Heap.PageHolds` | boehmgc/os_dep.c:2927-2933 | The page of a word is the one its address lies in |
| `Heap.FieldsByKind` | boehmgc/mark.c:1670-1732 | The marker looks at all words of objects of the kinds that may hold pointers, and at none of the others |
| `Collector.BlockWork` | boehmgc/mark.c:1678-1732 | Exactly the words of the marked objects of a block are what a heap scan has to look at in it |
| `CollectorSafety.MarkAndPushEffect` | boehmgc/mark.c:584-596 | Following a word marks at most the object it denotes, and either every pending word stays pending and the new object's words become pending, or the mark state becomes invalid |
| `CollectorSafety.ScanWordKeeps` | boehmgc/mark.c:612-808 | Taking one word of a popped entry keeps the invariant, also if the word was overwritten since |
| `CollectorSafety.PushBlockKeeps` | boehmgc/mark.c:1756-1817 | Pushing the marked objects of the next wanted block keeps the invariant |
| `CollectorSafety.ScanEndKeeps` | boehmgc/mark.c:286-333 | Reaching the end of the heap keeps the invariant: no block still ahead of scan_ptr was wanted |
| `CollectorSafety.PushRootEagerlyKeeps` | boehmgc/mark.c:1449-1475 | Examining a root word at once keeps the invariant |
| `CollectorSafety.StateStepKeeps` | boehmgc/mark.c:282-402 | The state changes of GC_mark_some keep the invariant, growing the stack included |
| `CollectorSafety.MarkAllKeeps` | boehmgc/mark.c:338-359 | A parallel mark phase with the world stopped, taken as a whole, keeps the invariant, whether entries were dropped or not |
| `CollectorSafety.WriteKeeps` | boehmgc/os_dep.c:2658-2674 | A client write keeps the invariant: the fault it causes unprotects the page and sets its dirty bit, or the page was writable and its dirty bit already set |
| `CollectorSafety.HashesDiffer` | boehmgc/include/private/gc_priv.h:623-627 | Pages less than a table apart do not share a dirty bit |
| `CollectorSafety.WriteFaults` | boehmgc/os_dep.c:2658-2674 | A store to a protected page sets its dirty bit and unprotects it; any other store changes no bit and no protection |
| `CollectorSafety.RemoveProtectionExact` | boehmgc/os_dep.c:2702-2725 | Exactly the pages of the block lose their protection, and exactly their bits are set, unless the block is pointer-free |
| `CollectorSafety.InitiateReads` | boehmgc/os_dep.c:2857-2931 | Starting a cycle: the dirty bits become the grungy ones and are cleared, exactly the pages of used blocks that may hold pointers are protected, and a block is scanned again exactly if one of its pages has a bit that was set |
| `CollectorSafety.AllocateKeeps` | boehmgc/alloc.c:1061-1099 | Handing a free object to the client keeps the invariant at any moment of a cycle |
| `CollectorSafety.NewBlockKeeps` | boehmgc/new_hblk.c:238-263 | Adding a block of free objects keeps the invariant; its pages are unprotected and dirty |
| `CollectorSafety.SweepKeeps` | boehmgc/reclaim.c:987-1005 | Sweeping one block lazily keeps the invariant |
| `CollectorSafety.SweepFreesGarbage` | boehmgc/reclaim.c:721-741 | No object that a sweep takes is reachable, and none was on a free list before |
| `CollectorSafety.InitiateKeeps` | boehmgc/mark.c:235-256 | Reading the dirty bits and choosing the first mark state keeps the invariant |
| `CollectorSafety.CompleteMarksAll` | boehmgc/alloc.c:477-577 | With the world stopped and the mark state back at none, everything the client can reach is marked, and marked reachable objects point to marked ones |
| `CollectorSafety.PhaseStepKeeps` | boehmgc/alloc.c:516-577 | Abandoning, completing and invalidating a mark phase keep the invariant |
| `CollectorSafety.ClearMarksKeeps` | boehmgc/mark.c:218-230 | Clearing the marks keeps the invariant; blocks still waiting to be swept force the cycle to finish before one of them is swept |
| `CollectorSafety.FinalizeReach` | boehmgc/finalize.c:544-667 | After finalization everything still reachable, through the queue too, is marked exactly if the newly marked objects point to marked ones |
| `CollectorSafety.FinalizeKeepsIff` | boehmgc/finalize.c:544-667 | Finalization keeps the invariant exactly if the newly marked objects point to marked ones |
| `CollectorSafety.FreedBlocksAreGarbage` | boehmgc/reclaim.c:752-804 | Freeing the blocks without a mark loses no reachable object and changes none |
| `CollectorSafety.StartReclaimFrees` | boehmgc/reclaim.c:752-804 | Exactly the blocks without a marked object that is not on a free list are freed, one big object or many small ones, with everything in them; nothing else changes, and only blocks of small objects are queued for sweeping |
| `CollectorSafety.StepKeeps` | boehmgc/alloc.c:269-760 | Each of the 29 kinds of step of client, allocator, marker and collector keeps the invariant, unless it is a finalization that leaves the marks open |
| `CollectorSafety.RunKeeps` | boehmgc/alloc.c:269-760 | The invariant holds at every moment of every run up to the first finalization that leaves the marks open |
| `CollectorSafety.NoReachableObjectIsReclaimed` | boehmgc/reclaim.c:925-1061 | In every run, as long as no finalization has left the marks open, no reachable object is on a free list, and no step that sweeps a block or frees blocks takes a reachable object |
| `CollectorSafety.ChainsStayLive` | boehmgc/reclaim.c:925-1061 | The same for the end of any chain of pointers that starts at a root, at a registered object or at an uncollectable object in use, and goes on through objects of the kinds that may hold pointers |
| `CollectorSafety.UncollectableStays` | boehmgc/mark.c:163-177 | In every such run an uncollectable object in use stays in use |
| `CollectorSafety.StoppedMarkMarksReachable` | boehmgc/alloc.c:477-577 | In every such run, when a stopped mark phase completes, every object reachable from the roots is marked, whatever was stored between the increments and however often the stack overflowed |
| `CollectorSafety.SweptBlocksHaveMarks` | boehmgc/reclaim.c:987-1061 | In every such run, when a block is swept each reachable object in it has its mark |
| `FullMarking.StoppedMarkExact` | boehmgc/mark.c:278-402 | Nothing is marked in vain: a mark phase with the world stopped that starts in the invalid state ends with exactly the marks it found, the roots, and everything the marker reaches from them, whatever overflowed, was rescanned or was done in parallel |
| `UnorderedRun.UnorderedLosesObject` | boehmgc/finalize.c:592-644 | A run from the empty heap in which, outside Java mode, an unordered object is queued, the object it points to stays unmarked, and the next step frees it although the client reaches it |
| `MarkPhase.Globals.PushOnStack` | boehmgc/mark.c:584-596 | Pushing onto a full stack drops entries, invalidates the mark state and asks for a larger stack; otherwise the entry is on top |
| `MarkPhase.Globals.MarkAndPushWord` | boehmgc/mark.c:598-808 | Marks the object a word denotes, if any, and pushes its words |
| `MarkPhase.Globals.PopEntry` | boehmgc/mark.c:634-700 | Takes an entry, or the first part of a long one, off the stack |
| `MarkPhase.Globals.MarkFrom` | boehmgc/mark.c:612-808 | Runs a bounded number of entries as steps of the marker, each paid for by work done or an object newly marked |
| `MarkPhase.Globals.NextUsedBlock` | boehmgc/headers.c:291-322 | The least block at or above an address |
| `MarkPhase.Globals.NextWanted` | boehmgc/mark.c:1756-1817 | The first block at or above an address that the current kind of scan wants: one with a dirty page, an uncollectable one, or any |
| `MarkPhase.Globals.EntriesOf` | boehmgc/mark.c:1678-1732 | The entries pushed for a block are the words of its marked objects, split by object, and fit the room reserved |
| `MarkPhase.FewObjects` | boehmgc/mark.c:1678-1732 | A block never holds more objects than a heap block has words, so the room reserved on the mark stack is enough |
| `MarkPhase.Globals.PushMarked` | boehmgc/mark.c:1678-1732 | Pushes exactly the words of the marked objects of a block |
| `MarkPhase.Globals.PushNext` | boehmgc/mark.c:1756-1817 | One turn of the heap scan, or the finding that it is over |
| `MarkPhase.Globals.PushRoots` | boehmgc/mark_rts.c:571-640 | Pushes every root, any number of ranges of them lazily |
| `MarkPhase.Globals.AllocMarkStack` | boehmgc/mark.c:1135-1180 | The stack gets the size asked for or stays as it is; entries and marks are untouched |
| `MarkPhase.Globals.MarkFromStack` | boehmgc/mark.c:360-380 | A turn of GC_mark_some that works on the stack gets closer to the end |
| `MarkPhase.Globals.MarkInParallel` | boehmgc/mark.c:338-359 | With several markers the turn ends with an empty stack: marking is complete, or the stack overflowed and the end is closer all the same |
| `MarkPhase.Globals.ScanSome` | boehmgc/mark.c:286-333 | A turn of GC_mark_some that scans the heap gets closer to the end |
| `MarkPhase.Globals.BeginRescan` | boehmgc/mark.c:371-397 | After an overflow the next turn starts a rescan of all marked objects from the bottom of the heap |
| `MarkPhase.Globals.MarkSome` | boehmgc/mark.c:278-402 | Each call takes steps of the collector and makes a measure smaller in a well-founded order, even if the stack never grows; it reports the end exactly if marking is complete |
| `MarkPhase.MarkAndPushPays` | boehmgc/mark.c:584-596 | An overflow happens only together with an object being newly marked |
| `MarkPhase.MoreMarksLess` | boehmgc/mark.c:376-402 | Marking one more object makes the measure smaller, whatever restart it causes |
| `CollectorControl.Control.InitiateGc` | boehmgc/mark.c:235-256 | Starts a cycle and records the mark state found; the unexpected-state abort happens exactly if that is neither none nor invalid |
| `CollectorControl.Control.MarkStopped` | boehmgc/alloc.c:516-534 | Marks until done or until told to stop; told never to stop, it terminates with marking done, even with a stack that cannot grow |
| `CollectorControl.Control.StoppedMark` | boehmgc/alloc.c:477-577 | Never aborts; the world is stopped, a mark phase begins and the marker alone runs; returns TRUE with every client-reachable object marked, or, abandoned, with a collection in progress |
| `CollectorControl.Control.RunFinalize` | boehmgc/finalize.c:544-667 | Running GC_finalize is a step of the collector, and the invariant survives it exactly if finalization is in Java mode or every pointer of an unordered unmarked object is to a registered object or to one that is kept anyway |
| `CollectorControl.Control.StartReclaimBlocks` | boehmgc/reclaim.c:925-984 | Exactly the blocks that hold a marked object off the free lists are left, large ones included, with their objects unchanged; exactly the small ones of them that are not nearly full are queued for sweeping |
| `CollectorControl.Control.FinishCollection` | boehmgc/alloc.c:633-760 | Ends the cycle: GC_finalize runs, and then blocks are freed as the last thing; no collection is in progress and the attempt count is reset, and in Java mode the invariant holds |
| `CollectorControl.Control.SweepBlock` | boehmgc/reclaim.c:721-741 | Sweeping one block is the collector's sweep step |
| `CollectorControl.Control.ReclaimOne` | boehmgc/reclaim.c:1044-1052 | A waiting block is swept, unless old blocks are to be ignored and it is one; then it is only taken off its list |
| `CollectorControl.Control.ReclaimAll` | boehmgc/reclaim.c:1016-1061 | Sweeps or drops every waiting block unless told to stop |
| `CollectorControl.Control.ClearAllMarks` | boehmgc/mark.c:218-230 | Exactly the marks of uncollectable objects are left, the mark state is invalid and the stack empty; the collection has to be finished exactly if blocks still wait to be swept |
| `CollectorControl.Control.InvalidateMarks` | boehmgc/mark.c:578-582 | Invalidates the mark state, so that marking starts over |
| `CollectorControl.Control.MarkALittle` | boehmgc/alloc.c:425-448 | A bounded number of increments between which the client runs, getting closer to the end with each |
| `CollectorControl.Control.FinishOrRetry` | boehmgc/alloc.c:435-446 | Either the collection is finished by a stopped mark phase, finalization and the freeing of blocks, or one more attempt was abandoned; the one after MAX_PRIOR_ATTEMPTS is not, whatever the client does meanwhile |
| `CollectorControl.Control.ContinueCollection` | boehmgc/alloc.c:419-454 | Each call finishes the cycle by marking, finalizing and freeing, or uses up an attempt or gets marking further, in a well-founded order |
| `CollectorControl.Control.MaybeGc` | boehmgc/alloc.c:269-320 | In incremental mode a mark phase is begun, after the marks are cleared if it is a full one, and unless it is abandoned the collection is finished; otherwise a whole collection is done; every call of GC_initiate_gc finds the mark state none or invalid |
| `CollectorControl.Control.CollectALittle` | boehmgc/alloc.c:419-454 | A collection in progress is finished or brought closer to its end; without one, one is begun exactly if GC_should_collect says so; nothing happens exactly if collecting is off or there is nothing to do; GC_n_attempts stays at most MAX_PRIOR_ATTEMPTS and GC_initiate_gc finds no unexpected state |
| `CollectorControl.Control.FinishInProgress` | boehmgc/alloc.c:335-347 | Runs a collection in progress to its end, terminating, or gives up when told to stop or when the marks were left open |
| `CollectorControl.Control.TryToCollect` | boehmgc/alloc.c:328-398 | Terminates; when it succeeds a full collection has been done: marks cleared, a stopped mark phase completed, GC_finalize run and blocks freed; told never to stop it succeeds, unless collecting is off or a finalization on the way left the marks open |
| `CollectorControl.CollectedMeans` | boehmgc/alloc.c:328-398 | What a full collection means: when the world was stopped only uncollectable objects were marked; marking marked exactly them, the roots and what the marker reaches from them, so everything the client can reach; and afterwards every block left holds a marked object |
| `ClientProgram.ClientReach` | boehmgc/doc/gcdescr.html:41-51 | Computes exactly the objects the client can reach |
| `ClientProgram.DoMove` | boehmgc/malloc.c:120-150 | Carries out a move of the client between calls exactly if the client can make it: store, change of roots, registration, allocation, new block, lazy sweep, invocation of a finalizer |
| `ClientProgram.ClientRuns` | boehmgc/alloc.c:419-454 | While the lock is held the client stores and changes roots, as often as it likes, and keeps the finalization queue |
| `ClientProgram.ClientStepKeeps` | boehmgc/alloc.c:419-454 | Whatever the client does between two calls, all that the control code relies on still holds, with table and queue updated accordingly |
| `ClientProgram.RanKeeps` | boehmgc/alloc.c:419-454 | The same for what the client does while the lock is held |
| `ControlRuns.Happen` | boehmgc/alloc.c:269-463 | After any one event, a move of the client or a call into the collector, the control invariant holds, unless a finalization outside Java mode left the marks open; a collection never told to stop has cleared the marks, marked, finalized and freed, and an increment has finished, advanced or begun one |
| `ControlRuns.Run` | boehmgc/alloc.c:269-463 | In every run of such events from the empty heap, up to a finalization that leaves the marks open, every call of GC_initiate_gc finds the mark state none or invalid and GC_n_attempts never exceeds MAX_PRIOR_ATTEMPTS |
| `CollectorControl.FinalizationStep` | boehmgc/finalize.c:577-667 | What GC_finalize returns is the collector's finalization step: registered objects marked, queued ones moved to the roots; its newly marked objects point to marked ones exactly if Java mode or the condition on unordered objects holds |
| `CollectorControl.QueuedInOrder` | boehmgc/finalize.c:577-630 | At the end of every cycle, incremental or not, no chain of pointers leads from an ordered unmarked object to a queued one, itself excepted if it ignores itself |
| `Finalization.Trace` | boehmgc/include/private/gc_pmark.h:336-344 | Marking from an object marks exactly what is reachable from it through unmarked objects |
| `Finalization.TraceCompose` | boehmgc/finalize.c:577-591 | Marking from one object and then from another marks what marking from both at once would |
| `Finalization.TraceIsTrails` | boehmgc/include/private/gc_pmark.h:336-344 | A trace exists and holds exactly what trails of pointers through unmarked objects lead to |
| `Finalization.MarkFo` | boehmgc/include/private/gc_pmark.h:336-344 | Marks exactly what is reachable from the starting objects through unmarked ones; after a stack overflow exactly what is reachable from those, the object itself, the roots and the successors of all marked objects, whatever part of the work had been done |
| `Finalization.Finalizer.MarkFromFinalizable` | boehmgc/finalize.c:577-591 | The first pass marks exactly what trails lead to from the successors of unmarked registered objects, from objects for which the stack overflowed and, if it did, from the roots and all marked objects |
| `Finalization.Finalizer.Enqueue` | boehmgc/finalize.c:592-629 | The second pass moves exactly the entries still unmarked to the front of the queue |
| `Finalization.Finalizer.MarkQueued` | boehmgc/finalize.c:631-644 | In Java mode the third pass marks exactly what the queue leads to, and what a rescan leads to if the stack overflows |
| `Finalization.Finalizer.ClearDisappearing` | boehmgc/finalize.c:553-576 | A word is cleared exactly if a link there watches an unmarked object; exactly those links are removed |
| `Finalization.Finalizer.RemoveDangling` | boehmgc/finalize.c:646-667 | Exactly the links inside unmarked objects are removed |
| `Finalization.Finalizer.GcFinalize` | boehmgc/finalize.c:544-667 | All passes together: the tables, the queue and the exact marks after GC_finalize, overflows included |
| `Finalization.QueueExact` | boehmgc/finalize.c:577-630 | Whatever the mark procedures and whenever the mark stack overflows: an entry is queued exactly if it is registered, unmarked, and no trail of pointers through unmarked objects leads to it from anything the pass marks from |
| `Finalization.QueuedIsUnreachable` | boehmgc/finalize.c:577-630 | No chain through unmarked objects leads from an ordered registered unmarked object to a queued one, itself excepted if it ignores itself |
| `Finalization.KeptIff` | boehmgc/finalize.c:577-591 | What the first pass leaves marked, in terms of graph, marks, table and overflows only |
| `Finalization.MixedQueueExact` | boehmgc/finalize.c:577-630 | Whatever the mark procedures: an entry is queued exactly if it is registered, unmarked, the stack did not overflow for it, and no trail leads to it from a pointer out of an unmarked normally ordered object, from a pointer out of an unmarked self-ignoring object to another one, or, after an overflow, from a root or a marked object; a chain from a self-ignoring object back to itself does hold it back if it passes through another object |
| `Finalization.NormalQueueExact` | boehmgc/finalize.c:577-630 | With normal finalizers an object is queued exactly if it is registered, unmarked, the stack did not overflow for it, no unmarked registered object leads to it and, if the stack did overflow, no root or marked object does |
| `Finalization.OverflowDelays` | boehmgc/include/private/gc_pmark.h:336-344 | If the marks were closed, a stack overflow delays exactly the objects it happens for |
| `Finalization.OverflowDelaysExample` | boehmgc/include/private/gc_pmark.h:336-344 | An object nothing leads to that is not queued because the stack overflowed for it |
| `Finalization.ClosedQueueExact` | boehmgc/finalize.c:577-630 | If the marks were closed, a normally ordered object is queued exactly if it is registered, unmarked, the stack did not overflow for it and no chain of pointers at all leads to it from an unmarked registered object |
| `Finalization.NonJavaClosedIff` | boehmgc/finalize.c:592-644 | Outside Java mode the marks stay closed exactly if every successor of a registered unmarked unordered object is registered, or was marked, or lies on a trail from something the pass marks from |
| `Finalization.NonJavaClosedAlways` | boehmgc/finalize.c:592-644 | The marks stay closed whatever overflows exactly if that condition holds without any overflow |
| `Finalization.NonJavaNoOrderCounterexample` | boehmgc/finalize.c:592-644 | An object with an unordered finalizer outside Java mode whose target stays unmarked |
| `Finalization.LinksAfterFinalize` | boehmgc/finalize.c:553-667 | After GC_finalize a link survives exactly if its target is marked and its container is marked or not in the heap |
| `Finalization.KeepIsUnlink` | boehmgc/finalize.c:592-629 | The table of entries left is what unlinking leaves in the hash table, chain after chain |
| `StopWorld.StepKeeps` | boehmgc/pthread_stop_world.c:153-498 | Every step of stopper, signal handlers and client threads keeps the invariant |
| `StopWorld.RunKeeps` | boehmgc/pthread_stop_world.c:153-498 | In every run the invariant holds and no suspend signal finds its stop count already acknowledged |
| `StopWorld.WorldIsStopped` | boehmgc/pthread_stop_world.c:377-444 | When GC_stop_world returns, every other thread that is not finished or blocked has acknowledged the current stop count and is held, and the semaphore is at zero |
| `StopWorld.StaysStopped` | boehmgc/pthread_stop_world.c:153-229 | Until GC_start_world no thread takes a client step, despite spurious wake-ups; blocked threads cannot leave |
| `StopWorld.NoLostRestart` | boehmgc/pthread_stop_world.c:448-498 | A thread still held after GC_start_world has a restart signal on the way |
| `StopWorld.ReleaseStep` | boehmgc/pthread_stop_world.c:201-227 | In every run, when no stop is under way, a thread still in the handler can take a step of its own, and each such step brings it closer to the client and disturbs nobody else |
| `StopWorld.Released` | boehmgc/pthread_stop_world.c:201-227 | ... so that its own steps alone bring it back to the client |
| `StopWorld.StopCompletes` | boehmgc/pthread_stop_world.c:377-444 | From every state of every run in which a thread holds the lock and is about to stop the world or doing it, GC_stop_world can return |
| `StopWorld.RestartCompletes` | boehmgc/pthread_stop_world.c:448-498 | From every state in which the world is stopped or being restarted, GC_start_world can return, and any thread that is not blocked or finished can get back to the client |
| `StopWorld.NeverDuplicate` | boehmgc/pthread_stop_world.c:178-185 | With signal retry off the duplicate-signal branch is not taken: the last acknowledged count is below the current one |
| `StopWorld.LastStopCountIff` | boehmgc/pthread_stop_world.c:195-199 | When GC_stop_world has returned, a held thread's last_stop_count is the stop count exactly if the thread has got past posting its acknowledgement |
| `StopWorld.LastStopCountMayLag` | boehmgc/pthread_stop_world.c:195-199 | A run in which last_stop_count is still behind when GC_stop_world returns |
| `ParallelMark.StepKeeps` | boehmgc/mark.c:830-1129 | Every step of initiator and helpers keeps the invariant of the work-stealing marker |
| `ParallelMark.TakeKeeps` | boehmgc/mark.c:844-869 | Two threads may take the same slot; the entry is then held twice, never lost |
| `ParallelMark.ReturnKeeps` | boehmgc/mark.c:876-907 | Giving entries back appends them to the global stack, or, without room, invalidates the mark state |
| `ParallelMark.LeaveKeeps` | boehmgc/mark.c:1007-1038 | A thread leaves only when no thread is active and the global stack is used up; then no stack anywhere holds an entry |
| `ParallelMark.EntriesNeverLost` | boehmgc/mark.c:830-1058 | In every run an entry pushed and not yet marked from, if it is on no local stack, is in a global slot at or above GC_first_nonempty and every thread's own bound |
| `ParallelMark.ParallelMarkIsExact` | boehmgc/mark.c:1064-1101 | When GC_do_parallel_mark finishes no stack holds an entry, and unless the state is invalid what was marked from is the least set closed under pointers that holds the starting entries; also in the invalid state nothing outside that set was marked from |
| `ParallelProgress.CanFinish` | boehmgc/mark.c:924-1101 | From every state of every run the parallel mark phase can finish: no thread waits for ever for entries, for the end or for another thread |
| `ParallelSteps.ParallelMarkIsStep` | boehmgc/mark.c:1064-1101 | A finished parallel mark phase that started on the collector's mark stack, with the world stopped, is a step of the collector, however the threads interleaved; its marks are never more than the least closed set, and all of it without dropped entries |
| `ParallelSteps.ParallelMarkCompletes` | boehmgc/mark.c:338-359 | After it, without dropped entries, everything the client can reach is marked |
| `BlockLists.BlocksHold` | boehmgc/include/private/gc_priv.h:740-741 | The number of heap blocks for an object is the least that holds it |
| `BlockLists.ListOfSize` | boehmgc/allchblk.c:83-91 | A size goes to a list exactly if it is in the band of that list: one size each up to 31 blocks, eight sizes each from 32 on, and everything from 256 on the last one |
| `AllocHblk.ListsHoldBands` | boehmgc/allchblk.c:333-359 | Between calls list i holds exactly the free blocks with sizes in its band |
| `BlockLists.BigEnoughIsNotBelow` | boehmgc/allchblk.c:83-91 | A block that is large enough is never on a list below the one for the size needed |
| `BlockLists.RemoveKeeps` | boehmgc/allchblk.c:258-296 | Unlinking a block keeps all lists: links inverse, no block twice, byte counts right |
| `BlockLists.AddKeeps` | boehmgc/allchblk.c:333-359 | Pushing a block on a list keeps all lists |
| `BlockLists.ReplaceKeeps` | boehmgc/allchblk.c:500-530 | Putting one block in the place of another keeps all lists |
| `BlockTiling.SplitTiling` | boehmgc/allchblk.c:458-490 | Splitting a block leaves a tiling of the same cells |
| `BlockTiling.MergeTiling` | boehmgc/allchblk.c:812-830 | Merging two adjacent blocks leaves a tiling of the same cells |
| `HblkAlloc.FreeBlockIsMaximal` | boehmgc/allchblk.c:782-837 | The cells next to a free block are not free |
| `HblkAlloc.FreeBlocksAgree` | boehmgc/allchblk.c:782-837 | The cells of the heap and the blocks in use determine the free blocks, whatever the history of splits and merges |
| `AllocHblk.BlockHeap.constructor` | boehmgc/allchblk.c:47-51 | The empty heap is valid |
| `AllocHblk.BlockHeap.RemoveFromFl` | boehmgc/allchblk.c:258-296 | Takes the block off the list it is on, with its bytes |
| `AllocHblk.BlockHeap.AddToFl` | boehmgc/allchblk.c:333-359 | Puts the block at the head of the list for its size |
| `AllocHblk.BlockHeap.SplitBlock` | boehmgc/allchblk.c:500-537 | The second part takes the block's place on its list, the first part goes to the head of the list for its size |
| `AllocHblk.BlockHeap.GetFirstPart` | boehmgc/allchblk.c:458-490 | The first part of the block is off the lists, the rest is on the list for its size |
| `AllocHblk.BlockHeap.FreeBlockEndingAt` | boehmgc/allchblk.c:301-327 | The free block that ends at an address, or 0 exactly if there is none |
| `AllocHblk.BlockHeap.FreeHblk` | boehmgc/allchblk.c:782-837 | Frees a used block and nothing else, leaving no two adjacent free blocks; a block that is free already is the abort |
| `AllocHblk.BlockHeap.AddToHeap` | boehmgc/alloc.c:804-829 | The new cells are free and part of the heap; nothing else changes |
| `AllocHblk.BlockHeap.EnoughLargeBytesLeft` | boehmgc/allchblk.c:60-71 | The early exit does not change the answer |
| `AllocHblk.BlockHeap.Consider` | boehmgc/allchblk.c:588-741 | Takes a block exactly if it can serve the request and the next block is not obviously better, at its first start that is not black-listed; passes over it only if it cannot serve the request, or the next block can; counts a block with every cell black-listed, and drops exactly every fourth of these |
| `AllocHblk.BlockHeap.AllocHblkNth` | boehmgc/allchblk.c:572-775 | Fails only if no block of the list can serve the request; otherwise allocates in the first block to be taken of the list left after dropping, cells that were free and a start that is not black-listed unless that does not matter, and keeps every block in use |
| `AllocHblk.BlockHeap.AllocHblk` | boehmgc/allchblk.c:552-567 | The same over all lists: failure means that no free block at all can serve the request; if the size has a list of its own and a block on it can serve the request, such a block is used whole; the block gets the size, kind and flag asked for; black-listed blocks are dropped exactly when the count of those met passes a multiple of four |
| `AllocHblk.HeapAccounting` | boehmgc/checksums.c:135-147 | List counts are the sums of their blocks and add up to GC_large_free_bytes; with the used blocks they make GC_heapsize |
| `AllocHblk.AllocationComplete` | boehmgc/allchblk.c:552-741 | With the collect gate open and the black list out of play, failure means that every free block is too small |
| `BlockSearch.AvoidsBlackList` | boehmgc/allchblk.c:622-668 | Unless the request is very large, a block for objects that may hold pointers, or of more than two heap blocks, is at no start to which a false pointer was seen, and no part of it was seen from a stack, beyond its first heap block only if the client did not promise a pointer there |
| `BlockSearch.RefusedOnlyIf` | boehmgc/allchblk.c:588-668 | When a list fails, a block that is large enough and may be split is listed at every start, and then the request is of a kind to which that matters, and not for a very large part of a much larger block |
| `AllocHblk.FreeUndoesAlloc` | boehmgc/allchblk.c:552-837 | Freeing the block just allocated restores all free blocks |
| `BlackList.IsBlackListed` | boehmgc/blacklst.c:233-264 | Zero exactly if no covered block is listed; otherwise the result is just behind the first one that is, and every start below it is listed |
| `BlackList.FirstUnlisted` | boehmgc/allchblk.c:635-653 | The search terminates at the first start that is not listed, and never steps past the end of the free block |
| `BlackList.Tables.AddStack` | boehmgc/blacklst.c:200-223 | Exactly the blocks with the hash of the false pointer are listed, and only if its block has no header or was listed before |
| `BlackList.Tables.AddNormal` | boehmgc/blacklst.c:173-197 | The same for pointers to the starts of objects, on the normal list |
| `BlackList.Tables.Promote` | boehmgc/blacklst.c:127-159 | What this collection saw is listed from now on, and only that |
| `BlackList.Tables.Unpromote` | boehmgc/blacklst.c:161-167 | The list promoted last is collected again, and nothing else stays listed |
| `HeaderIndex.LinksInverse` | boehmgc/headers.c:152-197 | asc_link and desc_link are inverse, and end at the last and first bottom index |
| `HeaderIndex.Headers.GetIndex` | boehmgc/headers.c:152-197 | Inserts a bottom index at its place in the sorted list and changes no entry |
| `HeaderIndex.Headers.InstallHeader` | boehmgc/headers.c:204-216 | Sets one entry |
| `HeaderIndex.Headers.InstallCounts` | boehmgc/headers.c:219-235 | Every block of the range gets a bottom index, and inner ones their distance capped at MAX_JUMP |
| `HeaderIndex.Headers.RemoveCounts` | boehmgc/headers.c:249-258 | Clears the entries inside a block |
| `HeaderIndex.Headers.AddSection` | boehmgc/alloc.c:814-828 | A new section keeps index and block map in step |
| `HeaderIndex.Headers.SplitBlock` | boehmgc/allchblk.c:471-484 | Splitting a free block keeps index and block map in step |
| `HeaderIndex.Headers.UseBlock` | boehmgc/allchblk.c:743-755 | Allocating a block keeps index and block map in step |
| `HeaderIndex.Headers.FreeBlock` | boehmgc/allchblk.c:782-837 | Freeing a block keeps index and block map in step and merges it with free neighbours: if no two free blocks touched before, none do afterwards |
| `HeaderIndex.Headers.ForwardToHead` | boehmgc/misc.c:405-411 | Following forwarding counts from anywhere in a used block ends at its head, after one step for each 4095 blocks or part of them |
| `HeaderIndex.Headers.NextUsedBlock` | boehmgc/headers.c:291-322 | The least used block at or above an address in the block map, or 0 if there is none |
| `HeaderIndex.Headers.PrevBlock` | boehmgc/headers.c:328-358 | The greatest headed block at or below an address in the block map, or 0, also when a forwarding count leads below a bottom index |
| `HeaderIndex.Headers.FreeBlockEndingAt` | boehmgc/allchblk.c:301-327 | The free block that ends where a block starts, or 0 exactly if there is none |
| `HeaderIndex.Headers.ApplyToAllBlocks` | boehmgc/headers.c:262-287 | Visits each block in use at the start exactly once, although visited blocks are freed, coalesced and lose their headers during the walk |
| `ObjMap.SmallMap` | boehmgc/obj_map.c:131-144 | The map of a size holds the displacement at each valid offset of each object that fits, and nothing behind the last one |
| `ObjMap.LargeMap` | boehmgc/obj_map.c:120-130 | The map for large objects; a byte behind it is written exactly if offset HBLKSIZE counts as valid |
| `ObjMap.BuiltMeans` | boehmgc/obj_map.c:131-144 | What a map entry says: the displacement in words up to 253, 0xfe for a larger one, and 0xff where the displacement is not registered or no object fits |
| `ObjMap.BuiltLarge` | boehmgc/obj_map.c:120-130 | The same in the map for large objects |
| `ObjMap.RegisterIn` | boehmgc/obj_map.c:80-97 | Registering a displacement sets exactly the offsets with that displacement, behind the last object too |
| `ObjMap.Maps.AddMapEntry` | boehmgc/obj_map.c:103-147 | Adds a right map if there is none for the size; says exactly when a byte behind the map is written |
| `ObjMap.Maps.RegisterDisplacement` | boehmgc/obj_map.c:66-98 | Updates all existing maps, leaving them right; a bad offset aborts |
| `ObjMap.RegisteringOrder` | boehmgc/obj_map.c:66-147 | A map built before a displacement is registered equals one built after it exactly if no offset behind the last object has that displacement |
| `ObjMap.RegisteringOrderMatters` | boehmgc/obj_map.c:66-147 | Objects of three words and displacement 0 show the difference |
| `ObjMap.Base` | boehmgc/misc.c:387-433 | GC_base returns the start of the object that contains the pointer, and 0 exactly if there is none, whatever displacements were registered and when |
| `ObjMap.ObjectIsUnique` | boehmgc/misc.c:387-433 | At most one object contains an address |
| `Sweep.SweepMeaning` | boehmgc/reclaim.c:310-350 | In the reference sweep a dead object links to the dead one before it, its other words are cleared if asked for, everything else is untouched, and the count is the words of the dead |
| `Sweep.ReclaimGenericLoop` | boehmgc/reclaim.c:310-350 | The generic loops are the reference sweep |
| `Sweep.Reclaim1` | boehmgc/reclaim.c:617-651 | The one-word sweep by mark words is the reference sweep |
| `Sweep.Reclaim2` | boehmgc/reclaim.c:366-400 | The two-word sweeps by mark words are the reference sweep |
| `Sweep.Reclaim4` | boehmgc/reclaim.c:409-453 | The four-word sweeps by mark words are the reference sweep |
| `Sweep.ReclaimGeneric` | boehmgc/reclaim.c:661-713 | For every size, bitmap and block content the sweep chosen gives the list, memory and count of the reference sweep |
| `FreeLists.SweepListsSwept` | boehmgc/reclaim.c:661-741 | The list a sweep leaves in memory holds exactly the addresses of the objects the collector's sweep step frees, each once, in front of the old list, and counts their words |
| `Sweep.BuildFl1` | boehmgc/new_hblk.c:30-49 | Links all one-word objects |
| `Sweep.BuildFlClear2` | boehmgc/new_hblk.c:52-71 | Links and clears all two-word objects |
| `Sweep.BuildFl2` | boehmgc/new_hblk.c:116-131 | Links all two-word objects |
| `Sweep.BuildFlClear3` | boehmgc/new_hblk.c:74-91 | Links and clears all three-word objects and leaves the last word alone |
| `Sweep.BuildFlClear4` | boehmgc/new_hblk.c:94-113 | Links and clears all four-word objects |
| `Sweep.BuildFl4` | boehmgc/new_hblk.c:134-150 | Links all four-word objects |
| `Sweep.BuildFlLoop` | boehmgc/new_hblk.c:201-229 | The default case links all objects and clears the whole block if asked to |
| `Sweep.BuildFl` | boehmgc/new_hblk.c:161-229 | Every case links the same objects in the same order |
| `Sweep.BuildIsSweep` | boehmgc/new_hblk.c:161-229 | Building a free list leaves what sweeping an unmarked block would, but for the words behind the last object |
| `FreeLists.BuildListsNew` | boehmgc/new_hblk.c:161-263 | The list built for a new block holds exactly the addresses of the objects it adds to the collector's free ones, each once, in front of the old list; these objects are laid out as the collector's step demands |
| `Sweep.Clear3Tail` | boehmgc/new_hblk.c:74-91 | For three words special and default case differ exactly if the last word of the block is not zero |
| `HashTables.Table.Grow` | boehmgc/finalize.c:101-136 | Rehashing into twice as many chains keeps the map; without memory nothing changes |
| `HashTables.Table.RegisterLink` | boehmgc/finalize.c:154-232 | The map gets the new target; the result tells replaced from new; the load stays at most one above the number of chains when growth succeeds |
| `HashTables.Table.UnregisterLink` | boehmgc/finalize.c:235-274 | Removes exactly the given key and tells whether it was there, or that there is no table to look in |
| `HashTables.Table.RegisterFinalizer` | boehmgc/finalize.c:328-461 | Sets, replaces or removes the entry of an object and returns the previous one |
| `HashTables.Table.Unlink` | boehmgc/finalize.c:553-629 | Unlinking a set of keys removes exactly them from the map, keeps the other entries of each chain in order, and keeps the count right |
| `HashTables.PrependOk` | boehmgc/finalize.c:222-227 | A new entry at the head of its chain keeps the table and adds the key to the map |
| `HashTables.DeleteOk` | boehmgc/finalize.c:250-265 | Unlinking an entry keeps the table and removes the key from the map |
| `HashTables.MoveOne` | boehmgc/finalize.c:122-133 | Moving one entry to the new table never meets its key there |
| `HashTables.HashSpreads` | boehmgc/finalize.c:36-39 | Addresses eight bytes or more apart in the same aligned stretch of eight bytes for each chain never share a chain |
| `Exclusions.Table.NextExclusion` | boehmgc/mark_rts.c:404-422 | The binary search returns the first range that ends after the address |
| `Exclusions.Table.ExcludeStaticRoots` | boehmgc/mark_rts.c:424-457 | Aborts exactly if some range is in the way, or the table is full and no range can be extended; otherwise the table stays sorted and covers the new range besides the old ones exactly if the new range is not inverted |
| `Exclusions.Table.PushWithExclusions` | boehmgc/mark_rts.c:460-477 | Terminates; the ranges pushed are disjoint and are together [bottom, top) without the exclusions |
| `Exclusions.InsertSorted` | boehmgc/mark_rts.c:446-456 | Inserting keeps the table sorted exactly if the new range is not inverted |
| `Exclusions.ExtendRight` | boehmgc/mark_rts.c:441-445 | Extending a range backwards adds exactly the new range if and only if that is not inverted |
| `Exclusions.InvertedRangeIsAccepted` | boehmgc/mark_rts.c:424-457 | An inverted range that is accepted and leaves the table unsorted |
| `Exclusions.NextIsUnique` | boehmgc/mark_rts.c:436-440 | The one range the overlap check looks at is in the way exactly if any range is |

## Left out

- Signal retry, the MSWIN32 and USE_MUNMAP configurations, USE_MARK_BYTES, the header cache and HASH_TL: other configurations with other state.
- Weak memory: word reads and writes are atomic and take effect in program order.
- Failure of header, count or first hash-table allocation: the source drops blocks or goes on with an unset table.
- `GC_free`, leak finding, `GC_enable_incremental` in the middle of a run, thread-local free lists, stubborn objects and typed marking.
- `GC_enqueue_all_finalizers`: an easy member over the same queue. What a finalizer does is up to the client.
- Heuristics without an exact contract: `GC_block_nearly_full`, `GC_should_collect`, black-list spacing, heap growth, `GC_init_size_map`.
- Linked structures are values: chains of hash tables and mark stacks are sequences, bottom indices and headers are found by key or address instead of by pointer, so aliasing of list nodes is not captured.
- MarkPhase.Globals.PushRoots: a range is pushed lazily only while there is room, so the abort on an unexpected overflow is not modelled; the order of words within an entry is left open.
- MarkPhase.Globals.PopEntry: an entry is the set of words it stands for, so the encoding of descriptors is not modelled.
- MarkPhase.Globals.MarkFrom: likewise; bitmap, procedure and per-object descriptors belong to typed marking.
- MarkPhase.Globals.MarkInParallel: the marking by several threads is done in some order by one; that the threads together take a step of the collector is ParallelSteps.ParallelMarkIsStep, for a stopped world.
- CollectorControl.Control.TryToCollect: returns after a finalization that left the marks open, where the source goes on. From then on a reachable object may be freed, and a client that stores to it overwrites what the allocator keeps there, so that nothing can be promised.
- CollectorControl.Control.FinishInProgress: returns there likewise.
- CollectorControl.Control.RunFinalize: GC_finalize is one step, although the client may run during it. It is enough: the allocation lock is held, so nothing is registered, allocated or swept, and what GC_finalize reads and marks beyond the marks it finds are objects the client cannot reach, and so cannot store to; a rescan after an overflow reads words the client may change, but what the client stores there is marked.
- CollectorControl.Control.MarkIncrement: a call of GC_mark_some is not interrupted by the client; the interleaving word by word is in the steps of the collector.
- ParallelMark.ParallelMarkIsExact: an entry leads to a fixed set of entries, as with the world stopped, and a critical section under the mark lock is one step; GC_mark_no and later mark phases are not modelled.
- Finalization.Trace: marks in any order, where the source uses the mark stack; that the marker leaves the same marks is FullMarking.StoppedMarkExact.
- CollectorControl.Control.StartReclaimBlocks: which blocks are nearly full is a parameter.
- CollectorControl.Control.ReclaimOne: whether a block was swept in the last cycle is a parameter.
- StopWorld.StopCompletes: says that a return is always possible, not that a scheduler is fair; the same holds of RestartCompletes and ParallelProgress.CanFinish.
- AllocHblk.BlockHeap.FreeBlockEndingAt: looks the header up in the block map; the look-up through the index is HeaderIndex.Headers.FreeBlockEndingAt.
- AllocHblk.BlockHeap.GetFirstPart: sets the size of the block at once, which the source does when it sets up the header.
- HeaderIndex.Headers.FreeBlock: frees the header of an absorbed block without keeping it on a free list of headers.
- HeaderIndex.Headers.ApplyToAllBlocks: the function applied is GC_reclaim_block as far as the index can tell, freeing an arbitrary set of blocks.
- The 64-bit cases of the unrolled sweeps, and other sizes than those of the 32-bit build.
- Exclusions.Table.ExcludeStaticRoots: finds the table full before moving entries up; the source moves them first, the last one behind the table, and then aborts.
- Exclusions.Table.NextExclusion: requires a non-empty table, as the source assumes.
- Sweep.ReclaimGeneric: the setting of all marks of uncollectable blocks afterwards is part of the collector's sweep step.
- The Java virtual machine itself, class-file parsing, debugging support and operating-system code.

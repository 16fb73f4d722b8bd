# curl-loader: scheduling engine, key scanner and bundled pattern compiler

curl-loader drives many virtual HTTP clients from one thread per batch. This project models the parts
whose correctness spans several functions, and proves what they promise.

**Timer queue** (`TimerNodes`, `IdCursor`, `HeapOrder`, `MemoryPool`, `TimerQueues`, `SmallQueue`). A binary heap
in an array, an index from timer ids to heap slots, an id allocator driven by two cursors and a free-list pool of
heap nodes. The class keeps a ghost map from ids to timers: every operation is stated as a change of that map, and
the invariant `Valid` ties it to the arrays and lists. A popped periodic timer is in *limbo*: its id stays
reserved while its handler runs.

**Virtual clients** (`BatchTimer`, `Cycling`, `ClientSteps`, `Dispatching`, `Turns`, `Runs`, `Plainly`, `OneClient`,
`Loader`, `BatchRuns`). The state machine of one batch without a fixed request rate, on top of the real queue.
`BatchTimer` turns the queue's map by ids into a view timer by timer; `Cycling` decides which url comes next;
`ClientSteps` says where one load step leads, `Dispatching` which timers fire and when a dispatch ends, `Turns` what
handlers and events change, `Runs` when a run of the main loop ends and how long it can be, `Plainly` what steps and
starts of clients come to in numbers of milliseconds and of clients, and `OneClient` what a single client fetches.
`Loader` moves the clients between the multi handle, a sleep and rest, and refines those. Its invariant `Sound` holds
after every event of every run. `BatchRuns` builds batches and runs them. libcurl is the set of clients added to the
multi handle; clock readings, timeouts, fetch decisions and results of setting up a handle are parameters.

**Fixed request rate** (`RequestRate`). The stack of free clients, the number each timer invocation takes, and how
clients come back to the stack when transfers end and completion timers fire.

**Key scanner** (`KeyVals`). The character-at-a-time matcher for response values, against a declarative
specification of word boundaries.

**Pattern compiler** (`PcreCounts`, `PcreCode`, `PcreMeaning`, `PcreOrder`, `PcreCaptures`, `PcreBytes`, `PcreDecode`,
`PcreLength`, `PcreBuffer`, `PcreLinks`, `PcreRepeat`, `PcreEmit`, `PcreMeasure`, `PcreNames`). The bundled PCRE 7.4
compiles in two passes. For literals, `.`, groups with or without capture, alternation and greedy or lazy quantifiers,
the project proves which bytes the emitting pass stores (with moves, copies and links reversed in place), that none is
stored outside the measured length, and what those bytes say: a decoder written from the opcode numbers reads them
back as code that matches what the pattern describes, tries it in the same order and captures the same groups. Both
binary searches agree with the name table. `LINK_SIZE` is 2 and characters are single bytes.

**Statistics and addresses** (`Statistics`, `Addresses`). Truncated running means under samples and merges; IPv6
increments, the address ranges of sub-batches and their clients' addresses. `Arith` holds the few definitions that
several modules share.

`dafny verify dfyconfig.toml` checks everything.

## What the proofs say about the program

- `heap_increase` leaves `ids_min_free` at the old end of the index, which then is an id like any other. After a
  growth and a cancellation the allocator can hand that id out although it is in use
  (`IdCursor.GrowthCanRepeatAnId`). Without growth one spare id is enough; with growth, the exact condition is a
  free id ahead of the cursor or at the remembered minimum (`IdCursor.CheckedIffNeverTwice`). Without a fixed
  request rate the queue of a batch never grows (`BatchTimer.BatchTimers.RoomFor`).
- The growth test counts queued timers only. With ids in limbo filling the rest of the arrays, scheduling runs past
  the index, and only then (`TimerQueues.TimerQueue.CanScheduleExactly`); `SmallQueue.InItsHandler` is such a queue.
- `tq_schedule_timer` takes its node from the pool before it pushes it. When the heap is full and may not
  grow, the node is lost to the pool; the contract counts it.
- The guards of `tq_cancel_timer` and `release_kept_timer_id` let the id `max_heap_size` through, one past the
  end of the index. A handler that cancels its own periodic timer gets -1, unless nothing is queued: then the index
  leads to a heap slot that is out of use. `CancelTimer` and `ReleaseKeptTimerId` take every id and say which of these
  comes out; `TimerQueues.TimerQueue.SlotOf` is the exact condition and `SmallQueue.InItsHandler` an instance.
- "A dispatch leaves no timer due" is false. The completion handler answers with the client's state, `CSTATE_ERROR` is
  -1, and -1 ends `dispatch_expired_timers`: a client that fails for good leaves later timers for the next round
  (`BatchRuns.OneLeftDue`). It holds when no due timer's handler fails (`Dispatching.NoneFailsNoneLeft`), which
  `Turns.Failing` reads off the state before the dispatch, and otherwise exactly when the one that fails is the last
  to be due (`Dispatching.NoneLeftExactly`; timers due at the same time fire in the order of the heap).
- "The main loop ends once nothing is left to do" is false. A ramp-up step that fails ends the ramp-up timer without
  clearing `do_client_num_gradual_increase` (`Turns.StuckExactly`, `Turns.StuckBefore`), and nothing clears it later
  (`Turns.EventLeavesStuck`), so the loop of such a batch never ends; `BatchRuns.NeverEnds` builds one. Otherwise it
  does: with all clients at rest and no ramp-up timer the loop ends if and only if no ramp-up has failed
  (`Runs.RestEndsExactly`).
- In fixed-rate mode the end of a transfer leaves the completion timer queued and a timeout leaves the transfer
  running, so a client can be put on the free list twice (`RequestRate.DoneThenTimeout`). It happens exactly when a
  client answers a second time since it was taken while another is out (`RequestRate.TwiceExactly`), and can happen
  exactly in configurations with completion timeouts and more than one client (`RequestRate.DistinctExactly`).
- Without a fixed request rate no client makes more than `cycles * urls + urls + 1` load steps, and no run more than
  twice that, and one, for each client in load steps and wake-ups together (`Run`); so a run in which every event
  moves a client comes to its end (`Runs.BusyRunEnds`).
- An item repeated `{0}` is not emitted, but its measured length is not taken back: that is the only way in
  which the measured length exceeds the code.
- `(delay * points + sample) / ++points` in `client.c` reads and increments `points` in one expression; the model
  reads it first.

## Model

| member | source | states |
|---|---|---|
| IdCursor.NextIsFree | curl-loader/heap.c:424-436 | the id handed out is free if and only if some free id lies ahead of the cursor or the remembered minimum is free; then no free id is lost sight of |
| IdCursor.NextIsFirst | curl-loader/heap.c:424-436 | the id is the first free one ahead of the cursor; if there is none it is the remembered minimum, or past the end of the index if that is not in it |
| IdCursor.IdFound | curl-loader/heap.c:424-436 | while the remembered minimum is sound the answer is a free id, or one past the end of the index if and only if none is free |
| IdCursor.ReleaseKeeps | curl-loader/heap.c:523-532 | releasing an id keeps the cursors consistent, and keeps the remembered minimum a free id |
| IdCursor.SteadyIsFresh | curl-loader/heap.c:424-436 | before the first growth, one spare id is enough for the allocator to find a free one |
| IdCursor.GrowIsFresh | curl-loader/heap.c:304-354 | growing by at least one makes a free id available although the remembered minimum stays where it was |
| IdCursor.FixedSizeNeverTwice | curl-loader/heap.c:424-436 | over every run without growth that keeps a spare id, no id is handed out while it is in use |
| IdCursor.CheckedIffNeverTwice | curl-loader/heap.c:304-436 | with growth allowed, a run never hands out an id in use if and only if before every allocation a free id lies ahead of the cursor or at the remembered minimum |
| IdCursor.GrowthCanRepeatAnId | curl-loader/heap.c:304-354 | a concrete run with growth in which a live id is handed out a second time |
| HeapOrder.SiftUpOrders | curl-loader/heap.c:543-571 | sifting up restores parent <= child when only the sifted entry may be too small |
| HeapOrder.SiftDownOrders | curl-loader/heap.c:582-628 | sifting down restores parent <= child when only the sifted entry may be too large |
| HeapOrder.SiftUpContents | curl-loader/heap.c:543-571 | sifting up permutes the entries |
| HeapOrder.SiftDownContents | curl-loader/heap.c:582-628 | sifting down permutes the entries |
| HeapOrder.RootIsMinimum | curl-loader/heap.c:273-289 | in heap order the root has the smallest key of all entries |
| HeapOrder.RemoveAtKeepsOrder | curl-loader/heap.c:468-520 | removing any slot, with the move of the last entry and the choice of direction, keeps heap order |
| HeapOrder.RemoveAtContents | curl-loader/heap.c:468-520 | removing a slot removes exactly that entry, as a multiset |
| HeapOrder.CancelScanStaysClean | curl-loader/timer_queue.c:234-261 | when the removed slot and every other entry of that timer have the same key, no entry of the timer moves in front of the scan position |
| MemoryPool.MPool.Add | curl-loader/mpool.c:51-64 | the item becomes the head of the free list, which stays acyclic and null-terminated although the link is skipped on an empty list |
| MemoryPool.MPool.Remove | curl-loader/mpool.c:66-79 | the head leaves the free list and is unlinked, or null when the list is empty |
| MemoryPool.WholeBlocks | curl-loader/mpool.c:280-349 | the nodes carved are a multiple of the step: at most what was asked for and short of it by less than a step, or one step when less than that was asked for |
| MemoryPool.MPool.Allocate | curl-loader/mpool.c:280-349 | whole blocks of nodes are carved and put on the free list; the count of blocks is rounded down, but at least one |
| MemoryPool.MPool.Init | curl-loader/mpool.c:153-201 | refuses an empty or too large object, otherwise fills a fresh pool |
| MemoryPool.MPool.TakeObj | curl-loader/mpool.c:89-121 | a node that was not handed out, from the list or from a new block; the pool grows by one step only when the list is empty |
| MemoryPool.MPool.ReturnObj | curl-loader/mpool.c:132-141 | a node that was handed out is free again |
| MemoryPool.MPool.ReleaseBlocks | curl-loader/mpool.c:211-256 | only when all nodes are back, every block is freed exactly once and the pool is empty |
| TimerQueues.TimerQueue.constructor | curl-loader/heap.c:88-156 | an empty queue: no entry, every id free, the invariant holds |
| TimerQueues.TimerQueue.TqInit | curl-loader/timer_queue.c:70-88 | fails exactly for a zero size or a pool that cannot be initialised |
| TimerQueues.TimerQueue.PutNodeToSlot | curl-loader/heap.c:448-455 | slot and index entry are both updated, nothing else is |
| TimerQueues.TimerQueue.FilterUp | curl-loader/heap.c:543-571 | the array loop does what the pure sift does and keeps ids_arr[heap[s].node_id] = s for every slot |
| TimerQueues.TimerQueue.FilterDown | curl-loader/heap.c:582-628 | the same for the downward loop |
| TimerQueues.TimerQueue.GetNodeId | curl-loader/heap.c:424-436 | the cursor loop refines the value-level allocator |
| TimerQueues.TimerQueue.ReleaseNodeId | curl-loader/heap.c:523-532 | refines the value-level release and keeps the index exact |
| TimerQueues.TimerQueue.HeapIncrease | curl-loader/heap.c:304-354 | arrays are longer, old contents kept, the cursors untouched |
| TimerQueues.TimerQueue.PushNew | curl-loader/heap.c:367-414 | a new timer gets an id that is neither queued nor in limbo; fails exactly for a full heap that may not grow |
| TimerQueues.TimerQueue.PushKept | curl-loader/heap.c:386-413 | a periodic timer goes back under the id it kept |
| TimerQueues.TimerQueue.RemoveNode | curl-loader/heap.c:468-520 | exactly the entry of that slot leaves the map; its id becomes free or stays reserved |
| TimerQueues.TimerQueue.QueuedPlusLimbo | curl-loader/heap.c:377-384 | queued timers and ids in limbo together never exceed the size of the arrays, though the growth test counts only the queued ones |
| TimerQueues.TimerQueue.SteadyHasFreshId | curl-loader/heap.c:424-436 | with an id to spare and no growth so far, allocation succeeds |
| TimerQueues.TimerQueue.ScheduleTimer | curl-loader/timer_queue.c:116-156 | the map gains the timer under a fresh id, or nothing: when it fails and what it leaks is stated exactly |
| TimerQueues.TimerQueue.CancelTimer | curl-loader/timer_queue.c:168-209 | for every id: a queued one is removed and the answer is 0; -1 and no change otherwise, except that max_heap_size is looked up past the end of the index, and an id in limbo in an unused heap slot exactly when nothing is queued |
| TimerQueues.TimerQueue.SlotOf | curl-loader/timer_queue.c:178-192 | the index leads from an id in use to a slot in use if and only if the id is not in limbo with nothing queued; from a queued id to its own entry, from one in limbo to the root |
| TimerQueues.TimerQueue.CanScheduleExactly | curl-loader/heap.c:377-436 | before the first growth a new timer gets an id unless the ids in limbo fill up an index whose heap has room; then the id answered is max_heap_size, past the end |
| TimerQueues.TimerQueue.CancelTimers | curl-loader/timer_queue.c:221-264 | removes every entry of the timer node and answers how many there were |
| TimerQueues.TimerQueue.NearestIsRoot | curl-loader/timer_queue.c:278-286 | no queued timer has a key below that of the root |
| TimerQueues.TimerQueue.TimeToNearestTimer | curl-loader/timer_queue.c:278-286 | the least next_timer of the map, or ULONG_MAX when it is empty |
| TimerQueues.TimerQueue.RemoveNearestTimer | curl-loader/timer_queue.c:299-317 | a nearest timer leaves the map, or -1 when there is none |
| TimerQueues.TimerQueue.BeginDispatch | curl-loader/timer_queue.c:333-344 | a nearest timer is popped; the id of a periodic one stays reserved while its handler runs |
| TimerQueues.TimerQueue.EndDispatch | curl-loader/timer_queue.c:346-377 | a periodic timer whose handler succeeded is queued again under the id its node kept, one period later, otherwise the id it names is free; the node goes back to the pool |
| TimerQueues.TimerQueue.ReleaseKeptTimerId | curl-loader/timer_queue.c:406-419 | for every id: one in limbo becomes free, a free one stays free, one out of range gets -1 and max_heap_size goes past the end; the queue stays valid if and only if the id was not that of a queued timer |
| SmallQueue.InItsHandler | curl-loader/timer_queue.c:178-192 | builds a queue of one slot whose only timer, a periodic one, has been popped for its handler: cancelling that timer is led to an unused heap slot, no other can be scheduled, and the next id is past the end of the index |
| BatchTimer.BatchTimers.RoomFor | curl-loader/loader_smooth.c:65-72 | with one queue slot per timer of the batch, a timer that is not queued always finds room and an id |
| BatchTimer.BatchTimers.Arm | curl-loader/loader_fsm.c:712-724 | seen timer by timer: exactly that timer becomes queued with the given time, period and handler, under an id |
| BatchTimer.BatchTimers.Disarm | curl-loader/loader_fsm.c:332-347 | seen timer by timer: exactly that timer leaves the queue |
| BatchTimer.BatchTimers.Begin | curl-loader/timer_queue.c:333-344 | a timer before which no other is due is popped |
| BatchTimer.BatchTimers.Finish | curl-loader/timer_queue.c:346-377 | what the end of a dispatch does to the popped timer, and to no other |
| Cycling.FindFirstCyclingUrl | curl-loader/parse_conf.c:3097-3117 | the least index not marked as non-cycling, or -1 |
| Cycling.FindLastCyclingUrl | curl-loader/parse_conf.c:3129-3148 | the greatest such index, or -1 |
| Cycling.PickUpProgress | curl-loader/loader_fsm.c:1216-1268 | from a legal position every pick-up leads to a legal one closer to the end, and -1 comes only from the last url with cycling over, so the trailing return is never reached |
| Cycling.RestartProgress | curl-loader/loader_fsm.c:1181-1204 | an error restart with a cycle left comes closer to the end |
| Cycling.NextFetchedProgress | curl-loader/loader_fsm.c:1346-1358 | the skip loop ends for any fetch decisions, and comes closer to the end |
| Cycling.NextFetchedIsFirst | curl-loader/loader_fsm.c:1346-1358 | the loop stops at the first url of the remaining trace that is decided for, and at the end if there is none |
| Cycling.TraceInCycle | curl-loader/loader_fsm.c:1216-1268 | what is left from any position in the cycling region |
| Cycling.ExactTrace | curl-loader/loader_fsm.c:1216-1268 | an error-free client without skips visits 0..last, then first..last another cycles-1 times, then the rest; the number of fetches |
| Loader.Batch.constructor | curl-loader/loader.c:1486-1531 | a batch with idle new clients satisfies the accounting invariant |
| Loader.Batch.PickUpNextUrl | curl-loader/loader_fsm.c:1216-1268 | refines the position function; only this client and the batch flag change |
| Loader.Batch.FetchNext | curl-loader/loader_fsm.c:1346-1358 | the loop ends and finds the url that the position function says |
| Loader.Batch.LoadUrlsState | curl-loader/loader_fsm.c:1323-1386 | the new state, position, sleeping time and answer, from CSTATE_URLS and from every other state |
| Loader.Batch.LoadErrorState | curl-loader/loader_fsm.c:1181-1204 | the next cycle from the first url on while cycles are left, otherwise CSTATE_ERROR for good |
| Loader.Batch.LoadState | curl-loader/loader_fsm.c:353-369 | every load state leaves a client that goes on at a legal position closer to its end |
| Loader.Batch.ClientAddToLoad | curl-loader/loader_fsm.c:682-743 | the client joins the multi handle with its completion timer queued if there is a timeout, and its url is the next it fetches; the books of all clients stay right |
| Loader.Batch.ClientRemoveFromLoad | curl-loader/loader_fsm.c:754-774 | the client leaves the multi handle; the counter goes on counting the handle if and only if the client was in it or nobody was |
| Loader.Batch.CancelCompletion | curl-loader/loader_fsm.c:332-347 | the completion timer is gone and its id forgotten |
| Loader.Batch.LoadNextStep | curl-loader/loader_fsm.c:319-480 | the run is over if and only if there is a run time and that much has gone by since the start: then the client is finished where it stands, whatever its state; otherwise a new client is answered Urls exactly if its setup succeeds, and one in an error starts over at the first url, a cycle on, exactly if recovery is on and cycles are left. Its timer is queued exactly when it sleeps or a timeout is given, for that many milliseconds later; the books are kept and no other client changes |
| Plainly.StepInTime | curl-loader/loader_fsm.c:353-369 | a load step on both sides of the run time, told by the clock alone: finished where it stands after it, and before it the answer of the setup or of the next url to fetch |
| Plainly.StepArms | curl-loader/loader_fsm.c:682-743 | when a load step leaves a timer, which, and when exactly it is due |
| BatchRuns.Begin | curl-loader/loader_fsm.c:353-369 | builds and starts a batch of one client for any run time, start time and clock: it transfers if and only if there is no run time or less than that has gone by since the start |
| BatchRuns.RunTimeLimit | curl-loader/loader_fsm.c:365-369 | for any run time: a client started one millisecond before the limit transfers, one started at the limit does not, and a transfer that ends at the limit ends the batch |
| Loader.Batch.HandleSleepingTimer | curl-loader/loader_fsm.c:879-907 | a client whose sleep is over moves from the sleepers to the multi handle, at the same url, with its completion timer queued for the timeout from now if there is one |
| Loader.Batch.HandleUrlCompletionTimer | curl-loader/loader_fsm.c:961-998 | a timeout counts as an error of that client alone and leads to its next step; the answer is -1 if and only if the run time is not over and no cycle is left to recover to or its setup fails |
| Loader.Batch.OrderlySchedClients | curl-loader/loader_fsm.c:1407-1433 | -1 if and only if the run time is not over and some client of the range cannot be set up; exactly the clients up to and including the first such one make their first step; what is added to the queue is due later |
| Loader.Batch.AddLoadingClients | curl-loader/loader_fsm.c:492-571 | -1 if and only if nobody is left or a start fails, and then the count stays; the first call starts clients_num_start clients if that is not 0, every other exactly the increase or as many as are left, without an increase all; each of them makes one step and transfers exactly if the run time is not over, and nobody else changes |
| Plainly.StartsInNumbers | curl-loader/loader_fsm.c:530-556 | the same for any start that succeeds, in plain numbers |
| Plainly.EventStarts | curl-loader/loader_fsm.c:785-811 | one event of a run starts no clients, or the increase or as many as are left |
| Plainly.RampUpCounts | curl-loader/loader_fsm.c:785-811 | over every run: after k steps of the ramp-up the clients started are those at first and k times the increase, or all |
| BatchRuns.RampedRun | curl-loader/loader_fsm.c:533-556 | builds and starts a batch for any number of clients, first number and increase, zeros included, and runs any events: clients_current_sched_num is min(n, first + k * increase) after k steps of the ramp-up, where first is clients_num_start, or without one the increase, or without either all |
| Loader.Batch.HandleRampUp | curl-loader/loader_fsm.c:785-811 | one ramp-up step does the same; while the timer lives the clients still to be started are new |
| Loader.Batch.Fire | curl-loader/timer_queue.c:333-377 | one dispatch keeps the whole batch sound, fires a timer that no other precedes, does to its client or to the clients it starts what the handler does, answers -1 if and only if that handler fails, and re-arms a periodic timer exactly when it does not |
| Loader.Batch.DispatchExpiredTimers | curl-loader/loader_fsm.c:635-669 | it terminates; timers that were due fire each once, in non-decreasing order of time, until the first that fails, known from the state before; none is left if none fails; each has had its full effect on its client, on the clients it starts or on the periodic timer, and nothing else has changed |
| Dispatching.NoneFailsNoneLeft | curl-loader/loader_fsm.c:645-668 | when no due timer's handler fails, every due timer fires and none is due afterwards |
| Dispatching.NoneLeftExactly | curl-loader/loader_fsm.c:653-660 | none is due afterwards if and only if no failing timer fires with others behind it; seen before the dispatch, up to the order among equal times: if every failing timer is due after all others, and only if it is due no earlier than any |
| Dispatching.AllFailOneFires | curl-loader/loader_fsm.c:653-660 | when all due timers fail, one fires and all others are left due |
| Dispatching.FiresExactly | curl-loader/loader_fsm.c:645-668 | whether a given timer fires, seen before the dispatch, up to the order among equal times: if it is due and all failing timers are due later, and only if it is due no later than any of them |
| BatchRuns.OneLeftDue | curl-loader/loader_fsm.c:961-998 | builds and starts a batch of two clients whose urls time out together and dispatches: both are due before, the answer is -1, one of them has had its turn and the other is still due |
| Turns.TurnMore | curl-loader/loader_fsm.c:635-669 | one more handler in a dispatch undoes nothing of what those before it did, and finds its own client, counter and flag as they were before the dispatch |
| Turns.StillFails | curl-loader/loader_fsm.c:635-669 | whether a due timer's handler will fail does not change while the others run |
| Loader.Batch.InitTimersAndAddInitialClients | curl-loader/loader_fsm.c:159-228 | the start of a batch, successful or not, leaves it sound with the periodic timers queued; -1 if and only if there is no client or a start fails; exactly how many and which clients have started, each transferring unless the run time is over by then; the ramp-up timer runs exactly if the start succeeded and clients are left |
| Loader.Batch.MarkFailed | curl-loader/loader_smooth.c:241-248 | marking a transferring client as failed keeps the books |
| Loader.Batch.TransferDone | curl-loader/loader_smooth.c:221-283 | the end of a transfer: its step is cut short if and only if the run time since the start is over; otherwise the client makes its next step, from CSTATE_ERROR if the transfer failed and from its own state if not; no other client, no periodic timer and neither counter nor flag of the ramp-up changes |
| Loader.Batch.PendingClients | curl-loader/loader_fsm.c:1032-1049 | zero exactly when nobody transfers or sleeps, and then every client is at rest with no timer queued |
| Loader.Batch.Happen | curl-loader/loader_smooth.c:143-181 | one event and all it changes: a whole dispatch with the effects of every handler, the next step of a reported client, or the mark on a failed one |
| Loader.Batch.Run | curl-loader/loader_smooth.c:92-100 | over every order of dispatches, ends of transfers and failures the batch stays sound, and every event has all its effects; the loop ends if and only if nobody transfers or sleeps and no ramp-up is going on, at the first such moment; with all clients at rest and no ramp-up timer it ends if and only if no ramp-up has failed; no run has more load steps than clients times the most of one, wake-ups included no more than about twice as many |
| Runs.RestEndsExactly | curl-loader/loader_smooth.c:92-100 | with all clients at rest and no ramp-up timer a run ends, at once, if and only if no ramp-up has failed |
| Runs.StuckForGood | curl-loader/loader_smooth.c:92-100 | once a ramp-up has failed no later moment of a run is its end |
| Runs.MovesOnce | curl-loader/loader_smooth.c:143-181 | an event takes a client at most one step or one wake-up further, and nothing back |
| Runs.FiredMove | curl-loader/loader_fsm.c:635-669 | every client whose timer fires wakes up or makes a load step |
| Runs.DoneSteps | curl-loader/loader_smooth.c:221-283 | every reported end of a transfer is a load step |
| Runs.RunBounded | curl-loader/loader_smooth.c:92-100 | if no client makes more than m load steps, a run has at most clients times m load steps, and at most clients times 2m+1 load steps and wake-ups |
| Runs.BusyRunEnds | curl-loader/loader_smooth.c:92-100 | a run with more events than that, each of which moves a client, comes to its end |
| Turns.StuckExactly | curl-loader/loader_fsm.c:492-571 | a dispatch leaves the flag for more clients set with the ramp-up timer gone if and only if a ramp-up step in it could not start a client |
| Turns.StuckBefore | curl-loader/loader_fsm.c:492-571 | the same seen before the dispatch, up to the order among equal times: if a client cannot be started and the ramp-up timer is due before all others that fail, and only if it is due no later than any of them |
| Turns.EventLeavesStuck | curl-loader/loader_smooth.c:92-100 | no event changes that |
| BatchRuns.NeverEnds | curl-loader/loader_smooth.c:92-100 | builds and starts a batch of two clients, dispatches a ramp-up in which the second cannot be set up, and runs any events: the run, moment by moment, does not end |
| BatchRuns.FetchAll | curl-loader/loader_fsm.c:1216-1268 | a transferring client of any sound batch whose transfers all succeed fetches exactly the urls of its trace, in order, and finishes |
| OneClient.StepKeepsTrace | curl-loader/loader_fsm.c:319-480 | a load step leaves what has been fetched, slept before and is ahead together as it was, and comes closer to the end |
| OneClient.WakeKeepsTrace | curl-loader/loader_fsm.c:879-907 | so does the end of a sleep |
| OneClient.RunFetchesTrace | curl-loader/loader_smooth.c:92-100 | over every run of a one-client batch in which nothing fails, fetched and ahead together are the whole trace at every moment, and all of it has been fetched when the run ends |
| BatchRuns.WholeRun | curl-loader/loader_fsm.c:1216-1268 | builds a batch of one client for any configuration and runs it to the end: it has fetched 0..last, then first..last another cycles-1 times, then the rest |
| BatchRuns.QuietRun | curl-loader/loader_smooth.c:92-100 | builds a batch of one client for any configuration and runs any events in which nothing fails, sleeps included: what it has fetched is a prefix of that sequence, and all of it if the run ends |
| Loader.Batch.Accounting | curl-loader/client.h:88-96 | the invariant spelled out: active_clients_count and sleeping_clients_count are what they count, each client has at most one queued timer and knows its completion timer's id exactly while it is queued, and no client makes more load steps than cycles and urls allow |
| RequestRate.FiveInvocations | curl-loader/loader_fsm.c:1452-1462 | any five invocations in a row, from any phase, ask for the request rate exactly; n times five for n times the rate |
| RequestRate.QuotaIsFair | curl-loader/loader_fsm.c:1452-1462 | one invocation asks for a fifth of the rate rounded down or up, up in exactly the first rate % 5 of the five phases |
| RequestRate.RateBatch.constructor | curl-loader/loader.c:2219-2226 | all clients are free, the first on top |
| RequestRate.RateBatch.PutFreeClient | curl-loader/loader_fsm.c:918-947 | a push of the client's number, or -1 exactly for a full list or a number out of range; zeros stay above the top |
| RequestRate.RateBatch.GetFreeClient | curl-loader/loader_fsm.c:1499-1517 | a pop, or -1 exactly for an empty list |
| RequestRate.RateBatch.ReqRateSchedClients | curl-loader/loader_fsm.c:1446-1487 | asks for its fair share of the rate, and in ramp-up for the largest number that exceeds neither that nor the room up to the clients started; takes as many from the top of the list, or all with -1 when there are fewer, and says what becomes of each; the phase moves on by one; during ramp-up the list never runs out and the busy clients stay within max(busy before, clients started) |
| RequestRate.OnStackExactly | curl-loader/loader_fsm.c:918-947 | over every run from the start, as long as no number is twice on the free list, the clients on it are exactly those not taken since they were last reported done or timed out |
| RequestRate.TwiceExactly | curl-loader/loader_fsm.c:961-998 | over every run from the start: the next event puts a number on the list a second time if and only if it is a client's second answer, an end of transfer or a timeout, since it was last taken, and another client is out |
| RequestRate.PutTwice | curl-loader/loader_fsm.c:918-947 | one event puts a number on the list a second time if and only if it puts back a client that is on it while another is not |
| RequestRate.DoneThenTimeout | curl-loader/loader_smooth.c:257-265 | a run of four events, for any number of clients above one, after which the first client is twice on the list |
| RequestRate.TimeoutThenDone | curl-loader/loader_fsm.c:961-998 | the same with the timeout first and the end of the transfer after it |
| RequestRate.UntimedDistinct | curl-loader/loader_fsm.c:712-724 | without completion timers no run puts a number on the list twice |
| RequestRate.DistinctExactly | curl-loader/loader_fsm.c:918-947 | no run puts a number on the list twice if and only if there is at most one client or no completion timer is ever queued |
| RequestRate.RateBatch.TransferDone | curl-loader/loader_smooth.c:257-265 | the client goes back on the list and its completion timer stays queued |
| RequestRate.RateBatch.HandleUrlCompletionTimer | curl-loader/loader_fsm.c:961-998 | the client goes back on the list and its transfer stays in the multi handle |
| RequestRate.RateBatch.LoadNextStep | curl-loader/loader_fsm.c:332-358 | the completion timer is cancelled and the transfer ended before the client transfers again, sleeps or rests |
| RequestRate.RateBatch.HandleSleepingTimer | curl-loader/loader_fsm.c:879-907 | the client transfers, with or without a completion timer |
| RequestRate.DistinctAfterTaking | curl-loader/loader_fsm.c:1472-1485 | the clients taken are distinct and no longer on the list |
| KeyVals.ChunksDoNotMatter | curl-loader/parse_conf.c:4276-4296 | the state after any chunks is that after the whole text at once |
| KeyVals.KeyFound | curl-loader/parse_conf.c:4324-4368 | for a keyword of accepted characters the key is found if and only if a maximal accepted run equal to it is followed by a character that is not accepted |
| KeyVals.KeyFoundAt | curl-loader/parse_conf.c:4324-4368 | the value scan starts right after the first such place |
| KeyVals.ValueCollected | curl-loader/parse_conf.c:4377-4418 | the value is what stands between the first quote and the next of its kind, or the first accepted run, cut to 255 characters; and whether its end has been seen |
| KeyVals.Scanned | curl-loader/parse_conf.c:4276-4418 | key and value of a response in any chunks, in one statement |
| KeyVals.FlushAccepts | curl-loader/parse_conf.c:4443-4448 | a flush at the end of the text accepts a key found, or one that stands complete at the very end, and nothing else |
| KeyVals.KeyVal.constructor | curl-loader/parse_conf.c:4268-4274 | a fresh scanner for the keyword |
| KeyVals.KeyVal.Scan | curl-loader/parse_conf.c:4276-4296 | the character loop refines the state function |
| KeyVals.KeyVal.ScanForKey | curl-loader/parse_conf.c:4324-4368 | one character of the key scan |
| KeyVals.KeyVal.ScanForValue | curl-loader/parse_conf.c:4377-4408 | one character of the value scan |
| KeyVals.KeyVal.AddToValue | curl-loader/parse_conf.c:4410-4418 | the buffer holds at most 255 characters and stays terminated |
| KeyVals.KeyVal.Init | curl-loader/parse_conf.c:4420-4431 | the scanner is as new |
| KeyVals.KeyVal.Flush | curl-loader/parse_conf.c:4443-4448 | when the value counts as found |
| PcreCounts.IsCountedRepeat | curl-loader/script/pcre/pcre-7.4/pcre_compile.c:855-869 | yes exactly for digits and a brace, digits, a comma and a brace, or digits, a comma, digits and a brace |
| PcreCounts.ReadRepeatCounts | curl-loader/script/pcre/pcre-7.4/pcre_compile.c:892-936 | the two numbers of each form, or the exact error; what is read is a repeat the compiler accepts |
| PcreCounts.ReadsDecimal | curl-loader/script/pcre/pcre-7.4/pcre_compile.c:892-936 | the decimal notation of a number, leading zeros or not, is read as that number |
| PcreMeaning.ExpansionKeepsMeaning | curl-loader/script/pcre/pcre-7.4/pcre_compile.c:3385-3983 | the code of every pattern matches exactly the words the pattern describes; with the brackets of the capturing groups as symbols of the words, numbered in the order in which they open, so that every capture is of the same group and the same text |
| PcreMeaning.SingleRepeated | curl-loader/script/pcre/pcre-7.4/pcre_compile.c:3540-3688 | EXACT, UPTO, STAR, PLUS and QUERY items denote exactly n to m repetitions of the character |
| PcreMeaning.GroupRepeated | curl-loader/script/pcre/pcre-7.4/pcre_compile.c:3729-3983 | copies, nested BRAZERO groups and a repeating KET denote exactly n to m repetitions of the group |
| PcreMeaning.NestedLang | curl-loader/script/pcre/pcre-7.4/pcre_compile.c:3880-3947 | k optional groups inside one another denote at most k repetitions |
| PcreOrder.ExpansionKeepsOrder | curl-loader/script/pcre/pcre-7.4/pcre_compile.c:3385-3983 | on every text, from every position, the code offers the same ends of a match as the pattern in the same order: more first for greedy repeats, fewer first for lazy ones, alternatives from left to right |
| PcreOrder.GroupOrder | curl-loader/script/pcre/pcre-7.4/pcre_compile.c:3729-3983 | the same for copies, nested optional groups and a repeating KET |
| PcreOrder.SingleOrder | curl-loader/script/pcre/pcre-7.4/pcre_compile.c:3540-3688 | the same for EXACT, UPTO, STAR, PLUS and QUERY items |
| PcreCaptures.EveryNumber | curl-loader/script/pcre/pcre-7.4/pcre_compile.c:4800-4808 | every capturing bracket of the code, in copies made by repeats too, holds the group of the pattern whose opening bracket is the one of that number |
| PcreCaptures.CarriesMeaning | curl-loader/script/pcre/pcre-7.4/pcre_compile.c:4800-4808 | between the marks of such a bracket stand the words of that group |
| PcreCaptures.AllNumbers | curl-loader/script/pcre/pcre-7.4/pcre_compile.c:4800-4808 | the numbers in the code are n+1, ..., n+k for the k capturing groups of the pattern, all of them unless something is repeated {0}, and no others |
| PcreDecode.OpsBack | curl-loader/script/pcre/pcre-7.4/pcre_internal.h:619-756 | a decoder that knows the numbers of the opcodes and follows the links reads back from the bytes of any code exactly that code |
| PcreDecode.PatternReadBack | curl-loader/script/pcre/pcre-7.4/pcre_internal.h:619-756 | the bytes of every pattern are read back as code that matches what the pattern describes, in its order, with its captures |
| PcreLength.MeasureEnough | curl-loader/script/pcre/pcre-7.4/pcre_compile.c:4899-4917 | the measured length covers the emitted bytes of every group, with equality if and only if nothing in it is repeated {0} |
| PcreLength.MeasureExactly | curl-loader/script/pcre/pcre-7.4/pcre_compile.c:4899-4917 | the measured length is exactly the length of the code of the pattern in which what is repeated {0} stands once |
| PcreLength.ItemFits | curl-loader/script/pcre/pcre-7.4/pcre_compile.c:3830-3902 | the same for one item and its repeat, where the measuring pass multiplies instead of copying |
| PcreLinks.ReverseChain | curl-loader/script/pcre/pcre-7.4/pcre_compile.c:5374-5385 | the back links of any number of branches become forward links; no byte outside the link fields changes |
| PcreLinks.CloseGroup | curl-loader/script/pcre/pcre-7.4/pcre_compile.c:5374-5391 | the closed group: every branch links to the next, the last to the KET, the KET back over the whole group |
| PcreLinks.FindKet | curl-loader/script/pcre/pcre-7.4/pcre_compile.c:3743-3756 | following links from the opening bracket visits the start of every branch once, in order, and ends at the KET |
| PcreLinks.AltsChained | curl-loader/script/pcre/pcre-7.4/pcre_compile.c:5430-5443 | the chain of branches is the encoding of the alternation |
| PcreRepeat.MakeOptional | curl-loader/script/pcre/pcre-7.4/pcre_compile.c:3783-3790 | {0,1} and {0,}: the group moves up behind a BRAZERO, its KET repeating or not |
| PcreRepeat.MakeNested | curl-loader/script/pcre/pcre-7.4/pcre_compile.c:3799-3818 | {0,m}: the group moves up into the first of m nested optional groups |
| PcreRepeat.NestCopies | curl-loader/script/pcre/pcre-7.4/pcre_compile.c:3905-3932 | the loop of copies: pending brackets are chained through their link fields |
| PcreRepeat.CloseNested | curl-loader/script/pcre/pcre-7.4/pcre_compile.c:3934-3947 | the loop that fills in the pending links from the inside out |
| PcreRepeat.Replicate | curl-loader/script/pcre/pcre-7.4/pcre_compile.c:3850-3867 | {n,}: the group stands n times in a row |
| PcreRepeat.RepeatInPlace | curl-loader/script/pcre/pcre-7.4/pcre_compile.c:3729-3983 | whatever the counts, the bytes become those of the expanded repeat, and every byte written lies within the group or what replaces it |
| PcreEmit.RepeatCharacter | curl-loader/script/pcre/pcre-7.4/pcre_compile.c:3540-3688 | the repeated character is replaced by its repeat items, within the longer of the two; `PcreDecode.OpsBack` says what those bytes are read as, and `PcreOrder.SingleOrder` and `PcreMeaning.SingleRepeated` what that means |
| PcreEmit.EmitItem | curl-loader/script/pcre/pcre-7.4/pcre_compile.c:2394-2590 | one item and its repeat, written within its measured length |
| PcreEmit.EmitBranch | curl-loader/script/pcre/pcre-7.4/pcre_compile.c:2314-2460 | a branch, written within its measured length, is the encoding of its expansion |
| PcreEmit.EmitRegex | curl-loader/script/pcre/pcre-7.4/pcre_compile.c:5214-5449 | a group with any alternatives, its chain closed, is the encoding of the expanded alternation |
| PcreEmit.Compile | curl-loader/script/pcre/pcre-7.4/pcre_compile.c:5939-6021 | the emitting pass fills a buffer of the measured length and never writes outside it; the bytes before OP_END are read back as code that matches exactly what the pattern describes, in its order, with the capturing groups numbered as they open; a pattern over 65536 bytes is refused |
| PcreMeasure.MeasureBranchPass | curl-loader/script/pcre/pcre-7.4/pcre_compile.c:2406-2458 | the moving code pointer adds up exactly the measured length of a branch |
| PcreMeasure.MeasureGroup | curl-loader/script/pcre/pcre-7.4/pcre_compile.c:3765-3983 | the repeat of a group in the measuring pass |
| PcreMeasure.MeasureRegexPass | curl-loader/script/pcre/pcre-7.4/pcre_compile.c:5241-5449 | the length of a whole group |
| PcreMeasure.CompilePattern | curl-loader/script/pcre/pcre-7.4/pcre_compile.c:5913-6021 | both passes together, from the pattern to bytes that are read back as code with its meaning |
| PcreNames.CompareWithSlot | curl-loader/script/pcre/pcre-7.4/pcre_compile.c:4468-4482 | memcmp over the length of the name and the test for the end of the slot agree with the order of strcmp |
| PcreNames.CompareDecides | curl-loader/script/pcre/pcre-7.4/pcre_compile.c:4468-4482 | the order of names: the first byte that differs decides, and a proper prefix comes first |
| PcreNames.NameTable.Add | curl-loader/script/pcre/pcre-7.4/pcre_compile.c:4463-4495 | ERR43 exactly for a name that is there when duplicates are not allowed; otherwise the entry goes behind all that do not follow it, and the table stays sorted |
| PcreNames.NameTable.MakeRoom | curl-loader/script/pcre/pcre-7.4/pcre_compile.c:4483-4488 | the slots from a position on move up by one |
| PcreNames.InsertKeepsSorted | curl-loader/script/pcre/pcre-7.4/pcre_compile.c:4467-4495 | inserting at that place keeps the table sorted, a proper prefix first and duplicates adjacent |
| PcreNames.NameTable.GetStringNumber | curl-loader/script/pcre/pcre-7.4/pcre_get.c:68-97 | the number of an entry with that name, or PCRE_ERROR_NOSUBSTRING exactly when there is none |
| PcreNames.NameTable.GetEntries | curl-loader/script/pcre/pcre-7.4/pcre_get.c:117-164 | the first and the last of exactly the entries with that name, or -1 |
| Statistics.Merged | curl-loader/statistics.c:100-121 | merging two means gives a mean of all their samples: n*avg <= sum <= n*avg + n(n-1)/2, between the least and the greatest sample |
| Statistics.MergedIsFloor | curl-loader/statistics.c:100-121 | the merged mean is the weighted mean rounded down |
| Statistics.Sampled | curl-loader/client.c:190-207 | adding one sample keeps the same bounds |
| Statistics.StatPoint.ApplDelayAdd | curl-loader/client.c:190-207 | the truncated weighted mean, which stays a mean of the delays so far; a response that is not later than its request is ignored |
| Statistics.StatPoint.ApplDelay2xxAdd | curl-loader/client.c:208-225 | the same for 2xx responses |
| Statistics.StatPoint.Add | curl-loader/statistics.c:82-121 | counters are summed, and both means are means of the delays of both points |
| Statistics.StatPoint.Reset | curl-loader/statistics.c:132-145 | everything is zero |
| Addresses.AddCarryAdds | curl-loader/loader.c:1943-1960 | the carry loop adds one to the big-endian number, and overflows exactly for all ones |
| Addresses.Ipv6Increment | curl-loader/loader.c:1943-1968 | the increment of the low 112 bits, or -1 exactly when they are all ones; source and destination may be the same |
| Addresses.IncrementedIsNext | curl-loader/loader.c:1943-1968 | the incremented address is the next number, in the same scope |
| Addresses.IncrementBytes | curl-loader/loader.c:1943-1968 | byte by byte: the last bytes that are 255 become 0, the one before them one more, and the rest stays |
| Addresses.ClientAddresses | curl-loader/loader.c:1839-1864 | client j of a batch gets the lowest address plus j, or -1 exactly when the scope is left |
| Addresses.SubbatchRanges6 | curl-loader/loader.c:2067-2094 | the ranges of all sub-batches, or -1 exactly when the arguments are out of range or the scope is left |
| Addresses.SubbatchRanges4 | curl-loader/loader.c:2056-2062 | the IPv4 ranges |
| Addresses.AddressesDistinct6 | curl-loader/loader.c:2067-2094 | no two clients of any sub-batches have the same IPv6 address |
| Addresses.AddressesDistinct4 | curl-loader/loader.c:2054-2062 | nor the same IPv4 address |
| Addresses.AssignAddresses6 | curl-loader/loader.c:2054-2094 | the ranges and all clients' addresses together: -1 exactly when the ranges cannot be had, and all addresses distinct |
| Addresses.ClientsInSubbatches | curl-loader/loader.c:2024-2032 | all sub-batches together have at most the clients of the batch, and fewer are missing than there are sub-batches |

## Left out

- libcurl, select, libevent, sockets, files, logging, screen and keyboard input, signals and threads: input and
  output, or foreign code. Adding and removing handles is taken to succeed.
- Running out of memory, `mpool_mem_release` (it frees single objects inside a block) and `heap_reset`.
- Overflow of machine integers, except for bytes and two-byte links. Clocks are not negative and do not run
  backwards during a dispatch.
- TimerQueues.TimerQueue.EndDispatch: `tq_dispatch_nearest_timer` is modelled as two methods around the handler; a
  handler may schedule and cancel, but one that succeeds must not have queued its own periodic timer, and one that
  fails must not have given it the id of a queued timer. The handlers of this program do neither.
- TimerQueues.TimerQueue.SetNextTimer: the key of a queued timer must not change, because keys live in the timer nodes.
- Loader: clients are values in a sequence field of the batch, standing for the array of structures; their timer
  nodes are objects. The keyboard's "add clients" and "stop ramp-up" commands, statistics and logging are left out.
- Loader.Batch: the combination of the state machine with the fixed request rate is not modelled.
- Cycling.ExactTrace: for one client, as is what rests on it in `OneClient` and `BatchRuns`; with several, the
  batch-wide flag that ends cycling cuts the others' cycles short.
- RequestRate.RateBatch.LoadNextStep: where a load step leads a client is a parameter (it transfers, with or
  without a completion timer, sleeps or rests), and runs are followed up to the first number that is twice on the list.
- Configuration parsing and validation, apart from the search for the cycling urls.
- Pattern compiler: character classes, escapes, assertions, possessive quantifiers, back references, recursion and
  its fix-ups, inline options, callouts, UTF-8, first and required bytes, and the conversion of a repeating group that
  could match an empty string to its S form. Patterns are syntax trees; reading the counts is modelled on text.
- PcreRepeat.RepeatInPlace: the opening bracket of an unlimited group that could match an empty string is left as it
  is; the source gives it its S form (pcre_compile.c:3961-3979).
- PcreEmit.RepeatCharacter: auto-possessification is left out. Before an unlimited repeat the source looks at what
  follows, and when the two cannot match the same character it stores the possessive form of the opcode
  (pcre_compile.c:3478-3488), so that the opcode of the `a*` in `a*b` differs from the one stored here.
- PcreOrder.ExpansionKeepsOrder: an iteration that matches nothing is the last of an unlimited repeat; the source's
  matcher needs the S form for that (pcre_exec.c:1188-1262) and is itself not part of this model.
- PcreNames.NameTable.Add: entries are values in an array rather than slots of bytes; the number is not cut to 16 bits.
- Addresses.SubbatchRanges6: addresses that are not shared; the copying of the other batch fields is left out.
- Statistics.StatPoint: `op_stat_point` and the reports.

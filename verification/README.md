# Verification of WriteBoost RCU

A Dafny model of the cell `rcu_protected<T>` (`include/wbrcu/rcu_protected.hpp`) and of its reader slots
(`include/wbrcu/detail/ThreadCachedReaders.hpp`), with proofs of what the cell is for: readers see stable
snapshots without ever locking anybody out, updates are applied exactly once and in order by one elected
thread, and memory is reused in place without ever being taken from under a reader. Check it with
`dafny verify dfyconfig.toml`.

## How the model is built

The model is a state machine of atomic steps, and a class whose methods are proved to take those steps.

- `Callbacks.dfy`: the protected type `T`, about which nothing is known, and callbacks. A callback is the
  transformer it applies and the list of `update` calls it makes itself.
- `Memory.dfy`: published pointer, epoch bit, retire lists, pool, reader slots, allocator. A reader's
  `get_ptr` is three steps (load the epoch, store the slot, load the pointer) and its release a fourth; a
  scan is one step per slot, in any order, over the slots that exist when it begins.
- `Ledger.dfy`: `m_updateCnt`, the queue, and the control flow of `update` and `do_updates`. Any number of
  threads may have been elected; that there is never more than one is a theorem. Every call of `update` has
  a ticket, its place among the `fetch_add`s. The calls applied, the call in the updater's hand and the queue
  form one line, and the order results rest on the fact that this line only ever grows at its end.
- `System.dfy`: both sides together, runs, reachable states, and the invariant.
- `Guarantees.dfy`: safety, over every reachable state and every run. `Liveness.dfy`: deadlock and
  termination. `Witnesses.dfy`: runs that attain the bounds. `Reference.dfy`: the mutex-protected cell of the
  benchmarks as the simple meaning of `update`.
- `Alone.dfy`: what one `update` does when no other thread calls it, nested calls included.
- `ThreadCachedReaders.dfy`, `RcuProtected.dfy`: the two classes with their fields and their loops. Before
  each shared access of a method `Interfere` gives the other threads a turn, in which they take the steps
  that an arbitrary `schedule` asks for, among them slot stores between two slot reads of one scan. The
  field `state` is the whole system; each access of a method is proved to be exactly the step it stands
  for, so every theorem about reachable states and runs holds of the executions of the class. A thread that
  blocks waits as long as the schedule lasts and then reports by its result that it is blocked; that
  `DoUpdates` terminates is its session termination.
- `Interference.dfy`: the record of an execution of the class, that is the ghost field `trace`. It holds the
  thread's own steps and the turns of the others, and `Valid` says that it leads from the beginning to the
  present state and that the turns got the batches of the schedule, each one and in order. So a method that
  says what it adds to `trace` says everything that its thread did itself, and that the others were let in
  between. Conversely every interleaving of such steps is an execution (`Interference.EveryInterleaving`).

History fields (`log`, `seen`, `since`, `late`, `registered`, `applied`, `returned` and the counters) only
record what happened; no step depends on them.

Assumptions: steps interleave in one sequentially consistent order; the queue is a bounded linearizable FIFO
of capacity 500 * C, where C is `WBRCU_HARDWARE_CONCURRENCY`, at least 1; a thread releases its pointer before
it calls `get_ptr` again; `flushingThreshold` is any natural number, and a bound that needs it to be positive
says so; counters are unbounded. Work that only the updater can see (`get_copy`, the list operations of
`retire` up to the epoch store, the invocation of a callback on the private copy) is one step each.

## What the code does differently from what is written about it

- `doc/checkpoint2/checkpoint2.md` calls the flushing threshold the maximum number of updates on a private
  copy before it is published. The first publication of a session can carry one more:
  `Guarantees.BatchBounds` says exactly when, `Witnesses.FirstBatchExceedsThreshold` gives a run. With a
  threshold of 0 there is no bound (`Witnesses.NoThresholdNoBound`).
- The same report says that an epoch advance is tried when the list of the current epoch exceeds the number
  of processors; the code tries as soon as it reaches it. The model follows the code.
- A callback may call `update` (`test/test_rcu_protected.cpp:98-108`), but the updater then blocks itself for
  ever if the queue is full at that moment, and so does everybody else: `Liveness.SelfDeadlock` is a run of
  one thread alone, `Liveness.ProgressUnlessStuck` says that this is the only deadlock, and by
  `Alone.UpdateAlone` a thread alone is safe from it with as many nested calls as the queue has places.

## Model

| member | source | states |
|---|---|---|
| Guarantees.GracePeriod | include/wbrcu/rcu_protected.hpp:209-230 | in every reachable state, whatever stale label its slot got and however scans and stores interleaved, the object a reader holds is alive, not in the pool and not the updater's private copy |
| Guarantees.SnapshotIsStable | include/wbrcu/rcu_protected.hpp:58-66 | from the pointer load to the release, over any run, the value behind the pointer is that of one fixed prefix of the applied callbacks, although pooled objects are overwritten |
| Guarantees.ReadsSnapshot | include/wbrcu/rcu_protected.hpp:131-146 | the value a reader reads is the initial value folded over a published prefix of the applied callbacks |
| Guarantees.LoadsLastPublication | include/wbrcu/rcu_protected.hpp:63-65 | the prefix is the one of the last publication before the pointer load |
| Guarantees.ReadsAreMonotone | include/wbrcu/rcu_protected.hpp:58-66 | a `get_ptr` that begins after another one returned, on any thread, sees an equal or longer prefix |
| Guarantees.EpochLag | include/wbrcu/detail/ThreadCachedReaders.hpp:25-47 | between slot store and release the epoch advances at most twice, and twice only if a scan for the stored label was under way and had passed the slot |
| Witnesses.EpochLagAttained | include/wbrcu/rcu_protected.hpp:214-229 | a lag of two occurs |
| Guarantees.SlotLayout | include/wbrcu/detail/ThreadCachedReaders.hpp:11-18 | bit 0 of every slot is set exactly while its thread is between slot store and release, and then bit 1 is the epoch it loaded and the other bits are 0 |
| Guarantees.RunGrows | include/wbrcu/rcu_protected.hpp:163-207 | over any run nothing applied, registered, lined up or published is taken back |
| Guarantees.SingleUpdater | include/wbrcu/rcu_protected.hpp:109-113 | the counter is positive exactly when some thread is between election and resignation, and there are never two |
| Guarantees.ListsArePrivate | include/wbrcu/rcu_protected.hpp:97-107 | only steps of the one updater change the retire lists, the pool or an object |
| Guarantees.ResignationLosesNothing | include/wbrcu/rcu_protected.hpp:193-203 | the exchange of the counter for 0 succeeds exactly when every registered call is applied; then all is published, the queue is empty and no thread is between `fetch_add` and `blockingWrite` |
| Guarantees.AppliedOnce | include/wbrcu/rcu_protected.hpp:163-187 | no call is applied twice, only registered ones are, and a call that returned has a place in the line |
| Guarantees.RealTimeOrder | include/wbrcu/rcu_protected.hpp:70-86 | a call that returned before another was made is applied before it, in whichever sessions, enqueued or not |
| Guarantees.PublishedValue | include/wbrcu/rcu_protected.hpp:189-191 | the object at `m_ptr` is always the fold of the published prefix |
| Guarantees.QuiescentValue | include/wbrcu/rcu_protected.hpp:193-203 | when the counter is 0 the object at `m_ptr` is what all registered callbacks give, run one by one on one object |
| Guarantees.BatchBounds | include/wbrcu/rcu_protected.hpp:171-191 | a publication carries at least one callback, at most threshold + 1, and more than the threshold exactly if it is the first of its session and full |
| Guarantees.UnpublishedBound | include/wbrcu/rcu_protected.hpp:166-205 | at most threshold + 1 callbacks are applied and not published |
| Guarantees.LastLook | include/wbrcu/rcu_protected.hpp:172-191 | over any run: a batch below the threshold is published only if the updater's last step before was the look of line 186, at a moment when every call registered so far had been applied |
| Guarantees.NoLookWhenFull | include/wbrcu/rcu_protected.hpp:183-185 | a batch whose size is the threshold is never held back for another look |
| Witnesses.FirstBatchExceedsThreshold | include/wbrcu/rcu_protected.hpp:166-191 | for every positive threshold a run whose first publication carries threshold + 1 |
| Witnesses.NoThresholdNoBound | include/wbrcu/rcu_protected.hpp:178-185 | with threshold 0, for every n a run with more than n applied and unpublished callbacks |
| Guarantees.NestedIsEnqueued | include/wbrcu/rcu_protected.hpp:150-159 | an `update` called from inside a callback is never elected, and its enclosing call is the one applied last |
| Guarantees.NestedAppliedLater | test/test_rcu_protected.cpp:98-108 | wherever the run goes, the nested call is applied after the enclosing one |
| Guarantees.ReturnsAfterAllItServes | include/wbrcu/rcu_protected.hpp:70-86 | when the updater's `update` has returned, everything registered while it was at work, nested calls included, is applied and published |
| Guarantees.EveryObjectOnce | include/wbrcu/rcu_protected.hpp:88-107 | every object ever created is in exactly one place exactly once: published, in hand, in a list, in the pool, or deleted |
| Guarantees.AmortisedAdvance | include/wbrcu/rcu_protected.hpp:212-229 | advances times C plus the length of the current list is at most the number of `retire` calls |
| Guarantees.PoolArithmetic | include/wbrcu/rcu_protected.hpp:131-146 | pool size and number of live objects, from pool size at the last advance and copies since, scans blocked or not |
| Guarantees.PoolShrinks | include/wbrcu/rcu_protected.hpp:131-146 | over any run after an epoch advance without a second one: k copies later the pool has f0 - k objects or none, and the number of live objects follows |
| Guarantees.CountersCount | include/wbrcu/rcu_protected.hpp:209-230 | the history counters of the bounds are the numbers of `retire` calls, epoch advances and copies in the run |
| Guarantees.BlockedByReader | include/wbrcu/detail/ThreadCachedReaders.hpp:37-47 | a scan is given up only because of a thread that is reading with the label of the previous epoch |
| Guarantees.ReaderBlocks | include/wbrcu/detail/ThreadCachedReaders.hpp:41-46 | and it is given up at the first such thread it meets |
| Guarantees.SteadyState | include/wbrcu/rcu_protected.hpp:209-230 | while no scan met a reader: at most 2C + 1 objects are ever created, none is deleted, and from the 2C-th `retire` on no copy allocates |
| Liveness.ProgressUnlessStuck | include/wbrcu/rcu_protected.hpp:163-207 | while an update is outstanding, some updater or enqueuer can step if and only if the updater is not in a nested call that finds the queue full |
| Liveness.EmptyQueueHasWriter | include/wbrcu/rcu_protected.hpp:173-175 | an updater waiting on the empty queue waits for a registered thread that is able to write |
| Liveness.FlatCallbacksNeverStuck | include/wbrcu/rcu_protected.hpp:81-85 | callbacks that do not call `update` never lead to the deadlock |
| Liveness.StuckForever | include/wbrcu/rcu_protected.hpp:115-117 | after the deadlock no call returns and nothing is applied or published, over any run |
| Liveness.SelfDeadlock | include/wbrcu/rcu_protected.hpp:81-85 | with any queue, one thread alone gets there by one `update` whose callback nests one call more than the queue has room |
| Liveness.WorkBurns | include/wbrcu/rcu_protected.hpp:163-207 | every step of an update under way decreases a measure of callback trees, pending enqueues, loop phase and slots to scan |
| Liveness.SessionsTerminate | include/wbrcu/rcu_protected.hpp:163-207 | without new calls from outside, a run has at most that many such steps, however readers interleave |
| Liveness.CanFinish | include/wbrcu/rcu_protected.hpp:169-206 | every reachable state has a continuation without new calls to quiescence or to the deadlock |
| Liveness.FlatCanFinish | include/wbrcu/rcu_protected.hpp:169-206 | if no callback calls `update`, every reachable state has a continuation without new calls to quiescence |
| Alone.UpdateAlone | test/test_rcu_protected.cpp:98-108 | an `update` of a whole tree of nested calls that no other thread's call interferes with: it waits for nobody, and when it is done exactly the callbacks of the tree have been registered, applied and published, each once, in first-come-first-served order; it cannot block itself if the tree has no more nested calls than the queue has places |
| Interference.PlayFollows | include/wbrcu/rcu_protected.hpp:58-86 | whatever an execution of the class records is a run of the system |
| Interference.EveryInterleaving | include/wbrcu/rcu_protected.hpp:58-86 | every run that interleaves a thread's steps with steps of the others is an execution, so nothing others can do is excluded |
| Interference.PlayedIsRun | include/wbrcu/rcu_protected.hpp:58-86 | a turn in which the others ask for steps that are theirs and can be taken in their order is exactly that run |
| Memory.ReadSlotProtects | include/wbrcu/detail/ThreadCachedReaders.hpp:41-46 | a slot found not to contain the label proves that its thread holds nothing of the previous list, also for the rest of the scan |
| Memory.StillProtected | include/wbrcu/rcu_protected.hpp:209-230 | every updater step keeps what protects a held object, across advances |
| Memory.ReaderGrace | include/wbrcu/rcu_protected.hpp:58-66 | every reader step keeps it, with any label |
| Memory.UpdaterKeepsSnapshot | include/wbrcu/rcu_protected.hpp:131-146 | no updater step changes an object that a reader may hold |
| Memory.UpdaterPartition | include/wbrcu/rcu_protected.hpp:209-230 | every updater step keeps each object in exactly one place |
| Memory.UpdaterLag | include/wbrcu/rcu_protected.hpp:214-229 | every updater step keeps the bound on the epoch lag |
| Memory.AliveObjects | include/wbrcu/rcu_protected.hpp:47-53 | the places together are the live objects, counted with the deleted ones they are all that were created |
| Ledger.LineOnlyGrows | include/wbrcu/rcu_protected.hpp:70-86 | every step leaves the order of service as it is or appends one call, and loses none |
| Ledger.KeepsSingleUpdater | include/wbrcu/rcu_protected.hpp:150-159 | no step elects a second updater |
| Ledger.KeepsCount | include/wbrcu/rcu_protected.hpp:163-207 | counter, `done`, applied and registered calls keep adding up |
| Ledger.KeepsUpdating | include/wbrcu/rcu_protected.hpp:163-207 | every step keeps the relations between `done`, `updateCnt`, `unflushed` and what is published |
| Ledger.LinedUpFirst | include/wbrcu/rcu_protected.hpp:81-85 | a call in the line comes before every call registered later |
| Readers.ThreadCachedReaders.Increment | include/wbrcu/detail/ThreadCachedReaders.hpp:11-29 | the slot has bit 0 set, bit 1 equal to the epoch and no other bit, and no other slot changes |
| Readers.ThreadCachedReaders.Decrement | include/wbrcu/detail/ThreadCachedReaders.hpp:31-35 | the slot gets 0 |
| Readers.ThreadCachedReaders.Reads | include/wbrcu/detail/ThreadCachedReaders.hpp:41-46 | whether the slot shows its thread reading under this epoch |
| Rcu.RcuProtected.constructor | include/wbrcu/rcu_protected.hpp:45 | one object, everything else empty, the queue of size 500 * C |
| Rcu.RcuProtected.Interfere | include/wbrcu/rcu_protected.hpp:109-113 | the others take exactly the steps of their batch, if they are a run and theirs to take; what only this thread may change stays; the turn is recorded |
| Rcu.RcuProtected.GetPtr | include/wbrcu/rcu_protected.hpp:58-66 | takes its three steps with a turn of the others between them, and nothing else; any steps of the others there are an execution; returns a live object with the value of the last publication; alone it changes only its own slot |
| Rcu.RcuProtected.ReadLock | include/wbrcu/rcu_protected.hpp:119-123 | the slot shows the epoch that was loaded before the others had their turn |
| Rcu.RcuProtected.LoadEpoch | include/wbrcu/rcu_protected.hpp:119-123 | the label is the epoch of that moment, and nothing else changes |
| Rcu.RcuProtected.StoreSlot | include/wbrcu/detail/ThreadCachedReaders.hpp:25-29 | the thread's slot shows the label, old as it may be, and no other slot or reader changes |
| Rcu.RcuProtected.LoadPtr | include/wbrcu/rcu_protected.hpp:63-65 | the pointer is the published one, with its value, and no other reader changes |
| Rcu.RcuProtected.ReleasePtr | include/wbrcu/rcu_protected.hpp:62 | one step: the thread holds nothing and its slot is 0; every other slot and reader, and all else, is as before |
| Rcu.RcuProtected.Update | include/wbrcu/rcu_protected.hpp:68-86 | makes exactly one call; elected, its thread does only updater steps, each after a turn of the others; not elected, it waits and enqueues that call and does nothing else; a completed call is in the line, an elected one leaves the cell quiescent, an incomplete one is blocked in one of three named ways; without others an elected call serves the tree of its callback and nothing else, and publishes the callback's effect if it has no nested calls |
| Rcu.RcuProtected.Register | include/wbrcu/rcu_protected.hpp:150-159 | elected exactly if the counter was 0, otherwise between `fetch_add` and `blockingWrite` |
| Rcu.RcuProtected.BlockingWrite | include/wbrcu/rcu_protected.hpp:81-85 | waits only while the queue is full; the call is at the end of the queue and has returned, or the queue stayed full |
| Rcu.RcuProtected.EnqueueCall | include/wbrcu/rcu_protected.hpp:81-85 | a thread that was not elected enqueues its one call and nothing else |
| Rcu.RcuProtected.RunAsUpdater | include/wbrcu/rcu_protected.hpp:72-79 | own callback first, then `do_updates` |
| Rcu.RcuProtected.TakeObject | include/wbrcu/rcu_protected.hpp:136-144 | the last pooled object, or a new one if the pool is empty |
| Rcu.RcuProtected.GetCopy | include/wbrcu/rcu_protected.hpp:131-146 | the object has the published value, no other object changed, and no reader holds it |
| Rcu.RcuProtected.Apply | include/wbrcu/rcu_protected.hpp:176 | exactly the private copy is transformed, and the call is applied |
| Rcu.RcuProtected.NestedRegister | include/wbrcu/rcu_protected.hpp:150-159 | a nested call is counted and not elected |
| Rcu.RcuProtected.NestedWrite | include/wbrcu/rcu_protected.hpp:81-85 | written exactly if the queue has room, otherwise the deadlock |
| Rcu.RcuProtected.NestedUpdate | test/test_rcu_protected.cpp:98-108 | the nested callback goes to the end of the queue and does not touch the copy |
| Rcu.RcuProtected.RunCallback | include/wbrcu/rcu_protected.hpp:175-177 | the copy is transformed once and all nested calls are made, or the deadlock |
| Rcu.RcuProtected.LoadCount | include/wbrcu/rcu_protected.hpp:168 | reads the counter and goes to the head of the loop |
| Rcu.RcuProtected.ReloadCount | include/wbrcu/rcu_protected.hpp:186-187 | reads the counter and stays in the batch exactly if there is more to do |
| Rcu.RcuProtected.BlockingRead | include/wbrcu/rcu_protected.hpp:175 | waits only while the queue is empty; takes the head of the queue, or waits for a registered writer |
| Rcu.RcuProtected.ServeNext | include/wbrcu/rcu_protected.hpp:175-177 | the head of the queue is applied next |
| Rcu.RcuProtected.ServeCounted | include/wbrcu/rcu_protected.hpp:173-181 | the inner loop: applies until as many as counted, or the threshold |
| Rcu.RcuProtected.FillBatch | include/wbrcu/rcu_protected.hpp:172-187 | the middle loop: a batch of at most threshold queued callbacks, ready to be published; if it is smaller, the last access was a look at the counter that found everything registered applied |
| Rcu.RcuProtected.Exchange | include/wbrcu/rcu_protected.hpp:190 | the copy becomes the published object and the old one is in hand |
| Rcu.RcuProtected.Flush | include/wbrcu/rcu_protected.hpp:189-191 | the copy is published with everything applied, and what it replaces is retired |
| Rcu.RcuProtected.CompareExchange | include/wbrcu/rcu_protected.hpp:195-203 | resigns exactly if the counter is what was expected, otherwise learns its value |
| Rcu.RcuProtected.DoUpdates | include/wbrcu/rcu_protected.hpp:163-207 | terminates, with a turn of the others before each access; resigned, it leaves counter 0 and everything applied and published; otherwise it waits for a registered writer or is deadlocked |
| Rcu.RcuProtected.PushRetired | include/wbrcu/rcu_protected.hpp:214-217 | the pointer is appended to the current list, and a scan is due exactly if that has at least C elements |
| Rcu.RcuProtected.AccessAllThreads | include/wbrcu/detail/ThreadCachedReaders.hpp:40 | fixes the slots to be read |
| Rcu.RcuProtected.ReadSlot | include/wbrcu/detail/ThreadCachedReaders.hpp:41-46 | one slot is compared with the label of the previous epoch |
| Rcu.RcuProtected.EpochIsClear | include/wbrcu/detail/ThreadCachedReaders.hpp:37-47 | reads slot after slot, with a turn of the others before each; clear only if each was found without the label |
| Rcu.RcuProtected.Reclaim | include/wbrcu/rcu_protected.hpp:226-228 | the previous list becomes the pool, exactly the old pool is deleted, and no reader holds anything of either |
| Rcu.RcuProtected.StoreEpoch | include/wbrcu/rcu_protected.hpp:229 | the epoch flips |
| Rcu.RcuProtected.Retire | include/wbrcu/rcu_protected.hpp:209-230 | lists, pool, epoch and deleted objects after `retire`, advanced or not, with a turn of the others before each access |
| Rcu.RcuProtected.DeleteAll | include/wbrcu/rcu_protected.hpp:227 | every object of the list is deleted, each alive when it is |
| Rcu.RcuProtected.Destroy | include/wbrcu/rcu_protected.hpp:47-53 | at quiescence without readers every object left is deleted, each exactly once, and none remains |
| Reference.LockProtected.Update | benchmark/common.hpp:22-26 | the callback changes the one object |
| Reference.Replay | benchmark/common.hpp:22-26 | calls made one after another on the mutex-protected cell fold their transformers |
| Reference.ReplayQuiescent | test/test_rcu_protected.cpp:94-95 | the mutex-protected cell and the quiescent RCU cell have the same value |

## Left out

- Weak memory: the slot store is relaxed and the pointer load an acquire load
  (`include/wbrcu/detail/ThreadCachedReaders.hpp:28`, `include/wbrcu/rcu_protected.hpp:64`). All theorems are
  about sequentially consistent interleavings; nothing is claimed about hardware that lets the pointer load
  overtake the slot store.
- The internals of folly's `MPMCQueue`, `ThreadLocal` and `Function`, which are not part of this repository:
  a bounded FIFO, a growing set of slots, a pure transformer.
- Callbacks whose nested calls of `update` depend on the value they find, or that read the cell: the list of
  nested calls of a callback is fixed.
- Nested read locks, which the source forbids its users (`include/wbrcu/rcu_protected.hpp:55-57`).
- Exceptions from callbacks or allocations, and counters that wrap around at 64 bits.
- Destruction while readers or an updater are active.
- `wbrcu::rand` and the tags (`include/wbrcu/rcu_protected.hpp:20-38`), a hash computed at compile time.
- `include/numa_temp/rcu_numa.hpp`, an experimental variant that publishes one pointer to several nodes.
- The benchmarks, except for the mutex-protected cell as a reference, and the build.
- Rcu.RcuProtected.Update: says of a call that was not elected only that it has its place in the line when it
  returns, because that is all the source does before returning; when it is applied is the updater's business
  (`Guarantees.ReturnsAfterAllItServes`, `Liveness.SessionsTerminate`).
- Rcu.RcuProtected.DoUpdates: terminates because its schedule of other threads' steps is finite; with calls
  from outside that never cease the source may update for ever.
- Witnesses.EpochLagAttained: given for one processor, where every `retire` scans.

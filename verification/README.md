# H-Store distributed-transaction init queue, in Dafny

This project models `TransactionQueue`, the per-site manager that releases
distributed transactions to their partitions in id order. The site has a
list of local partitions. For each local partition the manager keeps three
things:

- an ordering queue of pending transaction ids;
- the id last dispatched there, which starts at -1;
- a busy ("working") flag.

It also keeps one table, shared by all partitions, from transaction id to a
counting callback.

The three operations are these:

- `insert(txn, partitions, callback)` registers the callback. It queues the
  id on every touched local partition and says whether the dispatcher
  should be woken.
- `checkQueues` is one scan of the dispatcher. Each idle partition whose
  queue releases its lowest id gets that id as its last id and becomes
  busy. The transaction's callback is run once for it, and the callback is
  evicted when its counter reaches zero.
- `done(txn, partition)` clears a busy flag.

Every operation is a pure function on an immutable `State`. An exception
of the Java code becomes an `Err` result.

The modules are:

- `Common`: ids, `Option` and `Result`.
- `Partitions`: local partitions and their offsets. An offset is the
  partition's position in the site's list, a bijection onto `0..n-1`.
- `InitQueue`: the per-partition ordering queue, seen only through `add`,
  `poll`, `isEmpty` and the high-water mark. The pending ids form a
  multiset kept as a sorted sequence. `poll` takes a `ready` decision:
  the queue may hold ids and still release nothing.
- `Callbacks`: the callback table, seen only through each callback's
  counter.
- `TransactionQueue`: the state and the operations.
- `QueueInvariants`: the invariant and its preservation by `insert`, a
  single dispatch and `done`. Under it, a
  registered callback's counter equals the copies of its id still pending.
  It also gives every queued id a callback, so `callback.run` never sees
  null. And the id last dispatched on a partition is not pending there.
- `ScanSafety`: a whole scan under the invariant. It never meets a
  missing callback, and it dispatches above each partition's last id.
- `Execution`: runs of any interleaving of the operations, with the log of
  callback runs. `MonotonicDispatch` proves that each partition releases
  strictly increasing ids.
- `Ordering`: what one scan releases, stated against the queue contents.

The dispatcher's readiness decision is a parameter: `ready` is the set of
offsets whose queue releases its lowest id in this scan.

## Model

| member | source | states |
|---|---|---|
| Partitions.OffsetOf | src/frontend/edu/mit/hstore/util/TransactionQueue.java:64 | a local partition's offset is a valid index holding that partition |
| Partitions.LocalOffset | src/frontend/edu/mit/hstore/util/TransactionQueue.java:193 | a partition has an offset exactly when it is local, and the offset holds it |
| Partitions.OffsetBijection | src/frontend/edu/mit/hstore/util/TransactionQueue.java:114-115 | going from an offset to its partition and back gives the same offset |
| InitQueue.IsEmpty | src/frontend/edu/mit/hstore/util/TransactionQueue.java:105 | a queue is empty exactly when no id is pending in it |
| InitQueue.NoteReceived | src/frontend/edu/mit/hstore/util/TransactionQueue.java:171 | noting a received id sets the queue's high-water mark to the larger of the old mark and the id, and leaves the pending ids alone |
| InitQueue.InsertSorted | src/frontend/edu/mit/hstore/util/TransactionQueue.java:172 | adding to the ordered store keeps it ordered and adds exactly one copy of the id |
| InitQueue.Add | src/frontend/edu/mit/hstore/util/TransactionQueue.java:172 | `add` makes exactly one more copy of the id pending and keeps the queue well formed |
| InitQueue.Peek | src/frontend/edu/mit/hstore/util/TransactionQueue.java:74 | the head of a queue is a pending id no greater than any pending id, and there is one exactly when the queue is not empty |
| InitQueue.Poll | src/frontend/edu/mit/hstore/util/TransactionQueue.java:122-125 | `poll` yields nothing exactly when the queue declines or is empty, and then changes nothing; otherwise it removes and returns one copy of the lowest id |
| Callbacks.Acknowledge | src/frontend/edu/mit/hstore/util/TransactionQueue.java:141-149 | running a callback takes one off its counter, and the entry is evicted exactly when the counter reaches zero; other entries are untouched |
| TransactionQueue.Init | src/frontend/edu/mit/hstore/util/TransactionQueue.java:53-68 | construction fails exactly when there is no local partition; otherwise every partition has an empty queue, last id -1 and is idle, and no callback is registered |
| TransactionQueue.IsQueueEmpty | src/frontend/edu/mit/hstore/util/TransactionQueue.java:103-108 | the manager is empty exactly when every partition's queue is empty |
| TransactionQueue.EnqueueOne | src/frontend/edu/mit/hstore/util/TransactionQueue.java:165-175 | one touched partition: if it is local, its queue gets one copy of the id and its mark covers the id, and it asks for a wake-up exactly when idle; a non-local one changes nothing |
| TransactionQueue.EnqueueCompose | src/frontend/edu/mit/hstore/util/TransactionQueue.java:165-176 | enqueuing on a list, then on one more partition, is enqueuing on the longer list |
| TransactionQueue.EnqueueAll | src/frontend/edu/mit/hstore/util/TransactionQueue.java:164-176 | each local queue gets as many copies as the list names its partition; unlisted queues, last ids, busy flags and callbacks do not change; a wake-up is asked for exactly when some listed local partition is idle |
| TransactionQueue.Insert | src/frontend/edu/mit/hstore/util/TransactionQueue.java:159-182 | `insert` registers the callback under the id, queues the id only on listed local partitions, changes no last id, busy flag or unlisted queue, and notifies exactly when a listed local partition is idle |
| TransactionQueue.InsertNonLocalOnly | src/frontend/edu/mit/hstore/util/TransactionQueue.java:163-166 | an insert naming no local partition only registers the callback and does not notify |
| TransactionQueue.Visit | src/frontend/edu/mit/hstore/util/TransactionQueue.java:115-149 | for one offset, a busy partition or an empty poll changes nothing. An id below the last one fails as stale, and an unregistered id fails as missing. Otherwise the id becomes the last one, the partition becomes busy and its callback runs once |
| TransactionQueue.ScanStep | src/frontend/edu/mit/hstore/util/TransactionQueue.java:114-150 | one more loop iteration extends what the earlier iterations promised to one more offset |
| TransactionQueue.ScanUpToOutcome | src/frontend/edu/mit/hstore/util/TransactionQueue.java:114-150 | the first k iterations dispatch exactly on the idle offsets below k whose poll yields an id, and leave the others untouched. They run each callback once per such offset and never after its counter reached zero. They fail exactly when one of those offsets would release a stale id, or an id whose callback was never registered or was used up by the offsets before it, and they fail at the first such offset |
| TransactionQueue.CheckQueues | src/frontend/edu/mit/hstore/util/TransactionQueue.java:110-151 | a scan leaves busy partitions and empty polls untouched and dispatches the polled id on every other partition. Every callback run was registered, and the table loses each id whose counter reaches zero. No callback runs again after its counter reached zero. The scan fails whenever some partition would release a stale id, and otherwise only on a missing callback at an idle partition releasing that id |
| TransactionQueue.CheckQueuesFailure | src/frontend/edu/mit/hstore/util/TransactionQueue.java:114-149 | a scan fails exactly when some idle partition would release a stale id, or an id whose callback was never registered or was evicted when the partitions before it ran its counter down to zero. It fails at the first such partition and reports a stale id before a missing callback |
| TransactionQueue.ReleasesMonotone | src/frontend/edu/mit/hstore/util/TransactionQueue.java:114-142 | counting the idle partitions that release an id over more partitions never gives fewer |
| TransactionQueue.RegisteredScanSucceeds | src/frontend/edu/mit/hstore/util/TransactionQueue.java:114-149 | a scan succeeds when no idle partition would release a stale id, and every released id is registered with a counter that is not positive or that covers every idle partition releasing it |
| TransactionQueue.QuietScan | src/frontend/edu/mit/hstore/util/TransactionQueue.java:116-129 | a scan in which no idle partition's poll yields an id changes nothing and runs no callback |
| TransactionQueue.Done | src/frontend/edu/mit/hstore/util/TransactionQueue.java:189-198 | `done` clears only the busy flag of the named local partition; queues, last ids, callbacks and every other flag stay; a non-local partition is an error |
| QueueInvariants.InitEstablishesInv | src/frontend/edu/mit/hstore/util/TransactionQueue.java:56-68 | a newly built manager satisfies the invariant |
| QueueInvariants.InsertPreservesInv | src/frontend/edu/mit/hstore/util/TransactionQueue.java:163-176 | an insert of a fresh id, counting its listed local partitions, keeps the invariant |
| QueueInvariants.UnownedInsertNeverReleased | src/frontend/edu/mit/hstore/util/TransactionQueue.java:163-166 | an insert naming no local partition registers a callback with a positive counter while no queue holds the id, so the counter no longer equals the pending copies and the accounting invariant is broken |
| QueueInvariants.DispatchKeepsInv | src/frontend/edu/mit/hstore/util/TransactionQueue.java:139-149 | one dispatch keeps the invariant: the counter drops with the pending copies, and the entry goes exactly when none is left |
| ScanSafety.VisitPreservesInv | src/frontend/edu/mit/hstore/util/TransactionQueue.java:131-149 | under the invariant one iteration never meets a missing callback and keeps the invariant |
| ScanSafety.NextPreservesInv | src/frontend/edu/mit/hstore/util/TransactionQueue.java:114-149 | if the earlier iterations kept the invariant or failed on a stale id, so does one more iteration |
| ScanSafety.ScanPreservesInv | src/frontend/edu/mit/hstore/util/TransactionQueue.java:114-150 | under the invariant the first k iterations fail only on a stale id and otherwise keep the invariant |
| ScanSafety.DispatchAboveLast | src/frontend/edu/mit/hstore/util/TransactionQueue.java:131-139 | under the invariant a dispatched id is strictly above the partition's previous last id and becomes its last id |
| ScanSafety.CheckQueuesPreservesInv | src/frontend/edu/mit/hstore/util/TransactionQueue.java:131-142 | under the invariant a scan fails exactly when some idle partition would release a stale id. Otherwise it keeps the invariant, dispatches strictly above each partition's last id, and no last id goes down |
| QueueInvariants.DonePreservesInv | src/frontend/edu/mit/hstore/util/TransactionQueue.java:193-194 | `done` keeps the invariant |
| QueueInvariants.RegisteredIffOwed | src/frontend/edu/mit/hstore/util/TransactionQueue.java:141-142 | under the invariant an id has a callback exactly when some queue still holds it, so the callback looked up for a polled id is never null |
| Execution.Dispatches | src/frontend/edu/mit/hstore/util/TransactionQueue.java:139-142 | the log of a scan lists each dispatch once, in offset order, and nothing else |
| Execution.Step | src/frontend/edu/mit/hstore/util/TransactionQueue.java:159-198 | an insert always succeeds and runs no callback; a `done` succeeds exactly on a local partition and runs no callback |
| Execution.ScanLogMonotone | src/frontend/edu/mit/hstore/util/TransactionQueue.java:131-142 | a scan that dispatched above each partition's last id, onto its new last id, and lowered no last id, logs its runs in increasing order per partition |
| Execution.CheckStepSafe | src/frontend/edu/mit/hstore/util/TransactionQueue.java:131-142 | one scan under the invariant fails only on a stale id; otherwise it keeps the invariant, and every run it logs lies above the partition's previous last id and at most its new one |
| Execution.StepKeepsInv | src/frontend/edu/mit/hstore/util/TransactionQueue.java:131-149 | one operation from a state satisfying the invariant fails only on a stale id or a non-local `done`, and otherwise keeps the invariant and dispatches in order |
| Execution.MonotonicDispatch | src/frontend/edu/mit/hstore/util/TransactionQueue.java:131-139 | over any run with admissible inserts, no callback is ever missing. Each partition releases strictly increasing ids, so never one id twice, each above its last id before the run, and no last id ever goes down |
| Ordering.LowestFirst | src/frontend/edu/mit/hstore/util/TransactionQueue.java:74-76 | in a scan that succeeds, an idle partition whose queue releases dispatches an id no greater than any pending id there, and the other pending ids stay queued |
| Ordering.BelowLastStops | src/frontend/edu/mit/hstore/util/TransactionQueue.java:131-132 | a pending id below the last id of an idle, releasing partition makes the scan fail |
| Ordering.InsertIntoEmpty | src/frontend/edu/mit/hstore/util/TransactionQueue.java:163-172 | inserting on every local partition of a manager with empty queues leaves exactly that id on each queue and keeps the invariant |
| Ordering.ScanSingletons | src/frontend/edu/mit/hstore/util/TransactionQueue.java:114-149 | when every idle, releasing partition holds only one id above its last, one scan runs it everywhere and evicts its callback |
| Ordering.ReleaseEverywhere | src/frontend/edu/mit/hstore/util/TransactionQueue.java:159-176 | a transaction inserted on all partitions of an idle, empty manager is run on each of them by the next scan of releasing queues, and its callback is then evicted |

## Left out

- The dispatcher thread's loop, `wait`/`notifyAll` and `synchronized` (TransactionQueue.java:82-101, 177-181, 195-197) are left out. `insert` returns its notify flag instead of signalling. `CheckOp` is one scan, and a run is any interleaving of the operations.
- Logging, the debug/trace flags, thread naming and CPU-affinity registration are left out. They have no effect on the state.
- The internals of TransactionInitPriorityQueue, BlockingCallback and HStoreSite are not part of this model. They appear only through the abstract contracts above. A queue's readiness decision is the `ready` parameter. A callback is only its counter, and running it has no other modelled effect.
- TransactionQueue.Visit and TransactionQueue.CheckQueues model assertions as enabled. A stale id ends the scan with `StaleDispatch`. With assertions disabled the Java code would go on, dispatch the stale id and lower the last id. That case is not modelled.
- TransactionQueue.CheckQueues does not model the state after a failure. When the Java code throws on a null callback, it has already set the partition's last id and busy flag and polled the queue. The model returns only the error.
- TransactionQueue.Done follows the code. It ignores the transaction id and clears an idle partition's flag without complaint. The code does not check that the partition was busy.
- TransactionQueue.Done returns `NotLocal` for a partition with no offset. What `getLocalPartitionOffset` does then is not part of this model.
- TransactionQueue.Init models the constructor's assertion as enabled: an empty partition list gives `NoLocalPartitions`. With assertions disabled the Java constructor would build a manager with no queues. That case is not modelled.
- TransactionQueue.Init requires the local partitions to be distinct. The list is the `Collection<Integer>` returned by `getLocalPartitionIds` (TransactionQueue.java:27, 55). The model assumes it holds no repeated id, which the offset mapping relies on.
- Ids are unbounded integers. The Java `long` never overflows here, since the code only compares ids and does no arithmetic on them.
- The table maps an id to its callback's counter. Two ids sharing one callback object is not modelled.
- Execution.MonotonicDispatch assumes the caller keeps to admissible inserts (`QueueInvariants.Admissible`). The id is fresh and not a touched partition's last id, no local partition is listed twice, and the counter equals the local partitions listed (at least one). The queue manager does not check any of this itself. `UnownedInsertNeverReleased` shows what goes wrong without the last condition.
- Admission control (bounds on queue depth per partition) is left out. It is enforced by code outside this class.
- The integration test, the benchmark procedure and the init message holder of the repository are left out. They hold no queue logic.

# Node service dispatch of Hazelcast, modelled in Dafny

This project models the per-node dispatch core of Hazelcast's node service
(`NodeServiceImpl`). That core:

- keeps the registry of outstanding remote calls, keyed by locally generated ids;
- groups partition ids by their owning member;
- chooses the replicas that receive a mutation's backups, and sends them
  asynchronously or waits on them synchronously;
- routes an invocation: it is either rejected, run on this node, or registered
  and sent to another member;
- executes an operation under the partition and key lock discipline, with a
  capturing response handler swapped in;
- fans an operation out to every partition and merges the per-owner results,
  re-invoking each partition whose entry is an exception.

The mutable node state is the class `NodeServices.NodeService`. It holds:

- the call registry, a `Calls.CallRegistry` object that owns the call map and
  the id counter;
- the executing thread's current operation;
- the stack of locks that thread holds;
- the packets handed to the transport.

The methods that change this state are imperative and are proved against
specification functions:

- `ExecutionOf`, which rests on `LockPhaseOf`;
- `BackupTargets`;
- `IsOwnerGrouping`;
- `OwnerPhase` and `AfterRetries`.

The lemmas beside those functions state what the source promises about them.

Everything outside the node is a parameter:

- `ClusterView` is the cluster membership and the partition table: the owner
  of each partition and the address of each replica.
- `readLockFree` is the result of the non-blocking `tryLock` on a partition's
  shared lock.
- `RunOutcome` is the operation's own `run()`: the values it gave its
  response handler and the throwable it ended with. It also gives the
  throwable, if any, that the original handler's `sendResponse` raises,
  whether it is sending a value or an error.
- `transmitted` is the transport's answer to a send.
- `ownerOutcome`, `retry` and `ack` are how the awaited futures complete.

Iterating over a Java `HashMap` is modelled by `Base.Enumerate`. It produces
some order over the keys, each key exactly once, and no particular order is
assumed.

Modules:

- `Base`: the vocabulary shared by the other modules (operations,
  invocations, throwables, the cluster view).
- `Calls`: the call registry.
- `Locking`: Java's `Math.abs` and `%`, the key-lock slot, and the
  lock-acquisition specification.
- `Execution`: the specification of `executeOperation`.
- `Backups`: backup target selection.
- `Partitions`: grouping partitions by owner.
- `FanOut`: result merging for the fan-out to all partitions.
- `Invocations`: the checks `invoke` makes before dispatching.
- `NodeServices`: the node service class.

## Model

| member | source | states |
|---|---|---|
| Calls.CallRegistry.Register | hazelcast/src/main/java/com/hazelcast/spi/impl/NodeServiceImpl.java:290-294 | The new id is the old counter plus one (the first is 1). It is greater than every id handed out before. The map becomes the old map plus exactly that id mapped to the call. |
| Calls.CallRegistry.Deregister | hazelcast/src/main/java/com/hazelcast/spi/impl/NodeServiceImpl.java:296-298 | Returns the call under the id, or null if there is none. Removes that one entry and leaves every other entry as it was. |
| Calls.CallRegistry.Notify | hazelcast/src/main/java/com/hazelcast/spi/impl/NodeServiceImpl.java:300-308 | For a registered id, the entry is removed and the response is offered to that call. For an unknown id, the registry is unchanged and only the "no call" report is made. No other entry is ever touched. |
| Calls.CallRegistry.DisconnectExisting | hazelcast/src/main/java/com/hazelcast/spi/impl/NodeServiceImpl.java:283-288 | Every registered call is told of the dead address exactly once, and nothing else is told. |
| Calls.CallRegistry.Clear | hazelcast/src/main/java/com/hazelcast/spi/impl/NodeServiceImpl.java:417 | Shutdown empties the call map. The counter is untouched, so ids are never reused. |
| Calls.RegisterThenNotifyTwice | hazelcast/src/main/java/com/hazelcast/spi/impl/NodeServiceImpl.java:290-308 | On a fresh registry the first id is 1. A response is offered to its call once, and a second notification with the same id finds no call. |
| Locking.JavaAbs | hazelcast/src/main/java/com/hazelcast/spi/impl/NodeServiceImpl.java:450 | `Math.abs` is non-negative and equals plus or minus its argument, except at `Integer.MIN_VALUE`, where it returns `Integer.MIN_VALUE` itself. |
| Locking.JavaRem | hazelcast/src/main/java/com/hazelcast/spi/impl/NodeServiceImpl.java:450 | Java's truncating `%`: the remainder has the sign of the dividend, and its magnitude is the magnitude of the dividend modulo the divisor. |
| Locking.KeyLockIndex | hazelcast/src/main/java/com/hazelcast/spi/impl/NodeServiceImpl.java:450 | The slot is below the bank size of 100000 (line 55). It is negative exactly when the hash is `Integer.MIN_VALUE`, where it is -83648. Otherwise it is the hash's magnitude modulo 100000. |
| Locking.LockPhaseOf | hazelcast/src/main/java/com/hazelcast/spi/impl/NodeServiceImpl.java:426-453 | A non-partition operation takes no lock. A negative partition id fails with IllegalArgument and takes no lock. A write operation takes exactly the write lock. A failed `tryLock` fails with PartitionMigrating and holds no lock. A read operation whose `tryLock` succeeds holds the read lock first. With the target confirmed and no key lock to take, it holds exactly the read lock and does not fail. A target mismatch fails with WrongTarget under the read lock, in both directions. Only non-backup key operations take a key lock, nested in the read lock, at an in-range slot. That slot access throws exactly for `Integer.MIN_VALUE`, and then only the read lock is held. |
| Execution.SeverityOf | hazelcast/src/main/java/com/hazelcast/spi/impl/NodeServiceImpl.java:471-476 | A failure is logged as a warning exactly when it is retryable, and as severe otherwise. |
| Execution.Captured | hazelcast/src/main/java/com/hazelcast/spi/impl/NodeServiceImpl.java:456-461 | The capturing handler holds the last value given to it, or null when it was given none. |
| Execution.ReleaseOrder | hazelcast/src/main/java/com/hazelcast/spi/impl/NodeServiceImpl.java:481-487 | Locks are released in exactly the reverse of the order they were taken. |
| Execution.ExecutionOf | hazelcast/src/main/java/com/hazelcast/spi/impl/NodeServiceImpl.java:420-490 | The locks taken are those of the lock phase, and all are released, key lock first. The operation runs exactly when acquisition did not fail. A failure before the handler swap reaches the original handler, or nobody if that handler is null; if the original handler throws while sending that error, its throwable escapes `executeOperation` (the `Escaped` delivery), and the failure is still logged. After the swap, an exception from `run()` reaches only the capturing handler. On success the original handler receives exactly the last captured value. If the original handler's `sendResponse` throws, that throwable is logged and reaches only the capturing handler. A null original handler turns success into a NullPointerException that only the capturing handler sees. |
| Backups.ClampBackupCount | hazelcast/src/main/java/com/hazelcast/spi/impl/NodeServiceImpl.java:215 | The count is the smaller of `clusterSize - 1` and the configured backup count. |
| Backups.BackupTargetsExactly | hazelcast/src/main/java/com/hazelcast/spi/impl/NodeServiceImpl.java:219-230 | A target is exactly a replica index in `1..count` whose address exists and is not this node's, in both directions. Indices appear in strictly increasing order, so no replica is targeted twice. |
| Backups.ClampedTargetsStayInCluster | hazelcast/src/main/java/com/hazelcast/spi/impl/NodeServiceImpl.java:215-219 | With a clamped count of zero or less, nothing is targeted. Otherwise every target's replica index is below the cluster size and at most the configured count. |
| Partitions.ExactlyOneList | hazelcast/src/main/java/com/hazelcast/spi/impl/NodeServiceImpl.java:125-138 | In an owner grouping, each partition id in range appears in exactly one list, its owner's, and appears there once. |
| Partitions.OwnerGroupingUnique | hazelcast/src/main/java/com/hazelcast/spi/impl/NodeServiceImpl.java:125-138 | Any two owner groupings of the same partitions under the same owner function are equal, so the grouping is fully determined by the partition table. |
| FanOut.MarkFailed | hazelcast/src/main/java/com/hazelcast/spi/impl/NodeServiceImpl.java:97-100 | A failed owner's throwable is put under exactly the partitions of its list. |
| FanOut.AfterRetries | hazelcast/src/main/java/com/hazelcast/spi/impl/NodeServiceImpl.java:117-121 | The keys are unchanged. Entries that are not exceptions stay as they are. A retried entry is replaced by its re-invocation's outcome. |
| FanOut.DispatchOwners | hazelcast/src/main/java/com/hazelcast/spi/impl/NodeServiceImpl.java:79-85 | One owner-level call per owner, in iteration order and for no owner twice. Each carries exactly that owner's partitions, 5 tries and 300 ms pauses. |
| FanOut.AwaitOwners | hazelcast/src/main/java/com/hazelcast/spi/impl/NodeServiceImpl.java:86-102 | Awaiting the owner-level futures builds exactly the owner-phase map for the await order. |
| FanOut.RecordFailure | hazelcast/src/main/java/com/hazelcast/spi/impl/NodeServiceImpl.java:97-100 | The loop over a failed owner's partitions yields the old map overwritten with the throwable on exactly those partitions. |
| FanOut.RetryCandidates | hazelcast/src/main/java/com/hazelcast/spi/impl/NodeServiceImpl.java:103-110 | The re-invoked partitions are exactly those whose entry is an `Exception`, each listed once, in both directions. |
| FanOut.AwaitRetries | hazelcast/src/main/java/com/hazelcast/spi/impl/NodeServiceImpl.java:111-122 | If every re-invocation completes, the result is the owner-phase map with every retried entry replaced. Otherwise the call fails with the throwable of the first re-invocation, in order, whose `get` threw. |
| FanOut.OwnerPhaseAt | hazelcast/src/main/java/com/hazelcast/spi/impl/NodeServiceImpl.java:86-102 | If each owner reports only on its own partitions, a partition's entry is decided by its owner's outcome alone. A failed owner's throwable lands on every partition of its subset. A successful owner's results are kept. A partition with no entry from its owner has none at all. |
| FanOut.AwaitOrderIrrelevant | hazelcast/src/main/java/com/hazelcast/spi/impl/NodeServiceImpl.java:87-102 | Under the same condition, the merged map does not depend on the order in which the hash map of responses is iterated. |
| FanOut.RetriedPartitionReplacesFailure | hazelcast/src/main/java/com/hazelcast/spi/impl/NodeServiceImpl.java:75-123 | Partitions 0 and 1 are owned by A and partition 2 by B. B's call fails with an exception and the retry of 2 succeeds. In either await order, the result holds A's values and the retried value. |
| Invocations.CheckInvocation | hazelcast/src/main/java/com/hazelcast/spi/impl/NodeServiceImpl.java:172-184 | A null target fails with WrongTarget, in both directions. A non-member target fails with TargetNotMember unless the operation is a join. Otherwise `checkInvocation` lets the invocation through. |
| NodeServices.NodeService.AcquireLocks | hazelcast/src/main/java/com/hazelcast/spi/impl/NodeServiceImpl.java:426-453 | Imperative acquisition equals `LockPhaseOf`. Exactly the acquired locks are pushed on the thread's held locks. |
| NodeServices.NodeService.ReleaseLocks | hazelcast/src/main/java/com/hazelcast/spi/impl/NodeServiceImpl.java:481-487 | The `finally` pops exactly the acquired locks, key lock first, in `ReleaseOrder`. |
| NodeServices.NodeService.ExecuteOperation | hazelcast/src/main/java/com/hazelcast/spi/impl/NodeServiceImpl.java:420-490 | The execution equals `ExecutionOf`. On every path the thread holds the same locks afterwards as before, and the current operation is reset to null. |
| NodeServices.NodeService.Invoke | hazelcast/src/main/java/com/hazelcast/spi/impl/NodeServiceImpl.java:144-170 | A nested key call is rejected, and so is an invocation `checkInvocation` refuses; both change nothing. Past the nested-key-call guard, the operation is stamped with its routing context (`WithContext`): the service name, this node as caller, call id -1, and the invocation's partition and replica. That stamped operation is what runs or is sent. A self target runs `executeOperation` with the local response handler, registers no call and sends nothing. Otherwise exactly one call is registered under a fresh, larger id, and the id counter and the set of issued ids advance to that id. The id is stamped on the operation and one packet is sent. A failed send gives a retryable "packet not sent" result and leaves the call registered. |
| NodeServices.NodeService.SendToReplica | hazelcast/src/main/java/com/hazelcast/spi/impl/NodeServiceImpl.java:258-266 | With no replica address, it sends nothing and returns false. Otherwise it behaves as `send` to that address. |
| NodeServices.NodeService.SendToAddress | hazelcast/src/main/java/com/hazelcast/spi/impl/NodeServiceImpl.java:268-276 | A null or own address runs the operation inline, sends nothing and returns true, unless `run()` throws. Any other address sends exactly one packet and returns the transport's answer. |
| NodeServices.NodeService.SendOnConnection | hazelcast/src/main/java/com/hazelcast/spi/impl/NodeServiceImpl.java:278-281 | Exactly one packet is appended for the connection, and the transport's answer is returned. |
| NodeServices.NodeService.SendBackups | hazelcast/src/main/java/com/hazelcast/spi/impl/NodeServiceImpl.java:237-256 | One packet is appended per backup target, in replica order, carrying the operation renamed to the service. Nothing else is appended. |
| NodeServices.NodeService.TakeBackups | hazelcast/src/main/java/com/hazelcast/spi/impl/NodeServiceImpl.java:212-235 | One backup invocation per backup target, in order, with the operation renamed to the service. Each is waited on in turn with the given timeout. The call succeeds exactly when every wait succeeds. Otherwise it stops at the first failing wait and rethrows its throwable. |
| NodeServices.NodeService.GetMemberPartitions | hazelcast/src/main/java/com/hazelcast/spi/impl/NodeServiceImpl.java:125-138 | The result is an owner grouping of `0..partitionCount-1`: every id is in exactly its owner's list, and lists are strictly ascending and non-empty. |
| NodeServices.NodeService.InvokeOnAllPartitions | hazelcast/src/main/java/com/hazelcast/spi/impl/NodeServiceImpl.java:75-123 | The grouping is the owner grouping. One owner-level call per owner carries that owner's partitions, 5 tries and 300 ms pauses. Exactly the exception entries of the merged map are re-invoked, each once. The result is the merged map with those entries replaced, or the throwable of the first failing re-invocation. |

## Left out

- Thread pools, executors and `runLocally`/`handleOperation` (lines 186-201 and 366-389) and the `RemoteOperationExecutor` runnable (lines 492-517): they are concurrency plumbing. `executeOperation` is modelled as a direct call on the executing thread.
- Serialization (`toData`/`toObject`, lines 391-399): packets carry the operation value itself. The cast of an owner's result to a map is taken as given.
- The transport and the connection manager (`getOrConnect`): a send's success is the parameter `transmitted`, and a connection is identified with its address.
- Real mutual exclusion: blocking in `lock()`, and contention between threads, are not modelled. Locks are names on a per-thread stack, and a failed `tryLock` is the parameter `readLockFree`.
- `Future.get` and its timeout: each future's completion is a given outcome (`ownerOutcome`, `retry`, `ack`). A timeout is one such outcome.
- The owner-level call's own retry loop (5 tries, 300 ms apart): it is recorded on the call but not executed.
- The service manager, service start and stop, the executor shutdown in `shutdown`, logging text and `FINEST` level checks: only the severity chosen for a failure is modelled.
- `getPartitionInfo` (lines 348-356): its side effect of forcing an owner is not modelled. A partition id at or beyond the partition count is not modelled as failing there.
- `Call.onDisconnect` and `Call.offerResponse`: `Call` is not part of this model. The registry records which calls are told and what they are offered.
- The backup step inside `executeOperation` (lines 464-468): it is only a TODO in the code. `createBackupOperation` is a call into the operation, and no backup is modelled.
- `Calls.CallRegistry.Register`: the `AtomicLong` counter's wrap-around after 2^63 ids is not modelled.
- `NodeServices.NodeService.Invoke`: the routing context is stamped on the caller's operation object before `checkInvocation`, and stays there after a rejection. The model treats operations as values, so that leftover mutation of the caller's object is not captured.
- `NodeServices.NodeService.SendToAddress`: running the operation inline also sets its node service. That reference is not modelled. Nor are the values the inline `run()` passes to the operation's own response handler: no reply is recorded for that path.
- `NodeServices.NodeService.TakeBackups` and `NodeServices.NodeService.InvokeOnAllPartitions`: the backup, owner-level and re-issued invocations they create are handed to `Invocation.invoke()`, which is treated as opaque here. Those invocations are not routed through `Invoke`, so they register no call and queue no packet in the model; their completion is a given outcome.
- Which exception classes extend `RetryableException` and which are `Exception`s: those classes are not part of this model. WrongTarget, TargetNotMember, PartitionMigrating and "packet not sent" are taken as retryable, and every throwable except `JvmError` as an `Exception`.

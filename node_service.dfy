/** The node service: routes invocations to the local executor or to a remote
    member, executes operations under the partition and key lock discipline,
    propagates backups, and fans an operation out to every partition. */
module NodeServices {
  import opened Base
  import opened Calls
  import opened Locking
  import opened Execution
  import opened Invocations
  import opened Backups
  import opened Partitions
  import opened FanOut

  /** What a `send` returns, or the throwable an inline `op.run()` let escape. */
  datatype SendOutcome = Sent(ok: bool) | SendThrew(error: Throwable)

  /** One backup invocation built by `takeBackups`; its target is resolved by
      the invocation itself from the replica index. */
  datatype BackupInvocation = BackupInvocation(serviceName: string, op: Operation, partitionId: int, replicaIndex: int)

  /** One bounded wait on a backup invocation's future. */
  datatype Wait = Wait(replicaIndex: int, timeoutSeconds: int)

  class NodeService {
    const partitionCount: int
    const registry: CallRegistry
    var currentOp: Option<Operation>   // the executing thread's current operation
    var held: seq<LockId>              // locks held by the executing thread, oldest first
    var outbox: seq<Packet>            // packets handed to the transport, in order

    ghost predicate Valid()
      reads this, registry
    {
      registry.Valid()
    }

    constructor (partitionCount: int)
      ensures Valid() && fresh(registry)
      ensures this.partitionCount == partitionCount
      ensures registry.calls == map[] && currentOp == None && held == [] && outbox == []
    {
      this.partitionCount := partitionCount;
      registry := new CallRegistry();
      currentOp := None;
      held := [];
      outbox := [];
    }

    /** The locking half of `executeOperation`: each lock taken is pushed on
        the thread's held locks, and acquisition stops at the first failure. */
    method AcquireLocks(op: Operation, cluster: ClusterView, readLockFree: bool) returns (phase: LockPhase)
      modifies this`held
      ensures phase == LockPhaseOf(op, cluster.thisAddress, cluster.replica(op.partitionId, op.replicaIndex),
                                   readLockFree)
      ensures held == old(held) + phase.acquired
    {
      var partitionId := op.partitionId;
      if !op.kind.partitionScoped {
        return LockPhase([], None);
      }
      if partitionId < 0 {
        return LockPhase([], Some(IllegalArgument));
      }
      if op.kind.write {
        held := held + [PartitionWrite(partitionId)];
        return LockPhase([PartitionWrite(partitionId)], None);
      }
      var owner := cluster.replica(partitionId, op.replicaIndex);
      if !readLockFree {
        return LockPhase([], Some(PartitionMigrating));
      }
      held := held + [PartitionRead(partitionId)];
      if op.validatesTarget && owner != Some(cluster.thisAddress) {
        return LockPhase([PartitionRead(partitionId)], Some(WrongTarget));
      }
      if op.kind.backup || !op.kind.keyed {
        return LockPhase([PartitionRead(partitionId)], None);
      }
      var index := KeyLockIndex(op.keyHash);
      if index < 0 {
        // `locks[index]` with a negative index throws before the key lock is taken.
        return LockPhase([PartitionRead(partitionId)], Some(IndexOutOfBounds));
      }
      held := held + [KeyLock(index)];
      phase := LockPhase([PartitionRead(partitionId), KeyLock(index)], None);
    }

    /** The `finally` of `executeOperation`: the key lock, if held, is
        unlocked before the partition lock. */
    method ReleaseLocks(acquired: seq<LockId>) returns (released: seq<LockId>)
      requires |acquired| <= 2
      requires |acquired| <= |held| && held[|held| - |acquired|..] == acquired
      modifies this`held
      ensures held == old(held)[..|old(held)| - |acquired|]
      ensures released == ReleaseOrder(acquired)
    {
      released := [];
      if |acquired| == 2 {
        held := held[..|held| - 1];
        released := released + [acquired[1]];
      }
      if |acquired| >= 1 {
        held := held[..|held| - 1];
        released := released + [acquired[0]];
      }
    }

    /** Executes `op` on this node: marks it current, takes its locks, swaps in
        a capturing response handler and runs it, delivers the reply, and
        finally releases the key lock, then the partition lock, and clears the
        current operation. */
    method ExecuteOperation(op: Operation, cluster: ClusterView, readLockFree: bool, run: RunOutcome)
      returns (e: ExecResult)
      modifies this`currentOp, this`held
      ensures e == ExecutionOf(op, cluster.thisAddress, cluster.replica(op.partitionId, op.replicaIndex),
                               readLockFree, run)
      ensures held == old(held)
      ensures currentOp == None
    {
      currentOp := Some(op);
      var phase := AcquireLocks(op, cluster, readLockFree);
      var swapped := false;
      var thrown := phase.failure;
      var delivery := Dropped(Returned(None));
      if thrown.None? {
        swapped := true;
        var captured := Captured(run.responses);
        if run.thrown.Some? {
          thrown := run.thrown;
        } else if op.handler.None? {
          thrown := Some(NullPointer);           // `original.sendResponse` on a null handler
        } else if run.replyFailure.Some? {
          thrown := run.replyFailure;            // `original.sendResponse` itself threw
        } else {
          delivery := ToOriginal(Returned(captured));
        }
      }
      var logged: Option<Severity> := None;
      if thrown.Some? {
        var t := thrown.value;
        logged := Some(if IsRetryable(t) then Warning else Severe);
        if swapped {
          delivery := ToCapturing(Raised(t));
        } else if op.handler.Some? && run.replyFailure.Some? {
          delivery := Escaped(Raised(t), run.replyFailure.value);   // the catch block's own reply threw
        } else if op.handler.Some? {
          delivery := ToOriginal(Raised(t));
        } else {
          delivery := Dropped(Raised(t));
        }
      }
      var released := ReleaseLocks(phase.acquired);
      currentOp := None;
      e := ExecResult(phase.acquired, released, swapped, delivery, logged);
    }

    /** Dispatches an invocation: refuses a key operation issued from inside
        another key operation and an unusable target, runs a self-targeted
        operation here, and otherwise registers a call, stamps its id on the
        operation and sends it. A send that fails sets a retryable result and
        leaves the call registered. */
    method Invoke(inv: Invocation, cluster: ClusterView, readLockFree: bool, run: RunOutcome, transmitted: bool)
      returns (r: InvokeOutcome)
      requires Valid()
      modifies this`currentOp, this`held, this`outbox, registry
      ensures Valid()
      ensures IsNestedKeyCall(old(currentOp), inv.op) ==>
        r == Rejected(NestedKeyCall) && unchanged(this) && unchanged(registry)
      ensures !IsNestedKeyCall(old(currentOp), inv.op) && CheckInvocation(inv, cluster).Some? ==>
        r == Rejected(CheckInvocation(inv, cluster).value) && unchanged(this) && unchanged(registry)
      ensures !IsNestedKeyCall(old(currentOp), inv.op) && CheckInvocation(inv, cluster).None?
              && inv.target == Some(cluster.thisAddress) ==>
        var op := WithContext(inv, cluster.thisAddress).(handler := Some(LocalResponse(inv.id)));
        && r == RanLocally(ExecutionOf(op, cluster.thisAddress, cluster.replica(op.partitionId, op.replicaIndex),
                                       readLockFree, run))
        && unchanged(registry) && outbox == old(outbox) && held == old(held) && currentOp == None
      ensures !IsNestedKeyCall(old(currentOp), inv.op) && CheckInvocation(inv, cluster).None?
              && inv.target != Some(cluster.thisAddress) ==>
        var id := old(registry.idGen) + 1;
        && r == (if transmitted then Dispatched(id) else SendFailed(id, PacketNotSent))
        && registry.idGen == id && registry.issued == old(registry.issued) + {id}
        && (forall earlier :: earlier in old(registry.issued) ==> earlier < id)
        && id !in old(registry.calls)
        && registry.calls == old(registry.calls)[id := Call(inv.target.value, inv.id)]
        && outbox == old(outbox) + [Packet(WithContext(inv, cluster.thisAddress).(callId := id),
                                           inv.partitionId, inv.target.value)]
        && held == old(held) && currentOp == old(currentOp)
    {
      if IsNestedKeyCall(currentOp, inv.op) {
        r := Rejected(NestedKeyCall);
        return;
      }
      var op := WithContext(inv, cluster.thisAddress);
      var failure := CheckInvocation(inv, cluster);
      if failure.Some? {
        r := Rejected(failure.value);
        return;
      }
      var target := inv.target.value;
      if target == cluster.thisAddress {
        op := op.(handler := Some(LocalResponse(inv.id)));
        var e := ExecuteOperation(op, cluster, readLockFree, run);
        r := RanLocally(e);
      } else {
        var callId := registry.Register(Call(target, inv.id));
        op := op.(callId := callId);
        var outcome := SendToAddress(op, inv.partitionId, inv.target, cluster, run, transmitted);
        if outcome == Sent(true) {
          r := Dispatched(callId);
        } else {
          r := SendFailed(callId, PacketNotSent);
        }
      }
    }

    /** `send` to a replica index: with no address for it nothing is sent and
        the answer is false; otherwise it is `send` to that address. */
    method SendToReplica(op: Operation, partitionId: int, replicaIndex: int, cluster: ClusterView,
                         run: RunOutcome, transmitted: bool) returns (o: SendOutcome)
      modifies this`outbox
      ensures cluster.replica(partitionId, replicaIndex).None? ==> o == Sent(false) && outbox == old(outbox)
      ensures cluster.replica(partitionId, replicaIndex) == Some(cluster.thisAddress) ==>
        outbox == old(outbox) && o == (if run.thrown.Some? then SendThrew(run.thrown.value) else Sent(true))
      ensures cluster.replica(partitionId, replicaIndex).Some?
              && cluster.replica(partitionId, replicaIndex) != Some(cluster.thisAddress) ==>
        && outbox == old(outbox) + [Packet(op, partitionId, cluster.replica(partitionId, replicaIndex).value)]
        && o == Sent(transmitted)
    {
      var target := cluster.replica(partitionId, replicaIndex);
      if target.None? {
        o := Sent(false);
        return;
      }
      o := SendToAddress(op, partitionId, target, cluster, run, transmitted);
    }

    /** `send` to an address: a null or own address runs the operation right
        here, on the calling thread, without locks or response capture, and
        answers true unless `run()` throws; any other address is sent to over
        its connection. */
    method SendToAddress(op: Operation, partitionId: int, target: Option<Address>, cluster: ClusterView,
                         run: RunOutcome, transmitted: bool) returns (o: SendOutcome)
      modifies this`outbox
      ensures target.None? || target == Some(cluster.thisAddress) ==>
        outbox == old(outbox) && o == (if run.thrown.Some? then SendThrew(run.thrown.value) else Sent(true))
      ensures target.Some? && target != Some(cluster.thisAddress) ==>
        outbox == old(outbox) + [Packet(op, partitionId, target.value)] && o == Sent(transmitted)
    {
      if target.None? || target.value == cluster.thisAddress {
        if run.thrown.Some? {
          o := SendThrew(run.thrown.value);
        } else {
          o := Sent(true);
        }
      } else {
        var ok := SendOnConnection(op, partitionId, target.value, transmitted);
        o := Sent(ok);
      }
    }

    /** `send` over a connection: the encoded operation goes to the transport,
        whose answer is returned. */
    method SendOnConnection(op: Operation, partitionId: int, connection: Address, transmitted: bool)
      returns (ok: bool)
      modifies this`outbox
      ensures outbox == old(outbox) + [Packet(op, partitionId, connection)]
      ensures ok == transmitted
    {
      outbox := outbox + [Packet(op, partitionId, connection)];
      ok := transmitted;
    }

    /** Packets `sent` after `base` carry `op` to each of `targets`, in order. */
    ghost predicate SentToEach(base: seq<Packet>, op: Operation, partitionId: int, targets: seq<BackupTarget>)
      reads this
    {
      && |outbox| == |base| + |targets|
      && outbox[..|base|] == base
      && forall i :: 0 <= i < |targets| ==> outbox[|base| + i] == Packet(op, partitionId, targets[i].target)
    }

    /** Asynchronous backups: the operation, encoded once, is handed to the
        transport for each backup target, with no acknowledgement awaited. */
    method SendBackups(serviceName: string, op: Operation, partitionId: int, backupCount: int, cluster: ClusterView)
      modifies this`outbox
      ensures SentToEach(old(outbox), op.(serviceName := serviceName), partitionId,
                         BackupTargets(cluster, partitionId, ClampBackupCount(cluster.size, backupCount)))
    {
      var named := op.(serviceName := serviceName);
      var count := ClampBackupCount(cluster.size, backupCount);
      if count > 0 {
        for i := 0 to count
          invariant SentToEach(old(outbox), named, partitionId, BackupTargets(cluster, partitionId, i))
        {
          var replicaIndex := i + 1;
          var replicaTarget := cluster.replica(partitionId, replicaIndex);
          // An address equal to this node's is skipped.
          if replicaTarget.Some? && replicaTarget.value != cluster.thisAddress {
            outbox := outbox + [Packet(named, partitionId, replicaTarget.value)];
          }
        }
      }
    }

    /** Synchronous backups: one invocation per backup target, then a bounded
        wait on each future in turn; the first wait that throws ends the call
        with that throwable. */
    method TakeBackups(serviceName: string, op: Operation, partitionId: int, backupCount: int, timeoutSeconds: int,
                       cluster: ClusterView, ack: int -> Option<Throwable>)
      returns (dispatched: seq<BackupInvocation>, waits: seq<Wait>, failure: Option<Throwable>)
      ensures var targets := BackupTargets(cluster, partitionId, ClampBackupCount(cluster.size, backupCount));
        && |dispatched| == |targets|
        && forall i :: 0 <= i < |targets| ==>
             dispatched[i] == BackupInvocation(serviceName, op.(serviceName := serviceName), partitionId,
                                               targets[i].replicaIndex)
      ensures |waits| <= |dispatched|
      ensures forall i :: 0 <= i < |waits| ==> waits[i] == Wait(dispatched[i].replicaIndex, timeoutSeconds)
      ensures failure.None? <==>
        |waits| == |dispatched| && forall i :: 0 <= i < |waits| ==> ack(dispatched[i].replicaIndex).None?
      ensures failure.Some? ==>
        && 0 < |waits| && failure == ack(dispatched[|waits| - 1].replicaIndex)
        && forall i :: 0 <= i < |waits| - 1 ==> ack(dispatched[i].replicaIndex).None?
    {
      var named := op.(serviceName := serviceName);
      var count := ClampBackupCount(cluster.size, backupCount);
      dispatched := [];
      if count > 0 {
        for i := 0 to count
          invariant |dispatched| == |BackupTargets(cluster, partitionId, i)|
          invariant forall k :: 0 <= k < |dispatched| ==>
            dispatched[k] == BackupInvocation(serviceName, named, partitionId,
                                              BackupTargets(cluster, partitionId, i)[k].replicaIndex)
        {
          var replicaIndex := i + 1;
          var replicaTarget := cluster.replica(partitionId, replicaIndex);
          // An address equal to this node's is skipped.
          if replicaTarget.Some? && replicaTarget.value != cluster.thisAddress {
            dispatched := dispatched + [BackupInvocation(serviceName, named, partitionId, replicaIndex)];
          }
        }
      }
      waits := [];
      failure := None;
      var i := 0;
      while i < |dispatched| && failure.None?
        invariant 0 <= i <= |dispatched| && |waits| == i
        invariant forall k :: 0 <= k < i ==> waits[k] == Wait(dispatched[k].replicaIndex, timeoutSeconds)
        invariant failure.None? ==> forall k :: 0 <= k < i ==> ack(dispatched[k].replicaIndex).None?
        invariant failure.Some? ==>
          && 0 < i && failure == ack(dispatched[i - 1].replicaIndex)
          && forall k :: 0 <= k < i - 1 ==> ack(dispatched[k].replicaIndex).None?
      {
        waits := waits + [Wait(dispatched[i].replicaIndex, timeoutSeconds)];
        failure := ack(dispatched[i].replicaIndex);
        i := i + 1;
      }
    }

    /** Buckets the partition ids `0..partitionCount-1` by their current owner. */
    method GetMemberPartitions(cluster: ClusterView) returns (groups: map<Option<Address>, seq<int>>)
      ensures IsOwnerGrouping(groups, partitionCount, cluster.owner)
    {
      groups := map[];
      var i := 0;
      while i < partitionCount
        invariant 0 <= i && (i <= partitionCount || groups == map[])
        invariant IsOwnerGrouping(groups, i, cluster.owner)
      {
        var owner := cluster.owner(i);
        var owned: seq<int>;
        if owner in groups {
          owned := groups[owner];
        } else {
          owned := [];
        }
        groups := groups[owner := owned + [i]];
        i := i + 1;
      }
    }

    /** Runs `op` on every partition: one owner-level invocation per owner
        (five tries, 300 ms apart), each owner's results merged in, a failed
        owner's throwable recorded under each of its partitions, then every
        partition holding an `Exception` re-invoked on its own and its entry
        replaced by the outcome. A re-invocation whose `get` throws ends the
        call with that throwable. It also returns the grouping and the
        order in which the owner-level responses were awaited. */
    method InvokeOnAllPartitions(serviceName: string, op: Operation, cluster: ClusterView,
                                 ownerOutcome: Option<Address> -> OwnerOutcome, retry: int -> RetryOutcome)
      returns (ownerCalls: seq<OwnerCall>, reissued: seq<int>, r: Result<map<int, Entry>>,
               groups: map<Option<Address>, seq<int>>, awaitOrder: seq<Option<Address>>)
      ensures IsOwnerGrouping(groups, partitionCount, cluster.owner)
      ensures OneCallPerOwner(ownerCalls, groups, serviceName, op)
      // the responses are awaited once each, in the order of the response map
      ensures Distinct(awaitOrder) && forall a :: a in awaitOrder <==> a in groups
      ensures var m := OwnerPhase(awaitOrder, groups, ownerOutcome);
        && Distinct(reissued)
        && (forall p :: p in reissued <==> p in m && NeedsRetry(m[p]))
        && (r.Success? ==> (forall p :: p in reissued ==> retry(p).Completed?) && r.value == AfterRetries(m, retry))
        && (r.Failure? ==> exists i :: 0 <= i < |reissued| && retry(reissued[i]) == GetFailed(r.error)
                                       && forall j :: 0 <= j < i ==> retry(reissued[j]).Completed?)
    {
      var memberPartitions := GetMemberPartitions(cluster);
      groups := memberPartitions;
      var owners := Enumerate(memberPartitions.Keys);
      ownerCalls := DispatchOwners(owners, memberPartitions, serviceName, op);
      // The futures are kept in a map keyed by owner and awaited in its own order.
      var responses := Enumerate(memberPartitions.Keys);
      awaitOrder := responses;
      var partitionResults := AwaitOwners(responses, memberPartitions, ownerOutcome);
      var failed := RetryCandidates(partitionResults);
      reissued := failed;
      r := AwaitRetries(partitionResults, failed, retry);
    }
  }
}

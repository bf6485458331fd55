/** The decisions `invoke` makes before anything is registered or sent: the
    guard against a key operation calling out for another key operation, the
    check of the target, and the routing context stamped on the operation. */
module Invocations {
  import opened Base
  import opened Execution

  /** What one `invoke` did. A rejected invocation throws to its caller; a
      dispatched one has a call registered under `callId`; when the packet was
      not sent, the invocation's result is set to `result` and the call stays
      registered. */
  datatype InvokeOutcome =
    | Rejected(error: Throwable)
    | RanLocally(execution: ExecResult)
    | Dispatched(callId: int)
    | SendFailed(callId: int, result: Throwable)

  /** The operation currently executing on this thread and the one being
      invoked are both key operations. */
  predicate IsNestedKeyCall(current: Option<Operation>, op: Operation) {
    current.Some? && current.value.kind.keyed && op.kind.keyed
  }

  /** `checkInvocation`: a null target is a wrong target; a target that is not
      a member is refused unless the operation is a join. */
  function CheckInvocation(inv: Invocation, cluster: ClusterView): (failure: Option<Throwable>)
    ensures failure.None? <==> inv.target.Some? && (inv.op.kind.join || inv.target.value in cluster.members)
    ensures failure == Some(WrongTarget) <==> inv.target.None?
    ensures failure.Some? ==> failure.value == WrongTarget || failure.value == TargetNotMember
  {
    if inv.target.None? then Some(WrongTarget)
    else if !inv.op.kind.join && inv.target.value !in cluster.members then Some(TargetNotMember)
    else None
  }

  /** The operation as `invoke` prepares it: service name, this node as
      caller, no call id yet, and the invocation's partition and replica. */
  function WithContext(inv: Invocation, self: Address): (stamped: Operation)
  {
    inv.op.(serviceName := inv.serviceName, caller := Some(self), callId := -1,
            partitionId := inv.partitionId, replicaIndex := inv.replicaIndex)
  }
}

/** Shared vocabulary of the node service: addresses, operations, invocations,
    calls, packets, the exceptions the service raises or passes on, and the
    read-only view of the cluster and partition table that it consults. */
module Base {

  datatype Option<+T> = None | Some(value: T)

  datatype Result<+T> = Success(value: T) | Failure(error: Throwable)

  /** A member's network address (host and port). */
  datatype Address = Address(host: string, port: int)

  /** Java `int`. */
  const INT_MIN: int := -0x8000_0000
  type Int32 = x: int | -0x8000_0000 <= x <= 0x7fff_ffff

  /** An opaque response object produced by an operation. */
  type Value = int

  /** The throwables that reach the dispatch code. */
  datatype Throwable =
    | NestedKeyCall                         // HazelcastException: a key operation calling out for another
    | WrongTarget                           // WrongTargetException
    | TargetNotMember                       // TargetNotMemberException
    | PartitionMigrating                    // PartitionMigratingException
    | IllegalArgument                       // IllegalArgumentException: negative partition id
    | IndexOutOfBounds                      // ArrayIndexOutOfBoundsException
    | NullPointer                           // NullPointerException
    | PacketNotSent                         // RetryableException wrapping "Packet not sent!"
    | Timeout                               // TimeoutException from a bounded wait
    | OperationError(code: int, retryable: bool)  // raised by an operation's own logic
    | JvmError(code: int)                   // a java.lang.Error: a Throwable that is not an Exception

  /** `t instanceof Exception`. */
  predicate IsException(t: Throwable) {
    !t.JvmError?
  }

  /** `t instanceof RetryableException`: the routing and migration exceptions
      are its subclasses. */
  predicate IsRetryable(t: Throwable) {
    || t.WrongTarget? || t.TargetNotMember? || t.PartitionMigrating? || t.PacketNotSent?
    || (t.OperationError? && t.retryable)
  }

  /** What a response handler is given: a value (possibly null) or a throwable. */
  datatype Reply = Returned(value: Option<Value>) | Raised(error: Throwable)

  /** The identity of an operation's response handler. */
  datatype Handler =
    | LocalResponse(invocation: int)        // installed by invoke for a self-targeted call
    | Attached(id: int)                     // any handler set up elsewhere

  /** The marker interfaces an operation class implements. */
  datatype OpKind = OpKind(
    partitionScoped: bool,   // PartitionOperation
    write: bool,             // PartitionWriteOperation
    keyed: bool,             // KeyOperation
    backup: bool,            // BackupOperation
    join: bool)              // JoinOperation loaded by the service's own class loader

  datatype Operation = Operation(
    kind: OpKind,
    validatesTarget: bool,   // shouldValidateTarget()
    keyHash: Int32,          // getKeyHash(), meaningful for key operations
    serviceName: string,
    partitionId: int,
    replicaIndex: int,
    caller: Option<Address>,
    callId: int,
    handler: Option<Handler>)

  /** One configured dispatch of an operation; `target` is null when none was resolved. */
  datatype Invocation = Invocation(
    id: int,
    serviceName: string,
    op: Operation,
    partitionId: int,
    replicaIndex: int,
    target: Option<Address>)

  /** An outstanding remote invocation awaiting its response. */
  datatype Call = Call(target: Address, invocation: int)

  /** An encoded operation handed to the transport for one destination. */
  datatype Packet = Packet(op: Operation, partitionId: int, to: Address)

  /** The cluster and partition-table queries the service consults. */
  datatype ClusterView = ClusterView(
    thisAddress: Address,
    size: int,
    members: set<Address>,
    owner: int -> Option<Address>,          // getPartitionOwner(partitionId)
    replica: (int, int) -> Option<Address>) // getReplicaAddress(replicaIndex) of a partition

  predicate Distinct<T(==)>(xs: seq<T>) {
    forall i, j :: 0 <= i < j < |xs| ==> xs[i] != xs[j]
  }

  /** Lists the elements of `s` in some order, each once: the iteration order
      of a hash map's key set, which the service never relies on. */
  method Enumerate<T(==)>(s: set<T>) returns (xs: seq<T>)
    ensures Distinct(xs)
    ensures forall x :: x in xs <==> x in s
    ensures |xs| == |s|
  {
    xs := [];
    var rest := s;
    while rest != {}
      invariant rest <= s
      invariant Distinct(xs)
      invariant forall x :: x in xs <==> x in s && x !in rest
      invariant |xs| + |rest| == |s|
      decreases rest
    {
      var x :| x in rest;
      xs := xs + [x];
      rest := rest - {x};
    }
  }
}

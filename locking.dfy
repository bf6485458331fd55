/** The lock discipline of operation execution: which partition lock and which
    slot of the hashed key-lock bank an operation takes before it runs, and
    which failures stop it first. Locks are abstract names; blocking and
    mutual exclusion between threads are not modelled. */
module Locking {
  import opened Base

  /** Size of the key-lock bank (`locks.length`). */
  const KEY_LOCK_COUNT: int := 100000

  /** Java's `Math.abs(int)`: the negation of `Integer.MIN_VALUE` overflows
      back to itself. */
  function JavaAbs(x: Int32): (r: Int32)
    ensures x != INT_MIN ==> 0 <= r && (r == x || r == -x)
    ensures x == INT_MIN ==> r == INT_MIN
  {
    if 0 <= x then x else if x == INT_MIN then INT_MIN else -x
  }

  /** Java's `%` on `int`: truncating, so the remainder takes the sign of the
      dividend. */
  function JavaRem(a: int, b: int): (r: int)
    requires 0 < b
    ensures 0 <= a ==> 0 <= r
    ensures a < 0 ==> r <= 0
    ensures (if r < 0 then -r else r) == (if a < 0 then -a else a) % b
  {
    if 0 <= a then a % b else -((-a) % b)
  }

  /** The key-lock slot `Math.abs(hash) % locks.length`. It lies in the bank
      for every hash but `Integer.MIN_VALUE`, whose slot is negative. */
  function KeyLockIndex(hash: Int32): (index: int)
    ensures index < KEY_LOCK_COUNT
    ensures index < 0 <==> hash == INT_MIN
    ensures hash != INT_MIN ==> index == (if hash < 0 then -hash else hash) % KEY_LOCK_COUNT
    ensures hash == INT_MIN ==> index == -83648
  {
    JavaRem(JavaAbs(hash), KEY_LOCK_COUNT)
  }

  datatype LockId = PartitionWrite(partition: int) | PartitionRead(partition: int) | KeyLock(index: int)

  /** The locks acquired, in order, before the operation runs, and the failure
      (if any) that ends the acquisition phase. */
  datatype LockPhase = LockPhase(acquired: seq<LockId>, failure: Option<Throwable>)

  /** The operation goes down the shared-lock path and its `tryLock` succeeds. */
  predicate ReadAdmitted(op: Operation, readLockFree: bool) {
    op.kind.partitionScoped && 0 <= op.partitionId && !op.kind.write && readLockFree
  }

  /** Target validation is on and this node is not the expected replica. */
  predicate TargetMismatch(op: Operation, self: Address, owner: Option<Address>) {
    op.validatesTarget && owner != Some(self)
  }

  /** Only non-backup key operations take a key lock. */
  predicate TakesKeyLock(op: Operation) {
    op.kind.keyed && !op.kind.backup
  }

  /** Lock acquisition of `executeOperation` for an operation whose expected
      replica is `owner`, when the partition's shared lock is (`readLockFree`)
      or is not available to a non-blocking attempt. */
  function LockPhaseOf(op: Operation, self: Address, owner: Option<Address>, readLockFree: bool): (p: LockPhase)
    // Only partition operations lock, and their first lock is their partition's.
    ensures !op.kind.partitionScoped ==> p == LockPhase([], None)
    ensures p.acquired != [] ==>
      && op.kind.partitionScoped && 0 <= op.partitionId
      && p.acquired[0] == (if op.kind.write then PartitionWrite(op.partitionId) else PartitionRead(op.partitionId))
    // A negative partition id fails before any lock is taken.
    ensures op.kind.partitionScoped && op.partitionId < 0 ==> p == LockPhase([], Some(IllegalArgument))
    // A write operation takes exactly the exclusive partition lock.
    ensures op.kind.partitionScoped && 0 <= op.partitionId && op.kind.write ==>
      p == LockPhase([PartitionWrite(op.partitionId)], None)
    // A failed tryLock fails the operation with no lock held.
    ensures op.kind.partitionScoped && 0 <= op.partitionId && !op.kind.write && !readLockFree ==>
      p == LockPhase([], Some(PartitionMigrating))
    // A target mismatch is detected under the shared lock, before any key lock.
    ensures p.failure == Some(WrongTarget) <==> ReadAdmitted(op, readLockFree) && TargetMismatch(op, self, owner)
    ensures p.failure == Some(WrongTarget) ==> p.acquired == [PartitionRead(op.partitionId)]
    // A read operation whose tryLock succeeds holds the shared partition lock
    // first; without a key lock to take and with the target confirmed, that is
    // all it holds.
    ensures ReadAdmitted(op, readLockFree) ==> p.acquired != [] && p.acquired[0] == PartitionRead(op.partitionId)
    ensures ReadAdmitted(op, readLockFree) && !TargetMismatch(op, self, owner) && !TakesKeyLock(op) ==>
      p == LockPhase([PartitionRead(op.partitionId)], None)
    // A key lock is taken only by a non-backup key operation, nested inside
    // the shared partition lock, at an in-range slot.
    ensures |p.acquired| <= 2
    ensures |p.acquired| == 2 ==>
      && ReadAdmitted(op, readLockFree) && TakesKeyLock(op) && p.failure == None
      && p.acquired[1] == KeyLock(KeyLockIndex(op.keyHash))
      && 0 <= KeyLockIndex(op.keyHash) < KEY_LOCK_COUNT
    ensures ReadAdmitted(op, readLockFree) && !TargetMismatch(op, self, owner) && TakesKeyLock(op) ==>
      (|p.acquired| == 2 <==> op.keyHash != INT_MIN)
    // The one hash whose slot is negative makes the bank access throw.
    ensures p.failure == Some(IndexOutOfBounds) <==>
      ReadAdmitted(op, readLockFree) && !TargetMismatch(op, self, owner) && TakesKeyLock(op) && op.keyHash == INT_MIN
    ensures p.failure == Some(IndexOutOfBounds) ==> p.acquired == [PartitionRead(op.partitionId)]
  {
    var pid := op.partitionId;
    if !op.kind.partitionScoped then LockPhase([], None)
    else if pid < 0 then LockPhase([], Some(IllegalArgument))
    else if op.kind.write then LockPhase([PartitionWrite(pid)], None)
    else if !readLockFree then LockPhase([], Some(PartitionMigrating))
    else if TargetMismatch(op, self, owner) then LockPhase([PartitionRead(pid)], Some(WrongTarget))
    else if !TakesKeyLock(op) then LockPhase([PartitionRead(pid)], None)
    else if KeyLockIndex(op.keyHash) < 0 then LockPhase([PartitionRead(pid)], Some(IndexOutOfBounds))
    else LockPhase([PartitionRead(pid), KeyLock(KeyLockIndex(op.keyHash))], None)
  }
}

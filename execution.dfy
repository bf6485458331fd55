/** What `executeOperation` does with one operation: the locks it takes and
    releases, whether the operation's own logic runs, where the response or
    the error ends up, and how a failure is logged. */
module Execution {
  import opened Base
  import opened Locking

  datatype Severity = Warning | Severe

  /** How the operation and its reply behave: the values `op.run()` passed to
      its response handler, in order, the throwable `run()` ended with, if
      any, and the throwable the original handler's `sendResponse` raises when
      given the reply, if any (a remote handler that cannot send it, say). */
  datatype RunOutcome = RunOutcome(responses: seq<Value>, thrown: Option<Throwable>, replyFailure: Option<Throwable>)

  /** Where the single reply of an execution goes: the operation's original
      handler, the capturing handler installed just before `run()` (whose
      contents are then discarded), or nowhere because the original handler
      is null. `Escaped` is a failure before the swap whose error reply made
      the original handler's `sendResponse` throw `escaping`: that throwable
      leaves `executeOperation` once the locks are released. */
  datatype Delivery =
    | ToOriginal(reply: Reply)
    | ToCapturing(reply: Reply)
    | Dropped(reply: Reply)
    | Escaped(reply: Reply, escaping: Throwable)

  datatype ExecResult = ExecResult(
    acquired: seq<LockId>,
    released: seq<LockId>,
    ran: bool,
    delivery: Delivery,
    logged: Option<Severity>)

  /** Retryable failures are logged as warnings, all others as severe. */
  function SeverityOf(t: Throwable): (s: Severity)
    ensures s == Warning <==> IsRetryable(t)
  {
    if IsRetryable(t) then Warning else Severe
  }

  /** The value the capturing handler holds after `run()`: the last one it was
      given, or null. */
  function Captured(responses: seq<Value>): (v: Option<Value>)
    ensures v.None? <==> responses == []
    ensures v.Some? ==> v.value == responses[|responses| - 1]
  {
    if responses == [] then None else Some(responses[|responses| - 1])
  }

  /** Locks released in the reverse of the order they were taken. */
  function ReleaseOrder(acquired: seq<LockId>): (released: seq<LockId>)
    ensures |released| == |acquired|
    ensures forall i :: 0 <= i < |acquired| ==> released[i] == acquired[|acquired| - 1 - i]
  {
    if acquired == [] then [] else ReleaseOrder(acquired[1..]) + [acquired[0]]
  }

  /** `executeOperation(op)` when the operation's expected replica is `owner`,
      the partition's shared lock is or is not free, and the operation's own
      logic behaves as `run` says. */
  function ExecutionOf(op: Operation, self: Address, owner: Option<Address>, readLockFree: bool, run: RunOutcome)
    : (e: ExecResult)
    ensures e.acquired == LockPhaseOf(op, self, owner, readLockFree).acquired
    // Every lock taken is released, the key lock before the partition lock.
    ensures |e.released| == |e.acquired|
    ensures forall i :: 0 <= i < |e.acquired| ==> e.released[i] == e.acquired[|e.acquired| - 1 - i]
    // The operation runs exactly when lock acquisition did not fail.
    ensures e.ran <==> LockPhaseOf(op, self, owner, readLockFree).failure.None?
    // A failure before the handler swap reaches the original handler, if there is one;
    // if that handler throws while replying, its throwable escapes.
    ensures !e.ran ==>
      var f := LockPhaseOf(op, self, owner, readLockFree).failure.value;
      && e.delivery == (if op.handler.None? then Dropped(Raised(f))
                        else if run.replyFailure.Some? then Escaped(Raised(f), run.replyFailure.value)
                        else ToOriginal(Raised(f)))
      && e.logged == Some(SeverityOf(f))
    // After the swap, an exception from run() reaches only the capturing handler.
    ensures e.ran && run.thrown.Some? ==>
      e.delivery == ToCapturing(Raised(run.thrown.value)) && e.logged == Some(SeverityOf(run.thrown.value))
    // On success the original handler receives exactly the last captured value.
    ensures e.ran && run.thrown.None? && op.handler.Some? && run.replyFailure.None? ==>
      e.delivery == ToOriginal(Returned(Captured(run.responses))) && e.logged == None
    // A throwable from the original handler's sendResponse is caught after the
    // swap, so it too reaches only the capturing handler.
    ensures e.ran && run.thrown.None? && op.handler.Some? && run.replyFailure.Some? ==>
      e.delivery == ToCapturing(Raised(run.replyFailure.value)) && e.logged == Some(SeverityOf(run.replyFailure.value))
    // A null original handler turns success into a NullPointerException that
    // the capturing handler swallows.
    ensures e.ran && run.thrown.None? && op.handler.None? ==>
      e.delivery == ToCapturing(Raised(NullPointer)) && e.logged == Some(Severe)
  {
    var phase := LockPhaseOf(op, self, owner, readLockFree);
    var released := ReleaseOrder(phase.acquired);
    if phase.failure.Some? then
      var f := phase.failure.value;
      var reply := Raised(f);
      ExecResult(phase.acquired, released, false,
                 if op.handler.None? then Dropped(reply)
                 else if run.replyFailure.Some? then Escaped(reply, run.replyFailure.value)
                 else ToOriginal(reply),
                 Some(SeverityOf(f)))
    else if run.thrown.Some? then
      ExecResult(phase.acquired, released, true, ToCapturing(Raised(run.thrown.value)),
                 Some(SeverityOf(run.thrown.value)))
    else if op.handler.None? then
      ExecResult(phase.acquired, released, true, ToCapturing(Raised(NullPointer)), Some(SeverityOf(NullPointer)))
    else if run.replyFailure.Some? then
      ExecResult(phase.acquired, released, true, ToCapturing(Raised(run.replyFailure.value)),
                 Some(SeverityOf(run.replyFailure.value)))
    else
      ExecResult(phase.acquired, released, true, ToOriginal(Returned(Captured(run.responses))), None)
  }
}

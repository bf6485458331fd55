/** Result merging of the fan-out to all partitions: one owner-level call per
    owner, whose failure is recorded under every partition of that owner; then
    every partition whose entry is an `Exception` is re-invoked on its own and
    the outcome replaces the entry. */
module FanOut {
  import opened Base
  import opened Partitions

  /** A partition's entry in the result map: a value or a throwable. */
  datatype Entry = Val(value: Value) | Err(error: Throwable)

  /** How an owner-level future completes: with a partition-to-entry map, or
      by throwing. */
  datatype OwnerOutcome = OwnerResults(results: map<int, Entry>) | OwnerFailed(error: Throwable)

  /** How the `get` on a single-partition re-invocation completes. */
  datatype RetryOutcome = Completed(entry: Entry) | GetFailed(error: Throwable)

  /** One owner-level invocation: its target, the partitions it iterates, and
      its retry policy. */
  datatype OwnerCall = OwnerCall(
    target: Option<Address>,
    serviceName: string,
    op: Operation,
    partitions: seq<int>,
    tryCount: int,
    tryPauseMillis: int)

  const OWNER_TRY_COUNT: int := 5
  const OWNER_TRY_PAUSE_MILLIS: int := 300

  /** The entries that are re-invoked: those that hold an `Exception`. */
  predicate NeedsRetry(e: Entry) {
    e.Err? && IsException(e.error)
  }

  /** The entries written for a failed owner: its throwable under each of its partitions. */
  function MarkFailed(partitions: seq<int>, t: Throwable): (m: map<int, Entry>)
    ensures forall p :: p in m <==> p in partitions
    ensures forall p :: p in m ==> m[p] == Err(t)
  {
    map p | p in partitions :: Err(t)
  }

  /** What awaiting one owner's future writes into the result map. */
  function Contribution(groups: map<Option<Address>, seq<int>>, outcome: Option<Address> -> OwnerOutcome,
                        a: Option<Address>): (written: map<int, Entry>)
  {
    match outcome(a)
    case OwnerResults(m) => m
    case OwnerFailed(t) => MarkFailed(if a in groups then groups[a] else [], t)
  }

  /** The result map after awaiting the owner-level futures in `order`. */
  function OwnerPhase(order: seq<Option<Address>>, groups: map<Option<Address>, seq<int>>,
                      outcome: Option<Address> -> OwnerOutcome): (merged: map<int, Entry>)
    decreases |order|
  {
    if order == [] then map[]
    else OwnerPhase(order[..|order| - 1], groups, outcome) + Contribution(groups, outcome, order[|order| - 1])
  }

  /** The result map once every retried partition's outcome replaced its entry. */
  function AfterRetries(m: map<int, Entry>, retry: int -> RetryOutcome): (r: map<int, Entry>)
    ensures r.Keys == m.Keys
    ensures forall p :: p in m && !NeedsRetry(m[p]) ==> r[p] == m[p]
    ensures forall p :: p in m && NeedsRetry(m[p]) && retry(p).Completed? ==> r[p] == retry(p).entry
  {
    map p | p in m :: if NeedsRetry(m[p]) && retry(p).Completed? then retry(p).entry else m[p]
  }

  /** One owner-level call per owner of `groups`, over that owner's
      partitions, with the fixed retry policy. */
  predicate OneCallPerOwner(calls: seq<OwnerCall>, groups: map<Option<Address>, seq<int>>,
                            serviceName: string, op: Operation) {
    && |calls| == |groups|
    && (forall i, j :: 0 <= i < j < |calls| ==> calls[i].target != calls[j].target)
    && forall i :: 0 <= i < |calls| ==>
         && calls[i].target in groups
         && calls[i] == OwnerCall(calls[i].target, serviceName, op, groups[calls[i].target],
                                  OWNER_TRY_COUNT, OWNER_TRY_PAUSE_MILLIS)
  }

  /** Starting the owner-level invocations, one per owner in `owners`. */
  method DispatchOwners(owners: seq<Option<Address>>, groups: map<Option<Address>, seq<int>>,
                        serviceName: string, op: Operation) returns (calls: seq<OwnerCall>)
    requires Distinct(owners) && |owners| == |groups|
    requires forall a :: a in owners <==> a in groups
    ensures OneCallPerOwner(calls, groups, serviceName, op)
    ensures forall i :: 0 <= i < |calls| ==> calls[i].target == owners[i]
  {
    calls := [];
    for i := 0 to |owners|
      invariant |calls| == i
      invariant forall k :: 0 <= k < i ==>
        calls[k] == OwnerCall(owners[k], serviceName, op, groups[owners[k]], OWNER_TRY_COUNT, OWNER_TRY_PAUSE_MILLIS)
    {
      calls := calls + [OwnerCall(owners[i], serviceName, op, groups[owners[i]], OWNER_TRY_COUNT, OWNER_TRY_PAUSE_MILLIS)];
    }
  }

  /** Awaiting the owner-level futures in `order`: a successful owner's map is
      merged in, a failed owner's throwable is put under each of its partitions. */
  method AwaitOwners(order: seq<Option<Address>>, groups: map<Option<Address>, seq<int>>,
                     outcome: Option<Address> -> OwnerOutcome) returns (results: map<int, Entry>)
    requires forall a :: a in order ==> a in groups
    ensures results == OwnerPhase(order, groups, outcome)
  {
    results := map[];
    for i := 0 to |order|
      invariant results == OwnerPhase(order[..i], groups, outcome)
    {
      var a := order[i];
      assert order[..i + 1][..i] == order[..i];
      match outcome(a) {
        case OwnerResults(m) =>
          results := results + m;
        case OwnerFailed(t) =>
          results := RecordFailure(results, groups[a], t);
      }
    }
    assert order[..|order|] == order;
  }

  /** Puts `t` under each partition of a failed owner. */
  method RecordFailure(results: map<int, Entry>, partitions: seq<int>, t: Throwable) returns (r: map<int, Entry>)
    ensures r == results + MarkFailed(partitions, t)
  {
    r := results;
    for j := 0 to |partitions|
      invariant r == results + MarkFailed(partitions[..j], t)
    {
      assert partitions[..j + 1] == partitions[..j] + [partitions[j]];
      r := r[partitions[j] := Err(t)];
    }
    assert partitions[..|partitions|] == partitions;
  }

  /** The partitions whose entry holds an `Exception`, each once. */
  method RetryCandidates(results: map<int, Entry>) returns (failed: seq<int>)
    ensures Distinct(failed)
    ensures forall i :: 0 <= i < |failed| ==> failed[i] in results && NeedsRetry(results[failed[i]])
    ensures forall p :: p in results && NeedsRetry(results[p]) ==> p in failed
  {
    var entries := Enumerate(results.Keys);
    failed := [];
    for i := 0 to |entries|
      invariant Distinct(failed)
      invariant forall p :: p in failed <==> p in entries[..i] && NeedsRetry(results[p])
    {
      assert entries[..i + 1] == entries[..i] + [entries[i]];
      if NeedsRetry(results[entries[i]]) {
        failed := failed + [entries[i]];
      }
    }
    assert entries[..|entries|] == entries;
    assert forall i :: 0 <= i < |failed| ==> failed[i] in failed;
  }

  /** Awaiting the re-invocations of `failed` in order: each outcome replaces
      its partition's entry, and the first `get` that throws ends the whole
      call with that throwable. */
  method AwaitRetries(results: map<int, Entry>, failed: seq<int>, retry: int -> RetryOutcome)
    returns (r: Result<map<int, Entry>>)
    requires forall i :: 0 <= i < |failed| ==> failed[i] in results && NeedsRetry(results[failed[i]])
    requires forall p :: p in results && NeedsRetry(results[p]) ==> p in failed
    ensures r.Success? ==> (forall p :: p in failed ==> retry(p).Completed?) && r.value == AfterRetries(results, retry)
    ensures r.Failure? ==>
      exists i :: 0 <= i < |failed| && retry(failed[i]) == GetFailed(r.error)
                  && forall j :: 0 <= j < i ==> retry(failed[j]).Completed?
  {
    var merged := results;
    for i := 0 to |failed|
      invariant merged.Keys == results.Keys
      invariant forall k :: 0 <= k < i ==> retry(failed[k]).Completed?
      invariant forall p :: p in merged ==>
        merged[p] == (if p in failed[..i] && retry(p).Completed? then retry(p).entry else results[p])
    {
      assert failed[..i + 1] == failed[..i] + [failed[i]];
      match retry(failed[i]) {
        case GetFailed(t) =>
          return Failure(t);
        case Completed(e) =>
          merged := merged[failed[i] := e];
      }
    }
    assert failed[..|failed|] == failed;
    ghost var expected := AfterRetries(results, retry);
    assert forall p :: p in merged ==> merged[p] == expected[p];
    r := Success(merged);
  }

  /** Every owner-level result stays within that owner's own partitions. */
  predicate ResultsStayWithOwner(order: seq<Option<Address>>, outcome: Option<Address> -> OwnerOutcome,
                                 owner: int -> Option<Address>) {
    forall a, p :: a in order && outcome(a).OwnerResults? && p in outcome(a).results ==> owner(p) == a
  }

  /** The entry a partition gets from its own owner's outcome alone: the
      owner's throwable if the owner failed and lists the partition, the
      owner's result for it if the owner succeeded and reported on it. */
  function OwnEntry(groups: map<Option<Address>, seq<int>>, outcome: Option<Address> -> OwnerOutcome,
                    owner: int -> Option<Address>, p: int): (entry: Option<Entry>)
  {
    var a := owner(p);
    match outcome(a)
    case OwnerResults(m) => if p in m then Some(m[p]) else None
    case OwnerFailed(t) => if a in groups && p in groups[a] then Some(Err(t)) else None
  }

  /** When the owners awaited are distinct, the grouping is by owner and each
      owner reports only on its own partitions, a partition's entry after the
      owner phase is decided by its owner's outcome alone: the throwable of a
      failed owner lands on every partition of that owner's subset, a
      successful owner's results are kept as they are, and a partition whose
      owner was not awaited has no entry. */
  lemma {:induction false} OwnerPhaseAt(order: seq<Option<Address>>, groups: map<Option<Address>, seq<int>>,
                                        count: int, owner: int -> Option<Address>,
                                        outcome: Option<Address> -> OwnerOutcome, p: int)
    requires Distinct(order)
    requires forall a :: a in order ==> a in groups
    requires IsOwnerGrouping(groups, count, owner)
    requires ResultsStayWithOwner(order, outcome, owner)
    ensures var m := OwnerPhase(order, groups, outcome);
      && (p in m <==> owner(p) in order && OwnEntry(groups, outcome, owner, p).Some?)
      && (p in m ==> m[p] == OwnEntry(groups, outcome, owner, p).value)
    decreases |order|
  {
    if order != [] {
      var prefix := order[..|order| - 1];
      var last := order[|order| - 1];
      assert forall i :: 0 <= i < |prefix| ==> prefix[i] == order[i];
      assert Distinct(prefix);
      OwnerPhaseAt(prefix, groups, count, owner, outcome, p);
      assert owner(p) in order <==> owner(p) in prefix || owner(p) == last;
      if last != owner(p) {
        match outcome(last)
        case OwnerResults(m) =>
          assert p !in m;
        case OwnerFailed(t) =>
          assert p !in groups[last];
      } else {
        assert owner(p) !in prefix;
      }
    }
  }

  /** The order in which the owner-level futures are awaited (a hash map's
      iteration order) does not change the merged map, as long as each owner
      reports only on its own partitions. */
  lemma AwaitOrderIrrelevant(order1: seq<Option<Address>>, order2: seq<Option<Address>>,
                             groups: map<Option<Address>, seq<int>>, count: int, owner: int -> Option<Address>,
                             outcome: Option<Address> -> OwnerOutcome)
    requires Distinct(order1) && Distinct(order2)
    requires forall a :: a in order1 <==> a in groups
    requires forall a :: a in order2 <==> a in groups
    requires IsOwnerGrouping(groups, count, owner)
    requires ResultsStayWithOwner(order1, outcome, owner)
    ensures OwnerPhase(order1, groups, outcome) == OwnerPhase(order2, groups, outcome)
  {
    var m1 := OwnerPhase(order1, groups, outcome);
    var m2 := OwnerPhase(order2, groups, outcome);
    forall p
      ensures (p in m1 <==> p in m2) && (p in m1 ==> m1[p] == m2[p])
    {
      OwnerPhaseAt(order1, groups, count, owner, outcome, p);
      OwnerPhaseAt(order2, groups, count, owner, outcome, p);
    }
    assert m1.Keys == m2.Keys;
  }

  /** The fan-out scenario: partitions 0 and 1 owned by A, partition 2 by B; B's
      owner-level call fails with an exception and the retry of partition 2
      succeeds. Whatever order the owners are awaited in, the result holds A's
      values for 0 and 1 and the retried value for 2. */
  lemma RetriedPartitionReplacesFailure(a: Address, b: Address, v0: Value, v1: Value, v2: Value, t: Throwable,
                                        order: seq<Option<Address>>,
                                        outcome: Option<Address> -> OwnerOutcome, retry: int -> RetryOutcome)
    requires a != b
    requires IsException(t)
    requires order == [Some(a), Some(b)] || order == [Some(b), Some(a)]
    requires outcome(Some(a)) == OwnerResults(map[0 := Val(v0), 1 := Val(v1)])
    requires outcome(Some(b)) == OwnerFailed(t)
    requires retry(2) == Completed(Val(v2))
    ensures var groups := map[Some(a) := [0, 1], Some(b) := [2]];
      AfterRetries(OwnerPhase(order, groups, outcome), retry) == map[0 := Val(v0), 1 := Val(v1), 2 := Val(v2)]
  {
    var groups := map[Some(a) := [0, 1], Some(b) := [2]];
    var fromA := Contribution(groups, outcome, Some(a));
    var fromB := Contribution(groups, outcome, Some(b));
    assert MarkFailed([2], t).Keys == {2};
    assert fromB == map[2 := Err(t)];
    assert OwnerPhase(order[..1], groups, outcome) == Contribution(groups, outcome, order[0]) by {
      assert order[..1][..0] == [];
    }
    assert fromA + fromB == fromB + fromA;
    assert OwnerPhase(order, groups, outcome) == map[0 := Val(v0), 1 := Val(v1), 2 := Err(t)];
  }
}

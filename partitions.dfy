/** Grouping of partition ids by their current owner, as the fan-out to all
    partitions needs it. */
module Partitions {
  import opened Base

  predicate StrictlyIncreasing(xs: seq<int>) {
    forall i, j :: 0 <= i < j < |xs| ==> xs[i] < xs[j]
  }

  /** `groups` lists the partitions `0..count-1` by owner: no owner has an
      empty list, each list is strictly increasing, holds only in-range ids
      owned by its key, and every in-range id is in its owner's list. */
  predicate IsOwnerGrouping(groups: map<Option<Address>, seq<int>>, count: int, owner: int -> Option<Address>) {
    && (forall a :: a in groups ==> groups[a] != [] && StrictlyIncreasing(groups[a]))
    && (forall a, j :: a in groups && 0 <= j < |groups[a]| ==> 0 <= groups[a][j] < count && owner(groups[a][j]) == a)
    && (forall i :: 0 <= i < count ==> owner(i) in groups && i in groups[owner(i)])
  }

  /** In an owner grouping each partition id in range appears in exactly one
      list, exactly once. */
  lemma ExactlyOneList(groups: map<Option<Address>, seq<int>>, count: int, owner: int -> Option<Address>, p: int)
    requires IsOwnerGrouping(groups, count, owner)
    requires 0 <= p < count
    ensures forall a :: a in groups ==> (p in groups[a] <==> a == owner(p))
    ensures forall j, k :: 0 <= j < k < |groups[owner(p)]| ==> groups[owner(p)][j] != groups[owner(p)][k]
  {
  }

  /** The head of a strictly increasing list is its least element. */
  lemma HeadIsLeast(xs: seq<int>)
    requires StrictlyIncreasing(xs) && xs != []
    ensures forall v :: v in xs ==> xs[0] <= v
  {
    forall v | v in xs
      ensures xs[0] <= v
    {
      var i :| 0 <= i < |xs| && xs[i] == v;
    }
  }

  /** The tail of a strictly increasing list is strictly increasing and holds
      every element but the head. */
  lemma TailElements(xs: seq<int>)
    requires StrictlyIncreasing(xs) && xs != []
    ensures StrictlyIncreasing(xs[1..])
    ensures forall v :: v in xs[1..] <==> v in xs && v != xs[0]
  {
    forall v | v in xs && v != xs[0]
      ensures v in xs[1..]
    {
      var i :| 0 <= i < |xs| && xs[i] == v;
      assert xs[1..][i - 1] == v;
    }
    forall v | v in xs[1..]
      ensures v != xs[0]
    {
      var i :| 0 <= i < |xs| - 1 && xs[1..][i] == v;
      assert xs[i + 1] == v;
    }
  }

  /** Two strictly increasing lists with the same elements are the same list. */
  lemma {:induction false} IncreasingListsWithSameElements(xs: seq<int>, ys: seq<int>)
    requires StrictlyIncreasing(xs) && StrictlyIncreasing(ys)
    requires forall v :: v in xs <==> v in ys
    ensures xs == ys
    decreases |xs|
  {
    assert xs != [] ==> xs[0] in xs && xs[0] in ys;
    assert ys != [] ==> ys[0] in ys && ys[0] in xs;
    if xs != [] && ys != [] {
      HeadIsLeast(xs);
      HeadIsLeast(ys);
      assert xs[0] == ys[0];
      TailElements(xs);
      TailElements(ys);
      IncreasingListsWithSameElements(xs[1..], ys[1..]);
      assert xs == [xs[0]] + xs[1..] && ys == [ys[0]] + ys[1..];
    }
  }

  /** The owner grouping of `count` partitions is unique: whatever builds one,
      its keys are exactly the owners of the partitions in range and each list
      is exactly that owner's partitions in ascending order. */
  lemma OwnerGroupingUnique(g1: map<Option<Address>, seq<int>>, g2: map<Option<Address>, seq<int>>,
                            count: int, owner: int -> Option<Address>)
    requires IsOwnerGrouping(g1, count, owner) && IsOwnerGrouping(g2, count, owner)
    ensures g1 == g2
  {
    forall a | a in g1
      ensures a in g2
    {
      assert owner(g1[a][0]) == a;
    }
    forall a | a in g2
      ensures a in g1
    {
      assert owner(g2[a][0]) == a;
    }
    forall a | a in g1
      ensures g1[a] == g2[a]
    {
      forall v
        ensures v in g1[a] <==> v in g2[a]
      {
        if v in g1[a] {
          var j :| 0 <= j < |g1[a]| && g1[a][j] == v;
        }
        if v in g2[a] {
          var j :| 0 <= j < |g2[a]| && g2[a][j] == v;
        }
      }
      IncreasingListsWithSameElements(g1[a], g2[a]);
    }
    assert g1.Keys == g2.Keys;
  }
}

/** Which replicas a mutation's backups go to: the backup count is clamped to
    the number of other members, and replica indices 1, 2, ... up to that
    count are resolved, skipping indices with no address or with this node's
    own address. */
module Backups {
  import opened Base

  /** `Math.min(clusterSize - 1, backupCount)`. */
  function ClampBackupCount(clusterSize: int, backupCount: int): (n: int)
    ensures n <= clusterSize - 1 && n <= backupCount
    ensures n == clusterSize - 1 || n == backupCount
  {
    if clusterSize - 1 < backupCount then clusterSize - 1 else backupCount
  }

  datatype BackupTarget = BackupTarget(replicaIndex: int, target: Address)

  /** The replicas of `partitionId` at indices `1..count` that have an address
      other than this node's, in index order. */
  function BackupTargets(cluster: ClusterView, partitionId: int, count: int): (targets: seq<BackupTarget>)
    decreases count
  {
    if count <= 0 then []
    else
      var a := cluster.replica(partitionId, count);
      BackupTargets(cluster, partitionId, count - 1)
        + (if a.Some? && a.value != cluster.thisAddress then [BackupTarget(count, a.value)] else [])
  }

  predicate IndicesIncreasing(ts: seq<BackupTarget>) {
    forall i, j :: 0 <= i < j < |ts| ==> ts[i].replicaIndex < ts[j].replicaIndex
  }

  /** A backup target is exactly a replica index in `1..count` whose address
      exists and is not this node's; indices appear in strictly increasing
      order, so each replica is targeted at most once. */
  lemma {:induction false} BackupTargetsExactly(cluster: ClusterView, partitionId: int, count: int)
    ensures forall t :: t in BackupTargets(cluster, partitionId, count) <==>
      && 1 <= t.replicaIndex <= count
      && cluster.replica(partitionId, t.replicaIndex) == Some(t.target)
      && t.target != cluster.thisAddress
    ensures IndicesIncreasing(BackupTargets(cluster, partitionId, count))
    decreases count
  {
    if count > 0 {
      BackupTargetsExactly(cluster, partitionId, count - 1);
      var before := BackupTargets(cluster, partitionId, count - 1);
      var ts := BackupTargets(cluster, partitionId, count);
      assert forall i :: 0 <= i < |before| ==> before[i] in before && before[i].replicaIndex < count;
      assert forall i :: 0 <= i < |before| ==> ts[i] == before[i];
      assert |ts| == |before| || (|ts| == |before| + 1 && ts[|before|].replicaIndex == count);
      forall i, j | 0 <= i < j < |ts|
        ensures ts[i].replicaIndex < ts[j].replicaIndex
      {
        if j < |before| {
          assert before[i].replicaIndex < before[j].replicaIndex;
        }
      }
    }
  }

  /** Nothing is targeted when the clamped count is not positive, and no
      target's replica index reaches the cluster size: with two members and
      two configured backups only replica 1 is ever considered. */
  lemma {:induction false} ClampedTargetsStayInCluster(cluster: ClusterView, partitionId: int, backupCount: int)
    ensures var n := ClampBackupCount(cluster.size, backupCount);
      n <= 0 ==> BackupTargets(cluster, partitionId, n) == []
    ensures forall t :: t in BackupTargets(cluster, partitionId, ClampBackupCount(cluster.size, backupCount)) ==>
      1 <= t.replicaIndex < cluster.size && t.replicaIndex <= backupCount
  {
    BackupTargetsExactly(cluster, partitionId, ClampBackupCount(cluster.size, backupCount));
  }
}

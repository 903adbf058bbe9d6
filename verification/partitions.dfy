/** The site's local partitions and their array offsets
    (HStoreSite.getLocalPartitionOffset / getLocalPartitionFromOffset).
    A partition's offset is its position in the site's list of local
    partitions, so offsets are exactly 0 .. n-1. */
module Partitions {
  import opened Common

  /** No partition is listed twice. */
  predicate Distinct(locals: seq<PartitionId>)
  {
    forall i, j :: 0 <= i < j < |locals| ==> locals[i] != locals[j]
  }

  /** The offset of a local partition: the first position that holds it. */
  function OffsetOf(locals: seq<PartitionId>, p: PartitionId): (o: nat)
    requires p in locals
    ensures o < |locals| && locals[o] == p
    ensures forall k :: 0 <= k < o ==> locals[k] != p
  {
    if locals[0] == p then 0 else 1 + OffsetOf(locals[1..], p)
  }

  /** The offset of any partition, or None when it is not local. */
  function LocalOffset(locals: seq<PartitionId>, p: PartitionId): (r: Option<nat>)
    ensures r.None? <==> p !in locals
    ensures r.Some? ==> r.value < |locals| && locals[r.value] == p
  {
    if p in locals then Some(OffsetOf(locals, p)) else None
  }

  /** Offsets and local partitions are in one-to-one correspondence:
      from an offset to its partition and back gives the same offset. */
  lemma OffsetBijection(locals: seq<PartitionId>, o: nat)
    requires Distinct(locals) && o < |locals|
    ensures OffsetOf(locals, locals[o]) == o
    ensures LocalOffset(locals, locals[o]) == Some(o)
  {
  }
}

/** The per-partition ordering queue (TransactionInitPriorityQueue), seen
    only through what TransactionQueue uses of it: `add`, `poll`,
    `isEmpty` and the high-water mark kept by
    `noteTransactionRecievedAndReturnLastSeen`.

    The pending ids are kept as a non-decreasing sequence, which is one
    valid priority queue: the minimum sits at the head. Like a Java
    priority queue it keeps duplicates. */
module InitQueue {
  import opened Common

  predicate Sorted(xs: seq<TxnId>)
  {
    forall i, j :: 0 <= i < j < |xs| ==> xs[i] <= xs[j]
  }

  /** `items`: the pending ids; `lastSeen`: the highest id received so far. */
  datatype PQueue = PQueue(items: seq<TxnId>, lastSeen: Option<TxnId>)

  predicate Valid(q: PQueue)
  {
    Sorted(q.items)
  }

  /** The pending ids as a bag. */
  function Contents(q: PQueue): multiset<TxnId>
  {
    multiset(q.items)
  }

  /** A new queue: nothing pending and nothing received. */
  function Empty(): (q: PQueue)
    ensures Valid(q) && |Contents(q)| == 0 && q.lastSeen.None?
  {
    PQueue([], None)
  }

  function IsEmpty(q: PQueue): (r: bool)
    ensures r <==> |Contents(q)| == 0
  {
    |q.items| == 0
  }

  /** The new high-water mark after receiving `t`: the least upper bound
      of `t` and the previous mark. */
  function Advance(seen: Option<TxnId>, t: TxnId): (r: TxnId)
    ensures t <= r
    ensures seen.Some? ==> seen.value <= r
    ensures r == t || (seen.Some? && r == seen.value)
  {
    if seen.Some? && seen.value > t then seen.value else t
  }

  /** `noteTransactionRecievedAndReturnLastSeen`: returns the previous
      mark and raises the mark to cover `t`; the pending ids are untouched. */
  function NoteReceived(q: PQueue, t: TxnId): (r: (Option<TxnId>, PQueue))
    ensures r.0 == q.lastSeen
    ensures r.1.items == q.items
    ensures r.1.lastSeen.Some? && t <= r.1.lastSeen.value
    ensures q.lastSeen.Some? ==> q.lastSeen.value <= r.1.lastSeen.value
    ensures r.1.lastSeen == Some(t) || r.1.lastSeen == q.lastSeen
  {
    (q.lastSeen, q.(lastSeen := Some(Advance(q.lastSeen, t))))
  }

  /** Inserting into a sorted sequence keeps it sorted and adds exactly
      one copy of `t`. */
  function InsertSorted(xs: seq<TxnId>, t: TxnId): (r: seq<TxnId>)
    requires Sorted(xs)
    ensures Sorted(r)
    ensures multiset(r) == multiset(xs) + multiset{t}
    ensures |r| > 0 && (r[0] == t || (|xs| > 0 && r[0] == xs[0]))
  {
    if |xs| == 0 || t <= xs[0] then
      SortedCons(t, xs);
      [t] + xs
    else
      var rest := InsertSorted(xs[1..], t);
      SortedCons(xs[0], rest);
      assert xs == [xs[0]] + xs[1..];
      [xs[0]] + rest
  }

  /** A sorted sequence stays sorted under a head no greater than its own. */
  lemma SortedCons(h: TxnId, xs: seq<TxnId>)
    requires Sorted(xs) && (|xs| > 0 ==> h <= xs[0])
    ensures Sorted([h] + xs)
  {
    forall i, j | 0 <= i < j < |[h] + xs|
      ensures ([h] + xs)[i] <= ([h] + xs)[j]
    {
      if i == 0 && j > 1 {
        assert xs[0] <= xs[j - 1];
      }
    }
  }

  /** `add`: one more copy of `t` is pending. */
  function Add(q: PQueue, t: TxnId): (r: PQueue)
    requires Valid(q)
    ensures Valid(r)
    ensures Contents(r) == Contents(q) + multiset{t}
    ensures r.lastSeen == q.lastSeen
  {
    q.(items := InsertSorted(q.items, t))
  }

  /** The lowest pending id, if any. */
  function Peek(q: PQueue): (r: Option<TxnId>)
    requires Valid(q)
    ensures r.None? <==> |Contents(q)| == 0
    ensures r.Some? ==> r.value in Contents(q)
    ensures r.Some? ==> forall x :: x in Contents(q) ==> r.value <= x
  {
    if |q.items| == 0 then None else Some(q.items[0])
  }

  /** `poll`. The queue may decline to release anything ("nothing that is
      ready to run"); `ready` is that decision, made by code that is not
      part of this model. When it releases, it removes and returns one
      copy of the lowest pending id; otherwise the queue is unchanged. */
  function Poll(q: PQueue, ready: bool): (r: (Option<TxnId>, PQueue))
    requires Valid(q)
    ensures Valid(r.1) && r.1.lastSeen == q.lastSeen
    ensures r.0.None? <==> !ready || |Contents(q)| == 0
    ensures r.0.None? ==> r.1 == q
    ensures r.0.Some? ==> r.0 == Peek(q)
    ensures r.0.Some? ==> Contents(r.1) == Contents(q) - multiset{r.0.value}
  {
    if ready && |q.items| > 0 then
      assert q.items == [q.items[0]] + q.items[1..];
      (Some(q.items[0]), q.(items := q.items[1..]))
    else
      (None, q)
  }
}

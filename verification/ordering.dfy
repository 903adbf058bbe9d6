/** What one scan releases, stated against the contents of the queues:
    the lowest pending id goes first, a pending id below the partition's
    last one stops the scan, and a transaction inserted into an idle,
    empty manager is released everywhere in one scan. */
module Ordering {
  import opened Common
  import opened Partitions
  import opened InitQueue
  import opened Callbacks
  import opened TransactionQueue
  import opened QueueInvariants
  import opened ScanSafety

  /** An idle partition whose queue releases dispatches its lowest
      pending id; every other pending id stays queued. */
  lemma LowestFirst(s: State, ready: set<nat>, o: nat, x: TxnId)
    requires Inv(s) && o < |s.locals|
    requires !s.working[o] && o in ready && x in Contents(s.queues[o])
    ensures CheckQueues(s, ready).Ok? ==> CheckQueues(s, ready).value.1[o].Some?
    ensures CheckQueues(s, ready).Ok? ==> CheckQueues(s, ready).value.1[o].value <= x
    ensures CheckQueues(s, ready).Ok? && x != CheckQueues(s, ready).value.1[o].value ==>
      x in Contents(CheckQueues(s, ready).value.0.queues[o])
  {
    var r := CheckQueues(s, ready);
    if r.Ok? {
      assert Head(s, ready, o) == Peek(s.queues[o]);
      assert DispatchedAt(s, r.value.0, o, r.value.1[o].value);
    }
  }

  /** A pending id below the last id dispatched on an idle partition whose
      queue releases makes the scan fail: the queue would hand it out
      behind a higher id. */
  lemma BelowLastStops(s: State, ready: set<nat>, o: nat, x: TxnId)
    requires WellFormed(s) && o < |s.locals|
    requires !s.working[o] && o in ready && x in Contents(s.queues[o]) && x < s.last[o]
    ensures CheckQueues(s, ready).Err?
  {
    assert IsStale(s, ready, o);
  }

  /** Every partition is idle, its queue releases, and it holds only `t`,
      which is above its last id. */
  ghost predicate OnlyPending(s: State, ready: set<nat>, t: TxnId)
    requires WellFormed(s)
  {
    forall o :: 0 <= o < |s.locals| ==>
      !s.working[o] && o in ready && s.last[o] < t && Contents(s.queues[o]) == multiset{t}
  }

  /** Inserting `t` on every local partition of an idle manager with
      empty queues leaves exactly one copy of `t` on each queue. */
  lemma InsertIntoEmpty(s: State, ready: set<nat>, t: TxnId, ps: seq<PartitionId>, counter: int)
    requires Inv(s) && Admissible(s, t, ps, counter)
    requires forall o :: 0 <= o < |s.locals| ==> !s.working[o] && |Contents(s.queues[o])| == 0
    requires forall o :: 0 <= o < |s.locals| ==> o in ready && s.locals[o] in ps && s.last[o] < t
    ensures Inv(Insert(s, t, ps, counter).0)
    ensures OnlyPending(Insert(s, t, ps, counter).0, ready, t)
  {
    var s1 := Insert(s, t, ps, counter).0;
    InsertPreservesInv(s, t, ps, counter);
    forall o | 0 <= o < |s.locals|
      ensures Contents(s1.queues[o]) == multiset{t}
    {
      assert multiset(ps)[s.locals[o]] == 1;
      OneCopy(s.queues[o], s1.queues[o], t);
    }
  }

  lemma OneCopy(before: PQueue, after: PQueue, t: TxnId)
    requires |Contents(before)| == 0 && Enqueued(before, after, t, 1)
    ensures Contents(after) == multiset{t}
  {
    assert Contents(before) == multiset{};
    assert forall x :: Contents(after)[x] == multiset{t}[x];
  }

  /** One scan from `s` runs `t` on every partition, leaves every
      partition working on `t`, and evicts the callback of `t`. */
  ghost predicate ReleasedEverywhere(s: State, ready: set<nat>, t: TxnId)
    requires WellFormed(s)
  {
    && CheckQueues(s, ready).Ok?
    && (forall o :: 0 <= o < |s.locals| ==> CheckQueues(s, ready).value.1[o] == Some(t))
    && (forall o :: 0 <= o < |s.locals| ==> CheckQueues(s, ready).value.0.working[o])
    && (forall o :: 0 <= o < |s.locals| ==> CheckQueues(s, ready).value.0.last[o] == t)
    && t !in CheckQueues(s, ready).value.0.callbacks
  }

  /** When every partition is idle, releasing, and holds only `t` above
      its last id, one scan runs `t` on every partition and evicts its
      callback. */
  lemma ScanSingletons(s: State, ready: set<nat>, t: TxnId)
    requires Inv(s) && OnlyPending(s, ready, t)
    ensures ReleasedEverywhere(s, ready, t)
  {
    forall o | 0 <= o < |s.locals|
      ensures !IsStale(s, ready, o)
    {
      SingletonHead(s, ready, o, t);
    }
    CheckQueuesPreservesInv(s, ready);
    var r := CheckQueues(s, ready);
    assert r.Ok?;
    var s2 := r.value.0;
    forall o | 0 <= o < |s.locals|
      ensures r.value.1[o] == Some(t) && s2.working[o] && s2.last[o] == t
      ensures t !in Contents(s2.queues[o])
    {
      SingletonHead(s, ready, o, t);
      assert DispatchedAt(s, s2, o, t);
    }
    RegisteredIffOwed(s2, t);
  }

  /** A releasing queue that holds only `t` yields `t`. */
  lemma SingletonHead(s: State, ready: set<nat>, o: nat, t: TxnId)
    requires WellFormed(s) && o < |s.locals| && o in ready
    requires Contents(s.queues[o]) == multiset{t}
    ensures Head(s, ready, o) == Some(t)
  {
    assert t in Contents(s.queues[o]);
  }

  /** Under the invariant, with every partition idle with an empty queue
      and every queue releasing, a transaction inserted on all local
      partitions is run on each of them in the next scan, and its callback
      is then evicted. */
  lemma ReleaseEverywhere(s: State, ready: set<nat>, t: TxnId, ps: seq<PartitionId>, counter: int)
    requires Inv(s) && Admissible(s, t, ps, counter)
    requires forall o :: 0 <= o < |s.locals| ==> !s.working[o] && |Contents(s.queues[o])| == 0
    requires forall o :: 0 <= o < |s.locals| ==> o in ready && s.locals[o] in ps && s.last[o] < t
    ensures ReleasedEverywhere(Insert(s, t, ps, counter).0, ready, t)
  {
    InsertIntoEmpty(s, ready, t, ps, counter);
    ScanSingletons(Insert(s, t, ps, counter).0, ready, t);
  }
}

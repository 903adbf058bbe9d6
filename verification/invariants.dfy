/** The invariant that keeps the dispatcher safe, and its preservation by
    every operation. Its core is an accounting identity: a registered
    callback's counter equals the number of copies of its id still
    pending over all local queues. From it follow the facts the Java code
    relies on without checking: `txn_callbacks.get(next_id)` never
    returns null in `checkQueues`, and every partition dispatches
    strictly increasing ids. */
module QueueInvariants {
  import opened Common
  import opened Partitions
  import opened InitQueue
  import opened Callbacks
  import opened TransactionQueue

  /** The copies of `t` pending over all queues. */
  function Pending(qs: seq<PQueue>, t: TxnId): nat
  {
    if |qs| == 0 then 0 else Pending(qs[..|qs| - 1], t) + Contents(qs[|qs| - 1])[t]
  }

  /** The entries of `ps` that name a local partition. */
  function LocalCount(locals: seq<PartitionId>, ps: seq<PartitionId>): nat
  {
    if |locals| == 0 then 0
    else LocalCount(locals[..|locals| - 1], ps) + multiset(ps)[locals[|locals| - 1]]
  }

  lemma {:induction false} PendingUpdate(qs: seq<PQueue>, o: nat, q: PQueue, t: TxnId)
    requires o < |qs|
    ensures Pending(qs[o := q], t) == Pending(qs, t) - Contents(qs[o])[t] + Contents(q)[t]
  {
    var n := |qs| - 1;
    if o == n {
      assert qs[o := q][..n] == qs[..n];
    } else {
      assert qs[o := q][..n] == qs[..n][o := q];
      PendingUpdate(qs[..n], o, q, t);
    }
  }

  lemma {:induction false} PendingCovers(qs: seq<PQueue>, o: nat, t: TxnId)
    requires o < |qs|
    ensures Contents(qs[o])[t] <= Pending(qs, t)
  {
    var n := |qs| - 1;
    if o < n {
      assert qs[..n][o] == qs[o];
      PendingCovers(qs[..n], o, t);
    }
  }

  /** `t` is pending somewhere exactly when its count is positive. */
  lemma {:induction false} PendingPositive(qs: seq<PQueue>, t: TxnId)
    ensures Pending(qs, t) > 0 <==> exists o :: 0 <= o < |qs| && t in Contents(qs[o])
  {
    if |qs| > 0 {
      var n := |qs| - 1;
      PendingPositive(qs[..n], t);
      if Pending(qs, t) > 0 && Contents(qs[n])[t] == 0 {
        var o :| 0 <= o < n && t in Contents(qs[..n][o]);
        assert qs[o] == qs[..n][o];
      }
      forall o | 0 <= o < |qs| && t in Contents(qs[o])
        ensures Pending(qs, t) > 0
      {
        PendingCovers(qs, o, t);
      }
    }
  }

  lemma {:induction false} PendingAfterEnqueue(qs: seq<PQueue>, qs': seq<PQueue>, locals: seq<PartitionId>,
                                               ps: seq<PartitionId>, t: TxnId, x: TxnId)
    requires |qs| == |qs'| == |locals|
    requires forall o :: 0 <= o < |qs| ==> Enqueued(qs[o], qs'[o], t, multiset(ps)[locals[o]])
    ensures Pending(qs', x) == Pending(qs, x) + (if x == t then LocalCount(locals, ps) else 0)
  {
    if |qs| > 0 {
      var n := |qs| - 1;
      assert Enqueued(qs[n], qs'[n], t, multiset(ps)[locals[n]]);
      PendingAfterEnqueue(qs[..n], qs'[..n], locals[..n], ps, t, x);
    }
  }

  /** A registered counter is the number of copies of its id still pending. */
  ghost predicate Accounted(s: State)
  {
    forall t :: t in s.callbacks ==> s.callbacks[t] == Pending(s.queues, t)
  }

  /** A registered callback is still owed at least one run. */
  ghost predicate Live(s: State)
  {
    forall t :: t in s.callbacks ==> s.callbacks[t] > 0
  }

  /** Every queued id has a registered callback. */
  ghost predicate Registered(s: State)
  {
    forall o, t :: 0 <= o < |s.queues| && t in Contents(s.queues[o]) ==> t in s.callbacks
  }

  /** No id is queued twice on one partition. */
  ghost predicate NoDuplicates(s: State)
  {
    forall o, t :: 0 <= o < |s.queues| ==> Contents(s.queues[o])[t] <= 1
  }

  /** The last id dispatched on a partition is not pending there again. */
  ghost predicate LastNotPending(s: State)
    requires |s.last| == |s.queues|
  {
    forall o :: 0 <= o < |s.queues| ==> s.last[o] !in Contents(s.queues[o])
  }

  /** The invariant of a site's queue manager. */
  ghost predicate Inv(s: State)
  {
    && WellFormed(s)
    && Accounted(s)
    && Live(s)
    && Registered(s)
    && NoDuplicates(s)
    && LastNotPending(s)
  }

  /** What the caller of `insert` must guarantee for the invariant to
      survive: the id is new, it is not the last id of a partition it
      touches, no local partition is listed twice, and the callback
      counts exactly the local partitions listed (at least one). */
  ghost predicate Admissible(s: State, t: TxnId, ps: seq<PartitionId>, counter: int)
    requires WellFormed(s)
  {
    && t !in s.callbacks
    && (forall o :: 0 <= o < |s.locals| ==> multiset(ps)[s.locals[o]] <= 1)
    && (forall o :: 0 <= o < |s.locals| && s.locals[o] in ps ==> s.last[o] != t)
    && counter == LocalCount(s.locals, ps)
    && counter > 0
  }

  /** A new queue manager satisfies the invariant. */
  lemma InitEstablishesInv(locals: seq<PartitionId>)
    requires Distinct(locals) && |locals| > 0
    ensures Init(locals).Ok? && Inv(Init(locals).value)
  {
    var s := Init(locals).value;
    forall o, t | 0 <= o < |s.queues|
      ensures t !in Contents(s.queues[o])
    {
      assert |Contents(s.queues[o])| == 0;
    }
  }

  /** After `insert`, each queue holds its old ids plus the copies of `t`. */
  lemma InsertContents(s: State, t: TxnId, ps: seq<PartitionId>, counter: int)
    requires WellFormed(s)
    ensures forall o, x :: 0 <= o < |s.queues| ==>
              Contents(Insert(s, t, ps, counter).0.queues[o])[x]
                == Contents(s.queues[o])[x] + (if x == t then multiset(ps)[s.locals[o]] else 0)
  {
    var s' := Insert(s, t, ps, counter).0;
    forall o, x | 0 <= o < |s.queues|
      ensures Contents(s'.queues[o])[x] == Contents(s.queues[o])[x] + (if x == t then multiset(ps)[s.locals[o]] else 0)
    {
      assert Enqueued(s.queues[o], s'.queues[o], t, multiset(ps)[s.locals[o]]);
    }
  }

  /** An id with no callback is pending nowhere. */
  lemma UnregisteredNotPending(s: State, t: TxnId)
    requires WellFormed(s) && Registered(s) && t !in s.callbacks
    ensures Pending(s.queues, t) == 0
  {
    PendingPositive(s.queues, t);
  }

  lemma InsertKeepsAccounted(s: State, t: TxnId, ps: seq<PartitionId>, counter: int)
    requires Inv(s) && Admissible(s, t, ps, counter)
    ensures Accounted(Insert(s, t, ps, counter).0)
  {
    var s' := Insert(s, t, ps, counter).0;
    UnregisteredNotPending(s, t);
    forall x | x in s'.callbacks
      ensures s'.callbacks[x] == Pending(s'.queues, x)
    {
      PendingAfterEnqueue(s.queues, s'.queues, s.locals, ps, t, x);
    }
  }

  lemma InsertKeepsRegistered(s: State, t: TxnId, ps: seq<PartitionId>, counter: int)
    requires Inv(s) && Admissible(s, t, ps, counter)
    ensures Registered(Insert(s, t, ps, counter).0)
  {
    InsertContents(s, t, ps, counter);
  }

  lemma InsertKeepsNoDuplicates(s: State, t: TxnId, ps: seq<PartitionId>, counter: int)
    requires Inv(s) && Admissible(s, t, ps, counter)
    ensures NoDuplicates(Insert(s, t, ps, counter).0)
  {
    InsertContents(s, t, ps, counter);
  }

  lemma InsertKeepsLastNotPending(s: State, t: TxnId, ps: seq<PartitionId>, counter: int)
    requires Inv(s) && Admissible(s, t, ps, counter)
    ensures LastNotPending(Insert(s, t, ps, counter).0)
  {
    var s' := Insert(s, t, ps, counter).0;
    InsertContents(s, t, ps, counter);
    forall o | 0 <= o < |s'.queues|
      ensures s'.last[o] !in Contents(s'.queues[o])
    {
      if s.last[o] == t {
        assert s.locals[o] !in ps;
      }
    }
  }

  /** An `insert` that names no local partition registers a callback that
      no queue owes a run: its counter stays positive with nothing left
      to take it down, so the entry is never evicted. This is why an
      admissible insert needs at least one local partition. */
  lemma UnownedInsertNeverReleased(s: State, t: TxnId, ps: seq<PartitionId>, counter: int)
    requires Inv(s) && t !in s.callbacks && counter > 0
    requires forall p :: p in ps ==> p !in s.locals
    ensures t in Insert(s, t, ps, counter).0.callbacks
    ensures Insert(s, t, ps, counter).0.callbacks[t] == counter
    ensures Pending(Insert(s, t, ps, counter).0.queues, t) == 0
    ensures !Accounted(Insert(s, t, ps, counter).0)
  {
    InsertNonLocalOnly(s, t, ps, counter);
    UnregisteredNotPending(s, t);
  }

  /** An admissible `insert` keeps the invariant. */
  lemma InsertPreservesInv(s: State, t: TxnId, ps: seq<PartitionId>, counter: int)
    requires Inv(s) && Admissible(s, t, ps, counter)
    ensures Inv(Insert(s, t, ps, counter).0)
  {
    InsertKeepsAccounted(s, t, ps, counter);
    assert Live(Insert(s, t, ps, counter).0);
    InsertKeepsRegistered(s, t, ps, counter);
    InsertKeepsNoDuplicates(s, t, ps, counter);
    InsertKeepsLastNotPending(s, t, ps, counter);
  }

  /** A dispatch changes one queue, losing one copy of the dispatched id. */
  lemma DispatchQueues(s: State, s': State, o: nat, n: TxnId)
    requires Inv(s) && WellFormed(s') && o < |s.locals| == |s'.locals|
    requires DispatchStep(s, s', o, n)
    ensures n in Contents(s.queues[o])
    ensures s'.queues == s.queues[o := s'.queues[o]]
    ensures forall x :: Pending(s'.queues, x) == Pending(s.queues, x) - (if x == n then 1 else 0)
  {
    var q := s.queues[o];
    var q' := s'.queues[o];
    assert DispatchedAt(s, s', o, n);
    assert n in Contents(q);
    forall k | 0 <= k < |s.queues| && k != o
      ensures s'.queues[k] == s.queues[k]
    {
      assert Untouched(s, s', k);
    }
    assert s'.queues == s.queues[o := q'];
    forall x
      ensures Pending(s'.queues, x) == Pending(s.queues, x) - (if x == n then 1 else 0)
    {
      PendingUpdate(s.queues, o, q', x);
      assert Contents(q')[x] == Contents(q)[x] - (if x == n then 1 else 0);
    }
  }

  lemma DispatchKeepsAccounted(s: State, s': State, o: nat, n: TxnId)
    requires Inv(s) && WellFormed(s') && o < |s.locals| == |s'.locals|
    requires DispatchStep(s, s', o, n)
    ensures Accounted(s') && Live(s')
  {
    DispatchQueues(s, s', o, n);
  }

  lemma DispatchKeepsRegistered(s: State, s': State, o: nat, n: TxnId)
    requires Inv(s) && WellFormed(s') && o < |s.locals| == |s'.locals|
    requires DispatchStep(s, s', o, n)
    ensures Registered(s')
  {
    DispatchQueues(s, s', o, n);
    forall k, x | 0 <= k < |s'.queues| && x in Contents(s'.queues[k])
      ensures x in s'.callbacks
    {
      PendingCovers(s'.queues, k, x);
      if k != o {
        assert Untouched(s, s', k);
      }
    }
  }

  lemma DispatchKeepsNoDuplicates(s: State, s': State, o: nat, n: TxnId)
    requires Inv(s) && WellFormed(s') && o < |s.locals| == |s'.locals|
    requires DispatchStep(s, s', o, n)
    ensures NoDuplicates(s') && LastNotPending(s')
  {
    assert DispatchedAt(s, s', o, n);
    assert Contents(s.queues[o])[n] <= 1;
    forall k, x | 0 <= k < |s'.queues|
      ensures Contents(s'.queues[k])[x] <= 1
    {
      if k != o {
        assert Untouched(s, s', k);
      }
    }
    forall k | 0 <= k < |s'.queues|
      ensures s'.last[k] !in Contents(s'.queues[k])
    {
      if k != o {
        assert Untouched(s, s', k);
      }
    }
  }

  /** A dispatch keeps the invariant: the counter of the dispatched id
      drops with its pending copies, and its entry is evicted only when
      no copy is left. */
  lemma DispatchKeepsInv(s: State, s': State, o: nat, n: TxnId)
    requires Inv(s) && WellFormed(s') && o < |s.locals| == |s'.locals|
    requires DispatchStep(s, s', o, n)
    ensures Inv(s')
  {
    DispatchKeepsAccounted(s, s', o, n);
    DispatchKeepsRegistered(s, s', o, n);
    DispatchKeepsNoDuplicates(s, s', o, n);
  }

  /** `done` keeps the invariant: it only touches a busy flag. */
  lemma DonePreservesInv(s: State, t: TxnId, p: PartitionId)
    requires Inv(s)
    ensures Done(s, t, p).Ok? ==> Inv(Done(s, t, p).value)
  {
  }

  /** Under the invariant the callback table holds an entry for `t`
      exactly when some local partition still owes `t` a run. */
  lemma RegisteredIffOwed(s: State, t: TxnId)
    requires Inv(s)
    ensures t in s.callbacks <==> exists o :: 0 <= o < |s.queues| && t in Contents(s.queues[o])
  {
    PendingPositive(s.queues, t);
  }
}

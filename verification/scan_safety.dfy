/** The dispatcher's scan under the invariant: it keeps the invariant,
    never meets a missing callback, and releases on every partition an id
    strictly above the one released before. These are the facts that make
    the `callback.run` and the stale-id assertion of `checkQueues` safe. */
module ScanSafety {
  import opened Common
  import opened InitQueue
  import opened TransactionQueue
  import opened QueueInvariants

  /** One iteration of `checkQueues` keeps the invariant and never finds
      a missing callback. */
  lemma VisitPreservesInv(s: State, ready: set<nat>, o: nat, fired: seq<Option<TxnId>>)
    requires Inv(s) && o < |s.locals|
    ensures SafeScan(Extend(fired, Visit(s, ready, o)))
  {
    var r := Visit(s, ready, o);
    if !s.working[o] && Head(s, ready, o).Some? {
      assert Head(s, ready, o).value in Contents(s.queues[o]);
    }
    if r.Ok? && r.value.fired.Some? {
      DispatchKeepsInv(s, r.value.state, o, r.value.fired.value);
    }
  }

  /** A scan result that keeps the invariant, or fails on a stale id. */
  ghost predicate SafeScan(r: ScanResult)
  {
    && (r.Err? ==> r.error.StaleDispatch?)
    && (r.Ok? ==> Inv(r.value.0))
  }

  /** One more iteration of `checkQueues` keeps the invariant and never
      finds a missing callback. */
  lemma NextPreservesInv(s: State, ready: set<nat>, k: nat, prev: ScanResult)
    requires WellFormed(s) && 0 < k <= |s.locals|
    requires SafeScan(prev)
    requires prev.Ok? ==> |prev.value.0.locals| == |s.locals|
    ensures SafeScan(Next(s, ready, k, prev))
  {
    NextUnfold(s, ready, k, prev);
    if prev.Ok? {
      VisitPreservesInv(prev.value.0, ready, k - 1, prev.value.1);
    }
  }

  /** The first `k` iterations of `checkQueues` keep the invariant, and
      fail only on a stale id. */
  lemma {:induction false} ScanPreservesInv(s: State, ready: set<nat>, k: nat)
    requires Inv(s) && k <= |s.locals|
    ensures SafeScan(ScanUpTo(s, ready, k))
  {
    if k > 0 {
      var prev := ScanUpTo(s, ready, k - 1);
      ScanPreservesInv(s, ready, k - 1);
      NextPreservesInv(s, ready, k, prev);
      ScanUpToUnfold(s, ready, k);
    }
  }

  /** Under the invariant a dispatched id lies strictly above the
      partition's previous last id: the stale case cannot arise. */
  lemma DispatchAboveLast(s: State, s': State, o: nat, n: TxnId)
    requires Inv(s) && WellFormed(s') && o < |s.locals| == |s'.locals|
    requires DispatchedAt(s, s', o, n)
    ensures s.last[o] < n == s'.last[o]
  {
    assert n in Contents(s.queues[o]);
  }

  /** A scan from a state satisfying the invariant: it fails exactly when
      some idle partition would release a stale id; otherwise it keeps
      the invariant, every dispatch is strictly above the partition's
      previous last id, and no partition's last id goes down. */
  lemma CheckQueuesPreservesInv(s: State, ready: set<nat>)
    requires Inv(s)
    ensures CheckQueues(s, ready).Err? <==> exists o :: 0 <= o < |s.locals| && IsStale(s, ready, o)
    ensures CheckQueues(s, ready).Err? ==> CheckQueues(s, ready).error.StaleDispatch?
    ensures CheckQueues(s, ready).Ok? ==> Inv(CheckQueues(s, ready).value.0)
    ensures CheckQueues(s, ready).Ok? ==> forall o :: 0 <= o < |s.locals| ==>
              && (CheckQueues(s, ready).value.1[o].Some? ==>
                    s.last[o] < CheckQueues(s, ready).value.1[o].value == CheckQueues(s, ready).value.0.last[o])
              && s.last[o] <= CheckQueues(s, ready).value.0.last[o]
  {
    ScanPreservesInv(s, ready, |s.locals|);
    var r := CheckQueues(s, ready);
    if r.Ok? {
      var s', fired := r.value.0, r.value.1;
      forall o | 0 <= o < |s.locals|
        ensures fired[o].Some? ==> s.last[o] < fired[o].value == s'.last[o]
        ensures s.last[o] <= s'.last[o]
      {
        if fired[o].Some? {
          DispatchAboveLast(s, s', o, fired[o].value);
        }
      }
    }
  }
}

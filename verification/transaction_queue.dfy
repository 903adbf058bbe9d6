/** The distributed-transaction init queue of a site (TransactionQueue):
    one ordering queue per local partition, the id last dispatched on each
    partition, a busy flag per partition, and the table of counting
    callbacks. Every operation is a pure transition on that state; the
    three arrays of the Java class are sequences indexed by offset. */
module TransactionQueue {
  import opened Common
  import opened Partitions
  import opened InitQueue
  import opened Callbacks

  /** What the Java code raises instead of returning normally. */
  datatype QueueError =
    | NoLocalPartitions                                  // the constructor's assert
    | StaleDispatch(offset: nat, txn: TxnId, last: TxnId) // the `assert(false) : "FIXME"`
    | MissingCallback(offset: nat, txn: TxnId)           // `callback.run` on a null callback
    | NotLocal(partition: PartitionId)                   // `done` for a partition with no offset

  /** `queues`, `last` and `working` are `txn_queues`, `last_txns` and
      `working_partitions`; `callbacks` is `txn_callbacks`. */
  datatype State = State(
    locals: seq<PartitionId>,
    queues: seq<PQueue>,
    last: seq<TxnId>,
    working: seq<bool>,
    callbacks: Table)

  predicate WellFormed(s: State)
  {
    && |s.locals| > 0
    && Distinct(s.locals)
    && |s.queues| == |s.locals|
    && |s.last| == |s.locals|
    && |s.working| == |s.locals|
    && forall o :: 0 <= o < |s.queues| ==> Valid(s.queues[o])
  }

  /** The constructor: one empty queue per local partition, nothing
      dispatched yet (-1), no partition working, no callback registered. */
  function Init(locals: seq<PartitionId>): (r: Result<State, QueueError>)
    requires Distinct(locals)
    ensures r.Err? <==> |locals| == 0
    ensures r.Ok? ==> WellFormed(r.value) && r.value.locals == locals
    ensures r.Ok? ==> r.value.callbacks == map[]
    ensures r.Ok? ==> forall o :: 0 <= o < |locals| ==>
              && |Contents(r.value.queues[o])| == 0
              && r.value.last[o] == -1
              && !r.value.working[o]
  {
    if |locals| == 0 then Err(NoLocalPartitions)
    else Ok(State(locals,
                  seq(|locals|, _ => Empty()),
                  seq(|locals|, _ => -1),
                  seq(|locals|, _ => false),
                  map[]))
  }

  /** `isEmpty`: scans the queues and stops at the first non-empty one. */
  method IsQueueEmpty(s: State) returns (empty: bool)
    ensures empty <==> forall o :: 0 <= o < |s.queues| ==> |Contents(s.queues[o])| == 0
  {
    var i := 0;
    while i < |s.queues|
      invariant 0 <= i <= |s.queues|
      invariant forall o :: 0 <= o < i ==> |Contents(s.queues[o])| == 0
    {
      if !IsEmpty(s.queues[i]) {
        return false;
      }
      i := i + 1;
    }
    return true;
  }

  // ---------------------------------------------------------------------
  // insert

  /** `after` holds `k` more copies of `t` than `before` and nothing else more. */
  ghost predicate Enqueued(before: PQueue, after: PQueue, t: TxnId, k: nat)
  {
    forall x :: Contents(after)[x] == Contents(before)[x] + (if x == t then k else 0)
  }

  /** What enqueueing `t` on the local partitions listed in `ps` does:
      each listed local partition gets one copy of `t` per listing and
      its high-water mark raised to cover `t`; every other queue, the
      last ids, the busy flags and the callback table are unchanged. */
  ghost predicate EnqueueEffect(s: State, s': State, t: TxnId, ps: seq<PartitionId>)
    requires WellFormed(s)
  {
    && WellFormed(s') && s'.locals == s.locals
    && s'.last == s.last && s'.working == s.working && s'.callbacks == s.callbacks
    && (forall o :: 0 <= o < |s.locals| ==>
          Enqueued(s.queues[o], s'.queues[o], t, multiset(ps)[s.locals[o]]))
    && (forall o :: 0 <= o < |s.locals| && s.locals[o] in ps ==>
          s'.queues[o].lastSeen == Some(Advance(s.queues[o].lastSeen, t)))
    && (forall o :: 0 <= o < |s.locals| && s.locals[o] !in ps ==> s'.queues[o] == s.queues[o])
  }

  /** One iteration of the loop of `insert`: a local `p` notes and
      enqueues `t`; a non-local `p` is skipped. The flag says whether `p`
      is local and idle. */
  function EnqueueOne(s: State, t: TxnId, p: PartitionId): (r: (State, bool))
    requires WellFormed(s)
    ensures EnqueueEffect(s, r.0, t, [p])
    ensures r.1 <==> exists o :: 0 <= o < |s.locals| && s.locals[o] == p && !s.working[o]
  {
    assert forall x :: multiset([p])[x] == if x == p then 1 else 0;
    if p !in s.locals then (s, false)
    else
      var o := OffsetOf(s.locals, p);
      var q := Add(NoteReceived(s.queues[o], t).1, t);
      var s' := s.(queues := s.queues[o := q]);
      forall k | 0 <= k < |s.locals|
        ensures Enqueued(s.queues[k], s'.queues[k], t, multiset([p])[s.locals[k]])
        ensures s.locals[k] in [p] ==> s'.queues[k].lastSeen == Some(Advance(s.queues[k].lastSeen, t))
        ensures s.locals[k] !in [p] ==> s'.queues[k] == s.queues[k]
      {
        if k == o {
          assert Enqueued(s.queues[o], q, t, 1);
        } else {
          assert s.locals[k] != p;
        }
      }
      (s', !s.working[o])
  }

  /** Enqueueing on `init` and then on `p` is enqueueing on `init + [p]`. */
  lemma EnqueueCompose(s: State, s1: State, s2: State, t: TxnId, init: seq<PartitionId>, p: PartitionId)
    requires WellFormed(s) && WellFormed(s1)
    requires EnqueueEffect(s, s1, t, init)
    requires EnqueueEffect(s1, s2, t, [p])
    ensures EnqueueEffect(s, s2, t, init + [p])
  {
    var ps := init + [p];
    assert multiset(ps) == multiset(init) + multiset{p};
    forall o | 0 <= o < |s.locals|
      ensures Enqueued(s.queues[o], s2.queues[o], t, multiset(ps)[s.locals[o]])
      ensures s.locals[o] in ps ==> s2.queues[o].lastSeen == Some(Advance(s.queues[o].lastSeen, t))
      ensures s.locals[o] !in ps ==> s2.queues[o] == s.queues[o]
    {
      assert Enqueued(s.queues[o], s1.queues[o], t, multiset(init)[s.locals[o]]);
      assert Enqueued(s1.queues[o], s2.queues[o], t, multiset([p])[s.locals[o]]);
      assert s.locals[o] in ps <==> s.locals[o] in init || s.locals[o] == p;
    }
  }

  /** The loop of `insert` over `ps`: every local partition in `ps` notes
      and enqueues `t` (once per listing); non-local partitions are
      skipped. The flag is `should_notify`: some touched local partition
      is idle. */
  function EnqueueAll(s: State, t: TxnId, ps: seq<PartitionId>): (r: (State, bool))
    requires WellFormed(s)
    ensures EnqueueEffect(s, r.0, t, ps)
    ensures r.1 <==> exists o :: 0 <= o < |s.locals| && s.locals[o] in ps && !s.working[o]
    decreases |ps|
  {
    if |ps| == 0 then (s, false)
    else
      var init := ps[..|ps| - 1];
      var p := ps[|ps| - 1];
      assert ps == init + [p];
      var (s1, notify1) := EnqueueAll(s, t, init);
      var (s2, notify2) := EnqueueOne(s1, t, p);
      EnqueueCompose(s, s1, s2, t, init, p);
      (s2, notify1 || notify2)
  }

  /** `insert(t, ps, callback)`: registers the callback (its counter is
      `counter`) under `t`, replacing any earlier one, and enqueues `t` on
      the local partitions in `ps`. The flag says whether to wake the
      dispatcher. */
  function Insert(s: State, t: TxnId, ps: seq<PartitionId>, counter: int): (r: (State, bool))
    requires WellFormed(s)
    ensures WellFormed(r.0) && r.0.locals == s.locals
    ensures r.0.callbacks == s.callbacks[t := counter]
    ensures r.0.last == s.last && r.0.working == s.working
    ensures forall o :: 0 <= o < |s.locals| ==>
              Enqueued(s.queues[o], r.0.queues[o], t, multiset(ps)[s.locals[o]])
    ensures forall o :: 0 <= o < |s.locals| && s.locals[o] in ps ==>
              r.0.queues[o].lastSeen == Some(Advance(s.queues[o].lastSeen, t))
    ensures forall o :: 0 <= o < |s.locals| && s.locals[o] !in ps ==> r.0.queues[o] == s.queues[o]
    ensures r.1 <==> exists o :: 0 <= o < |s.locals| && s.locals[o] in ps && !s.working[o]
  {
    EnqueueAll(s.(callbacks := s.callbacks[t := counter]), t, ps)
  }

  /** Listing only non-local partitions changes nothing but the callback
      table, and does not wake the dispatcher. */
  lemma InsertNonLocalOnly(s: State, t: TxnId, ps: seq<PartitionId>, counter: int)
    requires WellFormed(s)
    requires forall p :: p in ps ==> p !in s.locals
    ensures Insert(s, t, ps, counter) == (s.(callbacks := s.callbacks[t := counter]), false)
  {
    var r := Insert(s, t, ps, counter);
    assert |r.0.queues| == |s.queues|;
    assert forall o :: 0 <= o < |s.queues| ==> r.0.queues[o] == s.queues[o];
    assert r.0.queues == s.queues;
  }

  // ---------------------------------------------------------------------
  // checkQueues

  /** The id the queue at `o` would release, were `o` idle. */
  function Head(s: State, ready: set<nat>, o: nat): Option<TxnId>
    requires WellFormed(s) && o < |s.locals|
  {
    if o in ready then Peek(s.queues[o]) else None
  }

  /** Offset `o` is idle and its queue releases an id below the last one
      dispatched there. */
  predicate IsStale(s: State, ready: set<nat>, o: nat)
    requires WellFormed(s) && o < |s.locals|
  {
    !s.working[o] && Head(s, ready, o).Some? && Head(s, ready, o).value < s.last[o]
  }

  /** How many of the offsets below `k` are idle and would release `t`. */
  function Releases(s: State, ready: set<nat>, k: nat, t: TxnId): nat
    requires WellFormed(s) && k <= |s.locals|
  {
    if k == 0 then 0
    else Releases(s, ready, k - 1, t) + (if !s.working[k - 1] && Head(s, ready, k - 1) == Some(t) then 1 else 0)
  }

  /** Offset `o` is idle and releases an id, not a stale one, whose
      callback is gone when the scan reaches `o`: it was never registered,
      or the offsets before `o` releasing it have run its positive
      counter down to zero, which evicted it. */
  predicate IsMissing(s: State, ready: set<nat>, o: nat)
    requires WellFormed(s) && o < |s.locals|
  {
    && !s.working[o] && Head(s, ready, o).Some? && !IsStale(s, ready, o)
    && var n := Head(s, ready, o).value;
       n !in s.callbacks || (s.callbacks[n] > 0 && Releases(s, ready, o, n) >= s.callbacks[n])
  }

  /** The scan cannot get past offset `o`. */
  predicate Fails(s: State, ready: set<nat>, o: nat)
    requires WellFormed(s) && o < |s.locals|
  {
    IsStale(s, ready, o) || IsMissing(s, ready, o)
  }

  /** The error raised at a failing offset: a stale id is reported first,
      as the stale-id assertion comes before `callback.run`. */
  function FailureAt(s: State, ready: set<nat>, o: nat): QueueError
    requires WellFormed(s) && o < |s.locals| && Fails(s, ready, o)
  {
    if IsStale(s, ready, o) then StaleDispatch(o, Head(s, ready, o).value, s.last[o])
    else MissingCallback(o, Head(s, ready, o).value)
  }

  /** `e` is raised at the first failing offset below `k`. */
  predicate FirstFailure(s: State, ready: set<nat>, k: nat, e: QueueError)
    requires WellFormed(s) && k <= |s.locals|
  {
    && (e.StaleDispatch? || e.MissingCallback?) && e.offset < k
    && Fails(s, ready, e.offset)
    && (forall o :: 0 <= o < e.offset ==> !Fails(s, ready, o))
    && e == FailureAt(s, ready, e.offset)
  }

  /** Offset `o` is exactly as it was. */
  predicate Untouched(s: State, s': State, o: nat)
    requires o < |s.queues| == |s.last| == |s.working|
    requires o < |s'.queues| == |s'.last| == |s'.working|
  {
    s'.queues[o] == s.queues[o] && s'.last[o] == s.last[o] && s'.working[o] == s.working[o]
  }

  /** `n` was dispatched on offset `o`: it was the lowest pending id there,
      not stale, and it became the last id; `o` is now working and has one
      copy of `n` fewer. */
  predicate DispatchedAt(s: State, s': State, o: nat, n: TxnId)
    requires WellFormed(s) && WellFormed(s') && o < |s.locals| == |s'.locals|
  {
    && !s.working[o]
    && Peek(s.queues[o]) == Some(n)
    && s.last[o] <= n
    && s'.last[o] == n
    && s'.working[o]
    && Contents(s'.queues[o]) == Contents(s.queues[o]) - multiset{n}
    && s'.queues[o].lastSeen == s.queues[o].lastSeen
  }

  /** One dispatch on offset `o`: `n` is dispatched there, every other
      offset is untouched, and the callback of `n`, which was registered,
      has run once. */
  ghost predicate DispatchStep(s: State, s': State, o: nat, n: TxnId)
    requires WellFormed(s) && WellFormed(s') && o < |s.locals| == |s'.locals|
  {
    && s'.locals == s.locals
    && (forall k :: 0 <= k < |s.locals| && k != o ==> Untouched(s, s', k))
    && DispatchedAt(s, s', o, n)
    && n in s.callbacks
    && s'.callbacks == Acknowledge(s.callbacks, n)
  }

  datatype Visited = Visited(state: State, fired: Option<TxnId>)

  /** What a successful iteration for offset `o` did: a working partition,
      or one whose poll yields nothing, is left as it was; otherwise the
      polled id is dispatched there and its callback run once. */
  ghost predicate VisitEffect(s: State, ready: set<nat>, o: nat, v: Visited)
    requires WellFormed(s) && o < |s.locals|
  {
    && WellFormed(v.state) && |v.state.locals| == |s.locals|
    && (v.fired.None? <==> s.working[o] || Head(s, ready, o).None?)
    && (v.fired.None? ==> v.state == s)
    && (v.fired.Some? ==> v.fired == Head(s, ready, o) && DispatchStep(s, v.state, o, v.fired.value))
  }

  /** One iteration of the loop of `checkQueues`, for offset `o`. */
  function Visit(s: State, ready: set<nat>, o: nat): (r: Result<Visited, QueueError>)
    requires WellFormed(s) && o < |s.locals|
    ensures r.Ok? ==> VisitEffect(s, ready, o, r.value)
    ensures IsStale(s, ready, o) ==> r == Err(StaleDispatch(o, Head(s, ready, o).value, s.last[o]))
    ensures r.Err? && !IsStale(s, ready, o) ==>
              && !s.working[o] && Head(s, ready, o).Some?
              && r == Err(MissingCallback(o, Head(s, ready, o).value))
              && Head(s, ready, o).value !in s.callbacks
  {
    if s.working[o] then Ok(Visited(s, None))
    else
      var (next, q) := Poll(s.queues[o], o in ready);
      match next
      case None => Ok(Visited(s, None))
      case Some(n) =>
        if n < s.last[o] then Err(StaleDispatch(o, n, s.last[o]))
        else if n !in s.callbacks then Err(MissingCallback(o, n))
        else
          Ok(Visited(s.(queues := s.queues[o := q],
                        last := s.last[o := n],
                        working := s.working[o := true],
                        callbacks := Acknowledge(s.callbacks, n)),
                     Some(n)))
  }

  /** How many times the callback of `t` was run in a scan. */
  function Hits(fired: seq<Option<TxnId>>, t: TxnId): nat
  {
    multiset(fired)[Some(t)]
  }

  /** What the first `k` iterations of a scan did to the partitions:
      offsets from `k` on are untouched; below `k`, an offset fires
      exactly when it is idle and its poll yields an id, fires that id,
      and is untouched when it does not fire. */
  ghost predicate ScanEffect(s: State, ready: set<nat>, k: nat, s': State, fired: seq<Option<TxnId>>)
    requires WellFormed(s) && k <= |s.locals|
  {
    && WellFormed(s') && s'.locals == s.locals && |fired| == k
    && (forall o :: k <= o < |s.locals| ==> Untouched(s, s', o))
    && (forall o :: 0 <= o < k ==> (fired[o].None? <==> s.working[o] || Head(s, ready, o).None?))
    && (forall o :: 0 <= o < k && fired[o].None? ==> Untouched(s, s', o))
    && (forall o :: 0 <= o < k && fired[o].Some? ==>
          fired[o] == Head(s, ready, o) && DispatchedAt(s, s', o, fired[o].value))
  }

  /** The callback table after a scan that ran the callbacks in `fired`:
      only registered callbacks ran, none ran again after its positive
      counter reached zero, each run took one off the counter, and an
      entry was evicted exactly when its counter ended at zero. */
  ghost predicate TableAfter(table: Table, table': Table, fired: seq<Option<TxnId>>)
  {
    && (forall t :: Hits(fired, t) > 0 ==> t in table)
    && (forall t :: t in table && table[t] > 0 ==> Hits(fired, t) <= table[t])
    && (forall t :: t in table ==> (t in table' <==> Hits(fired, t) == 0 || table[t] - Hits(fired, t) != 0))
    && (forall t :: t in table' ==> t in table && table'[t] == table[t] - Hits(fired, t))
  }

  type ScanResult = Result<(State, seq<Option<TxnId>>), QueueError>

  /** A scan that fired `fired` over the first `k` offsets ran each
      callback once for every one of them that is idle and releases its id. */
  ghost predicate CountsReleases(s: State, ready: set<nat>, k: nat, fired: seq<Option<TxnId>>)
    requires WellFormed(s) && k <= |s.locals|
  {
    forall t :: Hits(fired, t) == Releases(s, ready, k, t)
  }

  /** Everything the first `k` iterations of a scan promise: the effect
      on the partitions and on the callback table when they succeed, and
      exactly when and where they fail. */
  ghost predicate ScanOutcome(s: State, ready: set<nat>, k: nat, r: ScanResult)
    requires WellFormed(s) && k <= |s.locals|
  {
    && (r.Ok? ==> ScanEffect(s, ready, k, r.value.0, r.value.1))
    && (r.Ok? ==> TableAfter(s.callbacks, r.value.0.callbacks, r.value.1))
    && (r.Ok? ==> CountsReleases(s, ready, k, r.value.1))
    && ScanErrors(s, ready, k, r)
  }

  /** A scan of the first `k` offsets fails exactly when one of them
      fails, and then at the first one. */
  ghost predicate ScanErrors(s: State, ready: set<nat>, k: nat, r: ScanResult)
    requires WellFormed(s) && k <= |s.locals|
  {
    && (r.Err? <==> exists o :: 0 <= o < k && Fails(s, ready, o))
    && (r.Err? ==> FirstFailure(s, ready, k, r.error))
  }

  /** An untouched offset polls and classifies alike. */
  lemma UntouchedAgrees(s: State, s': State, ready: set<nat>, o: nat)
    requires WellFormed(s) && WellFormed(s') && o < |s.locals| == |s'.locals|
    requires Untouched(s, s', o)
    ensures Head(s, ready, o) == Head(s', ready, o)
    ensures IsStale(s, ready, o) == IsStale(s', ready, o)
  {
  }

  lemma ScanEffectStep(s: State, ready: set<nat>, k: nat, s1: State, fired: seq<Option<TxnId>>, v: Visited)
    requires WellFormed(s) && 0 < k <= |s.locals|
    requires ScanEffect(s, ready, k - 1, s1, fired)
    requires VisitEffect(s1, ready, k - 1, v)
    ensures ScanEffect(s, ready, k, v.state, fired + [v.fired])
  {
    var s2, fired' := v.state, fired + [v.fired];
    LastOffsetStep(s, ready, k, s1, fired, v);
    forall o | 0 <= o < |s.locals|
      ensures k <= o ==> Untouched(s, s2, o)
      ensures o < k ==> (fired'[o].None? <==> s.working[o] || Head(s, ready, o).None?)
      ensures o < k && fired'[o].None? ==> Untouched(s, s2, o)
      ensures o < k && fired'[o].Some? ==> fired'[o] == Head(s, ready, o) && DispatchedAt(s, s2, o, fired'[o].value)
    {
      if o != k - 1 {
        OtherOffsetStep(s, ready, k, s1, fired, v, o);
      }
    }
  }

  /** Iteration `k - 1` does to offset `k - 1` what a scan promises. */
  lemma LastOffsetStep(s: State, ready: set<nat>, k: nat, s1: State, fired: seq<Option<TxnId>>, v: Visited)
    requires WellFormed(s) && 0 < k <= |s.locals|
    requires ScanEffect(s, ready, k - 1, s1, fired)
    requires VisitEffect(s1, ready, k - 1, v)
    ensures WellFormed(v.state) && v.state.locals == s.locals
    ensures (fired + [v.fired])[k - 1] == v.fired
    ensures v.fired.None? <==> s.working[k - 1] || Head(s, ready, k - 1).None?
    ensures v.fired.None? ==> Untouched(s, v.state, k - 1)
    ensures v.fired.Some? ==> v.fired == Head(s, ready, k - 1) && DispatchedAt(s, v.state, k - 1, v.fired.value)
  {
    assert Untouched(s, s1, k - 1);
    UntouchedAgrees(s, s1, ready, k - 1);
    if v.fired.Some? {
      assert DispatchStep(s1, v.state, k - 1, v.fired.value);
    }
  }

  /** An offset other than `k - 1` keeps, through iteration `k - 1`,
      what the earlier iterations did to it. */
  lemma OtherOffsetStep(s: State, ready: set<nat>, k: nat, s1: State, fired: seq<Option<TxnId>>, v: Visited, o: nat)
    requires WellFormed(s) && 0 < k <= |s.locals|
    requires ScanEffect(s, ready, k - 1, s1, fired)
    requires VisitEffect(s1, ready, k - 1, v)
    requires o < |s.locals| && o != k - 1
    ensures WellFormed(v.state) && |v.state.locals| == |s.locals|
    ensures k <= o ==> Untouched(s, v.state, o)
    ensures o < k ==> ((fired + [v.fired])[o].None? <==> s.working[o] || Head(s, ready, o).None?)
    ensures o < k && (fired + [v.fired])[o].None? ==> Untouched(s, v.state, o)
    ensures o < k && (fired + [v.fired])[o].Some? ==>
              (fired + [v.fired])[o] == Head(s, ready, o) && DispatchedAt(s, v.state, o, (fired + [v.fired])[o].value)
  {
    var s2 := v.state;
    if v.fired.Some? {
      assert DispatchStep(s1, s2, k - 1, v.fired.value);
    }
    assert Untouched(s1, s2, o);
    if o < k - 1 {
      assert (fired + [v.fired])[o] == fired[o];
      if fired[o].Some? {
        assert DispatchedAt(s, s1, o, fired[o].value);
      } else {
        assert Untouched(s, s1, o);
      }
    } else {
      assert Untouched(s, s1, o);
    }
  }

  lemma TableAfterStep(table: Table, table1: Table, fired: seq<Option<TxnId>>, table2: Table, f: Option<TxnId>)
    requires TableAfter(table, table1, fired)
    requires f.None? ==> table2 == table1
    requires f.Some? ==> f.value in table1 && table2 == Acknowledge(table1, f.value)
    ensures TableAfter(table, table2, fired + [f])
  {
    var fired' := fired + [f];
    assert forall t :: Hits(fired', t) == Hits(fired, t) + (if f == Some(t) then 1 else 0);
  }

  /** The iteration of the loop of `checkQueues` for offset `k - 1`, after
      the iterations for the offsets below it produced `prev`. */
  function Next(s: State, ready: set<nat>, k: nat, prev: ScanResult): (r: ScanResult)
    requires WellFormed(s) && 0 < k <= |s.locals|
    requires prev.Ok? ==> WellFormed(prev.value.0) && |prev.value.0.locals| == |s.locals|
    ensures r.Ok? ==> WellFormed(r.value.0) && |r.value.0.locals| == |s.locals|
  {
    if prev.Err? then prev
    else Extend(prev.value.1, Visit(prev.value.0, ready, k - 1))
  }

  /** Records the outcome of one iteration after the earlier ones. */
  function Extend(fired: seq<Option<TxnId>>, vr: Result<Visited, QueueError>): ScanResult
  {
    match vr
    case Err(e) => Err(e)
    case Ok(v) => Ok((v.state, fired + [v.fired]))
  }

  lemma NextUnfold(s: State, ready: set<nat>, k: nat, prev: ScanResult)
    requires WellFormed(s) && 0 < k <= |s.locals|
    requires prev.Ok? ==> WellFormed(prev.value.0) && |prev.value.0.locals| == |s.locals|
    ensures prev.Err? ==> Next(s, ready, k, prev) == prev
    ensures prev.Ok? ==> Next(s, ready, k, prev) == Extend(prev.value.1, Visit(prev.value.0, ready, k - 1))
  {
  }

  lemma ScanErrorsStep(s: State, ready: set<nat>, k: nat, prev: ScanResult)
    requires WellFormed(s) && 0 < k <= |s.locals|
    requires prev.Ok? ==> ScanEffect(s, ready, k - 1, prev.value.0, prev.value.1)
    requires prev.Ok? ==> TableAfter(s.callbacks, prev.value.0.callbacks, prev.value.1)
    requires prev.Ok? ==> CountsReleases(s, ready, k - 1, prev.value.1)
    requires ScanErrors(s, ready, k - 1, prev)
    ensures ScanErrors(s, ready, k, Next(s, ready, k, prev))
  {
    NextUnfold(s, ready, k, prev);
    if prev.Ok? {
      var s1, fired := prev.value.0, prev.value.1;
      VisitFailsAt(s, ready, k, s1, fired);
      var vr := Visit(s1, ready, k - 1);
      if vr.Ok? {
        forall o | 0 <= o < k
          ensures !Fails(s, ready, o)
        {
          if o < k - 1 {
            assert !(0 <= o < k - 1 && Fails(s, ready, o));
          }
        }
      } else {
        assert 0 <= k - 1 < k && Fails(s, ready, k - 1);
      }
    } else {
      var e := prev.error;
      assert FirstFailure(s, ready, k - 1, e);
    }
  }

  /** After the earlier iterations succeeded, the iteration for offset
      `k - 1` fails exactly when that offset fails, with its error. */
  lemma VisitFailsAt(s: State, ready: set<nat>, k: nat, s1: State, fired: seq<Option<TxnId>>)
    requires WellFormed(s) && 0 < k <= |s.locals|
    requires ScanEffect(s, ready, k - 1, s1, fired)
    requires TableAfter(s.callbacks, s1.callbacks, fired)
    requires CountsReleases(s, ready, k - 1, fired)
    ensures Visit(s1, ready, k - 1).Err? <==> Fails(s, ready, k - 1)
    ensures Visit(s1, ready, k - 1).Err? ==> Visit(s1, ready, k - 1).error == FailureAt(s, ready, k - 1)
  {
    assert Untouched(s, s1, k - 1);
    UntouchedAgrees(s, s1, ready, k - 1);
    if !s.working[k - 1] && Head(s, ready, k - 1).Some? && !IsStale(s, ready, k - 1) {
      var n := Head(s, ready, k - 1).value;
      StillRegistered(s.callbacks, s1.callbacks, fired, n);
      assert Hits(fired, n) == Releases(s, ready, k - 1, n);
      assert IsMissing(s, ready, k - 1) <==> n !in s1.callbacks;
    }
  }

  /** After the runs in `fired`, an id is still registered exactly when it
      was and its counter was not positive, or not yet run down. */
  lemma StillRegistered(table: Table, table': Table, fired: seq<Option<TxnId>>, n: TxnId)
    requires TableAfter(table, table', fired)
    ensures n in table' <==> n in table && (table[n] <= 0 || Hits(fired, n) < table[n])
  {
  }

  /** The count of runs grows with one more iteration as the count of
      releasing offsets does. */
  lemma CountsReleasesStep(s: State, ready: set<nat>, k: nat, fired: seq<Option<TxnId>>, f: Option<TxnId>)
    requires WellFormed(s) && 0 < k <= |s.locals|
    requires CountsReleases(s, ready, k - 1, fired)
    requires f.None? <==> s.working[k - 1] || Head(s, ready, k - 1).None?
    requires f.Some? ==> f == Head(s, ready, k - 1)
    ensures CountsReleases(s, ready, k, fired + [f])
  {
    forall t
      ensures Hits(fired + [f], t) == Releases(s, ready, k, t)
    {
      assert multiset(fired + [f]) == multiset(fired) + multiset{f};
      assert Hits(fired, t) == Releases(s, ready, k - 1, t);
    }
  }

  lemma ScanStep(s: State, ready: set<nat>, k: nat, prev: ScanResult)
    requires WellFormed(s) && 0 < k <= |s.locals|
    requires ScanOutcome(s, ready, k - 1, prev)
    ensures ScanOutcome(s, ready, k, Next(s, ready, k, prev))
  {
    ScanErrorsStep(s, ready, k, prev);
    if prev.Ok? {
      var s1, fired := prev.value.0, prev.value.1;
      var vr := Visit(s1, ready, k - 1);
      if vr.Ok? {
        ScanEffectStep(s, ready, k, s1, fired, vr.value);
        LastOffsetStep(s, ready, k, s1, fired, vr.value);
        CountsReleasesStep(s, ready, k, fired, vr.value.fired);
        if vr.value.fired.Some? {
          assert DispatchStep(s1, vr.value.state, k - 1, vr.value.fired.value);
        }
        TableAfterStep(s.callbacks, s1.callbacks, fired, vr.value.state.callbacks, vr.value.fired);
      }
    }
  }

  /** The first `k` iterations of the loop of `checkQueues`. `fired[o]` is
      the id whose callback was run with the partition at offset `o`. */
  function ScanUpTo(s: State, ready: set<nat>, k: nat): (r: ScanResult)
    requires WellFormed(s) && k <= |s.locals|
    ensures r.Ok? ==> WellFormed(r.value.0) && |r.value.0.locals| == |s.locals|
    decreases k
  {
    if k == 0 then Ok((s, [])) else Next(s, ready, k, ScanUpTo(s, ready, k - 1))
  }

  /** What the first `k` iterations promise, by induction on `k`. */
  lemma {:induction false} ScanUpToOutcome(s: State, ready: set<nat>, k: nat)
    requires WellFormed(s) && k <= |s.locals|
    ensures ScanOutcome(s, ready, k, ScanUpTo(s, ready, k))
    decreases k
  {
    if k > 0 {
      ScanUpToOutcome(s, ready, k - 1);
      ScanStep(s, ready, k, ScanUpTo(s, ready, k - 1));
      ScanUpToUnfold(s, ready, k);
    }
  }

  lemma ScanUpToUnfold(s: State, ready: set<nat>, k: nat)
    requires WellFormed(s) && 0 < k <= |s.locals|
    ensures ScanUpTo(s, ready, k) == Next(s, ready, k, ScanUpTo(s, ready, k - 1))
  {
  }

  /** `checkQueues`: one scan over every local partition. */
  function CheckQueues(s: State, ready: set<nat>): (r: Result<(State, seq<Option<TxnId>>), QueueError>)
    requires WellFormed(s)
    ensures r.Ok? ==> WellFormed(r.value.0) && r.value.0.locals == s.locals && |r.value.1| == |s.locals|
    // a working partition, or one whose poll yields nothing, is left alone
    ensures r.Ok? ==> forall o :: 0 <= o < |s.locals| && (s.working[o] || Head(s, ready, o).None?) ==>
              r.value.1[o].None? && Untouched(s, r.value.0, o)
    // an idle partition whose poll yields an id has that id dispatched, once
    ensures r.Ok? ==> forall o :: 0 <= o < |s.locals| && !s.working[o] && Head(s, ready, o).Some? ==>
              r.value.1[o] == Head(s, ready, o) && DispatchedAt(s, r.value.0, o, r.value.1[o].value)
    // every callback run was registered; the table is updated as counted
    ensures r.Ok? ==> forall o :: 0 <= o < |s.locals| && r.value.1[o].Some? ==> r.value.1[o].value in s.callbacks
    ensures r.Ok? ==> TableAfter(s.callbacks, r.value.0.callbacks, r.value.1)
    // the scan fails on a stale id, and otherwise only on a missing callback
    // (CheckQueuesFailure says exactly when and where)
    ensures (exists o :: 0 <= o < |s.locals| && IsStale(s, ready, o)) ==> r.Err?
    ensures r.Err? ==> || (r.error.StaleDispatch? && r.error.offset < |s.locals| && IsStale(s, ready, r.error.offset))
                       || (&& r.error.MissingCallback? && r.error.offset < |s.locals| && !s.working[r.error.offset]
                           && Head(s, ready, r.error.offset) == Some(r.error.txn))
  {
    ScanUpToOutcome(s, ready, |s.locals|);
    var r := ScanUpTo(s, ready, |s.locals|);
    if r.Ok? then FiredAreHits(r.value.1); r else r
  }

  /** A scan fails exactly when some idle partition would release a stale
      id, or an id whose callback was never registered or was used up by
      the partitions before it; it fails at the first such partition, with
      the stale id reported before the missing callback. */
  lemma CheckQueuesFailure(s: State, ready: set<nat>)
    requires WellFormed(s)
    ensures CheckQueues(s, ready).Err? <==> exists o :: 0 <= o < |s.locals| && Fails(s, ready, o)
    ensures CheckQueues(s, ready).Err? ==> FirstFailure(s, ready, |s.locals|, CheckQueues(s, ready).error)
  {
    ScanUpToOutcome(s, ready, |s.locals|);
  }

  /** Every callback run in a scan is counted by `Hits`. */
  lemma FiredAreHits(fired: seq<Option<TxnId>>)
    ensures forall o :: 0 <= o < |fired| && fired[o].Some? ==> Hits(fired, fired[o].value) > 0
  {
    forall o | 0 <= o < |fired| && fired[o].Some?
      ensures Hits(fired, fired[o].value) > 0
    {
      assert fired[o] in multiset(fired);
    }
  }

  /** Counting releasing offsets over a longer prefix counts no fewer. */
  lemma {:induction false} ReleasesMonotone(s: State, ready: set<nat>, j: nat, k: nat, t: TxnId)
    requires WellFormed(s) && j <= k <= |s.locals|
    ensures Releases(s, ready, j, t) <= Releases(s, ready, k, t)
    decreases k
  {
    if j < k {
      ReleasesMonotone(s, ready, j, k - 1, t);
    }
  }

  /** A scan succeeds when no idle partition would release a stale id and
      every released id is registered with a counter that is not positive
      or covers every idle partition releasing it. */
  lemma RegisteredScanSucceeds(s: State, ready: set<nat>)
    requires WellFormed(s)
    requires forall o :: 0 <= o < |s.locals| ==> !IsStale(s, ready, o)
    requires forall o :: 0 <= o < |s.locals| && !s.working[o] && Head(s, ready, o).Some? ==>
               && Head(s, ready, o).value in s.callbacks
               && (s.callbacks[Head(s, ready, o).value] <= 0 ||
                   Releases(s, ready, |s.locals|, Head(s, ready, o).value) <= s.callbacks[Head(s, ready, o).value])
    ensures CheckQueues(s, ready).Ok?
  {
    CheckQueuesFailure(s, ready);
    forall o | 0 <= o < |s.locals|
      ensures !Fails(s, ready, o)
    {
      if !s.working[o] && Head(s, ready, o).Some? {
        var n := Head(s, ready, o).value;
        assert Releases(s, ready, o + 1, n) == Releases(s, ready, o, n) + 1;
        ReleasesMonotone(s, ready, o + 1, |s.locals|, n);
      }
    }
  }

  /** A scan that ran no callback leaves the table as it was. */
  lemma TableAfterNoHits(table: Table, table': Table, fired: seq<Option<TxnId>>)
    requires TableAfter(table, table', fired)
    requires forall t :: Hits(fired, t) == 0
    ensures table' == table
  {
    assert forall t :: t in table' <==> t in table;
    assert forall t :: t in table' ==> table'[t] == table[t];
  }

  /** A scan in which no idle partition's poll yields an id changes
      nothing and runs no callback. */
  lemma QuietScan(s: State, ready: set<nat>)
    requires WellFormed(s)
    requires forall o :: 0 <= o < |s.locals| ==> s.working[o] || Head(s, ready, o).None?
    ensures CheckQueues(s, ready) == Ok((s, seq(|s.locals|, _ => None)))
  {
    var r := CheckQueues(s, ready);
    assert r.Ok?;
    var s', fired := r.value.0, r.value.1;
    assert fired == seq(|s.locals|, _ => None);
    forall t
      ensures Hits(fired, t) == 0
    {
      assert Some(t) !in fired;
    }
    TableAfterNoHits(s.callbacks, s'.callbacks, fired);
    forall o | 0 <= o < |s.locals|
      ensures s'.queues[o] == s.queues[o] && s'.last[o] == s.last[o] && s'.working[o] == s.working[o]
    {
      assert Untouched(s, s', o);
    }
    assert s' == s;
  }

  // ---------------------------------------------------------------------
  // done

  /** `done(t, p)`: partition `p` is no longer working. The id is not
      consulted, and clearing an idle partition is harmless. */
  function Done(s: State, t: TxnId, p: PartitionId): (r: Result<State, QueueError>)
    requires WellFormed(s)
    ensures r.Err? <==> p !in s.locals
    ensures r.Err? ==> r.error == NotLocal(p)
    ensures r.Ok? ==> WellFormed(r.value) && r.value.locals == s.locals
    ensures r.Ok? ==> r.value.queues == s.queues && r.value.last == s.last && r.value.callbacks == s.callbacks
    ensures r.Ok? ==> |r.value.working| == |s.working| && !r.value.working[OffsetOf(s.locals, p)]
    ensures r.Ok? ==> forall o :: 0 <= o < |s.locals| && s.locals[o] != p ==> r.value.working[o] == s.working[o]
  {
    match LocalOffset(s.locals, p)
    case None => Err(NotLocal(p))
    case Some(o) => Ok(s.(working := s.working[o := false]))
  }
}

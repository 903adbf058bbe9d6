/** Runs of the queue manager: any interleaving of `insert`, one pass of
    the dispatcher's `checkQueues`, and `done`, with the callback runs
    they perform recorded in order. The theorem at the end is the
    promise the whole class exists for: on every partition, transactions
    are released one at a time in strictly increasing id order. */
module Execution {
  import opened Common
  import opened Partitions
  import opened InitQueue
  import opened Callbacks
  import opened TransactionQueue
  import opened QueueInvariants
  import opened ScanSafety

  /** One call into the queue manager. `CheckOp` is one pass of the
      dispatcher thread's loop, with the queues' readiness decision. */
  datatype Op =
    | InsertOp(txn: TxnId, partitions: seq<PartitionId>, counter: int)
    | CheckOp(ready: set<nat>)
    | DoneOp(txn: TxnId, partition: PartitionId)

  /** The callback of `txn` was run for the partition at `offset`. */
  datatype Dispatch = Dispatch(offset: nat, txn: TxnId)

  /** The callback runs of one scan, in the order the scan makes them. */
  function Dispatches(fired: seq<Option<TxnId>>): (log: seq<Dispatch>)
    ensures forall i :: 0 <= i < |log| ==> log[i].offset < |fired| && fired[log[i].offset] == Some(log[i].txn)
    ensures forall i, j :: 0 <= i < j < |log| ==> log[i].offset < log[j].offset
    ensures forall o :: 0 <= o < |fired| && fired[o].Some? ==> Dispatch(o, fired[o].value) in log
  {
    if |fired| == 0 then []
    else
      var o := |fired| - 1;
      var init := Dispatches(fired[..o]);
      if fired[o].Some? then init + [Dispatch(o, fired[o].value)] else init
  }

  /** One operation. The notify flag of `insert` only wakes the
      dispatcher, so it is not part of the outcome. */
  function Step(s: State, op: Op): (r: Result<(State, seq<Dispatch>), QueueError>)
    requires WellFormed(s)
    ensures r.Ok? ==> WellFormed(r.value.0) && r.value.0.locals == s.locals
    ensures op.InsertOp? ==> r.Ok? && r.value.1 == []
    ensures op.DoneOp? ==> (r.Ok? <==> op.partition in s.locals) && (r.Ok? ==> r.value.1 == [])
  {
    match op
    case InsertOp(t, ps, counter) => Ok((Insert(s, t, ps, counter).0, []))
    case CheckOp(ready) =>
      (match CheckQueues(s, ready)
       case Err(e) => Err(e)
       case Ok(res) => Ok((res.0, Dispatches(res.1))))
    case DoneOp(t, p) =>
      (match Done(s, t, p)
       case Err(e) => Err(e)
       case Ok(s') => Ok((s', [])))
  }

  /** A run of operations; it stops at the first failure. */
  function Execute(s: State, ops: seq<Op>): (r: Result<(State, seq<Dispatch>), QueueError>)
    requires WellFormed(s)
    ensures r.Ok? ==> WellFormed(r.value.0) && r.value.0.locals == s.locals
    ensures |ops| == 0 ==> r == Ok((s, []))
    decreases |ops|
  {
    if |ops| == 0 then Ok((s, []))
    else
      match Step(s, ops[0])
      case Err(e) => Err(e)
      case Ok(first) =>
        (match Execute(first.0, ops[1..])
         case Err(e) => Err(e)
         case Ok(rest) => Ok((rest.0, first.1 + rest.1)))
  }

  /** Every `insert` of the run is admissible where it happens. */
  ghost predicate WellBehaved(s: State, ops: seq<Op>)
    requires WellFormed(s)
    decreases |ops|
  {
    |ops| == 0 ||
    (&& (ops[0].InsertOp? ==> Admissible(s, ops[0].txn, ops[0].partitions, ops[0].counter))
     && (Step(s, ops[0]).Ok? ==> WellBehaved(Step(s, ops[0]).value.0, ops[1..])))
  }

  /** Ids released on one partition strictly increase. */
  ghost predicate Increasing(log: seq<Dispatch>)
  {
    forall i, j :: 0 <= i < j < |log| && log[i].offset == log[j].offset ==> log[i].txn < log[j].txn
  }

  /** Every release is above the partition's last id before the run and at
      most its last id after it. */
  ghost predicate Within(log: seq<Dispatch>, lo: seq<TxnId>, hi: seq<TxnId>)
  {
    forall i :: 0 <= i < |log| ==>
      log[i].offset < |lo| && log[i].offset < |hi| && lo[log[i].offset] < log[i].txn <= hi[log[i].offset]
  }

  ghost predicate NonDecreasing(lo: seq<TxnId>, hi: seq<TxnId>)
  {
    |lo| == |hi| && forall o :: 0 <= o < |lo| ==> lo[o] <= hi[o]
  }

  /** A run from `s` to `s'` that released `log` did so in order. */
  ghost predicate Monotone(s: State, s': State, log: seq<Dispatch>)
  {
    Increasing(log) && Within(log, s.last, s'.last) && NonDecreasing(s.last, s'.last)
  }

  /** Two runs in order compose into a run in order. */
  lemma MonotoneAppend(s0: State, s1: State, s2: State, log1: seq<Dispatch>, log2: seq<Dispatch>)
    requires Monotone(s0, s1, log1) && Monotone(s1, s2, log2)
    ensures Monotone(s0, s2, log1 + log2)
  {
    var log := log1 + log2;
    forall i, j | 0 <= i < j < |log| && log[i].offset == log[j].offset
      ensures log[i].txn < log[j].txn
    {
      if j < |log1| {
        assert log[i] == log1[i] && log[j] == log1[j];
      } else if i >= |log1| {
        assert log[i] == log2[i - |log1|] && log[j] == log2[j - |log1|];
      } else {
        assert log[i] == log1[i] && log[j] == log2[j - |log1|];
      }
    }
    forall i | 0 <= i < |log|
      ensures log[i].offset < |s0.last| && log[i].offset < |s2.last|
      ensures s0.last[log[i].offset] < log[i].txn <= s2.last[log[i].offset]
    {
      if i < |log1| {
        assert log[i] == log1[i];
      } else {
        assert log[i] == log2[i - |log1|];
      }
    }
  }

  /** The outcome of one operation from `s` is safe: it fails only on a
      stale id or a non-local `done`, and otherwise keeps the invariant and
      releases in order. */
  ghost predicate SafeStep(s: State, r: Result<(State, seq<Dispatch>), QueueError>)
  {
    && (r.Err? ==> r.error.StaleDispatch? || r.error.NotLocal?)
    && (r.Ok? ==> Inv(r.value.0) && Monotone(s, r.value.0, r.value.1))
  }

  lemma InsertStepSafe(s: State, t: TxnId, ps: seq<PartitionId>, counter: int)
    requires Inv(s) && Admissible(s, t, ps, counter)
    ensures SafeStep(s, Step(s, InsertOp(t, ps, counter)))
  {
    InsertPreservesInv(s, t, ps, counter);
  }

  lemma CheckStepSafe(s: State, ready: set<nat>)
    requires Inv(s)
    ensures SafeStep(s, Step(s, CheckOp(ready)))
  {
    CheckQueuesPreservesInv(s, ready);
    CheckStepUnfold(s, ready);
    var r := CheckQueues(s, ready);
    if r.Ok? {
      ScanLogMonotone(s, r.value.0, r.value.1);
    }
  }

  /** A check operation is one scan, logged. */
  lemma CheckStepUnfold(s: State, ready: set<nat>)
    requires WellFormed(s)
    ensures CheckQueues(s, ready).Err? ==> Step(s, CheckOp(ready)) == Err(CheckQueues(s, ready).error)
    ensures CheckQueues(s, ready).Ok? ==>
              Step(s, CheckOp(ready)) == Ok((CheckQueues(s, ready).value.0, Dispatches(CheckQueues(s, ready).value.1)))
  {
  }

  /** A scan that dispatched above each partition's last id, onto its new
      last id, and lowered no last id, logs its runs in order. */
  lemma ScanLogMonotone(s: State, s': State, fired: seq<Option<TxnId>>)
    requires |fired| == |s.last| == |s'.last|
    requires forall o :: 0 <= o < |fired| ==>
               && (fired[o].Some? ==> s.last[o] < fired[o].value == s'.last[o])
               && s.last[o] <= s'.last[o]
    ensures Monotone(s, s', Dispatches(fired))
  {
    var log := Dispatches(fired);
    forall i | 0 <= i < |log|
      ensures log[i].offset < |s.last| && log[i].offset < |s'.last|
      ensures s.last[log[i].offset] < log[i].txn <= s'.last[log[i].offset]
    {
      assert fired[log[i].offset] == Some(log[i].txn);
    }
  }

  lemma DoneStepSafe(s: State, t: TxnId, p: PartitionId)
    requires Inv(s)
    ensures SafeStep(s, Step(s, DoneOp(t, p)))
  {
    DonePreservesInv(s, t, p);
  }

  /** One operation from a state satisfying the invariant. */
  lemma StepKeepsInv(s: State, op: Op)
    requires Inv(s)
    requires op.InsertOp? ==> Admissible(s, op.txn, op.partitions, op.counter)
    ensures SafeStep(s, Step(s, op))
  {
    match op
    case InsertOp(t, ps, counter) => InsertStepSafe(s, t, ps, counter);
    case CheckOp(ready) => CheckStepSafe(s, ready);
    case DoneOp(t, p) => DoneStepSafe(s, t, p);
  }

  /** Monotonic dispatch. From a state satisfying the invariant, a run
      whose inserts are admissible never meets a missing callback; if it
      completes, it keeps the invariant, releases strictly increasing ids
      on every partition (so no id twice on one partition), each above the
      partition's last id before the run, and no partition's last id goes
      down. */
  lemma {:induction false} MonotonicDispatch(s: State, ops: seq<Op>)
    requires Inv(s) && WellBehaved(s, ops)
    ensures Execute(s, ops).Err? ==> Execute(s, ops).error.StaleDispatch? || Execute(s, ops).error.NotLocal?
    ensures Execute(s, ops).Ok? ==> Inv(Execute(s, ops).value.0)
    ensures Execute(s, ops).Ok? ==> Monotone(s, Execute(s, ops).value.0, Execute(s, ops).value.1)
    decreases |ops|
  {
    if |ops| > 0 {
      StepKeepsInv(s, ops[0]);
      var first := Step(s, ops[0]);
      if first.Ok? {
        MonotonicDispatch(first.value.0, ops[1..]);
        var rest := Execute(first.value.0, ops[1..]);
        if rest.Ok? {
          MonotoneAppend(s, first.value.0, rest.value.0, first.value.1, rest.value.1);
        }
      }
    }
  }
}

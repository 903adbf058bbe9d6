/** The table of counting callbacks (`txn_callbacks`, a map from a
    transaction id to its BlockingCallback). A BlockingCallback is seen
    only through its counter: `run(partition)` takes one off it and
    `getCounter` reads it. */
module Callbacks {
  import opened Common

  type Table = map<TxnId, int>

  /** Runs the callback of `n` once and evicts it when its counter has
      reached zero; every other entry is untouched. */
  function Acknowledge(table: Table, n: TxnId): (r: Table)
    requires n in table
    ensures n in r <==> table[n] - 1 != 0
    ensures n in r ==> r[n] == table[n] - 1
    ensures forall t :: t != n ==> (t in r <==> t in table)
    ensures forall t :: t != n && t in r ==> r[t] == table[t]
  {
    var c := table[n] - 1;
    if c == 0 then table - {n} else table[n := c]
  }
}

/** Shared vocabulary of the transaction-queue model. */
module Common {

  /** A transaction id (a Java `long`). Ids are only compared, never
      computed with, so an unbounded integer loses nothing. */
  type TxnId = int

  /** A partition id as HStoreSite numbers them. */
  type PartitionId = int

  /** The `null`-or-value of a Java reference. */
  datatype Option<+T> = None | Some(value: T)

  /** An operation's result, or the error the Java code would raise. */
  datatype Result<+T, +E> = Ok(value: T) | Err(error: E)
}

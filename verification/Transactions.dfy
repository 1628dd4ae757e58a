/** Identifiers and the immutable record of one transaction. */
module Transactions {
  import opened Words

  /** A wallet or transaction identifier: the characters of a C string. */
  type Id = string

  /** A transaction never changes once it is made, so it is a value here. */
  datatype Transaction = Transaction(transactionID: Id, value: Word, dateTime: int)
}

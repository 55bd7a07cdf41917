/** Failure-carrying results used throughout the model of Table.java.
    Java's `null` returns become `Option`/nullable references, and the
    unchecked exceptions the code can raise become `Outcome.Threw`. */
module Outcomes {

  datatype Option<+T> = None | Some(value: T)

  /** The unchecked Java exceptions the table operators can raise. */
  datatype JavaException =
    | NullPointer        // unboxing a `col.get` that found no column
    | IndexOutOfBounds   // an array index past the end (tokens, rows, domains)
    | ClassCast          // `compareTo` between values of different classes

  /** What a Java call does: return a value or throw. */
  datatype Outcome<+T> = Returned(value: T) | Threw(exception: JavaException)
}

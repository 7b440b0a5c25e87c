/** The two result shapes the model uses for Java's null-or-value and its exceptions. */
module Lang {

  /** A value or nothing (a Java reference that may be null, an empty array head). */
  datatype Option<T> = None | Some(value: T)

  /**
   * The outcome of a Java expression that may throw: a normal value, or one of the
   * exception kinds the interpreter tells apart by its catch clauses.
   *   IndexOutOfBounds - IndexOutOfBoundsException (substring, array index, List.get/remove)
   *   NumberFormat     - NumberFormatException (Integer.parseInt)
   *   DateParse        - java.text.ParseException (the Task constructors' date parser)
   */
  datatype Try<T> = Ok(value: T) | IndexOutOfBounds | NumberFormat | DateParse
}

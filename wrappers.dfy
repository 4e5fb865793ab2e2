/** Small result types shared by the codec modules. */
module Wrappers {
  /** A value that may be absent, as a Java reference that may be null. */
  datatype Option<T> = None | Some(value: T)

  /**
   * The outcome of a Java operation that either yields a value or raises an
   * exception (an index out of bounds, an illegal range, a null dereference).
   */
  datatype Result<T> = Ok(value: T) | Fault
}

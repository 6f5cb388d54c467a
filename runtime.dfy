/**
 * The small piece of Java runtime vocabulary the proxy utilities need:
 * optional (nullable) values, the values a reflective call returns, and
 * what a Java call can throw.
 */
module Runtime {

  /** A Java reference that may be null: None stands for null. */
  datatype Option<+T> = None | Some(value: T)

  /** What a forwarded call returns: Java null or a reference to some object. */
  datatype Value = Null | Ref(id: nat)

  /**
   * What a Java call can throw. Exception covers java.lang.Exception and all
   * its subclasses (checked and runtime exceptions); Error covers every other
   * Throwable (java.lang.Error and its subclasses).
   */
  datatype Thrown = Exception | Error

  /** How a Java call ends: it returns a value, or it throws. */
  datatype Outcome<+T> = Normal(value: T) | Raised(thrown: Thrown)
}

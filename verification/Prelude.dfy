/** Datatypes shared by every part of the model. */
module Prelude {

  datatype Option<+T> = None | Some(value: T)

  /** What a call into code outside the model gives back: a value, or an exception
      named by its class. */
  datatype Try<+T> = Return(value: T) | Raise(fault: string)

  /** Some element of a set, for recursion over sets. */
  ghost function AnyOf(s: set<string>): (k: string)
    requires s != {}
    ensures k in s
  {
    var k :| k in s; k
  }
}

/** JavaScript values as the two containers see them: a slot that is either
    one of the two absence markers or a real value, and the TypeErrors that
    the containers' operations can raise. */
module JsValues {

  /** The two JavaScript markers for "no value". */
  datatype Absence = Undefined | Null

  /** A JavaScript value of type T, or one of the absence markers. */
  datatype Slot<T> = Absent(kind: Absence) | Val(v: T)

  /** The TypeErrors the core can raise. */
  datatype Error =
    | EmptyReduce   // Array.prototype.reduce on an empty array with no initial value
    | NotAnObject   // a method called on a bare `undefined` or `null`

  datatype Result<T> = Ok(value: T) | Err(error: Error)

  /** Evaluation of `k` on the value of `r`; a thrown error propagates uncaught. */
  function Then<A, B>(r: Result<A>, k: A -> Result<B>): Result<B>
  {
    match r
    case Ok(a) => k(a)
    case Err(e) => Err(e)
  }
}

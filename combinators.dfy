/** The helper combinators the laws are stated with: identity, curried
    composition (`compose(a)(b)` applies `b` first, then `a`) and "apply to
    an argument" (`$`). */
module Combinators {

  function Id<T>(x: T): T
  {
    x
  }

  function Compose<A, B, C>(a: B -> C): (A -> B) -> (A -> C)
  {
    (b: A -> B) => (x: A) => a(b(x))
  }

  function Dollar<T, U>(y: T): (T -> U) -> U
  {
    (fn: T -> U) => fn(y)
  }
}

# Functor, Applicative and Monad over two immutable containers

This project models `js/src/monad.js`. That file builds the Haskell-style
hierarchy Functor → Applicative → Monad over two containers:

- **Array** (`MyArray`, `ArrayFunctor`, `ArrayApplicative`, `ArrayMonad`) holds zero or more values in order.
  Its helpers are `concat`, `map` and `reduce`.
  `apply` is a cross product, with the functions in the outer loop.
  `bind` maps and then concatenates.
  Both go through `reduce` with no initial value.
  So `apply` throws a TypeError when the function container is empty, and `bind` throws one when the receiver is empty.
  An empty value container with at least one function gives the empty container.
- **Maybe** (`Maybe`, `MaybeFunctor`, `MaybeApplicative`, `MaybeMonad`) holds one slot.
  The slot counts as absent when it is `undefined` or `null`.
  `apply` and `bind` return the `.value` of an intermediate container.
  So an absent function container (for `apply`) or an absent receiver (for `bind`) gives the bare `undefined`/`null` rather than a container.
  An absent value container under `apply`, with a present function, is returned as it is.

The class chain becomes one datatype per container plus free functions:

| module | contents |
|---|---|
| `JsValues` | `Absence` (`Undefined`, `Null`), `Slot<T>` (an absence marker or a value), the two TypeErrors as `Error`, `Result`, and `Then` (a thrown error propagates) |
| `MyArray` | `Arr<E>`, `Concat`, `Map`, `Reduce` (a left fold seeded with the first value), the reference `Flatten` |
| `ArrayMonad` | `Fmap`, `Pure`, `Apply`, `Return`, `Bind`, and the reference definitions `CrossApply` and `FlatMap` |
| `ArrayLaws` | the functor, applicative and monad laws for Array |
| `MaybeMonad` | `Maybe<T>`, `IsPresent`, `Fmap`, `Pure`, `Apply`, `Return`, `Bind`, and `ApplyOn`/`BindOn` (a method called on a value that may be a bare `undefined`/`null`) |
| `MaybeLaws` | the functor, applicative and monad laws for Maybe |
| `Combinators` | the test helpers `id`, `compose` and `$`, as `Id`, `Compose` and `Dollar` |

A Maybe function is modelled as `T -> Slot<U>`.
It is only called on a present value, and its result may be `undefined` or `null`.
`Apply` and `Bind` on Maybe return `Slot<Maybe<U>>`, which is the JavaScript value they produce.
Laws that chain calls (`w.apply(v).apply(u)`, `m.bind(f).bind(g)`) follow JavaScript's evaluation order through `Result`.
So a call on a bare `undefined`/`null`, or a `reduce` of an empty array, makes that side throw.

The code differs from Haskell's list and Maybe instances in two ways, and the model follows the code:

- Haskell's list instance gives `[]` for zero functions; this `apply` throws.
- Haskell's Maybe instance gives `Nothing` for an absent function or an absent receiver of `bind`; this `apply` and `bind` return the bare `undefined`/`null`. (An absent value container under `apply` comes back as it is, which agrees with `Nothing`.)

## Model

| member | source | states |
|---|---|---|
| `MyArray.Concat` | js/src/monad.js:15-19 | the result holds all the values of the first container followed by all those of the second; `ReduceConcat` states what folding with it gives |
| `MyArray.Map` | js/src/monad.js:21-25 | keeps the count and the order: element i of the result is `f` of element i |
| `MyArray.Reduce` | js/src/monad.js:27-31 | throws (EmptyReduce) exactly when the container is empty; otherwise the result is a one-value container |
| `MyArray.ReduceConcat` | js/src/monad.js:15-31 | reducing containers with `concat` gives one container holding all their values in order; with no containers it throws |
| `ArrayMonad.Fmap` | js/src/monad.js:37-39 | keeps the count and the order: element i of the result is `f` of element i; the functor laws are proved about it |
| `ArrayMonad.Pure` | js/src/monad.js:87-89 | a container holding exactly `v`; `ApplicativeIdentity` and `ApplicativeHomomorphism` state how `apply` treats it |
| `ArrayMonad.Return` | js/src/monad.js:128-130 | a container holding exactly `v`; `MonadLeftUnit` and `MonadRightUnit` state how `bind` treats it |
| `ArrayMonad.Apply` | js/src/monad.js:91-95 | throws exactly when there are no functions; otherwise the result is the concatenation, over the functions in order, of the values mapped by each |
| `ArrayMonad.ApplyIsCrossProduct` | js/src/monad.js:91-95 | with at least one function the result has |fns|·|values| elements (none when there are no values), and for every function i and value j the result of function i on value j sits at position i·|values|+j |
| `ArrayMonad.ApplyNoValues` | js/src/monad.js:91-95 | no values and at least one function give the empty container |
| `ArrayMonad.CrossApplyAt` | js/src/monad.js:91-95 | the reference cross product has |fs|·|vs| elements, with `fs[i](vs[j])` at position i·|vs|+j |
| `ArrayMonad.Bind` | js/src/monad.js:132-136 | throws exactly when the container is empty; otherwise the result is the containers `f` returns, concatenated in element order |
| `ArrayMonad.FlatMapAppend` | js/src/monad.js:132-136 | `FlatMap` (what `bind` returns for a non-empty receiver) of `a + b` is `FlatMap(a) + FlatMap(b)`, so each element's results stay together and in order |
| `ArrayMonad.FmapExample` | js/src/monad.js:43-45 | `[1,2,3]` mapped by `a => a + 1` is `[2,3,4]` |
| `ArrayMonad.ApplyExample` | js/src/monad.js:99-102 | `[1,2,3]` applied with `[a => a + 1, a => a * 2]` is `[2,3,4,2,4,6]` |
| `ArrayMonad.BindExample` | js/src/monad.js:140-142 | `[1,2,3]` bound with `a => [a, a * 2]` is `[1,2,2,4,3,6]` |
| `ArrayLaws.FunctorIdentity` | js/src/__tests__/monad.spec.js:15-19 | `fmap(id)` returns an equal container |
| `ArrayLaws.FunctorComposition` | js/src/__tests__/monad.spec.js:29-33 | `fmap(compose(g)(f))` equals `fmap(f)` followed by `fmap(g)` |
| `ArrayLaws.ApplicativeIdentity` | js/src/__tests__/monad.spec.js:47-52 | `v.apply(pure(id))` is `v` for every container, the empty one included |
| `ArrayLaws.ApplicativeHomomorphism` | js/src/__tests__/monad.spec.js:63-68 | `pure(x).apply(pure(f))` is `pure(f(x))` |
| `ArrayLaws.ApplicativeInterchange` | js/src/monad.js:91-95 | `pure(y).apply(u) == u.apply(pure($(y)))` holds exactly when `u` is non-empty; for an empty `u` the left side throws and the right side is empty |
| `ArrayLaws.ApplicativeComposition` | js/src/__tests__/monad.spec.js:97-104 | `w.apply(v.apply(u.apply(pure(compose))))` equals `w.apply(v).apply(u)` for all containers, and both sides throw when `u` or `v` is empty |
| `ArrayLaws.MonadLeftUnit` | js/src/monad.js:128-136 | `return(a).bind(f)` is `f(a)` |
| `ArrayLaws.MonadRightUnit` | js/src/monad.js:128-136 | `m.bind(return)` is `m` exactly when `m` is non-empty; an empty `m` throws |
| `ArrayLaws.MonadAssociativity` | js/src/monad.js:132-136 | when `f` never returns an empty container, `m.bind(f).bind(g)` equals `m.bind(x => f(x).bind(g))`, and both throw together |
| `MaybeMonad.IsPresent` | js/src/monad.js:56-59 | false exactly for `undefined` and `null`, true exactly when a value is held |
| `MaybeMonad.Fmap` | js/src/monad.js:65-70 | present holds `f(value)`, which is absent if `f` returned `undefined`/`null`; absent returns the same absent container, whatever `f` is |
| `MaybeMonad.Pure` | js/src/monad.js:106-108 | `pure(v)` holds `v` as given, so it is present exactly when `v` is neither `undefined` nor `null` |
| `MaybeMonad.Return` | js/src/monad.js:146-148 | holds `v` as given, so it is present exactly when `v` is neither `undefined` nor `null`; `MonadLeftUnit` and `MonadRightUnit` state how `bind` treats it |
| `MaybeMonad.Apply` | js/src/monad.js:110-113 | both present gives `Maybe(fun(value))`; function present and value absent gives the value container itself; function absent gives the bare `undefined`/`null` |
| `MaybeMonad.Bind` | js/src/monad.js:150-153 | present gives exactly `f(value)`; absent gives the bare `undefined`/`null` |
| `MaybeMonad.ApplyOn` | js/src/monad.js:110-113 | `.apply` throws exactly when the receiver or the function argument is a bare `undefined`/`null` |
| `MaybeMonad.BindOn` | js/src/monad.js:150-153 | `.bind` throws exactly when the receiver is a bare `undefined`/`null` |
| `MaybeMonad.ApplyExample` | js/src/monad.js:117-120 | `Maybe(1).apply(Maybe(a => a * 3))` holds 3 |
| `MaybeMonad.BindExample` | js/src/monad.js:157-159 | `Maybe(1).bind(a => new MaybeMonad(a * 3))` holds 3 |
| `MaybeLaws.FunctorIdentity` | js/src/__tests__/monad.spec.js:22-26 | `fmap(id)` returns an equal container, present or absent |
| `MaybeLaws.FunctorComposition` | js/src/__tests__/monad.spec.js:36-40 | `fmap(compose(g)(f))` equals `fmap(f).fmap(g)` when `f` never returns `undefined`/`null` |
| `MaybeLaws.FunctorCompositionAbsentStep` | js/src/monad.js:65-70 | when `f` returns `undefined`/`null`, `fmap(f).fmap(g)` is absent and never consults `g` |
| `MaybeLaws.ApplicativeIdentity` | js/src/__tests__/monad.spec.js:55-60 | `v.apply(pure(id))` is `v`, present or absent |
| `MaybeLaws.ApplicativeHomomorphism` | js/src/__tests__/monad.spec.js:71-76 | `pure(x).apply(pure(f))` is `pure(f(x))` |
| `MaybeLaws.ApplicativeInterchange` | js/src/__tests__/monad.spec.js:79-85 | `pure(y).apply(u) == u.apply(pure($(y)))` holds exactly when `u` is present; otherwise the left side is the bare marker and the right side is `u` |
| `MaybeLaws.ApplicativeComposition` | js/src/__tests__/monad.spec.js:107-114 | the composition law holds exactly when `u` and `v` are both present or both absent; both present gives a value, both absent makes both sides throw, and exactly one absent makes one side throw and the other not |
| `MaybeLaws.MonadLeftUnit` | js/src/monad.js:146-153 | `return(a).bind(f)` is `f(a)` |
| `MaybeLaws.MonadRightUnit` | js/src/monad.js:146-153 | `m.bind(return)` is `m` exactly when `m` is present; otherwise it is the bare marker |
| `MaybeLaws.MonadAssociativity` | js/src/monad.js:150-153 | when `f` always returns a container, `m.bind(f).bind(g)` equals `m.bind(x => f(x).bind(g))` exactly when `m` is present; otherwise the left side throws |

## Left out

- The subclass chain and the `new this.constructor(...)` dispatch are not modelled. Each container is one datatype, so a result's class is not modelled either.
- The variadic constructor (`Array.prototype.slice.call(arguments)`) is modelled as a sequence argument.
- JavaScript passes the index and the array as extra arguments to the callbacks of `map` and `reduce`. Callbacks are modelled as unary (binary for `reduce`).
- Applying an Array of functions to a Maybe, or the reverse, is not modelled. The source does not support it.
- The comments at js/src/monad.js:44, :75 and :141 call `apply` with a bare function or with a function returning plain arrays. They do not match the code, and the model follows the code.
- Exceptions thrown by caller-supplied functions are not modelled. Those functions are total and pure here.
- Jest's `toEqual` deep equality is modelled as Dafny equality of values. Function values are compared only through what they return.
- The module export (js/src/monad.js:161) is not modelled.
- MaybeLaws.FunctorComposition: is stated for an `f` that returns values. A JavaScript `compose` would pass `undefined`/`null` on to `g`, and a function over present values cannot take it. FunctorCompositionAbsentStep shows what happens instead.
- MaybeLaws.ApplicativeComposition: `compose` is modelled as passing an absent intermediate result on, because the outer function cannot be called with `undefined`/`null` here. When both functions return values this is the JavaScript `compose`.
- ArrayLaws.MonadAssociativity: assumes `f` never returns an empty container. Otherwise the inner `f(x).bind(g)` would throw inside the callback, and the model has no throwing callbacks.
- MaybeLaws.MonadAssociativity: assumes `f` never returns `undefined`/`null`, for the same reason.

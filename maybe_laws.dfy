/** The functor, applicative and monad laws for the Maybe instance: where
    they hold, and where the bare `undefined`/`null` that `apply` and `bind`
    can return breaks them. */
module MaybeLaws {
  import opened JsValues
  import opened MaybeMonad
  import opened Combinators

  /** `id` on a held value. */
  function LiftedId<T>(x: T): Slot<T>
  {
    Val(x)
  }

  /** A function that never returns `undefined` or `null`. */
  function Lift<T, U>(f: T -> U): T -> Slot<U>
  {
    x => Val(f(x))
  }

  /** `MaybeMonad.return` passed as a function: its result is a container,
      never `undefined` or `null`. */
  function ReturnValue<T>(x: T): Slot<Maybe<T>>
  {
    Val(Return(Val(x)))
  }

  /** The curried `compose` on functions whose results may be absent. Each
      partial application is a function, hence present; an absent result of
      the inner function is passed on as the result (the outer function
      would otherwise be called with `undefined` or `null`). */
  function MaybeCompose<A, B, C>(a: B -> Slot<C>): Slot<(A -> Slot<B>) -> Slot<A -> Slot<C>>>
  {
    Val((b: A -> Slot<B>) => Val((x: A) => match b(x) case Val(y) => a(y) case Absent(k) => Absent(k)))
  }

  // Functor laws

  /** fmap id = id, for present and absent containers alike. */
  lemma FunctorIdentity<T>(m: Maybe<T>)
    ensures Fmap(m, LiftedId) == m
  {
  }

  /** fmap (g . f) = fmap g . fmap f, for an `f` that never returns an absent value. */
  lemma FunctorComposition<T, U, V>(m: Maybe<T>, f: T -> U, g: U -> Slot<V>)
    ensures Fmap(m, Compose(g)(f)) == Fmap(Fmap(m, Lift(f)), g)
  {
  }

  /** When `f` returns `undefined` or `null`, `fmap(g)` after `fmap(f)` never
      consults `g`, while the composed function would pass that absent value
      to `g`: this is why the composition law needs `f` to return values. */
  lemma FunctorCompositionAbsentStep<T, U, V>(m: Maybe<T>, f: T -> Slot<U>, g: U -> Slot<V>)
    requires IsPresent(m) && f(m.slot.v).Absent?
    ensures Fmap(Fmap(m, f), g) == Maybe(Absent(f(m.slot.v).kind))
  {
  }

  // Applicative laws

  /** pure id <*> v = v, for present and absent containers alike. */
  lemma ApplicativeIdentity<T>(m: Maybe<T>)
    ensures Apply(m, Pure(Val(LiftedId))) == Val(m)
  {
  }

  /** pure f <*> pure x = pure (f x), also when `f x` is `undefined` or `null`. */
  lemma ApplicativeHomomorphism<T, U>(x: T, f: T -> Slot<U>)
    ensures Apply(Pure(Val(x)), Pure(Val(f))) == Val(Pure(f(x)))
  {
  }

  /** u <*> pure y = pure ($ y) <*> u holds exactly when `u` holds a function:
      with an absent `u` the left side is the bare `undefined`/`null` and the
      right side is the absent container `u`. */
  lemma ApplicativeInterchange<T, U>(y: T, u: Maybe<T -> Slot<U>>)
    ensures Apply(Pure(Val(y)), u) == Apply(u, Pure(Val(Dollar(y)))) <==> IsPresent(u)
    ensures !IsPresent(u) ==> Apply(Pure(Val(y)), u) == Absent(u.slot.kind)
    ensures !IsPresent(u) ==> Apply(u, Pure(Val(Dollar(y)))) == Val(Maybe(Absent(u.slot.kind)))
  {
  }

  /** pure (.) <*> u <*> v <*> w = u <*> (v <*> w), in the form
      `w.apply(v.apply(u.apply(pure(compose)))) == w.apply(v).apply(u)`,
      throwing included. It holds exactly when `u` and `v` are both present
      or both absent (then both sides throw on a bare `undefined`/`null`);
      when exactly one of them is absent, one side throws and the other
      does not. */
  lemma ApplicativeComposition<A, B, C>(u: Maybe<B -> Slot<C>>, v: Maybe<A -> Slot<B>>, w: Maybe<A>)
    ensures Then(ApplyOn(Val(v), Apply(u, Pure(Val(MaybeCompose)))), uv => ApplyOn(Val(w), uv))
            == ApplyOn(Apply(w, v), Val(u))
            <==> IsPresent(u) == IsPresent(v)
    ensures IsPresent(u) && IsPresent(v) ==> ApplyOn(Apply(w, v), Val(u)).Ok?
    ensures IsPresent(u) != IsPresent(v) ==>
              Then(ApplyOn(Val(v), Apply(u, Pure(Val(MaybeCompose)))), uv => ApplyOn(Val(w), uv)).Err?
              != ApplyOn(Apply(w, v), Val(u)).Err?
    ensures !IsPresent(u) && !IsPresent(v) ==>
              Then(ApplyOn(Val(v), Apply(u, Pure(Val(MaybeCompose)))), uv => ApplyOn(Val(w), uv)) == Err(NotAnObject)
              && ApplyOn(Apply(w, v), Val(u)) == Err(NotAnObject)
  {
  }

  // Monad laws

  /** return a >>= f = f a */
  lemma MonadLeftUnit<T, U>(a: T, f: T -> Slot<Maybe<U>>)
    ensures Bind(Return(Val(a)), f) == f(a)
  {
  }

  /** m >>= return = m holds exactly for a present `m`; an absent one gives
      the bare `undefined`/`null`. */
  lemma MonadRightUnit<T>(m: Maybe<T>)
    ensures Bind(m, ReturnValue) == Val(m) <==> IsPresent(m)
    ensures !IsPresent(m) ==> Bind(m, ReturnValue) == Absent(m.slot.kind)
  {
  }

  /** `x => f(x).bind(g)`, defined when `f` never returns `undefined` or
      `null` (calling `bind` on those throws). */
  function ChainedBind<T(!new), U, V>(f: T -> Slot<Maybe<U>>, g: U -> Slot<Maybe<V>>): T -> Slot<Maybe<V>>
    requires forall x :: f(x).Val?
  {
    x => Bind(f(x).v, g)
  }

  /** (m >>= f) >>= g = m >>= (\x -> f x >>= g), for an `f` that always
      returns a container, holds exactly for a present `m`: for an absent
      one the left side calls `bind` on the bare `undefined`/`null` and throws. */
  lemma MonadAssociativity<T(!new), U, V>(m: Maybe<T>, f: T -> Slot<Maybe<U>>, g: U -> Slot<Maybe<V>>)
    requires forall x :: f(x).Val?
    ensures BindOn(Bind(m, f), g) == Ok(Bind(m, ChainedBind(f, g))) <==> IsPresent(m)
    ensures !IsPresent(m) ==> BindOn(Bind(m, f), g) == Err(NotAnObject)
  {
  }
}

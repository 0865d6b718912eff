/** The Maybe instance of Functor, Applicative and Monad (`MaybeFunctor`,
    `MaybeApplicative`, `MaybeMonad`): a container with one slot. */
module MaybeMonad {
  import opened JsValues

  datatype Maybe<T> = Maybe(slot: Slot<T>)

  /** `isPresent`: the slot is checked against `undefined` and against
      `null`; it is present exactly when it holds a value. */
  predicate IsPresent<T>(m: Maybe<T>): (b: bool)
    ensures b <==> m.slot.Val?
    ensures !b <==> m.slot == Absent(Undefined) || m.slot == Absent(Null)
  {
    match m.slot
    case Absent(Undefined) => false
    case Absent(Null) => false
    case Val(_) => true
  }

  /** `MaybeFunctor.fmap`: a present value is passed to `f` and whatever `f`
      returns is held, so a `null` or `undefined` result gives an absent
      container; an absent container is returned as it is and `f` is not
      consulted. */
  function Fmap<T, U>(m: Maybe<T>, f: T -> Slot<U>): (r: Maybe<U>)
    ensures IsPresent(r) <==> IsPresent(m) && f(m.slot.v).Val?
    ensures IsPresent(m) ==> r.slot == f(m.slot.v)
    ensures !IsPresent(m) ==> r == Maybe(Absent(m.slot.kind))
  {
    if IsPresent(m) then Maybe(f(m.slot.v)) else Maybe(Absent(m.slot.kind))
  }

  /** `MaybeApplicative.pure`: present unless `v` is `undefined` or `null`. */
  function Pure<T>(v: Slot<T>): (r: Maybe<T>)
    ensures IsPresent(r) <==> v.Val?
    ensures r.slot == v
  {
    Maybe(v)
  }

  /** `MaybeMonad.return`: the same container as `Pure`. */
  function Return<T>(v: Slot<T>): (r: Maybe<T>)
    ensures IsPresent(r) <==> v.Val?
    ensures r.slot == v
  {
    Pure(v)
  }

  /** `m.apply(fs)` (`MaybeApplicative.apply`), which returns the `.value` of
      an intermediate container, so its result is a JavaScript value:
      - function and value present: a container holding `fun(value)`;
      - function present, value absent: the value container itself;
      - function absent: the bare `undefined` or `null`, not a container. */
  function Apply<T, U>(m: Maybe<T>, fs: Maybe<T -> Slot<U>>): (r: Slot<Maybe<U>>)
    ensures IsPresent(fs) && IsPresent(m) ==> r == Val(Maybe(fs.slot.v(m.slot.v)))
    ensures IsPresent(fs) && !IsPresent(m) ==> r == Val(Maybe(Absent(m.slot.kind)))
    ensures !IsPresent(fs) ==> r == Absent(fs.slot.kind)
  {
    Fmap(fs, fun => Val(Fmap(m, fun))).slot
  }

  /** `m.bind(f)` (`MaybeMonad.bind`): on a present value exactly what `f`
      returns; on an absent one the bare `undefined` or `null`, not a
      container. */
  function Bind<T, U>(m: Maybe<T>, f: T -> Slot<Maybe<U>>): (r: Slot<Maybe<U>>)
    ensures IsPresent(m) ==> r == f(m.slot.v)
    ensures !IsPresent(m) ==> r == Absent(m.slot.kind)
  {
    Fmap(m, f).slot
  }

  /** `recv.apply(fs)` where either side may be the bare result of an earlier
      `apply` or `bind`: reading a method of `undefined` or `null` throws. */
  function ApplyOn<T, U>(recv: Slot<Maybe<T>>, fs: Slot<Maybe<T -> Slot<U>>>): (r: Result<Slot<Maybe<U>>>)
    ensures r.Err? <==> recv.Absent? || fs.Absent?
    ensures r.Err? ==> r.error == NotAnObject
    ensures r.Ok? ==> r.value == Apply(recv.v, fs.v)
  {
    match (recv, fs)
    case (Val(m), Val(f)) => Ok(Apply(m, f))
    case _ => Err(NotAnObject)
  }

  /** `recv.bind(f)` where `recv` may be the bare result of an earlier `bind`. */
  function BindOn<T, U>(recv: Slot<Maybe<T>>, f: T -> Slot<Maybe<U>>): (r: Result<Slot<Maybe<U>>>)
    ensures r.Err? <==> recv.Absent?
    ensures r.Err? ==> r.error == NotAnObject
    ensures r.Ok? ==> r.value == Bind(recv.v, f)
  {
    match recv
    case Val(m) => Ok(Bind(m, f))
    case Absent(_) => Err(NotAnObject)
  }

  /** `Maybe(1).apply(Maybe(a => a * 3))` holds 3. */
  lemma ApplyExample()
    ensures Apply(Pure(Val(1)), Pure(Val(a => Val(a * 3)))) == Val(Maybe(Val(3)))
  {
  }

  /** `Maybe(1).bind(a => new MaybeMonad(a * 3))` holds 3. */
  lemma BindExample()
    ensures Bind(Return(Val(1)), a => Val(Return(Val(a * 3)))) == Val(Maybe(Val(3)))
  {
  }
}

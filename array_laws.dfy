/** The functor, applicative and monad laws for the Array instance, with the
    exceptions that `reduce` without an initial value adds to them. */
module ArrayLaws {
  import opened JsValues
  import opened MyArray
  import opened ArrayMonad
  import opened Combinators

  // Algebra of the reference definitions

  /** `fmap` over an append is the append of the two `fmap`s. */
  lemma FmapAppend<T, U>(a: seq<T>, b: seq<T>, f: T -> U)
    ensures Fmap(Arr(a + b), f).s == Fmap(Arr(a), f).s + Fmap(Arr(b), f).s
  {
  }

  lemma {:induction false} CrossApplyAppend<T, U>(vs: seq<T>, fs: seq<T -> U>, gs: seq<T -> U>)
    ensures CrossApply(vs, fs + gs) == CrossApply(vs, fs) + CrossApply(vs, gs)
  {
    if |fs| == 0 {
      assert fs + gs == gs;
    } else {
      assert (fs + gs)[1..] == fs[1..] + gs;
      CrossApplyAppend(vs, fs[1..], gs);
    }
  }

  lemma {:induction false} CrossApplyOneValue<T, U>(y: T, fs: seq<T -> U>)
    ensures CrossApply([y], fs) == Fmap(Arr(fs), Dollar(y)).s
  {
    if |fs| > 0 {
      CrossApplyOneValue(y, fs[1..]);
      assert Fmap(Arr(fs), Dollar(y)).s == [fs[0](y)] + Fmap(Arr(fs[1..]), Dollar(y)).s;
    }
  }

  /** Applying `compose(f)` for every g of `v` to `w` is mapping `f` over `w.apply(v)`. */
  lemma {:induction false} CrossApplyComposeOne<A, B, C>(w: seq<A>, v: seq<A -> B>, f: B -> C)
    ensures CrossApply(w, Fmap(Arr(v), Compose(f)).s) == Fmap(Arr(CrossApply(w, v)), f).s
  {
    if |v| > 0 {
      var cv := Fmap(Arr(v), Compose(f)).s;
      assert cv[1..] == Fmap(Arr(v[1..]), Compose(f)).s;
      CrossApplyComposeOne(w, v[1..], f);
      FmapAppend(Fmap(Arr(w), v[0]).s, CrossApply(w, v[1..]), f);
      assert Fmap(Arr(w), cv[0]).s == Fmap(Fmap(Arr(w), v[0]), f).s;
    }
  }

  lemma {:induction false} CrossApplyCompose<A, B, C>(u: seq<B -> C>, v: seq<A -> B>, w: seq<A>)
    ensures CrossApply(w, CrossApply(v, Fmap(Arr(u), Compose).s)) == CrossApply(CrossApply(w, v), u)
  {
    if |u| > 0 {
      var cu := Fmap(Arr(u), Compose).s;
      assert cu[1..] == Fmap(Arr(u[1..]), Compose).s;
      CrossApplyCompose(u[1..], v, w);
      var head := Fmap(Arr(v), cu[0]).s;
      CrossApplyAppend(w, head, CrossApply(v, cu[1..]));
      CrossApplyComposeOne(w, v, u[0]);
    }
  }

  lemma {:induction false} FlatMapReturn<T>(s: seq<T>)
    ensures FlatMap(s, Return) == s
  {
    if |s| > 0 {
      FlatMapReturn(s[1..]);
    }
  }

  lemma {:induction false} FlatMapAssociative<T, U, V>(s: seq<T>, f: T -> Arr<U>, g: U -> Arr<V>, h: T -> Arr<V>)
    requires forall x :: h(x).s == FlatMap(f(x).s, g)
    ensures FlatMap(FlatMap(s, f), g) == FlatMap(s, h)
  {
    if |s| > 0 {
      FlatMapAppend(f(s[0]).s, FlatMap(s[1..], f), g);
      FlatMapAssociative(s[1..], f, g, h);
    }
  }

  // Functor laws

  /** fmap id = id */
  lemma FunctorIdentity<T>(a: Arr<T>)
    ensures Fmap(a, Id) == a
  {
  }

  /** fmap (g . f) = fmap g . fmap f */
  lemma FunctorComposition<T, U, V>(a: Arr<T>, f: T -> U, g: U -> V)
    ensures Fmap(a, Compose(g)(f)) == Fmap(Fmap(a, f), g)
  {
  }

  // Applicative laws

  /** pure id <*> v = v, for every container v, the empty one included. */
  lemma ApplicativeIdentity<T>(v: Arr<T>)
    ensures Apply(v, Pure(Id)) == Ok(v)
  {
    assert Fmap(v, Id).s == v.s;
  }

  /** pure f <*> pure x = pure (f x) */
  lemma ApplicativeHomomorphism<T, U>(x: T, f: T -> U)
    ensures Apply(Pure(x), Pure(f)) == Ok(Pure(f(x)))
  {
    assert Fmap(Pure(x), f).s == [f(x)];
  }

  /** u <*> pure y = pure ($ y) <*> u holds exactly when `u` holds at least
      one function; with no functions the left side throws and the right
      side is the empty container. */
  lemma ApplicativeInterchange<T, U>(y: T, u: Arr<T -> U>)
    ensures Apply(Pure(y), u) == Apply(u, Pure(Dollar(y))) <==> |u.s| > 0
    ensures |u.s| == 0 ==> Apply(Pure(y), u) == Err(EmptyReduce) && Apply(u, Pure(Dollar(y))) == Ok(Arr([]))
  {
    CrossApplyOneValue(y, u.s);
  }

  /** pure (.) <*> u <*> v <*> w = u <*> (v <*> w), in the form
      `w.apply(v.apply(u.apply(pure(compose)))) == w.apply(v).apply(u)`,
      throwing included: both sides throw when u or v is empty. */
  lemma ApplicativeComposition<A, B, C>(u: Arr<B -> C>, v: Arr<A -> B>, w: Arr<A>)
    ensures Then(Apply(u, Pure(Compose)), uc => Then(Apply(v, uc), vc => Apply(w, vc)))
         == Then(Apply(w, v), wv => Apply(wv, u))
  {
    var cu := Apply(u, Pure(Compose<A, B, C>));
    assert cu.value.s == Fmap(u, Compose).s;
    if |u.s| > 0 && |v.s| > 0 {
      CrossApplyLength(v.s, cu.value.s);
      assert |u.s| * |v.s| > 0;
      CrossApplyCompose(u.s, v.s, w.s);
    } else if |u.s| > 0 {
      CrossApplyNoValues(cu.value.s);
    }
  }

  // Monad laws

  /** return a >>= f = f a */
  lemma MonadLeftUnit<T, U>(a: T, f: T -> Arr<U>)
    ensures Bind(Return(a), f) == Ok(f(a))
  {
  }

  /** m >>= return = m holds exactly for non-empty m; binding an empty one throws. */
  lemma MonadRightUnit<T>(m: Arr<T>)
    ensures Bind(m, Return) == Ok(m) <==> |m.s| > 0
    ensures |m.s| == 0 ==> Bind(m, Return) == Err(EmptyReduce)
  {
    FlatMapReturn(m.s);
  }

  /** `x => f(x).bind(g)`, defined when `f` never returns an empty container
      (binding an empty container throws). */
  function ChainedBind<T(!new), U, V>(f: T -> Arr<U>, g: U -> Arr<V>): (h: T -> Arr<V>)
    requires forall x :: |f(x).s| > 0
    ensures forall x :: h(x).s == FlatMap(f(x).s, g)
  {
    x => Bind(f(x), g).value
  }

  /** (m >>= f) >>= g = m >>= (\x -> f x >>= g), throwing included, when `f`
      never returns an empty container. */
  lemma MonadAssociativity<T(!new), U, V>(m: Arr<T>, f: T -> Arr<U>, g: U -> Arr<V>)
    requires forall x :: |f(x).s| > 0
    ensures Then(Bind(m, f), n => Bind(n, g)) == Bind(m, ChainedBind(f, g))
  {
    if |m.s| > 0 {
      FlatMapAssociative(m.s, f, g, ChainedBind(f, g));
    }
  }
}

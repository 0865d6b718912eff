/** The Array instance of Functor, Applicative and Monad (`ArrayFunctor`,
    `ArrayApplicative`, `ArrayMonad`), one container with free functions. */
module ArrayMonad {
  import opened JsValues
  import opened MyArray

  /** `ArrayFunctor.fmap`: keeps the count and the order of the values. */
  function Fmap<T, U>(a: Arr<T>, f: T -> U): (r: Arr<U>)
    ensures |r.s| == |a.s|
    ensures forall i :: 0 <= i < |a.s| ==> r.s[i] == f(a.s[i])
  {
    Map(a, f)
  }

  /** `ArrayApplicative.pure`: a container holding `v` alone. */
  function Pure<T>(v: T): (r: Arr<T>)
    ensures |r.s| == 1 && r.s[0] == v
  {
    Arr([v])
  }

  /** `ArrayMonad.return`: the same one-value container as `Pure`. */
  function Return<T>(v: T): (r: Arr<T>)
    ensures |r.s| == 1 && r.s[0] == v
  {
    Pure(v)
  }

  /** Reference definition of `apply`: for each function in order, all the
      values mapped by it, concatenated. */
  function CrossApply<T, U>(vs: seq<T>, fs: seq<T -> U>): seq<U>
  {
    if |fs| == 0 then [] else Fmap(Arr(vs), fs[0]).s + CrossApply(vs, fs[1..])
  }

  /** Reference definition of `bind`: the containers `f` returns, concatenated
      in the order of the values. */
  function FlatMap<T, U>(s: seq<T>, f: T -> Arr<U>): seq<U>
  {
    if |s| == 0 then [] else f(s[0]).s + FlatMap(s[1..], f)
  }

  /** The nested `fmap` inside `apply`, flattened, is the reference `CrossApply`. */
  lemma {:induction false} FlattenOfFmaps<T, U>(vs: seq<T>, fs: seq<T -> U>, nested: seq<Arr<U>>)
    requires |nested| == |fs|
    requires forall i :: 0 <= i < |fs| ==> nested[i] == Fmap(Arr(vs), fs[i])
    ensures Flatten(nested) == CrossApply(vs, fs)
  {
    if |fs| > 0 {
      FlattenOfFmaps(vs, fs[1..], nested[1..]);
    }
  }

  /** The nested `fmap` inside `bind`, flattened, is the reference `FlatMap`. */
  lemma {:induction false} FlattenOfResults<T, U>(s: seq<T>, f: T -> Arr<U>, nested: seq<Arr<U>>)
    requires |nested| == |s|
    requires forall i :: 0 <= i < |s| ==> nested[i] == f(s[i])
    ensures Flatten(nested) == FlatMap(s, f)
  {
    if |s| > 0 {
      FlattenOfResults(s[1..], f, nested[1..]);
    }
  }

  /** `values.apply(fns)` (`ArrayApplicative.apply`): every function applied to
      every value, functions in the outer loop; an empty `fns` throws, because
      `reduce` is given no initial value. */
  function Apply<T, U>(values: Arr<T>, fns: Arr<T -> U>): (r: Result<Arr<U>>)
    ensures r.Err? <==> |fns.s| == 0
    ensures r.Err? ==> r.error == EmptyReduce
    ensures r.Ok? ==> r.value.s == CrossApply(values.s, fns.s)
  {
    var nested := Fmap(fns, fun => Fmap(values, fun));
    ReduceConcat(nested.s);
    FlattenOfFmaps(values.s, fns.s, nested.s);
    match Reduce(nested, Concat)
    case Ok(single) => Ok(single.s[0])
    case Err(e) => Err(e)
  }

  /** `m.bind(f)` (`ArrayMonad.bind`): the containers `f` returns for the
      values, concatenated in order; an empty `m` throws, because `reduce` is
      given no initial value. */
  function Bind<T, U>(m: Arr<T>, f: T -> Arr<U>): (r: Result<Arr<U>>)
    ensures r.Err? <==> |m.s| == 0
    ensures r.Err? ==> r.error == EmptyReduce
    ensures r.Ok? ==> r.value.s == FlatMap(m.s, f)
  {
    var nested := Fmap(m, f);
    ReduceConcat(nested.s);
    FlattenOfResults(m.s, f, nested.s);
    match Reduce(nested, Concat)
    case Ok(single) => Ok(single.s[0])
    case Err(e) => Err(e)
  }

  /** `apply` yields |fns| * |values| results. */
  lemma {:induction false} CrossApplyLength<T, U>(vs: seq<T>, fs: seq<T -> U>)
    ensures |CrossApply(vs, fs)| == |fs| * |vs|
  {
    if |fs| > 0 {
      CrossApplyLength(vs, fs[1..]);
      assert |fs| * |vs| == |vs| + (|fs| - 1) * |vs|;
    }
  }

  /** Position i * n + j of an m-by-n table lies inside it. */
  lemma {:induction false} TablePosition(i: nat, j: nat, m: nat, n: nat)
    requires i < m && j < n
    ensures i * n + j < m * n
    ensures i > 0 ==> i * n + j == n + ((i - 1) * n + j)
  {
    if i > 0 {
      TablePosition(i - 1, j, m - 1, n);
      assert m * n == (m - 1) * n + n;
    }
  }

  /** `apply` is a cross product with the functions in the outer loop: the
      result for function i and value j sits at position i * |values| + j. */
  lemma {:induction false} CrossApplyAt<T, U>(vs: seq<T>, fs: seq<T -> U>, i: nat, j: nat)
    requires i < |fs| && j < |vs|
    ensures |CrossApply(vs, fs)| == |fs| * |vs|
    ensures i * |vs| + j < |fs| * |vs|
    ensures CrossApply(vs, fs)[i * |vs| + j] == fs[i](vs[j])
  {
    CrossApplyLength(vs, fs);
    TablePosition(i, j, |fs|, |vs|);
    var head := Fmap(Arr(vs), fs[0]).s;
    var tail := CrossApply(vs, fs[1..]);
    assert CrossApply(vs, fs) == head + tail;
    if i > 0 {
      CrossApplyAt(vs, fs[1..], i - 1, j);
      var k := (i - 1) * |vs| + j;
      assert (head + tail)[|vs| + k] == tail[k];
    }
  }

  lemma {:induction false} CrossApplyNoValues<T, U>(fs: seq<T -> U>)
    ensures CrossApply([], fs) == []
  {
    if |fs| > 0 {
      CrossApplyNoValues(fs[1..]);
    }
  }

  /** With at least one function and no values the result is the empty container. */
  lemma ApplyNoValues<T, U>(fns: Arr<T -> U>)
    requires |fns.s| > 0
    ensures Apply(Arr([]), fns) == Ok(Arr([]))
  {
    CrossApplyNoValues(fns.s);
  }

  /** `values.apply(fns)` succeeds as soon as there is a function, with
      |fns| * |values| results: the result of function i on value j at
      position i * |values| + j. */
  lemma ApplyIsCrossProduct<T, U>(values: Arr<T>, fns: Arr<T -> U>, i: nat, j: nat)
    requires |fns.s| > 0
    ensures Apply(values, fns).Ok?
    ensures |Apply(values, fns).value.s| == |fns.s| * |values.s|
    ensures i < |fns.s| && j < |values.s| ==>
              i * |values.s| + j < |fns.s| * |values.s|
              && Apply(values, fns).value.s[i * |values.s| + j] == fns.s[i](values.s[j])
  {
    CrossApplyLength(values.s, fns.s);
    if i < |fns.s| && j < |values.s| {
      CrossApplyAt(values.s, fns.s, i, j);
    }
  }

  /** `bind` keeps the values of each returned container together and in
      element order: the results of the first value come first. */
  lemma {:induction false} FlatMapAppend<T, U>(a: seq<T>, b: seq<T>, f: T -> Arr<U>)
    ensures FlatMap(a + b, f) == FlatMap(a, f) + FlatMap(b, f)
  {
    if |a| > 0 {
      assert (a + b)[1..] == a[1..] + b;
      FlatMapAppend(a[1..], b, f);
    } else {
      assert a + b == b;
    }
  }

  /** `[1, 2, 3]` mapped by `a => a + 1` is `[2, 3, 4]`. */
  lemma FmapExample()
    ensures Fmap(Arr([1, 2, 3]), a => a + 1) == Arr([2, 3, 4])
  {
  }

  /** `[1, 2, 3]` applied with `[a => a + 1, a => a * 2]` is `[2, 3, 4, 2, 4, 6]`. */
  lemma ApplyExample()
    ensures Apply(Arr([1, 2, 3]), Arr([a => a + 1, a => a * 2])) == Ok(Arr([2, 3, 4, 2, 4, 6]))
  {
    var fs: seq<int -> int> := [a => a + 1, a => a * 2];
    assert Fmap(Arr([1, 2, 3]), fs[0]).s == [2, 3, 4];
    assert Fmap(Arr([1, 2, 3]), fs[1]).s == [2, 4, 6];
    assert fs[1..][1..] == [];
    assert CrossApply([1, 2, 3], fs) == [2, 3, 4, 2, 4, 6];
  }

  /** `[1, 2, 3]` bound with `a => [a, a * 2]` is `[1, 2, 2, 4, 3, 6]`. */
  lemma BindExample()
    ensures Bind(Arr([1, 2, 3]), a => Arr([a, a * 2])) == Ok(Arr([1, 2, 2, 4, 3, 6]))
  {
    var s := [1, 2, 3];
    assert s[1..] == [2, 3] && s[1..][1..] == [3] && s[1..][1..][1..] == [];
    assert FlatMap(s, a => Arr([a, a * 2])) == [1, 2, 2, 4, 3, 6];
  }
}

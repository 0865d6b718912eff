/** The multi-value holder `MyArray`: an ordered sequence of values with the
    three helpers `concat`, `map` and `reduce` that the Array instance is
    built from. */
module MyArray {
  import opened JsValues

  datatype Arr<E> = Arr(s: seq<E>)

  /** `concat`: the values of `a` followed by those of `b`. */
  function Concat<E>(a: Arr<E>, b: Arr<E>): (r: Arr<E>)
    ensures |r.s| == |a.s| + |b.s|
    ensures r.s[..|a.s|] == a.s && r.s[|a.s|..] == b.s
  {
    Arr(a.s + b.s)
  }

  /** `map`: `f` applied to every value, in order. */
  function Map<E, F>(a: Arr<E>, f: E -> F): (r: Arr<F>)
    ensures |r.s| == |a.s|
    ensures forall i :: 0 <= i < |a.s| ==> r.s[i] == f(a.s[i])
  {
    Arr(seq(|a.s|, i requires 0 <= i < |a.s| => f(a.s[i])))
  }

  /** The left fold behind `Array.prototype.reduce`: `acc` is combined with
      every value of `rest`, from the left. */
  function FoldLeft<E>(f: (E, E) -> E, acc: E, rest: seq<E>): E
    decreases |rest|
  {
    if |rest| == 0 then acc else FoldLeft(f, f(acc, rest[0]), rest[1..])
  }

  /** `reduce`: a fold seeded with the first value (no initial value is
      passed), wrapped as a one-value container. An empty container throws. */
  function Reduce<E>(a: Arr<E>, f: (E, E) -> E): (r: Result<Arr<E>>)
    ensures r.Err? <==> |a.s| == 0
    ensures r.Err? ==> r.error == EmptyReduce
    ensures r.Ok? ==> |r.value.s| == 1
  {
    if |a.s| == 0 then Err(EmptyReduce)
    else Ok(Arr([FoldLeft(f, a.s[0], a.s[1..])]))
  }

  /** Reference definition: the values of all the containers, concatenated in order. */
  function Flatten<E>(cs: seq<Arr<E>>): seq<E>
  {
    if |cs| == 0 then [] else cs[0].s + Flatten(cs[1..])
  }

  /** Folding with `concat` from an accumulator appends every later container. */
  lemma {:induction false} FoldConcat<E>(acc: Arr<E>, rest: seq<Arr<E>>)
    ensures FoldLeft(Concat, acc, rest) == Arr(acc.s + Flatten(rest))
    decreases |rest|
  {
    if |rest| > 0 {
      FoldConcat(Concat(acc, rest[0]), rest[1..]);
      assert acc.s + rest[0].s + Flatten(rest[1..]) == acc.s + (rest[0].s + Flatten(rest[1..]));
    }
  }

  /** `reduce((a, v) => a.concat(v))` on a non-empty container of containers is
      the one container holding all their values in order; on an empty one it throws. */
  lemma ReduceConcat<E>(cs: seq<Arr<E>>)
    ensures |cs| > 0 ==> Reduce(Arr(cs), Concat) == Ok(Arr([Arr(Flatten(cs))]))
    ensures |cs| == 0 ==> Reduce(Arr(cs), Concat) == Err(EmptyReduce)
  {
    if |cs| > 0 {
      FoldConcat(cs[0], cs[1..]);
    }
  }
}

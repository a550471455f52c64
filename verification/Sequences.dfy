/** List comprehensions over one list. */
module Sequences {

  function Map<A, B>(f: A -> B, xs: seq<A>): (r: seq<B>)
    ensures |r| == |xs| && forall i | 0 <= i < |xs| :: r[i] == f(xs[i])
  {
    seq(|xs|, i requires 0 <= i < |xs| => f(xs[i]))
  }

  /** A loop that adds several elements for each element of a list. */
  function FlatMap<A, B>(f: A -> seq<B>, xs: seq<A>): seq<B> {
    if |xs| == 0 then [] else FlatMap(f, xs[..|xs| - 1]) + f(xs[|xs| - 1])
  }

  lemma {:induction false} FlatMapHas<A, B>(f: A -> seq<B>, xs: seq<A>, y: B)
    ensures y in FlatMap(f, xs) <==> exists x :: x in xs && y in f(x)
  {
    if |xs| > 0 {
      var front, last := xs[..|xs| - 1], xs[|xs| - 1];
      FlatMapHas(f, front, y);
      if x :| x in front && y in f(x) {
        assert x in xs;
      }
      if y in f(last) {
        assert last in xs;
      }
    }
  }

  /** `xs[:n]`. */
  function Take<T>(xs: seq<T>, n: nat): seq<T> { if |xs| <= n then xs else xs[..n] }
}

/** Python's `sorted`: a stable sort by a key, given as a comparison of the keys. */
module StableSorting {

  ghost predicate TotalPreorder<T(!new)>(leq: (T, T) -> bool) {
    && (forall a, b :: leq(a, b) || leq(b, a))
    && (forall a, b, c :: leq(a, b) && leq(b, c) ==> leq(a, c))
  }

  ghost predicate SortedBy<T>(leq: (T, T) -> bool, xs: seq<T>) {
    forall i, j | 0 <= i < j < |xs| :: leq(xs[i], xs[j])
  }

  /** No two members of `xs` at different positions tie on the key. */
  ghost predicate DistinctKeys<T>(leq: (T, T) -> bool, xs: seq<T>) {
    forall i, j | 0 <= i < |xs| && 0 <= j < |xs| && leq(xs[i], xs[j]) && leq(xs[j], xs[i]) :: xs[i] == xs[j]
  }

  /** Puts `x` after every element that does not have to follow it. */
  function Insert<T>(leq: (T, T) -> bool, x: T, xs: seq<T>): (r: seq<T>)
    ensures multiset(r) == multiset(xs) + multiset{x}
  {
    if |xs| == 0 || leq(xs[|xs| - 1], x) then
      xs + [x]
    else
      var r := Insert(leq, x, xs[..|xs| - 1]) + [xs[|xs| - 1]];
      assert xs == xs[..|xs| - 1] + [xs[|xs| - 1]];
      r
  }

  function Sort<T>(leq: (T, T) -> bool, xs: seq<T>): (r: seq<T>)
    ensures multiset(r) == multiset(xs) && |r| == |xs|
  {
    if |xs| == 0 then [] else
      var r := Insert(leq, xs[|xs| - 1], Sort(leq, xs[..|xs| - 1]));
      assert xs == xs[..|xs| - 1] + [xs[|xs| - 1]];
      assert |multiset(r)| == |r| && |multiset(xs)| == |xs|;
      r
  }

  lemma SameMembers<T>(xs: seq<T>, ys: seq<T>)
    requires multiset(xs) == multiset(ys)
    ensures |xs| == |ys|
    ensures forall x :: x in xs <==> x in ys
  {
    assert |multiset(xs)| == |xs| && |multiset(ys)| == |ys|;
    forall x ensures x in xs <==> x in ys {
      assert x in xs <==> x in multiset(xs);
      assert x in ys <==> x in multiset(ys);
    }
  }

  lemma {:induction false} InsertKeepsSorted<T(!new)>(leq: (T, T) -> bool, x: T, xs: seq<T>)
    requires TotalPreorder(leq) && SortedBy(leq, xs)
    ensures SortedBy(leq, Insert(leq, x, xs))
  {
    if |xs| == 0 {
    } else if leq(xs[|xs| - 1], x) {
      forall i | 0 <= i < |xs| ensures leq(xs[i], x) {
        assert leq(xs[i], xs[|xs| - 1]);
      }
    } else {
      var front, last := xs[..|xs| - 1], xs[|xs| - 1];
      InsertKeepsSorted(leq, x, front);
      var r := Insert(leq, x, front);
      SameMembers(r, front + [x]);
      forall i | 0 <= i < |r| ensures leq(r[i], last) {
        assert r[i] in front + [x];
        assert r[i] in front || r[i] == x;
      }
    }
  }

  lemma {:induction false} SortSorts<T(!new)>(leq: (T, T) -> bool, xs: seq<T>)
    requires TotalPreorder(leq)
    ensures SortedBy(leq, Sort(leq, xs))
  {
    if |xs| > 0 {
      SortSorts(leq, xs[..|xs| - 1]);
      InsertKeepsSorted(leq, xs[|xs| - 1], Sort(leq, xs[..|xs| - 1]));
    }
  }

  lemma LastsAgree<T(!new)>(leq: (T, T) -> bool, xs: seq<T>, ys: seq<T>)
    requires forall a :: leq(a, a)
    requires DistinctKeys(leq, xs) && SortedBy(leq, xs) && SortedBy(leq, ys)
    requires multiset(xs) == multiset(ys) && |xs| == |ys| > 0
    ensures xs[|xs| - 1] == ys[|ys| - 1]
  {
    SameMembers(xs, ys);
    var n := |xs| - 1;
    assert xs[n] in xs && ys[n] in ys;
    var i :| 0 <= i < |ys| && ys[i] == xs[n];
    var j :| 0 <= j < |xs| && xs[j] == ys[n];
    assert leq(xs[n], xs[j]) by { assert i == n || leq(ys[i], ys[n]); }
    assert leq(xs[j], xs[n]) by { assert j == n || leq(xs[j], xs[n]); }
  }

  lemma PrefixSorted<T>(leq: (T, T) -> bool, xs: seq<T>, n: nat)
    requires n <= |xs|
    ensures SortedBy(leq, xs) ==> SortedBy(leq, xs[..n])
    ensures DistinctKeys(leq, xs) ==> DistinctKeys(leq, xs[..n])
  {
  }

  lemma DropLastMultiset<T>(xs: seq<T>)
    requires |xs| > 0
    ensures multiset(xs[..|xs| - 1]) == multiset(xs) - multiset{xs[|xs| - 1]}
  {
    assert xs == xs[..|xs| - 1] + [xs[|xs| - 1]];
  }

  /** A sorted arrangement is unique when no two different members tie. */
  lemma {:induction false} SortedIsUnique<T(!new)>(leq: (T, T) -> bool, xs: seq<T>, ys: seq<T>)
    requires forall a :: leq(a, a)
    requires DistinctKeys(leq, xs)
    requires SortedBy(leq, xs) && SortedBy(leq, ys) && multiset(xs) == multiset(ys)
    ensures xs == ys
  {
    hide SortedBy, DistinctKeys;
    SameMembers(xs, ys);
    if |xs| > 0 {
      var n := |xs| - 1;
      LastsAgree(leq, xs, ys);
      DropLastMultiset(xs);
      DropLastMultiset(ys);
      PrefixSorted(leq, xs, n);
      PrefixSorted(leq, ys, n);
      SortedIsUnique(leq, xs[..n], ys[..n]);
      assert xs == xs[..n] + [xs[n]] && ys == ys[..n] + [ys[n]];
    }
  }

  /** Sorting forgets the order of its input when no two different members tie. */
  lemma SortForgetsOrder<T(!new)>(leq: (T, T) -> bool, xs: seq<T>, ys: seq<T>)
    requires TotalPreorder(leq) && DistinctKeys(leq, xs) && multiset(xs) == multiset(ys)
    ensures Sort(leq, xs) == Sort(leq, ys)
  {
    var a, b := Sort(leq, xs), Sort(leq, ys);
    SortSorts(leq, xs);
    SortSorts(leq, ys);
    SameMembers(a, xs);
    forall i, j | 0 <= i < |a| && 0 <= j < |a| && leq(a[i], a[j]) && leq(a[j], a[i])
      ensures a[i] == a[j]
    {
      assert a[i] in xs && a[j] in xs;
    }
    SortedIsUnique(leq, a, b);
  }

  /** A key that no other element ties with decides the position, so equal keys keep their
      input order: the sort is stable. */
  lemma {:induction false} SortIsStable<T(!new)>(leq: (T, T) -> bool, xs: seq<T>, x: T)
    requires TotalPreorder(leq)
    ensures Ties(leq, Sort(leq, xs), x) == Ties(leq, xs, x)
  {
    if |xs| > 0 {
      var front, last := xs[..|xs| - 1], xs[|xs| - 1];
      assert xs == front + [last];
      SortIsStable(leq, front, x);
      InsertKeepsTies(leq, last, Sort(leq, front), x);
      TiesAppend(leq, front, [last], x);
    }
  }

  ghost function Ties<T>(leq: (T, T) -> bool, xs: seq<T>, x: T): seq<T> {
    if |xs| == 0 then [] else
      Ties(leq, xs[..|xs| - 1], x)
      + if leq(xs[|xs| - 1], x) && leq(x, xs[|xs| - 1]) then [xs[|xs| - 1]] else []
  }

  lemma {:induction false} TiesAppend<T>(leq: (T, T) -> bool, xs: seq<T>, ys: seq<T>, x: T)
    ensures Ties(leq, xs + ys, x) == Ties(leq, xs, x) + Ties(leq, ys, x)
  {
    if |ys| == 0 {
      assert xs + ys == xs;
    } else {
      TiesAppend(leq, xs, ys[..|ys| - 1], x);
      assert (xs + ys)[..|xs + ys| - 1] == xs + ys[..|ys| - 1];
    }
  }

  lemma {:induction false} InsertKeepsTies<T(!new)>(leq: (T, T) -> bool, y: T, xs: seq<T>, x: T)
    requires TotalPreorder(leq)
    ensures Ties(leq, Insert(leq, y, xs), x) == Ties(leq, xs + [y], x)
  {
    if |xs| > 0 && !leq(xs[|xs| - 1], y) {
      var front, last := xs[..|xs| - 1], xs[|xs| - 1];
      InsertKeepsTies(leq, y, front, x);
      assert xs == front + [last];
      TiesAppend(leq, front, [last], x);
      TiesAppend(leq, front, [y], x);
      TiesAppend(leq, xs, [y], x);
      TiesAppend(leq, Insert(leq, y, front), [last], x);
    }
  }
}

/** What a limit keeps of a sorted list: when the first elements depend on the elements only, and when
    on how equal keys were arranged. */
module SortedPrefixes {
  import opened StableSorting

  /** A limit of `n` keeps one of two different elements that tie and drops the other. */
  ghost predicate SplitsTie<T(!new)>(leq: (T, T) -> bool, xs: seq<T>, n: nat) {
    exists i, j | 0 <= i < n <= j < |xs| :: leq(xs[j], xs[i]) && xs[i] != xs[j]
  }

  lemma PartsOf<T>(xs: seq<T>, n: nat)
    requires n <= |xs|
    ensures multiset(xs) == multiset(xs[..n]) + multiset(xs[n..])
  {
    assert xs == xs[..n] + xs[n..];
  }

  lemma SmallerPart<T>(xs: seq<T>, ys: seq<T>)
    requires multiset(xs) <= multiset(ys)
    ensures |xs| <= |ys|
  {
    var a, b := multiset(xs), multiset(ys);
    assert b == a + (b - a);
    assert |a| == |xs| && |b| == |ys|;
  }

  /** Two sorted arrangements of the same elements have tied elements in each position. */
  lemma NotBefore<T(!new)>(leq: (T, T) -> bool, xs: seq<T>, ys: seq<T>, i: nat)
    requires TotalPreorder(leq) && SortedBy(leq, xs) && SortedBy(leq, ys)
    requires multiset(xs) == multiset(ys) && i < |xs| == |ys|
    ensures leq(ys[i], xs[i])
  {
    if !leq(ys[i], xs[i]) {
      var few, many := ys[..i], xs[..i + 1];
      PartsOf(xs, i + 1);
      PartsOf(ys, i);
      forall e ensures multiset(many)[e] <= multiset(few)[e] {
        if e in multiset(many) && e in multiset(ys[i..]) {
          BoundedByEnds(leq, xs, ys, i, e);
        } else {
          assert multiset(many)[e] <= multiset(xs)[e] == multiset(ys)[e];
          assert multiset(ys)[e] == multiset(few)[e] + multiset(ys[i..])[e];
        }
      }
      SmallerPart(many, few);
    }
  }

  lemma BoundedByEnds<T(!new)>(leq: (T, T) -> bool, xs: seq<T>, ys: seq<T>, i: nat, e: T)
    requires TotalPreorder(leq) && SortedBy(leq, xs) && SortedBy(leq, ys) && i < |xs| == |ys|
    requires e in multiset(xs[..i + 1]) && e in multiset(ys[i..])
    ensures leq(ys[i], xs[i])
  {
    assert e in xs[..i + 1] && e in ys[i..];
    var j :| 0 <= j <= i && xs[j] == e;
    var m :| i <= m < |ys| && ys[m] == e;
    assert leq(xs[j], xs[i]) && leq(ys[i], ys[m]);
  }

  /** How often an element other than the last kept one is kept. */
  lemma KeptCount<T(!new)>(leq: (T, T) -> bool, xs: seq<T>, ys: seq<T>, n: nat, s: T)
    requires TotalPreorder(leq) && SortedBy(leq, xs) && SortedBy(leq, ys)
    requires multiset(xs) == multiset(ys) && 0 < n < |xs| == |ys|
    requires !SplitsTie(leq, xs, n) && s != xs[n - 1]
    ensures multiset(ys[..n])[s] == if leq(s, xs[n - 1]) then multiset(xs)[s] else 0
  {
    NotBefore(leq, xs, ys, n - 1);
    NotBefore(leq, ys, xs, n);
    PartsOf(ys, n);
    if s in ys[..n] {
      var i :| 0 <= i < n && ys[i] == s;
      assert i == n - 1 || leq(ys[i], ys[n - 1]);
      assert leq(s, xs[n - 1]);
    }
    if s in ys[n..] && leq(s, xs[n - 1]) {
      var j :| n <= j < |ys| && ys[j] == s;
      assert j == n || leq(ys[n], ys[j]);
      assert leq(xs[n], s);
      AtTheCut(leq, xs, n, s);
      SameMembers(xs, ys);
    }
    assert s in multiset(ys[..n]) <==> s in ys[..n];
    assert s in multiset(ys[n..]) <==> s in ys[n..];
  }

  lemma AtTheCut<T(!new)>(leq: (T, T) -> bool, xs: seq<T>, n: nat, s: T)
    requires TotalPreorder(leq) && SortedBy(leq, xs) && 0 < n < |xs| && !SplitsTie(leq, xs, n)
    requires leq(xs[n], s) && leq(s, xs[n - 1]) && s != xs[n - 1]
    ensures s !in xs
  {
  }

  lemma EqualButForOne<T>(a: multiset<T>, b: multiset<T>, v: T)
    requires |a| == |b| && forall s | s != v :: a[s] == b[s]
    ensures a == b
  {
    assert a[v := 0] == b[v := 0];
    assert |a[v := 0]| == |a| - a[v] && |b[v := 0]| == |b| - b[v];
  }

  /** What a limit keeps does not depend on the arrangement of ties, unless it splits one. */
  lemma KeptForgetsOrder<T(!new)>(leq: (T, T) -> bool, xs: seq<T>, ys: seq<T>, n: nat)
    requires TotalPreorder(leq) && SortedBy(leq, xs) && SortedBy(leq, ys)
    requires multiset(xs) == multiset(ys) && n <= |xs| == |ys| && !SplitsTie(leq, xs, n)
    ensures multiset(xs[..n]) == multiset(ys[..n])
  {
    if n == |xs| {
      assert xs[..n] == xs && ys[..n] == ys;
    } else if n > 0 {
      hide SplitsTie, SortedBy, TotalPreorder;
      forall s | s != xs[n - 1] ensures multiset(xs[..n])[s] == multiset(ys[..n])[s] {
        KeptCount(leq, xs, ys, n, s);
        KeptCount(leq, xs, xs, n, s);
      }
      assert |multiset(xs[..n])| == n && |multiset(ys[..n])| == n;
      EqualButForOne(multiset(xs[..n]), multiset(ys[..n]), xs[n - 1]);
    }
  }

  /** Exchanging two elements that tie gives another sorted arrangement. */
  lemma SwapKeepsSorted<T(!new)>(leq: (T, T) -> bool, xs: seq<T>, i: nat, j: nat)
    requires TotalPreorder(leq) && SortedBy(leq, xs) && i < j < |xs| && leq(xs[j], xs[i])
    ensures SortedBy(leq, Swapped(xs, i, j))
  {
    var ys := Swapped(xs, i, j);
    forall a, b | 0 <= a < b < |ys| ensures leq(ys[a], ys[b]) {
      forall m | 0 <= m < |xs| ensures leq(ys[m], xs[m]) && leq(xs[m], ys[m]) {
        assert leq(xs[i], xs[j]) && leq(xs[m], xs[m]);
      }
      assert leq(ys[a], xs[a]) && leq(xs[a], xs[b]) && leq(xs[b], ys[b]);
    }
  }

  function Swapped<T>(xs: seq<T>, i: nat, j: nat): (ys: seq<T>)
    requires i < j < |xs|
    ensures multiset(ys) == multiset(xs)
  {
    xs[i := xs[j]][j := xs[i]]
  }

  lemma SwapChangesKept<T>(xs: seq<T>, i: nat, j: nat, n: nat)
    requires i < n <= j < |xs| && xs[i] != xs[j]
    ensures multiset(Swapped(xs, i, j)[..n])[xs[j]] == multiset(xs[..n])[xs[j]] + 1
    ensures multiset(Swapped(xs, i, j)[..n])[xs[i]] == multiset(xs[..n])[xs[i]] - 1
  {
    assert Swapped(xs, i, j)[..n] == xs[..n][i := xs[j]];
  }

  lemma InsertLast<T>(leq: (T, T) -> bool, x: T, xs: seq<T>)
    requires |xs| > 0 ==> leq(xs[|xs| - 1], x)
    ensures Insert(leq, x, xs) == xs + [x]
  {
  }

  lemma {:induction false} SortOfSorted<T(!new)>(leq: (T, T) -> bool, xs: seq<T>)
    requires SortedBy(leq, xs)
    ensures Sort(leq, xs) == xs
  {
    if |xs| > 0 {
      var front, last := xs[..|xs| - 1], xs[|xs| - 1];
      assert |front| > 0 ==> leq(front[|front| - 1], last);
      PrefixSorted(leq, xs, |xs| - 1);
      hide SortedBy, Insert;
      SortOfSorted(leq, front);
      InsertLast(leq, last, front);
      assert xs == front + [last];
    }
  }
}

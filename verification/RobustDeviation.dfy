/** The median, the median absolute deviation and the robust score of a SAR baseline. */
module RobustDeviation {
  import opened Wrappers
  import opened StableSorting
  import opened Rounding
  import opened Sequences

  const MAD_EPSILON: real := 0.000001
  const ROBUST_Z_SCALE: real := 0.67448975

  datatype Deviation = Deviation(current: real, center: real, mad: real, score: Option<real>)

  function Ascending(): (real, real) -> bool { (a: real, b: real) => a <= b }

  function Sorted(xs: seq<real>): seq<real> { Sort(Ascending(), xs) }

  function Middle(s: seq<real>): real
    requires |s| > 0
  {
    var n := |s|;
    if n % 2 == 1 then s[n / 2] else (s[n / 2 - 1] + s[n / 2]) / 2.0
  }

  /** `statistics.median`. */
  function Median(xs: seq<real>): real
    requires |xs| > 0
  {
    Middle(Sorted(xs))
  }

  function Deviations(xs: seq<real>, center: real): seq<real> {
    Map((x: real) => Abs(x - center), xs)
  }

  function Mad(xs: seq<real>): real
    requires |xs| > 0
  {
    Median(Deviations(xs, Median(xs)))
  }

  /** `_robust_deviation`. */
  function RobustDeviationOf(current: real, baseline: seq<real>): Deviation
    requires |baseline| > 0
  {
    var center := Median(baseline);
    var spread := Mad(baseline);
    Deviation(current, center, spread, Score(current - center, spread))
  }

  function Score(distance: real, spread: real): Option<real> {
    if spread <= MAD_EPSILON then None else Some(ROBUST_Z_SCALE * distance / spread)
  }

  // ---- What the numbers mean ----

  ghost predicate Arranged(s: seq<real>, xs: seq<real>) {
    multiset(s) == multiset(xs) && forall i, j | 0 <= i <= j < |s| :: s[i] <= s[j]
  }

  /** In ascending order the middle value, or the mean of the two middle values. */
  ghost predicate IsMedian(m: real, xs: seq<real>) {
    exists s :: Arranged(s, xs) && |s| > 0
                && if |s| % 2 == 1 then m == s[|s| / 2] else m + m == s[|s| / 2 - 1] + s[|s| / 2]
  }

  lemma MedianMeans(xs: seq<real>)
    requires |xs| > 0
    ensures IsMedian(Median(xs), xs)
  {
    hide Sort;
    AscendingIsTotal(xs);
    SortSorts(Ascending(), xs);
    var s := Sorted(xs);
    forall i, j | 0 <= i <= j < |s| ensures s[i] <= s[j] {
      assert i == j || Ascending()(s[i], s[j]);
    }
    assert Arranged(s, xs);
  }

  /** There is only one median. */
  lemma MedianIsUnique(m: real, n: real, xs: seq<real>)
    requires IsMedian(m, xs) && IsMedian(n, xs)
    ensures m == n
  {
    var s :| Arranged(s, xs) && |s| > 0
             && if |s| % 2 == 1 then m == s[|s| / 2] else m + m == s[|s| / 2 - 1] + s[|s| / 2];
    var t :| Arranged(t, xs) && |t| > 0
             && if |t| % 2 == 1 then n == t[|t| / 2] else n + n == t[|t| / 2 - 1] + t[|t| / 2];
    AscendingIsTotal(s);
    SortedIsUnique(Ascending(), s, t);
  }

  /** The median of the distances from a centre. */
  ghost predicate IsSpread(m: real, center: real, xs: seq<real>) {
    exists ds :: IsMedian(m, ds) && AreDistances(ds, center, xs)
  }

  ghost predicate AreDistances(ds: seq<real>, center: real, xs: seq<real>) {
    |ds| == |xs| && forall i | 0 <= i < |xs| :: ds[i] == if xs[i] < center then center - xs[i] else xs[i] - center
  }

  /** What a deviation says: its centre is the median of the values, its spread the median of their
      distances from it, and there is a score exactly when the spread exceeds a millionth; the score
      times the spread is then 0.67448975 times the distance of the current value above the centre. */
  ghost predicate IsDeviation(d: Deviation, current: real, xs: seq<real>) {
    && d.current == current && IsMedian(d.center, xs) && IsSpread(d.mad, d.center, xs)
    && (d.score.Some? <==> d.mad > 0.000001)
    && (d.score.Some? ==> d.score.value * d.mad == 0.67448975 * (current - d.center))
  }

  lemma DeviationMeans(current: real, xs: seq<real>)
    requires |xs| > 0
    ensures IsDeviation(RobustDeviationOf(current, xs), current, xs)
  {
    hide Median, IsMedian, IsSpread, Score;
    var d := RobustDeviationOf(current, xs);
    MedianMeans(xs);
    SpreadMeans(xs);
    ScoreMeans(current - d.center, d.mad);
  }

  lemma SpreadMeans(xs: seq<real>)
    requires |xs| > 0
    ensures IsSpread(Mad(xs), Median(xs), xs)
  {
    hide Median, IsMedian;
    var ds := Deviations(xs, Median(xs));
    MedianMeans(ds);
    DistancesAre(xs, Median(xs));
  }

  lemma DistancesAre(xs: seq<real>, center: real)
    ensures AreDistances(Deviations(xs, center), center, xs)
  {
    forall i | 0 <= i < |xs|
      ensures Deviations(xs, center)[i] == if xs[i] < center then center - xs[i] else xs[i] - center
    {
      assert Deviations(xs, center)[i] == Abs(xs[i] - center);
    }
  }

  lemma ScoreMeans(distance: real, spread: real)
    ensures Score(distance, spread).Some? <==> spread > 0.000001
    ensures Score(distance, spread).Some? ==> Score(distance, spread).value * spread == 0.67448975 * distance
  {
    if spread > 0.000001 {
      Quotient(ROBUST_Z_SCALE * distance, spread, Score(distance, spread).value);
    }
  }

  /** The score has the sign of the current value's distance above the median: a rise is positive. */
  lemma ScoreSign(d: Deviation, current: real, xs: seq<real>)
    requires IsDeviation(d, current, xs) && d.score.Some?
    ensures d.score.value > 0.0 <==> current > d.center
    ensures d.score.value == 0.0 <==> current == d.center
  {
    hide IsMedian, IsSpread;
    assert d.score.value > 0.0 ==> d.score.value * d.mad > 0.0;
    assert d.score.value < 0.0 ==> (0.0 - d.score.value) * d.mad > 0.0;
  }

  // ---- Order of the baseline ----

  lemma AscendingIsTotal(xs: seq<real>)
    ensures TotalPreorder(Ascending()) && DistinctKeys(Ascending(), xs)
  {
  }

  lemma MedianForgetsOrder(xs: seq<real>, ys: seq<real>)
    requires multiset(xs) == multiset(ys)
    ensures Sorted(xs) == Sorted(ys)
  {
    AscendingIsTotal(xs);
    SortForgetsOrder(Ascending(), xs, ys);
  }

  lemma {:induction false} MapInsert(f: real -> real, x: real, xs: seq<real>)
    ensures multiset(Map(f, Insert(Ascending(), x, xs))) == multiset(Map(f, xs)) + multiset{f(x)}
  {
    if |xs| == 0 || xs[|xs| - 1] <= x {
      assert Map(f, xs + [x]) == Map(f, xs) + [f(x)];
    } else {
      var front, last := xs[..|xs| - 1], xs[|xs| - 1];
      MapInsert(f, x, front);
      assert Map(f, Insert(Ascending(), x, front) + [last]) == Map(f, Insert(Ascending(), x, front)) + [f(last)];
      assert Map(f, xs) == Map(f, front) + [f(last)];
    }
  }

  lemma {:induction false} MapSorted(f: real -> real, xs: seq<real>)
    ensures multiset(Map(f, Sorted(xs))) == multiset(Map(f, xs))
  {
    if |xs| > 0 {
      MapSorted(f, xs[..|xs| - 1]);
      MapInsert(f, xs[|xs| - 1], Sorted(xs[..|xs| - 1]));
      assert Map(f, xs) == Map(f, xs[..|xs| - 1]) + [f(xs[|xs| - 1])];
    }
  }

  /** The whole result does not depend on the order of the baseline. */
  lemma OrderDoesNotMatter(current: real, xs: seq<real>, ys: seq<real>)
    requires |xs| > 0 && multiset(xs) == multiset(ys)
    ensures |ys| > 0 && RobustDeviationOf(current, xs) == RobustDeviationOf(current, ys)
  {
    SameMembers(xs, ys);
    MedianForgetsOrder(xs, ys);
    var center := Median(xs);
    MapSorted((x: real) => Abs(x - center), xs);
    MapSorted((x: real) => Abs(x - center), ys);
    MedianForgetsOrder(Deviations(xs, center), Deviations(ys, center));
  }

  // ---- Shifting and scaling ----

  ghost predicate Increasing(f: real -> real) {
    forall a, b :: a <= b <==> f(a) <= f(b)
  }

  lemma IncreasingAt(f: real -> real, a: real, b: real)
    requires Increasing(f)
    ensures a <= b <==> f(a) <= f(b)
  {
  }

  lemma MapAppend(f: real -> real, xs: seq<real>, x: real)
    ensures Map(f, xs + [x]) == Map(f, xs) + [f(x)]
  {
  }

  lemma {:induction false} InsertCommutes(f: real -> real, x: real, xs: seq<real>)
    requires Increasing(f)
    ensures Insert(Ascending(), f(x), Map(f, xs)) == Map(f, Insert(Ascending(), x, xs))
  {
    hide Increasing, Map;
    if |xs| == 0 {
      MapAppend(f, xs, x);
    } else {
      var front, last := xs[..|xs| - 1], xs[|xs| - 1];
      assert xs == front + [last];
      MapAppend(f, front, last);
      IncreasingAt(f, last, x);
      if last <= x {
        MapAppend(f, xs, x);
      } else {
        InsertCommutes(f, x, front);
        MapAppend(f, Insert(Ascending(), x, front), last);
        assert Map(f, xs)[..|xs| - 1] == Map(f, front);
      }
    }
  }

  lemma {:induction false} SortCommutes(f: real -> real, xs: seq<real>)
    requires Increasing(f)
    ensures Sorted(Map(f, xs)) == Map(f, Sorted(xs))
  {
    hide Increasing, Map, Insert;
    if |xs| > 0 {
      var front, last := xs[..|xs| - 1], xs[|xs| - 1];
      assert xs == front + [last];
      MapAppend(f, front, last);
      SortCommutes(f, front);
      InsertCommutes(f, last, Sorted(front));
      assert Map(f, xs)[..|xs| - 1] == Map(f, front);
    }
  }

  /** Scaling by `a` and shifting by `c`. */
  function Affine(a: real, c: real): real -> real { (x: real) => AffineAt(a, c, x) }

  function AffineAt(a: real, c: real, x: real): real { a * x + c }

  lemma AffineDifference(a: real, c: real, x: real, y: real)
    ensures AffineAt(a, c, x) - AffineAt(a, c, y) == a * (x - y)
  {
  }

  lemma AffineIncreases(a: real, c: real)
    requires a > 0.0
    ensures Increasing(Affine(a, c))
  {
  }

  lemma AffineMidpoint(a: real, c: real, u: real, v: real)
    ensures (AffineAt(a, c, u) + AffineAt(a, c, v)) / 2.0 == AffineAt(a, c, (u + v) / 2.0)
  {
  }

  /** The median commutes with every increasing affine map. */
  lemma MedianAffine(xs: seq<real>, a: real, c: real)
    requires |xs| > 0 && a > 0.0
    ensures Median(Map(Affine(a, c), xs)) == AffineAt(a, c, Median(xs))
  {
    AffineIncreases(a, c);
    SortCommutes(Affine(a, c), xs);
    var s := Sorted(xs);
    if |s| % 2 == 0 {
      AffineMidpoint(a, c, s[|s| / 2 - 1], s[|s| / 2]);
    }
  }

  lemma AbsScales(a: real, x: real)
    requires a > 0.0
    ensures Abs(a * x) == a * Abs(x)
  {
  }

  lemma DeviationsAffine(xs: seq<real>, a: real, c: real, m: real)
    requires a > 0.0
    ensures Deviations(Map(Affine(a, c), xs), AffineAt(a, c, m)) == Map(Affine(a, 0.0), Deviations(xs, m))
  {
    var left := Deviations(Map(Affine(a, c), xs), AffineAt(a, c, m));
    var right := Map(Affine(a, 0.0), Deviations(xs, m));
    forall i | 0 <= i < |xs| ensures left[i] == right[i] {
      AffineDifference(a, c, xs[i], m);
      AbsScales(a, xs[i] - m);
      assert left[i] == Abs(a * (xs[i] - m));
      assert right[i] == AffineAt(a, 0.0, Abs(xs[i] - m)) == a * Abs(xs[i] - m);
    }
  }

  lemma MadAffine(xs: seq<real>, a: real, c: real)
    requires |xs| > 0 && a > 0.0
    ensures Mad(Map(Affine(a, c), xs)) == AffineAt(a, 0.0, Mad(xs))
  {
    MedianAffine(xs, a, c);
    DeviationsAffine(xs, a, c, Median(xs));
    MedianAffine(Deviations(xs, Median(xs)), a, 0.0);
  }

  lemma MapsAgree(f: real -> real, g: real -> real, xs: seq<real>)
    requires forall x :: f(x) == g(x)
    ensures Map(f, xs) == Map(g, xs)
  {
    forall i | 0 <= i < |xs| ensures Map(f, xs)[i] == Map(g, xs)[i] {
      var x := xs[i];
      assert f(x) == g(x);
    }
  }

  lemma ShiftIsAffine(c: real, xs: seq<real>)
    ensures Map((x: real) => x + c, xs) == Map(Affine(1.0, c), xs)
    ensures forall x :: AffineAt(1.0, c, x) == x + c && AffineAt(1.0, 0.0, x) == x
  {
    MapsAgree((x: real) => x + c, Affine(1.0, c), xs);
  }

  /** Adding a constant to the current value and to every baseline value shifts the centre and
      leaves the spread and the score alone. */
  lemma ShiftKeepsScore(current: real, xs: seq<real>, c: real)
    requires |xs| > 0
    ensures var before := RobustDeviationOf(current, xs);
            var after := RobustDeviationOf(current + c, Map((x: real) => x + c, xs));
            && after.center == before.center + c && after.mad == before.mad && after.score == before.score
  {
    hide Score, Median, Mad, Affine, Map;
    ShiftIsAffine(c, xs);
    MedianAffine(xs, 1.0, c);
    MadAffine(xs, 1.0, c);
  }

  /** Scaling by a positive factor scales centre and spread; the score survives exactly when the
      two spreads fall on the same side of the epsilon. */
  lemma ScaleKeepsScore(current: real, xs: seq<real>, a: real)
    requires |xs| > 0 && a > 0.0
    ensures var before := RobustDeviationOf(current, xs);
            var after := RobustDeviationOf(AffineAt(a, 0.0, current), Map(Affine(a, 0.0), xs));
            && after.center == AffineAt(a, 0.0, before.center) && after.mad == AffineAt(a, 0.0, before.mad)
            && (after.score == before.score <==> (before.mad <= MAD_EPSILON <==> after.mad <= MAD_EPSILON))
  {
    hide AffineAt, Score, Median, Mad;
    MedianAffine(xs, a, 0.0);
    MadAffine(xs, a, 0.0);
    AffineDifference(a, 0.0, current, Median(xs));
    SameSideSameScore(current - Median(xs), AffineAt(a, 0.0, current) - AffineAt(a, 0.0, Median(xs)), Mad(xs), a);
  }

  lemma ScoreScales(d: real, s: real, a: real)
    requires s > 0.0 && a > 0.0
    ensures ROBUST_Z_SCALE * (a * d) / (a * s) == ROBUST_Z_SCALE * d / s
    ensures s > MAD_EPSILON && a * s > MAD_EPSILON ==> Score(a * d, a * s) == Score(d, s)
  {
  }

  lemma SameSideSameScore(d: real, scaled: real, s: real, a: real)
    requires a > 0.0 && scaled == a * d
    ensures Score(scaled, AffineAt(a, 0.0, s)) == Score(d, s)
            <==> (s <= MAD_EPSILON <==> AffineAt(a, 0.0, s) <= MAD_EPSILON)
  {
    if s > MAD_EPSILON && a * s > MAD_EPSILON {
      ScoreScales(d, s, a);
    }
  }

  // ---- Breakdown point ----

  function CountIf(p: real -> bool, xs: seq<real>): nat {
    if |xs| == 0 then 0 else CountIf(p, xs[..|xs| - 1]) + if p(xs[|xs| - 1]) then 1 else 0
  }

  lemma CountAppend(p: real -> bool, xs: seq<real>, x: real)
    ensures CountIf(p, xs + [x]) == CountIf(p, xs) + if p(x) then 1 else 0
  {
    assert (xs + [x])[..|xs|] == xs;
  }

  lemma {:induction false} InsertCounts(p: real -> bool, x: real, xs: seq<real>)
    ensures CountIf(p, Insert(Ascending(), x, xs)) == CountIf(p, xs) + if p(x) then 1 else 0
  {
    hide CountIf;
    if |xs| == 0 || xs[|xs| - 1] <= x {
      CountAppend(p, xs, x);
    } else {
      var front, last := xs[..|xs| - 1], xs[|xs| - 1];
      InsertCounts(p, x, front);
      CountAppend(p, Insert(Ascending(), x, front), last);
      CountAppend(p, front, last);
      assert xs == front + [last];
    }
  }

  lemma {:induction false} SortCounts(p: real -> bool, xs: seq<real>)
    ensures CountIf(p, Sorted(xs)) == CountIf(p, xs)
  {
    if |xs| > 0 {
      SortCounts(p, xs[..|xs| - 1]);
      InsertCounts(p, xs[|xs| - 1], Sorted(xs[..|xs| - 1]));
    }
  }

  /** At most the first `k` values satisfy `p`, or at most all but the first `k`. */
  lemma {:induction false} CountPrefix(p: real -> bool, s: seq<real>, k: nat)
    requires k <= |s|
    ensures (forall i | k <= i < |s| :: !p(s[i])) ==> CountIf(p, s) <= k
    ensures (forall i | 0 <= i < k :: !p(s[i])) ==> CountIf(p, s) <= |s| - k
  {
    if |s| > 0 {
      var front := s[..|s| - 1];
      CountPrefix(p, front, if k < |s| then k else k - 1);
    }
  }

  function Within(low: real, high: real): real -> bool { (x: real) => low <= x <= high }

  /** In a sorted list a value above the interval has only values above it behind it, and a value
      below it only values below it before it. */
  lemma OutsideHalf(s: seq<real>, i: nat, low: real, high: real)
    requires SortedBy(Ascending(), s) && i < |s|
    ensures s[i] > high ==> CountIf(Within(low, high), s) <= i
    ensures s[i] < low ==> CountIf(Within(low, high), s) <= |s| - (i + 1)
  {
    hide CountIf;
    forall j | 0 <= j < |s|
      ensures j >= i ==> s[i] <= s[j]
      ensures j <= i ==> s[j] <= s[i]
    {
      assert j > i ==> Ascending()(s[i], s[j]);
      assert j < i ==> Ascending()(s[j], s[i]);
    }
    CountPrefix(Within(low, high), s, i);
    CountPrefix(Within(low, high), s, i + 1);
  }

  /** When more than half of the values lie in an interval, so does the median. */
  lemma MajorityHoldsMedian(xs: seq<real>, low: real, high: real)
    requires |xs| > 0 && 2 * CountIf(Within(low, high), xs) > |xs|
    ensures low <= Median(xs) <= high
  {
    hide CountIf, Within, Sort;
    var s := Sorted(xs);
    AscendingIsTotal(xs);
    SortSorts(Ascending(), xs);
    SortCounts(Within(low, high), xs);
    var h := |s| / 2;
    var l := if |s| % 2 == 1 then h else h - 1;
    OutsideHalf(s, h, low, high);
    OutsideHalf(s, l, low, high);
    assert l == h || Ascending()(s[l], s[h]);
  }

  function CountChanged(xs: seq<real>, ys: seq<real>): nat
    requires |xs| == |ys|
  {
    if |xs| == 0 then 0 else
      CountChanged(xs[..|xs| - 1], ys[..|ys| - 1]) + if xs[|xs| - 1] != ys[|ys| - 1] then 1 else 0
  }

  lemma {:induction false} UntouchedCount(xs: seq<real>, ys: seq<real>, p: real -> bool)
    requires |xs| == |ys|
    requires forall i | 0 <= i < |xs| && xs[i] == ys[i] :: p(xs[i])
    ensures CountIf(p, ys) >= |xs| - CountChanged(xs, ys)
  {
    if |xs| > 0 {
      UntouchedCount(xs[..|xs| - 1], ys[..|ys| - 1], p);
    }
  }

  /** Replacing fewer than half of the baseline by anything at all keeps the centre within the
      range of the values left alone. */
  lemma OutliersCannotMoveCentre(current: real, xs: seq<real>, ys: seq<real>, low: real, high: real)
    requires |xs| == |ys| > 0 && 2 * CountChanged(xs, ys) < |xs|
    requires forall i | 0 <= i < |xs| && xs[i] == ys[i] :: low <= xs[i] <= high
    ensures low <= RobustDeviationOf(current, ys).center <= high
  {
    UntouchedCount(xs, ys, Within(low, high));
    MajorityHoldsMedian(ys, low, high);
  }
}

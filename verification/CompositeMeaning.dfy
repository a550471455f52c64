/** What a caller of the composite builder may rely on, in terms of the scenes and the AOI alone: which
    scene a pixel shows, what each metric counts, and when a build fails. */
module CompositeMeaning {
  import opened Wrappers
  import opened Rounding
  import opened PixelGrid
  import opened StableSorting
  import opened Composite
  import opened CompositeLaws

  /** What a successful build promises about its arrays and metrics. */
  ghost predicate Built(scenes: seq<Scene>, aoi: Grid<bool>, a: CompositeArrays)
    reads a.analytic, a.mask, a.source
  {
    && |scenes| > 0 && a.scenes == SortedScenes(scenes)
    && HoldsComposite(a.scenes, aoi, a.scenes[0].bands, a.analytic, a.mask, a.source)
    && a.metrics == MetricsOf(aoi, Freeze(a.mask))
  }

  /** The mask classes that cover a pixel, and those that make it usable. */
  predicate Covered(s: Scene, r: nat, c: nat) { s.mask.cell(r, c) != 0 }

  predicate Clear(s: Scene, r: nat, c: nat) { s.mask.cell(r, c) == 1 || s.mask.cell(r, c) == 4 }

  lemma SortedByTime(scenes: seq<Scene>)
    ensures var ss := SortedScenes(scenes);
            && multiset(ss) == multiset(scenes) && (forall s :: s in ss <==> s in scenes)
            && forall i, j | 0 <= i <= j < |ss| :: ss[i].acquiredAt <= ss[j].acquiredAt
  {
    TimesAreTotal();
    SortSorts(ByTime(), scenes);
    SameMembers(SortedScenes(scenes), scenes);
    assert SortedBy(ByTime(), SortedScenes(scenes));
    var ss := SortedScenes(scenes);
    forall i, j | 0 <= i <= j < |ss| ensures ss[i].acquiredAt <= ss[j].acquiredAt {
      assert i == j || ByTime()(ss[i], ss[j]);
    }
  }

  /** A pixel of the AOI shows the latest scene that is clear there, or the earliest that covers it where
      none is clear, or nothing; class and every band come from that one scene. Outside the AOI there is
      nothing. */
  lemma PixelShows(scenes: seq<Scene>, aoi: Grid<bool>, a: CompositeArrays, r: nat, c: nat)
    requires Built(scenes, aoi, a) && r < aoi.height && c < aoi.width
    ensures var i := a.source[r, c];
            && (i == -1 <==> !aoi.cell(r, c) || forall s | s in scenes :: !Covered(s, r, c))
            && (i == -1 ==> a.mask[r, c] == 0 && forall b: nat | b < a.analytic.Length0 :: a.analytic[b, r, c] == 0)
            && (i != -1 ==>
                  && 0 <= i < |a.scenes| && a.scenes[i] in scenes && a.mask[r, c] == a.scenes[i].mask.cell(r, c)
                  && (forall b: nat | b < a.analytic.Length0 :: a.analytic[b, r, c] == a.scenes[i].analytic(b, r, c))
                  && if exists s :: s in scenes && Clear(s, r, c)
                     then Clear(a.scenes[i], r, c)
                          && forall s | s in scenes && Clear(s, r, c) :: s.acquiredAt <= a.scenes[i].acquiredAt
                     else Covered(a.scenes[i], r, c)
                          && forall s | s in scenes && Covered(s, r, c) :: a.scenes[i].acquiredAt <= s.acquiredAt)
  {
    SortedByTime(scenes);
    var ss, i := a.scenes, a.source[r, c];
    hide SortedScenes, Sort, MetricsOf;
    assert IsCompositePixel(ss, aoi, r, c, i, a.mask[r, c]);
    forall b: nat | b < a.analytic.Length0 ensures IsCompositeBand(ss, b, r, c, i, a.analytic[b, r, c]) {}
    forall s | s in scenes ensures exists j :: 0 <= j < |ss| && ss[j] == s {
      assert s in ss;
    }
    if i != -1 {
      LatestOrEarliest(ss, r, c, i);
      if s :| s in scenes && Clear(s, r, c) {
        assert s in ss && Usable(s, r, c);
      }
    }
  }

  lemma LatestOrEarliest(ss: seq<Scene>, r: nat, c: nat, i: int)
    requires IsSource(ss, r, c, i) && 0 <= i
    requires forall j, k | 0 <= j <= k < |ss| :: ss[j].acquiredAt <= ss[k].acquiredAt
    ensures i < |ss| && Covered(ss[i], r, c)
    ensures (exists s :: s in ss && Clear(s, r, c)) ==>
              Clear(ss[i], r, c) && forall s | s in ss && Clear(s, r, c) :: s.acquiredAt <= ss[i].acquiredAt
    ensures (forall s | s in ss :: !Clear(s, r, c)) ==>
              forall s | s in ss && Covered(s, r, c) :: ss[i].acquiredAt <= s.acquiredAt
  {
    forall s | s in ss ensures Usable(s, r, c) <==> Clear(s, r, c) {}
    if Usable(ss[i], r, c) {
      forall s | s in ss && Clear(s, r, c) ensures s.acquiredAt <= ss[i].acquiredAt {
        var j :| 0 <= j < |ss| && ss[j] == s;
        assert j <= i;
      }
      assert Clear(ss[i], r, c) && ss[i] in ss;
    } else {
      forall s | s in ss && Covered(s, r, c) ensures ss[i].acquiredAt <= s.acquiredAt {
        var j :| 0 <= j < |ss| && ss[j] == s;
        assert i <= j;
      }
    }
  }

  // ---- Metrics ----

  /** The AOI pixels of which `p` holds. */
  ghost function AoiWhere(aoi: Grid<bool>, p: (nat, nat) -> bool): set<Pixel> {
    set r: nat, c: nat | r < aoi.height && c < aoi.width && aoi.cell(r, c) && p(r, c) :: (r, c)
  }

  ghost function CoveredBySome(scenes: seq<Scene>): (nat, nat) -> bool {
    (r: nat, c: nat) => exists s :: s in scenes && Covered(s, r, c)
  }

  ghost function ClearInSome(scenes: seq<Scene>): (nat, nat) -> bool {
    (r: nat, c: nat) => exists s :: s in scenes && Clear(s, r, c)
  }

  predicate IsShare(percent: real, part: nat, whole: nat) {
    percent * whole as real == 100.0 * part as real && (whole == 0 ==> percent == 0.0)
  }

  /** What the metrics of a composite are: numbers of AOI pixels, and percentages of all AOI pixels. */
  lemma MetricsMean(scenes: seq<Scene>, aoi: Grid<bool>, a: CompositeArrays)
    requires Built(scenes, aoi, a)
    ensures a.metrics.aoiPixels == |AoiWhere(aoi, (r: nat, c: nat) => true)|
    ensures a.metrics.coveredPixels == |AoiWhere(aoi, CoveredBySome(scenes))|
    ensures a.metrics.usablePixels == |AoiWhere(aoi, ClearInSome(scenes))|
    ensures a.metrics.cloudPixels == |set r: nat, c: nat | && r < aoi.height && c < aoi.width
                                                           && (a.mask[r, c] == 2 || a.mask[r, c] == 3) :: (r, c)|
    ensures IsShare(a.metrics.coveragePercent, a.metrics.coveredPixels, a.metrics.aoiPixels)
    ensures IsShare(a.metrics.usablePercent, a.metrics.usablePixels, a.metrics.aoiPixels)
    ensures IsShare(a.metrics.cloudPercent, a.metrics.cloudPixels, a.metrics.aoiPixels)
  {
    hide MetricsOf, HoldsComposite;
    HasShape(scenes, aoi, a);
    forall r: nat, c: nat | r < aoi.height && c < aoi.width
      ensures a.mask[r, c] != 0 <==> aoi.cell(r, c) && CoveredBySome(scenes)(r, c)
      ensures a.mask[r, c] == 1 || a.mask[r, c] == 4 <==> aoi.cell(r, c) && ClearInSome(scenes)(r, c)
    {
      ClassMeans(scenes, aoi, a, r, c);
    }
    CountsMean(aoi, Freeze(a.mask), CoveredBySome(scenes), ClearInSome(scenes));
    assert (set r: nat, c: nat | && r < aoi.height && c < aoi.width
                                 && (a.mask[r, c] == 2 || a.mask[r, c] == 3) :: (r, c))
        == CloudClasses(aoi, Freeze(a.mask));
  }

  lemma HasShape(scenes: seq<Scene>, aoi: Grid<bool>, a: CompositeArrays)
    requires Built(scenes, aoi, a)
    ensures a.mask.Length0 == aoi.height && a.mask.Length1 == aoi.width
  {
  }

  ghost function CloudClasses(aoi: Grid<bool>, mask: Grid<nat>): set<Pixel> {
    set r: nat, c: nat | r < aoi.height && c < aoi.width && (mask.cell(r, c) == 2 || mask.cell(r, c) == 3) :: (r, c)
  }

  /** The metrics of a mask that is zero outside the AOI. */
  lemma CountsMean(aoi: Grid<bool>, mask: Grid<nat>, covered: (nat, nat) -> bool, clear: (nat, nat) -> bool)
    requires forall r: nat, c: nat | r < aoi.height && c < aoi.width ::
               && (mask.cell(r, c) != 0 <==> aoi.cell(r, c) && covered(r, c))
               && (mask.cell(r, c) == 1 || mask.cell(r, c) == 4 <==> aoi.cell(r, c) && clear(r, c))
    ensures var m := MetricsOf(aoi, mask);
            && m.aoiPixels == |AoiWhere(aoi, (r: nat, c: nat) => true)|
            && m.coveredPixels == |AoiWhere(aoi, covered)| && m.usablePixels == |AoiWhere(aoi, clear)|
            && m.cloudPixels == |CloudClasses(aoi, mask)|
            && IsShare(m.coveragePercent, m.coveredPixels, m.aoiPixels)
            && IsShare(m.usablePercent, m.usablePixels, m.aoiPixels)
            && IsShare(m.cloudPercent, m.cloudPixels, m.aoiPixels)
  {
    var m := MetricsOf(aoi, mask);
    var isCovered := (r: nat, c: nat) => mask.cell(r, c) != 0 && aoi.cell(r, c);
    var isUsable := (r: nat, c: nat) => ValidClass(mask.cell(r, c)) && aoi.cell(r, c);
    var isCloud := (r: nat, c: nat) => mask.cell(r, c) in {2, 3} && aoi.cell(r, c);
    assert Where(aoi.height, aoi.width, aoi.cell) == AoiWhere(aoi, (r: nat, c: nat) => true);
    assert Where(aoi.height, aoi.width, isCovered) == AoiWhere(aoi, covered);
    assert Where(aoi.height, aoi.width, isUsable) == AoiWhere(aoi, clear);
    assert Where(aoi.height, aoi.width, isCloud) == CloudClasses(aoi, mask);
    CountMonotone(aoi.height, aoi.width, isCovered, aoi.cell);
    CountMonotone(aoi.height, aoi.width, isUsable, aoi.cell);
    CountMonotone(aoi.height, aoi.width, isCloud, aoi.cell);
    SharesOf(m.coveredPixels, m.usablePixels, m.cloudPixels, m.aoiPixels);
  }

  lemma SharesOf(covered: nat, usable: nat, cloud: nat, whole: nat)
    requires covered <= whole && usable <= whole && cloud <= whole
    ensures IsShare(Percent(covered, whole), covered, whole) && IsShare(Percent(usable, whole), usable, whole)
    ensures IsShare(Percent(cloud, whole), cloud, whole)
  {
    PercentIsShare(covered, whole);
    PercentIsShare(usable, whole);
    PercentIsShare(cloud, whole);
  }

  lemma ClassMeans(scenes: seq<Scene>, aoi: Grid<bool>, a: CompositeArrays, r: nat, c: nat)
    requires Built(scenes, aoi, a) && r < aoi.height && c < aoi.width
    ensures a.mask[r, c] != 0 <==> aoi.cell(r, c) && CoveredBySome(scenes)(r, c)
    ensures a.mask[r, c] == 1 || a.mask[r, c] == 4 <==> aoi.cell(r, c) && ClearInSome(scenes)(r, c)
  {
    hide MetricsOf;
    PixelShows(scenes, aoi, a, r, c);
    if s :| s in scenes && Clear(s, r, c) {
      assert Covered(s, r, c);
    }
  }

  lemma PercentIsShare(part: nat, whole: nat)
    requires whole == 0 ==> part == 0
    ensures IsShare(Percent(part, whole), part, whole)
  {
  }

  /** A nonempty AOI is fully covered, by the metrics, exactly when some scene covers each of its pixels. */
  lemma FullCoverageExactlyWhen(scenes: seq<Scene>, aoi: Grid<bool>, a: CompositeArrays)
    requires Built(scenes, aoi, a) && a.metrics.aoiPixels > 0
    ensures a.metrics.coveragePercent == 100.0
            <==> forall r: nat, c: nat | r < aoi.height && c < aoi.width && aoi.cell(r, c) ::
                   exists s :: s in scenes && Covered(s, r, c)
  {
    hide MetricsOf, HoldsComposite, Built, IsShare, CoveredBySome;
    MetricsMean(scenes, aoi, a);
    var everywhere := (r: nat, c: nat) => true;
    FullShare(a.metrics.coveragePercent, a.metrics.coveredPixels, a.metrics.aoiPixels);
    SameSize(AoiWhere(aoi, CoveredBySome(scenes)), AoiWhere(aoi, everywhere));
    AllCovered(aoi, scenes);
  }

  lemma FullShare(percent: real, part: nat, whole: nat)
    requires whole > 0 && IsShare(percent, part, whole)
    ensures percent == 100.0 <==> part == whole
  {
    Quotient(100.0 * whole as real, whole as real, 100.0);
    Quotient(100.0 * part as real, whole as real, percent);
  }

  lemma SameSize(part: set<Pixel>, whole: set<Pixel>)
    requires part <= whole
    ensures |part| == |whole| <==> part == whole
  {
    assert whole == part + (whole - part);
    if |part| == |whole| {
      assert whole - part == {};
    }
  }

  lemma AllCovered(aoi: Grid<bool>, scenes: seq<Scene>)
    ensures AoiWhere(aoi, CoveredBySome(scenes)) == AoiWhere(aoi, (r: nat, c: nat) => true)
            <==> forall r: nat, c: nat | r < aoi.height && c < aoi.width && aoi.cell(r, c) ::
                   exists s :: s in scenes && Covered(s, r, c)
  {
    var all, covered := AoiWhere(aoi, (r: nat, c: nat) => true), AoiWhere(aoi, CoveredBySome(scenes));
    if all == covered {
      forall r: nat, c: nat | r < aoi.height && c < aoi.width && aoi.cell(r, c)
        ensures exists s :: s in scenes && Covered(s, r, c)
      {
        assert (r, c) in all;
        assert CoveredBySome(scenes)(r, c);
      }
    }
  }

  // ---- Errors ----

  /** A build succeeds exactly for one to 32768 scenes that all have the shape of the AOI and the band
      count of the earliest one. */
  lemma BuildsExactlyWhen(scenes: seq<Scene>, aoi: Grid<bool>)
    ensures BuildError(scenes, aoi).None?
            <==> && 1 <= |scenes| <= 32768
                 && (forall s, t | s in scenes && t in scenes :: s.bands == t.bands)
                 && forall s | s in scenes :: && s.bandHeight == s.mask.height == aoi.height
                                              && s.bandWidth == s.mask.width == aoi.width
    ensures BuildError(scenes, aoi) == Some(NoScenes) <==> scenes == []
    ensures BuildError(scenes, aoi) == Some(AoiShapeMismatch)
            <==> exists s :: && s in scenes && (s.bandHeight, s.bandWidth) != (aoi.height, aoi.width)
                             && s == SortedScenes(scenes)[0]
  {
    SortedByTime(scenes);
    hide Sort, LoopError;
    if |scenes| > 0 {
      var ss := SortedScenes(scenes);
      LoopFinishesExactlyWhen(ss, 0, ss[0].bands, aoi.height, aoi.width);
      assert ss[0] in scenes;
      assert |multiset(ss)| == |ss| && |multiset(scenes)| == |scenes|;
      FitAll(ss, scenes, ss[0].bands, aoi.height, aoi.width);
    }
  }

  lemma FitAll(ss: seq<Scene>, scenes: seq<Scene>, bands: nat, height: nat, width: nat)
    requires forall s :: s in ss <==> s in scenes
    ensures (forall i | 0 <= i < |ss| :: FitsGrid(ss[i], bands, height, width))
            <==> forall s | s in scenes :: FitsGrid(s, bands, height, width)
  {
    hide FitsGrid;
    if forall i | 0 <= i < |ss| :: FitsGrid(ss[i], bands, height, width) {
      forall s | s in scenes ensures FitsGrid(s, bands, height, width) {
        assert s in ss;
      }
    }
  }

  lemma {:induction false} LoopFinishesExactlyWhen(ss: seq<Scene>, from: nat, bands: nat, height: nat, width: nat)
    requires from <= |ss| && from <= INT16_MAX + 1
    ensures LoopError(ss, from, bands, height, width).None?
            <==> |ss| <= INT16_MAX + 1 && forall i | from <= i < |ss| :: FitsGrid(ss[i], bands, height, width)
    ensures LoopError(ss, from, bands, height, width).Some? ==>
              !(LoopError(ss, from, bands, height, width).value in {NoScenes, AoiShapeMismatch})
    decreases |ss| - from
  {
    hide FitsGrid;
    if from < |ss| && from <= INT16_MAX && FitsGrid(ss[from], bands, height, width) {
      LoopFinishesExactlyWhen(ss, from + 1, bands, height, width);
    }
  }

  // ---- The verifier ----

  /** What the verifier says of any mask and any recorded metrics: a class above 4, a recorded share more than
      a hundredth of a percent from the mask's own, and no covered pixel in the AOI. */
  lemma ProblemsMean(mask: Grid<nat>, aoi: Grid<bool>, recorded: Metrics)
    requires mask.height == aoi.height && mask.width == aoi.width
    ensures var problems, again := CoverageProblems(mask, aoi, recorded), MetricsOf(aoi, mask);
            && (UnexpectedClasses in problems
                <==> exists r: nat, c: nat :: r < mask.height && c < mask.width && mask.cell(r, c) > 4)
            && (CoverageMismatch in problems <==> || recorded.coveragePercent > again.coveragePercent + 0.01
                                                  || recorded.coveragePercent < again.coveragePercent - 0.01)
            && (UsableMismatch in problems <==> || recorded.usablePercent > again.usablePercent + 0.01
                                                || recorded.usablePercent < again.usablePercent - 0.01)
            && (NoCoveredPixels in problems <==> forall r: nat, c: nat | r < mask.height && c < mask.width ::
                  aoi.cell(r, c) ==> mask.cell(r, c) == 0)
  {
    var unknown := Where(mask.height, mask.width, (r: nat, c: nat) => mask.cell(r, c) > 4);
    if r: nat, c: nat :| r < mask.height && c < mask.width && mask.cell(r, c) > 4 {
      assert (r, c) in unknown;
    } else {
      assert unknown == {};
    }
    CoverageIsZero(mask, aoi);
    hide MetricsOf, Count;
  }

  lemma CoverageIsZero(mask: Grid<nat>, aoi: Grid<bool>)
    requires mask.height == aoi.height && mask.width == aoi.width
    ensures MetricsOf(aoi, mask).coveragePercent <= 0.0
            <==> forall r: nat, c: nat | r < mask.height && c < mask.width :: aoi.cell(r, c) ==> mask.cell(r, c) == 0
  {
    var m := MetricsOf(aoi, mask);
    var isCovered := (r: nat, c: nat) => mask.cell(r, c) != 0 && aoi.cell(r, c);
    var covered := Where(aoi.height, aoi.width, isCovered);
    CountMonotone(aoi.height, aoi.width, isCovered, aoi.cell);
    PercentIsShare(m.coveredPixels, m.aoiPixels);
    if r: nat, c: nat :| r < mask.height && c < mask.width && aoi.cell(r, c) && mask.cell(r, c) != 0 {
      assert (r, c) in covered;
      PositiveShare(m.coveragePercent, m.coveredPixels, m.aoiPixels);
    } else {
      assert covered == {};
    }
  }

  lemma PositiveShare(percent: real, part: nat, whole: nat)
    requires IsShare(percent, part, whole) && 0 < part <= whole
    ensures percent > 0.0
  {
    assert percent < 0.0 ==> (0.0 - percent) * whole as real > 0.0;
  }
}

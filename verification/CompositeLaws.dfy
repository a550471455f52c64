/** What the composite means for its callers: where each pixel comes from, what the order and
    the number of scenes can change, what the metrics conserve, and when the verifier accepts. */
module CompositeLaws {
  import opened Wrappers
  import opened PixelGrid
  import opened StableSorting
  import opened Composite

  /** Every pixel has a source, and only one. */
  lemma {:induction false} SourceExists(ss: seq<Scene>, r: nat, c: nat) returns (i: int)
    ensures -1 <= i < |ss| && IsSource(ss, r, c, i)
    ensures forall k {:trigger IsSource(ss, r, c, k)} | IsSource(ss, r, c, k) :: k == i
  {
    if |ss| == 0 {
      return -1;
    }
    var front, last := ss[..|ss| - 1], ss[|ss| - 1];
    assert ss == front + [last];
    var before := SourceExists(front, r, c);
    i := if Usable(last, r, c) || (before == -1 && Covers(last, r, c)) then |ss| - 1 else before;
  }

  /** A pixel is covered, or usable, exactly when it lies in the AOI and some scene makes it so:
      whatever the order of the scenes and however they tie. */
  lemma ClassesAreUnions(ss: seq<Scene>, aoi: Grid<bool>, r: nat, c: nat, source: int, cls: nat)
    requires IsCompositePixel(ss, aoi, r, c, source, cls)
    ensures cls != 0 <==> aoi.cell(r, c) && exists s :: s in ss && Covers(s, r, c)
    ensures ValidClass(cls) <==> aoi.cell(r, c) && exists s :: s in ss && Usable(s, r, c)
  {
    if aoi.cell(r, c) {
      if s :| s in ss && Usable(s, r, c) {
        var j :| 0 <= j < |ss| && ss[j] == s;
        assert Covers(ss[j], r, c);
      }
      if s :| s in ss && Covers(s, r, c) {
        var j :| 0 <= j < |ss| && ss[j] == s;
      }
      if source != -1 {
        assert ss[source] in ss && Covers(ss[source], r, c);
      }
    }
  }

  /** The loop runs out of indices exactly when a scene's position no longer fits the index while all
      scenes up to it fit the grid. */
  lemma {:induction false} LoopOverflowsExactlyWhen(ss: seq<Scene>, from: nat, bands: nat, height: nat, width: nat)
    requires from <= |ss| && from <= INT16_MAX + 1
    ensures LoopError(ss, from, bands, height, width) == Some(SceneIndexOverflow)
            <==> |ss| > INT16_MAX + 1 && forall i | from <= i <= INT16_MAX + 1 :: FitsGrid(ss[i], bands, height, width)
    decreases |ss| - from
  {
    hide FitsGrid;
    if from < |ss| && from <= INT16_MAX && FitsGrid(ss[from], bands, height, width) {
      LoopOverflowsExactlyWhen(ss, from + 1, bands, height, width);
    }
  }

  /** And it names the first scene that does not fit the grid, exactly when there is one before that. */
  lemma {:induction false} LoopRejectsExactlyWhen(ss: seq<Scene>, from: nat, bands: nat, height: nat, width: nat,
                                                  id: string)
    requires from <= |ss| && from <= INT16_MAX + 1
    ensures LoopError(ss, from, bands, height, width) == Some(SceneShapeMismatch(id))
            <==> exists n | from <= n < |ss| && n <= INT16_MAX + 1 ::
                   FirstMisfit(ss, from, n, bands, height, width) && ss[n].id == id
    decreases |ss| - from
  {
    hide FitsGrid;
    if from < |ss| && !FitsGrid(ss[from], bands, height, width) {
      assert FirstMisfit(ss, from, from, bands, height, width);
    } else if from < |ss| && from <= INT16_MAX {
      LoopRejectsExactlyWhen(ss, from + 1, bands, height, width, id);
      forall n: nat | from < n < |ss|
        ensures FirstMisfit(ss, from, n, bands, height, width) <==> FirstMisfit(ss, from + 1, n, bands, height, width)
      {
      }
    }
  }

  predicate FirstMisfit(ss: seq<Scene>, from: nat, n: nat, bands: nat, height: nat, width: nat)
    requires from <= n < |ss|
  {
    !FitsGrid(ss[n], bands, height, width) && forall i | from <= i < n :: FitsGrid(ss[i], bands, height, width)
  }

  /** A build runs out of scene indices exactly when it has more than 32768 scenes, of which the
      earliest 32769 have the shape of the first one and of the AOI. */
  lemma OverflowExactlyWhen(scenes: seq<Scene>, aoi: Grid<bool>)
    ensures BuildError(scenes, aoi) == Some(SceneIndexOverflow)
            <==> |scenes| > INT16_MAX + 1
                 && var ss := SortedScenes(scenes);
                    && (aoi.height, aoi.width) == (ss[0].bandHeight, ss[0].bandWidth)
                    && forall i | 0 <= i <= INT16_MAX + 1 :: FitsGrid(ss[i], ss[0].bands, aoi.height, aoi.width)
  {
    hide FitsGrid, LoopError;
    if |scenes| > 0 {
      var ss := SortedScenes(scenes);
      LoopOverflowsExactlyWhen(ss, 0, ss[0].bands, aoi.height, aoi.width);
    }
  }

  lemma TimesAreTotal()
    ensures TotalPreorder(ByTime())
  {
  }

  /** With distinct acquisition times the input order of the scenes cannot change the output. */
  lemma OrderDoesNotMatter(scenes: seq<Scene>, permuted: seq<Scene>)
    requires multiset(scenes) == multiset(permuted)
    requires forall s, t | s in scenes && t in scenes && s.acquiredAt == t.acquiredAt :: s == t
    ensures SortedScenes(scenes) == SortedScenes(permuted)
    ensures forall aoi: Grid<bool> :: BuildError(scenes, aoi) == BuildError(permuted, aoi)
  {
    TimesAreTotal();
    SameMembers(scenes, permuted);
    forall i, j | 0 <= i < |scenes| && 0 <= j < |scenes|
                  && ByTime()(scenes[i], scenes[j]) && ByTime()(scenes[j], scenes[i])
      ensures scenes[i] == scenes[j]
    {
      assert scenes[i] in scenes && scenes[j] in scenes;
    }
    SortForgetsOrder(ByTime(), scenes, permuted);
  }

  /** Scenes of one acquisition time keep their input order, whatever else there is: among them the
      input order decides. */
  lemma TiesKeepInputOrder(scenes: seq<Scene>, s: Scene)
    ensures Ties(ByTime(), SortedScenes(scenes), s) == Ties(ByTime(), scenes, s)
  {
    TimesAreTotal();
    SortIsStable(ByTime(), scenes, s);
  }

  /** With distinct acquisition times two composites built from the same scenes, given in any order,
      agree in every cell of every array. */
  lemma OutputDoesNotDependOnOrder(scenes: seq<Scene>, permuted: seq<Scene>, aoi: Grid<bool>, bands: nat,
                                   a: CompositeArrays, b: CompositeArrays)
    requires multiset(scenes) == multiset(permuted)
    requires forall s, t | s in scenes && t in scenes && s.acquiredAt == t.acquiredAt :: s == t
    requires HoldsComposite(SortedScenes(scenes), aoi, bands, a.analytic, a.mask, a.source)
    requires HoldsComposite(SortedScenes(permuted), aoi, bands, b.analytic, b.mask, b.source)
    ensures forall r: nat, c: nat | r < aoi.height && c < aoi.width ::
              a.mask[r, c] == b.mask[r, c] && a.source[r, c] == b.source[r, c]
    ensures forall k: nat, r: nat, c: nat | k < bands && r < aoi.height && c < aoi.width ::
              a.analytic[k, r, c] == b.analytic[k, r, c]
    ensures MetricsOf(aoi, Freeze(a.mask)) == MetricsOf(aoi, Freeze(b.mask))
  {
    hide MetricsOf;
    OrderDoesNotMatter(scenes, permuted);
    var ss := SortedScenes(scenes);
    hide IsSource;
    forall r: nat, c: nat | r < aoi.height && c < aoi.width
      ensures a.mask[r, c] == b.mask[r, c] && a.source[r, c] == b.source[r, c]
    {
      SamePixel(ss, aoi, r, c, a.source[r, c], a.mask[r, c], b.source[r, c], b.mask[r, c]);
    }
    SameMetrics(aoi, Freeze(a.mask), Freeze(b.mask));
  }

  lemma SameMetrics(aoi: Grid<bool>, m: Grid<nat>, n: Grid<nat>)
    requires forall r: nat, c: nat :: r < aoi.height && c < aoi.width ==> m.cell(r, c) == n.cell(r, c)
    ensures MetricsOf(aoi, m) == MetricsOf(aoi, n)
  {
    hide Count;
    SameCount(aoi.height, aoi.width, (r: nat, c: nat) => m.cell(r, c) != 0 && aoi.cell(r, c),
              (r: nat, c: nat) => n.cell(r, c) != 0 && aoi.cell(r, c));
    SameCount(aoi.height, aoi.width, (r: nat, c: nat) => ValidClass(m.cell(r, c)) && aoi.cell(r, c),
              (r: nat, c: nat) => ValidClass(n.cell(r, c)) && aoi.cell(r, c));
    SameCount(aoi.height, aoi.width, (r: nat, c: nat) => m.cell(r, c) in {2, 3} && aoi.cell(r, c),
              (r: nat, c: nat) => n.cell(r, c) in {2, 3} && aoi.cell(r, c));
  }

  /** The closed form names one source and one class. */
  lemma SamePixel(ss: seq<Scene>, aoi: Grid<bool>, r: nat, c: nat, source: int, cls: nat, source': int, cls': nat)
    requires -1 <= source < |ss| && -1 <= source' < |ss|
    requires IsCompositePixel(ss, aoi, r, c, source, cls) && IsCompositePixel(ss, aoi, r, c, source', cls')
    ensures source == source' && cls == cls'
  {
    hide IsSource;
    var i := SourceExists(ss, r, c);
  }

  /** More scenes never uncover a pixel and never make a usable pixel unusable. */
  lemma MoreScenesNeverLose(scenes: seq<Scene>, more: seq<Scene>, aoi: Grid<bool>,
                            mask: Grid<nat>, moreMask: Grid<nat>,
                            source: (nat, nat) -> int, moreSource: (nat, nat) -> int)
    requires multiset(scenes) <= multiset(more)
    requires forall r: nat, c: nat {:trigger mask.cell(r, c)} :: r < aoi.height && c < aoi.width ==>
               IsCompositePixel(SortedScenes(scenes), aoi, r, c, source(r, c), mask.cell(r, c))
    requires forall r: nat, c: nat {:trigger moreMask.cell(r, c)} :: r < aoi.height && c < aoi.width ==>
               IsCompositePixel(SortedScenes(more), aoi, r, c, moreSource(r, c), moreMask.cell(r, c))
    ensures forall r: nat, c: nat :: r < aoi.height && c < aoi.width && mask.cell(r, c) != 0 ==>
              moreMask.cell(r, c) != 0
    ensures forall r: nat, c: nat :: r < aoi.height && c < aoi.width && ValidClass(mask.cell(r, c)) ==>
              ValidClass(moreMask.cell(r, c))
    ensures MetricsOf(aoi, mask).coveredPixels <= MetricsOf(aoi, moreMask).coveredPixels
    ensures MetricsOf(aoi, mask).usablePixels <= MetricsOf(aoi, moreMask).usablePixels
  {
    var ss, ts := SortedScenes(scenes), SortedScenes(more);
    forall s | s in ss ensures s in ts {
      assert s in multiset(ss) && s in multiset(more) && s in multiset(ts);
    }
    forall r: nat, c: nat | r < aoi.height && c < aoi.width
      ensures mask.cell(r, c) != 0 ==> moreMask.cell(r, c) != 0
      ensures ValidClass(mask.cell(r, c)) ==> ValidClass(moreMask.cell(r, c))
    {
      ClassesAreUnions(ss, aoi, r, c, source(r, c), mask.cell(r, c));
      ClassesAreUnions(ts, aoi, r, c, moreSource(r, c), moreMask.cell(r, c));
    }
    CountMonotone(aoi.height, aoi.width,
                  (r: nat, c: nat) => mask.cell(r, c) != 0 && aoi.cell(r, c),
                  (r: nat, c: nat) => moreMask.cell(r, c) != 0 && aoi.cell(r, c));
    CountMonotone(aoi.height, aoi.width,
                  (r: nat, c: nat) => ValidClass(mask.cell(r, c)) && aoi.cell(r, c),
                  (r: nat, c: nat) => ValidClass(moreMask.cell(r, c)) && aoi.cell(r, c));
  }

  ghost predicate KnownClasses(mask: Grid<nat>, height: nat, width: nat) {
    forall r: nat, c: nat :: r < height && c < width ==> mask.cell(r, c) <= 4
  }

  /** Covered pixels are the usable and the cloud-masked ones, in pixels and in percent, and no
      percentage leaves [0, 100]. */
  lemma MetricsConserve(aoi: Grid<bool>, mask: Grid<nat>)
    requires KnownClasses(mask, aoi.height, aoi.width)
    ensures var m := MetricsOf(aoi, mask);
            && m.coveredPixels == m.usablePixels + m.cloudPixels <= m.aoiPixels
            && m.coveragePercent == m.usablePercent + m.cloudPercent
            && 0.0 <= m.usablePercent <= m.coveragePercent <= 100.0
            && 0.0 <= m.cloudPercent <= m.coveragePercent
  {
    var m := MetricsOf(aoi, mask);
    var covered := (r: nat, c: nat) => mask.cell(r, c) != 0 && aoi.cell(r, c);
    var usable := (r: nat, c: nat) => ValidClass(mask.cell(r, c)) && aoi.cell(r, c);
    var cloud := (r: nat, c: nat) => mask.cell(r, c) in {2, 3} && aoi.cell(r, c);
    CountSplits(aoi.height, aoi.width, covered, usable, cloud);
    CountMonotone(aoi.height, aoi.width, covered, aoi.cell);
    PercentAdds(m.usablePixels, m.cloudPixels, m.aoiPixels);
    PercentInRange(m.coveredPixels, m.aoiPixels);
    PercentInRange(m.usablePixels, m.aoiPixels);
    PercentInRange(m.cloudPixels, m.aoiPixels);
  }

  datatype Problem = UnexpectedClasses | CoverageMismatch | UsableMismatch | NoCoveredPixels

  function Gap(x: real, y: real): real { if x < y then y - x else x - y }

  /** The verifier's checks of a mask raster against the metrics recorded for it. */
  function CoverageProblems(mask: Grid<nat>, aoi: Grid<bool>, recorded: Metrics): seq<Problem> {
    var again := MetricsOf(aoi, mask);
    (if Count(mask.height, mask.width, (r: nat, c: nat) => mask.cell(r, c) > 4) > 0
     then [UnexpectedClasses] else [])
    + (if Gap(recorded.coveragePercent, again.coveragePercent) > 0.01 then [CoverageMismatch] else [])
    + (if Gap(recorded.usablePercent, again.usablePercent) > 0.01 then [UsableMismatch] else [])
    + (if again.coveragePercent <= 0.0 then [NoCoveredPixels] else [])
  }

  /** A freshly built composite verifies exactly when some scene covers some AOI pixel; the only
      other complaint it can raise is about that. */
  lemma BuiltCompositeVerifies(ss: seq<Scene>, aoi: Grid<bool>, mask: Grid<nat>, source: (nat, nat) -> int)
    requires mask.height == aoi.height && mask.width == aoi.width
    requires forall s | s in ss :: KnownClasses(s.mask, aoi.height, aoi.width)
    requires forall r: nat, c: nat {:trigger mask.cell(r, c)} :: r < aoi.height && c < aoi.width ==>
               IsCompositePixel(ss, aoi, r, c, source(r, c), mask.cell(r, c))
    ensures CoverageProblems(mask, aoi, MetricsOf(aoi, mask))
            == if CoversSomewhere(ss, aoi) then [] else [NoCoveredPixels]
  {
    hide IsCompositePixel, MetricsOf, Where;
    NoUnknownClass(ss, aoi, mask, source);
    CoverageIsPositive(ss, aoi, mask, source);
  }

  lemma NoUnknownClass(ss: seq<Scene>, aoi: Grid<bool>, mask: Grid<nat>, source: (nat, nat) -> int)
    requires mask.height == aoi.height && mask.width == aoi.width
    requires forall s | s in ss :: KnownClasses(s.mask, aoi.height, aoi.width)
    requires forall r: nat, c: nat {:trigger mask.cell(r, c)} :: r < aoi.height && c < aoi.width ==>
               IsCompositePixel(ss, aoi, r, c, source(r, c), mask.cell(r, c))
    ensures Where(mask.height, mask.width, (r: nat, c: nat) => mask.cell(r, c) > 4) == {}
  {
  }

  lemma CoverageIsPositive(ss: seq<Scene>, aoi: Grid<bool>, mask: Grid<nat>, source: (nat, nat) -> int)
    requires mask.height == aoi.height && mask.width == aoi.width
    requires forall r: nat, c: nat {:trigger mask.cell(r, c)} :: r < aoi.height && c < aoi.width ==>
               IsCompositePixel(ss, aoi, r, c, source(r, c), mask.cell(r, c))
    ensures MetricsOf(aoi, mask).coveragePercent > 0.0 <==> CoversSomewhere(ss, aoi)
    ensures MetricsOf(aoi, mask).coveragePercent >= 0.0
  {
    hide IsCompositePixel;
    var m := MetricsOf(aoi, mask);
    var covered := Where(aoi.height, aoi.width, (r: nat, c: nat) => mask.cell(r, c) != 0 && aoi.cell(r, c));
    assert m.coveredPixels == |covered|;
    CountMonotone(aoi.height, aoi.width, (r: nat, c: nat) => mask.cell(r, c) != 0 && aoi.cell(r, c), aoi.cell);
    if CoversSomewhere(ss, aoi) {
      var s, r: nat, c: nat :| s in ss && r < aoi.height && c < aoi.width && aoi.cell(r, c) && Covers(s, r, c);
      ClassesAreUnions(ss, aoi, r, c, source(r, c), mask.cell(r, c));
      assert (r, c) in covered;
      assert m.coveredPixels > 0;
      assert (m.coveredPixels as real / m.aoiPixels as real) > 0.0;
    } else {
      forall p | p in covered ensures false {
        ClassesAreUnions(ss, aoi, p.0, p.1, source(p.0, p.1), mask.cell(p.0, p.1));
      }
      assert covered == {};
      assert m.coveragePercent == 0.0;
    }
  }

  ghost predicate CoversSomewhere(ss: seq<Scene>, aoi: Grid<bool>) {
    exists s, r: nat, c: nat ::
      s in ss && r < aoi.height && c < aoi.width && aoi.cell(r, c) && Covers(s, r, c)
  }
}

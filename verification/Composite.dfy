/** The ResourceSat best-available composite: any number of aligned scenes folded into one
    raster by masked writes, its metrics, and the coverage checks of the verifier. */
module Composite {
  import opened Wrappers
  import opened PixelGrid
  import opened StableSorting

  /** A prepared scene on the composite grid: one band stack and its mask. */
  datatype Scene = Scene(id: string, acquiredAt: int, bands: nat, bandHeight: nat, bandWidth: nat,
                         analytic: (nat, nat, nat) -> nat, mask: Grid<nat>)

  datatype Metrics = Metrics(aoiPixels: nat, coveredPixels: nat, usablePixels: nat, cloudPixels: nat,
                             coveragePercent: real, usablePercent: real, cloudPercent: real)

  datatype CompositeError =
    | NoScenes
    | AoiShapeMismatch
    | SceneShapeMismatch(sceneId: string)
    | SceneIndexOverflow

  datatype CompositeArrays = CompositeArrays(analytic: array3<nat>, mask: array2<nat>,
                                             source: array2<int>, metrics: Metrics, scenes: seq<Scene>)

  const INT16_MAX: int := 32767

  function ByTime(): (Scene, Scene) -> bool { (a: Scene, b: Scene) => a.acquiredAt <= b.acquiredAt }

  function SortedScenes(scenes: seq<Scene>): seq<Scene> { Sort(ByTime(), scenes) }

  predicate ValidClass(c: nat) { c == 1 || c == 4 }

  predicate Covers(s: Scene, r: nat, c: nat) { s.mask.cell(r, c) != 0 }

  predicate Usable(s: Scene, r: nat, c: nat) { ValidClass(s.mask.cell(r, c)) }

  predicate FitsGrid(s: Scene, bands: nat, height: nat, width: nat) {
    s.bands == bands && s.bandHeight == height && s.bandWidth == width
    && s.mask.height == height && s.mask.width == width
  }

  /** Which scene a pixel comes from, without running the loop: the latest usable scene, else
      the earliest covered one, else none (-1). `ss` is in acquisition order. */
  ghost predicate IsSource(ss: seq<Scene>, r: nat, c: nat, i: int) {
    if i == -1 then
      forall j | 0 <= j < |ss| :: !Covers(ss[j], r, c)
    else
      0 <= i < |ss| &&
      if Usable(ss[i], r, c) then
        forall j | i < j < |ss| :: !Usable(ss[j], r, c)
      else
        Covers(ss[i], r, c)
        && (forall j | 0 <= j < |ss| :: !Usable(ss[j], r, c))
        && (forall j | 0 <= j < i :: !Covers(ss[j], r, c))
  }

  /** The composite's pixel, read off the scene that `IsSource` names. */
  ghost predicate IsCompositePixel(ss: seq<Scene>, aoi: Grid<bool>, r: nat, c: nat, source: int, cls: nat) {
    if aoi.cell(r, c) then
      IsSource(ss, r, c, source) && cls == (if source == -1 then 0 else ss[source].mask.cell(r, c))
    else
      source == -1 && cls == 0
  }

  ghost predicate IsCompositeBand(ss: seq<Scene>, b: nat, r: nat, c: nat, source: int, value: nat)
    requires source == -1 || 0 <= source < |ss|
  {
    value == if source == -1 then 0 else ss[source].analytic(b, r, c)
  }

  /** The arrays hold the composite of `ss`: every band and the mask of a pixel come from one scene. */
  ghost predicate HoldsComposite(ss: seq<Scene>, aoi: Grid<bool>, bands: nat,
                                 output: array3<nat>, mask: array2<nat>, source: array2<int>)
    reads output, mask, source
  {
    && output.Length0 == bands && output.Length1 == aoi.height && output.Length2 == aoi.width
    && mask.Length0 == aoi.height && mask.Length1 == aoi.width
    && source.Length0 == aoi.height && source.Length1 == aoi.width
    && (forall r: nat, c: nat | r < aoi.height && c < aoi.width ::
          -1 <= source[r, c] < |ss| && IsCompositePixel(ss, aoi, r, c, source[r, c], mask[r, c]))
    && (forall b: nat, r: nat, c: nat | b < bands && r < aoi.height && c < aoi.width ::
          -1 <= source[r, c] < |ss| && IsCompositeBand(ss, b, r, c, source[r, c], output[b, r, c]))
  }

  function Freeze(a: array2<nat>): (g: Grid<nat>)
    reads a
    ensures g.height == a.Length0 && g.width == a.Length1
    ensures forall r: nat, c: nat :: r < g.height && c < g.width ==> g.cell(r, c) == a[r, c]
  {
    var rows := seq(a.Length0, r requires 0 <= r < a.Length0 reads a =>
                      seq(a.Length1, c requires 0 <= c < a.Length1 reads a => a[r, c]));
    Grid(a.Length0, a.Length1, (r: nat, c: nat) => if r < |rows| && c < |rows[r]| then rows[r][c] else 0)
  }

  /** The metrics are a function of the output mask and the AOI alone. */
  function MetricsOf(aoi: Grid<bool>, mask: Grid<nat>): Metrics {
    var denominator := Count(aoi.height, aoi.width, aoi.cell);
    var covered := Count(aoi.height, aoi.width, (r: nat, c: nat) => mask.cell(r, c) != 0 && aoi.cell(r, c));
    var usable := Count(aoi.height, aoi.width, (r: nat, c: nat) => ValidClass(mask.cell(r, c)) && aoi.cell(r, c));
    var cloud := Count(aoi.height, aoi.width, (r: nat, c: nat) => mask.cell(r, c) in {2, 3} && aoi.cell(r, c));
    Metrics(denominator, covered, usable, cloud, Percent(covered, denominator),
            Percent(usable, denominator), Percent(cloud, denominator))
  }

  /** What the scene loop raises, or nothing: the first scene that does not fit the grid, or the
      first whose position no longer fits the int16 index. */
  function LoopError(ss: seq<Scene>, from: nat, bands: nat, height: nat, width: nat): Option<CompositeError>
    requires from <= |ss|
    decreases |ss| - from
  {
    if from == |ss| then None
    else if !FitsGrid(ss[from], bands, height, width) then Some(SceneShapeMismatch(ss[from].id))
    else if from > INT16_MAX then Some(SceneIndexOverflow)
    else LoopError(ss, from + 1, bands, height, width)
  }

  function BuildError(scenes: seq<Scene>, aoi: Grid<bool>): Option<CompositeError> {
    if |scenes| == 0 then Some(NoScenes) else
      var ss := SortedScenes(scenes);
      if (aoi.height, aoi.width) != (ss[0].bandHeight, ss[0].bandWidth) then Some(AoiShapeMismatch)
      else LoopError(ss, 0, ss[0].bands, aoi.height, aoi.width)
  }

  method TakeMask(scene: Scene, aoi: Grid<bool>, hasAny: array2<bool>) returns (take: array2<bool>)
    requires hasAny.Length0 == aoi.height && hasAny.Length1 == aoi.width
    ensures take.Length0 == aoi.height && take.Length1 == aoi.width
    ensures fresh(take)
    ensures forall r: nat, c: nat | r < aoi.height && c < aoi.width ::
              take[r, c] == Takes(scene, aoi, r, c, hasAny[r, c])
  {
    take := new bool[aoi.height, aoi.width];
    forall r, c | 0 <= r < aoi.height && 0 <= c < aoi.width {
      take[r, c] := Takes(scene, aoi, r, c, hasAny[r, c]);
    }
  }

  predicate Takes(scene: Scene, aoi: Grid<bool>, r: nat, c: nat, hasAny: bool) {
    aoi.cell(r, c) && ((Covers(scene, r, c) && !hasAny) || Usable(scene, r, c))
  }

  /** One turn of the scene loop: masked writes into the band stack, the mask and the index. */
  method MergeScene(scene: Scene, k: nat, aoi: Grid<bool>, bands: nat,
                    output: array3<nat>, outputMask: array2<nat>, source: array2<int>, hasAny: array2<bool>)
    requires output.Length0 == bands && output.Length1 == aoi.height && output.Length2 == aoi.width
    requires outputMask.Length0 == aoi.height && outputMask.Length1 == aoi.width
    requires source.Length0 == aoi.height && source.Length1 == aoi.width
    requires hasAny.Length0 == aoi.height && hasAny.Length1 == aoi.width
    modifies output, outputMask, source, hasAny
    ensures forall b: nat, r: nat, c: nat | b < bands && r < aoi.height && c < aoi.width ::
              output[b, r, c] == if Takes(scene, aoi, r, c, old(hasAny[r, c]))
                                 then scene.analytic(b, r, c) else old(output[b, r, c])
    ensures forall r: nat, c: nat | r < aoi.height && c < aoi.width ::
              outputMask[r, c] == if Takes(scene, aoi, r, c, old(hasAny[r, c]))
                                  then scene.mask.cell(r, c) else old(outputMask[r, c])
    ensures forall r: nat, c: nat | r < aoi.height && c < aoi.width ::
              source[r, c] == if Takes(scene, aoi, r, c, old(hasAny[r, c])) then k else old(source[r, c])
    ensures forall r: nat, c: nat | r < aoi.height && c < aoi.width ::
              hasAny[r, c] == (old(hasAny[r, c]) || (Covers(scene, r, c) && aoi.cell(r, c)))
  {
    var take := TakeMask(scene, aoi, hasAny);
    forall b, r, c | 0 <= b < bands && 0 <= r < aoi.height && 0 <= c < aoi.width && take[r, c] {
      output[b, r, c] := scene.analytic(b, r, c);
    }
    forall r, c | 0 <= r < aoi.height && 0 <= c < aoi.width && take[r, c] {
      outputMask[r, c] := scene.mask.cell(r, c);
    }
    forall r, c | 0 <= r < aoi.height && 0 <= c < aoi.width && take[r, c] {
      source[r, c] := k;
    }
    forall r, c | 0 <= r < aoi.height && 0 <= c < aoi.width {
      hasAny[r, c] := hasAny[r, c] || (Covers(scene, r, c) && aoi.cell(r, c));
    }
  }

  /** A pixel that holds the composite of `before` holds that of one more scene after a merge. */
  lemma MergeExtends(before: seq<Scene>, scene: Scene, aoi: Grid<bool>, r: nat, c: nat,
                     source: int, cls: nat, hasAny: bool)
    requires IsCompositePixel(before, aoi, r, c, source, cls)
    requires hasAny <==> aoi.cell(r, c) && exists j | 0 <= j < |before| :: Covers(before[j], r, c)
    ensures var takes := Takes(scene, aoi, r, c, hasAny);
            IsCompositePixel(before + [scene], aoi, r, c, if takes then |before| else source,
                             if takes then scene.mask.cell(r, c) else cls)
    ensures (hasAny || (Covers(scene, r, c) && aoi.cell(r, c)))
            <==> aoi.cell(r, c) && exists j | 0 <= j < |before + [scene]| :: Covers((before + [scene])[j], r, c)
  {
  }

  ghost predicate SeenSoFar(ss: seq<Scene>, aoi: Grid<bool>, hasAny: array2<bool>)
    reads hasAny
  {
    && hasAny.Length0 == aoi.height && hasAny.Length1 == aoi.width
    && forall r: nat, c: nat | r < aoi.height && c < aoi.width ::
         hasAny[r, c] <==> aoi.cell(r, c) && exists j | 0 <= j < |ss| :: Covers(ss[j], r, c)
  }

  method MergeNext(ss: seq<Scene>, k: nat, aoi: Grid<bool>, bands: nat,
                   output: array3<nat>, outputMask: array2<nat>, source: array2<int>, hasAny: array2<bool>)
    requires k < |ss|
    requires HoldsComposite(ss[..k], aoi, bands, output, outputMask, source)
    requires SeenSoFar(ss[..k], aoi, hasAny)
    modifies output, outputMask, source, hasAny
    ensures HoldsComposite(ss[..k + 1], aoi, bands, output, outputMask, source)
    ensures SeenSoFar(ss[..k + 1], aoi, hasAny)
  {
    ghost var before, after := ss[..k], ss[..k + 1];
    assert after == before + [ss[k]];
    forall r: nat, c: nat | r < aoi.height && c < aoi.width
      ensures var takes := Takes(ss[k], aoi, r, c, hasAny[r, c]);
              IsCompositePixel(after, aoi, r, c, if takes then k else source[r, c],
                               if takes then ss[k].mask.cell(r, c) else outputMask[r, c])
      ensures (hasAny[r, c] || (Covers(ss[k], r, c) && aoi.cell(r, c)))
              <==> aoi.cell(r, c) && exists j | 0 <= j < |after| :: Covers(after[j], r, c)
    {
      MergeExtends(before, ss[k], aoi, r, c, source[r, c], outputMask[r, c], hasAny[r, c]);
    }
    MergeScene(ss[k], k, aoi, bands, output, outputMask, source, hasAny);
  }

  method Allocate(aoi: Grid<bool>, bands: nat)
    returns (output: array3<nat>, outputMask: array2<nat>, source: array2<int>, hasAny: array2<bool>)
    ensures fresh(output) && fresh(outputMask) && fresh(source) && fresh(hasAny)
    ensures HoldsComposite([], aoi, bands, output, outputMask, source)
    ensures SeenSoFar([], aoi, hasAny)
  {
    output := new nat[bands, aoi.height, aoi.width]((_, _, _) => 0);
    outputMask := new nat[aoi.height, aoi.width]((_, _) => 0);
    source := new int[aoi.height, aoi.width]((_, _) => -1);
    hasAny := new bool[aoi.height, aoi.width]((_, _) => false);
  }

  method FoldScenes(ss: seq<Scene>, aoi: Grid<bool>, bands: nat, output: array3<nat>,
                    outputMask: array2<nat>, source: array2<int>, hasAny: array2<bool>)
    returns (error: Option<CompositeError>)
    requires HoldsComposite([], aoi, bands, output, outputMask, source)
    requires SeenSoFar([], aoi, hasAny)
    modifies output, outputMask, source, hasAny
    ensures error == LoopError(ss, 0, bands, aoi.height, aoi.width)
    ensures error.None? ==> HoldsComposite(ss, aoi, bands, output, outputMask, source)
  {
    var k := 0;
    assert ss[..0] == [];
    while k < |ss|
      invariant 0 <= k <= |ss|
      invariant LoopError(ss, 0, bands, aoi.height, aoi.width) == LoopError(ss, k, bands, aoi.height, aoi.width)
      invariant HoldsComposite(ss[..k], aoi, bands, output, outputMask, source)
      invariant SeenSoFar(ss[..k], aoi, hasAny)
    {
      if !FitsGrid(ss[k], bands, aoi.height, aoi.width) {
        return Some(SceneShapeMismatch(ss[k].id));
      }
      if k > INT16_MAX {
        return Some(SceneIndexOverflow);
      }
      MergeNext(ss, k, aoi, bands, output, outputMask, source, hasAny);
      k := k + 1;
    }
    assert ss[..k] == ss;
    error := None;
  }

  /** `output_mask[~aoi] = 0; output[:, ~aoi] = 0`. */
  method ClearOutside(ghost ss: seq<Scene>, aoi: Grid<bool>, bands: nat, output: array3<nat>,
                      outputMask: array2<nat>, ghost source: array2<int>)
    requires HoldsComposite(ss, aoi, bands, output, outputMask, source)
    modifies output, outputMask
    ensures HoldsComposite(ss, aoi, bands, output, outputMask, source)
  {
    forall r, c | 0 <= r < aoi.height && 0 <= c < aoi.width && !aoi.cell(r, c) {
      outputMask[r, c] := 0;
    }
    forall b, r, c | 0 <= b < bands && 0 <= r < aoi.height && 0 <= c < aoi.width && !aoi.cell(r, c) {
      output[b, r, c] := 0;
    }
  }

  method BuildBestAvailableComposite(scenes: seq<Scene>, aoi: Grid<bool>)
    returns (result: Result<CompositeArrays, CompositeError>)
    ensures result.Err? <==> BuildError(scenes, aoi).Some?
    ensures result.Err? ==> BuildError(scenes, aoi) == Some(result.error)
    ensures result.Ok? ==>
              var a := result.value;
              && a.scenes == SortedScenes(scenes)
              && HoldsComposite(a.scenes, aoi, a.scenes[0].bands, a.analytic, a.mask, a.source)
              && a.metrics == MetricsOf(aoi, Freeze(a.mask))
  {
    if |scenes| == 0 {
      return Err(NoScenes);
    }
    var ss := SortedScenes(scenes);
    if (aoi.height, aoi.width) != (ss[0].bandHeight, ss[0].bandWidth) {
      return Err(AoiShapeMismatch);
    }
    var bands := ss[0].bands;
    var output, outputMask, source, hasAny := Allocate(aoi, bands);
    var error := FoldScenes(ss, aoi, bands, output, outputMask, source, hasAny);
    if error.Some? {
      return Err(error.value);
    }
    ClearOutside(ss, aoi, bands, output, outputMask, source);
    var metrics := MetricsOf(aoi, Freeze(outputMask));
    result := Ok(CompositeArrays(output, outputMask, source, metrics, ss));
  }
}

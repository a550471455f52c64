/** Field statistics over a windowed read: index values, mask classes and SAR bands. The polygon
    is a predicate on pixels, true only of pixels whose centre lies in its bounds. */
module FieldStats {
  import opened Wrappers
  import opened Rounding
  import opened Floats
  import opened PixelGrid
  import opened TileWindows
  import opened PixelSelection
  import opened FieldWindow

  type Membership = (nat, nat) -> bool

  ghost predicate WithinBounds(g: Raster, b: Bounds, field: Membership) {
    forall r: nat, c: nat :: r < g.height && c < g.width && field(r, c) ==> CentreInBounds(g, b, r, c)
  }

  /** What the windowed read is worth: either it holds every field pixel, or there is none. */
  lemma WindowConfines(g: Raster, b: Bounds, field: Membership)
    requires WithinBounds(g, b, field)
    ensures match PolygonWindow(g, b)
            case Some(w) => Inside(w, g.height, g.width) && Confined(field, g.height, g.width, w)
            case None => forall r: nat, c: nat :: r < g.height && c < g.width ==> !field(r, c)
  {
    hide PolygonWindow, CentreInBounds;
    forall r: nat, c: nat | r < g.height && c < g.width && field(r, c)
      ensures PolygonWindow(g, b).Some? && Holds(PolygonWindow(g, b).value, r, c)
    {
      CentresCovered(g, b, r, c);
    }
    if PolygonWindow(g, b).Some? {
      WindowFits(g, b);
    }
  }

  // ---- Index statistics ----

  predicate ValidSample(x: Float, nodata: Option<real>) { x.Num? && nodata != Some(x.value) }

  function ValidMask(values: Grid<Float>, field: Membership, nodata: Option<real>): Membership {
    (r: nat, c: nat) => field(r, c) && ValidSample(values.cell(r, c), nodata)
  }

  function Decode(x: Float, scale: Option<real>): real {
    var v := if x.Num? then x.value else 0.0;
    if scale.Some? && scale.value != 0.0 then v / scale.value else v
  }

  function DecodeAll(xs: seq<Float>, scale: Option<real>): (r: seq<real>)
    ensures |r| == |xs|
  {
    seq(|xs|, i requires 0 <= i < |xs| => Decode(xs[i], scale))
  }

  datatype Threshold = Threshold(name: string, min: real, max: real)

  datatype ClassArea = ClassArea(name: string, area: real, percentage: real)

  function CountBetween(xs: seq<real>, low: real, high: real): nat {
    if |xs| == 0 then 0 else CountBetween(xs[..|xs| - 1], low, high) + if low <= xs[|xs| - 1] < high then 1 else 0
  }

  function ClassOf(xs: seq<real>, t: Threshold, pixelArea: real): ClassArea {
    var total := |xs| as real * pixelArea;
    var area := CountBetween(xs, t.min, t.max) as real * pixelArea;
    ClassArea(t.name, area, if total != 0.0 then area / total * 100.0 else 0.0)
  }

  function Classes(xs: seq<real>, ts: seq<Threshold>, pixelArea: real): (r: seq<ClassArea>)
    ensures |r| == if |xs| == 0 then 0 else |ts|
  {
    if |xs| == 0 then [] else seq(|ts|, i requires 0 <= i < |ts| => ClassOf(xs, ts[i], pixelArea))
  }

  /** `_class_stats`. */
  method ClassStats(xs: seq<real>, ts: seq<Threshold>, pixelArea: real) returns (results: seq<ClassArea>)
    ensures results == Classes(xs, ts, pixelArea)
  {
    results := [];
    if |xs| == 0 {
      return;
    }
    for i := 0 to |ts|
      invariant |results| == i
      invariant forall k | 0 <= k < i :: results[k] == ClassOf(xs, ts[k], pixelArea)
    {
      results := results + [ClassOf(xs, ts[i], pixelArea)];
    }
  }

  predicate Contiguous(ts: seq<Threshold>) {
    && |ts| > 0 && (forall i | 0 <= i < |ts| :: ts[i].min <= ts[i].max)
    && forall i | 0 <= i < |ts| - 1 :: ts[i].max == ts[i + 1].min
  }

  function TotalPercentage(cs: seq<ClassArea>): real {
    if |cs| == 0 then 0.0 else TotalPercentage(cs[..|cs| - 1]) + cs[|cs| - 1].percentage
  }

  lemma {:induction false} CountAdds(xs: seq<real>, low: real, mid: real, high: real)
    requires low <= mid <= high
    ensures CountBetween(xs, low, high) == CountBetween(xs, low, mid) + CountBetween(xs, mid, high)
  {
    if |xs| > 0 {
      CountAdds(xs[..|xs| - 1], low, mid, high);
    }
  }

  lemma {:induction false} CountAll(xs: seq<real>, low: real, high: real)
    requires forall i | 0 <= i < |xs| :: low <= xs[i] < high
    ensures CountBetween(xs, low, high) == |xs|
  {
    if |xs| > 0 {
      CountAll(xs[..|xs| - 1], low, high);
    }
  }

  lemma ClassPercentage(xs: seq<real>, t: Threshold, pixelArea: real)
    requires |xs| > 0 && pixelArea != 0.0
    ensures ClassOf(xs, t, pixelArea).percentage == Percent(CountBetween(xs, t.min, t.max), |xs|)
  {
  }

  lemma MinimaOrdered(ts: seq<Threshold>)
    requires Contiguous(ts)
    ensures ts[0].min <= ts[|ts| - 1].min
    decreases |ts|
  {
    if |ts| > 1 {
      MinimaOrdered(ts[..|ts| - 1]);
    }
  }

  lemma {:induction false} PercentagesTelescope(xs: seq<real>, ts: seq<Threshold>, pixelArea: real)
    requires |xs| > 0 && pixelArea != 0.0 && Contiguous(ts)
    ensures TotalPercentage(Classes(xs, ts, pixelArea))
            == Percent(CountBetween(xs, ts[0].min, ts[|ts| - 1].max), |xs|)
    decreases |ts|
  {
    hide ClassOf, Percent, CountBetween;
    var n := |ts| - 1;
    var cs := Classes(xs, ts, pixelArea);
    ClassPercentage(xs, ts[n], pixelArea);
    assert cs[..n] == Classes(xs, ts[..n], pixelArea);
    if n > 0 {
      PercentagesTelescope(xs, ts[..n], pixelArea);
      MinimaOrdered(ts);
      CountAdds(xs, ts[0].min, ts[n].min, ts[n].max);
      PercentAdds(CountBetween(xs, ts[0].min, ts[n].min), CountBetween(xs, ts[n].min, ts[n].max), |xs|);
    }
  }

  /** Classes that meet end to end and span every selected value share out the whole field. */
  lemma ClassAreasAddUp(xs: seq<real>, ts: seq<Threshold>, pixelArea: real)
    requires |xs| > 0 && pixelArea != 0.0 && Contiguous(ts)
    requires forall i | 0 <= i < |xs| :: ts[0].min <= xs[i] < ts[|ts| - 1].max
    ensures TotalPercentage(Classes(xs, ts, pixelArea)) == 100.0
  {
    hide ClassOf, CountBetween;
    PercentagesTelescope(xs, ts, pixelArea);
    CountAll(xs, ts[0].min, ts[|ts| - 1].max);
    Quotient(|xs| as real, |xs| as real, 1.0);
  }

  /** How `_pixel_area_sq_m` finds the area of a pixel. */
  datatype PixelArea = Projected | Geographic(polygonArea: real)

  function AreaOf(g: Raster, area: PixelArea, fieldPixels: nat): real {
    match area
    case Projected => g.dx * g.dy
    case Geographic(a) => a / (if fieldPixels > 1 then fieldPixels as real else 1.0)
  }

  /** The decoded samples (every numeric aggregate is a function of them), the counts and classes. */
  datatype IndexStats = IndexStats(samples: seq<real>, validPixels: nat, usablePercentage: real,
                                   classes: seq<ClassArea>)

  const NO_STATS := IndexStats([], 0, 0.0, [])

  datatype Request = Request(area: PixelArea, nodata: Option<real>, scale: Option<real>, thresholds: seq<Threshold>)

  function StatsOf(g: Raster, values: Grid<Float>, field: Membership, request: Request): IndexStats {
    var valid := ValidMask(values, field, request.nodata);
    var samples := DecodeAll(Selected(values, valid), request.scale);
    var fieldPixels := Count(values.height, values.width, field);
    if |samples| == 0 then NO_STATS else
      IndexStats(samples, Count(values.height, values.width, valid),
                 Percent(Count(values.height, values.width, valid), fieldPixels),
                 Classes(samples, request.thresholds, AreaOf(g, request.area, fieldPixels)))
  }

  /** `raster_stats`: the same computation on the polygon's window. */
  function RasterStats(g: Raster, b: Bounds, values: Grid<Float>, field: Membership, request: Request): IndexStats {
    match PolygonWindow(g, b)
    case None => NO_STATS
    case Some(w) => StatsOf(g, Read(values, w), Shifted(field, w), request)
  }

  lemma CountShifted(p: Membership, q: Membership, height: nat, width: nat, w: Window)
    requires Inside(w, height, width) && Confined(p, height, width, w)
    requires forall r: nat, c: nat :: q(r, c) == p(w.row + r, w.col + c)
    ensures Count(w.height, w.width, q) == Count(height, width, p)
  {
    WindowedCount(p, height, width, w);
    assert Where(w.height, w.width, q) == Where(w.height, w.width, Shifted(p, w));
  }

  lemma {:induction false} SameSelection<T>(cell: (nat, nat) -> T, p: Membership, q: Membership, top: nat, bottom: nat,
                                            lo: nat, hi: nat)
    requires top <= bottom && lo <= hi && forall r: nat, c: nat :: p(r, c) == q(r, c)
    ensures Selection(cell, p, top, bottom, lo, hi) == Selection(cell, q, top, bottom, lo, hi)
    decreases bottom - top
  {
    if top < bottom {
      SameRow(cell, p, q, top, lo, hi);
      SameSelection(cell, p, q, top + 1, bottom, lo, hi);
    }
  }

  lemma {:induction false} SameRow<T>(cell: (nat, nat) -> T, p: Membership, q: Membership, r: nat, lo: nat, hi: nat)
    requires lo <= hi && forall r: nat, c: nat :: p(r, c) == q(r, c)
    ensures RowSelection(cell, p, r, lo, hi) == RowSelection(cell, q, r, lo, hi)
    decreases hi - lo
  {
    if lo < hi {
      SameRow(cell, p, q, r, lo + 1, hi);
    }
  }

  /** A windowed read is identical to a full-band read: the same samples in the same order, the
      same counts and the same class areas. */
  lemma WindowedStatsAreFull(g: Raster, b: Bounds, values: Grid<Float>, field: Membership, request: Request)
    requires values.height == g.height && values.width == g.width && WithinBounds(g, b, field)
    ensures RasterStats(g, b, values, field, request) == StatsOf(g, values, field, request)
  {
    hide PolygonWindow, Selection, Count, Classes, AreaOf, Percent, CentreInBounds, Confined;
    WindowConfines(g, b, field);
    var valid := ValidMask(values, field, request.nodata);
    match PolygonWindow(g, b) {
      case None =>
        NothingSelected(values, valid);
      case Some(w) =>
        var tile, tileField := Read(values, w), Shifted(field, w);
        var tileValid := ValidMask(tile, tileField, request.nodata);
        ConfinedSubset(valid, field, g.height, g.width, w);
        WindowedSelection(values, valid, w);
        SameSelection(tile.cell, tileValid, Shifted(valid, w), 0, w.height, 0, w.width);
        CountShifted(valid, tileValid, g.height, g.width, w);
        CountShifted(field, tileField, g.height, g.width, w);
    }
  }

  lemma ConfinedSubset(p: Membership, q: Membership, height: nat, width: nat, w: Window)
    requires Confined(q, height, width, w) && forall r: nat, c: nat :: p(r, c) ==> q(r, c)
    ensures Confined(p, height, width, w)
  {
  }

  /** The usable share of an index read is a percentage. */
  lemma UsableShareInRange(g: Raster, values: Grid<Float>, field: Membership, request: Request)
    ensures 0.0 <= StatsOf(g, values, field, request).usablePercentage <= 100.0
  {
    hide Count, Percent, Selection, Classes, AreaOf;
    var valid := ValidMask(values, field, request.nodata);
    CountMonotone(values.height, values.width, valid, field);
    PercentInRange(Count(values.height, values.width, valid), Count(values.height, values.width, field));
  }

  // ---- Mask statistics ----

  datatype ClassPolicy = ClassPolicy(nodata: set<int>, usable: set<int>, cloud: set<int>, shadow: set<int>)

  datatype MaskStats = MaskStats(fieldPixels: nat, covered: nat, usable: nat, cloud: nat, shadow: nat,
                                 coveragePercent: real, usablePercent: real, cloudPercent: real,
                                 shadowPercent: real, obscuredPercent: real)

  const NO_MASK_STATS := MaskStats(0, 0, 0, 0, 0, 0.0, 0.0, 0.0, 0.0, 0.0)

  function InClasses(values: Grid<int>, field: Membership, classes: set<int>): Membership {
    (r: nat, c: nat) => field(r, c) && values.cell(r, c) in classes
  }

  function CoveredMask(values: Grid<int>, field: Membership, nodata: set<int>): Membership {
    (r: nat, c: nat) => field(r, c) && values.cell(r, c) !in nodata
  }

  function CountIn(values: Grid<int>, field: Membership, classes: set<int>): nat {
    Count(values.height, values.width, InClasses(values, field, classes))
  }

  function MaskStatsOf(values: Grid<int>, field: Membership, policy: ClassPolicy): MaskStats {
    var n := Count(values.height, values.width, field);
    if n == 0 then NO_MASK_STATS else
      var covered := Count(values.height, values.width, CoveredMask(values, field, policy.nodata));
      var usable := CountIn(values, field, policy.usable);
      var cloud := CountIn(values, field, policy.cloud);
      var shadow := CountIn(values, field, policy.shadow);
      var obscured := CountIn(values, field, policy.cloud + policy.shadow);
      MaskStats(n, covered, usable, cloud, shadow, Percent(covered, n), Percent(usable, n),
                Percent(cloud, n), Percent(shadow, n), Percent(obscured, n))
  }

  /** `categorical_mask_stats`. */
  function CategoricalMaskStats(g: Raster, b: Bounds, values: Grid<int>, field: Membership,
                                policy: ClassPolicy): MaskStats {
    match PolygonWindow(g, b)
    case None => NO_MASK_STATS
    case Some(w) => MaskStatsOf(Read(values, w), Shifted(field, w), policy)
  }

  lemma CountInShifted(values: Grid<int>, field: Membership, classes: set<int>, w: Window)
    requires Inside(w, values.height, values.width) && Confined(field, values.height, values.width, w)
    ensures CountIn(Read(values, w), Shifted(field, w), classes) == CountIn(values, field, classes)
  {
    hide Count;
    ConfinedSubset(InClasses(values, field, classes), field, values.height, values.width, w);
    CountShifted(InClasses(values, field, classes), InClasses(Read(values, w), Shifted(field, w), classes),
                 values.height, values.width, w);
  }

  lemma WindowedMaskStatsAreFull(g: Raster, b: Bounds, values: Grid<int>, field: Membership, policy: ClassPolicy)
    requires values.height == g.height && values.width == g.width && WithinBounds(g, b, field)
    ensures CategoricalMaskStats(g, b, values, field, policy) == MaskStatsOf(values, field, policy)
  {
    hide PolygonWindow, Count, CountIn, Percent, CentreInBounds, Confined;
    WindowConfines(g, b, field);
    match PolygonWindow(g, b) {
      case None =>
        NoneCounted(g.height, g.width, field);
      case Some(w) =>
        CountShifted(field, Shifted(field, w), g.height, g.width, w);
        ConfinedSubset(CoveredMask(values, field, policy.nodata), field, g.height, g.width, w);
        CountShifted(CoveredMask(values, field, policy.nodata),
                     CoveredMask(Read(values, w), Shifted(field, w), policy.nodata), g.height, g.width, w);
        CountInShifted(values, field, policy.usable, w);
        CountInShifted(values, field, policy.cloud, w);
        CountInShifted(values, field, policy.shadow, w);
        CountInShifted(values, field, policy.cloud + policy.shadow, w);
    }
  }

  lemma NoneCounted(height: nat, width: nat, p: Membership)
    requires forall r: nat, c: nat :: r < height && c < width ==> !p(r, c)
    ensures Count(height, width, p) == 0
  {
  }

  /** With a policy whose classes are disjoint, cloud and shadow make up the obscured share, usable
      and obscured pixels fit in the covered ones, and every share is a percentage. */
  lemma MaskStatsConserve(values: Grid<int>, field: Membership, policy: ClassPolicy)
    requires policy.cloud !! policy.shadow && policy.usable !! policy.cloud + policy.shadow
    requires policy.nodata !! policy.usable + policy.cloud + policy.shadow
    ensures var s := MaskStatsOf(values, field, policy);
            && s.usable + s.cloud + s.shadow <= s.covered <= s.fieldPixels
            && s.obscuredPercent == s.cloudPercent + s.shadowPercent
            && 0.0 <= s.usablePercent <= 100.0 && 0.0 <= s.coveragePercent <= 100.0
            && 0.0 <= s.obscuredPercent <= 100.0 && 0.0 <= s.cloudPercent <= 100.0 && 0.0 <= s.shadowPercent <= 100.0
  {
    hide Count, Percent;
    var h, w := values.height, values.width;
    var obscured := policy.cloud + policy.shadow;
    var covered := CoveredMask(values, field, policy.nodata);
    CountSplits(h, w, InClasses(values, field, obscured), InClasses(values, field, policy.cloud),
                InClasses(values, field, policy.shadow));
    CountSplits(h, w, InClasses(values, field, policy.usable + obscured), InClasses(values, field, policy.usable),
                InClasses(values, field, obscured));
    CountMonotone(h, w, InClasses(values, field, policy.usable + obscured), covered);
    CountMonotone(h, w, covered, field);
    var n := Count(h, w, field);
    PercentAdds(CountIn(values, field, policy.cloud), CountIn(values, field, policy.shadow), n);
    PercentInRange(CountIn(values, field, policy.usable), n);
    PercentInRange(Count(h, w, covered), n);
    PercentInRange(CountIn(values, field, obscured), n);
    PercentInRange(CountIn(values, field, policy.cloud), n);
    PercentInRange(CountIn(values, field, policy.shadow), n);
  }

  // ---- SAR statistics ----

  /** Per band the selected samples; across bands the pixels that are valid in every band. */
  datatype SarStats = SarStats(fieldPixels: nat, validPixels: nat, coveragePercent: real, bands: seq<seq<Float>>)

  const NO_SAR_STATS := SarStats(0, 0, 0.0, [])

  function ValidEverywhere(bands: seq<Grid<Float>>, field: Membership, nodata: Option<real>): Membership {
    (r: nat, c: nat) => field(r, c) && forall b | 0 <= b < |bands| :: ValidSample(bands[b].cell(r, c), nodata)
  }

  function SarStatsOf(bands: seq<Grid<Float>>, height: nat, width: nat, field: Membership,
                      nodata: Option<real>): SarStats {
    var n := Count(height, width, field);
    if n <= 0 then NO_SAR_STATS else
      var valid := Count(height, width, ValidEverywhere(bands, field, nodata));
      SarStats(n, valid, Percent(valid, n),
               seq(|bands|, b requires 0 <= b < |bands| => Selected(bands[b], ValidMask(bands[b], field, nodata))))
  }

  function Bits(a: array2<bool>): (p: Membership)
    reads a
    ensures forall r: nat, c: nat | r < a.Length0 && c < a.Length1 :: p(r, c) == a[r, c]
  {
    var rows := seq(a.Length0, r requires 0 <= r < a.Length0 reads a =>
                      seq(a.Length1, c requires 0 <= c < a.Length1 reads a => a[r, c]));
    (r: nat, c: nat) => r < |rows| && c < |rows[r]| && rows[r][c]
  }

  /** The band loop of `sar_field_stats`, narrowing `common_valid` in place. */
  method SarBandLoop(bands: seq<Grid<Float>>, height: nat, width: nat, field: Membership, nodata: Option<real>)
    returns (stats: SarStats)
    requires forall b | 0 <= b < |bands| :: bands[b].height == height && bands[b].width == width
    ensures stats == SarStatsOf(bands, height, width, field, nodata)
  {
    hide Count, Selection, Percent, ValidSample;
    var n := Count(height, width, field);
    if n <= 0 {
      return NO_SAR_STATS;
    }
    var commonValid := new bool[height, width]((r, c) => r >= 0 && c >= 0 && field(r, c));
    var selected: seq<seq<Float>> := [];
    for offset := 0 to |bands|
      invariant |selected| == offset
      invariant forall b | 0 <= b < offset :: selected[b] == Selected(bands[b], ValidMask(bands[b], field, nodata))
      invariant forall r: nat, c: nat | r < height && c < width ::
                  commonValid[r, c] <==> ValidEverywhere(bands[..offset], field, nodata)(r, c)
    {
      var band := bands[offset];
      var valid := ValidMask(band, field, nodata);
      forall r: nat, c: nat | r < height && c < width {
        commonValid[r, c] := commonValid[r, c] && valid(r, c);
      }
      selected := selected + [Selected(band, valid)];
    }
    assert bands[..|bands|] == bands;
    SameCount(height, width, Bits(commonValid), ValidEverywhere(bands, field, nodata));
    var validPixels := Count(height, width, Bits(commonValid));
    stats := SarStats(n, validPixels, Percent(validPixels, n), selected);
  }

  /** `sar_field_stats`. */
  function SarFieldStats(g: Raster, b: Bounds, bands: seq<Grid<Float>>, field: Membership,
                         nodata: Option<real>): SarStats {
    match PolygonWindow(g, b)
    case None => NO_SAR_STATS
    case Some(w) => SarStatsOf(ReadAll(bands, w), w.height, w.width, Shifted(field, w), nodata)
  }

  lemma SarWindow(bands: seq<Grid<Float>>, height: nat, width: nat, w: Window, field: Membership, nodata: Option<real>)
    requires forall b | 0 <= b < |bands| :: bands[b].height == height && bands[b].width == width
    requires Inside(w, height, width) && Confined(field, height, width, w)
    ensures SarStatsOf(ReadAll(bands, w), w.height, w.width, Shifted(field, w), nodata)
            == SarStatsOf(bands, height, width, field, nodata)
  {
    hide Count, Selection, Percent, ValidSample, Confined;
    var tiles, tileField := ReadAll(bands, w), Shifted(field, w);
    CountShifted(field, tileField, height, width, w);
    ConfinedSubset(ValidEverywhere(bands, field, nodata), field, height, width, w);
    forall r: nat, c: nat
      ensures ValidEverywhere(tiles, tileField, nodata)(r, c)
              == ValidEverywhere(bands, field, nodata)(w.row + r, w.col + c)
    {
      assert forall k | 0 <= k < |bands| :: tiles[k].cell(r, c) == bands[k].cell(w.row + r, w.col + c);
    }
    CountShifted(ValidEverywhere(bands, field, nodata), ValidEverywhere(tiles, tileField, nodata), height, width, w);
    forall b | 0 <= b < |bands|
      ensures Selected(tiles[b], ValidMask(tiles[b], tileField, nodata))
              == Selected(bands[b], ValidMask(bands[b], field, nodata))
    {
      var valid := ValidMask(bands[b], field, nodata);
      ConfinedSubset(valid, field, height, width, w);
      WindowedSelection(bands[b], valid, w);
      SameSelection(tiles[b].cell, ValidMask(tiles[b], tileField, nodata), Shifted(valid, w), 0, w.height, 0, w.width);
    }
  }

  /** Windowed SAR statistics equal those of a full-band read, and the qualified pixels of the field
      are valid in every band, so never more than any band has. */
  lemma WindowedSarStatsAreFull(g: Raster, b: Bounds, bands: seq<Grid<Float>>, field: Membership, nodata: Option<real>)
    requires forall k | 0 <= k < |bands| :: bands[k].height == g.height && bands[k].width == g.width
    requires WithinBounds(g, b, field)
    ensures SarFieldStats(g, b, bands, field, nodata) == SarStatsOf(bands, g.height, g.width, field, nodata)
    ensures forall k | 0 <= k < |SarFieldStats(g, b, bands, field, nodata).bands| ::
              SarFieldStats(g, b, bands, field, nodata).validPixels
              <= |SarFieldStats(g, b, bands, field, nodata).bands[k]|
  {
    hide PolygonWindow, Count, Selection, Percent, CentreInBounds, Confined, ValidSample;
    WindowConfines(g, b, field);
    match PolygonWindow(g, b) {
      case None => NoneCounted(g.height, g.width, field);
      case Some(w) => SarWindow(bands, g.height, g.width, w, field, nodata);
    }
    forall k | 0 <= k < |bands|
      ensures Count(g.height, g.width, ValidEverywhere(bands, field, nodata))
              <= |Selected(bands[k], ValidMask(bands[k], field, nodata))|
    {
      SelectedCount(bands[k], ValidMask(bands[k], field, nodata));
      CountMonotone(g.height, g.width, ValidEverywhere(bands, field, nodata), ValidMask(bands[k], field, nodata));
    }
  }
}

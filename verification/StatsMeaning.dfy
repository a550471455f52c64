/** What the field statistics say, pixel by pixel of the full raster: which samples are selected and how they
    are decoded, what every count counts, and what every share is a share of. */
module StatsMeaning {
  import opened Wrappers
  import opened Rounding
  import opened Floats
  import opened PixelGrid
  import opened TileWindows
  import opened PixelSelection
  import opened FieldWindow
  import opened FieldStats
  import IndexEncoding

  // ---- Row-major order ----

  predicate Precedes(a: Pixel, b: Pixel) { a.0 < b.0 || (a.0 == b.0 && a.1 < b.1) }

  /** The pixels of a grid with a property, row by row and from left to right; there is only one such list. */
  ghost predicate Lists(ps: seq<Pixel>, height: nat, width: nat, p: (nat, nat) -> bool) {
    && (forall i, j | 0 <= i < j < |ps| :: Precedes(ps[i], ps[j]))
    && forall r: nat, c: nat :: (r, c) in ps <==> r < height && c < width && p(r, c)
  }

  /** Part of such a list: rows `top` up to `bottom`, columns `lo` up to `hi`. */
  ghost predicate ListsPart(ps: seq<Pixel>, p: (nat, nat) -> bool, top: nat, bottom: nat, lo: nat, hi: nat) {
    && (forall i, j | 0 <= i < j < |ps| :: Precedes(ps[i], ps[j]))
    && forall r: nat, c: nat :: (r, c) in ps <==> top <= r < bottom && lo <= c < hi && p(r, c)
  }

  /** The samples at those pixels. */
  ghost predicate AreAt<T>(xs: seq<T>, cell: (nat, nat) -> T, ps: seq<Pixel>) {
    |xs| == |ps| && forall i | 0 <= i < |ps| :: xs[i] == cell(ps[i].0, ps[i].1)
  }

  lemma AreAtAppends<T>(xs: seq<T>, ps: seq<Pixel>, ys: seq<T>, qs: seq<Pixel>, cell: (nat, nat) -> T)
    requires AreAt(xs, cell, ps) && AreAt(ys, cell, qs)
    ensures AreAt(xs + ys, cell, ps + qs)
  {
  }

  lemma {:induction false} RowIs<T>(cell: (nat, nat) -> T, keep: (nat, nat) -> bool, r: nat, lo: nat, hi: nat)
    returns (ps: seq<Pixel>)
    requires lo <= hi
    ensures ListsPart(ps, keep, r, r + 1, lo, hi) && AreAt(RowSelection(cell, keep, r, lo, hi), cell, ps)
    decreases hi - lo
  {
    ps := [];
    if lo < hi {
      var rest := RowIs(cell, keep, r, lo + 1, hi);
      PixelJoins(rest, keep, r, lo, hi);
      hide ListsPart;
      if keep(r, lo) {
        AreAtAppends([cell(r, lo)], [(r, lo)], RowSelection(cell, keep, r, lo + 1, hi), rest, cell);
        ps := [(r, lo)] + rest;
      } else {
        ps := rest;
      }
    }
  }

  lemma PixelJoins(rest: seq<Pixel>, keep: (nat, nat) -> bool, r: nat, lo: nat, hi: nat)
    requires lo < hi && ListsPart(rest, keep, r, r + 1, lo + 1, hi)
    ensures ListsPart(if keep(r, lo) then [(r, lo)] + rest else rest, keep, r, r + 1, lo, hi)
  {
    forall i | 0 <= i < |rest| ensures Precedes((r, lo), rest[i]) {
      assert rest[i] in rest;
    }
  }

  lemma PartsJoin(ps: seq<Pixel>, qs: seq<Pixel>, p: (nat, nat) -> bool, top: nat, bottom: nat, lo: nat, hi: nat)
    requires top < bottom && ListsPart(ps, p, top, top + 1, lo, hi) && ListsPart(qs, p, top + 1, bottom, lo, hi)
    ensures ListsPart(ps + qs, p, top, bottom, lo, hi)
  {
    forall i, j | 0 <= i < |ps| && 0 <= j < |qs| ensures Precedes(ps[i], qs[j]) {
      assert ps[i] in ps && qs[j] in qs;
    }
  }

  lemma {:induction false} RowsAre<T>(cell: (nat, nat) -> T, keep: (nat, nat) -> bool, top: nat, bottom: nat, lo: nat,
                                      hi: nat)
    returns (ps: seq<Pixel>)
    requires top <= bottom && lo <= hi
    ensures ListsPart(ps, keep, top, bottom, lo, hi) && AreAt(Selection(cell, keep, top, bottom, lo, hi), cell, ps)
    decreases bottom - top
  {
    ps := [];
    if top < bottom {
      hide ListsPart, RowSelection, AreAt;
      var row := RowIs(cell, keep, top, lo, hi);
      var rest := RowsAre(cell, keep, top + 1, bottom, lo, hi);
      PartsJoin(row, rest, keep, top, bottom, lo, hi);
      AreAtAppends(RowSelection(cell, keep, top, lo, hi), row, Selection(cell, keep, top + 1, bottom, lo, hi), rest,
                   cell);
      ps := row + rest;
    }
  }

  /** A selection under a mask is the samples of the mask's pixels in row-major order. */
  lemma SelectedIs<T>(g: Grid<T>, keep: (nat, nat) -> bool) returns (ps: seq<Pixel>)
    ensures Lists(ps, g.height, g.width, keep) && |Selected(g, keep)| == |ps|
    ensures forall i | 0 <= i < |ps| :: Selected(g, keep)[i] == g.cell(ps[i].0, ps[i].1)
  {
    ps := RowsAre(g.cell, keep, 0, g.height, 0, g.width);
  }

  // ---- Index statistics ----

  /** The field pixels that carry a sample: finite and not nodata. */
  function Carries(values: Grid<Float>, field: Membership, nodata: Option<real>): (nat, nat) -> bool {
    (r: nat, c: nat) =>
      && field(r, c) && values.cell(r, c).Num?
      && match nodata case None => true case Some(n) => values.cell(r, c).value != n
  }

  /** A sample times the scale is what is stored, where a scale other than zero is given. */
  predicate DecodesTo(stored: real, sample: real, scale: Option<real>) {
    match scale
    case None => sample == stored
    case Some(k) => if k == 0.0 then sample == stored else sample * k == stored
  }

  ghost function FieldPixels(height: nat, width: nat, field: Membership): set<Pixel> {
    set r: nat, c: nat | r < height && c < width && field(r, c) :: (r, c)
  }

  /** The area of a pixel times what it is a part of. */
  predicate IsPixelArea(a: real, g: Raster, area: PixelArea, fieldPixels: nat) {
    match area
    case Projected => a == g.dx * g.dy
    case Geographic(polygonArea) =>
      if fieldPixels == 0 then a == polygonArea else a * fieldPixels as real == polygonArea
  }

  predicate IsShare(percent: real, part: real, whole: real) {
    percent * whole == 100.0 * part && (whole == 0.0 ==> percent == 0.0)
  }

  /** A class has as much area as it has samples, and the share of the selected area that this is. */
  ghost predicate IsClassArea(a: ClassArea, t: Threshold, samples: seq<real>, pixelArea: real) {
    && a.name == t.name
    && a.area == |set i | 0 <= i < |samples| && t.min <= samples[i] < t.max| as real * pixelArea
    && IsShare(a.percentage, a.area, |samples| as real * pixelArea)
  }

  /** The whole of `raster_stats`, in terms of the full raster. */
  lemma StatsMean(g: Raster, b: Bounds, values: Grid<Float>, field: Membership, request: Request)
    returns (ps: seq<Pixel>, pixelArea: real)
    requires values.height == g.height && values.width == g.width && WithinBounds(g, b, field)
    ensures Lists(ps, g.height, g.width, Carries(values, field, request.nodata))
    ensures var s := RasterStats(g, b, values, field, request);
            && |s.samples| == |ps| == s.validPixels
            && forall i | 0 <= i < |ps| ::
                 && values.cell(ps[i].0, ps[i].1).Num?
                 && DecodesTo(values.cell(ps[i].0, ps[i].1).value, s.samples[i], request.scale)
    ensures var s := RasterStats(g, b, values, field, request);
            var fieldPixels := |FieldPixels(g.height, g.width, field)|;
            && IsPixelArea(pixelArea, g, request.area, fieldPixels)
            && IsShare(s.usablePercentage, |ps| as real, fieldPixels as real)
            && (ps == [] ==> s.classes == [])
            && (ps != [] ==> && |s.classes| == |request.thresholds|
                             && forall i | 0 <= i < |s.classes| ::
                                  IsClassArea(s.classes[i], request.thresholds[i], s.samples, pixelArea))
  {
    hide PolygonWindow, Selection, ClassOf, CentreInBounds, WithinBounds, Decode, AreaOf, RasterStats, Count;
    WindowedStatsAreFull(g, b, values, field, request);
    var valid := ValidMask(values, field, request.nodata);
    ps := SelectedIs(values, valid);
    CarriesIsValid(values, field, request.nodata, ps, g.height, g.width);
    SelectedCount(values, valid);
    var fieldPixels := Count(g.height, g.width, field);
    FieldCount(g.height, g.width, field);
    pixelArea := AreaOf(g, request.area, fieldPixels);
    AreaMeans(g, request.area, fieldPixels);
    CountMonotone(g.height, g.width, valid, field);
    ShareMeans(|ps|, fieldPixels);
    var s := StatsOf(g, values, field, request);
    forall i | 0 <= i < |ps|
      ensures values.cell(ps[i].0, ps[i].1).Num?
      ensures DecodesTo(values.cell(ps[i].0, ps[i].1).value, s.samples[i], request.scale)
    {
      assert ps[i] in ps;
      DecodeMeans(values.cell(ps[i].0, ps[i].1), request.scale);
    }
    if ps != [] {
      forall i | 0 <= i < |s.classes|
        ensures IsClassArea(s.classes[i], request.thresholds[i], s.samples, pixelArea)
      {
        ClassMeans(s.samples, request.thresholds[i], pixelArea);
      }
    }
  }

  lemma ValidSampleMeans(x: Float, nodata: Option<real>)
    ensures ValidSample(x, nodata) <==> x.Num? && match nodata case None => true case Some(n) => x.value != n
  {
  }

  lemma CarriesIsValid(values: Grid<Float>, field: Membership, nodata: Option<real>, ps: seq<Pixel>, height: nat,
                       width: nat)
    requires Lists(ps, height, width, ValidMask(values, field, nodata))
    ensures Lists(ps, height, width, Carries(values, field, nodata))
  {
    forall r: nat, c: nat ensures ValidMask(values, field, nodata)(r, c) == Carries(values, field, nodata)(r, c) {
      ValidSampleMeans(values.cell(r, c), nodata);
    }
  }

  lemma FieldCount(height: nat, width: nat, field: Membership)
    ensures Count(height, width, field) == |FieldPixels(height, width, field)|
  {
    assert Where(height, width, field) == FieldPixels(height, width, field);
  }

  lemma AreaMeans(g: Raster, area: PixelArea, fieldPixels: nat)
    ensures IsPixelArea(AreaOf(g, area, fieldPixels), g, area, fieldPixels)
  {
    if area.Geographic? && fieldPixels > 0 {
      Quotient(area.polygonArea, fieldPixels as real, AreaOf(g, area, fieldPixels));
    }
  }

  lemma ShareMeans(part: nat, whole: nat)
    requires part <= whole
    ensures IsShare(Percent(part, whole), part as real, whole as real)
  {
  }

  lemma DecodeMeans(x: Float, scale: Option<real>)
    ensures x.Num? ==> DecodesTo(x.value, Decode(x, scale), scale)
  {
    if x.Num? && scale.Some? && scale.value != 0.0 {
      Quotient(x.value, scale.value, Decode(x, scale));
    }
  }

  lemma {:induction false} BetweenCount(xs: seq<real>, low: real, high: real)
    ensures CountBetween(xs, low, high) == |set i | 0 <= i < |xs| && low <= xs[i] < high|
  {
    var here := set i | 0 <= i < |xs| && low <= xs[i] < high;
    if |xs| == 0 {
      assert here == {};
    } else {
      var n := |xs| - 1;
      BetweenCount(xs[..n], low, high);
      var before := set i | 0 <= i < n && low <= xs[..n][i] < high;
      assert here == before + if low <= xs[n] < high then {n} else {};
    }
  }

  lemma ClassMeans(xs: seq<real>, t: Threshold, pixelArea: real)
    ensures IsClassArea(ClassOf(xs, t, pixelArea), t, xs, pixelArea)
  {
    BetweenCount(xs, t.min, t.max);
    var c, total := ClassOf(xs, t, pixelArea), |xs| as real * pixelArea;
    AreaShare(c.area, total, c.percentage, |xs|, CountBetween(xs, t.min, t.max), pixelArea);
  }

  lemma AreaShare(area: real, total: real, percentage: real, n: nat, count: nat, pixelArea: real)
    requires total == n as real * pixelArea && area == count as real * pixelArea
    requires n == 0 ==> count == 0
    requires percentage == if total != 0.0 then area / total * 100.0 else 0.0
    ensures IsShare(percentage, area, total)
  {
    if total == 0.0 {
      assert n == 0 || pixelArea == 0.0;
    } else {
      Quotient(area, total, area / total);
    }
  }

  /** An index stored as int16 is selected exactly where it was finite, and reads back within half a step of
      the clipped index. */
  lemma StoredIndexReadsBack(values: Grid<Float>, field: Membership, index: (nat, nat) -> Float, r: nat, c: nat,
                             sample: real)
    requires values.cell(r, c) == Num(IndexEncoding.Short(index(r, c)) as real)
    ensures Carries(values, field, Some(-32768.0))(r, c) <==> field(r, c) && index(r, c).Num?
    ensures index(r, c).Num? && DecodesTo(values.cell(r, c).value, sample, Some(10000.0)) ==>
              && -1.0 <= sample <= 1.0
              && Abs(sample - (if index(r, c).value < -1.0 then -1.0 else if index(r, c).value > 1.0 then 1.0
                               else index(r, c).value)) <= 1.0 / 20000.0
  {
    hide IndexEncoding.EncodeShort, IndexEncoding.Decoded, IndexEncoding.Short;
    IndexEncoding.EncodingRange(index(r, c));
    if index(r, c).Num? {
      IndexEncoding.EncodingError(index(r, c).value);
      DecodedIs(IndexEncoding.Short(index(r, c)), sample);
    }
  }

  lemma DecodedIs(k: int, sample: real)
    ensures sample * 10000.0 == k as real ==> sample == IndexEncoding.Decoded(k)
  {
  }

  // ---- Mask statistics ----

  ghost function FieldClasses(values: Grid<int>, field: Membership, classes: set<int>): set<Pixel> {
    set r: nat, c: nat | r < values.height && c < values.width && field(r, c) && values.cell(r, c) in classes :: (r, c)
  }

  /** The whole of `categorical_mask_stats`: what it counts on the full raster, all shares of the field. */
  lemma MaskStatsMean(g: Raster, b: Bounds, values: Grid<int>, field: Membership, policy: ClassPolicy)
    requires values.height == g.height && values.width == g.width && WithinBounds(g, b, field)
    ensures var s := CategoricalMaskStats(g, b, values, field, policy);
            var whole := s.fieldPixels as real;
            && s.fieldPixels == |FieldPixels(g.height, g.width, field)|
            && s.covered == |FieldPixels(g.height, g.width, field) - FieldClasses(values, field, policy.nodata)|
            && s.usable == |FieldClasses(values, field, policy.usable)|
            && s.cloud == |FieldClasses(values, field, policy.cloud)|
            && s.shadow == |FieldClasses(values, field, policy.shadow)|
            && IsShare(s.coveragePercent, s.covered as real, whole)
            && IsShare(s.usablePercent, s.usable as real, whole)
            && IsShare(s.cloudPercent, s.cloud as real, whole)
            && IsShare(s.shadowPercent, s.shadow as real, whole)
            && IsShare(s.obscuredPercent,
                       |FieldClasses(values, field, policy.cloud) + FieldClasses(values, field, policy.shadow)| as real,
                       whole)
  {
    hide PolygonWindow, CentreInBounds, WithinBounds, CategoricalMaskStats, Count, Percent;
    WindowedMaskStatsAreFull(g, b, values, field, policy);
    var n := Count(g.height, g.width, field);
    FieldCount(g.height, g.width, field);
    CoveredCount(values, field, policy.nodata);
    ClassCount(values, field, policy.usable);
    ClassCount(values, field, policy.cloud);
    ClassCount(values, field, policy.shadow);
    ClassCount(values, field, policy.cloud + policy.shadow);
    assert FieldClasses(values, field, policy.cloud + policy.shadow)
        == FieldClasses(values, field, policy.cloud) + FieldClasses(values, field, policy.shadow);
  }

  lemma ClassCount(values: Grid<int>, field: Membership, classes: set<int>)
    ensures CountIn(values, field, classes) == |FieldClasses(values, field, classes)|
    ensures CountIn(values, field, classes) <= Count(values.height, values.width, field)
    ensures IsShare(Percent(CountIn(values, field, classes), Count(values.height, values.width, field)),
                    CountIn(values, field, classes) as real, Count(values.height, values.width, field) as real)
  {
    assert Where(values.height, values.width, InClasses(values, field, classes))
        == FieldClasses(values, field, classes);
    CountMonotone(values.height, values.width, InClasses(values, field, classes), field);
    ShareMeans(CountIn(values, field, classes), Count(values.height, values.width, field));
  }

  lemma CoveredCount(values: Grid<int>, field: Membership, nodata: set<int>)
    ensures var covered := Count(values.height, values.width, CoveredMask(values, field, nodata));
            var whole := Count(values.height, values.width, field);
            && covered == |FieldPixels(values.height, values.width, field) - FieldClasses(values, field, nodata)|
            && covered <= whole && IsShare(Percent(covered, whole), covered as real, whole as real)
  {
    assert Where(values.height, values.width, CoveredMask(values, field, nodata))
        == FieldPixels(values.height, values.width, field) - FieldClasses(values, field, nodata);
    CountMonotone(values.height, values.width, CoveredMask(values, field, nodata), field);
    ShareMeans(Count(values.height, values.width, CoveredMask(values, field, nodata)),
               Count(values.height, values.width, field));
  }

  // ---- SAR statistics ----

  /** The field pixels that carry a sample in every band. */
  ghost function CarriedByAll(bands: seq<Grid<Float>>, height: nat, width: nat, field: Membership,
                              nodata: Option<real>): set<Pixel> {
    set r: nat, c: nat | && r < height && c < width && field(r, c)
                         && forall k | 0 <= k < |bands| :: Carries(bands[k], field, nodata)(r, c) :: (r, c)
  }

  /** The whole of `sar_field_stats` on the full raster; `k` is any band of a field that has pixels. */
  lemma SarStatsMean(g: Raster, b: Bounds, bands: seq<Grid<Float>>, field: Membership, nodata: Option<real>, k: nat)
    returns (ps: seq<Pixel>)
    requires forall k | 0 <= k < |bands| :: bands[k].height == g.height && bands[k].width == g.width
    requires WithinBounds(g, b, field) && k < |bands| && FieldPixels(g.height, g.width, field) != {}
    ensures var s := SarFieldStats(g, b, bands, field, nodata);
            && s.fieldPixels == |FieldPixels(g.height, g.width, field)|
            && s.validPixels == |CarriedByAll(bands, g.height, g.width, field, nodata)|
            && IsShare(s.coveragePercent, s.validPixels as real, s.fieldPixels as real)
            && |s.bands| == |bands| && |s.bands[k]| == |ps|
            && forall i | 0 <= i < |ps| :: s.bands[k][i] == bands[k].cell(ps[i].0, ps[i].1)
    ensures Lists(ps, g.height, g.width, Carries(bands[k], field, nodata))
  {
    hide PolygonWindow, CentreInBounds, WithinBounds, SarFieldStats, Count, Percent, Selection;
    WindowedSarStatsAreFull(g, b, bands, field, nodata);
    FieldCount(g.height, g.width, field);
    EverywhereCount(bands, g.height, g.width, field, nodata);
    ps := SelectedIs(bands[k], ValidMask(bands[k], field, nodata));
    CarriesIsValid(bands[k], field, nodata, ps, g.height, g.width);
  }

  /** A field without pixels has no SAR statistics. */
  lemma NoSarStats(g: Raster, b: Bounds, bands: seq<Grid<Float>>, field: Membership, nodata: Option<real>)
    requires forall k | 0 <= k < |bands| :: bands[k].height == g.height && bands[k].width == g.width
    requires WithinBounds(g, b, field) && FieldPixels(g.height, g.width, field) == {}
    ensures SarFieldStats(g, b, bands, field, nodata) == SarStats(0, 0, 0.0, [])
  {
    hide PolygonWindow, CentreInBounds, WithinBounds, SarFieldStats, Count, Percent, Selection;
    WindowedSarStatsAreFull(g, b, bands, field, nodata);
    FieldCount(g.height, g.width, field);
  }

  lemma EverywhereCount(bands: seq<Grid<Float>>, height: nat, width: nat, field: Membership, nodata: Option<real>)
    ensures var valid := Count(height, width, ValidEverywhere(bands, field, nodata));
            var whole := Count(height, width, field);
            && valid == |CarriedByAll(bands, height, width, field, nodata)|
            && IsShare(Percent(valid, whole), valid as real, whole as real)
  {
    var valid := ValidEverywhere(bands, field, nodata);
    forall r: nat, c: nat
      ensures valid(r, c) <==> field(r, c) && forall k | 0 <= k < |bands| :: Carries(bands[k], field, nodata)(r, c)
    {
    }
    assert Where(height, width, valid) == CarriedByAll(bands, height, width, field, nodata);
    CountMonotone(height, width, valid, field);
    ShareMeans(Count(height, width, valid), Count(height, width, field));
  }
}

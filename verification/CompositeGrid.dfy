/** Snapping an AOI's projected bounds to the pixel lattice of a resolution. */
module CompositeGrid {
  import opened Wrappers
  import opened Rounding

  datatype GridError = InvalidBounds | ResolutionNotPositive

  datatype Snapped = Snapped(west: real, south: real, east: real, north: real,
                             resolution: real, width: int, height: int)

  function Max(a: int, b: int): int { if a < b then b else a }

  /** The `k`-th line of the pixel lattice with spacing `d`. */
  function Line(k: int, d: real): real { k as real * d }

  function LineBelow(x: real, d: real): int
    requires d > 0.0
  {
    (x / d).Floor
  }

  function LineAbove(x: real, d: real): int
    requires d > 0.0
  {
    Ceil(x / d)
  }

  function PixelSpan(low: real, high: real, d: real): int
    requires d > 0.0
  {
    Max(1, RoundHalfEven((high - low) / d))
  }

  function FromProjectedBounds(west: real, south: real, east: real, north: real,
                               resolution: real, paddingPixels: int): Result<Snapped, GridError>
  {
    if west >= east || south >= north then Err(InvalidBounds)
    else if resolution <= 0.0 then Err(ResolutionNotPositive)
    else
      var pad := Line(Max(0, paddingPixels), resolution);
      var w := Line(LineBelow(west - pad, resolution), resolution);
      var s := Line(LineBelow(south - pad, resolution), resolution);
      var e := Line(LineAbove(east + pad, resolution), resolution);
      var n := Line(LineAbove(north + pad, resolution), resolution);
      Ok(Snapped(w, s, e, n, resolution, PixelSpan(w, e, resolution), PixelSpan(s, n, resolution)))
  }

  /** `x` is a whole number of pixels from the origin. */
  ghost predicate OnLattice(x: real, d: real) {
    exists k: int :: x == Line(k, d)
  }

  lemma LineNext(k: int, d: real)
    ensures Line(k + 1, d) == Line(k, d) + d
    ensures Line(k - 1, d) == Line(k, d) - d
  {
  }

  lemma LineSteps(j: int, k: int, d: real)
    requires d > 0.0
    ensures Line(k, d) - Line(j, d) == Line(k - j, d)
    ensures Line(k, d) / d == k as real
    ensures j <= k ==> Line(j, d) <= Line(k, d)
    ensures j < k ==> Line(j, d) + d <= Line(k, d)
  {
  }

  /** A quotient between two integers puts `x` between their lattice lines. */
  lemma FromQuotient(x: real, d: real, q: real, k: int)
    requires d > 0.0 && q * d == x
    ensures k as real <= q ==> Line(k, d) <= x
    ensures q <= k as real ==> x <= Line(k, d)
    ensures q < k as real ==> x < Line(k, d)
    ensures k as real < q ==> Line(k, d) < x
  {
  }

  lemma LinesAround(x: real, d: real)
    requires d > 0.0
    ensures Line(LineBelow(x, d), d) <= x < Line(LineBelow(x, d), d) + d
    ensures Line(LineAbove(x, d), d) - d < x <= Line(LineAbove(x, d), d)
  {
    var a, b, q := LineBelow(x, d), LineAbove(x, d), x / d;
    Quotient(x, d, q);
    assert a as real <= q < (a + 1) as real && (b - 1) as real < q <= b as real;
    FromQuotient(x, d, q, a);
    FromQuotient(x, d, q, a + 1);
    FromQuotient(x, d, q, b);
    FromQuotient(x, d, q, b - 1);
    LineNext(a, d);
    LineNext(b, d);
  }

  /** Lattice lines less than a pixel out of order are in order. */
  lemma LineOrder(j: int, k: int, d: real)
    requires d > 0.0 && Line(j, d) < Line(k, d) + d
    ensures j <= k
  {
    if j > k {
      LineSteps(k, j, d);
    }
  }

  lemma SpanIsExact(j: int, k: int, d: real)
    requires d > 0.0 && j < k
    ensures PixelSpan(Line(j, d), Line(k, d), d) == k - j
  {
    LineSteps(j, k, d);
    LineSteps(0, k - j, d);
    RoundInteger(k - j);
  }

  /** One axis: the snapped interval holds the padded one, is less than a pixel wider on each
      side, and is a whole positive number of pixels long. */
  ghost predicate AxisSnapped(low: real, high: real, d: real, a: real, b: real, span: int) {
    && a <= low < a + d
    && b - d < high <= b
    && span >= 1 && a + Line(span, d) == b
    && OnLattice(a, d) && OnLattice(b, d)
  }

  lemma AxisSnaps(low: real, high: real, d: real)
    requires low < high && d > 0.0
    ensures var a, b := Line(LineBelow(low, d), d), Line(LineAbove(high, d), d);
            AxisSnapped(low, high, d, a, b, PixelSpan(a, b, d))
  {
    var j, k := LineBelow(low, d), LineAbove(high, d);
    LinesAround(low, d);
    LinesAround(high, d);
    LineOrder(j, k, d);
    assert j != k;
    LineSteps(j, k, d);
    SpanIsExact(j, k, d);
  }

  lemma SnapContainsTightly(west: real, south: real, east: real, north: real, resolution: real, padding: int)
    requires west < east && south < north && resolution > 0.0
    ensures var r := FromProjectedBounds(west, south, east, north, resolution, padding);
            var pad := Line(Max(0, padding), resolution);
            && r.Ok? && pad >= 0.0
            && AxisSnapped(west - pad, east + pad, resolution, r.value.west, r.value.east, r.value.width)
            && AxisSnapped(south - pad, north + pad, resolution, r.value.south, r.value.north, r.value.height)
  {
    var pad := Line(Max(0, padding), resolution);
    LineSteps(0, Max(0, padding), resolution);
    AxisSnaps(west - pad, east + pad, resolution);
    AxisSnaps(south - pad, north + pad, resolution);
  }

  /** A grid is refused for bounds without an interior and for a resolution that is not positive, and for nothing
      else. */
  lemma GridFailsExactlyWhen(west: real, south: real, east: real, north: real, resolution: real, padding: int)
    ensures var r := FromProjectedBounds(west, south, east, north, resolution, padding);
            && (r == Err(InvalidBounds) <==> !(west < east && south < north))
            && (r == Err(ResolutionNotPositive) <==> west < east && south < north && !(resolution > 0.0))
            && (r.Ok? <==> west < east && south < north && resolution > 0.0)
  {
  }

  lemma LatticeIsFixed(x: real, d: real)
    requires d > 0.0 && OnLattice(x, d)
    ensures Line(LineBelow(x, d), d) == x && Line(LineAbove(x, d), d) == x
  {
    var k: int :| x == Line(k, d);
    LineSteps(0, k, d);
  }

  /** Snapping a snapped grid again, without padding, changes nothing. */
  lemma SnapIsIdempotent(west: real, south: real, east: real, north: real, resolution: real, padding: int)
    requires west < east && south < north && resolution > 0.0
    ensures var g := FromProjectedBounds(west, south, east, north, resolution, padding).value;
            FromProjectedBounds(g.west, g.south, g.east, g.north, resolution, 0) == Ok(g)
  {
    SnapContainsTightly(west, south, east, north, resolution, padding);
    var g := FromProjectedBounds(west, south, east, north, resolution, padding).value;
    LatticeIsFixed(g.west, resolution);
    LatticeIsFixed(g.south, resolution);
    LatticeIsFixed(g.east, resolution);
    LatticeIsFixed(g.north, resolution);
    LineSteps(0, g.width, resolution);
    LineSteps(0, g.height, resolution);
    assert Line(Max(0, 0), resolution) == 0.0;
    assert g.west < g.east && g.south < g.north;
  }

  /** The grid of a larger AOI at the same resolution contains the smaller AOI's grid, and the
      two share one lattice: they differ by a whole number of pixels. */
  lemma LargerBoundsLargerGrid(w1: real, s1: real, e1: real, n1: real,
                               w2: real, s2: real, e2: real, n2: real, resolution: real, padding: int)
    requires w1 < e1 && s1 < n1 && w2 <= w1 && s2 <= s1 && e1 <= e2 && n1 <= n2 && resolution > 0.0
    ensures var a := FromProjectedBounds(w1, s1, e1, n1, resolution, padding).value;
            var b := FromProjectedBounds(w2, s2, e2, n2, resolution, padding).value;
            && b.west <= a.west && b.south <= a.south && a.east <= b.east && a.north <= b.north
            && OnLattice(a.west - b.west, resolution) && OnLattice(b.north - a.north, resolution)
  {
    SnapContainsTightly(w1, s1, e1, n1, resolution, padding);
    SnapContainsTightly(w2, s2, e2, n2, resolution, padding);
    var a := FromProjectedBounds(w1, s1, e1, n1, resolution, padding).value;
    var b := FromProjectedBounds(w2, s2, e2, n2, resolution, padding).value;
    LatticeOrder(b.west, a.west, resolution);
    LatticeOrder(b.south, a.south, resolution);
    LatticeOrder(a.east, b.east, resolution);
    LatticeOrder(a.north, b.north, resolution);
  }

  lemma LatticeOrder(x: real, y: real, d: real)
    requires d > 0.0 && OnLattice(x, d) && OnLattice(y, d) && x < y + d
    ensures x <= y && OnLattice(y - x, d)
  {
    var j: int :| x == Line(j, d);
    var k: int :| y == Line(k, d);
    LineOrder(j, k, d);
    LineSteps(j, k, d);
  }
}

/** The pixel window that a polygon's statistics are read from, on a north-up raster. */
module FieldWindow {
  import opened Wrappers
  import opened Rounding
  import opened TileWindows
  import opened PixelSelection

  /** A north-up transform: the upper left corner, the pixel size and the shape. */
  datatype NorthUp = NorthUp(left: real, top: real, dx: real, dy: real, width: nat, height: nat)

  type Raster = g: NorthUp | g.dx > 0.0 && g.dy > 0.0 witness NorthUp(0.0, 0.0, 1.0, 1.0, 0, 0)

  datatype Bounds = Bounds(minx: real, miny: real, maxx: real, maxy: real)

  /** The fractional column and row that `window_from_bounds` computes. */
  function Column(g: Raster, x: real): real { (x - g.left) / g.dx }

  function Row(g: Raster, y: real): real { (g.top - y) / g.dy }

  function X(g: Raster, column: real): real { g.left + column * g.dx }

  function Y(g: Raster, row: real): real { g.top - row * g.dy }

  /** One axis of the padded window: its offset and its length. */
  function PaddedOffset(offset: real): int { offset.Floor - 1 }

  function PaddedLength(offset: real, length: real): int { Ceil(offset + length) - offset.Floor + 2 }

  /** One axis of the intersection with the dataset, or None where it is empty. */
  function Clamp(offset: int, length: int, size: nat): Option<(nat, nat)> {
    var from := if offset > 0 then offset else 0;
    var to := if offset + length < size then offset + length else size;
    if to - from <= 0 then None else Some((from, to - from))
  }

  /** `_polygon_window`. */
  function PolygonWindow(g: Raster, b: Bounds): Option<Window> {
    var colOff, width := Column(g, b.minx), Column(g, b.maxx) - Column(g, b.minx);
    var rowOff, height := Row(g, b.maxy), Row(g, b.miny) - Row(g, b.maxy);
    match Clamp(PaddedOffset(colOff), PaddedLength(colOff, width), g.width) {
      case None => None
      case Some(cols) =>
        match Clamp(PaddedOffset(rowOff), PaddedLength(rowOff, height), g.height) {
          case None => None
          case Some(rows) => Some(Window(cols.0, rows.0, cols.1, rows.1))
        }
    }
  }

  predicate CentreInBounds(g: Raster, b: Bounds, r: nat, c: nat) {
    && b.minx <= X(g, c as real + 0.5) <= b.maxx
    && b.miny <= Y(g, r as real + 0.5) <= b.maxy
  }

  /** The closed pixel square meets the closed bounding box. */
  predicate TouchesBounds(g: Raster, b: Bounds, r: nat, c: nat) {
    && b.minx <= X(g, c as real + 1.0) && X(g, c as real) <= b.maxx
    && b.miny <= Y(g, r as real) && Y(g, r as real + 1.0) <= b.maxy
  }

  lemma ColumnsCompare(g: Raster, x: real, column: real)
    ensures Column(g, x) <= column <==> x <= X(g, column)
    ensures Column(g, x) == column <==> x == X(g, column)
  {
    var q := Column(g, x);
    Quotient(x - g.left, g.dx, q);
    ProductsCompare(q, column, g.dx);
  }

  lemma RowsCompare(g: Raster, y: real, row: real)
    ensures Row(g, y) <= row <==> Y(g, row) <= y
    ensures Row(g, y) == row <==> y == Y(g, row)
  {
    var q := Row(g, y);
    Quotient(g.top - y, g.dy, q);
    ProductsCompare(q, row, g.dy);
  }

  lemma ProductsCompare(a: real, b: real, d: real)
    requires d > 0.0
    ensures (a <= b <==> a * d <= b * d) && (a == b <==> a * d == b * d)
  {
    assert a < b ==> (b - a) * d > 0.0;
    assert b < a ==> (a - b) * d > 0.0;
  }

  lemma AxesHold(g: Raster, b: Bounds, r: nat, c: nat)
    requires r < g.height && c < g.width
    requires Column(g, b.minx) <= c as real + 1.0 && c as real <= Column(g, b.maxx)
    requires Row(g, b.maxy) <= r as real + 1.0 && r as real <= Row(g, b.miny)
    ensures PolygonWindow(g, b).Some? && Holds(PolygonWindow(g, b).value, r, c)
  {
  }

  /** The padded window holds every dataset pixel that so much as touches the bounds, and there is
      no such pixel where there is no window. */
  lemma TouchingPixelsCovered(g: Raster, b: Bounds, r: nat, c: nat)
    requires r < g.height && c < g.width && TouchesBounds(g, b, r, c)
    ensures PolygonWindow(g, b).Some? && Holds(PolygonWindow(g, b).value, r, c)
  {
    hide X, Y, Column, Row, PolygonWindow;
    ColumnsCompare(g, b.minx, c as real + 1.0);
    ColumnsCompare(g, b.maxx, c as real);
    RowsCompare(g, b.miny, r as real);
    RowsCompare(g, b.maxy, r as real + 1.0);
    AxesHold(g, b, r, c);
  }

  lemma CentreTouches(g: Raster, b: Bounds, r: nat, c: nat)
    requires CentreInBounds(g, b, r, c)
    ensures TouchesBounds(g, b, r, c)
  {
  }

  lemma CentresCovered(g: Raster, b: Bounds, r: nat, c: nat)
    requires r < g.height && c < g.width && CentreInBounds(g, b, r, c)
    ensures PolygonWindow(g, b).Some? && Holds(PolygonWindow(g, b).value, r, c)
  {
    CentreTouches(g, b, r, c);
    TouchingPixelsCovered(g, b, r, c);
  }

  /** The window is never empty and never leaves the dataset. */
  lemma WindowFits(g: Raster, b: Bounds)
    ensures match PolygonWindow(g, b)
            case Some(w) => w.width > 0 && w.height > 0 && Inside(w, g.height, g.width)
            case None => true
  {
    hide Column, Row, PaddedOffset, PaddedLength;
  }

  /** Nothing is read in vain: every row and column of the window lies next to the rounded bounds. */
  lemma WindowIsTight(g: Raster, b: Bounds, r: nat, c: nat)
    requires PolygonWindow(g, b).Some? && Holds(PolygonWindow(g, b).value, r, c)
    ensures Column(g, b.minx) - 2.0 < c as real < Column(g, b.maxx) + 1.0
    ensures Row(g, b.maxy) - 2.0 < r as real < Row(g, b.miny) + 1.0
  {
    hide Column, Row;
  }

  /** The rows and columns of the rounded bounds, before padding and clamping. */
  predicate InUnpadded(g: Raster, b: Bounds, r: nat, c: nat) {
    && Column(g, b.minx).Floor <= c < Ceil(Column(g, b.maxx))
    && Row(g, b.maxy).Floor <= r < Ceil(Row(g, b.miny))
  }

  /** The bounds meet the pixel along an edge only. */
  predicate MeetsAtEdge(g: Raster, b: Bounds, r: nat, c: nat) {
    || b.maxx == X(g, c as real) || b.minx == X(g, c as real + 1.0)
    || b.miny == Y(g, r as real) || b.maxy == Y(g, r as real + 1.0)
  }

  lemma EdgeOnAxis(low: real, high: real, k: int)
    requires low <= k as real + 1.0 && k as real <= high
    ensures low.Floor <= k < Ceil(high) <==> !(high == k as real || low == k as real + 1.0)
  {
  }

  /** Why the window is padded: of the pixels that touch the bounds, the rounded bounds alone lose
      exactly those that meet them along an edge only. */
  lemma PaddingSavesTheEdges(g: Raster, b: Bounds, r: nat, c: nat)
    requires TouchesBounds(g, b, r, c)
    ensures InUnpadded(g, b, r, c) <==> !MeetsAtEdge(g, b, r, c)
  {
    hide X, Y, Column, Row, Ceil;
    ColumnsCompare(g, b.minx, c as real + 1.0);
    ColumnsCompare(g, b.maxx, c as real);
    RowsCompare(g, b.miny, r as real);
    RowsCompare(g, b.maxy, r as real + 1.0);
    EdgeOnAxis(Column(g, b.minx), Column(g, b.maxx), c);
    EdgeOnAxis(Row(g, b.maxy), Row(g, b.miny), r);
  }

  /** Such a pixel, which the padded window holds. */
  lemma PaddingIsNeeded()
    ensures var g := NorthUp(0.0, 4.0, 1.0, 1.0, 4, 4);
            var b := Bounds(1.0, 1.0, 2.0, 2.0);
            TouchesBounds(g, b, 2, 2) && !InUnpadded(g, b, 2, 2) && Holds(PolygonWindow(g, b).value, 2, 2)
  {
    var g := NorthUp(0.0, 4.0, 1.0, 1.0, 4, 4);
    var b := Bounds(1.0, 1.0, 2.0, 2.0);
    TouchingPixelsCovered(g, b, 2, 2);
  }
}

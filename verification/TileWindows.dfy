/** The bounded windows a raster is read and written by, and the partition they form. */
module TileWindows {
  import opened PixelGrid

  datatype Window = Window(col: nat, row: nat, width: nat, height: nat)

  const MAX_WINDOW_SIZE: nat := 512

  predicate Holds(w: Window, r: nat, c: nat) {
    w.row <= r < w.row + w.height && w.col <= c < w.col + w.width
  }

  function Min(a: nat, b: nat): nat { if a <= b then a else b }

  /** The windows of one row of tiles, from column `col` on. */
  function RowWindows(width: nat, height: nat, row: nat, col: nat, size: nat): seq<Window>
    requires size > 0 && row < height
    decreases width - col
  {
    if col >= width then [] else
      [Window(col, row, Min(size, width - col), Min(size, height - row))]
      + RowWindows(width, height, row, col + size, size)
  }

  function WindowsFrom(width: nat, height: nat, row: nat, size: nat): seq<Window>
    requires size > 0
    decreases height - row
  {
    if row >= height then [] else
      RowWindows(width, height, row, 0, size) + WindowsFrom(width, height, row + size, size)
  }

  /** `_bounded_windows`. */
  function BoundedWindows(width: nat, height: nat, size: nat): seq<Window>
    requires size > 0
  {
    WindowsFrom(width, height, 0, size)
  }

  /** How many of the windows hold a pixel. */
  function Covering(ws: seq<Window>, r: nat, c: nat): nat {
    if |ws| == 0 then 0 else (if Holds(ws[0], r, c) then 1 else 0) + Covering(ws[1..], r, c)
  }

  predicate Fits(w: Window, width: nat, height: nat, size: nat) {
    && 0 < w.width <= size && 0 < w.height <= size
    && w.col + w.width <= width && w.row + w.height <= height
  }

  lemma {:induction false} CoveringAppends(xs: seq<Window>, ys: seq<Window>, r: nat, c: nat)
    ensures Covering(xs + ys, r, c) == Covering(xs, r, c) + Covering(ys, r, c)
  {
    if |xs| == 0 {
      assert xs + ys == ys;
    } else {
      assert (xs + ys)[1..] == xs[1..] + ys;
      CoveringAppends(xs[1..], ys, r, c);
    }
  }

  lemma {:induction false} RowPartition(width: nat, height: nat, row: nat, col: nat, size: nat, r: nat, c: nat)
    requires size > 0 && row < height
    ensures Covering(RowWindows(width, height, row, col, size), r, c)
            == if row <= r < row + size && r < height && col <= c < width then 1 else 0
    decreases width - col
  {
    if col < width {
      var rest := RowWindows(width, height, row, col + size, size);
      assert RowWindows(width, height, row, col, size)[1..] == rest;
      RowPartition(width, height, row, col + size, size, r, c);
    }
  }

  lemma {:induction false} PartitionFrom(width: nat, height: nat, row: nat, size: nat, r: nat, c: nat)
    requires size > 0
    ensures Covering(WindowsFrom(width, height, row, size), r, c)
            == if row <= r < height && c < width then 1 else 0
    decreases height - row
  {
    if row < height {
      RowPartition(width, height, row, 0, size, r, c);
      PartitionFrom(width, height, row + size, size, r, c);
      CoveringAppends(RowWindows(width, height, row, 0, size), WindowsFrom(width, height, row + size, size), r, c);
    }
  }

  /** Each pixel of the grid lies in exactly one window, and no window reaches outside it. */
  lemma WindowsPartition(width: nat, height: nat, size: nat, r: nat, c: nat)
    requires size > 0
    ensures Covering(BoundedWindows(width, height, size), r, c) == if r < height && c < width then 1 else 0
  {
    PartitionFrom(width, height, 0, size, r, c);
  }

  lemma {:induction false} RowWindowsFit(width: nat, height: nat, row: nat, col: nat, size: nat)
    requires size > 0 && row < height
    ensures forall w | w in RowWindows(width, height, row, col, size) :: Fits(w, width, height, size)
    decreases width - col
  {
    if col < width {
      RowWindowsFit(width, height, row, col + size, size);
    }
  }

  lemma {:induction false} WindowsFitFrom(width: nat, height: nat, row: nat, size: nat)
    requires size > 0
    ensures forall w | w in WindowsFrom(width, height, row, size) :: Fits(w, width, height, size)
    decreases height - row
  {
    if row < height {
      RowWindowsFit(width, height, row, 0, size);
      WindowsFitFrom(width, height, row + size, size);
    }
  }

  /** No window is empty, larger than the limit or out of range. */
  lemma WindowsFit(width: nat, height: nat, size: nat)
    requires size > 0
    ensures forall w | w in BoundedWindows(width, height, size) :: Fits(w, width, height, size)
  {
    WindowsFitFrom(width, height, 0, size);
  }

  /** With the limit in use no window has a side of more than 512 pixels. */
  lemma WindowsOf512(width: nat, height: nat)
    ensures forall w | w in BoundedWindows(width, height, MAX_WINDOW_SIZE) ::
              && 0 < w.width <= 512 && 0 < w.height <= 512
              && w.col + w.width <= width && w.row + w.height <= height
  {
    WindowsFit(width, height, MAX_WINDOW_SIZE);
  }

  lemma {:induction false} CoveredByOne(ws: seq<Window>, r: nat, c: nat)
    requires Covering(ws, r, c) > 0
    ensures exists i | 0 <= i < |ws| :: Holds(ws[i], r, c)
  {
    if !Holds(ws[0], r, c) {
      CoveredByOne(ws[1..], r, c);
      var i :| 0 <= i < |ws[1..]| && Holds(ws[1..][i], r, c);
      assert Holds(ws[i + 1], r, c);
    }
  }

  /** The window that holds a pixel of the grid. */
  lemma HoldingWindow(width: nat, height: nat, size: nat, r: nat, c: nat) returns (i: nat)
    requires size > 0 && r < height && c < width
    ensures i < |BoundedWindows(width, height, size)| && Holds(BoundedWindows(width, height, size)[i], r, c)
  {
    var ws := BoundedWindows(width, height, size);
    WindowsPartition(width, height, size, r, c);
    CoveredByOne(ws, r, c);
    i :| 0 <= i < |ws| && Holds(ws[i], r, c);
  }

  /** The part of a band that a windowed read returns. */
  function Read<T>(g: Grid<T>, w: Window): Grid<T> {
    Grid(w.height, w.width, (r: nat, c: nat) => g.cell(w.row + r, w.col + c))
  }

  function ReadAll<T>(bands: seq<Grid<T>>, w: Window): (r: seq<Grid<T>>)
    ensures |r| == |bands| && forall b | 0 <= b < |bands| :: r[b] == Read(bands[b], w)
  {
    seq(|bands|, b requires 0 <= b < |bands| => Read(bands[b], w))
  }
}

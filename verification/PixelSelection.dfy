/** `values[mask]`: the samples under a mask in row-major order, and what a windowed read
    that misses none of them selects. */
module PixelSelection {
  import opened PixelGrid
  import opened TileWindows

  /** The selected samples of one row, columns `lo` up to `hi`. */
  function RowSelection<T>(cell: (nat, nat) -> T, keep: (nat, nat) -> bool, r: nat, lo: nat, hi: nat): seq<T>
    requires lo <= hi
    decreases hi - lo
  {
    if lo == hi then [] else
      (if keep(r, lo) then [cell(r, lo)] else []) + RowSelection(cell, keep, r, lo + 1, hi)
  }

  function Selection<T>(cell: (nat, nat) -> T, keep: (nat, nat) -> bool, top: nat, bottom: nat, lo: nat,
                        hi: nat): seq<T>
    requires top <= bottom && lo <= hi
    decreases bottom - top
  {
    if top == bottom then [] else
      RowSelection(cell, keep, top, lo, hi) + Selection(cell, keep, top + 1, bottom, lo, hi)
  }

  function Selected<T>(g: Grid<T>, keep: (nat, nat) -> bool): seq<T> {
    Selection(g.cell, keep, 0, g.height, 0, g.width)
  }

  /** A predicate on pixels, seen from inside a window. */
  function Shifted(keep: (nat, nat) -> bool, w: Window): (nat, nat) -> bool {
    (r: nat, c: nat) => keep(w.row + r, w.col + c)
  }

  predicate Inside(w: Window, height: nat, width: nat) {
    w.row + w.height <= height && w.col + w.width <= width
  }

  ghost predicate Confined(keep: (nat, nat) -> bool, height: nat, width: nat, w: Window) {
    forall r: nat, c: nat :: r < height && c < width && keep(r, c) ==> Holds(w, r, c)
  }

  lemma {:induction false} EmptyRow<T>(cell: (nat, nat) -> T, keep: (nat, nat) -> bool, r: nat, lo: nat, hi: nat)
    requires lo <= hi && forall c: nat :: lo <= c < hi ==> !keep(r, c)
    ensures RowSelection(cell, keep, r, lo, hi) == []
    decreases hi - lo
  {
    if lo < hi {
      EmptyRow(cell, keep, r, lo + 1, hi);
    }
  }

  lemma {:induction false} SplitRow<T>(cell: (nat, nat) -> T, keep: (nat, nat) -> bool, r: nat, lo: nat, mid: nat,
                                       hi: nat)
    requires lo <= mid <= hi
    ensures RowSelection(cell, keep, r, lo, hi)
            == RowSelection(cell, keep, r, lo, mid) + RowSelection(cell, keep, r, mid, hi)
    decreases mid - lo
  {
    if lo < mid {
      SplitRow(cell, keep, r, lo + 1, mid, hi);
    }
  }

  lemma {:induction false} SplitRows<T>(cell: (nat, nat) -> T, keep: (nat, nat) -> bool, top: nat, mid: nat,
                                        bottom: nat, lo: nat, hi: nat)
    requires top <= mid <= bottom && lo <= hi
    ensures Selection(cell, keep, top, bottom, lo, hi)
            == Selection(cell, keep, top, mid, lo, hi) + Selection(cell, keep, mid, bottom, lo, hi)
    decreases mid - top
  {
    if top < mid {
      SplitRows(cell, keep, top + 1, mid, bottom, lo, hi);
    }
  }

  lemma NarrowRow<T>(cell: (nat, nat) -> T, keep: (nat, nat) -> bool, r: nat, lo: nat, hi: nat, width: nat)
    requires lo <= hi <= width
    requires forall c: nat :: c < width && keep(r, c) ==> lo <= c < hi
    ensures RowSelection(cell, keep, r, 0, width) == RowSelection(cell, keep, r, lo, hi)
  {
    hide RowSelection;
    SplitRow(cell, keep, r, 0, lo, width);
    SplitRow(cell, keep, r, lo, hi, width);
    EmptyRow(cell, keep, r, 0, lo);
    EmptyRow(cell, keep, r, hi, width);
  }

  /** Rows in which only columns `lo` up to `hi` are kept can be read in those columns alone. */
  lemma {:induction false} NarrowColumns<T>(cell: (nat, nat) -> T, keep: (nat, nat) -> bool,
                                            top: nat, bottom: nat, lo: nat, hi: nat, width: nat)
    requires top <= bottom && lo <= hi <= width
    requires forall r: nat, c: nat :: top <= r < bottom && c < width && keep(r, c) ==> lo <= c < hi
    ensures Selection(cell, keep, top, bottom, 0, width) == Selection(cell, keep, top, bottom, lo, hi)
    decreases bottom - top
  {
    hide RowSelection;
    if top < bottom {
      NarrowRow(cell, keep, top, lo, hi, width);
      NarrowColumns(cell, keep, top + 1, bottom, lo, hi, width);
    }
  }

  lemma {:induction false} EmptyRows<T>(cell: (nat, nat) -> T, keep: (nat, nat) -> bool, top: nat, bottom: nat,
                                        lo: nat, hi: nat)
    requires top <= bottom && lo <= hi
    requires forall r: nat, c: nat :: top <= r < bottom && lo <= c < hi ==> !keep(r, c)
    ensures Selection(cell, keep, top, bottom, lo, hi) == []
    decreases bottom - top
  {
    if top < bottom {
      EmptyRow(cell, keep, top, lo, hi);
      EmptyRows(cell, keep, top + 1, bottom, lo, hi);
    }
  }

  lemma {:induction false} ShiftRow<T>(g: Grid<T>, keep: (nat, nat) -> bool, w: Window, r: nat, c: nat)
    requires c <= w.width
    ensures RowSelection(Read(g, w).cell, Shifted(keep, w), r, c, w.width)
            == RowSelection(g.cell, keep, w.row + r, w.col + c, w.col + w.width)
    decreases w.width - c
  {
    if c < w.width {
      ShiftRow(g, keep, w, r, c + 1);
    }
  }

  lemma {:induction false} ShiftRows<T>(g: Grid<T>, keep: (nat, nat) -> bool, w: Window, r: nat)
    requires r <= w.height
    ensures Selection(Read(g, w).cell, Shifted(keep, w), r, w.height, 0, w.width)
            == Selection(g.cell, keep, w.row + r, w.row + w.height, w.col, w.col + w.width)
    decreases w.height - r
  {
    if r < w.height {
      ShiftRow(g, keep, w, r, 0);
      ShiftRows(g, keep, w, r + 1);
    }
  }

  /** A window that holds every kept pixel selects the same samples in the same order. */
  lemma WindowedSelection<T>(g: Grid<T>, keep: (nat, nat) -> bool, w: Window)
    requires Inside(w, g.height, g.width) && Confined(keep, g.height, g.width, w)
    ensures Selected(Read(g, w), Shifted(keep, w)) == Selected(g, keep)
  {
    hide Selection;
    var bottom, right := w.row + w.height, w.col + w.width;
    SplitRows(g.cell, keep, 0, w.row, g.height, 0, g.width);
    SplitRows(g.cell, keep, w.row, bottom, g.height, 0, g.width);
    EmptyRows(g.cell, keep, 0, w.row, 0, g.width);
    EmptyRows(g.cell, keep, bottom, g.height, 0, g.width);
    NarrowColumns(g.cell, keep, w.row, bottom, w.col, right, g.width);
    ShiftRows(g, keep, w, 0);
  }

  lemma NothingSelected<T>(g: Grid<T>, keep: (nat, nat) -> bool)
    requires forall r: nat, c: nat :: r < g.height && c < g.width ==> !keep(r, c)
    ensures Selected(g, keep) == []
  {
    EmptyRows(g.cell, keep, 0, g.height, 0, g.width);
  }

  lemma {:induction false} InjectiveImage<A, B>(a: set<A>, f: A -> B, b: set<B>)
    requires forall x, y | x in a && y in a && f(x) == f(y) :: x == y
    requires forall x | x in a :: f(x) in b
    requires forall y | y in b :: exists x | x in a :: f(x) == y
    ensures |a| == |b|
    decreases a
  {
    if a != {} {
      var x :| x in a;
      InjectiveImage(a - {x}, f, b - {f(x)});
    } else {
      assert b == {};
    }
  }

  /** A pixel of a window, in the coordinates of the raster the window was read from. */
  function InFull(w: Window): Pixel -> Pixel { (x: Pixel) => (w.row + x.0, w.col + x.1) }

  /** A window that holds every counted pixel counts the same. */
  lemma WindowedCount(p: (nat, nat) -> bool, height: nat, width: nat, w: Window)
    requires Inside(w, height, width) && Confined(p, height, width, w)
    ensures Count(w.height, w.width, Shifted(p, w)) == Count(height, width, p)
  {
    var f := InFull(w);
    var small, large := Where(w.height, w.width, Shifted(p, w)), Where(height, width, p);
    forall y | y in large ensures exists x | x in small :: f(x) == y {
      var x := (y.0 - w.row, y.1 - w.col);
      assert Holds(w, y.0, y.1);
      assert x in small && f(x) == y;
    }
    hide Confined, Shifted, Where;
    InjectiveImage(small, f, large);
  }

  lemma {:induction false} RowSelectionCounts<T>(cell: (nat, nat) -> T, keep: (nat, nat) -> bool, r: nat, lo: nat,
                                                 hi: nat)
    requires lo <= hi
    ensures |RowSelection(cell, keep, r, lo, hi)| == |set c: nat | lo <= c < hi && keep(r, c) :: (r, c)|
    decreases hi - lo
  {
    var here := set c: nat | lo <= c < hi && keep(r, c) :: (r, c);
    if lo == hi {
      assert here == {};
    } else {
      RowSelectionCounts(cell, keep, r, lo + 1, hi);
      var rest := set c: nat | lo + 1 <= c < hi && keep(r, c) :: (r, c);
      if keep(r, lo) {
        assert here == rest + {(r, lo)};
        assert (r, lo) !in rest;
      } else {
        assert here == rest;
      }
    }
  }

  /** The kept pixels of the rows `top` up to `bottom`. */
  function Kept(keep: (nat, nat) -> bool, top: nat, bottom: nat, width: nat): set<Pixel> {
    set r: nat, c: nat | top <= r < bottom && c < width && keep(r, c) :: (r, c)
  }

  lemma KeptSplits(keep: (nat, nat) -> bool, top: nat, bottom: nat, width: nat)
    requires top < bottom
    ensures |Kept(keep, top, bottom, width)|
            == |set c: nat | 0 <= c < width && keep(top, c) :: (top, c)| + |Kept(keep, top + 1, bottom, width)|
  {
    var row := set c: nat | 0 <= c < width && keep(top, c) :: (top, c);
    var rest := Kept(keep, top + 1, bottom, width);
    assert Kept(keep, top, bottom, width) == row + rest && row !! rest;
  }

  lemma {:induction false} SelectionCounts<T>(cell: (nat, nat) -> T, keep: (nat, nat) -> bool, top: nat, bottom: nat,
                                              width: nat)
    requires top <= bottom
    ensures |Selection(cell, keep, top, bottom, 0, width)| == |Kept(keep, top, bottom, width)|
    decreases bottom - top
  {
    hide RowSelection;
    if top == bottom {
      assert Kept(keep, top, bottom, width) == {};
    } else {
      hide Kept;
      RowSelectionCounts(cell, keep, top, 0, width);
      SelectionCounts(cell, keep, top + 1, bottom, width);
      KeptSplits(keep, top, bottom, width);
    }
  }

  /** As many samples are selected as the mask has pixels. */
  lemma SelectedCount<T>(g: Grid<T>, keep: (nat, nat) -> bool)
    ensures |Selected(g, keep)| == Count(g.height, g.width, keep)
  {
    SelectionCounts(g.cell, keep, 0, g.height, g.width);
    assert Where(g.height, g.width, keep)
        == Kept(keep, 0, g.height, g.width);
  }
}

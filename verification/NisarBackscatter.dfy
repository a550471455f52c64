/** The block loop of the NISAR Gamma0 writer and the valid counts it accumulates. */
module NisarBackscatter {
  import opened Wrappers
  import opened Floats
  import opened PixelGrid
  import opened TileWindows
  import opened PixelSelection

  /** The mask, the number of sub-swaths and one power band per polarization. */
  datatype Assets = Assets(height: nat, width: nat, subswaths: int, mask: Grid<int>, terms: seq<Grid<Float>>)

  const NODATA: real := -9999.0
  const BLOCK_SIZE: nat := 512

  datatype NisarError = NoValidPixels

  predicate Valid(assets: Assets, b: nat, r: nat, c: nat)
    requires b < |assets.terms|
  {
    && 1 <= assets.mask.cell(r, c) <= assets.subswaths
    && assets.terms[b].cell(r, c).Num? && assets.terms[b].cell(r, c).value > 0.0
  }

  /** The decibel value of a sample; `log10` is the library's logarithm. */
  function Decibels(log10: real -> real, assets: Assets, b: nat, r: nat, c: nat): real
    requires b < |assets.terms|
  {
    if Valid(assets, b, r, c) then 10.0 * log10(assets.terms[b].cell(r, c).value) else NODATA
  }

  function ValidCount(assets: Assets, b: nat): nat
    requires b < |assets.terms|
  {
    Count(assets.height, assets.width, (r: nat, c: nat) => Valid(assets, b, r, c))
  }

  /** The pixels already written when the block at (`row`, `col`) is next. */
  predicate Done(row: nat, col: nat, r: nat, c: nat) {
    r < row || (r < row + BLOCK_SIZE && c < col)
  }

  function DoneCount(assets: Assets, row: nat, col: nat, b: nat): nat
    requires b < |assets.terms|
  {
    Count(assets.height, assets.width, (r: nat, c: nat) => Done(row, col, r, c) && Valid(assets, b, r, c))
  }

  function BlockCount(assets: Assets, w: Window, b: nat): nat
    requires b < |assets.terms|
  {
    Count(assets.height, assets.width, (r: nat, c: nat) => Holds(w, r, c) && Valid(assets, b, r, c))
  }

  function BlockAt(assets: Assets, row: nat, col: nat): Window
    requires row < assets.height && col < assets.width
  {
    Window(col, row, Min(BLOCK_SIZE, assets.width - col), Min(BLOCK_SIZE, assets.height - row))
  }

  lemma BlocksOf512(assets: Assets, row: nat, col: nat)
    requires row < assets.height && col < assets.width
    ensures var w := BlockAt(assets, row, col);
            && (w.row, w.col) == (row, col) && 0 < w.width <= 512 && 0 < w.height <= 512
            && (w.width == 512 || col + w.width == assets.width) && (w.height == 512 || row + w.height == assets.height)
  {
  }

  lemma BlockAdds(assets: Assets, row: nat, col: nat, b: nat)
    requires row < assets.height && col < assets.width && b < |assets.terms|
    ensures DoneCount(assets, row, col + BLOCK_SIZE, b)
            == DoneCount(assets, row, col, b) + BlockCount(assets, BlockAt(assets, row, col), b)
  {
    var w := BlockAt(assets, row, col);
    CountSplits(assets.height, assets.width,
                (r: nat, c: nat) => Done(row, col + BLOCK_SIZE, r, c) && Valid(assets, b, r, c),
                (r: nat, c: nat) => Done(row, col, r, c) && Valid(assets, b, r, c),
                (r: nat, c: nat) => Holds(w, r, c) && Valid(assets, b, r, c));
  }

  /** A finished row of blocks is the start of the next row. */
  lemma RowFinished(assets: Assets, row: nat, col: nat, b: nat)
    requires col >= assets.width && b < |assets.terms|
    ensures DoneCount(assets, row, col, b) == DoneCount(assets, row + BLOCK_SIZE, 0, b)
  {
    SameCount(assets.height, assets.width,
              (r: nat, c: nat) => Done(row, col, r, c) && Valid(assets, b, r, c),
              (r: nat, c: nat) => Done(row + BLOCK_SIZE, 0, r, c) && Valid(assets, b, r, c));
  }

  lemma AllDone(assets: Assets, row: nat, b: nat)
    requires row >= assets.height && b < |assets.terms|
    ensures DoneCount(assets, row, 0, b) == ValidCount(assets, b)
  {
    SameCount(assets.height, assets.width,
              (r: nat, c: nat) => Done(row, 0, r, c) && Valid(assets, b, r, c),
              (r: nat, c: nat) => Valid(assets, b, r, c));
  }

  lemma NothingDone(assets: Assets, b: nat)
    requires b < |assets.terms|
    ensures DoneCount(assets, 0, 0, b) == 0
  {
  }

  /** The mask and the power of a block make its valid samples, in the block's own coordinates. */
  function ValidInBlock(assets: Assets, w: Window, b: nat): (nat, nat) -> bool
    requires b < |assets.terms|
  {
    var mask, power := Read(assets.mask, w), Read(assets.terms[b], w);
    (r: nat, c: nat) =>
      1 <= mask.cell(r, c) <= assets.subswaths && power.cell(r, c).Num? && power.cell(r, c).value > 0.0
  }

  /** The sample that a block computes for one of its pixels. */
  function BlockSample(log10: real -> real, assets: Assets, w: Window, b: nat, r: nat, c: nat): real
    requires b < |assets.terms|
  {
    if ValidInBlock(assets, w, b)(r, c) then 10.0 * log10(Read(assets.terms[b], w).cell(r, c).value) else NODATA
  }

  lemma BlockSampleIs(log10: real -> real, assets: Assets, w: Window, b: nat, r: nat, c: nat)
    requires b < |assets.terms|
    ensures BlockSample(log10, assets, w, b, r, c) == Decibels(log10, assets, b, w.row + r, w.col + c)
  {
  }

  lemma CountedInBlock(assets: Assets, w: Window, b: nat)
    requires b < |assets.terms| && Inside(w, assets.height, assets.width)
    ensures Count(w.height, w.width, ValidInBlock(assets, w, b)) == BlockCount(assets, w, b)
  {
    var held := (r: nat, c: nat) => Holds(w, r, c) && Valid(assets, b, r, c);
    WindowedCount(held, assets.height, assets.width, w);
    SameCount(w.height, w.width, ValidInBlock(assets, w, b), Shifted(held, w));
  }

  /** One band of one block: its samples and the count of its valid ones. */
  method ConvertBlock(log10: real -> real, assets: Assets, w: Window, b: nat) returns (block: array2<real>, valid: nat)
    requires b < |assets.terms| && Inside(w, assets.height, assets.width)
    ensures fresh(block) && block.Length0 == w.height && block.Length1 == w.width
    ensures forall r: nat, c: nat | r < w.height && c < w.width ::
              block[r, c] == Decibels(log10, assets, b, w.row + r, w.col + c)
    ensures valid == BlockCount(assets, w, b)
  {
    hide BlockCount, Decibels, BlockSample, ValidInBlock;
    var isValid := ValidInBlock(assets, w, b);
    block := new real[w.height, w.width]((_, _) => NODATA);
    forall r: nat, c: nat | r < w.height && c < w.width {
      block[r, c] := BlockSample(log10, assets, w, b, r, c);
    }
    forall r: nat, c: nat | r < w.height && c < w.width
      ensures block[r, c] == Decibels(log10, assets, b, w.row + r, w.col + c)
    {
      BlockSampleIs(log10, assets, w, b, r, c);
    }
    valid := Count(w.height, w.width, isValid);
    CountedInBlock(assets, w, b);
  }

  /** What one block does: each band's window is filled and its valid samples are counted. */
  method WriteBlock(log10: real -> real, assets: Assets, w: Window, output: array3<real>, counts: array<nat>)
    requires output.Length0 == |assets.terms| == counts.Length && Inside(w, assets.height, assets.width)
    requires output.Length1 == assets.height && output.Length2 == assets.width
    modifies output, counts
    ensures forall b: nat, r: nat, c: nat | b < |assets.terms| && r < assets.height && c < assets.width ::
              output[b, r, c] == if Holds(w, r, c) then Decibels(log10, assets, b, r, c) else old(output[b, r, c])
    ensures forall b: nat | b < |assets.terms| :: counts[b] == old(counts[b]) + BlockCount(assets, w, b)
  {
    hide BlockCount, Decibels;
    for k := 0 to |assets.terms|
      invariant forall b: nat, r: nat, c: nat | b < |assets.terms| && r < assets.height && c < assets.width ::
                  output[b, r, c] == if b < k && Holds(w, r, c) then Decibels(log10, assets, b, r, c)
                                     else old(output[b, r, c])
      invariant forall b: nat | b < |assets.terms| ::
                  counts[b] == old(counts[b]) + if b < k then BlockCount(assets, w, b) else 0
    {
      var block, valid := ConvertBlock(log10, assets, w, k);
      counts[k] := counts[k] + valid;
      forall r: nat, c: nat | r < assets.height && c < assets.width && Holds(w, r, c) {
        output[k, r, c] := block[r - w.row, c - w.col];
      }
    }
  }

  /** `write_gamma0_backscatter`: the accumulated counts are the whole raster's, and an error is
      raised exactly when there is no band or some band has no valid pixel. */
  method WriteGamma0(log10: real -> real, assets: Assets)
    returns (output: array3<real>, result: Result<seq<nat>, NisarError>)
    ensures fresh(output) && output.Length0 == |assets.terms|
    ensures output.Length1 == assets.height && output.Length2 == assets.width
    ensures forall b: nat, r: nat, c: nat | b < |assets.terms| && r < assets.height && c < assets.width ::
              output[b, r, c] == Decibels(log10, assets, b, r, c)
    ensures result.Ok? <==> |assets.terms| > 0 && forall b: nat | b < |assets.terms| :: ValidCount(assets, b) > 0
    ensures result.Ok? ==>
              && |result.value| == |assets.terms|
              && forall b: nat | b < |assets.terms| :: result.value[b] == ValidCount(assets, b)
  {
    hide Decibels, DoneCount, BlockCount, ValidCount;
    output := new real[|assets.terms|, assets.height, assets.width]((_, _, _) => NODATA);
    var counts := new nat[|assets.terms|](_ => 0);
    forall b: nat | b < |assets.terms| ensures DoneCount(assets, 0, 0, b) == 0 { NothingDone(assets, b); }
    var row := 0;
    while row < assets.height
      invariant forall b: nat, r: nat, c: nat |
                  b < |assets.terms| && r < assets.height && c < assets.width && Done(row, 0, r, c) ::
                  output[b, r, c] == Decibels(log10, assets, b, r, c)
      invariant forall b: nat | b < |assets.terms| :: counts[b] == DoneCount(assets, row, 0, b)
    {
      var col := 0;
      while col < assets.width
        invariant forall b: nat, r: nat, c: nat |
                    b < |assets.terms| && r < assets.height && c < assets.width && Done(row, col, r, c) ::
                    output[b, r, c] == Decibels(log10, assets, b, r, c)
        invariant forall b: nat | b < |assets.terms| :: counts[b] == DoneCount(assets, row, col, b)
      {
        WriteBlock(log10, assets, BlockAt(assets, row, col), output, counts);
        forall b: nat | b < |assets.terms|
          ensures DoneCount(assets, row, col + BLOCK_SIZE, b)
                  == DoneCount(assets, row, col, b) + BlockCount(assets, BlockAt(assets, row, col), b)
        {
          BlockAdds(assets, row, col, b);
        }
        col := col + BLOCK_SIZE;
      }
      forall b: nat | b < |assets.terms|
        ensures DoneCount(assets, row, col, b) == DoneCount(assets, row + BLOCK_SIZE, 0, b)
      {
        RowFinished(assets, row, col, b);
      }
      row := row + BLOCK_SIZE;
    }
    forall b: nat | b < |assets.terms| ensures DoneCount(assets, row, 0, b) == ValidCount(assets, b) {
      AllDone(assets, row, b);
    }
    if |assets.terms| == 0 || exists b: nat :: b < |assets.terms| && counts[b] <= 0 {
      return output, Err(NoValidPixels);
    }
    result := Ok(counts[..]);
  }

  /** A reader who counts the samples that differ from nodata finds the reported counts, exactly
      when no valid power has nodata as its decibel value. */
  lemma CountsReadBack(log10: real -> real, assets: Assets, b: nat)
    requires b < |assets.terms|
    ensures Count(assets.height, assets.width, (r: nat, c: nat) => Decibels(log10, assets, b, r, c) != NODATA)
            == ValidCount(assets, b)
            <==> forall r: nat, c: nat | r < assets.height && c < assets.width && Valid(assets, b, r, c) ::
                   Decibels(log10, assets, b, r, c) != NODATA
  {
    var seen := (r: nat, c: nat) => Decibels(log10, assets, b, r, c) != NODATA;
    var valid := (r: nat, c: nat) => Valid(assets, b, r, c);
    CountMonotone(assets.height, assets.width, seen, valid);
    var s, v := Where(assets.height, assets.width, seen), Where(assets.height, assets.width, valid);
    if r: nat, c: nat :| r < assets.height && c < assets.width && Valid(assets, b, r, c)
                         && Decibels(log10, assets, b, r, c) == NODATA {
      assert (r, c) in v && (r, c) !in s;
      assert |v| == |s| + |v - s| by { assert v == s + (v - s); }
      assert (r, c) in v - s;
    } else {
      SameCount(assets.height, assets.width, seen, valid);
    }
  }

  ghost predicate Logarithm(log10: real -> real) {
    forall x, y :: 0.0 < x < y ==> log10(x) < log10(y)
  }

  /** In terms of the powers: the counts agree exactly when no valid sample has the one power whose
      decibel value is nodata, which is 10 to the -999.9. */
  lemma CountsMissOnePower(log10: real -> real, assets: Assets, b: nat, lost: real)
    requires b < |assets.terms|
    requires Logarithm(log10) && lost > 0.0 && 10.0 * log10(lost) == NODATA
    ensures Count(assets.height, assets.width, (r: nat, c: nat) => Decibels(log10, assets, b, r, c) != NODATA)
            == ValidCount(assets, b)
            <==> forall r: nat, c: nat | r < assets.height && c < assets.width && Valid(assets, b, r, c) ::
                   assets.terms[b].cell(r, c).value != lost
  {
    hide ValidCount;
    CountsReadBack(log10, assets, b);
    forall r: nat, c: nat | r < assets.height && c < assets.width && Valid(assets, b, r, c)
      ensures Decibels(log10, assets, b, r, c) == NODATA <==> assets.terms[b].cell(r, c).value == lost
    {
      OnePower(log10, assets.terms[b].cell(r, c).value, lost);
    }
  }

  lemma OnePower(log10: real -> real, x: real, y: real)
    requires Logarithm(log10) && x > 0.0 && y > 0.0
    ensures log10(x) == log10(y) <==> x == y
  {
    assert x < y ==> log10(x) < log10(y);
    assert y < x ==> log10(y) < log10(x);
  }

  /** What a stored sample stands for: the power of a finite positive sample inside a sub-swath can be read back
      from its decibels, and every other sample is -9999. */
  lemma SampleMeans(log10: real -> real, pow10: real -> real, assets: Assets, b: nat, r: nat, c: nat)
    requires b < |assets.terms| && forall x :: x > 0.0 ==> pow10(log10(x)) == x
    ensures var swath, power := assets.mask.cell(r, c), assets.terms[b].cell(r, c);
            if 1 <= swath <= assets.subswaths && power.Num? && power.value > 0.0
            then pow10(Decibels(log10, assets, b, r, c) / 10.0) == power.value
            else Decibels(log10, assets, b, r, c) == -9999.0
  {
  }

  /** The finite positive powers of a band inside a sub-swath. */
  ghost function PositivePowers(assets: Assets, b: nat): set<Pixel>
    requires b < |assets.terms|
  {
    set r: nat, c: nat | && r < assets.height && c < assets.width && 1 <= assets.mask.cell(r, c) <= assets.subswaths
                         && assets.terms[b].cell(r, c).Num? && assets.terms[b].cell(r, c).value > 0.0 :: (r, c)
  }

  /** And what a reported count counts. */
  lemma CountMeans(assets: Assets, b: nat)
    requires b < |assets.terms|
    ensures ValidCount(assets, b) == |PositivePowers(assets, b)|
  {
    assert Where(assets.height, assets.width, (r: nat, c: nat) => Valid(assets, b, r, c)) == PositivePowers(assets, b);
  }
}

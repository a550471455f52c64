/** Landsat Collection 2 quality bits: the mask they decode to, and what survives masking, index
    calculation and encoding. */
module LandsatQa {
  import opened Wrappers
  import opened Floats
  import opened PixelGrid
  import opened IndexFormulas
  import opened IndexEncoding

  const NODATA: nat := 0
  const LAND: nat := 1
  const CLOUD: nat := 2
  const SHADOW: nat := 3
  const WATER: nat := 4
  const SNOW: nat := 5

  const SCALE: real := 0.0000275
  const OFFSET: real := -0.2

  /** Bit `k` of a 16-bit word. */
  predicate Bit(word: bv16, k: bv5)
    requires k < 16
  {
    (word >> k) & 1 == 1
  }

  // The tests the decoder makes, as masks.

  predicate IsWater(pixel: bv16) { pixel & 0x80 != 0 }

  predicate IsSnow(pixel: bv16) { pixel & 0x20 != 0 }

  predicate IsShadow(pixel: bv16) { pixel & 0x10 != 0 }

  predicate IsCloud(pixel: bv16) { pixel & 0x0E != 0 }

  predicate IsInvalid(pixel: bv16, radsat: bv16, analyticValid: bool) {
    pixel & 1 != 0 || radsat & 0x87E != 0 || !analyticValid
  }

  /** What the masks test: fill, saturation of the six bands or terrain occlusion; dilated cloud,
      cirrus or cloud; cloud shadow; snow; water. */
  lemma MasksTestBits(pixel: bv16, radsat: bv16)
    ensures IsWater(pixel) <==> Bit(pixel, 7)
    ensures IsSnow(pixel) <==> Bit(pixel, 5)
    ensures IsShadow(pixel) <==> Bit(pixel, 4)
    ensures IsCloud(pixel) <==> Bit(pixel, 1) || Bit(pixel, 2) || Bit(pixel, 3)
    ensures IsInvalid(pixel, radsat, true) <==>
              || Bit(pixel, 0) || Bit(radsat, 1) || Bit(radsat, 2) || Bit(radsat, 3)
              || Bit(radsat, 4) || Bit(radsat, 5) || Bit(radsat, 6) || Bit(radsat, 11)
  {
  }

  /** The class of a pixel as a priority: nodata, cloud, shadow, snow, water, land. */
  function ClassOf(pixel: bv16, radsat: bv16, analyticValid: bool): nat {
    if IsInvalid(pixel, radsat, analyticValid) then NODATA
    else if IsCloud(pixel) then CLOUD
    else if IsShadow(pixel) then SHADOW
    else if IsSnow(pixel) then SNOW
    else if IsWater(pixel) then WATER
    else LAND
  }

  datatype QaError = QaGridsDiffer | AnalyticGridDiffers

  /** `decode_qa_mask`: a raster of land, overwritten class by class in order. */
  method DecodeQaMask(pixel: Grid<bv16>, radsat: Grid<bv16>, analytic: Option<Grid<bool>>)
    returns (result: Result<array2<nat>, QaError>)
    ensures result == Err(QaGridsDiffer) <==> (pixel.height, pixel.width) != (radsat.height, radsat.width)
    ensures result.Err? <==>
              || (pixel.height, pixel.width) != (radsat.height, radsat.width)
              || (analytic.Some? && (analytic.value.height, analytic.value.width) != (pixel.height, pixel.width))
    ensures result.Ok? ==>
              && fresh(result.value) && result.value.Length0 == pixel.height && result.value.Length1 == pixel.width
              && forall r: nat, c: nat | r < pixel.height && c < pixel.width ::
                   result.value[r, c] == ClassOf(pixel.cell(r, c), radsat.cell(r, c),
                                                 analytic.Some? ==> analytic.value.cell(r, c))
  {
    if (pixel.height, pixel.width) != (radsat.height, radsat.width) {
      return Err(QaGridsDiffer);
    }
    if analytic.Some? && (analytic.value.height, analytic.value.width) != (pixel.height, pixel.width) {
      return Err(AnalyticGridDiffers);
    }
    hide IsInvalid, IsCloud, IsShadow, IsSnow, IsWater;
    var h, w := pixel.height, pixel.width;
    var invalid := (r: nat, c: nat) =>
      IsInvalid(pixel.cell(r, c), radsat.cell(r, c), analytic.Some? ==> analytic.value.cell(r, c));
    var output := new nat[h, w]((_, _) => LAND);
    forall r: nat, c: nat | r < h && c < w && IsWater(pixel.cell(r, c)) { output[r, c] := WATER; }
    forall r: nat, c: nat | r < h && c < w && IsSnow(pixel.cell(r, c)) { output[r, c] := SNOW; }
    forall r: nat, c: nat | r < h && c < w && IsShadow(pixel.cell(r, c)) { output[r, c] := SHADOW; }
    forall r: nat, c: nat | r < h && c < w && IsCloud(pixel.cell(r, c)) { output[r, c] := CLOUD; }
    forall r: nat, c: nat | r < h && c < w && invalid(r, c) { output[r, c] := NODATA; }
    result := Ok(output);
  }

  /** `reflectance_from_dn` without a mask, per pixel; resampled digital numbers are floats. */
  function Reflectance(dn: Float): Float {
    if dn.Num? && dn.value != 0.0 then Num(dn.value * SCALE + OFFSET) else NonFinite
  }

  /** The six reflectance bands of a pixel are all present. */
  predicate AnalyticValid(dns: seq<Float>) {
    forall b | 0 <= b < |dns| :: Reflectance(dns[b]).Num?
  }

  predicate UsableClass(cls: nat) { cls == LAND || cls == WATER }

  /** `index_valid_mask`. */
  predicate IndexValid(cls: nat, first: Float, second: Float) {
    UsableClass(cls) && first.Num? && second.Num?
  }

  /** One pixel of one derived index, from digital numbers and quality words to the int16 sample. */
  function DerivedPixel(f: Formula, root: real -> real, pixel: bv16, radsat: bv16, dns: seq<Float>, a: nat, b: nat): int
    requires a < |dns| && b < |dns|
  {
    var cls := ClassOf(pixel, radsat, AnalyticValid(dns));
    var first, second := Reflectance(dns[a]), Reflectance(dns[b]);
    Short(IndexValue(f, root, first, second, IndexValid(cls, first, second)))
  }

  predicate Clear(pixel: bv16, radsat: bv16) {
    && !IsInvalid(pixel, radsat, true)
    && !IsCloud(pixel) && !IsShadow(pixel) && !IsSnow(pixel)
  }

  lemma UsableMeansClear(pixel: bv16, radsat: bv16, analyticValid: bool)
    ensures UsableClass(ClassOf(pixel, radsat, analyticValid)) <==> Clear(pixel, radsat) && analyticValid
  {
  }

  /** A derived pixel carries a value exactly when its quality words are clear, every band has
      data, and the formula's guard holds on the two reflectances; its class is then land or water. */
  lemma DerivedPixelHasValue(f: Formula, root: real -> real, pixel: bv16, radsat: bv16, dns: seq<Float>, a: nat, b: nat)
    requires a < |dns| && b < |dns|
    ensures DerivedPixel(f, root, pixel, radsat, dns, a, b) != -32768 <==>
              && Clear(pixel, radsat) && AnalyticValid(dns)
              && Guard(f, Reflectance(dns[a]).value, Reflectance(dns[b]).value)
    ensures DerivedPixel(f, root, pixel, radsat, dns, a, b) != -32768 ==>
              && UsableClass(ClassOf(pixel, radsat, AnalyticValid(dns)))
              && Reflectance(dns[a]).Num? && Reflectance(dns[b]).Num?
              && -10000 <= DerivedPixel(f, root, pixel, radsat, dns, a, b) <= 10000
  {
    hide ClassOf, Short, Guard, Value, Clear;
    var cls := ClassOf(pixel, radsat, AnalyticValid(dns));
    var first, second := Reflectance(dns[a]), Reflectance(dns[b]);
    UsableMeansClear(pixel, radsat, AnalyticValid(dns));
    EncodingRange(IndexValue(f, root, first, second, IndexValid(cls, first, second)));
  }

  /** Marking a pixel with any further quality bit never brings a value back. */
  lemma MoreBitsNeverRestore(f: Formula, root: real -> real, pixel: bv16, radsat: bv16, morePixel: bv16,
                             moreRadsat: bv16,
                             dns: seq<Float>, a: nat, b: nat)
    requires a < |dns| && b < |dns|
    ensures DerivedPixel(f, root, pixel | morePixel, radsat | moreRadsat, dns, a, b) != -32768
            ==> DerivedPixel(f, root, pixel, radsat, dns, a, b) != -32768
  {
  }

  function IndexMask(mask: Grid<nat>, first: Grid<Float>, second: Grid<Float>): Grid<bool> {
    Grid(mask.height, mask.width, (r: nat, c: nat) => IndexValid(mask.cell(r, c), first.cell(r, c), second.cell(r, c)))
  }

  /** One turn of the index loop of `_process_scene`: mask, calculate, encode. */
  method DeriveIndex(index: IndexName, root: real -> real, mask: Grid<nat>, first: Grid<Float>, second: Grid<Float>)
    returns (encoded: array2<int>)
    requires index in {Ndvi, MsaviIndex, Ndmi, NdwiGreenNir}
    requires mask.height == first.height == second.height && mask.width == first.width == second.width
    ensures encoded.Length0 == mask.height && encoded.Length1 == mask.width
    ensures forall r: nat, c: nat | r < mask.height && c < mask.width ::
              encoded[r, c] == Short(IndexValue(FormulaOf(index).value, root, first.cell(r, c), second.cell(r, c),
                                                IndexValid(mask.cell(r, c), first.cell(r, c), second.cell(r, c))))
  {
    hide IndexValue, IndexValid;
    var values := CalculateIndex(index, root, first, second, Some(IndexMask(mask, first, second)));
    var out := EncodeIndexOutput(values.value, SHORT_PROFILE);
    encoded := out.shorts;
  }

  // ---- A whole scene ----

  /** `LANDSAT_INDEX_ASSETS`: each index with the positions of its two reflectance bands. */
  const INDEX_BANDS: seq<(IndexName, nat, nat)> :=
    [(Ndvi, NIR, RED), (MsaviIndex, NIR, RED), (Ndmi, NIR, SWIR16), (NdwiGreenNir, GREEN, NIR)]

  const GREEN: nat := 1
  const RED: nat := 2
  const NIR: nat := 3
  const SWIR16: nat := 4

  /** The six bands and the two quality rasters of a scene, matched to the grid of its blue band. */
  datatype Scene = Scene(height: nat, width: nat, bands: seq<Grid<Float>>, pixel: Grid<bv16>, radsat: Grid<bv16>)

  predicate Matched(s: Scene) {
    && |s.bands| == 6
    && (forall b | 0 <= b < 6 :: (s.bands[b].height, s.bands[b].width) == (s.height, s.width))
    && (s.pixel.height, s.pixel.width) == (s.height, s.width)
    && (s.radsat.height, s.radsat.width) == (s.height, s.width)
  }

  /** The digital numbers of one pixel in all bands. */
  function DnsAt(s: Scene, r: nat, c: nat): (dns: seq<Float>)
    ensures |dns| == |s.bands|
  {
    seq(|s.bands|, b requires 0 <= b < |s.bands| => s.bands[b].cell(r, c))
  }

  function Converted(band: Grid<Float>): Grid<Float> {
    Grid(band.height, band.width, (r: nat, c: nat) => Reflectance(band.cell(r, c)))
  }

  /** The contents of an array as a raster. */
  function AsGrid<T>(a: array2<T>, outside: T): (g: Grid<T>)
    reads a
    ensures (g.height, g.width) == (a.Length0, a.Length1)
    ensures forall r: nat, c: nat | r < a.Length0 && c < a.Length1 :: g.cell(r, c) == a[r, c]
  {
    var h, w := a.Length0, a.Length1;
    var rows := seq(h, r requires 0 <= r < h reads a =>
                  seq(w, c requires 0 <= c < w reads a => a[r, c]));
    Grid(h, w, (r: nat, c: nat) => if r < h && c < w then rows[r][c] else outside)
  }

  /** The first loop of `_process_scene`: the validity of a pixel, narrowed band by band. */
  method NarrowValidity(s: Scene) returns (valid: array2<bool>)
    requires Matched(s)
    ensures fresh(valid) && (valid.Length0, valid.Length1) == (s.height, s.width)
    ensures forall r: nat, c: nat | r < s.height && c < s.width :: valid[r, c] == AnalyticValid(DnsAt(s, r, c))
  {
    hide Reflectance;
    valid := new bool[s.height, s.width]((_, _) => true);
    for b := 0 to 6
      invariant forall r: nat, c: nat | r < s.height && c < s.width ::
                  valid[r, c] <==> forall k | 0 <= k < b :: Reflectance(s.bands[k].cell(r, c)).Num?
    {
      forall r: nat, c: nat | r < s.height && c < s.width && !Reflectance(s.bands[b].cell(r, c)).Num? {
        valid[r, c] := false;
      }
    }
    forall r: nat, c: nat | r < s.height && c < s.width ensures valid[r, c] == AnalyticValid(DnsAt(s, r, c)) {
      assert forall b | 0 <= b < 6 :: DnsAt(s, r, c)[b] == s.bands[b].cell(r, c);
    }
  }

  ghost predicate HoldsMask(mask: Grid<nat>, s: Scene) {
    && (mask.height, mask.width) == (s.height, s.width)
    && forall r: nat, c: nat | r < s.height && c < s.width ::
         mask.cell(r, c) == ClassOf(s.pixel.cell(r, c), s.radsat.cell(r, c), AnalyticValid(DnsAt(s, r, c)))
  }

  /** Every sample of an output raster is the derived pixel of the scene's samples there. */
  ghost predicate HoldsDerived(out: array2<int>, s: Scene, root: real -> real, index: (IndexName, nat, nat))
    requires Matched(s) && index in INDEX_BANDS
    reads out
  {
    && (out.Length0, out.Length1) == (s.height, s.width)
    && forall r: nat, c: nat | r < s.height && c < s.width ::
         out[r, c] == DerivedPixel(FormulaOf(index.0).value, root, s.pixel.cell(r, c), s.radsat.cell(r, c),
                                   DnsAt(s, r, c), index.1, index.2)
  }

  method DeriveOutput(s: Scene, root: real -> real, mask: Grid<nat>, index: (IndexName, nat, nat))
    returns (out: array2<int>)
    requires Matched(s) && HoldsMask(mask, s) && index in INDEX_BANDS
    ensures HoldsDerived(out, s, root, index)
  {
    hide ClassOf, AnalyticValid, Reflectance, IndexValue, IndexValid, EncodeShort;
    out := DeriveIndex(index.0, root, mask, Converted(s.bands[index.1]), Converted(s.bands[index.2]));
  }

  /** The mask of a scene: its quality words and the validity of its bands. */
  method DecodeScene(s: Scene) returns (mask: Grid<nat>)
    requires Matched(s)
    ensures HoldsMask(mask, s)
  {
    hide ClassOf, AnalyticValid;
    var valid := NarrowValidity(s);
    var decoded := DecodeQaMask(s.pixel, s.radsat, Some(AsGrid(valid, false)));
    mask := AsGrid(decoded.value, NODATA);
  }

  /** `_process_scene` without its storage: the mask of a scene and its index rasters. */
  method ProcessScene(s: Scene, root: real -> real) returns (mask: Grid<nat>, outputs: seq<array2<int>>)
    requires Matched(s)
    ensures HoldsMask(mask, s)
    ensures |outputs| == |INDEX_BANDS|
    ensures forall i | 0 <= i < |outputs| :: HoldsDerived(outputs[i], s, root, INDEX_BANDS[i])
  {
    hide HoldsMask, HoldsDerived;
    mask := DecodeScene(s);
    outputs := [];
    for i := 0 to |INDEX_BANDS|
      invariant |outputs| == i
      invariant forall j | 0 <= j < i :: HoldsDerived(outputs[j], s, root, INDEX_BANDS[j])
    {
      var out := DeriveOutput(s, root, mask, INDEX_BANDS[i]);
      outputs := outputs + [out];
    }
  }
}

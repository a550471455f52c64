/** The ResourceSat threshold mask and the window-by-window write of a prepared scene. */
module ThresholdMask {
  import opened Wrappers
  import opened Rounding
  import opened Floats
  import opened PixelGrid
  import opened TileWindows

  /** The band orders in use: green, red, NIR, and SWIR1 on LISS-3 and AWiFS only. */
  datatype Profile = GreenRedNir | GreenRedNirSwir

  function BandCount(profile: Profile): nat { if profile.GreenRedNir? then 3 else 4 }

  /** The digital numbers of one pixel, by role. */
  datatype Pixel = Pixel(green: nat, red: nat, nir: nat, swir: Option<nat>)

  const REFLECTANCE_SCALE: real := 0.0001
  const REFLECTANCE_OFFSET: real := 0.0

  function Reflectance(dn: nat): real { dn as real * REFLECTANCE_SCALE + REFLECTANCE_OFFSET }

  function Ratio(a: real, b: real): Float {
    if Abs(a + b) > 0.000001 then Num((a - b) / (a + b)) else NonFinite
  }

  function Brightness(p: Pixel): real { (Reflectance(p.green) + Reflectance(p.red) + Reflectance(p.nir)) / 3.0 }

  predicate Gap(p: Pixel) { p.green == 0 || p.red == 0 || p.nir == 0 || p.swir == Some(0) }

  predicate Water(p: Pixel) {
    && AtLeast(Ratio(Reflectance(p.green), Reflectance(p.nir)), 0.20)
    && Reflectance(p.nir) <= 0.20 && !Gap(p)
  }

  predicate Cloud(p: Pixel) {
    if p.swir.Some? then
      Brightness(p) >= 0.32 && Reflectance(p.swir.value) >= 0.20 && !Gap(p)
    else
      && Brightness(p) >= 0.32 && AtMost(Ratio(Reflectance(p.nir), Reflectance(p.red)), 0.20)
      && !Gap(p) && !Water(p)
  }

  predicate Shadow(p: Pixel) {
    if p.swir.Some? then
      && Reflectance(p.nir) <= 0.08 && Reflectance(p.swir.value) <= 0.08 && Reflectance(p.red) <= 0.08
      && !Gap(p) && !Water(p)
    else
      && Reflectance(p.green) <= 0.08 && Reflectance(p.red) <= 0.08 && Reflectance(p.nir) <= 0.08
      && !Gap(p) && !Water(p) && !Cloud(p)
  }

  /** The class of a pixel as a priority: gap, then water, then shadow, then cloud, then land. */
  function ClassOf(p: Pixel): nat {
    if Gap(p) then 0 else if Water(p) then 4 else if Shadow(p) then 3 else if Cloud(p) then 2 else 1
  }

  /** The rules exclude each other, except that a bright pixel may satisfy both the cloud and the
      water rule where a SWIR band is used; it is then written as water. */
  lemma RulesExclude(p: Pixel)
    ensures !(Shadow(p) && Cloud(p)) && !(Shadow(p) && Water(p))
    ensures Cloud(p) && Water(p) ==> p.swir.Some? && ClassOf(p) == 4
  {
  }

  /** The class of a pixel by its digital numbers: the thresholds on reflectances and ratios come to bounds on
      whole numbers. */
  lemma ClassInDigitalNumbers(p: Pixel)
    ensures var g, r, n := p.green, p.red, p.nir;
            var seen := g > 0 && r > 0 && n > 0 && (p.swir.Some? ==> p.swir.value > 0);
            var water := 2 * g >= 3 * n && n <= 2000;
            var dark := r <= 800 && n <= 800 && match p.swir case Some(w) => w <= 800 case None => g <= 800;
            var bright := g + r + n >= 9600 && match p.swir case Some(w) => w >= 2000 case None => 2 * n <= 3 * r;
            && (ClassOf(p) == 0 <==> !seen)
            && (ClassOf(p) == 4 <==> seen && water)
            && (ClassOf(p) == 3 <==> seen && !water && dark)
            && (ClassOf(p) == 2 <==> seen && !water && !dark && bright)
            && (ClassOf(p) == 1 <==> seen && !water && !dark && !bright)
  {
    hide Water, Shadow, Cloud;
    if !Gap(p) {
      WaterInDigitalNumbers(p);
      ShadowInDigitalNumbers(p);
      CloudInDigitalNumbers(p);
    }
  }

  lemma RatioBound(a: nat, b: nat)
    requires a > 0 && b > 0
    ensures AtLeast(Ratio(Reflectance(a), Reflectance(b)), 0.20) <==> 2 * a >= 3 * b
    ensures AtMost(Ratio(Reflectance(a), Reflectance(b)), 0.20) <==> 2 * a <= 3 * b
  {
    var x, y := Reflectance(a), Reflectance(b);
    ReflectancesAre(a, b);
    RatioOrder(x - y, x + y);
  }

  lemma ReflectancesAre(a: nat, b: nat)
    requires a > 0 && b > 0
    ensures var x, y := Reflectance(a), Reflectance(b);
            && x + y > 0.000001 && (0.20 * (x + y) <= x - y <==> 2 * a >= 3 * b)
            && (x - y <= 0.20 * (x + y) <==> 2 * a <= 3 * b)
  {
  }

  lemma RatioOrder(n: real, d: real)
    requires d > 0.0
    ensures n / d >= 0.20 <==> 0.20 * d <= n
    ensures n / d <= 0.20 <==> n <= 0.20 * d
  {
    Quotient(n, d, n / d);
    assert n / d < 0.20 ==> (0.20 - n / d) * d > 0.0;
    assert n / d > 0.20 ==> (n / d - 0.20) * d > 0.0;
  }

  lemma WaterInDigitalNumbers(p: Pixel)
    requires !Gap(p)
    ensures Water(p) <==> 2 * p.green >= 3 * p.nir && p.nir <= 2000
  {
    hide Ratio, AtLeast, AtMost;
    RatioBound(p.green, p.nir);
  }

  lemma ShadowInDigitalNumbers(p: Pixel)
    requires !Gap(p)
    ensures Shadow(p) <==> && !Water(p) && p.red <= 800 && p.nir <= 800
                           && match p.swir case Some(w) => w <= 800 case None => p.green <= 800
  {
    hide Ratio, AtLeast, AtMost, Water;
  }

  lemma CloudInDigitalNumbers(p: Pixel)
    requires !Gap(p)
    ensures Cloud(p) <==> && p.green + p.red + p.nir >= 9600
                          && match p.swir case Some(w) => w >= 2000 case None => 2 * p.nir <= 3 * p.red && !Water(p)
  {
    hide Ratio, AtLeast, AtMost, Water;
    RatioBound(p.nir, p.red);
  }

  /** A pixel that meets both rules. */
  lemma BrightWaterBeatsCloud()
    ensures var p := Pixel(6000, 5000, 2000, Some(3000));
            Cloud(p) && Water(p) && ClassOf(p) == 4 && ClassOf(p.(swir := None)) == 4 && !Cloud(p.(swir := None))
  {
  }

  predicate SameShape<T>(bands: seq<Grid<T>>, height: nat, width: nat) {
    forall b | 0 <= b < |bands| :: bands[b].height == height && bands[b].width == width
  }

  function PixelAt(bands: seq<Grid<nat>>, r: nat, c: nat): Pixel
    requires |bands| >= 3
  {
    Pixel(bands[0].cell(r, c), bands[1].cell(r, c), bands[2].cell(r, c),
          if |bands| > 3 then Some(bands[3].cell(r, c)) else None)
  }

  /** The role of each band: green, red and near infrared, and short wave infrared where there is a fourth. */
  lemma RolesOfBands(profile: Profile, bands: seq<Grid<nat>>, r: nat, c: nat)
    requires |bands| == BandCount(profile)
    ensures |bands| == match profile case GreenRedNir => 3 case GreenRedNirSwir => 4
    ensures var p := PixelAt(bands, r, c);
            && p.green == bands[0].cell(r, c) && p.red == bands[1].cell(r, c) && p.nir == bands[2].cell(r, c)
            && match profile
               case GreenRedNir => p.swir == None
               case GreenRedNirSwir => p.swir == Some(bands[3].cell(r, c))
  {
  }

  datatype PrepareError = WrongBandCount(expected: nat, got: nat) | BandsNotAligned(band: nat)

  /** `build_threshold_mask`: a mask of ones, overwritten class by class. */
  method BuildThresholdMask(profile: Profile, bands: seq<Grid<nat>>, height: nat, width: nat)
    returns (result: Result<array2<nat>, PrepareError>)
    requires SameShape(bands, height, width)
    ensures |bands| != BandCount(profile) ==> result == Err(WrongBandCount(BandCount(profile), |bands|))
    ensures |bands| == BandCount(profile) ==>
              && result.Ok? && fresh(result.value)
              && result.value.Length0 == height && result.value.Length1 == width
              && forall r: nat, c: nat | r < height && c < width :: result.value[r, c] == ClassOf(PixelAt(bands, r, c))
  {
    if |bands| != BandCount(profile) {
      return Err(WrongBandCount(BandCount(profile), |bands|));
    }
    hide Cloud, Shadow, Water, Gap;
    forall p: Pixel ensures !(Shadow(p) && Cloud(p)) && !(Shadow(p) && Water(p)) { RulesExclude(p); }
    forall p: Pixel ensures Gap(p) ==> !Water(p) && !Shadow(p) && !Cloud(p) { GapsMatchNothing(p); }
    var mask := new nat[height, width]((_, _) => 1);
    forall r: nat, c: nat | r < height && c < width && Gap(PixelAt(bands, r, c)) {
      mask[r, c] := 0;
    }
    forall r: nat, c: nat | r < height && c < width && Cloud(PixelAt(bands, r, c)) {
      mask[r, c] := 2;
    }
    forall r: nat, c: nat | r < height && c < width && Shadow(PixelAt(bands, r, c)) {
      mask[r, c] := 3;
    }
    forall r: nat, c: nat | r < height && c < width && Water(PixelAt(bands, r, c)) {
      mask[r, c] := 4;
    }
    result := Ok(mask);
  }

  lemma GapsMatchNothing(p: Pixel)
    ensures Gap(p) ==> !Water(p) && !Shadow(p) && !Cloud(p)
  {
  }

  /** One band file: its samples and where the grid lies. */
  datatype BandFile = BandFile(values: Grid<nat>, transform: int, crs: int)

  predicate Aligned(a: BandFile, b: BandFile) {
    && a.values.height == b.values.height && a.values.width == b.values.width
    && a.transform == b.transform && a.crs == b.crs
  }

  /** Bands fit together when shape, transform and reference system are the same. */
  lemma AlignedMeans(a: BandFile, b: BandFile)
    ensures Aligned(a, b) <==> (a.values.height, a.values.width, a.transform, a.crs)
                               == (b.values.height, b.values.width, b.transform, b.crs)
  {
  }

  function Values(files: seq<BandFile>): (r: seq<Grid<nat>>)
    ensures |r| == |files|
  {
    seq(|files|, b requires 0 <= b < |files| => files[b].values)
  }

  /** One turn of the window loop: the bands and their mask, written into the window only. */
  method WriteWindow(profile: Profile, bands: seq<Grid<nat>>, w: Window, analytic: array3<nat>, mask: array2<nat>)
    requires |bands| == BandCount(profile) && analytic.Length0 == |bands|
    requires mask.Length0 == analytic.Length1 && mask.Length1 == analytic.Length2
    requires w.row + w.height <= mask.Length0 && w.col + w.width <= mask.Length1
    modifies analytic, mask
    ensures forall b: nat, r: nat, c: nat | b < |bands| && r < mask.Length0 && c < mask.Length1 ::
              analytic[b, r, c] == if Holds(w, r, c) then bands[b].cell(r, c) else old(analytic[b, r, c])
    ensures forall r: nat, c: nat | r < mask.Length0 && c < mask.Length1 ::
              mask[r, c] == if Holds(w, r, c) then ClassOf(PixelAt(bands, r, c)) else old(mask[r, c])
  {
    hide ClassOf;
    var stack := ReadAll(bands, w);
    for k := 0 to |bands|
      invariant forall b: nat, r: nat, c: nat | b < |bands| && r < mask.Length0 && c < mask.Length1 ::
                  analytic[b, r, c] == if b < k && Holds(w, r, c) then bands[b].cell(r, c) else old(analytic[b, r, c])
      invariant unchanged(mask)
    {
      forall r: nat, c: nat | r < mask.Length0 && c < mask.Length1 && Holds(w, r, c) {
        analytic[k, r, c] := stack[k].cell(r - w.row, c - w.col);
      }
    }
    var built := BuildThresholdMask(profile, stack, w.height, w.width);
    var tile := built.value;
    forall r: nat, c: nat | r < mask.Length0 && c < mask.Length1 && Holds(w, r, c)
      ensures tile[r - w.row, c - w.col] == ClassOf(PixelAt(bands, r, c))
    {
      assert PixelAt(stack, r - w.row, c - w.col) == PixelAt(bands, r, c);
    }
    forall r: nat, c: nat | r < mask.Length0 && c < mask.Length1 && Holds(w, r, c) {
      mask[r, c] := tile[r - w.row, c - w.col];
    }
  }

  /** The window loop: each window in turn, until every pixel has been written. */
  method WriteWindows(profile: Profile, bands: seq<Grid<nat>>, height: nat, width: nat)
    returns (analytic: array3<nat>, mask: array2<nat>)
    requires |bands| == BandCount(profile)
    ensures analytic.Length0 == |bands| && analytic.Length1 == height && analytic.Length2 == width
    ensures mask.Length0 == height && mask.Length1 == width
    ensures forall b: nat, r: nat, c: nat | b < |bands| && r < height && c < width ::
              analytic[b, r, c] == bands[b].cell(r, c)
    ensures forall r: nat, c: nat | r < height && c < width :: mask[r, c] == ClassOf(PixelAt(bands, r, c))
  {
    hide ClassOf, PixelAt, Holds, BoundedWindows;
    analytic := new nat[|bands|, height, width]((_, _, _) => 0);
    mask := new nat[height, width]((_, _) => 0);
    var windows := BoundedWindows(width, height, MAX_WINDOW_SIZE);
    WindowsFit(width, height, MAX_WINDOW_SIZE);
    for i := 0 to |windows|
      invariant forall b: nat, r: nat, c: nat, j |
                  0 <= j < i && Holds(windows[j], r, c) && b < |bands| && r < height && c < width ::
                  analytic[b, r, c] == bands[b].cell(r, c)
      invariant forall r: nat, c: nat, j | 0 <= j < i && Holds(windows[j], r, c) && r < height && c < width ::
                  mask[r, c] == ClassOf(PixelAt(bands, r, c))
    {
      assert windows[i] in windows;
      WriteWindow(profile, bands, windows[i], analytic, mask);
    }
    forall r: nat, c: nat | r < height && c < width
      ensures mask[r, c] == ClassOf(PixelAt(bands, r, c))
    {
      var _ := HoldingWindow(width, height, MAX_WINDOW_SIZE, r, c);
    }
    forall b: nat, r: nat, c: nat | b < |bands| && r < height && c < width
      ensures analytic[b, r, c] == bands[b].cell(r, c)
    {
      var _ := HoldingWindow(width, height, MAX_WINDOW_SIZE, r, c);
    }
  }

  /** `write_prepared_scene_cogs`: writing tile by tile stores the mask that the whole raster
      would have been given at once, and the bands as they are. */
  method WritePreparedScene(profile: Profile, files: seq<BandFile>)
    returns (result: Result<(array3<nat>, array2<nat>), PrepareError>)
    requires |files| == BandCount(profile)
    ensures result.Ok? <==> forall b | 0 <= b < |files| :: Aligned(files[0], files[b])
    ensures result.Ok? ==>
              var (analytic, mask) := result.value;
              var (height, width) := (files[0].values.height, files[0].values.width);
              && analytic.Length0 == |files| && analytic.Length1 == height && analytic.Length2 == width
              && mask.Length0 == height && mask.Length1 == width
              && (forall b: nat, r: nat, c: nat | b < |files| && r < height && c < width ::
                    analytic[b, r, c] == files[b].values.cell(r, c))
              && (forall r: nat, c: nat | r < height && c < width ::
                    mask[r, c] == ClassOf(PixelAt(Values(files), r, c)))
  {
    hide ClassOf, PixelAt;
    for b := 1 to |files|
      invariant forall k | 0 <= k < b :: Aligned(files[0], files[k])
    {
      if !Aligned(files[0], files[b]) {
        return Err(BandsNotAligned(b));
      }
    }
    var analytic, mask := WriteWindows(profile, Values(files), files[0].values.height, files[0].values.width);
    result := Ok((analytic, mask));
  }
}

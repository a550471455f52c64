/** What the Landsat mask and index rasters hold, from the digital numbers and quality bits of a pixel. */
module LandsatMeaning {
  import opened Rounding
  import opened Floats
  import opened PixelGrid
  import opened IndexFormulas
  import opened IndexEncoding
  import opened LandsatQa

  // ---- The mask ----

  /** Fill, a saturated band, terrain occlusion, or a band without data. */
  predicate Unusable(pixel: bv16, radsat: bv16, allBands: bool) {
    || Bit(pixel, 0) || !allBands || Bit(radsat, 1) || Bit(radsat, 2) || Bit(radsat, 3)
    || Bit(radsat, 4) || Bit(radsat, 5) || Bit(radsat, 6) || Bit(radsat, 11)
  }

  predicate Cloudy(pixel: bv16) { Bit(pixel, 1) || Bit(pixel, 2) || Bit(pixel, 3) }

  /** The class codes of the mask, each with the pixels that have it. */
  lemma MaskClassMeans(pixel: bv16, radsat: bv16, allBands: bool)
    ensures var cls := ClassOf(pixel, radsat, allBands);
            var seen := !Unusable(pixel, radsat, allBands);
            && (cls == 0 <==> !seen)
            && (cls == 2 <==> seen && Cloudy(pixel))
            && (cls == 3 <==> seen && !Cloudy(pixel) && Bit(pixel, 4))
            && (cls == 5 <==> seen && !Cloudy(pixel) && !Bit(pixel, 4) && Bit(pixel, 5))
            && (cls == 4 <==> seen && !Cloudy(pixel) && !Bit(pixel, 4) && !Bit(pixel, 5) && Bit(pixel, 7))
            && (cls == 1 <==> seen && !Cloudy(pixel) && !Bit(pixel, 4) && !Bit(pixel, 5) && !Bit(pixel, 7))
  {
    hide Bit, IsWater, IsSnow, IsShadow, IsCloud;
    MasksTestBits(pixel, radsat);
    ValidityOnly(pixel, radsat, allBands);
  }

  lemma ValidityOnly(pixel: bv16, radsat: bv16, allBands: bool)
    ensures IsInvalid(pixel, radsat, allBands) <==> IsInvalid(pixel, radsat, true) || !allBands
  {
  }

  // ---- The indices ----

  /** Clear land or water in all quality bits. */
  predicate ClearSky(pixel: bv16, radsat: bv16) {
    !Unusable(pixel, radsat, true) && !Cloudy(pixel) && !Bit(pixel, 4) && !Bit(pixel, 5)
  }

  /** A digital number carries data. */
  predicate HasData(dn: Float) { dn.Num? && dn.value != 0.0 }

  /** The surface reflectance of a digital number. */
  function Scaled(dn: Float): real { (if dn.Num? then dn.value else 0.0) * 0.0000275 - 0.2 }

  predicate AllData(s: Scene, r: nat, c: nat) {
    forall b | 0 <= b < |s.bands| :: HasData(s.bands[b].cell(r, c))
  }

  function Cut(x: real): real { if x < -1.0 then -1.0 else if x > 1.0 then 1.0 else x }

  /** An int16 sample that stands for a value, clipped to [-1, 1]. */
  predicate StandsFor(sample: int, x: real) {
    -10000 <= sample <= 10000 && Abs(sample as real / 10000.0 - Cut(x)) <= 1.0 / 20000.0
  }

  /** The outputs of a scene in their order: NDVI, MSAVI, NDMI and the water index. */
  ghost predicate AreOutputs(s: Scene, root: real -> real, outputs: seq<array2<int>>)
    requires Matched(s)
    reads set i | 0 <= i < |outputs| :: outputs[i]
  {
    |outputs| == |INDEX_BANDS| && forall i | 0 <= i < |outputs| :: HoldsDerived(outputs[i], s, root, INDEX_BANDS[i])
  }

  /** The normalised differences, by the position of the output and of the two bands: NDVI is near infrared
      against red, NDMI near infrared against the first short wave infrared, and the water index green against
      near infrared. */
  predicate IsDifference(i: nat, a: nat, b: nat) { (i, a, b) in {(0, 3, 2), (2, 3, 4), (3, 1, 3)} }

  /** A normalised difference has a value exactly where the sky is clear, all six bands have data and the sum
      of the two reflectances is not within a millionth of zero; the value is the difference over the sum. */
  lemma DifferencesMean(s: Scene, root: real -> real, outputs: seq<array2<int>>, i: nat, a: nat, b: nat, r: nat, c: nat)
    requires Matched(s) && AreOutputs(s, root, outputs) && IsDifference(i, a, b) && r < s.height && c < s.width
    ensures var x, y := Scaled(s.bands[a].cell(r, c)), Scaled(s.bands[b].cell(r, c));
            var sample := outputs[i][r, c];
            && (sample != -32768 <==> && ClearSky(s.pixel.cell(r, c), s.radsat.cell(r, c)) && AllData(s, r, c)
                                      && (x + y > 0.000001 || x + y < -0.000001))
            && (sample != -32768 ==> exists q :: q * (x + y) == x - y && StandsFor(sample, q))
  {
    hide AreOutputs, DerivedPixel, ClearSky, StandsFor, DnsAt, AllData, AnalyticValid;
    OutputIs(s, root, outputs, i, a, b, r, c);
    AllDataMeans(s, r, c);
    DnsAre(s, r, c, a);
    DnsAre(s, r, c, b);
    DifferencePixel(root, s.pixel.cell(r, c), s.radsat.cell(r, c), DnsAt(s, r, c), a, b);
  }

  lemma DifferencePixel(root: real -> real, pixel: bv16, radsat: bv16, dns: seq<Float>, a: nat, b: nat)
    requires a < |dns| && b < |dns|
    ensures var x, y := Scaled(dns[a]), Scaled(dns[b]);
            var sample := DerivedPixel(NormalizedDifference, root, pixel, radsat, dns, a, b);
            && (sample != -32768 <==> && ClearSky(pixel, radsat) && AnalyticValid(dns)
                                      && (x + y > 0.000001 || x + y < -0.000001))
            && (sample != -32768 ==> exists q :: q * (x + y) == x - y && StandsFor(sample, q))
  {
    hide DerivedPixel, ClearSky, StandsFor, Clear, Difference, AnalyticValid, Short, Reflectance, Scaled;
    var x, y := Scaled(dns[a]), Scaled(dns[b]);
    DerivedPixelHasValue(NormalizedDifference, root, pixel, radsat, dns, a, b);
    ClearSkyMeans(pixel, radsat);
    if AnalyticValid(dns) {
      ReflectanceIs(dns, a);
      ReflectanceIs(dns, b);
    }
    if DerivedPixel(NormalizedDifference, root, pixel, radsat, dns, a, b) != -32768 {
      DerivedIs(NormalizedDifference, root, pixel, radsat, dns, a, b);
      DifferenceIs(x, y);
      ShortStandsFor(Difference(x, y));
    }
  }

  lemma ReflectanceIs(dns: seq<Float>, a: nat)
    requires a < |dns| && AnalyticValid(dns)
    ensures Reflectance(dns[a]) == Num(Scaled(dns[a]))
  {
  }

  lemma DifferenceIs(x: real, y: real)
    requires DifferenceGuard(x, y)
    ensures Difference(x, y) * (x + y) == x - y
  {
    Quotient(x - y, x + y, Difference(x, y));
  }

  lemma DnsAre(s: Scene, r: nat, c: nat, b: nat)
    requires b < |s.bands|
    ensures DnsAt(s, r, c)[b] == s.bands[b].cell(r, c)
  {
  }

  /** The sign of a normalised difference is that of the difference of the digital numbers, where the
      reflectances have a positive sum: more near infrared than red never gives a negative NDVI. */
  lemma DifferenceSign(s: Scene, root: real -> real, outputs: seq<array2<int>>, i: nat, a: nat, b: nat, r: nat, c: nat)
    requires Matched(s) && AreOutputs(s, root, outputs) && IsDifference(i, a, b) && r < s.height && c < s.width
    requires outputs[i][r, c] != -32768
    requires Scaled(s.bands[a].cell(r, c)) + Scaled(s.bands[b].cell(r, c)) > 0.0
    ensures outputs[i][r, c] > 0 ==> s.bands[a].cell(r, c).value > s.bands[b].cell(r, c).value
    ensures outputs[i][r, c] < 0 ==> s.bands[a].cell(r, c).value < s.bands[b].cell(r, c).value
  {
    hide AreOutputs, ClearSky, StandsFor;
    OutputIs(s, root, outputs, i, a, b, r, c);
    DifferencesMean(s, root, outputs, i, a, b, r, c);
    var x, y := Scaled(s.bands[a].cell(r, c)), Scaled(s.bands[b].cell(r, c));
    var sample := outputs[i][r, c];
    var q :| q * (x + y) == x - y && StandsFor(sample, q);
    SignOf(q, x, y, sample);
  }

  lemma SignOf(q: real, x: real, y: real, sample: int)
    requires q * (x + y) == x - y && x + y > 0.0 && StandsFor(sample, q)
    ensures sample > 0 ==> x > y
    ensures sample < 0 ==> x < y
  {
    if sample > 0 {
      assert sample as real / 10000.0 >= 1.0 / 10000.0;
      assert q > 0.0;
      assert q * (x + y) > 0.0;
    }
    if sample < 0 {
      assert sample as real / 10000.0 <= -1.0 / 10000.0;
      assert q < 0.0;
      assert (0.0 - q) * (x + y) > 0.0;
    }
  }

  /** The second output is MSAVI of near infrared and red: the smaller root of its quadratic. */
  lemma MsaviMeans(s: Scene, root: real -> real, outputs: seq<array2<int>>, r: nat, c: nat)
    requires Matched(s) && AreOutputs(s, root, outputs) && r < s.height && c < s.width
    requires forall x :: x >= 0.0 ==> root(x) >= 0.0 && root(x) * root(x) == x
    ensures var n, red := Scaled(s.bands[3].cell(r, c)), Scaled(s.bands[2].cell(r, c));
            var sample := outputs[1][r, c];
            && (sample != -32768 <==> && ClearSky(s.pixel.cell(r, c), s.radsat.cell(r, c)) && AllData(s, r, c)
                                      && (2.0 * n + 1.0) * (2.0 * n + 1.0) >= 8.0 * (n - red))
            && (sample != -32768 ==>
                  exists m :: && m * m - (2.0 * n + 1.0) * m + 2.0 * (n - red) == 0.0 && 2.0 * m <= 2.0 * n + 1.0
                              && StandsFor(sample, m))
  {
    hide AreOutputs, DerivedPixel, ClearSky, StandsFor, DnsAt, AllData, AnalyticValid;
    OutputIs(s, root, outputs, 1, 3, 2, r, c);
    AllDataMeans(s, r, c);
    DnsAre(s, r, c, 3);
    DnsAre(s, r, c, 2);
    MsaviPixel(root, s.pixel.cell(r, c), s.radsat.cell(r, c), DnsAt(s, r, c), 3, 2);
  }

  lemma MsaviPixel(root: real -> real, pixel: bv16, radsat: bv16, dns: seq<Float>, a: nat, b: nat)
    requires a < |dns| && b < |dns|
    requires forall x :: x >= 0.0 ==> root(x) >= 0.0 && root(x) * root(x) == x
    ensures var n, red := Scaled(dns[a]), Scaled(dns[b]);
            var sample := DerivedPixel(Msavi, root, pixel, radsat, dns, a, b);
            && (sample != -32768 <==> && ClearSky(pixel, radsat) && AnalyticValid(dns)
                                      && (2.0 * n + 1.0) * (2.0 * n + 1.0) >= 8.0 * (n - red))
            && (sample != -32768 ==>
                  exists m :: && m * m - (2.0 * n + 1.0) * m + 2.0 * (n - red) == 0.0 && 2.0 * m <= 2.0 * n + 1.0
                              && StandsFor(sample, m))
  {
    hide DerivedPixel, ClearSky, StandsFor, Clear, AnalyticValid, Short, Reflectance, Scaled, Radicand;
    var n, red := Scaled(dns[a]), Scaled(dns[b]);
    DerivedPixelHasValue(Msavi, root, pixel, radsat, dns, a, b);
    ClearSkyMeans(pixel, radsat);
    RadicandForms(n, red);
    if AnalyticValid(dns) {
      ReflectanceIs(dns, a);
      ReflectanceIs(dns, b);
    }
    if DerivedPixel(Msavi, root, pixel, radsat, dns, a, b) != -32768 {
      DerivedIs(Msavi, root, pixel, radsat, dns, a, b);
      var m := MsaviOf(n, root(Radicand(n, red)));
      MsaviIsSmallerRoot(n, red, root(Radicand(n, red)));
      ShortStandsFor(m);
    }
  }

  // ---- Steps ----

  lemma OutputIs(s: Scene, root: real -> real, outputs: seq<array2<int>>, i: nat, a: nat, b: nat, r: nat, c: nat)
    requires Matched(s) && AreOutputs(s, root, outputs) && r < s.height && c < s.width
    requires IsDifference(i, a, b) || (i, a, b) == (1, 3, 2)
    ensures i < 4 && |outputs| == 4 && (outputs[i].Length0, outputs[i].Length1) == (s.height, s.width)
    ensures outputs[i][r, c] == DerivedPixel(if i == 1 then Msavi else NormalizedDifference, root, s.pixel.cell(r, c),
                                             s.radsat.cell(r, c), DnsAt(s, r, c), a, b)
  {
    hide DerivedPixel;
    assert HoldsDerived(outputs[i], s, root, INDEX_BANDS[i]);
  }

  lemma ClearSkyMeans(pixel: bv16, radsat: bv16)
    ensures Clear(pixel, radsat) <==> ClearSky(pixel, radsat)
  {
    hide Bit, IsInvalid, IsWater, IsSnow, IsShadow, IsCloud;
    MasksTestBits(pixel, radsat);
  }

  lemma AllDataMeans(s: Scene, r: nat, c: nat)
    ensures AnalyticValid(DnsAt(s, r, c)) <==> AllData(s, r, c)
  {
    var dns := DnsAt(s, r, c);
    forall b | 0 <= b < |dns| ensures Reflectance(dns[b]).Num? <==> HasData(s.bands[b].cell(r, c)) {
      DnsAre(s, r, c, b);
    }
  }

  lemma DerivedIs(f: Formula, root: real -> real, pixel: bv16, radsat: bv16, dns: seq<Float>, a: nat, b: nat)
    requires a < |dns| && b < |dns| && DerivedPixel(f, root, pixel, radsat, dns, a, b) != -32768
    ensures Guard(f, Scaled(dns[a]), Scaled(dns[b]))
    ensures DerivedPixel(f, root, pixel, radsat, dns, a, b)
            == Short(Num(Value(f, root, Scaled(dns[a]), Scaled(dns[b]))))
  {
    hide ClassOf, Short, Guard, Value, Clear;
    DerivedPixelHasValue(f, root, pixel, radsat, dns, a, b);
    UsableMeansClear(pixel, radsat, AnalyticValid(dns));
  }

  lemma ShortStandsFor(x: real)
    ensures StandsFor(Short(Num(x)), x)
  {
    hide EncodeShort;
    EncodingRange(Num(x));
    EncodingError(x);
  }
}

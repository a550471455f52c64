/** The encoding of an index into its output raster: clip, scale, round and store as int16, or
    store as float32 where the profile has no scale. */
module IndexEncoding {
  import opened Wrappers
  import opened Rounding
  import opened Floats
  import opened IndexFormulas

  datatype Profile = Profile(scale: Option<real>, nodata: int, clip: Option<(real, real)>)

  const SHORT_PROFILE := Profile(Some(10000.0), -32768, Some((-1.0, 1.0)))
  const RECI_PROFILE := Profile(None, -9999, None)

  function Clip(x: real, clip: Option<(real, real)>): real {
    match clip
    case None => x
    case Some((low, high)) => if x < low then low else if x > high then high else x
  }

  /** `astype("int16")`, which wraps. */
  function ToInt16(n: int): int { (n + 0x8000) % 0x1_0000 - 0x8000 }

  function Quantized(x: real, scale: real, clip: Option<(real, real)>): int {
    ToInt16(RoundHalfEven(Clip(x, clip) * scale))
  }

  function EncodeShort(x: Float, scale: real, nodata: int, clip: Option<(real, real)>): int {
    if x.Num? then Quantized(x.value, scale, clip) else ToInt16(nodata)
  }

  function EncodeFloat(x: Float, nodata: int, clip: Option<(real, real)>): real {
    if x.Num? then Clip(x.value, clip) else nodata as real
  }

  datatype Encoded = Shorts(shorts: array2<int>) | Reals(reals: array2<real>)

  /** `encode_index_output`: a raster of nodata, then the valid samples. */
  method EncodeIndexOutput(values: array2<Float>, profile: Profile) returns (encoded: Encoded)
    ensures match profile.scale
            case None => encoded.Reals? && fresh(encoded.reals)
                         && encoded.reals.Length0 == values.Length0 && encoded.reals.Length1 == values.Length1
                         && forall r: nat, c: nat | r < values.Length0 && c < values.Length1 ::
                              encoded.reals[r, c] == EncodeFloat(values[r, c], profile.nodata, profile.clip)
            case Some(scale) => encoded.Shorts? && fresh(encoded.shorts)
                                && encoded.shorts.Length0 == values.Length0 && encoded.shorts.Length1 == values.Length1
                                && forall r: nat, c: nat | r < values.Length0 && c < values.Length1 ::
                                     encoded.shorts[r, c]
                                     == EncodeShort(values[r, c], scale, profile.nodata, profile.clip)
  {
    hide Clip, ToInt16, Quantized;
    var h, w := values.Length0, values.Length1;
    match profile.scale {
      case None =>
        var out := new real[h, w]((_, _) => profile.nodata as real);
        forall r: nat, c: nat | r < h && c < w && values[r, c].Num? {
          out[r, c] := Clip(values[r, c].value, profile.clip);
        }
        encoded := Reals(out);
      case Some(scale) =>
        var out := new int[h, w]((_, _) => ToInt16(profile.nodata));
        forall r: nat, c: nat | r < h && c < w && values[r, c].Num? {
          out[r, c] := Quantized(values[r, c].value, scale, profile.clip);
        }
        encoded := Shorts(out);
    }
  }

  // ---- The int16 profile ----

  function Short(x: Float): int { EncodeShort(x, 10000.0, -32768, Some((-1.0, 1.0))) }

  function Clipped(x: real): real { Clip(x, Some((-1.0, 1.0))) }

  function Decoded(k: int): real { k as real / 10000.0 }

  /** Every finite value is stored within [-10000, 10000]: the conversion never wraps and never
      produces nodata, which stands for exactly the values that are not finite. */
  lemma EncodingRange(x: Float)
    ensures x.Num? ==> -10000 <= Short(x) <= 10000 && Short(x) == RoundHalfEven(Clipped(x.value) * 10000.0)
    ensures Short(x) == -32768 <==> !x.Num?
  {
  }

  lemma EncodingMonotone(x: real, y: real)
    requires x <= y
    ensures Short(Num(x)) <= Short(Num(y))
  {
  }

  /** The decoded value is within half a step of the clipped one. */
  lemma EncodingError(x: real)
    ensures Abs(Decoded(Short(Num(x))) - Clipped(x)) <= 1.0 / 20000.0
  {
    hide RoundHalfEven, EncodeShort;
    EncodingRange(Num(x));
    var y := Clipped(x) * 10000.0;
    RoundIsNearest(y);
    assert Decoded(Short(Num(x))) - Clipped(x) == (RoundHalfEven(y) as real - y) / 10000.0;
  }

  /** Encoding a decoded value gives it back. */
  lemma ReencodeIsIdentity(k: int)
    requires -10000 <= k <= 10000
    ensures Short(Num(Decoded(k))) == k
  {
  }

  /** Values whose clipped values are more than a step apart are told apart, in their order. */
  lemma StepsAreDistinguished(x: real, y: real)
    requires Clipped(x) + 1.0 / 10000.0 < Clipped(y)
    ensures Short(Num(x)) < Short(Num(y))
  {
  }

  // ---- Indices through the encoder ----

  /** Encoded NDBI is the exact negation of encoded NDMI, with the same nodata pixels: the two
      indices divide the same bands in opposite order. */
  lemma NdbiMirrorsNdmi(root: real -> real, nir: Float, swir: Float, valid: bool)
    ensures var ndmi := Short(IndexValue(NormalizedDifference, root, nir, swir, valid));
            var ndbi := Short(IndexValue(NormalizedDifference, root, swir, nir, valid));
            && (ndmi == -32768 <==> ndbi == -32768)
            && (ndmi != -32768 ==> ndbi == -ndmi)
  {
    hide RoundHalfEven, EncodeShort, Difference;
    var x := IndexValue(NormalizedDifference, root, nir, swir, valid);
    var y := IndexValue(NormalizedDifference, root, swir, nir, valid);
    EncodingRange(x);
    EncodingRange(y);
    if nir.Num? && swir.Num? {
      DifferenceIsOdd(nir.value, swir.value);
      if x.Num? {
        assert y.value == -x.value;
        assert Clipped(-x.value) * 10000.0 == -(Clipped(x.value) * 10000.0);
        RoundOdd(Clipped(x.value) * 10000.0);
      }
    }
  }

  /** MSAVI of reflectances in [0, 1] reaches the raster unclipped. */
  lemma MsaviUnclipped(n: real, r: real, s: real)
    requires 0.0 <= n <= 1.0 && 0.0 <= r <= 1.0 && IsRoot(n, r, s)
    ensures Short(Num(MsaviOf(n, s))) == RoundHalfEven(MsaviOf(n, s) * 10000.0)
    ensures Abs(Decoded(Short(Num(MsaviOf(n, s)))) - MsaviOf(n, s)) <= 1.0 / 20000.0
  {
    hide RoundHalfEven, EncodeShort;
    MsaviOfReflectances(n, r, s);
    EncodingRange(Num(MsaviOf(n, s)));
    EncodingError(MsaviOf(n, s));
  }

  /** The float profile of RECI has no such gap: a computed pixel reads as nodata exactly when the
      first band is -9998 times the second. Non-negative bands never meet that. */
  lemma ReciNodataCollision(root: real -> real, a: real, b: real)
    requires b > RECI_FLOOR
    ensures EncodeFloat(IndexValue(Reci, root, Num(a), Num(b), true), RECI_PROFILE.nodata, RECI_PROFILE.clip)
            == RECI_PROFILE.nodata as real
            <==> a == -9998.0 * b
  {
    var q := a / b;
    assert q * b == a;
    if a == -9998.0 * b {
      Quotient(a, b, -9998.0);
    }
  }
}

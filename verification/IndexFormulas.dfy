/** The spectral index formulas over float samples: what each numpy pass computes per pixel, the
    in-place passes themselves, and the algebra of MSAVI and the normalised differences. */
module IndexFormulas {
  import opened Wrappers
  import opened Rounding
  import opened Floats
  import opened PixelGrid

  datatype Formula = NormalizedDifference | Msavi | Reci

  datatype IndexName = Ndvi | Ndmi | Ndbi | Ndre | NdwiGreenNir | MsaviIndex | ReciIndex | Unsupported(name: string)

  function FormulaOf(index: IndexName): Option<Formula> {
    match index
    case Unsupported(_) => None
    case MsaviIndex => Some(Msavi)
    case ReciIndex => Some(Reci)
    case _ => Some(NormalizedDifference)
  }

  const DENOMINATOR_EPSILON: real := 0.000001
  const RECI_FLOOR: real := 0.0001

  // ---- Closed forms ----

  predicate DifferenceGuard(a: real, b: real) {
    a + b > DENOMINATOR_EPSILON || a + b < -DENOMINATOR_EPSILON
  }

  function Difference(a: real, b: real): real
    requires DifferenceGuard(a, b)
  {
    (a - b) / (a + b)
  }

  function Radicand(n: real, r: real): real { (n * 2.0 + 1.0) * (n * 2.0 + 1.0) - (n - r) * 8.0 }

  predicate Guard(f: Formula, a: real, b: real) {
    match f
    case NormalizedDifference => DifferenceGuard(a, b)
    case Msavi => Radicand(a, b) >= 0.0
    case Reci => b > RECI_FLOOR
  }

  function Value(f: Formula, root: real -> real, a: real, b: real): real
    requires Guard(f, a, b)
  {
    match f
    case NormalizedDifference => Difference(a, b)
    case Msavi => (a * 2.0 + 1.0 - root(Radicand(a, b))) * 0.5
    case Reci => a / b - 1.0
  }

  predicate Usable(f: Formula, a: Float, b: Float, valid: bool) {
    a.Num? && b.Num? && valid && Guard(f, a.value, b.value)
  }

  /** The index of one pixel: NaN wherever an operand is not finite, the mask is off or the
      formula's own guard fails. */
  function IndexValue(f: Formula, root: real -> real, a: Float, b: Float, valid: bool): Float {
    if Usable(f, a, b, valid) then Num(Value(f, root, a.value, b.value)) else NonFinite
  }

  // ---- The numpy passes ----

  function Plus(x: Float, y: Float): Float { if x.Num? && y.Num? then Num(x.value + y.value) else NonFinite }

  function Minus(x: Float, y: Float): Float { if x.Num? && y.Num? then Num(x.value - y.value) else NonFinite }

  function Times(x: Float, k: real): Float { if x.Num? then Num(x.value * k) else NonFinite }

  function Squared(x: Float): Float { if x.Num? then Num(x.value * x.value) else NonFinite }

  function Over(x: Float, y: Float): Float {
    if x.Num? && y.Num? && y.value != 0.0 then Num(x.value / y.value) else NonFinite
  }

  function RootOf(root: real -> real, x: Float): Float { if x.Num? then Num(root(x.value)) else NonFinite }

  type Mask = (nat, nat) -> bool

  function BaseMask(first: Grid<Float>, second: Grid<Float>, valid: Option<Grid<bool>>): Mask {
    (r: nat, c: nat) => first.cell(r, c).Num? && second.cell(r, c).Num? && (valid.Some? ==> valid.value.cell(r, c))
  }

  method Blank(height: nat, width: nat) returns (out: array2<Float>)
    ensures fresh(out) && out.Length0 == height && out.Length1 == width
    ensures forall r: nat, c: nat | r < height && c < width :: out[r, c] == NonFinite
  {
    out := new Float[height, width]((_, _) => NonFinite);
  }

  ghost predicate HoldsIndex(out: array2<Float>, f: Formula, root: real -> real, first: Grid<Float>,
                             second: Grid<Float>, valid: Option<Grid<bool>>)
    reads out
  {
    && out.Length0 == first.height && out.Length1 == first.width
    && forall r: nat, c: nat | r < first.height && c < first.width ::
         out[r, c] == IndexValue(f, root, first.cell(r, c), second.cell(r, c), valid.Some? ==> valid.value.cell(r, c))
  }

  method DifferencePasses(root: real -> real, first: Grid<Float>, second: Grid<Float>, valid: Option<Grid<bool>>)
    returns (output: array2<Float>)
    ensures fresh(output) && HoldsIndex(output, NormalizedDifference, root, first, second, valid)
  {
    hide Plus, Minus, Over, OutsideEpsilon, IndexValue;
    var h, w := first.height, first.width;
    var mask := BaseMask(first, second, valid);
    output := Blank(h, w);
    var denominator := Blank(h, w);
    forall r: nat, c: nat | r < h && c < w {
      denominator[r, c] := Plus(first.cell(r, c), second.cell(r, c));
    }
    var formulaMask := (r: nat, c: nat) => mask(r, c) && OutsideEpsilon(Plus(first.cell(r, c), second.cell(r, c)));
    forall r: nat, c: nat | r < h && c < w && formulaMask(r, c) {
      output[r, c] := Minus(first.cell(r, c), second.cell(r, c));
    }
    forall r: nat, c: nat | r < h && c < w && formulaMask(r, c) {
      output[r, c] := Over(output[r, c], denominator[r, c]);
    }
    forall r: nat, c: nat | r < h && c < w
      ensures output[r, c] == IndexValue(NormalizedDifference, root, first.cell(r, c), second.cell(r, c),
                                         valid.Some? ==> valid.value.cell(r, c))
    {
      DifferenceSteps(root, first.cell(r, c), second.cell(r, c), valid.Some? ==> valid.value.cell(r, c));
    }
  }

  lemma DifferenceSteps(root: real -> real, a: Float, b: Float, valid: bool)
    ensures IndexValue(NormalizedDifference, root, a, b, valid)
            == if a.Num? && b.Num? && valid && OutsideEpsilon(Plus(a, b))
               then Over(Minus(a, b), Plus(a, b)) else NonFinite
  {
  }

  predicate OutsideEpsilon(x: Float) {
    x.Num? && (x.value > DENOMINATOR_EPSILON || x.value < -DENOMINATOR_EPSILON)
  }

  predicate NotNegative(x: Float) { AtLeast(x, 0.0) }

  /** The radicand as the source builds it, in one buffer that is rewritten pass by pass. */
  method RadicandPasses(first: Grid<Float>, second: Grid<Float>) returns (radicand: array2<Float>)
    ensures fresh(radicand) && radicand.Length0 == first.height && radicand.Length1 == first.width
    ensures forall r: nat, c: nat | r < first.height && c < first.width ::
              radicand[r, c] == RadicandOf(first.cell(r, c), second.cell(r, c))
  {
    hide Times, Plus, Squared, Minus;
    var h, w := first.height, first.width;
    radicand := Blank(h, w);
    var work := Blank(h, w);
    forall r: nat, c: nat | r < h && c < w { radicand[r, c] := Times(first.cell(r, c), 2.0); }
    forall r: nat, c: nat | r < h && c < w { radicand[r, c] := Plus(radicand[r, c], Num(1.0)); }
    forall r: nat, c: nat | r < h && c < w { radicand[r, c] := Squared(radicand[r, c]); }
    forall r: nat, c: nat | r < h && c < w { work[r, c] := Minus(first.cell(r, c), second.cell(r, c)); }
    forall r: nat, c: nat | r < h && c < w { work[r, c] := Times(work[r, c], 8.0); }
    forall r: nat, c: nat | r < h && c < w { radicand[r, c] := Minus(radicand[r, c], work[r, c]); }
    forall r: nat, c: nat | r < h && c < w
      ensures radicand[r, c] == RadicandOf(first.cell(r, c), second.cell(r, c))
    {
      RadicandSteps(first.cell(r, c), second.cell(r, c));
    }
  }

  function RadicandOf(a: Float, b: Float): Float {
    if a.Num? && b.Num? then Num(Radicand(a.value, b.value)) else NonFinite
  }

  lemma RadicandSteps(a: Float, b: Float)
    ensures Minus(Squared(Plus(Times(a, 2.0), Num(1.0))), Times(Minus(a, b), 8.0)) == RadicandOf(a, b)
  {
  }

  /** The masked passes that turn 2n + 1 - root into the index, in the output buffer. */
  method MsaviOutput(first: Grid<Float>, mask: Mask, root: real -> real, radicand: array2<Float>, output: array2<Float>)
    requires radicand != output
    requires radicand.Length0 == output.Length0 == first.height
    requires radicand.Length1 == output.Length1 == first.width
    modifies radicand, output
    ensures forall r: nat, c: nat | r < first.height && c < first.width ::
              output[r, c] == if mask(r, c)
                              then Times(Minus(Plus(Times(first.cell(r, c), 2.0), Num(1.0)),
                                               RootOf(root, old(radicand[r, c]))), 0.5)
                              else old(output[r, c])
  {
    hide Times, Plus, Minus, RootOf;
    var h, w := first.height, first.width;
    forall r: nat, c: nat | r < h && c < w && mask(r, c) { radicand[r, c] := RootOf(root, radicand[r, c]); }
    forall r: nat, c: nat | r < h && c < w && mask(r, c) { output[r, c] := Times(first.cell(r, c), 2.0); }
    forall r: nat, c: nat | r < h && c < w && mask(r, c) { output[r, c] := Plus(output[r, c], Num(1.0)); }
    forall r: nat, c: nat | r < h && c < w && mask(r, c) { output[r, c] := Minus(output[r, c], radicand[r, c]); }
    forall r: nat, c: nat | r < h && c < w && mask(r, c) { output[r, c] := Times(output[r, c], 0.5); }
  }

  method MsaviPasses(root: real -> real, first: Grid<Float>, second: Grid<Float>, valid: Option<Grid<bool>>)
    returns (output: array2<Float>)
    ensures fresh(output) && HoldsIndex(output, Msavi, root, first, second, valid)
  {
    hide Times, Plus, Minus, RootOf, RadicandOf, IndexValue, NotNegative;
    var h, w := first.height, first.width;
    var mask := BaseMask(first, second, valid);
    output := Blank(h, w);
    var radicand := RadicandPasses(first, second);
    var formulaMask := (r: nat, c: nat) => mask(r, c) && NotNegative(RadicandOf(first.cell(r, c), second.cell(r, c)));
    MsaviOutput(first, formulaMask, root, radicand, output);
    forall r: nat, c: nat | r < h && c < w
      ensures output[r, c] == IndexValue(Msavi, root, first.cell(r, c), second.cell(r, c),
                                         valid.Some? ==> valid.value.cell(r, c))
    {
      MsaviSteps(root, first.cell(r, c), second.cell(r, c), valid.Some? ==> valid.value.cell(r, c));
    }
  }

  lemma MsaviSteps(root: real -> real, a: Float, b: Float, valid: bool)
    ensures IndexValue(Msavi, root, a, b, valid)
            == if a.Num? && b.Num? && valid && NotNegative(RadicandOf(a, b))
               then Times(Minus(Plus(Times(a, 2.0), Num(1.0)), RootOf(root, RadicandOf(a, b))), 0.5)
               else NonFinite
  {
  }

  method ReciPasses(root: real -> real, first: Grid<Float>, second: Grid<Float>, valid: Option<Grid<bool>>)
    returns (output: array2<Float>)
    ensures fresh(output) && HoldsIndex(output, Reci, root, first, second, valid)
  {
    hide Minus, Over, AboveFloor, IndexValue;
    var h, w := first.height, first.width;
    var mask := BaseMask(first, second, valid);
    output := Blank(h, w);
    var formulaMask := (r: nat, c: nat) => mask(r, c) && AboveFloor(second.cell(r, c));
    forall r: nat, c: nat | r < h && c < w && formulaMask(r, c) {
      output[r, c] := Over(first.cell(r, c), second.cell(r, c));
    }
    forall r: nat, c: nat | r < h && c < w && formulaMask(r, c) {
      output[r, c] := Minus(output[r, c], Num(1.0));
    }
    forall r: nat, c: nat | r < h && c < w
      ensures output[r, c] == IndexValue(Reci, root, first.cell(r, c), second.cell(r, c),
                                         valid.Some? ==> valid.value.cell(r, c))
    {
      ReciSteps(root, first.cell(r, c), second.cell(r, c), valid.Some? ==> valid.value.cell(r, c));
    }
  }

  lemma ReciSteps(root: real -> real, a: Float, b: Float, valid: bool)
    ensures IndexValue(Reci, root, a, b, valid)
            == if a.Num? && b.Num? && valid && AboveFloor(b) then Minus(Over(a, b), Num(1.0)) else NonFinite
  {
  }

  predicate AboveFloor(x: Float) { x.Num? && x.value > RECI_FLOOR }

  datatype IndexError = UnsupportedIndex(name: string)

  /** `calculate_index`; `root` is the library's square root. */
  method CalculateIndex(index: IndexName, root: real -> real, first: Grid<Float>, second: Grid<Float>,
                        valid: Option<Grid<bool>>)
    returns (result: Result<array2<Float>, IndexError>)
    requires first.height == second.height && first.width == second.width
    ensures match FormulaOf(index)
            case None => result.Err?
            case Some(f) => result.Ok? && fresh(result.value) && HoldsIndex(result.value, f, root, first, second, valid)
  {
    hide HoldsIndex;
    match FormulaOf(index) {
      case None =>
        result := Err(UnsupportedIndex(index.name));
      case Some(f) =>
        var output: array2<Float>;
        match f {
          case NormalizedDifference => output := DifferencePasses(root, first, second, valid);
          case Msavi => output := MsaviPasses(root, first, second, valid);
          case Reci => output := ReciPasses(root, first, second, valid);
        }
        result := Ok(output);
    }
  }

  /** What each index is of two samples: where it has a value, and the equation that the value solves. */
  lemma IndexMeans(index: IndexName, root: real -> real, a: Float, b: Float, valid: bool)
    ensures FormulaOf(index).None? <==> index.Unsupported?
    ensures index in {Ndvi, Ndmi, Ndbi, Ndre, NdwiGreenNir} ==>
              var v := IndexValue(FormulaOf(index).value, root, a, b, valid);
              && (v.Num? <==> && a.Num? && b.Num? && valid
                              && (a.value + b.value > 0.000001 || a.value + b.value < -0.000001))
              && (v.Num? ==> v.value * (a.value + b.value) == a.value - b.value)
    ensures index == ReciIndex ==>
              var v := IndexValue(FormulaOf(index).value, root, a, b, valid);
              && (v.Num? <==> a.Num? && b.Num? && valid && b.value > 0.0001)
              && (v.Num? ==> (v.value + 1.0) * b.value == a.value)
    ensures index == MsaviIndex ==>
              var v := IndexValue(FormulaOf(index).value, root, a, b, valid);
              && (v.Num? <==> a.Num? && b.Num? && valid && DoubledPlusOne(a.value) >= 8.0 * (a.value - b.value))
              && (v.Num? ==> 2.0 * v.value + root(DoubledPlusOne(a.value) - 8.0 * (a.value - b.value))
                             == 2.0 * a.value + 1.0)
  {
    if a.Num? && b.Num? {
      RadicandForms(a.value, b.value);
      if a.value + b.value != 0.0 {
        Quotient(a.value - b.value, a.value + b.value, (a.value - b.value) / (a.value + b.value));
      }
      if b.value != 0.0 {
        Quotient(a.value, b.value, a.value / b.value);
      }
    }
  }

  /** The square of twice a value plus one. */
  function DoubledPlusOne(x: real): real { (2.0 * x + 1.0) * (2.0 * x + 1.0) }

  // ---- MSAVI ----

  lemma SquareOrder(a: real, b: real)
    requires a >= 0.0 && b >= 0.0
    ensures a <= b <==> a * a <= b * b
    ensures a == b <==> a * a == b * b
  {
    if a < b {
      SquareGrows(a, b);
    } else if b < a {
      SquareGrows(b, a);
    }
  }

  lemma SquareGrows(a: real, b: real)
    requires 0.0 <= a < b
    ensures a * a < b * b
  {
    var d := b - a;
    assert b * b == a * a + 2.0 * (a * d) + d * d;
    assert a * d >= 0.0 && d * d > 0.0;
  }

  lemma RadicandForms(n: real, r: real)
    ensures Radicand(n, r) == (2.0 * n - 1.0) * (2.0 * n - 1.0) + 8.0 * r
    ensures Radicand(n, r) == (2.0 * n + 1.0) * (2.0 * n + 1.0) - 8.0 * (n - r)
    ensures Radicand(n, r) == (2.0 * n + 3.0) * (2.0 * n + 3.0) - 16.0 * n - 8.0 + 8.0 * r
  {
  }

  /** `s` is the square root of the radicand. */
  predicate IsRoot(n: real, r: real, s: real) { s >= 0.0 && s * s == Radicand(n, r) }

  function MsaviOf(n: real, s: real): real { (n * 2.0 + 1.0 - s) * 0.5 }

  function Quadratic(n: real, r: real, m: real): real { m * m - (2.0 * n + 1.0) * m + 2.0 * (n - r) }

  /** The index is the smaller root of m^2 - (2n + 1) m + 2 (n - r). */
  lemma MsaviIsSmallerRoot(n: real, r: real, s: real)
    requires IsRoot(n, r, s)
    ensures Quadratic(n, r, MsaviOf(n, s)) == 0.0
    ensures forall m | Quadratic(n, r, m) == 0.0 :: MsaviOf(n, s) <= m
  {
    var b := 2.0 * n + 1.0;
    RadicandForms(n, r);
    forall m: real
      ensures 4.0 * Quadratic(n, r, m) == (2.0 * m - b) * (2.0 * m - b) - s * s
    {
      CompleteSquare(n, r, m);
    }
    assert 2.0 * MsaviOf(n, s) - b == -s;
    forall m | Quadratic(n, r, m) == 0.0 ensures MsaviOf(n, s) <= m {
      var d := 2.0 * m - b;
      assert d * d == s * s;
      if d < 0.0 {
        SquareOrder(-d, s);
      }
    }
  }

  lemma CompleteSquare(n: real, r: real, m: real)
    ensures 4.0 * Quadratic(n, r, m) == (2.0 * m - (2.0 * n + 1.0)) * (2.0 * m - (2.0 * n + 1.0)) - Radicand(n, r)
  {
  }

  /** The sign of MSAVI is the sign of n - r where 2n + 1 is not negative, and negative elsewhere. */
  lemma MsaviSign(n: real, r: real, s: real)
    requires IsRoot(n, r, s)
    ensures MsaviOf(n, s) > 0.0 <==> n > r && 2.0 * n + 1.0 >= 0.0
    ensures MsaviOf(n, s) == 0.0 <==> n == r && 2.0 * n + 1.0 >= 0.0
  {
    RadicandForms(n, r);
    if 2.0 * n + 1.0 >= 0.0 {
      SquareOrder(s, 2.0 * n + 1.0);
    }
  }

  /** Exactly when MSAVI lies in [-1, 1], so that the encoder's clip leaves it alone. */
  lemma MsaviInRange(n: real, r: real, s: real)
    requires IsRoot(n, r, s)
    ensures -1.0 <= MsaviOf(n, s) <= 1.0
            <==> 2.0 * n + 3.0 >= 0.0 && r <= 2.0 * n + 1.0 && (2.0 * n - 1.0 <= 0.0 || r >= 0.0)
  {
    RadicandForms(n, r);
    if 2.0 * n + 3.0 >= 0.0 {
      SquareOrder(s, 2.0 * n + 3.0);
    }
    if 2.0 * n - 1.0 > 0.0 {
      SquareOrder(2.0 * n - 1.0, s);
    }
  }

  /** Reflectances in [0, 1] always have a root, an index in [-1, 1] and the sign of n - r. */
  lemma MsaviOfReflectances(n: real, r: real, s: real)
    requires 0.0 <= n <= 1.0 && 0.0 <= r <= 1.0
    ensures Radicand(n, r) >= 0.0
    ensures IsRoot(n, r, s) ==> -1.0 <= MsaviOf(n, s) <= 1.0
    ensures IsRoot(n, r, s) ==> (MsaviOf(n, s) > 0.0 <==> n > r) && (MsaviOf(n, s) < 0.0 <==> n < r)
  {
    RadicandForms(n, r);
    assert (2.0 * n - 1.0) * (2.0 * n - 1.0) >= 0.0;
    if IsRoot(n, r, s) {
      MsaviInRange(n, r, s);
      MsaviSign(n, r, s);
    }
  }

  // ---- Normalised differences ----

  lemma DivideBound(p: real, q: real)
    requires q != 0.0
    ensures -1.0 <= p / q <= 1.0 <==> (if q > 0.0 then -q <= p <= q else q <= p <= -q)
  {
    var k := p / q;
    assert k * q == p;
    if q > 0.0 {
      BoundPositive(k, q);
    } else {
      BoundPositive(k, -q);
      assert k * -q == -p;
    }
  }

  lemma BoundPositive(k: real, q: real)
    requires q > 0.0
    ensures -1.0 <= k <= 1.0 <==> -q <= k * q <= q
  {
  }

  /** A normalised difference lies in [-1, 1] exactly when its operands do not differ in sign. */
  lemma DifferenceInRange(a: real, b: real)
    requires DifferenceGuard(a, b)
    ensures -1.0 <= Difference(a, b) <= 1.0 <==> (a >= 0.0 && b >= 0.0) || (a <= 0.0 && b <= 0.0)
  {
    DivideBound(a - b, a + b);
  }

  /** Exchanging the operands negates the index and keeps the guard: NDBI against NDMI. */
  lemma DifferenceIsOdd(a: real, b: real)
    ensures DifferenceGuard(a, b) <==> DifferenceGuard(b, a)
    ensures DifferenceGuard(a, b) ==> Difference(b, a) == -Difference(a, b)
  {
  }
}

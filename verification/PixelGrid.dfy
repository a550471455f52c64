/** Single-band rasters as values, and the pixel counts numpy takes with `mask.sum()`. */
module PixelGrid {

  /** An aligned band: a shape and the value of each pixel. */
  datatype Grid<T> = Grid(height: nat, width: nat, cell: (nat, nat) -> T)

  type Pixel = (nat, nat)

  /** The pixels of a `height` by `width` grid that satisfy `p`. */
  function Where(height: nat, width: nat, p: (nat, nat) -> bool): set<Pixel> {
    set r: nat, c: nat | r < height && c < width && p(r, c) :: (r, c)
  }

  function Count(height: nat, width: nat, p: (nat, nat) -> bool): nat {
    |Where(height, width, p)|
  }

  /** `(numerator / denominator) * 100`, or zero for an empty denominator. */
  function Percent(numerator: nat, denominator: nat): real {
    if denominator == 0 then 0.0 else (numerator as real / denominator as real) * 100.0
  }

  lemma CountMonotone(height: nat, width: nat, p: (nat, nat) -> bool, q: (nat, nat) -> bool)
    requires forall r: nat, c: nat :: r < height && c < width && p(r, c) ==> q(r, c)
    ensures Where(height, width, p) <= Where(height, width, q)
    ensures Count(height, width, p) <= Count(height, width, q)
  {
    var a, b := Where(height, width, p), Where(height, width, q);
    assert forall x | x in a :: x in b;
    assert b == a + (b - a);
  }

  lemma SameCount(height: nat, width: nat, p: (nat, nat) -> bool, q: (nat, nat) -> bool)
    requires forall r: nat, c: nat :: r < height && c < width ==> (p(r, c) <==> q(r, c))
    ensures Count(height, width, p) == Count(height, width, q)
  {
    CountMonotone(height, width, p, q);
    CountMonotone(height, width, q, p);
  }

  lemma CountSplits(height: nat, width: nat, whole: (nat, nat) -> bool,
                    p: (nat, nat) -> bool, q: (nat, nat) -> bool)
    requires forall r: nat, c: nat :: r < height && c < width ==>
               (whole(r, c) <==> p(r, c) || q(r, c)) && !(p(r, c) && q(r, c))
    ensures Count(height, width, whole) == Count(height, width, p) + Count(height, width, q)
  {
    var a, b := Where(height, width, p), Where(height, width, q);
    assert Where(height, width, whole) == a + b;
    assert a !! b;
  }

  lemma PercentInRange(numerator: nat, denominator: nat)
    requires numerator <= denominator
    ensures 0.0 <= Percent(numerator, denominator) <= 100.0
  {
  }

  lemma PercentAdds(a: nat, b: nat, denominator: nat)
    ensures Percent(a + b, denominator) == Percent(a, denominator) + Percent(b, denominator)
  {
  }
}

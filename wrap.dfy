/**
 * Periodic folding of positions into the root domain: every coordinate is
 * moved by a whole number of root lengths until it lies in [low, high).
 */
module Wrap {
  import opened Domain

  /** Whole lengths in a distance: the measure by which the wrap loops terminate. */
  function Steps(a: real, len: real): int
    requires len > 0.0
  {
    (a / len).Floor
  }

  /** Moving by one length takes exactly one step off a positive distance. */
  lemma StepDown(a: real, len: real)
    requires len > 0.0 && a > 0.0
    ensures 0 <= Steps(a, len)
    ensures Steps(a - len, len) == Steps(a, len) - 1
  {
    ShiftQuotient(a, len);
    ProductSigns(a / len, len);
    assert a / len * len == a;
    NonNegativeFactor(a / len, len);
  }

  lemma ShiftQuotient(a: real, len: real)
    requires len > 0.0
    ensures (a - len) / len == a / len - 1.0
  {
    var d := (a - len) / len - a / len + 1.0;
    assert d * len == 0.0;
    assert d == (d * len) / len;
  }

  lemma SignOfProduct(a: real, b: real)
    requires b > 0.0 && a * b > 0.0
    ensures a > 0.0
  {
  }

  lemma ProductSigns(a: real, b: real)
    requires b > 0.0
    ensures a > 0.0 ==> a * b > 0.0
    ensures a >= 0.0 ==> a * b >= 0.0
  {
  }

  lemma NonNegativeFactor(a: real, b: real)
    requires b > 0.0 && a * b >= 0.0
    ensures a >= 0.0
  {
  }

  lemma MulBelowOne(m: real, len: real)
    requires len > 0.0 && m * len < len
    ensures m < 1.0
  {
    assert (1.0 - m) * len == len - m * len;
    SignOfProduct(1.0 - m, len);
  }

  /** How many whole lengths c lies above low (negative below it). */
  function Periods(c: real, low: real, high: real): int
    requires low < high
  {
    ((c - low) / (high - low)).Floor
  }

  /** The periodic image of c in [low, high). */
  function Wrapped(c: real, low: real, high: real): (r: real)
    requires low < high
    ensures low <= r < high
    ensures low <= c < high ==> r == c
  {
    WrappedInRange(c, low, high);
    c - Periods(c, low, high) as real * (high - low)
  }

  lemma WrappedInRange(c: real, low: real, high: real)
    requires low < high
    ensures low <= c - Periods(c, low, high) as real * (high - low) < high
    ensures low <= c < high ==> Periods(c, low, high) == 0
  {
    var len := high - low;
    var q := (c - low) / len;
    var f := Periods(c, low, high);
    var m := q * len;
    assert m == c - low;
    var t := q - f as real;
    assert 0.0 <= t < 1.0;
    assert t * len == m - f as real * len;
    ProductSigns(t, len);
    ProductSigns(1.0 - t, len);
    assert (1.0 - t) * len == len - t * len;
    if low <= c < high {
      assert m < len;
      NonNegativeFactor(q, len);
      MulBelowOne(q, len);
    }
  }

  /**
   * Periodic images are unique: a shift of c by whole lengths that lands in
   * [low, high) is the wrapped coordinate.
   */
  lemma ImageIsUnique(c: real, low: real, high: real, n: int, r: real)
    requires low < high && low <= r < high
    requires r == c + n as real * (high - low)
    ensures r == Wrapped(c, low, high)
  {
    var len := high - low;
    var f := Periods(c, low, high);
    var w := Wrapped(c, low, high);
    assert w == c - f as real * len;
    var m := (n + f) as real;
    assert r - w == m * len;
    MulBelowOne(m, len);
    MulBelowOne(-m, len);
    assert n + f == 0;
  }

  /**
   * The x-axis loops of adjustPositionIntoRootDomain: add the length while
   * below low, subtract it while strictly above high, then fold a coordinate
   * equal to high onto low.
   */
  method WrapCoordinateX(c: real, low: real, high: real) returns (r: real)
    requires low < high
    ensures r == Wrapped(c, low, high)
  {
    var len := high - low;
    r := c;
    ghost var n: int := 0;
    while r < low
      invariant r == c + n as real * len
      decreases Steps(high - r, len)
    {
      StepDown(high - r, len);
      r := r + len;
      n := n + 1;
    }
    while r > high
      invariant low <= r && r == c + n as real * len
      decreases Steps(r - low, len)
    {
      StepDown(r - low, len);
      r := r - len;
      n := n - 1;
    }
    if r == high {
      r := low;
      n := n - 1;
      assert r == c + n as real * len;
    }
    assert low <= r < high;
    ImageIsUnique(c, low, high, n, r);
  }

  /**
   * The y- and z-axis loops of adjustPositionIntoRootDomain: add the length
   * while below low, subtract it while at or above high; the equality
   * fix-up after them never fires.
   */
  method WrapCoordinateYZ(c: real, low: real, high: real) returns (r: real)
    requires low < high
    ensures r == Wrapped(c, low, high)
  {
    var len := high - low;
    r := c;
    ghost var n: int := 0;
    while r < low
      invariant r == c + n as real * len
      decreases Steps(high - r, len)
    {
      StepDown(high - r, len);
      r := r + len;
      n := n + 1;
    }
    while r >= high
      invariant low <= r && r == c + n as real * len
      decreases Steps(r - low, len)
    {
      StepDown(r - low, len);
      r := r - len;
      n := n - 1;
    }
    if r == high {
      r := low;
      n := n - 1;
    }
    ImageIsUnique(c, low, high, n, r);
  }

  /** The root has positive length on every axis, which the wrap loops need to stop. */
  predicate PositiveLengths(root: Box) {
    root.low.x < root.high.x && root.low.y < root.high.y && root.low.z < root.high.z
  }

  /**
   * The new position adjustPositionIntoRootDomain gives a particle: one
   * outside the root box has every axis folded, one inside is left alone.
   */
  function WrapPosition(pos: Vec, root: Box): (r: Vec)
    requires PositiveLengths(root)
    ensures InDomain(r, root)
    ensures InDomain(pos, root) ==> r == pos
  {
    if !InDomain(pos, root) then
      Vec(Wrapped(pos.x, root.low.x, root.high.x),
          Wrapped(pos.y, root.low.y, root.high.y),
          Wrapped(pos.z, root.low.z, root.high.z))
    else pos
  }

  /** Wrapping twice is wrapping once. */
  lemma WrapIdempotent(pos: Vec, root: Box)
    requires PositiveLengths(root)
    ensures WrapPosition(WrapPosition(pos, root), root) == WrapPosition(pos, root)
  {
  }

  /** The guard in adjustPositionIntoRootDomain changes nothing: every axis of a position is its periodic image. */
  lemma WrapEveryAxis(pos: Vec, root: Box)
    requires PositiveLengths(root)
    ensures WrapPosition(pos, root) == Vec(Wrapped(pos.x, root.low.x, root.high.x),
                                           Wrapped(pos.y, root.low.y, root.high.y),
                                           Wrapped(pos.z, root.low.z, root.high.z))
  {
  }

  /** pos moved by a, b and e root lengths along x, y and z. */
  function Shift(pos: Vec, root: Box, a: int, b: int, e: int): Vec {
    Vec(Image(pos.x, root.low.x, root.high.x, a),
        Image(pos.y, root.low.y, root.high.y, b),
        Image(pos.z, root.low.z, root.high.z, e))
  }

  /** c moved by a whole lengths of [low, high). */
  function Image(c: real, low: real, high: real, a: int): real {
    c + a as real * (high - low)
  }

  /** Periodic images of one another wrap to the same point. */
  lemma WrapPeriodic(pos: Vec, root: Box, a: int, b: int, e: int)
    requires PositiveLengths(root)
    ensures WrapPosition(Shift(pos, root, a, b, e), root) == WrapPosition(pos, root)
  {
    var moved := Shift(pos, root, a, b, e);
    WrapEveryAxis(pos, root);
    WrapEveryAxis(moved, root);
    ShiftInvariant(pos.x, root.low.x, root.high.x, a);
    ShiftInvariant(pos.y, root.low.y, root.high.y, b);
    ShiftInvariant(pos.z, root.low.z, root.high.z, e);
  }

  lemma ShiftInvariant(c: real, low: real, high: real, a: int)
    requires low < high
    ensures Wrapped(Image(c, low, high, a), low, high) == Wrapped(c, low, high)
  {
    var len := high - low;
    var moved := Image(c, low, high, a);
    assert moved == c + a as real * len;
    var w := Wrapped(moved, low, high);
    var f := Periods(moved, low, high);
    assert w == moved - f as real * len;
    assert w == c + (a - f) as real * len;
    ImageIsUnique(c, low, high, a - f, w);
  }
}

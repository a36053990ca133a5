/** The axis of a histogram: a range of the reals divided into bins of equal width, optionally
    combining groups of bins (resolution reduction). Reals stand for floating point numbers. */
module AxisBinnings {

  const UNDERFLOW := -1
  const OVERFLOW := -2

  /** No resolution reduction. */
  const NO_RR := 0

  datatype AxisBinning = AxisBinning(bins: nat, min: real, max: real)

  /** A proper axis. */
  predicate Proper(a: AxisBinning) { a.bins > 0 && a.min < a.max }

  function GetBins(a: AxisBinning, rrf: nat): nat {
    if rrf == NO_RR then a.bins else a.bins / rrf
  }

  function GetWidth(a: AxisBinning): real { if a.max >= a.min then a.max - a.min else a.min - a.max }

  function GetBinWidth(a: AxisBinning, rrf: nat): real
    requires GetBins(a, rrf) > 0
  {
    GetWidth(a) / (GetBins(a, rrf) as real)
  }

  function GetBinLowEdge(a: AxisBinning, bin: nat, rrf: nat): real
    requires GetBins(a, rrf) > 0
  {
    a.min + bin as real * GetBinWidth(a, rrf)
  }

  function GetBinLowEdgeFractional(a: AxisBinning, binFraction: real, rrf: nat): real
    requires GetBins(a, rrf) > 0
  {
    a.min + binFraction * GetBinWidth(a, rrf)
  }

  function GetBinUnchecked(a: AxisBinning, x: real, rrf: nat): real
    requires a.min != a.max
  {
    GetBins(a, rrf) as real * (x - a.min) / (a.max - a.min)
  }

  /** The position of x on the axis is a number, if only an infinite one: on an axis with equal ends
      the original divides by zero. */
  predicate Placed(a: AxisBinning, x: real, rrf: nat) {
    a.min != a.max || (GetBins(a, rrf) > 0 && x != a.min)
  }

  function GetBin(a: AxisBinning, x: real, rrf: nat): int
    requires Placed(a, x, rrf)
  {
    if a.min == a.max then
      if x < a.min then UNDERFLOW else OVERFLOW
    else
      var bin := GetBinUnchecked(a, x, rrf);
      if bin < 0.0 then UNDERFLOW
      else if bin >= GetBins(a, rrf) as real then OVERFLOW
      else bin.Floor
  }

  function GetBinBounded(a: AxisBinning, x: real, rrf: nat): int
    requires Placed(a, x, rrf)
  {
    var bin := GetBin(a, x, rrf);
    if bin == UNDERFLOW then 0 else if bin == OVERFLOW then GetBins(a, rrf) - 1 else bin
  }

  // ---------------------------------------------------------------------
  // Arithmetic

  lemma Scales(y: real, z: real, d: real)
    requires d > 0.0
    ensures y * d >= z * d <==> y >= z
  {
    if y >= z {
      assert (y - z) * d >= 0.0;
    } else {
      assert (z - y) * d > 0.0;
    }
  }

  /** Counting `y` in units of `d / n` is scaling it by `n / d`. */
  lemma InUnits(n: real, y: real, d: real, b: real)
    requires n > 0.0 && d > 0.0
    ensures n * y / d >= b <==> y >= b * (d / n)
  {
    var q, r := n * y / d, d / n;
    assert q * d == n * y && r * n == d;
    Scales(q, b, d);
    Scales(y, b * r, n);
    assert b * d == (b * r) * n;
  }

  // ---------------------------------------------------------------------
  // Bins enclose what falls into them

  /** The scaled position of x is at least b exactly if x is not below the low edge of bin b. */
  lemma AtOrAbove(a: AxisBinning, x: real, rrf: nat, b: nat)
    requires Proper(a) && GetBins(a, rrf) > 0
    ensures GetBinUnchecked(a, x, rrf) >= b as real <==> x >= GetBinLowEdge(a, b, rrf)
  {
    InUnits(GetBins(a, rrf) as real, x - a.min, a.max - a.min, b as real);
  }

  lemma LastEdge(a: AxisBinning, rrf: nat)
    requires Proper(a) && GetBins(a, rrf) > 0
    ensures GetBinLowEdge(a, 0, rrf) == a.min && GetBinLowEdge(a, GetBins(a, rrf), rrf) == a.max
  {
  }

  /** Every x falls into exactly one of underflow, overflow and the bin whose low edge and the next
      bin's enclose it, whatever the resolution reduction. */
  lemma BinIff(a: AxisBinning, x: real, rrf: nat, b: nat)
    requires Proper(a) && b < GetBins(a, rrf)
    ensures GetBin(a, x, rrf) == b <==> GetBinLowEdge(a, b, rrf) <= x < GetBinLowEdge(a, b + 1, rrf)
  {
    AtOrAbove(a, x, rrf, b);
    AtOrAbove(a, x, rrf, b + 1);
  }

  lemma OutsideIff(a: AxisBinning, x: real, rrf: nat)
    requires Proper(a) && GetBins(a, rrf) > 0
    ensures GetBin(a, x, rrf) == UNDERFLOW <==> x < a.min
    ensures GetBin(a, x, rrf) == OVERFLOW <==> x >= a.max
    ensures a.min <= x < a.max <==> 0 <= GetBin(a, x, rrf) < GetBins(a, rrf)
  {
    LastEdge(a, rrf);
    AtOrAbove(a, x, rrf, 0);
    AtOrAbove(a, x, rrf, GetBins(a, rrf));
  }

  /** An axis with equal ends has no inside: what lies before it is underflow, what lies behind it is
      overflow. */
  lemma EqualEnds(a: AxisBinning, x: real, rrf: nat)
    requires a.min == a.max && Placed(a, x, rrf)
    ensures GetBin(a, x, rrf) == UNDERFLOW <==> x < a.min
    ensures GetBin(a, x, rrf) == OVERFLOW <==> x > a.max
  {
  }

  /** On an axis given the wrong way round the low edges lie on the other side: except for bin 0,
      every one of them is reported as underflow. */
  lemma ReversedAxis(a: AxisBinning, b: nat)
    requires a.bins > 0 && a.max < a.min
    ensures GetBin(a, GetBinLowEdge(a, b, NO_RR), NO_RR) == UNDERFLOW <==> b > 0
  {
    var n, d, w := a.bins as real, a.max - a.min, GetBinWidth(a, NO_RR);
    var u := GetBinUnchecked(a, GetBinLowEdge(a, b, NO_RR), NO_RR);
    assert w * n == -d && u * d == n * (b as real * w);
    Mirrored(n, d, w, u, b as real);
  }

  lemma Mirrored(n: real, d: real, w: real, u: real, b: real)
    requires d < 0.0 && w * n == -d && u * d == n * (b * w)
    ensures u == -b
  {
    assert n * (b * w) == b * (w * n);
    assert (u + b) * d == 0.0;
  }

  /** On a reversed axis x lies as far below the start as its bin number says above it. */
  lemma ReversedPosition(a: AxisBinning, x: real, rrf: nat)
    requires a.max < a.min && GetBins(a, rrf) > 0
    ensures x == a.min - GetBinUnchecked(a, x, rrf) * GetBinWidth(a, rrf)
  {
    var n, d, w, u := GetBins(a, rrf) as real, a.max - a.min, GetBinWidth(a, rrf), GetBinUnchecked(a, x, rrf);
    assert w * n == -d && u * d == n * (x - a.min);
    assert (x - a.min + u * w) * n == 0.0;
  }

  lemma NoneAbove(m: real, u: real, b: nat, w: real)
    requires w > 0.0 && u >= b as real && m + b as real * w <= m - u * w
    ensures u == 0.0 && b == 0
  {
    assert (b as real + u) * w <= 0.0;
    Scales(0.0, b as real + u, w);
  }

  /** For every axis with distinct ends and every x that falls into a bin: the low edges of the bin
      and the next one enclose x exactly if the axis is the right way round or x is its start. */
  lemma EnclosesIff(a: AxisBinning, x: real, rrf: nat, b: nat)
    requires a.min != a.max && b < GetBins(a, rrf) && GetBin(a, x, rrf) == b
    ensures GetBinLowEdge(a, b, rrf) <= x < GetBinLowEdge(a, b + 1, rrf) <==> a.min < a.max || x == a.min
  {
    if a.min < a.max {
      BinIff(a, x, rrf, b);
    } else {
      var u, w := GetBinUnchecked(a, x, rrf), GetBinWidth(a, rrf);
      ReversedPosition(a, x, rrf);
      if GetBinLowEdge(a, b, rrf) <= x {
        NoneAbove(a.min, u, b, w);
      }
    }
  }

  /** The bounded bin of a position on the axis encloses it; positions before the axis are in the first
      bin, and positions behind it in the last. */
  lemma BoundedIs(a: AxisBinning, x: real, rrf: nat)
    requires Proper(a) && GetBins(a, rrf) > 0
    ensures var b := GetBinBounded(a, x, rrf);
            && 0 <= b < GetBins(a, rrf)
            && (x < a.min ==> b == 0) && (x >= a.max ==> b == GetBins(a, rrf) - 1)
            && (a.min <= x < a.max ==> GetBinLowEdge(a, b, rrf) <= x < GetBinLowEdge(a, b + 1, rrf))
  {
    OutsideIff(a, x, rrf);
    if a.min <= x < a.max {
      BinIff(a, x, rrf, GetBin(a, x, rrf));
    }
  }

  /** A later position is never in an earlier bin. */
  lemma BoundedMonotone(a: AxisBinning, x: real, y: real, rrf: nat)
    requires Proper(a) && GetBins(a, rrf) > 0 && x <= y
    ensures 0 <= GetBinBounded(a, x, rrf) <= GetBinBounded(a, y, rrf) < GetBins(a, rrf)
  {
    var u, v := GetBinUnchecked(a, x, rrf), GetBinUnchecked(a, y, rrf);
    var n, d := GetBins(a, rrf) as real, a.max - a.min;
    Scales(y - a.min, x - a.min, n);
    assert u * d == n * (x - a.min) && v * d == n * (y - a.min);
    Scales(v, u, d);
    assert u <= v;
    OutsideIff(a, x, rrf);
    OutsideIff(a, y, rrf);
  }

  // ---------------------------------------------------------------------
  // Resolution reduction

  /** Reduced bin k begins where physical bin k * rrf does. */
  lemma ReducedEdge(a: AxisBinning, rrf: nat, k: nat)
    requires Proper(a) && rrf > 0 && a.bins % rrf == 0
    ensures GetBins(a, rrf) * rrf == a.bins && GetBins(a, rrf) > 0
    ensures GetBinLowEdge(a, k, rrf) == GetBinLowEdge(a, k * rrf, NO_RR)
  {
    var m := a.bins / rrf;
    assert a.bins == m * rrf;
    assert m > 0;
    Regrouped(a.max - a.min, m, rrf, k);
  }

  lemma Regrouped(d: real, m: nat, f: nat, k: nat)
    requires m > 0 && f > 0
    ensures m * f > 0 && k as real * (d / m as real) == (k * f) as real * (d / (m * f) as real)
  {
    var v, w := d / m as real, d / (m * f) as real;
    RealProduct(m, f);
    RealProduct(k, f);
    assert m * f > 0;
    assert v * m as real == d && w * (m as real * f as real) == d;
    assert (v - w * f as real) * m as real == 0.0;
    assert v == w * f as real;
  }

  lemma RealProduct(x: nat, y: nat)
    ensures (x * y) as real == x as real * y as real
  {
  }

  lemma EdgesGrow(a: AxisBinning, b: nat, c: nat)
    requires Proper(a) && b <= c
    ensures GetBinLowEdge(a, b, NO_RR) <= GetBinLowEdge(a, c, NO_RR)
  {
    var w := GetBinWidth(a, NO_RR);
    assert w > 0.0;
    Scales(c as real, b as real, w);
  }

  /** For a factor that divides the number of bins the reduced bin is the group of the physical bin. */
  lemma ReducedBin(a: AxisBinning, x: real, rrf: nat)
    requires Proper(a) && rrf > 0 && a.bins % rrf == 0 && a.min <= x < a.max
    ensures GetBin(a, x, rrf) == GetBin(a, x, NO_RR) / rrf
  {
    OutsideIff(a, x, NO_RR);
    var b := GetBin(a, x, NO_RR);
    BinIff(a, x, NO_RR, b);
    var g := b / rrf;
    GroupOf(b, rrf, a.bins);
    ReducedEdge(a, rrf, g);
    ReducedEdge(a, rrf, g + 1);
    EdgesGrow(a, g * rrf, b);
    EdgesGrow(a, b + 1, (g + 1) * rrf);
    BinIff(a, x, rrf, g);
  }

  lemma GroupOf(b: nat, f: nat, n: nat)
    requires f > 0 && n % f == 0 && b < n
    ensures b / f * f <= b < (b / f + 1) * f && b / f < n / f
  {
    assert b == b / f * f + b % f;
    assert n == n / f * f;
  }

  ghost predicate Regroups(a: AxisBinning, rrf: nat)
    requires Proper(a) && rrf > 0
  {
    forall x :: a.min <= x < a.max ==> GetBin(a, x, rrf) == GetBin(a, x, NO_RR) / rrf
  }

  /** For other factors it is not: the last physical bin does not lie in the group of its number. */
  lemma LastBinMisplaced(a: AxisBinning, rrf: nat)
    requires Proper(a) && rrf > 0 && a.bins % rrf != 0
    ensures var x := GetBinLowEdge(a, a.bins - 1, NO_RR);
            a.min <= x < a.max && GetBin(a, x, NO_RR) == a.bins - 1 && GetBin(a, x, rrf) != (a.bins - 1) / rrf
  {
    var n, q := a.bins, a.bins / rrf;
    var x := GetBinLowEdge(a, n - 1, NO_RR);
    LastEdge(a, NO_RR);
    EdgesGrow(a, 0, n - 1);
    EdgesGrow(a, n - 1, n);
    assert GetBinWidth(a, NO_RR) > 0.0;
    assert x < GetBinLowEdge(a, n, NO_RR);
    BinIff(a, x, NO_RR, n - 1);
    assert (n - 1) / rrf == q by { QuotientBefore(n, rrf); }
    assert GetBin(a, x, rrf) < q || q == 0 by { if q > 0 { OutsideIff(a, x, rrf); } }
  }

  lemma QuotientBefore(n: nat, f: nat)
    requires f > 0 && n % f != 0
    ensures n > 0 && (n - 1) / f == n / f
  {
    assert n == n / f * f + n % f;
    assert n - 1 == n / f * f + (n % f - 1);
    DivIs(n - 1, n / f, n % f - 1, f);
  }

  lemma DivIs(x: nat, q: nat, r: nat, f: nat)
    requires x == q * f + r && r < f
    ensures x / f == q
  {
    Multiples(q - x / f, f);
    assert x == x / f * f + x % f;
    assert (q - x / f) * f == x % f - r;
  }

  lemma Multiples(d: int, f: nat)
    ensures d >= 1 ==> d * f >= f
    ensures d <= -1 ==> d * f <= 0 - f
  {
  }

  /** Resolution reduction regroups the bins exactly if its factor divides their number. */
  lemma RegroupsIff(a: AxisBinning, rrf: nat)
    requires Proper(a) && rrf > 0
    ensures Regroups(a, rrf) <==> a.bins % rrf == 0
  {
    if a.bins % rrf == 0 {
      forall x | a.min <= x < a.max ensures GetBin(a, x, rrf) == GetBin(a, x, NO_RR) / rrf {
        ReducedBin(a, x, rrf);
      }
    } else {
      LastBinMisplaced(a, rrf);
    }
  }
}

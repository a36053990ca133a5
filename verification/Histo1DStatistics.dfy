/** Statistics of a range of bins: entries, mean, maximum and the full width at half maximum. */
module Histo1DStatistics {
  import opened Wrappers
  import opened AxisBinnings
  import opened Histogram1D

  /** The full width at half maximum, and between which bins it was found. */
  datatype Peak = Peak(leftBin: nat, rightBin: nat, leftEdge: real, rightEdge: real, fwhm: real, fwhmCenter: real)

  /** `variance` is the square of sigma. */
  datatype Statistics = Statistics(
    startBin: nat,
    onePastEndBin: nat,
    entryCount: real,
    mean: real,
    variance: real,
    maxValue: real,
    maxBin: nat,
    peak: Option<Peak>)

  // ---------------------------------------------------------------------
  // What is computed

  function Entries(data: seq<real>, rrf: nat, first: nat, end: nat): real {
    if end <= first then 0.0 else Entries(data, rrf, first, end - 1) + BinContent(data, end - 1, rrf)
  }

  function Moment(a: AxisBinning, data: seq<real>, rrf: nat, first: nat, end: nat): real
    requires GetBins(a, rrf) > 0
  {
    if end <= first then 0.0
    else Moment(a, data, rrf, first, end - 1) + Times(BinContent(data, end - 1, rrf), GetBinLowEdge(a, end - 1, rrf))
  }

  function Times(x: real, y: real): real { x * y }

  const U32 := 0x1_0000_0000

  /** Contents are counted in whole entries for the variance: they are cut off to 32 bit integers. */
  ghost predicate Countable(data: seq<real>, rrf: nat, first: nat, end: nat) {
    forall b {:trigger BinContent(data, b, rrf)} :: first <= b < end ==> 0.0 <= BinContent(data, b, rrf) < U32 as real
  }

  function SquareTimes(d: real, n: int): real { Times(Times(d, d), n as real) }

  /** Squared distances from the mean, one for each whole entry. */
  function Squares(a: AxisBinning, data: seq<real>, rrf: nat, mean: real, first: nat, end: nat): real
    requires GetBins(a, rrf) > 0
  {
    if end <= first then 0.0
    else
      Squares(a, data, rrf, mean, first, end - 1)
      + SquareTimes(GetBinLowEdge(a, end - 1, rrf) - mean, BinContent(data, end - 1, rrf).Floor)
  }

  /** The largest content and the first bin that has it; zero if there is no positive one. */
  ghost predicate IsMaximum(data: seq<real>, rrf: nat, first: nat, end: nat, maxValue: real, maxBin: nat) {
    && (forall b {:trigger BinContent(data, b, rrf)} :: first <= b < end ==> BinContent(data, b, rrf) <= maxValue)
    && (if maxValue > 0.0 then
          && first <= maxBin < end && BinContent(data, maxBin, rrf) == maxValue
          && forall b {:trigger BinContent(data, b, rrf)} :: first <= b < maxBin ==> BinContent(data, b, rrf) < maxValue
        else maxValue == 0.0 && maxBin == 0)
  }

  /** The nearest bin to the left of the maximum that is below the given height. */
  ghost predicate NearestLeft(data: seq<real>, rrf: nat, first: nat, maxBin: nat, height: real, left: Option<nat>) {
    var from := if left.Some? then left.value + 1 else first;
    && (left.Some? ==> first <= left.value <= maxBin && BinContent(data, left.value, rrf) < height)
    && forall b {:trigger BinContent(data, b, rrf)} :: from <= b <= maxBin ==> BinContent(data, b, rrf) >= height
  }

  ghost predicate NearestRight(data: seq<real>, rrf: nat, end: nat, maxBin: nat, height: real, right: Option<nat>) {
    var to := if right.Some? then right.value else end;
    && (right.Some? ==> maxBin <= right.value < end && BinContent(data, right.value, rrf) < height)
    && forall b {:trigger BinContent(data, b, rrf)} :: maxBin <= b < to ==> BinContent(data, b, rrf) >= height
  }

  /** Point `at` lies on the line between the contents of bins `b` and `b + 1` at the given height. */
  ghost predicate Crosses(data: seq<real>, rrf: nat, b: nat, at: real, height: real) {
    var c, d := BinContent(data, b, rrf), BinContent(data, b + 1, rrf);
    c + Times(at - b as real, d - c) == height
  }

  function Distance(x: real, y: real): real { if x <= y then y - x else x - y }

  /** The edges are where the contents cross half of the maximum, the right one within its bin; width
      and center are theirs. */
  ghost predicate HasEdges(a: AxisBinning, data: seq<real>, rrf: nat, maxValue: real, maxBin: nat, p: Peak)
    requires GetBins(a, rrf) > 0
  {
    && maxBin < p.rightBin
    && Crosses(data, rrf, p.leftBin, p.leftEdge, maxValue * 0.5)
    && Crosses(data, rrf, p.rightBin - 1, p.rightEdge, maxValue * 0.5)
    && maxBin as real <= (p.rightBin - 1) as real <= p.rightEdge < p.rightBin as real
    && p.fwhm == Times(Distance(p.leftEdge, p.rightEdge), GetBinWidth(a, rrf)) && p.fwhm >= 0.0
    && p.fwhmCenter == GetBinLowEdgeFractional(a, (p.leftEdge + p.rightEdge) * 0.5 + 0.5, rrf)
  }

  /** The peak as documented: the edges lie next to the nearest bins below half maximum on both
      sides, and so enclose the maximum. */
  ghost predicate IsPeak(a: AxisBinning, data: seq<real>, rrf: nat, maxValue: real, maxBin: nat, p: Peak)
    requires GetBins(a, rrf) > 0
  {
    && HasEdges(a, data, rrf, maxValue, maxBin, p)
    && p.leftBin < maxBin
    && p.leftBin as real < p.leftEdge <= (p.leftBin + 1) as real
    && p.leftEdge <= maxBin as real <= p.rightEdge
  }

  /** The line through the contents of the first two bins, followed to the maximum, has reached or
      passed the given height there. */
  predicate ReachedByMaximum(data: seq<real>, rrf: nat, maxBin: nat, height: real) {
    var c, d := BinContent(data, 0, rrf), BinContent(data, 1, rrf);
    var there := c + Times(maxBin as real, d - c);
    if c < d then there >= height else there <= height
  }

  /** Without such a bin on the left the first two bins of the histogram stand in. The left edge is
      then in front of the maximum exactly if the line through them has crossed half maximum by there. */
  ghost predicate IsStandIn(a: AxisBinning, data: seq<real>, rrf: nat, maxValue: real, maxBin: nat, p: Peak)
    requires GetBins(a, rrf) > 0
  {
    && HasEdges(a, data, rrf, maxValue, maxBin, p)
    && p.leftBin == 0 && BinContent(data, 0, rrf) != BinContent(data, 1, rrf)
    && (p.leftEdge <= maxBin as real <==> ReachedByMaximum(data, rrf, maxBin, maxValue * 0.5))
  }

  ghost predicate IsMean(a: AxisBinning, data: seq<real>, rrf: nat, r: Statistics)
    requires GetBins(a, rrf) > 0
  {
    && r.entryCount == Entries(data, rrf, r.startBin, r.onePastEndBin)
    && (if r.entryCount == 0.0 then r.mean == 0.0
        else Times(r.mean, r.entryCount) == Moment(a, data, rrf, r.startBin, r.onePastEndBin))
  }

  /** A mean of exactly zero counts as no mean. */
  ghost predicate IsVariance(a: AxisBinning, data: seq<real>, rrf: nat, r: Statistics)
    requires GetBins(a, rrf) > 0
  {
    if r.mean == 0.0 || r.entryCount <= 0.0 then r.variance == 0.0
    else
      Countable(data, rrf, r.startBin, r.onePastEndBin) ==>
        Times(r.variance, r.entryCount) == Squares(a, data, rrf, r.mean, r.startBin, r.onePastEndBin)
  }

  ghost predicate LeftFound(a: AxisBinning, data: seq<real>, rrf: nat, first: nat, maxValue: real, maxBin: nat,
                            peak: Option<Peak>)
    requires GetBins(a, rrf) > 0
  {
    match peak
    case Some(p) =>
      var found := NearestLeft(data, rrf, first, maxBin, maxValue * 0.5, Some(p.leftBin));
      var missed := NearestLeft(data, rrf, first, maxBin, maxValue * 0.5, None);
      || (found && IsPeak(a, data, rrf, maxValue, maxBin, p))
      || (missed && IsStandIn(a, data, rrf, maxValue, maxBin, p))
    case None =>
      && NearestLeft(data, rrf, first, maxBin, maxValue * 0.5, None)
      && BinContent(data, 0, rrf) == BinContent(data, 1, rrf)
  }

  /** A peak has been found exactly if a bin on the right of a positive maximum is below half of it
      and either one on the left is, too, or the first two bins can stand in. */
  ghost predicate PeakFound(a: AxisBinning, data: seq<real>, rrf: nat, r: Statistics)
    requires GetBins(a, rrf) > 0
  {
    var height := r.maxValue * 0.5;
    match r.peak
    case Some(p) =>
      && r.maxValue > 0.0
      && NearestRight(data, rrf, r.onePastEndBin, r.maxBin, height, Some(p.rightBin))
      && LeftFound(a, data, rrf, r.startBin, r.maxValue, r.maxBin, Some(p))
    case None =>
      r.maxValue > 0.0 ==>
        || NearestRight(data, rrf, r.onePastEndBin, r.maxBin, height, None)
        || LeftFound(a, data, rrf, r.startBin, r.maxValue, r.maxBin, None)
  }

  // ---------------------------------------------------------------------
  // The computation

  function Interp(x0: real, y0: real, x1: real, y1: real, x: real): real
    requires x0 != x1
  {
    y0 + ((y1 - y0) / (x1 - x0)) * (x - x0)
  }

  lemma InterpCrosses(c: real, d: real, b: real, h: real)
    requires c != d
    ensures c + (Interp(d, b + 1.0, c, b, h) - b) * (d - c) == h
    ensures Interp(c, b, d, b + 1.0, h) == Interp(d, b + 1.0, c, b, h)
    ensures c < h <= d ==> b < Interp(d, b + 1.0, c, b, h) <= b + 1.0
    ensures d < h <= c ==> b <= Interp(d, b + 1.0, c, b, h) < b + 1.0
  {
    var s := (b - (b + 1.0)) / (c - d);
    assert s * (c - d) == -1.0;
    var at := Interp(d, b + 1.0, c, b, h);
    assert at == b + 1.0 + s * (h - d);
    var t := at - b;
    assert t * (d - c) == h - c by {
      assert t * (d - c) == (d - c) + s * (d - c) * (h - d);
      assert s * (d - c) == 1.0;
    }
    Between(t, d - c, h - c);
    var u := (b + 1.0 - b) / (d - c);
    assert u * (d - c) == 1.0;
    assert (u - s) * (d - c) == 0.0;
    assert u == s;
  }

  lemma Between(t: real, d: real, h: real)
    requires t * d == h
    ensures 0.0 < h <= d ==> 0.0 < t <= 1.0
    ensures d < h <= 0.0 ==> 0.0 <= t < 1.0
  {
    assert (t - 1.0) * d == h - d;
  }

  lemma MaximumGrows(data: seq<real>, rrf: nat, first: nat, bin: nat, maxValue: real, maxBin: nat)
    requires first <= bin && IsMaximum(data, rrf, first, bin, maxValue, maxBin)
    ensures var v := BinContent(data, bin, rrf);
            if v > maxValue then IsMaximum(data, rrf, first, bin + 1, v, bin)
            else IsMaximum(data, rrf, first, bin + 1, maxValue, maxBin)
  {
  }

  method FindMaximum(h: Histo1D, first: nat, end: nat, rrf: nat) returns (maxValue: real, maxBin: nat)
    requires h.Valid()
    ensures IsMaximum(h.data[..], rrf, first, end, maxValue, maxBin)
  {
    maxValue, maxBin := 0.0, 0;
    var bin := first;
    while bin < end
      invariant first <= bin && (bin <= end || bin == first)
      invariant IsMaximum(h.data[..], rrf, first, bin, maxValue, maxBin)
    {
      MaximumGrows(h.data[..], rrf, first, bin, maxValue, maxBin);
      var v := h.GetBinContent(bin, rrf);
      if v > maxValue {
        maxValue := v;
        maxBin := bin;
      }
      bin := bin + 1;
    }
  }

  method SumUp(h: Histo1D, first: nat, end: nat, rrf: nat) returns (entries: real, moment: real)
    requires h.Valid() && GetBins(h.binning, rrf) > 0
    ensures entries == Entries(h.data[..], rrf, first, end) && moment == Moment(h.binning, h.data[..], rrf, first, end)
  {
    entries, moment := 0.0, 0.0;
    var bin := first;
    while bin < end
      invariant first <= bin && (bin <= end || bin == first)
      invariant entries == Entries(h.data[..], rrf, first, bin)
                && moment == Moment(h.binning, h.data[..], rrf, first, bin)
    {
      var v := h.GetBinContent(bin, rrf);
      moment := moment + Times(v, GetBinLowEdge(h.binning, bin, rrf));
      entries := entries + v;
      bin := bin + 1;
    }
  }

  method FindLeft(h: Histo1D, first: nat, maxBin: nat, height: real, rrf: nat) returns (left: Option<nat>)
    requires h.Valid() && first <= maxBin
    ensures NearestLeft(h.data[..], rrf, first, maxBin, height, left)
  {
    var bin: int := maxBin;
    while bin >= first
      invariant first - 1 <= bin <= maxBin
      invariant forall b {:trigger BinContent(h.data[..], b, rrf)} :: bin < b <= maxBin ==>
                  BinContent(h.data[..], b, rrf) >= height
    {
      var v := h.GetBinContent(bin, rrf);
      if v < height {
        return Some(bin);
      }
      bin := bin - 1;
    }
    left := None;
  }

  method FindRight(h: Histo1D, end: nat, maxBin: nat, height: real, rrf: nat) returns (right: Option<nat>)
    requires h.Valid() && maxBin < end
    ensures NearestRight(h.data[..], rrf, end, maxBin, height, right)
  {
    var bin := maxBin;
    while bin < end
      invariant maxBin <= bin <= end
      invariant forall b {:trigger BinContent(h.data[..], b, rrf)} :: maxBin <= b < bin ==>
                  BinContent(h.data[..], b, rrf) >= height
    {
      var v := h.GetBinContent(bin, rrf);
      if v < height {
        return Some(bin);
      }
      bin := bin + 1;
    }
    right := None;
  }

  lemma SpanIs(m: real, left: real, right: real, w: real)
    requires w >= 0.0 && left <= right
    ensures (m + right * w) - (m + left * w) == Times(right - left, w) >= 0.0
    ensures ((m + right * w) + (m + left * w)) * 0.5 + w * 0.5 == m + ((left + right) * 0.5 + 0.5) * w
  {
    assert (right - left) * w == right * w - left * w;
    assert ((left + right) * 0.5 + 0.5) * w == (left * w + right * w) * 0.5 + w * 0.5;
  }

  /** A bin below the height next to one that reaches it. */
  lemma LeftCrossing(data: seq<real>, rrf: nat, first: nat, maxBin: nat, height: real, left: nat)
    requires NearestLeft(data, rrf, first, maxBin, height, Some(left)) && BinContent(data, maxBin, rrf) >= height
    ensures left < maxBin && BinContent(data, left, rrf) < height <= BinContent(data, left + 1, rrf)
  {
  }

  lemma RightCrossing(data: seq<real>, rrf: nat, end: nat, maxBin: nat, height: real, right: nat)
    requires NearestRight(data, rrf, end, maxBin, height, Some(right)) && BinContent(data, maxBin, rrf) >= height
    ensures maxBin < right && BinContent(data, right, rrf) < height <= BinContent(data, right - 1, rrf)
  {
  }

  method FindPeak(h: Histo1D, leftBin: nat, rightBin: nat, maxValue: real, maxBin: nat, rrf: nat) returns (p: Peak)
    requires h.Valid() && GetBins(h.binning, rrf) > 0
    requires leftBin < maxBin < rightBin
    requires BinContent(h.data[..], leftBin, rrf) < maxValue * 0.5 <= BinContent(h.data[..], leftBin + 1, rrf)
    requires BinContent(h.data[..], rightBin, rrf) < maxValue * 0.5 <= BinContent(h.data[..], rightBin - 1, rrf)
    ensures p.leftBin == leftBin && p.rightBin == rightBin
    ensures IsPeak(h.binning, h.data[..], rrf, maxValue, maxBin, p)
  {
    var leftOuter := h.GetBinContent(leftBin, rrf);
    var leftInner := h.GetBinContent(leftBin + 1, rrf);
    var left := Rising(leftOuter, leftInner, leftBin, maxValue * 0.5);
    p := WithRightEdge(h, leftBin, left, rightBin, maxValue, maxBin, rrf);
    Ordered(left, leftBin + 1, maxBin, rightBin - 1, p.rightEdge);
  }

  method FindStandIn(h: Histo1D, rightBin: nat, maxValue: real, maxBin: nat, rrf: nat) returns (p: Option<Peak>)
    requires h.Valid() && GetBins(h.binning, rrf) > 0
    requires maxBin < rightBin
    requires BinContent(h.data[..], rightBin, rrf) < maxValue * 0.5 <= BinContent(h.data[..], rightBin - 1, rrf)
    ensures p.None? <==> BinContent(h.data[..], 0, rrf) == BinContent(h.data[..], 1, rrf)
    ensures p.Some? ==> p.value.rightBin == rightBin && IsStandIn(h.binning, h.data[..], rrf, maxValue, maxBin, p.value)
  {
    var outer := h.GetBinContent(0, rrf);
    var inner := h.GetBinContent(1, rrf);
    if outer == inner {
      return None;
    }
    var left := AnyCrossing(outer, inner, maxValue * 0.5, maxBin);
    var q := WithRightEdge(h, 0, left, rightBin, maxValue, maxBin, rrf);
    p := Some(q);
  }

  method WithRightEdge(h: Histo1D, leftBin: nat, left: real, rightBin: nat, maxValue: real, maxBin: nat, rrf: nat)
    returns (p: Peak)
    requires h.Valid() && GetBins(h.binning, rrf) > 0
    requires maxBin < rightBin && Crosses(h.data[..], rrf, leftBin, left, maxValue * 0.5)
    requires BinContent(h.data[..], rightBin, rrf) < maxValue * 0.5 <= BinContent(h.data[..], rightBin - 1, rrf)
    ensures p.leftBin == leftBin && p.rightBin == rightBin && p.leftEdge == left
    ensures HasEdges(h.binning, h.data[..], rrf, maxValue, maxBin, p)
  {
    var rightInner := h.GetBinContent(rightBin - 1, rrf);
    var rightOuter := h.GetBinContent(rightBin, rrf);
    var right := Falling(rightInner, rightOuter, rightBin - 1, maxValue * 0.5);
    Ordered(maxBin as real, maxBin, maxBin, rightBin - 1, right);
    var fwhm, fwhmCenter := Extent(h.binning, left, right, rrf);
    p := Peak(leftBin, rightBin, left, right, fwhm, fwhmCenter);
  }

  /** Between the first two bins, at any contents that differ. */
  method AnyCrossing(outer: real, inner: real, height: real, maxBin: nat) returns (at: real)
    requires outer != inner
    ensures outer + Times(at - 0.0, inner - outer) == height
    ensures at <= maxBin as real <==>
            var there := outer + Times(maxBin as real, inner - outer);
            if outer < inner then there >= height else there <= height
  {
    InterpCrosses(outer, inner, 0.0, height);
    at := Interp(inner, 1.0, outer, 0.0, height);
    SideOf(at, maxBin as real, inner - outer);
  }

  lemma SideOf(x: real, y: real, d: real)
    requires d != 0.0
    ensures if d > 0.0 then x <= y <==> x * d <= y * d else x <= y <==> x * d >= y * d
  {
    if d > 0.0 { Scales(y, x, d); } else { Scales(y, x, -d); }
  }

  lemma Ordered(x: real, a: nat, b: nat, c: nat, y: real)
    requires x <= a as real && a <= b <= c && c as real <= y
    ensures x <= b as real <= y
  {
  }

  method Rising(outer: real, inner: real, bin: nat, height: real) returns (at: real)
    requires outer < height <= inner
    ensures bin as real < at <= (bin + 1) as real
    ensures outer + Times(at - bin as real, inner - outer) == height
  {
    InterpCrosses(outer, inner, bin as real, height);
    at := Interp(inner, (bin + 1) as real, outer, bin as real, height);
  }

  method Falling(inner: real, outer: real, bin: nat, height: real) returns (at: real)
    requires outer < height <= inner
    ensures bin as real <= at < (bin + 1) as real
    ensures inner + Times(at - bin as real, outer - inner) == height
  {
    InterpCrosses(inner, outer, bin as real, height);
    at := Interp(inner, bin as real, outer, (bin + 1) as real, height);
  }

  method Extent(a: AxisBinning, left: real, right: real, rrf: nat) returns (fwhm: real, fwhmCenter: real)
    requires GetBins(a, rrf) > 0
    ensures fwhm == Times(Distance(left, right), GetBinWidth(a, rrf)) >= 0.0
    ensures fwhmCenter == GetBinLowEdgeFractional(a, (left + right) * 0.5 + 0.5, rrf)
  {
    var rightLowEdge := GetBinLowEdgeFractional(a, right, rrf);
    var leftLowEdge := GetBinLowEdgeFractional(a, left, rrf);
    var binWidth := GetBinWidth(a, rrf);
    if left <= right {
      SpanIs(a.min, left, right, binWidth);
    } else {
      SpanIs(a.min, right, left, binWidth);
    }
    fwhm := Distance(leftLowEdge, rightLowEdge);
    fwhmCenter := (rightLowEdge + leftLowEdge) * 0.5 + binWidth * 0.5;
  }

  method Mean(entries: real, moment: real) returns (mean: real)
    ensures if entries == 0.0 then mean == 0.0 else Times(mean, entries) == moment
  {
    mean := if entries != 0.0 then moment / entries else 0.0;
  }

  /** The conversion to a 32 bit integer; there is no defined result outside its range. */
  method ToU32(v: real) returns (n: nat)
    ensures 0.0 <= v < U32 as real ==> n == v.Floor
  {
    if 0.0 <= v < U32 as real {
      n := v.Floor;
    } else {
      n := *;
    }
  }

  method SumSquares(h: Histo1D, mean: real, first: nat, end: nat, rrf: nat) returns (sum: real)
    requires h.Valid() && GetBins(h.binning, rrf) > 0
    ensures Countable(h.data[..], rrf, first, end) ==> sum == Squares(h.binning, h.data[..], rrf, mean, first, end)
  {
    sum := 0.0;
    var bin := first;
    while bin < end
      invariant first <= bin && (bin <= end || bin == first)
      invariant Countable(h.data[..], rrf, first, end) ==>
                  sum == Squares(h.binning, h.data[..], rrf, mean, first, bin)
    {
      var content := h.GetBinContent(bin, rrf);
      var v := ToU32(content);
      if v != 0 {
        sum := sum + SquareTimes(GetBinLowEdge(h.binning, bin, rrf) - mean, v);
      }
      bin := bin + 1;
    }
  }

  method Variance(h: Histo1D, mean: real, entries: real, first: nat, end: nat, rrf: nat) returns (variance: real)
    requires h.Valid() && GetBins(h.binning, rrf) > 0
    ensures mean == 0.0 || entries <= 0.0 ==> variance == 0.0
    ensures mean != 0.0 && entries > 0.0 && Countable(h.data[..], rrf, first, end) ==>
              Times(variance, entries) == Squares(h.binning, h.data[..], rrf, mean, first, end)
  {
    variance := 0.0;
    if mean != 0.0 && entries > 0.0 {
      var sum := SumSquares(h, mean, first, end, rrf);
      variance := sum / entries;
    }
  }

  method WithLeftEdge(h: Histo1D, first: nat, maxValue: real, maxBin: nat, rrf: nat, rightBin: nat)
    returns (peak: Option<Peak>)
    requires h.Valid() && GetBins(h.binning, rrf) > 0 && maxValue > 0.0
    requires first <= maxBin < rightBin && BinContent(h.data[..], maxBin, rrf) == maxValue
    requires BinContent(h.data[..], rightBin, rrf) < maxValue * 0.5 <= BinContent(h.data[..], rightBin - 1, rrf)
    ensures LeftFound(h.binning, h.data[..], rrf, first, maxValue, maxBin, peak)
    ensures peak.Some? ==> peak.value.rightBin == rightBin
  {
    var left := FindLeft(h, first, maxBin, maxValue * 0.5, rrf);
    if left.Some? {
      LeftCrossing(h.data[..], rrf, first, maxBin, maxValue * 0.5, left.value);
      var p := FindPeak(h, left.value, rightBin, maxValue, maxBin, rrf);
      peak := Some(p);
    } else {
      peak := FindStandIn(h, rightBin, maxValue, maxBin, rrf);
    }
  }

  method PeakOf(h: Histo1D, first: nat, end: nat, maxValue: real, maxBin: nat, rrf: nat, ghost r: Statistics)
    returns (peak: Option<Peak>)
    requires h.Valid() && GetBins(h.binning, rrf) > 0
    requires IsMaximum(h.data[..], rrf, first, end, maxValue, maxBin)
    requires r.startBin == first && r.onePastEndBin == end && r.maxValue == maxValue && r.maxBin == maxBin
    ensures PeakFound(h.binning, h.data[..], rrf, r.(peak := peak))
  {
    peak := None;
    if maxValue > 0.0 {
      var right := FindRight(h, end, maxBin, maxValue * 0.5, rrf);
      if right.Some? {
        RightCrossing(h.data[..], rrf, end, maxBin, maxValue * 0.5, right.value);
        peak := WithLeftEdge(h, first, maxValue, maxBin, rrf, right.value);
      }
    }
  }

  /** What is asked of the statistics of a range of bins. */
  ghost predicate IsStatistics(a: AxisBinning, data: seq<real>, rrf: nat, start: nat, onePastEnd: nat, r: Statistics)
    requires GetBins(a, rrf) > 0
  {
    var first := if start <= onePastEnd then start else onePastEnd;
    var end := if start <= onePastEnd then onePastEnd else start;
    && r.startBin == first && r.onePastEndBin == (if end <= GetBins(a, rrf) then end else GetBins(a, rrf))
    && IsMean(a, data, rrf, r) && IsVariance(a, data, rrf, r)
    && IsMaximum(data, rrf, r.startBin, r.onePastEndBin, r.maxValue, r.maxBin)
    && PeakFound(a, data, rrf, r)
  }

  method CalcBinStatistics(h: Histo1D, start: nat, onePastEnd: nat, rrf: nat) returns (r: Statistics)
    requires h.Valid() && GetBins(h.binning, rrf) > 0
    ensures IsStatistics(h.binning, h.data[..], rrf, start, onePastEnd, r)
  {
    var first, end := start, onePastEnd;
    if first > end {
      first, end := end, first;
    }
    var bins := GetBins(h.binning, rrf);
    if end > bins {
      end := bins;
    }
    var entries, moment := SumUp(h, first, end, rrf);
    var maxValue, maxBin := FindMaximum(h, first, end, rrf);
    var mean := Mean(entries, moment);
    var variance := Variance(h, mean, entries, first, end, rrf);
    r := Statistics(first, end, entries, mean, variance, maxValue, maxBin, None);
    var peak := PeakOf(h, first, end, maxValue, maxBin, rrf, r);
    r := r.(peak := peak);
  }

  /** The stand-in can go wrong: whatever the axis, the left edge of these four bins lies behind the
      maximum, and even behind the right edge. */
  lemma LeftEdgeBehindMaximum(a: AxisBinning, r: Statistics)
    requires a.bins == 4 && IsStatistics(a, [10.0, 9.0, 12.0, 1.0], NO_RR, 0, 4, r)
    ensures r.maxBin == 2 && r.peak.Some?
    ensures r.peak.value.leftBin == 0 && r.peak.value.leftEdge == 4.0
    ensures r.maxBin as real <= r.peak.value.rightEdge < 3.0
  {
    var data := [10.0, 9.0, 12.0, 1.0];
    assert BinContent(data, 0, NO_RR) == 10.0 && BinContent(data, 1, NO_RR) == 9.0;
    assert BinContent(data, 2, NO_RR) == 12.0 && BinContent(data, 3, NO_RR) == 1.0;
    assert r.maxValue == 12.0;
  }

  /** A histogram with these contents, and its statistics. */
  method BehindMaximum(min: real, max: real) returns (r: Statistics)
    ensures r.peak.Some? && r.maxBin as real <= r.peak.value.rightEdge < r.peak.value.leftEdge
  {
    var h := new Histo1D(4, min, max);
    var _ := h.SetBinContent(0, 10.0);
    var _ := h.SetBinContent(1, 9.0);
    var _ := h.SetBinContent(2, 12.0);
    var _ := h.SetBinContent(3, 1.0);
    assert h.data[..] == [10.0, 9.0, 12.0, 1.0];
    r := CalcBinStatistics(h, 0, 4, NO_RR);
    LeftEdgeBehindMaximum(h.binning, r);
  }

  /** No whole entry lies away from the mean. */
  ghost predicate AllAtMean(a: AxisBinning, data: seq<real>, rrf: nat, mean: real, first: nat, end: nat)
    requires GetBins(a, rrf) > 0
  {
    forall b {:trigger BinContent(data, b, rrf)} :: first <= b < end && BinContent(data, b, rrf) >= 1.0 ==>
      GetBinLowEdge(a, b, rrf) == mean
  }

  lemma SignOfProduct(x: real, y: real)
    ensures (x > 0.0 && y > 0.0) || (x < 0.0 && y < 0.0) ==> Times(x, y) > 0.0
    ensures x == 0.0 || y == 0.0 ==> Times(x, y) == 0.0
  {
  }

  lemma SquareTimesIff(d: real, n: nat)
    ensures SquareTimes(d, n) >= 0.0 && (SquareTimes(d, n) == 0.0 <==> d == 0.0 || n == 0)
  {
    SignOfProduct(d, d);
    SignOfProduct(Times(d, d), n as real);
  }

  lemma {:induction false} SquaresIff(a: AxisBinning, data: seq<real>, rrf: nat, mean: real, first: nat, end: nat)
    requires GetBins(a, rrf) > 0 && Countable(data, rrf, first, end)
    ensures Squares(a, data, rrf, mean, first, end) >= 0.0
    ensures Squares(a, data, rrf, mean, first, end) == 0.0 <==> AllAtMean(a, data, rrf, mean, first, end)
  {
    if first < end {
      SquaresIff(a, data, rrf, mean, first, end - 1);
      var content := BinContent(data, end - 1, rrf);
      SquareTimesIff(GetBinLowEdge(a, end - 1, rrf) - mean, content.Floor);
      assert content >= 1.0 <==> content.Floor > 0;
    }
  }

  /** Sigma is never imaginary, and it is zero exactly if no whole entry lies away from the mean, or
      the mean is zero, or there are no entries. */
  lemma VarianceIff(a: AxisBinning, data: seq<real>, rrf: nat, r: Statistics)
    requires GetBins(a, rrf) > 0 && IsVariance(a, data, rrf, r)
    requires Countable(data, rrf, r.startBin, r.onePastEndBin)
    ensures r.variance >= 0.0
    ensures r.variance == 0.0 <==>
            || AllAtMean(a, data, rrf, r.mean, r.startBin, r.onePastEndBin)
            || r.mean == 0.0 || r.entryCount <= 0.0
  {
    if r.mean != 0.0 && r.entryCount > 0.0 {
      SquaresIff(a, data, rrf, r.mean, r.startBin, r.onePastEndBin);
      Quotient(r.variance, r.entryCount);
    }
  }

  lemma Quotient(v: real, n: real)
    requires n > 0.0
    ensures Times(v, n) >= 0.0 <==> v >= 0.0
    ensures Times(v, n) == 0.0 <==> v == 0.0
  {
    Scales(v, 0.0, n);
    Scales(0.0, v, n);
  }

  lemma TwoEntries(a: AxisBinning, data: seq<real>)
    requires a == AxisBinning(4, -2.0, 2.0) && data == [0.0, 1.0, 0.0, 1.0]
    ensures Entries(data, NO_RR, 0, 4) == 2.0 && Moment(a, data, NO_RR, 0, 4) == 0.0
    ensures Squares(a, data, NO_RR, 0.0, 0, 4) == 2.0
  {
    assert forall b: nat :: GetBinLowEdge(a, b, NO_RR) == b as real - 2.0;
    assert Entries(data, NO_RR, 0, 1) == Moment(a, data, NO_RR, 0, 1) == Squares(a, data, NO_RR, 0.0, 0, 1) == 0.0;
    assert Entries(data, NO_RR, 0, 2) == 1.0;
    assert Moment(a, data, NO_RR, 0, 2) == -1.0;
    assert Squares(a, data, NO_RR, 0.0, 0, 2) == 1.0;
    assert Entries(data, NO_RR, 0, 3) == 1.0;
    assert Moment(a, data, NO_RR, 0, 3) == -1.0;
    assert Squares(a, data, NO_RR, 0.0, 0, 3) == 1.0;
  }

  /** Two entries on either side of zero: no spread is reported. */
  method CenteredAtZero() returns (r: Statistics)
    ensures r.entryCount == 2.0 && r.mean == 0.0 && r.variance == 0.0
    ensures Squares(AxisBinning(4, -2.0, 2.0), [0.0, 1.0, 0.0, 1.0], NO_RR, r.mean, 0, 4) == 2.0
  {
    var h := new Histo1D(4, -2.0, 2.0);
    assert GetBin(h.binning, -1.0, NO_RR) == 1 && GetBin(h.binning, 1.0, NO_RR) == 3;
    var _ := h.Fill(-1.0, 1.0);
    var _ := h.Fill(1.0, 1.0);
    ghost var a, data := h.binning, h.data[..];
    assert data == [0.0, 1.0, 0.0, 1.0];
    r := CalcBinStatistics(h, 0, 4, NO_RR);
    TwoEntries(a, data);
    Quotient(r.mean, 2.0);
  }
}

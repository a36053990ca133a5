/** Which bins a projection sums, and where its own bins lie. */
module ProjectionTheorems {
  import opened AxisBinnings
  import opened Histogram1D
  import opened Histogram2D
  import opened Projections

  /** Bin `i` meets the closed range from `start` to `end`; the first and the last bin stand for
      everything before and behind the axis. */
  ghost predicate Meets(a: AxisBinning, i: nat, start: real, end: real)
    requires a.bins > 0
  {
    && (i == 0 || GetBinLowEdge(a, i, NO_RR) <= end)
    && (i == a.bins - 1 || start < GetBinLowEdge(a, i + 1, NO_RR))
  }

  lemma StartsBy(a: AxisBinning, start: real, i: nat)
    requires Proper(a) && i < a.bins
    ensures StartBin(a, start) <= i <==> i == a.bins - 1 || start < GetBinLowEdge(a, i + 1, NO_RR)
  {
    BoundedIs(a, start, NO_RR);
    LastEdge(a, NO_RR);
    var b := StartBin(a, start);
    EdgesGrow(a, 0, i + 1);
    EdgesGrow(a, i + 1, a.bins);
    if b <= i { EdgesGrow(a, b + 1, i + 1); } else { EdgesGrow(a, i + 1, b); }
    FirstBinHasWidth(a, i);
  }

  lemma FirstBinHasWidth(a: AxisBinning, i: nat)
    requires Proper(a)
    ensures GetBinLowEdge(a, i, NO_RR) < GetBinLowEdge(a, i + 1, NO_RR)
  {
  }

  lemma EndsAfter(a: AxisBinning, end: real, i: nat)
    requires Proper(a) && i < a.bins
    ensures i < EndBin(a, end) <==> i == 0 || GetBinLowEdge(a, i, NO_RR) <= end
  {
    BoundedIs(a, end, NO_RR);
    LastEdge(a, NO_RR);
    var b := EndBin(a, end) - 1;
    EdgesGrow(a, 0, i);
    EdgesGrow(a, i, a.bins);
    if i <= b { EdgesGrow(a, i, b); } else { EdgesGrow(a, b + 1, i); }
    if i > 0 { EdgesGrow(a, 1, i); FirstBinHasWidth(a, 0); }
  }

  /** The window's bins are those that meet it. */
  lemma SelectedIff(a: AxisBinning, start: real, end: real, i: nat)
    requires Proper(a) && i < a.bins
    ensures StartBin(a, start) <= i < EndBin(a, end) <==> Meets(a, i, start, end)
  {
    StartsBy(a, start, i);
    EndsAfter(a, end, i);
  }

  /** The sum over those of the first `n` bins of the other axis that meet a range. */
  ghost function MeetingSum(g: seq<seq<real>>, ny: nat, axis: Axis, i: nat, other: AxisBinning,
                            start: real, end: real, n: nat): real
    requires IsGrid(g, ny) && other.bins > 0 && n <= other.bins
    requires other.bins == (if axis == X then ny else |g|) && i < (if axis == X then |g| else ny)
  {
    if n == 0 then 0.0
    else
      MeetingSum(g, ny, axis, i, other, start, end, n - 1)
      + if Meets(other, n - 1, start, end) then (if axis == X then g[i][n - 1] else g[n - 1][i]) else 0.0
  }

  lemma {:induction false} MeetingSumIsLine(g: seq<seq<real>>, ny: nat, axis: Axis, i: nat, other: AxisBinning,
                                            start: real, end: real, n: nat)
    requires IsGrid(g, ny) && Proper(other) && n <= other.bins
    requires other.bins == (if axis == X then ny else |g|) && i < (if axis == X then |g| else ny)
    ensures var e := EndBin(other, end);
            MeetingSum(g, ny, axis, i, other, start, end, n)
              == Line(g, ny, axis, i, StartBin(other, start), if e <= n then e else n)
  {
    if n > 0 {
      MeetingSumIsLine(g, ny, axis, i, other, start, end, n - 1);
      SelectedIff(other, start, end, n - 1);
      if Meets(other, n - 1, start, end) {
        LineOneMore(g, ny, axis, i, StartBin(other, start), n - 1);
      }
    }
  }

  /** An axis cut out between two low edges has these low edges. */
  lemma CutOutEdges(a: AxisBinning, first: nat, end: nat, k: nat)
    requires Proper(a) && first < end <= a.bins && k <= end - first
    ensures var b := ProjectedAxis(a, first, end);
            b.bins == end - first && GetBinLowEdge(b, k, NO_RR) == GetBinLowEdge(a, first + k, NO_RR)
  {
    var b, w := ProjectedAxis(a, first, end), GetBinWidth(a, NO_RR);
    EdgesGrow(a, first, end);
    SameWidth(a.min, w, first, end, b.min, b.max);
    assert GetBinWidth(b, NO_RR) == w;
    Steps(a.min, w, first, k);
  }

  lemma SameWidth(m: real, w: real, first: nat, end: nat, lo: real, hi: real)
    requires first < end && lo == m + first as real * w && hi == m + end as real * w
    ensures (hi - lo) / (end - first) as real == w
  {
    var n := (end - first) as real;
    assert hi - lo == n * w;
    assert (hi - lo) / n * n == hi - lo;
    assert ((hi - lo) / n - w) * n == 0.0;
  }

  lemma Steps(m: real, w: real, first: nat, k: nat)
    ensures m + first as real * w + k as real * w == m + (first + k) as real * w
  {
    assert (first + k) as real == first as real + k as real;
  }

  /** The axis that is kept, and the other one. */
  function Kept(ax: AxisBinning, ay: AxisBinning, axis: Axis): AxisBinning { if axis == X then ax else ay }

  function Other(ax: AxisBinning, ay: AxisBinning, axis: Axis): AxisBinning { if axis == X then ay else ax }

  function Along(w: Window, axis: Axis): (real, real) {
    if axis == X then (w.startX, w.endX) else (w.startY, w.endY)
  }

  function Across(w: Window, axis: Axis): (real, real) {
    if axis == X then (w.startY, w.endY) else (w.startX, w.endX)
  }

  ghost predicate SomeMeets(a: AxisBinning, range: (real, real))
    requires a.bins > 0
  {
    exists i :: 0 <= i < a.bins && Meets(a, i, range.0, range.1)
  }

  /** The bins from `first` on, `n` of them, are those that meet the range. */
  ghost predicate Meeting(a: AxisBinning, range: (real, real), first: nat, n: nat)
    requires a.bins > 0
  {
    && n > 0 && first + n <= a.bins
    && forall i {:trigger Meets(a, i, range.0, range.1)} :: 0 <= i < a.bins ==>
         (Meets(a, i, range.0, range.1) <==> first <= i < first + n)
  }

  /** A projection has a bin for each bin of its axis that meets the window, at the same low edges,
      and in it the sum over the bins of the other axis that meet the window. */
  ghost predicate SumsTheWindow(ax: AxisBinning, ay: AxisBinning, g: seq<seq<real>>, axis: Axis, w: Window,
                                binning: AxisBinning, data: seq<real>, first: nat)
    requires ax.bins > 0 && ay.bins > 0 && |g| == ax.bins && IsGrid(g, ay.bins)
  {
    var a, other, across := Kept(ax, ay, axis), Other(ax, ay, axis), Across(w, axis);
    && |data| == binning.bins && Meeting(a, Along(w, axis), first, binning.bins)
    && (forall k: nat :: k <= binning.bins ==>
          GetBinLowEdge(binning, k, NO_RR) == GetBinLowEdge(a, first + k, NO_RR))
    && forall k: nat :: k < binning.bins ==>
         data[k] == MeetingSum(g, ay.bins, axis, first + k, other, across.0, across.1, other.bins)
  }

  lemma SelectedRange(a: AxisBinning, range: (real, real))
    requires Proper(a)
    ensures var s, e := StartBin(a, range.0), EndBin(a, range.1);
            && (SomeMeets(a, range) <==> s < e)
            && (s < e ==> Meeting(a, range, s, e - s))
  {
    var s, e := StartBin(a, range.0), EndBin(a, range.1);
    forall i | 0 <= i < a.bins ensures s <= i < e <==> Meets(a, i, range.0, range.1) {
      SelectedIff(a, range.0, range.1, i);
    }
    if s < e {
      assert Meets(a, s, range.0, range.1);
    }
  }

  lemma ProjectionSumsTheWindow(ax: AxisBinning, ay: AxisBinning, g: seq<seq<real>>, axis: Axis, w: Window,
                                binning: AxisBinning, data: seq<real>) returns (first: nat)
    requires Proper(ax) && Proper(ay) && |g| == ax.bins && IsGrid(g, ay.bins)
    requires IsProjection(ax, ay, g, axis, w, binning, data)
    ensures if SomeMeets(Kept(ax, ay, axis), Along(w, axis)) then
              SumsTheWindow(ax, ay, g, axis, w, binning, data, first)
            else forall k :: 0 <= k < |data| ==> data[k] == 0.0
  {
    var a, other, along, across := Kept(ax, ay, axis), Other(ax, ay, axis), Along(w, axis), Across(w, axis);
    first := StartBin(a, along.0);
    var end := EndBin(a, along.1);
    SelectedRange(a, along);
    if first < end {
      forall k: nat | k <= end - first
        ensures GetBinLowEdge(binning, k, NO_RR) == GetBinLowEdge(a, first + k, NO_RR)
      {
        CutOutEdges(a, first, end, k);
      }
      CutOutEdges(a, first, end, 0);
      forall k: nat | k < end - first
        ensures data[k] == MeetingSum(g, ay.bins, axis, first + k, other, across.0, across.1, other.bins)
      {
        MeetingSumIsLine(g, ay.bins, axis, first + k, other, across.0, across.1, other.bins);
      }
    }
  }

  /** A window the wrong way round that misses by `d` bins: none if the bins just follow one another,
      otherwise a number of bins that is `d` short of 32 bits. */
  lemma WrongWayBins(ax: AxisBinning, ay: AxisBinning, g: seq<seq<real>>, axis: Axis, w: Window,
                     binning: AxisBinning, data: seq<real>)
    requires Proper(ax) && Proper(ay) && |g| == ax.bins && IsGrid(g, ay.bins)
    requires IsProjection(ax, ay, g, axis, w, binning, data) && Kept(ax, ay, axis).bins < 0x1_0000_0000
    ensures var a, along := Kept(ax, ay, axis), Along(w, axis);
            var d := GetBinBounded(a, along.0, NO_RR) - GetBinBounded(a, along.1, NO_RR) - 1;
            && (d < 0 <==> SomeMeets(a, along))
            && (d == 0 ==> binning.bins == 0) && (d > 0 ==> binning.bins == 0x1_0000_0000 - d)
  {
    var a, along := Kept(ax, ay, axis), Along(w, axis);
    SelectedRange(a, along);
    WrappedCount(a, StartBin(a, along.0), EndBin(a, along.1));
  }

  lemma WrappedCount(a: AxisBinning, start: nat, end: nat)
    requires a.bins > 0 && start < end + 0x1_0000_0000
    ensures ProjectedAxis(a, start, end).bins == if start <= end then end - start else 0x1_0000_0000 + end - start
  {
  }

  lemma SelfQuotient(x: real)
    requires x > 0.0
    ensures x / x == 1.0
  {
  }

  /** In the combined view of a list, histogram `i` covers the positions from i to i + 1. */
  lemma ListAxisIs(n: nat, x: real, i: nat)
    requires i < n
    ensures GetBinLowEdge(ListAxis(n), i, NO_RR) == i as real
    ensures GetBin(ListAxis(n), x, NO_RR) == i <==> i as real <= x < (i + 1) as real
  {
    SelfQuotient(n as real);
    assert GetBinWidth(ListAxis(n), NO_RR) == n as real / n as real;
    BinIff(ListAxis(n), x, NO_RR, i);
  }
}

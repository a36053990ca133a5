/** Projections of a two-dimensional histogram, and of a list of one-dimensional ones, onto an axis. */
module Projections {
  import opened AxisBinnings
  import opened Histogram1D
  import opened Histogram2D
  import opened Histo2DTheorems
  import T = Histo1DTheorems

  datatype Axis = X | Y

  datatype Window = Window(startX: real, endX: real, startY: real, endY: real)

  // ---------------------------------------------------------------------
  // What a projection is

  /** The bins of a window on one axis, both ends included. */
  function StartBin(a: AxisBinning, start: real): (s: nat)
    requires a.min != a.max && a.bins > 0
    ensures s < a.bins
  {
    FloorInRange(a, start);
    GetBinBounded(a, start, NO_RR)
  }

  function EndBin(a: AxisBinning, end: real): (e: nat)
    requires a.min != a.max && a.bins > 0
    ensures 0 < e <= a.bins
  {
    FloorInRange(a, end);
    GetBinBounded(a, end, NO_RR) + 1
  }

  /** The columns or rows of the window, summed along the other axis. */
  function Projected(g: seq<seq<real>>, ny: nat, axis: Axis, x0: nat, x1: nat, y0: nat, y1: nat): (s: seq<real>)
    requires IsGrid(g, ny) && x1 <= |g| && y1 <= ny && (if axis == X then x0 <= x1 else y0 <= y1)
    ensures |s| == if axis == X then x1 - x0 else y1 - y0
  {
    if axis == X then seq(x1 - x0, i requires 0 <= i < x1 - x0 => ColSum(g, ny, x0 + i, y0, y1))
    else seq(y1 - y0, j requires 0 <= j < y1 - y0 => RowSum(g, ny, x0, x1, y0 + j))
  }

  lemma {:induction false} XTotal(g: seq<seq<real>>, ny: nat, x0: nat, x1: nat, y0: nat, y1: nat)
    requires IsGrid(g, ny) && x0 <= x1 <= |g| && y1 <= ny
    ensures Sum(Projected(g, ny, X, x0, x1, y0, y1)) == RectSum(g, ny, x0, x1, y0, y1)
    decreases x1
  {
    if x0 < x1 {
      XTotal(g, ny, x0, x1 - 1, y0, y1);
      LastColumn(g, ny, x0, x1, y0, y1);
      var p, q := Projected(g, ny, X, x0, x1, y0, y1), Projected(g, ny, X, x0, x1 - 1, y0, y1);
      assert p[..|p| - 1] == q;
    } else {
      NoColumns(g, ny, x0, y0, y1);
    }
  }

  lemma {:induction false} YTotal(g: seq<seq<real>>, ny: nat, x0: nat, x1: nat, y0: nat, y1: nat)
    requires IsGrid(g, ny) && x1 <= |g| && y0 <= y1 <= ny
    ensures Sum(Projected(g, ny, Y, x0, x1, y0, y1)) == RectSum(g, ny, x0, x1, y0, y1)
    decreases y1
  {
    if y0 < y1 {
      YTotal(g, ny, x0, x1, y0, y1 - 1);
      var p, q := Projected(g, ny, Y, x0, x1, y0, y1), Projected(g, ny, Y, x0, x1, y0, y1 - 1);
      assert p[..|p| - 1] == q;
    }
  }

  /** Both projections of a window hold the content of its rectangle, so they have equal totals. */
  lemma TotalsAgree(g: seq<seq<real>>, ny: nat, x0: nat, x1: nat, y0: nat, y1: nat)
    requires IsGrid(g, ny) && x0 <= x1 <= |g| && y0 <= y1 <= ny
    ensures Sum(Projected(g, ny, X, x0, x1, y0, y1)) == Sum(Projected(g, ny, Y, x0, x1, y0, y1))
              == RectSum(g, ny, x0, x1, y0, y1)
  {
    XTotal(g, ny, x0, x1, y0, y1);
    YTotal(g, ny, x0, x1, y0, y1);
  }

  /** An ordered window on a proper axis is never empty. */
  lemma WindowNotEmpty(a: AxisBinning, start: real, end: real)
    requires Proper(a) && start <= end
    ensures StartBin(a, start) < EndBin(a, end)
  {
    BoundedMonotone(a, start, end, NO_RR);
  }

  const WRAP := 0x1_0000_0000

  /** A number of bins in 32 bits. */
  function BinCount(n: int): nat { if n >= 0 then n else n % WRAP }

  /** The axis of a projection: the bins of the window, at their own low edges. */
  function ProjectedAxis(a: AxisBinning, start: nat, end: nat): AxisBinning
    requires a.bins > 0
  {
    AxisBinning(BinCount(end - start), GetBinLowEdge(a, start, NO_RR), GetBinLowEdge(a, end, NO_RR))
  }

  /** The bins that a window selects on both axes, and the axis that is kept. */
  datatype Selection = Selection(x0: nat, x1: nat, y0: nat, y1: nat)

  function Select(ax: AxisBinning, ay: AxisBinning, w: Window): (s: Selection)
    requires ax.min != ax.max && ax.bins > 0 && ay.min != ay.max && ay.bins > 0
    ensures s.x0 < ax.bins && s.x1 <= ax.bins && s.y0 < ay.bins && s.y1 <= ay.bins
  {
    Selection(StartBin(ax, w.startX), EndBin(ax, w.endX), StartBin(ay, w.startY), EndBin(ay, w.endY))
  }

  /** The window is not the wrong way round on the axis that is kept. */
  predicate Ordered(s: Selection, axis: Axis) { if axis == X then s.x0 <= s.x1 else s.y0 <= s.y1 }

  /** Of a window the wrong way round nothing is summed, into as many bins as the count wraps to. */
  ghost predicate IsProjection(ax: AxisBinning, ay: AxisBinning, g: seq<seq<real>>, axis: Axis, w: Window,
                               binning: AxisBinning, data: seq<real>)
    requires ax.min != ax.max && ax.bins > 0 && ay.min != ay.max && ay.bins > 0
    requires |g| == ax.bins && IsGrid(g, ay.bins)
  {
    var s := Select(ax, ay, w);
    && binning == (if axis == X then ProjectedAxis(ax, s.x0, s.x1) else ProjectedAxis(ay, s.y0, s.y1))
    && data == if Ordered(s, axis) then Projected(g, ay.bins, axis, s.x0, s.x1, s.y0, s.y1) else Zeros(binning.bins)
  }

  // ---------------------------------------------------------------------
  // The projection of a two-dimensional histogram

  lemma OneCell(g: seq<seq<real>>, ny: nat, x: nat, y: nat)
    requires IsGrid(g, ny) && x < |g| && y < ny
    ensures RectSum(g, ny, x, x + 1, y, y + 1) == g[x][y]
  {
    assert RectSum(g, ny, x, x + 1, y, y) == 0.0;
    assert RowSum(g, ny, x, x, y) == 0.0;
    assert RowSum(g, ny, x, x + 1, y) == g[x][y];
  }

  /** The sum along the other axis, at bin `i` of the axis kept. */
  function Line(g: seq<seq<real>>, ny: nat, axis: Axis, i: nat, first: nat, end: int): real
    requires IsGrid(g, ny) && (if axis == X then i < |g| && end <= ny else i < ny && end <= |g|)
  {
    if axis == X then ColSum(g, ny, i, first, end) else RowSum(g, ny, first, end, i)
  }

  predicate Within(g: seq<seq<real>>, ny: nat, axis: Axis, i: nat, j: nat) {
    if axis == X then i < |g| && j < ny else j < |g| && i < ny
  }

  /** Bin `i` of the axis kept and bin `j` of the other one. */
  function At(g: seq<seq<real>>, ny: nat, axis: Axis, i: nat, j: nat): real
    requires IsGrid(g, ny) && Within(g, ny, axis, i, j)
  {
    if axis == X then g[i][j] else g[j][i]
  }

  lemma LineOneMore(g: seq<seq<real>>, ny: nat, axis: Axis, i: nat, first: nat, end: nat)
    requires IsGrid(g, ny) && first <= end && Within(g, ny, axis, i, end)
    ensures Line(g, ny, axis, i, first, end + 1) == Line(g, ny, axis, i, first, end) + At(g, ny, axis, i, end)
  {
  }

  method CellOf(h: Histo2D, x: nat, y: nat) returns (v: real)
    requires h.Valid() && x < h.xAxis.bins && y < h.yAxis.bins
    ensures v == Grid(h.data[..], h.xAxis.bins, h.yAxis.bins)[x][y]
  {
    v := h.GetBinContent(x, y, Factors(NO_RR, NO_RR));
    OneCell(Grid(h.data[..], h.xAxis.bins, h.yAxis.bins), h.yAxis.bins, x, y);
  }

  method SumLine(h: Histo2D, axis: Axis, binI: nat, first: nat, end: nat) returns (value: real)
    requires h.Valid() && first <= (if axis == X then h.yAxis.bins else h.xAxis.bins)
    requires if axis == X then binI < h.xAxis.bins && end <= h.yAxis.bins
             else binI < h.yAxis.bins && end <= h.xAxis.bins
    ensures value == Line(Grid(h.data[..], h.xAxis.bins, h.yAxis.bins), h.yAxis.bins, axis, binI, first, end)
  {
    ghost var g := Grid(h.data[..], h.xAxis.bins, h.yAxis.bins);
    value := 0.0;
    var binJ := first;
    while binJ < end
      invariant first <= binJ && (binJ <= end || binJ == first)
      invariant binJ <= (if axis == X then h.yAxis.bins else h.xAxis.bins)
      invariant value == Line(g, h.yAxis.bins, axis, binI, first, binJ)
    {
      var v;
      if axis == X {
        v := CellOf(h, binI, binJ);
      } else {
        v := CellOf(h, binJ, binI);
      }
      LineOneMore(g, h.yAxis.bins, axis, binI, first, binJ);
      value := value + v;
      binJ := binJ + 1;
    }
  }

  /** What has been written after `n` bins. */
  ghost predicate Written(g: seq<seq<real>>, ny: nat, axis: Axis, s: Selection, n: nat, data: seq<real>)
    requires IsGrid(g, ny) && s.x1 <= |g| && s.y1 <= ny && Ordered(s, axis)
  {
    var p := Projected(g, ny, axis, s.x0, s.x1, s.y0, s.y1);
    |data| == |p| && n <= |p| && data[..n] == p[..n]
  }

  /** The n-th bin of the projection. */
  function BinValue(g: seq<seq<real>>, ny: nat, axis: Axis, s: Selection, n: nat): real
    requires IsGrid(g, ny) && s.x1 <= |g| && s.y1 <= ny && n < (if axis == X then s.x1 - s.x0 else s.y1 - s.y0)
  {
    if axis == X then Line(g, ny, X, s.x0 + n, s.y0, s.y1) else Line(g, ny, Y, s.y0 + n, s.x0, s.x1)
  }

  lemma OneMoreBin(g: seq<seq<real>>, ny: nat, axis: Axis, s: Selection, n: nat,
                   data: seq<real>, value: real)
    requires IsGrid(g, ny) && s.x1 <= |g| && s.y1 <= ny && Ordered(s, axis)
    requires Written(g, ny, axis, s, n, data) && n < |data|
    requires value == BinValue(g, ny, axis, s, n)
    ensures Written(g, ny, axis, s, n + 1, data[n := value])
  {
    var p := Projected(g, ny, axis, s.x0, s.x1, s.y0, s.y1);
    assert p[n] == value;
    assert data[n := value][..n + 1] == data[..n] + [value];
    assert p[..n + 1] == p[..n] + [p[n]];
  }

  method Store(result: Histo1D, destBin: nat, value: real, ghost g: seq<seq<real>>, ghost ny: nat, axis: Axis,
               s: Selection)
    requires result.Valid() && IsGrid(g, ny) && s.x1 <= |g| && s.y1 <= ny && Ordered(s, axis)
    requires Written(g, ny, axis, s, destBin, result.data[..]) && destBin < result.binning.bins
    requires value == BinValue(g, ny, axis, s, destBin)
    modifies result.data
    ensures Written(g, ny, axis, s, destBin + 1, result.data[..])
  {
    OneMoreBin(g, ny, axis, s, destBin, result.data[..], value);
    var _ := result.SetBinContent(destBin, value);
  }

  lemma AllWritten(g: seq<seq<real>>, ny: nat, axis: Axis, s: Selection, data: seq<real>)
    requires IsGrid(g, ny) && s.x1 <= |g| && s.y1 <= ny && Ordered(s, axis) && Written(g, ny, axis, s, |data|, data)
    ensures data == Projected(g, ny, axis, s.x0, s.x1, s.y0, s.y1)
  {
    assert data[..|data|] == data;
  }

  method BinOf(h: Histo2D, axis: Axis, s: Selection, n: nat) returns (value: real)
    requires h.Valid() && s.x0 < h.xAxis.bins && s.y0 < h.yAxis.bins && s.x1 <= h.xAxis.bins && s.y1 <= h.yAxis.bins
    requires n < (if axis == X then s.x1 - s.x0 else s.y1 - s.y0)
    ensures value == BinValue(Grid(h.data[..], h.xAxis.bins, h.yAxis.bins), h.yAxis.bins, axis, s, n)
  {
    if axis == X {
      value := SumLine(h, axis, s.x0 + n, s.y0, s.y1);
    } else {
      value := SumLine(h, axis, s.y0 + n, s.x0, s.x1);
    }
  }

  /** How many bins of the axis that is kept are summed. */
  function Summed(s: Selection, axis: Axis): nat {
    if !Ordered(s, axis) then 0 else if axis == X then s.x1 - s.x0 else s.y1 - s.y0
  }

  method MakeProjection(h: Histo2D, axis: Axis, w: Window) returns (result: Histo1D)
    requires h.Valid() && h.Measures() && h.xAxis.bins > 0 && h.yAxis.bins > 0
    ensures result.Valid() && fresh(result) && fresh(result.data)
    ensures IsProjection(h.xAxis, h.yAxis, Grid(h.data[..], h.xAxis.bins, h.yAxis.bins), axis, w,
                         result.binning, result.data[..])
  {
    ghost var g := Grid(h.data[..], h.xAxis.bins, h.yAxis.bins);
    var s := Select(h.xAxis, h.yAxis, w);
    var binning := if axis == X then ProjectedAxis(h.xAxis, s.x0, s.x1) else ProjectedAxis(h.yAxis, s.y0, s.y1);
    result := new Histo1D(binning.bins, binning.min, binning.max);
    for destBin := 0 to Summed(s, axis)
      invariant result.Valid() && result.binning == binning && fresh(result.data)
      invariant Ordered(s, axis) ==> Written(g, h.yAxis.bins, axis, s, destBin, result.data[..])
      invariant destBin == 0 ==> result.data[..] == Zeros(binning.bins)
    {
      var value := BinOf(h, axis, s, destBin);
      Store(result, destBin, value, g, h.yAxis.bins, axis, s);
    }
    if Ordered(s, axis) {
      AllWritten(g, h.yAxis.bins, axis, s, result.data[..]);
    }
  }

  // ---------------------------------------------------------------------
  // The combined view of a list of histograms

  ghost predicate SameBinning(hs: seq<Histo1D>)
    reads hs
  {
    |hs| > 0 && hs[0].binning.bins > 0 && forall i :: 0 <= i < |hs| ==> hs[i].Valid() && hs[i].binning == hs[0].binning
  }

  /** The histograms as columns. */
  ghost function ListGrid(hs: seq<Histo1D>): (g: seq<seq<real>>)
    requires SameBinning(hs)
    reads hs, set i | 0 <= i < |hs| :: hs[i].data
    ensures |g| == |hs| && IsGrid(g, hs[0].binning.bins) && forall i :: 0 <= i < |hs| ==> g[i] == hs[i].data[..]
  {
    seq(|hs|, i requires 0 <= i < |hs| reads hs, set k | 0 <= k < |hs| :: hs[k].data => hs[i].data[..])
  }

  /** The artificial axis of the combined view. */
  function ListAxis(n: nat): AxisBinning { AxisBinning(n, 0.0, n as real) }

  method ListCell(hs: seq<Histo1D>, axis: Axis, binI: nat, binJ: nat) returns (v: real)
    requires SameBinning(hs) && Within(ListGrid(hs), hs[0].binning.bins, axis, binI, binJ)
    ensures v == At(ListGrid(hs), hs[0].binning.bins, axis, binI, binJ)
  {
    if axis == X {
      v := hs[binI].GetBinContent(binJ, NO_RR);
    } else {
      v := hs[binJ].GetBinContent(binI, NO_RR);
    }
  }

  method SumListLine(hs: seq<Histo1D>, axis: Axis, binI: nat, first: nat, end: nat) returns (value: real)
    requires SameBinning(hs) && first <= (if axis == X then hs[0].binning.bins else |hs|)
    requires if axis == X then binI < |hs| && end <= hs[0].binning.bins else binI < hs[0].binning.bins && end <= |hs|
    ensures value == Line(ListGrid(hs), hs[0].binning.bins, axis, binI, first, end)
  {
    ghost var g, ny := ListGrid(hs), hs[0].binning.bins;
    value := 0.0;
    var binJ := first;
    while binJ < end
      invariant first <= binJ && (binJ <= end || binJ == first)
      invariant binJ <= (if axis == X then ny else |g|)
      invariant value == Line(g, ny, axis, binI, first, binJ)
    {
      assert Within(g, ny, axis, binI, binJ);
      var v := ListCell(hs, axis, binI, binJ);
      LineOneMore(g, ny, axis, binI, first, binJ);
      value := value + v;
      binJ := binJ + 1;
    }
  }

  method ListBinOf(hs: seq<Histo1D>, axis: Axis, s: Selection, n: nat) returns (value: real)
    requires SameBinning(hs) && s.x0 < |hs| && s.y0 < hs[0].binning.bins && s.x1 <= |hs| && s.y1 <= hs[0].binning.bins
    requires n < (if axis == X then s.x1 - s.x0 else s.y1 - s.y0)
    ensures value == BinValue(ListGrid(hs), hs[0].binning.bins, axis, s, n)
  {
    if axis == X {
      value := SumListLine(hs, axis, s.x0 + n, s.y0, s.y1);
    } else {
      value := SumListLine(hs, axis, s.y0 + n, s.x0, s.x1);
    }
  }

  method MakeListProjection(hs: seq<Histo1D>, axis: Axis, w: Window) returns (result: Histo1D)
    requires SameBinning(hs) && hs[0].binning.min != hs[0].binning.max
    ensures result.Valid() && fresh(result) && fresh(result.data)
    ensures SameBinning(hs)
    ensures IsProjection(ListAxis(|hs|), hs[0].binning, ListGrid(hs), axis, w, result.binning, result.data[..])
  {
    ghost var g := ListGrid(hs);
    var xBinning, yBinning := ListAxis(|hs|), hs[0].binning;
    var s := Select(xBinning, yBinning, w);
    var binning := if axis == X then ProjectedAxis(xBinning, s.x0, s.x1) else ProjectedAxis(yBinning, s.y0, s.y1);
    result := new Histo1D(binning.bins, binning.min, binning.max);
    for destBin := 0 to Summed(s, axis)
      invariant result.Valid() && result.binning == binning && fresh(result) && fresh(result.data)
      invariant Ordered(s, axis) ==> Written(g, yBinning.bins, axis, s, destBin, result.data[..])
      invariant destBin == 0 ==> result.data[..] == Zeros(binning.bins)
    {
      var value := ListBinOf(hs, axis, s, destBin);
      Store(result, destBin, value, g, yBinning.bins, axis, s);
    }
    if Ordered(s, axis) {
      AllWritten(g, yBinning.bins, axis, s, result.data[..]);
    }
  }

  // ---------------------------------------------------------------------
  // Both overloads

  lemma {:induction false} NothingBetween(g: seq<seq<real>>, ny: nat, x0: nat, x1: nat, y0: nat, y1: nat)
    requires IsGrid(g, ny) && x1 <= |g| && y1 <= ny && (x1 <= x0 || y1 <= y0)
    ensures RectSum(g, ny, x0, x1, y0, y1) == 0.0
    decreases y1
  {
    if y0 < y1 {
      NothingBetween(g, ny, x0, x1, y0, y1 - 1);
    }
  }

  /** The projection of any window, even one the wrong way round, holds the content of its rectangle. */
  lemma WindowTotal(ax: AxisBinning, ay: AxisBinning, g: seq<seq<real>>, axis: Axis, w: Window,
                    binning: AxisBinning, data: seq<real>)
    requires ax.min != ax.max && ax.bins > 0 && ay.min != ay.max && ay.bins > 0
    requires |g| == ax.bins && IsGrid(g, ay.bins) && IsProjection(ax, ay, g, axis, w, binning, data)
    ensures var s := Select(ax, ay, w); Sum(data) == RectSum(g, ay.bins, s.x0, s.x1, s.y0, s.y1)
  {
    var s := Select(ax, ay, w);
    if !Ordered(s, axis) {
      SumZeros(binning.bins);
      NothingBetween(g, ay.bins, s.x0, s.x1, s.y0, s.y1);
    } else if axis == X {
      XTotal(g, ay.bins, s.x0, s.x1, s.y0, s.y1);
    } else {
      YTotal(g, ay.bins, s.x0, s.x1, s.y0, s.y1);
    }
  }

  /** So X and Y projections of one window have equal totals. */
  lemma WindowTotals(ax: AxisBinning, ay: AxisBinning, g: seq<seq<real>>, w: Window,
                     binX: AxisBinning, dataX: seq<real>, binY: AxisBinning, dataY: seq<real>)
    requires ax.min != ax.max && ax.bins > 0 && ay.min != ay.max && ay.bins > 0 && |g| == ax.bins && IsGrid(g, ay.bins)
    requires IsProjection(ax, ay, g, X, w, binX, dataX) && IsProjection(ax, ay, g, Y, w, binY, dataY)
    ensures var s := Select(ax, ay, w);
            Sum(dataX) == Sum(dataY) == RectSum(g, ay.bins, s.x0, s.x1, s.y0, s.y1)
  {
    WindowTotal(ax, ay, g, X, w, binX, dataX);
    WindowTotal(ax, ay, g, Y, w, binY, dataY);
  }

  /** The projection of the combined view is, axis and bin by bin, that of the two-dimensional
      histogram whose columns are the histograms of the list. */
  lemma OverloadsAgree(h: Histo2D, hs: seq<Histo1D>, axis: Axis, w: Window,
                       bin2: AxisBinning, data2: seq<real>, binL: AxisBinning, dataL: seq<real>)
    requires h.Valid() && SameBinning(hs) && h.xAxis == ListAxis(|hs|) && h.yAxis == hs[0].binning && h.Measures()
    requires forall x {:trigger hs[x]} :: 0 <= x < |hs| ==>
               Column(h.data[..], h.xAxis.bins, h.yAxis.bins, x) == hs[x].data[..]
    requires IsProjection(h.xAxis, h.yAxis, Grid(h.data[..], h.xAxis.bins, h.yAxis.bins), axis, w, bin2, data2)
    requires IsProjection(ListAxis(|hs|), hs[0].binning, ListGrid(hs), axis, w, binL, dataL)
    ensures bin2 == binL && data2 == dataL
  {
    var g := Grid(h.data[..], h.xAxis.bins, h.yAxis.bins);
    forall x | 0 <= x < |hs| ensures g[x] == ListGrid(hs)[x] {
      assert g[x] == Column(h.data[..], h.xAxis.bins, h.yAxis.bins, x) && hs[x].Valid();
    }
    assert g == ListGrid(hs);
  }
}

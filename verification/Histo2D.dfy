/** Two-dimensional histograms: row-major storage, filling, and reading at a reduced resolution. */
module Histogram2D {
  import opened AxisBinnings
  import opened Histogram1D

  // ---------------------------------------------------------------------
  // Row-major storage

  function Linear(nx: nat, x: nat, y: nat): nat { y * nx + x }

  /** Every cell has its place in the storage. */
  lemma LinearInRange(nx: nat, ny: nat, x: nat, y: nat)
    requires x < nx && y < ny
    ensures Linear(nx, x, y) < nx * ny
  {
    Multiples(ny - y, nx);
    assert (ny - y) * nx == ny * nx - y * nx;
  }

  /** And no two cells share one. */
  lemma LinearInjective(nx: nat, x: nat, y: nat, x': nat, y': nat)
    requires x < nx && x' < nx
    ensures Linear(nx, x, y) == Linear(nx, x', y') <==> x == x' && y == y'
  {
    Multiples(y - y', nx);
    assert (y - y') * nx == y * nx - y' * nx;
  }

  /** The cells as columns: `Grid(..)[x][y]`. */
  function Grid(data: seq<real>, nx: nat, ny: nat): (g: seq<seq<real>>)
    requires |data| == nx * ny
    ensures |g| == nx && forall x :: 0 <= x < nx ==> |g[x]| == ny
  {
    seq(nx, x requires 0 <= x < nx => Column(data, nx, ny, x))
  }

  function Column(data: seq<real>, nx: nat, ny: nat, x: nat): (c: seq<real>)
    requires |data| == nx * ny && x < nx
    ensures |c| == ny
  {
    seq(ny, y requires 0 <= y < ny => (LinearInRange(nx, ny, x, y); data[Linear(nx, x, y)]))
  }

  lemma GridAt(data: seq<real>, nx: nat, ny: nat, x: nat, y: nat)
    requires |data| == nx * ny && x < nx && y < ny
    ensures Linear(nx, x, y) < |data| && Grid(data, nx, ny)[x][y] == data[Linear(nx, x, y)]
  {
    LinearInRange(nx, ny, x, y);
  }

  /** Changing one element of the storage changes that cell only. */
  lemma GridUpdate(data: seq<real>, nx: nat, ny: nat, x: nat, y: nat, v: real)
    requires |data| == nx * ny && x < nx && y < ny
    ensures Linear(nx, x, y) < |data|
    ensures var g := Grid(data, nx, ny);
            Grid(data[Linear(nx, x, y) := v], nx, ny) == g[x := g[x][y := v]]
  {
    LinearInRange(nx, ny, x, y);
    var i := Linear(nx, x, y);
    var g, h := Grid(data, nx, ny), Grid(data[i := v], nx, ny);
    forall x' | 0 <= x' < nx ensures h[x'] == g[x := g[x][y := v]][x'] {
      forall y' | 0 <= y' < ny ensures h[x'][y'] == g[x := g[x][y := v]][x'][y'] {
        GridAt(data, nx, ny, x', y');
        GridAt(data[i := v], nx, ny, x', y');
        LinearInjective(nx, x, y, x', y');
      }
    }
  }

  // ---------------------------------------------------------------------
  // Contents

  datatype Cells = Cells(data: seq<real>, underflow: real, overflow: real)

  function EmptyCells(nx: nat, ny: nat): Cells { Cells(Zeros(nx * ny), 0.0, 0.0) }

  /** The contents after one more entry: underflow on either axis comes before overflow on either. */
  function FilledCells(ax: AxisBinning, ay: AxisBinning, c: Cells, x: real, y: real, weight: real): (d: Cells)
    requires Placed(ax, x, NO_RR) && Placed(ay, y, NO_RR) && |c.data| == ax.bins * ay.bins
    ensures |d.data| == |c.data|
  {
    var binX, binY := GetBin(ax, x, NO_RR), GetBin(ay, y, NO_RR);
    if binX == UNDERFLOW || binY == UNDERFLOW then c.(underflow := c.underflow + weight)
    else if binX == OVERFLOW || binY == OVERFLOW then c.(overflow := c.overflow + weight)
    else if 0 <= binX < ax.bins && 0 <= binY < ay.bins then
      LinearInRange(ax.bins, ay.bins, binX, binY);
      var i := Linear(ax.bins, binX, binY);
      c.(data := c.data[i := c.data[i] + weight])
    else c
  }

  datatype Factors = Factors(x: nat, y: nat)

  function Factor(rrf: nat): (f: nat)
    ensures f > 0
  {
    if rrf == NO_RR then 1 else rrf
  }

  /** qBound */
  function Bound(lo: int, v: int, hi: int): int {
    var m := if v < hi then v else hi;
    if lo < m then m else lo
  }

  /** The physical bins that an input bin stands for. */
  function First(inputBin: nat, rrf: nat, bins: nat): nat { Bound(0, inputBin * Factor(rrf), bins - 1) }

  function End(inputBin: nat, rrf: nat, bins: nat): int { Bound(0, inputBin * Factor(rrf) + Factor(rrf), bins) }

  predicate IsGrid(g: seq<seq<real>>, ny: nat) { forall x :: 0 <= x < |g| ==> |g[x]| == ny }

  /** Sum of a part of a row, and of a rectangle row by row. */
  function RowSum(g: seq<seq<real>>, ny: nat, x0: nat, x1: int, y: nat): real
    requires IsGrid(g, ny) && x1 <= |g| && y < ny
    decreases x1 - x0
  {
    if x1 <= x0 then 0.0 else RowSum(g, ny, x0, x1 - 1, y) + g[x1 - 1][y]
  }

  function RectSum(g: seq<seq<real>>, ny: nat, x0: nat, x1: int, y0: nat, y1: int): real
    requires IsGrid(g, ny) && x1 <= |g| && y1 <= ny
    decreases y1 - y0
  {
    if y1 <= y0 then 0.0 else RectSum(g, ny, x0, x1, y0, y1 - 1) + RowSum(g, ny, x0, x1, y1 - 1)
  }

  class Histo2D {
    var xAxis: AxisBinning
    var yAxis: AxisBinning
    var data: array<real>
    var underflow: real
    var overflow: real

    ghost predicate Valid()
      reads this
    {
      data.Length == xAxis.bins * yAxis.bins
    }

    /** Both axes have distinct ends: positions on them mean something. */
    predicate Measures()
      reads this
    {
      xAxis.min != xAxis.max && yAxis.min != yAxis.max
    }

    ghost function Now(): Cells
      reads this, data
    {
      Cells(data[..], underflow, overflow)
    }

    constructor (xAxis: AxisBinning, yAxis: AxisBinning)
      ensures Valid() && fresh(data) && this.xAxis == xAxis && this.yAxis == yAxis
      ensures Now() == EmptyCells(xAxis.bins, yAxis.bins)
    {
      this.xAxis, this.yAxis := xAxis, yAxis;
      data := new real[xAxis.bins * yAxis.bins];
      new;
      Clear();
    }

    method Clear()
      requires Valid()
      modifies this`underflow, this`overflow, data
      ensures Now() == EmptyCells(xAxis.bins, yAxis.bins)
    {
      var binCount := xAxis.bins * yAxis.bins;
      for i := 0 to binCount
        invariant forall k :: 0 <= k < i ==> data[k] == 0.0
      {
        data[i] := 0.0;
      }
      assert data[..] == Zeros(binCount);
      underflow, overflow := 0.0, 0.0;
    }

    /** The storage is kept if the number of cells stays the same; the contents never are. */
    method Resize(xBins: nat, yBins: nat)
      requires Valid() && xBins > 0 && yBins > 0
      modifies this, data
      ensures Valid() && xAxis == old(xAxis).(bins := xBins) && yAxis == old(yAxis).(bins := yBins)
      ensures Now() == EmptyCells(xBins, yBins)
      ensures if xBins * yBins == old(data.Length) then data == old(data) else fresh(data)
    {
      if xBins * yBins != xAxis.bins * yAxis.bins {
        data := new real[xBins * yBins];
      }
      xAxis := xAxis.(bins := xBins);
      yAxis := yAxis.(bins := yBins);
      Clear();
    }

    method Fill(x: real, y: real, weight: real)
      requires Valid() && Placed(xAxis, x, NO_RR) && Placed(yAxis, y, NO_RR)
      modifies this`underflow, this`overflow, data
      ensures Now() == FilledCells(xAxis, yAxis, old(Now()), x, y, weight)
    {
      var xBin := GetBin(xAxis, x, NO_RR);
      var yBin := GetBin(yAxis, y, NO_RR);
      FloorInRange(xAxis, x);
      FloorInRange(yAxis, y);
      if xBin == UNDERFLOW || yBin == UNDERFLOW {
        underflow := underflow + weight;
      } else if xBin == OVERFLOW || yBin == OVERFLOW {
        overflow := overflow + weight;
      } else {
        LinearInRange(xAxis.bins, yAxis.bins, xBin, yBin);
        var linearBin := yBin * xAxis.bins + xBin;
        data[linearBin] := data[linearBin] + weight;
      }
    }

    method GetBinContent(xInputBin: nat, yInputBin: nat, rrf: Factors) returns (result: real)
      requires Valid() && xAxis.bins > 0 && yAxis.bins > 0
      ensures result == RectSum(Grid(data[..], xAxis.bins, yAxis.bins), yAxis.bins,
                                First(xInputBin, rrf.x, xAxis.bins), End(xInputBin, rrf.x, xAxis.bins),
                                First(yInputBin, rrf.y, yAxis.bins), End(yInputBin, rrf.y, yAxis.bins))
    {
      var ix1, ix2 := First(xInputBin, rrf.x, xAxis.bins), End(xInputBin, rrf.x, xAxis.bins);
      var iy1, iy2 := First(yInputBin, rrf.y, yAxis.bins), End(yInputBin, rrf.y, yAxis.bins);
      ghost var g := Grid(data[..], xAxis.bins, yAxis.bins);
      result := 0.0;
      var iy := iy1;
      while iy < iy2
        invariant iy1 <= iy && (iy <= iy2 || iy == iy1)
        invariant result == RectSum(g, yAxis.bins, ix1, ix2, iy1, iy)
      {
        var row := AddRow(ix1, ix2, iy, result);
        result := row;
        iy := iy + 1;
      }
    }

    method GetValue(x: real, y: real, rrf: Factors) returns (value: real)
      requires Valid() && Placed(xAxis, x, rrf.x) && Placed(yAxis, y, rrf.y) && xAxis.bins > 0 && yAxis.bins > 0
      ensures var binX, binY := GetBin(xAxis, x, rrf.x), GetBin(yAxis, y, rrf.y);
              value == if binX < 0 || binY < 0 then 0.0
                       else RectSum(Grid(data[..], xAxis.bins, yAxis.bins), yAxis.bins,
                                    First(binX, rrf.x, xAxis.bins), End(binX, rrf.x, xAxis.bins),
                                    First(binY, rrf.y, yAxis.bins), End(binY, rrf.y, yAxis.bins))
    {
      var binX := GetBin(xAxis, x, rrf.x);
      var binY := GetBin(yAxis, y, rrf.y);
      if binX < 0 || binY < 0 {
        return 0.0;
      }
      value := GetBinContent(binX, binY, rrf);
    }

    method Cell(x: nat, y: nat) returns (v: real)
      requires Valid() && x < xAxis.bins && y < yAxis.bins
      ensures v == Grid(data[..], xAxis.bins, yAxis.bins)[x][y]
    {
      GridAt(data[..], xAxis.bins, yAxis.bins, x, y);
      v := data[y * xAxis.bins + x];
    }

    method AddRow(ix1: nat, ix2: int, iy: nat, sum: real) returns (result: real)
      requires Valid() && ix1 <= xAxis.bins && ix2 <= xAxis.bins && iy < yAxis.bins
      ensures result == sum + RowSum(Grid(data[..], xAxis.bins, yAxis.bins), yAxis.bins, ix1, ix2, iy)
    {
      ghost var g := Grid(data[..], xAxis.bins, yAxis.bins);
      result := sum;
      var ix := ix1;
      while ix < ix2
        invariant ix1 <= ix <= xAxis.bins && (ix <= ix2 || ix == ix1)
        invariant result == sum + RowSum(g, yAxis.bins, ix1, ix, iy)
      {
        var v := Cell(ix, iy);
        result := result + v;
        ix := ix + 1;
      }
    }
  }
}

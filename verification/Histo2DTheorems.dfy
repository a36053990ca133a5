/** What the contents of a two-dimensional histogram say about what was filled into it. */
module Histo2DTheorems {
  import opened AxisBinnings
  import opened Histogram1D
  import opened Histogram2D
  import T = Histo1DTheorems

  datatype Entry = Entry(x: real, y: real, weight: real)

  datatype Place = Under | Over | At(x: int, y: int)

  /** Where an entry belongs: outside as soon as one coordinate is, and below before above. */
  function PlaceOf(ax: AxisBinning, ay: AxisBinning, e: Entry): Place
    requires ax.min != ax.max && ay.min != ay.max
  {
    var i, j := GetBin(ax, e.x, NO_RR), GetBin(ay, e.y, NO_RR);
    if i == UNDERFLOW || j == UNDERFLOW then Under
    else if i == OVERFLOW || j == OVERFLOW then Over
    else At(i, j)
  }

  function AfterFills(ax: AxisBinning, ay: AxisBinning, entries: seq<Entry>): (c: Cells)
    requires ax.min != ax.max && ay.min != ay.max
    ensures |c.data| == ax.bins * ay.bins
  {
    if entries == [] then EmptyCells(ax.bins, ay.bins)
    else
      var last := entries[|entries| - 1];
      FilledCells(ax, ay, AfterFills(ax, ay, entries[..|entries| - 1]), last.x, last.y, last.weight)
  }

  function WeightIn(ax: AxisBinning, ay: AxisBinning, entries: seq<Entry>, p: Place): real
    requires ax.min != ax.max && ay.min != ay.max
  {
    if entries == [] then 0.0
    else
      var last := entries[|entries| - 1];
      WeightIn(ax, ay, entries[..|entries| - 1], p) + (if PlaceOf(ax, ay, last) == p then last.weight else 0.0)
  }

  function Weight(entries: seq<Entry>): real {
    if entries == [] then 0.0 else Weight(entries[..|entries| - 1]) + entries[|entries| - 1].weight
  }

  lemma OneFill(ax: AxisBinning, ay: AxisBinning, c: Cells, e: Entry, x: nat, y: nat)
    requires ax.min != ax.max && ay.min != ay.max && |c.data| == ax.bins * ay.bins && x < ax.bins && y < ay.bins
    ensures var d, p := FilledCells(ax, ay, c, e.x, e.y, e.weight), PlaceOf(ax, ay, e);
            && Grid(d.data, ax.bins, ay.bins)[x][y]
                 == Grid(c.data, ax.bins, ay.bins)[x][y] + (if p == At(x, y) then e.weight else 0.0)
            && d.underflow == c.underflow + (if p == Under then e.weight else 0.0)
            && d.overflow == c.overflow + (if p == Over then e.weight else 0.0)
  {
    FloorInRange(ax, e.x);
    FloorInRange(ay, e.y);
    var p := PlaceOf(ax, ay, e);
    if p.At? {
      var i := Linear(ax.bins, p.x, p.y);
      GridAt(c.data, ax.bins, ay.bins, p.x, p.y);
      GridUpdate(c.data, ax.bins, ay.bins, p.x, p.y, c.data[i] + e.weight);
    }
  }

  /** Each cell holds the weight of exactly the entries that belong to it. */
  lemma {:induction false} FillsMeaning(ax: AxisBinning, ay: AxisBinning, entries: seq<Entry>, x: nat, y: nat)
    requires ax.min != ax.max && ay.min != ay.max && x < ax.bins && y < ay.bins
    ensures var c := AfterFills(ax, ay, entries);
            && Grid(c.data, ax.bins, ay.bins)[x][y] == WeightIn(ax, ay, entries, At(x, y))
            && c.underflow == WeightIn(ax, ay, entries, Under) && c.overflow == WeightIn(ax, ay, entries, Over)
  {
    if entries == [] {
      GridAt(Zeros(ax.bins * ay.bins), ax.bins, ay.bins, x, y);
    } else {
      var n := |entries| - 1;
      FillsMeaning(ax, ay, entries[..n], x, y);
      OneFill(ax, ay, AfterFills(ax, ay, entries[..n]), entries[n], x, y);
    }
  }

  lemma FillConserves(ax: AxisBinning, ay: AxisBinning, c: Cells, e: Entry)
    requires ax.min != ax.max && ay.min != ay.max && |c.data| == ax.bins * ay.bins
    ensures var d := FilledCells(ax, ay, c, e.x, e.y, e.weight);
            Sum(d.data) + d.underflow + d.overflow == Sum(c.data) + c.underflow + c.overflow + e.weight
  {
    FloorInRange(ax, e.x);
    FloorInRange(ay, e.y);
    var p := PlaceOf(ax, ay, e);
    if p.At? {
      LinearInRange(ax.bins, ay.bins, p.x, p.y);
      SumAdded(c.data, Linear(ax.bins, p.x, p.y), e.weight);
    }
  }

  /** No weight is lost or counted twice over any sequence of fills. */
  lemma {:induction false} WeightConserved(ax: AxisBinning, ay: AxisBinning, entries: seq<Entry>)
    requires ax.min != ax.max && ay.min != ay.max
    ensures var c := AfterFills(ax, ay, entries);
            Sum(c.data) + c.underflow + c.overflow == Weight(entries)
  {
    if entries == [] {
      SumZeros(ax.bins * ay.bins);
    } else {
      var n := |entries| - 1;
      WeightConserved(ax, ay, entries[..n]);
      FillConserves(ax, ay, AfterFills(ax, ay, entries[..n]), entries[n]);
    }
  }

  // ---------------------------------------------------------------------
  // Rectangles

  function ColSum(g: seq<seq<real>>, ny: nat, x: nat, y0: nat, y1: int): real
    requires IsGrid(g, ny) && x < |g| && y1 <= ny
    decreases y1 - y0
  {
    if y1 <= y0 then 0.0 else ColSum(g, ny, x, y0, y1 - 1) + g[x][y1 - 1]
  }

  /** A rectangle is one column and the rest of it. */
  lemma {:induction false} LastColumn(g: seq<seq<real>>, ny: nat, x0: nat, x1: nat, y0: nat, y1: nat)
    requires IsGrid(g, ny) && x0 < x1 <= |g| && y1 <= ny
    ensures RectSum(g, ny, x0, x1, y0, y1) == RectSum(g, ny, x0, x1 - 1, y0, y1) + ColSum(g, ny, x1 - 1, y0, y1)
    decreases y1
  {
    if y0 < y1 {
      LastColumn(g, ny, x0, x1, y0, y1 - 1);
    }
  }

  lemma {:induction false} NoColumns(g: seq<seq<real>>, ny: nat, x0: nat, y0: nat, y1: nat)
    requires IsGrid(g, ny) && x0 <= |g| && y1 <= ny
    ensures RectSum(g, ny, x0, x0, y0, y1) == 0.0
    decreases y1
  {
    if y0 < y1 {
      NoColumns(g, ny, x0, y0, y1 - 1);
    }
  }

  lemma {:induction false} JoinX(g: seq<seq<real>>, ny: nat, x0: nat, x1: nat, x2: nat, y0: nat, y1: nat)
    requires IsGrid(g, ny) && x0 <= x1 <= x2 <= |g| && y1 <= ny
    ensures RectSum(g, ny, x0, x2, y0, y1) == RectSum(g, ny, x0, x1, y0, y1) + RectSum(g, ny, x1, x2, y0, y1)
    decreases x2
  {
    if x1 < x2 {
      JoinX(g, ny, x0, x1, x2 - 1, y0, y1);
      LastColumn(g, ny, x0, x2, y0, y1);
      LastColumn(g, ny, x1, x2, y0, y1);
    } else {
      NoColumns(g, ny, x1, y0, y1);
    }
  }

  lemma {:induction false} JoinY(g: seq<seq<real>>, ny: nat, x0: nat, x1: nat, y0: nat, y1: nat, y2: nat)
    requires IsGrid(g, ny) && x1 <= |g| && y0 <= y1 <= y2 <= ny
    ensures RectSum(g, ny, x0, x1, y0, y2) == RectSum(g, ny, x0, x1, y0, y1) + RectSum(g, ny, x0, x1, y1, y2)
    decreases y2
  {
    if y1 < y2 {
      JoinY(g, ny, x0, x1, y0, y1, y2 - 1);
    }
  }

  // ---------------------------------------------------------------------
  // Resolution reduction

  /** For a factor that divides the number of bins an input bin stands for its group; without
      reduction it stands for itself. */
  lemma GroupBounds(bins: nat, rrf: nat, b: nat)
    requires b < bins / Factor(rrf)
    ensures var f := Factor(rrf);
            b * f + f <= bins && First(b, rrf, bins) == b * f && End(b, rrf, bins) == b * f + f
  {
    T.GroupFits(bins, Factor(rrf), b);
  }

  /** An input bin beyond the end is not empty as in one dimension: it reads the last physical bin. */
  lemma BeyondTheEnd(bins: nat, rrf: nat, b: nat)
    requires bins > 0 && b * Factor(rrf) >= bins
    ensures First(b, rrf, bins) == bins - 1 && End(b, rrf, bins) == bins
  {
  }

  /** Content of a reduced bin. */
  function Content(g: seq<seq<real>>, ny: nat, i: nat, j: nat, rrf: Factors): real
    requires IsGrid(g, ny)
  {
    RectSum(g, ny, First(i, rrf.x, |g|), End(i, rrf.x, |g|), First(j, rrf.y, ny), End(j, rrf.y, ny))
  }

  /** The first `m` reduced bins of row `j`, and the first `n` such rows. */
  function ReducedRow(g: seq<seq<real>>, ny: nat, m: nat, j: nat, rrf: Factors): real
    requires IsGrid(g, ny)
  {
    if m == 0 then 0.0 else ReducedRow(g, ny, m - 1, j, rrf) + Content(g, ny, m - 1, j, rrf)
  }

  function ReducedRows(g: seq<seq<real>>, ny: nat, m: nat, n: nat, rrf: Factors): real
    requires IsGrid(g, ny)
  {
    if n == 0 then 0.0 else ReducedRows(g, ny, m, n - 1, rrf) + ReducedRow(g, ny, m, n - 1, rrf)
  }

  lemma {:induction false} RowOfGroups(g: seq<seq<real>>, ny: nat, m: nat, j: nat, rrf: Factors, fx: nat, fy: nat)
    requires IsGrid(g, ny) && fx == Factor(rrf.x) && fy == Factor(rrf.y) && m <= |g| / fx && j < ny / fy
    ensures m * fx <= |g| && j * fy + fy <= ny
    ensures ReducedRow(g, ny, m, j, rrf) == RectSum(g, ny, 0, m * fx, j * fy, j * fy + fy)
  {
    GroupBounds(ny, rrf.y, j);
    var y0 := j * fy;
    if m == 0 {
      NoColumns(g, ny, 0, y0, y0 + fy);
    } else {
      RowOfGroups(g, ny, m - 1, j, rrf, fx, fy);
      GroupBounds(|g|, rrf.x, m - 1);
      var x := (m - 1) * fx;
      assert m * fx == x + fx;
      JoinX(g, ny, 0, x, x + fx, y0, y0 + fy);
    }
  }

  lemma {:induction false} RowsOfGroups(g: seq<seq<real>>, ny: nat, n: nat, rrf: Factors, fx: nat, fy: nat)
    requires IsGrid(g, ny) && fx == Factor(rrf.x) && fy == Factor(rrf.y) && n <= ny / fy
    ensures n * fy <= ny
    ensures ReducedRows(g, ny, |g| / fx, n, rrf) == RectSum(g, ny, 0, T.Grouped(|g|, fx), 0, n * fy)
  {
    if n > 0 {
      RowsOfGroups(g, ny, n - 1, rrf, fx, fy);
      RowOfGroups(g, ny, |g| / fx, n - 1, rrf, fx, fy);
      var y := (n - 1) * fy;
      assert n * fy == y + fy;
      JoinY(g, ny, 0, T.Grouped(|g|, fx), 0, y, y + fy);
    }
  }

  /** All reduced cells together hold what all cells do that fill whole groups on both axes, whichever
      axes are reduced: for factors that divide the bin counts all of them. */
  lemma ReducedTotal(g: seq<seq<real>>, ny: nat, rrf: Factors)
    requires IsGrid(g, ny)
    ensures var fx, fy := Factor(rrf.x), Factor(rrf.y);
            && ReducedRows(g, ny, |g| / fx, ny / fy, rrf) == RectSum(g, ny, 0, T.Grouped(|g|, fx), 0, T.Grouped(ny, fy))
            && (|g| % fx == 0 && ny % fy == 0 ==>
                  ReducedRows(g, ny, |g| / fx, ny / fy, rrf) == RectSum(g, ny, 0, |g|, 0, ny))
  {
    var fx, fy := Factor(rrf.x), Factor(rrf.y);
    RowsOfGroups(g, ny, ny / fy, rrf, fx, fy);
  }

  /** The value read at (x, y) is the sum of the rectangle of physical bins that are grouped with
      the ones of x and y on their axes, whichever axes are reduced. */
  lemma ReducedValue(ax: AxisBinning, ay: AxisBinning, g: seq<seq<real>>, x: real, y: real, rrf: Factors)
    requires Proper(ax) && Proper(ay) && |g| == ax.bins && IsGrid(g, ay.bins)
    requires ax.bins % Factor(rrf.x) == 0 && ay.bins % Factor(rrf.y) == 0
    requires ax.min <= x < ax.max && ay.min <= y < ay.max
    ensures var i, j := GetBin(ax, x, NO_RR), GetBin(ay, y, NO_RR);
            var fx, fy := Factor(rrf.x), Factor(rrf.y);
            && i >= 0 && j >= 0 && GetBin(ax, x, rrf.x) >= 0 && GetBin(ay, y, rrf.y) >= 0
            && var i0, j0 := T.GroupStart(i, fx), T.GroupStart(j, fy);
            && i0 <= i < i0 + fx <= |g| && j0 <= j < j0 + fy <= ay.bins
            && Content(g, ay.bins, GetBin(ax, x, rrf.x), GetBin(ay, y, rrf.y), rrf)
                 == RectSum(g, ay.bins, i0, i0 + fx, j0, j0 + fy)
  {
    ReducedAxis(ax, x, rrf.x);
    ReducedAxis(ay, y, rrf.y);
  }

  lemma ReducedAxis(a: AxisBinning, x: real, rrf: nat)
    requires Proper(a) && a.bins % Factor(rrf) == 0 && a.min <= x < a.max
    ensures var b, r, f := GetBin(a, x, NO_RR), GetBin(a, x, rrf), Factor(rrf);
            && b >= 0 && r >= 0 && var b0 := T.GroupStart(b, f);
            b0 <= b < b0 + f <= a.bins && First(r, rrf, a.bins) == b0 && End(r, rrf, a.bins) == b0 + f
  {
    var b, f := GetBin(a, x, NO_RR), Factor(rrf);
    OutsideIff(a, x, NO_RR);
    if rrf != NO_RR {
      ReducedBin(a, x, rrf);
    }
    T.GroupAround(b, f, a.bins);
    GroupBounds(a.bins, rrf, b / f);
  }

  // ---------------------------------------------------------------------
  // The storage as a whole

  lemma {:induction false} RowOfStorage(data: seq<real>, nx: nat, ny: nat, x: nat, y: nat, start: nat)
    requires |data| == nx * ny && x <= nx && y < ny && start == y * nx && start + nx <= |data|
    ensures Sum(data[start..start + x]) == RowSum(Grid(data, nx, ny), ny, 0, x, y)
  {
    if x > 0 {
      RowOfStorage(data, nx, ny, x - 1, y, start);
      GridAt(data, nx, ny, x - 1, y);
      SumOneMore(data, start, start + x - 1);
    }
  }

  lemma RowFits(nx: nat, ny: nat, y: nat)
    requires y < ny
    ensures y * nx + nx <= nx * ny
  {
    Multiples(ny - y, nx);
    assert (ny - y) * nx == ny * nx - y * nx;
  }

  lemma {:induction false} RowsOfStorage(data: seq<real>, nx: nat, ny: nat, y: nat)
    requires |data| == nx * ny && y <= ny
    ensures y * nx <= |data| && Sum(data[..y * nx]) == RectSum(Grid(data, nx, ny), ny, 0, nx, 0, y)
  {
    if y > 0 {
      RowFits(nx, ny, y - 1);
      RowsOfStorage(data, nx, ny, y - 1);
      var start := (y - 1) * nx;
      RowOfStorage(data, nx, ny, nx, y - 1, start);
      assert y * nx == start + nx;
      T.SumUpTo(data, start, start + nx);
    }
  }

  /** The storage holds each cell once: its total is that of the whole rectangle. */
  lemma StorageTotal(data: seq<real>, nx: nat, ny: nat)
    requires |data| == nx * ny
    ensures Sum(data) == RectSum(Grid(data, nx, ny), ny, 0, nx, 0, ny)
  {
    RowsOfStorage(data, nx, ny, ny);
    assert data[..|data|] == data;
  }
}

/** What the contents of a one-dimensional histogram say about what was filled into it. */
module Histo1DTheorems {
  import opened AxisBinnings
  import opened Histogram1D

  datatype Entry = Entry(x: real, weight: real)

  /** The contents after a clear and these fills. */
  function AfterFills(a: AxisBinning, entries: seq<Entry>): (c: Contents)
    requires a.min != a.max
    ensures |c.data| == a.bins
  {
    if entries == [] then Empty(a.bins)
    else
      var last := entries[|entries| - 1];
      Filled(a, AfterFills(a, entries[..|entries| - 1]), last.x, last.weight)
  }

  /** The weight of the entries that belong to a bin, or to underflow or overflow. */
  function WeightIn(a: AxisBinning, entries: seq<Entry>, bin: int): real
    requires a.min != a.max
  {
    if entries == [] then 0.0
    else
      var last := entries[|entries| - 1];
      WeightIn(a, entries[..|entries| - 1], bin) + (if GetBin(a, last.x, NO_RR) == bin then last.weight else 0.0)
  }

  function Weight(entries: seq<Entry>): real {
    if entries == [] then 0.0 else Weight(entries[..|entries| - 1]) + entries[|entries| - 1].weight
  }

  /** Each bin holds the weight of exactly the entries that belong to it, and so do underflow and
      overflow; no other fill, before or after, makes a difference. */
  lemma {:induction false} FillsMeaning(a: AxisBinning, entries: seq<Entry>, bin: nat)
    requires a.min != a.max
    ensures var c := AfterFills(a, entries);
            && (bin < a.bins ==> c.data[bin] == WeightIn(a, entries, bin))
            && c.underflow == WeightIn(a, entries, UNDERFLOW) && c.overflow == WeightIn(a, entries, OVERFLOW)
  {
    if entries != [] {
      var n := |entries| - 1;
      FillsMeaning(a, entries[..n], bin);
      FloorInRange(a, entries[n].x);
    }
  }

  /** One fill puts its weight somewhere once. */
  lemma FillConserves(a: AxisBinning, c: Contents, x: real, weight: real)
    requires a.min != a.max && a.bins == |c.data|
    ensures var d := Filled(a, c, x, weight);
            && Sum(d.data) + d.underflow + d.overflow == Sum(c.data) + c.underflow + c.overflow + weight
            && d.count - Sum(d.data) == c.count - Sum(c.data)
  {
    FloorInRange(a, x);
    var bin := GetBin(a, x, NO_RR);
    if bin >= 0 {
      SumAdded(c.data, bin, weight);
    }
  }

  /** No weight is lost or counted twice over any sequence of fills; the count is that of the bins. */
  lemma {:induction false} WeightConserved(a: AxisBinning, entries: seq<Entry>)
    requires a.min != a.max
    ensures var c := AfterFills(a, entries);
            Sum(c.data) + c.underflow + c.overflow == Weight(entries) && c.count == Sum(c.data)
  {
    if entries == [] {
      SumZeros(a.bins);
    } else {
      var n := |entries| - 1;
      WeightConserved(a, entries[..n]);
      FillConserves(a, AfterFills(a, entries[..n]), entries[n].x, entries[n].weight);
    }
  }

  // ---------------------------------------------------------------------
  // The maximum that is kept up to date

  /** It is that of the bins, and it is where it is said to be. */
  ghost predicate MaxIsRight(c: Contents) {
    && c.maxBin < |c.data| && c.data[c.maxBin] == c.maxValue
    && forall b :: 0 <= b < |c.data| ==> c.data[b] <= c.maxValue
  }

  /** One fill keeps it right exactly unless it takes weight from the bin of the maximum. */
  lemma FillKeepsMaximumIff(a: AxisBinning, c: Contents, x: real, weight: real)
    requires a.min != a.max && a.bins == |c.data| && MaxIsRight(c)
    ensures MaxIsRight(Filled(a, c, x, weight)) <==> !(weight < 0.0 && GetBin(a, x, NO_RR) == c.maxBin)
  {
    FloorInRange(a, x);
  }

  /** The k-th fill takes weight from the bin that held the maximum before it. */
  ghost predicate LowersMaximum(a: AxisBinning, entries: seq<Entry>, k: nat)
    requires a.min != a.max && k < |entries|
  {
    entries[k].weight < 0.0 && GetBin(a, entries[k].x, NO_RR) == AfterFills(a, entries[..k]).maxBin
  }

  ghost predicate AlwaysRight(a: AxisBinning, entries: seq<Entry>)
    requires a.min != a.max
  {
    forall k {:trigger entries[..k]} :: 0 <= k <= |entries| ==> MaxIsRight(AfterFills(a, entries[..k]))
  }

  ghost predicate NeverLowered(a: AxisBinning, entries: seq<Entry>)
    requires a.min != a.max
  {
    forall k {:trigger LowersMaximum(a, entries, k)} :: 0 <= k < |entries| ==> !LowersMaximum(a, entries, k)
  }

  lemma NextFill(a: AxisBinning, entries: seq<Entry>, k: nat)
    requires a.min != a.max && k < |entries| && MaxIsRight(AfterFills(a, entries[..k]))
    ensures MaxIsRight(AfterFills(a, entries[..k + 1])) <==> !LowersMaximum(a, entries, k)
  {
    assert entries[..k + 1][..k] == entries[..k];
    FillKeepsMaximumIff(a, AfterFills(a, entries[..k]), entries[k].x, entries[k].weight);
  }

  lemma {:induction false} RightUpTo(a: AxisBinning, entries: seq<Entry>, k: nat)
    requires a.min != a.max && a.bins > 0 && k <= |entries| && NeverLowered(a, entries)
    ensures MaxIsRight(AfterFills(a, entries[..k]))
  {
    if k > 0 {
      RightUpTo(a, entries, k - 1);
      NextFill(a, entries, k - 1);
    }
  }

  /** It is right after every fill of a sequence exactly if no fill does that. */
  lemma AlwaysRightIff(a: AxisBinning, entries: seq<Entry>)
    requires a.min != a.max && a.bins > 0
    ensures AlwaysRight(a, entries) <==> NeverLowered(a, entries)
  {
    if NeverLowered(a, entries) {
      forall k {:trigger entries[..k]} | 0 <= k <= |entries| ensures MaxIsRight(AfterFills(a, entries[..k])) {
        RightUpTo(a, entries, k);
      }
    }
    if AlwaysRight(a, entries) {
      forall k {:trigger LowersMaximum(a, entries, k)} | 0 <= k < |entries| ensures !LowersMaximum(a, entries, k) {
        assert MaxIsRight(AfterFills(a, entries[..k])) && MaxIsRight(AfterFills(a, entries[..k + 1]));
        NextFill(a, entries, k);
      }
    }
  }

  /** The highest content that any bin has had, and the last fill that reached it; fills count from
      one, and 0 stands for the empty histogram. */
  function Highest(a: AxisBinning, entries: seq<Entry>): real
    requires a.min != a.max
  {
    if entries == [] then 0.0
    else
      var n := |entries| - 1;
      var before := Highest(a, entries[..n]);
      var bin := GetBin(a, entries[n].x, NO_RR);
      if bin >= 0 && WeightIn(a, entries, bin) >= before then WeightIn(a, entries, bin) else before
  }

  function TopFill(a: AxisBinning, entries: seq<Entry>): (k: nat)
    requires a.min != a.max
    ensures k <= |entries| && (k > 0 ==> GetBin(a, entries[k - 1].x, NO_RR) >= 0)
  {
    if entries == [] then 0
    else
      var n := |entries| - 1;
      var bin := GetBin(a, entries[n].x, NO_RR);
      if bin >= 0 && WeightIn(a, entries, bin) >= Highest(a, entries[..n]) then n + 1 else TopFill(a, entries[..n])
  }

  function TopBin(a: AxisBinning, entries: seq<Entry>): nat
    requires a.min != a.max
  {
    var k := TopFill(a, entries);
    if k == 0 then 0 else GetBin(a, entries[k - 1].x, NO_RR)
  }

  /** No fill after the highest content was last reached goes into its bin. */
  ghost predicate TopUntouched(a: AxisBinning, entries: seq<Entry>)
    requires a.min != a.max
  {
    forall m :: TopFill(a, entries) <= m < |entries| ==> GetBin(a, entries[m].x, NO_RR) != TopBin(a, entries)
  }

  /** No content of any bin at any time was above the highest one. */
  lemma {:induction false} HighestIsHighest(a: AxisBinning, entries: seq<Entry>, k: nat, bin: nat)
    requires a.min != a.max && k <= |entries| && bin < a.bins
    ensures WeightIn(a, entries[..k], bin) <= Highest(a, entries)
    decreases |entries|
  {
    if entries != [] {
      var n := |entries| - 1;
      if k <= n {
        HighestIsHighest(a, entries[..n], k, bin);
        assert entries[..n][..k] == entries[..k];
      } else {
        HighestIsHighest(a, entries[..n], n, bin);
        assert entries[..n][..n] == entries[..n] && entries[..k] == entries;
      }
    }
  }

  ghost predicate Tracked(a: AxisBinning, entries: seq<Entry>, c: Contents)
    requires a.min != a.max
  {
    && c.maxValue == Highest(a, entries) && c.maxBin == TopBin(a, entries) < |c.data|
    && (forall b :: 0 <= b < |c.data| ==> c.data[b] <= c.maxValue)
    && (c.data[c.maxBin] == c.maxValue <==> TopUntouched(a, entries))
  }

  lemma {:induction false} TrackedStep(a: AxisBinning, entries: seq<Entry>, c: Contents)
    requires a.min != a.max && entries != [] && a.bins == |c.data|
    requires Tracked(a, entries[..|entries| - 1], c)
    requires var last := entries[|entries| - 1];
             forall b {:trigger c.data[b]} :: 0 <= b < |c.data| ==>
               Filled(a, c, last.x, last.weight).data[b] == WeightIn(a, entries, b)
    ensures var last := entries[|entries| - 1]; Tracked(a, entries, Filled(a, c, last.x, last.weight))
  {
    var n := |entries| - 1;
    FloorInRange(a, entries[n].x);
  }

  lemma {:induction false} MaximumTracked(a: AxisBinning, entries: seq<Entry>)
    requires a.min != a.max && a.bins > 0
    ensures Tracked(a, entries, AfterFills(a, entries))
  {
    if entries != [] {
      var n := |entries| - 1;
      MaximumTracked(a, entries[..n]);
      var c := AfterFills(a, entries[..n]);
      var d := Filled(a, c, entries[n].x, entries[n].weight);
      forall b {:trigger c.data[b]} | 0 <= b < |c.data| ensures d.data[b] == WeightIn(a, entries, b) {
        FillsMeaning(a, entries, b);
      }
      TrackedStep(a, entries, c);
    }
  }

  /** After any fills it is right exactly if the bin that last reached the highest content has not
      been filled since; it is then the highest content any bin has ever had. */
  lemma MaximumRightIff(a: AxisBinning, entries: seq<Entry>)
    requires a.min != a.max && a.bins > 0
    ensures MaxIsRight(AfterFills(a, entries)) <==> TopUntouched(a, entries)
    ensures AfterFills(a, entries).maxValue == Highest(a, entries)
  {
    MaximumTracked(a, entries);
  }

  /** Without negative weights it is always right. */
  lemma MaximumOfGains(a: AxisBinning, entries: seq<Entry>)
    requires a.min != a.max && a.bins > 0 && forall e :: e in entries ==> e.weight >= 0.0
    ensures MaxIsRight(AfterFills(a, entries))
  {
    forall k {:trigger LowersMaximum(a, entries, k)} | 0 <= k < |entries| ensures !LowersMaximum(a, entries, k) {
      assert entries[k] in entries;
    }
    AlwaysRightIff(a, entries);
    assert entries[..|entries|] == entries;
  }

  /** A negative weight can leave it wrong. */
  lemma MaximumMissed(a: AxisBinning, x: real)
    requires a.min != a.max && 0 <= GetBin(a, x, NO_RR) < a.bins
    ensures !MaxIsRight(AfterFills(a, [Entry(x, 2.0), Entry(x, -1.0)]))
  {
    var e, f := Entry(x, 2.0), Entry(x, -1.0);
    assert [e, f][..1] == [e] && [e][..0] == [];
    var bin := GetBin(a, x, NO_RR);
    assert AfterFills(a, []) == Empty(a.bins);
    assert AfterFills(a, [e]).maxValue == 2.0 && AfterFills(a, [e]).data[bin] == 2.0;
    assert AfterFills(a, [e, f]).maxValue == 2.0 && AfterFills(a, [e, f]).data[bin] == 1.0;
  }

  // ---------------------------------------------------------------------
  // Resolution reduction

  /** All bins at a reduced resolution. */
  function Reduced(data: seq<real>, rrf: nat): seq<real>
    requires rrf > 0
  {
    seq(|data| / rrf, b requires b >= 0 => BinContent(data, b, rrf))
  }

  lemma GroupFits(n: nat, rrf: nat, b: nat)
    requires rrf > 0 && b < n / rrf
    ensures b * rrf + rrf <= n && b * rrf < n
  {
    assert n == n / rrf * rrf + n % rrf;
    Multiples(n / rrf - b, rrf);
    assert (n / rrf - b) * rrf == n / rrf * rrf - b * rrf;
  }

  lemma GroupContent(data: seq<real>, rrf: nat, b: nat)
    requires rrf > 0 && b < |data| / rrf
    ensures 0 <= b * rrf <= b * rrf + rrf <= |data|
    ensures BinContent(data, b, rrf) == Sum(data[b * rrf..b * rrf + rrf])
  {
    GroupFits(|data|, rrf, b);
  }

  lemma SumSplit(data: seq<real>, k: nat)
    requires k <= |data|
    ensures Sum(data[..k]) + Sum(data[k..]) == Sum(data)
    ensures k == |data| ==> Sum(data[..k]) == Sum(data)
  {
    assert data == data[..k] + data[k..];
    SumConcat(data[..k], data[k..]);
  }

  lemma SumUpTo(data: seq<real>, k: nat, m: nat)
    requires k <= m <= |data|
    ensures Sum(data[..m]) == Sum(data[..k]) + Sum(data[k..m])
  {
    assert data[..m] == data[..k] + data[k..m];
    SumConcat(data[..k], data[k..m]);
  }

  lemma {:induction false} FirstGroups(data: seq<real>, rrf: nat, m: nat)
    requires rrf > 0 && m <= |data| / rrf
    ensures 0 <= m * rrf <= |data|
    ensures Sum(Reduced(data, rrf)[..m]) == Sum(data[..m * rrf])
  {
    if m > 0 {
      var k := (m - 1) * rrf;
      GroupContent(data, rrf, m - 1);
      FirstGroups(data, rrf, m - 1);
      assert m * rrf == k + rrf;
      SumUpTo(data, k, k + rrf);
      var r := Reduced(data, rrf);
      assert r[..m] == r[..m - 1] + [BinContent(data, m - 1, rrf)];
      SumAppend(r[..m - 1], BinContent(data, m - 1, rrf));
    }
  }

  /** The bins that fill whole groups. */
  function Grouped(n: nat, rrf: nat): (k: nat)
    requires rrf > 0
    ensures k <= n && (k == n <==> n % rrf == 0)
  {
    assert n == n / rrf * rrf + n % rrf;
    n / rrf * rrf
  }

  /** The reduced bins sum to the same total, up to the bins that do not fill a group. */
  lemma ReducedTotal(data: seq<real>, rrf: nat)
    requires rrf > 0
    ensures Sum(Reduced(data, rrf)) + Sum(data[Grouped(|data|, rrf)..]) == Sum(data)
    ensures |data| % rrf == 0 ==> Sum(Reduced(data, rrf)) == Sum(data)
  {
    ReducedSum(data, rrf);
    SumSplit(data, Grouped(|data|, rrf));
  }

  lemma ReducedSum(data: seq<real>, rrf: nat)
    requires rrf > 0
    ensures Sum(Reduced(data, rrf)) == Sum(data[..Grouped(|data|, rrf)])
  {
    var m := |data| / rrf;
    FirstGroups(data, rrf, m);
    assert Reduced(data, rrf)[..m] == Reduced(data, rrf);
  }

  /** What getValue reads for a position at a reduced resolution. */
  function Value(a: AxisBinning, data: seq<real>, x: real, rrf: nat): real
    requires a.min != a.max
  {
    var bin := GetBin(a, x, rrf);
    if bin < 0 then 0.0 else BinContent(data, bin, rrf)
  }

  /** The first bin of the group that bin `b` belongs to. */
  function GroupStart(b: nat, rrf: nat): nat
    requires rrf > 0
  {
    b / rrf * rrf
  }

  lemma GroupAround(b: nat, rrf: nat, n: nat)
    requires rrf > 0 && n % rrf == 0 && b < n
    ensures GroupStart(b, rrf) <= b < GroupStart(b, rrf) + rrf <= n && b / rrf < n / rrf
  {
    var q := b / rrf;
    GroupOf(b, rrf, n);
    GroupFits(n, rrf, q);
    NextMultiple(q, rrf);
  }

  lemma NextMultiple(q: nat, f: nat)
    ensures (q + 1) * f == q * f + f
  {
  }

  /** For a factor that divides the number of bins, the value read at x is the sum of the group of
      physical bins to which the bin of x belongs. */
  lemma ReducedValue(a: AxisBinning, data: seq<real>, x: real, rrf: nat)
    requires Proper(a) && a.bins == |data| && rrf > 0 && a.bins % rrf == 0 && a.min <= x < a.max
    ensures var b := GetBin(a, x, NO_RR);
            && b >= 0 && var g := GroupStart(b, rrf);
            g <= b < g + rrf <= |data| && Value(a, data, x, rrf) == Sum(data[g..g + rrf])
  {
    var b := GetBin(a, x, NO_RR);
    OutsideIff(a, x, NO_RR);
    ReducedBin(a, x, rrf);
    GroupAround(b, rrf, a.bins);
    GroupContent(data, rrf, b / rrf);
  }
}

/** What entries, mean and variance of a range of bins are. */
module StatisticsTheorems {
  import opened AxisBinnings
  import opened Histogram1D
  import opened Histo1DStatistics
  import T = Histo1DTheorems

  // ---------------------------------------------------------------------
  // Entries

  function Group(rrf: nat): (f: nat)
    ensures f > 0
  {
    if rrf == NO_RR then 1 else rrf
  }

  /** The first physical bin of bin `b`, the number of physical bins if there is none. */
  function FirstPhysical(n: nat, b: nat, f: nat): (k: nat)
    ensures k <= n
  {
    if b * f <= n then b * f else n
  }

  lemma OneBin(data: seq<real>, rrf: nat, b: nat)
    ensures var n, f := |data|, Group(rrf);
            && FirstPhysical(n, b, f) <= FirstPhysical(n, b + 1, f)
            && BinContent(data, b, rrf) == Sum(data[FirstPhysical(n, b, f)..FirstPhysical(n, b + 1, f)])
  {
    var n, f := |data|, Group(rrf);
    T.NextMultiple(b, f);
    if b * f < n {
      if rrf == NO_RR {
        assert data[b..b + 1] == [data[b]];
        assert [data[b]][..0] == [];
        assert Sum([data[b]]) == data[b];
      }
    } else {
      assert data[n..n] == [];
    }
  }

  /** The entries of a range are the contents of all its physical bins, at any resolution, the last
      incomplete group and bins beyond the end included. */
  lemma {:induction false} EntriesAreContents(data: seq<real>, rrf: nat, first: nat, end: nat)
    requires first <= end
    ensures var n, f := |data|, Group(rrf);
            && FirstPhysical(n, first, f) <= FirstPhysical(n, end, f)
            && Entries(data, rrf, first, end) == Sum(data[FirstPhysical(n, first, f)..FirstPhysical(n, end, f)])
    decreases end
  {
    var n, f := |data|, Group(rrf);
    if first < end {
      EntriesAreContents(data, rrf, first, end - 1);
      OneBin(data, rrf, end - 1);
      SumsJoin(data, FirstPhysical(n, first, f), FirstPhysical(n, end - 1, f), FirstPhysical(n, end, f));
    }
  }

  lemma SumsJoin(data: seq<real>, i: nat, j: nat, k: nat)
    requires i <= j <= k <= |data|
    ensures Sum(data[i..k]) == Sum(data[i..j]) + Sum(data[j..k])
  {
    assert data[i..k] == data[i..j] + data[j..k];
    SumConcat(data[i..j], data[j..k]);
  }

  // ---------------------------------------------------------------------
  // Mean

  lemma EdgesInOrder(a: AxisBinning, b: nat, c: nat, rrf: nat)
    requires GetBins(a, rrf) > 0 && b <= c
    ensures GetBinLowEdge(a, b, rrf) <= GetBinLowEdge(a, c, rrf)
  {
    var w := GetBinWidth(a, rrf);
    assert w >= 0.0;
    assert (c - b) as real * w >= 0.0;
    assert c as real * w == b as real * w + (c - b) as real * w;
  }

  ghost predicate NonNegative(data: seq<real>, rrf: nat, first: nat, end: nat) {
    forall b {:trigger BinContent(data, b, rrf)} :: first <= b < end ==> BinContent(data, b, rrf) >= 0.0
  }

  lemma Weigh(c: real, lo: real, x: real, hi: real)
    requires c >= 0.0 && lo <= x <= hi
    ensures Times(lo, c) <= Times(c, x) <= Times(hi, c)
  {
    assert (x - lo) * c >= 0.0 && (hi - x) * c >= 0.0;
  }

  lemma Distribute(x: real, c: real, d: real)
    ensures Times(x, c + d) == Times(x, c) + Times(x, d)
  {
  }

  lemma {:induction false} MomentBounds(a: AxisBinning, data: seq<real>, rrf: nat, first: nat, e: nat, end: nat)
    requires GetBins(a, rrf) > 0 && first <= e <= end && first < end && NonNegative(data, rrf, first, end)
    ensures Entries(data, rrf, first, e) >= 0.0
    ensures var lo, hi := GetBinLowEdge(a, first, rrf), GetBinLowEdge(a, end - 1, rrf);
            Times(lo, Entries(data, rrf, first, e)) <= Moment(a, data, rrf, first, e)
              <= Times(hi, Entries(data, rrf, first, e))
    decreases e
  {
    if first < e {
      var lo, hi := GetBinLowEdge(a, first, rrf), GetBinLowEdge(a, end - 1, rrf);
      var c, x := BinContent(data, e - 1, rrf), GetBinLowEdge(a, e - 1, rrf);
      MomentBounds(a, data, rrf, first, e - 1, end);
      EdgesInOrder(a, first, e - 1, rrf);
      EdgesInOrder(a, e - 1, end - 1, rrf);
      Weigh(c, lo, x, hi);
      Distribute(lo, Entries(data, rrf, first, e - 1), c);
      Distribute(hi, Entries(data, rrf, first, e - 1), c);
    }
  }

  /** Of non-negative contents that are not all zero, the mean lies between the low edges of the first
      and the last bin of the range. */
  lemma MeanBetweenEdges(a: AxisBinning, data: seq<real>, rrf: nat, r: Statistics)
    requires GetBins(a, rrf) > 0 && IsMean(a, data, rrf, r)
    requires r.startBin < r.onePastEndBin && NonNegative(data, rrf, r.startBin, r.onePastEndBin)
    ensures r.entryCount >= 0.0
    ensures r.entryCount > 0.0 ==>
              GetBinLowEdge(a, r.startBin, rrf) <= r.mean <= GetBinLowEdge(a, r.onePastEndBin - 1, rrf)
  {
    MomentBounds(a, data, rrf, r.startBin, r.onePastEndBin, r.onePastEndBin);
    if r.entryCount > 0.0 {
      var lo, hi := GetBinLowEdge(a, r.startBin, rrf), GetBinLowEdge(a, r.onePastEndBin - 1, rrf);
      QuotientBetween(lo, r.mean, hi, r.entryCount);
    }
  }

  lemma QuotientBetween(lo: real, m: real, hi: real, n: real)
    requires n > 0.0 && Times(lo, n) <= Times(m, n) <= Times(hi, n)
    ensures lo <= m <= hi
  {
    Scales(m, lo, n);
    Scales(hi, m, n);
  }

  // ---------------------------------------------------------------------
  // Variance

  /** The second moment about zero. */
  function SecondMoment(a: AxisBinning, data: seq<real>, rrf: nat, first: nat, end: nat): real
    requires GetBins(a, rrf) > 0
  {
    if end <= first then 0.0
    else
      var e := GetBinLowEdge(a, end - 1, rrf);
      SecondMoment(a, data, rrf, first, end - 1) + Times(BinContent(data, end - 1, rrf), Times(e, e))
  }

  ghost predicate WholeNumbers(data: seq<real>, rrf: nat, first: nat, end: nat) {
    forall b {:trigger BinContent(data, b, rrf)} :: first <= b < end ==>
      BinContent(data, b, rrf) == BinContent(data, b, rrf).Floor as real
  }

  lemma ShiftedSquare(e: real, m: real, c: real)
    ensures Times(Times(e - m, e - m), c) == Times(c, Times(e, e)) - Times(2.0 * m, Times(c, e)) + Times(Times(m, m), c)
  {
    assert (e - m) * (e - m) == e * e - 2.0 * m * e + m * m;
  }

  lemma {:induction false} SquaresAre(a: AxisBinning, data: seq<real>, rrf: nat, m: real, first: nat, end: nat)
    requires GetBins(a, rrf) > 0 && WholeNumbers(data, rrf, first, end)
    ensures Squares(a, data, rrf, m, first, end) ==
            SecondMoment(a, data, rrf, first, end) - Times(2.0 * m, Moment(a, data, rrf, first, end))
            + Times(Times(m, m), Entries(data, rrf, first, end))
  {
    if first < end {
      var e, c := GetBinLowEdge(a, end - 1, rrf), BinContent(data, end - 1, rrf);
      SquaresAre(a, data, rrf, m, first, end - 1);
      assert c == c.Floor as real;
      ShiftedSquare(e, m, c);
      Distribute(2.0 * m, Moment(a, data, rrf, first, end - 1), Times(c, e));
      Distribute(Times(m, m), Entries(data, rrf, first, end - 1), c);
    }
  }

  /** For whole contents the square of sigma is the second moment about the mean: that about zero, less
      the square of the mean, for each entry. */
  lemma VarianceIsSecondMoment(a: AxisBinning, data: seq<real>, rrf: nat, r: Statistics)
    requires GetBins(a, rrf) > 0 && IsMean(a, data, rrf, r) && IsVariance(a, data, rrf, r)
    requires Countable(data, rrf, r.startBin, r.onePastEndBin) && WholeNumbers(data, rrf, r.startBin, r.onePastEndBin)
    requires r.mean != 0.0 && r.entryCount > 0.0
    ensures Times(r.variance, r.entryCount) ==
            SecondMoment(a, data, rrf, r.startBin, r.onePastEndBin) - Times(Times(r.mean, r.mean), r.entryCount)
  {
    SquaresAre(a, data, rrf, r.mean, r.startBin, r.onePastEndBin);
    TwiceLessOnce(r.mean, r.entryCount);
  }

  lemma TwiceLessOnce(m: real, n: real)
    ensures Times(2.0 * m, Times(m, n)) - Times(Times(m, m), n) == Times(Times(m, m), n)
  {
    assert m * (m * n) == m * m * n;
  }

  /** A fractional position is its bin's low edge and the rest of it in bin widths. */
  lemma FractionalEdge(a: AxisBinning, b: nat, t: real, rrf: nat)
    requires GetBins(a, rrf) > 0
    ensures GetBinLowEdgeFractional(a, b as real + t, rrf) == GetBinLowEdge(a, b, rrf) + Times(t, GetBinWidth(a, rrf))
  {
    var w := GetBinWidth(a, rrf);
    assert (b as real + t) * w == b as real * w + t * w;
  }
}

/** One-dimensional histograms: filling, reading at a reduced resolution, and what the contents mean. */
module Histogram1D {
  import opened AxisBinnings

  // ---------------------------------------------------------------------
  // Sums

  function Sum(s: seq<real>): real {
    if s == [] then 0.0 else Sum(s[..|s| - 1]) + s[|s| - 1]
  }

  lemma SumAppend(s: seq<real>, v: real)
    ensures Sum(s + [v]) == Sum(s) + v
  {
    assert (s + [v])[..|s|] == s;
  }

  lemma SumOneMore(s: seq<real>, first: nat, end: nat)
    requires first <= end < |s|
    ensures Sum(s[first..end + 1]) == Sum(s[first..end]) + s[end]
  {
    assert s[first..end + 1] == s[first..end] + [s[end]];
    SumAppend(s[first..end], s[end]);
  }

  lemma {:induction false} SumConcat(s: seq<real>, t: seq<real>)
    ensures Sum(s + t) == Sum(s) + Sum(t)
  {
    if t == [] {
      assert s + t == s;
    } else {
      var u := t[..|t| - 1];
      assert s + t == (s + u) + [t[|t| - 1]];
      SumAppend(s + u, t[|t| - 1]);
      SumConcat(s, u);
    }
  }

  lemma {:induction false} SumAdded(s: seq<real>, i: nat, w: real)
    requires i < |s|
    ensures Sum(s[i := s[i] + w]) == Sum(s) + w
  {
    var n := |s| - 1;
    if i < n {
      SumAdded(s[..n], i, w);
      assert s[i := s[i] + w][..n] == s[..n][i := s[..n][i] + w];
    } else {
      assert s[i := s[i] + w][..n] == s[..n];
    }
  }

  function Zeros(n: nat): (s: seq<real>)
    ensures |s| == n && forall i :: 0 <= i < n ==> s[i] == 0.0
  {
    seq(n, _ => 0.0)
  }

  lemma {:induction false} SumZeros(n: nat)
    ensures Sum(Zeros(n)) == 0.0
  {
    if n > 0 {
      SumZeros(n - 1);
      assert Zeros(n)[..n - 1] == Zeros(n - 1);
    }
  }

  // ---------------------------------------------------------------------
  // The class

  datatype Contents = Contents(
    data: seq<real>,
    underflow: real,
    overflow: real,
    count: real,
    maxValue: real,
    maxBin: nat)

  function Empty(bins: nat): Contents { Contents(Zeros(bins), 0.0, 0.0, 0.0, 0.0, 0) }

  /** The contents after one more entry. */
  function Filled(a: AxisBinning, c: Contents, x: real, weight: real): Contents
    requires Placed(a, x, NO_RR) && a.bins == |c.data|
  {
    var bin := GetBin(a, x, NO_RR);
    if bin == UNDERFLOW then c.(underflow := c.underflow + weight)
    else if bin == OVERFLOW then c.(overflow := c.overflow + weight)
    else if 0 <= bin < |c.data| then
      var value := c.data[bin] + weight;
      var top := value >= c.maxValue;
      c.(data := c.data[bin := value], count := c.count + weight,
         maxValue := if top then value else c.maxValue, maxBin := if top then bin else c.maxBin)
    else c
  }

  /** The content of a physical bin, or of a group of them. */
  function BinContent(data: seq<real>, inputBin: nat, rrf: nat): real {
    if rrf == NO_RR then
      if inputBin < |data| then data[inputBin] else 0.0
    else
      var beginBin := inputBin * rrf;
      var endBin := if beginBin + rrf < |data| then beginBin + rrf else |data|;
      if beginBin < |data| then Sum(data[beginBin..endBin]) else 0.0
  }

  lemma FloorInRange(a: AxisBinning, x: real)
    requires Placed(a, x, NO_RR)
    ensures var bin := GetBin(a, x, NO_RR); bin == UNDERFLOW || bin == OVERFLOW || 0 <= bin < a.bins
  {
  }

  class Histo1D {
    var binning: AxisBinning
    var data: array<real>
    var count: real
    var maxValue: real
    var maxBin: nat
    var underflow: real
    var overflow: real

    ghost predicate Valid()
      reads this
    {
      binning.bins == data.Length
    }

    ghost function Now(): Contents
      reads this, data
    {
      Contents(data[..], underflow, overflow, count, maxValue, maxBin)
    }

    constructor (bins: nat, min: real, max: real)
      ensures Valid() && fresh(data) && binning == AxisBinning(bins, min, max) && Now() == Empty(bins)
    {
      binning := AxisBinning(bins, min, max);
      data := new real[bins];
      new;
      Clear();
    }

    method Clear()
      requires Valid()
      modifies this`count, this`maxValue, this`maxBin, this`underflow, this`overflow, data
      ensures Now() == Empty(binning.bins)
    {
      count, maxValue, maxBin, underflow, overflow := 0.0, 0.0, 0, 0.0, 0.0;
      for i := 0 to binning.bins
        invariant Valid() && binning == old(binning) && data == old(data)
        invariant count == maxValue == underflow == overflow == 0.0 && maxBin == 0
        invariant forall k :: 0 <= k < i ==> data[k] == 0.0
      {
        data[i] := 0.0;
      }
      assert data[..] == Zeros(binning.bins);
    }

    /** Memory of the histogram's own; the contents start anew. */
    method Resize(bins: nat)
      requires Valid() && bins > 0
      modifies this, data
      ensures Valid() && binning == old(binning).(bins := bins) && Now() == Empty(bins)
      ensures data == old(data) || fresh(data)
    {
      if bins != binning.bins {
        data := new real[bins];
        binning := binning.(bins := bins);
      }
      Clear();
    }

    method Fill(x: real, weight: real) returns (bin: int)
      requires Valid() && Placed(binning, x, NO_RR)
      modifies this`count, this`maxValue, this`maxBin, this`underflow, this`overflow, data
      ensures Now() == Filled(binning, old(Now()), x, weight) && bin == GetBin(binning, x, NO_RR)
    {
      bin := GetBin(binning, x, NO_RR);
      FloorInRange(binning, x);
      if bin == UNDERFLOW {
        underflow := underflow + weight;
      } else if bin == OVERFLOW {
        overflow := overflow + weight;
      } else {
        data[bin] := data[bin] + weight;
        count := count + weight;
        var value := data[bin];
        if value >= maxValue {
          maxValue := value;
          maxBin := bin;
        }
      }
    }

    method SetBinContent(bin: nat, value: real) returns (result: bool)
      requires Valid()
      modifies data
      ensures result == (bin < binning.bins)
      ensures Now() == if result then old(Now()).(data := old(data[..])[bin := value]) else old(Now())
    {
      result := false;
      if bin < binning.bins {
        data[bin] := value;
        result := true;
      }
    }

    method GetBinContent(inputBin: nat, rrf: nat) returns (value: real)
      requires Valid()
      ensures value == BinContent(data[..], inputBin, rrf)
    {
      if rrf == NO_RR {
        return if inputBin < binning.bins then data[inputBin] else 0.0;
      }
      var beginBin := inputBin * rrf;
      var endBin := if beginBin + rrf < binning.bins then beginBin + rrf else binning.bins;
      value := 0.0;
      if beginBin < binning.bins {
        value := SumBins(beginBin, endBin);
      }
    }

    /** std::accumulate over a range of bins. */
    method SumBins(first: nat, end: nat) returns (value: real)
      requires Valid() && first <= end <= binning.bins
      ensures value == Sum(data[..][first..end])
    {
      ghost var bins := data[..];
      value := 0.0;
      for i := first to end
        invariant value == Sum(bins[first..i])
      {
        SumOneMore(bins, first, i);
        value := value + data[i];
      }
    }

    method GetValue(x: real, rrf: nat) returns (value: real)
      requires Valid() && Placed(binning, x, rrf)
      ensures var bin := GetBin(binning, x, rrf); value == if bin < 0 then 0.0 else BinContent(data[..], bin, rrf)
    {
      var bin := GetBin(binning, x, rrf);
      if bin < 0 {
        return 0.0;
      }
      value := GetBinContent(bin, rrf);
    }
  }
}

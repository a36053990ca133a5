/** Filters spanning several words: greedy assignment of words to subfilters and packing of the
    extracted parts into one 64 bit value. */
module MultiWordFilters {
  import opened Bits
  import opened DataFilters

  /** A subfilter by value: the pattern and the word index it is bound to (negative: any). */
  type SubFilter = f: RawSubFilter | |f.chars| <= MAX_FILTER_SIZE witness RawSubFilter([], -1)

  datatype RawSubFilter = RawSubFilter(chars: seq<char>, wordIndex: int)

  datatype ResultPart = ResultPart(matched: bool, matchedWord: Word)

  datatype DataWord = DataWord(word: Word, index: int)

  ghost predicate Takes(f: SubFilter, d: DataWord) {
    (f.wordIndex < 0 || f.wordIndex == d.index) && Accepts(f.chars, d.word)
  }

  predicate Complete(parts: seq<ResultPart>) {
    forall i :: 0 <= i < |parts| ==> parts[i].matched
  }

  /** The first unmatched part from `i` upwards that takes the word; |parts| if there is none. */
  ghost function Receiver(fs: seq<SubFilter>, parts: seq<ResultPart>, d: DataWord, i: nat): (r: nat)
    requires |fs| == |parts| && i <= |fs|
    ensures i <= r <= |fs|
    ensures r < |fs| ==> !parts[r].matched && Takes(fs[r], d)
    ensures forall k :: i <= k < r ==> parts[k].matched || !Takes(fs[k], d)
    decreases |fs| - i
  {
    if i == |fs| || (!parts[i].matched && Takes(fs[i], d)) then i
    else Receiver(fs, parts, d, i + 1)
  }

  /** One word: only the receiver changes. */
  ghost function Assigned(fs: seq<SubFilter>, parts: seq<ResultPart>, d: DataWord): (r: seq<ResultPart>)
    requires |fs| == |parts|
    ensures |r| == |parts|
  {
    var i := Receiver(fs, parts, d, 0);
    if i == |fs| then parts else parts[i := ResultPart(true, d.word)]
  }

  /** A sequence of words. */
  ghost function Fed(fs: seq<SubFilter>, parts: seq<ResultPart>, ds: seq<DataWord>): (r: seq<ResultPart>)
    requires |fs| == |parts|
    ensures |r| == |parts|
  {
    if ds == [] then parts else Assigned(fs, Fed(fs, parts, ds[..|ds| - 1]), ds[|ds| - 1])
  }

  ghost predicate Cleared(parts: seq<ResultPart>) {
    forall i :: 0 <= i < |parts| ==> !parts[i].matched
  }

  /** No part with a value has to be shifted by 64 or more, which has no defined result. */
  predicate ShiftsDefined(fs: seq<SubFilter>, parts: seq<ResultPart>, marker: char)
    requires |fs| == |parts|
  {
    forall i :: 0 <= i < |fs| && Extracted(fs[i].chars, marker, parts[i].matchedWord) != ZERO ==>
      TotalBits(fs, marker, i) < 64
  }

  /** A shift in a 64 bit type. */
  method ShiftLeft64(part: Word, shift: nat) returns (r: seq<bool>)
    ensures |r| == 64
    ensures shift < 64 ==> r == Shl(Pad(part, 64), shift)
    ensures shift >= 64 && part == ZERO ==> r == Zeros(64)
  {
    if shift < 64 {
      r := Shl(Pad(part, 64), shift);
    } else {
      var undefined: seq<bool> := *;
      r := if part == ZERO then Zeros(64) else Fit(undefined, 64);
    }
  }

  class MultiWordDataFilter {
    var filters: seq<SubFilter>
    var results: seq<ResultPart>

    ghost predicate Valid()
      reads this
    {
      |filters| == |results|
    }

    constructor (subFilters: seq<SubFilter>)
      ensures Valid() && filters == subFilters && Cleared(results)
    {
      filters := subFilters;
      results := seq(|subFilters|, _ => ResultPart(false, ZERO));
    }

    method AddSubFilter(f: SubFilter)
      requires Valid()
      modifies this
      ensures Valid() && filters == old(filters) + [f] && Cleared(results)
    {
      filters := filters + [f];
      results := results + [ResultPart(false, ZERO)];
      ClearCompletion();
    }

    method HandleDataWord(d: DataWord)
      requires Valid()
      modifies `results
      ensures Valid() && results == Assigned(filters, old(results), d)
    {
      var i := 0;
      while i < |filters|
        invariant 0 <= i <= |filters| && results == old(results)
        invariant Receiver(filters, results, d, 0) == Receiver(filters, results, d, i)
      {
        MaskComparisonIsPattern(filters[i].chars, d.word);
        if !results[i].matched
           && (filters[i].wordIndex < 0 || filters[i].wordIndex == d.index)
           && And(d.word, MatchMaskOf(filters[i].chars)) == MatchValueOf(filters[i].chars)
        {
          results := results[i := ResultPart(true, d.word)];
          return;
        }
        i := i + 1;
      }
    }

    method IsComplete() returns (r: bool)
      requires Valid()
      ensures r <==> Complete(results)
    {
      for i := 0 to |results|
        invariant forall k :: 0 <= k < i ==> results[k].matched
      {
        if !results[i].matched {
          return false;
        }
      }
      return true;
    }

    method ClearCompletion()
      modifies `results
      ensures |results| == |old(results)| && Cleared(results)
      ensures forall i :: 0 <= i < |results| ==> results[i].matchedWord == old(results)[i].matchedWord
    {
      for i := 0 to |results|
        invariant |results| == |old(results)|
        invariant forall k :: 0 <= k < i ==> !results[k].matched
        invariant forall k :: 0 <= k < |results| ==> results[k].matchedWord == old(results)[k].matchedWord
      {
        results := results[i := results[i].(matched := false)];
      }
    }

    method GetExtractBits(marker: char) returns (bits: nat)
      ensures bits == TotalBits(filters, marker, |filters|)
    {
      bits := 0;
      for i := 0 to |filters|
        invariant bits == TotalBits(filters, marker, i)
      {
        bits := bits + MarkerBits(filters[i].chars, marker);
      }
    }

    /** Or-ing the parts, each shifted by the bits before it, concatenates their marker bits; what
        does not fit into 64 bits is cut off. */
    method ExtractData(marker: char) returns (result: seq<bool>)
      requires Valid()
      ensures |result| == 64
      ensures |filters| == 0 || !Complete(results) ==> result == Zeros(64)
      ensures |filters| > 0 && Complete(results) && ShiftsDefined(filters, results, marker) ==>
                result == Fit(Packed(filters, results, marker, |filters|), 64)
    {
      result := Zeros(64);
      var complete := IsComplete();
      if |filters| == 0 || !complete {
        return;
      }
      var shift := 0;
      for i := 0 to |filters|
        invariant |result| == 64 && shift == TotalBits(filters, marker, i)
        invariant ShiftsDefined(filters, results, marker) ==> result == Fit(Packed(filters, results, marker, i), 64)
      {
        var part := Extracted(filters[i].chars, marker, results[i].matchedWord);
        var shifted := ShiftLeft64(part, shift);
        if shift < 64 || part == ZERO {
          PartAppended(filters, results, marker, i, shifted);
        }
        result := Or(result, shifted);
        shift := shift + MarkerBits(filters[i].chars, marker);
      }
    }
  }

  // ---------------------------------------------------------------------
  // Greedy assignment

  /** For every part the position of the word it holds, -1 if it holds none. */
  ghost function Sources(fs: seq<SubFilter>, parts: seq<ResultPart>, ds: seq<DataWord>): (r: seq<int>)
    requires |fs| == |parts|
    ensures |r| == |fs|
  {
    if ds == [] then seq(|fs|, _ => -1)
    else
      var n := |ds| - 1;
      var prev := Sources(fs, parts, ds[..n]);
      WithSource(prev, Receiver(fs, Fed(fs, parts, ds[..n]), ds[n], 0), n)
  }

  /** Part `r`, if there is one, now has word `n`. */
  function WithSource(prev: seq<int>, r: nat, n: nat): (src: seq<int>)
    ensures |src| == |prev|
  {
    if r < |prev| then prev[r := n] else prev
  }

  ghost predicate SourcesHold(fs: seq<SubFilter>, src: seq<int>, out: seq<ResultPart>, ds: seq<DataWord>) {
    && |src| == |out| == |fs|
    && forall i :: 0 <= i < |fs| ==>
         && -1 <= src[i] < |ds|
         && (out[i].matched <==> src[i] >= 0)
         && (src[i] >= 0 ==> out[i].matchedWord == ds[src[i]].word && Takes(fs[i], ds[src[i]]))
  }

  /** No word feeds two parts. */
  ghost predicate Exclusive(src: seq<int>) {
    forall i, j :: 0 <= i < j < |src| && src[i] == src[j] ==> src[i] == -1
  }

  /** A word that feeds no part found every part taking it occupied by an earlier word, and a word
      that feeds part `i` found all parts before `i` occupied or not taking it. */
  ghost predicate FirstFree(fs: seq<SubFilter>, src: seq<int>, k: nat, d: DataWord)
    requires |src| == |fs|
  {
    forall i :: 0 <= i < |fs| && Takes(fs[i], d) ==>
      0 <= src[i] <= k || exists h :: 0 <= h < i && src[h] == k
  }

  lemma {:induction false} SourcesAreHeld(fs: seq<SubFilter>, parts: seq<ResultPart>, ds: seq<DataWord>)
    requires |fs| == |parts| && Cleared(parts)
    ensures SourcesHold(fs, Sources(fs, parts, ds), Fed(fs, parts, ds), ds)
  {
    if ds != [] {
      SourcesAreHeld(fs, parts, ds[..|ds| - 1]);
    }
  }

  lemma {:induction false} SourcesAreExclusive(fs: seq<SubFilter>, parts: seq<ResultPart>, ds: seq<DataWord>)
    requires |fs| == |parts| && Cleared(parts)
    ensures Exclusive(Sources(fs, parts, ds))
  {
    if ds != [] {
      SourcesAreHeld(fs, parts, ds[..|ds| - 1]);
      SourcesAreExclusive(fs, parts, ds[..|ds| - 1]);
    }
  }

  lemma LastWordFindsFirstFree(fs: seq<SubFilter>, prev: seq<int>, out: seq<ResultPart>,
                               ds: seq<DataWord>, d: DataWord)
    requires SourcesHold(fs, prev, out, ds)
    ensures FirstFree(fs, WithSource(prev, Receiver(fs, out, d, 0), |ds|), |ds|, d)
  {
    var r := Receiver(fs, out, d, 0);
    var src := WithSource(prev, r, |ds|);
    forall i | 0 <= i < |fs| && Takes(fs[i], d)
      ensures 0 <= src[i] <= |ds| || exists h :: 0 <= h < i && src[h] == |ds|
    {
      if r < i { assert src[r] == |ds|; }
    }
  }

  ghost predicate AllFirstFree(fs: seq<SubFilter>, src: seq<int>, ds: seq<DataWord>)
    requires |src| == |fs|
  {
    forall k :: 0 <= k < |ds| ==> FirstFree(fs, src, k, ds[k])
  }

  lemma ReceiverIsFree(fs: seq<SubFilter>, prev: seq<int>, out: seq<ResultPart>, ds: seq<DataWord>, d: DataWord)
    requires SourcesHold(fs, prev, out, ds)
    ensures var r := Receiver(fs, out, d, 0); r < |fs| ==> prev[r] == -1
  {
  }

  lemma EarlierWordsStay(fs: seq<SubFilter>, prev: seq<int>, r: nat, ds: seq<DataWord>)
    requires |prev| == |fs| && (r < |fs| ==> prev[r] == -1) && AllFirstFree(fs, prev, ds)
    ensures AllFirstFree(fs, WithSource(prev, r, |ds|), ds)
  {
    forall k | 0 <= k < |ds| ensures FirstFree(fs, WithSource(prev, r, |ds|), k, ds[k]) {
      FirstFreeStays(fs, prev, r, |ds|, k, ds[k]);
    }
  }

  lemma OneMoreWord(fs: seq<SubFilter>, src: seq<int>, ds: seq<DataWord>, d: DataWord)
    requires |src| == |fs| && AllFirstFree(fs, src, ds) && FirstFree(fs, src, |ds|, d)
    ensures AllFirstFree(fs, src, ds + [d])
  {
  }

  lemma FirstFreeStep(fs: seq<SubFilter>, prev: seq<int>, out: seq<ResultPart>, ds: seq<DataWord>)
    requires ds != [] && SourcesHold(fs, prev, out, ds[..|ds| - 1]) && AllFirstFree(fs, prev, ds[..|ds| - 1])
    ensures var n := |ds| - 1; AllFirstFree(fs, WithSource(prev, Receiver(fs, out, ds[n], 0), n), ds)
  {
    var before, d := ds[..|ds| - 1], ds[|ds| - 1];
    var r := Receiver(fs, out, d, 0);
    ReceiverIsFree(fs, prev, out, before, d);
    EarlierWordsStay(fs, prev, r, before);
    LastWordFindsFirstFree(fs, prev, out, before, d);
    OneMoreWord(fs, WithSource(prev, r, |before|), before, d);
    assert ds == before + [d];
  }

  /** Greedy assignment over any word sequence: matched parts hold a word they take, no word feeds
      two parts, and every word goes to the first free part that takes it. */
  lemma GreedyAssignment(fs: seq<SubFilter>, parts: seq<ResultPart>, ds: seq<DataWord>)
    requires |fs| == |parts| && Cleared(parts)
    ensures SourcesHold(fs, Sources(fs, parts, ds), Fed(fs, parts, ds), ds)
    ensures Exclusive(Sources(fs, parts, ds))
    ensures AllFirstFree(fs, Sources(fs, parts, ds), ds)
  {
    SourcesAreHeld(fs, parts, ds);
    SourcesAreExclusive(fs, parts, ds);
    FirstFreeTaken(fs, parts, ds);
  }

  /** The word reads like the pattern and, if the part is bound to an index, has that index. */
  ghost predicate Fits(f: SubFilter, d: DataWord) {
    Accepts(f.chars, d.word) && (f.wordIndex >= 0 ==> d.index == f.wordIndex)
  }

  /** So a matched part holds one of the words that fit it, and while a part is unmatched all words that
      fit it have gone to parts before it. */
  lemma WordsFit(fs: seq<SubFilter>, parts: seq<ResultPart>, ds: seq<DataWord>, i: nat)
    requires |fs| == |parts| && Cleared(parts) && i < |fs|
    ensures var out := Fed(fs, parts, ds);
            if out[i].matched then
              exists j :: 0 <= j < |ds| && Fits(fs[i], ds[j]) && out[i].matchedWord == ds[j].word
            else
              forall j :: 0 <= j < |ds| && Fits(fs[i], ds[j]) ==>
                exists h :: 0 <= h < i && out[h].matched && out[h].matchedWord == ds[j].word
  {
    GreedyAssignment(fs, parts, ds);
    var src, out := Sources(fs, parts, ds), Fed(fs, parts, ds);
    if out[i].matched {
      assert Takes(fs[i], ds[src[i]]);
    } else {
      forall j | 0 <= j < |ds| && Fits(fs[i], ds[j])
        ensures exists h :: 0 <= h < i && out[h].matched && out[h].matchedWord == ds[j].word
      {
        assert FirstFree(fs, src, j, ds[j]) && Takes(fs[i], ds[j]);
      }
    }
  }

  lemma {:induction false} FirstFreeTaken(fs: seq<SubFilter>, parts: seq<ResultPart>, ds: seq<DataWord>)
    requires |fs| == |parts| && Cleared(parts)
    ensures AllFirstFree(fs, Sources(fs, parts, ds), ds)
  {
    if ds != [] {
      var before := ds[..|ds| - 1];
      SourcesAreHeld(fs, parts, before);
      FirstFreeTaken(fs, parts, before);
      FirstFreeStep(fs, Sources(fs, parts, before), Fed(fs, parts, before), ds);
    }
  }

  lemma FirstFreeStays(fs: seq<SubFilter>, prev: seq<int>, r: nat, n: nat, k: nat, d: DataWord)
    requires |prev| == |fs| && k < n && FirstFree(fs, prev, k, d)
    requires r < |fs| ==> prev[r] == -1
    ensures FirstFree(fs, WithSource(prev, r, n), k, d)
  {
    var src := WithSource(prev, r, n);
    forall i | 0 <= i < |fs| && Takes(fs[i], d)
      ensures 0 <= src[i] <= k || exists h :: 0 <= h < i && src[h] == k
    {
      if !(0 <= prev[i] <= k) {
        var h :| 0 <= h < i && prev[h] == k;
        assert src[h] == k;
      }
    }
  }

  /** Matched parts keep their word until they are cleared. */
  lemma {:induction false} MatchedPartsStay(fs: seq<SubFilter>, parts: seq<ResultPart>, ds: seq<DataWord>, i: nat)
    requires |fs| == |parts| && i < |parts| && parts[i].matched
    ensures Fed(fs, parts, ds)[i] == parts[i]
  {
    if ds != [] {
      MatchedPartsStay(fs, parts, ds[..|ds| - 1], i);
    }
  }

  // ---------------------------------------------------------------------
  // Lossless packing

  function TotalBits(fs: seq<SubFilter>, marker: char, n: nat): nat
    requires n <= |fs|
  {
    if n == 0 then 0 else TotalBits(fs, marker, n - 1) + MarkerBits(fs[n - 1].chars, marker)
  }

  lemma {:induction false} TotalBitsGrow(fs: seq<SubFilter>, marker: char, m: nat, n: nat)
    requires m <= n <= |fs|
    ensures TotalBits(fs, marker, m) <= TotalBits(fs, marker, n)
  {
    if m < n {
      TotalBitsGrow(fs, marker, m, n - 1);
    }
  }

  /** The marker bits of one part, without padding. */
  function PartBits(f: SubFilter, part: ResultPart, marker: char): (r: seq<bool>)
    ensures |r| == MarkerBits(f.chars, marker) <= 32
    ensures Pad(r, 32) == Extracted(f.chars, marker, part.matchedWord)
  {
    PickLength(part.matchedWord, ExtractMaskOf(f.chars, ToLower(marker)), 0);
    PickFrom(part.matchedWord, ExtractMaskOf(f.chars, ToLower(marker)), 0)
  }

  /** The marker bits of the first `n` parts, low part first. */
  function Packed(fs: seq<SubFilter>, parts: seq<ResultPart>, marker: char, n: nat): (r: seq<bool>)
    requires n <= |fs| == |parts|
    ensures |r| == TotalBits(fs, marker, n)
  {
    if n == 0 then []
    else Packed(fs, parts, marker, n - 1) + PartBits(fs[n - 1], parts[n - 1], marker)
  }

  lemma ValueOrNoBits(f: SubFilter, part: ResultPart, marker: char)
    ensures MarkerBits(f.chars, marker) > 0 || Extracted(f.chars, marker, part.matchedWord) == ZERO
  {
    var bits := PartBits(f, part, marker);
    if bits == [] {
      assert Pad(bits, 32) == ZERO;
    }
  }

  /** Within the documented limit of 64 marker bits all shifts are defined. */
  lemma LimitDefinesShifts(fs: seq<SubFilter>, parts: seq<ResultPart>, marker: char)
    requires |fs| == |parts| && TotalBits(fs, marker, |fs|) <= 64
    ensures ShiftsDefined(fs, parts, marker)
  {
    forall i | 0 <= i < |fs| && Extracted(fs[i].chars, marker, parts[i].matchedWord) != ZERO
      ensures TotalBits(fs, marker, i) < 64
    {
      TotalBitsGrow(fs, marker, i + 1, |fs|);
      ValueOrNoBits(fs[i], parts[i], marker);
    }
  }

  /** One step of the loop over the parts. */
  lemma PartAppended(fs: seq<SubFilter>, parts: seq<ResultPart>, marker: char, i: nat, shifted: seq<bool>)
    requires i < |fs| == |parts|
    requires var part, shift := Extracted(fs[i].chars, marker, parts[i].matchedWord), TotalBits(fs, marker, i);
             if shift < 64 then shifted == Shl(Pad(part, 64), shift) else part == ZERO && shifted == Zeros(64)
    ensures Or(Fit(Packed(fs, parts, marker, i), 64), shifted) == Fit(Packed(fs, parts, marker, i + 1), 64)
  {
    var low, bits := Packed(fs, parts, marker, i), PartBits(fs[i], parts[i], marker);
    if |low| < 64 {
      OrAppends(low, bits);
    } else {
      assert (low + bits)[..64] == low[..64];
      assert Or(Fit(low, 64), Zeros(64)) == Fit(low, 64);
    }
  }

  lemma OrAppends(low: seq<bool>, bits: seq<bool>)
    requires |bits| <= 32 && |low| <= 64
    ensures Or(Fit(low, 64), Shl(Pad(Pad(bits, 32), 64), |low|)) == Fit(low + bits, 64)
  {
  }

  /** The sum of the part values, each weighted by the bits before it. */
  function WeightedSum(fs: seq<SubFilter>, parts: seq<ResultPart>, marker: char, n: nat): nat
    requires n <= |fs| == |parts|
  {
    if n == 0 then 0
    else WeightedSum(fs, parts, marker, n - 1)
         + Pow2(TotalBits(fs, marker, n - 1))
           * Value(Extracted(fs[n - 1].chars, marker, parts[n - 1].matchedWord))
  }

  lemma {:induction false} PackedIsSum(fs: seq<SubFilter>, parts: seq<ResultPart>, marker: char, n: nat)
    requires n <= |fs| == |parts|
    ensures Value(Packed(fs, parts, marker, n)) == WeightedSum(fs, parts, marker, n)
  {
    if n > 0 {
      PackedIsSum(fs, parts, marker, n - 1);
      var bits := PartBits(fs[n - 1], parts[n - 1], marker);
      ValueConcat(Packed(fs, parts, marker, n - 1), bits);
      PaddingKeepsValue(bits, 32);
    }
  }

  lemma {:induction false} PackedPrefix(fs: seq<SubFilter>, parts: seq<ResultPart>, marker: char, m: nat, n: nat)
    requires m <= n <= |fs| == |parts|
    ensures Packed(fs, parts, marker, m) <= Packed(fs, parts, marker, n)
  {
    if m < n {
      PackedPrefix(fs, parts, marker, m, n - 1);
    }
  }

  /** Cutting the packed value at the bit offsets of part `i` gives the part back. */
  lemma PartCanBeCutOut(fs: seq<SubFilter>, parts: seq<ResultPart>, marker: char, i: nat)
    requires i < |fs| == |parts| && TotalBits(fs, marker, |fs|) <= 64
    ensures var lo, hi := TotalBits(fs, marker, i), TotalBits(fs, marker, i + 1);
            lo <= hi <= lo + 32 && hi <= 64 &&
            Pad(Pad(Packed(fs, parts, marker, |fs|), 64)[lo..hi], 32)
              == Extracted(fs[i].chars, marker, parts[i].matchedWord)
  {
    var lo, hi := TotalBits(fs, marker, i), TotalBits(fs, marker, i + 1);
    PackedPrefix(fs, parts, marker, i + 1, |fs|);
    var p := Packed(fs, parts, marker, i + 1);
    var bits := PartBits(fs[i], parts[i], marker);
    assert Pad(Packed(fs, parts, marker, |fs|), 64)[lo..hi] == p[lo..hi] == bits;
  }

  /** The packed 64 bit value is the weighted sum of the part values and is below 2^(marker bits). */
  lemma PackedValueIsSum(fs: seq<SubFilter>, parts: seq<ResultPart>, marker: char)
    requires |fs| == |parts| && TotalBits(fs, marker, |fs|) <= 64
    ensures Value(Pad(Packed(fs, parts, marker, |fs|), 64)) == WeightedSum(fs, parts, marker, |fs|)
    ensures WeightedSum(fs, parts, marker, |fs|) < Pow2(TotalBits(fs, marker, |fs|))
  {
    PackedIsSum(fs, parts, marker, |fs|);
    PaddingKeepsValue(Packed(fs, parts, marker, |fs|), 64);
    ValueBound(Packed(fs, parts, marker, |fs|));
  }

  /** The 64 bit result for these matched words. */
  function Result(fs: seq<SubFilter>, parts: seq<ResultPart>, marker: char): seq<bool>
    requires |fs| == |parts|
  {
    Fit(Packed(fs, parts, marker, |fs|), 64)
  }

  ghost predicate SameParts(fs: seq<SubFilter>, a: seq<ResultPart>, b: seq<ResultPart>, marker: char)
    requires |fs| == |a| == |b|
  {
    forall i :: 0 <= i < |fs| ==>
      Extracted(fs[i].chars, marker, a[i].matchedWord) == Extracted(fs[i].chars, marker, b[i].matchedWord)
  }

  /** Words the parts can hold: each is accepted by its subfilter. */
  ghost predicate Held(fs: seq<SubFilter>, parts: seq<ResultPart>) {
    |parts| == |fs| && forall i :: 0 <= i < |fs| ==> Accepts(fs[i].chars, parts[i].matchedWord)
  }

  /** Different parts give different results, for all words that can be held. */
  ghost predicate Lossless(fs: seq<SubFilter>, marker: char) {
    forall a: seq<ResultPart>, b: seq<ResultPart> {:trigger SameParts(fs, a, b, marker)} ::
      Held(fs, a) && Held(fs, b) && Result(fs, a, marker) == Result(fs, b, marker) ==> SameParts(fs, a, b, marker)
  }

  /** The marker is one of the characters that demand a certain bit. */
  predicate Demands(marker: char) { IsZeroChar(marker) || IsOneChar(marker) }

  lemma FittingIsLossless(fs: seq<SubFilter>, marker: char)
    requires TotalBits(fs, marker, |fs|) <= 64
    ensures Lossless(fs, marker)
  {
    forall a: seq<ResultPart>, b: seq<ResultPart> {:trigger SameParts(fs, a, b, marker)}
      | Held(fs, a) && Held(fs, b) && Result(fs, a, marker) == Result(fs, b, marker)
      ensures SameParts(fs, a, b, marker)
    {
      forall i | 0 <= i < |fs|
        ensures Extracted(fs[i].chars, marker, a[i].matchedWord) == Extracted(fs[i].chars, marker, b[i].matchedWord)
      {
        PartCanBeCutOut(fs, a, marker, i);
        PartCanBeCutOut(fs, b, marker, i);
      }
    }
  }

  lemma GatheredLocal(v: Word, w: Word, m: Word)
    requires And(v, m) == And(w, m)
    ensures Gathered(v, m) == Gathered(w, m)
  {
    GatherMeaning(w, m);
    forall i | 0 <= i < 32 && m[i] ensures Gathered(w, m)[Rank(m, i)] == v[i] {
      assert And(v, m)[i] == And(w, m)[i];
    }
    GatherUnique(v, m, Gathered(w, m));
  }

  /** A demanded bit is the same in every accepted word. */
  lemma DemandedBitsAgree(f: SubFilter, marker: char, v: Word, w: Word)
    requires Demands(marker) && Accepts(f.chars, v) && Accepts(f.chars, w)
    ensures Extracted(f.chars, marker, v) == Extracted(f.chars, marker, w)
  {
    var m := ExtractMaskOf(f.chars, ToLower(marker));
    forall i | 0 <= i < 32 && m[i] ensures v[i] == w[i] {
      assert CharFor(f.chars, i) == marker;
    }
    assert And(v, m) == And(w, m);
    GatheredLocal(v, w, m);
  }

  lemma DemandedIsLossless(fs: seq<SubFilter>, marker: char)
    requires Demands(marker)
    ensures Lossless(fs, marker)
  {
    forall a: seq<ResultPart>, b: seq<ResultPart> {:trigger SameParts(fs, a, b, marker)}
      | Held(fs, a) && Held(fs, b)
      ensures SameParts(fs, a, b, marker)
    {
      forall i | 0 <= i < |fs|
        ensures Extracted(fs[i].chars, marker, a[i].matchedWord) == Extracted(fs[i].chars, marker, b[i].matchedWord)
      {
        DemandedBitsAgree(fs[i], marker, a[i].matchedWord, b[i].matchedWord);
      }
    }
  }

  lemma {:induction false} PackedLocal(fs: seq<SubFilter>, a: seq<ResultPart>, b: seq<ResultPart>,
                                       marker: char, n: nat)
    requires n <= |fs| == |a| == |b| && a[..n] == b[..n]
    ensures Packed(fs, a, marker, n) == Packed(fs, b, marker, n)
  {
    if n > 0 {
      assert a[..n - 1] == a[..n][..n - 1] && b[..n - 1] == b[..n][..n - 1];
      assert a[n - 1] == a[..n][n - 1] && b[n - 1] == b[..n][n - 1];
      PackedLocal(fs, a, b, marker, n - 1);
    }
  }

  /** The word that has only its k-th bit set. */
  function OneBit(k: nat): Word
    requires k < 32
  {
    ZERO[k := true]
  }

  /** An accepted word with the value `v` at the marker. */
  function AcceptedWith(f: SubFilter, marker: char, v: Word): Word {
    var mask := ExtractMaskOf(f.chars, ToLower(marker));
    seq(32, i requires 0 <= i < 32 => if mask[i] then Scattered(v, mask)[i] else MatchValueOf(f.chars)[i])
  }

  lemma AcceptedWithValue(f: SubFilter, marker: char, v: Word)
    requires !Demands(marker) && forall k :: MarkerBits(f.chars, marker) <= k < 32 ==> !v[k]
    ensures Accepts(f.chars, AcceptedWith(f, marker, v))
    ensures Extracted(f.chars, marker, AcceptedWith(f, marker, v)) == v
  {
    var mask := ExtractMaskOf(f.chars, ToLower(marker));
    ExtractScattered(f.chars, marker, v);
    assert And(AcceptedWith(f, marker, v), mask) == And(Scattered(v, mask), mask);
    GatheredLocal(AcceptedWith(f, marker, v), Scattered(v, mask), mask);
  }

  /** Two accepted words whose extracted bits differ in the highest one only. */
  lemma TopBitWords(f: SubFilter, marker: char) returns (low: ResultPart, high: ResultPart)
    requires MarkerBits(f.chars, marker) > 0 && !Demands(marker)
    ensures Accepts(f.chars, low.matchedWord) && Accepts(f.chars, high.matchedWord)
    ensures var n := MarkerBits(f.chars, marker) - 1;
            && n < 32 && PartBits(f, high, marker)[..n] == PartBits(f, low, marker)[..n]
            && Extracted(f.chars, marker, high.matchedWord) != Extracted(f.chars, marker, low.matchedWord)
  {
    PickLength(ZERO, ExtractMaskOf(f.chars, ToLower(marker)), 0);
    var n := MarkerBits(f.chars, marker) - 1;
    low := ResultPart(true, AcceptedWith(f, marker, ZERO));
    high := ResultPart(true, AcceptedWith(f, marker, OneBit(n)));
    AcceptedWithValue(f, marker, ZERO);
    AcceptedWithValue(f, marker, OneBit(n));
    assert Pad(PartBits(f, low, marker), 32) == ZERO && Pad(PartBits(f, high, marker), 32) == OneBit(n);
    assert PartBits(f, low, marker)[..n] == ZERO[..n] && PartBits(f, high, marker)[..n] == OneBit(n)[..n];
    assert OneBit(n)[n] && !ZERO[n];
  }

  /** Words that every part can hold. */
  function SomeWords(fs: seq<SubFilter>): (parts: seq<ResultPart>)
    ensures Held(fs, parts)
  {
    seq(|fs|, i requires 0 <= i < |fs| => ResultPart(true, MatchValueOf(fs[i].chars)))
  }

  /** The part in which the 64 bits run out. */
  lemma {:induction false} LastFittingPart(fs: seq<SubFilter>, marker: char, n: nat) returns (m: nat)
    requires n <= |fs| && TotalBits(fs, marker, n) > 64
    ensures m < n && TotalBits(fs, marker, m) <= 64 < TotalBits(fs, marker, m + 1)
  {
    if TotalBits(fs, marker, n - 1) > 64 {
      m := LastFittingPart(fs, marker, n - 1);
    } else {
      m := n - 1;
    }
  }

  lemma {:induction false} OverflowLosesBits(fs: seq<SubFilter>, marker: char)
    requires TotalBits(fs, marker, |fs|) > 64 && !Demands(marker)
    ensures !Lossless(fs, marker)
  {
    var m := LastFittingPart(fs, marker, |fs|);
    var low, high := TopBitWords(fs[m], marker);
    var a, b := SomeWords(fs)[m := low], SomeWords(fs)[m := high];
    assert a[m] == low && b[m] == high;
    TopBitCutOff(fs, marker, m, a, b);
    assert Held(fs, a) && Held(fs, b);
    assert !SameParts(fs, a, b, marker);
  }

  lemma TopBitCutOff(fs: seq<SubFilter>, marker: char, m: nat, a: seq<ResultPart>, b: seq<ResultPart>)
    requires m < |fs| == |a| == |b| && a[..m] == b[..m]
    requires TotalBits(fs, marker, m) <= 64 < TotalBits(fs, marker, m + 1)
    requires var n := MarkerBits(fs[m].chars, marker) - 1;
             0 <= n && PartBits(fs[m], b[m], marker)[..n] == PartBits(fs[m], a[m], marker)[..n]
    ensures Result(fs, a, marker) == Result(fs, b, marker)
  {
    PackedLocal(fs, a, b, marker, m);
    SameWithoutTop(Packed(fs, a, marker, m), PartBits(fs[m], a[m], marker), PartBits(fs[m], b[m], marker));
    CutOffEarlier(fs, a, marker, m + 1);
    CutOffEarlier(fs, b, marker, m + 1);
  }

  /** Parts beyond the 64 bits make no difference. */
  lemma CutOffEarlier(fs: seq<SubFilter>, parts: seq<ResultPart>, marker: char, n: nat)
    requires n <= |fs| == |parts| && TotalBits(fs, marker, n) >= 64
    ensures Result(fs, parts, marker) == Fit(Packed(fs, parts, marker, n), 64)
  {
    PackedPrefix(fs, parts, marker, n, |fs|);
    var all, some := Packed(fs, parts, marker, |fs|), Packed(fs, parts, marker, n);
    assert all[..|some|] == some;
    assert all[..64] == some[..64];
  }

  lemma SameWithoutTop(p: seq<bool>, x: seq<bool>, y: seq<bool>)
    requires |x| == |y| > 0 && x[..|x| - 1] == y[..|y| - 1] && |p| <= 64 < |p| + |x|
    ensures Fit(p + x, 64) == Fit(p + y, 64)
  {
    forall i | 0 <= i < 64 ensures (p + x)[i] == (p + y)[i] {
      if i >= |p| {
        assert x[..|x| - 1][i - |p|] == y[..|y| - 1][i - |p|];
      }
    }
  }

  /** Words that the parts can hold are told apart by the result, as far as the marker goes, exactly
      if all marker bits together are at most 64, or the marker is one of the characters that leave
      nothing to tell apart. */
  lemma LosslessIff(fs: seq<SubFilter>, marker: char)
    ensures Lossless(fs, marker) <==> TotalBits(fs, marker, |fs|) <= 64 || Demands(marker)
  {
    if Demands(marker) {
      DemandedIsLossless(fs, marker);
    } else if TotalBits(fs, marker, |fs|) <= 64 {
      FittingIsLossless(fs, marker);
    } else {
      OverflowLosesBits(fs, marker);
    }
  }
}

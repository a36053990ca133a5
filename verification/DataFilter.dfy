/** Word filters given by a pattern string: matching by mask and value, extraction of the bits
    under a marker character, and the cache of extraction masks. */
module DataFilters {
  import opened Wrappers
  import opened Bits

  const MAX_FILTER_SIZE := 32

  /** std::tolower for the characters used in filters. */
  function ToLower(c: char): char {
    if 'A' <= c <= 'Z' then (c as int - 'A' as int + 'a' as int) as char else c
  }

  /** A digit character or the number itself. */
  predicate IsZeroChar(c: char) { c == '0' || c == 0 as char }

  predicate IsOneChar(c: char) { c == '1' || c == 1 as char }

  /** The character responsible for bit `i`: the last one stands for the lowest bit. */
  function CharFor(chars: seq<char>, i: nat): char
    requires i < |chars|
  {
    chars[|chars| - i - 1]
  }

  function RemoveSpaces(s: seq<char>): seq<char> {
    if s == [] then []
    else (if s[0] != ' ' then [s[0]] else []) + RemoveSpaces(s[1..])
  }

  // ---------------------------------------------------------------------
  // What a filter string means

  /** The pattern reading of a filter: every '1' demands a set bit, every '0' a clear one. */
  ghost predicate Accepts(chars: seq<char>, w: Word)
    requires |chars| <= MAX_FILTER_SIZE
  {
    forall i :: 0 <= i < |chars| ==>
      (IsOneChar(CharFor(chars, i)) ==> w[i]) && (IsZeroChar(CharFor(chars, i)) ==> !w[i])
  }

  function MatchMaskOf(chars: seq<char>): Word {
    seq(32, i requires 0 <= i < 32 =>
      i < |chars| && (IsZeroChar(CharFor(chars, i)) || IsOneChar(CharFor(chars, i))))
  }

  function MatchValueOf(chars: seq<char>): Word {
    seq(32, i requires 0 <= i < 32 => i < |chars| && IsOneChar(CharFor(chars, i)))
  }

  /** The bits of the (lower case) marker. */
  function ExtractMaskOf(chars: seq<char>, marker: char): Word {
    seq(32, i requires 0 <= i < 32 => i < |chars| && ToLower(CharFor(chars, i)) == marker)
  }

  /** The extraction result by its per-bit meaning, see Bits.GatherMeaning. */
  function Extracted(chars: seq<char>, marker: char, w: Word): Word {
    Gathered(w, ExtractMaskOf(chars, ToLower(marker)))
  }

  function MarkerBits(chars: seq<char>, marker: char): nat {
    PopCount(ExtractMaskOf(chars, ToLower(marker)))
  }

  /** Comparing under the compiled mask is the same as reading the pattern. */
  lemma MaskComparisonIsPattern(chars: seq<char>, w: Word)
    requires |chars| <= MAX_FILTER_SIZE
    ensures And(w, MatchMaskOf(chars)) == MatchValueOf(chars) <==> Accepts(chars, w)
  {
    var m, v, a := MatchMaskOf(chars), MatchValueOf(chars), And(w, MatchMaskOf(chars));
    if a == v {
      forall i | 0 <= i < |chars|
        ensures (IsOneChar(CharFor(chars, i)) ==> w[i]) && (IsZeroChar(CharFor(chars, i)) ==> !w[i])
      {
        assert a[i] == v[i];
      }
    }
    if Accepts(chars, w) {
      forall i | 0 <= i < 32 ensures a[i] == v[i] {
      }
    }
  }

  // ---------------------------------------------------------------------
  // The filter object

  datatype CacheEntry = CacheEntry(mask: Word, needGather: bool)

  class DataFilter {
    const chars: seq<char>
    const matchWordIndex: int
    var extractCache: map<char, CacheEntry>
    var matchMask: Word
    var matchValue: Word

    /** Every cached entry is the one that would be computed now. */
    ghost predicate Valid()
      reads this
    {
      && |chars| <= MAX_FILTER_SIZE
      && matchMask == MatchMaskOf(chars)
      && matchValue == MatchValueOf(chars)
      && forall c :: c in extractCache ==>
           extractCache[c].mask == ExtractMaskOf(chars, c) &&
           (extractCache[c].needGather <==> HasGap(ExtractMaskOf(chars, c)))
    }

    constructor (filter: seq<char>, wordIndex: int)
      requires |filter| <= MAX_FILTER_SIZE   // a longer one makes the original throw, see MakeFilter
      ensures Valid() && chars == filter && matchWordIndex == wordIndex
      ensures extractCache == map[]
    {
      chars := filter;
      matchWordIndex := wordIndex;
      new;
      Compile();
    }

    method Compile()
      requires |chars| <= MAX_FILTER_SIZE
      modifies this
      ensures Valid() && extractCache == map[]
    {
      extractCache := map[];
      matchMask, matchValue := ZERO, ZERO;
      for i := 0 to |chars|
        invariant extractCache == map[]
        invariant forall k :: 0 <= k < i ==>
                    matchMask[k] == MatchMaskOf(chars)[k] && matchValue[k] == MatchValueOf(chars)[k]
        invariant forall k :: i <= k < 32 ==> !matchMask[k] && !matchValue[k]
      {
        var c := CharFor(chars, i);
        if IsZeroChar(c) || IsOneChar(c) {
          matchMask := matchMask[i := true];
        }
        if IsOneChar(c) {
          matchValue := matchValue[i := true];
        }
      }
    }

    /** Accepts a word when its index fits and the word reads like the pattern. */
    predicate Matches(value: Word, wordIndex: int)
      requires Valid()
      reads this
      ensures Matches(value, wordIndex) <==>
                (matchWordIndex < 0 || matchWordIndex == wordIndex) && Accepts(chars, value)
    {
      MaskComparisonIsPattern(chars, value);
      (matchWordIndex < 0 || matchWordIndex == wordIndex) && And(value, matchMask) == matchValue
    }

    method GetExtractMask(marker: char) returns (result: Word)
      requires Valid()
      modifies `extractCache
      ensures Valid() && result == ExtractMaskOf(chars, ToLower(marker))
      ensures ToLower(marker) in extractCache && old(extractCache.Keys) <= extractCache.Keys
    {
      var m := ToLower(marker);
      if m in extractCache {
        result := extractCache[m].mask;
      } else {
        result := ZERO;
        var markerSeen, gapSeen, needGather := false, false, false;
        ghost var mask := ExtractMaskOf(chars, m);
        for i := 0 to |chars|
          invariant |result| == 32
          invariant forall k :: 0 <= k < i ==> result[k] == mask[k]
          invariant forall k :: i <= k < 32 ==> !result[k]
          invariant markerSeen <==> exists j :: 0 <= j < i && mask[j]
          invariant gapSeen <==> exists j, k :: 0 <= j < k < i && mask[j] && !mask[k]
          invariant needGather <==> exists j, k, l :: 0 <= j < k < l < i && mask[j] && !mask[k] && mask[l]
        {
          var c := ToLower(CharFor(chars, i));
          assert mask[i] <==> c == m;
          if c == m {
            if markerSeen && gapSeen {
              needGather := true;
            }
            result := result[i := true];
            markerSeen := true;
          } else if markerSeen {
            gapSeen := true;
          }
        }
        assert result == mask;
        extractCache := extractCache[m := CacheEntry(result, needGather)];
      }
    }

    method GetExtractShift(marker: char) returns (shift: nat)
      requires Valid()
      modifies `extractCache
      ensures Valid() && shift == TrailingZeroes(ExtractMaskOf(chars, ToLower(marker)))
      ensures old(extractCache.Keys) <= extractCache.Keys
    {
      var mask := GetExtractMask(marker);
      shift := TrailingZeroes(mask);
    }

    method GetExtractBits(marker: char) returns (bits: nat)
      requires Valid()
      modifies `extractCache
      ensures Valid() && bits == MarkerBits(chars, marker)
    {
      var mask := GetExtractMask(marker);
      bits := PopCount(mask);
    }

    /** The gather step is needed exactly if the marker positions have a gap. */
    method NeedGather(marker: char) returns (need: bool)
      requires Valid()
      modifies `extractCache
      ensures Valid() && (need <==> HasGap(ExtractMaskOf(chars, ToLower(marker))))
    {
      var _ := GetExtractMask(marker);
      need := extractCache[ToLower(marker)].needGather;
    }

    /** Whatever was cached before, the result is the per-bit extraction. */
    method ExtractData(value: Word, marker: char) returns (result: Word)
      requires Valid()
      modifies `extractCache
      ensures Valid() && result == Extracted(chars, marker, value)
    {
      var m := ToLower(marker);
      assert ToLower(m) == m;
      var mask := GetExtractMask(m);
      var shift := GetExtractShift(m);
      result := Shr(And(value, mask), shift);
      if extractCache[m].needGather {
        ShiftThenGather(value, mask);
        result := BitGather(result, Shr(mask, shift));
      } else {
        ShiftExtracts(value, mask);
      }
    }
  }

  /** makeFilterFromBytes(): spaces do not count; None stands for the length error. */
  method MakeFilter(raw: seq<char>, wordIndex: int) returns (r: Option<DataFilter>)
    ensures r.None? <==> |RemoveSpaces(raw)| > MAX_FILTER_SIZE
    ensures r.Some? ==> fresh(r.value) && r.value.Valid() && r.value.chars == RemoveSpaces(raw)
    ensures r.Some? ==> r.value.matchWordIndex == wordIndex
  {
    var filterData: seq<char> := [];
    for i := 0 to |raw|
      invariant filterData + RemoveSpaces(raw[i..]) == RemoveSpaces(raw)
    {
      assert raw[i..][0] == raw[i] && raw[i..][1..] == raw[i + 1..];
      if raw[i] != ' ' {
        filterData := filterData + [raw[i]];
      }
    }
    if |filterData| > MAX_FILTER_SIZE {
      r := None;
    } else {
      var f := new DataFilter(filterData, wordIndex);
      r := Some(f);
    }
  }

  /** Extraction inverts scattering: for every filter, marker and every value that fits the
      marker bits, the word with the value scattered over the marker gives the value back. */
  lemma ExtractScattered(chars: seq<char>, marker: char, v: Word)
    requires forall k :: MarkerBits(chars, marker) <= k < 32 ==> !v[k]
    ensures Extracted(chars, marker, Scattered(v, ExtractMaskOf(chars, ToLower(marker)))) == v
  {
    GatherScatter(v, ExtractMaskOf(chars, ToLower(marker)));
  }

  /** Case does not matter for the marker, and an absent marker extracts zero. */
  lemma MarkerCaseAndAbsence(chars: seq<char>, marker: char, w: Word)
    ensures Extracted(chars, ToLower(marker), w) == Extracted(chars, marker, w)
    ensures (forall i :: 0 <= i < |chars| ==> ToLower(CharFor(chars, i)) != ToLower(marker)) ==>
              Extracted(chars, marker, w) == ZERO
  {
    var m := ExtractMaskOf(chars, ToLower(marker));
    if forall i :: 0 <= i < |chars| ==> ToLower(CharFor(chars, i)) != ToLower(marker) {
      PickSkip(w, m, 0, 32);
    }
  }
}

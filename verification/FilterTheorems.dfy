/** What a filter string means, character by character from its front: each character stands for one
    bit, the last one for the lowest. */
module FilterTheorems {
  import opened Wrappers
  import opened Bits
  import opened DataFilters
  import opened SplitSpec
  import opened MultiEventSplitter

  // ---------------------------------------------------------------------
  // Matching

  lemma SameCharacters(c: char, s: seq<char>, i: nat)
    requires i <= |s|
    ensures CharFor([c] + s, i) == if i < |s| then CharFor(s, i) else c
  {
  }

  lemma EmptyAccepts(w: Word)
    ensures Accepts([], w)
  {
  }

  /** A character in front of a filter speaks of the next higher bit and changes nothing else. */
  lemma AcceptsFront(c: char, s: seq<char>, w: Word)
    requires |s| < MAX_FILTER_SIZE
    ensures Accepts([c] + s, w) <==> Accepts(s, w) && (IsOneChar(c) ==> w[|s|]) && (IsZeroChar(c) ==> !w[|s|])
  {
    forall i | 0 <= i <= |s| ensures CharFor([c] + s, i) == if i < |s| then CharFor(s, i) else c {
      SameCharacters(c, s, i);
    }
    if Accepts([c] + s, w) {
      forall i | 0 <= i < |s|
        ensures (IsOneChar(CharFor(s, i)) ==> w[i]) && (IsZeroChar(CharFor(s, i)) ==> !w[i])
      {
        assert CharFor([c] + s, i) == CharFor(s, i);
      }
      assert CharFor([c] + s, |s|) == c;
    }
  }

  predicate IsDigit(c: char) { c == '0' || c == '1' || c == 0 as char || c == 1 as char }

  predicate IsNumber(s: seq<char>) { forall i :: 0 <= i < |s| ==> IsDigit(s[i]) }

  function Digit(c: char): nat { if c == '1' || c == 1 as char then 1 else 0 }

  /** The binary number that a string of digits denotes. */
  function Denotes(s: seq<char>): nat {
    if s == [] then 0 else Digit(s[0]) * Pow2(|s| - 1) + Denotes(s[1..])
  }

  lemma {:induction false} DenotesBound(s: seq<char>)
    ensures Denotes(s) < Pow2(|s|)
  {
    if s != [] {
      DenotesBound(s[1..]);
    }
  }

  lemma ValueFront(w: Word, n: nat)
    requires n < 32
    ensures Value(w[..n + 1]) == (if w[n] then Pow2(n) else 0) + Value(w[..n])
    ensures Value(w[..n]) < Pow2(n)
  {
    assert w[..n + 1] == w[..n] + [w[n]];
    ValueConcat(w[..n], [w[n]]);
    assert Value([w[n]]) == if w[n] then 1 else 0;
    ValueBound(w[..n]);
  }

  lemma TopDigit(p: nat, x: nat, a: nat, y: nat, b: nat)
    requires x < p && y < p && a <= 1 && b <= 1
    ensures a * p + x == b * p + y <==> a == b && x == y
  {
  }

  /** A filter of digits only accepts exactly the words whose low bits are the number it denotes. */
  lemma {:induction false} NumberAccepts(s: seq<char>, w: Word)
    requires |s| <= MAX_FILTER_SIZE && IsNumber(s)
    ensures Accepts(s, w) <==> Value(w[..|s|]) == Denotes(s)
  {
    if s != [] {
      var n := |s| - 1;
      assert s == [s[0]] + s[1..];
      NumberAccepts(s[1..], w);
      AcceptsFront(s[0], s[1..], w);
      ValueFront(w, n);
      DenotesBound(s[1..]);
      TopDigit(Pow2(n), Value(w[..n]), if w[n] then 1 else 0, Denotes(s[1..]), Digit(s[0]));
    }
  }

  // ---------------------------------------------------------------------
  // Markers

  /** The same letter, capital or not, or the same other character. */
  predicate SameLetter(c: char, d: char) {
    || c == d
    || ('A' <= c <= 'Z' && d as int == c as int + 32)
    || ('A' <= d <= 'Z' && c as int == d as int + 32)
  }

  lemma ToLowerIff(c: char, d: char)
    ensures ToLower(c) == ToLower(d) <==> SameLetter(c, d)
  {
  }

  lemma EmptyMask(marker: char)
    ensures ExtractMaskOf([], marker) == ZERO
  {
  }

  /** A character in front adds its bit to the mask if it is the marker. */
  lemma MaskFront(c: char, s: seq<char>, marker: char)
    requires |s| < MAX_FILTER_SIZE
    ensures ExtractMaskOf([c] + s, ToLower(marker)) == ExtractMaskOf(s, ToLower(marker))[|s| := SameLetter(c, marker)]
  {
    var m := ExtractMaskOf([c] + s, ToLower(marker));
    var n := ExtractMaskOf(s, ToLower(marker))[|s| := SameLetter(c, marker)];
    ToLowerIff(c, marker);
    forall i | 0 <= i < 32 ensures m[i] == n[i] {
      if i <= |s| { SameCharacters(c, s, i); }
    }
  }

  /** One more mask bit above all others picks one more bit. */
  lemma {:induction false} PickTop(w: seq<bool>, m: seq<bool>, n: nat, i: nat)
    requires |w| == |m| && i <= n < |m| && forall k :: n <= k < |m| ==> !m[k]
    ensures PickFrom(w, m[n := true], i) == PickFrom(w, m, i) + [w[n]]
    decreases n - i
  {
    var t := m[n := true];
    if i == n {
      PickSkip(w, m, n, |m|);
      PickSkip(w, t, n + 1, |m|);
    } else {
      PickTop(w, m, n, i + 1);
      assert t[i] == m[i];
      assert PickFrom(w, m, i) + [w[n]] == (if m[i] then [w[i]] else []) + (PickFrom(w, m, i + 1) + [w[n]]);
    }
  }

  lemma NoBitsAbove(s: seq<char>, marker: char)
    requires |s| <= MAX_FILTER_SIZE
    ensures forall k :: |s| <= k < 32 ==> !ExtractMaskOf(s, marker)[k]
  {
  }

  /** The marker bits of a word, read from the front of the filter, are the binary digits of the
      extracted value: a marker character in front adds the next higher digit, any other nothing. */
  lemma ExtractFront(c: char, s: seq<char>, marker: char, w: Word)
    requires |s| < MAX_FILTER_SIZE
    ensures Value(Extracted([c] + s, marker, w)) ==
            Value(Extracted(s, marker, w)) +
            if SameLetter(c, marker) && w[|s|] then Pow2(MarkerBits(s, marker)) else 0
    ensures MarkerBits([c] + s, marker) == MarkerBits(s, marker) + if SameLetter(c, marker) then 1 else 0
  {
    var m, n := ExtractMaskOf(s, ToLower(marker)), |s|;
    NoBitsAbove(s, ToLower(marker));
    MaskFront(c, s, marker);
    PickLength(w, m, 0);
    PaddingKeepsValue(PickFrom(w, m, 0), 32);
    if SameLetter(c, marker) {
      PickTop(w, m, n, 0);
      PickLength(w, m[n := true], 0);
      PaddingKeepsValue(PickFrom(w, m[n := true], 0), 32);
      ValueConcat(PickFrom(w, m, 0), [w[n]]);
      assert Value([w[n]]) == if w[n] then 1 else 0;
    } else {
      assert m[n := false] == m;
    }
  }

  lemma EmptyExtracts(marker: char, w: Word)
    ensures Value(Extracted([], marker, w)) == 0 && MarkerBits([], marker) == 0
  {
    EmptyMask(ToLower(marker));
    MarkerCaseAndAbsence([], marker, w);
    RankOfClear(ZERO, 32);
    ValueZeros(32);
  }

  // ---------------------------------------------------------------------
  // Spaces

  /** Leaving spaces out keeps all other characters in order. */
  lemma {:induction false} SpacesOfConcat(a: seq<char>, b: seq<char>)
    ensures RemoveSpaces(a + b) == RemoveSpaces(a) + RemoveSpaces(b)
  {
    if a == [] {
      assert a + b == b;
    } else {
      SpacesOfConcat(a[1..], b);
      assert (a + b)[1..] == a[1..] + b && (a + b)[0] == a[0];
    }
  }

  lemma SpaceIsNothing(c: char)
    ensures RemoveSpaces([c]) == if c == ' ' then [] else [c]
  {
    assert [c][1..] == [];
  }

  // ---------------------------------------------------------------------
  // Header filters

  lemma SpaceInFront(c: char, s: seq<char>)
    ensures RemoveSpaces([c] + s) == if c == ' ' then RemoveSpaces(s) else [c] + RemoveSpaces(s)
  {
    SpacesOfConcat([c], s);
    SpaceIsNothing(c);
  }

  /** The size of a subevent is read from the bits under 'S' and 's'. */
  lemma SizeMaskFront(c: char, s: seq<char>)
    requires CompileFilter([c] + s).Some?
    ensures CompileFilter(s).Some?
    ensures var m, n := CompileFilter(s).value.sizeMask, |RemoveSpaces(s)|;
            if c == ' ' then CompileFilter([c] + s) == CompileFilter(s)
            else n < 32 && CompileFilter([c] + s).value.sizeMask == m[n := c == 'S' || c == 's']
  {
    SpaceInFront(c, s);
    if c != ' ' {
      MaskFront(c, RemoveSpaces(s), 'S');
    }
  }

  lemma EmptyFilter()
    ensures CompileFilter([]) == Some(HeaderFilter(ZERO, ZERO, ZERO))
  {
    EmptyMask(ToLower('S'));
    assert MatchMaskOf([]) == ZERO && MatchValueOf([]) == ZERO;
  }

  /** A filter demands something of a word iff it has a digit. */
  lemma {:induction false} DemandsIff(s: seq<char>)
    requires |s| <= MAX_FILTER_SIZE
    ensures MatchMaskOf(s) != ZERO <==> exists i :: 0 <= i < |s| && IsDigit(s[i])
  {
    if i :| 0 <= i < |s| && IsDigit(s[i]) {
      assert CharFor(s, |s| - 1 - i) == s[i];
      assert MatchMaskOf(s)[|s| - 1 - i];
    } else {
      forall i | 0 <= i < 32 ensures !MatchMaskOf(s)[i] {
        if i < |s| { assert CharFor(s, i) == s[|s| - 1 - i]; }
      }
      assert MatchMaskOf(s) == ZERO;
    }
  }

  /** The string has a digit somewhere. */
  ghost predicate HasDigit(raw: seq<char>) { exists i :: 0 <= i < |raw| && IsDigit(raw[i]) }

  lemma {:induction false} DigitsStay(raw: seq<char>)
    ensures HasDigit(RemoveSpaces(raw)) <==> HasDigit(raw)
  {
    if raw != [] {
      var c, s := raw[0], raw[1..];
      assert raw == [c] + s;
      SpaceInFront(c, s);
      DigitsStay(s);
      DigitInFront(c, s);
      DigitInFront(c, RemoveSpaces(s));
    }
  }

  lemma DigitInFront(c: char, s: seq<char>)
    ensures HasDigit([c] + s) <==> IsDigit(c) || HasDigit(s)
  {
    if IsDigit(c) { assert ([c] + s)[0] == c; }
    if i :| 0 <= i < |s| && IsDigit(s[i]) { assert ([c] + s)[i + 1] == s[i]; }
  }

  /** Splitting is enabled for an event iff one of its filter strings has a digit. */
  lemma SplittingWantedIff(strings: seq<seq<char>>, fs: seq<HeaderFilter>)
    requires Compiled(strings, fs)
    ensures WantsSplitting(fs) <==> exists m :: 0 <= m < |strings| && HasDigit(strings[m])
  {
    forall m | 0 <= m < |strings| ensures fs[m].matchMask != ZERO <==> HasDigit(strings[m]) {
      assert CompileFilter(strings[m]) == Some(fs[m]);
      DemandsIff(RemoveSpaces(strings[m]));
      DigitsStay(strings[m]);
    }
  }
}

/** What splitting the multi-event data of one module means, independent of all other modules. */
module SplitSpec {
  import opened Bits
  import opened DataFilters

  const U32_RANGE := 0x1_0000_0000

  /** A module header filter; an empty size mask means that it has no 'S' characters. */
  datatype HeaderFilter = HeaderFilter(matchMask: Word, matchValue: Word, sizeMask: Word)

  predicate Matches(f: HeaderFilter, w: Word) {
    And(w, f.matchMask) == f.matchValue
  }

  function AnnouncedSize(f: HeaderFilter, w: Word): nat {
    Value(Gathered(w, f.sizeMask))
  }

  /** How the size of a subevent is found when its header does not carry one. The loop of the
      original is `AsWritten`; what its interface comment describes is `Documented`. */
  datatype SearchRule = AsWritten | Documented

  /** `Endless` is a search loop that never ends. */
  datatype Size = Endless | Words(n: nat)

  /** The first word from `i` upwards that is a header; |d| if there is none. */
  function NextHeader(f: HeaderFilter, d: seq<Word>, i: nat): (r: nat)
    requires i <= |d|
    ensures i <= r <= |d|
    ensures r < |d| ==> Matches(f, d[r])
    ensures forall k :: i <= k < r ==> !Matches(f, d[k])
    decreases |d| - i
  {
    if i == |d| || Matches(f, d[i]) then i else NextHeader(f, d, i + 1)
  }

  /** The size of the subevent at the start of `d` in 32 bit arithmetic, header included. The
      search as written looks at the second word only: it stops there if that is a header or past
      the end, counts the header twice, and otherwise never gets any further. */
  function HeaderSize(rule: SearchRule, f: HeaderFilter, d: seq<Word>): Size
    requires |d| > 0
  {
    if f.sizeMask != ZERO then Words((1 + AnnouncedSize(f, d[0])) % U32_RANGE)
    else if rule.Documented? then Words(NextHeader(f, d, 1))
    else if |d| == 1 || Matches(f, d[1]) then Words(2)
    else Endless
  }

  /** What one splitting pass does to the data left of a module. A size of zero is `Stuck` as well:
      the data never shrinks and its header keeps matching. */
  datatype Cut = NoHeader | Stuck | Truncated | Piece(n: nat)

  function NextCut(rule: SearchRule, f: HeaderFilter, d: seq<Word>): (c: Cut)
    ensures c.Piece? ==> 0 < c.n <= |d|
  {
    if |d| == 0 || !Matches(f, d[0]) then NoHeader
    else
      match HeaderSize(rule, f, d)
      case Endless => Stuck
      case Words(n) => if n == 0 then Stuck else if n > |d| then Truncated else Piece(n)
  }

  /** The greedy split of a module's data alone; a truncated last step yields an empty piece. */
  function Pieces(rule: SearchRule, f: HeaderFilter, d: seq<Word>): seq<seq<Word>>
    decreases |d|
  {
    match NextCut(rule, f, d)
    case NoHeader => []
    case Stuck => []
    case Truncated => [[]]
    case Piece(n) => [d[..n]] + Pieces(rule, f, d[n..])
  }

  /** Whether the split of this data never ends. */
  predicate Sticks(rule: SearchRule, f: HeaderFilter, d: seq<Word>)
    decreases |d|
  {
    match NextCut(rule, f, d)
    case NoHeader => false
    case Stuck => true
    case Truncated => false
    case Piece(n) => Sticks(rule, f, d[n..])
  }

  /** What remains behind the last complete piece. */
  function Leftover(rule: SearchRule, f: HeaderFilter, d: seq<Word>): seq<Word>
    decreases |d|
  {
    match NextCut(rule, f, d)
    case NoHeader => d
    case Stuck => d
    case Truncated => d
    case Piece(n) => Leftover(rule, f, d[n..])
  }

  function PieceAt(ps: seq<seq<Word>>, i: nat): seq<Word> {
    if i < |ps| then ps[i] else []
  }

  function Flatten(ps: seq<seq<Word>>): seq<Word> {
    if ps == [] then [] else ps[0] + Flatten(ps[1..])
  }

  // ---------------------------------------------------------------------
  // No word is lost, duplicated or reordered

  /** The pieces concatenate to a prefix of the data, the leftover is the rest. */
  lemma {:induction false} NothingLost(rule: SearchRule, f: HeaderFilter, d: seq<Word>)
    ensures Flatten(Pieces(rule, f, d)) + Leftover(rule, f, d) == d
    decreases |d|
  {
    match NextCut(rule, f, d)
    case NoHeader =>
    case Stuck =>
    case Truncated =>
      var none: seq<seq<Word>> := [[]];
      assert none[1..] == [];
    case Piece(n) =>
      NothingLost(rule, f, d[n..]);
      var rest := Pieces(rule, f, d[n..]);
      assert ([d[..n]] + rest)[1..] == rest;
      assert d == d[..n] + d[n..];
  }

  /** The leftover is empty, starts with a word the filter rejects, announces more words than
      remain, or is where the split never ends, which it is iff the split does not end. */
  lemma {:induction false} LeftoverCannotBeCut(rule: SearchRule, f: HeaderFilter, d: seq<Word>)
    ensures var c := NextCut(rule, f, Leftover(rule, f, d));
            !c.Piece? && (Sticks(rule, f, d) <==> c.Stuck?)
    decreases |d|
  {
    var c := NextCut(rule, f, d);
    if c.Piece? {
      LeftoverCannotBeCut(rule, f, d[c.n..]);
    }
  }

  /** Only the last piece can be empty, and it is iff the leftover announces too many words. */
  lemma {:induction false} OnlyTruncationIsEmpty(rule: SearchRule, f: HeaderFilter, d: seq<Word>)
    ensures var ps := Pieces(rule, f, d);
            (forall i :: 0 <= i < |ps| && ps[i] == [] ==> i == |ps| - 1)
            && ([] in ps <==> NextCut(rule, f, Leftover(rule, f, d)).Truncated?)
    decreases |d|
  {
    var c := NextCut(rule, f, d);
    if c.Piece? {
      OnlyTruncationIsEmpty(rule, f, d[c.n..]);
      var rest := Pieces(rule, f, d[c.n..]);
      assert Pieces(rule, f, d) == [d[..c.n]] + rest;
      forall i | 0 <= i < |rest| + 1 && ([d[..c.n]] + rest)[i] == [] ensures i == |rest| {
        assert i > 0 && rest[i - 1] == [];
      }
    }
  }

  // ---------------------------------------------------------------------
  // Splitting inverts joining

  /** A subevent as the module writes it: the header matches and announces the words behind it, or
      no later word looks like a header. */
  ghost predicate WellFormed(f: HeaderFilter, e: seq<Word>) {
    && 0 < |e| < U32_RANGE
    && Matches(f, e[0])
    && (if f.sizeMask != ZERO then AnnouncedSize(f, e[0]) == |e| - 1
        else forall k :: 1 <= k < |e| ==> !Matches(f, e[k]))
  }

  lemma CutOfJoined(rule: SearchRule, f: HeaderFilter, e: seq<Word>, rest: seq<Word>)
    requires WellFormed(f, e)
    requires f.sizeMask == ZERO ==> rule.Documented? && (rest == [] || Matches(f, rest[0]))
    ensures NextCut(rule, f, e + rest) == Piece(|e|)
  {
    var d := e + rest;
    assert d[0] == e[0];
    assert forall k :: 1 <= k < |e| ==> d[k] == e[k];
    assert rest != [] ==> d[|e|] == rest[0];
  }

  /** The split of any concatenation of well-formed subevents is exactly these subevents. */
  lemma {:induction false} SplitInvertsJoin(rule: SearchRule, f: HeaderFilter, es: seq<seq<Word>>)
    requires forall e :: e in es ==> WellFormed(f, e)
    requires f.sizeMask == ZERO ==> rule.Documented?
    ensures Pieces(rule, f, Flatten(es)) == es && !Sticks(rule, f, Flatten(es))
    ensures Leftover(rule, f, Flatten(es)) == []
  {
    if es != [] {
      var e, rest := es[0], Flatten(es[1..]);
      SplitInvertsJoin(rule, f, es[1..]);
      if rest != [] {
        assert es[1..] != [];
        assert es[1] in es && WellFormed(f, es[1]);
        assert rest == es[1] + Flatten(es[1..][1..]);
      }
      CutOfJoined(rule, f, e, rest);
      assert (e + rest)[..|e|] == e && (e + rest)[|e|..] == rest;
      assert es == [e] + es[1..];
    }
  }

  // ---------------------------------------------------------------------
  // The header search as written

  /** The search as written never finds the documented size, whatever the data. */
  lemma WrittenSearchNeverAgrees(f: HeaderFilter, d: seq<Word>)
    requires f.sizeMask == ZERO && |d| > 0
    ensures HeaderSize(AsWritten, f, d) != HeaderSize(Documented, f, d)
    ensures HeaderSize(AsWritten, f, d).Words? ==>
              HeaderSize(AsWritten, f, d).n == HeaderSize(Documented, f, d).n + 1
  {
    if |d| > 1 && Matches(f, d[1]) {
      assert NextHeader(f, d, 1) == 1;
    }
  }

  /** As written, a concatenation of well-formed subevents is split correctly iff it is empty. */
  lemma WrittenSearchSplitsOnlyNothing(f: HeaderFilter, es: seq<seq<Word>>)
    requires forall e :: e in es ==> WellFormed(f, e)
    requires f.sizeMask == ZERO
    ensures (Pieces(AsWritten, f, Flatten(es)) == es && !Sticks(AsWritten, f, Flatten(es))) <==> es == []
  {
    if es != [] {
      var d := Flatten(es);
      var e := es[0];
      assert e in es && d == e + Flatten(es[1..]) && d[0] == e[0];
      if |e| > 1 {
        assert d[1] == e[1];
        assert NextCut(AsWritten, f, d).Stuck?;
      } else if |d| > 1 {
        assert NextCut(AsWritten, f, d) != Piece(1);
        assert |Pieces(AsWritten, f, d)| > 0 ==> |Pieces(AsWritten, f, d)[0]| != 1;
      }
    }
  }

  /** As written, splitting hangs iff the first word that is not a header has an odd position. */
  lemma {:induction false} WrittenSearchHangsIff(f: HeaderFilter, d: seq<Word>)
    requires f.sizeMask == ZERO
    ensures Sticks(AsWritten, f, d) <==> FirstOther(f, d) < |d| && FirstOther(f, d) % 2 == 1
    decreases |d|
  {
    if |d| >= 2 && Matches(f, d[0]) && Matches(f, d[1]) {
      WrittenSearchHangsIff(f, d[2..]);
      assert d[1..][1..] == d[2..];
      assert FirstOther(f, d) == 1 + FirstOther(f, d[1..]) == 2 + FirstOther(f, d[2..]);
    } else if |d| >= 2 && Matches(f, d[0]) {
      assert FirstOther(f, d) == 1 + FirstOther(f, d[1..]);
    }
  }

  /** The first word that is not a header. */
  function FirstOther(f: HeaderFilter, d: seq<Word>): (r: nat)
    ensures r <= |d|
  {
    if d == [] || !Matches(f, d[0]) then 0 else 1 + FirstOther(f, d[1..])
  }

  // ---------------------------------------------------------------------
  // The announced size and 32 bit arithmetic

  /** The size wraps to zero iff all 32 filter characters are 'S' and the header has all bits set. */
  lemma SizeWrapsIff(rule: SearchRule, f: HeaderFilter, d: seq<Word>)
    requires |d| > 0 && f.sizeMask != ZERO
    ensures HeaderSize(rule, f, d) == Words(0) <==> PopCount(f.sizeMask) == 32 && AllSet(d[0])
  {
    var bits := PickFrom(d[0], f.sizeMask, 0);
    PickLength(d[0], f.sizeMask, 0);
    PaddingKeepsValue(bits, 32);
    ValueBound(bits);
    ValueBound(Gathered(d[0], f.sizeMask));
    Pow2Monotonic(|bits|, 32);
    assert Pow2(32) == U32_RANGE by { Pow2Of32(); }
    if |bits| == 32 {
      FullMaskPicksAll(d[0], f.sizeMask, 0);
      assert bits == d[0];
      AllOnesIsMax(d[0]);
    } else {
      Pow2Monotonic(|bits| + 1, 32);
    }
  }

  ghost predicate AllSet(w: seq<bool>) {
    forall i :: 0 <= i < |w| ==> w[i]
  }

  lemma Pow2Of32()
    ensures Pow2(32) == U32_RANGE
  {
    assert Pow2(8) == 256;
    Pow2Add(8, 8);
    Pow2Add(16, 16);
  }

  lemma {:induction false} Pow2Monotonic(m: nat, n: nat)
    requires m <= n
    ensures Pow2(m) <= Pow2(n)
    ensures m < n ==> 2 * Pow2(m) <= Pow2(n)
    decreases n
  {
    if m < n {
      Pow2Monotonic(m, n - 1);
    }
  }

  lemma {:induction false} AllOnesIsMax(a: seq<bool>)
    ensures Value(a) == Pow2(|a|) - 1 <==> AllSet(a)
  {
    if a != [] {
      AllOnesIsMax(a[1..]);
      ValueBound(a[1..]);
      if AllSet(a) {
        assert AllSet(a[1..]);
      }
      if a[0] && AllSet(a[1..]) {
        forall i | 0 <= i < |a| ensures a[i] {
          if i > 0 { assert a[1..][i - 1] == a[i]; }
        }
      }
    }
  }

  lemma {:induction false} FullMaskPicksAll(w: Word, m: Word, i: nat)
    requires i <= 32 && |PickFrom(w, m, i)| == 32 - i
    ensures PickFrom(w, m, i) == w[i..]
    decreases 32 - i
  {
    if i < 32 {
      FullMaskPicksAll(w, m, i + 1);
    }
  }

  /** With an 'S' in the filter the split never ends iff the filter is 32 of them and what is left
      behind the last complete piece starts with a header that has all bits set. */
  lemma {:induction false} SizedFilterSticksIff(rule: SearchRule, f: HeaderFilter, d: seq<Word>)
    requires f.sizeMask != ZERO
    ensures var rest := Leftover(rule, f, d);
            Sticks(rule, f, d) <==>
            PopCount(f.sizeMask) == 32 && |rest| > 0 && Matches(f, rest[0]) && AllSet(rest[0])
    decreases |d|
  {
    if |d| > 0 {
      SizeWrapsIff(rule, f, d);
      var c := NextCut(rule, f, d);
      if c.Piece? {
        SizedFilterSticksIff(rule, f, d[c.n..]);
      }
    }
  }

  /** So with fewer than 32 of them no data makes the split run forever. */
  lemma SizedFiltersNeverStick(rule: SearchRule, f: HeaderFilter, d: seq<Word>)
    requires f.sizeMask != ZERO && PopCount(f.sizeMask) < 32
    ensures !Sticks(rule, f, d)
  {
    SizedFilterSticksIff(rule, f, d);
  }

  /** Neither does the documented search. */
  lemma {:induction false} DocumentedSearchNeverSticks(f: HeaderFilter, d: seq<Word>)
    requires f.sizeMask == ZERO
    ensures !Sticks(Documented, f, d)
    decreases |d|
  {
    var c := NextCut(Documented, f, d);
    if c.Piece? {
      DocumentedSearchNeverSticks(f, d[c.n..]);
    }
  }
}

/** What the calls of the multi-event splitter carry, module by module. */
module SplitterTheorems {
  import opened Wrappers
  import opened Bits
  import opened DataFilters
  import opened SplitSpec
  import opened MultiEventSplitter

  /** The words behind a block. */
  function BlockWords(mem: seq<Word>, b: DataBlock): seq<Word> {
    if b.data + b.size <= |mem| then mem[b.data..b.data + b.size] else []
  }

  predicate HeldAt<T(==)>(mem: seq<T>, begin: nat, words: seq<T>) {
    begin + |words| <= |mem| && mem[begin..begin + |words|] == words
  }

  lemma BothHeld<T>(mem: seq<T>, begin: nat, p: seq<T>, rest: seq<T>)
    requires HeldAt(mem, begin, p + rest)
    ensures HeldAt(mem, begin, p) && HeldAt(mem, begin + |p|, rest)
  {
    var d := mem[begin..begin + |p + rest|];
    assert mem[begin..begin + |p|] == d[..|p|];
    assert mem[begin + |p|..begin + |p| + |rest|] == d[|p|..];
  }

  lemma BlockHolds(mem: seq<Word>, begin: nat, p: seq<Word>)
    requires HeldAt(mem, begin, p)
    ensures BlockWords(mem, if p == [] then NO_BLOCK else DataBlock(begin, |p|)) == p
  {
  }

  lemma {:induction false} PlacedContents(mem: seq<Word>, begin: nat, ps: seq<seq<Word>>, i: nat)
    requires i < |ps| && HeldAt(mem, begin, Flatten(ps))
    ensures BlockWords(mem, Placed(begin, ps)[i]) == ps[i]
    decreases i
  {
    var p, later := ps[0], ps[1..];
    assert Flatten(ps) == p + Flatten(later);
    BothHeld(mem, begin, p, Flatten(later));
    if i == 0 {
      BlockHolds(mem, begin, p);
    } else {
      PlacedContents(mem, begin + |p|, later, i - 1);
      assert Placed(begin, ps)[i] == Placed(begin + |p|, later)[i - 1];
    }
  }

  lemma ContentsHeld(mem: seq<Word>, s: DataSpan, whole: seq<Word>, rest: seq<Word>)
    requires s.end <= |mem| && Contents(mem, s) == whole + rest && whole + rest != []
    ensures HeldAt(mem, s.begin, whole)
  {
    assert HeldAt(mem, s.begin, whole + rest);
    BothHeld(mem, s.begin, whole, rest);
  }

  lemma BlocksArePieces(rule: SearchRule, mem: seq<Word>, f: HeaderFilter, s: DataSpan, i: nat)
    requires s.end <= |mem|
    ensures BlockWords(mem, BlockAt(ModuleBlocks(rule, mem, f, s), i)) == PieceAt(Pieces(rule, f, Contents(mem, s)), i)
  {
    var d := Contents(mem, s);
    var ps, rest := Pieces(rule, f, d), Leftover(rule, f, d);
    if i < |ps| {
      assert d != [];
      NothingLost(rule, f, d);
      ContentsHeld(mem, s, Flatten(ps), rest);
      PlacedContents(mem, s.begin, ps, i);
      assert BlockAt(ModuleBlocks(rule, mem, f, s), i) == Placed(s.begin, ps)[i];
    }
  }

  /** The words of module `m` recorded for an event. */
  function ModuleWords(mem: seq<Word>, spans: seq<ModuleDataSpans>, m: nat): seq<Word>
    requires m < |spans| && SpansInMemory(mem, spans)
  {
    Contents(mem, spans[m].dynamicSpan)
  }

  /** Lock step refines independent splitting: in call `i` every module has the i-th piece of the
      greedy split of its own data, or nothing; whatever the other modules contain. */
  lemma LockStepIsIndependent(rule: SearchRule, mem: seq<Word>, fs: seq<HeaderFilter>,
                              spans: seq<ModuleDataSpans>,
                              ei: nat, calls: seq<EventCall>, outcome: Outcome, i: nat, m: nat)
    requires |spans| <= |fs| && SpansInMemory(mem, spans)
    requires SplitCalls(rule, mem, fs, spans, ei, calls, outcome)
    requires i < |calls| && m < |spans|
    ensures |calls[i].modules| == |spans|
    ensures BlockWords(mem, calls[i].modules[m].dynamic)
              == PieceAt(Pieces(rule, fs[m], ModuleWords(mem, spans, m)), i)
  {
    var g := AllBlocks(rule, mem, fs, spans);
    assert calls[i] == ExpectedCall(ei, spans, g, i);
    assert g[m] == ModuleBlocks(rule, mem, fs[m], spans[m].dynamicSpan);
    BlocksArePieces(rule, mem, fs[m], spans[m].dynamicSpan, i);
  }

  /** Prefix and suffix come with the first call and no other. */
  lemma StaticPartsComeFirst(rule: SearchRule, mem: seq<Word>, fs: seq<HeaderFilter>, spans: seq<ModuleDataSpans>,
                             ei: nat, calls: seq<EventCall>, outcome: Outcome, i: nat, m: nat)
    requires |spans| <= |fs| && SpansInMemory(mem, spans)
    requires SplitCalls(rule, mem, fs, spans, ei, calls, outcome)
    requires i < |calls| && m < |spans|
    ensures |calls[i].modules| == |spans|
    ensures calls[i].modules[m].prefix == (if i == 0 then WholeBlock(spans[m].prefixSpan) else NO_BLOCK)
    ensures calls[i].modules[m].suffix == (if i == 0 then WholeBlock(spans[m].suffixSpan) else NO_BLOCK)
  {
    assert calls[i] == ExpectedCall(ei, spans, AllBlocks(rule, mem, fs, spans), i);
  }

  // ---------------------------------------------------------------------
  // What all calls together deliver

  datatype Part = Prefix | Dynamic | Suffix

  function PartOf(d: ModuleData, p: Part): DataBlock {
    match p
    case Prefix => d.prefix
    case Dynamic => d.dynamic
    case Suffix => d.suffix
  }

  /** The words of one part of module `m`, over all calls. */
  function Delivered(mem: seq<Word>, calls: seq<EventCall>, m: nat, p: Part): seq<Word>
    requires forall i :: 0 <= i < |calls| ==> m < |calls[i].modules|
  {
    if calls == [] then []
    else
      var n := |calls| - 1;
      Delivered(mem, calls[..n], m, p) + BlockWords(mem, PartOf(calls[n].modules[m], p))
  }

  lemma {:induction false} FlattenOneMore(ps: seq<seq<Word>>, i: nat)
    requires i < |ps|
    ensures Flatten(ps[..i + 1]) == Flatten(ps[..i]) + ps[i]
  {
    if i == 0 {
      assert ps[..0] == [] && ps[..1][0] == ps[0] && ps[..1][1..] == [];
    } else {
      FlattenOneMore(ps[1..], i - 1);
      assert ps[..i + 1][1..] == ps[1..][..i] && ps[..i][1..] == ps[1..][..i - 1];
    }
  }

  /** In call `i` module `m` has the i-th of the pieces. */
  ghost predicate Carries(mem: seq<Word>, calls: seq<EventCall>, m: nat, ps: seq<seq<Word>>) {
    forall i :: 0 <= i < |calls| ==>
      m < |calls[i].modules| && BlockWords(mem, calls[i].modules[m].dynamic) == PieceAt(ps, i)
  }

  lemma {:induction false} DeliveredPieces(mem: seq<Word>, calls: seq<EventCall>, m: nat, ps: seq<seq<Word>>)
    requires Carries(mem, calls, m, ps)
    ensures Delivered(mem, calls, m, Dynamic) == Flatten(if |calls| <= |ps| then ps[..|calls|] else ps)
  {
    if calls != [] {
      var n := |calls| - 1;
      DeliveredPieces(mem, calls[..n], m, ps);
      if n < |ps| {
        FlattenOneMore(ps, n);
      }
      assert ps[..|ps|] == ps;
    }
  }

  lemma {:induction false} FlattenPrefix(ps: seq<seq<Word>>, i: nat)
    requires i <= |ps|
    ensures Flatten(ps[..i]) <= Flatten(ps)
    decreases |ps| - i
  {
    if i == |ps| {
      assert ps[..i] == ps;
    } else {
      FlattenOneMore(ps, i);
      FlattenPrefix(ps, i + 1);
    }
  }

  /** Over all calls of a walk every module's dynamic words come out in order, none twice: they are
      a prefix of what was recorded, and if the walk returns only the leftover of the module's own
      split is missing. */
  lemma DynamicWordsInOrder(rule: SearchRule, mem: seq<Word>, fs: seq<HeaderFilter>,
                            spans: seq<ModuleDataSpans>, ei: nat, calls: seq<EventCall>,
                            outcome: Outcome, m: nat)
    requires |spans| <= |fs| && SpansInMemory(mem, spans) && m < |spans|
    requires SplitCalls(rule, mem, fs, spans, ei, calls, outcome)
    ensures forall i :: 0 <= i < |calls| ==> m < |calls[i].modules|
    ensures Delivered(mem, calls, m, Dynamic) <= ModuleWords(mem, spans, m)
    ensures outcome == Returned(Ok) ==>
              Delivered(mem, calls, m, Dynamic) + Leftover(rule, fs[m], ModuleWords(mem, spans, m))
              == ModuleWords(mem, spans, m)
  {
    var d := ModuleWords(mem, spans, m);
    var ps := Pieces(rule, fs[m], d);
    CallsCarryPieces(rule, mem, fs, spans, ei, calls, outcome, m);
    DeliveredPieces(mem, calls, m, ps);
    NothingLost(rule, fs[m], d);
    if outcome == Returned(Ok) {
      EnoughCalls(rule, mem, fs, spans, ei, calls, outcome, m);
    }
    FirstPieces(ps, |calls|);
    PrefixOfConcat(Flatten(ps), Leftover(rule, fs[m], d));
  }

  lemma CallsCarryPieces(rule: SearchRule, mem: seq<Word>, fs: seq<HeaderFilter>,
                         spans: seq<ModuleDataSpans>, ei: nat, calls: seq<EventCall>,
                         outcome: Outcome, m: nat)
    requires |spans| <= |fs| && SpansInMemory(mem, spans) && m < |spans|
    requires SplitCalls(rule, mem, fs, spans, ei, calls, outcome)
    ensures Carries(mem, calls, m, Pieces(rule, fs[m], ModuleWords(mem, spans, m)))
  {
    forall i | 0 <= i < |calls|
      ensures m < |calls[i].modules|
      ensures BlockWords(mem, calls[i].modules[m].dynamic)
                == PieceAt(Pieces(rule, fs[m], ModuleWords(mem, spans, m)), i)
    {
      LockStepIsIndependent(rule, mem, fs, spans, ei, calls, outcome, i, m);
    }
  }

  lemma FirstPieces(ps: seq<seq<Word>>, n: nat)
    ensures Flatten(if n <= |ps| then ps[..n] else ps) <= Flatten(ps)
    ensures n >= |ps| ==> Flatten(if n <= |ps| then ps[..n] else ps) == Flatten(ps)
  {
    if n <= |ps| {
      FlattenPrefix(ps, n);
      assert ps[..|ps|] == ps;
    }
  }

  lemma PrefixOfConcat<T>(x: seq<T>, y: seq<T>)
    ensures x <= x + y
  {
  }

  lemma EnoughCalls(rule: SearchRule, mem: seq<Word>, fs: seq<HeaderFilter>,
                    spans: seq<ModuleDataSpans>, ei: nat, calls: seq<EventCall>,
                    outcome: Outcome, m: nat)
    requires |spans| <= |fs| && SpansInMemory(mem, spans) && m < |spans|
    requires SplitCalls(rule, mem, fs, spans, ei, calls, outcome) && outcome == Returned(Ok)
    ensures |Pieces(rule, fs[m], ModuleWords(mem, spans, m))| <= |calls|
  {
    var g := AllBlocks(rule, mem, fs, spans);
    assert |g[m]| <= |calls|;
  }

  /** Over all calls of a walk prefix and suffix of every module come out once, if there is a call
      at all: with the first one. */
  lemma StaticPartsOnce(rule: SearchRule, mem: seq<Word>, fs: seq<HeaderFilter>,
                        spans: seq<ModuleDataSpans>, ei: nat, calls: seq<EventCall>,
                        outcome: Outcome, m: nat)
    requires |spans| <= |fs| && SpansInMemory(mem, spans) && m < |spans|
    requires spans[m].prefixSpan.end <= |mem| && spans[m].suffixSpan.end <= |mem|
    requires SplitCalls(rule, mem, fs, spans, ei, calls, outcome)
    ensures forall i :: 0 <= i < |calls| ==> m < |calls[i].modules|
    ensures Delivered(mem, calls, m, Prefix) == if calls == [] then [] else Contents(mem, spans[m].prefixSpan)
    ensures Delivered(mem, calls, m, Suffix) == if calls == [] then [] else Contents(mem, spans[m].suffixSpan)
  {
    forall i | 0 <= i < |calls|
      ensures m < |calls[i].modules|
      ensures calls[i].modules[m].prefix == (if i == 0 then WholeBlock(spans[m].prefixSpan) else NO_BLOCK)
      ensures calls[i].modules[m].suffix == (if i == 0 then WholeBlock(spans[m].suffixSpan) else NO_BLOCK)
    {
      StaticPartsComeFirst(rule, mem, fs, spans, ei, calls, outcome, i, m);
    }
    DeliveredOnce(mem, calls, m, Prefix, spans[m].prefixSpan);
    DeliveredOnce(mem, calls, m, Suffix, spans[m].suffixSpan);
  }

  lemma {:induction false} DeliveredOnce(mem: seq<Word>, calls: seq<EventCall>, m: nat, p: Part, s: DataSpan)
    requires s.end <= |mem|
    requires forall i :: 0 <= i < |calls| ==>
               m < |calls[i].modules| && PartOf(calls[i].modules[m], p) == if i == 0 then WholeBlock(s) else NO_BLOCK
    ensures Delivered(mem, calls, m, p) == if calls == [] then [] else Contents(mem, s)
  {
    if calls != [] {
      var n := |calls| - 1;
      DeliveredOnce(mem, calls[..n], m, p, s);
      assert BlockWords(mem, NO_BLOCK) == [];
    }
  }

  // ---------------------------------------------------------------------
  // From the data passed in to the data handed out

  /** The words a block passed in stands for; a null pointer stands for none. */
  function PassedWords(mem: seq<Word>, b: DataBlock): seq<Word>
    requires BlockInMemory(mem, b)
  {
    if b.data == 0 then [] else mem[b.data..b.data + b.size]
  }

  /** The data passed in lies in memory. */
  predicate PassedInMemory(mem: seq<Word>, list: seq<ModuleData>) {
    forall m :: 0 <= m < |list| ==>
      BlockInMemory(mem, list[m].prefix) && BlockInMemory(mem, list[m].dynamic) && BlockInMemory(mem, list[m].suffix)
  }

  predicate BlockInMemory(mem: seq<Word>, b: DataBlock) { b.data + b.size <= |mem| }

  lemma WordsOfSpan(mem: seq<Word>, b: DataBlock)
    requires BlockInMemory(mem, b)
    ensures Contents(mem, SpanOf(b)) == PassedWords(mem, b)
    ensures BlockWords(mem, WholeBlock(SpanOf(b))) == PassedWords(mem, b)
    ensures b.data > 0 || b.size == 0 ==> WholeBlock(SpanOf(b)) == b
  {
  }

  /** An event without splitting passes through unchanged, in one callback: every part of every
      module as it was passed in. */
  lemma WholeEventPassesThrough(st: State, mem: seq<Word>, ei: nat, list: seq<ModuleData>,
                                calls: seq<EventCall>, outcome: Outcome)
    requires st.Valid() && ei < |st.splitFilters| && !st.enabledForEvent[ei] && PassedInMemory(mem, list)
    requires st.EventCalls(mem, ei, RecordedSpans(list), calls, outcome)
    ensures outcome == Returned(Ok) && |calls| == 1 && calls[0].eventIndex == ei && |calls[0].modules| == |list|
    ensures forall m, p :: 0 <= m < |list| ==>
              BlockWords(mem, PartOf(calls[0].modules[m], p)) == PassedWords(mem, PartOf(list[m], p))
    ensures forall m, p :: 0 <= m < |list| && (PartOf(list[m], p).data > 0 || PartOf(list[m], p).size == 0) ==>
              PartOf(calls[0].modules[m], p) == PartOf(list[m], p)
  {
    forall m, p | 0 <= m < |list|
      ensures BlockWords(mem, PartOf(calls[0].modules[m], p)) == PassedWords(mem, PartOf(list[m], p))
      ensures PartOf(list[m], p).data > 0 || PartOf(list[m], p).size == 0 ==>
                PartOf(calls[0].modules[m], p) == PartOf(list[m], p)
    {
      WordsOfSpan(mem, PartOf(list[m], p));
      WholePart(ei, list, m, p);
    }
  }

  lemma WholePart(ei: nat, list: seq<ModuleData>, m: nat, p: Part)
    requires m < |list|
    ensures PartOf(WholeCall(ei, RecordedSpans(list)).modules[m], p) == WholeBlock(SpanOf(PartOf(list[m], p)))
  {
  }

  /** With splitting every call names the event and all modules; over all calls prefix and suffix
      come out as they were passed in if there is a call at all, and the dynamic words in order, up to
      the leftover of the module's own split. */
  lemma SplitEventDelivers(st: State, mem: seq<Word>, ei: nat, list: seq<ModuleData>,
                           calls: seq<EventCall>, outcome: Outcome, m: nat)
    requires st.Valid() && ei < |st.splitFilters| && st.enabledForEvent[ei] && |list| <= |st.splitFilters[ei]|
    requires PassedInMemory(mem, list) && m < |list| && SpansInMemory(mem, RecordedSpans(list))
    requires st.EventCalls(mem, ei, RecordedSpans(list), calls, outcome)
    ensures forall i :: 0 <= i < |calls| ==> calls[i].eventIndex == ei && |calls[i].modules| == |list|
    ensures Delivered(mem, calls, m, Prefix) == if calls == [] then [] else PassedWords(mem, list[m].prefix)
    ensures Delivered(mem, calls, m, Suffix) == if calls == [] then [] else PassedWords(mem, list[m].suffix)
    ensures Delivered(mem, calls, m, Dynamic) <= PassedWords(mem, list[m].dynamic)
    ensures outcome == Returned(Ok) ==>
              var words := PassedWords(mem, list[m].dynamic);
              Delivered(mem, calls, m, Dynamic) + Leftover(st.rule, st.splitFilters[ei][m], words) == words
  {
    var spans, fs := RecordedSpans(list), st.splitFilters[ei];
    WordsOfSpan(mem, list[m].prefix);
    WordsOfSpan(mem, list[m].dynamic);
    WordsOfSpan(mem, list[m].suffix);
    StaticPartsOnce(st.rule, mem, fs, spans, ei, calls, outcome, m);
    DynamicWordsInOrder(st.rule, mem, fs, spans, ei, calls, outcome, m);
  }

  ghost predicate StartsWithHeader(f: HeaderFilter, d: seq<Word>) {
    |d| > 0 && Matches(f, d[0])
  }

  /** A walk that ends makes calls, and so delivers the static parts, iff the data of some module
      starts with a header. */
  lemma CallsIffSomeHeader(rule: SearchRule, mem: seq<Word>, fs: seq<HeaderFilter>,
                           spans: seq<ModuleDataSpans>,
                           ei: nat, calls: seq<EventCall>)
    requires |spans| <= |fs| && SpansInMemory(mem, spans)
    requires SplitCalls(rule, mem, fs, spans, ei, calls, Returned(Ok))
    ensures calls != [] <==> exists m :: 0 <= m < |spans| && StartsWithHeader(fs[m], ModuleWords(mem, spans, m))
  {
    var g, k := AllBlocks(rule, mem, fs, spans), AllSticks(rule, mem, fs, spans);
    forall m | 0 <= m < |spans|
      ensures |g[m]| <= |calls|
      ensures g[m] != [] <==> StartsWithHeader(fs[m], ModuleWords(mem, spans, m))
    {
      assert !k[m];
    }
    if calls != [] {
      var m :| 0 <= m < |g| && |g[m]| == |calls|;
      assert StartsWithHeader(fs[m], ModuleWords(mem, spans, m));
    }
  }

  /** The walk ends iff the split of every module ends. */
  lemma WalkEndsIff(rule: SearchRule, mem: seq<Word>, fs: seq<HeaderFilter>,
                    spans: seq<ModuleDataSpans>,
                    ei: nat, calls: seq<EventCall>, outcome: Outcome)
    requires |spans| <= |fs| && SpansInMemory(mem, spans)
    requires SplitCalls(rule, mem, fs, spans, ei, calls, outcome)
    ensures outcome == Returned(Ok) <==>
            forall m :: 0 <= m < |spans| ==> !Sticks(rule, fs[m], ModuleWords(mem, spans, m))
    ensures outcome != Returned(Ok) ==> outcome == NeverReturns
  {
    var k := AllSticks(rule, mem, fs, spans);
    assert forall m :: 0 <= m < |spans| ==> k[m] == Sticks(rule, fs[m], ModuleWords(mem, spans, m));
  }

  // ---------------------------------------------------------------------
  // Joined events come apart again

  /** Every module's data is a concatenation of well-formed subevents. */
  ghost predicate Joined(rule: SearchRule, mem: seq<Word>, fs: seq<HeaderFilter>, spans: seq<ModuleDataSpans>,
                         es: seq<seq<seq<Word>>>)
    requires SpansInMemory(mem, spans)
  {
    && |es| == |spans| <= |fs|
    && forall m :: 0 <= m < |spans| ==>
         && ModuleWords(mem, spans, m) == Flatten(es[m])
         && (forall e :: e in es[m] ==> WellFormed(fs[m], e))
         && (fs[m].sizeMask == ZERO ==> rule.Documented?)
  }

  /** For data joined from subevents the walk ends after as many calls as the longest list has
      subevents, and call `i` delivers exactly the i-th subevent of every module that has one. */
  lemma JoinedEventsComeApart(rule: SearchRule, mem: seq<Word>, fs: seq<HeaderFilter>,
                              spans: seq<ModuleDataSpans>,
                              ei: nat, calls: seq<EventCall>, outcome: Outcome,
                              es: seq<seq<seq<Word>>>)
    requires SpansInMemory(mem, spans) && Joined(rule, mem, fs, spans, es)
    requires SplitCalls(rule, mem, fs, spans, ei, calls, outcome)
    ensures outcome == Returned(Ok)
    ensures forall m :: 0 <= m < |spans| ==> |es[m]| <= |calls|
    ensures calls == [] || exists m :: 0 <= m < |spans| && |es[m]| == |calls|
    ensures forall i, m :: 0 <= i < |calls| && 0 <= m < |spans| ==>
              |calls[i].modules| == |spans| &&
              BlockWords(mem, calls[i].modules[m].dynamic) == PieceAt(es[m], i)
  {
    var g, k := AllBlocks(rule, mem, fs, spans), AllSticks(rule, mem, fs, spans);
    forall m | 0 <= m < |spans|
      ensures Pieces(rule, fs[m], ModuleWords(mem, spans, m)) == es[m]
      ensures |g[m]| == |es[m]| && !k[m]
    {
      SplitInvertsJoin(rule, fs[m], es[m]);
    }
    forall i, m | 0 <= i < |calls| && 0 <= m < |spans|
      ensures |calls[i].modules| == |spans|
      ensures BlockWords(mem, calls[i].modules[m].dynamic) == PieceAt(es[m], i)
    {
      LockStepIsIndependent(rule, mem, fs, spans, ei, calls, outcome, i, m);
    }
  }

  /** A header filter from a string matches the words that read like the string. */
  lemma FilterStringMeaning(raw: seq<char>, w: Word)
    requires |RemoveSpaces(raw)| <= MAX_FILTER_SIZE
    ensures CompileFilter(raw).Some?
    ensures Matches(CompileFilter(raw).value, w) <==> Accepts(RemoveSpaces(raw), w)
  {
    MaskComparisonIsPattern(RemoveSpaces(raw), w);
  }

  // ---------------------------------------------------------------------
  // Inputs on which the walk never returns

  /** The filters are those of the strings, splitting is enabled for the event, the data lies in
      memory, and the walk over it does not return. */
  ghost predicate HangsOn(rule: SearchRule, strings: seq<seq<char>>, fs: seq<HeaderFilter>, mem: seq<Word>,
                          spans: seq<ModuleDataSpans>)
  {
    && Compiled(strings, fs) && WantsSplitting(fs) && |spans| == |fs| && SpansInMemory(mem, spans)
    && forall ei, calls, outcome :: SplitCalls(rule, mem, fs, spans, ei, calls, outcome) ==> outcome == NeverReturns
  }

  lemma OneSticks(rule: SearchRule, strings: seq<seq<char>>, fs: seq<HeaderFilter>, mem: seq<Word>,
                  spans: seq<ModuleDataSpans>, m: nat)
    requires Compiled(strings, fs) && WantsSplitting(fs) && m < |spans| == |fs| && SpansInMemory(mem, spans)
    requires Sticks(rule, fs[m], ModuleWords(mem, spans, m))
    ensures HangsOn(rule, strings, fs, mem, spans)
  {
    forall ei, calls, outcome | SplitCalls(rule, mem, fs, spans, ei, calls, outcome) ensures outcome == NeverReturns {
      WalkEndsIff(rule, mem, fs, spans, ei, calls, outcome);
    }
  }

  const BIT0: Word := ZERO[0 := true]

  const ALL_BITS: Word := seq(32, _ => true)

  /** A recorded module with dynamic data only. */
  function DynamicOnly(begin: nat, end: nat): ModuleDataSpans {
    ModuleDataSpans(NO_SPAN, DataSpan(begin, end), NO_SPAN)
  }

  lemma FilterOne() returns (f: HeaderFilter)
    ensures CompileFilter("1") == Some(f) && f.matchMask == f.matchValue == BIT0 && f.sizeMask == ZERO
  {
    var chars: seq<char> := "1";
    assert chars[1..] == [];
    assert RemoveSpaces(chars) == chars;
    f := CompileFilter("1").value;
    assert CharFor(chars, 0) == '1';
    assert f.matchMask == BIT0;
    assert f.matchValue == BIT0;
    assert f.sizeMask == ZERO;
  }

  lemma BitsOfMasks()
    ensures BIT0 != ZERO && ALL_BITS != ZERO && And(BIT0, BIT0) == BIT0 && And(ZERO, BIT0) == ZERO
    ensures forall w: Word :: And(w, ZERO) == ZERO
  {
    assert BIT0[0] && ALL_BITS[0] && !ZERO[0];
    assert And(BIT0, BIT0) == BIT0;
    assert And(ZERO, BIT0) == ZERO;
    forall w: Word ensures And(w, ZERO) == ZERO {
    }
  }

  /** Without size bits: a header and another word. */
  lemma WrittenSearchHangs()
    ensures exists strings, fs, mem, spans :: HangsOn(AsWritten, strings, fs, mem, spans)
  {
    BitsOfMasks();
    var f := FilterOne();
    var mem, spans, fs := [ZERO, BIT0, ZERO], [DynamicOnly(1, 3)], [f];
    var d := ModuleWords(mem, spans, 0);
    assert d == mem[1..3];
    assert d[0] == BIT0 && d[1] == ZERO;
    assert d[1..] == [ZERO];
    WrittenSearchHangsIff(f, d);
    assert fs[0].matchMask != ZERO;
    OneSticks(AsWritten, ["1"], fs, mem, spans, 0);
    assert HangsOn(AsWritten, ["1"], fs, mem, spans);
  }

  /** Of an event with one module beside one with two: splitting is enabled for it, and there are more
      spans than it has filters. */
  lemma SmallerEventSplits(fs: seq<HeaderFilter>)
    requires Compiled(["1"], fs)
    ensures WantsSplitting(fs) && !IsLargest([["1"], ["1", "1"]], 0)
  {
    BitsOfMasks();
    var f := FilterOne();
    var strings: seq<seq<char>> := ["1"];
    assert CompileFilter(strings[0]) == Some(fs[0]);
    assert fs[0].matchMask != ZERO;
    var events: seq<seq<seq<char>>> := [["1"], ["1", "1"]];
    assert |events[1]| > |events[0]|;
  }

  lemma {:induction false} NoSpaces(s: seq<char>)
    requires forall i :: 0 <= i < |s| ==> s[i] != ' '
    ensures RemoveSpaces(s) == s
  {
    if s != [] {
      NoSpaces(s[1..]);
    }
  }

  lemma FilterAllSize(raw: seq<char>) returns (f: HeaderFilter)
    requires |raw| == 32 && forall i :: 0 <= i < 32 ==> raw[i] == 'S'
    ensures CompileFilter(raw) == Some(f) && f.matchMask == f.matchValue == ZERO && f.sizeMask == ALL_BITS
  {
    NoSpaces(raw);
    f := CompileFilter(raw).value;
    assert f.matchMask == ZERO;
    assert f.matchValue == ZERO;
    assert f.sizeMask == ALL_BITS;
  }

  /** With 32 size bits: a header with all bits set, next to a module whose filter enables splitting. */
  lemma SizeWrapHangs(rule: SearchRule)
    ensures exists strings, fs, mem, spans :: HangsOn(rule, strings, fs, mem, spans)
  {
    BitsOfMasks();
    var raw: seq<char> := seq(32, _ => 'S');
    var f := FilterAllSize(raw);
    var g := FilterOne();
    var strings, fs, mem, spans := [raw, "1"], [f, g], [ZERO, ALL_BITS], [DynamicOnly(1, 2), DynamicOnly(0, 0)];
    var d := ModuleWords(mem, spans, 0);
    assert d == [ALL_BITS] && Matches(f, d[0]);
    RankOfRun(f.sizeMask, 0, 32);
    SizeWrapsIff(rule, f, d);
    assert fs[1].matchMask != ZERO;
    OneSticks(rule, strings, fs, mem, spans, 0);
    assert HangsOn(rule, strings, fs, mem, spans);
  }
}

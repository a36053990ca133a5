/** The multi-event splitter: recorded module data is walked in lock step and cut into subevents,
    one callback per step. Pointers are word addresses into `mem`; address 0 is the null pointer. */
module MultiEventSplitter {
  import opened Wrappers
  import opened Bits
  import opened DataFilters
  import opened SplitSpec

  const MAX_VME_EVENTS := 12
  const MAX_VME_MODULES := 20

  datatype DataSpan = DataSpan(begin: nat, end: nat)

  const NO_SPAN := DataSpan(0, 0)

  datatype ModuleDataSpans = ModuleDataSpans(prefixSpan: DataSpan, dynamicSpan: DataSpan, suffixSpan: DataSpan)

  /** A pointer and a number of words. */
  datatype DataBlock = DataBlock(data: nat, size: nat)

  const NO_BLOCK := DataBlock(0, 0)

  datatype ModuleData = ModuleData(prefix: DataBlock, dynamic: DataBlock, suffix: DataBlock)

  datatype EventCall = EventCall(eventIndex: nat, modules: seq<ModuleData>)

  datatype ErrorCode = Ok | EventIndexOutOfRange | ModuleIndexOutOfRange

  /** A call either returns or is known never to return. */
  datatype Outcome = Returned(ec: ErrorCode) | NeverReturns

  function WordsInSpan(s: DataSpan): nat {
    if s.begin != 0 && s.end != 0 && s.begin < s.end then s.end - s.begin else 0
  }

  function WholeBlock(s: DataSpan): DataBlock {
    DataBlock(s.begin, WordsInSpan(s))
  }

  /** The block of a prefix or suffix, handed out once. */
  function StaticBlock(yielded: bool, s: DataSpan): DataBlock {
    if yielded then NO_BLOCK else WholeBlock(s)
  }

  function Contents(mem: seq<Word>, s: DataSpan): (r: seq<Word>)
    requires s.end <= |mem|
    ensures |r| == WordsInSpan(s)
  {
    if WordsInSpan(s) > 0 then mem[s.begin..s.end] else []
  }

  // ---------------------------------------------------------------------
  // The callbacks expected from an event

  /** Consecutive blocks for pieces found one behind the other; a truncated step has no data. */
  function Placed(begin: nat, ps: seq<seq<Word>>): (r: seq<DataBlock>)
    ensures |r| == |ps|
    decreases ps
  {
    if ps == [] then []
    else [if ps[0] == [] then NO_BLOCK else DataBlock(begin, |ps[0]|)] + Placed(begin + |ps[0]|, ps[1..])
  }

  function BlockAt(bs: seq<DataBlock>, i: nat): DataBlock {
    if i < |bs| then bs[i] else NO_BLOCK
  }

  /** The blocks of one module, from its own filter and data alone. */
  function ModuleBlocks(rule: SearchRule, mem: seq<Word>, f: HeaderFilter, s: DataSpan): seq<DataBlock>
    requires s.end <= |mem|
  {
    Placed(s.begin, Pieces(rule, f, Contents(mem, s)))
  }

  predicate ModuleSticks(rule: SearchRule, mem: seq<Word>, f: HeaderFilter, s: DataSpan)
    requires s.end <= |mem|
  {
    Sticks(rule, f, Contents(mem, s))
  }

  function WholeModule(s: ModuleDataSpans): ModuleData {
    ModuleData(WholeBlock(s.prefixSpan), WholeBlock(s.dynamicSpan), WholeBlock(s.suffixSpan))
  }

  predicate SpansInMemory(mem: seq<Word>, spans: seq<ModuleDataSpans>) {
    forall m :: 0 <= m < |spans| ==> spans[m].dynamicSpan.end <= |mem|
  }

  function AllBlocks(rule: SearchRule, mem: seq<Word>, fs: seq<HeaderFilter>,
                     spans: seq<ModuleDataSpans>): (r: seq<seq<DataBlock>>)
    requires |spans| <= |fs| && SpansInMemory(mem, spans)
    ensures |r| == |spans|
  {
    seq(|spans|, m requires 0 <= m < |spans| => ModuleBlocks(rule, mem, fs[m], spans[m].dynamicSpan))
  }

  function AllSticks(rule: SearchRule, mem: seq<Word>, fs: seq<HeaderFilter>,
                     spans: seq<ModuleDataSpans>): (r: seq<bool>)
    requires |spans| <= |fs| && SpansInMemory(mem, spans)
    ensures |r| == |spans|
  {
    seq(|spans|, m requires 0 <= m < |spans| => ModuleSticks(rule, mem, fs[m], spans[m].dynamicSpan))
  }

  /** Call `i` of an event whose modules have the blocks `g`. */
  function ExpectedCall(ei: nat, spans: seq<ModuleDataSpans>, g: seq<seq<DataBlock>>, i: nat): EventCall
    requires |g| == |spans|
  {
    EventCall(ei, seq(|spans|, m requires 0 <= m < |spans| =>
      ModuleData(if i == 0 then WholeBlock(spans[m].prefixSpan) else NO_BLOCK,
                 BlockAt(g[m], i),
                 if i == 0 then WholeBlock(spans[m].suffixSpan) else NO_BLOCK)))
  }

  ghost predicate CallsAsExpected(calls: seq<EventCall>, ei: nat, spans: seq<ModuleDataSpans>, g: seq<seq<DataBlock>>)
    requires |g| == |spans|
  {
    forall i :: 0 <= i < |calls| ==> calls[i] == ExpectedCall(ei, spans, g, i)
  }

  /** `calls` is `before` and the first `i` calls of the walk, `made`. */
  ghost predicate Made(before: seq<EventCall>, calls: seq<EventCall>, made: seq<EventCall>, ei: nat,
                       spans: seq<ModuleDataSpans>, g: seq<seq<DataBlock>>, i: nat) {
    |g| == |spans| && |made| == i && calls == before + made && CallsAsExpected(made, ei, spans, g)
  }

  lemma CallsExtend(before: seq<EventCall>, calls: seq<EventCall>, made: seq<EventCall>, ei: nat,
                    spans: seq<ModuleDataSpans>, g: seq<seq<DataBlock>>, i: nat)
    requires Made(before, calls, made, ei, spans, g, i)
    ensures var call := ExpectedCall(ei, spans, g, i);
            Made(before, calls + [call], made + [call], ei, spans, g, i + 1)
  {
    var call := ExpectedCall(ei, spans, g, i);
    assert before + made + [call] == before + (made + [call]);
  }

  lemma CallsMade(before: seq<EventCall>, calls: seq<EventCall>, made: seq<EventCall>, ei: nat,
                  spans: seq<ModuleDataSpans>, g: seq<seq<DataBlock>>, i: nat)
    requires Made(before, calls, made, ei, spans, g, i)
    ensures before <= calls && calls[|before|..] == made
  {
  }

  /** The number of calls: the most blocks any module has; if some split never ends, the blocks
      before the first such place. */
  ghost predicate CallCount(g: seq<seq<DataBlock>>, k: seq<bool>, n: nat, outcome: Outcome)
    requires |g| == |k|
  {
    if exists m :: 0 <= m < |k| && k[m] then
      && outcome == NeverReturns
      && (forall m :: 0 <= m < |k| && k[m] ==> n <= |g[m]|)
      && (exists m :: 0 <= m < |k| && k[m] && n == |g[m]|)
    else
      && outcome == Returned(Ok)
      && (forall m :: 0 <= m < |g| ==> |g[m]| <= n)
      && (n == 0 || exists m :: 0 <= m < |g| && |g[m]| == n)
  }

  /** The calls made for one event with splitting enabled, and whether the walk ends. */
  ghost predicate SplitCalls(rule: SearchRule, mem: seq<Word>, fs: seq<HeaderFilter>, spans: seq<ModuleDataSpans>,
                             ei: nat, calls: seq<EventCall>, outcome: Outcome)
    requires |spans| <= |fs| && SpansInMemory(mem, spans)
  {
    var g := AllBlocks(rule, mem, fs, spans);
    && CallsAsExpected(calls, ei, spans, g)
    && CallCount(g, AllSticks(rule, mem, fs, spans), |calls|, outcome)
  }

  // ---------------------------------------------------------------------
  // One pass over one module

  predicate HasStep(c: Cut) { c.Truncated? || c.Piece? }

  /** The span after a pass. */
  function Advanced(s: DataSpan, c: Cut): DataSpan {
    if c.Truncated? then DataSpan(s.end, s.end)
    else if c.Piece? then DataSpan(s.begin + c.n, s.end)
    else s
  }

  /** The data handed out by a pass. */
  function CutBlock(s: DataSpan, c: Cut): DataBlock {
    if c.Piece? then DataBlock(s.begin, c.n) else NO_BLOCK
  }

  lemma ContentsAdvanced(mem: seq<Word>, s: DataSpan, n: nat)
    requires s.end <= |mem| && 0 < n <= WordsInSpan(s)
    ensures Contents(mem, DataSpan(s.begin + n, s.end)) == Contents(mem, s)[n..]
  {
  }

  /** A pass hands out the first of the remaining pieces and leaves the others. */
  lemma PassStep(rule: SearchRule, mem: seq<Word>, f: HeaderFilter, s: DataSpan, c: Cut)
    requires s.end <= |mem| && IsCut(rule, mem, f, s, c) && !c.Stuck?
    ensures StepsTo(ModuleBlocks(rule, mem, f, s), ModuleBlocks(rule, mem, f, Advanced(s, c)), s, c)
    ensures ModuleSticks(rule, mem, f, Advanced(s, c)) == ModuleSticks(rule, mem, f, s)
  {
    if c.NoHeader? { PassWithoutHeader(rule, mem, f, s, c); }
    else if c.Truncated? { PassOverTruncated(rule, mem, f, s, c); }
    else { PassOverPiece(rule, mem, f, s, c); }
  }

  lemma PassWithoutHeader(rule: SearchRule, mem: seq<Word>, f: HeaderFilter, s: DataSpan, c: Cut)
    requires s.end <= |mem| && IsCut(rule, mem, f, s, c) && c.NoHeader?
    ensures StepsTo(ModuleBlocks(rule, mem, f, s), ModuleBlocks(rule, mem, f, Advanced(s, c)), s, c)
    ensures ModuleSticks(rule, mem, f, Advanced(s, c)) == ModuleSticks(rule, mem, f, s)
  {
    assert Advanced(s, c) == s;
    NoHeaderStep(rule, mem, f, s);
  }

  lemma PassOverTruncated(rule: SearchRule, mem: seq<Word>, f: HeaderFilter, s: DataSpan, c: Cut)
    requires s.end <= |mem| && IsCut(rule, mem, f, s, c) && c.Truncated?
    ensures StepsTo(ModuleBlocks(rule, mem, f, s), ModuleBlocks(rule, mem, f, Advanced(s, c)), s, c)
    ensures ModuleSticks(rule, mem, f, Advanced(s, c)) == ModuleSticks(rule, mem, f, s)
  {
    assert Advanced(s, c) == DataSpan(s.end, s.end);
    TruncatedStep(rule, mem, f, s);
  }

  lemma PassOverPiece(rule: SearchRule, mem: seq<Word>, f: HeaderFilter, s: DataSpan, c: Cut)
    requires s.end <= |mem| && IsCut(rule, mem, f, s, c) && c.Piece?
    ensures StepsTo(ModuleBlocks(rule, mem, f, s), ModuleBlocks(rule, mem, f, Advanced(s, c)), s, c)
    ensures ModuleSticks(rule, mem, f, Advanced(s, c)) == ModuleSticks(rule, mem, f, s)
  {
    assert Advanced(s, c) == DataSpan(s.begin + c.n, s.end);
    var after := ModuleBlocks(rule, mem, f, DataSpan(s.begin + c.n, s.end));
    PieceStep(rule, mem, f, s, c.n);
    FirstBlock([DataBlock(s.begin, c.n)] + after, after, s, c.n);
  }

  lemma FirstBlock(before: seq<DataBlock>, after: seq<DataBlock>, s: DataSpan, n: nat)
    requires before == [DataBlock(s.begin, n)] + after
    ensures StepsTo(before, after, s, Piece(n))
  {
    TailOf(DataBlock(s.begin, n), after);
  }

  lemma TailOf<T>(x: T, xs: seq<T>)
    ensures ([x] + xs)[0] == x && ([x] + xs)[1..] == xs
  {
  }

  lemma NoHeaderStep(rule: SearchRule, mem: seq<Word>, f: HeaderFilter, s: DataSpan)
    requires s.end <= |mem| && IsCut(rule, mem, f, s, NoHeader)
    ensures ModuleBlocks(rule, mem, f, s) == [] && StepsTo([], [], s, NoHeader)
  {
  }

  /** The blocks of a module before and after a pass. */
  ghost predicate StepsTo(before: seq<DataBlock>, after: seq<DataBlock>, s: DataSpan, c: Cut) {
    && (HasStep(c) <==> before != [])
    && CutBlock(s, c) == BlockAt(before, 0)
    && after == if before == [] then [] else before[1..]
  }

  lemma TruncatedStep(rule: SearchRule, mem: seq<Word>, f: HeaderFilter, s: DataSpan)
    requires s.end <= |mem| && IsCut(rule, mem, f, s, Truncated)
    ensures ModuleBlocks(rule, mem, f, s) == [NO_BLOCK]
    ensures ModuleBlocks(rule, mem, f, DataSpan(s.end, s.end)) == []
    ensures StepsTo([NO_BLOCK], [], s, Truncated)
    ensures !ModuleSticks(rule, mem, f, s) && !ModuleSticks(rule, mem, f, DataSpan(s.end, s.end))
    ensures WordsInSpan(s) > 0
  {
    var ps := Pieces(rule, f, Contents(mem, s));
    assert ps[1..] == [];
  }

  lemma PieceStep(rule: SearchRule, mem: seq<Word>, f: HeaderFilter, s: DataSpan, n: nat)
    requires s.end <= |mem| && IsCut(rule, mem, f, s, Piece(n))
    ensures 0 < n <= WordsInSpan(s)
    ensures ModuleBlocks(rule, mem, f, s)
              == [DataBlock(s.begin, n)] + ModuleBlocks(rule, mem, f, DataSpan(s.begin + n, s.end))
    ensures ModuleSticks(rule, mem, f, DataSpan(s.begin + n, s.end)) == ModuleSticks(rule, mem, f, s)
  {
    var d := Contents(mem, s);
    ContentsAdvanced(mem, s, n);
    PlacedStep(s.begin, d[..n], Pieces(rule, f, d[n..]));
  }

  lemma PlacedStep(begin: nat, p: seq<Word>, ps: seq<seq<Word>>)
    requires p != []
    ensures Placed(begin, [p] + ps) == [DataBlock(begin, |p|)] + Placed(begin + |p|, ps)
  {
    assert ([p] + ps)[1..] == ps;
  }

  function RemainingWords(spans: seq<ModuleDataSpans>, count: nat): nat
    requires count <= |spans|
  {
    if count == 0 then 0
    else RemainingWords(spans, count - 1) + WordsInSpan(spans[count - 1].dynamicSpan)
  }

  lemma {:induction false} RemainingShrinks(a: seq<ModuleDataSpans>, b: seq<ModuleDataSpans>, count: nat)
    requires count <= |a| == |b|
    requires forall m :: 0 <= m < count ==> WordsInSpan(b[m].dynamicSpan) <= WordsInSpan(a[m].dynamicSpan)
    ensures RemainingWords(b, count) <= RemainingWords(a, count)
    ensures (exists m :: 0 <= m < count && WordsInSpan(b[m].dynamicSpan) < WordsInSpan(a[m].dynamicSpan)) ==>
              RemainingWords(b, count) < RemainingWords(a, count)
  {
    if count > 0 {
      RemainingShrinks(a, b, count - 1);
    }
  }

  // ---------------------------------------------------------------------
  // One pass over all modules

  function DropBlocks(bs: seq<DataBlock>, i: nat): seq<DataBlock> {
    if i <= |bs| then bs[i..] else []
  }

  /** A module after `i` passes: `g` are the blocks of its whole data, `k` says whether it sticks. */
  ghost predicate TracksModule(rule: SearchRule, mem: seq<Word>, f: HeaderFilter, s: DataSpan,
                               g: seq<DataBlock>, k: bool, i: nat)
    requires s.end <= |mem|
  {
    && ModuleBlocks(rule, mem, f, s) == DropBlocks(g, i)
    && ModuleSticks(rule, mem, f, s) == k
    && (k ==> i <= |g|)
  }

  ghost predicate Tracks(rule: SearchRule, mem: seq<Word>, fs: seq<HeaderFilter>, spans: seq<ModuleDataSpans>,
                         g: seq<seq<DataBlock>>, k: seq<bool>, i: nat)
    requires |spans| <= |fs| && SpansInMemory(mem, spans)
  {
    |g| == |k| == |spans| &&
    forall m {:trigger TracksModule(rule, mem, fs[m], spans[m].dynamicSpan, g[m], k[m], i)} ::
      0 <= m < |spans| ==> TracksModule(rule, mem, fs[m], spans[m].dynamicSpan, g[m], k[m], i)
  }

  /** What a cut says about the blocks still to come. */
  ghost predicate CutTells(c: Cut, s: DataSpan, g: seq<DataBlock>, k: bool, i: nat) {
    && (HasStep(c) <==> i < |g|)
    && (!c.Stuck? ==> CutBlock(s, c) == BlockAt(g, i))
    && (c.Stuck? ==> k && |g| <= i)
    && (k ==> i <= |g|)
    && (c.NoHeader? ==> !k)
  }

  lemma ModulePass(rule: SearchRule, mem: seq<Word>, f: HeaderFilter, s: DataSpan, c: Cut,
                   g: seq<DataBlock>, k: bool, i: nat)
    requires s.end <= |mem| && IsCut(rule, mem, f, s, c)
    requires TracksModule(rule, mem, f, s, g, k, i)
    ensures CutTells(c, s, g, k, i)
    ensures !c.Stuck? ==> TracksModule(rule, mem, f, Advanced(s, c), g, k, i + 1)
  {
    if !c.Stuck? {
      PassStep(rule, mem, f, s, c);
    }
  }

  /** What the cuts of a pass say about all modules. */
  lemma PassOverModules(rule: SearchRule, mem: seq<Word>, fs: seq<HeaderFilter>,
                        spans: seq<ModuleDataSpans>,
                        cuts: seq<Cut>, g: seq<seq<DataBlock>>, k: seq<bool>, i: nat)
    requires |spans| <= |fs| && SpansInMemory(mem, spans)
    requires CutsOf(rule, mem, fs, spans, cuts)
    requires Tracks(rule, mem, fs, spans, g, k, i)
    ensures forall m :: 0 <= m < |spans| ==> CutTells(cuts[m], spans[m].dynamicSpan, g[m], k[m], i)
  {
    forall m | 0 <= m < |spans| ensures CutTells(cuts[m], spans[m].dynamicSpan, g[m], k[m], i) {
      assert IsCut(rule, mem, fs[m], spans[m].dynamicSpan, cuts[m]);
      assert TracksModule(rule, mem, fs[m], spans[m].dynamicSpan, g[m], k[m], i);
      ModulePass(rule, mem, fs[m], spans[m].dynamicSpan, cuts[m], g[m], k[m], i);
    }
  }

  /** No cut of the pass is stuck, some module has a step, and the cuts fit the expected blocks. */
  ghost predicate CutsTell(cuts: seq<Cut>, now: seq<ModuleDataSpans>, g: seq<seq<DataBlock>>, k: seq<bool>, i: nat) {
    && |cuts| == |now| == |g| == |k|
    && (forall m :: 0 <= m < |now| ==> !cuts[m].Stuck? && CutTells(cuts[m], now[m].dynamicSpan, g[m], k[m], i))
    && (exists m :: 0 <= m < |now| && HasStep(cuts[m]))
  }

  /** The walk after `i` calls: `spans` are the spans it started from, `now` the current ones. */
  ghost predicate Walking(rule: SearchRule, mem: seq<Word>, fs: seq<HeaderFilter>,
                          spans: seq<ModuleDataSpans>, now: seq<ModuleDataSpans>,
                          g: seq<seq<DataBlock>>, k: seq<bool>, i: nat)
  {
    && |now| == |spans| <= |fs| && SpansInMemory(mem, now)
    && Tracks(rule, mem, fs, now, g, k, i)
    && (forall m :: 0 <= m < |now| ==> now[m] == spans[m].(dynamicSpan := now[m].dynamicSpan))
    && (i == 0 || exists m :: 0 <= m < |g| && i <= |g[m]|)
  }

  lemma WalkStarts(rule: SearchRule, mem: seq<Word>, fs: seq<HeaderFilter>,
                   spans: seq<ModuleDataSpans>)
    requires |spans| <= |fs| && SpansInMemory(mem, spans)
    ensures Walking(rule, mem, fs, spans, spans, AllBlocks(rule, mem, fs, spans), AllSticks(rule, mem, fs, spans), 0)
  {
  }

  /** A completed pass leaves all modules one block further and fewer words in all. */
  lemma {:induction false} PassCompletes(rule: SearchRule, mem: seq<Word>, fs: seq<HeaderFilter>,
                                         spans: seq<ModuleDataSpans>, now: seq<ModuleDataSpans>,
                                         cuts: seq<Cut>, after: seq<ModuleDataSpans>,
                                         g: seq<seq<DataBlock>>, k: seq<bool>, i: nat)
    requires Walking(rule, mem, fs, spans, now, g, k, i)
    requires CutsOf(rule, mem, fs, now, cuts) && CutsTell(cuts, now, g, k, i)
    requires |after| == |now| && forall m :: 0 <= m < |now| ==>
               after[m] == now[m].(dynamicSpan := Advanced(now[m].dynamicSpan, cuts[m]))
    ensures Walking(rule, mem, fs, spans, after, g, k, i + 1)
    ensures RemainingWords(after, |after|) < RemainingWords(now, |now|)
  {
    forall m | 0 <= m < |now| ensures after[m].dynamicSpan.end <= |mem| {
      assert after[m].dynamicSpan == Advanced(now[m].dynamicSpan, cuts[m]);
    }
    TracksStep(rule, mem, fs, now, cuts, after, g, k, i);
    WordsShrink(rule, mem, fs, now, cuts, after);
    var m :| 0 <= m < |now| && HasStep(cuts[m]);
    assert CutTells(cuts[m], now[m].dynamicSpan, g[m], k[m], i);
  }

  lemma TracksStep(rule: SearchRule, mem: seq<Word>, fs: seq<HeaderFilter>,
                   now: seq<ModuleDataSpans>, cuts: seq<Cut>, after: seq<ModuleDataSpans>,
                   g: seq<seq<DataBlock>>, k: seq<bool>, i: nat)
    requires |now| <= |fs| && SpansInMemory(mem, now) && SpansInMemory(mem, after)
    requires Tracks(rule, mem, fs, now, g, k, i)
    requires CutsOf(rule, mem, fs, now, cuts)
    requires forall m :: 0 <= m < |now| ==> !cuts[m].Stuck?
    requires |after| == |now| && forall m :: 0 <= m < |now| ==>
               after[m].dynamicSpan == Advanced(now[m].dynamicSpan, cuts[m])
    ensures Tracks(rule, mem, fs, after, g, k, i + 1)
  {
    forall m | 0 <= m < |now|
      ensures TracksModule(rule, mem, fs[m], after[m].dynamicSpan, g[m], k[m], i + 1)
    {
      assert IsCut(rule, mem, fs[m], now[m].dynamicSpan, cuts[m]);
      assert TracksModule(rule, mem, fs[m], now[m].dynamicSpan, g[m], k[m], i);
      ModulePass(rule, mem, fs[m], now[m].dynamicSpan, cuts[m], g[m], k[m], i);
    }
  }

  lemma {:induction false} WordsShrink(rule: SearchRule, mem: seq<Word>, fs: seq<HeaderFilter>,
                                       now: seq<ModuleDataSpans>, cuts: seq<Cut>, after: seq<ModuleDataSpans>)
    requires |now| <= |fs| && SpansInMemory(mem, now) && CutsOf(rule, mem, fs, now, cuts)
    requires exists m :: 0 <= m < |now| && HasStep(cuts[m])
    requires |after| == |now| && forall m :: 0 <= m < |now| ==>
               after[m] == now[m].(dynamicSpan := Advanced(now[m].dynamicSpan, cuts[m]))
    ensures RemainingWords(after, |after|) < RemainingWords(now, |now|)
  {
    forall m | 0 <= m < |now|
      ensures WordsInSpan(after[m].dynamicSpan) <= WordsInSpan(now[m].dynamicSpan)
      ensures HasStep(cuts[m]) ==> WordsInSpan(after[m].dynamicSpan) < WordsInSpan(now[m].dynamicSpan)
    {
      assert IsCut(rule, mem, fs[m], now[m].dynamicSpan, cuts[m]);
    }
    RemainingShrinks(now, after, |now|);
  }

  // ---------------------------------------------------------------------
  // The splitter

  /** The consumer behind the callback interface; it records the calls. */
  class Callbacks {
    var calls: seq<EventCall>

    constructor ()
      ensures calls == []
    {
      calls := [];
    }

    method EventData(ei: nat, modules: array<ModuleData>, moduleCount: nat)
      requires moduleCount <= modules.Length
      modifies this
      ensures calls == old(calls) + [EventCall(ei, modules[..moduleCount])]
    {
      calls := calls + [EventCall(ei, modules[..moduleCount])];
    }
  }

  class State {
    const rule: SearchRule
    var splitFilters: seq<seq<HeaderFilter>>
    var dataSpans: seq<ModuleDataSpans>
    var enabledForEvent: seq<bool>

    ghost predicate Valid()
      reads this
    {
      |splitFilters| <= MAX_VME_EVENTS == |enabledForEvent|
    }

    constructor (rule: SearchRule)
      ensures Valid() && this.rule == rule
      ensures splitFilters == [] && dataSpans == []
      ensures forall e :: 0 <= e < MAX_VME_EVENTS ==> !enabledForEvent[e]
    {
      this.rule := rule;
      splitFilters, dataSpans := [], [];
      enabledForEvent := seq(MAX_VME_EVENTS, _ => false);
    }

    method BeginEvent(ei: nat) returns (ec: ErrorCode)
      modifies `dataSpans
      ensures ec == if ei >= |splitFilters| then EventIndexOutOfRange else Ok
      ensures |dataSpans| == |old(dataSpans)|
      ensures ec == Ok ==> forall m :: 0 <= m < |dataSpans| ==>
                dataSpans[m] == ModuleDataSpans(NO_SPAN, NO_SPAN, NO_SPAN)
      ensures ec != Ok ==> dataSpans == old(dataSpans)
    {
      if ei >= |splitFilters| {
        return EventIndexOutOfRange;
      }
      dataSpans := seq(|dataSpans|, _ => ModuleDataSpans(NO_SPAN, NO_SPAN, NO_SPAN));
      return Ok;
    }

    /** The error of a recording call. */
    function RecordError(ei: nat, mi: nat): ErrorCode
      reads this
    {
      if ei >= |splitFilters| then EventIndexOutOfRange
      else if mi >= |dataSpans| then ModuleIndexOutOfRange
      else Ok
    }

    method ModulePrefix(ei: nat, mi: nat, b: DataBlock) returns (ec: ErrorCode)
      modifies `dataSpans
      ensures ec == old(RecordError(ei, mi))
      ensures dataSpans == if ec != Ok then old(dataSpans)
                           else old(dataSpans)[mi := old(dataSpans)[mi].(prefixSpan := SpanOf(b))]
    {
      ec := RecordError(ei, mi);
      if ec == Ok {
        dataSpans := dataSpans[mi := dataSpans[mi].(prefixSpan := SpanOf(b))];
      }
    }

    method ModuleDynamic(ei: nat, mi: nat, b: DataBlock) returns (ec: ErrorCode)
      modifies `dataSpans
      ensures ec == old(RecordError(ei, mi))
      ensures dataSpans == if ec != Ok then old(dataSpans)
                           else old(dataSpans)[mi := old(dataSpans)[mi].(dynamicSpan := SpanOf(b))]
    {
      ec := RecordError(ei, mi);
      if ec == Ok {
        dataSpans := dataSpans[mi := dataSpans[mi].(dynamicSpan := SpanOf(b))];
      }
    }

    method ModuleSuffix(ei: nat, mi: nat, b: DataBlock) returns (ec: ErrorCode)
      modifies `dataSpans
      ensures ec == old(RecordError(ei, mi))
      ensures dataSpans == if ec != Ok then old(dataSpans)
                           else old(dataSpans)[mi := old(dataSpans)[mi].(suffixSpan := SpanOf(b))]
    {
      ec := RecordError(ei, mi);
      if ec == Ok {
        dataSpans := dataSpans[mi := dataSpans[mi].(suffixSpan := SpanOf(b))];
      }
    }

    /** The size of the subevent at the start of a span whose header has no size. As written the
        loop body never advances: it breaks on a header and otherwise repeats unchanged. */
    method SearchSize(mem: seq<Word>, f: HeaderFilter, s: DataSpan) returns (size: Size)
      requires s.end <= |mem| && WordsInSpan(s) > 0 && f.sizeMask == ZERO
      ensures size == HeaderSize(rule, f, Contents(mem, s))
    {
      var moduleWord := s.begin + 1;
      if rule.AsWritten? {
        if moduleWord < s.end && !Matches(f, mem[moduleWord]) {
          return Endless;
        }
        return Words(moduleWord - s.begin + 1);
      }
      ghost var d := Contents(mem, s);
      while moduleWord < s.end && !Matches(f, mem[moduleWord])
        invariant s.begin < moduleWord <= s.end
        invariant NextHeader(f, d, 1) == NextHeader(f, d, moduleWord - s.begin)
      {
        moduleWord := moduleWord + 1;
      }
      return Words(moduleWord - s.begin);
    }

    /** Whether the next word of a span is a header, and the size of the subevent it starts. */
    method CheckHeader(mem: seq<Word>, f: HeaderFilter, s: DataSpan, ghost c: Cut)
      returns (hasMatch: bool, size: Size)
      requires s.end <= |mem| && IsCut(rule, mem, f, s, c)
      ensures RecordsCut(hasMatch, size, c, WordsInSpan(s))
    {
      hasMatch, size := false, Words(0);
      if WordsInSpan(s) > 0 {
        ghost var d := Contents(mem, s);
        assert d[0] == mem[s.begin];
        hasMatch := Matches(f, mem[s.begin]);
        if hasMatch {
          if f.sizeMask != ZERO {
            size := Words((1 + AnnouncedSize(f, mem[s.begin])) % U32_RANGE);
          } else {
            size := SearchSize(mem, f, s);
          }
          assert size == HeaderSize(rule, f, d);
        }
      }
    }

    /** Fills in, for every module, whether its next word is a header and how long its subevent is.
        The result says whether this pass is where the walk stops making progress for good. */
    method CheckHeaders(mem: seq<Word>, fs: seq<HeaderFilter>, count: nat, ghost cuts: seq<Cut>,
                        matched: array<bool>, sizes: array<int>) returns (stuck: bool)
      requires count <= |dataSpans| && count <= |fs| && count <= MAX_VME_MODULES
      requires matched.Length == sizes.Length == MAX_VME_MODULES
      requires SpansInMemory(mem, dataSpans[..count])
      requires CutsOf(rule, mem, fs, dataSpans[..count], cuts)
      modifies matched, sizes
      ensures stuck <==> exists m :: 0 <= m < count && cuts[m].Stuck?
      ensures !stuck ==> forall m :: 0 <= m < count ==>
                MatchesCut(matched[m], sizes[m], cuts[m], WordsInSpan(dataSpans[m].dynamicSpan))
      ensures forall m :: count <= m < matched.Length ==> !matched[m]
    {
      stuck := false;
      for i := 0 to matched.Length
        invariant forall m :: 0 <= m < i ==> !matched[m]
      {
        matched[i], sizes[i] := false, -1;
      }
      for mi := 0 to count
        invariant forall m :: mi <= m < matched.Length ==> !matched[m]
        invariant stuck <==> exists m :: 0 <= m < mi && cuts[m].Stuck?
        invariant !stuck ==> forall m :: 0 <= m < mi ==>
                    MatchesCut(matched[m], sizes[m], cuts[m], WordsInSpan(dataSpans[m].dynamicSpan))
      {
        assert dataSpans[..count][mi] == dataSpans[mi];
        assert IsCut(rule, mem, fs[mi], dataSpans[..count][mi].dynamicSpan, cuts[mi]);
        var hasMatch, size := CheckHeader(mem, fs[mi], dataSpans[mi].dynamicSpan, cuts[mi]);
        matched[mi] := hasMatch;
        if hasMatch {
          if size.Endless? || size.n == 0 {
            stuck := true;
          } else {
            sizes[mi] := size.n;
          }
        }
      }
    }

    /** Sets the parts of the modules that are not split. */
    method YieldStaticParts(count: nat, staticPartsYielded: bool, moduleDataList: array<ModuleData>)
      requires count <= |dataSpans| && count <= MAX_VME_MODULES == moduleDataList.Length
      modifies moduleDataList
      ensures forall m :: 0 <= m < count ==>
                moduleDataList[m].prefix == StaticBlock(staticPartsYielded, dataSpans[m].prefixSpan) &&
                moduleDataList[m].suffix == StaticBlock(staticPartsYielded, dataSpans[m].suffixSpan)
    {
      for mi := 0 to count
        invariant forall m :: 0 <= m < mi ==>
                    moduleDataList[m].prefix == StaticBlock(staticPartsYielded, dataSpans[m].prefixSpan) &&
                    moduleDataList[m].suffix == StaticBlock(staticPartsYielded, dataSpans[m].suffixSpan)
      {
        var spans := dataSpans[mi];
        if !staticPartsYielded {
          moduleDataList[mi] := moduleDataList[mi].(prefix := WholeBlock(spans.prefixSpan),
                                                    suffix := WholeBlock(spans.suffixSpan));
        } else {
          moduleDataList[mi] := moduleDataList[mi].(prefix := NO_BLOCK, suffix := NO_BLOCK);
        }
      }
    }

    /** Hands out one subevent per matching module and moves the spans forward. */
    method YieldSubevents(count: nat, ghost cuts: seq<Cut>,
                          matched: array<bool>, sizes: array<int>, moduleDataList: array<ModuleData>)
      requires |cuts| == count <= |dataSpans| && count <= MAX_VME_MODULES
      requires matched.Length == sizes.Length == moduleDataList.Length == MAX_VME_MODULES
      requires forall m :: 0 <= m < count ==>
                 MatchesCut(matched[m], sizes[m], cuts[m], WordsInSpan(dataSpans[m].dynamicSpan))
      modifies `dataSpans, moduleDataList
      ensures |dataSpans| == |old(dataSpans)| && dataSpans[count..] == old(dataSpans)[count..]
      ensures forall m :: 0 <= m < count ==>
                dataSpans[m] == old(dataSpans)[m].(dynamicSpan := Advanced(old(dataSpans)[m].dynamicSpan, cuts[m]))
      ensures forall m :: 0 <= m < count ==>
                moduleDataList[m] ==
                old(moduleDataList[m]).(dynamic := CutBlock(old(dataSpans)[m].dynamicSpan, cuts[m]))
    {
      ghost var was := dataSpans;
      for mi := 0 to count
        invariant |dataSpans| == |was|
        invariant forall m :: mi <= m < |was| ==> dataSpans[m] == was[m]
        invariant forall m :: 0 <= m < mi ==>
                    dataSpans[m] == was[m].(dynamicSpan := Advanced(was[m].dynamicSpan, cuts[m]))
        invariant forall m :: 0 <= m < mi ==>
                    moduleDataList[m] == old(moduleDataList[m]).(dynamic := CutBlock(was[m].dynamicSpan, cuts[m]))
        invariant forall m :: mi <= m < count ==> moduleDataList[m] == old(moduleDataList[m])
      {
        var s := dataSpans[mi].dynamicSpan;
        assert MatchesCut(matched[mi], sizes[mi], cuts[mi], WordsInSpan(s));
        moduleDataList[mi] := moduleDataList[mi].(dynamic := NO_BLOCK);
        if matched[mi] {
          var moduleEventSize := sizes[mi];
          if moduleEventSize > WordsInSpan(s) {
            dataSpans := dataSpans[mi := dataSpans[mi].(dynamicSpan := DataSpan(s.end, s.end))];
          } else {
            moduleDataList[mi] := moduleDataList[mi].(dynamic := DataBlock(s.begin, moduleEventSize));
            dataSpans := dataSpans[mi := dataSpans[mi].(dynamicSpan := DataSpan(s.begin + moduleEventSize, s.end))];
          }
        }
      }
    }

    method NoneSet(matched: array<bool>) returns (r: bool)
      ensures r <==> forall m :: 0 <= m < matched.Length ==> !matched[m]
    {
      for m := 0 to matched.Length
        invariant forall j :: 0 <= j < m ==> !matched[j]
      {
        if matched[m] {
          return false;
        }
      }
      return true;
    }

    /** The first half of a pass: ends the walk or leaves the cuts to be made. */
    method CheckPass(mem: seq<Word>, fs: seq<HeaderFilter>, count: nat, matched: array<bool>, sizes: array<int>,
                     ghost g: seq<seq<DataBlock>>, ghost k: seq<bool>, ghost i: nat)
      returns (ended: Option<Outcome>, ghost cuts: seq<Cut>)
      requires |g| == count <= |dataSpans| && count <= |fs| && count <= MAX_VME_MODULES
      requires matched.Length == sizes.Length == MAX_VME_MODULES
      requires SpansInMemory(mem, dataSpans[..count])
      requires Tracks(rule, mem, fs, dataSpans[..count], g, k, i)
      requires i == 0 || exists m :: 0 <= m < |g| && i <= |g[m]|
      modifies matched, sizes
      ensures ended.Some? ==> CallCount(g, k, i, ended.value)
      ensures CutsOf(rule, mem, fs, dataSpans[..count], cuts)
      ensures ended.None? ==> CutsTell(cuts, dataSpans[..count], g, k, i)
      ensures ended.None? ==> forall m :: 0 <= m < count ==>
                MatchesCut(matched[m], sizes[m], cuts[m], WordsInSpan(dataSpans[m].dynamicSpan))
    {
      ghost var now := dataSpans[..count];
      cuts := seq(count, m requires 0 <= m < count => NextCut(rule, fs[m], Contents(mem, now[m].dynamicSpan)));
      PassOverModules(rule, mem, fs, now, cuts, g, k, i);
      var stuck := CheckHeaders(mem, fs, count, cuts, matched, sizes);
      if stuck {
        StuckCount(cuts, now, g, k, i);
        return Some(NeverReturns), cuts;
      }
      var none := NoneSet(matched);
      if none {
        DoneCount(cuts, now, g, k, i);
        return Some(Returned(Ok)), cuts;
      }
      return None, cuts;
    }

    /** The second half of a pass: makes one call and moves all modules forward. */
    method YieldPass(callbacks: Callbacks, ei: nat, count: nat, ghost cuts: seq<Cut>,
                     staticPartsYielded: bool, matched: array<bool>, sizes: array<int>,
                     moduleDataList: array<ModuleData>,
                     ghost spans: seq<ModuleDataSpans>, ghost g: seq<seq<DataBlock>>,
                     ghost k: seq<bool>, ghost i: nat)
      requires |cuts| == |spans| == |g| == count <= |dataSpans| && count <= MAX_VME_MODULES
      requires matched.Length == sizes.Length == moduleDataList.Length == MAX_VME_MODULES
      requires CutsTell(cuts, dataSpans[..count], g, k, i)
      requires forall m :: 0 <= m < count ==>
                 MatchesCut(matched[m], sizes[m], cuts[m], WordsInSpan(dataSpans[m].dynamicSpan))
      requires forall m :: 0 <= m < count ==> dataSpans[m] == spans[m].(dynamicSpan := dataSpans[m].dynamicSpan)
      requires staticPartsYielded <==> i > 0
      modifies `dataSpans, callbacks, moduleDataList
      ensures |dataSpans| == |old(dataSpans)|
      ensures forall m :: 0 <= m < count ==>
                dataSpans[m] == old(dataSpans)[m].(dynamicSpan := Advanced(old(dataSpans)[m].dynamicSpan, cuts[m]))
      ensures callbacks.calls == old(callbacks.calls) + [ExpectedCall(ei, spans, g, i)]
    {
      ghost var now := dataSpans[..count];
      YieldStaticParts(count, staticPartsYielded, moduleDataList);
      YieldSubevents(count, cuts, matched, sizes, moduleDataList);
      callbacks.EventData(ei, moduleDataList, count);
      forall m | 0 <= m < count ensures moduleDataList[m] == ExpectedCall(ei, spans, g, i).modules[m] {
        assert CutTells(cuts[m], now[m].dynamicSpan, g[m], k[m], i);
      }
      assert moduleDataList[..count] == ExpectedCall(ei, spans, g, i).modules;
    }

    /** One pass of the walk: ends it, or makes one call and moves all modules forward. */
    method Pass(mem: seq<Word>, callbacks: Callbacks, ei: nat, fs: seq<HeaderFilter>, count: nat,
                staticPartsYielded: bool, matched: array<bool>, sizes: array<int>,
                moduleDataList: array<ModuleData>,
                ghost spans: seq<ModuleDataSpans>, ghost g: seq<seq<DataBlock>>, ghost k: seq<bool>, ghost i: nat,
                ghost before: seq<EventCall>, ghost made: seq<EventCall>)
      returns (ended: Option<Outcome>)
      requires |spans| == count <= |dataSpans| && count <= MAX_VME_MODULES
      requires matched.Length == sizes.Length == moduleDataList.Length == MAX_VME_MODULES
      requires Walking(rule, mem, fs, spans, dataSpans[..count], g, k, i)
      requires staticPartsYielded <==> i > 0
      requires Made(before, callbacks.calls, made, ei, spans, g, i)
      modifies `dataSpans, callbacks, matched, sizes, moduleDataList
      ensures |dataSpans| == |old(dataSpans)|
      ensures ended.Some? ==> CallCount(g, k, i, ended.value) && Made(before, callbacks.calls, made, ei, spans, g, i)
      ensures ended.None? ==> Walking(rule, mem, fs, spans, dataSpans[..count], g, k, i + 1)
      ensures ended.None? ==> RemainingWords(dataSpans[..count], count) < RemainingWords(old(dataSpans)[..count], count)
      ensures ended.None? ==>
                Made(before, callbacks.calls, made + [ExpectedCall(ei, spans, g, i)], ei, spans, g, i + 1)
    {
      ghost var callsSoFar := callbacks.calls;
      ghost var now := dataSpans[..count];
      ghost var cuts;
      ended, cuts := CheckPass(mem, fs, count, matched, sizes, g, k, i);
      if ended.None? {
        YieldPass(callbacks, ei, count, cuts, staticPartsYielded, matched, sizes, moduleDataList,
                  spans, g, k, i);
        CallsExtend(before, callsSoFar, made, ei, spans, g, i);
        PassCompletes(rule, mem, fs, spans, now, cuts, dataSpans[..count], g, k, i);
      }
    }

    /** The passes of the walk, until one ends it. */
    method Walk(mem: seq<Word>, callbacks: Callbacks, ei: nat, fs: seq<HeaderFilter>, count: nat,
                matched: array<bool>, sizes: array<int>, moduleDataList: array<ModuleData>,
                ghost spans: seq<ModuleDataSpans>, ghost g: seq<seq<DataBlock>>, ghost k: seq<bool>)
      returns (outcome: Outcome, ghost made: seq<EventCall>)
      requires |spans| == count <= |dataSpans| && count <= MAX_VME_MODULES
      requires matched.Length == sizes.Length == moduleDataList.Length == MAX_VME_MODULES
      requires |g| == |k| == |spans| && Walking(rule, mem, fs, spans, dataSpans[..count], g, k, 0)
      modifies `dataSpans, callbacks, matched, sizes, moduleDataList
      ensures |dataSpans| == |old(dataSpans)|
      ensures |g| == |k| == |spans| && Made(old(callbacks.calls), callbacks.calls, made, ei, spans, g, |made|)
      ensures CallCount(g, k, |made|, outcome)
    {
      ghost var before := callbacks.calls;
      made := [];
      var staticPartsYielded := false;
      while true
        invariant |dataSpans| == |old(dataSpans)|
        invariant Walking(rule, mem, fs, spans, dataSpans[..count], g, k, |made|)
        invariant staticPartsYielded <==> made != []
        invariant Made(before, callbacks.calls, made, ei, spans, g, |made|)
        decreases RemainingWords(dataSpans[..count], count)
      {
        var ended := Pass(mem, callbacks, ei, fs, count, staticPartsYielded, matched, sizes, moduleDataList,
                          spans, g, k, |made|, before, made);
        if ended.Some? {
          outcome := ended.value;
          return;
        }
        staticPartsYielded := true;
        made := made + [ExpectedCall(ei, spans, g, |made|)];
      }
    }

    /** The walk over an event with splitting enabled. */
    method SplitEvent(mem: seq<Word>, callbacks: Callbacks, ei: nat, fs: seq<HeaderFilter>, count: nat)
      returns (outcome: Outcome)
      requires count <= |dataSpans| && count <= |fs| && count <= MAX_VME_MODULES
      requires SpansInMemory(mem, dataSpans[..count])
      modifies `dataSpans, callbacks
      ensures |dataSpans| == |old(dataSpans)|
      ensures old(callbacks.calls) <= callbacks.calls
      ensures SplitCalls(rule, mem, fs, old(dataSpans)[..count], ei,
                         callbacks.calls[|old(callbacks.calls)|..], outcome)
    {
      ghost var spans, before := dataSpans[..count], callbacks.calls;
      ghost var g, k := AllBlocks(rule, mem, fs, spans), AllSticks(rule, mem, fs, spans);
      ghost var made;
      WalkStarts(rule, mem, fs, spans);
      var sizes := new int[MAX_VME_MODULES];
      var matched := new bool[MAX_VME_MODULES];
      var moduleDataList := new ModuleData[MAX_VME_MODULES](_ => ModuleData(NO_BLOCK, NO_BLOCK, NO_BLOCK));
      outcome, made := Walk(mem, callbacks, ei, fs, count, matched, sizes, moduleDataList, spans, g, k);
      CallsMade(before, callbacks.calls, made, ei, spans, g, |made|);
    }

    /** Called when all parts of an event are recorded: makes the calls for it. */
    method EndEvent(mem: seq<Word>, callbacks: Callbacks, ei: nat, moduleCount: nat) returns (outcome: Outcome)
      requires Valid() && ei < |splitFilters| ==> Accessible(mem, ei, moduleCount)
      requires Valid()
      modifies `dataSpans, callbacks
      ensures |dataSpans| == |old(dataSpans)| && old(callbacks.calls) <= callbacks.calls
      ensures EventCalls(mem, ei, old(dataSpans[..if ei < |splitFilters| then moduleCount else 0]),
                         callbacks.calls[|old(callbacks.calls)|..], outcome)
    {
      if ei >= |splitFilters| {
        assert callbacks.calls[|callbacks.calls|..] == [];
        return Returned(EventIndexOutOfRange);
      }
      ghost var before := callbacks.calls;
      if !enabledForEvent[ei] {
        var moduleDataList := new ModuleData[MAX_VME_MODULES](_ => ModuleData(NO_BLOCK, NO_BLOCK, NO_BLOCK));
        for mi := 0 to moduleCount
          invariant dataSpans == old(dataSpans) && callbacks.calls == before
          invariant forall m :: 0 <= m < mi ==> moduleDataList[m] == WholeModule(dataSpans[m])
        {
          moduleDataList[mi] := WholeModule(dataSpans[mi]);
        }
        callbacks.EventData(ei, moduleDataList, moduleCount);
        assert moduleDataList[..moduleCount] == WholeCall(ei, dataSpans[..moduleCount]).modules;
        assert callbacks.calls[|before|..] == [WholeCall(ei, dataSpans[..moduleCount])];
        return Returned(Ok);
      }
      outcome := SplitEvent(mem, callbacks, ei, splitFilters[ei], moduleCount);
    }

    /** What the caller of the end of an event owes: at most as many modules as there are spans,
        filters and buffer slots, and recorded data that lies in memory. */
    ghost predicate Accessible(mem: seq<Word>, ei: nat, moduleCount: nat)
      requires Valid() && ei < |splitFilters|
      reads this
    {
      && moduleCount <= |dataSpans| && moduleCount <= MAX_VME_MODULES
      && (enabledForEvent[ei] ==> moduleCount <= |splitFilters[ei]|)
      && SpansInMemory(mem, dataSpans[..moduleCount])
    }

    /** The calls for one event whose modules were recorded as `spans`. */
    ghost predicate EventCalls(mem: seq<Word>, ei: nat, spans: seq<ModuleDataSpans>, calls: seq<EventCall>,
                               outcome: Outcome)
      requires Valid()
      requires ei < |splitFilters| && enabledForEvent[ei] ==> |spans| <= |splitFilters[ei]| && SpansInMemory(mem, spans)
      reads this
    {
      if ei >= |splitFilters| then outcome == Returned(EventIndexOutOfRange) && calls == []
      else if !enabledForEvent[ei] then outcome == Returned(Ok) && calls == [WholeCall(ei, spans)]
      else SplitCalls(rule, mem, splitFilters[ei], spans, ei, calls, outcome)
    }

    /** One event of the readout parser. The calls depend on the filters and on the data passed in
        here alone, not on what earlier events left in the splitter. */
    method EventData(mem: seq<Word>, callbacks: Callbacks, ei: nat,
                     moduleDataList: seq<ModuleData>) returns (outcome: Outcome)
      requires Valid()
      requires ei < |splitFilters| ==>
                 && |moduleDataList| <= |dataSpans| && |moduleDataList| <= MAX_VME_MODULES
                 && (enabledForEvent[ei] ==> |moduleDataList| <= |splitFilters[ei]|)
                 && SpansInMemory(mem, RecordedSpans(moduleDataList))
      modifies `dataSpans, callbacks
      ensures |dataSpans| == |old(dataSpans)| && old(callbacks.calls) <= callbacks.calls
      ensures EventCalls(mem, ei, RecordedSpans(moduleDataList), callbacks.calls[|old(callbacks.calls)|..], outcome)
    {
      var _ := BeginEvent(ei);
      for mi := 0 to |moduleDataList|
        invariant |dataSpans| == |old(dataSpans)| && callbacks.calls == old(callbacks.calls)
        invariant ei < |splitFilters| ==> forall m :: 0 <= m < mi ==> dataSpans[m] == RecordedSpans(moduleDataList)[m]
      {
        var moduleData := moduleDataList[mi];
        var _ := ModulePrefix(ei, mi, moduleData.prefix);
        var _ := ModuleDynamic(ei, mi, moduleData.dynamic);
        var _ := ModuleSuffix(ei, mi, moduleData.suffix);
      }
      if ei < |splitFilters| {
        assert dataSpans[..|moduleDataList|] == RecordedSpans(moduleDataList);
      }
      outcome := EndEvent(mem, callbacks, ei, |moduleDataList|);
    }
  }

  function SpanOf(b: DataBlock): DataSpan {
    DataSpan(b.data, b.data + b.size)
  }

  function RecordedSpans(list: seq<ModuleData>): (r: seq<ModuleDataSpans>)
    ensures |r| == |list|
  {
    seq(|list|, m requires 0 <= m < |list| =>
      ModuleDataSpans(SpanOf(list[m].prefix), SpanOf(list[m].dynamic), SpanOf(list[m].suffix)))
  }

  /** The single call of an event without splitting. */
  function WholeCall(ei: nat, spans: seq<ModuleDataSpans>): EventCall {
    EventCall(ei, seq(|spans|, m requires 0 <= m < |spans| => WholeModule(spans[m])))
  }

  lemma StuckCount(cuts: seq<Cut>, now: seq<ModuleDataSpans>, g: seq<seq<DataBlock>>,
                   k: seq<bool>, i: nat)
    requires |cuts| == |now| == |g| == |k|
    requires forall m :: 0 <= m < |now| ==> CutTells(cuts[m], now[m].dynamicSpan, g[m], k[m], i)
    requires exists m :: 0 <= m < |now| && cuts[m].Stuck?
    ensures CallCount(g, k, i, NeverReturns)
  {
    forall m | 0 <= m < |now| ensures (k[m] ==> i <= |g[m]|) && (cuts[m].Stuck? ==> k[m] && |g[m]| <= i) {
      assert CutTells(cuts[m], now[m].dynamicSpan, g[m], k[m], i);
    }
  }

  lemma DoneCount(cuts: seq<Cut>, now: seq<ModuleDataSpans>, g: seq<seq<DataBlock>>,
                  k: seq<bool>, i: nat)
    requires |cuts| == |now| == |g| == |k|
    requires forall m :: 0 <= m < |now| ==> CutTells(cuts[m], now[m].dynamicSpan, g[m], k[m], i)
    requires forall m :: 0 <= m < |now| ==> cuts[m].NoHeader?
    requires i == 0 || exists m :: 0 <= m < |g| && i <= |g[m]|
    ensures CallCount(g, k, i, Returned(Ok))
  {
    forall m | 0 <= m < |now| ensures !k[m] && |g[m]| <= i {
      assert CutTells(cuts[m], now[m].dynamicSpan, g[m], k[m], i);
    }
  }

  ghost predicate CutsOf(rule: SearchRule, mem: seq<Word>, fs: seq<HeaderFilter>, spans: seq<ModuleDataSpans>,
                         cuts: seq<Cut>)
    requires |spans| <= |fs| && SpansInMemory(mem, spans)
  {
    |cuts| == |spans| &&
    forall m {:trigger IsCut(rule, mem, fs[m], spans[m].dynamicSpan, cuts[m])} ::
      0 <= m < |spans| ==> IsCut(rule, mem, fs[m], spans[m].dynamicSpan, cuts[m])
  }

  ghost predicate IsCut(rule: SearchRule, mem: seq<Word>, f: HeaderFilter, s: DataSpan, c: Cut)
    requires s.end <= |mem|
  {
    c == NextCut(rule, f, Contents(mem, s))
  }

  ghost predicate RecordsCut(hasMatch: bool, size: Size, c: Cut, words: nat) {
    && (hasMatch <==> !c.NoHeader?)
    && (c.Stuck? <==> hasMatch && (size.Endless? || size.n == 0))
    && (c.Truncated? ==> size.n > words)
    && (c.Piece? ==> size.n == c.n <= words)
  }

  /** What the header check records about a cut. */
  predicate MatchesCut(matched: bool, size: int, c: Cut, words: nat) {
    && (matched <==> HasStep(c))
    && (c.Truncated? ==> size > words)
    && (c.Piece? ==> size == c.n <= words)
  }

  // ---------------------------------------------------------------------
  // Building a splitter from filter strings

  /** The filter and its 'S' cache for a filter string; None stands for the length error. */
  function CompileFilter(raw: seq<char>): Option<HeaderFilter> {
    var chars := RemoveSpaces(raw);
    if |chars| > MAX_FILTER_SIZE then None
    else Some(HeaderFilter(MatchMaskOf(chars), MatchValueOf(chars), ExtractMaskOf(chars, ToLower('S'))))
  }

  /** Splitting is enabled iff some filter demands something of a word. */
  ghost predicate WantsSplitting(fs: seq<HeaderFilter>) {
    exists m :: 0 <= m < |fs| && fs[m].matchMask != ZERO
  }

  ghost predicate Compiled(strings: seq<seq<char>>, fs: seq<HeaderFilter>) {
    |fs| == |strings| && forall m :: 0 <= m < |fs| ==> CompileFilter(strings[m]) == Some(fs[m])
  }

  /** No event has more modules. */
  ghost predicate IsLargest(splitFilterStrings: seq<seq<seq<char>>>, e: nat)
    requires e < |splitFilterStrings|
  {
    forall j :: 0 <= j < |splitFilterStrings| ==> |splitFilterStrings[j]| <= |splitFilterStrings[e]|
  }

  method CompileFilters(strings: seq<seq<char>>) returns (r: Option<seq<HeaderFilter>>)
    ensures r.None? <==> exists m :: 0 <= m < |strings| && CompileFilter(strings[m]).None?
    ensures r.Some? ==> Compiled(strings, r.value)
  {
    var fs: seq<HeaderFilter> := [];
    for m := 0 to |strings|
      invariant |fs| == m && forall j :: 0 <= j < m ==> CompileFilter(strings[j]) == Some(fs[j])
    {
      var f := CompileFilter(strings[m]);
      if f.None? {
        return None;
      }
      fs := fs + [f.value];
    }
    return Some(fs);
  }

  method HasNonZeroFilter(fs: seq<HeaderFilter>) returns (r: bool)
    ensures r <==> WantsSplitting(fs)
  {
    for m := 0 to |fs|
      invariant forall j :: 0 <= j < m ==> fs[j].matchMask == ZERO
    {
      if fs[m].matchMask != ZERO {
        return true;
      }
    }
    return false;
  }

  /** A splitter for the given filter strings per event and module. There are spans for the
      modules of every event, so every recording call for a configured module succeeds. */
  method MakeSplitter(rule: SearchRule, splitFilterStrings: seq<seq<seq<char>>>) returns (r: Option<State>)
    requires |splitFilterStrings| <= MAX_VME_EVENTS
    ensures r.None? <==> exists e, m :: 0 <= e < |splitFilterStrings| && 0 <= m < |splitFilterStrings[e]| &&
                           CompileFilter(splitFilterStrings[e][m]).None?
    ensures r.Some? ==>
              var st := r.value;
              && fresh(st) && st.Valid() && st.rule == rule
              && |st.splitFilters| == |splitFilterStrings|
              && (forall e :: 0 <= e < |st.splitFilters| ==> Compiled(splitFilterStrings[e], st.splitFilters[e]))
              && (forall e :: 0 <= e < |st.splitFilters| ==> |st.splitFilters[e]| <= |st.dataSpans|)
              && (|st.dataSpans| == 0 ||
                  exists e :: 0 <= e < |st.splitFilters| && |st.splitFilters[e]| == |st.dataSpans|)
              && (forall e :: 0 <= e < |st.splitFilters| ==>
                    (|st.splitFilters[e]| == |st.dataSpans| <==> IsLargest(splitFilterStrings, e)))
              && (forall e :: 0 <= e < MAX_VME_EVENTS ==>
                    (st.enabledForEvent[e] <==> e < |st.splitFilters| && WantsSplitting(st.splitFilters[e])))
  {
    var st := new State(rule);
    var eventMaxModules: nat := 0;
    for e := 0 to |splitFilterStrings|
      invariant st.Valid() && |st.splitFilters| == e && fresh(st)
      invariant forall j :: 0 <= j < e ==> Compiled(splitFilterStrings[j], st.splitFilters[j])
      invariant forall j :: 0 <= j < e ==> |st.splitFilters[j]| <= eventMaxModules
      invariant eventMaxModules == 0 || exists j :: 0 <= j < e && |st.splitFilters[j]| == eventMaxModules
      invariant forall j :: 0 <= j < MAX_VME_EVENTS ==> !st.enabledForEvent[j]
    {
      var fs := CompileFilters(splitFilterStrings[e]);
      if fs.None? {
        return None;
      }
      st.splitFilters := st.splitFilters + [fs.value];
      assert st.splitFilters[e] == fs.value;
      if |fs.value| > eventMaxModules {
        eventMaxModules := |fs.value|;
      }
    }
    st.dataSpans := seq(eventMaxModules, _ => ModuleDataSpans(NO_SPAN, NO_SPAN, NO_SPAN));
    ghost var filters, spans := st.splitFilters, st.dataSpans;
    for e := 0 to |st.splitFilters|
      invariant st.splitFilters == filters && st.dataSpans == spans && |st.enabledForEvent| == MAX_VME_EVENTS
      invariant forall j :: 0 <= j < e ==> (st.enabledForEvent[j] <==> WantsSplitting(filters[j]))
      invariant forall j :: e <= j < MAX_VME_EVENTS ==> !st.enabledForEvent[j]
    {
      var enabled := HasNonZeroFilter(st.splitFilters[e]);
      st.enabledForEvent := st.enabledForEvent[e := enabled];
    }
    return Some(st);
  }
}

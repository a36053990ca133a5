# Verified model of the mvme data acquisition core

This project models, in Dafny, five parts of mvme, a VME data acquisition and online analysis
program, and proves what they promise.

* **Data filters** (`Bits`, `DataFilter`, `FilterTheorems`, `MultiWordFilter`). A filter string
  compiles to a match mask, a match value and one extraction mask for each marker character. The
  extraction masks are cached, and extraction takes a shift-only or a bit gathering path. `Bits`
  states what gathering means bit by bit; the compiled comparison is proved to be the
  character-by-character reading of the pattern, and both extraction paths with every state of the
  cache to be the same per-bit extraction. What each character adds is stated from the front of the
  string: a filter of digits accepts its binary number, and marker bits are read as binary digits.
  Multi-word filters assign words greedily and pack the parts without loss.
* **Multi-event splitter** (`SplitSpec`, `MultiEventSplitter`, `SplitterTheorems`). All modules of
  an event are walked in lock step and cut into subevents, one callback for each step. The
  specification is a greedy split of each module's data alone; the walk is proved to zip these
  splits together, to end exactly when all of them end, and to give the original subevents back.
* **Stream worker** (`StreamWorker` and five files of invariants and theorems). The worker thread,
  any number of controller threads and a producer form a transition system in which every access to
  shared state is a step of its own and the state mutex is explicit. The theorems hold for every
  interleaving: no lost wake-up, exact single stepping, conservation of buffers, a stop that stays
  in force inside the run loop, ends it within a computable number of steps, and processes or
  drains the queue as its kind says.
* **VM-USB stack encoding and MVLC stack memory** (`ReadoutList`, `ReadoutListDecoding`,
  `StackSetup`, `TriggerIo`, `StackSetupTheorems`, `TriggerTheorems`). The encoding of scripts is
  proved uniquely decodable, with the exact set of commands for which this is so; the uploaded
  readout stacks are proved to lie apart in stack memory exactly if no stack's end address wraps
  and then looks as if it fitted, the loops that number stacks, triggers and timers to agree, and
  the trigger registers to tell the condition, IACK choice and level of their events.
* **Histograms** (`AxisBinning`, `Histo1D`, `Histo1DTheorems`, `Histo1DStatistics`,
  `StatisticsTheorems`, `Histo2D`, `Histo2DTheorems`, `Projection`, `ProjectionTheorems`). Bins
  enclose what falls into them, no weight is lost, resolution reduction regroups bins exactly if
  its factor divides their number, projections sum exactly the bins that meet their window and
  agree between the two overloads, and the width at half maximum encloses the maximum unless the
  first two bins had to stand in for its left edge. Where the code falls short, as with the tracked
  maximum, the exact condition is proved.

Classes and loops of the original are classes and loops here. Their contracts give the new state as
a function of the old one, or state the property outright; the lemmas beside them are about those
functions. `dafny verify dfyconfig.toml` checks the whole project.

## What the proofs found

* The header search of the splitter, for filters without size bits, never moves past the second
  word and counts the header twice (`src/multi_event_splitter.cc:326-338`). The interface comment
  (`src/multi_event_splitter.h:77-79`) describes a search for the next header. Both are modelled,
  as the rules `AsWritten` and `Documented`; every theorem names its rule. As written the search
  never finds the documented size, and the walk hangs iff the first word that is not a header has
  an odd position (`WrittenSearchHangsIff`); the filter string "1" and two words are enough
  (`WrittenSearchHangs`).
* A filter with size bits never lets its split end iff it has 32 of them and the data comes to a
  header with all bits set, whose size wraps to zero (`SizedFilterSticksIff`). Such a filter
  demands nothing of a word, but another module's filter can enable splitting for the event
  (`SizeWrapHangs`).
* A stop during single stepping lets the remaining events through while the worker state is still
  SingleStepping: each of them is published as a single step result (`StrayResultIff`,
  `StrayResultReachable`).
* A stop call that completes while the worker is about to pause at start-up is overwritten
  (`WorkerOverwritesStopIff`, `StopLostInStartup`).
* A 64 bit block read of 0 transfers is encoded like one of 256; a 32 bit single read with a 64 bit
  block modifier is encoded like a block read of 256 (`DistinctIff`). The modifier that replaces
  the A24 mode fails the encoder's own assertion (`BlockAssertionIff`).
* A wait in a stack is computed as if a millisecond had 1000 ns, and cut off to eight bits of 200
  ns clocks: it lasts as long as asked for only if that is zero (`WaitLastsIff`).
* A stack of 0x4000 words passes the memory check, because its end address wraps to its begin
  (`OversizedStackAccepted`). The setup is unsafe exactly if some stack's end does so (`SafeIff`).
* The assertion at `src/multi_event_splitter.cc:273` holds for an event iff no other event has more
  modules (`MakeSplitter`); an event with fewer modules can want splitting (`SmallerEventSplits`).
* A multi-word filter tells all words apart that its parts can hold, as far as the marker goes, iff
  there are at most 64 marker bits, or the marker is '0' or '1', whose bits are the same in all of
  them (`LosslessIff`).
* Reduced bins are not groups of physical bins unless the factor divides the bin count
  (`RegroupsIff`); a two-dimensional histogram reads its last bin for bins beyond the end
  (`BeyondTheEnd`). On an axis given the wrong way round the low edges of the bins are reported as
  underflow (`ReversedAxis`), and a bin encloses what falls into it only at the begin of the axis
  (`EnclosesIff`).
* A window the wrong way round gives a projection of almost 2^32 bins, all zero, unless it misses
  by exactly no bin (`WrongWayBins`).
* The tracked maximum of a histogram is that of the bins after a fill iff the fill was not a
  negative weight in the very bin of the maximum (`FillKeepsMaximumIff`, `AlwaysRightIff`). What is
  tracked is the highest content that any bin ever had (`HighestIsHighest`), and it is right in the
  end iff the bin that reached it last has not been filled since (`MaximumRightIff`).
* Without a bin below half maximum on the left, the width at half maximum uses the first two bins,
  and its left edge may come to lie behind the maximum: `FindStandIn` says when, and contents of
  10, 9, 12 and 1 do it (`LeftEdgeBehindMaximum`, `BehindMaximum`).
* A histogram whose mean is exactly zero has a sigma of zero, however wide it is (`VarianceIff`,
  `CenteredAtZero`).

## Model

| member | source | states |
|---|---|---|
| Bits.BitGather | src/analysis/a2/util/bits.h:34-56 | the loop over the lowest set bits of the mask computes the gathered word |
| Bits.GatherMeaning | src/analysis/a2/util/bits.h:35-40 | bit at a set mask position lands at the number of set positions below it, every low result bit comes from such a position, all others are zero |
| Bits.GatherUnique | src/analysis/a2/util/bits.h:35-40 | that meaning determines the gathered word |
| Bits.GatherScatter | src/analysis/a2/util/bits.h:59-65 | gathering undoes scattering for every value that fits the mask |
| Bits.ScatterGather | src/analysis/a2/util/bits.h:34-40 | scattering undoes gathering up to the bits outside the mask |
| Bits.ShiftExtracts | src/data_filter.cc:128-130 | masking and shifting alone equals gathering when the mask has no gap |
| Bits.ShiftThenGather | src/data_filter.cc:138-148 | gathering the shifted word under the shifted mask equals gathering the word under the mask |
| DataFilters.MaskComparisonIsPattern | src/data_filter.h:59-63 | comparing under mask and value holds iff every '1' of the pattern meets a set bit and every '0' a clear one |
| DataFilters.DataFilter.constructor | src/data_filter.cc:35-43 | a filter of at most 32 characters is compiled, its cache empty |
| DataFilters.DataFilter.Compile | src/data_filter.cc:45-61 | the loop builds the masks of the pattern and drops the cache |
| DataFilters.DataFilter.Matches | src/data_filter.h:59-63 | accepts iff the word index fits and the word reads like the pattern |
| DataFilters.DataFilter.GetExtractMask | src/data_filter.cc:63-104 | the mask of the marker whatever has been cached, and every cached entry stays right, its gather flag set iff the positions have a gap |
| DataFilters.DataFilter.GetExtractShift | src/data_filter.cc:106-109 | position of the lowest marker bit |
| DataFilters.DataFilter.GetExtractBits | src/data_filter.cc:111-114 | number of marker bits |
| DataFilters.DataFilter.NeedGather | src/data_filter.cc:116-121 | set iff the marker positions are not contiguous |
| DataFilters.DataFilter.ExtractData | src/data_filter.cc:125-151 | both paths give the per-bit extraction, independent of the cache |
| DataFilters.MakeFilter | src/data_filter.cc:200-211 | removes spaces; fails iff more than 32 characters remain |
| DataFilters.ExtractScattered | src/data_filter.cc:125-151 | a value scattered over the marker and extracted comes back, for every filter and marker |
| DataFilters.MarkerCaseAndAbsence | src/data_filter.cc:67-93 | the case of the marker makes no difference, and an absent marker extracts zero |
| FilterTheorems.AcceptsFront | src/data_filter.cc:45-61 | a character in front of a filter speaks of the next higher bit only |
| FilterTheorems.NumberAccepts | src/data_filter.cc:45-61 | a filter of digits accepts exactly the words whose low bits are the binary number it denotes, first character highest |
| FilterTheorems.ToLowerIff | src/data_filter.cc:67-93 | characters are the same marker iff they are the same letter, capital or not, or equal |
| FilterTheorems.MaskFront | src/data_filter.cc:73-93 | the extraction mask gains the bit above all others if the character in front is the marker |
| FilterTheorems.ExtractFront | src/data_filter.cc:125-151 | a marker character in front of a filter, capital or not, adds the next higher binary digit to the extracted value, the bit it stands for; any other character nothing |
| FilterTheorems.SpacesOfConcat | src/data_filter.cc:200-211 | leaving spaces out of a string is leaving them out of its parts |
| MultiWordFilters.MultiWordDataFilter.constructor | src/data_filter.cc:169-173 | all parts unmatched |
| MultiWordFilters.MultiWordDataFilter.AddSubFilter | src/data_filter.cc:175-180 | appends the subfilter and clears completion |
| MultiWordFilters.MultiWordDataFilter.HandleDataWord | src/data_filter.h:116-137 | the loop gives the word to the first unmatched subfilter that takes it and to no other |
| MultiWordFilters.MultiWordDataFilter.IsComplete | src/data_filter.h:139-148 | true iff every part has matched |
| MultiWordFilters.MultiWordDataFilter.ClearCompletion | src/data_filter.h:150-156 | clears all parts and keeps the words |
| MultiWordFilters.MultiWordDataFilter.GetExtractBits | src/data_filter.h:219-229 | sum of the subfilters' marker bits |
| MultiWordFilters.MultiWordDataFilter.ExtractData | src/data_filter.h:158-197 | or-ing shifted parts is concatenating the marker bits, low part first, cut off after 64 bits, as long as no part with a value is shifted by 64 or more; zero unless complete |
| MultiWordFilters.GreedyAssignment | src/data_filter.h:116-137 | over any word sequence matched parts hold a word they take, no word feeds two parts, and each word goes to the first free part that takes it |
| MultiWordFilters.WordsFit | src/data_filter.h:116-137 | a matched part holds a word that reads like its pattern and has its index, if it is bound to one; words that fit an unmatched part have gone to parts before it |
| MultiWordFilters.MatchedPartsStay | src/data_filter.h:125-128 | a matched part keeps its word whatever follows |
| MultiWordFilters.PackedValueIsSum | src/data_filter.h:171-172 | the packed value is the sum of the parts weighted by the bits before them and below 2^(marker bits) |
| MultiWordFilters.PartCanBeCutOut | src/data_filter.h:94-102 | each subfilter's value can be sliced back out of the 64 bit result |
| MultiWordFilters.LimitDefinesShifts | src/data_filter.h:94-102 | within the documented limit of 64 marker bits no part with a value is shifted by 64 or more |
| MultiWordFilters.LosslessIff | src/data_filter.h:158-197 | accepted words that differ in marker bits give different results, cut off after 64 bits, iff there are at most 64 marker bits or the marker is one of the characters that demand a bit |
| SplitSpec.NothingLost | src/multi_event_splitter.cc:414-439 | pieces concatenate to a prefix of the data, the leftover is the rest: no word lost, duplicated or reordered |
| SplitSpec.LeftoverCannotBeCut | src/multi_event_splitter.cc:346-349 | the leftover is empty, starts with a word the filter rejects, announces too many words, or is where the split never ends |
| SplitSpec.OnlyTruncationIsEmpty | src/multi_event_splitter.cc:414-422 | only the last piece can be empty, iff the leftover announces more words than remain |
| SplitSpec.SplitInvertsJoin | src/multi_event_splitter.cc:295-344 | splitting any concatenation of well-formed subevents gives exactly these subevents |
| SplitSpec.WrittenSearchNeverAgrees | src/multi_event_splitter.cc:326-338 | the search as written never finds the documented size and is one too large where it ends |
| SplitSpec.WrittenSearchSplitsOnlyNothing | src/multi_event_splitter.cc:326-338 | as written, joined subevents are split correctly iff there are none |
| SplitSpec.WrittenSearchHangsIff | src/multi_event_splitter.cc:328-335 | as written, the split of any data hangs iff its first non-header has an odd position |
| SplitSpec.SizeWrapsIff | src/multi_event_splitter.cc:314-317 | the 32 bit size announced by one header is zero iff the filter has 32 size bits and all of the header's are set |
| SplitSpec.SizedFilterSticksIff | src/multi_event_splitter.cc:309-349 | with size bits, the split of any data never ends iff the filter has 32 of them and the first word left over is a matching header with all bits set |
| SplitSpec.SizedFiltersNeverStick | src/multi_event_splitter.cc:309-317 | with at least one and fewer than 32 size bits the split of any data ends |
| SplitSpec.DocumentedSearchNeverSticks | src/multi_event_splitter.h:77-79 | with the documented search the split of any data ends |
| MultiEventSplitter.MakeSplitter | src/multi_event_splitter.cc:91-137 | compiles all filters or fails iff one is too long; exactly the spans of the largest event, so as many as the filters of an event iff no other event has more; splitting enabled iff some filter of the event demands something |
| MultiEventSplitter.HasNonZeroFilter | src/multi_event_splitter.cc:124-131 | true iff some filter of the event has a non-zero match mask |
| MultiEventSplitter.CompileFilters | src/multi_event_splitter.cc:101-109 | filter and size cache of every module string |
| MultiEventSplitter.State.BeginEvent | src/multi_event_splitter.cc:142-154 | clears all spans, or fails without a change |
| MultiEventSplitter.State.ModulePrefix | src/multi_event_splitter.cc:160-176 | records one span, or fails without a change |
| MultiEventSplitter.State.ModuleDynamic | src/multi_event_splitter.cc:178-194 | records one span, or fails without a change |
| MultiEventSplitter.State.ModuleSuffix | src/multi_event_splitter.cc:196-212 | records one span, or fails without a change |
| MultiEventSplitter.State.SearchSize | src/multi_event_splitter.cc:322-338 | the search loop finds the size of its rule, or is known never to end |
| MultiEventSplitter.State.CheckHeader | src/multi_event_splitter.cc:298-343 | match bit and size of one module record the next cut of its remaining data |
| MultiEventSplitter.State.CheckPass | src/multi_event_splitter.cc:289-349 | a pass without matches ends the walk with the right number of calls made |
| MultiEventSplitter.State.YieldStaticParts | src/multi_event_splitter.cc:354-389 | prefix and suffix of all modules in the first call, nothing later |
| MultiEventSplitter.State.YieldSubevents | src/multi_event_splitter.cc:391-448 | every matching module hands out its next piece and moves past it; a truncated one is emptied |
| MultiEventSplitter.State.Pass | src/multi_event_splitter.cc:287-457 | one pass ends the walk or makes the next expected call, and the words left shrink |
| MultiEventSplitter.State.Walk | src/multi_event_splitter.cc:287-457 | the loop ends, with the calls of the independent splits zipped together and their number |
| MultiEventSplitter.State.SplitEvent | src/multi_event_splitter.cc:273-460 | the calls made for one event with splitting enabled |
| MultiEventSplitter.State.EndEvent | src/multi_event_splitter.cc:224-460 | error, one whole call, or the split calls, appended to the callbacks made before |
| MultiEventSplitter.State.EventData | src/multi_event_splitter.cc:463-479 | the calls depend on filters and passed data only, not on spans left by earlier events |
| MultiEventSplitter.PassStep | src/multi_event_splitter.cc:397-447 | a pass removes the first of the remaining pieces of a module and hands it out |
| SplitterTheorems.LockStepIsIndependent | src/multi_event_splitter.cc:287-457 | in call i every module has the i-th piece of the greedy split of its own data, whatever the others contain |
| SplitterTheorems.WholeEventPassesThrough | src/multi_event_splitter.cc:242-271 | without splitting there is one call for the event, with every part of every module as it was passed in |
| SplitterTheorems.SplitEventDelivers | src/multi_event_splitter.cc:463-479 | with splitting, every part of every module passed in comes out over all calls: prefix and suffix once, dynamic words in order up to the leftover |
| SplitterTheorems.StaticPartsOnce | src/multi_event_splitter.cc:360-374 | prefix and suffix words of a module are delivered once over all calls, and not at all without a call |
| SplitterTheorems.DynamicWordsInOrder | src/multi_event_splitter.cc:391-448 | the dynamic words delivered for a module over all calls are a prefix of its data in order; when the walk ends, together with the leftover they are its data |
| SplitterTheorems.CallsIffSomeHeader | src/multi_event_splitter.cc:346-349 | some call is made iff some module's first dynamic word matches, when the walk ends |
| SplitterTheorems.WalkEndsIff | src/multi_event_splitter.cc:287-349 | the walk ends iff the split of every module ends |
| SplitterTheorems.WrittenSearchHangs | src/multi_event_splitter.cc:326-338 | a filter string that enables splitting, and data on which the search as written keeps the walk from returning |
| SplitterTheorems.SizeWrapHangs | src/multi_event_splitter.cc:309-349 | filter strings that enable splitting, and data on which a wrapped size keeps the walk from returning |
| SplitterTheorems.SmallerEventSplits | src/multi_event_splitter.cc:273 | filter strings of an event that is not the largest and wants splitting |
| SplitterTheorems.JoinedEventsComeApart | src/multi_event_splitter.h:42-65 | data joined from subevents is delivered as exactly these subevents, in as many calls as the longest list |
| SplitterTheorems.FilterStringMeaning | src/analysis/a2/a2_data_filter.cc:46-76 | a header filter matches the words that read like its string |
| FilterTheorems.SizeMaskFront | src/multi_event_splitter.cc:101-109 | the size is read from the bits that 'S' and 's' stand for, spaces not counted |
| FilterTheorems.SplittingWantedIff | src/multi_event_splitter.cc:124-131 | splitting is enabled for an event iff one of its filter strings has a digit |
| StreamWorkerTheorems.StepKeepsInv | src/mvlc_stream_worker.cc:422-844 | every step of every thread keeps the invariants of mutex, gate, wake-up, buffers, order and steps |
| StreamWorkerTheorems.ReachableInv | src/mvlc_stream_worker.cc:422-844 | so they hold after every interleaving of all threads |
| StreamWorkerTheorems.NoLostWakeup | src/mvlc_stream_worker.cc:671-675 | while the worker sleeps although it may pass, the own next statements of some pending call wake it |
| StreamWorkerTheorems.SleeperPasses | src/mvlc_stream_worker.cc:646-683 | so the event a sleeping worker holds gets through by the statements of one pending call and its own, unless a pause is about to be written |
| StreamWorkerTheorems.AwakeEventPasses | src/mvlc_stream_worker.cc:646-683 | an event that may pass and is not asleep passes at the latest with the third statement of the worker, in every run in which nobody pauses |
| StreamWorkerTheorems.PassesOnlyWhenWanted | src/mvlc_stream_worker.cc:646-683 | no event passes the gate while Paused is desired; a single step is used up by its pass |
| StreamWorkerTheorems.BuffersConserved | src/mvlc_stream_worker.cc:531-570 | over any run the buffers in both queues, both hands and kept are the same multiset |
| StreamWorkerTheorems.BuffersAccountedFor | src/mvlc_stream_worker.cc:531-580 | every buffer taken is returned exactly once, in hand, or a kept sentinel; taken in order of arrival; no more sentinels than runs |
| StreamWorkerRuns.SingleSteppingIsExact | src/mvlc_stream_worker.cc:678-692 | without resume, stop or the Running of a start, the end of a run included: passes are steps consumed, at most those requested, and results published match them up to aborted and unfinished events |
| StreamWorkerRuns.StrayResultIff | src/mvlc_stream_worker.cc:686-693 | a result is published for an event not stepped iff a stop let it through in state SingleStepping |
| StreamWorkerRuns.StrayResultReachable | src/mvlc_stream_worker.cc:686-693 | an interleaving in which that happens |
| StreamWorkerRuns.WorkerOverwritesStopIff | src/mvlc_stream_worker.cc:503-508 | the worker replaces a pending stop exactly at its two start-up announcements |
| StreamWorkerRuns.StopLostInStartup | src/mvlc_stream_worker.cc:506-508 | an interleaving in which a completed stop call is lost |
| StreamWorkerRuns.StopReplacedIff | src/mvlc_stream_worker.cc:503-508 | over all steps of all threads: a pending stop is replaced exactly by the write of another call and by the two announcements |
| StreamWorkerRuns.PendingStopSurvives | src/mvlc_stream_worker.cc:515-582 | inside the run loop a stop stays in force until the next start, for any actions and statements of calls but those that write another desired state |
| StreamWorkerEnd.StopEndsRun | src/mvlc_stream_worker.cc:515-582 | after a stop every step brings the end nearer; the bound is computed from queue and hand; the worker is never blocked before |
| StreamWorkerEnd.StoppedRunIsComplete | src/mvlc_stream_worker.cc:551-581 | leaving because the queue is empty: all buffers processed in order, none left; immediately: all others back in the empty queue in order |
| StreamWorkerEnd.StoppedRunEnds | src/mvlc_stream_worker.cc:550-581 | left alone the worker reaches the end within that bound |
| StreamWorkerEnd.NeverBlocked | src/mvlc_stream_worker.cc:648-675 | a stopping worker can always take its next step |
| StreamWorkerEnd.OneSentinelPerRun | src/mvlc_stream_worker.cc:531-534 | within one run at most one sentinel is kept, and none once the run is past the place that keeps it |
| StreamWorkerStop.CallTakesEffect | src/mvlc_stream_worker.cc:802-844 | every call leaves the desired state it stands for, in every interleaving |
| StreamWorkerStop.StopLeavesItsKind | src/mvlc_stream_worker.cc:802-810 | a stop leaves its kind until another stop call writes one, whatever other threads do |
| StreamWorkerStop.QueueIsProcessed | src/mvlc_stream_worker.cc:565-581 | a stop when the queue is empty drains nothing; unless the worker was already about to take a sentinel, the run can only end with an empty queue, everything processed in order |
| StreamWorkerStop.QueueIsDrained | src/mvlc_stream_worker.cc:553-564 | an immediate stop lets at most the buffer in hand or about to be taken be processed; the run ends by it, all others drained in order |
| StreamWorkerStop.KindsDiffer | src/mvlc_stream_worker.cc:550-582 | from the top of the loop one kind of stop processes all that is queued, the other drains it |
| StreamWorkerStop.ResumeLetsEventsPass | src/mvlc_stream_worker.cc:646-692 | after a resume the sleeping worker lets its event and all further ones of the buffer pass by its own statements |
| StreamWorkerStop.FirstBufferDecides | src/mvlc_stream_worker.cc:531-549 | without a stop a sentinel is kept and ends the run, any other buffer is taken to be processed |
| StreamWorkerStop.ExceptionSkipsTheRest | src/mvlc_stream_worker.cc:740-760 | an exception of the parser skips the other events of the buffer, which counts as processed and is returned |
| StreamWorkerStop.ResumeRuns | src/mvlc_stream_worker.cc:823-833 | a resume leaves Running desired and no paused start, and touches nothing else |
| StreamWorkerStop.StartPausedOnlyIfAsked | src/mvlc_stream_worker.cc:802-844 | only the request for it makes the next start a paused one |
| StreamWorkerStop.StartObeys | src/mvlc_stream_worker.cc:503-512 | a start reaches its loop paused if that was asked for, running otherwise |
| StreamWorkerStop.RunBeginsIff | src/mvlc_stream_worker.cc:422-434 | over all steps of all threads: a run begins exactly if the worker is off and idle and the mutex is free |
| ReadoutList.CVMUSBReadoutList.FromScript | src/CVMUSBReadoutList.cpp:111-117 | the list holds the encoding of the script |
| ReadoutList.CVMUSBReadoutList.Append | src/CVMUSBReadoutList.cpp:187-191 | appends the words of another list, which may be the same one |
| ReadoutList.CVMUSBReadoutList.AddScriptCommand | src/CVMUSBReadoutList.cpp:193-315 | appends the words of one command, none for the commands without effect on a stack |
| ReadoutList.CVMUSBReadoutList.AddRegisterRead | src/CVMUSBReadoutList.cpp:329-336 | appends the words of a register read |
| ReadoutList.CVMUSBReadoutList.AddRegisterWrite | src/CVMUSBReadoutList.cpp:350-359 | appends the words of a register write |
| ReadoutList.CVMUSBReadoutList.AddWrite32 | src/CVMUSBReadoutList.cpp:386-398 | appends the words of a 32 bit write |
| ReadoutList.CVMUSBReadoutList.AddWrite16 | src/CVMUSBReadoutList.cpp:414-430 | appends the words of a 16 bit write |
| ReadoutList.CVMUSBReadoutList.AddRead32 | src/CVMUSBReadoutList.cpp:490-496 | appends the words of a 32 bit read |
| ReadoutList.CVMUSBReadoutList.AddRead16 | src/CVMUSBReadoutList.cpp:508-514 | appends the words of a 16 bit read, without the padding marker |
| ReadoutList.CVMUSBReadoutList.AddMarker | src/CVMUSBReadoutList.cpp:745-752 | appends one marker of 16 bits |
| ReadoutList.CVMUSBReadoutList.AddBlockRead | src/CVMUSBReadoutList.cpp:639-671 | appends mode word, count word if escaped, and address |
| ReadoutListDecoding.TransferField | src/CVMUSBReadoutList.cpp:647-662 | the eight bit count field is the count, the escape 0xff, or 0 for 0 and for 256 of a 64 bit block |
| ReadoutListDecoding.MarkersComeInPairs | src/CVMUSBReadoutList.cpp:248-252 | every stack begins with an even number of marker entries, which tells a padded 16 bit read apart |
| ReadoutListDecoding.DecodeInvertsEncode | src/CVMUSBReadoutList.cpp:193-315 | the words of a script, read back, are the operations it asks for |
| ReadoutListDecoding.SameWordsSameMeaning | src/CVMUSBReadoutList.cpp:111-117 | scripts with the same words ask for the same operations |
| ReadoutListDecoding.DistinctIff | src/CVMUSBReadoutList.cpp:639-671 | exactly these commands decode: each other one has the words of one of them and asks for something else |
| ReadoutListDecoding.AppendedListsDecode | src/CVMUSBReadoutList.cpp:187-191 | an appended list asks for both scripts one after the other |
| ReadoutListDecoding.BlockAssertionIff | src/CVMUSBReadoutList.cpp:642 | the asserted modifier is a block modifier iff the command names A32 or one; never for A24 |
| ReadoutListDecoding.BlockModifierIs | src/CVMUSBReadoutList.cpp:254-315 | a block read decodes to a 64 bit block modifier iff the command names one or asks for 64 bits in A32; the other modes of scripts to 32 bit block modifiers |
| ReadoutListDecoding.CountWordIff | src/CVMUSBReadoutList.cpp:639-671 | a block read has a count word of its own iff its count is at least 255 and not 256 of a 64 bit block |
| ReadoutListDecoding.WaitLastsIff | src/CVMUSBReadoutList.cpp:241-246 | the stack waits as long as asked for iff that is zero; up to 51 ms a thousandth of it |
| StackSetup.SetupStack | src/mvlc_daq.cc:71-94 | checks, upload and offset register of one event's stack, or the first error |
| StackSetup.SetupReadoutStacks | src/mvlc_daq.cc:57-100 | the accesses made are those planned, up to the first one the controller refuses |
| StackSetup.EnableTriggers | src/mvlc_daq.cc:102-177 | the register writes made are those planned, up to the first one the controller refuses |
| StackSetup.GetTriggerValues | src/mvlc_daq.cc:179-246 | exactly the values that enabling the triggers writes, in order, with the same error |
| StackSetupTheorems.SetupGoes | src/mvlc_daq.cc:57-100 | the k-th stack is uploaded at its true address cut off to 16 bits under the k-th id; the setup stops for the first reason that applies |
| StackSetupTheorems.SafeIff | src/mvlc_daq.cc:63-96 | uploads lie in stack memory, clear of the immediate stack and a word apart from each other, iff there is no stack whose end wraps around 16 bits to below the end of stack memory while all before it fit and an id is left for it |
| StackSetupTheorems.SetupSucceedsIff | src/mvlc_daq.cc:66-81 | for all inputs: the setup succeeds iff there are enough stacks and every end, cut off to 16 bits, is below the end of stack memory; then all stacks have been uploaded |
| StackSetupTheorems.SmallStacksFit | src/mvlc_daq.cc:66-81 | while the last end is within 16 bits the setup is safe, and succeeds iff there are enough stacks and that end fits |
| StackSetupTheorems.OversizedStackAccepted | src/mvlc_daq.cc:77-81 | a stack of 0x4000 words is accepted and is not safe |
| StackSetupTheorems.TriggersSucceedIff | src/mvlc_daq.cc:133-137 | fails iff there are more periodic events than timers |
| StackSetupTheorems.TriggersInOrder | src/mvlc_daq.cc:102-177 | one trigger write for each event with consecutive ids; on failure those before the event without a timer |
| TriggerTheorems.WritesTell | src/mvlc_daq.cc:102-246 | every register written, and every value listed, can be read back: trigger type above, level minus one under the mask |
| TriggerTheorems.SameRegisterIff | src/mvlc_daq.cc:102-177 | the registers of two events agree iff the events ask for the same kind of trigger and level |
| TriggerTheorems.LevelsApart | src/mvlc_daq.cc:115-131 | equal registers of interrupt events mean equal IACK choice and level |
| TriggerIo.Configuration.Connect | src/mvlc_daq.cc:457-482 | sets up one timer and stack start unit and keeps the rest |
| TriggerIo.Configuration.Update | src/mvlc_daq.cc:434-491 | the loop connects the periodic events in order, or tells that there are too few timers |
| TriggerIo.UpdateTriggerIo | src/mvlc_daq.cc:434-491 | the updated configuration, or an empty one if there are too few timers |
| TriggerIo.Find | src/mvlc_daq.cc:477-482 | index of the first equal element, the length of the list if there is none |
| StackSetupTheorems.TimersInOrder | src/mvlc_daq.cc:448-487 | succeeds iff there are enough timers; every periodic event has the units of its rank with its own stack id, all other units are unchanged |
| StackSetupTheorems.NumberingAgrees | src/mvlc_daq.cc:434-491 | upload, trigger and timer of the same event name the same stack id |
| AxisBinnings.BinIff | src/histo_util.h:228-260 | x is in bin b iff the low edges of b and b + 1 enclose it, at every resolution, on an axis the right way round |
| AxisBinnings.EnclosesIff | src/histo_util.h:203-260 | on any axis, the low edges of the bin reported for x enclose x iff the axis is the right way round or x is its begin |
| AxisBinnings.OutsideIff | src/histo_util.h:203-240 | underflow iff below the axis, overflow iff at or above its end, a bin iff neither |
| AxisBinnings.EqualEnds | src/histo_util.h:226-240 | on an axis with equal ends everything before it is underflow, everything behind it overflow |
| AxisBinnings.ReversedAxis | src/histo_util.h:203-260 | on a reversed axis every low edge but the first is underflow |
| AxisBinnings.BoundedMonotone | src/histo_util.h:242-252 | bounded bins exist and never decrease with the position |
| AxisBinnings.BoundedIs | src/histo_util.h:242-252 | the bounded bin of a position encloses it; before the axis it is the first bin, behind it the last |
| AxisBinnings.ReducedEdge | src/histo_util.h:185-206 | reduced bin k begins where physical bin k * factor does |
| AxisBinnings.RegroupsIff | src/histo_util.h:185-240 | the reduced bin of every x is its physical bin divided by the factor iff the factor divides the bin count |
| Histogram1D.Histo1D.constructor | src/histo1d.cc:23-29 | an empty histogram |
| Histogram1D.Histo1D.Clear | src/histo1d.cc:151-163 | everything is zero |
| Histogram1D.Histo1D.Resize | src/histo1d.cc:48-73 | new bin count, empty contents |
| Histogram1D.Histo1D.Fill | src/histo1d.cc:97-134 | one more entry, and the bin it belongs to |
| Histogram1D.Histo1D.SetBinContent | src/histo1d.cc:165-176 | sets an existing bin and nothing else |
| Histogram1D.Histo1D.GetBinContent | src/histo1d.h:130-164 | a bin, or the sum of a group of bins; zero out of range |
| Histogram1D.Histo1D.GetValue | src/histo1d.cc:136-143 | content of the bin x belongs to; zero outside |
| Histo1DTheorems.FillsMeaning | src/histo1d.cc:97-134 | after any fills each bin, underflow and overflow hold the weight of exactly the entries that belong there |
| Histo1DTheorems.FillConserves | src/histo1d.cc:97-134 | one fill adds its weight once, to any contents |
| Histo1DTheorems.WeightConserved | src/histo1d.cc:97-134 | bins, underflow and overflow sum to the weights filled; the count is the sum of the bins |
| Histo1DTheorems.MaximumTracked | src/histo1d.cc:121-127 | after any fills the tracked maximum is the highest content any bin has had, at the bin that reached it last, and no bin holds more |
| Histo1DTheorems.HighestIsHighest | src/histo1d.cc:121-127 | at no time did a bin hold more than that |
| Histo1DTheorems.FillKeepsMaximumIff | src/histo1d.cc:97-134 | a fill keeps a right maximum right iff it is not a negative weight in the bin of the maximum |
| Histo1DTheorems.AlwaysRightIff | src/histo1d.cc:97-134 | the maximum is right after every fill iff no fill is one of those |
| Histo1DTheorems.MaximumRightIff | src/histo1d.cc:97-134 | after any fills it is right iff the bin that last reached the highest content has not been filled since |
| Histo1DTheorems.MaximumOfGains | src/histo1d.cc:97-134 | so it is with non-negative weights |
| Histo1DTheorems.MaximumMissed | src/histo1d.cc:121-127 | a negative weight leaves it too large |
| Histo1DTheorems.ReducedTotal | src/histo1d.h:130-164 | reduced bins sum to the total but for the bins that fill no group |
| Histo1DTheorems.ReducedValue | src/histo1d.cc:136-143 | the value at x is the sum of the group that its physical bin belongs to |
| Histo1DStatistics.CalcBinStatistics | src/histo1d.cc:216-342 | bounds, entries, mean, square of sigma, first maximum; a peak iff a bin on the right of a positive maximum is below half of it and one on the left is, too, or the first two bins differ and stand in |
| Histo1DStatistics.FindMaximum | src/histo1d.cc:241-252 | largest content of the range and the first bin that has it |
| Histo1DStatistics.FindLeft | src/histo1d.cc:279-288 | nearest bin to the left below the height, or none |
| Histo1DStatistics.FindRight | src/histo1d.cc:290-299 | nearest bin to the right below the height, or none |
| Histo1DStatistics.FindPeak | src/histo1d.cc:301-338 | edges where the contents cross half maximum, within one bin of the bins found and around the maximum; width their distance, never negative |
| Histo1DStatistics.FindStandIn | src/histo1d.cc:274-338 | without a left bin: the left edge is where the line through the first two bins crosses half maximum; it lies before the maximum iff that line has crossed by there |
| Histo1DStatistics.LeftEdgeBehindMaximum | src/histo1d.cc:274-338 | so it is for contents of 10, 9, 12 and 1 on every axis |
| Histo1DStatistics.BehindMaximum | src/histo1d.cc:274-338 | a histogram for which the left edge is behind maximum and right edge |
| Histo1DStatistics.VarianceIff | src/histo1d.cc:259-272 | sigma is real, and zero iff no whole entry lies away from the mean, or the mean is zero, or there are no entries |
| Histo1DStatistics.CenteredAtZero | src/histo1d.cc:259-272 | two entries on either side of zero, for which sigma is zero |
| StatisticsTheorems.FractionalEdge | src/histo_util.h:218-223 | a fractional position lies that part of a bin width behind the low edge of its bin |
| StatisticsTheorems.EntriesAreContents | src/histo1d.cc:241-245 | the entries of a range are the sum of its physical bins, at any resolution |
| StatisticsTheorems.MeanBetweenEdges | src/histo1d.cc:241-257 | the mean of non-negative contents lies between the low edges of the first and the last bin |
| StatisticsTheorems.VarianceIsSecondMoment | src/histo1d.cc:259-272 | for whole contents the square of sigma is the second moment about the mean |
| Histo1DStatistics.InterpCrosses | src/histo1d.cc:301-304 | the interpolated point lies on the line between two contents at the given height, within the bin |
| Histogram2D.LinearInRange | src/histo2d.cc:85-87 | every cell has its place in the row-major storage |
| Histogram2D.LinearInjective | src/histo2d.cc:85-87 | no two cells share one |
| Histogram2D.Histo2D.constructor | src/histo2d.cc:25-34 | an empty histogram |
| Histogram2D.Histo2D.Clear | src/histo2d.cc:154-161 | everything is zero |
| Histogram2D.Histo2D.Resize | src/histo2d.cc:41-68 | new bin counts, empty contents, storage kept if its size stays the same |
| Histogram2D.Histo2D.Fill | src/histo2d.cc:70-89 | one more entry; underflow on either axis before overflow on either |
| Histogram2D.Histo2D.GetBinContent | src/histo2d.cc:103-152 | sum of the rectangle of physical cells that the input bins select |
| Histogram2D.Histo2D.GetValue | src/histo2d.cc:91-101 | that sum for the bins of x and y; zero outside |
| Histo2DTheorems.FillsMeaning | src/histo2d.cc:70-89 | after any fills each cell, underflow and overflow hold the weight of exactly the entries that belong there |
| Histo2DTheorems.WeightConserved | src/histo2d.cc:70-89 | cells, underflow and overflow sum to the weights filled |
| Histo2DTheorems.BeyondTheEnd | src/histo2d.cc:116-126 | an input bin beyond the end selects the last physical bin |
| Histo2DTheorems.ReducedTotal | src/histo2d.cc:103-152 | all reduced cells together hold what the cells of whole groups do, for any factors, 0 included; with factors that divide the bin counts, what all cells do |
| Histo2DTheorems.ReducedValue | src/histo2d.cc:91-152 | the value at (x, y) is the sum of the groups its physical bins belong to, each axis reduced or not |
| Histo2DTheorems.StorageTotal | src/histo2d.cc:85-87 | the storage holds each cell exactly once |
| Projections.MakeProjection | src/histo_util.cc:172-241 | axis and bins of the projection of any window |
| Projections.MakeListProjection | src/histo_util.cc:246-324 | the same for the combined view of a list of histograms |
| Projections.TotalsAgree | src/histo_util.cc:219-238 | both projections of a rectangle sum to the rectangle |
| Projections.WindowTotal | src/histo_util.cc:172-241 | so the projection of any window has the total of its rectangle, which is empty for a window the wrong way round |
| Projections.WindowTotals | src/histo_util.cc:172-241 | X and Y projections of one window, any window, have the total of its rectangle |
| Projections.OverloadsAgree | src/histo_util.cc:246-324 | projecting a list is projecting the two-dimensional histogram whose columns are the list, axis and bin by bin |
| Projections.WindowNotEmpty | src/histo_util.cc:190-196 | an ordered window selects at least one bin |
| ProjectionTheorems.ProjectionSumsTheWindow | src/histo_util.cc:172-324 | a projection has one bin for each bin of its axis that meets the window, at the same low edges, with the sum over the bins of the other axis that meet it; without such bins it is zero |
| ProjectionTheorems.WrongWayBins | src/histo_util.cc:190-209 | a window the wrong way round that misses by d bins has no bins if d is 0 and 2^32 - d otherwise |
| ProjectionTheorems.ListAxisIs | src/histo_util.cc:260 | histogram i of a list is the bin from i to i + 1 |

## Left out

- MultiWordFilters.MultiWordDataFilter.ExtractData: says nothing about the value where a part with a value is shifted by 64 or more, which has no defined result; zero so shifted is taken to stay zero.
- Histo1DStatistics.CalcBinStatistics: no peak when no bin on the right is below half maximum, where the original converts -1 to an unsigned bin, or when the first two bins stand in and have equal contents, where it divides by zero. Sigma is given by its square, and not where a content is negative or beyond 32 bits, which has no defined conversion. The range in axis units is not modelled.
- Constants of the mvlc library (stack memory, stack and timer counts, trigger types, register masks) are parameters, restricted to a layout in which stack memory begins above address 3, ends below the last word of the 16 bit address space and reaches beyond the reserved stack, with fewer than 256 stacks.
- MultiEventSplitter.State.Walk: for a walk that never returns it records the calls up to the first place at which some module's split sticks. In the original a size of zero makes the walk call back forever there.
- MultiEventSplitter.State.SplitEvent: has the behaviour without the assertion that an event has as many header filters as there are spans (`src/multi_event_splitter.cc:273`), which fails for events with fewer modules than the largest one.
- The bodies of `number_of_set_bits` and `trailing_zeroes` (bit tricks and intrinsics) are modelled by their results, including 0 for the word without set bits.
- Subfilters of a multi-word filter are values: their extraction caches, proved to make no difference for a single filter, are not repeated there.
- A critical section without a wait or a read in between counts as one step of the stream worker where it is that of the worker thread; those of controller threads are split into single writes.
- The readout parser is a number of event callbacks for each buffer, which may end early by an exception; its own state, the analysis, time ticks, counters, signals and log messages are not modelled. The assignment of the counters snapshot after a buffer has been returned is taken not to throw.
- Byte accesses, block writes and masked-count block reads of the readout list, which scripts do not use, and its text dump.
- Uploading as such (command buffers, acknowledgements), parsing and generating trigger I/O scripts, and building the stack words of an event's script: the stack words are a parameter.
- 32 bit wrap-around of `bin * factor` and of the number of cells in histograms; external histogram memory and changing the axis of an existing histogram.
- Floating point rounding, infinities and NaN: reals stand for doubles. On an axis with equal ends the original divides by zero: positions before and behind are infinite, and modelled; the position of the ends themselves is not a number, and is excluded.
- User interface, files, sockets, controllers, statistics and diagnostics of the program.

# A verified model of sai_cap_query

`sai_cap_query` asks a switch adapter which attributes, enum values and statistics it supports,
probes the live switch, and reports where the adapter's own claims do not hold. The adapter is
not trusted: it may report the size of buffer it needs, leave the count alone, give wrong counts,
contradict itself, or throw. This project models the parts of the tool that decide what is asked
and what is reported, and proves what they promise for every adapter, metadata table, value tree
and command line.

An adapter is an arbitrary function from the history of everything it was asked to its next
answer, so a theorem over all adapters covers every stateful one; throwing is one of the answers.
Objects and buffers the program updates in place are classes with methods, each proved to compute
a specification function; the properties are lemmas about those functions. Bytes are characters
with codes below 256, and no theorem needs that bound.

| files | what they hold |
|---|---|
| `Text`, `Tally`, `Doubling` | numerals and their values; counting by label; how far doublings reach |
| `JsonTree`, `JsonPrinter` | value trees, their text, the object builder and the writers |
| `JsonReader`, `JsonRoundTrip` | a reader for the RFC 8259 grammar, and the proof that it inverts the printer |
| `SaiStatus`, `OutcomeSummary` | status buckets over all 32-bit values; the running summary of reads |
| `AttributeTypes`, `AttributeFetch` | value types, the attribute buffers, and reading one attribute |
| `CapabilityQuery` | the enum, statistics and stream-telemetry queries |
| `Conditions`, `ConditionMeaning`, `Verdicts`, `ConditionCache`, `ConditionStates` | the metadata library's condition evaluator and what lists mean apart from it; verdicts; conditions evaluated on remembered reads, and what their states say |
| `Snapshot`, `LiveVerification`, `SnapshotVerification` | scanning objects: accounting, exactness of contradictions, transparency and cost of the cache |
| `StatsModes`, `StatsSweep`, `StatProbe` | mode masks and a reader for their text; the cached sweeps; probing counters |
| `CommandLine`, `CommandLineMeaning`, `OptionForms`, `OptionRoundTrip` | the argument walk; what is accepted and what it means; the two forms of an option; rendering options |
| `Tokeniser` | splitting a line of `/proc/net/unix` in place |

## Where the code does less than it is said to

- **Numbered statuses.** The repository's own `README.md:341-342` says that statuses such as
  `SAI_STATUS_ATTR_NOT_SUPPORTED_0 + index` are collapsed into one bucket per range. The model
  follows the code. A numbered code is `-(base + index)`, and the band arithmetic is right exactly
  for index 0: every other index lands in the next range's bucket, or in `OTHER` for the last
  range (`SaiStatus.NumberedCodes`).
- **`--x v` and `--x=v`** mean the same except behind an option that is still waiting for its
  value. `OptionForms.FormsAreInterchangeable` gives the exact condition, and
  `OptionForms.FormsDifferBehindADanglingOption` an input.
- **Silent adapters.** One that leaves the count alone can have a list read only up to 1024
  elements, although buffers may grow to 2^20: four doublings from 64 reach no further
  (`AttributeFetch.SilentFetch`).
- **MIXED condition lists** are never evaluated: an operator entry names no attribute, so the
  state is Unknown (`ConditionCache.OperatorListsAreUnknown`). Nothing false is reported.
- **Unverifiable statistics.** The branch that counts a declared statistic as unverifiable cannot
  be reached, because every listed entry is claimed (`StatProbe.ValidateStatsModes`).

## Model

| member | source | states |
|---|---|---|
| JsonRoundTrip.DocumentRoundTrip | include/json_value.h:183-266 | an RFC 8259 reader consumes the whole printed document and gives back the tree, members in order, numbers by value |
| JsonRoundTrip.PrintedAlike | include/json_value.h:183-266 | two trees print the same document exactly when they mean the same |
| JsonRoundTrip.ReadRendered | include/json_value.h:193-266 | a value at any indentation, in front of any text that cannot continue a number, is read back and exactly its own text is consumed |
| JsonRoundTrip.EscapeIsInjective | include/json_value.h:31-77 | no two strings have the same escaped form |
| JsonRoundTrip.EscapeIsClean | include/json_value.h:31-77 | escaped text has no bare quotation mark and no byte below 0x20 |
| JsonTree.EscapesAre | include/json_value.h:38-76 | the seven short escapes, the six-character form of the other control characters, and every other byte unchanged |
| JsonPrinter.SetsMakeAnOrderedMap | include/json_value.h:161-181 | after any sequence of set calls: distinct keys, in the order first set, each with its last value, and no others |
| JsonPrinter.JsonEscape | include/json_value.h:31-77 | the byte loop produces the escaped form the reader inverts |
| JsonPrinter.Write | include/json_value.h:193-220 | appends the rendering of any value to the buffer and touches nothing else |
| JsonPrinter.WriteArray | include/json_value.h:227-244 | the array loop appends the elements' lines, with commas between them only |
| JsonPrinter.WriteObject | include/json_value.h:246-266 | the object loop appends the members' lines in order, with commas between them only |
| JsonPrinter.JsonValue.constructor | include/json_value.h:90-144 | a new value is empty in every field but its kind |
| JsonPrinter.JsonValue.Push | include/json_value.h:155-159 | appends to the array and changes nothing else |
| JsonPrinter.JsonValue.Set | include/json_value.h:161-171 | overwrites the first member with the key in place, or appends; changes nothing else |
| JsonPrinter.JsonValue.Has | include/json_value.h:173-181 | true exactly when some member has the key |
| JsonPrinter.JsonValue.Dump | include/json_value.h:183-190 | for each of the seven kinds the RFC 8259 reader gets back from the text exactly what the field of that kind holds |
| JsonPrinter.SetsReadBack | include/json_value.h:161-190 | from set calls to the text read back: one member for each key set, in the order first set, each with the meaning of its last value, and no others |
| JsonPrinter.ItemMeaningsAt | include/json_value.h:227-244 | the elements read back from an array are those pushed, each at its place |
| SaiStatus.PlainStatusesKeepTheirName | include/cap_logic.h:40-77 | the fifteen plain statuses, and no others, have a name, and it is their bucket |
| SaiStatus.NamesByCode | include/cap_logic.h:40-77 | the name of each plain status, by its numeric code |
| SaiStatus.PlainStatusesStandAlone | include/cap_logic.h:172-203 | a plain status shares its bucket with no other 32-bit value |
| SaiStatus.RangeBuckets | include/cap_logic.h:172-203 | over all 32-bit values: each range's bucket holds exactly the 2^16 values from its base and the 2^16 from minus its base, less the plain statuses |
| SaiStatus.EverythingElseIsOther | include/cap_logic.h:172-203 | an unnamed status is OTHER exactly when it lies in none of those intervals |
| SaiStatus.NumberedCodes | include/meta/saimetadata.h:23-72 | -(base + i) is counted in its own range's bucket if and only if i = 0; otherwise in the next range's, or OTHER for the last |
| SaiStatus.StatusBucketsAreNotToolLabels | include/cap_logic.h:210-222 | no status is classified as "ok" or "skipped_by_tool" |
| OutcomeSummary.SummaryIsExact | sai_cap_query.cpp:754-771 | over any sequence of adds: ok and skipped count exactly those outcomes, each bucket its failures, and the counts sum to the number of adds |
| OutcomeSummary.OutcomeSummary.Add | sai_cap_query.cpp:760-771 | one add changes the summary as SummaryIsExact counts it |
| AttributeTypes.SwitchesAgree | sai_cap_query.cpp:350-576 | the type switches agree: a type is buffered exactly when a vector is bound for it, and that vector is the one measured; buffered and condition types can be fetched |
| AttributeTypes.TypesAreExact | include/cap_logic.h:104-160 | exactly the twenty listed types are buffered, exactly the eleven listed ones cannot be asked for, and exactly the nine primitive ones can be tested; every other type is inline |
| AttributeTypes.AttributeStorage.Bind | sai_cap_query.cpp:350-527 | succeeds exactly for a buffered type and a count within 2^20; then the count offered is the size of the storage, and otherwise nothing changes |
| Doubling.LimitIsLargestDoubling | sai_cap_query.cpp:1120-1132 | the capacity reached by bounded doubling is c * 2^k for the largest k that stays within 2^20 |
| AttributeFetch.FetchAttribute | sai_cap_query.cpp:585-677 | the grow-and-retry loop on real storage gives the outcome, attribute and calls of the specification the lemmas below are about |
| AttributeFetch.FetchOkIffSuccess | sai_cap_query.cpp:671-676 | for any adapter the result is Ok exactly when the status is SUCCESS, and Skipped exactly for a type that cannot be asked for; the id is never changed |
| AttributeFetch.FetchOffers | sai_cap_query.cpp:585-677 | for any adapter: at most five calls for a list, each offering a count equal to the storage, capacities strictly growing from 64 within 2^20; one call for other types; none if not fetchable |
| AttributeFetch.FetchReportsItsLastCall | sai_cap_query.cpp:612-676 | for any adapter the status and the attribute are those of the last call, a throw is a failure, and only an overflow whose next buffer would exceed 2^20 becomes NO_MEMORY |
| AttributeFetch.SkippedExactly | sai_cap_query.cpp:597-625 | for any adapter a fetch is skipped, without a call, if and only if its type is one of the eleven; for every other type there is a call and the last one is reported |
| AttributeFetch.FetchFollowsTheRule | sai_cap_query.cpp:626-676 | for any adapter each further call follows an overflow and offers the reported count if larger, else twice as much; an overflow is the end only after five calls or when more than 2^20 is wanted |
| AttributeFetch.HonestFetch | sai_cap_query.cpp:585-677 | an adapter that reports its size n is read successfully exactly when n <= 2^20, within two calls, with all n elements |
| AttributeFetch.SilentFetch | sai_cap_query.cpp:585-677 | an adapter that never updates the count is read successfully exactly when n <= 1024 |
| CapabilityQuery.QueryEnumCapability | sai_cap_query.cpp:1077-1137 | the enum loop refines the one negotiation the lemmas below are about |
| CapabilityQuery.QueryStatsCapability | sai_cap_query.cpp:1417-1473 | so does the statistics loop |
| CapabilityQuery.QueryStatsStCapability | sai_cap_query.cpp:1517-1573 | and the stream-telemetry loop |
| CapabilityQuery.InitialCapacity | sai_cap_query.cpp:1084-1089 | the first capacity is never below 64, also when the 32-bit sum wraps |
| CapabilityQuery.InitialCapacityHoldsTheEnum | sai_cap_query.cpp:1084-1089 | the first capacity holds the enum and sixteen more, at least 64, up to where the 32-bit sum wraps, and exactly what it is beyond |
| CapabilityQuery.QueryOffers | sai_cap_query.cpp:1077-1137 | for any adapter: one to five calls, the first with the initial capacity, strictly growing, never above the larger of the initial one and 2^20 |
| CapabilityQuery.QueryReportsItsLastCall | sai_cap_query.cpp:1100-1137 | for any adapter: status and count of the last call; values only on SUCCESS, and then the first min(count, capacity) of the list |
| CapabilityQuery.QueryFollowsTheRule | sai_cap_query.cpp:1091-1137 | for any adapter each further call follows an overflow and offers what the answer asked for; an overflow is the end only after five calls or when more than 2^20 is wanted |
| CapabilityQuery.HonestQuery | sai_cap_query.cpp:1417-1473 | an honest adapter's whole list is returned exactly when it fits the initial capacity or 2^20, in one call if it fits the first and two otherwise; else overflow and the size needed |
| CapabilityQuery.SilentQuery | sai_cap_query.cpp:1417-1473 | a silent adapter's list is returned exactly when it has at most c * 2^k elements, k <= 4 the largest with c * 2^k <= 2^20 |
| Conditions.ListHoldsAgree | include/meta/saimetadatatypes.h:718-800 | whether an OR, AND or MIXED list holds depends only on the values of the attributes it names |
| Conditions.ValuesOfDistinct | include/meta/saimetadatautils.h:174-223 | with distinct ids, the first-match rule finds every attribute's own value |
| Conditions.FindAttr | include/meta/saimetadatautils.h:174-223 | metadata is found exactly when some attribute has the id, and has that id |
| ConditionMeaning.PlainListsMean | include/meta/saimetadatatypes.h:718-738 | an AND list holds exactly when every test in it passes, an OR list exactly when some test does, each operator standing for its relation of numbers |
| ConditionMeaning.PlainListsAreChains | include/meta/saimetadatatypes.h:718-738 | AND and OR lists hold exactly when the and-chain, or the or-chain, of their tests is true |
| ConditionMeaning.MixedListMeans | include/meta/saimetadatatypes.h:740-800 | a MIXED list that writes a formula of tests in reverse Polish notation holds exactly when the formula is true |
| ConditionMeaning.RpnOfFormula | include/meta/saimetadatatypes.h:740-800 | inside any list and on any stack, evaluating a formula's entries pushes its truth |
| ConditionMeaning.IllFormedNeverHolds | include/meta/saimetadatatypes.h:740-800 | a MIXED list with an operator short of operands, or with truths left over, never holds |
| ConditionMeaning.EvaluatorMeans | include/meta/saimetadatautils.h:174-223 | the evaluator's answer test by test, each on the first attribute with the id or else on the default; never true for an attribute that is not conditional |
| Verdicts.VerdictsAreExact | include/cap_logic.h:386-509 | the three verdict functions case by case: agree exactly when claim and probe coincide, contradiction exactly when a claimed read fails with nothing to excuse it |
| Verdicts.CombineIsKleeneConjunction | include/cap_logic.h:530-540 | combining states is strong Kleene conjunction: Met or NotMet exactly when every resolution of the unknowns says so |
| Verdicts.ContradictionsAreFinal | include/cap_logic.h:485-509 | a contradiction is reported exactly when every way of resolving the unknown conditions reports it, so none is ever retracted |
| ConditionCache.ConditionAttributeCache.constructor | sai_cap_query.cpp:2321-2335 | a fresh cache remembers nothing and has asked nothing |
| ConditionCache.ConditionAttributeCache.Read | sai_cap_query.cpp:2336-2373 | a remembered read, failed or not, is answered without a call; a new one is fetched once, and SUCCESS is returned exactly for an Ok fetch |
| ConditionCache.EvaluateConditionList | sai_cap_query.cpp:2396-2479 | the loop over a condition list computes the specified state and leaves the cache as specified |
| ConditionCache.EvaluateAttributeCondition | sai_cap_query.cpp:2497-2527 | combines the states of the two predicates an attribute may carry, read in order through one cache |
| ConditionCache.EvaluatorSeesLiveValues | sai_cap_query.cpp:2396-2479 | whenever the evaluator is reached the attributes have distinct ids and cover every condition with a successful read, so no default counts |
| ConditionCache.OperatorListsAreUnknown | sai_cap_query.cpp:2420-2450 | a list with an operator entry, which names no attribute, is always Unknown |
| Snapshot.FetchIsLive | sai_cap_query.cpp:585-677 | on an object that answers a fixed snapshot a fetch gives the same result whenever it is made |
| Snapshot.ListStateIsLive | sai_cap_query.cpp:2396-2479 | on a snapshot a list is Met or NotMet as its live values say if all of them can be read, and Unknown otherwise, cached or not |
| ConditionStates.StateMeans | sai_cap_query.cpp:2396-2479 | for any adapter, a list that is not Unknown had every attribute read; it is then Met exactly when all (AND), or some (OR), tests pass on the values read, or its formula is true (MIXED) |
| ConditionStates.LiveStateMeans | sai_cap_query.cpp:2396-2479 | on a snapshot a list is Unknown exactly when it tests nothing or something unanswerable, and otherwise Met exactly as its tests pass on live values |
| ConditionStates.LiveFormulaMeans | sai_cap_query.cpp:2396-2479 | on a snapshot an answerable MIXED list is Met exactly when its formula is true of the live values |
| ConditionStates.FailingConditionExcuses | sai_cap_query.cpp:2497-2646 | on a snapshot one failing test of an AND list, or an OR list with no passing one, rules out a contradiction |
| ConditionStates.ContradictionInPlainTerms | sai_cap_query.cpp:2529-2646 | on a snapshot, with AND and OR lists, a contradiction is reported exactly when the type can be asked for, the attribute is declared gettable, its read fails, and every list is answerable and holds |
| LiveVerification.CheckAttribute | sai_cap_query.cpp:2576-2646 | probing and judging one declared attribute updates cache and summary as specified |
| LiveVerification.VerifyObject | sai_cap_query.cpp:2529-2658 | scanning one object gives the account of its verdicts, each count growing by exactly the attributes it stands for; printed and hidden lines add up to its contradictions, and printed is the smaller of them and 50 |
| LiveVerification.AccountConserves | sai_cap_query.cpp:2543-2657 | one object adds to the summary exactly its checked, contradicted and conditional attributes and the names of its contradictions, and keeps checked = agree + contradictions + unverifiable |
| LiveVerification.ObjectsConserve | sai_cap_query.cpp:2543-2657 | the same equations over any sequence of scanned objects, with met + not met + unknown equal to the checked conditional attributes |
| LiveVerification.VerdictFollows | sai_cap_query.cpp:2552-2646 | a verdict from its facts: skipped exactly for the eleven types, checked exactly when declared gettable; agree exactly if the read succeeded, unverifiable if it failed with a condition not known to hold, contradiction if it failed without one |
| LiveVerification.ScanAccounts | sai_cap_query.cpp:2543-2657 | over any scan of any adapter all eight counts grow by exactly the attributes they stand for: checked, skipped, agree, unverifiable, contradictions, and condition met, not met and unknown one by one |
| LiveVerification.ObjectsAccount | sai_cap_query.cpp:2543-2657 | the same over any sequence of scanned objects |
| LiveVerification.ContradictionsExactly | sai_cap_query.cpp:2589-2646 | over any scan of any adapter an attribute is a contradiction exactly when it was declared gettable, its read failed, and every predicate it carries evaluated to Met |
| SnapshotVerification.CacheIsTransparent | sai_cap_query.cpp:2552-2608 | on a snapshot a whole scan through the cache gives the verdicts and the summary of one that repeats every read |
| SnapshotVerification.ContradictionsAreBrokenClaims | sai_cap_query.cpp:2552-2646 | on a snapshot the reported contradictions are exactly the attributes declared gettable, truly in force, and unreadable: none false, none missed |
| SnapshotVerification.ScanCost | sai_cap_query.cpp:2321-2373 | for any adapter no condition attribute is read twice in a scan, failed reads included, and calls are bounded by five for each checked attribute plus one for each id referred to |
| StatsModes.FormatStatsModes | include/cap_logic.h:300-350 | the text is the joined names of the set bits and the unknown rest, and the decoder reads the mask back from it |
| StatsModes.ModesRoundTrip | include/cap_logic.h:300-350 | every 32-bit mask is recovered from its text, so no two masks print alike |
| StatsModes.TokensAre | include/cap_logic.h:300-350 | the pieces printed are the names of the set bits in ascending order and one piece for all unknown bits; zero has its own text |
| StatsModes.SplitJoin | include/cap_logic.h:330-346 | splitting at the separators inverts joining for tokens without a separator |
| StatsModes.SelectReadOnlyStatsMode | include/cap_logic.h:360-371 | by the bits alone: READ exactly when declared; READ_AND_CLEAR exactly when allowed, declared and READ is not; none exactly when neither can be used |
| StatsSweep.StatsCapabilityCache.Get | sai_cap_query.cpp:1618-1629 | returns the answer kept for the type, querying the adapter only if there is none |
| StatsSweep.OneQueryPerType | sai_cap_query.cpp:1610-1634 | over any sequence of gets the adapter is queried once for each distinct type, when first asked for |
| StatsSweep.FirstAnswerStays | sai_cap_query.cpp:1610-1634 | every later get of a type returns its first answer |
| StatsSweep.KeptIsTheAnswer | sai_cap_query.cpp:1618-1629 | what every get of a type returns is the adapter's answer to the query made when the type was first asked for |
| StatsSweep.SecondSweepIsFree | sai_cap_query.cpp:1606-1634 | repeating a sweep on the same cache makes no call and changes nothing |
| StatsSweep.FullSweepCovers | sai_cap_query.cpp:1665-1690 | a full sweep asks for exactly the types that have statistics, match the filter and may be supported |
| StatsSweep.FullSweepInOrder | sai_cap_query.cpp:1665-1690 | and in the order of the metadata |
| StatsSweep.FocusedSweepCovers | sai_cap_query.cpp:1655-1663 | a focused sweep asks for exactly the focused types that exist and have statistics, in order |
| StatsSweep.MatchesExactly | include/cap_logic.h:556-578 | a filter matches exactly the names that contain it in whatever case, and the empty filter all |
| StatsSweep.ShowStatsCapabilities | sai_cap_query.cpp:1636-1693 | the text sweep asks for the types of the common sweep in order, and prints all answers or the successful ones |
| StatsSweep.BuildStatsJson | sai_cap_query.cpp:3337-3442 | the JSON sweep asks for the same types in the same order, and reports every answer |
| StatProbe.ProbeStats | sai_cap_query.cpp:2064-2164 | reads every counter that is no range marker once, and counts it as accepted, contradicted or failed as its status and declaration say |
| StatProbe.ProbeConserves | sai_cap_query.cpp:2072-2163 | accepted + contradictions + all failures = the number of counters that are no markers, and each bucket is exact |
| StatProbe.ValidateStatsModes | sai_cap_query.cpp:2176-2269 | the reads, and the entries passed over, are exactly those the declared bits call for; agree + contradictions + no mode = the number of declared entries that are no markers, unverifiable stays 0, and each read is counted by its status |
| StatProbe.ClearsOnlyWhenAllowed | include/cap_logic.h:360-371 | every read is in a mode its entry declares, and a clearing read happens only when allowed and READ is not declared |
| StatProbe.ReadsAreByBits | sai_cap_query.cpp:2198-2220 | for any list of entries the reads made and the entries without a usable mode, from the bit tests alone |
| StatProbe.FindsTheFirst | sai_cap_query.cpp:2049-2062 | the modes found are those of the first entry with the id, and none exactly without one |
| StatProbe.MarkersAreExact | include/cap_logic.h:580-603 | a name is a range marker exactly when it has one of the four parts anywhere or one of the two endings |
| CommandLine.ParseOptions | sai_cap_query.cpp:3735-3874 | the argument loop computes the specified parse |
| CommandLine.WalkTakesItems | sai_cap_query.cpp:3735-3874 | the walk is the options and values of the command line taken one by one, and nothing else |
| CommandLine.WordsMean | sai_cap_query.cpp:3750-3815 | each documented word, `-h` included, is the flag or option it names |
| CommandLine.ClassifiesBySpelling | sai_cap_query.cpp:3750-3843 | and nothing else is: every argument read as an option has its spelling, what starts with a dash otherwise is unknown, and the rest is a VID |
| CommandLineMeaning.BareInvocation | sai_cap_query.cpp:145-172 | without arguments: text output, server role, the default VID marked as defaulted, and nothing else set |
| CommandLineMeaning.AcceptedMeaning | sai_cap_query.cpp:3735-3874 | each flag is set exactly when given, the last of --client and --server wins, the last value of each option wins, and a run without help has a VID, marked defaulted exactly when none was given |
| CommandLineMeaning.AcceptedExactly | sai_cap_query.cpp:3735-3874 | a command line is accepted if and only if every option is known and its value acceptable, at most one VID is given, and --list-switches is not combined with JSON |
| CommandLineMeaning.AcceptedIsValid | sai_cap_query.cpp:3847-3874 | what an accepted command line leaves behind is one of the options the round trip covers |
| OptionForms.FormsAreInterchangeable | sai_cap_query.cpp:3770-3843 | replacing `--x v` by `--x=v` changes nothing, whatever follows, if and only if what stands before does not end in an option that takes whatever comes next |
| OptionForms.FormsDifferBehindADanglingOption | sai_cap_query.cpp:3738-3745 | a concrete command line on which the two forms differ |
| OptionRoundTrip.ItemsRoundTrip | sai_cap_query.cpp:3735-3874 | any rendered sequence of flags, valued options and VIDs is read back as itself |
| OptionRoundTrip.OptionsRoundTrip | sai_cap_query.cpp:3735-3874 | rendering any valid options as arguments and parsing them gives the same options |
| Tokeniser.Tokenise | include/zmq_endpoint.h:164-185 | for any NUL-terminated line: stays inside, ends, overwrites only separators with NULs; with its only newline last, the fields read as the first eight maximal non-blank runs |
| Tokeniser.RunsOfLaid | include/zmq_endpoint.h:164-185 | whatever the gaps, the runs of a text are the tokens it was laid out from |
| Tokeniser.EveryTextIsLaid | include/zmq_endpoint.h:164-185 | every text is laid out from its runs, with nothing else but blanks |

## Left out

- Calls into libsairedis, SAI, Redis and ZMQ: each is an answer of an arbitrary adapter. An adapter that writes past the buffer it was offered, or changes the attribute id, is not modelled.
- Pointer and union layout: a list attribute is a count and the size of its storage. Which elements a fetched list holds is not modelled; for the capability queries it is.
- AttributeFetch.FetchAttribute: the detail text of an outcome is not modelled; kind, status and attribute are.
- CommandLine.ParseOptions: `strtoull` on the text of `--timeout-ms` is a given function from texts to numbers. OptionForms.FormsAreInterchangeable uses that it accepts no text starting with two dashes.
- LiveVerification.VerifyObject: the adapter's answers to the capability queries of one scan are given as a function of the attribute's position.
- SnapshotVerification.ScanCost: counts getter calls, so a checked list attribute may cost five; the fetches themselves are at most one for each checked attribute and one for each id referred to.
- The condition evaluator is modelled from its documentation in the metadata headers: null entries are skipped and an ill-formed reverse Polish list does not hold. `saimetadatautils.c` is not part of this model.
- `snprintf` and `std::to_string` are the standard decimal and hexadecimal renderings; the indentation counter is unbounded where the source uses `int`.
- Tokeniser.Tokenise: a socket path that contains a blank is cut at the blank by the code, and so is the eighth field here; matching the path and finding its owner are left out.
- Printing of reports, banners, usage text and triage messages, `DebugTimer`, environment variables and the sequencing in `main`.
- `endpoint_state`, `endpoint_live`, and the walk over `/proc` behind the tokeniser.
- `verify_attribute_capabilities`: how the objects to scan are chosen; the theorems hold for any sequence of objects.
- The five types of a focused sweep are a given list, with null entries for those without metadata.
- ConditionStates.ContradictionInPlainTerms: is about AND and OR lists; a MIXED list with operators is never Met (ConditionCache.OperatorListsAreUnknown).
- The stream-telemetry half of the JSON report's loop, which queries without a cache.
- One-branch helpers such as `classify_switch_probe`, `agreement_name`, `format_api_version` and `redis_profile_answer`.

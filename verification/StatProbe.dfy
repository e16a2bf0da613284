/** Checking declared statistics against real counter reads. */
module StatProbe {
  import opened Text
  import opened SaiStatus
  import opened Tally
  import opened StatsModes
  import opened Verdicts
  import C = CapabilityQuery

  type StatsResult = C.QueryResult<C.StatCapability>

  /** A counter of the statistics enum. */
  datatype Counter = Counter(stat: int32, name: string)

  predicate IsMarker(name: string) {
    Contains(name, "_CUSTOM_RANGE_") || Contains(name, "_EXTENSIONS_RANGE_") || Contains(name, "_RANGE_BASE")
    || Contains(name, "_RANGE_END") || EndsWith(name, "_START") || EndsWith(name, "_END")
  }

  /** The names of range markers: four parts that may stand anywhere, and two endings. */
  ghost predicate MarkerText(name: string) {
    || (exists a, b :: name == a + "_CUSTOM_RANGE_" + b) || (exists a, b :: name == a + "_EXTENSIONS_RANGE_" + b)
    || (exists a, b :: name == a + "_RANGE_BASE" + b) || (exists a, b :: name == a + "_RANGE_END" + b)
    || (exists a :: name == a + "_START") || (exists a :: name == a + "_END")
  }

  lemma MarkersAreExact(name: string)
    ensures IsMarker(name) <==> MarkerText(name)
  {
    ContainsExactly(name, "_CUSTOM_RANGE_");
    ContainsExactly(name, "_EXTENSIONS_RANGE_");
    ContainsExactly(name, "_RANGE_BASE");
    ContainsExactly(name, "_RANGE_END");
    EndsWithExactly(name, "_START");
    EndsWithExactly(name, "_END");
    hide Contains, EndsWith;
  }

  /** One counter read; the plain getter takes no mode. */
  datatype StatRead = StatRead(stat: int32, mode: Option<bv32>)

  /** An arbitrary stateful adapter: the status of each read, or None for one that throws. */
  type Reader = seq<StatRead> -> Option<int32>

  class StatsGetter {
    const reader: Reader
    var history: seq<StatRead>

    constructor (reader: Reader)
      ensures this.reader == reader && history == []
    {
      this.reader := reader;
      history := [];
    }

    method Read(stat: int32, mode: Option<bv32>) returns (status: int32)
      modifies this
      ensures history == old(history) + [StatRead(stat, mode)]
      ensures status == StatusAt(reader, history)
    {
      history := history + [StatRead(stat, mode)];
      var answer := reader(history);
      status := if answer.Some? then answer.value else FAILURE;
    }
  }

  function StatusAt(reader: Reader, history: seq<StatRead>): int32 {
    match reader(history)
    case Some(status) => status
    case None => FAILURE
  }

  // ----- the read probe

  /** Entry `i` is the first one with this id. */
  ghost predicate IsFirstWith(values: seq<C.StatCapability>, stat: int32, i: nat) {
    i < |values| && values[i].stat == stat && forall j :: 0 <= j < i ==> values[j].stat != stat
  }

  /** find_declared_stat: the modes of the first entry with this id. */
  function FindDeclared(values: seq<C.StatCapability>, stat: int32): Option<bv32> {
    if values == [] then None
    else if values[0].stat == stat then Some(values[0].modes)
    else FindDeclared(values[1..], stat)
  }

  /** The modes found are those of the first entry with the id; None without one. */
  lemma {:induction false} FindsTheFirst(values: seq<C.StatCapability>, stat: int32)
    ensures FindDeclared(values, stat).None? <==> forall i :: 0 <= i < |values| ==> values[i].stat != stat
    ensures forall i :: 0 <= i < |values| && IsFirstWith(values, stat, i) ==> FindDeclared(values, stat) == Some(values[i].modes)
  {
    if values != [] {
      FindsTheFirst(values[1..], stat);
      assert forall i :: 0 < i < |values| ==> values[i] == values[1..][i - 1];
      forall i | 0 < i < |values| && IsFirstWith(values, stat, i)
        ensures FindDeclared(values, stat) == Some(values[i].modes)
      {
        assert forall j :: 0 <= j < i - 1 ==> values[1..][j] == values[j + 1];
        assert IsFirstWith(values[1..], stat, i - 1);
      }
    }
  }

  /** Did the adapter declare that this counter can be read? */
  predicate ClaimedReadable(capability: StatsResult, stat: int32) {
    capability.status == SUCCESS
    && var modes := FindDeclared(capability.values, stat); modes.Some? && modes.value & READ != 0
  }

  /** How many counters that are not markers the adapter declared nothing for. */
  function Undeclared(counters: seq<Counter>, values: seq<C.StatCapability>): nat {
    if counters == [] then 0
    else
      var last := counters[|counters| - 1];
      Undeclared(counters[..|counters| - 1], values)
      + (if !IsMarker(last.name) && FindDeclared(values, last.stat).None? then 1 else 0)
  }

  datatype Outcome = Accepted | Contradicted | Rejected(bucket: string)

  /** The reads a probe makes: one for each counter that is not a range marker. */
  function ProbeReads(counters: seq<Counter>): seq<StatRead> {
    if counters == [] then []
    else
      var n := |counters| - 1;
      ProbeReads(counters[..n]) + (if IsMarker(counters[n].name) then [] else [StatRead(counters[n].stat, None)])
  }

  /** What came of each of them. */
  function Outcomes(reader: Reader, history: seq<StatRead>, counters: seq<Counter>, capability: StatsResult): seq<Outcome> {
    if counters == [] then []
    else
      var n := |counters| - 1;
      var before := Outcomes(reader, history, counters[..n], capability);
      if IsMarker(counters[n].name) then before
      else
        var status := StatusAt(reader, history + ProbeReads(counters));
        before + [OutcomeOf(capability, counters[n].stat, status)]
  }

  /** A read that fails contradicts a declaration, or else is counted in its status bucket. */
  function OutcomeOf(capability: StatsResult, stat: int32, status: int32): Outcome {
    if status == SUCCESS then Accepted
    else if ClaimedReadable(capability, stat) then Contradicted
    else Rejected(ClassifyStatus(status))
  }

  function CountOf(outcomes: seq<Outcome>, o: Outcome): nat {
    if outcomes == [] then 0
    else CountOf(outcomes[..|outcomes| - 1], o) + (if outcomes[|outcomes| - 1] == o then 1 else 0)
  }

  /** The failure buckets the rejected reads are counted in. */
  function Buckets(outcomes: seq<Outcome>): Counts {
    if outcomes == [] then map[]
    else
      var before := Buckets(outcomes[..|outcomes| - 1]);
      match outcomes[|outcomes| - 1]
      case Rejected(bucket) => Bump(before, bucket)
      case _ => before
  }

  lemma OneMoreOutcome(outcomes: seq<Outcome>, o: Outcome)
    ensures forall p :: CountOf(outcomes + [o], p) == CountOf(outcomes, p) + (if o == p then 1 else 0)
    ensures Buckets(outcomes + [o]) == (if o.Rejected? then Bump(Buckets(outcomes), o.bucket) else Buckets(outcomes))
  {
    assert (outcomes + [o])[..|outcomes|] == outcomes;
  }

  /** The counts so far are those of the outcomes so far. */
  ghost predicate Probed(reader: Reader, start: seq<StatRead>, history: seq<StatRead>, counters: seq<Counter>,
                         capability: StatsResult, accepted: nat, contradictions: nat, unclaimed: nat, failures: Counts)
  {
    var outcomes := Outcomes(reader, start, counters, capability);
    && history == start + ProbeReads(counters)
    && accepted == CountOf(outcomes, Accepted) && contradictions == CountOf(outcomes, Contradicted)
    && failures == Buckets(outcomes)
    && unclaimed == (if capability.status == SUCCESS then Undeclared(counters, capability.values) else 0)
  }

  lemma ProbedStep(reader: Reader, start: seq<StatRead>, history: seq<StatRead>, counters: seq<Counter>,
                   capability: StatsResult, accepted: nat, contradictions: nat, unclaimed: nat, failures: Counts, c: Counter)
    requires Probed(reader, start, history, counters, capability, accepted, contradictions, unclaimed, failures)
    ensures IsMarker(c.name) ==>
              Probed(reader, start, history, counters + [c], capability, accepted, contradictions, unclaimed, failures)
    ensures !IsMarker(c.name) ==>
              var now := history + [StatRead(c.stat, None)];
              var status := StatusAt(reader, now);
              var missing := capability.status == SUCCESS && FindDeclared(capability.values, c.stat).None?;
              var unclaimed := if missing then unclaimed + 1 else unclaimed;
              if status == SUCCESS then
                Probed(reader, start, now, counters + [c], capability, accepted + 1, contradictions, unclaimed, failures)
              else if ClaimedReadable(capability, c.stat) then
                Probed(reader, start, now, counters + [c], capability, accepted, contradictions + 1, unclaimed, failures)
              else
                Probed(reader, start, now, counters + [c], capability, accepted, contradictions, unclaimed,
                       Bump(failures, ClassifyStatus(status)))
  {
    hide IsMarker, ClassifyStatus, StatusAt, ClaimedReadable, FindDeclared, Outcomes, ProbeReads, Undeclared, CountOf, Buckets;
    var now := history + [StatRead(c.stat, None)];
    OneMoreCounter(reader, start, counters, capability, c);
    if !IsMarker(c.name) {
      assert now == start + (ProbeReads(counters) + [StatRead(c.stat, None)]);
      OneMoreOutcome(Outcomes(reader, start, counters, capability), OutcomeOf(capability, c.stat, StatusAt(reader, now)));
    } else {
      assert ProbeReads(counters) + [] == ProbeReads(counters);
      assert Outcomes(reader, start, counters, capability) + [] == Outcomes(reader, start, counters, capability);
    }
  }

  lemma OneMoreCounter(reader: Reader, start: seq<StatRead>, counters: seq<Counter>, capability: StatsResult, c: Counter)
    ensures var all := counters + [c];
            var calls := ProbeReads(counters) + (if IsMarker(c.name) then [] else [StatRead(c.stat, None)]);
            && ProbeReads(all) == calls
            && Outcomes(reader, start, all, capability) ==
                 Outcomes(reader, start, counters, capability)
                 + (if IsMarker(c.name) then []
                    else [OutcomeOf(capability, c.stat, StatusAt(reader, start + calls))])
            && Undeclared(all, capability.values) == Undeclared(counters, capability.values)
                 + (if !IsMarker(c.name) && FindDeclared(capability.values, c.stat).None? then 1 else 0)
  {
    hide IsMarker, StatusAt, FindDeclared, OutcomeOf;
    assert (counters + [c])[..|counters|] == counters;
    var before := Outcomes(reader, start, counters, capability);
    assert before + [] == before;
  }

  lemma NothingProbed(reader: Reader, history: seq<StatRead>, capability: StatsResult)
    ensures Probed(reader, history, history, [], capability, 0, 0, 0, map[])
  {
    assert history + [] == history;
  }

  method ProbeStats(counters: seq<Counter>, capability: StatsResult, getter: StatsGetter)
    returns (accepted: nat, contradictions: nat, unclaimed: nat, failures: Counts)
    modifies getter
    ensures Probed(getter.reader, old(getter.history), getter.history, counters, capability,
                   accepted, contradictions, unclaimed, failures)
  {
    hide Probed, IsMarker, ClassifyStatus, StatusAt, FindDeclared;
    accepted, contradictions, unclaimed, failures := 0, 0, 0, map[];
    var known := capability.status == SUCCESS;
    NothingProbed(getter.reader, getter.history, capability);
    for i := 0 to |counters|
      invariant Probed(getter.reader, old(getter.history), getter.history, counters[..i], capability,
                       accepted, contradictions, unclaimed, failures)
    {
      assert counters[..i + 1] == counters[..i] + [counters[i]];
      var counter := counters[i];
      ProbedStep(getter.reader, old(getter.history), getter.history, counters[..i], capability,
                 accepted, contradictions, unclaimed, failures, counter);
      if IsMarker(counter.name) {
        continue;
      }
      var status := getter.Read(counter.stat, None);
      var declared := if known then FindDeclared(capability.values, counter.stat) else None;
      var claimedRead := declared.Some? && declared.value & READ != 0;
      if known && declared.None? {
        unclaimed := unclaimed + 1;
      }
      if status == SUCCESS {
        accepted := accepted + 1;
      } else if known && claimedRead {
        contradictions := contradictions + 1;
      } else {
        failures := Bump(failures, ClassifyStatus(status));
      }
    }
    assert counters[..|counters|] == counters;
  }

  lemma {:induction false} OutcomesCover(reader: Reader, history: seq<StatRead>, counters: seq<Counter>, capability: StatsResult)
    ensures |Outcomes(reader, history, counters, capability)| == |ProbeReads(counters)|
  {
    if counters != [] {
      OutcomesCover(reader, history, counters[..|counters| - 1], capability);
    }
  }

  lemma {:induction false} OutcomesAddUp(outcomes: seq<Outcome>)
    ensures CountOf(outcomes, Accepted) + CountOf(outcomes, Contradicted) + Total(Buckets(outcomes)) == |outcomes|
    ensures forall b :: Count(Buckets(outcomes), b) == CountOf(outcomes, Rejected(b))
  {
    if outcomes != [] {
      var before, last := outcomes[..|outcomes| - 1], outcomes[|outcomes| - 1];
      OutcomesAddUp(before);
      if last.Rejected? {
        BumpAddsOne(Buckets(before), last.bucket);
      }
    }
  }

  /** A probe counts every counter that is not a marker exactly once. */
  lemma ProbeConserves(reader: Reader, history: seq<StatRead>, counters: seq<Counter>, capability: StatsResult)
    ensures var outcomes := Outcomes(reader, history, counters, capability);
            && CountOf(outcomes, Accepted) + CountOf(outcomes, Contradicted) + Total(Buckets(outcomes))
               == |ProbeReads(counters)|
            && forall b :: Count(Buckets(outcomes), b) == CountOf(outcomes, Rejected(b))
  {
    OutcomesCover(reader, history, counters, capability);
    OutcomesAddUp(Outcomes(reader, history, counters, capability));
  }

  // ----- validating the declared modes

  /** Names from the statistics enum; an unknown id has none, and is not a marker. */
  type Names = map<int32, string>

  function NameOf(names: Names, stat: int32): string {
    if stat in names then names[stat] else ""
  }

  /** The declared entries that are not range markers. */
  function Validated(entries: seq<C.StatCapability>, names: Names): seq<C.StatCapability> {
    if entries == [] then []
    else
      var n := |entries| - 1;
      Validated(entries[..n], names) + (if IsMarker(NameOf(names, entries[n].stat)) then [] else [entries[n]])
  }

  /** The reads made for a list of entries: one for each that declares a mode the probe may use. */
  function ValidationReads(entries: seq<C.StatCapability>, allowClear: bool): seq<StatRead> {
    if entries == [] then []
    else
      var n := |entries| - 1;
      var mode := SelectReadOnlyStatsMode(entries[n].modes, allowClear);
      ValidationReads(entries[..n], allowClear) + (if mode == 0 then [] else [StatRead(entries[n].stat, Some(mode))])
  }

  /** The read an entry calls for, by the bits it declares: READ if it can, else READ_AND_CLEAR if allowed. */
  function ReadByBits(e: C.StatCapability, allowClear: bool): seq<StatRead> {
    if e.modes & 1 != 0 then [StatRead(e.stat, Some(1))]
    else if allowClear && e.modes & 2 != 0 then [StatRead(e.stat, Some(2))]
    else []
  }

  function ReadsByBits(entries: seq<C.StatCapability>, allowClear: bool): seq<StatRead> {
    if entries == [] then [] else ReadByBits(entries[0], allowClear) + ReadsByBits(entries[1..], allowClear)
  }

  predicate HasNoMode(e: C.StatCapability, allowClear: bool) {
    e.modes & 1 == 0 && (!allowClear || e.modes & 2 == 0)
  }

  /** How many entries declare no mode the probe may use. */
  function WithoutMode(entries: seq<C.StatCapability>, allowClear: bool): nat {
    if entries == [] then 0
    else
      (if HasNoMode(entries[0], allowClear) then 1 else 0)
      + WithoutMode(entries[1..], allowClear)
  }

  lemma {:induction false} ByBitsOneMore(entries: seq<C.StatCapability>, e: C.StatCapability, allowClear: bool)
    ensures ReadsByBits(entries + [e], allowClear) == ReadsByBits(entries, allowClear) + ReadsByBits([e], allowClear)
    ensures WithoutMode(entries + [e], allowClear) == WithoutMode(entries, allowClear) + WithoutMode([e], allowClear)
    decreases |entries|
  {
    hide ReadByBits, HasNoMode;
    if entries == [] {
      assert entries + [e] == [e];
    } else {
      ByBitsOneMore(entries[1..], e, allowClear);
      assert (entries + [e])[1..] == entries[1..] + [e];
    }
  }

  /** The reads made, and the entries passed over, are exactly those the declared bits call for. */
  lemma {:induction false} ReadsAreByBits(entries: seq<C.StatCapability>, allowClear: bool)
    ensures ValidationReads(entries, allowClear) == ReadsByBits(entries, allowClear)
    ensures |ValidationReads(entries, allowClear)| + WithoutMode(entries, allowClear) == |entries|
  {
    if entries != [] {
      hide ReadByBits, HasNoMode, SelectReadOnlyStatsMode;
      var n := |entries| - 1;
      ReadsAreByBits(entries[..n], allowClear);
      assert entries == entries[..n] + [entries[n]];
      ByBitsOneMore(entries[..n], entries[n], allowClear);
      OneEntryByBits(entries[n], allowClear);
    }
  }

  lemma OneEntryByBits(e: C.StatCapability, allowClear: bool)
    ensures var mode := SelectReadOnlyStatsMode(e.modes, allowClear);
            && ReadsByBits([e], allowClear) == (if mode == 0 then [] else [StatRead(e.stat, Some(mode))])
            && WithoutMode([e], allowClear) == (if mode == 0 then 1 else 0)
  {
    hide SelectReadOnlyStatsMode;
    assert [e][1..] == [];
  }

  lemma OneMoreRead(entries: seq<C.StatCapability>, e: C.StatCapability, allowClear: bool)
    ensures var mode := SelectReadOnlyStatsMode(e.modes, allowClear);
            ValidationReads(entries + [e], allowClear) ==
              ValidationReads(entries, allowClear) + (if mode == 0 then [] else [StatRead(e.stat, Some(mode))])
  {
    assert (entries + [e])[..|entries|] == entries;
  }

  /** How many of a run of reads succeeded. */
  function Successes(reader: Reader, history: seq<StatRead>, calls: seq<StatRead>): nat {
    if calls == [] then 0
    else
      Successes(reader, history, calls[..|calls| - 1])
      + (if StatusAt(reader, history + calls) == SUCCESS then 1 else 0)
  }

  /** The counts so far: a read that succeeds agrees, one that fails contradicts. */
  ghost predicate Counted(reader: Reader, start: seq<StatRead>, history: seq<StatRead>, entries: seq<C.StatCapability>,
                          allowClear: bool, agree: nat, contradictions: nat, noMode: nat)
  {
    var calls := ValidationReads(entries, allowClear);
    && history == start + calls
    && agree == Successes(reader, start, calls)
    && agree + contradictions == |calls|
    && agree + contradictions + noMode == |entries|
  }

  lemma CountedStep(reader: Reader, start: seq<StatRead>, history: seq<StatRead>, entries: seq<C.StatCapability>,
                    allowClear: bool, agree: nat, contradictions: nat, noMode: nat, e: C.StatCapability)
    requires Counted(reader, start, history, entries, allowClear, agree, contradictions, noMode)
    ensures var mode := SelectReadOnlyStatsMode(e.modes, allowClear);
            if mode == 0 then
              Counted(reader, start, history, entries + [e], allowClear, agree, contradictions, noMode + 1)
            else
              var now := history + [StatRead(e.stat, Some(mode))];
              if StatusAt(reader, now) == SUCCESS then
                Counted(reader, start, now, entries + [e], allowClear, agree + 1, contradictions, noMode)
              else
                Counted(reader, start, now, entries + [e], allowClear, agree, contradictions + 1, noMode)
  {
    hide SelectReadOnlyStatsMode, StatusAt;
    var calls := ValidationReads(entries, allowClear);
    var mode := SelectReadOnlyStatsMode(e.modes, allowClear);
    OneMoreRead(entries, e, allowClear);
    if mode == 0 {
      assert calls + [] == calls;
    } else {
      var more := calls + [StatRead(e.stat, Some(mode))];
      assert more[..|calls|] == calls;
      assert history + [StatRead(e.stat, Some(mode))] == start + more;
    }
  }

  method ValidateStatsModes(names: Names, capability: StatsResult, getter: StatsGetter, allowClear: bool)
    returns (agree: nat, contradictions: nat, unverifiable: nat, noMode: nat)
    modifies getter
    ensures capability.status != SUCCESS ==>
              getter.history == old(getter.history) && agree + contradictions + unverifiable + noMode == 0
    ensures capability.status == SUCCESS ==>
              unverifiable == 0
              && Counted(getter.reader, old(getter.history), getter.history, Validated(capability.values, names),
                         allowClear, agree, contradictions, noMode)
              && getter.history == old(getter.history) + ReadsByBits(Validated(capability.values, names), allowClear)
              && noMode == WithoutMode(Validated(capability.values, names), allowClear)
  {
    hide SelectReadOnlyStatsMode, Counted, StatusAt, IsMarker, ReadsByBits, WithoutMode;
    agree, contradictions, unverifiable, noMode := 0, 0, 0, 0;
    if capability.status != SUCCESS {
      return;
    }
    var values := capability.values;
    NothingCounted(getter.reader, getter.history, allowClear);
    for i := 0 to |values|
      invariant unverifiable == 0
      invariant Counted(getter.reader, old(getter.history), getter.history, Validated(values[..i], names),
                        allowClear, agree, contradictions, noMode)
    {
      assert values[..i + 1][..i] == values[..i];
      var entry := values[i];
      if IsMarker(NameOf(names, entry.stat)) {
        assert Validated(values[..i + 1], names) == Validated(values[..i], names);
        continue;
      }
      assert Validated(values[..i + 1], names) == Validated(values[..i], names) + [entry];
      CountedStep(getter.reader, old(getter.history), getter.history, Validated(values[..i], names), allowClear,
                  agree, contradictions, noMode, entry);
      var mode := SelectReadOnlyStatsMode(entry.modes, allowClear);
      if mode == 0 {
        noMode := noMode + 1;
        continue;
      }
      var status := getter.Read(entry.stat, Some(mode));
      match CompareCapabilityWithProbe(true, status == SUCCESS)
      case Agree => agree := agree + 1;
      case Contradiction => contradictions := contradictions + 1;
      case Unverifiable => assert false; // a listed counter is always claimed
    }
    assert values[..|values|] == values;
    CountedByBits(getter.reader, old(getter.history), getter.history, Validated(values, names), allowClear,
                  agree, contradictions, noMode);
  }

  lemma CountedByBits(reader: Reader, start: seq<StatRead>, history: seq<StatRead>, entries: seq<C.StatCapability>,
                      allowClear: bool, agree: nat, contradictions: nat, noMode: nat)
    requires Counted(reader, start, history, entries, allowClear, agree, contradictions, noMode)
    ensures history == start + ReadsByBits(entries, allowClear) && noMode == WithoutMode(entries, allowClear)
  {
    ReadsAreByBits(entries, allowClear);
  }

  lemma NothingCounted(reader: Reader, history: seq<StatRead>, allowClear: bool)
    ensures Counted(reader, history, history, [], allowClear, 0, 0, 0)
  {
    assert history + [] == history;
  }

  /**
    Every read is made for an entry that declares its mode; counters are cleared only when that
    is allowed and the entry does not also declare plain reading.
   */
  lemma {:induction false} ClearsOnlyWhenAllowed(entries: seq<C.StatCapability>, allowClear: bool)
    ensures forall r :: r in ValidationReads(entries, allowClear) ==>
              && r.mode in {Some(READ), Some(READ_AND_CLEAR)}
              && (exists e :: e in entries && e.stat == r.stat && e.modes & r.mode.value != 0
                    && (r.mode == Some(READ_AND_CLEAR) ==> allowClear && e.modes & READ == 0))
  {
    if entries != [] {
      var n := |entries| - 1;
      ClearsOnlyWhenAllowed(entries[..n], allowClear);
      assert forall e :: e in entries[..n] ==> e in entries;
      assert entries[n] in entries;
    }
  }
}

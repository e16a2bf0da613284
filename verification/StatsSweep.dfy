/** The cached statistics capabilities, and the two sweeps that read them: as text and as JSON. */
module StatsSweep {
  import opened Text
  import opened SaiStatus
  import opened CapabilityQuery

  /** The part of an object type's metadata the sweeps look at. */
  datatype TypeInfo = TypeInfo(objectType: int, name: string, statValues: Option<nat>)

  type StatsResult = QueryResult<StatCapability>

  type StatsAdapter = Adapter<int, StatCapability>

  /** Where the cache stands: the results kept, the adapter calls made. */
  datatype CacheState = CacheState(kept: map<int, StatsResult>, history: seq<Offer<int>>)

  /** One adapter query for a type. */
  function QueryType(adapter: StatsAdapter, history: seq<Offer<int>>, info: TypeInfo): Run<int, StatCapability> {
    Query(adapter, history, info.objectType, ZERO_STAT, InitialCapacity(info.statValues))
  }

  function AfterGet(adapter: StatsAdapter, s: CacheState, info: TypeInfo): CacheState {
    if info.objectType in s.kept then s
    else
      var run := QueryType(adapter, s.history, info);
      CacheState(s.kept[info.objectType := run.result], run.history)
  }

  function AfterGets(adapter: StatsAdapter, s: CacheState, infos: seq<TypeInfo>): CacheState {
    if infos == [] then s
    else AfterGet(adapter, AfterGets(adapter, s, infos[..|infos| - 1]), infos[|infos| - 1])
  }

  class StatsCapabilityCache {
    const adapter: CapabilityAdapter<int, StatCapability>
    var kept: map<int, StatsResult>

    function View(): CacheState
      reads this, adapter
    {
      CacheState(kept, adapter.history)
    }

    constructor (adapter: CapabilityAdapter<int, StatCapability>)
      ensures this.adapter == adapter && View() == CacheState(map[], adapter.history)
    {
      this.adapter := adapter;
      kept := map[];
    }

    method Get(info: TypeInfo) returns (result: StatsResult)
      modifies this, adapter
      ensures View() == AfterGet(adapter.respond, old(View()), info)
      ensures result == View().kept[info.objectType]
    {
      if info.objectType !in kept {
        var queried := QueryStatsCapability(adapter, info.objectType, info.statValues);
        kept := kept[info.objectType := queried];
      }
      result := kept[info.objectType];
    }
  }

  // ----- one query per type, and the first answer for ever

  predicate HasType(infos: seq<TypeInfo>, t: int) {
    exists i :: 0 <= i < |infos| && infos[i].objectType == t
  }

  /** The infos that are the first of their type. */
  function FirstOfType(infos: seq<TypeInfo>): seq<TypeInfo> {
    if infos == [] then []
    else
      var n := |infos| - 1;
      FirstOfType(infos[..n])
      + (if HasType(infos[..n], infos[n].objectType) then [] else [infos[n]])
  }

  /** The adapter queries a sequence of distinct types costs, one after another. */
  function QueryEach(adapter: StatsAdapter, history: seq<Offer<int>>, infos: seq<TypeInfo>): seq<Offer<int>> {
    if infos == [] then history
    else
      var n := |infos| - 1;
      QueryType(adapter, QueryEach(adapter, history, infos[..n]), infos[n]).history
  }

  /**
    Over any sequence of gets on a fresh cache the adapter is queried once for each distinct
    type, when the type is first asked for, and for nothing else.
   */
  lemma {:induction false} OneQueryPerType(adapter: StatsAdapter, history: seq<Offer<int>>, infos: seq<TypeInfo>)
    ensures var s := AfterGets(adapter, CacheState(map[], history), infos);
            && s.history == QueryEach(adapter, history, FirstOfType(infos))
            && (forall t :: t in s.kept <==> HasType(infos, t))
  {
    if infos != [] {
      hide QueryType, HasType, QueryEach;
      var n := |infos| - 1;
      var before := infos[..n];
      OneQueryPerType(adapter, history, before);
      OneMoreType(infos);
      if HasType(before, infos[n].objectType) {
        assert FirstOfType(infos) == FirstOfType(before);
      } else {
        QueryOneMore(adapter, history, FirstOfType(before), infos[n]);
      }
    }
  }

  lemma QueryOneMore(adapter: StatsAdapter, history: seq<Offer<int>>, infos: seq<TypeInfo>, info: TypeInfo)
    ensures QueryEach(adapter, history, infos + [info])
         == QueryType(adapter, QueryEach(adapter, history, infos), info).history
  {
    assert (infos + [info])[..|infos|] == infos;
  }

  lemma OneMoreType(infos: seq<TypeInfo>)
    requires infos != []
    ensures var n := |infos| - 1;
            forall t :: HasType(infos, t) <==> HasType(infos[..n], t) || infos[n].objectType == t
  {
    var n := |infos| - 1;
    forall t | HasType(infos[..n], t)
      ensures HasType(infos, t)
    {
      var i :| 0 <= i < n && infos[..n][i].objectType == t;
      assert infos[i].objectType == t;
    }
  }

  /** Once a type has an answer, no later get changes it. */
  lemma {:induction false} FirstAnswerStays(adapter: StatsAdapter, s: CacheState, infos: seq<TypeInfo>, t: int)
    requires t in s.kept
    ensures t in AfterGets(adapter, s, infos).kept && AfterGets(adapter, s, infos).kept[t] == s.kept[t]
  {
    if infos != [] {
      FirstAnswerStays(adapter, s, infos[..|infos| - 1], t);
    }
  }

  /**
    What every get of a type returns is the adapter's own answer, to the query made when the type
    was first asked for: after any gets that did not ask for it, whatever is asked for later.
   */
  lemma {:induction false} KeptIsTheAnswer(adapter: StatsAdapter, history: seq<Offer<int>>, before: seq<TypeInfo>,
                                           info: TypeInfo, after: seq<TypeInfo>)
    requires forall i :: 0 <= i < |before| ==> before[i].objectType != info.objectType
    ensures var empty := CacheState(map[], history);
            var asked := AfterGets(adapter, empty, before).history;
            var kept := AfterGets(adapter, empty, before + [info] + after).kept;
            && info.objectType in kept
            && kept[info.objectType] ==
                 Query(adapter, asked, info.objectType, ZERO_STAT, InitialCapacity(info.statValues)).result
    decreases |after|
  {
    hide Query, InitialCapacity;
    var empty := CacheState(map[], history);
    if after == [] {
      assert before + [info] + after == before + [info];
      OneQueryPerType(adapter, history, before);
      AfterOneMore(adapter, empty, before, info);
    } else {
      var n := |after| - 1;
      KeptIsTheAnswer(adapter, history, before, info, after[..n]);
      assert before + [info] + after == (before + [info] + after[..n]) + [after[n]];
      AfterOneMore(adapter, empty, before + [info] + after[..n], after[n]);
    }
  }

  // ----- the sweeps

  function ToUpper(s: string): (r: string)
    ensures |r| == |s|
    ensures forall i :: 0 <= i < |s| ==> r[i] == UpperChar(s[i])
  {
    if s == "" then "" else [UpperChar(s[0])] + ToUpper(s[1..])
  }

  /** std::toupper in the "C" locale. */
  function UpperChar(c: char): char {
    if 'a' <= c <= 'z' then (c as int - 32) as char else c
  }

  /** Two letters are the same but for case. */
  predicate SameLetter(c: char, d: char) {
    c == d || ('a' <= c <= 'z' && d as int == c as int - 32) || ('a' <= d <= 'z' && c as int == d as int - 32)
  }

  predicate SameLetters(s: string, t: string) {
    |s| == |t| && forall i :: 0 <= i < |s| ==> SameLetter(s[i], t[i])
  }

  lemma UpperIsCaseBlind(s: string, t: string)
    ensures ToUpper(s) == ToUpper(t) <==> SameLetters(s, t)
  {
    if SameLetters(s, t) {
      assert forall i :: 0 <= i < |s| ==> SameLetter(s[i], t[i]);
    }
    if ToUpper(s) == ToUpper(t) {
      assert forall i :: 0 <= i < |s| ==> ToUpper(s)[i] == ToUpper(t)[i];
    }
  }

  predicate ObjectNameMatches(name: string, filter: string) {
    filter == "" || Contains(ToUpper(name), ToUpper(filter))
  }

  lemma UpperOfParts(a: string, b: string)
    ensures ToUpper(a + b) == ToUpper(a) + ToUpper(b)
  {
    hide UpperChar;
    var s, t := ToUpper(a + b), ToUpper(a) + ToUpper(b);
    forall i | 0 <= i < |a + b|
      ensures s[i] == t[i]
    {
      assert s[i] == UpperChar((a + b)[i]);
    }
  }

  /** `name` holds, somewhere, the text `filter` but for case. */
  ghost predicate HoldsText(name: string, filter: string) {
    exists a, b, c :: name == a + b + c && SameLetters(b, filter)
  }

  lemma HeldTextMatches(a: string, b: string, c: string, filter: string)
    requires SameLetters(b, filter)
    ensures Contains(ToUpper(a + b + c), ToUpper(filter))
  {
    hide SameLetters, Contains;
    UpperIsCaseBlind(b, filter);
    UpperOfParts(a + b, c);
    UpperOfParts(a, b);
    assert ToUpper(a + b + c) == ToUpper(a) + ToUpper(filter) + ToUpper(c);
    ContainsExactly(ToUpper(a + b + c), ToUpper(filter));
  }

  lemma MatchIsHeld(name: string, filter: string)
    requires Contains(ToUpper(name), ToUpper(filter))
    ensures HoldsText(name, filter)
  {
    hide SameLetters, ToUpper, UpperChar;
    ContainsExactly(ToUpper(name), ToUpper(filter));
    var u, v :| ToUpper(name) == u + ToUpper(filter) + v;
    var m, n := |u|, |u| + |ToUpper(filter)|;
    var a, b, c := name[..m], name[m..n], name[n..];
    assert name == a + b + c;
    assert ToUpper(b) == ToUpper(filter) by {
      UpperOfParts(a + b, c);
      UpperOfParts(a, b);
      assert ToUpper(name)[m..n] == ToUpper(b);
      assert (u + ToUpper(filter) + v)[m..n] == ToUpper(filter);
    }
    UpperIsCaseBlind(b, filter);
  }

  /** A filter matches the names that contain it somewhere, in whatever case; the empty one all names. */
  lemma MatchesExactly(name: string, filter: string)
    ensures ObjectNameMatches(name, filter) <==> filter == "" || HoldsText(name, filter)
  {
    if filter != "" {
      if ObjectNameMatches(name, filter) {
        MatchIsHeld(name, filter);
      }
      if HoldsText(name, filter) {
        var a, b, c :| name == a + b + c && SameLetters(b, filter);
        HeldTextMatches(a, b, c, filter);
      }
    }
  }

  datatype SupportedTypes = SupportedTypes(authoritative: bool, types: set<int>)

  /** The object types of a sweep that is neither --all nor filtered: PORT, QUEUE, ... */
  datatype Metadata = Metadata(all: seq<TypeInfo>, focused: seq<Option<TypeInfo>>)

  predicate InFullSweep(info: TypeInfo, supported: SupportedTypes, filter: string) {
    info.statValues.Some? && ObjectNameMatches(info.name, filter)
    && !(supported.authoritative && info.objectType !in supported.types)
  }

  function FullSweep(infos: seq<TypeInfo>, supported: SupportedTypes, filter: string): seq<TypeInfo> {
    if infos == [] then []
    else
      var n := |infos| - 1;
      FullSweep(infos[..n], supported, filter) + (if InFullSweep(infos[n], supported, filter) then [infos[n]] else [])
  }

  function FocusedSweep(infos: seq<Option<TypeInfo>>): seq<TypeInfo> {
    if infos == [] then []
    else
      var n := |infos| - 1;
      FocusedSweep(infos[..n])
      + (if infos[n].Some? && infos[n].value.statValues.Some? then [infos[n].value] else [])
  }

  /** The types a statistics sweep asks the cache for, in order. */
  function SweepTypes(metadata: Metadata, supported: SupportedTypes, all: bool, filter: string): seq<TypeInfo> {
    if all || filter != "" then FullSweep(metadata.all, supported, filter) else FocusedSweep(metadata.focused)
  }

  /** A full sweep asks for exactly the types with statistics that match and may be supported. */
  lemma {:induction false} FullSweepCovers(infos: seq<TypeInfo>, supported: SupportedTypes, filter: string)
    ensures forall info :: info in FullSweep(infos, supported, filter) <==>
                           info in infos && InFullSweep(info, supported, filter)
  {
    hide InFullSweep;
    if infos != [] {
      var n := |infos| - 1;
      FullSweepCovers(infos[..n], supported, filter);
      assert infos == infos[..n] + [infos[n]];
    }
  }

  /** And in the order of the metadata: the sweep of two parts is the sweeps of the parts. */
  lemma {:induction false} FullSweepInOrder(a: seq<TypeInfo>, b: seq<TypeInfo>, supported: SupportedTypes, filter: string)
    ensures FullSweep(a + b, supported, filter) == FullSweep(a, supported, filter) + FullSweep(b, supported, filter)
    decreases |b|
  {
    hide InFullSweep;
    if b == [] {
      assert a + b == a && FullSweep(a, supported, filter) + [] == FullSweep(a, supported, filter);
    } else {
      var n := |b| - 1;
      FullSweepInOrder(a, b[..n], supported, filter);
      assert (a + b)[..|a + b| - 1] == a + b[..n];
    }
  }

  /** A focused sweep asks for exactly the focused types that exist and have statistics, in order. */
  lemma {:induction false} FocusedSweepCovers(a: seq<Option<TypeInfo>>, b: seq<Option<TypeInfo>>)
    ensures forall info :: info in FocusedSweep(a) <==> Some(info) in a && info.statValues.Some?
    ensures FocusedSweep(a + b) == FocusedSweep(a) + FocusedSweep(b)
    decreases |a| + |b|
  {
    if a != [] {
      var n := |a| - 1;
      FocusedSweepCovers(a[..n], []);
      assert a == a[..n] + [a[n]];
    }
    if b == [] {
      assert a + b == a && FocusedSweep(a) + [] == FocusedSweep(a);
    } else {
      var n := |b| - 1;
      FocusedSweepCovers(a, b[..n]);
      assert (a + b)[..|a + b| - 1] == a + b[..n];
    }
  }

  /** Both sweeps over one cache: the second one costs no adapter call and finds the same answers. */
  lemma SecondSweepIsFree(adapter: StatsAdapter, s: CacheState, infos: seq<TypeInfo>)
    ensures AfterGets(adapter, AfterGets(adapter, s, infos), infos) == AfterGets(adapter, s, infos)
  {
    KeptAfterGets(adapter, s, infos);
    KeptGetsAreFree(adapter, AfterGets(adapter, s, infos), infos);
  }

  lemma {:induction false} KeptAfterGets(adapter: StatsAdapter, s: CacheState, infos: seq<TypeInfo>)
    ensures forall i :: 0 <= i < |infos| ==> infos[i].objectType in AfterGets(adapter, s, infos).kept
  {
    if infos != [] {
      var n := |infos| - 1;
      KeptAfterGets(adapter, s, infos[..n]);
      forall i | 0 <= i < n
        ensures infos[i].objectType in AfterGets(adapter, s, infos[..n]).kept
      {
        assert infos[..n][i] == infos[i];
      }
    }
  }

  lemma {:induction false} KeptGetsAreFree(adapter: StatsAdapter, s: CacheState, infos: seq<TypeInfo>)
    requires forall i :: 0 <= i < |infos| ==> infos[i].objectType in s.kept
    ensures AfterGets(adapter, s, infos) == s
  {
    if infos != [] {
      KeptGetsAreFree(adapter, s, infos[..|infos| - 1]);
    }
  }

  lemma AfterOneMore(adapter: StatsAdapter, s: CacheState, infos: seq<TypeInfo>, info: TypeInfo)
    ensures AfterGets(adapter, s, infos + [info]) == AfterGet(adapter, AfterGets(adapter, s, infos), info)
  {
    assert (infos + [info])[..|infos|] == infos;
  }

  lemma NoGets(adapter: StatsAdapter, s: CacheState)
    ensures AfterGets(adapter, s, []) == s
  {
  }

  /** Each entry is the answer kept for the type asked for. */
  ghost predicate Answered(asked: seq<TypeInfo>, entries: seq<StatsResult>, kept: map<int, StatsResult>) {
    && |entries| == |asked|
    && forall i :: 0 <= i < |asked| ==> asked[i].objectType in kept && entries[i] == kept[asked[i].objectType]
  }

  lemma OneMoreAnswer(adapter: StatsAdapter, start: CacheState, s: CacheState, asked: seq<TypeInfo>,
                      entries: seq<StatsResult>, info: TypeInfo)
    requires s == AfterGets(adapter, start, asked) && Answered(asked, entries, s.kept)
    ensures var s' := AfterGet(adapter, s, info);
            && s' == AfterGets(adapter, start, asked + [info])
            && Answered(asked + [info], entries + [s'.kept[info.objectType]], s'.kept)
  {
    AfterOneMore(adapter, start, asked, info);
  }

  /** The answers a text sweep prints: all of them, or those that succeeded. */
  function Shown(answers: seq<StatsResult>, keepAll: bool): seq<StatsResult> {
    if answers == [] then []
    else
      var n := |answers| - 1;
      Shown(answers[..n], keepAll) + (if keepAll || answers[n].status == SUCCESS then [answers[n]] else [])
  }

  lemma OneMoreShown(answers: seq<StatsResult>, result: StatsResult, keepAll: bool)
    ensures Shown(answers + [result], keepAll) ==
            Shown(answers, keepAll) + (if keepAll || result.status == SUCCESS then [result] else [])
  {
    assert (answers + [result])[..|answers|] == answers;
  }

  /**
    The text sweep. It asks for the sweep's types in order and prints the answers: all of them
    in a focused sweep or when asked to, and otherwise those that succeeded.
   */
  method ShowStatsCapabilities(metadata: Metadata, supported: SupportedTypes, cache: StatsCapabilityCache, all: bool,
                               filter: string, includeUnsupported: bool)
    returns (asked: seq<TypeInfo>, printed: seq<StatsResult>, ghost answers: seq<StatsResult>)
    modifies cache, cache.adapter
    ensures asked == SweepTypes(metadata, supported, all, filter)
    ensures cache.View() == AfterGets(cache.adapter.respond, old(cache.View()), asked)
    ensures Answered(asked, answers, cache.kept)
    ensures printed == Shown(answers, (!all && filter == "") || includeUnsupported)
  {
    hide AfterGets, AfterGet, ObjectNameMatches, Shown;
    ghost var respond, start := cache.adapter.respond, cache.View();
    NoGets(respond, start);
    asked, printed, answers := [], [], [];
    NothingShown();
    if !all && filter == "" {
      for i := 0 to |metadata.focused|
        invariant asked == FocusedSweep(metadata.focused[..i])
        invariant cache.View() == AfterGets(respond, start, asked) && Answered(asked, answers, cache.kept)
        invariant printed == Shown(answers, true)
      {
        assert metadata.focused[..i + 1][..i] == metadata.focused[..i];
        var info := metadata.focused[i];
        if info.Some? && info.value.statValues.Some? {
          OneMoreAnswer(respond, start, cache.View(), asked, answers, info.value);
          var result := cache.Get(info.value);
          OneMoreShown(answers, result, true);
          asked, printed, answers := asked + [info.value], printed + [result], answers + [result];
        }
      }
      assert metadata.focused[..|metadata.focused|] == metadata.focused;
      return;
    }
    for i := 0 to |metadata.all|
      invariant asked == FullSweep(metadata.all[..i], supported, filter)
      invariant cache.View() == AfterGets(respond, start, asked) && Answered(asked, answers, cache.kept)
      invariant printed == Shown(answers, includeUnsupported)
    {
      assert metadata.all[..i + 1][..i] == metadata.all[..i];
      var info := metadata.all[i];
      if info.statValues.None? || !ObjectNameMatches(info.name, filter) {
        continue;
      }
      if supported.authoritative && info.objectType !in supported.types {
        continue;
      }
      OneMoreAnswer(respond, start, cache.View(), asked, answers, info);
      var result := cache.Get(info);
      OneMoreShown(answers, result, includeUnsupported);
      asked, answers := asked + [info], answers + [result];
      if result.status == SUCCESS || includeUnsupported {
        printed := printed + [result];
      }
    }
    assert metadata.all[..|metadata.all|] == metadata.all;
  }

  lemma NothingShown()
    ensures forall keepAll :: Shown([], keepAll) == []
  {
  }

  /** The statistics part of the JSON report; every result asked for gets an entry. */
  method BuildStatsJson(metadata: Metadata, supported: SupportedTypes, cache: StatsCapabilityCache, all: bool,
                        filter: string) returns (asked: seq<TypeInfo>, entries: seq<StatsResult>)
    modifies cache, cache.adapter
    ensures asked == SweepTypes(metadata, supported, all, filter)
    ensures cache.View() == AfterGets(cache.adapter.respond, old(cache.View()), asked)
    ensures Answered(asked, entries, cache.kept)
  {
    hide AfterGets, AfterGet, ObjectNameMatches;
    ghost var respond, start := cache.adapter.respond, cache.View();
    NoGets(respond, start);
    asked, entries := [], [];
    var fullScan := all || filter != "";
    if !fullScan {
      for i := 0 to |metadata.focused|
        invariant asked == FocusedSweep(metadata.focused[..i])
        invariant cache.View() == AfterGets(respond, start, asked) && Answered(asked, entries, cache.kept)
      {
        assert metadata.focused[..i + 1][..i] == metadata.focused[..i];
        var info := metadata.focused[i];
        if info.Some? && info.value.statValues.Some? {
          OneMoreAnswer(respond, start, cache.View(), asked, entries, info.value);
          var result := cache.Get(info.value);
          asked, entries := asked + [info.value], entries + [result];
        }
      }
      assert metadata.focused[..|metadata.focused|] == metadata.focused;
    } else {
      for i := 0 to |metadata.all|
        invariant asked == FullSweep(metadata.all[..i], supported, filter)
        invariant cache.View() == AfterGets(respond, start, asked) && Answered(asked, entries, cache.kept)
      {
        assert metadata.all[..i + 1][..i] == metadata.all[..i];
        var info := metadata.all[i];
        if info.statValues.None? || !ObjectNameMatches(info.name, filter) {
          continue;
        }
        if supported.authoritative && info.objectType !in supported.types {
          continue;
        }
        OneMoreAnswer(respond, start, cache.View(), asked, entries, info);
        var result := cache.Get(info);
        asked, entries := asked + [info], entries + [result];
      }
      assert metadata.all[..|metadata.all|] == metadata.all;
    }
  }
}

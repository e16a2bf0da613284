/** A scan of an object whose reads answer a fixed snapshot: what it reports, and what it costs. */
module SnapshotVerification {
  import opened Text
  import opened SaiStatus
  import opened AttributeTypes
  import opened AttributeFetch
  import opened Conditions
  import opened Verdicts
  import opened ConditionCache
  import opened Snapshot
  import opened LiveVerification

  // ----- what it reports

  function CarriedState(adapter: Adapter, attrs: seq<AttrMeta>, flagged: bool, kind: ConditionType, list: Option<Entries>)
    : Option<ConditionState>
  {
    if flagged then Some(LiveState(adapter, attrs, kind, list)) else None
  }

  /** The verdict the snapshot itself gives on an attribute, without any order of reading. */
  function LiveVerdict(adapter: Adapter, attrs: seq<AttrMeta>, answer: CapabilityAnswer, md: AttrMeta): Verdict {
    if !CanFetch(md.valueType) then NotFetchable
    else if !Declared(answer) then NotDeclared
    else
      var probe := Fetch(adapter, [], TargetOf(md)).outcome;
      var conditional := CarriedState(adapter, attrs, md.isConditional, md.conditionType, md.conditions);
      var validOnly := CarriedState(adapter, attrs, md.isValidOnly, md.validOnlyType, md.validOnly);
      Checked(probe, conditional, validOnly,
              CompareAttributeWithCondition(true, probe.result == Ok, md.isConditional || md.isValidOnly,
                                            CombinedState(conditional, validOnly)))
  }

  lemma JudgeIsLive(memo: bool, adapter: Adapter, attrs: seq<AttrMeta>, answer: CapabilityAnswer, w: World, md: AttrMeta)
    requires IsSnapshot(adapter) && Consistent(adapter, attrs, w) && Filed(w)
    ensures var (w', v) := JudgeOne(memo, adapter, attrs, answer, w, md);
            Consistent(adapter, attrs, w') && Filed(w') && v == LiveVerdict(adapter, attrs, answer, md)
  {
    if CanFetch(md.valueType) && Declared(answer) {
      FetchIsLive(adapter, w.history, md);
      var w1 := w.(history := Fetch(adapter, w.history, TargetOf(md)).history);
      if md.isConditional {
        ListStateIsLive(memo, adapter, attrs, w1, md.conditionType, md.conditions);
      }
      var w2 := if md.isConditional then
                  ListState(memo, adapter, attrs, w1, true, md.conditionType, md.conditions).0 else w1;
      if md.isValidOnly {
        ListStateIsLive(memo, adapter, attrs, w2, md.validOnlyType, md.validOnly);
      }
    }
  }

  /** The live verdicts on the attributes from `i` on. */
  function LiveVerdicts(adapter: Adapter, attrs: seq<AttrMeta>, capability: nat -> CapabilityAnswer, i: nat)
    : (verdicts: seq<Verdict>)
    requires i <= |attrs|
    ensures |verdicts| == |attrs| - i
    ensures forall k :: i <= k < |attrs| ==> verdicts[k - i] == LiveVerdict(adapter, attrs, capability(k), attrs[k])
  {
    seq(|attrs| - i, j requires 0 <= j < |attrs| - i => LiveVerdict(adapter, attrs, capability(i + j), attrs[i + j]))
  }

  lemma {:induction false} ScanIsLive(memo: bool, adapter: Adapter, attrs: seq<AttrMeta>,
                                      capability: nat -> CapabilityAnswer, w: World, i: nat)
    requires IsSnapshot(adapter) && Consistent(adapter, attrs, w) && Filed(w) && i <= |attrs|
    ensures Scan(memo, adapter, attrs, capability, w, i).1 == LiveVerdicts(adapter, attrs, capability, i)
    decreases |attrs| - i
  {
    if i < |attrs| {
      var (w1, verdict) := JudgeOne(memo, adapter, attrs, capability(i), w, attrs[i]);
      JudgeIsLive(memo, adapter, attrs, capability(i), w, attrs[i]);
      ScanIsLive(memo, adapter, attrs, capability, w1, i + 1);
      OneMoreLive(adapter, attrs, capability, i);
    }
  }

  lemma OneMoreLive(adapter: Adapter, attrs: seq<AttrMeta>, capability: nat -> CapabilityAnswer, i: nat)
    requires i < |attrs|
    ensures LiveVerdicts(adapter, attrs, capability, i)
         == [LiveVerdict(adapter, attrs, capability(i), attrs[i])] + LiveVerdicts(adapter, attrs, capability, i + 1)
  {
    hide LiveVerdict;
  }

  /** Remembering the reads changes nothing: the summary is that of a scan that repeats every one. */
  lemma CacheIsTransparent(adapter: Adapter, attrs: seq<AttrMeta>, capability: nat -> CapabilityAnswer,
                           history: seq<Offer>, before: Summary)
    requires IsSnapshot(adapter)
    ensures var start := World(map[], history, []);
            var cached, direct := Scan(true, adapter, attrs, capability, start, 0),
                                  Scan(false, adapter, attrs, capability, start, 0);
            cached.1 == direct.1
            && Account(before, attrs, 0, cached.1) == Account(before, attrs, 0, direct.1)
  {
    var start := World(map[], history, []);
    ScanIsLive(true, adapter, attrs, capability, start, 0);
    ScanIsLive(false, adapter, attrs, capability, start, 0);
  }

  /** Are all the conditions an attribute carries known to be true on the object? */
  ghost predicate InForce(adapter: Adapter, attrs: seq<AttrMeta>, md: AttrMeta) {
    && (md.isConditional ==> LiveState(adapter, attrs, md.conditionType, md.conditions) == Met)
    && (md.isValidOnly ==> LiveState(adapter, attrs, md.validOnlyType, md.validOnly) == Met)
  }

  /** Attribute `k` is declared gettable and in force, and yet cannot be read. */
  ghost predicate BrokenClaim(adapter: Adapter, attrs: seq<AttrMeta>, capability: nat -> CapabilityAnswer, k: nat)
    requires k < |attrs|
  {
    && CanFetch(attrs[k].valueType) && Declared(capability(k)) && InForce(adapter, attrs, attrs[k])
    && !Live(adapter, attrs[k]).ok
  }

  lemma LiveContradiction(adapter: Adapter, attrs: seq<AttrMeta>, capability: nat -> CapabilityAnswer, k: nat)
    requires k < |attrs|
    ensures LiveVerdict(adapter, attrs, capability(k), attrs[k]).IsContradiction()
       <==> BrokenClaim(adapter, attrs, capability, k)
  {
  }

  ghost predicate BrokenName(adapter: Adapter, attrs: seq<AttrMeta>, capability: nat -> CapabilityAnswer, name: string) {
    exists k :: 0 <= k < |attrs| && BrokenClaim(adapter, attrs, capability, k) && attrs[k].name == name
  }

  /**
    No false contradictions, and none missed: the attributes a scan reports are exactly those
    the object shows to be declared gettable, in force, and unreadable.
   */
  lemma ContradictionsAreBrokenClaims(adapter: Adapter, attrs: seq<AttrMeta>, capability: nat -> CapabilityAnswer,
                                      history: seq<Offer>)
    requires IsSnapshot(adapter)
    ensures var verdicts := Scan(true, adapter, attrs, capability, World(map[], history, []), 0).1;
            && (forall k :: 0 <= k < |attrs| ==>
                  (verdicts[k].IsContradiction() <==> BrokenClaim(adapter, attrs, capability, k)))
            && (forall name :: name in Account(Empty, attrs, 0, verdicts).contradictory <==>
                  BrokenName(adapter, attrs, capability, name))
  {
    hide LiveVerdict, BrokenClaim, Scan;
    var verdicts := LiveVerdicts(adapter, attrs, capability, 0);
    ScanIsLive(true, adapter, attrs, capability, World(map[], history, []), 0);
    forall k | 0 <= k < |attrs|
      ensures verdicts[k].IsContradiction() <==> BrokenClaim(adapter, attrs, capability, k)
    {
      LiveContradiction(adapter, attrs, capability, k);
      assert verdicts[k - 0] == verdicts[k];
    }
    AccountConserves(Empty, attrs, 0, verdicts);
    SameNames(adapter, attrs, capability, verdicts);
  }

  lemma SameNames(adapter: Adapter, attrs: seq<AttrMeta>, capability: nat -> CapabilityAnswer, verdicts: seq<Verdict>)
    requires |verdicts| == |attrs|
    requires forall k :: 0 <= k < |attrs| ==>
               (verdicts[k].IsContradiction() <==> BrokenClaim(adapter, attrs, capability, k))
    ensures forall name :: ContradictedName(attrs, 0, verdicts, name) <==> BrokenName(adapter, attrs, capability, name)
  {
    hide BrokenClaim;
    forall name
      ensures ContradictedName(attrs, 0, verdicts, name) <==> BrokenName(adapter, attrs, capability, name)
    {
      if ContradictedName(attrs, 0, verdicts, name) {
        var k :| 0 <= k < |verdicts| && verdicts[k].IsContradiction() && attrs[0 + k].name == name;
        assert BrokenClaim(adapter, attrs, capability, k);
      }
      if BrokenName(adapter, attrs, capability, name) {
        var k :| 0 <= k < |attrs| && BrokenClaim(adapter, attrs, capability, k) && attrs[k].name == name;
        assert verdicts[k].IsContradiction() && attrs[0 + k].name == name;
      }
    }
  }

  // ----- what it costs, on any adapter

  /** The ids a scan's condition lists refer to. */
  function ReferencedIds(attrs: seq<AttrMeta>): set<nat> {
    set md, id | md in attrs && id in CarriedIds(md) :: id
  }

  function CarriedIds(md: AttrMeta): set<nat> {
    (if md.isConditional && md.conditions.Some? then ListIds(md.conditions.value) else {})
    + (if md.isValidOnly && md.validOnly.Some? then ListIds(md.validOnly.value) else {})
  }

  ghost predicate NoRepeats(ids: seq<nat>) {
    forall i, j :: 0 <= i < j < |ids| ==> ids[i] != ids[j]
  }

  /** The ids asked for are distinct, and are those remembered. */
  ghost predicate AskedOnce(w: World, ids: set<nat>) {
    && NoRepeats(w.asked) && (forall id :: id in w.asked <==> id in w.entries) && (forall id :: id in w.asked ==> id in ids)
  }

  /** A step that added to what was asked, one getter call for each addition and `calls` besides. */
  ghost predicate Paid(w: World, w': World, calls: nat) {
    |w.asked| <= |w'.asked| && |w'.history| <= |w.history| + calls + (|w'.asked| - |w.asked|)
  }

  lemma {:induction false} CollectCost(adapter: Adapter, attrs: seq<AttrMeta>, w: World, list: Entries, got: seq<Attribute>,
                                       ids: set<nat>)
    requires AskedOnce(w, ids) && ListIds(list) <= ids
    ensures var w' := Collect(true, adapter, attrs, w, list, got).0;
            AskedOnce(w', ids) && Paid(w, w', 0)
    decreases |list|
  {
    if list != [] {
      SplitIds(list);
      if list[0].None? {
        CollectCost(adapter, attrs, w, list[1..], got, ids);
      } else {
        var id := list[0].value.attrid;
        var md := FindAttr(attrs, id);
        if md.Some? && IsConditionEvaluable(md.value.valueType) {
          if HasId(got, id) {
            CollectCost(adapter, attrs, w, list[1..], got, ids);
          } else {
            var (w1, entry) := ReadThrough(true, adapter, w, md.value);
            SwitchesAgree(md.value.valueType);
            FetchOffers(adapter, w.history, TargetOf(md.value));
            assert AskedOnce(w1, ids) && Paid(w, w1, 0);
            if entry.ok {
              CollectCost(adapter, attrs, w1, list[1..], got + [entry.attribute], ids);
            }
          }
        }
      }
    }
  }

  lemma ListCost(adapter: Adapter, attrs: seq<AttrMeta>, w: World, kind: ConditionType, list: Option<Entries>, ids: set<nat>)
    requires AskedOnce(w, ids) && (list.Some? ==> ListIds(list.value) <= ids)
    ensures var w' := ListState(true, adapter, attrs, w, true, kind, list).0;
            AskedOnce(w', ids) && Paid(w, w', 0)
  {
    if list.Some? {
      CollectCost(adapter, attrs, w, list.value, [], ids);
    }
  }

  lemma JudgeCost(adapter: Adapter, attrs: seq<AttrMeta>, answer: CapabilityAnswer, w: World, md: AttrMeta, ids: set<nat>)
    requires AskedOnce(w, ids) && CarriedIds(md) <= ids
    ensures var (w', v) := JudgeOne(true, adapter, attrs, answer, w, md);
            AskedOnce(w', ids) && Paid(w, w', if v.Checked? then 5 else 0)
  {
    if CanFetch(md.valueType) && Declared(answer) {
      FetchOffers(adapter, w.history, TargetOf(md));
      var w1 := w.(history := Fetch(adapter, w.history, TargetOf(md)).history);
      assert AskedOnce(w1, ids) && Paid(w, w1, 5);
      if md.isConditional {
        ListCost(adapter, attrs, w1, md.conditionType, md.conditions, ids);
      }
      var w2 := if md.isConditional then
                  ListState(true, adapter, attrs, w1, true, md.conditionType, md.conditions).0 else w1;
      if md.isValidOnly {
        ListCost(adapter, attrs, w2, md.validOnlyType, md.validOnly, ids);
      }
    }
  }

  lemma {:induction false} ScanPays(adapter: Adapter, attrs: seq<AttrMeta>, capability: nat -> CapabilityAnswer,
                                    w: World, i: nat, ids: set<nat>)
    requires i <= |attrs| && AskedOnce(w, ids) && ids == ReferencedIds(attrs)
    ensures var (w', verdicts) := Scan(true, adapter, attrs, capability, w, i);
            AskedOnce(w', ids) && Paid(w, w', 5 * CountChecked(verdicts))
    decreases |attrs| - i
  {
    if i < |attrs| {
      assert CarriedIds(attrs[i]) <= ids by {
        assert attrs[i] in attrs;
      }
      JudgeCost(adapter, attrs, capability(i), w, attrs[i], ids);
      var (w1, verdict) := JudgeOne(true, adapter, attrs, capability(i), w, attrs[i]);
      ScanPays(adapter, attrs, capability, w1, i + 1, ids);
      var rest := Scan(true, adapter, attrs, capability, w1, i + 1).1;
      assert ([verdict] + rest)[1..] == rest;
    }
  }

  lemma {:induction false} DistinctInSet(asked: seq<nat>, ids: set<nat>)
    requires NoRepeats(asked) && forall id :: id in asked ==> id in ids
    ensures |asked| <= |ids|
  {
    if asked != [] {
      var n := |asked| - 1;
      forall id | id in asked[..n]
        ensures id in ids - {asked[n]}
      {
      }
      DistinctInSet(asked[..n], ids - {asked[n]});
    }
  }

  /**
    Whatever the adapter does, a scan reads each attribute its conditions refer to at most once,
    failed reads included. It makes at most one fetch for each attribute checked and one for each
    id referred to, the latter of one getter call and the former of at most five.
   */
  lemma ScanCost(adapter: Adapter, attrs: seq<AttrMeta>, capability: nat -> CapabilityAnswer, history: seq<Offer>)
    ensures var (w, verdicts) := Scan(true, adapter, attrs, capability, World(map[], history, []), 0);
            && NoRepeats(w.asked) && (forall id :: id in w.asked ==> id in ReferencedIds(attrs))
            && |w.asked| <= |ReferencedIds(attrs)|
            && |w.history| - |history| <= 5 * CountChecked(verdicts) + |ReferencedIds(attrs)|
  {
    ScanPays(adapter, attrs, capability, World(map[], history, []), 0, ReferencedIds(attrs));
    DistinctInSet(Scan(true, adapter, attrs, capability, World(map[], history, []), 0).0.asked, ReferencedIds(attrs));
  }
}

/** Reading the attributes conditions refer to, once per object, and evaluating conditions on them. */
module ConditionCache {
  import opened Text
  import opened SaiStatus
  import opened AttributeTypes
  import opened AttributeFetch
  import opened Conditions
  import opened Verdicts

  /** One remembered read; the attribute is blank when the read failed. */
  datatype Entry = Entry(ok: bool, status: int32, attribute: Attribute)

  const BLANK := Attribute(0, 0, 0)

  /**
    Where an object scan stands: the reads remembered, the getter calls made, and the ids read
    from the adapter on behalf of conditions.
   */
  datatype World = World(entries: map<nat, Entry>, history: seq<Offer>, asked: seq<nat>)

  function TargetOf(md: AttrMeta): Target {
    Target(md.id, md.valueType)
  }

  /** A read that goes to the adapter. */
  function FetchEntry(adapter: Adapter, history: seq<Offer>, md: AttrMeta): (Entry, seq<Offer>) {
    var f := Fetch(adapter, history, TargetOf(md));
    (Entry(f.outcome.result == Ok, f.outcome.status, if f.outcome.result == Ok then f.attribute else BLANK), f.history)
  }

  /** A read through the cache when `memo`, and straight from the adapter otherwise. */
  function ReadThrough(memo: bool, adapter: Adapter, w: World, md: AttrMeta): (World, Entry) {
    if memo && md.id in w.entries then (w, w.entries[md.id])
    else
      var (entry, history) := FetchEntry(adapter, w.history, md);
      (World(w.entries[md.id := entry], history, w.asked + [md.id]), entry)
  }

  predicate HasId(attributes: seq<Attribute>, id: nat) {
    exists i :: 0 <= i < |attributes| && attributes[i].id == id
  }

  /** The attribute list built for the evaluator; None when some condition cannot be evaluated. */
  function Collect(memo: bool, adapter: Adapter, attrs: seq<AttrMeta>, w: World, list: Entries,
                   got: seq<Attribute>): (World, Option<seq<Attribute>>)
    decreases |list|
  {
    if list == [] then (w, Some(got))
    else match list[0]
      case None => Collect(memo, adapter, attrs, w, list[1..], got)
      case Some(c) =>
        match FindAttr(attrs, c.attrid)
        case None => (w, None)
        case Some(md) =>
          if !IsConditionEvaluable(md.valueType) then (w, None)
          else if HasId(got, c.attrid) then Collect(memo, adapter, attrs, w, list[1..], got)
          else
            var (w', entry) := ReadThrough(memo, adapter, w, md);
            if !entry.ok then (w', None)
            else Collect(memo, adapter, attrs, w', list[1..], got + [entry.attribute])
  }

  /** The state of one condition list. */
  function ListState(memo: bool, adapter: Adapter, attrs: seq<AttrMeta>, w: World, flagged: bool,
                     kind: ConditionType, list: Option<Entries>): (World, ConditionState)
  {
    if list.None? || list.value == [] then (w, Unknown)
    else
      var (w', got) := Collect(memo, adapter, attrs, w, list.value, []);
      if got.None? || got.value == [] then (w', Unknown)
      else (w', if EvaluatorSays(attrs, flagged, kind, list.value, got.value) then Met else NotMet)
  }

  /** The states of the two predicates an attribute may carry, None for one it does not carry. */
  function BothStates(memo: bool, adapter: Adapter, attrs: seq<AttrMeta>, w: World, md: AttrMeta)
    : (World, Option<ConditionState>, Option<ConditionState>)
  {
    var (w1, conditional) :=
      if md.isConditional then
        var (w1, s) := ListState(memo, adapter, attrs, w, md.isConditional, md.conditionType, md.conditions);
        (w1, Some(s))
      else (w, None);
    var (w2, validOnly) :=
      if md.isValidOnly then
        var (w2, s) := ListState(memo, adapter, attrs, w1, md.isValidOnly, md.validOnlyType, md.validOnly);
        (w2, Some(s))
      else (w1, None);
    (w2, conditional, validOnly)
  }

  /** evaluate_attribute_condition's combination of the two. */
  function CombinedState(conditional: Option<ConditionState>, validOnly: Option<ConditionState>): ConditionState {
    var state := if conditional.Some? then conditional.value else Met;
    if validOnly.Some? then Combine(state, validOnly.value) else state
  }

  class ConditionAttributeCache {
    const getter: AttributeGetter
    var entries: map<nat, Entry>
    ghost var asked: seq<nat>

    /** A remembered read is Ok exactly when its status is SUCCESS, and blank otherwise. */
    ghost predicate Valid()
      reads this
    {
      forall id :: id in entries ==>
        (entries[id].ok <==> entries[id].status == SUCCESS)
        && (!entries[id].ok ==> entries[id].attribute == Attribute(0, 0, 0))
    }

    ghost function View(): World
      reads this, getter
    {
      World(entries, getter.history, asked)
    }

    constructor (getter: AttributeGetter)
      ensures this.getter == getter && Valid() && View() == World(map[], getter.history, [])
    {
      this.getter := getter;
      entries, asked := map[], [];
    }

    method Read(referenced: AttrMeta) returns (status: int32, attribute: Attribute)
      requires Valid()
      modifies this, getter
      ensures Valid()
      ensures var (w, entry) := ReadThrough(true, getter.adapter, old(View()), referenced);
              && View() == w
              && (status == SUCCESS <==> entry.ok) && (status != SUCCESS ==> attribute == Attribute(0, 0, 0))
              && attribute == entry.attribute
    {
      if referenced.id !in entries {
        FetchOkIffSuccess(getter.adapter, getter.history, TargetOf(referenced));
        var storage := new AttributeStorage();
        var outcome, fetched := FetchAttribute(TargetOf(referenced), getter, storage);
        var entry := Entry(outcome.result == Ok, outcome.status, if outcome.result == Ok then fetched else BLANK);
        entries := entries[referenced.id := entry];
        asked := asked + [referenced.id];
      }
      var entry := entries[referenced.id];
      attribute := entry.attribute;
      status := if entry.ok then SUCCESS else entry.status;
    }
  }

  method EvaluateConditionList(attrs: seq<AttrMeta>, cache: ConditionAttributeCache, flagged: bool,
                               kind: ConditionType, list: Option<Entries>) returns (state: ConditionState)
    requires cache.Valid()
    modifies cache, cache.getter
    ensures cache.Valid()
    ensures (cache.View(), state)
         == ListState(true, cache.getter.adapter, attrs, old(cache.View()), flagged, kind, list)
  {
    if list.None? || list.value == [] {
      return Unknown;
    }
    var attributes: seq<Attribute> := [];
    var i := 0;
    while i < |list.value|
      invariant i <= |list.value| && cache.Valid()
      invariant Collect(true, cache.getter.adapter, attrs, cache.View(), list.value[i..], attributes)
             == Collect(true, cache.getter.adapter, attrs, old(cache.View()), list.value, [])
    {
      assert list.value[i..][0] == list.value[i] && list.value[i..][1..] == list.value[i + 1..];
      var entry := list.value[i];
      i := i + 1;
      if entry.None? {
        continue;
      }
      var condition := entry.value;
      var referenced := FindAttr(attrs, condition.attrid);
      if referenced.None? || !IsConditionEvaluable(referenced.value.valueType) {
        return Unknown;
      }
      if HasId(attributes, condition.attrid) {
        continue;
      }
      var status, attribute := cache.Read(referenced.value);
      if status != SUCCESS {
        return Unknown;
      }
      attributes := attributes + [attribute];
    }
    if attributes == [] {
      return Unknown;
    }
    return if EvaluatorSays(attrs, flagged, kind, list.value, attributes) then Met else NotMet;
  }

  method EvaluateAttributeCondition(attrs: seq<AttrMeta>, cache: ConditionAttributeCache, md: AttrMeta)
    returns (state: ConditionState)
    requires cache.Valid()
    modifies cache, cache.getter
    ensures cache.Valid()
    ensures var (w, conditional, validOnly) := BothStates(true, cache.getter.adapter, attrs, old(cache.View()), md);
            cache.View() == w && state == CombinedState(conditional, validOnly)
  {
    state := Met;
    if md.isConditional {
      state := EvaluateConditionList(attrs, cache, md.isConditional, md.conditionType, md.conditions);
    }
    if md.isValidOnly {
      var validOnly := EvaluateConditionList(attrs, cache, md.isValidOnly, md.validOnlyType, md.validOnly);
      state := Combine(state, validOnly);
    }
  }

  // ----- what reaches the evaluator

  ghost predicate DistinctIds(attributes: seq<Attribute>) {
    forall i, j :: 0 <= i < j < |attributes| ==> attributes[i].id != attributes[j].id
  }

  /** The remembered reads belong to the ids they are filed under. */
  ghost predicate Filed(w: World) {
    forall id :: id in w.entries && w.entries[id].ok ==> w.entries[id].attribute.id == id
  }

  lemma ReadFiles(memo: bool, adapter: Adapter, w: World, md: AttrMeta)
    requires Filed(w)
    ensures var (w', entry) := ReadThrough(memo, adapter, w, md);
            && Filed(w') && md.id in w'.entries && w'.entries[md.id] == entry
            && (entry.ok ==> entry.attribute.id == md.id)
            && (forall id :: id in w.entries && id != md.id ==> id in w'.entries && w'.entries[id] == w.entries[id])
  {
    FetchOkIffSuccess(adapter, w.history, TargetOf(md));
  }

  /** Every attribute handed over is what the cache holds under its id. */
  ghost predicate FromCache(w: World, got: seq<Attribute>) {
    forall i :: 0 <= i < |got| ==>
      got[i].id in w.entries && w.entries[got[i].id].ok && w.entries[got[i].id].attribute == got[i]
  }

  lemma {:induction false} CollectCovers(memo: bool, adapter: Adapter, attrs: seq<AttrMeta>, w: World, list: Entries,
                                         got: seq<Attribute>)
    requires Filed(w) && DistinctIds(got) && FromCache(w, got)
    ensures var (w', result) := Collect(memo, adapter, attrs, w, list, got);
            && Filed(w')
            && (result.Some? ==>
                  && DistinctIds(result.value) && FromCache(w', result.value) && got <= result.value
                  && (forall id :: Refers(list, id) ==>
                        HasId(result.value, id) && FindAttr(attrs, id).Some?
                        && IsConditionEvaluable(FindAttr(attrs, id).value.valueType)))
    decreases |list|
  {
    if list != [] {
      if list[0].None? {
        CollectCovers(memo, adapter, attrs, w, list[1..], got);
        SplitRefers(list);
      } else {
        var c := list[0].value;
        var md := FindAttr(attrs, c.attrid);
        if md.Some? && IsConditionEvaluable(md.value.valueType) {
          SplitRefers(list);
          if HasId(got, c.attrid) {
            CollectCovers(memo, adapter, attrs, w, list[1..], got);
            StillHasId(got, Collect(memo, adapter, attrs, w, list[1..], got).1, c.attrid);
          } else {
            var (w', entry) := ReadThrough(memo, adapter, w, md.value);
            ReadFiles(memo, adapter, w, md.value);
            if entry.ok {
              var more := got + [entry.attribute];
              assert more[|got|].id == c.attrid && HasId(more, c.attrid);
              CollectCovers(memo, adapter, attrs, w', list[1..], more);
              StillHasId(more, Collect(memo, adapter, attrs, w', list[1..], more).1, c.attrid);
            }
          }
        }
      }
    }
  }

  lemma StillHasId(got: seq<Attribute>, result: Option<seq<Attribute>>, id: nat)
    requires HasId(got, id)
    ensures result.Some? && got <= result.value ==> HasId(result.value, id)
  {
    var i :| 0 <= i < |got| && got[i].id == id;
    if result.Some? && got <= result.value {
      assert result.value[i].id == id;
    }
  }

  lemma SplitRefers(list: Entries)
    requires list != []
    ensures forall id :: Refers(list, id) ==>
              (list[0].Some? && list[0].value.attrid == id) || Refers(list[1..], id)
  {
    forall id | Refers(list, id) && !(list[0].Some? && list[0].value.attrid == id)
      ensures Refers(list[1..], id)
    {
      var i :| 0 <= i < |list| && list[i].Some? && list[i].value.attrid == id;
      assert list[1..][i - 1] == list[i];
    }
  }

  /** The values held for the attributes a list refers to. */
  ghost function HeldValues(w: World, list: Entries): map<nat, int> {
    map id | id in w.entries && Refers(list, id) :: w.entries[id].attribute.value
  }

  /**
    Whenever the evaluator is reached, the attributes handed to it have distinct ids and cover
    every condition with a read that succeeded, so no default value can be used: the answer is
    the list's truth over the values read, whatever the defaults are.
   */
  lemma EvaluatorSeesLiveValues(memo: bool, adapter: Adapter, attrs: seq<AttrMeta>, w: World, kind: ConditionType,
                                list: Entries)
    requires Filed(w)
    ensures var (w', got) := Collect(memo, adapter, attrs, w, list, []);
            got.Some? ==>
              && DistinctIds(got.value)
              && (forall id :: Refers(list, id) ==> HasId(got.value, id))
              && (forall id :: Refers(list, id) ==> id in w'.entries && w'.entries[id].ok)
              && (forall defaults ::
                    ListHolds(kind, list, defaults + ValuesOf(got.value)) == ListHolds(kind, list, HeldValues(w', list)))
  {
    var (w', got) := Collect(memo, adapter, attrs, w, list, []);
    CollectCovers(memo, adapter, attrs, w, list, []);
    if got.Some? {
      ValuesOfDistinct(got.value);
      forall id | Refers(list, id)
        ensures id in w'.entries && w'.entries[id].ok
        ensures id in ValuesOf(got.value) && ValuesOf(got.value)[id] == w'.entries[id].attribute.value
      {
        var i :| 0 <= i < |got.value| && got.value[i].id == id;
      }
      forall defaults
        ensures ListHolds(kind, list, defaults + ValuesOf(got.value)) == ListHolds(kind, list, HeldValues(w', list))
      {
        ListHoldsAgree(kind, list, defaults + ValuesOf(got.value), HeldValues(w', list));
      }
    }
  }

  /** An operator entry of a MIXED list has no attribute behind it, so such a list is Unknown. */
  lemma {:induction false} UnresolvedIdBlocks(memo: bool, adapter: Adapter, attrs: seq<AttrMeta>, w: World, list: Entries,
                                              got: seq<Attribute>, id: nat)
    requires Refers(list, id) && FindAttr(attrs, id).None?
    ensures Collect(memo, adapter, attrs, w, list, got).1.None?
    decreases |list|
  {
    SplitRefers(list);
    if list[0].None? {
      UnresolvedIdBlocks(memo, adapter, attrs, w, list[1..], got, id);
    } else if list[0].value.attrid != id {
      var md := FindAttr(attrs, list[0].value.attrid);
      if md.Some? && IsConditionEvaluable(md.value.valueType) {
        if HasId(got, list[0].value.attrid) {
          UnresolvedIdBlocks(memo, adapter, attrs, w, list[1..], got, id);
        } else {
          var (w', entry) := ReadThrough(memo, adapter, w, md.value);
          if entry.ok {
            UnresolvedIdBlocks(memo, adapter, attrs, w', list[1..], got + [entry.attribute], id);
          }
        }
      }
    }
  }

  lemma OperatorListsAreUnknown(memo: bool, adapter: Adapter, attrs: seq<AttrMeta>, w: World, flagged: bool,
                                kind: ConditionType, list: Entries)
    requires forall md :: md in attrs ==> md.id != 0xFFFF_FFFF
    requires Refers(list, 0xFFFF_FFFF)
    ensures ListState(memo, adapter, attrs, w, flagged, kind, Some(list)).1 == Unknown
  {
    UnresolvedIdBlocks(memo, adapter, attrs, w, list, [], 0xFFFF_FFFF);
  }
}

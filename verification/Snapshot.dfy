/** Condition evaluation on an object whose reads answer a fixed snapshot. */
module Snapshot {
  import opened Text
  import opened SaiStatus
  import opened AttributeTypes
  import opened AttributeFetch
  import opened Conditions
  import opened Verdicts
  import opened ConditionCache

  /** Each answer depends on the offer alone, not on what was asked before. */
  ghost predicate IsSnapshot(adapter: Adapter) {
    forall h, k, o: Offer :: adapter(h + [o]) == adapter(k + [o])
  }

  lemma {:induction false} RetrySnapshot(adapter: Adapter, h: seq<Offer>, k: seq<Offer>, target: Target, capacity: nat,
                                         attribute: Attribute, status: int32, attempts: nat)
    requires IsSnapshot(adapter) && capacity <= MAXIMUM_LIST_CAPACITY
    ensures var f, g := Retry(adapter, h, target, capacity, attribute, status, attempts),
                        Retry(adapter, k, target, capacity, attribute, status, attempts);
            f.outcome == g.outcome && f.attribute == g.attribute
    decreases attempts
  {
    if status == BUFFER_OVERFLOW && attempts > 0 && capacity > 0 {
      var count := NextCount(attribute.count, capacity);
      if count <= MAXIMUM_LIST_CAPACITY {
        var o := Offer(target.id, count, count);
        assert adapter(h + [o]) == adapter(k + [o]);
        match adapter(h + [o])
        case Threw =>
        case Returned(status, reported, value) =>
          RetrySnapshot(adapter, h + [o], k + [o], target, count, Attribute(target.id, reported, value), status, attempts - 1);
      }
    }
  }

  /** What a read of an attribute gives on this object, whenever it is made. */
  function Live(adapter: Adapter, md: AttrMeta): Entry {
    FetchEntry(adapter, [], md).0
  }

  lemma FetchIsLive(adapter: Adapter, history: seq<Offer>, md: AttrMeta)
    requires IsSnapshot(adapter)
    ensures FetchEntry(adapter, history, md).0 == Live(adapter, md)
    ensures Fetch(adapter, history, TargetOf(md)).outcome == Fetch(adapter, [], TargetOf(md)).outcome
  {
    if CanFetch(md.valueType) {
      var capacity := if IsBuffered(md.valueType) then INITIAL_LIST_CAPACITY else 0;
      var o := Offer(md.id, capacity, capacity);
      assert adapter(history + [o]) == adapter([] + [o]);
      match adapter(history + [o])
      case Threw =>
      case Returned(status, reported, value) =>
        RetrySnapshot(adapter, history + [o], [] + [o], TargetOf(md), capacity, Attribute(md.id, reported, value), status, 4);
    }
  }

  // ----- conditions, without any reading order

  function ListIds(list: Entries): set<nat> {
    set i | 0 <= i < |list| && list[i].Some? :: list[i].value.attrid
  }

  /** Can the attribute with this id be used in a condition on this object? */
  predicate Readable(adapter: Adapter, attrs: seq<AttrMeta>, id: nat) {
    var md := FindAttr(attrs, id);
    md.Some? && IsConditionEvaluable(md.value.valueType) && Live(adapter, md.value).ok
  }

  predicate AllReadable(adapter: Adapter, attrs: seq<AttrMeta>, list: Entries) {
    forall id :: id in ListIds(list) ==> Readable(adapter, attrs, id)
  }

  /** The snapshot's values of the attributes a list refers to. */
  function LiveValues(adapter: Adapter, attrs: seq<AttrMeta>, list: Entries): map<nat, int>
    requires AllReadable(adapter, attrs, list)
  {
    map id | id in ListIds(list) :: Live(adapter, FindAttr(attrs, id).value).attribute.value
  }

  /** The state of a condition list on the snapshot: Unknown unless everything it needs is readable. */
  function LiveState(adapter: Adapter, attrs: seq<AttrMeta>, kind: ConditionType, list: Option<Entries>): ConditionState {
    if list.None? || ListIds(list.value) == {} || !AllReadable(adapter, attrs, list.value) then Unknown
    else if ListHolds(kind, list.value, LiveValues(adapter, attrs, list.value)) then Met
    else NotMet
  }

  // ----- reading through the cache, or not, gives the live state

  /** Every remembered read is what the snapshot still answers. */
  ghost predicate Consistent(adapter: Adapter, attrs: seq<AttrMeta>, w: World) {
    forall id :: id in w.entries ==>
      FindAttr(attrs, id).Some? && w.entries[id] == Live(adapter, FindAttr(attrs, id).value)
  }

  lemma ReadIsLive(memo: bool, adapter: Adapter, attrs: seq<AttrMeta>, w: World, id: nat)
    requires IsSnapshot(adapter) && Consistent(adapter, attrs, w) && FindAttr(attrs, id).Some?
    ensures var (w', entry) := ReadThrough(memo, adapter, w, FindAttr(attrs, id).value);
            Consistent(adapter, attrs, w') && entry == Live(adapter, FindAttr(attrs, id).value)
  {
    FetchIsLive(adapter, w.history, FindAttr(attrs, id).value);
  }

  lemma {:induction false} CollectIsLive(memo: bool, adapter: Adapter, attrs: seq<AttrMeta>, w: World, list: Entries,
                                         got: seq<Attribute>)
    requires IsSnapshot(adapter) && Consistent(adapter, attrs, w) && FromCache(w, got) && Filed(w)
    ensures var (w', result) := Collect(memo, adapter, attrs, w, list, got);
            && Consistent(adapter, attrs, w')
            && (result.Some? <==> AllReadable(adapter, attrs, list))
    decreases |list|
  {
    if list != [] {
      SplitIds(list);
      if list[0].None? {
        CollectIsLive(memo, adapter, attrs, w, list[1..], got);
      } else {
        var id := list[0].value.attrid;
        var md := FindAttr(attrs, id);
        if md.Some? && IsConditionEvaluable(md.value.valueType) {
          if HasId(got, id) {
            CollectIsLive(memo, adapter, attrs, w, list[1..], got);
          } else {
            var (w', entry) := ReadThrough(memo, adapter, w, md.value);
            ReadIsLive(memo, adapter, attrs, w, id);
            ReadFiles(memo, adapter, w, md.value);
            if entry.ok {
              CollectIsLive(memo, adapter, attrs, w', list[1..], got + [entry.attribute]);
            }
          }
        }
      }
    }
  }

  lemma SplitIds(list: Entries)
    requires list != []
    ensures ListIds(list) == (if list[0].Some? then {list[0].value.attrid} else {}) + ListIds(list[1..])
  {
    forall id | id in ListIds(list) && !(list[0].Some? && id == list[0].value.attrid)
      ensures id in ListIds(list[1..])
    {
      var i :| 0 <= i < |list| && list[i].Some? && list[i].value.attrid == id;
      assert list[1..][i - 1] == list[i];
    }
    forall id | id in ListIds(list[1..])
      ensures id in ListIds(list)
    {
      var i :| 0 <= i < |list[1..]| && list[1..][i].Some? && list[1..][i].value.attrid == id;
      assert list[i + 1] == list[1..][i];
    }
  }

  /** A condition list's state is its live state, whether or not the reads were remembered. */
  lemma ListStateIsLive(memo: bool, adapter: Adapter, attrs: seq<AttrMeta>, w: World, kind: ConditionType,
                        list: Option<Entries>)
    requires IsSnapshot(adapter) && Consistent(adapter, attrs, w) && Filed(w)
    ensures var (w', state) := ListState(memo, adapter, attrs, w, true, kind, list);
            Consistent(adapter, attrs, w') && Filed(w') && state == LiveState(adapter, attrs, kind, list)
  {
    if list.Some? && list.value != [] {
      var (w', got) := Collect(memo, adapter, attrs, w, list.value, []);
      CollectIsLive(memo, adapter, attrs, w, list.value, []);
      CollectCovers(memo, adapter, attrs, w, list.value, []);
      EvaluatorSeesLiveValues(memo, adapter, attrs, w, kind, list.value);
      NothingCollected(memo, adapter, attrs, w, list.value, []);
      if got.Some? && got.value != [] {
        var live, held := LiveValues(adapter, attrs, list.value), HeldValues(w', list.value);
        forall id | Refers(list.value, id)
          ensures id in live && id in held && live[id] == held[id]
        {
          assert id in ListIds(list.value);
        }
        ListHoldsAgree(kind, list.value, live, held);
      }
    }
  }

  lemma {:induction false} NothingCollected(memo: bool, adapter: Adapter, attrs: seq<AttrMeta>, w: World, list: Entries,
                                            got: seq<Attribute>)
    ensures var result := Collect(memo, adapter, attrs, w, list, got).1;
            result.Some? ==>
              && |result.value| >= |got|
              && (got == [] ==> (result.value == [] <==> ListIds(list) == {}))
    decreases |list|
  {
    if list != [] {
      SplitIds(list);
      if list[0].None? {
        NothingCollected(memo, adapter, attrs, w, list[1..], got);
      } else {
        var md := FindAttr(attrs, list[0].value.attrid);
        if md.Some? && IsConditionEvaluable(md.value.valueType) {
          if HasId(got, list[0].value.attrid) {
            NothingCollected(memo, adapter, attrs, w, list[1..], got);
          } else {
            var (w', entry) := ReadThrough(memo, adapter, w, md.value);
            NothingCollected(memo, adapter, attrs, w', list[1..], got + [entry.attribute]);
          }
        }
      }
    }
  }
}

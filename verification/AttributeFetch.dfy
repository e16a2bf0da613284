/** fetch_attribute: reading one attribute from an adapter that may need a larger buffer. */
module AttributeFetch {
  import opened Text
  import opened SaiStatus
  import opened AttributeTypes
  import opened Doubling

  /** What one getter call is given: the attribute id, the count, the size of the storage behind it. */
  datatype Offer = Offer(id: nat, count: uint32, capacity: nat)

  /** What one getter call does: throw, or return a status and leave a count and a value. */
  datatype Answer = Threw | Returned(status: int32, count: uint32, value: int)

  /** An arbitrary stateful adapter: each answer may depend on every offer made so far. */
  type Adapter = seq<Offer> -> Answer

  class AttributeGetter {
    const adapter: Adapter
    var history: seq<Offer>

    constructor (adapter: Adapter)
      ensures this.adapter == adapter && history == []
    {
      this.adapter := adapter;
      history := [];
    }

    method Get(attribute: Attribute, capacity: nat) returns (answer: Answer)
      modifies this`history
      ensures history == old(history) + [Offer(attribute.id, attribute.count, capacity)]
      ensures answer == adapter(history)
    {
      history := history + [Offer(attribute.id, attribute.count, capacity)];
      answer := adapter(history);
    }
  }

  /** The part of an attribute's metadata a fetch looks at. */
  datatype Target = Target(id: nat, valueType: ValueType)

  /** The result of a fetch: its outcome, the attribute read, and the offers made by then. */
  datatype Fetched = Fetched(outcome: FetchOutcome, attribute: Attribute, history: seq<Offer>)

  function Failure(status: int32, attribute: Attribute, history: seq<Offer>): Fetched {
    Fetched(FetchOutcome(Failed, status), attribute, history)
  }

  /** The count to ask for after an overflow: the reported one, or twice the current one. */
  function NextCount(reported: uint32, current: nat): (c: uint32)
    requires 0 < current <= MAXIMUM_LIST_CAPACITY
    ensures c > current
  {
    if reported > current then reported
    else if current > MAXIMUM_LIST_CAPACITY / 2 then MAXIMUM_LIST_CAPACITY + 1
    else current * 2
  }

  /** The fetch from the point where one call has returned and `attempts` more are allowed. */
  function Retry(adapter: Adapter, history: seq<Offer>, target: Target, capacity: nat, attribute: Attribute,
                 status: int32, attempts: nat): Fetched
    requires capacity <= MAXIMUM_LIST_CAPACITY
    decreases attempts
  {
    if status != BUFFER_OVERFLOW || attempts == 0 then
      Fetched(FetchOutcome(if status == SUCCESS then Ok else Failed, status), attribute, history)
    else if capacity == 0 then Failure(BUFFER_OVERFLOW, attribute, history)
    else
      var count := NextCount(attribute.count, capacity);
      if count > MAXIMUM_LIST_CAPACITY then Failure(NO_MEMORY, attribute, history)
      else
        var offers := history + [Offer(target.id, count, count)];
        match adapter(offers)
        case Threw => Failure(FAILURE, attribute.(count := count), offers)
        case Returned(status, reported, value) =>
          Retry(adapter, offers, target, count, Attribute(target.id, reported, value), status, attempts - 1)
  }

  /** The whole fetch, as a function of the adapter and of what it has been asked before. */
  function Fetch(adapter: Adapter, history: seq<Offer>, target: Target): Fetched {
    if !CanFetch(target.valueType) then
      Fetched(FetchOutcome(Skipped, FAILURE), Attribute(target.id, 0, 0), history)
    else
      var capacity := if IsBuffered(target.valueType) then INITIAL_LIST_CAPACITY else 0;
      var offers := history + [Offer(target.id, capacity, capacity)];
      match adapter(offers)
      case Threw => Failure(FAILURE, Attribute(target.id, capacity, 0), offers)
      case Returned(status, reported, value) =>
        Retry(adapter, offers, target, capacity, Attribute(target.id, reported, value), status, 4)
  }

  method FetchAttribute(target: Target, getter: AttributeGetter, storage: AttributeStorage)
    returns (outcome: FetchOutcome, attribute: Attribute)
    modifies getter`history, storage
    ensures Fetched(outcome, attribute, getter.history)
         == Fetch(getter.adapter, old(getter.history), target)
  {
    outcome := FetchOutcome(Failed, FAILURE);
    attribute := Attribute(target.id, 0, 0);
    if !CanFetch(target.valueType) {
      outcome := outcome.(result := Skipped);
      return;
    }
    SwitchesAgree(target.valueType);
    if IsBuffered(target.valueType) {
      var ok, bound := storage.Bind(target.valueType, INITIAL_LIST_CAPACITY, attribute);
      if !ok {
        outcome := outcome.(result := Skipped);
        return;
      }
      attribute := bound;
    }
    var answer := getter.Get(attribute, storage.Capacity(target.valueType));
    if answer.Threw? {
      return;
    }
    var status := answer.status;
    attribute := attribute.(count := answer.count, value := answer.value);

    var attempt := 0;
    while status == BUFFER_OVERFLOW && attempt < 4
      invariant attempt <= 4
      invariant attribute.id == target.id && outcome == FetchOutcome(Failed, FAILURE)
      invariant storage.Capacity(target.valueType) <= MAXIMUM_LIST_CAPACITY
      invariant storage.Capacity(target.valueType) > 0 <==> IsBuffered(target.valueType)
      invariant Retry(getter.adapter, getter.history, target, storage.Capacity(target.valueType),
                      attribute, status, 4 - attempt)
             == Fetch(getter.adapter, old(getter.history), target)
    {
      var required := BufferCount(target.valueType, attribute);
      var current := storage.Capacity(target.valueType);
      if current == 0 {
        outcome := outcome.(status := status);
        return;
      }
      if required <= current {
        required := if current > MAXIMUM_LIST_CAPACITY / 2 then MAXIMUM_LIST_CAPACITY + 1 else current * 2;
      }
      var ok, bound := storage.Bind(target.valueType, required, attribute);
      if !ok {
        outcome := outcome.(status := NO_MEMORY);
        return;
      }
      attribute := bound;
      answer := getter.Get(attribute, storage.Capacity(target.valueType));
      if answer.Threw? {
        return;
      }
      status := answer.status;
      attribute := attribute.(count := answer.count, value := answer.value);
      attempt := attempt + 1;
    }
    outcome := FetchOutcome(if status == SUCCESS then Ok else Failed, status);
  }

  // ----- any adapter

  lemma {:induction false} RetryOkIffSuccess(adapter: Adapter, history: seq<Offer>, target: Target, capacity: nat,
                                             attribute: Attribute, status: int32, attempts: nat)
    requires capacity <= MAXIMUM_LIST_CAPACITY
    ensures var f := Retry(adapter, history, target, capacity, attribute, status, attempts);
            && (f.outcome.result == Ok <==> f.outcome.status == SUCCESS)
            && f.outcome.result != Skipped
            && (attribute.id == target.id ==> f.attribute.id == target.id)
    decreases attempts
  {
    if status == BUFFER_OVERFLOW && attempts > 0 && capacity > 0 {
      var count := NextCount(attribute.count, capacity);
      if count <= MAXIMUM_LIST_CAPACITY {
        var offers := history + [Offer(target.id, count, count)];
        match adapter(offers)
        case Threw =>
        case Returned(status, reported, value) =>
          RetryOkIffSuccess(adapter, offers, target, count, Attribute(target.id, reported, value), status, attempts - 1);
      }
    }
  }

  /** A fetch is Ok exactly when its status is SUCCESS, and Skipped exactly when the tool cannot ask. */
  lemma FetchOkIffSuccess(adapter: Adapter, history: seq<Offer>, target: Target)
    ensures var f := Fetch(adapter, history, target);
            && (f.outcome.result == Ok <==> f.outcome.status == SUCCESS)
            && (f.outcome.result == Skipped <==> target.valueType in UNFETCHABLE_TYPES)
            && f.attribute.id == target.id
  {
    TypesAreExact(target.valueType);
    if CanFetch(target.valueType) {
      var capacity := if IsBuffered(target.valueType) then INITIAL_LIST_CAPACITY else 0;
      var offers := history + [Offer(target.id, capacity, capacity)];
      match adapter(offers)
      case Threw =>
      case Returned(status, reported, value) =>
        RetryOkIffSuccess(adapter, offers, target, capacity, Attribute(target.id, reported, value), status, 4);
    }
  }

  /** The outcome of a fetch is that of its last call; an overflow may end as NO_MEMORY instead. */
  ghost predicate ReportsLastCall(adapter: Adapter, f: Fetched, target: Target)
    requires f.history != []
  {
    var last := f.history[|f.history| - 1];
    match adapter(f.history)
    case Threw => f.outcome == FetchOutcome(Failed, FAILURE)
    case Returned(status, count, value) =>
      && f.attribute == Attribute(target.id, count, value)
      && (f.outcome.status == status
          || (status == BUFFER_OVERFLOW && f.outcome.status == NO_MEMORY && IsBuffered(target.valueType)
              && (count > MAXIMUM_LIST_CAPACITY || 2 * last.capacity > MAXIMUM_LIST_CAPACITY)))
  }

  lemma {:induction false} RetryReports(adapter: Adapter, history: seq<Offer>, target: Target, capacity: nat,
                                        attribute: Attribute, status: int32, attempts: nat)
    requires capacity <= MAXIMUM_LIST_CAPACITY && (capacity > 0 ==> IsBuffered(target.valueType))
    requires history != [] && history[|history| - 1].capacity == capacity && attribute.id == target.id
    requires adapter(history) == Returned(status, attribute.count, attribute.value)
    ensures var f := Retry(adapter, history, target, capacity, attribute, status, attempts);
            f.history != [] && ReportsLastCall(adapter, f, target)
    decreases attempts
  {
    if status == BUFFER_OVERFLOW && attempts > 0 && capacity > 0 {
      var count := NextCount(attribute.count, capacity);
      if count <= MAXIMUM_LIST_CAPACITY {
        var offers := history + [Offer(target.id, count, count)];
        match adapter(offers)
        case Threw =>
        case Returned(status, reported, value) =>
          RetryReports(adapter, offers, target, count, Attribute(target.id, reported, value), status, attempts - 1);
      }
    }
  }

  /** Whatever the adapter does, a fetch reports its last call, and that only. */
  lemma FetchReportsItsLastCall(adapter: Adapter, history: seq<Offer>, target: Target)
    requires target.valueType !in UNFETCHABLE_TYPES
    ensures var f := Fetch(adapter, history, target);
            f.history != [] && ReportsLastCall(adapter, f, target)
  {
    TypesAreExact(target.valueType);
    var capacity := if IsBuffered(target.valueType) then INITIAL_LIST_CAPACITY else 0;
    var offers := history + [Offer(target.id, capacity, capacity)];
    match adapter(offers)
    case Threw =>
    case Returned(status, reported, value) =>
      RetryReports(adapter, offers, target, capacity, Attribute(target.id, reported, value), status, 4);
  }

  /** The offers of one fetch of a list: the count is the storage behind it, and it only grows. */
  ghost predicate GrowingOffers(offers: seq<Offer>, id: nat) {
    && (forall i :: 0 <= i < |offers| ==>
          offers[i].id == id && offers[i].count == offers[i].capacity
          && INITIAL_LIST_CAPACITY <= offers[i].capacity <= MAXIMUM_LIST_CAPACITY)
    && (forall i, j :: 0 <= i < j < |offers| ==> offers[i].capacity < offers[j].capacity)
  }

  lemma {:induction false} RetryOffersGrow(adapter: Adapter, before: seq<Offer>, offers: seq<Offer>, target: Target,
                                           attribute: Attribute, status: int32, attempts: nat)
    requires IsBuffered(target.valueType)
    requires offers != [] && GrowingOffers(offers, target.id)
    ensures var f := Retry(adapter, before + offers, target, offers[|offers| - 1].capacity, attribute, status, attempts);
            && |before| + |offers| <= |f.history| <= |before| + |offers| + attempts
            && f.history[..|before|] == before
            && GrowingOffers(f.history[|before|..], target.id)
    decreases attempts
  {
    var capacity := offers[|offers| - 1].capacity;
    assert (before + offers)[|before|..] == offers && (before + offers)[..|before|] == before;
    if status == BUFFER_OVERFLOW && attempts > 0 {
      var count := NextCount(attribute.count, capacity);
      if count <= MAXIMUM_LIST_CAPACITY {
        var more := offers + [Offer(target.id, count, count)];
        assert before + offers + [Offer(target.id, count, count)] == before + more;
        assert (before + more)[|before|..] == more && (before + more)[..|before|] == before;
        match adapter(before + more)
        case Threw =>
        case Returned(status, reported, value) =>
          RetryOffersGrow(adapter, before, more, target, Attribute(target.id, reported, value), status, attempts - 1);
      }
    }
  }

  /**
    Whatever the adapter does, a fetch only adds to the history. It makes at most five calls to
    read a list, each offering a count equal to the storage behind it, with capacities that
    strictly grow from 64 and stay within 2^20; one call to read anything else; and no call at
    all for a type it cannot ask for.
   */
  lemma FetchOffers(adapter: Adapter, history: seq<Offer>, target: Target)
    ensures var f := Fetch(adapter, history, target);
            && |history| <= |f.history| && f.history[..|history|] == history
            && var offers := f.history[|history|..];
            && (target.valueType in LIST_TYPES ==>
                  1 <= |offers| <= 5 && GrowingOffers(offers, target.id)
                  && offers[0].capacity == INITIAL_LIST_CAPACITY)
            && (target.valueType !in LIST_TYPES + UNFETCHABLE_TYPES ==> offers == [Offer(target.id, 0, 0)])
            && (target.valueType in UNFETCHABLE_TYPES ==> offers == [])
  {
    TypesAreExact(target.valueType);
    SwitchesAgree(target.valueType);
    hide LIST_TYPES, UNFETCHABLE_TYPES, IsBuffered, CanFetch;
    if IsBuffered(target.valueType) {
      var first := [Offer(target.id, INITIAL_LIST_CAPACITY, INITIAL_LIST_CAPACITY)];
      assert (history + first)[|history|..] == first;
      match adapter(history + first)
      case Threw =>
      case Returned(status, reported, value) =>
        RetryOffersGrow(adapter, history, first, target, Attribute(target.id, reported, value), status, 4);
        var f := Fetch(adapter, history, target);
        RetryKeepsHistory(adapter, history + first, target, INITIAL_LIST_CAPACITY,
                          Attribute(target.id, reported, value), status, 4);
        assert f.history[|history|] == (history + first)[|history|];
    } else if CanFetch(target.valueType) {
      assert (history + [Offer(target.id, 0, 0)])[|history|..] == [Offer(target.id, 0, 0)];
    } else {
      assert history[|history|..] == [];
    }
  }

  lemma {:induction false} RetryKeepsHistory(adapter: Adapter, history: seq<Offer>, target: Target, capacity: nat,
                                             attribute: Attribute, status: int32, attempts: nat)
    requires capacity <= MAXIMUM_LIST_CAPACITY
    ensures history <= Retry(adapter, history, target, capacity, attribute, status, attempts).history
    decreases attempts
  {
    if status == BUFFER_OVERFLOW && attempts > 0 && capacity > 0 {
      var count := NextCount(attribute.count, capacity);
      if count <= MAXIMUM_LIST_CAPACITY {
        var offers := history + [Offer(target.id, count, count)];
        match adapter(offers)
        case Threw =>
        case Returned(status, reported, value) =>
          RetryKeepsHistory(adapter, offers, target, count, Attribute(target.id, reported, value), status, attempts - 1);
      }
    }
  }

  /**
    For any adapter: a fetch is skipped, without a call, exactly for the eleven types that cannot
    be asked for. For every other type there is a call, and the fetch reports the last one.
   */
  lemma SkippedExactly(adapter: Adapter, history: seq<Offer>, target: Target)
    ensures var f := Fetch(adapter, history, target);
            && (f.outcome.result == Skipped <==> target.valueType in UNFETCHABLE_TYPES)
            && (target.valueType in UNFETCHABLE_TYPES ==> f.history == history)
            && (target.valueType !in UNFETCHABLE_TYPES ==>
                  |f.history| > |history| && ReportsLastCall(adapter, f, target))
  {
    hide Fetch, CanFetch, IsBuffered;
    TypesAreExact(target.valueType);
    FetchOkIffSuccess(adapter, history, target);
    FetchOffers(adapter, history, target);
    if CanFetch(target.valueType) {
      FetchReportsItsLastCall(adapter, history, target);
    } else {
      NothingAsked(adapter, history, target);
    }
  }

  lemma NothingAsked(adapter: Adapter, history: seq<Offer>, target: Target)
    ensures !CanFetch(target.valueType) ==> Fetch(adapter, history, target).history == history
  {
  }

  // ----- when a fetch goes on, and when it gives up

  /** An overflow answered the call that ends at `n`, and the next one offers what it asked for. */
  ghost predicate GrownByTheRule(adapter: Adapter, history: seq<Offer>, n: nat)
    requires 0 < n < |history|
  {
    var answer, offered := adapter(history[..n]), history[n - 1].capacity;
    && answer.Returned? && answer.status == BUFFER_OVERFLOW
    && history[n].capacity == (if answer.count > offered then answer.count else 2 * offered)
  }

  /** A list is given up on with an overflow only after five calls, or when it wants more than 2^20. */
  ghost predicate GivesUpInTime(adapter: Adapter, f: Fetched, calls: nat)
    requires f.history != []
  {
    var answer, offered := adapter(f.history), f.history[|f.history| - 1].capacity;
    answer.Returned? && answer.status == BUFFER_OVERFLOW ==>
      var wanted := if answer.count > offered then answer.count else 2 * offered;
      if f.outcome.status == BUFFER_OVERFLOW then calls == 5
      else f.outcome.status == NO_MEMORY && wanted > MAXIMUM_LIST_CAPACITY
  }

  lemma {:induction false} RetryFollowsTheRule(adapter: Adapter, before: nat, history: seq<Offer>, target: Target,
                                               attribute: Attribute, status: int32, attempts: nat)
    requires IsBuffered(target.valueType) && before < |history| == before + 5 - attempts
    requires 0 < history[|history| - 1].capacity <= MAXIMUM_LIST_CAPACITY
    requires adapter(history) == Returned(status, attribute.count, attribute.value)
    requires forall n :: before < n < |history| ==> GrownByTheRule(adapter, history, n)
    ensures var f := Retry(adapter, history, target, history[|history| - 1].capacity, attribute, status, attempts);
            && |f.history| >= |history|
            && (forall n :: before < n < |f.history| ==> GrownByTheRule(adapter, f.history, n))
            && GivesUpInTime(adapter, f, |f.history| - before)
    decreases attempts
  {
    var capacity := history[|history| - 1].capacity;
    if status == BUFFER_OVERFLOW && attempts > 0 {
      var count := NextCount(attribute.count, capacity);
      if count <= MAXIMUM_LIST_CAPACITY {
        var offers := history + [Offer(target.id, count, count)];
        forall n | before < n < |offers|
          ensures GrownByTheRule(adapter, offers, n)
        {
          if n < |history| {
            assert offers[..n] == history[..n];
            assert GrownByTheRule(adapter, history, n);
          } else {
            assert offers[..n] == history;
          }
        }
        match adapter(offers)
        case Threw =>
        case Returned(status, reported, value) =>
          RetryFollowsTheRule(adapter, before, offers, target, Attribute(target.id, reported, value), status, attempts - 1);
      }
    }
  }

  /**
    For any adapter, a list is asked for again exactly as the answers demand: each further call
    follows an overflow and offers the reported count if that is larger, or else twice as much;
    and the overflow is the end only after five calls, or when more than 2^20 is wanted.
   */
  lemma FetchFollowsTheRule(adapter: Adapter, history: seq<Offer>, target: Target)
    requires target.valueType in LIST_TYPES
    ensures var f := Fetch(adapter, history, target);
            && |f.history| > |history|
            && (forall n :: |history| < n < |f.history| ==> GrownByTheRule(adapter, f.history, n))
            && GivesUpInTime(adapter, f, |f.history| - |history|)
  {
    TypesAreExact(target.valueType);
    var offers := history + [Offer(target.id, INITIAL_LIST_CAPACITY, INITIAL_LIST_CAPACITY)];
    hide LIST_TYPES;
    match adapter(offers)
    case Threw =>
    case Returned(status, reported, value) =>
      RetryFollowsTheRule(adapter, |history|, offers, target, Attribute(target.id, reported, value), status, 4);
  }

  // ----- adapters that hold a list of n elements

  /** Reports the size it needs when the buffer is too small. */
  ghost predicate Honest(adapter: Adapter, n: uint32) {
    forall history, o: Offer :: var a := adapter(history + [o]);
      && a.Returned? && a.count == n
      && a.status == (if n <= o.capacity then SUCCESS else BUFFER_OVERFLOW)
  }

  /** Leaves the count as offered when the buffer is too small. */
  ghost predicate Silent(adapter: Adapter, n: uint32) {
    forall history, o: Offer :: var a := adapter(history + [o]);
      && a.Returned? && a.count == (if n <= o.capacity then n else o.count)
      && a.status == (if n <= o.capacity then SUCCESS else BUFFER_OVERFLOW)
  }

  /**
    Against an honest adapter a list of n elements is read exactly when n <= 2^20, in one call
    if it fits the first buffer and in two otherwise; a larger one costs one call and NO_MEMORY.
   */
  lemma HonestFetch(adapter: Adapter, history: seq<Offer>, target: Target, n: uint32)
    requires target.valueType in LIST_TYPES && Honest(adapter, n)
    ensures var f := Fetch(adapter, history, target);
            && (f.outcome.result == Ok <==> n <= 0x10_0000)
            && (f.outcome.result == Ok ==> f.attribute.count == n)
            && (f.outcome.result != Ok ==> f.outcome.status == NO_MEMORY)
            && |f.history| == |history| + (if 64 < n <= 0x10_0000 then 2 else 1)
  {
    TypesAreExact(target.valueType);
    hide LIST_TYPES;
    var first := Offer(target.id, INITIAL_LIST_CAPACITY, INITIAL_LIST_CAPACITY);
    var a := adapter(history + [first]);
    assert a.Returned? && a.count == n;
    var attribute := Attribute(target.id, n, a.value);
    if INITIAL_LIST_CAPACITY < n <= MAXIMUM_LIST_CAPACITY {
      var offers := history + [first] + [Offer(target.id, n, n)];
      var b := adapter(offers);
      assert b.Returned? && b.status == SUCCESS && b.count == n;
      assert Fetch(adapter, history, target)
          == Retry(adapter, offers, target, n, Attribute(target.id, n, b.value), SUCCESS, 3);
    } else {
      assert Fetch(adapter, history, target)
          == Retry(adapter, history + [first], target, INITIAL_LIST_CAPACITY, attribute, a.status, 4);
    }
  }

  lemma {:induction false} SilentRetry(adapter: Adapter, history: seq<Offer>, target: Target, capacity: nat,
                                       attribute: Attribute, n: uint32, attempts: nat)
    requires IsBuffered(target.valueType) && Silent(adapter, n)
    requires 0 < capacity <= MAXIMUM_LIST_CAPACITY
    requires attribute.count == (if n <= capacity then n else capacity)
    ensures var f := Retry(adapter, history, target, capacity, attribute,
                           if n <= capacity then SUCCESS else BUFFER_OVERFLOW, attempts);
            && (f.outcome.result == Ok <==> n <= Limit(capacity, attempts))
            && (f.outcome.result == Ok ==> f.attribute.count == n)
    decreases attempts
  {
    if n > capacity && attempts > 0 && 2 * capacity <= MAXIMUM_LIST_CAPACITY {
      var offer := Offer(target.id, capacity * 2, capacity * 2);
      var a := adapter(history + [offer]);
      assert a.Returned?;
      SilentRetry(adapter, history + [offer], target, capacity * 2, Attribute(target.id, a.count, a.value), n, attempts - 1);
    }
  }

  /** Against a silent adapter the four doublings reach 1024 elements and no further. */
  lemma SilentFetch(adapter: Adapter, history: seq<Offer>, target: Target, n: uint32)
    requires target.valueType in LIST_TYPES && Silent(adapter, n)
    ensures var f := Fetch(adapter, history, target);
            && (f.outcome.result == Ok <==> n <= 1024)
            && (f.outcome.result == Ok ==> f.attribute.count == n)
  {
    TypesAreExact(target.valueType);
    hide LIST_TYPES;
    var first := Offer(target.id, INITIAL_LIST_CAPACITY, INITIAL_LIST_CAPACITY);
    var a := adapter(history + [first]);
    assert a.Returned?;
    assert Limit(64, 4) == Limit(128, 3) == Limit(256, 2) == Limit(512, 1) == Limit(1024, 0) == 1024;
    SilentRetry(adapter, history + [first], target, INITIAL_LIST_CAPACITY,
                Attribute(target.id, a.count, a.value), n, 4);
  }
}

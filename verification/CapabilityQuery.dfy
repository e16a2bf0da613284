/** The three list-valued capability queries: enum values, statistics, stream-telemetry statistics. */
module CapabilityQuery {
  import opened Text
  import opened SaiStatus
  import opened AttributeTypes
  import opened Doubling

  /** What one adapter call is given: what it is asked about, and the size of the list to fill. */
  datatype Offer<K> = Offer(key: K, capacity: nat)

  /** What one adapter call leaves behind; a call that throws leaves a count too. */
  datatype Answer<V> = Answer(threw: bool, status: int32, count: uint32, written: seq<V>)

  /** An arbitrary stateful adapter. */
  type Adapter<!K, V> = seq<Offer<K>> -> Answer<V>

  datatype QueryResult<V> = QueryResult(status: int32, values: seq<V>, requiredCount: uint32)

  /** The result of a query, and the offers made by the end of it. */
  datatype Run<K, V> = Run(result: QueryResult<V>, history: seq<Offer<K>>)

  class CapabilityAdapter<!K, V> {
    const respond: Adapter<K, V>
    var history: seq<Offer<K>>

    constructor (respond: Adapter<K, V>)
      ensures this.respond == respond && history == []
    {
      this.respond := respond;
      history := [];
    }

    method Query(key: K, capacity: nat) returns (answer: Answer<V>)
      modifies this
      ensures history == old(history) + [Offer(key, capacity)]
      ensures answer == respond(history)
    {
      history := history + [Offer(key, capacity)];
      answer := respond(history);
    }
  }

  /** A zeroed list of `capacity` entries with the front overwritten. */
  function Filled<V>(written: seq<V>, capacity: nat, zero: V): (s: seq<V>)
    ensures |s| == capacity
  {
    if |written| >= capacity then written[..capacity]
    else written + seq(capacity - |written|, _ => zero)
  }

  function Min(a: nat, b: nat): nat {
    if a <= b then a else b
  }

  /** The status a call counts as: one that throws counts as a failure. */
  function StatusOf<V>(answer: Answer<V>): int32 {
    if answer.threw then FAILURE else answer.status
  }

  /** The capacity to retry with after an overflow, if it is worth retrying. */
  function NextCapacity(count: uint32, capacity: nat): Option<nat> {
    if count <= capacity then
      if capacity > MAXIMUM_LIST_CAPACITY / 2 then None else Some(capacity * 2)
    else if count > MAXIMUM_LIST_CAPACITY then None
    else Some(count)
  }

  /** The negotiation from a given capacity with `attempts` calls left, after the given last answer. */
  function Negotiate<K, V>(respond: Adapter<K, V>, history: seq<Offer<K>>, key: K, zero: V, capacity: nat,
                           attempts: nat, status: int32, count: uint32): Run<K, V>
    decreases attempts
  {
    if attempts == 0 then Run(QueryResult(status, [], count), history)
    else
      var offers := history + [Offer(key, capacity)];
      var answer := respond(offers);
      var status := StatusOf(answer);
      if status == SUCCESS then
        Run(QueryResult(SUCCESS, Filled(answer.written, capacity, zero)[..Min(answer.count, capacity)], answer.count), offers)
      else if status != BUFFER_OVERFLOW then Run(QueryResult(status, [], answer.count), offers)
      else match NextCapacity(answer.count, capacity)
        case None => Run(QueryResult(status, [], answer.count), offers)
        case Some(next) => Negotiate(respond, offers, key, zero, next, attempts - 1, status, answer.count)
  }

  function Query<K, V>(respond: Adapter<K, V>, history: seq<Offer<K>>, key: K, zero: V, initial: nat): Run<K, V> {
    Negotiate(respond, history, key, zero, initial, 5, FAILURE, 0)
  }

  /** max(64, static_cast<uint32_t>(valuescount + 16)), or 64 without an enum. */
  function InitialCapacity(valuesCount: Option<nat>): (c: uint32)
    ensures c >= INITIAL_LIST_CAPACITY
  {
    match valuesCount
    case None => INITIAL_LIST_CAPACITY
    case Some(n) =>
      var c := (n + 16) % 0x1_0000_0000;
      if c < INITIAL_LIST_CAPACITY then INITIAL_LIST_CAPACITY else c
  }

  /**
    Room for every value of the enum and sixteen more, and never less than 64, up to where the
    32-bit sum wraps; an enum so large that it does gets what is left of the sum, or 64.
   */
  lemma InitialCapacityHoldsTheEnum(n: nat)
    ensures InitialCapacity(None) == 64
    ensures n < 0xFFFF_FFF0 ==> InitialCapacity(Some(n)) == (if n < 48 then 64 else n + 16)
    ensures 0xFFFF_FFF0 <= n < 0xFFFF_FFF0 + 0x1_0000_0000 ==>
              InitialCapacity(Some(n)) == (if n - 0xFFFF_FFF0 < 64 then 64 else n - 0xFFFF_FFF0)
    ensures InitialCapacity(Some(n + 0x1_0000_0000)) == InitialCapacity(Some(n))
  {
  }

  datatype StatCapability = StatCapability(stat: int32, modes: bv32)
  datatype StatStCapability = StatStCapability(stat: int32, modes: bv32, minimalPollingInterval: uint64)

  const ZERO_STAT := StatCapability(0, 0)
  const ZERO_STAT_ST := StatStCapability(0, 0, 0)

  /** Entries an adapter does not fill in read as zeros throughout. */
  lemma ZeroEntries()
    ensures ZERO_STAT.stat == 0 && ZERO_STAT.modes == 0
    ensures ZERO_STAT_ST.stat == 0 && ZERO_STAT_ST.modes == 0 && ZERO_STAT_ST.minimalPollingInterval == 0
  {
  }

  method QueryEnumCapability<K>(adapter: CapabilityAdapter<K, int32>, key: K, valuesCount: Option<nat>)
    returns (result: QueryResult<int32>)
    modifies adapter
    ensures Run(result, adapter.history)
         == Query(adapter.respond, old(adapter.history), key, 0, InitialCapacity(valuesCount))
  {
    var capacity: nat := InitialCapacity(valuesCount);
    result := QueryResult(FAILURE, [], 0);
    for attempt := 0 to 5
      invariant Negotiate(adapter.respond, adapter.history, key, 0, capacity, 5 - attempt,
                          result.status, result.requiredCount)
             == Query(adapter.respond, old(adapter.history), key, 0, InitialCapacity(valuesCount))
    {
      var answer := adapter.Query(key, capacity);
      result := QueryResult(StatusOf(answer), Filled(answer.written, capacity, 0), answer.count);
      if result.status != BUFFER_OVERFLOW {
        if result.status == SUCCESS {
          result := result.(values := result.values[..Min(answer.count, capacity)]);
        } else {
          result := result.(values := []);
        }
        return;
      }
      if answer.count <= capacity {
        if capacity > MAXIMUM_LIST_CAPACITY / 2 {
          break;
        }
        capacity := capacity * 2;
      } else {
        capacity := answer.count;
      }
      if capacity > MAXIMUM_LIST_CAPACITY {
        break;
      }
    }
    result := result.(values := []);
  }

  method QueryStatsCapability<K>(adapter: CapabilityAdapter<K, StatCapability>, key: K, valuesCount: Option<nat>)
    returns (result: QueryResult<StatCapability>)
    modifies adapter
    ensures Run(result, adapter.history)
         == Query(adapter.respond, old(adapter.history), key, ZERO_STAT, InitialCapacity(valuesCount))
  {
    var capacity: nat := InitialCapacity(valuesCount);
    result := QueryResult(FAILURE, [], 0);
    for attempt := 0 to 5
      invariant Negotiate(adapter.respond, adapter.history, key, ZERO_STAT, capacity, 5 - attempt,
                          result.status, result.requiredCount)
             == Query(adapter.respond, old(adapter.history), key, ZERO_STAT, InitialCapacity(valuesCount))
    {
      var answer := adapter.Query(key, capacity);
      result := QueryResult(StatusOf(answer), Filled(answer.written, capacity, ZERO_STAT), answer.count);
      if result.status != BUFFER_OVERFLOW {
        if result.status == SUCCESS {
          result := result.(values := result.values[..Min(answer.count, capacity)]);
        } else {
          result := result.(values := []);
        }
        return;
      }
      if answer.count <= capacity {
        if capacity > MAXIMUM_LIST_CAPACITY / 2 {
          break;
        }
        capacity := capacity * 2;
      } else {
        capacity := answer.count;
      }
      if capacity > MAXIMUM_LIST_CAPACITY {
        break;
      }
    }
    result := result.(values := []);
  }

  method QueryStatsStCapability<K>(adapter: CapabilityAdapter<K, StatStCapability>, key: K, valuesCount: Option<nat>)
    returns (result: QueryResult<StatStCapability>)
    modifies adapter
    ensures Run(result, adapter.history)
         == Query(adapter.respond, old(adapter.history), key, ZERO_STAT_ST, InitialCapacity(valuesCount))
  {
    var capacity: nat := InitialCapacity(valuesCount);
    result := QueryResult(FAILURE, [], 0);
    for attempt := 0 to 5
      invariant Negotiate(adapter.respond, adapter.history, key, ZERO_STAT_ST, capacity, 5 - attempt,
                          result.status, result.requiredCount)
             == Query(adapter.respond, old(adapter.history), key, ZERO_STAT_ST, InitialCapacity(valuesCount))
    {
      var answer := adapter.Query(key, capacity);
      result := QueryResult(StatusOf(answer), Filled(answer.written, capacity, ZERO_STAT_ST), answer.count);
      if result.status != BUFFER_OVERFLOW {
        if result.status == SUCCESS {
          result := result.(values := result.values[..Min(answer.count, capacity)]);
        } else {
          result := result.(values := []);
        }
        return;
      }
      if answer.count <= capacity {
        if capacity > MAXIMUM_LIST_CAPACITY / 2 {
          break;
        }
        capacity := capacity * 2;
      } else {
        capacity := answer.count;
      }
      if capacity > MAXIMUM_LIST_CAPACITY {
        break;
      }
    }
    result := result.(values := []);
  }

  // ----- any adapter

  ghost predicate GrowingOffers<K>(offers: seq<Offer<K>>, key: K, initial: nat) {
    && (forall i :: 0 <= i < |offers| ==>
          offers[i].key == key
          && (offers[i].capacity <= initial || offers[i].capacity <= MAXIMUM_LIST_CAPACITY))
    && (forall i, j :: 0 <= i < j < |offers| ==> offers[i].capacity < offers[j].capacity)
  }

  lemma {:induction false} NegotiationOffers<K, V>(respond: Adapter<K, V>, before: seq<Offer<K>>, offers: seq<Offer<K>>,
      key: K, zero: V, initial: nat, capacity: nat, attempts: nat, status: int32, count: uint32)
    requires GrowingOffers(offers + [Offer(key, capacity)], key, initial) && capacity > 0
    ensures var r := Negotiate(respond, before + offers, key, zero, capacity, attempts, status, count);
            && |before| + |offers| <= |r.history| <= |before| + |offers| + attempts
            && before + offers <= r.history
            && (attempts > 0 ==> before + offers + [Offer(key, capacity)] <= r.history)
            && GrowingOffers(r.history[|before|..], key, initial)
    decreases attempts
  {
    assert (before + offers)[|before|..] == offers;
    assert forall i :: 0 <= i < |offers| ==> (offers + [Offer(key, capacity)])[i] == offers[i];
    if attempts > 0 {
      var more := offers + [Offer(key, capacity)];
      assert before + offers + [Offer(key, capacity)] == before + more;
      assert (before + more)[|before|..] == more;
      var answer := respond(before + more);
      var status := StatusOf(answer);
      if status == BUFFER_OVERFLOW {
        var next := NextCapacity(answer.count, capacity);
        if next.Some? {
          assert more[|offers|].capacity == capacity;
          assert forall i :: 0 <= i < |more| ==> more[i].capacity <= capacity < next.value;
          assert GrowingOffers(more + [Offer(key, next.value)], key, initial);
          NegotiationOffers(respond, before, more, key, zero, initial, next.value, attempts - 1, status, answer.count);
        }
      }
    }
  }

  /**
    Whatever the adapter does, a query makes between one and five calls; the first offers the
    initial capacity, the capacities strictly grow, and none exceeds both that and 2^20.
   */
  lemma QueryOffers<K, V>(respond: Adapter<K, V>, history: seq<Offer<K>>, key: K, zero: V, initial: nat)
    requires initial > 0
    ensures var r := Query(respond, history, key, zero, initial);
            && history + [Offer(key, initial)] <= r.history
            && |r.history| <= |history| + 5
            && GrowingOffers(r.history[|history|..], key, initial)
  {
    assert history + [] == history;
    NegotiationOffers(respond, history, [], key, zero, initial, initial, 5, FAILURE, 0);
    assert history + [] + [Offer(key, initial)] == history + [Offer(key, initial)];
  }

  /**
    The result is that of the last call: values only on SUCCESS, as many as counted and never more
    than fit, each as the call left it in the zeroed list.
   */
  ghost predicate ResultOfLastCall<K, V>(respond: Adapter<K, V>, r: Run<K, V>, zero: V)
    requires r.history != []
  {
    var last, answer := r.history[|r.history| - 1], respond(r.history);
    && r.result.status == (if answer.threw then -1 else answer.status) && r.result.requiredCount == answer.count
    && (r.result.status == SUCCESS ==>
          && |r.result.values| == (if answer.count < last.capacity then answer.count else last.capacity)
          && forall i :: 0 <= i < |r.result.values| ==>
               r.result.values[i] == (if i < |answer.written| then answer.written[i] else zero))
    && (r.result.status != SUCCESS ==> r.result.values == [])
  }

  lemma {:induction false} NegotiationResult<K, V>(respond: Adapter<K, V>, history: seq<Offer<K>>, key: K, zero: V,
                                                   capacity: nat, attempts: nat, status: int32, count: uint32)
    requires attempts == 0 ==>
      history != [] && status == BUFFER_OVERFLOW && StatusOf(respond(history)) == status && respond(history).count == count
    ensures var r := Negotiate(respond, history, key, zero, capacity, attempts, status, count);
            r.history != [] && ResultOfLastCall(respond, r, zero)
    decreases attempts
  {
    if attempts > 0 {
      var offers := history + [Offer(key, capacity)];
      var answer := respond(offers);
      if StatusOf(answer) == BUFFER_OVERFLOW && NextCapacity(answer.count, capacity).Some? {
        NegotiationResult(respond, offers, key, zero, NextCapacity(answer.count, capacity).value, attempts - 1,
                          StatusOf(answer), answer.count);
      }
    }
  }

  lemma QueryReportsItsLastCall<K, V>(respond: Adapter<K, V>, history: seq<Offer<K>>, key: K, zero: V, initial: nat)
    ensures var r := Query(respond, history, key, zero, initial);
            r.history != [] && ResultOfLastCall(respond, r, zero)
  {
    NegotiationResult(respond, history, key, zero, initial, 5, FAILURE, 0);
  }

  // ----- when a query goes on, and when it gives up

  /** An overflow answered the call that ends at `n`, and the next one offers what it asked for. */
  ghost predicate GrownByTheRule<K, V>(respond: Adapter<K, V>, history: seq<Offer<K>>, n: nat)
    requires 0 < n < |history|
  {
    var answer, offered := respond(history[..n]), history[n - 1].capacity;
    && !answer.threw && answer.status == BUFFER_OVERFLOW
    && history[n].capacity == (if answer.count > offered then answer.count else 2 * offered)
  }

  /** An overflow ends a query only after five calls, or when more than 2^20 is wanted. */
  ghost predicate GivesUpInTime<K, V>(respond: Adapter<K, V>, history: seq<Offer<K>>, calls: nat)
    requires history != []
  {
    var answer, offered := respond(history), history[|history| - 1].capacity;
    !answer.threw && answer.status == BUFFER_OVERFLOW ==>
      calls == 5 || (if answer.count > offered then answer.count else 2 * offered) > MAXIMUM_LIST_CAPACITY
  }

  lemma {:induction false} NegotiationFollowsTheRule<K, V>(respond: Adapter<K, V>, before: nat, history: seq<Offer<K>>,
      key: K, zero: V, capacity: nat, attempts: nat, status: int32, count: uint32)
    requires 0 < attempts <= 5 && |history| == before + 5 - attempts
    requires |history| > before ==>
      && !respond(history).threw && respond(history).status == BUFFER_OVERFLOW
      && var offered, reported := history[|history| - 1].capacity, respond(history).count;
         capacity == (if reported > offered then reported else 2 * offered)
    requires forall n :: before < n < |history| ==> GrownByTheRule(respond, history, n)
    ensures var r := Negotiate(respond, history, key, zero, capacity, attempts, status, count);
            && |r.history| > |history|
            && (forall n :: before < n < |r.history| ==> GrownByTheRule(respond, r.history, n))
            && GivesUpInTime(respond, r.history, |r.history| - before)
    decreases attempts
  {
    var offers := history + [Offer(key, capacity)];
    forall n | before < n < |offers|
      ensures GrownByTheRule(respond, offers, n)
    {
      if n < |history| {
        assert offers[..n] == history[..n];
        assert GrownByTheRule(respond, history, n);
      } else {
        assert offers[..n] == history;
      }
    }
    var answer := respond(offers);
    if StatusOf(answer) == BUFFER_OVERFLOW && attempts > 1 {
      var next := NextCapacity(answer.count, capacity);
      if next.Some? {
        NegotiationFollowsTheRule(respond, before, offers, key, zero, next.value, attempts - 1, BUFFER_OVERFLOW, answer.count);
      }
    }
  }

  /**
    For any adapter, a query is repeated exactly as the answers demand: each further call follows
    an overflow and offers the reported count if that is larger, or else twice as much; and the
    overflow is the end only after five calls, or when more than 2^20 is wanted.
   */
  lemma QueryFollowsTheRule<K, V>(respond: Adapter<K, V>, history: seq<Offer<K>>, key: K, zero: V, initial: nat)
    ensures var r := Query(respond, history, key, zero, initial);
            && |r.history| > |history|
            && (forall n :: |history| < n < |r.history| ==> GrownByTheRule(respond, r.history, n))
            && GivesUpInTime(respond, r.history, |r.history| - |history|)
  {
    NegotiationFollowsTheRule(respond, |history|, history, key, zero, initial, 5, FAILURE, 0);
  }

  // ----- adapters that hold a list of values

  ghost predicate Honest<K(!new), V>(respond: Adapter<K, V>, list: seq<V>) {
    forall history, o: Offer<K> :: var a := respond(history + [o]);
      && !a.threw && a.count == |list|
      && (if |list| <= o.capacity then a.status == SUCCESS && a.written == list else a.status == BUFFER_OVERFLOW)
  }

  ghost predicate Silent<K(!new), V>(respond: Adapter<K, V>, list: seq<V>) {
    forall history, o: Offer<K> :: var a := respond(history + [o]);
      && !a.threw && a.count == (if |list| <= o.capacity then |list| else o.capacity)
      && (if |list| <= o.capacity then a.status == SUCCESS && a.written == list else a.status == BUFFER_OVERFLOW)
  }

  lemma FilledHoldsTheList<V>(list: seq<V>, capacity: nat, zero: V)
    requires |list| <= capacity
    ensures Filled(list, capacity, zero)[..Min(|list|, capacity)] == list
  {
  }

  /**
    Against an honest adapter the whole list is returned exactly when it fits the initial
    capacity or 2^20, in at most two calls; otherwise the query ends with the overflow and the
    size it needed.
   */
  lemma HonestQuery<K(!new), V>(respond: Adapter<K, V>, history: seq<Offer<K>>, key: K, zero: V, initial: nat, list: seq<V>)
    requires Honest(respond, list) && initial > 0
    ensures var r := Query(respond, history, key, zero, initial);
            && (r.result.status == SUCCESS <==> |list| <= initial || |list| <= MAXIMUM_LIST_CAPACITY)
            && (r.result.status == SUCCESS ==> r.result.values == list)
            && (r.result.status != SUCCESS ==> r.result.status == BUFFER_OVERFLOW && r.result.values == [])
            && r.result.requiredCount == |list|
            && |r.history| == |history| + (if initial < |list| <= MAXIMUM_LIST_CAPACITY then 2 else 1)
  {
    var offers := history + [Offer(key, initial)];
    var a := respond(offers);
    assert !a.threw;
    if |list| <= initial {
      FilledHoldsTheList(list, initial, zero);
    } else if |list| <= MAXIMUM_LIST_CAPACITY {
      var again := offers + [Offer(key, |list|)];
      var b := respond(again);
      assert !b.threw && b.status == SUCCESS;
      FilledHoldsTheList(list, |list|, zero);
      assert Query(respond, history, key, zero, initial)
          == Negotiate(respond, offers, key, zero, |list|, 4, BUFFER_OVERFLOW, a.count);
    }
  }

  lemma {:induction false} SilentNegotiation<K(!new), V>(respond: Adapter<K, V>, history: seq<Offer<K>>, key: K, zero: V,
      capacity: nat, attempts: nat, status: int32, count: uint32, list: seq<V>)
    requires Silent(respond, list) && capacity > 0 && attempts > 0
    ensures var r := Negotiate(respond, history, key, zero, capacity, attempts, status, count);
            && (r.result.status == SUCCESS <==> |list| <= Limit(capacity, attempts - 1))
            && (r.result.status == SUCCESS ==> r.result.values == list)
    decreases attempts
  {
    var offers := history + [Offer(key, capacity)];
    var a := respond(offers);
    assert !a.threw;
    if |list| <= capacity {
      FilledHoldsTheList(list, capacity, zero);
    } else if 2 * capacity <= MAXIMUM_LIST_CAPACITY && attempts > 1 {
      SilentNegotiation(respond, offers, key, zero, 2 * capacity, attempts - 1, BUFFER_OVERFLOW, a.count, list);
    }
  }

  /**
    Against a silent adapter a list is returned exactly when it has at most initial * 2^k
    elements, where k is the largest number of doublings, at most four, that stays within 2^20.
   */
  lemma SilentQuery<K(!new), V>(respond: Adapter<K, V>, history: seq<Offer<K>>, key: K, zero: V, initial: nat, list: seq<V>, k: nat)
    requires Silent(respond, list) && initial > 0 && LargestDoubling(initial, 4, k)
    ensures var r := Query(respond, history, key, zero, initial);
            && (r.result.status == SUCCESS <==> |list| <= initial * Pow2(k))
            && (r.result.status == SUCCESS ==> r.result.values == list)
  {
    LimitIsLargestDoubling(initial, 4, k);
    SilentNegotiation(respond, history, key, zero, initial, 5, FAILURE, 0, list);
  }
}

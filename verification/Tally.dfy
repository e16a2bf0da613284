/** Counting by label: the std::map<std::string, size_t> behind every failure summary. */
module Tally {

  type Counts = map<string, nat>

  function Count(m: Counts, key: string): nat {
    if key in m then m[key] else 0
  }

  /** ++m[key]: a missing entry starts at zero. */
  function Bump(m: Counts, key: string): Counts {
    m[key := Count(m, key) + 1]
  }

  /** The sum of all entries. */
  ghost function Total(m: Counts): nat
    decreases |m|
  {
    if m == map[] then 0
    else
      var key :| key in m;
      m[key] + Total(m - {key})
  }

  /** The sum does not depend on the order the entries are taken in. */
  lemma {:induction false} TotalWithout(m: Counts, key: string)
    requires key in m
    ensures Total(m) == m[key] + Total(m - {key})
    decreases |m|
  {
    var first :| first in m && Total(m) == m[first] + Total(m - {first});
    if first != key {
      TotalWithout(m - {first}, key);
      TotalWithout(m - {key}, first);
      assert m - {first} - {key} == m - {key} - {first};
    }
  }

  lemma BumpAddsOne(m: Counts, key: string)
    ensures Total(Bump(m, key)) == Total(m) + 1
    ensures forall k :: Count(Bump(m, key), k) == Count(m, k) + (if k == key then 1 else 0)
  {
    var bumped := Bump(m, key);
    TotalWithout(bumped, key);
    if key in m {
      TotalWithout(m, key);
      assert bumped - {key} == m - {key};
    } else {
      assert bumped - {key} == m;
    }
  }
}

/** How far a bounded number of doublings takes a buffer. */
module Doubling {
  import opened AttributeTypes

  /** The last capacity reached from `c` by at most `left` doublings that stay within the maximum. */
  function Limit(c: nat, left: nat): (r: nat)
    ensures c <= r
    decreases left
  {
    if left > 0 && 2 * c <= MAXIMUM_LIST_CAPACITY then Limit(2 * c, left - 1) else c
  }

  function Pow2(k: nat): nat {
    if k == 0 then 1 else 2 * Pow2(k - 1)
  }

  /** `k` is the largest number of doublings, at most `left`, that keep `c` within the maximum. */
  ghost predicate LargestDoubling(c: nat, left: nat, k: nat) {
    && k <= left
    && (k > 0 ==> c * Pow2(k) <= MAXIMUM_LIST_CAPACITY)
    && (k < left ==> c * Pow2(k + 1) > MAXIMUM_LIST_CAPACITY)
  }

  lemma {:induction false} LimitIsLargestDoubling(c: nat, left: nat, k: nat)
    requires LargestDoubling(c, left, k)
    ensures Limit(c, left) == c * Pow2(k)
    decreases left
  {
    if k > 0 {
      DoubledPower(c, k);
      DoubledPower(c, k + 1);
      PowerGrows(2 * c, k - 1);
      assert LargestDoubling(2 * c, left - 1, k - 1);
      LimitIsLargestDoubling(2 * c, left - 1, k - 1);
    } else if left > 0 {
      DoubledPower(c, 1);
      assert c * Pow2(1) == 2 * c * Pow2(0) == 2 * c;
    }
  }

  lemma DoubledPower(c: nat, k: nat)
    requires k > 0
    ensures c * Pow2(k) == 2 * c * Pow2(k - 1)
  {
  }

  lemma {:induction false} PowerGrows(c: nat, k: nat)
    ensures c <= c * Pow2(k)
    decreases k
  {
    if k > 0 {
      PowerGrows(2 * c, k - 1);
      DoubledPower(c, k);
    }
  }
}

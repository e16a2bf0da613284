/** The verdict on a capability claim, and how the states of two conditions combine. */
module Verdicts {

  datatype Agreement = Agree | Contradiction | Unverifiable

  datatype ConditionState = Unknown | Met | NotMet

  function CompareCapabilityWithProbe(claimed: bool, probeOk: bool): Agreement {
    if claimed == probeOk then Agree
    else if claimed && !probeOk then Contradiction
    else Unverifiable
  }

  function CompareAttributeWithProbe(claimedGet: bool, probeOk: bool, conditionallyValid: bool): Agreement {
    if claimedGet == probeOk then Agree
    else if claimedGet && !probeOk then (if conditionallyValid then Unverifiable else Contradiction)
    else Unverifiable
  }

  function CompareAttributeWithCondition(claimedGet: bool, probeOk: bool, conditional: bool,
                                         condition: ConditionState): Agreement {
    if !conditional then CompareAttributeWithProbe(claimedGet, probeOk, false)
    else if claimedGet == probeOk then Agree
    else if claimedGet && !probeOk then (if condition == Met then Contradiction else Unverifiable)
    else Unverifiable
  }

  /** The verdicts, case by case: what is claimed, what the probe shows, and what may excuse a failure. */
  lemma VerdictsAreExact(claimed: bool, probeOk: bool, conditional: bool, condition: ConditionState)
    ensures var v := CompareCapabilityWithProbe(claimed, probeOk);
            && (v == Agree <==> claimed == probeOk)
            && (v == Contradiction <==> claimed && !probeOk) && (v == Unverifiable <==> !claimed && probeOk)
    ensures var v := CompareAttributeWithProbe(claimed, probeOk, conditional);
            && (v == Agree <==> claimed == probeOk)
            && (v == Contradiction <==> claimed && !probeOk && !conditional)
            && (v == Unverifiable <==> (!claimed && probeOk) || (claimed && !probeOk && conditional))
    ensures var v := CompareAttributeWithCondition(claimed, probeOk, conditional, condition);
            && (v == Agree <==> claimed == probeOk)
            && (v == Contradiction <==> claimed && !probeOk && (conditional ==> condition == Met))
            && (v == Unverifiable <==> (!claimed && probeOk) || (claimed && !probeOk && conditional && condition != Met))
  {
  }

  function Combine(a: ConditionState, b: ConditionState): ConditionState {
    if a == NotMet || b == NotMet then NotMet
    else if a == Unknown || b == Unknown then Unknown
    else Met
  }

  /** Could a condition in state `s` turn out to be `truth`? */
  predicate MayBe(s: ConditionState, truth: bool) {
    s == Unknown || (s == Met <==> truth)
  }

  /**
    Combining is strong Kleene conjunction: the result is Met, or NotMet, exactly when every way
    of resolving the Unknowns makes the conjunction true, or false.
   */
  lemma CombineIsKleeneConjunction(a: ConditionState, b: ConditionState)
    ensures Combine(a, b) == Met <==> forall x, y :: MayBe(a, x) && MayBe(b, y) ==> x && y
    ensures Combine(a, b) == NotMet <==> forall x, y :: MayBe(a, x) && MayBe(b, y) ==> !(x && y)
  {
    forall truth: bool
      ensures MayBe(Met, truth) <==> truth
      ensures MayBe(NotMet, truth) <==> !truth
    {
    }
    assert MayBe(Unknown, true) && MayBe(Unknown, false);
    assert MayBe(a, a == Met) && MayBe(b, b == Met);
    assert MayBe(a, a != NotMet) && MayBe(b, b != NotMet);
  }

  /** The verdict once every condition is known. */
  function Decided(claimedGet: bool, probeOk: bool, inForce: bool): Agreement {
    CompareAttributeWithCondition(claimedGet, probeOk, true, if inForce then Met else NotMet)
  }

  /**
    A contradiction is reported exactly when it would be reported under every way of resolving
    the Unknowns, so learning an unknown condition can never retract one.
   */
  lemma ContradictionsAreFinal(claimedGet: bool, probeOk: bool, a: ConditionState, b: ConditionState)
    ensures CompareAttributeWithCondition(claimedGet, probeOk, true, Combine(a, b)) == Contradiction
       <==> forall x, y :: MayBe(a, x) && MayBe(b, y) ==> Decided(claimedGet, probeOk, x && y) == Contradiction
  {
    CombineIsKleeneConjunction(a, b);
    assert MayBe(a, a == Met) && MayBe(b, b == Met);
  }
}

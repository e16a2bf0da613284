/** What the state of a condition list says about the object: in plain terms, test by test. */
module ConditionStates {
  import opened Text
  import opened SaiStatus
  import opened AttributeTypes
  import opened AttributeFetch
  import opened Conditions
  import opened ConditionMeaning
  import opened Verdicts
  import opened ConditionCache
  import opened Snapshot
  import opened LiveVerification
  import opened SnapshotVerification

  // ----- on any adapter: the reads the cache holds

  /** The attribute was read, and its value passes the test. */
  ghost predicate PassesHeld(w: World, c: Condition) {
    c.attrid in w.entries && w.entries[c.attrid].ok && Related(w.entries[c.attrid].attribute.value, c.op, c.value)
  }

  /** The values of all the attributes held. */
  ghost function AllHeld(w: World): map<nat, int> {
    map id | id in w.entries && w.entries[id].ok :: w.entries[id].attribute.value
  }

  /**
    Whenever a list is not Unknown everything it tests was read. Then an AND list is Met exactly
    when every test passes on the values read, an OR list exactly when some test does, and a
    MIXED list exactly when the formula it writes down is true.
   */
  lemma StateMeans(memo: bool, adapter: Adapter, attrs: seq<AttrMeta>, w: World, kind: ConditionType, list: Entries)
    requires Filed(w)
    ensures var (w', state) := ListState(memo, adapter, attrs, w, true, kind, Some(list));
            state != Unknown ==>
              && (forall c :: Some(c) in list ==> c.attrid in w'.entries && w'.entries[c.attrid].ok)
              && (kind == AllOf ==> (state == Met <==> forall c :: Some(c) in list ==> PassesHeld(w', c)))
              && (kind == AnyOf ==> (state == Met <==> exists c :: Some(c) in list && PassesHeld(w', c)))
              && (forall f :: kind == Mixed && Proper(f) && list == Postfix(f) ==> (state == Met <==> True(f, AllHeld(w'))))
              && (kind == NotConditional ==> state == NotMet)
  {
    hide Collect, Related, RpnHolds, True, Postfix, Proper, ListHolds, HeldValues, AllHeld;
    var (w', state) := ListState(memo, adapter, attrs, w, true, kind, Some(list));
    if state != Unknown {
      var got := Collect(memo, adapter, attrs, w, list, []).1.value;
      EvaluatorSeesLiveValues(memo, adapter, attrs, w, kind, list);
      ListedIsReferred(list);
      assert ListHolds(kind, list, Defaults(attrs) + ValuesOf(got)) == ListHolds(kind, list, HeldValues(w', list));
      HeldAgree(w', list);
      ListHoldsAgree(kind, list, HeldValues(w', list), AllHeld(w'));
      ListsMeanHeld(w', list);
    }
  }

  lemma HeldAgree(w: World, list: Entries)
    requires forall id :: Refers(list, id) ==> id in w.entries && w.entries[id].ok
    ensures AgreeOn(list, HeldValues(w, list), AllHeld(w))
  {
  }

  lemma ListsMeanHeld(w: World, list: Entries)
    ensures ListHolds(AllOf, list, AllHeld(w)) <==> forall c :: Some(c) in list ==> PassesHeld(w, c)
    ensures ListHolds(AnyOf, list, AllHeld(w)) <==> exists c :: Some(c) in list && PassesHeld(w, c)
    ensures forall f :: Proper(f) && list == Postfix(f) ==> (ListHolds(Mixed, list, AllHeld(w)) <==> True(f, AllHeld(w)))
    ensures !ListHolds(NotConditional, list, AllHeld(w))
  {
    PlainListsMean(list, AllHeld(w));
    assert forall c: Condition :: Passes(c, AllHeld(w)) <==> PassesHeld(w, c);
    hide Passes, PassesHeld, AllHeld, Proper, Postfix, True;
    forall f | Proper(f) && list == Postfix(f)
      ensures ListHolds(Mixed, list, AllHeld(w)) <==> True(f, AllHeld(w))
    {
      MixedListMeans(f, AllHeld(w));
    }
  }

  lemma ListedIsReferred(list: Entries)
    ensures forall c :: Some(c) in list ==> Refers(list, c.attrid)
  {
    forall c | Some(c) in list
      ensures Refers(list, c.attrid)
    {
      var i :| 0 <= i < |list| && list[i] == Some(c);
    }
  }

  // ----- on an object that answers a fixed snapshot

  /** A test is answerable if its attribute exists, has a testable type, and can be read. */
  ghost predicate Answerable(adapter: Adapter, attrs: seq<AttrMeta>, c: Condition) {
    var md := FindAttr(attrs, c.attrid);
    md.Some? && md.value.valueType in TESTABLE_TYPES && Live(adapter, md.value).ok
  }

  ghost predicate PassesLive(adapter: Adapter, attrs: seq<AttrMeta>, c: Condition) {
    Answerable(adapter, attrs, c)
    && Related(Live(adapter, FindAttr(attrs, c.attrid).value).attribute.value, c.op, c.value)
  }

  ghost predicate AllAnswerable(adapter: Adapter, attrs: seq<AttrMeta>, list: Entries) {
    (exists c :: Some(c) in list) && forall c :: Some(c) in list ==> Answerable(adapter, attrs, c)
  }

  lemma AnswerableIsReadable(adapter: Adapter, attrs: seq<AttrMeta>, list: Entries)
    ensures AllAnswerable(adapter, attrs, list) <==> ListIds(list) != {} && AllReadable(adapter, attrs, list)
  {
    forall c: Condition
      ensures Answerable(adapter, attrs, c) <==> Readable(adapter, attrs, c.attrid)
    {
      var md := FindAttr(attrs, c.attrid);
      if md.Some? {
        TypesAreExact(md.value.valueType);
      }
    }
    hide Answerable, Readable;
    forall c | Some(c) in list
      ensures c.attrid in ListIds(list)
    {
      var i :| 0 <= i < |list| && list[i] == Some(c);
    }
    forall id | id in ListIds(list)
      ensures exists c :: Some(c) in list && c.attrid == id
    {
      var i :| 0 <= i < |list| && list[i].Some? && list[i].value.attrid == id;
      assert Some(list[i].value) in list;
    }
  }

  /**
    On a snapshot a list is Unknown exactly when it tests nothing, or something that cannot be
    answered. Otherwise an AND list is Met exactly when every test passes on the live values, and
    an OR list exactly when some test does.
   */
  lemma LiveStateMeans(adapter: Adapter, attrs: seq<AttrMeta>, kind: ConditionType, list: Entries)
    ensures LiveState(adapter, attrs, kind, Some(list)) == Unknown <==> !AllAnswerable(adapter, attrs, list)
    ensures AllAnswerable(adapter, attrs, list) ==>
              var state := LiveState(adapter, attrs, kind, Some(list));
              && (kind == AllOf ==> (state == Met <==> forall c :: Some(c) in list ==> PassesLive(adapter, attrs, c)))
              && (kind == AnyOf ==> (state == Met <==> exists c :: Some(c) in list && PassesLive(adapter, attrs, c)))
              && (kind == NotConditional ==> state == NotMet)
  {
    AnswerableIsReadable(adapter, attrs, list);
    hide AllReadable, LiveValues, Passes, PassesLive, Answerable;
    if AllAnswerable(adapter, attrs, list) {
      var values := LiveValues(adapter, attrs, list);
      PlainListsMean(list, values);
      forall c | Some(c) in list
        ensures Passes(c, values) <==> PassesLive(adapter, attrs, c)
      {
        LiveTest(adapter, attrs, list, c);
      }
    }
  }

  lemma LiveTest(adapter: Adapter, attrs: seq<AttrMeta>, list: Entries, c: Condition)
    requires AllReadable(adapter, attrs, list) && Some(c) in list && Answerable(adapter, attrs, c)
    ensures Passes(c, LiveValues(adapter, attrs, list)) <==> PassesLive(adapter, attrs, c)
  {
    var i :| 0 <= i < |list| && list[i] == Some(c);
    assert c.attrid in ListIds(list);
  }

  /** A MIXED list is Met exactly when everything is answerable and its formula is true. */
  lemma LiveFormulaMeans(adapter: Adapter, attrs: seq<AttrMeta>, f: Formula)
    requires Proper(f) && AllAnswerable(adapter, attrs, Postfix(f))
    ensures AllReadable(adapter, attrs, Postfix(f))
    ensures LiveState(adapter, attrs, Mixed, Some(Postfix(f))) == Met
       <==> True(f, LiveValues(adapter, attrs, Postfix(f)))
  {
    AnswerableIsReadable(adapter, attrs, Postfix(f));
    MixedListMeans(f, LiveValues(adapter, attrs, Postfix(f)));
  }

  // ----- what a contradiction needs

  /** Some test of the list does not pass on the live values. */
  ghost predicate SomeTestFails(adapter: Adapter, attrs: seq<AttrMeta>, kind: ConditionType, list: Option<Entries>) {
    kind == AllOf && list.Some? && exists c :: Some(c) in list.value && !PassesLive(adapter, attrs, c)
  }

  /** No test of the list passes on the live values. */
  ghost predicate NoTestPasses(adapter: Adapter, attrs: seq<AttrMeta>, kind: ConditionType, list: Option<Entries>) {
    kind == AnyOf && (list.None? || forall c :: Some(c) in list.value ==> !PassesLive(adapter, attrs, c))
  }

  lemma FailingListIsNotMet(adapter: Adapter, attrs: seq<AttrMeta>, kind: ConditionType, list: Option<Entries>)
    requires SomeTestFails(adapter, attrs, kind, list) || NoTestPasses(adapter, attrs, kind, list)
    ensures LiveState(adapter, attrs, kind, list) != Met
  {
    hide PassesLive;
    if list.Some? {
      LiveStateMeans(adapter, attrs, kind, list.value);
    }
  }

  /**
    On a snapshot one failing test of an AND list, or an OR list without a passing one, rules a
    contradiction out, in either predicate the attribute carries, whatever else it carries.
   */
  lemma FailingConditionExcuses(adapter: Adapter, attrs: seq<AttrMeta>, capability: nat -> CapabilityAnswer,
                                history: seq<Offer>, k: nat)
    requires IsSnapshot(adapter) && k < |attrs|
    requires (attrs[k].isConditional
              && (SomeTestFails(adapter, attrs, attrs[k].conditionType, attrs[k].conditions)
                  || NoTestPasses(adapter, attrs, attrs[k].conditionType, attrs[k].conditions)))
          || (attrs[k].isValidOnly
              && (SomeTestFails(adapter, attrs, attrs[k].validOnlyType, attrs[k].validOnly)
                  || NoTestPasses(adapter, attrs, attrs[k].validOnlyType, attrs[k].validOnly)))
    ensures !Scan(true, adapter, attrs, capability, World(map[], history, []), 0).1[k].IsContradiction()
  {
    hide SomeTestFails, NoTestPasses, LiveState, Scan;
    ContradictionsAreBrokenClaims(adapter, attrs, capability, history);
    var md := attrs[k];
    if BrokenClaim(adapter, attrs, capability, k) {
      if md.isConditional
         && (SomeTestFails(adapter, attrs, md.conditionType, md.conditions)
             || NoTestPasses(adapter, attrs, md.conditionType, md.conditions)) {
        FailingListIsNotMet(adapter, attrs, md.conditionType, md.conditions);
      } else {
        FailingListIsNotMet(adapter, attrs, md.validOnlyType, md.validOnly);
      }
    }
  }

  /** An AND or OR list that is known to hold on the snapshot. */
  ghost predicate HoldsPlainly(adapter: Adapter, attrs: seq<AttrMeta>, kind: ConditionType, list: Option<Entries>) {
    && list.Some? && AllAnswerable(adapter, attrs, list.value)
    && (kind == AllOf ==> forall c :: Some(c) in list.value ==> PassesLive(adapter, attrs, c))
    && (kind == AnyOf ==> exists c :: Some(c) in list.value && PassesLive(adapter, attrs, c))
  }

  lemma HoldsPlainlyIsMet(adapter: Adapter, attrs: seq<AttrMeta>, kind: ConditionType, list: Option<Entries>)
    requires kind == AllOf || kind == AnyOf
    ensures LiveState(adapter, attrs, kind, list) == Met <==> HoldsPlainly(adapter, attrs, kind, list)
  {
    hide PassesLive, AllAnswerable;
    if list.Some? {
      LiveStateMeans(adapter, attrs, kind, list.value);
    }
  }

  /**
    In plain terms, for an attribute that carries AND and OR lists only: on a snapshot it is
    reported as a contradiction exactly when its type can be asked for, the adapter declares it
    gettable, its live read fails, and every list it carries is answerable and holds.
   */
  lemma ContradictionInPlainTerms(adapter: Adapter, attrs: seq<AttrMeta>, capability: nat -> CapabilityAnswer,
                                  history: seq<Offer>, k: nat)
    requires IsSnapshot(adapter) && k < |attrs|
    requires attrs[k].isConditional ==> attrs[k].conditionType == AllOf || attrs[k].conditionType == AnyOf
    requires attrs[k].isValidOnly ==> attrs[k].validOnlyType == AllOf || attrs[k].validOnlyType == AnyOf
    ensures Scan(true, adapter, attrs, capability, World(map[], history, []), 0).1[k].IsContradiction() <==>
            && attrs[k].valueType !in UNFETCHABLE_TYPES
            && !capability(k).threw && capability(k).status == SUCCESS && capability(k).getImplemented
            && Fetch(adapter, [], Target(attrs[k].id, attrs[k].valueType)).outcome.status != SUCCESS
            && (attrs[k].isConditional ==> HoldsPlainly(adapter, attrs, attrs[k].conditionType, attrs[k].conditions))
            && (attrs[k].isValidOnly ==> HoldsPlainly(adapter, attrs, attrs[k].validOnlyType, attrs[k].validOnly))
  {
    var md := attrs[k];
    ContradictionsAreBrokenClaims(adapter, attrs, capability, history);
    FetchOkIffSuccess(adapter, [], TargetOf(md));
    TypesAreExact(md.valueType);
    hide Scan, HoldsPlainly, LiveState, Fetch, UNFETCHABLE_TYPES, CanFetch;
    if md.isConditional {
      HoldsPlainlyIsMet(adapter, attrs, md.conditionType, md.conditions);
    }
    if md.isValidOnly {
      HoldsPlainlyIsMet(adapter, attrs, md.validOnlyType, md.validOnly);
    }
  }
}

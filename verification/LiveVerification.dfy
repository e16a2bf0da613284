/** Verifying the attribute capabilities an adapter declares against real reads of one object. */
module LiveVerification {
  import opened Text
  import opened SaiStatus
  import opened AttributeTypes
  import opened AttributeFetch
  import opened Conditions
  import opened Verdicts
  import opened ConditionCache
  import opened Snapshot

  /** The adapter's answer to one capability query. */
  datatype CapabilityAnswer = CapabilityAnswer(threw: bool, status: int32, getImplemented: bool)

  predicate Declared(a: CapabilityAnswer) {
    !a.threw && a.status == SUCCESS && a.getImplemented
  }

  /** What a scan finds out about one attribute. */
  datatype Verdict =
    | NotFetchable
    | NotDeclared
    | Checked(probe: FetchOutcome, conditional: Option<ConditionState>, validOnly: Option<ConditionState>,
              agreement: Agreement)
  {
    predicate IsConditional() {
      Checked? && (conditional.Some? || validOnly.Some?)
    }

    predicate IsContradiction() {
      Checked? && agreement == Contradiction
    }
  }

  function JudgeOne(memo: bool, adapter: Adapter, attrs: seq<AttrMeta>, answer: CapabilityAnswer, w: World, md: AttrMeta)
    : (World, Verdict)
  {
    if !CanFetch(md.valueType) then (w, NotFetchable)
    else if !Declared(answer) then (w, NotDeclared)
    else
      var f := Fetch(adapter, w.history, TargetOf(md));
      var (w', conditional, validOnly) := BothStates(memo, adapter, attrs, w.(history := f.history), md);
      (w', Checked(f.outcome, conditional, validOnly,
                   CompareAttributeWithCondition(true, f.outcome.result == Ok, md.isConditional || md.isValidOnly,
                                                 CombinedState(conditional, validOnly))))
  }

  /** The scan of an object from attribute `i` on; `capability` answers the i-th capability query. */
  function Scan(memo: bool, adapter: Adapter, attrs: seq<AttrMeta>, capability: nat -> CapabilityAnswer, w: World, i: nat)
    : (r: (World, seq<Verdict>))
    requires i <= |attrs|
    ensures |r.1| == |attrs| - i
    decreases |attrs| - i
  {
    if i == |attrs| then (w, [])
    else
      var (w1, verdict) := JudgeOne(memo, adapter, attrs, capability(i), w, attrs[i]);
      var (w2, rest) := Scan(memo, adapter, attrs, capability, w1, i + 1);
      (w2, [verdict] + rest)
  }

  // ----- accounting

  datatype Summary = Summary(checked: nat, agree: nat, contradictions: nat, unverifiable: nat, skippedValueType: nat,
                             conditionMet: nat, conditionNotMet: nat, conditionUnknown: nat, contradictory: set<string>)

  const Empty := Summary(0, 0, 0, 0, 0, 0, 0, 0, {})

  function CountState(s: Summary, state: ConditionState): Summary {
    match state
    case Met => s.(conditionMet := s.conditionMet + 1)
    case NotMet => s.(conditionNotMet := s.conditionNotMet + 1)
    case Unknown => s.(conditionUnknown := s.conditionUnknown + 1)
  }

  function CountAgreement(s: Summary, name: string, agreement: Agreement): Summary {
    match agreement
    case Agree => s.(agree := s.agree + 1)
    case Contradiction => s.(contradictions := s.contradictions + 1, contradictory := s.contradictory + {name})
    case Unverifiable => s.(unverifiable := s.unverifiable + 1)
  }

  function AccountOne(s: Summary, name: string, v: Verdict): Summary {
    match v
    case NotFetchable => s.(skippedValueType := s.skippedValueType + 1)
    case NotDeclared => s
    case Checked(probe, conditional, validOnly, agreement) =>
      var s := s.(checked := s.checked + 1);
      var s := if v.IsConditional() then CountState(s, CombinedState(conditional, validOnly)) else s;
      CountAgreement(s, name, agreement)
  }

  /** The summary after the verdicts on the attributes from `i` on. */
  function Account(s: Summary, attrs: seq<AttrMeta>, i: nat, verdicts: seq<Verdict>): Summary
    requires i + |verdicts| == |attrs|
    decreases |verdicts|
  {
    if verdicts == [] then s
    else Account(AccountOne(s, attrs[i].name, verdicts[0]), attrs, i + 1, verdicts[1..])
  }

  function CountContradictions(verdicts: seq<Verdict>): nat {
    if verdicts == [] then 0 else (if verdicts[0].IsContradiction() then 1 else 0) + CountContradictions(verdicts[1..])
  }

  function CountChecked(verdicts: seq<Verdict>): nat {
    if verdicts == [] then 0 else (if verdicts[0].Checked? then 1 else 0) + CountChecked(verdicts[1..])
  }

  function CountConditional(verdicts: seq<Verdict>): nat {
    if verdicts == [] then 0 else (if verdicts[0].IsConditional() then 1 else 0) + CountConditional(verdicts[1..])
  }

  const MAX_CONTRADICTION_LINES: nat := 50

  class VerificationSummary {
    var checked: nat
    var agree: nat
    var contradictions: nat
    var unverifiable: nat
    var skippedValueType: nat
    var conditionMet: nat
    var conditionNotMet: nat
    var conditionUnknown: nat
    var contradictory: set<string>

    function View(): Summary
      reads this
    {
      Summary(checked, agree, contradictions, unverifiable, skippedValueType, conditionMet, conditionNotMet,
              conditionUnknown, contradictory)
    }

    constructor ()
      ensures View() == Empty
    {
      checked, agree, contradictions, unverifiable, skippedValueType := 0, 0, 0, 0, 0;
      conditionMet, conditionNotMet, conditionUnknown := 0, 0, 0;
      contradictory := {};
    }

    method AddState(state: ConditionState)
      modifies this
      ensures View() == CountState(old(View()), state)
    {
      match state
      case Met => conditionMet := conditionMet + 1;
      case NotMet => conditionNotMet := conditionNotMet + 1;
      case Unknown => conditionUnknown := conditionUnknown + 1;
    }

    method AddAgreement(name: string, agreement: Agreement)
      modifies this
      ensures View() == CountAgreement(old(View()), name, agreement)
    {
      match agreement
      case Agree =>
        agree := agree + 1;
      case Contradiction =>
        contradictions := contradictions + 1;
        contradictory := contradictory + {name};
      case Unverifiable =>
        unverifiable := unverifiable + 1;
    }
  }

  /** The part of a scan step behind a positive capability answer: probe, conditions, verdict. */
  method CheckAttribute(attrs: seq<AttrMeta>, answer: CapabilityAnswer, md: AttrMeta, cache: ConditionAttributeCache,
                        summary: VerificationSummary) returns (contradicted: bool)
    requires cache.Valid() && CanFetch(md.valueType) && Declared(answer)
    modifies summary, cache, cache.getter
    ensures cache.Valid()
    ensures var (w, verdict) := JudgeOne(true, cache.getter.adapter, attrs, answer, old(cache.View()), md);
            && cache.View() == w
            && summary.View() == AccountOne(old(summary.View()), md.name, verdict)
            && contradicted == verdict.IsContradiction()
  {
    hide Fetch, CountState, CountAgreement, CompareAttributeWithCondition, Combine, ListState;
    summary.checked := summary.checked + 1;
    var storage := new AttributeStorage();
    var outcome, attribute := FetchAttribute(TargetOf(md), cache.getter, storage);
    var probeOk := outcome.result == Ok;
    var conditional := md.isConditional || md.isValidOnly;
    var condition := Met;
    if conditional {
      condition := EvaluateAttributeCondition(attrs, cache, md);
      summary.AddState(condition);
    }
    var agreement := CompareAttributeWithCondition(answer.getImplemented, probeOk, conditional, condition);
    contradicted := agreement == Contradiction;
    summary.AddAgreement(md.name, agreement);
  }

  /** One object: a fresh cache, every attribute in turn; contradictions past the fiftieth are only counted. */
  method VerifyObject(attrs: seq<AttrMeta>, capability: nat -> CapabilityAnswer, getter: AttributeGetter,
                      summary: VerificationSummary) returns (printed: nat, hidden: nat)
    modifies summary, getter
    ensures var (w, verdicts) := Scan(true, getter.adapter, attrs, capability, World(map[], old(getter.history), []), 0);
            && summary.View() == Account(old(summary.View()), attrs, 0, verdicts)
            && getter.history == w.history
            && printed + hidden == CountContradictions(verdicts)
            && printed == (if CountContradictions(verdicts) <= 50 then CountContradictions(verdicts) else 50)
            && GrewBy(old(summary.View()), summary.View(), verdicts)
  {
    hide Remaining, Scan, Account, CountContradictions, Fetch, BothStates, CombinedState, CountState, CountAgreement;
    hide GrewBy;
    ScanAccounts(true, getter.adapter, attrs, capability, World(map[], getter.history, []), summary.View());
    printed, hidden := 0, 0;
    var cache := new ConditionAttributeCache(getter);
    ghost var all := Scan(true, getter.adapter, attrs, capability, cache.View(), 0);
    AllRemains(all, summary.View(), attrs);
    var index := 0;
    while index < |attrs|
      invariant index <= |attrs| && cache.Valid() && cache.getter == getter
      invariant Remaining(Scan(true, getter.adapter, attrs, capability, cache.View(), index), all,
                          summary.View(), old(summary.View()), attrs, index, printed + hidden)
      invariant printed <= MAX_CONTRADICTION_LINES && (hidden > 0 ==> printed == MAX_CONTRADICTION_LINES)
    {
      var md := attrs[index];
      var answer := capability(index);
      var status := if answer.threw then FAILURE else answer.status;
      var contradicted := false;
      ghost var before := cache.View();
      ghost var summaryBefore := summary.View();
      if !CanFetch(md.valueType) {
        summary.skippedValueType := summary.skippedValueType + 1;
      } else if status == SUCCESS && answer.getImplemented {
        contradicted := CheckAttribute(attrs, answer, md, cache, summary);
      }
      ScanStep(getter.adapter, attrs, capability, before, index, all, summaryBefore, old(summary.View()),
               printed + hidden);
      if contradicted {
        if printed < MAX_CONTRADICTION_LINES {
          printed := printed + 1;
        } else {
          hidden := hidden + 1;
        }
      }
      index := index + 1;
    }
    NothingRemains(getter.adapter, attrs, capability, cache.View(), all, summary.View(), old(summary.View()),
                   printed + hidden);
  }

  /** What is left of a scan, and of its account, adds up to the whole. */
  ghost predicate Remaining(rest: (World, seq<Verdict>), all: (World, seq<Verdict>), now: Summary, start: Summary,
                            attrs: seq<AttrMeta>, index: nat, lines: nat)
    requires index + |rest.1| == |attrs| == |all.1|
  {
    && rest.0 == all.0
    && Account(now, attrs, index, rest.1) == Account(start, attrs, 0, all.1)
    && lines + CountContradictions(rest.1) == CountContradictions(all.1)
  }

  lemma AllRemains(all: (World, seq<Verdict>), start: Summary, attrs: seq<AttrMeta>)
    requires |attrs| == |all.1|
    ensures Remaining(all, all, start, start, attrs, 0, 0)
  {
  }

  lemma NothingRemains(adapter: Adapter, attrs: seq<AttrMeta>, capability: nat -> CapabilityAnswer, w: World,
                       all: (World, seq<Verdict>), now: Summary, start: Summary, lines: nat)
    requires |attrs| == |all.1|
    requires Remaining(Scan(true, adapter, attrs, capability, w, |attrs|), all, now, start, attrs, |attrs|, lines)
    ensures w == all.0 && now == Account(start, attrs, 0, all.1) && lines == CountContradictions(all.1)
  {
  }

  lemma ScanStep(adapter: Adapter, attrs: seq<AttrMeta>, capability: nat -> CapabilityAnswer, w: World, index: nat,
                 all: (World, seq<Verdict>), now: Summary, start: Summary, lines: nat)
    requires index < |attrs| == |all.1|
    requires Remaining(Scan(true, adapter, attrs, capability, w, index), all, now, start, attrs, index, lines)
    ensures var (w', verdict) := JudgeOne(true, adapter, attrs, capability(index), w, attrs[index]);
            Remaining(Scan(true, adapter, attrs, capability, w', index + 1), all,
                      AccountOne(now, attrs[index].name, verdict), start, attrs, index + 1,
                      lines + (if verdict.IsContradiction() then 1 else 0))
  {
    var (w', verdict) := JudgeOne(true, adapter, attrs, capability(index), w, attrs[index]);
    var rest := Scan(true, adapter, attrs, capability, w', index + 1);
    assert ([verdict] + rest.1)[1..] == rest.1;
  }

  // ----- conservation

  /** Nothing checked is lost: every checked attribute has exactly one verdict. */
  ghost predicate Balanced(s: Summary) {
    s.checked == s.agree + s.contradictions + s.unverifiable
  }

  ghost predicate ContradictedName(attrs: seq<AttrMeta>, i: nat, verdicts: seq<Verdict>, name: string)
    requires i + |verdicts| == |attrs|
  {
    exists k :: 0 <= k < |verdicts| && verdicts[k].IsContradiction() && attrs[i + k].name == name
  }

  lemma ContradictedNameStep(attrs: seq<AttrMeta>, i: nat, verdicts: seq<Verdict>, name: string)
    requires i + |verdicts| == |attrs| && verdicts != []
    ensures ContradictedName(attrs, i, verdicts, name) <==>
            (verdicts[0].IsContradiction() && attrs[i].name == name)
            || ContradictedName(attrs, i + 1, verdicts[1..], name)
  {
    var rest := verdicts[1..];
    if ContradictedName(attrs, i, verdicts, name) {
      var k :| 0 <= k < |verdicts| && verdicts[k].IsContradiction() && attrs[i + k].name == name;
      if k > 0 {
        assert rest[k - 1].IsContradiction() && attrs[i + 1 + (k - 1)].name == name;
      }
    }
    if ContradictedName(attrs, i + 1, rest, name) {
      var k :| 0 <= k < |rest| && rest[k].IsContradiction() && attrs[i + 1 + k].name == name;
      assert verdicts[k + 1].IsContradiction() && attrs[i + (k + 1)].name == name;
    }
    assert attrs[i + 0] == attrs[i];
  }

  lemma {:induction false} AccountConserves(s: Summary, attrs: seq<AttrMeta>, i: nat, verdicts: seq<Verdict>)
    requires i + |verdicts| == |attrs|
    ensures var t := Account(s, attrs, i, verdicts);
            && (Balanced(s) ==> Balanced(t))
            && t.checked == s.checked + CountChecked(verdicts)
            && t.contradictions == s.contradictions + CountContradictions(verdicts)
            && t.conditionMet + t.conditionNotMet + t.conditionUnknown
               == s.conditionMet + s.conditionNotMet + s.conditionUnknown + CountConditional(verdicts)
            && (forall name :: name in t.contradictory <==>
                  name in s.contradictory || ContradictedName(attrs, i, verdicts, name))
    decreases |verdicts|
  {
    if verdicts != [] {
      AccountConserves(AccountOne(s, attrs[i].name, verdicts[0]), attrs, i + 1, verdicts[1..]);
      forall name {
        ContradictedNameStep(attrs, i, verdicts, name);
      }
    }
  }

  // ----- every count, from the facts of the verdicts

  predicate WasChecked(v: Verdict) {
    v.Checked?
  }

  predicate WasSkipped(v: Verdict) {
    v.NotFetchable?
  }

  /** A checked attribute that could be read. */
  predicate WasRead(v: Verdict) {
    v.Checked? && v.probe.result == Ok
  }

  /** Some condition predicate the attribute carries is in the given state. */
  predicate Carries(v: Verdict, state: ConditionState) {
    v.Checked? && (v.conditional == Some(state) || v.validOnly == Some(state))
  }

  /** A failed read with a condition that is not known to hold. */
  predicate Excused(v: Verdict) {
    v.Checked? && v.probe.result != Ok && (Carries(v, NotMet) || Carries(v, Unknown))
  }

  /** A failed read with nothing to excuse it. */
  predicate Unexcused(v: Verdict) {
    v.Checked? && v.probe.result != Ok && !Carries(v, NotMet) && !Carries(v, Unknown)
  }

  /** The verdict follows from the facts: read, or failed with or without an excuse. */
  predicate Judged(v: Verdict) {
    && (WasRead(v) ==> v.agreement == Agree)
    && (Excused(v) ==> v.agreement == Unverifiable)
    && (Unexcused(v) ==> v.agreement == Contradiction)
  }

  predicate SomeNotMet(v: Verdict) {
    Carries(v, NotMet)
  }

  predicate Undecided(v: Verdict) {
    Carries(v, Unknown) && !Carries(v, NotMet)
  }

  predicate AllMet(v: Verdict) {
    Carries(v, Met) && !Carries(v, Unknown) && !Carries(v, NotMet)
  }

  function Number(verdicts: seq<Verdict>, p: Verdict -> bool): nat {
    if verdicts == [] then 0 else (if p(verdicts[0]) then 1 else 0) + Number(verdicts[1..], p)
  }

  /** The summary grew by exactly the attributes each of its counts stands for. */
  ghost predicate GrewBy(s: Summary, t: Summary, verdicts: seq<Verdict>) {
    && t.checked == s.checked + Number(verdicts, WasChecked)
    && t.skippedValueType == s.skippedValueType + Number(verdicts, WasSkipped)
    && t.agree == s.agree + Number(verdicts, WasRead)
    && t.unverifiable == s.unverifiable + Number(verdicts, Excused)
    && t.contradictions == s.contradictions + Number(verdicts, Unexcused)
    && t.conditionMet == s.conditionMet + Number(verdicts, AllMet)
    && t.conditionNotMet == s.conditionNotMet + Number(verdicts, SomeNotMet)
    && t.conditionUnknown == s.conditionUnknown + Number(verdicts, Undecided)
  }

  ghost predicate AllJudged(verdicts: seq<Verdict>) {
    forall v :: v in verdicts ==> Judged(v)
  }

  lemma OneVerdictGrows(s: Summary, name: string, v: Verdict)
    requires Judged(v)
    ensures GrewBy(s, AccountOne(s, name, v), [v])
  {
    assert [v][1..] == [];
  }

  lemma {:induction false} NumbersAdd(a: seq<Verdict>, b: seq<Verdict>, p: Verdict -> bool)
    ensures Number(a + b, p) == Number(a, p) + Number(b, p)
  {
    if a == [] {
      assert a + b == b;
    } else {
      NumbersAdd(a[1..], b, p);
      assert (a + b)[1..] == a[1..] + b;
    }
  }

  lemma GrowthAdds(s: Summary, t: Summary, u: Summary, a: seq<Verdict>, b: seq<Verdict>)
    requires GrewBy(s, t, a) && GrewBy(t, u, b)
    ensures GrewBy(s, u, a + b)
  {
    hide Number;
    forall p {
      NumbersAdd(a, b, p);
    }
  }

  lemma {:induction false} AccountGrows(s: Summary, attrs: seq<AttrMeta>, i: nat, verdicts: seq<Verdict>)
    requires i + |verdicts| == |attrs| && AllJudged(verdicts)
    ensures GrewBy(s, Account(s, attrs, i, verdicts), verdicts)
    decreases |verdicts|
  {
    if verdicts != [] {
      hide GrewBy, AccountOne, Judged;
      var next := AccountOne(s, attrs[i].name, verdicts[0]);
      OneVerdictGrows(s, attrs[i].name, verdicts[0]);
      AccountGrows(next, attrs, i + 1, verdicts[1..]);
      GrowthAdds(s, next, Account(s, attrs, i, verdicts), [verdicts[0]], verdicts[1..]);
      assert [verdicts[0]] + verdicts[1..] == verdicts;
    }
  }

  /** A verdict, from the attribute's type, the capability answer, and the facts. */
  lemma VerdictFollows(memo: bool, adapter: Adapter, attrs: seq<AttrMeta>, answer: CapabilityAnswer, w: World, md: AttrMeta)
    ensures var v := JudgeOne(memo, adapter, attrs, answer, w, md).1;
            && Judged(v)
            && (v.NotFetchable? <==> md.valueType in UNFETCHABLE_TYPES)
            && (v.Checked? <==> md.valueType !in UNFETCHABLE_TYPES
                                && !answer.threw && answer.status == SUCCESS && answer.getImplemented)
            && (v.Checked? ==>
                  && v.probe == Fetch(adapter, w.history, Target(md.id, md.valueType)).outcome
                  && (v.conditional.Some? <==> md.isConditional) && (v.validOnly.Some? <==> md.isValidOnly))
  {
    hide Fetch, ListState, UNFETCHABLE_TYPES;
    TypesAreExact(md.valueType);
  }

  lemma {:induction false} ScanJudges(memo: bool, adapter: Adapter, attrs: seq<AttrMeta>,
                                      capability: nat -> CapabilityAnswer, w: World, i: nat)
    requires i <= |attrs|
    ensures AllJudged(Scan(memo, adapter, attrs, capability, w, i).1)
    decreases |attrs| - i
  {
    if i < |attrs| {
      hide JudgeOne, Judged;
      var (w1, verdict) := JudgeOne(memo, adapter, attrs, capability(i), w, attrs[i]);
      VerdictFollows(memo, adapter, attrs, capability(i), w, attrs[i]);
      ScanJudges(memo, adapter, attrs, capability, w1, i + 1);
    }
  }

  /**
    Over any scan of any adapter each count of the summary grows by exactly the attributes it
    stands for: `agree` by the checked ones that could be read, `unverifiable` by the failed reads
    with a condition not known to hold, `contradictions` by the failed reads without one, and the
    three condition counts by the checked attributes whose conditions all hold, of which some does
    not, and of which none is false but some is unknown.
   */
  lemma ScanAccounts(memo: bool, adapter: Adapter, attrs: seq<AttrMeta>, capability: nat -> CapabilityAnswer, w: World,
                     s: Summary)
    ensures var verdicts := Scan(memo, adapter, attrs, capability, w, 0).1;
            GrewBy(s, Account(s, attrs, 0, verdicts), verdicts)
  {
    hide GrewBy, AllJudged;
    ScanJudges(memo, adapter, attrs, capability, w, 0);
    AccountGrows(s, attrs, 0, Scan(memo, adapter, attrs, capability, w, 0).1);
  }

  /** One scanned object: its attributes and the verdicts on them. */
  datatype ScannedObject = ScannedObject(attrs: seq<AttrMeta>, verdicts: seq<Verdict>)

  ghost predicate Matched(objects: seq<ScannedObject>) {
    forall i :: 0 <= i < |objects| ==> |objects[i].verdicts| == |objects[i].attrs|
  }

  /** The summary after scanning one object after another. */
  ghost function AccountObjects(objects: seq<ScannedObject>): Summary
    requires Matched(objects)
  {
    if objects == [] then Empty
    else
      var n := |objects| - 1;
      Account(AccountObjects(objects[..n]), objects[n].attrs, 0, objects[n].verdicts)
  }

  function AllVerdicts(objects: seq<ScannedObject>): seq<Verdict> {
    if objects == [] then [] else AllVerdicts(objects[..|objects| - 1]) + objects[|objects| - 1].verdicts
  }

  lemma {:induction false} CountsAdd(a: seq<Verdict>, b: seq<Verdict>)
    ensures CountChecked(a + b) == CountChecked(a) + CountChecked(b)
    ensures CountContradictions(a + b) == CountContradictions(a) + CountContradictions(b)
    ensures CountConditional(a + b) == CountConditional(a) + CountConditional(b)
  {
    if a == [] {
      assert a + b == b;
    } else {
      CountsAdd(a[1..], b);
      assert (a + b)[1..] == a[1..] + b;
    }
  }

  /** The counts stay balanced and exact over any sequence of scanned objects. */
  lemma {:induction false} ObjectsConserve(objects: seq<ScannedObject>)
    requires Matched(objects)
    ensures var s := AccountObjects(objects);
            && s.checked == s.agree + s.contradictions + s.unverifiable
            && s.checked == CountChecked(AllVerdicts(objects))
            && s.contradictions == CountContradictions(AllVerdicts(objects))
            && s.conditionMet + s.conditionNotMet + s.conditionUnknown == CountConditional(AllVerdicts(objects))
  {
    if objects != [] {
      var n := |objects| - 1;
      ObjectsConserve(objects[..n]);
      AccountConserves(AccountObjects(objects[..n]), objects[n].attrs, 0, objects[n].verdicts);
      CountsAdd(AllVerdicts(objects[..n]), objects[n].verdicts);
    }
  }

  /** And so over any sequence of scanned objects. */
  lemma {:induction false} ObjectsAccount(objects: seq<ScannedObject>)
    requires Matched(objects) && forall i :: 0 <= i < |objects| ==> AllJudged(objects[i].verdicts)
    ensures GrewBy(Empty, AccountObjects(objects), AllVerdicts(objects))
  {
    if objects != [] {
      hide GrewBy, Account, AllJudged;
      var n := |objects| - 1;
      var before, last := AccountObjects(objects[..n]), objects[n];
      ObjectsAccount(objects[..n]);
      AccountGrows(before, last.attrs, 0, last.verdicts);
      GrowthAdds(Empty, before, AccountObjects(objects), AllVerdicts(objects[..n]), last.verdicts);
    } else {
      NothingGrows();
    }
  }

  lemma NothingGrows()
    ensures GrewBy(Empty, Empty, [])
  {
  }

  // ----- what a contradiction means

  /** The facts behind a contradiction. */
  predicate Contradicted(md: AttrMeta, answer: CapabilityAnswer, v: Verdict) {
    && CanFetch(md.valueType) && Declared(answer) && v.Checked? && v.probe.result != Ok
    && (md.isConditional ==> v.conditional == Some(Met))
    && (md.isValidOnly ==> v.validOnly == Some(Met))
  }

  lemma JudgedContradiction(memo: bool, adapter: Adapter, attrs: seq<AttrMeta>, answer: CapabilityAnswer, w: World, md: AttrMeta)
    ensures var v := JudgeOne(memo, adapter, attrs, answer, w, md).1;
            && (v.IsContradiction() <==> Contradicted(md, answer, v))
            && (v.Checked? ==> (v.conditional.Some? <==> md.isConditional) && (v.validOnly.Some? <==> md.isValidOnly))
  {
  }

  /** `verdicts` are those on the attributes from `i` on, each a contradiction exactly on its facts. */
  ghost predicate ContradictedExactly(attrs: seq<AttrMeta>, capability: nat -> CapabilityAnswer, i: nat,
                                      verdicts: seq<Verdict>)
  {
    && i + |verdicts| == |attrs|
    && forall k :: i <= k < |attrs| ==>
         (verdicts[k - i].IsContradiction() <==> Contradicted(attrs[k], capability(k), verdicts[k - i]))
  }

  /**
    Over any scan of any adapter, an attribute is a contradiction exactly when it was declared
    gettable, its read failed, and every condition predicate it carries evaluated to Met.
   */
  lemma {:induction false} ContradictionsExactly(memo: bool, adapter: Adapter, attrs: seq<AttrMeta>,
                                                 capability: nat -> CapabilityAnswer, w: World, i: nat)
    requires i <= |attrs|
    ensures ContradictedExactly(attrs, capability, i, Scan(memo, adapter, attrs, capability, w, i).1)
    decreases |attrs| - i
  {
    if i < |attrs| {
      var (w1, verdict) := JudgeOne(memo, adapter, attrs, capability(i), w, attrs[i]);
      JudgedContradiction(memo, adapter, attrs, capability(i), w, attrs[i]);
      ContradictionsExactly(memo, adapter, attrs, capability, w1, i + 1);
      OneMoreContradicted(attrs, capability, i, verdict, Scan(memo, adapter, attrs, capability, w1, i + 1).1);
    }
  }

  lemma OneMoreContradicted(attrs: seq<AttrMeta>, capability: nat -> CapabilityAnswer, i: nat, verdict: Verdict,
                            rest: seq<Verdict>)
    requires i < |attrs| && ContradictedExactly(attrs, capability, i + 1, rest)
    requires verdict.IsContradiction() <==> Contradicted(attrs[i], capability(i), verdict)
    ensures ContradictedExactly(attrs, capability, i, [verdict] + rest)
  {
    var verdicts := [verdict] + rest;
    forall k | i <= k < |attrs|
      ensures verdicts[k - i].IsContradiction() <==> Contradicted(attrs[k], capability(k), verdicts[k - i])
    {
      if k > i {
        assert verdicts[k - i] == rest[k - (i + 1)];
      }
    }
  }
}

/**
  What condition lists say, apart from how they are evaluated: single tests, and formulas of tests
  joined by "and" and "or". The evaluator is judged by these.
 */
module ConditionMeaning {
  import opened Text
  import opened AttributeTypes
  import opened Conditions

  /** Does `x op y` hold of two numbers? */
  predicate Related(x: int, op: Operator, y: int) {
    && (op == EQ ==> x == y) && (op == NE ==> x != y)
    && (op == LT ==> x < y) && (op == GT ==> x > y)
    && (op == LE ==> x <= y) && (op == GE ==> x >= y)
  }

  /** An attribute with a value passes a test if the value is so related to the test's constant. */
  predicate Passes(c: Condition, values: map<nat, int>) {
    c.attrid in values && Related(values[c.attrid], c.op, c.value)
  }

  /** A formula: a test, or two formulas joined. */
  datatype Formula = Test(c: Condition) | And(left: Formula, right: Formula) | Or(left: Formula, right: Formula)

  predicate True(f: Formula, values: map<nat, int>) {
    match f
    case Test(c) => Passes(c, values)
    case And(left, right) => True(left, values) && True(right, values)
    case Or(left, right) => True(left, values) || True(right, values)
  }

  /** The tests of a formula are actual conditions, not operators. */
  predicate Proper(f: Formula) {
    match f
    case Test(c) => c.kind == NotConditional
    case And(left, right) => Proper(left) && Proper(right)
    case Or(left, right) => Proper(left) && Proper(right)
  }

  /** An operator entry of a MIXED list; its attribute id is the invalid one. */
  function OperatorEntry(kind: ConditionType): Condition {
    Condition(0xFFFF_FFFF, 0, EQ, kind)
  }

  /** A formula written in reverse Polish notation. */
  function Postfix(f: Formula): Entries {
    match f
    case Test(c) => [Some(c)]
    case And(left, right) => Postfix(left) + Postfix(right) + [Some(OperatorEntry(AllOf))]
    case Or(left, right) => Postfix(left) + Postfix(right) + [Some(OperatorEntry(AnyOf))]
  }

  lemma TestHolds(c: Condition, values: map<nat, int>)
    ensures Holds(c, values) <==> Passes(c, values)
  {
  }

  /** Evaluating a formula's list leaves its truth on the stack. */
  lemma {:induction false} RpnOfFormula(f: Formula, rest: Entries, values: map<nat, int>, stack: seq<bool>)
    requires Proper(f)
    ensures RpnHolds(Postfix(f) + rest, values, stack) == RpnHolds(rest, values, [True(f, values)] + stack)
    decreases f
  {
    if f.Test? {
      TestHolds(f.c, values);
      assert ([Some(f.c)] + rest)[1..] == rest;
    } else {
      var join := OperatorEntry(if f.And? then AllOf else AnyOf);
      var tail := [Some(join)] + rest;
      var l, r := True(f.left, values), True(f.right, values);
      RpnOfFormula(f.left, Postfix(f.right) + tail, values, stack);
      RpnOfFormula(f.right, tail, values, [l] + stack);
      assert Postfix(f) + rest == Postfix(f.left) + (Postfix(f.right) + tail);
      assert tail[1..] == rest && ([r] + ([l] + stack))[2..] == stack;
    }
  }

  /** A MIXED list holds exactly when the formula it writes down is true. */
  lemma MixedListMeans(f: Formula, values: map<nat, int>)
    requires Proper(f)
    ensures ListHolds(Mixed, Postfix(f), values) <==> True(f, values)
  {
    RpnOfFormula(f, [], values, []);
    assert Postfix(f) + [] == Postfix(f);
    assert [True(f, values)] + [] == [True(f, values)];
  }

  /** Is a list in reverse Polish notation, started with `n` truths on the stack, left with exactly one? */
  predicate Balanced(list: Entries, n: nat) {
    if list == [] then n == 1
    else match list[0]
      case None => Balanced(list[1..], n)
      case Some(c) =>
        if c.kind == AnyOf || c.kind == AllOf then n >= 2 && Balanced(list[1..], n - 1) else Balanced(list[1..], n + 1)
  }

  /** An ill-formed MIXED list, with an operator short of operands or with truths left over, never holds. */
  lemma {:induction false} IllFormedNeverHolds(list: Entries, values: map<nat, int>, stack: seq<bool>)
    requires !Balanced(list, |stack|)
    ensures !RpnHolds(list, values, stack)
  {
    if list != [] {
      match list[0]
      case None => IllFormedNeverHolds(list[1..], values, stack);
      case Some(c) =>
        if c.kind != AnyOf && c.kind != AllOf {
          IllFormedNeverHolds(list[1..], values, [Holds(c, values)] + stack);
        } else if |stack| >= 2 {
          var top := if c.kind == AnyOf then stack[0] || stack[1] else stack[0] && stack[1];
          IllFormedNeverHolds(list[1..], values, [top] + stack[2..]);
        }
    }
  }

  /** The conditions of a list without its null entries. */
  function Tests(list: Entries): seq<Condition> {
    if list == [] then []
    else (if list[0].Some? then [list[0].value] else []) + Tests(list[1..])
  }

  /** Tests joined by "and", or by "or". */
  function Chain(tests: seq<Condition>, all: bool): Formula
    requires tests != []
  {
    if |tests| == 1 then Test(tests[0])
    else if all then And(Test(tests[0]), Chain(tests[1..], all))
    else Or(Test(tests[0]), Chain(tests[1..], all))
  }

  lemma {:induction false} ChainMeans(tests: seq<Condition>, values: map<nat, int>)
    requires tests != []
    ensures True(Chain(tests, true), values) <==> forall c :: c in tests ==> Passes(c, values)
    ensures True(Chain(tests, false), values) <==> exists c :: c in tests && Passes(c, values)
  {
    hide Passes;
    if |tests| > 1 {
      assert forall c :: c in tests <==> c == tests[0] || c in tests[1..];
      ChainMeans(tests[1..], values);
    }
  }

  lemma {:induction false} TestsAreEntries(list: Entries)
    ensures forall c :: c in Tests(list) <==> exists i :: 0 <= i < |list| && list[i] == Some(c)
  {
    if list != [] {
      TestsAreEntries(list[1..]);
      assert forall i :: 0 < i < |list| ==> list[i] == list[1..][i - 1];
      forall c
        ensures c in Tests(list) <==> exists i :: 0 <= i < |list| && list[i] == Some(c)
      {
        if c in Tests(list[1..]) {
          var i :| 0 <= i < |list[1..]| && list[1..][i] == Some(c);
          assert list[i + 1] == Some(c);
        }
      }
    }
  }

  /** An AND list means that every test in it passes, an OR list that some test does. */
  lemma PlainListsMean(list: Entries, values: map<nat, int>)
    ensures ListHolds(AllOf, list, values) <==> forall c :: Some(c) in list ==> Passes(c, values)
    ensures ListHolds(AnyOf, list, values) <==> exists c :: Some(c) in list && Passes(c, values)
  {
    forall c {
      TestHolds(c, values);
    }
    hide Passes, Holds;
  }

  /** AND and OR lists hold exactly when the chain of their tests is true. */
  lemma PlainListsAreChains(list: Entries, values: map<nat, int>)
    requires Tests(list) != []
    ensures ListHolds(AllOf, list, values) <==> True(Chain(Tests(list), true), values)
    ensures ListHolds(AnyOf, list, values) <==> True(Chain(Tests(list), false), values)
  {
    hide ListHolds, Passes, True, Chain, Tests;
    PlainListsMean(list, values);
    TestsAreEntries(list);
    ChainMeans(Tests(list), values);
    assert forall c :: c in Tests(list) <==> Some(c) in list;
  }

  // ----- the values the evaluator works on

  /** The value of the first attribute with an id, None without one. */
  function FirstValue(attributes: seq<Attribute>, id: nat): Option<int> {
    if attributes == [] then None
    else if attributes[0].id == id then Some(attributes[0].value)
    else FirstValue(attributes[1..], id)
  }

  lemma {:induction false} ValuesAreFirst(attributes: seq<Attribute>, id: nat)
    ensures id in ValuesOf(attributes) <==> FirstValue(attributes, id).Some?
    ensures id in ValuesOf(attributes) ==> FirstValue(attributes, id) == Some(ValuesOf(attributes)[id])
  {
    if attributes != [] {
      ValuesAreFirst(attributes[1..], id);
    }
  }

  lemma {:induction false} DefaultsAreDeclared(attrs: seq<AttrMeta>, id: nat)
    ensures var md := FindAttr(attrs, id);
            && (id in Defaults(attrs) <==> md.Some? && md.value.defaultValue.Some?)
            && (id in Defaults(attrs) ==> md.value.defaultValue == Some(Defaults(attrs)[id]))
  {
    if attrs != [] {
      DefaultsAreDeclared(attrs[1..], id);
    }
  }

  /** The value a test sees: that of the first attribute with its id, and the default without one. */
  function SeenValue(attrs: seq<AttrMeta>, attributes: seq<Attribute>, id: nat): Option<int> {
    var first, md := FirstValue(attributes, id), FindAttr(attrs, id);
    if first.Some? then first else if md.Some? then md.value.defaultValue else None
  }

  lemma EvaluatorSees(attrs: seq<AttrMeta>, attributes: seq<Attribute>, id: nat)
    ensures var values := Defaults(attrs) + ValuesOf(attributes);
            && (id in values <==> SeenValue(attrs, attributes, id).Some?)
            && (id in values ==> SeenValue(attrs, attributes, id) == Some(values[id]))
  {
    ValuesAreFirst(attributes, id);
    DefaultsAreDeclared(attrs, id);
  }

  /** A test on the value the evaluator sees. */
  ghost predicate PassesSeen(attrs: seq<AttrMeta>, attributes: seq<Attribute>, c: Condition) {
    var v := SeenValue(attrs, attributes, c.attrid);
    v.Some? && Related(v.value, c.op, c.value)
  }

  /** What the evaluator answers, entry by entry. */
  lemma EvaluatorMeans(attrs: seq<AttrMeta>, list: Entries, attributes: seq<Attribute>)
    ensures EvaluatorSays(attrs, true, AllOf, list, attributes)
       <==> forall c :: Some(c) in list ==> PassesSeen(attrs, attributes, c)
    ensures EvaluatorSays(attrs, true, AnyOf, list, attributes)
       <==> exists c :: Some(c) in list && PassesSeen(attrs, attributes, c)
    ensures !EvaluatorSays(attrs, true, NotConditional, list, attributes)
    ensures forall kind :: !EvaluatorSays(attrs, false, kind, list, attributes)
  {
    var values := Defaults(attrs) + ValuesOf(attributes);
    PlainListsMean(list, values);
    forall c: Condition
      ensures Passes(c, values) <==> PassesSeen(attrs, attributes, c)
    {
      EvaluatorSees(attrs, attributes, c.attrid);
    }
    hide Passes, PassesSeen;
  }
}

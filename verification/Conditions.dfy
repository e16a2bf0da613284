/**
  Attribute metadata, and the metadata library's condition evaluator as its headers document it:
  the first attribute with an id counts, a missing one is evaluated at its default, OR and AND
  lists need one or all conditions, a MIXED list is in reverse Polish notation.
 */
module Conditions {
  import opened Text
  import opened AttributeTypes

  datatype ConditionType = NotConditional | AnyOf | AllOf | Mixed

  datatype Operator = EQ | NE | LT | GT | LE | GE

  /** An entry of a condition list. In a MIXED list an entry of kind AnyOf or AllOf is an operator. */
  datatype Condition = Condition(attrid: nat, value: int, op: Operator, kind: ConditionType)

  /** A list may hold null entries; an absent list is a null pointer. */
  type Entries = seq<Option<Condition>>

  datatype AttrMeta = AttrMeta(
    id: nat, name: string, valueType: ValueType, defaultValue: Option<int>,
    isConditional: bool, conditionType: ConditionType, conditions: Option<Entries>,
    isValidOnly: bool, validOnlyType: ConditionType, validOnly: Option<Entries>)

  /** sai_metadata_get_attr_metadata for one object type. */
  function FindAttr(attrs: seq<AttrMeta>, id: nat): (md: Option<AttrMeta>)
    ensures md.Some? ==> md.value.id == id && md.value in attrs
    ensures md.None? <==> forall m :: m in attrs ==> m.id != id
  {
    if attrs == [] then None
    else if attrs[0].id == id then Some(attrs[0])
    else FindAttr(attrs[1..], id)
  }

  function Compare(op: Operator, x: int, y: int): bool {
    match op
    case EQ => x == y
    case NE => x != y
    case LT => x < y
    case GT => x > y
    case LE => x <= y
    case GE => x >= y
  }

  predicate Holds(c: Condition, values: map<nat, int>) {
    c.attrid in values && Compare(c.op, values[c.attrid], c.value)
  }

  /** The truth of a condition list when the attributes have the given values. */
  predicate ListHolds(kind: ConditionType, list: Entries, values: map<nat, int>) {
    match kind
    case NotConditional => false
    case AnyOf => exists i :: 0 <= i < |list| && list[i].Some? && Holds(list[i].value, values)
    case AllOf => forall i :: 0 <= i < |list| && list[i].Some? ==> Holds(list[i].value, values)
    case Mixed => RpnHolds(list, values, [])
  }

  /** Reverse Polish evaluation; an ill-formed list does not hold. */
  predicate RpnHolds(list: Entries, values: map<nat, int>, stack: seq<bool>) {
    if list == [] then |stack| == 1 && stack[0]
    else match list[0]
      case None => RpnHolds(list[1..], values, stack)
      case Some(c) =>
        if c.kind != AnyOf && c.kind != AllOf then RpnHolds(list[1..], values, [Holds(c, values)] + stack)
        else if |stack| < 2 then false
        else
          var top := if c.kind == AnyOf then stack[0] || stack[1] else stack[0] && stack[1];
          RpnHolds(list[1..], values, [top] + stack[2..])
  }

  /** The values of an attribute list; the first attribute with an id wins. */
  function ValuesOf(attributes: seq<Attribute>): map<nat, int> {
    if attributes == [] then map[]
    else ValuesOf(attributes[1..])[attributes[0].id := attributes[0].value]
  }

  /** The default values of an object type's attributes. */
  function Defaults(attrs: seq<AttrMeta>): map<nat, int> {
    if attrs == [] then map[]
    else
      var rest := Defaults(attrs[1..]);
      if attrs[0].defaultValue.Some? then rest[attrs[0].id := attrs[0].defaultValue.value] else rest - {attrs[0].id}
  }

  /** sai_metadata_is_condition_met and sai_metadata_is_validonly_met. */
  predicate EvaluatorSays(attrs: seq<AttrMeta>, flagged: bool, kind: ConditionType, list: Entries,
                          attributes: seq<Attribute>) {
    flagged && ListHolds(kind, list, Defaults(attrs) + ValuesOf(attributes))
  }

  // ----- what evaluation depends on

  /** The ids a list refers to. */
  ghost predicate Refers(list: Entries, id: nat) {
    exists i :: 0 <= i < |list| && list[i].Some? && list[i].value.attrid == id
  }

  ghost predicate AgreeOn(list: Entries, v: map<nat, int>, w: map<nat, int>) {
    forall id :: Refers(list, id) ==> (id in v <==> id in w) && (id in v ==> v[id] == w[id])
  }

  lemma AgreeEntry(list: Entries, v: map<nat, int>, w: map<nat, int>, i: nat)
    requires AgreeOn(list, v, w) && i < |list| && list[i].Some?
    ensures Holds(list[i].value, v) == Holds(list[i].value, w)
  {
    assert Refers(list, list[i].value.attrid);
  }

  lemma {:induction false} RpnAgree(list: Entries, v: map<nat, int>, w: map<nat, int>, stack: seq<bool>)
    requires AgreeOn(list, v, w)
    ensures RpnHolds(list, v, stack) == RpnHolds(list, w, stack)
  {
    if list != [] {
      assert AgreeOn(list[1..], v, w) by {
        forall id | Refers(list[1..], id)
          ensures Refers(list, id)
        {
          var i :| 0 <= i < |list[1..]| && list[1..][i].Some? && list[1..][i].value.attrid == id;
          assert list[i + 1] == list[1..][i];
        }
      }
      match list[0]
      case None => RpnAgree(list[1..], v, w, stack);
      case Some(c) =>
        AgreeEntry(list, v, w, 0);
        if c.kind != AnyOf && c.kind != AllOf {
          RpnAgree(list[1..], v, w, [Holds(c, v)] + stack);
        } else if |stack| >= 2 {
          var top := if c.kind == AnyOf then stack[0] || stack[1] else stack[0] && stack[1];
          RpnAgree(list[1..], v, w, [top] + stack[2..]);
        }
    }
  }

  /** A list's truth depends only on the values of the attributes it refers to. */
  lemma ListHoldsAgree(kind: ConditionType, list: Entries, v: map<nat, int>, w: map<nat, int>)
    requires AgreeOn(list, v, w)
    ensures ListHolds(kind, list, v) == ListHolds(kind, list, w)
  {
    forall i | 0 <= i < |list| && list[i].Some?
      ensures Holds(list[i].value, v) == Holds(list[i].value, w)
    {
      AgreeEntry(list, v, w, i);
    }
    RpnAgree(list, v, w, []);
  }

  lemma {:induction false} ValuesOfDistinct(attributes: seq<Attribute>)
    requires forall i, j :: 0 <= i < j < |attributes| ==> attributes[i].id != attributes[j].id
    ensures forall i :: 0 <= i < |attributes| ==>
              attributes[i].id in ValuesOf(attributes) && ValuesOf(attributes)[attributes[i].id] == attributes[i].value
  {
    if attributes != [] {
      ValuesOfDistinct(attributes[1..]);
      forall i | 0 < i < |attributes|
        ensures attributes[i].id in ValuesOf(attributes) && ValuesOf(attributes)[attributes[i].id] == attributes[i].value
      {
        assert attributes[i] == attributes[1..][i - 1];
      }
    }
  }
}

/** The value builder: members kept in insertion order, and the writers behind dump(). */
module JsonPrinter {
  import opened Text
  import opened JsonTree
  import opened JsonReader
  import opened JsonRoundTrip

  // ----- the members of an object, as set() leaves them

  function KeyIndex(members: seq<Member>, key: string): (i: nat)
    ensures i <= |members|
    ensures i < |members| ==> members[i].key == key
    ensures forall j :: 0 <= j < i ==> members[j].key != key
  {
    if members == [] || members[0].key == key then 0 else 1 + KeyIndex(members[1..], key)
  }

  /** The members after set(key, value): overwritten in place, or appended. */
  function WithMember(members: seq<Member>, key: string, value: Json): seq<Member> {
    var i := KeyIndex(members, key);
    if i < |members| then members[i := Member(key, value)] else members + [Member(key, value)]
  }

  /** The members left by a sequence of set() calls on an empty object. */
  function AfterSets(calls: seq<Member>): seq<Member> {
    if calls == [] then []
    else
      var last := calls[|calls| - 1];
      WithMember(AfterSets(calls[..|calls| - 1]), last.key, last.value)
  }

  /** Is call `i` the first one with its key? */
  predicate IsFirst(calls: seq<Member>, i: nat)
    requires i < |calls|
  {
    forall j :: 0 <= j < i ==> calls[j].key != calls[i].key
  }

  /** The keys in the order they were first set. */
  function FirstKeys(calls: seq<Member>): seq<string> {
    if calls == [] then []
    else
      var n := |calls| - 1;
      FirstKeys(calls[..n]) + (if IsFirst(calls, n) then [calls[n].key] else [])
  }

  /** Is call `i` the last one with its key? */
  ghost predicate IsLast(calls: seq<Member>, i: nat)
    requires i < |calls|
  {
    forall j :: i < j < |calls| ==> calls[j].key != calls[i].key
  }

  ghost predicate DistinctKeys(members: seq<Member>) {
    forall i, j :: 0 <= i < j < |members| ==> members[i].key != members[j].key
  }

  ghost predicate HasKey(members: seq<Member>, key: string) {
    exists i :: 0 <= i < |members| && members[i].key == key
  }

  /**
    What a sequence of set() calls leaves is an insertion-ordered map: distinct keys, in the order
    they were first set, each with the value of its last call, and no other keys.
   */
  ghost predicate IsOrderedMapOf(members: seq<Member>, calls: seq<Member>) {
    && DistinctKeys(members)
    && |FirstKeys(calls)| == |members|
    && (forall i :: 0 <= i < |members| ==> members[i].key == FirstKeys(calls)[i])
    && (forall i :: 0 <= i < |calls| && IsLast(calls, i) ==> calls[i] in members)
    && (forall key :: HasKey(members, key) <==> HasKey(calls, key))
  }

  lemma {:induction false} SetsMakeAnOrderedMap(calls: seq<Member>)
    ensures IsOrderedMapOf(AfterSets(calls), calls)
  {
    hide IsOrderedMapOf, WithMember;
    if calls == [] {
      NothingSet();
    } else {
      var n := |calls| - 1;
      SetsMakeAnOrderedMap(calls[..n]);
      OneMoreSet(calls[..n], calls[n]);
      assert calls == calls[..n] + [calls[n]];
    }
  }

  lemma NothingSet()
    ensures IsOrderedMapOf([], [])
  {
  }

  lemma OneMoreSet(before: seq<Member>, last: Member)
    requires IsOrderedMapOf(AfterSets(before), before)
    ensures IsOrderedMapOf(AfterSets(before + [last]), before + [last])
  {
    hide WithMember, HasKey, IsLast, IsFirst, DistinctKeys;
    var calls, n := before + [last], |before|;
    var was, now := AfterSets(before), AfterSets(calls);
    assert calls[..n] == before;
    assert now == WithMember(was, last.key, last.value);
    KeysAfterSet(was, last);
    FirstOrNot(before, last);
    forall i | 0 <= i < |calls| && IsLast(calls, i)
      ensures calls[i] in now
    {
      LastStays(before, last, was, i);
    }
    forall key
      ensures HasKey(now, key) <==> HasKey(calls, key)
    {
      SameKeys(before, last, was, now, key);
    }
  }

  /** One set() keeps every key where it is, and puts a new one last. */
  lemma KeysAfterSet(was: seq<Member>, last: Member)
    requires DistinctKeys(was)
    ensures var now := WithMember(was, last.key, last.value);
            && DistinctKeys(now)
            && |now| == |was| + (if HasKey(was, last.key) then 0 else 1)
            && (forall i :: 0 <= i < |was| ==> now[i].key == was[i].key)
            && (|now| > |was| ==> now[|was|].key == last.key)
  {
    hide KeyIndex;
    var k := KeyIndex(was, last.key);
    assert k < |was| <==> HasKey(was, last.key);
  }

  lemma FirstOrNot(before: seq<Member>, last: Member)
    ensures IsFirst(before + [last], |before|) <==> !HasKey(before, last.key)
  {
    var calls := before + [last];
    assert forall j :: 0 <= j < |before| ==> calls[j] == before[j];
  }

  lemma LastStays(before: seq<Member>, last: Member, was: seq<Member>, i: nat)
    requires i <= |before| && IsLast(before + [last], i)
    requires forall j :: 0 <= j < |before| && IsLast(before, j) ==> before[j] in was
    ensures (before + [last])[i] in WithMember(was, last.key, last.value)
  {
    hide KeyIndex;
    var now, k := WithMember(was, last.key, last.value), KeyIndex(was, last.key);
    assert now[k] == last;
    if i < |before| {
      var calls := before + [last];
      assert calls[|before|] == last && calls[i] == before[i];
      assert IsLast(before, i) by {
        forall j | i < j < |before|
          ensures before[j].key != before[i].key
        {
          assert calls[j] == before[j];
        }
      }
      var j :| 0 <= j < |was| && was[j] == before[i];
      assert now[j] == before[i];
    }
  }

  lemma SameKeys(before: seq<Member>, last: Member, was: seq<Member>, now: seq<Member>, key: string)
    requires HasKey(was, key) <==> HasKey(before, key)
    requires now == WithMember(was, last.key, last.value)
    ensures HasKey(now, key) <==> HasKey(before + [last], key)
  {
    var k := KeyIndex(was, last.key);
    var calls := before + [last];
    assert now[k].key == last.key && calls[|before|] == last;
    if HasKey(was, key) {
      var i :| 0 <= i < |was| && was[i].key == key;
      assert now[i].key == key;
      var j :| 0 <= j < |before| && before[j].key == key;
      assert calls[j].key == key;
    }
    if HasKey(now, key) && key != last.key {
      var i :| 0 <= i < |now| && now[i].key == key;
      assert was[i].key == key;
    }
    if HasKey(calls, key) && key != last.key {
      var j :| 0 <= j < |calls| && calls[j].key == key;
      assert before[j].key == key;
    }
  }

  // ----- what is read back from a dumped object

  lemma {:induction false} MemberMeaningsAt(members: seq<Member>)
    ensures |MemberMeanings(members)| == |members|
    ensures forall i :: 0 <= i < |members| ==>
              MemberMeanings(members)[i] == (members[i].key, Meaning(members[i].value))
  {
    hide Meaning;
    if members != [] {
      MemberMeaningsAt(members[1..]);
      assert forall i :: 0 < i < |members| ==> members[i] == members[1..][i - 1];
    }
  }

  lemma {:induction false} ItemMeaningsAt(items: seq<Json>)
    ensures |ItemMeanings(items)| == |items|
    ensures forall i :: 0 <= i < |items| ==> ItemMeanings(items)[i] == Meaning(items[i])
  {
    hide Meaning;
    if items != [] {
      ItemMeaningsAt(items[1..]);
      assert forall i :: 0 < i < |items| ==> items[i] == items[1..][i - 1];
    }
  }

  /**
    From set() calls to the members read back: dumping the object that a sequence of calls
    leaves, and reading the text, gives one member for each key set, in the order the keys were
    first set, each with the meaning of the last value set, and no other members.
   */
  lemma SetsReadBack(calls: seq<Member>, text: string)
    requires ReadDocument(text) == Some(DObject(MemberMeanings(AfterSets(calls))))
    ensures var members := ReadDocument(text).value.members;
            && |members| == |FirstKeys(calls)|
            && (forall i :: 0 <= i < |members| ==> members[i].0 == FirstKeys(calls)[i])
            && (forall i, j :: 0 <= i < j < |members| ==> members[i].0 != members[j].0)
            && (forall i :: 0 <= i < |calls| && IsLast(calls, i) ==> (calls[i].key, Meaning(calls[i].value)) in members)
            && (forall key :: HasKey(calls, key) <==> exists i :: 0 <= i < |members| && members[i].0 == key)
  {
    hide Meaning, FirstKeys, AfterSets, IsLast, ReadDocument;
    var left, members := AfterSets(calls), MemberMeanings(AfterSets(calls));
    SetsMakeAnOrderedMap(calls);
    MemberMeaningsAt(left);
    forall i | 0 <= i < |calls| && IsLast(calls, i)
      ensures (calls[i].key, Meaning(calls[i].value)) in members
    {
      var j :| 0 <= j < |left| && left[j] == calls[i];
      assert members[j] == (calls[i].key, Meaning(calls[i].value));
    }
    forall key
      ensures HasKey(calls, key) <==> exists i :: 0 <= i < |members| && members[i].0 == key
    {
      assert HasKey(left, key) <==> HasKey(calls, key);
      if HasKey(left, key) {
        var i :| 0 <= i < |left| && left[i].key == key;
        assert members[i].0 == key;
      }
    }
  }

  // ----- the classes

  /** The string the writers append to. */
  class TextBuffer {
    var text: string

    constructor ()
      ensures text == ""
    {
      text := "";
    }

    method Append(s: string)
      modifies this
      ensures text == old(text) + s
    {
      text := text + s;
    }
  }

  /** json_escape: appends to `out` byte by byte. */
  method JsonEscape(input: string) returns (out: string)
    ensures out == Escape(input)
  {
    out := "";
    for i := 0 to |input|
      invariant out + Escape(input[i..]) == Escape(input)
    {
      Assoc(out, EscapeByte(input[i]), Escape(input[i..][1..]));
      assert input[i..][1..] == input[i + 1..];
      out := out + EscapeByte(input[i]);
    }
    assert input[|input|..] == "";
    assert out + "" == out;
  }

  method WriteIndent(out: TextBuffer, indent: nat)
    modifies out
    ensures out.text == old(out.text) + Spaces(2 * indent)
  {
    out.Append(Spaces(2 * indent));
  }

  /** The end of an element's line: a comma unless it is the last one. */
  method WriteLineEnd(out: TextBuffer, more: bool)
    modifies out
    ensures out.text == old(out.text) + (if more then ",\n" else "\n")
  {
    if more {
      out.Append(",");
    }
    out.Append("\n");
  }

  /** A member's name and the colon behind it. */
  method WriteKey(out: TextBuffer, key: string)
    modifies out
    ensures out.text == old(out.text) + Quoted(key) + ": "
  {
    hide Escape;
    out.Append("\"");
    var escaped := JsonEscape(key);
    out.Append(escaped);
    out.Append("\": ");
  }

  method Write(v: Json, out: TextBuffer, indent: nat)
    modifies out
    ensures out.text == old(out.text) + Render(v, indent)
    decreases v, 1
  {
    match v
    case Null => out.Append("null");
    case Bool(b) => out.Append(if b then "true" else "false");
    case Int(i) => out.Append(SignedDecimal(i));
    case Uint(u) => out.Append(Decimal(u));
    case Str(s) =>
      var escaped := JsonEscape(s);
      out.Append("\"");
      out.Append(escaped);
      out.Append("\"");
      Assoc3(old(out.text), "\"", escaped, "\"");
    case Arr(items) => WriteArray(v, out, indent);
    case Obj(members) => WriteObject(v, out, indent);
  }

  lemma Assoc3(a: string, b: string, c: string, d: string)
    ensures a + b + c + d == a + (b + c + d)
  {
  }

  /** One line of an array or object: what was there, the new pieces, what is still to come. */
  lemma Line(text: string, a: string, b: string, c: string, more: string)
    ensures text + (a + (b + (c + more))) == text + a + b + c + more
  {
    Assoc(text, a, b + (c + more));
    Assoc(text + a, b, c + more);
    Assoc(text + a + b, c, more);
  }

  method WriteArray(v: Json, out: TextBuffer, indent: nat)
    requires v.Arr?
    modifies out
    ensures out.text == old(out.text) + Render(v, indent)
    decreases v, 0
  {
    hide RenderItems, Quoted, Decimal, SignedDecimal;
    var items := v.items;
    if items == [] {
      out.Append("[]");
      return;
    }
    out.Append("[\n");
    ghost var opening := out.text;
    for i := 0 to |items|
      invariant out.text + RenderItems(items[i..], indent) == opening + RenderItems(items, indent)
    {
      ghost var start := out.text;
      WriteIndent(out, indent + 1);
      Write(items[i], out, indent + 1);
      WriteLineEnd(out, i + 1 != |items|);
      ItemLine(start, items[i..], indent);
      assert items[i..][1..] == items[i + 1..] && items[i..][0] == items[i];
    }
    ClosedBody(opening, items, indent, out.text);
    WriteIndent(out, indent);
    out.Append("]");
    Line(old(out.text), "[\n", RenderItems(items, indent), Spaces(2 * indent), "]");
  }

  lemma ItemLine(start: string, items: seq<Json>, indent: nat)
    requires items != []
    ensures start + RenderItems(items, indent)
         == start + Spaces(2 * (indent + 1)) + Render(items[0], indent + 1) + LineEnd(|items| - 1)
          + RenderItems(items[1..], indent)
  {
    hide Render, LineEnd;
    var pad, value, end := Spaces(2 * (indent + 1)), Render(items[0], indent + 1), LineEnd(|items| - 1);
    Line(start, pad, value, end, RenderItems(items[1..], indent));
  }

  lemma ClosedBody(opening: string, items: seq<Json>, indent: nat, text: string)
    requires text + RenderItems(items[|items|..], indent) == opening + RenderItems(items, indent)
    ensures text == opening + RenderItems(items, indent)
  {
    assert items[|items|..] == [];
    assert text + "" == text;
  }

  method WriteObject(v: Json, out: TextBuffer, indent: nat)
    requires v.Obj?
    modifies out
    ensures out.text == old(out.text) + Render(v, indent)
    decreases v, 0
  {
    hide RenderMembers, Quoted, Escape, Decimal, SignedDecimal;
    var members := v.members;
    if members == [] {
      out.Append("{}");
      return;
    }
    out.Append("{\n");
    ghost var opening := out.text;
    for i := 0 to |members|
      invariant out.text + RenderMembers(members[i..], indent) == opening + RenderMembers(members, indent)
    {
      ghost var start := out.text;
      WriteIndent(out, indent + 1);
      WriteKey(out, members[i].key);
      Write(members[i].value, out, indent + 1);
      WriteLineEnd(out, i + 1 != |members|);
      MemberLine(start, members[i..], indent);
      assert members[i..][1..] == members[i + 1..] && members[i..][0] == members[i];
    }
    ClosedMembers(opening, members, indent, out.text);
    WriteIndent(out, indent);
    out.Append("}");
    Line(old(out.text), "{\n", RenderMembers(members, indent), Spaces(2 * indent), "}");
  }

  lemma MemberLine(start: string, members: seq<Member>, indent: nat)
    requires members != []
    ensures start + RenderMembers(members, indent)
         == start + Spaces(2 * (indent + 1)) + Quoted(members[0].key) + ": "
          + Render(members[0].value, indent + 1) + LineEnd(|members| - 1)
          + RenderMembers(members[1..], indent)
  {
    hide Quoted, Render, LineEnd;
    var pad, key := Spaces(2 * (indent + 1)), Quoted(members[0].key);
    var value, end := Render(members[0].value, indent + 1), LineEnd(|members| - 1);
    var more := RenderMembers(members[1..], indent);
    Line(start, pad, key, ": ", value + (end + more));
    Assoc(start + pad + key + ": ", value, end + more);
    Assoc(start + pad + key + ": " + value, end, more);
  }

  lemma ClosedMembers(opening: string, members: seq<Member>, indent: nat, text: string)
    requires text + RenderMembers(members[|members|..], indent) == opening + RenderMembers(members, indent)
    ensures text == opening + RenderMembers(members, indent)
  {
    assert members[|members|..] == [];
    assert text + "" == text;
  }

  datatype Kind = KNull | KBool | KInt | KUint | KString | KArray | KObject

  /** JsonValue: every field is present, the kind says which one counts. */
  class JsonValue {
    var kind: Kind
    var boolValue: bool
    var intValue: int64
    var uintValue: uint64
    var stringValue: string
    var items: seq<Json>
    var members: seq<Member>

    /** The tree this object stands for. */
    function Tree(): Json
      reads this
    {
      match kind
      case KNull => Null
      case KBool => Bool(boolValue)
      case KInt => Int(intValue)
      case KUint => Uint(uintValue)
      case KString => Str(stringValue)
      case KArray => Arr(items)
      case KObject => Obj(members)
    }

    constructor (kind: Kind)
      ensures this.kind == kind
      ensures !boolValue && intValue == 0 && uintValue == 0 && stringValue == "" && items == [] && members == []
    {
      this.kind := kind;
      boolValue, intValue, uintValue, stringValue := false, 0, 0, "";
      items, members := [], [];
    }

    method Push(value: Json)
      modifies this`items
      ensures items == old(items) + [value]
    {
      items := items + [value];
    }

    method Set(key: string, value: Json)
      modifies this`members
      ensures members == WithMember(old(members), key, value)
    {
      for i := 0 to |members|
        invariant members == old(members)
        invariant forall j :: 0 <= j < i ==> members[j].key != key
      {
        if members[i].key == key {
          members := members[i := Member(key, value)];
          return;
        }
      }
      members := members + [Member(key, value)];
    }

    method Has(key: string) returns (found: bool)
      ensures found <==> HasKey(members, key)
    {
      for i := 0 to |members|
        invariant forall j :: 0 <= j < i ==> members[j].key != key
      {
        if members[i].key == key {
          return true;
        }
      }
      return false;
    }

    /** The printed document reads back, by the RFC 8259 grammar, as exactly what the fields hold. */
    method Dump() returns (text: string)
      ensures text == Document(Tree())
      ensures kind == KNull ==> ReadDocument(text) == Some(DNull)
      ensures kind == KBool ==> ReadDocument(text) == Some(DBool(boolValue))
      ensures kind == KInt ==> ReadDocument(text) == Some(DNumber(intValue, 0))
      ensures kind == KUint ==> ReadDocument(text) == Some(DNumber(uintValue, 0))
      ensures kind == KString ==> ReadDocument(text) == Some(DString(stringValue))
      ensures kind == KArray ==> ReadDocument(text) == Some(DArray(ItemMeanings(items)))
      ensures kind == KObject ==> ReadDocument(text) == Some(DObject(MemberMeanings(members)))
    {
      var out := new TextBuffer();
      Write(Tree(), out, 0);
      out.Append("\n");
      assert "" + Render(Tree(), 0) == Render(Tree(), 0);
      text := out.text;
      DocumentRoundTrip(Tree());
    }
  }
}

/** The reader recovers the tree from the printed document. */
module JsonRoundTrip {
  import opened Text
  import opened JsonTree
  import opened JsonReader

  /** The parsed value a tree stands for: numbers by value, members in order. */
  function Meaning(v: Json): Doc {
    match v
    case Null => DNull
    case Bool(b) => DBool(b)
    case Int(i) => DNumber(i, 0)
    case Uint(u) => DNumber(u, 0)
    case Str(s) => DString(s)
    case Arr(items) => DArray(ItemMeanings(items))
    case Obj(members) => DObject(MemberMeanings(members))
  }

  function ItemMeanings(items: seq<Json>): seq<Doc> {
    if items == [] then [] else [Meaning(items[0])] + ItemMeanings(items[1..])
  }

  function MemberMeanings(members: seq<Member>): seq<(string, Doc)> {
    if members == [] then []
    else [(members[0].key, Meaning(members[0].value))] + MemberMeanings(members[1..])
  }

  /** A text that cannot be mistaken for the continuation of a number. */
  predicate Delimited(rest: string) {
    rest == "" || !(IsDigit(rest[0]) || rest[0] == '.' || rest[0] == 'e' || rest[0] == 'E')
  }

  // ----- strings

  lemma ReadEscapedByte(c: char, rest: string)
    requires c < ' ' || c == '"' || c == '\\'
    ensures EscapeByte(c)[0] == '\\'
    ensures ReadEscape(EscapeByte(c)[1..] + rest) == Got([c], rest)
  {
    var t := EscapeByte(c)[1..] + rest;
    assert t[1..] == EscapeByte(c)[2..] + rest;
    if |EscapeByte(c)| == 2 {
      assert t[1..] == rest;
    } else {
      Hex4Denotes(c as int);
      assert EscapeByte(c) == "\\u" + Hex4(c as int);
      assert t[1..] == Hex4(c as int) + rest;
      assert t[1..][..4] == Hex4(c as int) && t[1..][4..] == rest;
      assert ReadHex4(t[1..]) == Got(c as int, rest);
    }
  }

  /** Reading the escaped form of one byte, then what follows it. */
  lemma ReadByte(c: char, tail: string, s: string, rest: string)
    requires ReadChars(tail) == Got(s, rest)
    ensures ReadChars(EscapeByte(c) + tail) == Got([c] + s, rest)
  {
    var t := EscapeByte(c) + tail;
    if c < ' ' || c == '"' || c == '\\' {
      ReadEscapedByte(c, tail);
      assert t[1..] == EscapeByte(c)[1..] + tail;
      assert t[0] == '\\';
    } else {
      assert t[0] == c && t[1..] == tail;
    }
  }

  lemma {:induction false} ReadEscaped(s: string, rest: string)
    ensures ReadChars(Escape(s) + ("\"" + rest)) == Got(s, rest)
  {
    if s == "" {
      assert Escape(s) + ("\"" + rest) == "\"" + rest;
      assert ("\"" + rest)[1..] == rest;
    } else {
      hide ReadChars, EscapeByte;
      var tail := Escape(s[1..]) + ("\"" + rest);
      ReadEscaped(s[1..], rest);
      ReadByte(s[0], tail, s[1..], rest);
      Assoc(EscapeByte(s[0]), Escape(s[1..]), "\"" + rest);
      assert s == [s[0]] + s[1..];
    }
  }

  lemma Assoc(a: string, b: string, c: string)
    ensures (a + b) + c == a + (b + c)
  {
  }

  lemma ReadQuoted(s: string, rest: string)
    ensures ReadString(Quoted(s) + rest) == Got(s, rest)
  {
    hide ReadChars, Escape;
    ReadEscaped(s, rest);
    assert (Quoted(s) + rest)[1..] == Escape(s) + ("\"" + rest);
  }

  /** No two strings have the same escaped form. */
  lemma EscapeIsInjective(s: string, t: string)
    requires Escape(s) == Escape(t)
    ensures s == t
  {
    ReadEscaped(s, "");
    ReadEscaped(t, "");
  }

  /** A quotation mark in escaped text always stands behind an escaping backslash. */
  ghost predicate NoBareQuote(s: string) {
    s == "" ||
    (s[0] != '"' && (if s[0] == '\\' then |s| > 1 && NoBareQuote(s[2..]) else NoBareQuote(s[1..])))
  }

  lemma {:induction false} NoBareQuoteInPlainText(p: string, rest: string)
    requires forall i :: 0 <= i < |p| ==> p[i] != '"' && p[i] != '\\'
    requires NoBareQuote(rest)
    ensures NoBareQuote(p + rest)
  {
    if p == "" {
      assert p + rest == rest;
    } else {
      NoBareQuoteInPlainText(p[1..], rest);
      assert (p + rest)[1..] == p[1..] + rest;
    }
  }

  /** Escaped text holds no bare quotation mark and no control character. */
  lemma {:induction false} EscapeIsClean(s: string)
    ensures NoBareQuote(Escape(s))
    ensures forall i :: 0 <= i < |Escape(s)| ==> Escape(s)[i] >= ' '
  {
    if s != "" {
      var c, tail := s[0], Escape(s[1..]);
      EscapeIsClean(s[1..]);
      assert Escape(s) == EscapeByte(c) + tail;
      if |EscapeByte(c)| == 1 {
        NoBareQuoteInPlainText(EscapeByte(c), tail);
      } else if |EscapeByte(c)| == 2 {
        assert (EscapeByte(c) + tail)[2..] == tail;
      } else {
        NoBareQuoteInPlainText(EscapeByte(c)[2..], tail);
        assert (EscapeByte(c) + tail)[2..] == EscapeByte(c)[2..] + tail;
      }
    }
  }

  // ----- numbers

  lemma {:induction false} DigitCountOfDigits(d: string, rest: string)
    requires AllDigits(d) && (rest == "" || !IsDigit(rest[0]))
    ensures DigitCount(d + rest) == |d|
  {
    if d == "" {
      assert d + rest == rest;
    } else {
      DigitCountOfDigits(d[1..], rest);
      assert (d + rest)[1..] == d[1..] + rest;
    }
  }

  lemma ReadDecimal(n: nat, rest: string)
    requires Delimited(rest)
    ensures ReadUnsigned(Decimal(n) + rest) == Got((n, 0), rest)
  {
    var s := Decimal(n) + rest;
    DigitCountOfDigits(Decimal(n), rest);
    DecimalDenotes(n);
    assert s[..|Decimal(n)|] == Decimal(n) && s[|Decimal(n)|..] == rest;
    assert Decimal(n) + "" == Decimal(n);
    assert ReadExponent(rest) == Got(0, rest);
  }

  lemma ReadSignedDecimal(i: int, rest: string)
    requires Delimited(rest)
    ensures ReadNumber(SignedDecimal(i) + rest) == Got(DNumber(i, 0), rest)
  {
    hide ReadUnsigned, Decimal;
    var s := SignedDecimal(i) + rest;
    if i < 0 {
      ReadDecimal(-i, rest);
      assert s[0] == '-' && s[1..] == Decimal(-i) + rest;
    } else {
      ReadDecimal(i, rest);
      assert IsDigit(s[0]);
    }
  }

  lemma SignedDecimalStart(i: int)
    ensures SignedDecimal(i) != ""
    ensures SignedDecimal(i)[0] == '-' || IsDigit(SignedDecimal(i)[0])
  {
  }

  // ----- white space

  lemma {:induction false} SkipSpaces(n: nat, rest: string)
    ensures SkipWs(Spaces(n) + rest) == SkipWs(rest)
  {
    if n == 0 {
      assert Spaces(0) + rest == rest;
    } else {
      SkipSpaces(n - 1, rest);
      assert (Spaces(n) + rest)[1..] == Spaces(n - 1) + rest;
    }
  }

  lemma SkipNewline(rest: string)
    ensures SkipWs("\n" + rest) == SkipWs(rest)
  {
    assert ("\n" + rest)[1..] == rest;
  }

  /** What a rendered value starts with: never white space, never a closing bracket. */
  lemma RenderStart(v: Json, indent: nat, rest: string)
    ensures Render(v, indent) != ""
    ensures SkipWs(Render(v, indent) + rest) == Render(v, indent) + rest
    ensures Render(v, indent)[0] != ']' && Render(v, indent)[0] != '}'
  {
    if v.Int? {
      SignedDecimalStart(v.i);
    } else if v.Arr? && v.items != [] {
      assert Render(v, indent)[0] == '[';
    } else if v.Obj? && v.members != [] {
      assert Render(v, indent)[0] == '{';
    }
    assert (Render(v, indent) + rest)[0] == Render(v, indent)[0];
  }

  /** Behind the last line end: the closing indentation and the bracket. */
  lemma SkipToClose(indent: nat, bracket: string, rest: string)
    requires bracket == "]" || bracket == "}"
    ensures SkipWs(Spaces(2 * indent) + bracket + rest) == bracket + rest
  {
    assert Spaces(2 * indent) + bracket + rest == Spaces(2 * indent) + (bracket + rest);
    SkipSpaces(2 * indent, bracket + rest);
  }

  // ----- values

  lemma ReadLiterals(rest: string)
    ensures ReadValue("null" + rest) == Got(DNull, rest)
    ensures ReadValue("true" + rest) == Got(DBool(true), rest)
    ensures ReadValue("false" + rest) == Got(DBool(false), rest)
  {
    assert ("null" + rest)[..4] == "null" && ("null" + rest)[4..] == rest;
    assert ("true" + rest)[..4] == "true" && ("true" + rest)[4..] == rest;
    assert ("false" + rest)[..5] == "false" && ("false" + rest)[5..] == rest;
  }

  lemma ReadInteger(i: int, rest: string)
    requires Delimited(rest)
    ensures ReadValue(SignedDecimal(i) + rest) == Got(DNumber(i, 0), rest)
  {
    hide ReadNumber, ReadString, ReadElements, ReadMembers, ReadLiteral, SkipWs, SignedDecimal;
    SignedDecimalStart(i);
    ReadSignedDecimal(i, rest);
    assert (SignedDecimal(i) + rest)[0] == SignedDecimal(i)[0];
  }

  lemma ReadEmpty(rest: string)
    ensures ReadValue("[]" + rest) == Got(DArray([]), rest)
    ensures ReadValue("{}" + rest) == Got(DObject([]), rest)
  {
    assert ("[]" + rest)[1..] == "]" + rest && ("]" + rest)[1..] == rest;
    assert ("{}" + rest)[1..] == "}" + rest && ("}" + rest)[1..] == rest;
  }

  /** Reading a rendered value takes exactly its text and gives back its meaning. */
  lemma {:induction false} ReadRendered(v: Json, indent: nat, rest: string)
    requires Delimited(rest)
    ensures ReadValue(Render(v, indent) + rest) == Got(Meaning(v), rest)
    decreases v, 2
  {
    match v
    case Null => ReadLiterals(rest);
    case Bool(b) => ReadLiterals(rest);
    case Int(i) => ReadInteger(i, rest);
    case Uint(u) => ReadInteger(u, rest);
    case Str(t) =>
      ReadQuoted(t, rest);
      assert (Quoted(t) + rest)[0] == '"';
    case Arr(items) => if items == [] { ReadEmpty(rest); } else { ReadArray(items, indent, rest); }
    case Obj(members) => if members == [] { ReadEmpty(rest); } else { ReadObject(members, indent, rest); }
  }

  /** An opening bracket, a line break, and the elements. */
  lemma OpenArray(body: string, values: seq<Doc>, rest: string)
    requires SkipWs(body) != "" && SkipWs(body)[0] != ']'
    requires ReadElements(SkipWs(body)) == Got(values, rest)
    ensures ReadValue("[\n" + body) == Got(DArray(values), rest)
  {
    hide ReadElements, ReadMembers, ReadString, ReadNumber, ReadLiteral;
    assert ("[\n" + body)[1..] == "\n" + body;
    SkipNewline(body);
  }

  lemma OpenObject(body: string, values: seq<(string, Doc)>, rest: string)
    requires SkipWs(body) != "" && SkipWs(body)[0] != '}'
    requires ReadMembers(SkipWs(body)) == Got(values, rest)
    ensures ReadValue("{\n" + body) == Got(DObject(values), rest)
  {
    hide ReadElements, ReadMembers, ReadString, ReadNumber, ReadLiteral;
    assert ("{\n" + body)[1..] == "\n" + body;
    SkipNewline(body);
  }

  lemma Assoc4(a: string, b: string, c: string, d: string)
    ensures (a + (b + c)) + d == a + (b + (c + d))
  {
    Assoc(a, b + c, d);
    Assoc(b, c, d);
  }

  lemma ReadArray(items: seq<Json>, indent: nat, rest: string)
    requires items != []
    ensures ReadValue(Render(Arr(items), indent) + rest) == Got(DArray(ItemMeanings(items)), rest)
    decreases items, 1
  {
    hide ReadValue, ReadElements, SkipWs;
    var closing := Spaces(2 * indent) + "]" + rest;
    Assoc4("[\n", RenderItems(items, indent), Spaces(2 * indent) + "]", rest);
    FirstItem(items, indent, closing);
    ReadItems(items, indent, rest);
    OpenArray(RenderItems(items, indent) + closing, ItemMeanings(items), rest);
  }

  lemma ReadObject(members: seq<Member>, indent: nat, rest: string)
    requires members != []
    ensures ReadValue(Render(Obj(members), indent) + rest)
         == Got(DObject(MemberMeanings(members)), rest)
    decreases members, 1
  {
    hide ReadValue, ReadMembers, SkipWs, Quoted;
    var closing := Spaces(2 * indent) + "}" + rest;
    Assoc4("{\n", RenderMembers(members, indent), Spaces(2 * indent) + "}", rest);
    FirstMember(members, indent, closing);
    ReadRenderedMembers(members, indent, rest);
    OpenObject(RenderMembers(members, indent) + closing, MemberMeanings(members), rest);
  }

  /** Where the first element starts, and what stands behind it. */
  lemma FirstItem(items: seq<Json>, indent: nat, closing: string)
    requires items != []
    ensures var start := SkipWs(RenderItems(items, indent) + closing);
            && start == Render(items[0], indent + 1)
                        + (LineEnd(|items| - 1) + (RenderItems(items[1..], indent) + closing))
            && start != "" && start[0] != ']'
  {
    var pad, text, end := Spaces(2 * (indent + 1)), Render(items[0], indent + 1), LineEnd(|items| - 1);
    var more := RenderItems(items[1..], indent);
    Assoc4(pad, text, end + more, closing);
    Assoc(end, more, closing);
    SkipSpaces(2 * (indent + 1), text + (end + (more + closing)));
    RenderStart(items[0], indent + 1, end + (more + closing));
  }

  /** Reading an element with another one behind it. */
  lemma ReadOneItem(s: string, v: Doc, more: string, values: seq<Doc>, rest: string)
    requires ReadValue(s) == Got(v, ",\n" + more)
    requires ReadElements(SkipWs(more)) == Got(values, rest)
    ensures ReadElements(s) == Got([v] + values, rest)
  {
    hide ReadValue;
    assert (",\n" + more)[1..] == "\n" + more;
    SkipNewline(more);
  }

  lemma ReadLastItem(s: string, v: Doc, close: string, rest: string)
    requires ReadValue(s) == Got(v, "\n" + close) && SkipWs(close) == "]" + rest
    ensures ReadElements(s) == Got([v], rest)
  {
    hide ReadValue;
    SkipNewline(close);
    assert ("]" + rest)[1..] == rest;
  }

  lemma {:induction false} ReadItems(items: seq<Json>, indent: nat, rest: string)
    requires items != []
    ensures ReadElements(SkipWs(RenderItems(items, indent) + (Spaces(2 * indent) + "]" + rest)))
         == Got(ItemMeanings(items), rest)
    decreases items, 0
  {
    hide ReadValue, ReadElements, SkipWs, Render;
    var closing := Spaces(2 * indent) + "]" + rest;
    var more := RenderItems(items[1..], indent) + closing;
    var s := SkipWs(RenderItems(items, indent) + closing);
    assert ReadValue(s) == Got(Meaning(items[0]), LineEnd(|items| - 1) + more) by {
      FirstItem(items, indent, closing);
      ReadRendered(items[0], indent + 1, LineEnd(|items| - 1) + more);
    }
    if |items| == 1 {
      assert more == closing && ItemMeanings(items) == [Meaning(items[0])];
      SkipToClose(indent, "]", rest);
      ReadLastItem(s, Meaning(items[0]), closing, rest);
    } else {
      ReadItems(items[1..], indent, rest);
      ReadOneItem(s, Meaning(items[0]), more, ItemMeanings(items[1..]), rest);
    }
  }

  lemma FirstMember(members: seq<Member>, indent: nat, closing: string)
    requires members != []
    ensures var start := SkipWs(RenderMembers(members, indent) + closing);
            && start == Quoted(members[0].key) + (": " + (Render(members[0].value, indent + 1)
                        + (LineEnd(|members| - 1) + (RenderMembers(members[1..], indent) + closing))))
            && start != "" && start[0] == '"'
  {
    var pad, key, text := Spaces(2 * (indent + 1)), Quoted(members[0].key), Render(members[0].value, indent + 1);
    var end, more := LineEnd(|members| - 1), RenderMembers(members[1..], indent);
    Assoc4(pad, key, ": " + (text + (end + more)), closing);
    Assoc4(": ", text, end + more, closing);
    Assoc(end, more, closing);
    SkipSpaces(2 * (indent + 1), key + (": " + (text + (end + (more + closing)))));
  }

  /** Reading a member with another one behind it. */
  lemma ReadOneMember(s: string, key: string, value: string, v: Doc, more: string,
                      members: seq<(string, Doc)>, rest: string)
    requires ReadString(s) == Got(key, ": " + value)
    requires ReadValue(SkipWs(value)) == Got(v, ",\n" + more)
    requires ReadMembers(SkipWs(more)) == Got(members, rest)
    ensures ReadMembers(s) == Got([(key, v)] + members, rest)
  {
    hide ReadString, ReadValue;
    AfterColon(value);
    assert (",\n" + more)[1..] == "\n" + more;
    SkipNewline(more);
  }

  lemma ReadLastMember(s: string, key: string, value: string, v: Doc, close: string, rest: string)
    requires ReadString(s) == Got(key, ": " + value)
    requires ReadValue(SkipWs(value)) == Got(v, "\n" + close) && SkipWs(close) == "}" + rest
    ensures ReadMembers(s) == Got([(key, v)], rest)
  {
    hide ReadString, ReadValue;
    AfterColon(value);
    SkipNewline(close);
    assert ("}" + rest)[1..] == rest;
  }

  lemma AfterColon(value: string)
    ensures SkipWs(": " + value) == ": " + value
    ensures SkipWs((": " + value)[1..]) == SkipWs(value)
  {
    assert (": " + value)[1..] == Spaces(1) + value;
    SkipSpaces(1, value);
  }

  lemma {:induction false} ReadRenderedMembers(members: seq<Member>, indent: nat, rest: string)
    requires members != []
    ensures ReadMembers(SkipWs(RenderMembers(members, indent) + (Spaces(2 * indent) + "}" + rest)))
         == Got(MemberMeanings(members), rest)
    decreases members, 0
  {
    hide ReadString, ReadValue, ReadMembers, SkipWs, Render, Quoted;
    var m := members[0];
    var closing := Spaces(2 * indent) + "}" + rest;
    var more := RenderMembers(members[1..], indent) + closing;
    var tail := LineEnd(|members| - 1) + more;
    var value := Render(m.value, indent + 1) + tail;
    var s := SkipWs(RenderMembers(members, indent) + closing);
    assert ReadString(s) == Got(m.key, ": " + value) by {
      FirstMember(members, indent, closing);
      ReadQuoted(m.key, ": " + value);
    }
    assert ReadValue(SkipWs(value)) == Got(Meaning(m.value), tail) by {
      RenderStart(m.value, indent + 1, tail);
      ReadRendered(m.value, indent + 1, tail);
    }
    if |members| == 1 {
      assert more == closing && MemberMeanings(members) == [(m.key, Meaning(m.value))];
      SkipToClose(indent, "}", rest);
      ReadLastMember(s, m.key, value, Meaning(m.value), closing, rest);
    } else {
      ReadRenderedMembers(members[1..], indent, rest);
      ReadOneMember(s, m.key, value, Meaning(m.value), more, MemberMeanings(members[1..]), rest);
    }
  }

  /** Every printed document is JSON, and reads back as the tree it was printed from. */
  lemma DocumentRoundTrip(v: Json)
    ensures ReadDocument(Document(v)) == Some(Meaning(v))
  {
    RenderStart(v, 0, "\n");
    ReadRendered(v, 0, "\n");
    assert ("\n")[1..] == "";
  }

  // ----- trees that mean the same print alike

  lemma {:induction false} SameText(v: Json, w: Json, indent: nat)
    requires Meaning(v) == Meaning(w)
    ensures Render(v, indent) == Render(w, indent)
    decreases v, 1
  {
    match v
    case Arr(items) => SameItems(items, w.items, indent);
    case Obj(members) => SameMembers(members, w.members, indent);
    case _ =>
  }

  lemma {:induction false} SameItems(items: seq<Json>, others: seq<Json>, indent: nat)
    requires ItemMeanings(items) == ItemMeanings(others)
    ensures RenderItems(items, indent) == RenderItems(others, indent)
    ensures |items| == |others|
    decreases items, 0
  {
    if items != [] {
      hide Render, Meaning;
      var i, o := ItemMeanings(items), ItemMeanings(others);
      assert i[0] == o[0] && i[1..] == o[1..];
      assert i[1..] == ItemMeanings(items[1..]) && o[1..] == ItemMeanings(others[1..]);
      SameText(items[0], others[0], indent + 1);
      SameItems(items[1..], others[1..], indent);
    }
  }

  lemma {:induction false} SameMembers(members: seq<Member>, others: seq<Member>, indent: nat)
    requires MemberMeanings(members) == MemberMeanings(others)
    ensures RenderMembers(members, indent) == RenderMembers(others, indent)
    ensures |members| == |others|
    decreases members, 0
  {
    if members != [] {
      hide Render, Meaning, Quoted;
      var m, o := MemberMeanings(members), MemberMeanings(others);
      assert m[0] == o[0] && m[1..] == o[1..];
      assert m[1..] == MemberMeanings(members[1..]) && o[1..] == MemberMeanings(others[1..]);
      SameText(members[0].value, others[0].value, indent + 1);
      SameMembers(members[1..], others[1..], indent);
    }
  }

  /** Two trees print alike exactly when they mean the same. */
  lemma PrintedAlike(v: Json, w: Json)
    ensures Document(v) == Document(w) <==> Meaning(v) == Meaning(w)
  {
    DocumentRoundTrip(v);
    DocumentRoundTrip(w);
    if Meaning(v) == Meaning(w) {
      SameText(v, w, 0);
    }
  }
}

/** The values the report is built from, and the text they are printed as. */
module JsonTree {
  import opened Text

  datatype Json =
    | Null
    | Bool(b: bool)
    | Int(i: int64)
    | Uint(u: uint64)
    | Str(s: string)
    | Arr(items: seq<Json>)
    | Obj(members: seq<Member>)

  datatype Member = Member(key: string, value: Json)

  const Backspace := '\U{0008}'
  const FormFeed := '\U{000C}'

  /** The characters one byte of a string contributes to a string literal. */
  function EscapeByte(c: char): string {
    if c == '"' then "\\\""
    else if c == '\\' then "\\\\"
    else if c == Backspace then "\\b"
    else if c == FormFeed then "\\f"
    else if c == '\n' then "\\n"
    else if c == '\r' then "\\r"
    else if c == '\t' then "\\t"
    else if c < ' ' then "\\u" + Hex4(c as int)
    else [c]
  }

  /** The seven short escapes, the control characters without one, and every other byte as it is. */
  lemma EscapesAre(c: char)
    ensures EscapeByte('"') == "\\\"" && EscapeByte('\\') == "\\\\"
    ensures EscapeByte('\U{0008}') == "\\b" && EscapeByte('\U{000C}') == "\\f" && EscapeByte('\n') == "\\n"
    ensures EscapeByte('\r') == "\\r" && EscapeByte('\t') == "\\t"
    ensures c < ' ' && c !in {'\U{0008}', '\U{000C}', '\n', '\r', '\t'} ==>
              |EscapeByte(c)| == 6 && EscapeByte(c)[..4] == "\\u00"
    ensures c >= ' ' && c != '"' && c != '\\' ==> EscapeByte(c) == [c]
  {
  }

  function Escape(s: string): string {
    if s == "" then "" else EscapeByte(s[0]) + Escape(s[1..])
  }

  function Quoted(s: string): string {
    "\"" + Escape(s) + "\""
  }

  function Spaces(n: nat): (s: string)
    ensures |s| == n && forall i :: 0 <= i < n ==> s[i] == ' '
  {
    seq(n, _ => ' ')
  }

  /** The indented rendering of a value whose opening line is already indented. */
  function Render(v: Json, indent: nat): string {
    match v
    case Null => "null"
    case Bool(b) => if b then "true" else "false"
    case Int(i) => SignedDecimal(i)
    case Uint(u) => Decimal(u)
    case Str(s) => Quoted(s)
    case Arr(items) =>
      if items == [] then "[]"
      else "[\n" + (RenderItems(items, indent) + (Spaces(2 * indent) + "]"))
    case Obj(members) =>
      if members == [] then "{}"
      else "{\n" + (RenderMembers(members, indent) + (Spaces(2 * indent) + "}"))
  }

  /** What ends the line of an element with `after` elements behind it. */
  function LineEnd(after: nat): string {
    if after > 0 then ",\n" else "\n"
  }

  function RenderItems(items: seq<Json>, indent: nat): string {
    if items == [] then ""
    else
      Spaces(2 * (indent + 1))
      + (Render(items[0], indent + 1) + (LineEnd(|items| - 1) + RenderItems(items[1..], indent)))
  }

  function RenderMembers(members: seq<Member>, indent: nat): string {
    if members == [] then ""
    else
      Spaces(2 * (indent + 1))
      + (Quoted(members[0].key) + (": "
      + (Render(members[0].value, indent + 1)
      + (LineEnd(|members| - 1) + RenderMembers(members[1..], indent)))))
  }

  /** The whole document: the root value and a newline. */
  function Document(v: Json): string {
    Render(v, 0) + "\n"
  }
}

/**
  A reader for the JSON grammar of RFC 8259: insignificant white space (section 2), objects
  (section 4), arrays (section 5), numbers (section 6) and strings (section 7). It knows
  nothing about the printer and is the reference the printer is judged by.
 */
module JsonReader {
  import opened Text

  /** A parsed text. A number is mantissa * 10^exponent. */
  datatype Doc =
    | DNull
    | DBool(b: bool)
    | DNumber(mantissa: int, exponent: int)
    | DString(s: string)
    | DArray(items: seq<Doc>)
    | DObject(members: seq<(string, Doc)>)

  /** What has been read so far, and the text behind it. */
  datatype Read<+T> = Fail | Got(value: T, rest: string)

  predicate IsWs(c: char) {
    c == ' ' || c == '\t' || c == '\n' || c == '\r'
  }

  function SkipWs(s: string): (r: string)
    ensures |r| <= |s|
    ensures r == "" || !IsWs(r[0])
  {
    if s != "" && IsWs(s[0]) then SkipWs(s[1..]) else s
  }

  function DigitCount(s: string): (k: nat)
    ensures k <= |s| && AllDigits(s[..k])
    ensures k < |s| ==> !IsDigit(s[k])
  {
    if s != "" && IsDigit(s[0]) then
      var k := DigitCount(s[1..]);
      assert s[..k + 1] == [s[0]] + s[1..][..k];
      k + 1
    else 0
  }

  // ----- section 6: number = [ minus ] int [ frac ] [ exp ]

  function ReadNumber(s: string): (r: Read<Doc>)
    ensures r.Got? ==> |r.rest| < |s|
  {
    if s != "" && s[0] == '-' then
      var r := ReadUnsigned(s[1..]);
      if r.Fail? then Fail else Got(DNumber(0 - r.value.0, r.value.1), r.rest)
    else
      var r := ReadUnsigned(s);
      if r.Fail? then Fail else Got(DNumber(r.value.0, r.value.1), r.rest)
  }

  function ReadUnsigned(s: string): (r: Read<(nat, int)>)
    ensures r.Got? ==> |r.rest| < |s|
  {
    var k := DigitCount(s);
    if k == 0 then Fail
    else
      // int = zero / ( digit1-9 *DIGIT )
      var k := if s[0] == '0' then 1 else k;
      var t := s[k..];
      // frac = decimal-point 1*DIGIT
      var f := if t != "" && t[0] == '.' then DigitCount(t[1..]) else 0;
      if t != "" && t[0] == '.' && f == 0 then Fail
      else
        var fraction := if f == 0 then "" else t[1..][..f];
        var e := ReadExponent(if f == 0 then t else t[1..][f..]);
        if e.Fail? then Fail
        else Got((DecimalValue(s[..k] + fraction), e.value - f), e.rest)
  }

  function ReadExponent(s: string): (r: Read<int>)
    ensures r.Got? ==> |r.rest| <= |s|
  {
    if s == "" || (s[0] != 'e' && s[0] != 'E') then Got(0, s)
    else
      var signed := |s| > 1 && (s[1] == '-' || s[1] == '+');
      var t := if signed then s[2..] else s[1..];
      var k := DigitCount(t);
      if k == 0 then Fail
      else
        var value := DecimalValue(t[..k]);
        Got(if signed && s[1] == '-' then 0 - value else value, t[k..])
  }

  // ----- section 7: string

  /** The bytes of a code point in UTF-8. */
  function Utf8(code: nat): string
    requires code < 0x11_0000
  {
    if code < 0x80 then [code as char]
    else if code < 0x800 then [(0xC0 + code / 0x40) as char, (0x80 + code % 0x40) as char]
    else if code < 0x1_0000 then
      [(0xE0 + code / 0x1000) as char, (0x80 + code / 0x40 % 0x40) as char, (0x80 + code % 0x40) as char]
    else
      [(0xF0 + code / 0x4_0000) as char, (0x80 + code / 0x1000 % 0x40) as char,
       (0x80 + code / 0x40 % 0x40) as char, (0x80 + code % 0x40) as char]
  }

  /** The four digits of a \u escape. */
  function ReadHex4(s: string): (r: Read<nat>)
    ensures r.Got? ==> |r.rest| < |s| && r.value < 0x1_0000
  {
    if |s| >= 4 && AllHexDigits(s[..4]) then
      HexValue4Bound(s[..4]);
      Got(HexValue(s[..4]), s[4..])
    else Fail
  }

  lemma HexValue4Bound(s: string)
    requires |s| == 4 && AllHexDigits(s)
    ensures HexValue(s) < 0x1_0000
  {
    assert s[..3][..2] == s[..2] && s[..2][..1] == s[..1] && s[..1][..0] == "";
    assert HexValue(s[..1]) < 16;
    assert HexValue(s[..2]) < 0x100;
    assert HexValue(s[..3]) < 0x1000;
  }

  /** The escape whose backslash has been read. A surrogate pair is one character. */
  function ReadEscape(s: string): (r: Read<string>)
    ensures r.Got? ==> |r.rest| < |s|
  {
    if s == "" then Fail
    else match s[0]
      case '"' => Got("\"", s[1..])
      case '\\' => Got("\\", s[1..])
      case '/' => Got("/", s[1..])
      case 'b' => Got("\U{0008}", s[1..])
      case 'f' => Got("\U{000C}", s[1..])
      case 'n' => Got("\n", s[1..])
      case 'r' => Got("\r", s[1..])
      case 't' => Got("\t", s[1..])
      case 'u' =>
        var h := ReadHex4(s[1..]);
        if h.Fail? then Fail
        else if 0xD800 <= h.value < 0xDC00 && StartsWith(h.rest, "\\u") then
          var l := ReadHex4(h.rest[2..]);
          if l.Got? && 0xDC00 <= l.value < 0xE000 then
            Got(Utf8(0x1_0000 + (h.value - 0xD800) * 0x400 + (l.value - 0xDC00)), l.rest)
          else Got(Utf8(h.value), h.rest)
        else Got(Utf8(h.value), h.rest)
      case _ => Fail
  }

  /** The characters up to the closing quotation mark; control characters must be escaped. */
  function ReadChars(s: string): (r: Read<string>)
    ensures r.Got? ==> |r.rest| < |s|
  {
    if s == "" || s[0] < ' ' then Fail
    else if s[0] == '"' then Got("", s[1..])
    else if s[0] == '\\' then
      var e := ReadEscape(s[1..]);
      if e.Fail? then Fail
      else
        var r := ReadChars(e.rest);
        if r.Fail? then Fail else Got(e.value + r.value, r.rest)
    else
      var r := ReadChars(s[1..]);
      if r.Fail? then Fail else Got([s[0]] + r.value, r.rest)
  }

  function ReadString(s: string): (r: Read<string>)
    ensures r.Got? ==> |r.rest| < |s|
  {
    if s != "" && s[0] == '"' then ReadChars(s[1..]) else Fail
  }

  // ----- sections 3, 4 and 5: values, objects and arrays

  function ReadLiteral(s: string, word: string, value: Doc): (r: Read<Doc>)
    requires word != ""
    ensures r.Got? ==> |r.rest| < |s|
  {
    if StartsWith(s, word) then Got(value, s[|word|..]) else Fail
  }

  function ReadValue(s: string): (r: Read<Doc>)
    ensures r.Got? ==> |r.rest| < |s|
    decreases |s|, 0
  {
    if s == "" then Fail
    else match s[0]
      case 'n' => ReadLiteral(s, "null", DNull)
      case 't' => ReadLiteral(s, "true", DBool(true))
      case 'f' => ReadLiteral(s, "false", DBool(false))
      case '"' =>
        var r := ReadString(s);
        if r.Fail? then Fail else Got(DString(r.value), r.rest)
      case '[' =>
        var t := SkipWs(s[1..]);
        if t != "" && t[0] == ']' then Got(DArray([]), t[1..])
        else
          var r := ReadElements(t);
          if r.Fail? then Fail else Got(DArray(r.value), r.rest)
      case '{' =>
        var t := SkipWs(s[1..]);
        if t != "" && t[0] == '}' then Got(DObject([]), t[1..])
        else
          var r := ReadMembers(t);
          if r.Fail? then Fail else Got(DObject(r.value), r.rest)
      case _ => ReadNumber(s)
  }

  /** One or more values separated by commas, and the closing bracket. */
  function ReadElements(s: string): (r: Read<seq<Doc>>)
    ensures r.Got? ==> |r.rest| < |s|
    decreases |s|, 1
  {
    var v := ReadValue(s);
    if v.Fail? then Fail
    else
      var t := SkipWs(v.rest);
      if t == "" then Fail
      else if t[0] == ']' then Got([v.value], t[1..])
      else if t[0] == ',' then
        var r := ReadElements(SkipWs(t[1..]));
        if r.Fail? then Fail else Got([v.value] + r.value, r.rest)
      else Fail
  }

  /** One or more members separated by commas, and the closing brace. */
  function ReadMembers(s: string): (r: Read<seq<(string, Doc)>>)
    ensures r.Got? ==> |r.rest| < |s|
    decreases |s|, 1
  {
    var k := ReadString(s);
    if k.Fail? then Fail
    else
      var c := SkipWs(k.rest);
      if c == "" || c[0] != ':' then Fail
      else
        var v := ReadValue(SkipWs(c[1..]));
        if v.Fail? then Fail
        else
          var t := SkipWs(v.rest);
          if t == "" then Fail
          else if t[0] == '}' then Got([(k.value, v.value)], t[1..])
          else if t[0] == ',' then
            var r := ReadMembers(SkipWs(t[1..]));
            if r.Fail? then Fail else Got([(k.value, v.value)] + r.value, r.rest)
          else Fail
  }

  /** JSON-text = ws value ws, and nothing else. */
  function ReadDocument(s: string): Option<Doc> {
    var r := ReadValue(SkipWs(s));
    if r.Got? && SkipWs(r.rest) == "" then Some(r.value) else None
  }
}

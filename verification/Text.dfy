/**
  Byte strings and numerals.

  The program works on std::string, a sequence of bytes. Here a byte is the character with
  that code, so a std::string is a `string` whose characters are all below 256; no theorem
  needs that bound, so all of them hold for every such string.
 */
module Text {

  datatype Option<+T> = None | Some(value: T)

  type int32 = x: int | -0x8000_0000 <= x < 0x8000_0000
  type uint32 = x: int | 0 <= x < 0x1_0000_0000
  type int64 = x: int | -0x8000_0000_0000_0000 <= x < 0x8000_0000_0000_0000
  type uint64 = x: int | 0 <= x < 0x1_0000_0000_0000_0000

  predicate IsDigit(c: char) {
    '0' <= c <= '9'
  }

  predicate IsHexDigit(c: char) {
    IsDigit(c) || 'a' <= c <= 'f' || 'A' <= c <= 'F'
  }

  /** The value of a hexadecimal digit of either case. */
  function DigitValue(c: char): (d: nat)
    requires IsHexDigit(c)
    ensures d < 16 && (IsDigit(c) ==> d < 10)
  {
    if IsDigit(c) then c as int - '0' as int
    else if 'a' <= c then c as int - 'a' as int + 10
    else c as int - 'A' as int + 10
  }

  /** The lower-case digit printf uses for `d`. */
  function DigitChar(d: nat): (c: char)
    requires d < 16
    ensures IsHexDigit(c) && DigitValue(c) == d
    ensures if d < 10 then IsDigit(c) else 'a' <= c <= 'f'
    ensures c == '0' <==> d == 0
  {
    if d < 10 then ('0' as int + d) as char else ('a' as int + (d - 10)) as char
  }

  predicate AllDigits(s: string) {
    forall i :: 0 <= i < |s| ==> IsDigit(s[i])
  }

  predicate AllHexDigits(s: string) {
    forall i :: 0 <= i < |s| ==> IsHexDigit(s[i])
  }

  /** What printf prints for %u: decimal digits without leading zeros. */
  function Decimal(n: nat): (s: string)
    ensures |s| > 0 && AllDigits(s)
  {
    if n < 10 then [DigitChar(n)] else Decimal(n / 10) + [DigitChar(n % 10)]
  }

  /** What printf prints for %d and what std::to_string prints. */
  function SignedDecimal(i: int): string {
    if i < 0 then "-" + Decimal(-i) else Decimal(i)
  }

  /** What printf prints for %x. */
  function Hex(n: nat): (s: string)
    ensures |s| > 0 && AllHexDigits(s)
  {
    if n < 16 then [DigitChar(n)] else Hex(n / 16) + [DigitChar(n % 16)]
  }

  /** What printf prints for %04x of a value that fits in four digits. */
  function Hex4(n: nat): (s: string)
    requires n < 0x10000
    ensures |s| == 4 && AllHexDigits(s)
  {
    var a, b, c := n / 16 / 16 / 16, n / 16 / 16, n / 16;
    [DigitChar(a), DigitChar(b % 16), DigitChar(c % 16), DigitChar(n % 16)]
  }

  /** The number a digit string denotes. */
  function DecimalValue(s: string): nat
    requires AllDigits(s)
  {
    if s == "" then 0 else DecimalValue(s[..|s| - 1]) * 10 + DigitValue(s[|s| - 1])
  }

  function HexValue(s: string): nat
    requires AllHexDigits(s)
  {
    if s == "" then 0 else HexValue(s[..|s| - 1]) * 16 + DigitValue(s[|s| - 1])
  }

  lemma {:induction false} DecimalDenotes(n: nat)
    ensures DecimalValue(Decimal(n)) == n
    ensures Decimal(n)[0] == '0' <==> n == 0
  {
    if n < 10 {
      assert Decimal(n)[..0] == "";
    } else {
      DecimalDenotes(n / 10);
      assert Decimal(n)[..|Decimal(n)| - 1] == Decimal(n / 10);
      assert Decimal(n)[0] == Decimal(n / 10)[0];
    }
  }

  lemma {:induction false} HexDenotes(n: nat)
    ensures HexValue(Hex(n)) == n
  {
    if n < 16 {
      assert Hex(n)[..0] == "";
    } else {
      HexDenotes(n / 16);
      assert Hex(n)[..|Hex(n)| - 1] == Hex(n / 16);
    }
  }

  lemma Hex4Denotes(n: nat)
    requires n < 0x10000
    ensures HexValue(Hex4(n)) == n
  {
    hide HexValue;
    var a, b, c := n / 16 / 16 / 16, n / 16 / 16, n / 16;
    HexValueOfFour(DigitChar(a), DigitChar(b % 16), DigitChar(c % 16), DigitChar(n % 16));
  }

  lemma HexValueOfFour(a: char, b: char, c: char, d: char)
    requires IsHexDigit(a) && IsHexDigit(b) && IsHexDigit(c) && IsHexDigit(d)
    ensures HexValue([a, b, c, d])
         == ((DigitValue(a) * 16 + DigitValue(b)) * 16 + DigitValue(c)) * 16 + DigitValue(d)
  {
    assert [a, b, c, d][..3] == [a, b, c] && [a, b, c][..2] == [a, b] && [a, b][..1] == [a] && [a][..0] == "";
    assert HexValue([a]) == DigitValue(a);
    assert HexValue([a, b]) == DigitValue(a) * 16 + DigitValue(b);
  }

  /** Does `s` begin with `prefix`? */
  predicate StartsWith(s: string, prefix: string) {
    |prefix| <= |s| && s[..|prefix|] == prefix
  }

  /** std::string::find(needle) != npos. */
  predicate Contains(s: string, needle: string) {
    exists i :: 0 <= i <= |s| && StartsWith(s[i..], needle)
  }

  /** Does `s` end with `suffix`? */
  predicate EndsWith(s: string, suffix: string) {
    |suffix| <= |s| && s[|s| - |suffix|..] == suffix
  }

  lemma ContainsExactly(s: string, needle: string)
    ensures Contains(s, needle) <==> exists a, b :: s == a + needle + b
  {
    if Contains(s, needle) {
      var i :| 0 <= i <= |s| && StartsWith(s[i..], needle);
      assert s == s[..i] + needle + s[i..][|needle|..];
    }
    if a, b :| s == a + needle + b {
      assert s[|a|..] == needle + b && (needle + b)[..|needle|] == needle;
      assert StartsWith(s[|a|..], needle);
    }
  }

  lemma EndsWithExactly(s: string, suffix: string)
    ensures EndsWith(s, suffix) <==> exists a :: s == a + suffix
  {
    if EndsWith(s, suffix) {
      assert s == s[..|s| - |suffix|] + suffix;
    }
  }
}

/** Statistics mode masks: how they are printed, and a reader that gets the mask back. */
module StatsModes {
  import opened Text

  const READ: bv32 := 1
  const READ_AND_CLEAR: bv32 := 2
  const BULK_READ: bv32 := 4
  const BULK_CLEAR: bv32 := 8
  const BULK_READ_AND_CLEAR: bv32 := 16
  const KNOWN: bv32 := 31

  /** The table of known modes: the bit and the name of entry `i`. */
  const MODE_COUNT: nat := 5

  function ModeBit(i: nat): bv32
    requires i < MODE_COUNT
  {
    match i
    case 0 => READ
    case 1 => READ_AND_CLEAR
    case 2 => BULK_READ
    case 3 => BULK_CLEAR
    case _ => BULK_READ_AND_CLEAR
  }

  function ModeText(i: nat): string
    requires i < MODE_COUNT
  {
    match i
    case 0 => "READ"
    case 1 => "READ_AND_CLEAR"
    case 2 => "BULK_READ"
    case 3 => "BULK_CLEAR"
    case _ => "BULK_READ_AND_CLEAR"
  }

  /** The union of the first `n` known modes. */
  function Low(n: nat): bv32
    requires n <= MODE_COUNT
  {
    match n
    case 0 => 0
    case 1 => 1
    case 2 => 3
    case 3 => 7
    case 4 => 15
    case _ => 31
  }

  predicate IsSet(modes: bv32, i: nat)
    requires i < MODE_COUNT
  {
    modes & ModeBit(i) != 0
  }

  /** The part of a mask the first `n` known modes account for, and the part none accounts for. */
  function KnownPart(modes: bv32, n: nat): bv32
    requires n <= MODE_COUNT
  {
    modes & Low(n)
  }

  function UnknownPart(modes: bv32): bv32 {
    Without(modes, KNOWN)
  }

  function Without(modes: bv32, known: bv32): bv32 {
    modes & !known
  }

  function Either(a: bv32, b: bv32): bv32 {
    a | b
  }

  lemma OneMoreMode(modes: bv32, n: nat)
    requires n < MODE_COUNT
    ensures KnownPart(modes, n + 1) == (if IsSet(modes, n) then Either(KnownPart(modes, n), ModeBit(n)) else KnownPart(modes, n))
  {
  }

  lemma PartsMakeTheMask(modes: bv32)
    ensures KnownPart(modes, 0) == 0
    ensures modes == (if UnknownPart(modes) != 0 then Either(KnownPart(modes, MODE_COUNT), UnknownPart(modes))
                      else KnownPart(modes, MODE_COUNT))
    ensures Either(0, 0) == 0
  {
  }

  const UNREPORTED := "UNREPORTED(0x0)"

  // ----- joining and splitting

  function Join(tokens: seq<string>): string {
    if tokens == [] then ""
    else if |tokens| == 1 then tokens[0]
    else tokens[0] + "|" + Join(tokens[1..])
  }

  /** The pieces of a text between its separators; there is always at least one. */
  function Split(s: string): (tokens: seq<string>)
    ensures tokens != []
  {
    if s == "" then [""]
    else
      var rest := Split(s[1..]);
      if s[0] == '|' then [""] + rest else [[s[0]] + rest[0]] + rest[1..]
  }

  predicate NoSeparator(t: string) {
    forall i :: 0 <= i < |t| ==> t[i] != '|'
  }

  lemma {:induction false} SplitFirst(t: string, s: string)
    requires NoSeparator(t)
    ensures Split(t + "|" + s) == [t] + Split(s)
    ensures Split(t) == [t]
  {
    if t == "" {
      assert t + "|" + s == "|" + s && ("|" + s)[1..] == s;
    } else {
      SplitFirst(t[1..], s);
      assert (t + "|" + s)[1..] == t[1..] + "|" + s;
      assert [t[0]] + t[1..] == t;
    }
  }

  lemma {:induction false} SplitJoin(tokens: seq<string>)
    requires tokens != [] && forall t :: t in tokens ==> NoSeparator(t)
    ensures Split(Join(tokens)) == tokens
  {
    assert tokens[0] in tokens;
    if |tokens| == 1 {
      SplitFirst(tokens[0], "");
      assert tokens == [tokens[0]];
    } else {
      assert forall t :: t in tokens[1..] ==> t in tokens;
      SplitJoin(tokens[1..]);
      SplitFirst(tokens[0], Join(tokens[1..]));
      assert tokens == [tokens[0]] + tokens[1..];
    }
  }

  /** Appending a token: the separator is written only behind a non-empty text. */
  lemma {:induction false} JoinOneMore(tokens: seq<string>, t: string)
    requires forall x :: x in tokens ==> x != ""
    ensures Join(tokens + [t]) == (if Join(tokens) != "" then Join(tokens) + "|" else "") + t
    ensures Join(tokens) == "" <==> tokens == []
  {
    if tokens == [] {
      assert tokens + [t] == [t];
    } else if |tokens| == 1 {
      assert tokens[0] in tokens;
      assert (tokens + [t])[1..] == [t];
    } else {
      assert tokens[0] in tokens;
      assert forall x :: x in tokens[1..] ==> x in tokens;
      JoinOneMore(tokens[1..], t);
      assert (tokens + [t])[1..] == tokens[1..] + [t];
    }
  }

  // ----- the printer

  function UnknownToken(unknown: bv32): string {
    "UNKNOWN(0x" + Hex(unknown as nat) + ")"
  }

  /** The names of the first `n` known modes that are set. */
  function KnownTokens(modes: bv32, n: nat): seq<string>
    requires n <= MODE_COUNT
  {
    if n == 0 then []
    else KnownTokens(modes, n - 1) + (if IsSet(modes, n - 1) then [ModeText(n - 1)] else [])
  }

  /** What is printed for a mask, piece by piece. */
  function Tokens(modes: bv32): seq<string> {
    if modes == 0 then [UNREPORTED]
    else
      KnownTokens(modes, MODE_COUNT)
      + (if UnknownPart(modes) != 0 then [UnknownToken(UnknownPart(modes))] else [])
  }

  /** The pieces, spelled out: the names in ascending order of their bits. */
  lemma TokensAre(modes: bv32)
    ensures KnownTokens(modes, MODE_COUNT) ==
            (if modes & 1 != 0 then ["READ"] else [])
            + (if modes & 2 != 0 then ["READ_AND_CLEAR"] else [])
            + (if modes & 4 != 0 then ["BULK_READ"] else [])
            + (if modes & 8 != 0 then ["BULK_CLEAR"] else [])
            + (if modes & 16 != 0 then ["BULK_READ_AND_CLEAR"] else [])
    ensures Tokens(0) == ["UNREPORTED(0x0)"]
    ensures modes != 0 ==>
              Tokens(modes) == KnownTokens(modes, MODE_COUNT)
                + (if modes & 0xFFFF_FFE0 != 0 then ["UNKNOWN(0x" + Hex((modes & 0xFFFF_FFE0) as nat) + ")"] else [])
  {
    RestAre(modes);
    hide UnknownPart, Hex;
    assert KnownTokens(modes, 0) == [];
    assert KnownTokens(modes, 1) == (if modes & 1 != 0 then ["READ"] else []);
    assert KnownTokens(modes, 2) == KnownTokens(modes, 1) + (if modes & 2 != 0 then ["READ_AND_CLEAR"] else []);
    assert KnownTokens(modes, 3) == KnownTokens(modes, 2) + (if modes & 4 != 0 then ["BULK_READ"] else []);
    assert KnownTokens(modes, 4) == KnownTokens(modes, 3) + (if modes & 8 != 0 then ["BULK_CLEAR"] else []);
  }

  lemma RestAre(modes: bv32)
    ensures UnknownPart(modes) == modes & 0xFFFF_FFE0
  {
  }

  lemma ModeTextIsAName(i: nat)
    requires i < MODE_COUNT
    ensures ModeText(i) != "" && NoSeparator(ModeText(i))
  {
  }

  lemma {:induction false} KnownTokensAreNames(modes: bv32, n: nat)
    requires n <= MODE_COUNT
    ensures forall t :: t in KnownTokens(modes, n) ==> t != "" && NoSeparator(t)
  {
    if n > 0 {
      KnownTokensAreNames(modes, n - 1);
      ModeTextIsAName(n - 1);
    }
  }

  method FormatStatsModes(modes: bv32) returns (result: string)
    ensures result == Join(Tokens(modes))
    ensures DecodeModes(result) == Some(modes)
  {
    hide ModeText, ModeBit, UnknownToken, DecodeModes, IsSet, Without, Low, Either, Join, KnownTokens;
    DecodeTokens(modes);
    if modes == 0 {
      JoinOne(UNREPORTED);
      return UNREPORTED;
    }
    result := "";
    var known: bv32 := 0;
    LowBits();
    for i := 0 to MODE_COUNT
      invariant result == Join(KnownTokens(modes, i))
      invariant known == Low(i)
    {
      TokenStep(modes, i);
      known := Either(known, ModeBit(i));
      if !IsSet(modes, i) {
        continue;
      }
      if result != "" {
        result := result + "|";
      }
      result := result + ModeText(i);
    }
    var unknown := Without(modes, known);
    LastTokenStep(modes);
    if unknown != 0 {
      if result != "" {
        result := result + "|";
      }
      result := result + UnknownToken(unknown);
    }
  }

  lemma LowBits()
    ensures Low(0) == 0 && Low(MODE_COUNT) == KNOWN
    ensures forall modes :: KnownTokens(modes, 0) == [] && Join([]) == ""
  {
  }

  lemma JoinOne(t: string)
    ensures Join([t]) == t
  {
  }

  lemma TokenStep(modes: bv32, i: nat)
    requires i < MODE_COUNT
    ensures Either(Low(i), ModeBit(i)) == Low(i + 1)
    ensures var text := Join(KnownTokens(modes, i));
            Join(KnownTokens(modes, i + 1)) ==
              (if IsSet(modes, i) then (if text != "" then text + "|" else "") + ModeText(i) else text)
  {
    hide Join, ModeText;
    KnownTokensAreNames(modes, i);
    JoinOneMore(KnownTokens(modes, i), ModeText(i));
    if !IsSet(modes, i) {
      assert KnownTokens(modes, i + 1) == KnownTokens(modes, i);
    }
  }

  lemma LastTokenStep(modes: bv32)
    requires modes != 0
    ensures var text, unknown := Join(KnownTokens(modes, MODE_COUNT)), Without(modes, KNOWN);
            Join(Tokens(modes)) ==
              (if unknown != 0 then (if text != "" then text + "|" else "") + UnknownToken(unknown) else text)
  {
    hide Join, KnownTokens, UnknownToken, Without;
    KnownTokensAreNames(modes, MODE_COUNT);
    JoinOneMore(KnownTokens(modes, MODE_COUNT), UnknownToken(UnknownPart(modes)));
    assert KnownTokens(modes, MODE_COUNT) + [] == KnownTokens(modes, MODE_COUNT);
  }

  // ----- the reader

  /** The bits one token stands for. */
  function TokenBits(t: string): Option<bv32> {
    if t == UNREPORTED then Some(0)
    else if t == "READ" then Some(1)
    else if t == "READ_AND_CLEAR" then Some(2)
    else if t == "BULK_READ" then Some(4)
    else if t == "BULK_CLEAR" then Some(8)
    else if t == "BULK_READ_AND_CLEAR" then Some(16)
    else if |t| > 11 && StartsWith(t, "UNKNOWN(0x") && t[|t| - 1] == ')' && AllHexDigits(t[10..|t| - 1]) then
      var value := HexValue(t[10..|t| - 1]);
      if value < 0x1_0000_0000 then Some(value as bv32) else None
    else None
  }

  function UnionOfBits(tokens: seq<string>): Option<bv32> {
    if tokens == [] then Some(0)
    else
      var rest, last := UnionOfBits(tokens[..|tokens| - 1]), TokenBits(tokens[|tokens| - 1]);
      if rest.Some? && last.Some? then Some(Either(rest.value, last.value)) else None
  }

  /** Reads a printed mask back. */
  function DecodeModes(text: string): Option<bv32> {
    UnionOfBits(Split(text))
  }

  lemma HexTokenBits(digits: string)
    requires digits != "" && AllHexDigits(digits) && HexValue(digits) < 0x1_0000_0000
    ensures TokenBits("UNKNOWN(0x" + digits + ")") == Some(HexValue(digits) as bv32)
  {
    var t := "UNKNOWN(0x" + digits + ")";
    assert t[..10] == "UNKNOWN(0x" && t[10..|t| - 1] == digits && t[|t| - 1] == ')';
    assert t[0] == 'U' && t[2] == 'K' && UNREPORTED[2] == 'R';
    assert "READ"[0] == "READ_AND_CLEAR"[0] == 'R';
    assert "BULK_READ"[0] == "BULK_CLEAR"[0] == "BULK_READ_AND_CLEAR"[0] == 'B';
  }

  lemma HexTokenHasNoSeparator(digits: string)
    requires AllHexDigits(digits)
    ensures NoSeparator("UNKNOWN(0x" + digits + ")")
  {
    var t := "UNKNOWN(0x" + digits + ")";
    forall i | 0 <= i < |t|
      ensures t[i] != '|'
    {
      if 10 <= i < |t| - 1 {
        assert IsHexDigit(digits[i - 10]);
      }
    }
  }

  lemma UnknownTokenBits(unknown: bv32)
    ensures TokenBits(UnknownToken(unknown)) == Some(unknown)
    ensures UnknownToken(unknown) != "" && NoSeparator(UnknownToken(unknown))
  {
    hide TokenBits, Hex;
    HexDenotes(unknown as nat);
    HexTokenBits(Hex(unknown as nat));
    HexTokenHasNoSeparator(Hex(unknown as nat));
  }

  lemma NameBits(n: nat)
    requires n < MODE_COUNT
    ensures TokenBits(ModeText(n)) == Some(ModeBit(n))
  {
    assert "READ"[0] == "READ_AND_CLEAR"[0] == 'R' && UNREPORTED[0] == 'U';
    assert "BULK_READ"[0] == "BULK_CLEAR"[0] == "BULK_READ_AND_CLEAR"[0] == 'B';
    assert "BULK_READ"[5] == "BULK_READ_AND_CLEAR"[5] == 'R' && "BULK_CLEAR"[5] == 'C';
  }

  lemma UnionOneMore(tokens: seq<string>, t: string)
    ensures UnionOfBits(tokens + [t]) ==
            if UnionOfBits(tokens).Some? && TokenBits(t).Some?
            then Some(Either(UnionOfBits(tokens).value, TokenBits(t).value)) else None
  {
    assert (tokens + [t])[..|tokens|] == tokens;
  }

  lemma {:induction false} KnownTokensBits(modes: bv32, n: nat)
    requires n <= MODE_COUNT
    ensures UnionOfBits(KnownTokens(modes, n)) == Some(KnownPart(modes, n))
  {
    hide TokenBits, ModeText, ModeBit, IsSet, KnownPart, Either;
    if n == 0 {
      PartsMakeTheMask(modes);
    } else {
      KnownTokensBits(modes, n - 1);
      OneMoreMode(modes, n - 1);
      if IsSet(modes, n - 1) {
        NameBits(n - 1);
        UnionOneMore(KnownTokens(modes, n - 1), ModeText(n - 1));
      } else {
        assert KnownTokens(modes, n) == KnownTokens(modes, n - 1);
      }
    }
  }

  lemma TokensBits(modes: bv32)
    ensures UnionOfBits(Tokens(modes)) == Some(modes) && Tokens(modes) != []
    ensures forall t :: t in Tokens(modes) ==> NoSeparator(t)
  {
    hide TokenBits, UnknownToken, ModeText, KnownTokens, UnionOfBits, KnownPart, UnknownPart, Either;
    var known, unknown := KnownTokens(modes, MODE_COUNT), UnknownPart(modes);
    KnownTokensAreNames(modes, MODE_COUNT);
    KnownTokensBits(modes, MODE_COUNT);
    UnknownTokenBits(unknown);
    PartsMakeTheMask(modes);
    ZeroToken();
    if modes != 0 {
      if unknown != 0 {
        UnionOneMore(known, UnknownToken(unknown));
      } else {
        assert Tokens(modes) == known;
      }
    }
  }

  lemma ZeroToken()
    ensures UnionOfBits([]) == Some(0)
    ensures UnionOfBits([UNREPORTED]) == Some(0) && NoSeparator(UNREPORTED)
  {
    UnionOneMore([], UNREPORTED);
    assert [] + [UNREPORTED] == [UNREPORTED];
  }

  lemma DecodeTokens(modes: bv32)
    ensures DecodeModes(Join(Tokens(modes))) == Some(modes)
  {
    TokensBits(modes);
    SplitJoin(Tokens(modes));
  }

  /** Every mask, the zero mask and masks with unknown bits included, can be read back from its text. */
  lemma ModesRoundTrip(modes: bv32)
    ensures DecodeModes(Join(Tokens(modes))) == Some(modes)
    ensures forall other: bv32 :: Join(Tokens(other)) == Join(Tokens(modes)) ==> other == modes
  {
    DecodeTokens(modes);
    forall other: bv32 | Join(Tokens(other)) == Join(Tokens(modes))
      ensures other == modes
    {
      DecodeTokens(other);
    }
  }

  /** select_read_only_stats_mode */
  function SelectReadOnlyStatsMode(declared: bv32, allowClear: bool): (mode: bv32)
    ensures mode == 1 <==> declared & 1 != 0
    ensures mode == 2 <==> allowClear && declared & 2 != 0 && declared & 1 == 0
    ensures mode == 0 <==> declared & 1 == 0 && !(allowClear && declared & 2 != 0)
    ensures mode in {0, 1, 2}
  {
    if declared & READ != 0 then READ
    else if allowClear && declared & READ_AND_CLEAR != 0 then READ_AND_CLEAR
    else 0
  }
}

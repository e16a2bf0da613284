/** Splitting a line of /proc/net/unix into fields, in place. */
module Tokeniser {

  predicate IsBlank(c: char) {
    c == ' ' || c == '\t'
  }

  /** The line holds a NUL; `Terminator` is the first one. */
  predicate HasTerminator(s: string) {
    exists i :: 0 <= i < |s| && s[i] == '\0'
  }

  function Terminator(s: string): (n: nat)
    requires HasTerminator(s)
    ensures n < |s| && s[n] == '\0' && forall i :: 0 <= i < n ==> s[i] != '\0'
  {
    if s[0] == '\0' then 0
    else
      assert HasTerminator(s[1..]) by {
        var i :| 0 <= i < |s| && s[i] == '\0';
        assert s[1..][i - 1] == '\0';
      }
      var n := Terminator(s[1..]);
      assert forall i :: 0 < i < n + 1 ==> s[i] == s[1..][i - 1];
      n + 1
  }

  /** The only newline, if there is one, stands right before the terminator. */
  predicate NewlineLast(s: string)
    requires HasTerminator(s)
  {
    forall i :: 0 <= i < Terminator(s) && s[i] == '\n' ==> i == Terminator(s) - 1
  }

  /** Where the text of the line ends: at its newline or at its terminator. */
  function TextEnd(s: string): (e: nat)
    requires HasTerminator(s)
    ensures e <= Terminator(s)
  {
    var n := Terminator(s);
    if n > 0 && s[n - 1] == '\n' then n - 1 else n
  }

  // ----- maximal runs of non-blank bytes

  function RunLength(s: string): (k: nat)
    ensures k <= |s|
    ensures forall i :: 0 <= i < k ==> !IsBlank(s[i])
    ensures k < |s| ==> IsBlank(s[k])
  {
    if s == "" || IsBlank(s[0]) then 0 else 1 + RunLength(s[1..])
  }

  /** The maximal runs of non-blank bytes of a text, in order. */
  function Runs(s: string): seq<string>
    decreases |s|
  {
    if s == "" then []
    else if IsBlank(s[0]) then Runs(s[1..])
    else [s[..RunLength(s)]] + Runs(s[RunLength(s)..])
  }

  predicate AllBlank(s: string) {
    forall i :: 0 <= i < |s| ==> IsBlank(s[i])
  }

  predicate IsToken(s: string) {
    s != "" && forall i :: 0 <= i < |s| ==> !IsBlank(s[i])
  }

  /** A token and the gap before it. */
  datatype Piece = Piece(gap: string, token: string)

  function Laid(pieces: seq<Piece>, tail: string): string {
    if pieces == [] then tail else pieces[0].gap + (pieces[0].token + Laid(pieces[1..], tail))
  }

  function TokensOf(pieces: seq<Piece>): seq<string> {
    if pieces == [] then [] else [pieces[0].token] + TokensOf(pieces[1..])
  }

  /** Blank gaps around non-blank tokens; only the first gap may be empty. */
  predicate WellLaid(pieces: seq<Piece>, tail: string) {
    && AllBlank(tail)
    && (forall i :: 0 <= i < |pieces| ==> AllBlank(pieces[i].gap) && IsToken(pieces[i].token))
    && (forall i :: 0 < i < |pieces| ==> pieces[i].gap != "")
  }

  lemma {:induction false} SkipGap(gap: string, s: string)
    requires AllBlank(gap)
    ensures Runs(gap + s) == Runs(s)
    decreases |gap|
  {
    if gap == "" {
      assert gap + s == s;
    } else {
      SkipGap(gap[1..], s);
      assert (gap + s)[1..] == gap[1..] + s;
    }
  }

  lemma {:induction false} LengthOfRun(token: string, s: string)
    requires (forall i :: 0 <= i < |token| ==> !IsBlank(token[i])) && (s == "" || IsBlank(s[0]))
    ensures RunLength(token + s) == |token|
    decreases |token|
  {
    if token == "" {
      assert token + s == s;
    } else {
      LengthOfRun(token[1..], s);
      assert (token + s)[1..] == token[1..] + s;
    }
  }

  /** Whatever the gaps, the runs of a text are the tokens it was laid out from. */
  lemma {:induction false} RunsOfLaid(pieces: seq<Piece>, tail: string)
    requires WellLaid(pieces, tail)
    ensures Runs(Laid(pieces, tail)) == TokensOf(pieces)
    decreases |pieces|
  {
    if pieces == [] {
      SkipGap(tail, "");
      assert tail + "" == tail;
    } else {
      var rest := Laid(pieces[1..], tail);
      var token := pieces[0].token;
      assert WellLaid(pieces[1..], tail);
      RunsOfLaid(pieces[1..], tail);
      SkipGap(pieces[0].gap, token + rest);
      assert rest == "" || IsBlank(rest[0]) by {
        if |pieces| > 1 {
          assert pieces[1..][0] == pieces[1];
        }
      }
      LengthOfRun(token, rest);
      assert (token + rest)[..|token|] == token && (token + rest)[|token|..] == rest;
    }
  }

  /** A blank in front of a laid-out text goes to its first gap, or to its tail. */
  lemma BlankInFront(b: char, pieces: seq<Piece>, tail: string) returns (more: seq<Piece>, end: string)
    requires IsBlank(b) && WellLaid(pieces, tail)
    ensures WellLaid(more, end) && Laid(more, end) == [b] + Laid(pieces, tail)
    ensures more != [] ==> more[0].gap != ""
  {
    if pieces == [] {
      more, end := [], [b] + tail;
    } else {
      var first, rest := Piece([b] + pieces[0].gap, pieces[0].token), pieces[1..];
      more, end := [first] + rest, tail;
      assert more[1..] == rest;
      assert forall i :: 0 < i < |more| ==> more[i] == pieces[i];
      assert [b] + (pieces[0].gap + (pieces[0].token + Laid(rest, tail)))
          == first.gap + (first.token + Laid(rest, tail));
    }
  }

  lemma TokenInFront(token: string, pieces: seq<Piece>, tail: string) returns (more: seq<Piece>)
    requires IsToken(token) && WellLaid(pieces, tail) && (pieces != [] ==> pieces[0].gap != "")
    ensures WellLaid(more, tail) && Laid(more, tail) == token + Laid(pieces, tail)
  {
    more := [Piece("", token)] + pieces;
    assert more[1..] == pieces;
    assert forall i :: 0 < i < |more| ==> more[i] == pieces[i - 1];
    assert "" + (token + Laid(pieces, tail)) == token + Laid(pieces, tail);
  }

  /** And every text is laid out from its runs. */
  lemma {:induction false} EveryTextIsLaid(s: string) returns (pieces: seq<Piece>, tail: string)
    ensures WellLaid(pieces, tail) && Laid(pieces, tail) == s && TokensOf(pieces) == Runs(s)
    ensures pieces != [] && s != "" && IsBlank(s[0]) ==> pieces[0].gap != ""
    decreases |s|
  {
    hide Runs, Laid, WellLaid, TokensOf;
    if s == "" {
      pieces, tail := [], "";
      NothingLaid();
    } else if IsBlank(s[0]) {
      pieces, tail := EveryTextIsLaid(s[1..]);
      pieces, tail := BlankInFront(s[0], pieces, tail);
      assert [s[0]] + s[1..] == s;
    } else {
      var k := RunLength(s);
      pieces, tail := EveryTextIsLaid(s[k..]);
      assert pieces == [] || s[k..] != "" by {
        if s[k..] == "" {
          RunsOfLaid(pieces, tail);
          NoPieces(pieces);
        }
      }
      pieces := TokenInFront(s[..k], pieces, tail);
      assert s[..k] + s[k..] == s;
    }
    RunsOfLaid(pieces, tail);
  }

  lemma NothingLaid()
    ensures WellLaid([], "") && Laid([], "") == ""
  {
  }

  lemma NoPieces(pieces: seq<Piece>)
    requires TokensOf(pieces) == Runs("")
    ensures pieces == []
  {
  }

  // ----- the tokeniser

  const MAX_FIELDS: nat := 8

  /** Reading the C string that starts at `at` gives `text`. */
  predicate ReadsAs(s: string, at: nat, text: string) {
    && at + |text| < |s|
    && s[at..at + |text|] == text && s[at + |text|] == '\0'
    && forall i :: 0 <= i < |text| ==> text[i] != '\0'
  }

  function FirstOf(runs: seq<string>): seq<string> {
    if |runs| <= 8 then runs else runs[..8]
  }

  /** A later write behind a field, or past its end, leaves it as it was. */
  lemma FieldStays(s: string, t: string, at: nat, text: string, cut: nat)
    requires |s| == |t| && ReadsAs(s, at, text) && at + |text| < cut
    requires forall i :: 0 <= i < cut && i < |s| ==> s[i] == t[i]
    ensures ReadsAs(t, at, text)
  {
    assert t[at..at + |text|] == s[at..at + |text|];
  }

  lemma RunsFrom(s: string, c: nat, d: nat, e: nat)
    requires c <= d <= e <= |s|
    requires forall i :: c <= i < d ==> IsBlank(s[i])
    ensures Runs(s[c..e]) == Runs(s[d..e])
  {
    SkipGap(s[c..d], s[d..e]);
    assert s[c..d] + s[d..e] == s[c..e];
  }

  lemma RunHere(s: string, c: nat, d: nat, e: nat)
    requires c < d <= e <= |s|
    requires forall i :: c <= i < d ==> !IsBlank(s[i])
    requires d < e ==> IsBlank(s[d])
    ensures Runs(s[c..e]) == [s[c..d]] + (if d < e then Runs(s[d + 1..e]) else [])
  {
    LengthOfRun(s[c..d], s[d..e]);
    assert s[c..d] + s[d..e] == s[c..e];
    assert s[c..e][..d - c] == s[c..d] && s[c..e][d - c..] == s[d..e];
    if d < e {
      RunsFrom(s, d, d + 1, e);
    }
  }

  /** Only separators before `cursor` were overwritten, with NULs. */
  ghost predicate OnlySeparatorsCut(was: string, now: string, cursor: nat) {
    && |was| == |now|
    && forall i :: 0 <= i < |now| ==>
         now[i] == was[i] || (i < cursor && now[i] == '\0' && (IsBlank(was[i]) || was[i] == '\n'))
  }

  /** The fields found so far read as the runs found so far; each ends before `cursor`, or the line does. */
  ghost predicate FieldsRead(now: string, cursor: nat, end: nat, fields: seq<nat>, done: seq<string>) {
    && |fields| == |done|
    && forall k :: 0 <= k < |fields| ==>
         ReadsAs(now, fields[k], done[k]) && (fields[k] + |done[k]| < cursor || cursor == end)
  }

  /** The text with a NUL written at `d`, unless the terminator stands there already. */
  function CutAt(now: string, d: nat, end: nat): string
    requires d <= end < |now|
  {
    if d == end then now else now[d := '\0']
  }

  /** Where the walk goes on: behind the NUL, or at the terminator. */
  function BehindCut(d: nat, end: nat): nat {
    if d == end then d else d + 1
  }

  lemma CutKeepsTheRest(was: string, now: string, start: nat, d: nat, end: nat)
    requires HasTerminator(was) && end == Terminator(was) && |now| == |was|
    requires start <= d <= end && OnlySeparatorsCut(was, now, start)
    requires d == end || IsBlank(was[d]) || was[d] == '\n'
    ensures OnlySeparatorsCut(was, CutAt(now, d, end), BehindCut(d, end))
  {
  }

  /** A field was found from `first` to `d`; it ends there, at the terminator or by a NUL written there. */
  lemma CutField(was: string, now: string, start: nat, first: nat, d: nat, end: nat, fields: seq<nat>, done: seq<string>)
    requires HasTerminator(was) && end == Terminator(was) && |now| == |was|
    requires start <= first < d <= end
    requires OnlySeparatorsCut(was, now, start) && FieldsRead(now, start, end, fields, done)
    ensures FieldsRead(CutAt(now, d, end), BehindCut(d, end), end, fields + [first], done + [was[first..d]])
  {
    var next := CutAt(now, d, end);
    assert ReadsAs(next, first, was[first..d]) by {
      assert forall i :: first <= i < d ==> next[i] == now[i] == was[i] && was[i] != '\0';
      assert now[end] == was[end] == '\0';
      assert next[first..d] == was[first..d];
    }
    hide OnlySeparatorsCut, ReadsAs;
    forall k | 0 <= k < |fields|
      ensures ReadsAs(next, fields[k], done[k]) && fields[k] + |done[k]| < BehindCut(d, end)
    {
      FieldStays(now, next, fields[k], done[k], start);
    }
  }

  /** The runs of the text, split at a field found from `first` to `d` behind blanks. */
  lemma RunsAtField(s: string, start: nat, first: nat, d: nat)
    requires HasTerminator(s) && NewlineLast(s) && start <= first < d <= Terminator(s)
    requires forall i :: start <= i < first ==> IsBlank(s[i])
    requires forall i :: first <= i < d ==> !IsBlank(s[i]) && s[i] != '\n'
    requires d == Terminator(s) || IsBlank(s[d]) || s[d] == '\n'
    ensures d <= TextEnd(s)
    ensures RunsBehind(s, start) == [s[first..d]] + RunsBehind(s, BehindCut(d, Terminator(s)))
  {
    var e := TextEnd(s);
    assert d <= e;
    RunsFrom(s, start, first, e);
    RunHere(s, first, d, e);
  }

  /** The runs of the text from `cursor` on; none past its end. */
  function RunsBehind(s: string, cursor: nat): seq<string>
    requires HasTerminator(s)
  {
    if cursor <= TextEnd(s) then Runs(s[cursor..TextEnd(s)]) else []
  }

  /** Nothing but blanks up to the end of the text: no runs are left. */
  lemma NoRunsLeft(s: string, start: nat, stop: nat)
    requires HasTerminator(s) && NewlineLast(s) && start <= stop <= Terminator(s)
    requires forall i :: start <= i < stop ==> IsBlank(s[i])
    requires s[stop] == '\0' || s[stop] == '\n'
    ensures RunsBehind(s, start) == []
  {
    var e := TextEnd(s);
    if start <= e {
      assert stop == e;
      RunsFrom(s, start, e, e);
      assert s[e..e] == "";
    }
  }

  /**
    For any NUL-terminated line the walk stays inside the line and ends. It overwrites nothing
    but separators, and only with NULs; and if the only newline is last, the fields read as the
    first eight maximal runs of non-blank bytes.
   */
  method Tokenise(line: array<char>) returns (fields: seq<nat>)
    requires HasTerminator(line[..])
    modifies line
    ensures |fields| <= 8
    ensures OnlySeparatorsCut(old(line[..]), line[..], line.Length)
    ensures NewlineLast(old(line[..])) ==>
              var runs := FirstOf(Runs(old(line[..TextEnd(line[..])])));
              |fields| == |runs| && forall k :: 0 <= k < |fields| ==> ReadsAs(line[..], fields[k], runs[k])
  {
    hide OnlySeparatorsCut, FieldsRead, RunsBehind, NewlineLast, ReadsAs, TextEnd, Runs, FirstOf;
    ghost var was, end := line[..], Terminator(line[..]);
    ghost var done: seq<string> := [];
    ghost var mark := 0;  // where the last finished step left the cursor
    fields := [];
    var cursor := 0;
    Begin(was);
    while |fields| < MAX_FIELDS
      invariant |fields| == |done| <= MAX_FIELDS && mark == cursor <= end < line.Length
      invariant forall i :: cursor <= i < line.Length ==> line[i] == was[i]
      invariant OnlySeparatorsCut(was, line[..], mark) && FieldsRead(line[..], mark, end, fields, done)
      invariant NewlineLast(was) ==> RunsBehind(was, 0) == done + RunsBehind(was, mark)
      decreases MAX_FIELDS - |fields|
    {
      while line[cursor] == ' ' || line[cursor] == '\t'
        invariant mark <= cursor <= end
        invariant forall i :: mark <= i < cursor ==> IsBlank(was[i])
        decreases end - cursor
      {
        cursor := cursor + 1;
      }
      if line[cursor] == '\0' || line[cursor] == '\n' {
        if NewlineLast(was) {
          NoRunsLeft(was, mark, cursor);
        }
        break;
      }
      ghost var first := cursor;
      fields := fields + [cursor];
      while line[cursor] != '\0' && line[cursor] != ' ' && line[cursor] != '\t' && line[cursor] != '\n'
        invariant first <= cursor <= end
        invariant forall i :: first <= i < cursor ==> !IsBlank(was[i]) && was[i] != '\n'
        decreases end - cursor
      {
        cursor := cursor + 1;
      }
      FieldStep(was, line[..], mark, first, cursor, fields[..|done|], done);
      assert fields[..|done|] + [first] == fields;
      done := done + [was[first..cursor]];
      if line[cursor] != '\0' {
        assert cursor != end;
        line[cursor] := '\0';
        cursor := cursor + 1;
      }
      mark := cursor;
    }
    Finish(was, line[..], mark, fields, done);
  }

  lemma Begin(s: string)
    requires HasTerminator(s)
    ensures OnlySeparatorsCut(s, s, 0) && FieldsRead(s, 0, Terminator(s), [], [])
  {
  }

  lemma FieldStep(was: string, now: string, start: nat, first: nat, d: nat, fields: seq<nat>, done: seq<string>)
    requires HasTerminator(was) && |now| == |was|
    requires start <= first < d <= Terminator(was)
    requires OnlySeparatorsCut(was, now, start) && FieldsRead(now, start, Terminator(was), fields, done)
    requires forall i :: start <= i < first ==> IsBlank(was[i])
    requires forall i :: first <= i < d ==> !IsBlank(was[i]) && was[i] != '\n'
    requires was[d] == '\0' || IsBlank(was[d]) || was[d] == '\n'
    ensures d == Terminator(was) <==> was[d] == '\0'
    ensures var end := Terminator(was);
            var next, cursor := CutAt(now, d, end), BehindCut(d, end);
            && OnlySeparatorsCut(was, next, cursor)
            && FieldsRead(next, cursor, end, fields + [first], done + [was[first..d]])
            && (NewlineLast(was) && RunsBehind(was, 0) == done + RunsBehind(was, start) ==>
                  RunsBehind(was, 0) == done + [was[first..d]] + RunsBehind(was, cursor))
  {
    hide OnlySeparatorsCut, FieldsRead, Runs, RunsBehind, NewlineLast, TextEnd;
    CutKeepsTheRest(was, now, start, d, Terminator(was));
    CutField(was, now, start, first, d, Terminator(was), fields, done);
    if NewlineLast(was) {
      RunsAtField(was, start, first, d);
      var behind := RunsBehind(was, BehindCut(d, Terminator(was)));
      assert RunsBehind(was, start) == [was[first..d]] + behind;
      assert done + ([was[first..d]] + behind) == done + [was[first..d]] + behind;
    }
  }

  lemma Finish(was: string, now: string, mark: nat, fields: seq<nat>, done: seq<string>)
    requires HasTerminator(was) && |done| <= MAX_FIELDS && mark <= |now|
    requires OnlySeparatorsCut(was, now, mark) && FieldsRead(now, mark, Terminator(was), fields, done)
    ensures OnlySeparatorsCut(was, now, |now|) && |fields| == |done|
    ensures NewlineLast(was) && (RunsBehind(was, mark) == [] || |done| == MAX_FIELDS)
            && RunsBehind(was, 0) == done + RunsBehind(was, mark) ==>
              var runs := FirstOf(Runs(was[..TextEnd(was)]));
              |fields| == |runs| && forall k :: 0 <= k < |fields| ==> ReadsAs(now, fields[k], runs[k])
  {
    hide Runs, ReadsAs;
    assert was[0..TextEnd(was)] == was[..TextEnd(was)];
  }
}

/** The two forms of an option with a value: `--x v` and `--x=v`. */
module OptionForms {
  import opened Text
  import opened CommandLine
  import opened CommandLineMeaning

  /** Does the command line end in an option still waiting for its value? */
  predicate Dangling(args: seq<string>)
    decreases |args|
  {
    if args == [] then false
    else match Classify(args[0])
      case NeedsValue(option) => |args| == 1 || Dangling(args[2..])
      case Unknown => false
      case _ => Dangling(args[1..])
  }

  predicate NoEquals(a: string) {
    forall i :: 0 <= i < |a| ==> a[i] != '='
  }

  lemma FlagWordsHaveNoEquals()
    ensures NoEquals("-h") && NoEquals("--help") && NoEquals("--all") && NoEquals("--debug")
    ensures NoEquals("--include-unsupported") && NoEquals("--probe-stats")
    ensures NoEquals("--allow-clear") && NoEquals("--verify-attributes")
    ensures NoEquals("--list-switches") && NoEquals("--client") && NoEquals("--server")
  {
  }

  lemma ValueWordsHaveNoEquals()
    ensures NoEquals("--format") && NoEquals("--object") && NoEquals("--timeout-ms")
    ensures NoEquals("--client-config") && NoEquals("--context-config") && NoEquals("--server-config")
  {
  }

  lemma WordHasNoEquals(a: string)
    requires Word(a).Some?
    ensures NoEquals(a)
  {
    hide NoEquals;
    FlagWordsHaveNoEquals();
    ValueWordsHaveNoEquals();
  }

  /** An option and its value in one argument. */
  function Joined(option: Valued, value: string): string {
    Spelling(option) + "=" + value
  }

  lemma JoinedClassifies(option: Valued, value: string)
    requires option != TimeoutMs
    ensures Classify(Joined(option, value)) == HasValue(option, value)
  {
    hide Word;
    var a := Joined(option, value);
    var prefix := Spelling(option) + "=";
    assert a[..|prefix|] == prefix && a[|prefix|..] == value;
    assert a[|prefix| - 1] == '=';
    if Word(a).Some? {
      WordHasNoEquals(a);
    }
    match option
    case Format => assert prefix == "--format=";
    case Object => assert prefix == "--object="; assert a[2] == 'o'; NotPrefix(a, "--format=", 2);
    case ClientConfig =>
      assert prefix == "--client-config=";
      assert a[2] == 'c' && a[3] == 'l';
      NotPrefix(a, "--object=", 2); NotPrefix(a, "--format=", 2);
    case ContextConfig =>
      assert prefix == "--context-config=";
      assert a[2] == 'c' && a[3] == 'o';
      NotPrefix(a, "--object=", 2); NotPrefix(a, "--format=", 2); NotPrefix(a, "--client-config=", 3);
    case ServerConfig =>
      assert prefix == "--server-config=";
      assert a[2] == 's';
      NotPrefix(a, "--object=", 2); NotPrefix(a, "--format=", 2); NotPrefix(a, "--client-config=", 2);
      NotPrefix(a, "--context-config=", 2);
  }

  lemma {:induction false} ItemsSplit(pre: seq<string>, post: seq<string>)
    requires !Dangling(pre)
    ensures Items(pre + post) ==
            (if Items(pre).Some? && Items(post).Some? then Some(Items(pre).value + Items(post).value) else None)
    decreases |pre|
  {
    hide Classify;
    var all := pre + post;
    if pre == [] {
      assert all == post;
      if Items(post).Some? {
        assert [] + Items(post).value == Items(post).value;
      }
    } else {
      assert all[0] == pre[0] && all[1..] == pre[1..] + post;
      match Classify(pre[0])
      case IsFlag(flag) => ItemsSplit(pre[1..], post); PrependSplit(OfFlag(flag), Items(pre[1..]), Items(post));
      case NeedsValue(option) =>
        assert all[1] == pre[1] && all[2..] == pre[2..] + post;
        ItemsSplit(pre[2..], post);
        PrependSplit(OfValue(option, pre[1]), Items(pre[2..]), Items(post));
      case HasValue(option, value) =>
        ItemsSplit(pre[1..], post);
        PrependSplit(OfValue(option, value), Items(pre[1..]), Items(post));
      case Unknown =>
      case Positional(text) => ItemsSplit(pre[1..], post); PrependSplit(OfPositional(text), Items(pre[1..]), Items(post));
    }
  }

  lemma PrependSplit(item: Item, a: Option<seq<Item>>, b: Option<seq<Item>>)
    ensures a.Some? && b.Some? ==> [item] + (a.value + b.value) == Prepend(item, a).value + b.value
  {
  }

  lemma SameBehindSettled(pre: seq<string>, option: Valued, value: string, post: seq<string>, timeout: TimeoutReader)
    requires option != TimeoutMs && !Dangling(pre)
    ensures Parse(pre + ([Spelling(option), value] + post), timeout) == Parse(pre + ([Joined(option, value)] + post), timeout)
  {
    var two, one := [Spelling(option), value] + post, [Joined(option, value)] + post;
    assert Items(two) == Items(one) by {
      hide Classify, Spelling, Joined;
      SpellingsClassify(option);
      JoinedClassifies(option, value);
      assert two[2..] == post && one[1..] == post;
    }
    ItemsSplit(pre, two);
    ItemsSplit(pre, one);
    WalkTakesItems(pre + two, DEFAULT_OPTIONS, timeout);
    WalkTakesItems(pre + one, DEFAULT_OPTIONS, timeout);
  }

  // ----- behind an option that is still waiting for its value

  /** The arguments before the last one. */
  function Before(args: seq<string>): seq<string>
    requires args != []
  {
    args[..|args| - 1]
  }

  lemma {:induction false} DanglingEnds(args: seq<string>)
    requires Dangling(args)
    ensures args != [] && Classify(args[|args| - 1]).NeedsValue?
    ensures !Dangling(Before(args)) && Items(Before(args)).Some?
    decreases |args|
  {
    hide Classify;
    var before := Before(args);
    if |args| > 1 {
      var used := if Classify(args[0]).NeedsValue? then 2 else 1;
      DanglingEnds(args[used..]);
      assert before[used..] == Before(args[used..]) && before[0] == args[0];
    }
  }

  /** What follows gives the waiting option its value. */
  lemma ItemsBehindDangling(pre: seq<string>, text: string, post: seq<string>)
    requires Dangling(pre)
    ensures Items(Before(pre)).Some? && Classify(pre[|pre| - 1]).NeedsValue?
    ensures Items(pre + ([text] + post)) ==
            if Items(post).Some?
            then Some(Items(Before(pre)).value + ([OfValue(Classify(pre[|pre| - 1]).option, text)] + Items(post).value))
            else None
  {
    hide Classify;
    DanglingEnds(pre);
    var last := pre[|pre| - 1];
    var rest := [last, text] + post;
    assert pre + ([text] + post) == Before(pre) + rest;
    ItemsSplit(Before(pre), rest);
    assert rest[2..] == post;
  }

  /** Does `args` end in an option that takes whatever comes next, with nothing wrong before it? */
  predicate TakesTheNext(args: seq<string>, timeout: TimeoutReader) {
    && Dangling(args) && args != []
    && Classify(args[|args| - 1]) in {NeedsValue(Object), NeedsValue(ClientConfig), NeedsValue(ContextConfig), NeedsValue(ServerConfig)}
    && Items(Before(args)).Some?
    && var items := Items(Before(args)).value;
       AllAcceptable(items, timeout) && |Positionals(items)| <= 1
  }

  /** No number starts with two dashes. */
  ghost predicate ReadsNumbers(timeout: TimeoutReader) {
    forall text :: StartsWith(text, "--") ==> timeout(text).None?
  }

  /** Otherwise the command line is rejected, whatever form the waiting option takes for its value. */
  lemma RejectedBehindDangling(pre: seq<string>, text: string, post: seq<string>, timeout: TimeoutReader)
    requires Dangling(pre) && !TakesTheNext(pre, timeout) && ReadsNumbers(timeout) && StartsWith(text, "--")
    ensures Parse(pre + ([text] + post), timeout).None?
  {
    hide Classify, Parse, Items, AllAcceptable, Positionals, LastValue, LastRole;
    ItemsBehindDangling(pre, text, post);
    AcceptedExactly(pre + ([text] + post), timeout);
    if Items(post).Some? {
      var before, option := Items(Before(pre)).value, Classify(pre[|pre| - 1]).option;
      var taken, after := [OfValue(option, text)], Items(post).value;
      AcceptableParts(before, taken + after, timeout);
      AcceptableParts(taken, after, timeout);
      ConcatHolds(before, taken + after);
      OneAcceptable(option, text, timeout);
      assert text[0] == '-' by {
        PrefixChar(text, "--", 0);
      }
    }
  }

  lemma OneAcceptable(option: Valued, text: string, timeout: TimeoutReader)
    ensures AllAcceptable([OfValue(option, text)], timeout) <==> Acceptable(option, text, timeout)
  {
    var items := [OfValue(option, text)];
    assert items[0] == OfValue(option, text);
  }

  const FORMAT_TEXT := ["--format", "text"]

  lemma FormatTextItems()
    ensures Items(FORMAT_TEXT) == Some([OfValue(Format, "text")])
  {
    SpellingsClassify(Format);
    hide Classify;
    assert FORMAT_TEXT[2..] == [];
    assert [OfValue(Format, "text")] + [] == [OfValue(Format, "text")];
  }

  /** The joined form is accepted with the right continuation, and is what the waiting option gets. */
  lemma JoinedIsTaken(pre: seq<string>, text: string, timeout: TimeoutReader)
    requires TakesTheNext(pre, timeout)
    ensures var r := Parse(pre + ([text] + FORMAT_TEXT), timeout);
            r.Some? && Held(r.value, Classify(pre[|pre| - 1]).option) == text
  {
    hide Classify, Parse, Items, AllAcceptable, Positionals, LastValue, LastRole, Dangling, LeftBy;
    var all := pre + ([text] + FORMAT_TEXT);
    ItemsBehindDangling(pre, text, FORMAT_TEXT);
    FormatTextItems();
    AcceptedExactly(all, timeout);
    var before, option := Items(Before(pre)).value, Classify(pre[|pre| - 1]).option;
    var taken, after := [OfValue(option, text)], [OfValue(Format, "text")];
    AcceptableParts(before, taken + after, timeout);
    AcceptableParts(taken, after, timeout);
    OneAcceptable(option, text, timeout);
    OneAcceptable(Format, "text", timeout);
    ConcatHolds(before, taken + after);
    ConcatHolds(taken, after);
    SingleValue(option, text);
    SingleValue(Format, "text");
    HeldIsLast(all, option, timeout);
  }

  lemma SingleValue(option: Valued, text: string)
    ensures forall other :: LastValue([OfValue(option, text)], other) == (if other == option then Some(text) else None)
    ensures Positionals([OfValue(option, text)]) == []
  {
    assert [OfValue(option, text)][1..] == [];
  }

  lemma HeldIsLast(args: seq<string>, option: Valued, timeout: TimeoutReader)
    requires Parse(args, timeout).Some? && option != TimeoutMs
    ensures Items(args).Some?
    ensures Held(Parse(args, timeout).value, option) == Or(LastValue(Items(args).value, option), Held(DEFAULT_OPTIONS, option))
  {
    hide Parse, Items, LastValue, LastRole, Positionals;
    AcceptedMeaning(args, timeout);
    var r := Parse(args, timeout).value;
    assert TextsLeft(Items(args).value, DEFAULT_OPTIONS, Undefaulted(r));
    assert Held(Undefaulted(r), option) == Held(r, option);
  }

  /** The separate form gives no option a text as long as the joined one. */
  lemma ValuesAreShorter(option: Valued, value: string, other: Valued)
    requires Items([value] + FORMAT_TEXT).Some? && other != Format
    ensures var last := LastValue(Items([value] + FORMAT_TEXT).value, other);
            last.Some? ==> |last.value| < |Joined(option, value)|
  {
    hide Word;
    var args := [value] + FORMAT_TEXT;
    FormatTextItems();
    assert args[1..] == FORMAT_TEXT && args[0] == value && args[1] == "--format" && args[2..] == ["text"];
    match Classify(value)
    case IsFlag(flag) => LastOfTwo(OfFlag(flag), OfValue(Format, "text"), other);
    case NeedsValue(q) =>
      TextItems();
      WordIsSpelling(value);
      LastOfTwo(OfValue(q, "--format"), OfPositional("text"), other);
    case HasValue(q, v) =>
      HeldValueIsShorter(value);
      LastOfTwo(OfValue(q, v), OfValue(Format, "text"), other);
    case Positional(text) => LastOfTwo(OfPositional(text), OfValue(Format, "text"), other);
    case Unknown =>
  }

  lemma TextItems()
    ensures Items(["text"]) == Some([OfPositional("text")])
  {
    PositionalClassifies("text");
    hide Classify;
    assert ["text"][1..] == [];
    assert [OfPositional("text")] + [] == [OfPositional("text")];
  }

  lemma WordIsSpelling(value: string)
    requires Classify(value).NeedsValue?
    ensures |value| >= |"--format"|
  {
    assert Word(value).Some?;
  }

  lemma HeldValueIsShorter(value: string)
    requires Classify(value).HasValue?
    ensures |Classify(value).value| < |value|
  {
  }

  lemma LastOfTwo(a: Item, b: Item, option: Valued)
    ensures LastValue([a] + [b], option) ==
            if b.OfValue? && b.option == option then Some(b.value)
            else if a.OfValue? && a.option == option then Some(a.value) else None
  {
    assert ([a] + [b])[1..] == [b] && [b][1..] == [];
    assert LastValue([b], option) == if b.OfValue? && b.option == option then Some(b.value) else None;
  }

  lemma TakenFormsDiffer(pre: seq<string>, option: Valued, value: string, timeout: TimeoutReader)
    requires TakesTheNext(pre, timeout) && option != TimeoutMs
    ensures Parse(pre + ([Spelling(option), value] + FORMAT_TEXT), timeout)
         != Parse(pre + ([Joined(option, value)] + FORMAT_TEXT), timeout)
  {
    hide Classify, Parse, Items, AllAcceptable, Positionals, LastValue, LastRole, Dangling, Held;
    var waiting := Classify(pre[|pre| - 1]).option;
    var one := pre + ([Joined(option, value)] + FORMAT_TEXT);
    JoinedIsTaken(pre, Joined(option, value), timeout);
    assert Held(Parse(one, timeout).value, waiting) == Joined(option, value);
    var two := pre + ([Spelling(option), value] + FORMAT_TEXT);
    if Parse(two, timeout).Some? {
      var post := [value] + FORMAT_TEXT;
      assert [Spelling(option), value] + FORMAT_TEXT == [Spelling(option)] + post;
      ItemsBehindDangling(pre, Spelling(option), post);
      HeldIsLast(two, waiting, timeout);
      ValuesAreShorter(option, value, waiting);
      ConcatHolds(Items(Before(pre)).value, [OfValue(waiting, Spelling(option))] + Items(post).value);
      ConcatHolds([OfValue(waiting, Spelling(option))], Items(post).value);
      SingleValue(waiting, Spelling(option));
      assert Items(two).value == Items(Before(pre)).value + ([OfValue(waiting, Spelling(option))] + Items(post).value);
      var last := LastValue(Items(two).value, waiting);
      assert |last.value| < |Joined(option, value)|;
      assert Held(Parse(two, timeout).value, waiting) == last.value;
    }
  }

  /**
    `--x v` and `--x=v` mean the same for the five options that have both forms, whatever follows
    them, exactly when what stands before them does not end in an option that takes whatever
    comes next: such an option would swallow `--x` in one form and `--x=v` in the other.
   */
  lemma FormsAreInterchangeable(pre: seq<string>, option: Valued, value: string, timeout: TimeoutReader)
    requires option != TimeoutMs && ReadsNumbers(timeout)
    ensures (forall post :: Parse(pre + ([Spelling(option), value] + post), timeout)
                         == Parse(pre + ([Joined(option, value)] + post), timeout))
       <==> !TakesTheNext(pre, timeout)
  {
    hide Parse, TakesTheNext, Spelling, Joined;
    if TakesTheNext(pre, timeout) {
      TakenFormsDiffer(pre, option, value, timeout);
    } else {
      forall post
        ensures Parse(pre + ([Spelling(option), value] + post), timeout)
             == Parse(pre + ([Joined(option, value)] + post), timeout)
      {
        if !Dangling(pre) {
          SameBehindSettled(pre, option, value, post, timeout);
        } else {
          DashesFirst(option, value);
          RejectedBehindDangling(pre, Joined(option, value), post, timeout);
          RejectedBehindDangling(pre, Spelling(option), [value] + post, timeout);
          assert [Spelling(option), value] + post == [Spelling(option)] + ([value] + post);
        }
      }
    }
  }

  lemma DashesFirst(option: Valued, value: string)
    ensures StartsWith(Spelling(option), "--") && StartsWith(Joined(option, value), "--")
  {
    assert Joined(option, value)[..2] == Spelling(option)[..2];
  }

  /** Behind a dangling option the two forms differ: the option itself is taken for the missing value. */
  lemma FormsDifferBehindADanglingOption(timeout: TimeoutReader)
    ensures Dangling([Spelling(Object)])
    ensures var two := Parse([Spelling(Object)] + [Spelling(Format), "json"], timeout);
            two.Some? && two.value.objectFilter == "--format" && two.value.switchVid == Some("json")
            && two.value.format == "text"
    ensures var one := Parse([Spelling(Object)] + [Joined(Format, "json")], timeout);
            one.Some? && one.value.objectFilter == "--format=json" && one.value.switchVidDefaulted
  {
    var two, one := [Spelling(Object)] + [Spelling(Format), "json"], [Spelling(Object)] + [Joined(Format, "json")];
    SpellingsClassify(Object);
    PositionalClassifies("json");
    hide Classify;
    assert two[0] == one[0] == Spelling(Object) && two[1] == "--format" && one[1] == "--format=json";
    assert two[2..] == ["json"] && one[2..] == [] && ["json"][1..] == [];
    assert Walk(one, DEFAULT_OPTIONS, timeout) == Walk([], DEFAULT_OPTIONS.(objectFilter := "--format=json"), timeout);
    assert Walk(["json"], DEFAULT_OPTIONS.(objectFilter := "--format"), timeout)
        == Walk([], DEFAULT_OPTIONS.(objectFilter := "--format", switchVid := Some("json")), timeout);
  }
}

/** What an accepted command line means, and which command lines are accepted. */
module CommandLineMeaning {
  import opened Text
  import opened CommandLine

  /** The value of the last item that gives the option one. */
  function LastValue(items: seq<Item>, option: Valued): Option<string> {
    if items == [] then None
    else
      var later := LastValue(items[1..], option);
      if later.Some? then later
      else if items[0].OfValue? && items[0].option == option then Some(items[0].value)
      else None
  }

  /** The last of --client and --server. */
  function LastRole(items: seq<Item>): Option<Flag> {
    if items == [] then None
    else
      var later := LastRole(items[1..]);
      if later.Some? then later
      else if items[0] == OfFlag(Client) || items[0] == OfFlag(Server) then Some(items[0].flag)
      else None
  }

  function Positionals(items: seq<Item>): seq<string> {
    if items == [] then []
    else (if items[0].OfPositional? then [items[0].text] else []) + Positionals(items[1..])
  }

  function Or(value: Option<string>, otherwise: string): string {
    if value.Some? then value.value else otherwise
  }

  /** Is a flag of the options set? (--client and --server share one field, see clientMode.) */
  predicate Given(o: Options, flag: Flag) {
    match flag
    case Help => o.showHelp
    case All => o.all
    case IncludeUnsupported => o.includeUnsupported
    case ProbeStats => o.probeStats
    case AllowClear => o.allowClear
    case VerifyAttributes => o.verifyAttributes
    case Debug => o.debug
    case ListSwitches => o.listSwitches
    case Client => o.clientMode
    case Server => !o.clientMode
  }

  /** The text an option holds. */
  function Held(o: Options, option: Valued): string
    requires option != TimeoutMs
  {
    match option
    case Format => o.format
    case Object => o.objectFilter
    case ClientConfig => o.clientConfig
    case ContextConfig => o.contextConfig
    case ServerConfig => o.serverConfig
  }

  predicate IsRole(flag: Flag) {
    flag == Client || flag == Server
  }

  ghost predicate FlagsLeft(items: seq<Item>, o: Options, r: Options) {
    forall flag :: !IsRole(flag) ==> Given(r, flag) == (Given(o, flag) || OfFlag(flag) in items)
  }

  ghost predicate RoleLeft(items: seq<Item>, o: Options, r: Options) {
    r.clientMode == (if LastRole(items).Some? then LastRole(items).value == Client else o.clientMode)
  }

  ghost predicate TextsLeft(items: seq<Item>, o: Options, r: Options) {
    forall option :: option != TimeoutMs ==> Held(r, option) == Or(LastValue(items, option), Held(o, option))
  }

  ghost predicate TimeoutLeft(items: seq<Item>, o: Options, r: Options, timeout: TimeoutReader) {
    var last := LastValue(items, TimeoutMs);
    if last.Some? then timeout(last.value) == Some(r.responseTimeoutMs) else r.responseTimeoutMs == o.responseTimeoutMs
  }

  ghost predicate VidLeft(items: seq<Item>, o: Options, r: Options) {
    && |Positionals(items)| <= (if o.switchVid.Some? then 0 else 1)
    && r.switchVid == (if Positionals(items) != [] then Some(Positionals(items)[0]) else o.switchVid)
    && r.switchVidDefaulted == o.switchVidDefaulted
  }

  /** The options that items leave behind, field by field. */
  ghost predicate LeftBy(items: seq<Item>, o: Options, r: Options, timeout: TimeoutReader) {
    && FlagsLeft(items, o, r) && RoleLeft(items, o, r) && TextsLeft(items, o, r)
    && TimeoutLeft(items, o, r, timeout) && VidLeft(items, o, r)
  }

  lemma FlagEffect(o: Options, f: Flag, flag: Flag)
    requires !IsRole(flag)
    ensures Given(WithFlag(o, f), flag) == (Given(o, flag) || f == flag)
  {
  }

  /** Everything of the options a flag leaves alone. */
  lemma FlagKeeps(o: Options, f: Flag)
    ensures var r := WithFlag(o, f);
            && r.format == o.format && r.objectFilter == o.objectFilter && r.clientConfig == o.clientConfig
            && r.contextConfig == o.contextConfig && r.serverConfig == o.serverConfig
            && r.responseTimeoutMs == o.responseTimeoutMs
            && r.switchVid == o.switchVid && r.switchVidDefaulted == o.switchVidDefaulted
            && r.clientMode == (if IsRole(f) then f == Client else o.clientMode)
  {
    match f
    case Help =>
    case All =>
    case IncludeUnsupported =>
    case ProbeStats =>
    case AllowClear =>
    case VerifyAttributes =>
    case Debug =>
    case ListSwitches =>
    case Client =>
    case Server =>
  }

  /** The same options but for the fields that values go to. */
  predicate SameButValues(a: Options, b: Options) {
    a == b.(format := a.format, objectFilter := a.objectFilter, clientConfig := a.clientConfig,
            contextConfig := a.contextConfig, serverConfig := a.serverConfig, responseTimeoutMs := a.responseTimeoutMs)
  }

  lemma SameFlagsGiven(a: Options, b: Options, flag: Flag)
    requires SameButValues(a, b)
    ensures Given(a, flag) == Given(b, flag)
  {
  }

  lemma ValueKeepsTheRest(o: Options, option: Valued, value: string, timeout: TimeoutReader)
    requires WithValue(o, option, value, timeout).Some?
    ensures SameButValues(WithValue(o, option, value, timeout).value, o)
  {
    var r := WithValue(o, option, value, timeout).value;
    match option
    case Format => assert SameButValues(r, o);
    case Object => assert SameButValues(r, o);
    case ClientConfig => assert SameButValues(r, o);
    case ContextConfig => assert SameButValues(r, o);
    case ServerConfig => assert SameButValues(r, o);
    case TimeoutMs => assert SameButValues(r, o);
  }

  lemma ValueTaken(o: Options, option: Valued, value: string, timeout: TimeoutReader)
    requires WithValue(o, option, value, timeout).Some?
    ensures option == TimeoutMs ==> timeout(value) == Some(WithValue(o, option, value, timeout).value.responseTimeoutMs)
    ensures option != TimeoutMs ==> WithValue(o, option, value, timeout).value.responseTimeoutMs == o.responseTimeoutMs
    ensures option == Format ==> IsFormat(value)
  {
  }

  /** Everything of the options a value leaves alone. */
  lemma ValueKeeps(o: Options, option: Valued, value: string, timeout: TimeoutReader)
    ensures var r := WithValue(o, option, value, timeout);
            r.Some? ==>
              && (forall flag :: Given(r.value, flag) == Given(o, flag))
              && r.value.clientMode == o.clientMode
              && r.value.switchVid == o.switchVid && r.value.switchVidDefaulted == o.switchVidDefaulted
              && (if option == TimeoutMs then timeout(value) == Some(r.value.responseTimeoutMs)
                  else r.value.responseTimeoutMs == o.responseTimeoutMs)
              && (option == Format ==> IsFormat(value))
  {
    hide Given, WithValue, IsFormat;
    var r := WithValue(o, option, value, timeout);
    if r.Some? {
      ValueKeepsTheRest(o, option, value, timeout);
      ValueTaken(o, option, value, timeout);
      forall flag
        ensures Given(r.value, flag) == Given(o, flag)
      {
        SameFlagsGiven(r.value, o, flag);
      }
    }
  }

  lemma ValueEffect(o: Options, option: Valued, value: string, timeout: TimeoutReader, other: Valued)
    requires other != TimeoutMs
    ensures var r := WithValue(o, option, value, timeout);
            r.Some? ==> Held(r.value, other) == (if option == other then value else Held(o, other))
  {
  }

  lemma OneItemFlags(item: Item, o: Options, next: Options, timeout: TimeoutReader, flag: Flag)
    requires WithItem(o, item, timeout) == Some(next) && !IsRole(flag)
    ensures Given(next, flag) == (Given(o, flag) || item == OfFlag(flag))
  {
    match item
    case OfFlag(f) => hide WithFlag, Given; FlagEffect(o, f, flag);
    case OfValue(option, value) => hide WithValue, Given; ValueKeeps(o, option, value, timeout);
    case OfPositional(text) =>
  }

  lemma OneItemTexts(item: Item, o: Options, next: Options, timeout: TimeoutReader, option: Valued)
    requires WithItem(o, item, timeout) == Some(next) && option != TimeoutMs
    ensures Held(next, option) == (if item.OfValue? && item.option == option then item.value else Held(o, option))
  {
    match item
    case OfFlag(f) => hide WithFlag; FlagKeeps(o, f);
    case OfValue(other, value) => hide WithValue, Held; ValueEffect(o, other, value, timeout, option);
    case OfPositional(text) =>
  }

  lemma FirstFlags(item: Item, items: seq<Item>, o: Options, next: Options, r: Options, timeout: TimeoutReader)
    requires WithItem(o, item, timeout) == Some(next) && FlagsLeft(items, next, r)
    ensures FlagsLeft([item] + items, o, r)
  {
    hide WithItem, Given;
    forall flag | !IsRole(flag)
      ensures Given(r, flag) == (Given(o, flag) || OfFlag(flag) in [item] + items)
    {
      OneItemFlags(item, o, next, timeout, flag);
    }
  }

  lemma FirstTexts(item: Item, items: seq<Item>, o: Options, next: Options, r: Options, timeout: TimeoutReader)
    requires WithItem(o, item, timeout) == Some(next) && TextsLeft(items, next, r)
    ensures TextsLeft([item] + items, o, r)
  {
    hide WithItem, Held;
    assert ([item] + items)[1..] == items;
    forall option | option != TimeoutMs
      ensures Held(r, option) == Or(LastValue([item] + items, option), Held(o, option))
    {
      OneItemTexts(item, o, next, timeout, option);
    }
  }

  lemma FirstOthers(item: Item, items: seq<Item>, o: Options, next: Options, r: Options, timeout: TimeoutReader)
    requires WithItem(o, item, timeout) == Some(next)
    requires RoleLeft(items, next, r) && TimeoutLeft(items, next, r, timeout) && VidLeft(items, next, r)
    ensures RoleLeft([item] + items, o, r) && TimeoutLeft([item] + items, o, r, timeout) && VidLeft([item] + items, o, r)
  {
    hide WithFlag, WithValue;
    assert ([item] + items)[1..] == items;
    match item
    case OfFlag(f) =>
      FlagKeeps(o, f);
      assert Positionals([item] + items) == Positionals(items);
    case OfValue(option, value) =>
      ValueKeeps(o, option, value, timeout);
      assert Positionals([item] + items) == Positionals(items);
    case OfPositional(text) =>
      assert Positionals([item] + items) == [text] + Positionals(items);
  }

  lemma {:induction false} ItemsMean(items: seq<Item>, o: Options, timeout: TimeoutReader)
    ensures var r := WithItems(o, items, timeout); r.Some? ==> LeftBy(items, o, r.value, timeout)
    decreases |items|
  {
    if items != [] {
      hide WithItem, FlagsLeft, RoleLeft, TextsLeft, TimeoutLeft, VidLeft;
      var next := WithItem(o, items[0], timeout);
      if next.Some? {
        ItemsMean(items[1..], next.value, timeout);
        var r := WithItems(next.value, items[1..], timeout);
        if r.Some? {
          FirstFlags(items[0], items[1..], o, next.value, r.value, timeout);
          FirstTexts(items[0], items[1..], o, next.value, r.value, timeout);
          FirstOthers(items[0], items[1..], o, next.value, r.value, timeout);
          assert [items[0]] + items[1..] == items;
        }
      }
    }
  }

  /**
    What every accepted command line means: each flag holds exactly when it is given, the last
    of --client and --server wins, so does the last value of each option, and, unless help was
    asked for, there is a switch VID, the default one exactly when none was given.
   */
  lemma AcceptedMeaning(args: seq<string>, timeout: TimeoutReader)
    requires Parse(args, timeout).Some?
    ensures Items(args).Some?
    ensures var r, items := Parse(args, timeout).value, Items(args).value;
            && LeftBy(items, DEFAULT_OPTIONS, Undefaulted(r), timeout)
            && (r.showHelp || r.switchVid.Some?)
            && (r.switchVidDefaulted <==> !r.showHelp && Positionals(items) == [])
            && (r.switchVidDefaulted ==> r.switchVid == Some(DEFAULT_SWITCH_VID))
            && IsFormat(r.format)
            && !(r.listSwitches && r.format == "json")
  {
    hide LeftBy, Walk, Items, WithItems;
    WalkTakesItems(args, DEFAULT_OPTIONS, timeout);
    var o := WithItems(DEFAULT_OPTIONS, Items(args).value, timeout);
    ItemsMean(Items(args).value, DEFAULT_OPTIONS, timeout);
    FormatStays(Items(args).value, DEFAULT_OPTIONS, timeout);
    LeftVid(Items(args).value, DEFAULT_OPTIONS, o.value, timeout);
  }

  lemma LeftVid(items: seq<Item>, o: Options, r: Options, timeout: TimeoutReader)
    requires LeftBy(items, o, r, timeout) && o.switchVid.None?
    ensures r.switchVid.Some? <==> Positionals(items) != []
    ensures r.switchVidDefaulted == o.switchVidDefaulted
  {
  }

  /** The options before the default switch was filled in. */
  function Undefaulted(o: Options): Options {
    if o.switchVidDefaulted then o.(switchVid := None, switchVidDefaulted := false) else o
  }

  predicate IsFormat(s: string) {
    s == "text" || s == "json"
  }

  lemma FormatAfter(item: Item, o: Options, timeout: TimeoutReader)
    requires IsFormat(o.format)
    ensures var next := WithItem(o, item, timeout); next.Some? ==> IsFormat(next.value.format)
  {
    hide IsFormat, WithFlag, WithValue;
    match item
    case OfFlag(f) => FlagKeeps(o, f);
    case OfValue(option, value) =>
      ValueEffect(o, option, value, timeout, Format);
      ValueKeeps(o, option, value, timeout);
    case OfPositional(text) =>
  }

  lemma {:induction false} FormatStays(items: seq<Item>, o: Options, timeout: TimeoutReader)
    requires IsFormat(o.format)
    ensures var r := WithItems(o, items, timeout); r.Some? ==> IsFormat(r.value.format)
    decreases |items|
  {
    hide IsFormat, WithItem;
    if items != [] {
      FormatAfter(items[0], o, timeout);
      var next := WithItem(o, items[0], timeout);
      if next.Some? {
        FormatStays(items[1..], next.value, timeout);
      }
    }
  }

  /** A bare invocation: text output of the default switch in the server role, and nothing else asked for. */
  lemma BareInvocation(timeout: TimeoutReader)
    ensures Parse([], timeout) ==
            Some(Options(false, false, false, false, false, false, false, false, false,
                         "text", "", "", "", "", Some("0x21000000000000"), true, 0))
  {
  }

  // ----- which command lines are accepted

  /** A value its option accepts. */
  predicate Acceptable(option: Valued, value: string, timeout: TimeoutReader) {
    match option
    case Format => IsFormat(value)
    case TimeoutMs => timeout(value).Some?
    case _ => true
  }

  predicate AllAcceptable(items: seq<Item>, timeout: TimeoutReader) {
    forall i :: 0 <= i < |items| && items[i].OfValue? ==> Acceptable(items[i].option, items[i].value, timeout)
  }

  lemma ValueAccepted(o: Options, option: Valued, value: string, timeout: TimeoutReader)
    ensures WithValue(o, option, value, timeout).Some? <==> Acceptable(option, value, timeout)
  {
  }

  lemma ItemAccepted(o: Options, item: Item, timeout: TimeoutReader)
    ensures WithItem(o, item, timeout).Some? <==>
            (item.OfValue? ==> Acceptable(item.option, item.value, timeout)) && (item.OfPositional? ==> o.switchVid.None?)
    ensures WithItem(o, item, timeout).Some? ==>
              (WithItem(o, item, timeout).value.switchVid.Some? <==> o.switchVid.Some? || item.OfPositional?)
  {
    match item
    case OfFlag(flag) => hide WithFlag; FlagKeeps(o, flag);
    case OfValue(option, value) =>
      hide WithValue, Acceptable, Given;
      ValueAccepted(o, option, value, timeout);
      ValueKeeps(o, option, value, timeout);
    case OfPositional(text) =>
  }

  lemma {:induction false} ItemsAccepted(o: Options, items: seq<Item>, timeout: TimeoutReader)
    ensures WithItems(o, items, timeout).Some? <==>
            AllAcceptable(items, timeout) && |Positionals(items)| <= (if o.switchVid.Some? then 0 else 1)
    decreases |items|
  {
    if items != [] {
      hide WithItem, Acceptable;
      ItemAccepted(o, items[0], timeout);
      assert AllAcceptable(items, timeout) <==>
             (items[0].OfValue? ==> Acceptable(items[0].option, items[0].value, timeout)) && AllAcceptable(items[1..], timeout) by {
        assert forall i :: 0 < i < |items| ==> items[i] == items[1..][i - 1];
        assert forall i :: 0 <= i < |items[1..]| ==> items[1..][i] == items[i + 1];
      }
      var next := WithItem(o, items[0], timeout);
      if next.Some? {
        ItemsAccepted(next.value, items[1..], timeout);
      }
    }
  }

  lemma {:induction false} LastValueConcat(a: seq<Item>, b: seq<Item>, option: Valued)
    ensures LastValue(a + b, option) ==
            (if LastValue(b, option).Some? then LastValue(b, option) else LastValue(a, option))
    decreases |a|
  {
    if a == [] {
      assert a + b == b;
    } else {
      LastValueConcat(a[1..], b, option);
      assert (a + b)[1..] == a[1..] + b;
    }
  }

  lemma {:induction false} LastRoleConcat(a: seq<Item>, b: seq<Item>)
    ensures LastRole(a + b) == (if LastRole(b).Some? then LastRole(b) else LastRole(a))
    decreases |a|
  {
    if a == [] {
      assert a + b == b;
    } else {
      LastRoleConcat(a[1..], b);
      assert (a + b)[1..] == a[1..] + b;
    }
  }

  lemma {:induction false} PositionalsConcat(a: seq<Item>, b: seq<Item>)
    ensures Positionals(a + b) == Positionals(a) + Positionals(b)
    decreases |a|
  {
    if a == [] {
      assert a + b == b;
    } else {
      PositionalsConcat(a[1..], b);
      assert (a + b)[1..] == a[1..] + b;
    }
  }

  lemma ConcatHolds(a: seq<Item>, b: seq<Item>)
    ensures forall option :: LastValue(a + b, option) ==
              (if LastValue(b, option).Some? then LastValue(b, option) else LastValue(a, option))
    ensures LastRole(a + b) == (if LastRole(b).Some? then LastRole(b) else LastRole(a))
    ensures Positionals(a + b) == Positionals(a) + Positionals(b)
  {
    hide LastValue, LastRole, Positionals;
    forall option {
      LastValueConcat(a, b, option);
    }
    LastRoleConcat(a, b);
    PositionalsConcat(a, b);
  }

  lemma AcceptableParts(a: seq<Item>, b: seq<Item>, timeout: TimeoutReader)
    ensures AllAcceptable(a + b, timeout) <==> AllAcceptable(a, timeout) && AllAcceptable(b, timeout)
  {
    var items := a + b;
    assert forall i :: 0 <= i < |a| ==> items[i] == a[i];
    assert forall i :: |a| <= i < |items| ==> items[i] == b[i - |a|];
    assert forall i :: 0 <= i < |b| ==> b[i] == items[|a| + i];
  }

  /**
    Exactly which command lines are accepted: every option is known and has a value it accepts,
    there is at most one VID, and --list-switches is not combined with JSON output.
   */
  lemma AcceptedExactly(args: seq<string>, timeout: TimeoutReader)
    ensures Parse(args, timeout).Some? <==>
            && Items(args).Some?
            && var items := Items(args).value;
               && AllAcceptable(items, timeout) && |Positionals(items)| <= 1
               && !(OfFlag(ListSwitches) in items && Or(LastValue(items, Format), "text") == "json")
  {
    hide Walk, Items, WithItems, AllAcceptable, Positionals, LastValue;
    WalkTakesItems(args, DEFAULT_OPTIONS, timeout);
    if Items(args).Some? {
      ItemsAccepted(DEFAULT_OPTIONS, Items(args).value, timeout);
      ItemsMean(Items(args).value, DEFAULT_OPTIONS, timeout);
      var o := WithItems(DEFAULT_OPTIONS, Items(args).value, timeout);
      if o.Some? {
        assert Given(o.value, ListSwitches) == (Given(DEFAULT_OPTIONS, ListSwitches) || OfFlag(ListSwitches) in Items(args).value);
        assert Held(o.value, Format) == Or(LastValue(Items(args).value, Format), Held(DEFAULT_OPTIONS, Format));
      }
    }
  }

  /** The options an accepted command line can leave behind. */
  predicate ValidOptions(o: Options) {
    && IsFormat(o.format) && !(o.listSwitches && o.format == "json")
    && (o.switchVidDefaulted ==> !o.showHelp && o.switchVid == Some(DEFAULT_SWITCH_VID))
    && (!o.switchVidDefaulted ==>
          && (o.switchVid.None? ==> o.showHelp)
          && (o.switchVid.Some? ==> ExplicitVid(o.switchVid.value)))
  }

  /** And what any accepted command line leaves behind is valid. */
  lemma AcceptedIsValid(args: seq<string>, timeout: TimeoutReader)
    ensures Parse(args, timeout).Some? ==> ValidOptions(Parse(args, timeout).value)
  {
    if Parse(args, timeout).Some? {
      hide Parse, Items, LastValue, LastRole, ExplicitVid;
      AcceptedMeaning(args, timeout);
      ItemsExplicit(args);
      var r, items := Parse(args, timeout).value, Items(args).value;
      PositionalsIn(items);
      if r.switchVid.Some? && !r.switchVidDefaulted {
        assert VidLeft(items, DEFAULT_OPTIONS, Undefaulted(r));
        assert r.switchVid.value in Positionals(items);
        assert OfPositional(r.switchVid.value) in items;
      }
    }
  }

  lemma {:induction false} PositionalsIn(items: seq<Item>)
    ensures forall text :: text in Positionals(items) ==> OfPositional(text) in items
    decreases |items|
  {
    if items != [] {
      PositionalsIn(items[1..]);
    }
  }

  lemma NotADash(a: string)
    ensures Classify(a).Positional? ==> Classify(a).text == a && ExplicitVid(a)
  {
    hide Word;
    if Word(a).Some? {
      WordIsNotPositional(a);
    }
  }

  lemma WordIsNotPositional(a: string)
    requires Word(a).Some?
    ensures !Word(a).value.Positional?
  {
  }

  ghost predicate AllExplicit(items: seq<Item>) {
    forall item :: item in items && item.OfPositional? ==> ExplicitVid(item.text)
  }

  lemma {:induction false} ItemsExplicit(args: seq<string>)
    ensures Items(args).Some? ==> AllExplicit(Items(args).value)
    decreases |args|
  {
    if args != [] && Items(args).Some? {
      hide Classify, ExplicitVid;
      NotADash(args[0]);
      match Classify(args[0])
      case IsFlag(flag) => ItemsExplicit(args[1..]);
      case NeedsValue(option) => ItemsExplicit(args[2..]);
      case HasValue(option, value) => ItemsExplicit(args[1..]);
      case Unknown =>
      case Positional(text) => ItemsExplicit(args[1..]);
    }
  }
}

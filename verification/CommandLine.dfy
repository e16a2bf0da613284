/** The command line: the argument walk, and what an accepted command line means. */
module CommandLine {
  import opened Text

  datatype Options = Options(
    all: bool, includeUnsupported: bool, probeStats: bool, showHelp: bool, listSwitches: bool, clientMode: bool,
    allowClear: bool, verifyAttributes: bool, debug: bool,
    format: string, objectFilter: string, clientConfig: string, contextConfig: string, serverConfig: string,
    switchVid: Option<string>, switchVidDefaulted: bool, responseTimeoutMs: uint64)

  const DEFAULT_OPTIONS := Options(false, false, false, false, false, false, false, false, false,
                                   "text", "", "", "", "", None, false, 0)

  const DEFAULT_SWITCH_VID := "0x21000000000000"

  /** The options that take a value. */
  datatype Valued = Format | Object | ClientConfig | ContextConfig | ServerConfig | TimeoutMs

  /** The options that stand alone. */
  datatype Flag = Help | All | IncludeUnsupported | ProbeStats | AllowClear | VerifyAttributes | Debug | ListSwitches
                | Client | Server

  /** What one argument is, wherever it stands. */
  datatype Argument = IsFlag(flag: Flag) | NeedsValue(option: Valued) | HasValue(option: Valued, value: string)
                    | Unknown | Positional(text: string)

  function Spelling(option: Valued): string {
    match option
    case Format => "--format"
    case Object => "--object"
    case ClientConfig => "--client-config"
    case ContextConfig => "--context-config"
    case ServerConfig => "--server-config"
    case TimeoutMs => "--timeout-ms"
  }

  function FlagSpelling(flag: Flag): string {
    match flag
    case Help => "--help"
    case All => "--all"
    case IncludeUnsupported => "--include-unsupported"
    case ProbeStats => "--probe-stats"
    case AllowClear => "--allow-clear"
    case VerifyAttributes => "--verify-attributes"
    case Debug => "--debug"
    case ListSwitches => "--list-switches"
    case Client => "--client"
    case Server => "--server"
  }

  /** The text behind `prefix`. */
  function Behind(a: string, prefix: string): string
    requires StartsWith(a, prefix)
  {
    a[|prefix|..]
  }

  /** The arguments recognised whole. */
  function Word(a: string): Option<Argument> {
    if a == "-h" || a == "--help" then Some(IsFlag(Help))
    else if a == "--all" then Some(IsFlag(All))
    else if a == "--include-unsupported" then Some(IsFlag(IncludeUnsupported))
    else if a == "--probe-stats" then Some(IsFlag(ProbeStats))
    else if a == "--allow-clear" then Some(IsFlag(AllowClear))
    else if a == "--verify-attributes" then Some(IsFlag(VerifyAttributes))
    else if a == "--debug" then Some(IsFlag(Debug))
    else if a == "--format" then Some(NeedsValue(Format))
    else if a == "--list-switches" then Some(IsFlag(ListSwitches))
    else if a == "--client" then Some(IsFlag(Client))
    else if a == "--server" then Some(IsFlag(Server))
    else if a == "--object" then Some(NeedsValue(Object))
    else if a == "--client-config" then Some(NeedsValue(ClientConfig))
    else if a == "--context-config" then Some(NeedsValue(ContextConfig))
    else if a == "--server-config" then Some(NeedsValue(ServerConfig))
    else if a == "--timeout-ms" then Some(NeedsValue(TimeoutMs))
    else None
  }

  /** The chain of comparisons an argument goes through: no whole word holds an '=', so words can come first. */
  function Classify(a: string): Argument {
    var word := Word(a);
    if word.Some? then word.value
    else if StartsWith(a, "--format=") then HasValue(Format, Behind(a, "--format="))
    else if StartsWith(a, "--object=") then HasValue(Object, Behind(a, "--object="))
    else if StartsWith(a, "--client-config=") then HasValue(ClientConfig, Behind(a, "--client-config="))
    else if StartsWith(a, "--context-config=") then HasValue(ContextConfig, Behind(a, "--context-config="))
    else if StartsWith(a, "--server-config=") then HasValue(ServerConfig, Behind(a, "--server-config="))
    else if a != "" && a[0] == '-' then Unknown
    else Positional(a)
  }

  /** The reading of a --timeout-ms text, None when it is not a number. */
  type TimeoutReader = string -> Option<uint64>

  function WithFlag(o: Options, flag: Flag): Options {
    match flag
    case Help => o.(showHelp := true)
    case All => o.(all := true)
    case IncludeUnsupported => o.(includeUnsupported := true)
    case ProbeStats => o.(probeStats := true)
    case AllowClear => o.(allowClear := true)
    case VerifyAttributes => o.(verifyAttributes := true)
    case Debug => o.(debug := true)
    case ListSwitches => o.(listSwitches := true)
    case Client => o.(clientMode := true)
    case Server => o.(clientMode := false)
  }

  function WithValue(o: Options, option: Valued, value: string, timeout: TimeoutReader): Option<Options> {
    match option
    case Format => if value == "text" || value == "json" then Some(o.(format := value)) else None
    case Object => Some(o.(objectFilter := value))
    case ClientConfig => Some(o.(clientConfig := value))
    case ContextConfig => Some(o.(contextConfig := value))
    case ServerConfig => Some(o.(serverConfig := value))
    case TimeoutMs =>
      var ms := timeout(value);
      if ms.Some? then Some(o.(responseTimeoutMs := ms.value)) else None
  }

  function WithPositional(o: Options, text: string): Option<Options> {
    if o.switchVid.Some? then None else Some(o.(switchVid := Some(text)))
  }

  /** The checks behind the walk, and the default switch. */
  function Finish(o: Options): Option<Options> {
    if o.listSwitches && o.format == "json" then None
    else if o.showHelp || o.switchVid.Some? then Some(o)
    else Some(o.(switchVid := Some(DEFAULT_SWITCH_VID), switchVidDefaulted := true))
  }

  /** The walk over the remaining arguments; None when the command line is rejected. */
  function Walk(args: seq<string>, o: Options, timeout: TimeoutReader): Option<Options>
    decreases |args|
  {
    if args == [] then Finish(o)
    else match Classify(args[0])
      case IsFlag(flag) => Walk(args[1..], WithFlag(o, flag), timeout)
      case NeedsValue(option) =>
        if |args| == 1 then None
        else
          var next := WithValue(o, option, args[1], timeout);
          if next.None? then None else Walk(args[2..], next.value, timeout)
      case HasValue(option, value) =>
        var next := WithValue(o, option, value, timeout);
        if next.None? then None else Walk(args[1..], next.value, timeout)
      case Unknown => None
      case Positional(text) =>
        var next := WithPositional(o, text);
        if next.None? then None else Walk(args[1..], next.value, timeout)
  }

  function Parse(args: seq<string>, timeout: TimeoutReader): Option<Options> {
    Walk(args, DEFAULT_OPTIONS, timeout)
  }

  method ParseOptions(args: seq<string>, timeout: TimeoutReader) returns (ok: bool, options: Options)
    ensures Parse(args, timeout) == (if ok then Some(options) else None)
  {
    options := DEFAULT_OPTIONS;
    var index := 0;
    while index < |args|
      invariant index <= |args|
      invariant Walk(args[index..], options, timeout) == Parse(args, timeout)
    {
      ghost var rest := args[index..];
      assert rest[1..] == args[index + 1..];
      var argument := Classify(args[index]);
      match argument {
      case IsFlag(flag) =>
        options := WithFlag(options, flag);
      case NeedsValue(option) =>
        index := index + 1;
        if index >= |args| {
          return false, options;
        }
        assert rest[2..] == args[index + 1..];
        var next := WithValue(options, option, args[index], timeout);
        if next.None? {
          return false, options;
        }
        options := next.value;
      case HasValue(option, value) =>
        var next := WithValue(options, option, value, timeout);
        if next.None? {
          return false, options;
        }
        options := next.value;
      case Unknown =>
        return false, options;
      case Positional(text) =>
        if options.switchVid.Some? {
          return false, options;
        }
        options := options.(switchVid := Some(text));
      }
      index := index + 1;
    }
    if options.listSwitches && options.format == "json" {
      return false, options;
    }
    if options.showHelp {
      return true, options;
    }
    if options.switchVid.None? {
      options := options.(switchVid := Some(DEFAULT_SWITCH_VID), switchVidDefaulted := true);
    }
    return true, options;
  }

  // ----- what the arguments are

  /** One item of a command line: an argument, with the value it was given. */
  datatype Item = OfFlag(flag: Flag) | OfValue(option: Valued, value: string) | OfPositional(text: string)

  /** The items of a command line, None when an option is unknown or has no value. */
  function Items(args: seq<string>): Option<seq<Item>>
    decreases |args|
  {
    if args == [] then Some([])
    else match Classify(args[0])
      case IsFlag(flag) => Prepend(OfFlag(flag), Items(args[1..]))
      case NeedsValue(option) => if |args| == 1 then None else Prepend(OfValue(option, args[1]), Items(args[2..]))
      case HasValue(option, value) => Prepend(OfValue(option, value), Items(args[1..]))
      case Unknown => None
      case Positional(text) => Prepend(OfPositional(text), Items(args[1..]))
  }

  function Prepend(item: Item, items: Option<seq<Item>>): Option<seq<Item>> {
    if items.Some? then Some([item] + items.value) else None
  }

  function WithItem(o: Options, item: Item, timeout: TimeoutReader): Option<Options> {
    match item
    case OfFlag(flag) => Some(WithFlag(o, flag))
    case OfValue(option, value) => WithValue(o, option, value, timeout)
    case OfPositional(text) => WithPositional(o, text)
  }

  function WithItems(o: Options, items: seq<Item>, timeout: TimeoutReader): Option<Options>
    decreases |items|
  {
    if items == [] then Some(o)
    else
      var next := WithItem(o, items[0], timeout);
      if next.None? then None else WithItems(next.value, items[1..], timeout)
  }

  function AndFinish(o: Option<Options>): Option<Options> {
    if o.Some? then Finish(o.value) else None
  }

  /** The walk is the items taken one by one; a command line without items is rejected at some point. */
  lemma {:induction false} WalkTakesItems(args: seq<string>, o: Options, timeout: TimeoutReader)
    ensures Walk(args, o, timeout) ==
            (if Items(args).Some? then AndFinish(WithItems(o, Items(args).value, timeout)) else None)
    decreases |args|
  {
    hide Classify, WithFlag, WithValue, WithPositional, Finish;
    if args != [] {
      match Classify(args[0])
      case IsFlag(flag) =>
        WalkTakesItems(args[1..], WithFlag(o, flag), timeout);
        TakeFirst(o, OfFlag(flag), Items(args[1..]), timeout);
      case NeedsValue(option) =>
        if |args| > 1 {
          var next := WithValue(o, option, args[1], timeout);
          TakeFirst(o, OfValue(option, args[1]), Items(args[2..]), timeout);
          if next.Some? {
            WalkTakesItems(args[2..], next.value, timeout);
          }
        }
      case HasValue(option, value) =>
        var next := WithValue(o, option, value, timeout);
        TakeFirst(o, OfValue(option, value), Items(args[1..]), timeout);
        if next.Some? {
          WalkTakesItems(args[1..], next.value, timeout);
        }
      case Unknown =>
      case Positional(text) =>
        var next := WithPositional(o, text);
        TakeFirst(o, OfPositional(text), Items(args[1..]), timeout);
        if next.Some? {
          WalkTakesItems(args[1..], next.value, timeout);
        }
    }
  }

  lemma TakeFirst(o: Options, item: Item, items: Option<seq<Item>>, timeout: TimeoutReader)
    ensures items.Some? ==>
              var next := WithItem(o, item, timeout);
              WithItems(o, Prepend(item, items).value, timeout)
              == (if next.None? then None else WithItems(next.value, items.value, timeout))
  {
    if items.Some? {
      assert ([item] + items.value)[1..] == items.value;
    }
  }

  // ----- how the spellings are classified

  lemma PrefixChar(a: string, prefix: string, i: nat)
    requires StartsWith(a, prefix) && i < |prefix|
    ensures a[i] == prefix[i]
  {
    assert a[..|prefix|][i] == a[i];
  }

  /** An argument whose third character is not the prefix's does not start with it. */
  lemma NotPrefix(a: string, prefix: string, i: nat)
    requires i < |prefix| && (i >= |a| || a[i] != prefix[i])
    ensures !StartsWith(a, prefix)
  {
    if StartsWith(a, prefix) {
      PrefixChar(a, prefix, i);
    }
  }

  lemma SpellingsClassify(option: Valued)
    ensures Classify(Spelling(option)) == NeedsValue(option)
  {
    assert Word(Spelling(option)) == Some(NeedsValue(option));
  }

  /** A text that is taken for the switch VID: anything not starting with a dash. */
  predicate ExplicitVid(text: string) {
    text == "" || text[0] != '-'
  }

  lemma WordStartsWithDash(a: string)
    requires Word(a).Some?
    ensures a != "" && a[0] == '-'
  {
  }

  lemma PositionalClassifies(text: string)
    requires ExplicitVid(text)
    ensures Classify(text) == Positional(text)
  {
    hide Word;
    if Word(text).Some? {
      WordStartsWithDash(text);
    }
    NotPrefix(text, "--format=", 0);
    NotPrefix(text, "--object=", 0);
    NotPrefix(text, "--client-config=", 0);
    NotPrefix(text, "--context-config=", 0);
    NotPrefix(text, "--server-config=", 0);
  }

  lemma FlagClassifies(flag: Flag)
    ensures Classify(FlagSpelling(flag)) == IsFlag(flag)
  {
    assert Word(FlagSpelling(flag)) == Some(IsFlag(flag));
  }

  /** The words the program documents. */
  lemma WordsMean()
    ensures Classify("-h") == IsFlag(Help) && Classify("--help") == IsFlag(Help) && Classify("--all") == IsFlag(All)
    ensures Classify("--include-unsupported") == IsFlag(IncludeUnsupported)
    ensures Classify("--probe-stats") == IsFlag(ProbeStats) && Classify("--allow-clear") == IsFlag(AllowClear)
    ensures Classify("--verify-attributes") == IsFlag(VerifyAttributes) && Classify("--debug") == IsFlag(Debug)
    ensures Classify("--list-switches") == IsFlag(ListSwitches)
    ensures Classify("--client") == IsFlag(Client) && Classify("--server") == IsFlag(Server)
    ensures Classify("--format") == NeedsValue(Format) && Classify("--object") == NeedsValue(Object)
    ensures Classify("--client-config") == NeedsValue(ClientConfig)
    ensures Classify("--context-config") == NeedsValue(ContextConfig)
    ensures Classify("--server-config") == NeedsValue(ServerConfig) && Classify("--timeout-ms") == NeedsValue(TimeoutMs)
  {
    FlagClassifies(Help); FlagClassifies(All); FlagClassifies(IncludeUnsupported); FlagClassifies(ProbeStats);
    FlagClassifies(AllowClear); FlagClassifies(VerifyAttributes); FlagClassifies(Debug);
    FlagClassifies(ListSwitches); FlagClassifies(Client); FlagClassifies(Server);
    SpellingsClassify(Format); SpellingsClassify(Object); SpellingsClassify(ClientConfig);
    SpellingsClassify(ContextConfig); SpellingsClassify(ServerConfig); SpellingsClassify(TimeoutMs);
    ShortHelp();
    hide Classify;
  }

  lemma ShortHelp()
    ensures Classify("-h") == IsFlag(Help)
  {
  }

  /** And nothing else is an option: every argument is what its spelling says, or has no other reading. */
  lemma ClassifiesBySpelling(a: string)
    ensures match Classify(a)
            case IsFlag(flag) => a == FlagSpelling(flag) || (a == "-h" && flag == Help)
            case NeedsValue(option) => a == Spelling(option)
            case HasValue(option, value) => option != TimeoutMs && a == Spelling(option) + "=" + value
            case Unknown => a != "" && a[0] == '-'
            case Positional(text) => text == a && (a == "" || a[0] != '-')
  {
    hide Word, FlagSpelling, Spelling;
    match Classify(a)
    case IsFlag(flag) => assert Word(a) == Some(IsFlag(flag)); FlagWords(a, flag);
    case NeedsValue(option) => assert Word(a) == Some(NeedsValue(option)); ValueWords(a, option);
    case HasValue(option, value) => HeldIsBehind(a);
    case Unknown => NoOtherWord(a);
    case Positional(text) => NoOtherWord(a);
  }

  lemma HeldIsBehind(a: string)
    requires Classify(a).HasValue?
    ensures Classify(a).option != TimeoutMs && a == Spelling(Classify(a).option) + "=" + Classify(a).value
  {
    WordsAreOptions(a);
    hide Word, StartsWith, Behind;
    match Classify(a).option
    case Format => BehindPrefix(a, "--format="); assert Spelling(Format) + "=" == "--format=";
    case Object => BehindPrefix(a, "--object="); assert Spelling(Object) + "=" == "--object=";
    case ClientConfig => BehindPrefix(a, "--client-config="); assert Spelling(ClientConfig) + "=" == "--client-config=";
    case ContextConfig => BehindPrefix(a, "--context-config="); assert Spelling(ContextConfig) + "=" == "--context-config=";
    case ServerConfig => BehindPrefix(a, "--server-config="); assert Spelling(ServerConfig) + "=" == "--server-config=";
    case TimeoutMs =>
  }

  lemma BehindPrefix(a: string, prefix: string)
    ensures StartsWith(a, prefix) ==> a == prefix + Behind(a, prefix)
  {
  }

  lemma NoOtherWord(a: string)
    requires Classify(a).Unknown? || Classify(a).Positional?
    ensures Classify(a).Unknown? ==> a != "" && a[0] == '-'
    ensures Classify(a).Positional? ==> Classify(a).text == a && (a == "" || a[0] != '-')
  {
    WordsAreOptions(a);
    hide Word;
  }

  lemma FlagWords(a: string, flag: Flag)
    requires Word(a) == Some(IsFlag(flag))
    ensures a == FlagSpelling(flag) || (a == "-h" && flag == Help)
  {
  }

  lemma ValueWords(a: string, option: Valued)
    requires Word(a) == Some(NeedsValue(option))
    ensures a == Spelling(option)
  {
  }

  lemma WordsAreOptions(a: string)
    ensures Word(a).Some? ==> Word(a).value.IsFlag? || Word(a).value.NeedsValue?
  {
  }
}

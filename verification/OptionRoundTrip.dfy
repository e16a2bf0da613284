/** Rendering options as a command line, and reading them back. */
module OptionRoundTrip {
  import opened Text
  import opened CommandLine
  import opened CommandLineMeaning

  function RenderItem(item: Item): seq<string> {
    match item
    case OfFlag(flag) => [FlagSpelling(flag)]
    case OfValue(option, value) => [Spelling(option), value]
    case OfPositional(text) => [text]
  }

  function RenderItems(items: seq<Item>): seq<string> {
    if items == [] then [] else RenderItem(items[0]) + RenderItems(items[1..])
  }

  /** Rendered items are read back as themselves. */
  lemma {:induction false} ItemsRoundTrip(items: seq<Item>)
    requires forall item :: item in items && item.OfPositional? ==> ExplicitVid(item.text)
    ensures Items(RenderItems(items)) == Some(items)
    decreases |items|
  {
    if items != [] {
      hide Classify, FlagSpelling, Spelling, ExplicitVid;
      assert items[0] in items && items == [items[0]] + items[1..];
      ItemsRoundTrip(items[1..]);
      var rest := RenderItems(items[1..]);
      match items[0]
      case OfFlag(flag) =>
        FlagClassifies(flag);
        assert ([FlagSpelling(flag)] + rest)[1..] == rest;
      case OfValue(option, value) =>
        SpellingsClassify(option);
        assert ([Spelling(option), value] + rest)[2..] == rest;
      case OfPositional(text) =>
        PositionalClassifies(text);
        assert ([text] + rest)[1..] == rest;
    }
  }

  const RENDERED_FLAGS: seq<Flag> :=
    [Help, All, IncludeUnsupported, ProbeStats, AllowClear, VerifyAttributes, Debug, ListSwitches, Client]
  const RENDERED_VALUES: seq<Valued> := [Format, Object, ClientConfig, ContextConfig, ServerConfig, TimeoutMs]

  function FlagItems(o: Options, flags: seq<Flag>): seq<Item> {
    if flags == [] then []
    else (if Given(o, flags[0]) then [OfFlag(flags[0])] else []) + FlagItems(o, flags[1..])
  }

  function ValueItems(o: Options, options: seq<Valued>, timeoutText: string): seq<Item> {
    if options == [] then []
    else
      [OfValue(options[0], if options[0] == TimeoutMs then timeoutText else Held(o, options[0]))]
      + ValueItems(o, options[1..], timeoutText)
  }

  function VidItems(o: Options): seq<Item> {
    if o.switchVid.Some? && !o.switchVidDefaulted then [OfPositional(o.switchVid.value)] else []
  }

  function OptionItems(o: Options, timeoutText: string): seq<Item> {
    FlagItems(o, RENDERED_FLAGS) + (ValueItems(o, RENDERED_VALUES, timeoutText) + VidItems(o))
  }

  /** A command line that asks for the given options; `timeoutText` is a text for the timeout. */
  function RenderOptions(o: Options, timeoutText: string): seq<string> {
    RenderItems(OptionItems(o, timeoutText))
  }

  lemma {:induction false} FlagItemsHold(o: Options, flags: seq<Flag>)
    ensures forall item :: item in FlagItems(o, flags) <==> item.OfFlag? && item.flag in flags && Given(o, item.flag)
    ensures Server !in flags ==>
              LastRole(FlagItems(o, flags)) == (if Client in flags && o.clientMode then Some(Client) else None)
    ensures forall option :: LastValue(FlagItems(o, flags), option).None?
    ensures Positionals(FlagItems(o, flags)) == []
    decreases |flags|
  {
    if flags != [] {
      FlagItemsHold(o, flags[1..]);
      var items := FlagItems(o, flags);
      if Given(o, flags[0]) {
        assert items[1..] == FlagItems(o, flags[1..]);
      } else {
        assert items == FlagItems(o, flags[1..]);
      }
    }
  }

  lemma {:induction false} ValueItemsHold(o: Options, options: seq<Valued>, timeoutText: string)
    ensures var items := ValueItems(o, options, timeoutText);
            && (forall item :: item in items ==> item.OfValue?)
            && (forall i :: 0 <= i < |items| ==>
                  items[i].OfValue?
                  && items[i].value == (if items[i].option == TimeoutMs then timeoutText else Held(o, items[i].option)))
            && (forall option :: LastValue(items, option) ==
                  if option !in options then None
                  else Some(if option == TimeoutMs then timeoutText else Held(o, option)))
            && LastRole(items).None? && Positionals(items) == []
    decreases |options|
  {
    if options != [] {
      hide Held;
      ValueItemsHold(o, options[1..], timeoutText);
      var items := ValueItems(o, options, timeoutText);
      assert items[1..] == ValueItems(o, options[1..], timeoutText);
      assert forall i :: 0 < i < |items| ==> items[i] == items[1..][i - 1];
    }
  }

  /** What the rendered items say, field by field. */
  lemma OptionItemsHold(o: Options, timeoutText: string, timeout: TimeoutReader)
    requires ValidOptions(o) && timeout(timeoutText) == Some(o.responseTimeoutMs)
    ensures var items := OptionItems(o, timeoutText);
            && (forall flag :: !IsRole(flag) ==> (OfFlag(flag) in items <==> Given(o, flag)))
            && LastRole(items) == (if o.clientMode then Some(Client) else None)
            && (forall option :: LastValue(items, option) ==
                  Some(if option == TimeoutMs then timeoutText else Held(o, option)))
            && Positionals(items) == (if o.switchVid.Some? && !o.switchVidDefaulted then [o.switchVid.value] else [])
            && AllAcceptable(items, timeout)
            && (forall item :: item in items && item.OfPositional? ==> ExplicitVid(item.text))
  {
    var flags, values, vid := FlagItems(o, RENDERED_FLAGS), ValueItems(o, RENDERED_VALUES, timeoutText), VidItems(o);
    FlagItemsHold(o, RENDERED_FLAGS);
    ValueItemsHold(o, RENDERED_VALUES, timeoutText);
    ConcatHolds(values, vid);
    ConcatHolds(flags, values + vid);
    VidItemsHold(o);
    AllRendered();
    hide Given, Held, FlagItems, ValueItems, VidItems, LastValue, LastRole, Positionals;
    var items := OptionItems(o, timeoutText);
    forall i | 0 <= i < |items| && items[i].OfValue?
      ensures Acceptable(items[i].option, items[i].value, timeout)
    {
      assert items[i] in items;
      assert items[i] !in flags && items[i] !in vid;
      assert items[i] in values;
      var j :| 0 <= j < |values| && values[j] == items[i];
      FormatHeld(o);
    }
  }

  lemma FormatHeld(o: Options)
    ensures Held(o, Format) == o.format
  {
  }

  lemma VidItemsHold(o: Options)
    ensures forall item :: item in VidItems(o) ==> item.OfPositional? && o.switchVid == Some(item.text) && !o.switchVidDefaulted
    ensures forall option :: LastValue(VidItems(o), option).None?
    ensures LastRole(VidItems(o)).None?
    ensures Positionals(VidItems(o)) == (if o.switchVid.Some? && !o.switchVidDefaulted then [o.switchVid.value] else [])
  {
  }

  lemma AllRendered()
    ensures forall flag :: flag in RENDERED_FLAGS <==> flag != Server
    ensures forall option :: option in RENDERED_VALUES
  {
    assert RENDERED_FLAGS[0] == Help && RENDERED_FLAGS[1] == All && RENDERED_FLAGS[2] == IncludeUnsupported;
    assert RENDERED_FLAGS[3] == ProbeStats && RENDERED_FLAGS[4] == AllowClear && RENDERED_FLAGS[5] == VerifyAttributes;
    assert RENDERED_FLAGS[6] == Debug && RENDERED_FLAGS[7] == ListSwitches && RENDERED_FLAGS[8] == Client;
    forall flag: Flag
      ensures flag in RENDERED_FLAGS <==> flag != Server
    {
      match flag
      case Help | All | IncludeUnsupported | ProbeStats | AllowClear | VerifyAttributes | Debug | ListSwitches | Client | Server =>
    }
    assert RENDERED_VALUES[0] == Format && RENDERED_VALUES[1] == Object && RENDERED_VALUES[2] == ClientConfig;
    assert RENDERED_VALUES[3] == ContextConfig && RENDERED_VALUES[4] == ServerConfig && RENDERED_VALUES[5] == TimeoutMs;
    forall option: Valued
      ensures option in RENDERED_VALUES
    {
      match option
      case Format | Object | ClientConfig | ContextConfig | ServerConfig | TimeoutMs =>
    }
  }

  /** Rendering any valid options and parsing the result gives the same options. */
  lemma OptionsRoundTrip(o: Options, timeoutText: string, timeout: TimeoutReader)
    requires ValidOptions(o) && timeout(timeoutText) == Some(o.responseTimeoutMs)
    ensures Parse(RenderOptions(o, timeoutText), timeout) == Some(o)
  {
    var items := OptionItems(o, timeoutText);
    OptionItemsHold(o, timeoutText, timeout);
    ItemsRoundTrip(items);
    WalkTakesItems(RenderItems(items), DEFAULT_OPTIONS, timeout);
    ItemsAccepted(DEFAULT_OPTIONS, items, timeout);
    ItemsMean(items, DEFAULT_OPTIONS, timeout);
    var r := WithItems(DEFAULT_OPTIONS, items, timeout).value;
    hide OptionItems, Items, RenderItems, Walk, WithItems, LastValue, LastRole, Positionals, AllAcceptable;
    FieldsDecide(items, o, r, timeoutText, timeout);
  }

  lemma FieldsDecide(items: seq<Item>, o: Options, r: Options, timeoutText: string, timeout: TimeoutReader)
    requires ValidOptions(o) && timeout(timeoutText) == Some(o.responseTimeoutMs)
    requires LeftBy(items, DEFAULT_OPTIONS, r, timeout)
    requires forall flag :: !IsRole(flag) ==> (OfFlag(flag) in items <==> Given(o, flag))
    requires LastRole(items) == (if o.clientMode then Some(Client) else None)
    requires forall option :: LastValue(items, option) == Some(if option == TimeoutMs then timeoutText else Held(o, option))
    requires Positionals(items) == (if o.switchVid.Some? && !o.switchVidDefaulted then [o.switchVid.value] else [])
    ensures Finish(r) == Some(o)
  {
    hide Given, Held, ValidOptions, LastValue, LastRole, Positionals, Finish, Undefaulted;
    UndefaultedKeeps(o);
    NoFlagByDefault();
    SameFlagFields(r, Undefaulted(o));
    SameTextFields(r, Undefaulted(o));
    FinishDefaults(o);
  }

  lemma SameFlagFields(a: Options, b: Options)
    requires forall flag :: !IsRole(flag) ==> Given(a, flag) == Given(b, flag)
    ensures a.showHelp == b.showHelp && a.all == b.all && a.includeUnsupported == b.includeUnsupported
    ensures a.probeStats == b.probeStats && a.allowClear == b.allowClear && a.verifyAttributes == b.verifyAttributes
    ensures a.debug == b.debug && a.listSwitches == b.listSwitches
  {
    assert Given(a, Help) == Given(b, Help) && Given(a, All) == Given(b, All);
    assert Given(a, IncludeUnsupported) == Given(b, IncludeUnsupported) && Given(a, ProbeStats) == Given(b, ProbeStats);
    assert Given(a, AllowClear) == Given(b, AllowClear) && Given(a, VerifyAttributes) == Given(b, VerifyAttributes);
    assert Given(a, Debug) == Given(b, Debug) && Given(a, ListSwitches) == Given(b, ListSwitches);
  }

  lemma SameTextFields(a: Options, b: Options)
    requires forall option :: option != TimeoutMs ==> Held(a, option) == Held(b, option)
    ensures a.format == b.format && a.objectFilter == b.objectFilter && a.clientConfig == b.clientConfig
    ensures a.contextConfig == b.contextConfig && a.serverConfig == b.serverConfig
  {
    assert Held(a, Format) == Held(b, Format) && Held(a, Object) == Held(b, Object);
    assert Held(a, ClientConfig) == Held(b, ClientConfig) && Held(a, ContextConfig) == Held(b, ContextConfig);
    assert Held(a, ServerConfig) == Held(b, ServerConfig);
  }

  lemma NoFlagByDefault()
    ensures forall flag :: !IsRole(flag) ==> !Given(DEFAULT_OPTIONS, flag)
    ensures !DEFAULT_OPTIONS.clientMode && DEFAULT_OPTIONS.switchVid.None? && !DEFAULT_OPTIONS.switchVidDefaulted
  {
  }

  lemma UndefaultedKeeps(o: Options)
    ensures var u := Undefaulted(o);
            && (forall flag :: Given(u, flag) == Given(o, flag))
            && (forall option :: option != TimeoutMs ==> Held(u, option) == Held(o, option))
            && u.clientMode == o.clientMode && u.responseTimeoutMs == o.responseTimeoutMs && !u.switchVidDefaulted
            && u.switchVid == (if o.switchVidDefaulted then None else o.switchVid)
  {
  }

  lemma FinishDefaults(o: Options)
    requires ValidOptions(o)
    ensures Finish(Undefaulted(o)) == Some(o)
  {
  }
}

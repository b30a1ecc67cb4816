/** Runs of the example process, from its first load on: a setting is lost, and overrides end up
    in the backing store. */
module ExampleRuns {
  import opened Text
  import opened ConfigTree
  import opened Environment
  import opened EnvReport
  import opened EnvKeys
  import opened EnvValues
  import opened FixConfig
  import opened Desanitize
  import opened StoreSpec
  import opened StoreTheorems
  import opened StoreLaws
  import opened StorePersisted
  import opened World
  import opened ExampleType
  import opened Example

  predicate LengthIs(m: Table, n: int) {
    MINIMUM_LENGTH in m && m[MINIMUM_LENGTH] == SInt(n)
  }

  // -------------------------------------------------------------------------
  // A variable that does not parse: a setting is lost
  // -------------------------------------------------------------------------

  /** A setup in which the length is reported as overridden without being written. */
  ghost predicate Unwritten(w: Setup) {
    Simple(w) && w.sets == map[] && w.reported == {MINIMUM_LENGTH} && OnlyParsedKindsFail(w)
  }

  /** A process that has `MM_PASSWORDSETTINGS_MINIMUMLENGTH` set to something that is no number. */
  lemma LengthVariable(text: string)
    requires ParseInt(text).None?
    ensures ValueField(TYPE, MINIMUM_LENGTH) && IsLeaf(TYPE, MINIMUM_LENGTH)
    ensures WorldOk(SomeWorld(MINIMUM_LENGTH, text)) && ExactNames(TYPE, SomeWorld(MINIMUM_LENGTH, text).env)
    ensures Unwritten(SomeSetup(MINIMUM_LENGTH, text))
  {
    hide WorldOk, SomeSetup, SomeWorld, Simple, ExactNames, OnlyParsedKindsFail, SetupOk, ValueField, IsLeaf, KindAt;
    assert ValueField(TYPE, MINIMUM_LENGTH) && IsLeaf(TYPE, MINIMUM_LENGTH) by { ServiceLeaves(); }
    SomeWorldIsOk(MINIMUM_LENGTH, text);
    LengthIsUnwritten(text);
    SetupIsSimple(MINIMUM_LENGTH, text);
    LengthCanFail(text);
  }

  /** The variable is called just that. */
  lemma LengthIsNamed()
    ensures Variable(MINIMUM_LENGTH) == "MM_PASSWORDSETTINGS_MINIMUMLENGTH"
  {
    hide Upper, Variable;
    SectionInCapitals();
    SettingInCapitals();
    TwoSegments("PasswordSettings", "MinimumLength");
    NameOfLength();
  }

  lemma SectionInCapitals()
    ensures Upper("PasswordSettings") == "PASSWORDSETTINGS"
  {
    hide Upper;
    UpperOfText("PasswordSettings", "PASSWORDSETTINGS");
  }

  lemma SettingInCapitals()
    ensures Upper("MinimumLength") == "MINIMUMLENGTH"
  {
    hide Upper;
    UpperOfText("MinimumLength", "MINIMUMLENGTH");
  }

  lemma NameOfLength()
    ensures "MM_" + "PASSWORDSETTINGS" + "_" + "MINIMUMLENGTH" == "MM_PASSWORDSETTINGS_MINIMUMLENGTH"
  {}

  lemma TwoSegments(section: string, setting: string)
    ensures Variable([section, setting]) == "MM_" + Upper(section) + "_" + Upper(setting)
  {
    assert [section, setting][1..] == [setting] && JoinedName([setting]) == Upper(setting);
    assert "MM_" + (Upper(section) + ['_'] + Upper(setting)) == "MM_" + Upper(section) + "_" + Upper(setting);
  }

  lemma LengthIsUnwritten(text: string)
    requires ParseInt(text).None? && ValueField(TYPE, MINIMUM_LENGTH) && IsLeaf(TYPE, MINIMUM_LENGTH)
    ensures SomeSetup(MINIMUM_LENGTH, text).sets == map[]
    ensures SomeSetup(MINIMUM_LENGTH, text).reported == {MINIMUM_LENGTH}
  {
    hide SomeSetup, SomeWorld, SetupOk, ValueField, IsLeaf, KindAt, WellFormed, Kinds, ParseInt;
    ServiceLeaves();
    SetupFacts(MINIMUM_LENGTH, text);
  }

  lemma LengthCanFail(text: string)
    requires IsLeaf(TYPE, MINIMUM_LENGTH)
    ensures SetupOk(SomeSetup(MINIMUM_LENGTH, text)) && OnlyParsedKindsFail(SomeSetup(MINIMUM_LENGTH, text))
  {
    hide WorldOk, ExactNames, OnlyParsedKindsFail, SetupOk, IsLeaf, ValueField, WellFormed;
    SomeWorldIsOk(MINIMUM_LENGTH, text);
    OnlyParsedFail(SomeWorld(MINIMUM_LENGTH, text));
  }

  /** What its first load publishes, with passwords of at least `n` characters. */
  function WithLength(w: Setup, n: int): Table
    requires Simple(w)
  {
    Effective(w, Initial(w))[MINIMUM_LENGTH := SInt(n)]
  }

  lemma FixOfUpdate(locales: set<string>, m: Table, p: Path, x: Scalar)
    requires HasFixedSettings(m) && p in m && p !in FIXED_PATHS
    ensures HasFixedSettings(m[p := x]) && Fix(locales, m[p := x]) == Fix(locales, m)[p := x]
  {
    hide FixSiteURL, FixDirectory, FixLocale, FixAvailable;
  }

  lemma AppliedUpdate(w: Setup, m: Table, p: Path, x: Scalar)
    requires p in m && p !in w.sets
    ensures ApplyEnv(w, m[p := x]) == ApplyEnv(w, m)[p := x]
  {}

  /** Outside the environment and the repairs, changing a setting and making the configuration
      effective can be swapped. */
  lemma EffectiveOfUpdate(w: Setup, m: Table, p: Path, x: Scalar)
    requires SetupOk(w) && Full(w, m) && p in m && p !in w.sets && w.kinds[p] != KString && x.HasKind(w.kinds[p])
    ensures Full(w, m[p := x]) && Effective(w, m[p := x]) == Effective(w, m)[p := x]
  {
    hide Fix, CommaFree, FallbackSupported, Effective;
    assert p !in FIXED_PATHS;
    EffectiveIsFixOfApplied(w, m);
    EffectiveIsFixOfApplied(w, m[p := x]);
    AppliedUpdate(w, m, p, x);
    FixOfUpdate(w.locales, ApplyEnv(w, m), p, x);
  }

  /** The initial configuration holds short texts only. */
  lemma InitialAt(w: Setup, p: Path)
    requires Simple(w) && p in w.kinds
    ensures Initial(w)[p] in {DefaultOf(w.kinds[p]), SString(""), SString(DEFAULT_LOCALE)}
    ensures p == MINIMUM_LENGTH ==> Initial(w)[p] == SInt(8)
  {
    hide CommaFree, FallbackSupported, Split;
    FullHasFixedSettings(w, w.defaults);
    assert FixSiteURL("") == "";
    FixTouches(w.locales, w.defaults, p);
  }

  lemma NoPlaceholder(p: Path, x: Scalar, kind: Kind)
    requires x in {DefaultOf(kind), SString(""), SString(DEFAULT_LOCALE)} || x.SInt?
    ensures !x.IsNil() && NoPlaceholderIn(p, x)
  {}

  lemma NothingWritten(w: Setup)
    requires Simple(w) && w.sets == map[]
    ensures Effective(w, Initial(w)) == Initial(w)
  {
    hide CommaFree, FallbackSupported, Fix;
    FullHasFixedSettings(w, w.defaults);
    EffectiveIsFixOfApplied(w, Initial(w));
    assert ApplyEnv(w, Initial(w)) == Initial(w);
    FixIsIdempotent(w.locales, w.defaults);
  }

  /** Any allowed length can be published. */
  lemma LengthsArePublishable(w: Setup, n: int)
    requires Simple(w) && w.sets == map[] && SHORTEST <= n <= LONGEST
    ensures Publishable(w, WithLength(w, n)) && NoPlaceholders(WithLength(w, n)) && LengthIs(WithLength(w, n), n)
  {
    hide CommaFree, FallbackSupported, Effective, Split, NoPlaceholderIn, Initial;
    var m, base := WithLength(w, n), Effective(w, Initial(w));
    NothingWritten(w);
    EffectiveOfUpdate(w, base, MINIMUM_LENGTH, SInt(n));
    forall p | p in m ensures !m[p].IsNil() && NoPlaceholderIn(p, m[p]) {
      if p != MINIMUM_LENGTH { InitialAt(w, p); }
      NoPlaceholder(p, m[p], w.kinds[p]);
    }
  }

  lemma SimpleIsOk(w: Setup)
    requires Simple(w)
    ensures SetupOk(w)
  {}

  lemma SimpleIsValid(w: Setup, m: Table, n: int)
    requires Simple(w) && Full(w, m) && LengthIs(m, n) && SHORTEST <= n <= LONGEST
    ensures w.valid(Main(m))
  {
    assert At(m, MINIMUM_LENGTH) == Some(SInt(n));
  }

  lemma LoadAccepts(w: Setup, s: State)
    requires SetupOk(w) && TypedState(w, s) && s.stored.Saved? && w.valid(Main(Effective(w, Reloaded(w, s))))
    ensures LoadStep(w, s, Accept).error.None?
  {
    hide Effective, Reloaded, TypedState, SetupOk, Main;
  }

  /** The first load publishes and persists the default length. `Set` with the length `k` then
      publishes `k`, but persists the default again, and the next load publishes the default. */
  ghost predicate LosesLength(w: Setup, k: int)
    requires SetupOk(w) && TypedState(w, Fresh())
  {
    var first := LoadStep(w, Fresh(), Accept);
    && first.error.None? && Inv(w, first.state) && LengthIs(first.state.config, 8)
    && var input := first.state.config[MINIMUM_LENGTH := SInt(k)];
    && TypedLeaves(w, input)
    && var second := SetStep(w, first.state, input, Accept);
    && second.error.None? && LengthIs(second.state.config, k) && LengthIs(second.state.noEnv, 8)
    && !Coherent(w, second.state) && TypedState(w, second.state)
    && var third := LoadStep(w, second.state, Accept);
    && third.error.None? && LengthIs(third.state.config, 8)
  }

  lemma LengthIsLost(w: Setup, k: int)
    requires Unwritten(w) && SHORTEST <= k <= LONGEST && k != 8
    ensures SetupOk(w) && TypedState(w, Fresh()) && LosesLength(w, k)
  {
    hide Effective, Initial, WithLength, Publishable, NoPlaceholders, SetupOk, TypedLeaves, Coherent, LoadStep, SetStep;
    hide TypedState, Reloaded, OnlyParsedKindsFail, Simple, Settled, Main;
    SimpleIsOk(w);
    FirstLoad(w);
    var s := LoadStep(w, Fresh(), Accept).state;
    FirstLength(w);
    SecondAndThird(w, s, k);
  }

  lemma FirstLength(w: Setup)
    requires Simple(w) && w.sets == map[]
    ensures LengthIs(Effective(w, Initial(w)), 8)
  {
    hide Effective, Initial, SetupOk;
    NothingWritten(w);
    InitialAt(w, MINIMUM_LENGTH);
  }

  lemma SecondAndThird(w: Setup, s: State, k: int)
    requires Unwritten(w) && SHORTEST <= k <= LONGEST && k != 8
    requires Inv(w, s) && !s.readOnly && s.customDefaults.None?
    requires s.config == Effective(w, Initial(w)) && LengthIs(s.config, 8)
    ensures var input := s.config[MINIMUM_LENGTH := SInt(k)];
      && TypedLeaves(w, input)
      && var second := SetStep(w, s, input, Accept);
      && second.error.None? && LengthIs(second.state.config, k) && LengthIs(second.state.noEnv, 8)
      && !Coherent(w, second.state) && TypedState(w, second.state)
      && var third := LoadStep(w, second.state, Accept);
      && third.error.None? && LengthIs(third.state.config, 8)
  {
    hide Effective, Initial, Publishable, NoPlaceholders, SetupOk, TypedLeaves, Coherent, LoadStep, SetStep;
    hide OnlyParsedKindsFail, Simple, Settled, TypedState;
    LengthsArePublishable(w, k);
    UnwrittenReportBreaksSet(w, s, MINIMUM_LENGTH, WithLength(w, k));
    Third(w, s, k);
  }

  lemma Third(w: Setup, s: State, k: int)
    requires Unwritten(w) && SHORTEST <= k <= LONGEST && k != 8
    requires Inv(w, s) && !s.readOnly && s.customDefaults.None?
    requires s.config == Effective(w, Initial(w)) && LengthIs(s.config, 8)
    ensures SetupOk(w) && TypedLeaves(w, WithLength(w, k))
    ensures var second := SetStep(w, s, WithLength(w, k), Accept).state;
      && TypedState(w, second)
      && LoadStep(w, second, Accept).error.None? && LengthIs(LoadStep(w, second, Accept).state.config, 8)
  {
    hide Effective, Initial, Publishable, NoPlaceholders, SetupOk, TypedLeaves, Coherent, LoadStep, SetStep;
    hide Reloaded, OnlyParsedKindsFail, Simple, Settled, TypedState, Main, WithLength;
    LengthsArePublishable(w, k);
    SubmittedValueIsGone(w, s, MINIMUM_LENGTH, WithLength(w, k), Accept);
    var second := SetStep(w, s, WithLength(w, k), Accept).state;
    SimpleIsValid(w, Effective(w, Reloaded(w, second)), 8);
    LoadAccepts(w, second);
  }

  /** With the very text `abc`. */
  lemma AbcLosesLength(k: int)
    requires SHORTEST <= k <= LONGEST && k != 8
    ensures IsLeaf(TYPE, MINIMUM_LENGTH) && WorldOk(SomeWorld(MINIMUM_LENGTH, "abc"))
    ensures var w := SomeSetup(MINIMUM_LENGTH, "abc");
      SetupOk(w) && TypedState(w, Fresh()) && LosesLength(w, k)
  {
    hide WorldOk, SomeWorld, SomeSetup, Unwritten, SetupOk, TypedState, LosesLength, IsLeaf, ValueField, ExactNames;
    assert ParseInt("abc").None?;
    LengthVariable("abc");
    LengthIsLost(SomeSetup(MINIMUM_LENGTH, "abc"), k);
  }

  /** So validation does let the setting change, and the views do not stay in step. */
  lemma LengthBreaksCoherence(w: Setup)
    requires Unwritten(w)
    ensures SetupOk(w) && UnwrittenAreChangeable(w) && !SetAlwaysCoherent(w) && !RunsAreCoherent(w)
  {
    hide WithLength, Publishable, NoPlaceholders, SetupOk, SetAlwaysCoherent, RunsAreCoherent, Simple;
    hide OnlyParsedKindsFail;
    SimpleIsOk(w);
    LengthsArePublishable(w, 8);
    LengthsArePublishable(w, 10);
    CoherentIffReportedAreWritten(w);
  }

  // -------------------------------------------------------------------------
  // Overrides that are persisted
  // -------------------------------------------------------------------------

  ghost predicate AlwaysPersists(w: Setup, p: Path, text: string)
    requires SetupOk(w)
  {
    forall s, input :: Sound(w, s) && TypedLeaves(w, input) && SetStep(w, s, input, Accept).error.None? ==>
      PersistsText(SetStep(w, s, input, Accept).state, p, text)
  }

  /** A variable for a setting behind a pointer to a struct is written but not reported: whatever
      is submitted, its value ends up in the backing store. */
  lemma RelayPasswordIsPersisted(text: string)
    ensures IsLeaf(TYPE, RELAY_PASSWORD) && WorldOk(SomeWorld(RELAY_PASSWORD, text))
    ensures SetupOk(SomeSetup(RELAY_PASSWORD, text))
    ensures AlwaysPersists(SomeSetup(RELAY_PASSWORD, text), RELAY_PASSWORD, text)
  {
    hide WorldOk, SomeSetup, SomeWorld, SetupOk, ValueField, IsLeaf, KindAt, WellFormed, Kinds, AlwaysPersists;
    RelayLeaf();
    SomeWorldIsOk(RELAY_PASSWORD, text);
    SetupFacts(RELAY_PASSWORD, text);
    RelayIsPlain();
    UnreportedIsAlwaysPersisted(SomeSetup(RELAY_PASSWORD, text), RELAY_PASSWORD, text);
  }

  lemma UnreportedIsAlwaysPersisted(w: Setup, p: Path, text: string)
    requires SetupOk(w) && w.sets == map[p := SString(text)] && p !in w.reported
    requires p !in FIXED_PATHS && !IsFlag(p)
    ensures AlwaysPersists(w, p, text)
  {
    hide SetupOk, Settled, TypedState, TypedLeaves, SetStep;
    forall s, input | Sound(w, s) && TypedLeaves(w, input) && SetStep(w, s, input, Accept).error.None?
      ensures PersistsText(SetStep(w, s, input, Accept).state, p, text)
    {
      UnreportedIsPersisted(w, s, input, p);
    }
  }

  lemma RelayIsPlain()
    ensures RELAY_PASSWORD !in FIXED_PATHS && !IsFlag(RELAY_PASSWORD)
  {
    assert forall p :: p in FIXED_PATHS ==> |p| == 2;
    assert |RELAY_PASSWORD[0]| == 21 && |FLAGS| == 12;
  }

  predicate PersistsText(s: State, p: Path, text: string) {
    s.stored.Saved? && p in s.stored.table && s.stored.table[p] == SString(text)
  }

  predicate TextIs(m: Table, p: Path, text: string) {
    p in m && m[p] == SString(text)
  }

  /** The client locale is overridden to `en`. Submitted to a fresh store is what it has persisted,
      with `ru` as the only available locale, which needs no repair; persisted is `ru,en`. */
  ghost predicate ListGrows(w: Setup)
    requires SetupOk(w) && TypedState(w, Fresh())
  {
    var first := LoadStep(w, Fresh(), Accept);
    && first.error.None? && Inv(w, first.state)
    && var input := first.state.noEnv[AVAILABLE := SString("ru")];
    && TypedLeaves(w, input) && HasFixedSettings(input) && Fix(w.locales, input) == input
    && var second := SetStep(w, first.state, input, Accept);
    && second.error.None? && TextIs(second.state.noEnv, AVAILABLE, "ru,en")
    && TextIs(second.state.noEnv, CLIENT_LOCALE, "ru")
  }

  lemma EnglishJoins()
    ensures FixAvailable({"en", "ru", "zh-CN"}, "ru", "en") == "ru,en"
    ensures FixAvailable({"en", "ru", "zh-CN"}, "ru", "ru") == "ru"
  {
    SplitOfWord("ru", ',');
    SplitOfWord("en", ',');
    var words := ["ru", "en"];
    assert ["ru"] + ["en"] == words && words[..1] == ["ru"] && ["ru"][..0] == [] && words[1..] == ["en"];
    assert Dedup([]) == [] && Dedup(["ru"]) == ["ru"] && Dedup(words) == words;
    assert Join(["en"], ',') == "en" && Join(words, ',') == "ru" + [','] + "en";
  }

  lemma ListIsRepaired(w: Setup)
    requires Simple(w)
    ensures var input := Initial(w)[AVAILABLE := SString("ru")];
      && Full(w, input) && HasFixedSettings(input) && Fix(w.locales, input) == input
      && TextIs(input, AVAILABLE, "ru") && TextIs(input, CLIENT_LOCALE, "ru")
      && TextIs(Initial(w), CLIENT_LOCALE, "ru")
  {
    hide CommaFree, FallbackSupported, FixAvailable, FixSiteURL, FixDirectory, Split;
    var input := Initial(w)[AVAILABLE := SString("ru")];
    assert AVAILABLE in FIXED_PATHS && CLIENT_LOCALE in FIXED_PATHS;
    FullHasFixedSettings(w, w.defaults);
    EnglishJoins();
    FixIsIdempotent(w.locales, w.defaults);
    assert FixLocale(w.locales, "") == "ru";
  }

  lemma ListHasNoPlaceholders(w: Setup)
    requires Simple(w)
    ensures var input := Initial(w)[AVAILABLE := SString("ru")];
      NilIsDefault(w, input) && NoPlaceholders(input) && LengthIs(input, 8)
  {
    hide CommaFree, FallbackSupported, NoPlaceholderIn, Initial;
    var input := Initial(w)[AVAILABLE := SString("ru")];
    assert AVAILABLE in FIXED_PATHS;
    InitialAt(w, MINIMUM_LENGTH);
    forall p | p in input ensures !input[p].IsNil() && NoPlaceholderIn(p, input[p]) {
      if p != AVAILABLE { InitialAt(w, p); }
      NoPlaceholder(p, input[p], w.kinds[p]);
    }
  }

  /** A full input without placeholders and without nils to fill in is submitted as it is. */
  lemma SubmittedAsItIs(w: Setup, current: Table, input: Table)
    requires SetupOk(w) && Full(w, current) && Full(w, input) && NilIsDefault(w, input) && NoPlaceholders(input)
    ensures Submitted(w, current, input) == input
  {
    hide Unmask, Fill, NoPlaceholderIn;
    FillOfNilDefaults(w, input);
    UnmaskFull(w, current, input);
    forall p | p in input ensures Unmask(current, input)[p] == input[p] {
      UnmaskLeavesTheRest(current, input, p);
    }
  }

  lemma ListGrowsFrom(w: Setup)
    requires Simple(w) && w.sets == map[CLIENT_LOCALE := SString("en")] && w.reported == {CLIENT_LOCALE}
    ensures SetupOk(w) && TypedState(w, Fresh()) && ListGrows(w)
  {
    hide Effective, Initial, SetupOk, Coherent, LoadStep, SetStep, Fix, TypedState, Simple, Settled, Main, FixAvailable;
    hide Submitted, Prepared;
    SimpleIsOk(w);
    assert MINIMUM_LENGTH !in w.sets;
    FirstLoad(w);
    var s := LoadStep(w, Fresh(), Accept).state;
    var input := s.noEnv[AVAILABLE := SString("ru")];
    ListIsRepaired(w);
    ListHasNoPlaceholders(w);
    SubmittedAsItIs(w, s.config, input);
    SecondList(w, s, input);
  }

  lemma SecondList(w: Setup, s: State, input: Table)
    requires Simple(w) && w.sets == map[CLIENT_LOCALE := SString("en")] && w.reported == {CLIENT_LOCALE}
    requires Sound(w, s) && !s.readOnly && TypedLeaves(w, input) && Submitted(w, s.config, input) == input
    requires LengthIs(input, 8) && TextIs(input, AVAILABLE, "ru") && TextIs(s.noEnv, CLIENT_LOCALE, "ru")
    ensures var second := SetStep(w, s, input, Accept);
      && second.error.None? && TextIs(second.state.noEnv, AVAILABLE, "ru,en")
      && TextIs(second.state.noEnv, CLIENT_LOCALE, "ru")
  {
    hide Effective, SetupOk, SetStep, Fix, Settled, FixAvailable, Prepared, TypedState, Submitted, Simple;
    SimpleIsOk(w);
    EnglishLocales(w);
    SecondSucceeds(w, s, input);
    RepairIsPersisted(w, s, input, "en");
    LocaleStays(w, s, input);
  }

  lemma EnglishLocales(w: Setup)
    requires Simple(w)
    ensures FixAvailable(w.locales, "ru", FixLocale(w.locales, "en")) == "ru,en"
  {
    EnglishJoins();
  }

  lemma SecondSucceeds(w: Setup, s: State, input: Table)
    requires Simple(w) && MINIMUM_LENGTH !in w.sets
    requires Sound(w, s) && !s.readOnly && TypedLeaves(w, input) && Submitted(w, s.config, input) == input
    requires LengthIs(input, 8)
    ensures SetStep(w, s, input, Accept).error.None?
  {
    hide Effective, SetupOk, SetStep, Fix, Settled, Unmask, Fill, Prepared, SimpleTables, TypedState;
    PreparedIsEffective(w, s.config, input);
    EffectiveElsewhere(w, input, MINIMUM_LENGTH);
    SimpleIsValid(w, Prepared(w, s.config, input), 8);
    SetAccepts(w, s, input);
  }

  /** A reported setting keeps the value it has in `noEnv`. */
  lemma LocaleStays(w: Setup, s: State, input: Table)
    requires Sound(w, s) && TypedLeaves(w, input) && SetStep(w, s, input, Accept).error.None?
    requires CLIENT_LOCALE in w.reported
    ensures var after := SetStep(w, s, input, Accept).state.noEnv;
      CLIENT_LOCALE in after && CLIENT_LOCALE in s.noEnv && after[CLIENT_LOCALE] == s.noEnv[CLIENT_LOCALE]
  {
    hide Effective, SetStep, Settled, Prepared, TypedState, CommaFree, FallbackSupported;
    SetSuccess(w, s, input, Accept);
    FlagsAreNotFixed();
    assert CLIENT_LOCALE in FIXED_PATHS;
    var cfg := Prepared(w, s.config, input);
    CommitAt(s, cfg, RemoveOverrides(w, cfg, s.noEnv), CLIENT_LOCALE);
  }

  lemma SetAccepts(w: Setup, s: State, input: Table)
    requires Sound(w, s) && !s.readOnly && TypedLeaves(w, input) && w.valid(Main(Prepared(w, s.config, input)))
    ensures SetStep(w, s, input, Accept).error.None?
  {
    hide Prepared, RemoveOverrides, Settled, TypedState, SetupOk, Full, TypedLeaves, Main;
  }

  /** So it is in the process with `MM_LOCALIZATIONSETTINGS_DEFAULTCLIENTLOCALE` set to `en`. */
  lemma OverriddenLocaleJoinsTheList()
    ensures IsLeaf(TYPE, CLIENT_LOCALE) && WorldOk(SomeWorld(CLIENT_LOCALE, "en"))
    ensures var w := SomeSetup(CLIENT_LOCALE, "en");
      SetupOk(w) && TypedState(w, Fresh()) && ListGrows(w)
  {
    hide WorldOk, SomeSetup, SomeWorld, SetupOk, ValueField, IsLeaf, KindAt, WellFormed, Kinds, ListGrows, Simple;
    hide TypedState;
    LocaleLeaves();
    SomeWorldIsOk(CLIENT_LOCALE, "en");
    SetupFacts(CLIENT_LOCALE, "en");
    SetupIsSimple(CLIENT_LOCALE, "en");
    ListGrowsFrom(SomeSetup(CLIENT_LOCALE, "en"));
  }
}

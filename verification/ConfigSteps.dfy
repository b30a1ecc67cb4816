/** What `Set` and `Load` put a configuration object through, each step tied to its
    counterpart on tables. */
module ConfigSteps {
  import opened Text
  import opened ConfigTree
  import opened Environment
  import opened EnvReport
  import opened EnvKeys
  import opened FixConfig
  import opened Desanitize
  import opened StoreSpec
  import opened StoreTheorems
  import opened Defaults
  import opened World
  import opened ConfigObjects
  import opened Repairs

  /** The configuration a typed tree spells, in objects of its own. */
  method FromTree(w: World, v: Tree) returns (c: Config)
    requires WellFormed(w.Type()) && Typed(w.Type(), v)
    ensures fresh(c.Parts()) && c.Partial(w) && c.Value() == v
    ensures c.Table(w) == Leaves(w.Type(), v)
    ensures Complete(v) ==> c.IsWhole(w)
  {
    hide Typed, Complete, Leaves, WellFormed;
    UnWhole(w, v);
    var n := |w.sections|;
    assert v.fields[n].Nil? || v.fields[n].Ptr? by { PointerValue(w.flags, v.fields[n]); }
    if Complete(v) { CompletePointer(w.flags, v.fields[n]); }
    c := new Config.OfTree(v);
    assert c.Value().fields == v.fields;
    assert c.sections == c.Value().fields[..|c.sections|] == v.fields[..n];
    assert c.FlagsValue() == c.Value().fields[n];
  }

  lemma PointerValue(to: Ty, v: Tree)
    requires Typed(TPtr(to), v)
    ensures v.Nil? || v.Ptr?
  {}

  lemma CompletePointer(to: Ty, v: Tree)
    requires Typed(TPtr(to), v) && Complete(v)
    ensures v.Ptr?
  {}

  lemma WholeFacts(w: World, c: Config)
    requires c.IsWhole(w)
    ensures Typed(w.Type(), c.Value()) && Complete(c.Value())
  {
    WholeTyped(w, c.sections, c.FlagsValue());
  }

  lemma PartialFacts(w: World, c: Config)
    requires c.Partial(w)
    ensures Typed(w.Type(), c.Value())
  {
    WholeTyped(w, c.sections, c.FlagsValue());
  }

  lemma WholeIsPartial(w: World, c: Config)
    requires c.IsWhole(w)
    ensures c.Partial(w)
  {}

  lemma SectionCount(w: World, a: seq<Tree>)
    requires SectionsTyped(w, a)
    ensures |a| == |w.sections|
  {}

  lemma NoFlagsOk(w: World)
    ensures FlagsOk(w, Nil)
  {}

  lemma WholeParts(w: World, c: Config)
    requires c.IsWhole(w)
    ensures SectionsOk(w, c.sections) && FlagsOk(w, c.FlagsValue()) && |c.sections| == |w.sections|
  {}

  lemma PartialFrom(w: World, c: Config)
    requires SectionsOk(w, c.sections) && FlagsOk(w, c.FlagsValue())
    ensures c.Partial(w)
  {}

  lemma FullTableOf(w: World, c: Config)
    requires WellFormed(w.Type()) && c.IsWhole(w)
    ensures Full(SetupOf(w), c.Table(w))
  {
    WholeFacts(w, c);
    TypedIsTyped(w, c.sections, c.FlagsValue());
  }

  lemma PartialTableOf(w: World, c: Config)
    requires WellFormed(w.Type()) && c.Partial(w)
    ensures TypedLeaves(SetupOf(w), c.Table(w))
  {
    PartialFacts(w, c);
    TypedIsTyped(w, c.sections, c.FlagsValue());
  }

  lemma WholeIsFull(w: World, c: seq<Tree>, g: Tree)
    requires WellFormed(w.Type()) && SectionsOk(w, c) && FlagsOk(w, g) && g.Ptr?
    ensures Full(SetupOf(w), TableOf(w, c, g))
  {
    WholeTyped(w, c, g);
    TypedIsTyped(w, c, g);
  }

  /** What the methods below take from the hypotheses on the world. */
  lemma WorldFacts(w: World)
    requires WorldOk(w)
    ensures TypeOk(w) && WellFormed(w.Type()) && ConflictFree(WritesOf(w.Type(), w.env))
    ensures NamedSettings(w.Type()) && CommaFree(w.locales) && SetupOf(w).locales == w.locales
  {
    hide Typed, Complete, WellFormed, WellNamed, NamedSettings, NestedWithin, ConflictFree, WritesOf, Overrides;
    hide ReportsLeaves, SectionsOk, CommaFree, FallbackSupported, Kinds, ReportedLeaves, TableOf;
  }

  lemma NamedFacts(w: World)
    requires WellFormed(w.Type()) && NamedSettings(w.Type())
    ensures Setting(w, SERVER_LOCALE, KString) && Setting(w, CLIENT_LOCALE, KString)
    ensures Setting(w, AVAILABLE, KString) && Setting(w, SITE_URL, KString)
    ensures Setting(w, DRIVER, KString) && Setting(w, DIRECTORY, KString)
    ensures forall p :: p in MASKED_TEXTS ==> Setting(w, p, KString)
    ensures forall p :: p in MASKED_LISTS ==> Setting(w, p, KList)
    ensures Setting(w, PLUGINS, KMap)
  {
    hide IsLeaf, KindAt, WellFormed;
    assert SERVER_LOCALE in FIXED_PATHS && CLIENT_LOCALE in FIXED_PATHS && AVAILABLE in FIXED_PATHS;
    assert SITE_URL in FIXED_PATHS && DRIVER in FIXED_PATHS && DIRECTORY in FIXED_PATHS;
  }

  // -------------------------------------------------------------------------
  // The environment, and preparing a configuration
  // -------------------------------------------------------------------------

  lemma OverriddenTable(w: World, m: Table)
    requires WellFormed(w.Type()) && m.Keys == LeafPaths(w.Type())
    ensures m + Overrides(WritesOf(w.Type(), w.env)) == ApplyEnv(SetupOf(w), m)
  {
    hide IsLeaf, KindAt, WellFormed, Overrides, LeafPaths, Kinds, ReportedLeaves, TableOf;
    OverridesTyped(w.Type(), w.env);
  }

  /** `applyEnvironmentMap`. */
  method ApplyEnvironment(w: World, c: Config) returns (applied: Config)
    requires WellFormed(w.Type()) && ConflictFree(WritesOf(w.Type(), w.env)) && c.IsWhole(w)
    ensures fresh(applied.Parts()) && applied.IsWhole(w)
    ensures applied.Table(w) == ApplyEnv(SetupOf(w), c.Table(w))
  {
    hide Typed, Complete, Leaves, WellFormed;
    WholeFacts(w, c);
    var v := ApplyEnvironmentMap(w.Type(), w.env, c.Value());
    LeavesOfTyped(w.Type(), c.Value());
    OverriddenTable(w, c.Table(w));
    applied := FromTree(w, v);
  }

  lemma RestoredIsRemoved(w: World, cfg: Table, base: Table, report: Option<EnvNode>)
    requires WellFormed(w.Type()) && cfg.Keys <= LeafPaths(w.Type())
    requires forall p :: InReport(report, p) <==> Reported(w.Type(), "MM", w.env.vars, p)
    ensures Restored(cfg, base, iset p | InReport(report, p)) == RemoveOverrides(SetupOf(w), cfg, base)
  {
    hide Reported, InReport, IsLeaf, LeafPaths, WellFormed, WritesOf, Overrides;
    forall p | p in cfg ensures InReport(report, p) <==> p in SetupOf(w).reported {
      assert p in LeafPaths(w.Type());
    }
  }

  lemma ReportedFields(w: World, report: Option<EnvNode>)
    requires ReportsLeaves(w.Type(), w.env)
    requires forall p :: InReport(report, p) <==> Reported(w.Type(), "MM", w.env.vars, p)
    ensures forall p :: InReport(report, p) ==> ValueField(w.Type(), p) && IsLeaf(w.Type(), p)
  {
    forall p | InReport(report, p) ensures ValueField(w.Type(), p) {
      ReportedIffVariableSet(w.Type(), w.env.vars, p);
    }
  }

  /** `removeEnvOverrides`, with the overrides the environment reports now. */
  method SubtractEnvironment(w: World, cfg: Config, base: Config) returns (result: Config)
    requires WorldOk(w) && cfg.Partial(w) && base.IsWhole(w)
    ensures fresh(result.Parts()) && result.Partial(w) && (cfg.IsWhole(w) ==> result.IsWhole(w))
    ensures result.Table(w) == RemoveOverrides(SetupOf(w), cfg.Table(w), base.Table(w))
  {
    hide Typed, Complete, Leaves, WellFormed, WellNamed, NamedSettings, IsLeaf, NestedWithin, Reported, InReport;
    PartialFacts(w, cfg);
    WholeFacts(w, base);
    var report := GenerateEnvironmentMap(w.Type(), "MM", w.env.vars, 3);
    ReportedFields(w, report);
    var removed := RemoveEnvOverrides(w.Type(), cfg.Value(), base.Value(), report);
    var v := removed.value;
    LeavesOfTyped(w.Type(), cfg.Value());
    RestoredIsRemoved(w, cfg.Table(w), base.Table(w), report);
    if cfg.IsWhole(w) { WholeFacts(w, cfg); }
    result := FromTree(w, v);
  }

  ghost predicate IsActivated(w: Setup, result: Table, noEnv: Table) {
    HasFixedSettings(ApplyEnv(w, noEnv)) && result == Fix(w.locales, ApplyEnv(w, noEnv))
  }

  /** The environment and the repairs, on a copy. */
  method Activate(w: World, noEnv: Config) returns (cfg: Config)
    requires WorldOk(w) && noEnv.IsWhole(w)
    ensures fresh(cfg.Parts()) && cfg.IsWhole(w)
    ensures IsActivated(SetupOf(w), cfg.Table(w), noEnv.Table(w))
  {
    hide WorldOk, TypeOk, Typed, Complete, WellFormed, NamedSettings, Setting, SetupOf, SetupOk;
    hide Full, TypedLeaves, Fix, ApplyEnv, TableOf, SectionsOk, SectionsTyped, FlagsOk;
    WorldFacts(w);
    NamedFacts(w);
    cfg := ApplyEnvironment(w, noEnv);
    FixConfiguration(w, cfg);
  }

  ghost predicate IsPrepared(w: Setup, result: Table, current: Table, input: Table) {
    SetupOk(w) && Full(w, current) && TypedLeaves(w, input) && result == Prepared(w, current, input)
  }

  lemma PreparedSteps(w: Setup, current: Table, input: Table)
    requires SetupOk(w) && Full(w, current) && TypedLeaves(w, input)
    ensures var applied := ApplyEnv(w, Unmask(current, Fill(w, input)));
      HasFixedSettings(applied) && Prepared(w, current, input) == Fix(w.locales, applied)
  {
    UnmaskFull(w, current, Fill(w, input));
    EffectiveIsFixOfApplied(w, Unmask(current, Fill(w, input)));
  }

  /** The part of `Set` up to validation: a copy with defaults, secrets, environment and
      repairs. Neither the current configuration nor the input is written. */
  method Prepare(w: World, current: Config, input: Config) returns (cfg: Config)
    requires WorldOk(w) && current.IsWhole(w) && input.Partial(w)
    ensures fresh(cfg.Parts()) && cfg.IsWhole(w)
    ensures IsPrepared(SetupOf(w), cfg.Table(w), current.Table(w), input.Table(w))
  {
    hide WorldOk, TypeOk, Typed, Complete, WellFormed, NamedSettings, Setting, SetupOf, SetupOk, Prepared;
    hide Full, TypedLeaves, Fix, Unmask, Fill, ApplyEnv, TableOf, SectionsOk, SectionsTyped, FlagsOk;
    WorldFacts(w);
    SetupIsOk(w);
    NamedFacts(w);
    FullTableOf(w, current);
    PartialTableOf(w, input);
    cfg := input.Clone();
    cfg.SetDefaults(w);
    DesanitizeInto(w, current, cfg);
    cfg := Activate(w, cfg);
    PreparedSteps(SetupOf(w), current.Table(w), input.Table(w));
  }

  // -------------------------------------------------------------------------
  // Reading a configuration back
  // -------------------------------------------------------------------------

  /** The zero configuration has no site URL. */
  lemma ZeroHasNoSiteURL(w: World)
    requires WorldOk(w)
    ensures !IsFlag(SITE_URL) && Lookup(TStruct(w.sections), Struct(w.Zero()), SITE_URL) == None
  {
    hide Typed, Complete, WellNamed, NestedWithin, IsLeaf, KindAt, WellFormed;
    assert !IsFlag(SITE_URL) by { FlagsAreNotFixed(); }
    assert ZeroTree(TStruct(w.sections)) == Struct(w.Zero());
    PointerInSections(w, SITE_URL);
    ZeroBehindPointer(TStruct(w.sections), SITE_URL);
  }

  lemma PointerInSections(w: World, p: Path)
    requires WellFormed(w.Type()) && !IsFlag(p) && PointerField(w.Type(), p)
    ensures PointerField(TStruct(w.sections), p)
  {
    FlagsIndex(w, p[0]);
    var i := FieldIndex(w.sections, p[0]).value;
    assert w.Type().fields[i] == w.sections[i];
  }

  lemma NilTyped(to: Ty)
    ensures Typed(TPtr(to), Nil)
  {}

  lemma FlagsAreFine(w: World)
    requires TypeOk(w)
    ensures FlagsOk(w, Ptr(w.defaultFlags))
  {}

  lemma ZeroDiffers(w: World, c: seq<Tree>)
    requires WorldOk(w) && SectionsOk(w, c)
    ensures c != w.Zero()
  {
    hide Typed, Complete, Leaves, WellFormed, WellNamed, NestedWithin, SetupOf, Lookup;
    var g := Ptr(w.defaultFlags);
    ZeroHasNoSiteURL(w);
    SectionCount(w, c);
    NamedFacts(w);
    FlagsAreFine(w);
    WholeLookup(w, c, g, SITE_URL);
    LookupInSections(w, c, g, SITE_URL);
  }

  lemma PutIfNilOutside(w: World, a: seq<Tree>, f: Tree, p: Path, x: Scalar)
    requires WellFormed(w.Type()) && |a| == |w.sections| && p != [] && !IsFlag(p)
    ensures PutIfNil(TStruct(w.sections), Struct(a), p, x).Struct?
    ensures PutIfNil(w.Type(), Whole(a, f), p, x) == Whole(PutIfNil(TStruct(w.sections), Struct(a), p, x).fields, f)
  {
    hide WellFormed;
    FlagsIndex(w, p[0]);
    var i := FieldIndex(w.sections, p[0]);
    if i.Some? {
      assert w.Type().fields[i.value] == w.sections[i.value];
      var y := PutIfNil(w.sections[i.value].ty, a[i.value], p[1..], x);
      assert (a + [f])[i.value := y] == a[i.value := y] + [f];
    }
  }

  lemma WholeCount(w: World, a: seq<Tree>, f: Tree)
    requires Typed(w.Type(), Whole(a, f))
    ensures |a| == |w.sections|
  {}

  lemma SiteURLGiven(w: World, a: seq<Tree>, f: Tree)
    requires WorldOk(w) && SetupOk(SetupOf(w)) && SectionsTyped(w, a) && Typed(TPtr(w.flags), f)
    requires TypedLeaves(SetupOf(w), TableOf(w, a, f))
    ensures PutIfNil(TStruct(w.sections), Struct(a), SITE_URL, SString("")).Struct?
    ensures var b := PutIfNil(TStruct(w.sections), Struct(a), SITE_URL, SString("")).fields;
      SectionsTyped(w, b) && TableOf(w, b, f) == WithSiteURL(SetupOf(w), TableOf(w, a, f))
  {
    hide Typed, Complete, Leaves, WellFormed, WellNamed, NestedWithin, IsLeaf, KindAt, SetupOf;
    hide SetupOk, TypedLeaves, PointerField, PutIfNil;
    SectionCount(w, a);
    WholeTyped(w, a, f);
    WorldFacts(w);
    NamedFacts(w);
    PutIfNilOutside(w, a, f, SITE_URL, SString(""));
    LeavesOfPutIfNil(w.Type(), Whole(a, f), SITE_URL, SString(""));
    var b := PutIfNil(TStruct(w.sections), Struct(a), SITE_URL, SString("")).fields;
    WholeCount(w, b, f);
    WholeTyped(w, b, f);
  }

  lemma MergeKeepsTypes(w: Setup, a: Table, b: Table)
    requires TypedLeaves(w, a) && TypedLeaves(w, b)
    ensures TypedLeaves(w, Merge(a, b))
  {}

  lemma TableIsLeaves(w: World, c: Config)
    requires WellFormed(w.Type())
    ensures c.Table(w) == Leaves(w.Type(), c.Value())
  {}

  ghost predicate IsRebuilt(w: Setup, result: Table, patched: Table) {
    SetupOk(w) && TypedLeaves(w, patched) &&
    var filled := Fill(w, WithSiteURL(w, patched));
    HasFixedSettings(filled) && result == Fix(w.locales, filled)
  }

  /** From the bytes read back to the configuration without environment: custom defaults
      underneath, a site URL, defaults, repairs. */
  method Rebuild(w: World, customs: Config?, loaded: Config, ghost custom: Table, ghost given: Table)
    returns (noEnv: Config)
    requires WorldOk(w) && loaded.Partial(w) && given == loaded.Table(w)
    requires customs != null ==> customs != loaded && customs.Partial(w) && custom == customs.Table(w)
    modifies loaded, loaded.flags
    ensures noEnv.IsWhole(w) && (fresh(noEnv) || noEnv == loaded)
    ensures fresh(noEnv.flags) || noEnv.flags == old(loaded.flags)
    ensures IsRebuilt(SetupOf(w), noEnv.Table(w), if customs == null then given else Merge(custom, given))
  {
    hide WorldOk, TypeOk, Typed, Complete, WellFormed, NamedSettings, Setting, SetupOf, SetupOk, Leaves;
    hide TypedLeaves, Fix, Fill, SectionsOk, SectionsTyped, FlagsOk, WithSiteURL, Merge, TableOf;
    WorldFacts(w);
    SetupIsOk(w);
    NamedFacts(w);
    noEnv := loaded;
    PartialTableOf(w, loaded);
    if customs != null {
      PartialTableOf(w, customs);
      MergeKeepsTypes(SetupOf(w), customs.Table(w), loaded.Table(w));
      PartialFacts(w, customs);
      PartialFacts(w, loaded);
      MergeTyped(w.Type(), customs.Value(), loaded.Value());
      LeavesOfMerge(w.Type(), customs.Value(), loaded.Value());
      TableIsLeaves(w, customs);
      TableIsLeaves(w, loaded);
      noEnv := FromTree(w, MergeTree(w.Type(), customs.Value(), loaded.Value()));
    }
    SiteURLGiven(w, noEnv.sections, noEnv.FlagsValue());
    noEnv.sections := PutIfNil(TStruct(w.sections), Struct(noEnv.sections), SITE_URL, SString("")).fields;
    noEnv.SetDefaults(w);
    FixConfiguration(w, noEnv);
  }
}

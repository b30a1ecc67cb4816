/** What is taken for granted of a process can be met: a process with one environment variable,
    and the first load of a store over an empty backing store. */
module Example {
  import opened Text
  import opened ConfigTree
  import opened Environment
  import opened EnvReport
  import opened EnvKeys
  import opened FixConfig
  import opened Defaults
  import opened StoreSpec
  import opened StoreTheorems
  import opened StoreRuns
  import opened StoreLaws
  import opened World
  import opened ExampleType

  // -------------------------------------------------------------------------
  // Its defaults, and the process
  // -------------------------------------------------------------------------

  function DefaultOf(kind: Kind): (x: Scalar)
    ensures x.HasKind(kind) && !x.IsNil()
  {
    match kind
    case KString => SString("")
    case KBool => SBool(false)
    case KInt => SInt(8)
    case KList => SList([])
    case KRaw => SRaw("")
    case KMap => SMap(map[])
  }

  function Defaulted(ty: Ty): Tree {
    match ty
    case TLeaf(kind) => Leaf(DefaultOf(kind))
    case TPtr(to) => Ptr(Defaulted(to))
    case TStruct(fields) => Struct(seq(|fields|, i requires 0 <= i < |fields| => Defaulted(fields[i].ty)))
  }

  lemma {:induction false} DefaultedHolds(ty: Ty)
    ensures Typed(ty, Defaulted(ty)) && Complete(Defaulted(ty))
    ensures forall p :: IsLeaf(ty, p) ==> Lookup(ty, Defaulted(ty), p) == Some(DefaultOf(KindAt(ty, p)))
  {
    match ty
    case TLeaf(_) =>
    case TPtr(to) => DefaultedHolds(to);
    case TStruct(fields) =>
      forall i | 0 <= i < |fields|
        ensures Typed(fields[i].ty, Defaulted(fields[i].ty)) && Complete(Defaulted(fields[i].ty))
        ensures forall p :: IsLeaf(fields[i].ty, p) ==>
          Lookup(fields[i].ty, Defaulted(fields[i].ty), p) == Some(DefaultOf(KindAt(fields[i].ty, p)))
      {
        DefaultedHolds(fields[i].ty);
      }
  }

  const SHORTEST := 5
  const LONGEST := 72

  predicate Allowed(x: Option<Scalar>) {
    x.Some? && x.value.SInt? && SHORTEST <= x.value.number <= LONGEST
  }

  /** Of `IsValid`, the check on the length of passwords. */
  predicate LengthIsValid(a: seq<Tree>) {
    Allowed(Lookup(TStruct(SECTIONS), Struct(a), MINIMUM_LENGTH))
  }

  /** A process with one variable, named after the setting `q`. */
  function SomeWorld(q: Path, text: string): World {
    World(SECTIONS, FLAG_TYPE, Env(map[Variable(q) := text], t => Malformed), {"en", "ru", "zh-CN"},
          Defaulted(TStruct(SECTIONS)).fields, Defaulted(FLAG_TYPE), LengthIsValid)
  }

  lemma LocalesAreOk()
    ensures CommaFree({"en", "ru", "zh-CN"}) && FallbackSupported({"en", "ru", "zh-CN"})
  {
    forall l | l in {"en", "ru", "zh-CN"} ensures FreeOf(l, ',') {
      assert l == "en" || l == "ru" || l == "zh-CN";
    }
  }

  lemma SomeTypeIsOk(q: Path, text: string)
    ensures SomeWorld(q, text).Type() == TYPE && TypeOk(SomeWorld(q, text))
    ensures SomeWorld(q, text).Defaults().fields == Defaulted(TYPE).fields
  {
    hide WellFormed, SectionField, TextField;
    TypeIsGood();
    DefaultedHolds(TStruct(SECTIONS));
    DefaultedHolds(FLAG_TYPE);
  }

  /** What is taken for granted of a process can be met, whatever the variable holds. */
  lemma SomeWorldIsOk(q: Path, text: string)
    requires IsLeaf(TYPE, q)
    ensures WorldOk(SomeWorld(q, text)) && SetupOk(SetupOf(SomeWorld(q, text)))
    ensures ValueField(TYPE, q) ==> ExactNames(TYPE, SomeWorld(q, text).env)
  {
    hide WellFormed, WellNamed, SectionField, TextField, IsLeaf, KindAt, ValueField, NamedSettings, TypeOk, SetupOk;
    hide SetupOf;
    hide ConflictFree, WritesOf, ReportsLeaves, NestedWithin, CommaFree, FallbackSupported;
    hide Overrides, ExactNames;
    var w := SomeWorld(q, text);
    TypeIsGood();
    SomeTypeIsOk(q, text);
    NamedSettingsAreThere();
    LocalesAreOk();
    OneVariable(TYPE, q, text, w.env.decode);
    SetupIsOk(w);
  }

  // -------------------------------------------------------------------------
  // What it makes of tables
  // -------------------------------------------------------------------------

  ghost function SomeSetup(q: Path, text: string): Setup
    requires IsLeaf(TYPE, q)
  {
    SomeWorldIsOk(q, text);
    SetupOf(SomeWorld(q, text))
  }

  lemma SetupFacts(q: Path, text: string)
    requires IsLeaf(TYPE, q)
    ensures WellFormed(TYPE) && SetupOk(SomeSetup(q, text))
    ensures var w := SomeSetup(q, text);
      && w.kinds == Kinds(TYPE) && w.locales == {"en", "ru", "zh-CN"}
      && w.reported == (if ValueField(TYPE, q) then {q} else {})
      && w.sets == match Parse(SomeWorld(q, text).env, KindAt(TYPE, q), text)
                   case None => map[]
                   case Some(x) => map[q := x]
  {
    hide WellNamed, SectionField, TextField, IsLeaf, KindAt, ValueField, SetupOk, WorldOk, Kinds, ReportedLeaves;
    hide Overrides;
    TypeIsGood();
    SomeTypeIsOk(q, text);
    SomeWorldIsOk(q, text);
    OneVariable(TYPE, q, text, SomeWorld(q, text).env.decode);
  }

  lemma DefaultsAt(q: Path, text: string, p: Path)
    requires IsLeaf(TYPE, q)
    ensures var w := SomeSetup(q, text);
      At(w.defaults, p) == if IsLeaf(TYPE, p) then Some(DefaultOf(KindAt(TYPE, p))) else None
  {
    hide WellNamed, SectionField, TextField, IsLeaf, KindAt, ValueField, SetupOk, WorldOk, Kinds, ReportedLeaves;
    hide Overrides;
    TypeIsGood();
    SomeTypeIsOk(q, text);
    SomeWorldIsOk(q, text);
    DefaultedHolds(TYPE);
    var w := SomeWorld(q, text);
    assert Whole(w.defaultSections, Ptr(w.defaultFlags)) == Defaulted(TYPE);
    LeavesAt(TYPE, Defaulted(TYPE), p);
  }

  /** The zero configuration holds nothing but nils and what is the default anyway. */
  lemma ZeroOf(w: World, p: Path)
    requires WellFormed(w.Type()) && NumbersBehindPointers(TStruct(w.sections)) && p in TableOf(w, w.Zero(), Nil)
    ensures IsLeaf(w.Type(), p)
    ensures var x := TableOf(w, w.Zero(), Nil)[p]; x.IsNil() || x == DefaultOf(KindAt(w.Type(), p))
  {
    hide WellFormed, NumbersBehindPointers, TableOf;
    TableAt(w, w.Zero(), Nil, p);
    FlagsAreOfPointer(w, w.Zero(), w.Zero(), Nil);
    FlagsHold(TableOf(w, w.Zero(), Nil), p);
    LookupInSections(w, w.Zero(), Nil, p);
    assert ZeroTree(TStruct(w.sections)) == Struct(w.Zero());
    ZeroHolds(TStruct(w.sections), p);
    SectionKind(w, p);
  }

  lemma ZeroAt(q: Path, text: string, p: Path)
    requires IsLeaf(TYPE, q) && p in SomeSetup(q, text).zero
    ensures IsLeaf(TYPE, p)
    ensures var x := SomeSetup(q, text).zero[p]; x.IsNil() || x == DefaultOf(KindAt(TYPE, p))
  {
    hide WellNamed, SectionField, TextField, IsLeaf, KindAt, ValueField, SetupOk, WorldOk, TableOf, DefaultOf;
    hide NumbersBehindPointers, WellFormed, NestedWithin;
    TypeIsGood();
    SomeTypeIsOk(q, text);
    ZeroIsTyped(SomeWorld(q, text));
    ZeroOf(SomeWorld(q, text), p);
  }

  lemma FlagsHold(m: Table, p: Path)
    requires p in m
    ensures IsFlag(p) <==> p in Flags(m)
  {}

  lemma SectionKind(w: World, p: Path)
    requires WellFormed(w.Type()) && !IsFlag(p) && IsLeaf(w.Type(), p)
    ensures IsLeaf(TStruct(w.sections), p) && KindAt(TStruct(w.sections), p) == KindAt(w.Type(), p)
  {
    FlagsIndex(w, p[0]);
    var i := FieldIndex(w.sections, p[0]).value;
    assert w.Type().fields[i] == w.sections[i];
  }

  lemma {:induction false} ZeroHolds(ty: Ty, p: Path)
    requires NumbersBehindPointers(ty)
    ensures IsLeaf(ty, p) && Lookup(ty, ZeroTree(ty), p).Some? ==>
      var x := Lookup(ty, ZeroTree(ty), p).value; x.IsNil() || x == DefaultOf(KindAt(ty, p))
    decreases ty
  {
    if ty.TStruct? && IsLeaf(ty, p) {
      ZeroHolds(ty.fields[FieldIndex(ty.fields, p[0]).value].ty, p[1..]);
    }
  }

  /** A full table is valid if its length is. */
  lemma ValidIffAllowed(q: Path, text: string, m: Table)
    requires IsLeaf(TYPE, q) && Full(SomeSetup(q, text), m)
    ensures SomeSetup(q, text).valid(Main(m)) <==> Allowed(At(m, MINIMUM_LENGTH))
  {
    hide WellNamed, WellFormed, SectionField, TextField, IsLeaf, KindAt, ValueField, SetupOk, WorldOk, Allowed, Full;
    hide TypeOk, TableOf, SectionsOk, Lookup;
    var w := SomeWorld(q, text);
    TypeIsGood();
    SomeTypeIsOk(q, text);
    ServiceLeaves();
    var a, f := ConfigurationOf(w, m);
    TableAt(w, a, f, MINIMUM_LENGTH);
    LookupInSections(w, a, f, MINIMUM_LENGTH);
  }

  lemma TableAt(w: World, a: seq<Tree>, f: Tree, p: Path)
    requires WellFormed(w.Type())
    ensures At(TableOf(w, a, f), p) == if IsLeaf(w.Type(), p) then Lookup(w.Type(), Whole(a, f), p) else None
  {
    LeavesAt(w.Type(), Whole(a, f), p);
  }

  ghost predicate SimpleTables(w: Setup) {
    && (forall p :: p in w.defaults ==> p in w.kinds && w.defaults[p] == DefaultOf(w.kinds[p]))
    && (forall p :: p in w.zero ==> p in w.kinds && (w.zero[p].IsNil() || w.zero[p] == DefaultOf(w.kinds[p])))
  }

  /** Such a process, seen as a setup. */
  ghost predicate Simple(w: Setup) {
    && SetupOk(w) && w.locales == {"en", "ru", "zh-CN"} && SimpleTables(w)
    && MINIMUM_LENGTH in w.kinds && w.kinds[MINIMUM_LENGTH] == KInt && !IsFlag(MINIMUM_LENGTH)
    && (forall m :: Full(w, m) ==> (w.valid(Main(m)) <==> Allowed(At(m, MINIMUM_LENGTH))))
  }

  lemma TablesAreSimple(q: Path, text: string)
    requires IsLeaf(TYPE, q)
    ensures SimpleTables(SomeSetup(q, text))
  {
    hide WellNamed, WellFormed, SectionField, TextField, IsLeaf, KindAt, ValueField, SetupOk, WorldOk, SomeSetup;
    hide DefaultOf;
    SetupFacts(q, text);
    var w := SomeSetup(q, text);
    forall p | p in w.defaults ensures p in w.kinds && w.defaults[p] == DefaultOf(w.kinds[p]) {
      DefaultsAt(q, text, p);
    }
    forall p | p in w.zero ensures p in w.kinds && (w.zero[p].IsNil() || w.zero[p] == DefaultOf(w.kinds[p])) {
      ZeroAt(q, text, p);
    }
  }

  lemma SetupIsSimple(q: Path, text: string)
    requires IsLeaf(TYPE, q)
    ensures Simple(SomeSetup(q, text))
  {
    hide WellNamed, WellFormed, SectionField, TextField, IsLeaf, KindAt, ValueField, SetupOk, WorldOk, Allowed, Full;
    hide SomeSetup, SimpleTables;
    SetupFacts(q, text);
    TablesAreSimple(q, text);
    ServiceLeaves();
    var w := SomeSetup(q, text);
    forall m | Full(w, m) ensures w.valid(Main(m)) <==> Allowed(At(m, MINIMUM_LENGTH)) {
      ValidIffAllowed(q, text, m);
    }
  }

  // -------------------------------------------------------------------------
  // The first load
  // -------------------------------------------------------------------------

  /** A store over an empty backing store, before it has loaded. */
  function Fresh(): State {
    State(map[], map[], Missing, None, false, true)
  }

  /** What is persisted of the defaults. */
  function Initial(w: Setup): (m: Table)
    requires Simple(w)
    ensures Full(w, m) && HasFixedSettings(m)
  {
    FullHasFixedSettings(w, w.defaults);
    FixFull(w, w.defaults);
    Fix(w.locales, w.defaults)
  }

  lemma FreshReloads(w: Setup)
    requires Simple(w)
    ensures TypedState(w, Fresh()) && Reloaded(w, Fresh()) == Initial(w)
  {
    hide Fix, CommaFree, FallbackSupported, Allowed;
    FullHasFixedSettings(w, w.defaults);
    assert SITE_URL in FIXED_PATHS && w.kinds[SITE_URL] == KString;
    assert Fill(w, WithSiteURL(w, w.zero)) == w.defaults;
  }

  /** It succeeds unless the length of passwords is overridden; it publishes and persists the
      defaults, the former with the environment. */
  lemma FirstLoad(w: Setup)
    requires Simple(w) && MINIMUM_LENGTH !in w.sets
    ensures TypedState(w, Fresh())
    ensures var r := LoadStep(w, Fresh(), Accept);
      && r.error.None? && r.wrote && r.notice.Some? && Inv(w, r.state)
      && r.state == State(Effective(w, Initial(w)), Initial(w), Saved(Main(Initial(w))), None, false, true)
  {
    hide Inv, SetupOk, Effective, Reloaded, Main, Changed, Initial, Fix;
    FreshReloads(w);
    FreshIsValid(w);
    var noEnv := Initial(w);
    FirstLoadChanges(w, Fresh(), Effective(w, noEnv));
    assert LoadStep(w, Fresh(), Accept) == LoadFinish(w, Fresh(), Effective(w, noEnv), noEnv, Accept);
    LoadEstablishesInvariant(w, Fresh(), Accept);
  }

  lemma FreshIsValid(w: Setup)
    requires Simple(w) && MINIMUM_LENGTH !in w.sets
    ensures w.valid(Main(Effective(w, Initial(w))))
  {
    hide Fix, CommaFree, FallbackSupported;
    FullHasFixedSettings(w, w.defaults);
    FixTouches(w.locales, w.defaults, MINIMUM_LENGTH);
    EffectiveElsewhere(w, Initial(w), MINIMUM_LENGTH);
  }

  /** With the site URL overridden: published is the override, trimmed; persisted the default. */
  lemma FirstLoadSucceeds(url: string)
    ensures IsLeaf(TYPE, SITE_URL)
    ensures var w := SomeSetup(SITE_URL, url);
      && WorldOk(SomeWorld(SITE_URL, url)) && SetupOk(w) && ReportedAreWritten(w) && TypedState(w, Fresh())
      && var r := LoadStep(w, Fresh(), Accept);
      && r.error.None? && r.wrote && r.notice.Some? && Inv(w, r.state)
      && SITE_URL in r.state.config && r.state.config[SITE_URL] == SString(FixSiteURL(url))
      && SITE_URL in r.state.noEnv && r.state.noEnv[SITE_URL] == SString("")
  {
    hide Simple, WorldOk, SomeSetup, LoadStep, LoadFinish, Inv, Fix, ApplyEnv;
    ServiceLeaves();
    SomeWorldIsOk(SITE_URL, url);
    SetupFacts(SITE_URL, url);
    SetupIsSimple(SITE_URL, url);
    FirstLoadOf(SomeSetup(SITE_URL, url), url);
  }

  lemma FirstLoadOf(w: Setup, url: string)
    requires Simple(w) && w.sets == map[SITE_URL := SString(url)]
    ensures TypedState(w, Fresh())
    ensures var r := LoadStep(w, Fresh(), Accept);
      && r.error.None? && r.wrote && r.notice.Some? && Inv(w, r.state)
      && SITE_URL in r.state.config && r.state.config[SITE_URL] == SString(FixSiteURL(url))
      && SITE_URL in r.state.noEnv && r.state.noEnv[SITE_URL] == SString("")
  {
    hide Simple, LoadStep, Inv, SetupOk, Effective, Initial, TypedState, Main;
    FirstLoad(w);
    FirstSiteURL(w, url);
  }

  lemma FirstSiteURL(w: Setup, url: string)
    requires Simple(w) && w.sets == map[SITE_URL := SString(url)]
    ensures var noEnv := Initial(w); var cfg := Effective(w, noEnv);
      && SITE_URL in cfg && cfg[SITE_URL] == SString(FixSiteURL(url))
      && SITE_URL in noEnv && noEnv[SITE_URL] == SString("")
  {
    hide FixLocale, FixAvailable, FixDirectory, CommaFree, FallbackSupported;
    EffectiveIsFixOfApplied(w, Initial(w));
    assert SITE_URL in FIXED_PATHS;
    assert FixSiteURL("") == "";
  }
}

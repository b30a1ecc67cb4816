/** The configuration type and the process around it, and the abstraction that turns them
    into the tables of `StoreSpec`. */
module World {
  import opened Text
  import opened ConfigTree
  import opened Environment
  import opened EnvReport
  import opened EnvKeys
  import opened FixConfig
  import opened Desanitize
  import opened StoreSpec
  import opened StoreTheorems
  import opened StoreLaws
  import opened Defaults

  /** The sections of the configuration, the type behind the `FeatureFlags` pointer (the last
      field), the environment, the supported locales, the defaults and `IsValid`. */
  datatype World = World(
    sections: seq<Field>,
    flags: Ty,
    env: Env,
    locales: set<string>,
    defaultSections: seq<Tree>,
    defaultFlags: Tree,
    isValid: seq<Tree> -> bool)
  {
    function Type(): Ty {
      TStruct(sections + [Field(FLAGS, TPtr(flags))])
    }

    function Defaults(): Tree {
      Struct(defaultSections + [Ptr(defaultFlags)])
    }

    function Zero(): seq<Tree> {
      seq(|sections|, i requires 0 <= i < |sections| => ZeroTree(sections[i].ty))
    }
  }

  /** Settings the code dereferences or writes by name. */
  ghost predicate NamedSettings(ty: Ty) {
    && (forall p :: p in FIXED_PATHS ==> IsLeaf(ty, p) && KindAt(ty, p) == KString)
    && (forall p :: p in MASKED_TEXTS ==> IsLeaf(ty, p) && KindAt(ty, p) == KString)
    && (forall p :: p in MASKED_LISTS ==> IsLeaf(ty, p) && KindAt(ty, p) == KList)
    && IsLeaf(ty, PLUGINS) && KindAt(ty, PLUGINS) == KMap
    && PointerField(ty, SITE_URL)
  }

  /** The defaults are a complete configuration. */
  ghost predicate TypeOk(w: World) {
    && WellFormed(w.Type()) && |w.defaultSections| == |w.sections|
    && SectionsOk(w, w.defaultSections) && Typed(w.flags, w.defaultFlags) && Complete(w.defaultFlags)
  }

  /** What is taken for granted of the configuration type, and of the process. */
  ghost predicate WorldOk(w: World) {
    && TypeOk(w) && WellNamed(w.Type()) && NestedWithin(w.Type(), 3) && w.flags.TStruct?
    && NamedSettings(w.Type())
    && ConflictFree(WritesOf(w.Type(), w.env)) && ReportsLeaves(w.Type(), w.env)
    && CommaFree(w.locales) && FallbackSupported(w.locales)
  }

  // -------------------------------------------------------------------------
  // The feature flags among the leaves
  // -------------------------------------------------------------------------

  lemma {:induction false} IndexInFront(front: seq<Field>, last: Field, name: string)
    ensures FieldIndex(front + [last], name) ==
      if FieldIndex(front, name).Some? then FieldIndex(front, name)
      else if last.name == name then Some(|front|)
      else None
  {
    if front == [] {
      assert (front + [last])[1..] == [];
    } else {
      assert (front + [last])[1..] == front[1..] + [last];
      IndexInFront(front[1..], last, name);
    }
  }

  lemma FlagsIndex(w: World, name: string)
    requires WellFormed(w.Type())
    ensures FieldIndex(w.Type().fields, FLAGS) == Some(|w.sections|)
    ensures name != FLAGS ==> FieldIndex(w.Type().fields, name) == FieldIndex(w.sections, name)
  {
    FieldIndexOf(w.Type().fields, |w.sections|);
    IndexInFront(w.sections, Field(FLAGS, TPtr(w.flags)), name);
  }

  /** A configuration value: its sections and what the flags pointer holds. */
  function Whole(sections: seq<Tree>, flags: Tree): Tree {
    Struct(sections + [flags])
  }

  ghost function TableOf(w: World, sections: seq<Tree>, flags: Tree): Table
    requires WellFormed(w.Type())
  {
    Leaves(w.Type(), Whole(sections, flags))
  }

  lemma LookupOutside(w: World, a: seq<Tree>, f: Tree, g: Tree, p: Path)
    requires WellFormed(w.Type()) && |a| == |w.sections| && p != [] && !IsFlag(p)
    ensures Lookup(w.Type(), Whole(a, f), p) == Lookup(w.Type(), Whole(a, g), p)
  {
    FlagsIndex(w, p[0]);
  }

  lemma LookupInSections(w: World, a: seq<Tree>, f: Tree, p: Path)
    requires WellFormed(w.Type()) && |a| == |w.sections| && p != [] && !IsFlag(p)
    ensures Lookup(w.Type(), Whole(a, f), p) == Lookup(TStruct(w.sections), Struct(a), p)
  {
    FlagsIndex(w, p[0]);
  }

  lemma LookupFlag(w: World, a: seq<Tree>, b: seq<Tree>, f: Tree, p: Path)
    requires WellFormed(w.Type()) && |a| == |b| == |w.sections| && IsFlag(p)
    ensures Lookup(w.Type(), Whole(a, f), p) == Lookup(w.Type(), Whole(b, f), p)
    ensures f.Nil? ==> Lookup(w.Type(), Whole(a, f), p) == None
  {
    FlagsIndex(w, p[0]);
  }

  lemma FlagsByPaths(x: Table, y: Table)
    requires forall p :: IsFlag(p) ==> At(x, p) == At(y, p)
    ensures Flags(x) == Flags(y)
  {
    forall p ensures p in Flags(x) <==> p in Flags(y) { assert IsFlag(p) ==> At(x, p) == At(y, p); }
    forall p | p in Flags(x) ensures Flags(x)[p] == Flags(y)[p] { assert At(x, p) == At(y, p); }
  }

  /** The leaves outside the flags depend on the sections only, those of the flags on the
      pointer only, and a nil pointer has none. */
  lemma MainIsOfSections(w: World, a: seq<Tree>, f: Tree, g: Tree)
    requires WellFormed(w.Type()) && |a| == |w.sections|
    ensures Main(TableOf(w, a, f)) == Main(TableOf(w, a, g))
  {
    forall p | !IsFlag(p) ensures At(TableOf(w, a, f), p) == At(TableOf(w, a, g), p) {
      LeavesAt(w.Type(), Whole(a, f), p);
      LeavesAt(w.Type(), Whole(a, g), p);
      if p != [] { LookupOutside(w, a, f, g, p); }
    }
    MainByPaths(TableOf(w, a, f), TableOf(w, a, g));
  }

  lemma FlagsAreOfPointer(w: World, a: seq<Tree>, b: seq<Tree>, f: Tree)
    requires WellFormed(w.Type()) && |a| == |b| == |w.sections|
    ensures Flags(TableOf(w, a, f)) == Flags(TableOf(w, b, f))
    ensures f.Nil? ==> Flags(TableOf(w, a, f)) == map[]
  {
    forall p | IsFlag(p)
      ensures At(TableOf(w, a, f), p) == At(TableOf(w, b, f), p)
      ensures f.Nil? ==> At(TableOf(w, a, f), p) == None
    {
      LeavesAt(w.Type(), Whole(a, f), p);
      LeavesAt(w.Type(), Whole(b, f), p);
      LookupFlag(w, a, b, f, p);
    }
    FlagsByPaths(TableOf(w, a, f), TableOf(w, b, f));
    if f.Nil? {
      assert forall p :: p in Flags(TableOf(w, a, f)) ==> IsFlag(p) && At(TableOf(w, a, f), p).Some?;
    }
  }

  lemma PlusNothing(m: Table)
    ensures m + map[] == m
  {}

  lemma MainAndFlags(m: Table)
    ensures m == Main(m) + Flags(m)
  {}

  /** Clearing the pointer drops the flags; pointing it elsewhere takes over those found there. */
  lemma MixedTable(w: World, a: seq<Tree>, b: seq<Tree>, f: Tree, g: Tree)
    requires WellFormed(w.Type()) && |a| == |b| == |w.sections|
    ensures TableOf(w, a, Nil) == Main(TableOf(w, a, f))
    ensures TableOf(w, a, g) == Main(TableOf(w, a, f)) + Flags(TableOf(w, b, g))
  {
    hide TableOf, WellFormed, Main, Flags;
    MainIsOfSections(w, a, f, g);
    MainIsOfSections(w, a, f, Nil);
    FlagsAreOfPointer(w, a, b, g);
    FlagsAreOfPointer(w, a, a, Nil);
    MainAndFlags(TableOf(w, a, g));
    MainAndFlags(TableOf(w, a, Nil));
    PlusNothing(Main(TableOf(w, a, f)));
  }

  // -------------------------------------------------------------------------
  // Comparing configurations
  // -------------------------------------------------------------------------

  ghost predicate SectionsTyped(w: World, a: seq<Tree>) {
    Typed(TStruct(w.sections), Struct(a))
  }

  ghost predicate SectionsOk(w: World, a: seq<Tree>) {
    SectionsTyped(w, a) && Complete(Struct(a))
  }

  /** No flags, or all of them. */
  ghost predicate FlagsOk(w: World, f: Tree) {
    Typed(TPtr(w.flags), f) && (f.Nil? || Complete(f))
  }

  lemma WholeTyped(w: World, a: seq<Tree>, f: Tree)
    requires |a| == |w.sections|
    ensures Typed(w.Type(), Whole(a, f)) <==> SectionsTyped(w, a) && Typed(TPtr(w.flags), f)
    ensures Complete(Whole(a, f)) <==> Complete(Struct(a)) && Complete(f)
  {
    var ty, v := w.Type(), Whole(a, f);
    assert ty.fields[|a|].ty == TPtr(w.flags) && v.fields[|a|] == f;
    assert forall i :: 0 <= i < |a| ==> ty.fields[i] == w.sections[i] && v.fields[i] == a[i];
  }

  lemma UnWhole(w: World, v: Tree)
    requires Typed(w.Type(), v)
    ensures v.Struct? && |v.fields| == |w.sections| + 1
    ensures var n := |w.sections|;
      && v == Whole(v.fields[..n], v.fields[n])
      && SectionsTyped(w, v.fields[..n]) && Typed(TPtr(w.flags), v.fields[n])
      && (Complete(v) ==> Complete(Struct(v.fields[..n])) && Complete(v.fields[n]))
  {
    var n := |w.sections|;
    assert |w.Type().fields| == n + 1;
    assert v.fields == v.fields[..n] + [v.fields[n]];
    WholeTyped(w, v.fields[..n], v.fields[n]);
  }

  /** Two configurations with flags, or two without, are equal exactly when their tables are. */
  lemma EqualIffSameTable(w: World, a: seq<Tree>, f: Tree, b: seq<Tree>, g: Tree)
    requires TypeOk(w) && SectionsOk(w, a) && SectionsOk(w, b) && FlagsOk(w, f) && FlagsOk(w, g)
    requires f.Nil? <==> g.Nil?
    ensures a == b && f == g <==> TableOf(w, a, f) == TableOf(w, b, g)
  {
    if TableOf(w, a, f) == TableOf(w, b, g) {
      var f', g' := if f.Nil? then Ptr(w.defaultFlags) else f, if g.Nil? then Ptr(w.defaultFlags) else g;
      assert TableOf(w, a, f') == TableOf(w, b, g') by {
        MixedTable(w, a, a, f, f');
        MixedTable(w, b, a, g, g');
      }
      WholeTyped(w, a, f');
      WholeTyped(w, b, g');
      LeavesIsInjective(w.Type(), Whole(a, f'), Whole(b, g'));
      assert a == Whole(a, f').fields[..|a|] && b == Whole(b, g').fields[..|a|];
      assert f' == Whole(a, f').fields[|a|] && g' == Whole(b, g').fields[|a|];
    }
  }

  // -------------------------------------------------------------------------
  // The abstraction
  // -------------------------------------------------------------------------

  ghost function Kinds(ty: Ty): map<Path, Kind>
    requires WellFormed(ty)
  {
    map p | p in LeafPaths(ty) :: KindAt(ty, p)
  }

  /** `IsValid` does not look at the flags, so it can be asked of a table without them. */
  ghost predicate ValidTable(w: World, m: Table)
    requires WellFormed(w.Type())
  {
    exists a :: SectionsOk(w, a) && TableOf(w, a, Nil) == m && w.isValid(a)
  }

  ghost function SetupOf(w: World): Setup
    requires WellFormed(w.Type())
  {
    Setup(Kinds(w.Type()),
          Overrides(WritesOf(w.Type(), w.env)),
          ReportedLeaves(w.Type(), w.env),
          w.locales,
          TableOf(w, w.Zero(), Nil),
          TableOf(w, w.defaultSections, Ptr(w.defaultFlags)),
          m => ValidTable(w, m))
  }

  lemma TypedTableIsTyped(w: World, m: Table)
    requires WellFormed(w.Type()) && TypedTable(w.Type(), m)
    ensures TypedLeaves(SetupOf(w), m)
    ensures FullTable(w.Type(), m) ==> Full(SetupOf(w), m)
  {}

  lemma TypedIsTyped(w: World, a: seq<Tree>, f: Tree)
    requires WellFormed(w.Type()) && |a| == |w.sections| && Typed(w.Type(), Whole(a, f))
    ensures TypedLeaves(SetupOf(w), TableOf(w, a, f))
    ensures Complete(Whole(a, f)) ==> Full(SetupOf(w), TableOf(w, a, f))
  {
    LeavesOfTyped(w.Type(), Whole(a, f));
    TypedTableIsTyped(w, TableOf(w, a, f));
  }

  lemma OverridesTyped(ty: Ty, env: Env)
    requires WellFormed(ty)
    ensures TypedTable(ty, Overrides(WritesOf(ty, env)))
  {
    var writes := WritesOf(ty, env);
    var m := Overrides(writes);
    WrittenIsEntries(writes, SomeOrder(writes.Keys));
    forall p | p in m ensures IsLeaf(ty, p) && m[p].HasKind(KindAt(ty, p)) {
      assert Wrote(writes, p, m[p]);
      var k :| k in writes && writes[k] == Some((p, m[p]));
      assert WriteOf(ty, env, TrimPrefix(k, "MM_"), env.vars[k]) == Some((p, m[p]));
    }
  }

  lemma OneSegment(p: Path)
    requires p != []
    ensures p[1..] == [] ==> p == [p[0]]
  {
    assert p == [p[0]] + p[1..];
  }

  lemma ReportedAreNotFlags(w: World, p: Path)
    requires WellFormed(w.Type()) && !IsLeaf(w.Type(), [FLAGS])
    requires Reported(w.Type(), "MM", w.env.vars, p) && IsLeaf(w.Type(), p)
    ensures !IsFlag(p)
  {
    OneSegment(p);
    FlagsIndex(w, p[0]);
  }

  lemma FlagsPointerIsNoLeaf(w: World)
    requires WellFormed(w.Type()) && w.flags.TStruct?
    ensures !IsLeaf(w.Type(), [FLAGS])
  {
    FlagsIndex(w, FLAGS);
    assert [FLAGS][1..] == [];
    assert !IsLeaf(TPtr(w.flags), []) by { assert !IsLeaf(w.flags, []); }
  }

  /** A variable named after the flags pointer itself is reported and is no leaf, so that
      removing the overrides panics. */
  lemma FlagsVariableIsNoLeaf(w: World)
    requires WellFormed(w.Type()) && w.flags.TStruct? && Variable([FLAGS]) in w.env.vars
    ensures Reported(w.Type(), "MM", w.env.vars, [FLAGS]) && !IsLeaf(w.Type(), [FLAGS])
    ensures !ReportsLeaves(w.Type(), w.env)
  {
    FlagsIndex(w, FLAGS);
    ReportedIffVariableSet(w.Type(), w.env.vars, [FLAGS]);
    FlagsPointerIsNoLeaf(w);
  }

  lemma DefaultsAreFull(w: World)
    requires TypeOk(w)
    ensures Full(SetupOf(w), SetupOf(w).defaults)
  {
    WholeTyped(w, w.defaultSections, Ptr(w.defaultFlags));
    TypedIsTyped(w, w.defaultSections, Ptr(w.defaultFlags));
  }

  lemma ZeroIsTyped(w: World)
    requires WellFormed(w.Type())
    ensures SetupOf(w).zero == TableOf(w, w.Zero(), Nil)
    ensures SectionsTyped(w, w.Zero()) && TypedLeaves(SetupOf(w), SetupOf(w).zero)
  {
    ZeroTyped(TStruct(w.sections));
    assert ZeroTree(TStruct(w.sections)) == Struct(w.Zero());
    WholeTyped(w, w.Zero(), Nil);
    TypedIsTyped(w, w.Zero(), Nil);
  }

  /** What is taken for granted of the type is what the specification takes for granted. */
  lemma SetupIsOk(w: World)
    requires WorldOk(w)
    ensures SetupOk(SetupOf(w))
  {
    DefaultsAreFull(w);
    ZeroIsTyped(w);
    OverridesTyped(w.Type(), w.env);
    TypedTableIsTyped(w, SetupOf(w).sets);
    FlagsPointerIsNoLeaf(w);
    forall p | p in SetupOf(w).reported ensures !IsFlag(p) {
      ReportedAreNotFlags(w, p);
    }
    FixedKinds(w);
  }

  lemma FixedKinds(w: World)
    requires WellFormed(w.Type()) && NamedSettings(w.Type())
    ensures forall p :: p in FIXED_PATHS ==> p in SetupOf(w).kinds && SetupOf(w).kinds[p] == KString
  {}

  /** Under exact, parseable variables every reported override is written. */
  lemma ExactKeysAreWritten(w: World)
    requires WorldOk(w) && ExactKeys(w.Type(), w.env)
    ensures ReportedAreWritten(SetupOf(w))
  {
    ExactKeysWriteWhatIsReported(w.Type(), w.env);
  }

  lemma OnlyParsedFail(w: World)
    requires WorldOk(w)
    ensures SetupOk(SetupOf(w)) && OnlyParsedKindsFail(SetupOf(w))
  {
    hide NamedSettings, ConflictFree, CommaFree, FallbackSupported, NestedWithin, SetupOk, WellNamed, Overrides,
      WritesOf, ReportedLeaves, KindAt, ReportsLeaves, SectionsOk, WellFormed;
    SetupIsOk(w);
    OnlyOtherKindsFail(w.Type(), w.env);
  }

  /** Under exact names a nil comes from a reported variable. */
  lemma NilWritesAreReported(w: World)
    requires WorldOk(w) && ExactNames(w.Type(), w.env)
    ensures NilWritesComeOut(SetupOf(w))
  {
    WrittenAreReported(w.Type(), w.env);
  }

  /** Under exact names the two views stay in step through every `Set` exactly when the
      variables of all reported settings parse, provided validation pins no other one down to
      a single value. */
  lemma CoherentIffReportedParse(w: World)
    requires WorldOk(w) && ExactNames(w.Type(), w.env)
    requires SetupOk(SetupOf(w)) && UnwrittenAreChangeable(SetupOf(w))
    ensures ReportedParse(w.Type(), w.env) <==> SetAlwaysCoherent(SetupOf(w))
  {
    hide NamedSettings, ConflictFree, CommaFree, FallbackSupported, NestedWithin, ExactNames, SetAlwaysCoherent;
    OnlyParsedFail(w);
    CoherentIffReportedAreWritten(SetupOf(w));
    AllWrittenIffAllParse(w.Type(), w.env);
  }

  lemma ValidIffTable(w: World, a: seq<Tree>, f: Tree)
    requires TypeOk(w) && SectionsOk(w, a)
    ensures w.isValid(a) <==> SetupOf(w).valid(Main(TableOf(w, a, f)))
  {
    MixedTable(w, a, a, f, Nil);
    if ValidTable(w, Main(TableOf(w, a, f))) {
      var b :| SectionsOk(w, b) && TableOf(w, b, Nil) == Main(TableOf(w, a, f)) && w.isValid(b);
      EqualIffSameTable(w, a, Nil, b, Nil);
    }
  }

  lemma FullIsFullTable(w: World, m: Table)
    requires WellFormed(w.Type()) && Full(SetupOf(w), m)
    ensures FullTable(w.Type(), m)
  {}

  /** A full table is that of some configuration, and valid if that is. */
  lemma ConfigurationOf(w: World, m: Table) returns (a: seq<Tree>, f: Tree)
    requires TypeOk(w) && Full(SetupOf(w), m)
    ensures SectionsOk(w, a) && |a| == |w.sections| && TableOf(w, a, f) == m
    ensures SetupOf(w).valid(Main(m)) <==> w.isValid(a)
  {
    hide WellFormed, Typed, Complete, Leaves;
    FullIsFullTable(w, m);
    var v := LeavesIsOnto(w.Type(), m);
    UnWhole(w, v);
    a, f := v.fields[..|w.sections|], v.fields[|w.sections|];
    ValidIffTable(w, a, f);
  }
}

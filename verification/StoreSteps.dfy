/** The specified steps of the store, taken apart the way the methods of the store run them. */
module StoreSteps {
  import opened Text
  import opened ConfigTree
  import opened FixConfig
  import opened StoreSpec
  import opened StoreTheorems
  import opened StoreRuns
  import opened StoreLaws
  import opened World
  import opened ConfigSteps

  // -------------------------------------------------------------------------
  // Set
  // -------------------------------------------------------------------------

  /** The specified outcome of `Set`, where it is specified. */
  ghost predicate IsSetStep(w: Setup, s: State, input: Table, outcome: Outcome, step: Step) {
    && SetupOk(w) && Full(w, s.config) && Full(w, s.noEnv) && TypedLeaves(w, input)
    && step == SetStep(w, s, input, outcome)
  }

  lemma SetStepIs(w: Setup, s: State, input: Table, outcome: Outcome)
    requires SetupOk(w) && Full(w, s.config) && Full(w, s.noEnv) && TypedLeaves(w, input)
    ensures SetStep(w, s, input, outcome) ==
      if s.readOnly then Failed(s, ReadOnlyStore)
      else
        var cfg := Prepared(w, s.config, input);
        SetFinish(w, s, cfg, RemoveOverrides(w, cfg, s.noEnv), outcome)
  {}

  /** What `Set` keeps: soundness under every environment, agreement of the views where
      everything reported is written. */
  ghost predicate KeptBySet(w: Setup, before: State, after: State) {
    && (Sound(w, before) ==> Sound(w, after))
    && (ReportedAreWritten(w) && Inv(w, before) ==> Inv(w, after))
  }

  lemma SetInvariant(w: Setup, s: State, input: Table, outcome: Outcome, step: Step)
    requires IsSetStep(w, s, input, outcome, step)
    ensures KeptBySet(w, s, step.state)
  {
    hide Settled, Coherent, SetupOk, TypedLeaves, TypedState, Full, SetStep;
    if Sound(w, s) {
      SetKeepsSound(w, s, input, outcome);
    }
    if ReportedAreWritten(w) && Inv(w, s) {
      SetKeepsInvariant(w, s, input, outcome);
    }
  }

  /** What that means for the tables; (a, f) is the configuration before, (c, g) and (n, h)
      the new views, (b, k) the previous `configNoEnv`. */
  lemma CommittedTables(w: World, s: State, a: seq<Tree>, f: Tree, c: seq<Tree>, g: Tree,
                        n: seq<Tree>, h: Tree, b: seq<Tree>, k: Tree)
    requires TypeOk(w) && SectionsOk(w, a) && SectionsOk(w, c) && FlagsOk(w, f) && FlagsOk(w, g) && f.Ptr? && g.Ptr?
    requires |n| == |b| == |w.sections|
    requires s.config == TableOf(w, a, f) && s.noEnv == TableOf(w, b, k)
    ensures Changed(s, TableOf(w, c, g)) <==> a != c || (!s.readOnlyFlags && f != g)
    ensures TableOf(w, n, if s.readOnlyFlags then Nil else h) == Cleared(s, TableOf(w, n, h))
    ensures TableOf(w, c, if s.readOnlyFlags then f else g) == WithFlagsOf(s, TableOf(w, c, g), s.config)
    ensures TableOf(w, n, if s.readOnlyFlags then k else h) == WithFlagsOf(s, TableOf(w, n, h), s.noEnv)
  {
    hide Typed, Complete, Leaves, WellFormed, TableOf;
    assert WellFormed(w.Type());
    NoFlagsOk(w);
    SectionCount(w, a);
    SectionCount(w, c);
    if s.readOnlyFlags {
      MixedTable(w, a, a, f, Nil);
      MixedTable(w, c, a, g, f);
      MixedTable(w, n, b, h, k);
      EqualIffSameTable(w, a, Nil, c, Nil);
    } else {
      EqualIffSameTable(w, a, f, c, g);
    }
  }

  // -------------------------------------------------------------------------
  // Load
  // -------------------------------------------------------------------------

  /** The specified outcome of `Load`, where it is specified. */
  ghost predicate IsLoadStep(w: Setup, s: State, outcome: Outcome, step: Step) {
    SetupOk(w) && TypedState(w, s) && step == LoadStep(w, s, outcome)
  }

  /** What `Load` establishes if it succeeds, and keeps if it fails. */
  ghost predicate KeptByLoad(w: Setup, before: State, after: State, succeeded: bool) {
    && (succeeded || Inv(w, before) ==> Inv(w, after))
    && (Sound(w, before) ==> Sound(w, after))
  }

  lemma LoadInvariant(w: Setup, s: State, outcome: Outcome, step: Step)
    requires IsLoadStep(w, s, outcome, step)
    ensures KeptByLoad(w, s, step.state, step.error.None?)
  {
    hide Settled, Coherent, SetupOk, TypedState, LoadStep;
    if step.error.None? {
      LoadEstablishesInvariant(w, s, outcome);
    }
    if Sound(w, s) {
      LoadKeeps(w, s, outcome);
    }
  }

  lemma LoadStepIs(w: Setup, s: State, outcome: Outcome)
    requires SetupOk(w) && TypedState(w, s) && (s.stored.Saved? || s.stored.Missing?)
    ensures var noEnv := Reloaded(w, s);
      && Full(w, noEnv) && HasFixedSettings(ApplyEnv(w, noEnv))
      && var cfg := Fix(w.locales, ApplyEnv(w, noEnv));
      LoadStep(w, s, outcome) ==
        if !w.valid(Main(cfg)) then Failed(s.(customDefaults := None), InvalidConfig)
        else LoadFinished(s, cfg, noEnv, outcome)
  {
    hide Fix, ApplyEnv, Full, SetupOk;
    EffectiveIsFixOfApplied(w, Reloaded(w, s));
  }

  ghost predicate IsReloaded(w: Setup, s: State, result: Table) {
    SetupOk(w) && TypedState(w, s) && result == Reloaded(w, s)
  }

  lemma RebuiltIsReloaded(w: Setup, s: State, result: Table)
    requires SetupOk(w) && TypedState(w, s)
    requires IsRebuilt(w, result, if s.customDefaults.None? then Decoded(w, s.stored)
                                  else Merge(s.customDefaults.value, Decoded(w, s.stored)))
    ensures result == Reloaded(w, s)
  {
    hide Fix, SetupOk, Fill, WithSiteURL, Merge;
  }

  /** What comparing and clearing mean for the tables in `Load`, where the configuration
      before may be the empty one. */
  lemma LoadedTables(w: World, s: State, a: seq<Tree>, f: Tree, c: seq<Tree>, g: Tree, n: seq<Tree>, h: Tree)
    requires WorldOk(w) && SectionsOk(w, c) && FlagsOk(w, g) && g.Ptr? && |n| == |w.sections|
    requires (a == w.Zero() && s.config == map[]) ||
             (SectionsOk(w, a) && FlagsOk(w, f) && f.Ptr? && s.config == TableOf(w, a, f))
    ensures Changed(s, TableOf(w, c, g)) <==> a != c || (!s.readOnlyFlags && f != g)
    ensures TableOf(w, n, if s.readOnlyFlags then Nil else h) == Cleared(s, TableOf(w, n, h))
  {
    hide Typed, Complete, Leaves, WellFormed, TableOf, NamedSettings, SetupOf;
    MixedTable(w, n, n, h, Nil);
    SectionCount(w, c);
    if SectionsOk(w, a) && FlagsOk(w, f) && f.Ptr? && s.config == TableOf(w, a, f) {
      CommittedTables(w, s.(noEnv := TableOf(w, n, h)), a, f, c, g, n, h, n, h);
    } else {
      ZeroDiffers(w, c);
      SetupIsOk(w);
      WholeIsFull(w, c, g);
      FirstLoadChanges(SetupOf(w), s, TableOf(w, c, g));
    }
  }

  /** What persisting loaded views answers. */
  ghost predicate IsPersisted(s: State, cfg: Table, outcome: Outcome, error: Option<Error>, hasChanged: bool,
                              wrote: bool)
  {
    var writes := !s.readOnly && (Changed(s, cfg) || s.stored.Missing?);
    && hasChanged == Changed(s, cfg)
    && error == (if writes && outcome == Fail then Some(FailedToPersist) else None)
    && wrote == (writes && outcome == Accept)
  }

  function Restocked(s: State, noEnv: Table, wrote: bool): State {
    if wrote then s.(stored := Saved(Cleared(s, noEnv))) else s
  }

  function Installed(s: State, cfg: Table, noEnv: Table, wrote: bool, published: bool): State {
    if published then Restocked(s, noEnv, wrote).(config := cfg, noEnv := noEnv) else Restocked(s, noEnv, wrote)
  }

  /** Persisting and publishing the views of a valid load ends the specified step. */
  lemma LoadEnds(s: State, cfg: Table, noEnv: Table, outcome: Outcome,
                 error: Option<Error>, hasChanged: bool, wrote: bool)
    requires IsPersisted(s.(customDefaults := None), cfg, outcome, error, hasChanged, wrote)
    ensures var step := LoadFinished(s, cfg, noEnv, outcome);
      && step.error == error && step.wrote == wrote
      && step.state == Installed(s.(customDefaults := None), cfg, noEnv, wrote, error.None?)
      && step.notice.Some? == (error.None? && hasChanged)
  {}
}

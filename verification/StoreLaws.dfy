/** Laws of single calls and of pairs of calls on the store. */
module StoreLaws {
  import opened Text
  import opened ConfigTree
  import opened FixConfig
  import opened Desanitize
  import opened StoreSpec
  import opened StoreTheorems
  import opened StoreRuns

  // -------------------------------------------------------------------------
  // The exact condition on the environment
  // -------------------------------------------------------------------------

  /** Texts, lists and raw JSON take any variable; only other kinds can fail to parse. */
  ghost predicate OnlyParsedKindsFail(w: Setup)
    requires SetupOk(w)
  {
    forall p :: p in w.reported && p !in w.sets ==> w.kinds[p] in {KBool, KInt, KMap}
  }

  /** `cfg` and `current` agree on every setting that is reported as overridden without being
      written. */
  ghost predicate AgreeOnUnwritten(w: Setup, current: Table, cfg: Table) {
    forall p :: p in w.reported && p !in w.sets && p in cfg && p in current ==> cfg[p] == current[p]
  }

  /** A setting the environment does not write and the repairs do not touch. */
  lemma EffectiveElsewhere(w: Setup, m: Table, p: Path)
    requires SetupOk(w) && Full(w, m) && p in m && p !in w.sets && w.kinds[p] != KString
    ensures Effective(w, m)[p] == m[p]
  {
    EffectiveIsFixOfApplied(w, m);
    FixTouches(w.locales, ApplyEnv(w, m), p);
  }

  /** There both views hold the same. */
  lemma SameInBothViews(w: Setup, s: State, p: Path)
    requires SetupOk(w) && Coherent(w, s) && p in w.kinds && !IsFlag(p) && p !in w.sets && w.kinds[p] != KString
    ensures p in s.config && p in s.noEnv && s.config[p] == s.noEnv[p]
  {
    EffectiveElsewhere(w, s.noEnv, p);
    assert p in Main(s.config) && Main(s.config)[p] == Main(Effective(w, s.noEnv))[p];
  }

  lemma AgreementRebuilds(w: Setup, s: State, cfg: Table)
    requires Inv(w, s) && Full(w, cfg) && OnlyParsedKindsFail(w) && AgreeOnUnwritten(w, s.config, cfg)
    ensures ApplyEnv(w, RemoveOverrides(w, cfg, s.noEnv)) == ApplyEnv(w, cfg)
  {
    hide Effective, Fix, SetupOk, ApplyEnv, Settled, TypedState;
    var removed := RemoveOverrides(w, cfg, s.noEnv);
    forall p | p in cfg && p !in w.sets ensures removed[p] == cfg[p] {
      if p in w.reported {
        ReportedIsPlain(w, p);
        SameInBothViews(w, s, p);
      }
    }
    EnvironmentHides(w, removed, cfg);
  }

  lemma ReportedIsPlain(w: Setup, p: Path)
    requires SetupOk(w) && p in w.reported
    ensures p in w.kinds && !IsFlag(p)
  {}

  /** A successful `Set` leaves the views in step exactly when the configuration it arrives at
      agrees with the current one on every setting reported as overridden without being
      written; whatever validation allows. */
  lemma SetCoherentIff(w: Setup, s: State, input: Table)
    requires Inv(w, s) && OnlyParsedKindsFail(w) && TypedLeaves(w, input)
    requires SetStep(w, s, input, Accept).error.None?
    ensures Coherent(w, SetStep(w, s, input, Accept).state) <==>
      AgreeOnUnwritten(w, s.config, Prepared(w, s.config, input))
  {
    hide Prepared, RemoveOverrides, Effective, Full, TypedLeaves, AgreeOnUnwritten, OnlyParsedKindsFail;
    SetSuccess(w, s, input, Accept);
    CommitCoherentIff(w, s, Prepared(w, s.config, input));
  }

  lemma CommitCoherentIff(w: Setup, s: State, cfg: Table)
    requires Inv(w, s) && OnlyParsedKindsFail(w) && Full(w, cfg) && Effective(w, cfg) == cfg
    requires Full(w, RemoveOverrides(w, cfg, s.noEnv))
    ensures Coherent(w, SetCommit(s, cfg, RemoveOverrides(w, cfg, s.noEnv))) <==> AgreeOnUnwritten(w, s.config, cfg)
  {
    hide RemoveOverrides, Effective, Fix, SetupOk, AgreeOnUnwritten, OnlyParsedKindsFail;
    var removed := RemoveOverrides(w, cfg, s.noEnv);
    MixedFull(w, cfg, s.config);
    MixedFull(w, removed, s.noEnv);
    EffectiveReadsMainOnly(w, removed, Main(removed) + Flags(s.noEnv));
    if AgreeOnUnwritten(w, s.config, cfg) {
      AgreementRebuilds(w, s, cfg);
      EffectiveIsFixOfApplied(w, removed);
      EffectiveIsFixOfApplied(w, cfg);
    } else if Coherent(w, SetCommit(s, cfg, removed)) {
      assert Main(Effective(w, removed)) == Main(cfg);
      CoherenceAgrees(w, s, cfg);
    }
  }

  lemma CoherenceAgrees(w: Setup, s: State, cfg: Table)
    requires Inv(w, s) && OnlyParsedKindsFail(w) && Full(w, cfg) && Full(w, RemoveOverrides(w, cfg, s.noEnv))
    requires Main(Effective(w, RemoveOverrides(w, cfg, s.noEnv))) == Main(cfg)
    ensures AgreeOnUnwritten(w, s.config, cfg)
  {
    hide Effective, Fix, SetupOk;
    var removed := RemoveOverrides(w, cfg, s.noEnv);
    forall p | p in w.reported && p !in w.sets && p in cfg ensures p in s.config && cfg[p] == s.config[p] {
      ReportedIsPlain(w, p);
      SameInBothViews(w, s, p);
      EffectiveElsewhere(w, removed, p);
      assert p in Main(cfg) && Main(cfg)[p] == Main(Effective(w, removed))[p];
    }
  }

  /** A configuration that some store of the process may publish. */
  ghost predicate Publishable(w: Setup, m: Table)
    requires SetupOk(w)
  {
    Full(w, m) && Effective(w, m) == m && NilsExplained(w, m) && w.valid(Main(m))
  }

  /** Validation lets the setting differ between two configurations. */
  ghost predicate Changeable(w: Setup, p: Path)
    requires SetupOk(w)
  {
    exists a, b :: Publishable(w, a) && Publishable(w, b) && NoPlaceholders(b) && p in a && p in b && a[p] != b[p]
  }

  ghost predicate UnwrittenAreChangeable(w: Setup)
    requires SetupOk(w)
  {
    forall p :: p in w.reported && p !in w.sets ==> Changeable(w, p)
  }

  ghost predicate SetAlwaysCoherent(w: Setup)
    requires SetupOk(w)
  {
    forall s, input :: Inv(w, s) && TypedLeaves(w, input) ==>
      Coherent(w, SetStep(w, s, input, Accept).state)
  }

  /** In every state reached after a first successful load the views are in step. */
  ghost predicate RunsAreCoherent(w: Setup)
    requires SetupOk(w)
  {
    forall start, first, ops ::
      TypedState(w, start) && TypedOps(w, ops) && LoadStep(w, start, first).error.None? &&
      Sound(w, LoadStep(w, start, first).state) ==>
        Coherent(w, Run(w, LoadStep(w, start, first).state, ops))
  }

  /** The two views stay in step through every `Set`, and in every run, exactly when every
      reported override is one the environment really writes, provided validation pins no
      unwritten one down to a single value. */
  lemma CoherentIffReportedAreWritten(w: Setup)
    requires SetupOk(w) && OnlyParsedKindsFail(w) && UnwrittenAreChangeable(w)
    ensures ReportedAreWritten(w) <==> SetAlwaysCoherent(w)
    ensures ReportedAreWritten(w) <==> RunsAreCoherent(w)
  {
    hide Publishable, SetStep, LoadStep, SetupOk, TypedLeaves, Settled, Coherent, TypedState, TypedOps, Run;
    if ReportedAreWritten(w) {
      forall s, input | Inv(w, s) && TypedLeaves(w, input)
        ensures Coherent(w, SetStep(w, s, input, Accept).state)
      {
        SetKeepsInvariant(w, s, input, Accept);
      }
      forall start, first, ops |
        TypedState(w, start) && TypedOps(w, ops) && LoadStep(w, start, first).error.None? &&
        Sound(w, LoadStep(w, start, first).state)
        ensures Coherent(w, Run(w, LoadStep(w, start, first).state, ops))
      {
        LoadEstablishesInvariant(w, start, first);
        RunKeepsInvariant(w, LoadStep(w, start, first).state, ops);
      }
    } else {
      var p :| p in w.reported && p !in w.sets;
      assert Changeable(w, p);
      var a, b :| Publishable(w, a) && Publishable(w, b) && NoPlaceholders(b) && p in a && p in b && a[p] != b[p];
      UnwrittenReportBreaksRun(w, p, a, b);
    }
  }

  /** A store that has not loaded yet, over a backing store that holds `a`. */
  function Stocked(a: Table): State {
    State(map[], map[], Saved(a), None, false, true)
  }

  /** Loading a configuration that the process can publish publishes it. */
  lemma LoadPublishes(w: Setup, a: Table)
    requires SetupOk(w) && Publishable(w, a)
    ensures TypedState(w, Stocked(a))
    ensures var r := LoadStep(w, Stocked(a), Accept);
      r.error.None? && Inv(w, r.state) && r.state.config == a && !r.state.readOnly && r.state.customDefaults.None?
  {
    hide Fill, Fix, CommaFree, FallbackSupported, Inv;
    var s := Stocked(a);
    var noEnv := Reloaded(w, s);
    FullHasFixedSettings(w, a);
    assert SITE_URL in FIXED_PATHS;
    assert WithSiteURL(w, Patched(w, s)) == a;
    FillOfPublishable(w, a);
    EffectiveIsFixOfApplied(w, noEnv);
    assert LoadStep(w, s, Accept) == LoadFinish(w, s, Effective(w, noEnv), noEnv, Accept);
    LoadEstablishesInvariant(w, s, Accept);
  }

  /** Filled in, its nil settings may change, but no repair is needed, and with the environment
      it is itself. */
  lemma FillOfPublishable(w: Setup, a: Table)
    requires SetupOk(w) && Publishable(w, a)
    ensures var f := Fill(w, a);
      Full(w, f) && HasFixedSettings(f) && Fix(w.locales, f) == f && Effective(w, f) == a
  {
    hide Fill, Fix, ApplyEnv, Effective, SetupOk, CommaFree, FallbackSupported;
    var f := Fill(w, a);
    FilledIsFull(w, a);
    FullHasFixedSettings(w, a);
    FullHasFixedSettings(w, f);
    EffectiveIsFixOfApplied(w, a);
    EffectiveIsFixOfApplied(w, f);
    FixIsIdempotent(w.locales, ApplyEnv(w, a));
    FilledNilsAreExplained(w, a);
    EnvironmentHides(w, f, a);
    NilsNeedNoRepair(w.locales, f, a);
  }

  lemma FilledNilsAreExplained(w: Setup, a: Table)
    requires SetupOk(w) && Full(w, a) && NilsExplained(w, a)
    ensures Fill(w, a).Keys == a.Keys
    ensures forall p :: p in a && (!a[p].IsNil() || p !in w.sets) ==> Fill(w, a)[p] == a[p]
  {
    hide Fill;
    FilledIsFull(w, a);
    forall p | p in a && (!a[p].IsNil() || p !in w.sets) ensures Fill(w, a)[p] == a[p] {
      FillAt(w, a, p);
    }
  }

  lemma NilsNeedNoRepair(locales: set<string>, f: Table, a: Table)
    requires HasFixedSettings(f) && HasFixedSettings(a) && f.Keys == a.Keys && Fix(locales, a) == a
    requires forall p :: p in a && !a[p].IsNil() ==> f[p] == a[p]
    ensures Fix(locales, f) == f
  {
    hide Fix;
    forall p | p in f ensures Fix(locales, f)[p] == f[p] {
      if f[p] == a[p] { FixAt(locales, f, a, p); } else { FixTouches(locales, f, p); }
    }
  }

  /** A store of such a process, asked for a configuration that differs in the unwritten setting:
      it publishes the new value, and persists the old one. */
  lemma UnwrittenReportBreaksSet(w: Setup, s: State, p: Path, b: Table)
    requires Inv(w, s) && !s.readOnly && OnlyParsedKindsFail(w) && p in w.reported && p !in w.sets
    requires Publishable(w, b) && NoPlaceholders(b) && p in b && p in s.config && b[p] != s.config[p]
    ensures TypedLeaves(w, b)
    ensures var r := SetStep(w, s, b, Accept);
      && r.error.None? && Sound(w, r.state) && !Coherent(w, r.state)
      && p in r.state.config && r.state.config[p] == b[p]
      && p in r.state.noEnv && r.state.noEnv[p] == s.config[p]
  {
    hide Effective, Fix, Prepared, NoPlaceholders, SetupOk, Unmask, Fill, SetStep, Settled, TypedState;
    PublishedIsPrepared(w, s.config, b);
    SetStepOfPrepared(w, s, b);
    SetKeepsSound(w, s, b, Accept);
    RemovedFull(w, b, s.noEnv);
    ReportedIsPlain(w, p);
    SameUnwritten(w, s, p);
    CommitCoherentIff(w, s, b);
    assert !AgreeOnUnwritten(w, s.config, b);
    CommitAt(s, b, RemoveOverrides(w, b, s.noEnv), p);
  }

  lemma SameUnwritten(w: Setup, s: State, p: Path)
    requires Inv(w, s) && OnlyParsedKindsFail(w) && p in w.reported && p !in w.sets
    ensures p in s.config && p in s.noEnv && s.config[p] == s.noEnv[p]
  {
    hide Full, Effective, Settled, TypedState;
    ReportedIsPlain(w, p);
    SameInBothViews(w, s, p);
  }

  lemma CommitAt(s: State, cfg: Table, noEnv: Table, p: Path)
    requires !IsFlag(p) && p in cfg && p in noEnv
    ensures var after := SetCommit(s, cfg, noEnv);
      && p in after.config && after.config[p] == cfg[p] && p in after.noEnv && after.noEnv[p] == noEnv[p]
      && after.stored.Saved? && p in after.stored.table && after.stored.table[p] == noEnv[p]
  {}

  /** The next load finds the old value and publishes it: what was submitted is gone. */
  lemma SubmittedValueIsGone(w: Setup, s: State, p: Path, b: Table, outcome: Outcome)
    requires Inv(w, s) && !s.readOnly && s.customDefaults.None?
    requires OnlyParsedKindsFail(w) && p in w.reported && p !in w.sets
    requires Publishable(w, b) && NoPlaceholders(b) && p in b && p in s.config && b[p] != s.config[p]
    ensures TypedLeaves(w, b)
    ensures var after := SetStep(w, s, b, Accept).state;
      && TypedState(w, after) && after.stored.Saved?
      && p in Effective(w, Reloaded(w, after)) && Effective(w, Reloaded(w, after))[p] == s.config[p]
      && (LoadStep(w, after, outcome).error.None? ==>
            var again := LoadStep(w, after, outcome).state.config; p in again && again[p] == s.config[p])
  {
    hide Effective, Fix, Prepared, NoPlaceholders, Unmask, Fill, Reloaded, LoadStep, SetStep;
    hide CommaFree, FallbackSupported, Coherent;
    PublishedIsPrepared(w, s.config, b);
    SetStepOfPrepared(w, s, b);
    SetKeepsSound(w, s, b, Accept);
    RemovedFull(w, b, s.noEnv);
    ReportedIsPlain(w, p);
    SameUnwritten(w, s, p);
    var after := SetStep(w, s, b, Accept).state;
    CommitAt(s, b, RemoveOverrides(w, b, s.noEnv), p);
    ReloadBringsBack(w, after, p, s.config[p]);
    if LoadStep(w, after, outcome).error.None? { LoadSuccess(w, after, outcome); }
  }

  /** From a first load of `a`, one `Set` of `b` is enough. */
  lemma UnwrittenReportBreaksRun(w: Setup, p: Path, a: Table, b: Table)
    requires SetupOk(w) && OnlyParsedKindsFail(w) && p in w.reported && p !in w.sets
    requires Publishable(w, a) && Publishable(w, b) && NoPlaceholders(b) && p in a && p in b && a[p] != b[p]
    ensures !SetAlwaysCoherent(w) && !RunsAreCoherent(w)
  {
    hide Publishable, SetStep, LoadStep, SetupOk, Settled, TypedState, Coherent, NoPlaceholders, Full;
    LoadPublishes(w, a);
    var s := LoadStep(w, Stocked(a), Accept).state;
    UnwrittenReportBreaksSet(w, s, p, b);
    var ops := [OpSet(b, Accept)];
    assert ops[..0] == [];
    assert TypedOps(w, ops);
    assert Run(w, s, ops[..0]) == s;
    assert Run(w, s, ops) == SetStep(w, s, b, Accept).state;
  }

  lemma ReloadBringsBack(w: Setup, s: State, p: Path, x: Scalar)
    requires SetupOk(w) && TypedState(w, s) && s.customDefaults.None? && s.stored.Saved?
    requires p in s.stored.table && s.stored.table[p] == x && p in w.kinds && (x.IsNil() ==> x == w.defaults[p])
    requires p !in w.sets && w.kinds[p] != KString
    ensures p in Effective(w, Reloaded(w, s)) && Effective(w, Reloaded(w, s))[p] == x
  {
    hide Fill, Effective, Fix, CommaFree, FallbackSupported;
    var patched := WithSiteURL(w, Patched(w, s));
    assert p in patched && patched[p] == x;
    FillAt(w, patched, p);
    FilledIsFull(w, patched);
    FullHasFixedSettings(w, Fill(w, patched));
    FixTouches(w.locales, Fill(w, patched), p);
    EffectiveElsewhere(w, Reloaded(w, s), p);
  }

  /** A publishable configuration without placeholders is what `Set` makes of itself. */
  lemma PublishedIsPrepared(w: Setup, current: Table, published: Table)
    requires SetupOk(w) && Full(w, current)
    requires Publishable(w, published) && NoPlaceholders(published)
    ensures TypedLeaves(w, published) && Prepared(w, current, published) == published
  {
    hide Unmask, Fill, Fix, Effective, Prepared, SetupOk, NoPlaceholders;
    forall p | p in published && p !in w.sets
      ensures p in Unmask(current, Fill(w, published)) && Unmask(current, Fill(w, published))[p] == published[p]
    {
      PublishedPassesThrough(w, current, published, p);
    }
    SameOutsideTheEnvironment(w, current, published, published);
  }

  lemma SetStepOfPrepared(w: Setup, s: State, input: Table)
    requires Sound(w, s) && !s.readOnly && TypedLeaves(w, input) && Prepared(w, s.config, input) == input
    requires w.valid(Main(input))
    ensures var r := SetStep(w, s, input, Accept);
      r.error.None? && r.state == SetCommit(s, input, RemoveOverrides(w, input, s.noEnv))
  {
    hide Prepared, RemoveOverrides, Effective, SetupOk, TypedLeaves, Main;
  }

  // -------------------------------------------------------------------------
  // Loading again
  // -------------------------------------------------------------------------

  /** Nothing is written, nobody is told, and both views stay as they are apart from flags. */
  ghost predicate Quiet(before: State, r: Step) {
    && r.error.None? && !r.wrote && r.notice.None?
    && r.state.stored == before.stored
    && Main(r.state.config) == Main(before.config) && Main(r.state.noEnv) == Main(before.noEnv)
  }

  /** What is stored reloads to the current configuration. */
  ghost predicate InStep(w: Setup, s: State)
    requires SetupOk(w) && TypedState(w, s)
  {
    && s.stored.Saved?
    && Main(Reloaded(w, s)) == Main(s.noEnv)
    && Main(Effective(w, Reloaded(w, s))) == Main(s.config)
    && (!s.readOnlyFlags ==> Effective(w, Reloaded(w, s)) == s.config)
  }

  lemma LoadInStepIsQuiet(w: Setup, s: State, outcome: Outcome)
    requires SetupOk(w) && TypedState(w, s) && InStep(w, s) && w.valid(Main(s.config))
    ensures Quiet(s, LoadStep(w, s, outcome))
  {
    hide Effective, Reloaded, TypedState, SetupOk, Main;
    var cfg, noEnv := Effective(w, Reloaded(w, s)), Reloaded(w, s);
    assert !Changed(s, cfg);
    assert LoadStep(w, s, outcome) == LoadFinish(w, s, cfg, noEnv, outcome);
  }

  lemma FillOfNilDefaults(w: Setup, m: Table)
    requires SetupOk(w) && Full(w, m) && NilIsDefault(w, m)
    ensures Fill(w, m) == m
  {}

  lemma FilledIsFull(w: Setup, m: Table)
    requires SetupOk(w) && TypedLeaves(w, m)
    ensures Full(w, Fill(w, m))
  {}

  lemma SameMain(a: Table, b: Table)
    requires a.Keys == b.Keys && forall p :: p in a && !IsFlag(p) ==> a[p] == b[p]
    ensures Main(a) == Main(b)
  {}

  /** Cleared flags come back as defaults; the rest comes back as it was. */
  lemma FillOfCleared(w: Setup, s: State, m: Table)
    requires SetupOk(w) && Full(w, m) && NilIsDefault(w, m)
    ensures Main(Fill(w, Cleared(s, m))) == Main(m)
    ensures !s.readOnlyFlags ==> Fill(w, Cleared(s, m)) == m
  {
    FillOfNilDefaults(w, m);
    FilledIsFull(w, Main(m));
    hide SetupOk, Fill, Only;
    var filled := Fill(w, Main(m));
    forall p | p in m && !IsFlag(p) ensures filled[p] == m[p] {
      assert p in Main(m) && Main(m)[p] == m[p];
      FillAt(w, Main(m), p);
    }
    SameMain(filled, m);
  }

  /** Reloading a table that was just persisted repairs it once more. */
  lemma ReloadedAfterWrite(w: Setup, s: State, after: State, noEnv: Table)
    requires SetupOk(w) && TypedState(w, after) && Full(w, noEnv) && NilIsDefault(w, noEnv)
    requires after.customDefaults.None? && after.stored == Saved(Cleared(s, noEnv))
    ensures HasFixedSettings(noEnv)
    ensures Main(Reloaded(w, after)) == Main(Fix(w.locales, noEnv))
    ensures !s.readOnlyFlags ==> Reloaded(w, after) == Fix(w.locales, noEnv)
  {
    var stored := Cleared(s, noEnv);
    FillOfCleared(w, s, noEnv);
    FullHasFixedSettings(w, noEnv);
    FlagsAreNotFixed();
    assert SITE_URL in FIXED_PATHS;
    assert SITE_URL in stored;
    assert WithSiteURL(w, Patched(w, after)) == stored;
    FullHasFixedSettings(w, Fill(w, stored));
    FixReadsMainOnly(w, Fill(w, stored), noEnv);
  }

  /** `Load` after a `Load` on a store that accepts writes does nothing. */
  lemma LoadAfterLoad(w: Setup, s: State, again: Outcome)
    requires SetupOk(w) && TypedState(w, s) && !s.readOnly
    requires s.customDefaults.None? || s.config == map[]
    requires LoadStep(w, s, Accept).error.None?
    ensures Inv(w, LoadStep(w, s, Accept).state)
    ensures Quiet(LoadStep(w, s, Accept).state, LoadStep(w, LoadStep(w, s, Accept).state, again))
  {
    var first := LoadStep(w, s, Accept);
    LoadEstablishesInvariant(w, s, Accept);
    LoadSuccess(w, s, Accept);
    LoadLeavesInStep(w, s, first);
    LoadInStepIsQuiet(w, first.state, again);
  }

  lemma LoadLeavesInStep(w: Setup, s: State, first: Step)
    requires SetupOk(w) && TypedState(w, s) && !s.readOnly && TypedState(w, first.state)
    requires s.customDefaults.None? || s.config == map[]
    requires s.stored.Saved? || s.stored.Missing?
    requires first == LoadFinish(w, s, Effective(w, Reloaded(w, s)), Reloaded(w, s), Accept)
    requires first.error.None?
    ensures InStep(w, first.state)
  {
    var noEnv := Reloaded(w, s);
    var cfg := Effective(w, noEnv);
    LoadFinishSuccess(w, s, cfg, noEnv, Accept);
    if first.wrote {
      ReloadedNils(w, s);
      ReloadedAfterWrite(w, s, first.state, noEnv);
      ReloadedIsFixed(w, s);
      EffectiveReadsMainOnly(w, Reloaded(w, first.state), noEnv);
    } else {
      UnwrittenIsSame(w, s, cfg, noEnv);
      assert Reloaded(w, first.state) == noEnv;
    }
  }

  lemma ReloadedIsFixed(w: Setup, s: State)
    requires SetupOk(w) && TypedState(w, s)
    ensures HasFixedSettings(Reloaded(w, s)) && Fix(w.locales, Reloaded(w, s)) == Reloaded(w, s)
  {
    var filled := Fill(w, WithSiteURL(w, Patched(w, s)));
    FullHasFixedSettings(w, filled);
    FixIsIdempotent(w.locales, filled);
  }

  /** A writable store that did not write was in step already, and had no custom defaults. */
  lemma UnwrittenIsSame(w: Setup, s: State, cfg: Table, noEnv: Table)
    requires SetupOk(w) && Full(w, cfg) && !s.readOnly
    requires s.customDefaults.None? || s.config == map[]
    requires var r := LoadFinish(w, s, cfg, noEnv, Accept); r.error.None? && !r.wrote
    ensures !Changed(s, cfg) && !s.stored.Missing? && s.customDefaults.None?
  {
    FirstLoadChanges(w, s, cfg);
  }

  lemma FirstLoadChanges(w: Setup, s: State, cfg: Table)
    requires SetupOk(w) && Full(w, cfg)
    ensures s.config == map[] ==> Changed(s, cfg)
  {
    FlagsAreNotFixed();
    assert SITE_URL in FIXED_PATHS;
    assert SITE_URL in Cleared(s, cfg);
    assert SITE_URL in s.config || SITE_URL !in Cleared(s, s.config);
  }

  // -------------------------------------------------------------------------
  // Loading right after setting
  // -------------------------------------------------------------------------

  /** A nil the environment writes (the JSON text of a nil map) is reported, so that removing
      the overrides takes it out again, or is the default anyway. */
  ghost predicate NilWritesComeOut(w: Setup) {
    forall p :: p in w.sets && w.sets[p].IsNil() ==>
      p in w.reported || (p in w.defaults && w.sets[p] == w.defaults[p])
  }

  lemma SubtractedNils(w: Setup, cfg: Table, base: Table)
    requires SetupOk(w) && Full(w, cfg) && Full(w, base) && NilWritesComeOut(w)
    requires NilsExplained(w, cfg) && NilIsDefault(w, base)
    ensures NilIsDefault(w, RemoveOverrides(w, cfg, base))
  {
    var r := RemoveOverrides(w, cfg, base);
    forall p | p in r && r[p].IsNil() ensures r[p] == w.defaults[p] {
      assert r[p] == cfg[p] || r[p] == base[p];
    }
  }

  lemma SetSuccess(w: Setup, s: State, input: Table, outcome: Outcome)
    requires Sound(w, s) && TypedLeaves(w, input)
    requires SetStep(w, s, input, outcome).error.None?
    ensures var cfg := Prepared(w, s.config, input);
      var noEnv := RemoveOverrides(w, cfg, s.noEnv);
      && !s.readOnly && outcome == Accept && w.valid(Main(cfg))
      && Full(w, noEnv) && Effective(w, cfg) == cfg && NilsExplained(w, cfg)
      && SetStep(w, s, input, outcome) == SetFinish(w, s, cfg, noEnv, Accept)
      && SetStep(w, s, input, outcome).state == SetCommit(s, cfg, noEnv)
  {
    hide Effective, Unmask, Fill, TypedLeaves, SetupOk, SetCommit;
    PreparedIsSettled(w, s.config, input);
    RemovedFull(w, Prepared(w, s.config, input), s.noEnv);
  }

  /** No call brings a nil setting into `noEnv` that is not nil by default. */
  lemma NilsStayDefault(w: Setup, s: State, op: Op)
    requires Sound(w, s) && TypedOp(w, op) && NilWritesComeOut(w) && NilIsDefault(w, s.noEnv)
    ensures NilIsDefault(w, DoOp(w, s, op).state.noEnv)
  {
    hide Prepared, RemoveOverrides, Reloaded, Effective, Full, TypedLeaves;
    match op
    case OpSet(input, outcome) =>
      if SetStep(w, s, input, outcome).error.None? {
        SetSuccess(w, s, input, outcome);
        var cfg := Prepared(w, s.config, input);
        var noEnv := RemoveOverrides(w, cfg, s.noEnv);
        SubtractedNils(w, cfg, s.noEnv);
        MixedNilsAreDefault(w, noEnv, s.noEnv);
      } else {
        FailedSetDoesNothing(w, s, input, outcome);
      }
    case OpLoad(outcome) =>
      if LoadStep(w, s, outcome).error.None? {
        LoadSuccess(w, s, outcome);
        ReloadedNils(w, s);
      } else {
        FailedLoadKeepsViews(w, s, outcome);
      }
    case OpReadOnlyFlags(_) =>
    case OpExternal(_) =>
  }

  /** So nil settings of `noEnv` are nil by default in every run, and no custom defaults are
      pending. */
  lemma {:induction false} RunKeepsNilsDefault(w: Setup, s: State, ops: seq<Op>)
    requires Sound(w, s) && TypedOps(w, ops) && NilWritesComeOut(w)
    requires NilIsDefault(w, s.noEnv) && s.customDefaults.None?
    ensures var after := Run(w, s, ops);
      NilIsDefault(w, after.noEnv) && after.customDefaults.None?
    decreases |ops|
  {
    if ops != [] {
      var front, last := ops[..|ops| - 1], ops[|ops| - 1];
      RunKeepsNilsDefault(w, s, front);
      var before := Run(w, s, front);
      NilsStayDefault(w, before, last);
      OpAddsNoDefaults(w, before, last);
    }
  }

  lemma OpAddsNoDefaults(w: Setup, s: State, op: Op)
    requires Sound(w, s) && TypedOp(w, op) && s.customDefaults.None?
    ensures DoOp(w, s, op).state.customDefaults.None?
  {
    hide Prepared, RemoveOverrides, Reloaded, Effective, Full, TypedLeaves, Main, SetupOk;
  }

  lemma MixedNilsAreDefault(w: Setup, a: Table, b: Table)
    requires SetupOk(w) && NilIsDefault(w, a) && NilIsDefault(w, b)
    ensures NilIsDefault(w, Main(a) + Flags(b))
  {
    var mixed := Main(a) + Flags(b);
    forall p | p in mixed && mixed[p].IsNil() ensures p in w.defaults && mixed[p] == w.defaults[p] {
      assert mixed[p] == if IsFlag(p) then b[p] else a[p];
    }
  }

  /** What was persisted, read back: nil settings become defaults, the rest is repaired. */
  lemma ReloadedAt(w: Setup, s: State, after: State, m: Table, p: Path)
    requires SetupOk(w) && TypedState(w, after) && Full(w, m)
    requires after.customDefaults.None? && after.stored == Saved(Cleared(s, m))
    requires p in m && (s.readOnlyFlags ==> !IsFlag(p))
    ensures HasFixedSettings(m) && p in Reloaded(w, after)
    ensures Reloaded(w, after)[p] == if m[p].IsNil() then w.defaults[p] else Fix(w.locales, m)[p]
  {
    hide Fill, Fix, CommaFree, FallbackSupported;
    var stored := Cleared(s, m);
    FullHasFixedSettings(w, m);
    FlagsAreNotFixed();
    assert SITE_URL in FIXED_PATHS;
    assert p in stored && stored[p] == m[p];
    FillAt(w, stored, p);
    FilledIsFull(w, stored);
    FullHasFixedSettings(w, Fill(w, stored));
    forall q | q in FIXED_PATHS ensures Fill(w, stored)[q] == m[q] {
      assert q in stored && stored[q] == m[q] && HasText(m, q);
      FillAt(w, stored, q);
    }
    if m[p].IsNil() {
      FixTouches(w.locales, Fill(w, stored), p);
    } else {
      FixAt(w.locales, Fill(w, stored), m, p);
    }
  }

  /** It is what was persisted exactly if that needed no repair and had no nil to fill in. */
  lemma ReloadedIsSameIff(w: Setup, s: State, after: State, m: Table)
    requires SetupOk(w) && TypedState(w, after) && Full(w, m)
    requires after.customDefaults.None? && after.stored == Saved(Cleared(s, m))
    ensures HasFixedSettings(m)
    ensures Main(Reloaded(w, after)) == Main(m) <==> Main(Fix(w.locales, m)) == Main(m) && NilIsDefault(w, Main(m))
  {
    hide Fix, CommaFree, FallbackSupported, Reloaded, Cleared;
    FullHasFixedSettings(w, m);
    var r, fixed := Reloaded(w, after), Fix(w.locales, m);
    forall p | p in m && !IsFlag(p)
      ensures r[p] == if m[p].IsNil() then w.defaults[p] else fixed[p]
      ensures m[p].IsNil() ==> fixed[p] == m[p]
    {
      ReloadedAt(w, s, after, m, p);
      FixTouches(w.locales, m, p);
    }
    if Main(r) == Main(m) {
      forall p | !IsFlag(p) ensures At(fixed, p) == At(m, p) { MainAt(r, m, p); }
      MainByPaths(fixed, m);
      forall p | p in Main(m) ensures Main(m)[p].IsNil() ==> m[p] == w.defaults[p] { MainAt(r, m, p); }
    }
    if Main(fixed) == Main(m) && NilIsDefault(w, Main(m)) {
      forall p | !IsFlag(p) ensures At(r, p) == At(m, p) {
        MainAt(fixed, m, p);
        if p in m && m[p].IsNil() { assert p in Main(m) && Main(m)[p] == m[p]; }
      }
      MainByPaths(r, m);
    }
  }

  /** The flags come back with the environment, whatever was cleared. */
  lemma FlagsComeBack(w: Setup, s: State, after: State, cfg: Table, noEnv: Table, p: Path)
    requires SetupOk(w) && TypedState(w, after) && Full(w, cfg) && Full(w, noEnv)
    requires Effective(w, cfg) == cfg && NilsExplained(w, cfg)
    requires after.customDefaults.None? && after.stored == Saved(Cleared(s, noEnv)) && !s.readOnlyFlags
    requires IsFlag(p) && p in cfg && noEnv[p] == cfg[p]
    ensures Effective(w, Reloaded(w, after))[p] == cfg[p]
  {
    hide Fix, CommaFree, FallbackSupported, Reloaded, Cleared, Effective;
    ReloadedAt(w, s, after, noEnv, p);
    FlagsAreNotFixed();
    FixTouches(w.locales, noEnv, p);
    EffectiveAtFlag(w, cfg, p);
    EffectiveAtFlag(w, Reloaded(w, after), p);
  }

  /** `Load` right after a successful `Set` does nothing exactly when the new `noEnv` needs no
      repair and holds no nil to fill in, and the views are in step. */
  lemma LoadAfterSet(w: Setup, s: State, input: Table, outcome: Outcome)
    requires Sound(w, s) && TypedLeaves(w, input) && s.customDefaults.None?
    requires SetStep(w, s, input, Accept).error.None?
    ensures var after := SetStep(w, s, input, Accept).state;
      && Sound(w, after) && HasFixedSettings(after.noEnv)
      && (Quiet(after, LoadStep(w, after, outcome)) <==>
          && Main(Fix(w.locales, after.noEnv)) == Main(after.noEnv)
          && NilIsDefault(w, Main(after.noEnv))
          && Coherent(w, after))
  {
    hide Effective, Fix, Reloaded, LoadStep, SetStep, Prepared, SetupOk, NilIsDefault, NilsExplained, RemoveOverrides;
    hide Quiet, Coherent, SetCommit, TypedLeaves, Settled, TypedState;
    SetSuccess(w, s, input, Accept);
    SetKeepsSound(w, s, input, Accept);
    var cfg := Prepared(w, s.config, input);
    RemovedFlags(w, cfg, s.noEnv);
    LoadAfterCommit(w, s, cfg, RemoveOverrides(w, cfg, s.noEnv), outcome);
  }

  lemma RemovedFlags(w: Setup, cfg: Table, base: Table)
    requires SetupOk(w)
    ensures forall p :: p in cfg && IsFlag(p) ==> RemoveOverrides(w, cfg, base)[p] == cfg[p]
  {}

  lemma LoadAfterCommit(w: Setup, s: State, cfg: Table, noEnv: Table, outcome: Outcome)
    requires Sound(w, s) && s.customDefaults.None? && Full(w, cfg) && Full(w, noEnv)
    requires Effective(w, cfg) == cfg && NilsExplained(w, cfg)
    requires forall p :: p in cfg && IsFlag(p) ==> noEnv[p] == cfg[p]
    requires Sound(w, SetCommit(s, cfg, noEnv))
    ensures var after := SetCommit(s, cfg, noEnv);
      && HasFixedSettings(after.noEnv)
      && (Quiet(after, LoadStep(w, after, outcome)) <==>
          && Main(Fix(w.locales, after.noEnv)) == Main(after.noEnv)
          && NilIsDefault(w, Main(after.noEnv))
          && Coherent(w, after))
  {
    hide Effective, Fix, Reloaded, LoadStep, SetupOk, NilIsDefault, NilsExplained, Main;
    var after := SetCommit(s, cfg, noEnv);
    assert Main(after.noEnv) == Main(noEnv) by { if s.readOnlyFlags { MixedFull(w, noEnv, s.noEnv); } }
    FullHasFixedSettings(w, noEnv);
    FullHasFixedSettings(w, after.noEnv);
    FixReadsMainOnly(w, after.noEnv, noEnv);
    ReloadedIsSameIff(w, s, after, noEnv);
    var r := Reloaded(w, after);
    if Main(r) == Main(after.noEnv) {
      EffectiveReadsMainOnly(w, r, after.noEnv);
      if Coherent(w, after) {
        CommitIsInStep(w, s, cfg, noEnv);
        LoadInStepIsQuiet(w, after, outcome);
      }
    }
    if Quiet(after, LoadStep(w, after, outcome)) { LoadSuccess(w, after, outcome); }
  }

  lemma CommitIsInStep(w: Setup, s: State, cfg: Table, noEnv: Table)
    requires Sound(w, s) && s.customDefaults.None? && Full(w, cfg) && Full(w, noEnv)
    requires Effective(w, cfg) == cfg && NilsExplained(w, cfg)
    requires forall p :: p in cfg && IsFlag(p) ==> noEnv[p] == cfg[p]
    requires var after := SetCommit(s, cfg, noEnv);
      && Sound(w, after) && Main(Reloaded(w, after)) == Main(after.noEnv)
      && Main(Effective(w, Reloaded(w, after))) == Main(after.config)
    ensures InStep(w, SetCommit(s, cfg, noEnv))
  {
    hide Effective, Fix, Reloaded, SetupOk, NilsExplained, Main, Settled;
    var after := SetCommit(s, cfg, noEnv);
    if !s.readOnlyFlags {
      var e := Effective(w, Reloaded(w, after));
      forall p | p in cfg ensures e[p] == cfg[p] {
        if IsFlag(p) {
          FlagsComeBack(w, s, after, cfg, noEnv, p);
        } else {
          MainAt(e, cfg, p);
        }
      }
    }
  }

  /** For a store whose views are in step: exactly when, besides, the `Set` leaves the unwritten
      settings alone. */
  lemma LoadAfterAgreeingSet(w: Setup, s: State, input: Table, outcome: Outcome)
    requires Inv(w, s) && OnlyParsedKindsFail(w) && TypedLeaves(w, input) && s.customDefaults.None?
    requires SetStep(w, s, input, Accept).error.None?
    ensures var after := SetStep(w, s, input, Accept).state;
      && Sound(w, after) && HasFixedSettings(after.noEnv)
      && (Quiet(after, LoadStep(w, after, outcome)) <==>
          && Main(Fix(w.locales, after.noEnv)) == Main(after.noEnv)
          && NilIsDefault(w, Main(after.noEnv))
          && AgreeOnUnwritten(w, s.config, Prepared(w, s.config, input)))
  {
    hide Effective, Fix, Reloaded, LoadStep, SetStep, Prepared, SetupOk, NilIsDefault, Coherent, Sound;
    hide AgreeOnUnwritten;
    LoadAfterSet(w, s, input, outcome);
    SetCoherentIff(w, s, input);
  }

  /** The same in every state reached after the first successful load, where nil settings of
      `noEnv` are nil by default. */
  lemma LoadAfterSetInEveryRun(w: Setup, start: State, first: Outcome, ops: seq<Op>, input: Table, outcome: Outcome)
    requires SetupOk(w) && NilWritesComeOut(w) && TypedState(w, start) && TypedOps(w, ops)
    requires TypedLeaves(w, input) && LoadStep(w, start, first).error.None?
    ensures Inv(w, LoadStep(w, start, first).state)
    ensures var s := Run(w, LoadStep(w, start, first).state, ops);
      SetStep(w, s, input, Accept).error.None? ==>
        var after := SetStep(w, s, input, Accept).state;
        && Sound(w, after) && HasFixedSettings(after.noEnv)
        && (Quiet(after, LoadStep(w, after, outcome)) <==>
            Main(Fix(w.locales, after.noEnv)) == Main(after.noEnv) && Coherent(w, after))
  {
    hide Fix, Effective, Reloaded, SetStep, HasFixedSettings, Main, NilWritesComeOut, NilIsDefault, Coherent;
    LoadEstablishesInvariant(w, start, first);
    LoadSuccess(w, start, first);
    ReloadedNils(w, start);
    RunKeepsNilsDefault(w, LoadStep(w, start, first).state, ops);
    var s := Run(w, LoadStep(w, start, first).state, ops);
    if SetStep(w, s, input, Accept).error.None? {
      LoadAfterSet(w, s, input, outcome);
      NilsStayDefault(w, s, OpSet(input, Accept));
      MainNils(w, SetStep(w, s, input, Accept).state.noEnv);
    }
  }

  lemma MainNils(w: Setup, m: Table)
    requires SetupOk(w) && NilIsDefault(w, m)
    ensures NilIsDefault(w, Main(m))
  {}

  // -------------------------------------------------------------------------
  // Setting what is already there
  // -------------------------------------------------------------------------

  lemma PreparedIsEffective(w: Setup, current: Table, input: Table)
    requires SetupOk(w) && Full(w, current) && TypedLeaves(w, input)
    ensures var z := Unmask(current, Fill(w, input));
      Full(w, z) && Prepared(w, current, input) == Effective(w, z)
  {
    hide Effective, Unmask, Fix;
    UnmaskFull(w, current, Fill(w, input));
  }

  /** Input tables that end up, setting by setting, as the current configuration. */
  lemma SameOutsideTheEnvironment(w: Setup, current: Table, input: Table, goal: Table)
    requires SetupOk(w) && Full(w, current) && Full(w, goal) && TypedLeaves(w, input)
    requires Effective(w, goal) == goal
    requires forall p :: p in goal && p !in w.sets ==>
      p in Unmask(current, Fill(w, input)) && Unmask(current, Fill(w, input))[p] == goal[p]
    ensures Prepared(w, current, input) == goal
  {
    hide Prepared, Unmask, Fill, Fix, SetupOk, Effective, TypedLeaves;
    PreparedIsEffective(w, current, input);
    var z := Unmask(current, Fill(w, input));
    EffectiveIsFixOfApplied(w, z);
    EffectiveIsFixOfApplied(w, goal);
    EnvironmentHides(w, z, goal);
  }

  lemma EnvironmentHides(w: Setup, a: Table, b: Table)
    requires a.Keys == b.Keys && forall p :: p in b && p !in w.sets ==> a[p] == b[p]
    ensures ApplyEnv(w, a) == ApplyEnv(w, b)
  {}

  lemma FillAt(w: Setup, m: Table, p: Path)
    requires SetupOk(w) && p in m && p in w.kinds
    ensures p in w.defaults && p in Fill(w, m)
    ensures Fill(w, m)[p] == if m[p].IsNil() then w.defaults[p] else m[p]
  {
    hide TypedLeaves, CommaFree, FallbackSupported;
  }

  lemma MaskedComesBack(w: Setup, current: Table, shown: Table, p: Path)
    requires SetupOk(w) && Full(w, current) && NilsExplained(w, current) && Masked(current, shown)
    requires p in current && p !in w.sets
    ensures p in Unmask(current, Fill(w, shown)) && Unmask(current, Fill(w, shown))[p] == current[p]
  {
    hide SetupOk, UnmaskLeaf, Fill;
    assert MaskedLeaf(p, current[p], shown[p]);
    UnmaskMaskedLeaf(p, current[p], shown[p]);
    UnmaskMaskedLeaf(p, current[p], current[p]);
    FillAt(w, shown, p);
  }

  lemma PublishedPassesThrough(w: Setup, current: Table, published: Table, p: Path)
    requires SetupOk(w) && Full(w, published) && NilsExplained(w, published) && NoPlaceholders(published)
    requires p in published && p !in w.sets
    ensures p in Unmask(current, Fill(w, published)) && Unmask(current, Fill(w, published))[p] == published[p]
  {
    hide SetupOk, Unmask;
    assert Fill(w, published)[p] == published[p];
    UnmaskLeavesTheRest(current, Fill(w, published), p);
  }

  /** `Set` on the current configuration with any part of its secrets hidden behind the
      placeholder changes nothing and tells nobody. */
  lemma SetOfMaskedChangesNothing(w: Setup, s: State, shown: Table)
    requires Sound(w, s) && !s.readOnly && Masked(s.config, shown) && TypedLeaves(w, shown)
    ensures var r := SetStep(w, s, shown, Accept);
      r.error.None? && r.state.config == s.config && r.notice.None?
  {
    hide Unmask, Fill, Fix, Effective, Prepared, RemoveOverrides, SetupOk, Masked;
    forall p | p in s.config && p !in w.sets
      ensures p in Unmask(s.config, Fill(w, shown)) && Unmask(s.config, Fill(w, shown))[p] == s.config[p]
    {
      MaskedComesBack(w, s.config, shown, p);
    }
    SameOutsideTheEnvironment(w, s.config, shown, s.config);
    MixedWithItself(s.config);
    assert SetStep(w, s, shown, Accept)
        == SetFinish(w, s, s.config, RemoveOverrides(w, s.config, s.noEnv), Accept);
  }

  lemma MixedWithItself(m: Table)
    ensures Main(m) + Flags(m) == m
  {}

  /** A configuration some store published, without placeholders, is taken over unchanged
      by any other store of the process. */
  lemma SetOfPublished(w: Setup, s: State, published: Table)
    requires Sound(w, s) && !s.readOnly
    requires Publishable(w, published) && NoPlaceholders(published)
    ensures TypedLeaves(w, published)
    ensures var r := SetStep(w, s, published, Accept);
      r.error.None? && Main(r.state.config) == Main(published)
  {
    hide Effective, Fix, Prepared, RemoveOverrides, SetupOk, NoPlaceholders;
    PublishedIsPrepared(w, s.config, published);
    SetStepOfPrepared(w, s, published);
    MixedFull(w, published, s.config);
  }

  // -------------------------------------------------------------------------
  // Feature flags
  // -------------------------------------------------------------------------

  ghost predicate WithoutFlags(stored: Stored) {
    stored.Saved? ==> Flags(stored.table) == map[]
  }

  lemma SetLeavesFlags(w: Setup, s: State, input: Table, outcome: Outcome)
    requires Sound(w, s) && TypedLeaves(w, input) && s.readOnlyFlags
    ensures var r := SetStep(w, s, input, outcome);
      && Flags(r.state.config) == Flags(s.config) && Flags(r.state.noEnv) == Flags(s.noEnv)
      && r.state.readOnlyFlags
      && (if r.wrote then r.state.stored.Saved? && WithoutFlags(r.state.stored) else r.state.stored == s.stored)
  {
    if SetStep(w, s, input, outcome).error.None? {
      var cfg := Prepared(w, s.config, input);
      var noEnv := RemoveOverrides(w, cfg, s.noEnv);
      SetSuccess(w, s, input, outcome);
      MixedFull(w, cfg, s.config);
      MixedFull(w, noEnv, s.noEnv);
      CommitLeavesFlags(w, s, cfg, noEnv);
    } else {
      FailedSetDoesNothing(w, s, input, outcome);
    }
  }

  lemma CommitLeavesFlags(w: Setup, s: State, cfg: Table, noEnv: Table)
    requires s.readOnlyFlags && w.valid(Main(cfg))
    requires Flags(Main(cfg) + Flags(s.config)) == Flags(s.config)
    requires Flags(Main(noEnv) + Flags(s.noEnv)) == Flags(s.noEnv)
    ensures var r := SetFinish(w, s, cfg, noEnv, Accept);
      && Flags(r.state.config) == Flags(s.config) && Flags(r.state.noEnv) == Flags(s.noEnv)
      && r.state.readOnlyFlags && r.wrote && r.state.stored.Saved? && WithoutFlags(r.state.stored)
  {
    assert Flags(Main(noEnv)) == map[];
  }

  lemma FailedSetDoesNothing(w: Setup, s: State, input: Table, outcome: Outcome)
    requires Sound(w, s) && TypedLeaves(w, input) && SetStep(w, s, input, outcome).error.Some?
    ensures SetStep(w, s, input, outcome).state == s && !SetStep(w, s, input, outcome).wrote
  {
    hide Prepared, RemoveOverrides, Effective, Settled, TypedState, SetupOk, Full, TypedLeaves, Main;
  }

  lemma LoadWritesNoFlags(w: Setup, s: State, outcome: Outcome)
    requires SetupOk(w) && TypedState(w, s) && s.readOnlyFlags
    ensures var r := LoadStep(w, s, outcome);
      && r.state.readOnlyFlags
      && (if r.wrote then r.state.stored.Saved? && WithoutFlags(r.state.stored) else r.state.stored == s.stored)
  {
    hide Effective, Reloaded, TypedState, SetupOk, LoadFinish, Main, Flags;
    if s.stored.Saved? || s.stored.Missing? {
      FinishWritesNoFlags(w, s, Effective(w, Reloaded(w, s)), Reloaded(w, s), outcome);
    }
  }

  lemma FinishWritesNoFlags(w: Setup, s: State, cfg: Table, noEnv: Table, outcome: Outcome)
    requires s.readOnlyFlags
    ensures var r := LoadFinish(w, s, cfg, noEnv, outcome);
      && r.state.readOnlyFlags
      && (if r.wrote then r.state.stored.Saved? && WithoutFlags(r.state.stored) else r.state.stored == s.stored)
  {
    assert Flags(Main(noEnv)) == map[];
  }

  /** While flags are read-only, `Set` leaves those of both views alone, and no call writes
      any to the backing store. */
  lemma ReadOnlyFlagsStay(w: Setup, s: State, op: Op)
    requires Sound(w, s) && TypedOp(w, op) && s.readOnlyFlags
    requires !op.OpExternal? && op != OpReadOnlyFlags(false)
    ensures var r := DoOp(w, s, op);
      && r.state.readOnlyFlags
      && (op.OpSet? ==> Flags(r.state.config) == Flags(s.config) && Flags(r.state.noEnv) == Flags(s.noEnv))
      && (if r.wrote then r.state.stored.Saved? && WithoutFlags(r.state.stored) else r.state.stored == s.stored)
  {
    match op
    case OpSet(input, outcome) => SetLeavesFlags(w, s, input, outcome);
    case OpLoad(outcome) => LoadWritesNoFlags(w, s, outcome);
    case OpReadOnlyFlags(_) =>
  }

  /** Calls that neither lift the protection of the flags nor bypass the store. */
  ghost predicate Protected(ops: seq<Op>) {
    forall i :: 0 <= i < |ops| ==> !ops[i].OpExternal? && ops[i] != OpReadOnlyFlags(false)
  }

  /** So in any such run what is stored is what was stored at the start, or holds no flags. */
  lemma {:induction false} RunPersistsNoFlags(w: Setup, s: State, ops: seq<Op>)
    requires Sound(w, s) && TypedOps(w, ops) && Protected(ops) && s.readOnlyFlags
    ensures var after := Run(w, s, ops);
      after.readOnlyFlags && (after.stored == s.stored || WithoutFlags(after.stored))
    decreases |ops|
  {
    if ops != [] {
      var front, last := ops[..|ops| - 1], ops[|ops| - 1];
      RunPersistsNoFlags(w, s, front);
      var before := Run(w, s, front);
      ReadOnlyFlagsStay(w, before, last);
    }
  }
}

/** Where the value of each setting comes from after `Set` and after `Load`, when the calls
    succeed, and that no placeholder gets through. */
module StoreValues {
  import opened Text
  import opened ConfigTree
  import opened FixConfig
  import opened Desanitize
  import opened StoreSpec
  import opened StoreTheorems
  import opened StoreRuns
  import opened StoreLaws

  // -------------------------------------------------------------------------
  // Which layer wins
  // -------------------------------------------------------------------------

  /** What a table says about a setting, unless it is missing or nil there. */
  function Given(m: Table, p: Path): Option<Scalar> {
    if p in m && !m[p].IsNil() then Some(m[p]) else None
  }

  function Or(x: Option<Scalar>, y: Scalar): Scalar {
    if x.Some? then x.value else y
  }

  /** `Set`: the environment, then what was submitted, with secrets put back, then the default. */
  function ChosenAt(w: Setup, current: Table, input: Table, p: Path): Scalar
    requires p in w.defaults && p in current
  {
    if p in w.sets then w.sets[p] else UnmaskLeaf(p, current[p], Or(Given(input, p), w.defaults[p]))
  }

  function Chosen(w: Setup, current: Table, input: Table): Table
    requires w.kinds.Keys == w.defaults.Keys == current.Keys
  {
    map p | p in w.kinds :: ChosenAt(w, current, input, p)
  }

  /** `Load`: what is stored, then the custom defaults, then the default; a site URL that nobody
      mentions is empty. */
  function FoundAt(w: Setup, s: State, p: Path): Scalar
    requires p in w.defaults
  {
    var custom := if s.customDefaults.Some? then s.customDefaults.value else map[];
    if Given(Decoded(w, s.stored), p).Some? then Given(Decoded(w, s.stored), p).value
    else if Given(custom, p).Some? then Given(custom, p).value
    else if p == SITE_URL then SString("")
    else w.defaults[p]
  }

  function Found(w: Setup, s: State): Table
    requires w.kinds.Keys == w.defaults.Keys
  {
    map p | p in w.kinds :: FoundAt(w, s, p)
  }

  /** The environment over a configuration. */
  function Overridden(w: Setup, m: Table): Table {
    map p | p in m :: if p in w.sets then w.sets[p] else m[p]
  }

  /** The settings that are repaired. */
  const REPAIRED := FIXED_PATHS - {DRIVER}

  lemma FillIs(w: Setup, m: Table, p: Path)
    requires SetupOk(w) && TypedLeaves(w, m) && p in w.kinds
    ensures p in w.defaults && p in Fill(w, m) && Fill(w, m)[p] == Or(Given(m, p), w.defaults[p])
  {
    hide TypedLeaves, CommaFree, FallbackSupported;
    if p in m { FillAt(w, m, p); }
  }

  lemma ChosenIs(w: Setup, current: Table, input: Table)
    requires SetupOk(w) && Full(w, current) && TypedLeaves(w, input)
    ensures w.kinds.Keys == w.defaults.Keys == current.Keys
    ensures Full(w, Chosen(w, current, input)) && HasFixedSettings(Chosen(w, current, input))
    ensures ApplyEnv(w, Unmask(current, Fill(w, input))) == Chosen(w, current, input)
  {
    hide Fill, Unmask, ApplyEnv, ChosenAt, CommaFree, FallbackSupported, HasFixedSettings;
    FilledIsFull(w, input);
    var unmasked := Unmask(current, Fill(w, input));
    UnmaskFull(w, current, Fill(w, input));
    EffectiveIsFixOfApplied(w, unmasked);
    forall p | p in w.kinds ensures At(ApplyEnv(w, unmasked), p) == Some(Chosen(w, current, input)[p]) {
      ChosenAtIs(w, current, input, p);
    }
    SameEntries(ApplyEnv(w, unmasked), Chosen(w, current, input));
  }

  lemma SameEntries(a: Table, b: Table)
    requires a.Keys == b.Keys && forall p :: p in b ==> At(a, p) == Some(b[p])
    ensures a == b
  {
    forall p | p in b ensures a[p] == b[p] {
      assert At(a, p) == Some(b[p]);
    }
  }

  lemma ChosenAtIs(w: Setup, current: Table, input: Table, p: Path)
    requires SetupOk(w) && Full(w, current) && TypedLeaves(w, input) && p in w.kinds
    ensures p in w.defaults && p in current
    ensures At(ApplyEnv(w, Unmask(current, Fill(w, input))), p) == Some(ChosenAt(w, current, input, p))
  {
    hide UnmaskLeaf, Fill, CommaFree, FallbackSupported, TypedLeaves, Given, Or;
    FillIs(w, input, p);
  }

  /** The configuration a `Set` arrives at is the repaired table of the values that win. */
  lemma PreparedIsChosen(w: Setup, current: Table, input: Table)
    requires SetupOk(w) && Full(w, current) && TypedLeaves(w, input)
    ensures w.kinds.Keys == w.defaults.Keys == current.Keys && HasFixedSettings(Chosen(w, current, input))
    ensures Prepared(w, current, input) == Fix(w.locales, Chosen(w, current, input))
  {
    hide Fix, Fill, Unmask, ApplyEnv, Chosen, CommaFree, FallbackSupported, HasFixedSettings;
    ChosenIs(w, current, input);
    FilledIsFull(w, input);
    UnmaskFull(w, current, Fill(w, input));
    EffectiveIsFixOfApplied(w, Unmask(current, Fill(w, input)));
  }

  lemma FixElsewhere(locales: set<string>, m: Table, p: Path)
    requires HasFixedSettings(m) && p !in REPAIRED
    ensures At(Fix(locales, m), p) == At(m, p)
  {
    AfterFix(locales, m);
  }

  lemma WithFlagsAt(s: State, m: Table, flags: Table, p: Path)
    ensures At(WithFlagsOf(s, m, flags), p) == if s.readOnlyFlags && IsFlag(p) then At(flags, p) else At(m, p)
  {}

  /** What is handed to the backing store: all but the flags while those are read-only. */
  ghost predicate IsStored(s: State, noEnv: Table, stored: Stored) {
    stored.Saved? && forall p :: At(stored.table, p) == if s.readOnlyFlags && IsFlag(p) then None else At(noEnv, p)
  }

  lemma StoredByCommit(s: State, m: Table, flags: Table)
    ensures IsStored(s, WithFlagsOf(s, m, flags), Saved(Cleared(s, m)))
    ensures IsStored(s, m, Saved(Cleared(s, m)))
  {}

  lemma RemovedAt(w: Setup, cfg: Table, base: Table, p: Path)
    requires cfg.Keys == base.Keys
    ensures At(RemoveOverrides(w, cfg, base), p) == if p in w.reported then At(base, p) else At(cfg, p)
  {}

  /** What `Set` publishes and keeps for itself, setting by setting: the repaired table of the
      winning values; without the environment, the old value where an override is reported, and
      that is stored. Flags stay while they are read-only, and are not stored. Outside the settings
      that are repaired it is the winning value itself. */
  lemma SetPublishesChosen(w: Setup, s: State, input: Table, p: Path)
    requires Sound(w, s) && TypedLeaves(w, input) && SetStep(w, s, input, Accept).error.None?
    ensures w.kinds.Keys == w.defaults.Keys == s.config.Keys && HasFixedSettings(Chosen(w, s.config, input))
    ensures var r, chosen := SetStep(w, s, input, Accept).state, Chosen(w, s.config, input);
      var kept := s.readOnlyFlags && IsFlag(p);
      && At(r.config, p) == (if kept then At(s.config, p) else At(Fix(w.locales, chosen), p))
      && At(r.noEnv, p) == (if kept || p in w.reported then At(s.noEnv, p) else At(Fix(w.locales, chosen), p))
      && (p !in REPAIRED ==> At(Fix(w.locales, chosen), p) == At(chosen, p))
      && IsStored(s, r.noEnv, r.stored)
  {
    hide Fix, Chosen, Prepared, SetupOk, Settled, TypedState, TypedLeaves, SetStep, RemoveOverrides, IsStored;
    hide Cleared;
    var cfg := Prepared(w, s.config, input);
    SetSuccess(w, s, input, Accept);
    PreparedIsChosen(w, s.config, input);
    RemovedAt(w, cfg, s.noEnv, p);
    WithFlagsAt(s, cfg, s.config, p);
    WithFlagsAt(s, RemoveOverrides(w, cfg, s.noEnv), s.noEnv, p);
    StoredByCommit(s, RemoveOverrides(w, cfg, s.noEnv), s.noEnv);
    if p !in REPAIRED { FixElsewhere(w.locales, Chosen(w, s.config, input), p); }
  }

  lemma FoundIs(w: Setup, s: State, p: Path)
    requires SetupOk(w) && TypedState(w, s) && p in w.kinds
    ensures p in w.defaults
    ensures At(Fill(w, WithSiteURL(w, Patched(w, s))), p) == Some(FoundAt(w, s, p))
  {
    hide CommaFree, FallbackSupported, Fill;
    assert SITE_URL in FIXED_PATHS;
    assert forall m: Table :: TypedLeaves(w, m) && SITE_URL in m ==> m[SITE_URL].SString?;
    FillIs(w, WithSiteURL(w, Patched(w, s)), p);
  }

  /** The configuration that `Load` puts together is the repaired table of what it has found. */
  lemma ReloadedIsFound(w: Setup, s: State)
    requires SetupOk(w) && TypedState(w, s)
    ensures w.kinds.Keys == w.defaults.Keys && HasFixedSettings(Found(w, s))
    ensures Reloaded(w, s) == Fix(w.locales, Found(w, s))
  {
    hide Fix, Fill, CommaFree, FallbackSupported, WithSiteURL, Patched, FoundAt, TypedState, HasFixedSettings;
    var filled := Fill(w, WithSiteURL(w, Patched(w, s)));
    FilledIsFull(w, WithSiteURL(w, Patched(w, s)));
    forall p | p in w.kinds ensures At(filled, p) == Some(Found(w, s)[p]) {
      FoundIs(w, s, p);
    }
    SameEntries(filled, Found(w, s));
    FullHasFixedSettings(w, filled);
  }

  /** What `Load` publishes and keeps for itself: the repaired table of what it has found, and the
      repaired table of the environment over that; the first is what it stores, if it writes.
      Outside the settings that are repaired it is the value of the environment, or else the one
      it has found. */
  lemma LoadPublishesFound(w: Setup, s: State, outcome: Outcome)
    requires SetupOk(w) && TypedState(w, s) && LoadStep(w, s, outcome).error.None?
    ensures w.kinds.Keys == w.defaults.Keys && HasFixedSettings(Found(w, s))
    ensures HasFixedSettings(Overridden(w, Fix(w.locales, Found(w, s))))
    ensures var r, found := LoadStep(w, s, outcome).state, Found(w, s);
      && r.noEnv == Fix(w.locales, found)
      && r.config == Fix(w.locales, Overridden(w, r.noEnv))
      && (if LoadStep(w, s, outcome).wrote then IsStored(s, r.noEnv, r.stored) else r.stored == s.stored)
      && forall p :: p in w.kinds && p !in REPAIRED ==>
           && At(r.noEnv, p) == At(found, p)
           && At(r.config, p) == (if p in w.sets then At(w.sets, p) else At(found, p))
  {
    hide Fix, Found, SetupOk, TypedState, LoadStep, HasFixedSettings, Reloaded, Main, Effective, IsStored;
    hide Cleared;
    LoadSuccess(w, s, outcome);
    StoredByCommit(s, Reloaded(w, s), map[]);
    ReloadedIsFound(w, s);
    var noEnv := Reloaded(w, s);
    EffectiveIsFixOfApplied(w, noEnv);
    assert ApplyEnv(w, noEnv) == Overridden(w, noEnv);
    forall p | p in w.kinds && p !in REPAIRED
      ensures At(noEnv, p) == At(Found(w, s), p)
      ensures At(Effective(w, noEnv), p) == if p in w.sets then At(w.sets, p) else At(Found(w, s), p)
    {
      FixElsewhere(w.locales, Found(w, s), p);
      FixElsewhere(w.locales, ApplyEnv(w, noEnv), p);
    }
  }

  // -------------------------------------------------------------------------
  // When a call succeeds
  // -------------------------------------------------------------------------

  /** Why a `Set` fails, if it does: the store is read-only, the repaired table of winning values is
      not valid, or the backing store does not take it. Only then it changes nothing and writes
      nothing. */
  lemma SetSucceedsIff(w: Setup, s: State, input: Table, outcome: Outcome)
    requires Sound(w, s) && TypedLeaves(w, input)
    ensures w.kinds.Keys == w.defaults.Keys == s.config.Keys && HasFixedSettings(Chosen(w, s.config, input))
    ensures SetStep(w, s, input, outcome).error ==
      if s.readOnly then Some(ReadOnlyStore)
      else if !w.valid(Main(Fix(w.locales, Chosen(w, s.config, input)))) then Some(InvalidConfig)
      else if outcome != Accept then Some(FailedToPersist)
      else None
    ensures var r := SetStep(w, s, input, outcome);
      && r.wrote == r.error.None?
      && (r.error.Some? ==> r.state == s && r.notice == None)
      && (r.error.None? ==>
            r.state == s.(config := r.state.config, noEnv := r.state.noEnv, stored := r.state.stored))
  {
    hide Fix, Chosen, Prepared, Settled, TypedState, SetupOk, TypedLeaves, Full, HasFixedSettings, RemoveOverrides;
    hide Main, WithFlagsOf, Cleared, Changed;
    PreparedIsChosen(w, s.config, input);
  }

  /** Two configurations are told apart by the settings that are compared: while flags are
      read-only, all but those. */
  ghost predicate SameCompared(s: State, a: Table, b: Table) {
    forall p :: (s.readOnlyFlags && IsFlag(p)) || At(a, p) == At(b, p)
  }

  lemma ChangedIff(s: State, cfg: Table)
    ensures Changed(s, cfg) <==> !SameCompared(s, s.config, cfg)
  {
    if s.readOnlyFlags {
      if SameCompared(s, s.config, cfg) {
        forall p | !IsFlag(p) ensures At(s.config, p) == At(cfg, p) {}
        MainByPaths(s.config, cfg);
      } else if Main(s.config) == Main(cfg) {
        forall p | !IsFlag(p) ensures At(s.config, p) == At(cfg, p) { MainAt(s.config, cfg, p); }
      }
    } else if SameCompared(s, s.config, cfg) {
      forall p ensures p in s.config <==> p in cfg { assert At(s.config, p) == At(cfg, p); }
      forall p | p in cfg ensures s.config[p] == cfg[p] { assert At(s.config, p) == At(cfg, p); }
      assert s.config == cfg;
    }
  }

  /** When a `Load` succeeds and whether it writes: what it reads can be read, the configuration it
      arrives at is valid, and a write that is due does not fail. A write is due on a writable
      store if something changed, or nothing was stored; one that is refused is let pass. The
      custom defaults are gone as soon as something could be read, whether or not it succeeds. */
  lemma LoadSucceedsIff(w: Setup, s: State, outcome: Outcome)
    requires SetupOk(w) && TypedState(w, s)
    ensures var r, cfg := LoadStep(w, s, outcome), Effective(w, Reloaded(w, s));
      var readable := s.stored.Saved? || s.stored.Missing?;
      var due := !s.readOnly && (s.stored.Missing? || !SameCompared(s, s.config, cfg));
      && (r.error.None? <==> readable && w.valid(Main(cfg)) && !(due && outcome == Fail))
      && (r.wrote <==> r.error.None? && due && outcome == Accept)
      && (r.error.Some? ==>
            (r.error.value ==
             if s.stored.Unreadable? then FailedToLoad
             else if s.stored.Corrupt? then BadJSON
             else if !w.valid(Main(cfg)) then InvalidConfig
             else FailedToPersist))
      && (r.notice.Some? <==> r.error.None? && !SameCompared(s, s.config, cfg))
      && (r.error.Some? ==> r.state == if readable then s.(customDefaults := None) else s)
      && (r.error.None? ==>
            r.state == s.(config := r.state.config, noEnv := r.state.noEnv, stored := r.state.stored,
                          customDefaults := None))
  {
    hide Effective, Reloaded, SetupOk, TypedState, Main, Changed, SameCompared, Cleared;
    ChangedIff(s, Effective(w, Reloaded(w, s)));
  }

  // -------------------------------------------------------------------------
  // A read-only store
  // -------------------------------------------------------------------------

  lemma ReadOnlyStep(w: Setup, s: State, op: Op)
    requires SetupOk(w) && TypedState(w, s) && Full(w, s.config) && Full(w, s.noEnv) && TypedOp(w, op) && s.readOnly
    ensures var r := DoOp(w, s, op);
      !r.wrote && r.state.readOnly && r.state.stored == if op.OpExternal? then op.stored else s.stored
  {
    hide Effective, Reloaded, SetupOk, TypedState, Full, Changed, TypedLeaves, Main, Prepared;
  }

  /** Whatever is called on it, a read-only store writes nothing: what its backing store holds
      changes only from outside. */
  lemma {:induction false} ReadOnlyNeverWrites(w: Setup, s: State, ops: seq<Op>)
    requires Sound(w, s) && TypedOps(w, ops) && s.readOnly
    ensures Run(w, s, ops).readOnly
    ensures Run(w, s, ops).stored == LastStored(s.stored, ops)
    decreases |ops|
  {
    hide DoOp, SetupOk, TypedState, Settled, Full, TypedOp;
    if ops != [] {
      var front, last := ops[..|ops| - 1], ops[|ops| - 1];
      ReadOnlyNeverWrites(w, s, front);
      ReadOnlyStep(w, Run(w, s, front), last);
    }
  }

  function LastStored(stored: Stored, ops: seq<Op>): Stored {
    if ops == [] then stored
    else if ops[|ops| - 1].OpExternal? then ops[|ops| - 1].stored
    else LastStored(stored, ops[..|ops| - 1])
  }

  // -------------------------------------------------------------------------
  // Placeholders
  // -------------------------------------------------------------------------

  const MASKED := MASKED_TEXTS + MASKED_LISTS + {PLUGINS}

  lemma MaskedAreElsewhere()
    ensures forall p :: p in MASKED ==> p !in FIXED_PATHS && !IsFlag(p)
    ensures forall p, x :: p !in MASKED ==> NoPlaceholderIn(p, x)
    ensures forall p, x, y :: p !in MASKED ==> Recoverable(p, x, y)
  {}

  /** There is something else behind the placeholder, if one was submitted. */
  ghost predicate RecoverableAt(w: Setup, current: Table, input: Table, p: Path) {
    p in current && p in w.defaults && Recoverable(p, current[p], Or(Given(input, p), w.defaults[p]))
  }

  ghost predicate CleanAt(m: Table, p: Path) {
    p in m && NoPlaceholderIn(p, m[p])
  }

  /** What `Set` publishes holds no placeholder, outside the settings that the environment writes,
      if and only if there is something else behind every placeholder that was submitted. */
  lemma SetPublishesNoPlaceholderIff(w: Setup, s: State, input: Table)
    requires Sound(w, s) && TypedLeaves(w, input) && SetStep(w, s, input, Accept).error.None?
    ensures (forall p :: p in w.kinds && p !in w.sets ==> CleanAt(SetStep(w, s, input, Accept).state.config, p))
       <==> (forall p :: p in w.kinds && p !in w.sets ==> RecoverableAt(w, s.config, input, p))
  {
    hide SetStep, SetupOk, Settled, Full, TypedLeaves, TypedState, CleanAt, RecoverableAt;
    forall p | p in w.kinds && p !in w.sets
      ensures CleanAt(SetStep(w, s, input, Accept).state.config, p) <==> RecoverableAt(w, s.config, input, p)
    {
      PlaceholderAt(w, s, input, p);
    }
  }

  lemma PlaceholderAt(w: Setup, s: State, input: Table, p: Path)
    requires Sound(w, s) && TypedLeaves(w, input) && SetStep(w, s, input, Accept).error.None?
    requires p in w.kinds && p !in w.sets
    ensures CleanAt(SetStep(w, s, input, Accept).state.config, p) <==> RecoverableAt(w, s.config, input, p)
  {
    hide SetStep, SetupOk, Settled, TypedLeaves, TypedState, Fix, HasFixedSettings, UnmaskLeaf;
    MaskedAreElsewhere();
    SetKeepsSound(w, s, input, Accept);
    SetPublishesChosen(w, s, input, p);
    if p in MASKED {
      RecoveredIff(s.config, map[p := Or(Given(input, p), w.defaults[p])], p);
    }
  }
}

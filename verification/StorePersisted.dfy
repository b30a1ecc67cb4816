/** What of the environment ends up in the backing store. */
module StorePersisted {
  import opened ConfigTree
  import opened FixConfig
  import opened Desanitize
  import opened StoreSpec
  import opened StoreTheorems
  import opened StoreLaws

  /** What `Set` is asked to take over: the input with defaults and secrets filled in. */
  function Submitted(w: Setup, current: Table, input: Table): (m: Table)
    requires SetupOk(w) && Full(w, current) && TypedLeaves(w, input)
    ensures Full(w, m) && HasFixedSettings(m)
  {
    UnmaskFull(w, current, Fill(w, input));
    FullHasFixedSettings(w, Unmask(current, Fill(w, input)));
    Unmask(current, Fill(w, input))
  }

  function Text(m: Table, p: Path): string {
    if HasText(m, p) then m[p].text else ""
  }

  /** The overridden driver makes the same of the directory as the submitted one. */
  predicate SameDirectory(w: Setup, m: Table) {
    var applied := ApplyEnv(w, m);
    FixDirectory(Text(applied, DRIVER), Text(m, DIRECTORY)) == FixDirectory(Text(m, DRIVER), Text(m, DIRECTORY))
  }

  /** The overridden client locale makes the same of the list as the submitted one. */
  predicate SameAvailable(w: Setup, m: Table) {
    var applied := ApplyEnv(w, m);
    FixAvailable(w.locales, Text(m, AVAILABLE), FixLocale(w.locales, Text(applied, CLIENT_LOCALE)))
    == FixAvailable(w.locales, Text(m, AVAILABLE), FixLocale(w.locales, Text(m, CLIENT_LOCALE)))
  }

  /** What a variable writes without being reported is, once repaired, what was submitted. */
  ghost predicate SameWrite(w: Setup, m: Table, p: Path)
    requires SetupOk(w) && Full(w, m) && p in m && p in w.sets
  {
    if p in FIXED_PATHS then
      FullHasFixedSettings(w, m);
      Effective(w, m)[p] == Fix(w.locales, m)[p]
    else w.sets[p] == m[p]
  }

  /** At `paths`, no override leaks: what is written is reported or agrees with what was
      submitted, and so do the repairs that read an overridden setting. */
  ghost predicate NothingLeaks(w: Setup, m: Table, paths: set<Path>)
    requires SetupOk(w) && Full(w, m)
  {
    && (forall p :: p in paths && p in m && p in w.sets && p !in w.reported ==> SameWrite(w, m, p))
    && (DIRECTORY in w.reported || DIRECTORY in w.sets || SameDirectory(w, m))
    && (AVAILABLE in w.reported || AVAILABLE in w.sets || SameAvailable(w, m))
  }

  /** A setting that is not written is touched by the environment only through the repairs. */
  lemma UnwrittenAt(w: Setup, m: Table, p: Path)
    requires SetupOk(w) && Full(w, m) && p in m && p !in w.sets
    ensures HasFixedSettings(m)
    ensures Effective(w, m)[p] == Fix(w.locales, m)[p] <==>
      (p == DIRECTORY ==> SameDirectory(w, m)) && (p == AVAILABLE ==> SameAvailable(w, m))
  {
    hide FixSiteURL, FixDirectory, FixLocale, FixAvailable, CommaFree, FallbackSupported;
    FullHasFixedSettings(w, m);
    EffectiveIsFixOfApplied(w, m);
  }

  /** Setting by setting. */
  lemma LeaksAt(w: Setup, m: Table, p: Path)
    requires SetupOk(w) && Full(w, m) && p in m
    ensures HasFixedSettings(m)
    ensures Effective(w, m)[p] == Fix(w.locales, m)[p] <==>
      if p in w.sets then SameWrite(w, m, p)
      else (p == DIRECTORY ==> SameDirectory(w, m)) && (p == AVAILABLE ==> SameAvailable(w, m))
  {
    FullHasFixedSettings(w, m);
    if p !in w.sets {
      UnwrittenAt(w, m, p);
    } else if p !in FIXED_PATHS {
      EffectiveIsFixOfApplied(w, m);
      FixTouches(w.locales, ApplyEnv(w, m), p);
      FixTouches(w.locales, m, p);
    }
  }

  /** What is left of a configuration once overrides are removed and flags are cleared. */
  function Remainder(w: Setup, s: State, m: Table, base: Table): Table {
    Cleared(s, RemoveOverrides(w, m, base))
  }

  lemma SameRemainderIff(w: Setup, s: State, a: Table, b: Table, base: Table)
    requires a.Keys == b.Keys == base.Keys
    ensures Remainder(w, s, a, base) == Remainder(w, s, b, base) <==>
      forall p :: p in Cleared(s, a).Keys && p !in w.reported ==> a[p] == b[p]
  {
    hide Cleared;
    var ra, rb := RemoveOverrides(w, a, base), RemoveOverrides(w, b, base);
    ClearedKeys(s, ra, a);
    ClearedKeys(s, rb, a);
    forall p | p in Cleared(s, a)
      ensures p in a && Cleared(s, ra)[p] == if p in w.reported then base[p] else a[p]
      ensures Cleared(s, rb)[p] == if p in w.reported then base[p] else b[p]
    {
      ClearedAt(s, a, p);
      ClearedAt(s, ra, p);
      ClearedAt(s, rb, p);
    }
    if Remainder(w, s, a, base) == Remainder(w, s, b, base) {
      forall p | p in Cleared(s, a).Keys && p !in w.reported ensures a[p] == b[p] {
        assert Cleared(s, ra)[p] == Cleared(s, rb)[p];
      }
    }
  }

  /** With and without the environment it is the same exactly if nothing leaks. */
  lemma SameWithoutEnvironmentIff(w: Setup, s: State, m: Table, base: Table)
    requires SetupOk(w) && Full(w, m) && Full(w, base)
    ensures HasFixedSettings(m)
    ensures (Remainder(w, s, Effective(w, m), base) == Remainder(w, s, Fix(w.locales, m), base))
      <==> NothingLeaks(w, m, Cleared(s, m).Keys)
  {
    hide Effective, Fix, NothingLeaks, Remainder, CommaFree, FallbackSupported;
    FullHasFixedSettings(w, m);
    FixFull(w, m);
    SameRemainderIff(w, s, Effective(w, m), Fix(w.locales, m), base);
    ClearedKeys(s, Effective(w, m), m);
    FixedAreCleared(w, s, m);
    SameOutsideIff(w, m, Cleared(s, m).Keys);
  }

  lemma FixedAreCleared(w: Setup, s: State, m: Table)
    requires SetupOk(w) && Full(w, m)
    ensures DIRECTORY in Cleared(s, m) && AVAILABLE in Cleared(s, m) && Cleared(s, m).Keys <= m.Keys
  {
    FullHasFixedSettings(w, m);
    FlagsAreNotFixed();
    assert DIRECTORY in FIXED_PATHS && AVAILABLE in FIXED_PATHS;
  }

  lemma ClearedKeys(t: State, a: Table, b: Table)
    requires a.Keys == b.Keys
    ensures Cleared(t, a).Keys == Cleared(t, b).Keys
  {}

  lemma ClearedAt(t: State, m: Table, p: Path)
    requires p in Cleared(t, m)
    ensures p in m && Cleared(t, m)[p] == m[p]
  {}

  lemma SameOutsideIff(w: Setup, m: Table, paths: set<Path>)
    requires SetupOk(w) && Full(w, m) && paths <= m.Keys && DIRECTORY in paths && AVAILABLE in paths
    ensures HasFixedSettings(m)
    ensures (forall p :: p in paths && p !in w.reported ==> Effective(w, m)[p] == Fix(w.locales, m)[p])
      <==> NothingLeaks(w, m, paths)
  {
    hide Effective, Fix, SameDirectory, SameAvailable, SameWrite, CommaFree, FallbackSupported, SetupOk;
    FullHasFixedSettings(w, m);
    forall p | p in paths
      ensures Effective(w, m)[p] == Fix(w.locales, m)[p] <==>
        if p in w.sets then SameWrite(w, m, p)
        else (p == DIRECTORY ==> SameDirectory(w, m)) && (p == AVAILABLE ==> SameAvailable(w, m))
    {
      LeaksAt(w, m, p);
    }
  }

  /** What a successful `Set` persists is what it would persist of the same submission in an
      empty environment, overridden settings keeping their old value, exactly if nothing leaks. */
  lemma PersistedIsFreeIff(w: Setup, s: State, input: Table)
    requires Sound(w, s) && TypedLeaves(w, input) && SetStep(w, s, input, Accept).error.None?
    ensures var m := Submitted(w, s.config, input);
      var stored := SetStep(w, s, input, Accept).state.stored;
      stored == Saved(Remainder(w, s, Fix(w.locales, m), s.noEnv)) <==> NothingLeaks(w, m, Cleared(s, m).Keys)
  {
    hide Effective, Fix, NothingLeaks, SetupOk, Unmask, Fill, Cleared, RemoveOverrides, Prepared;
    SetSuccess(w, s, input, Accept);
    var m := Submitted(w, s.config, input);
    PreparedIsEffective(w, s.config, input);
    SameWithoutEnvironmentIff(w, s, m, s.noEnv);
  }

  /** No submission leaks anything if all that is written is reported, and a repair that reads an
      overridden setting has its result overridden, too. */
  lemma NothingEverLeaks(w: Setup, m: Table, paths: set<Path>)
    requires SetupOk(w) && Full(w, m) && w.sets.Keys <= w.reported
    requires DRIVER in w.sets ==> DIRECTORY in w.reported
    requires CLIENT_LOCALE in w.sets ==> AVAILABLE in w.reported
    ensures NothingLeaks(w, m, paths)
  {
    hide FixDirectory, FixLocale, FixAvailable, CommaFree, FallbackSupported;
  }

  // -------------------------------------------------------------------------
  // The two ways it fails
  // -------------------------------------------------------------------------

  /** What is written without being reported is persisted, whatever was submitted. */
  lemma UnreportedIsPersisted(w: Setup, s: State, input: Table, p: Path)
    requires Sound(w, s) && TypedLeaves(w, input) && SetStep(w, s, input, Accept).error.None?
    requires p in w.sets && p !in w.reported && p !in FIXED_PATHS && !IsFlag(p)
    ensures var after := SetStep(w, s, input, Accept).state;
      && p in after.noEnv && after.noEnv[p] == w.sets[p]
      && after.stored.Saved? && p in after.stored.table && after.stored.table[p] == w.sets[p]
  {
    hide Effective, Fix, Prepared, SetStep, CommaFree, FallbackSupported;
    SetSuccess(w, s, input, Accept);
    var cfg := Prepared(w, s.config, input);
    EffectiveIsFixOfApplied(w, cfg);
    FixTouches(w.locales, ApplyEnv(w, cfg), p);
    CommitAt(s, cfg, RemoveOverrides(w, cfg, s.noEnv), p);
  }

  /** So is a repair that an override causes: the overridden client locale joins the list. */
  lemma RepairIsPersisted(w: Setup, s: State, input: Table, client: string)
    requires Sound(w, s) && TypedLeaves(w, input) && SetStep(w, s, input, Accept).error.None?
    requires CLIENT_LOCALE in w.sets && w.sets[CLIENT_LOCALE] == SString(client)
    requires AVAILABLE !in w.sets && AVAILABLE !in w.reported
    ensures var m, after := Submitted(w, s.config, input), SetStep(w, s, input, Accept).state;
      AVAILABLE in after.noEnv && after.noEnv[AVAILABLE] ==
        SString(FixAvailable(w.locales, m[AVAILABLE].text, FixLocale(w.locales, client)))
  {
    hide Unmask, Fill, Prepared, SetStep, FixSiteURL, FixDirectory, FixLocale, FixAvailable;
    hide CommaFree, FallbackSupported;
    SetSuccess(w, s, input, Accept);
    var m, cfg := Submitted(w, s.config, input), Prepared(w, s.config, input);
    PreparedIsEffective(w, s.config, input);
    EffectiveIsFixOfApplied(w, m);
    assert AVAILABLE in FIXED_PATHS;
    FlagsAreNotFixed();
    CommitAt(s, cfg, RemoveOverrides(w, cfg, s.noEnv), AVAILABLE);
  }
}

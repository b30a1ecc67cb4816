/** What every run of the store keeps. */
module StoreTheorems {
  import opened ConfigTree
  import opened FixConfig
  import opened Desanitize
  import opened StoreSpec

  // -------------------------------------------------------------------------
  // Applying the environment and repairing
  // -------------------------------------------------------------------------

  /** Applying the environment and repairing, twice, is the same as once: the repairs
      survive the overrides being written over them again. */
  lemma EffectiveTwice(w: Setup, m: Table)
    requires SetupOk(w) && Full(w, m)
    ensures Effective(w, Effective(w, m)) == Effective(w, m)
  {
    EffectiveIsFixOfApplied(w, m);
    EffectiveIsFixOfApplied(w, Effective(w, m));
    var applied := ApplyEnv(w, m);
    ApplyEnvOverwrites(w, m, Effective(w, m));
    FixOverwriteFix(w.locales, applied, OverwriteOf(w, applied));
  }

  lemma EffectiveIsFixOfApplied(w: Setup, m: Table)
    requires SetupOk(w) && Full(w, m)
    ensures CommaFree(w.locales) && FallbackSupported(w.locales)
    ensures Full(w, ApplyEnv(w, m)) && HasFixedSettings(ApplyEnv(w, m))
    ensures Effective(w, m) == Fix(w.locales, ApplyEnv(w, m))
  {
    FullHasFixedSettings(w, ApplyEnv(w, m));
  }

  ghost function OverwriteOf(w: Setup, applied: Table): Table {
    Only(applied, w.sets.Keys)
  }

  lemma ApplyEnvOverwrites(w: Setup, m: Table, later: Table)
    requires later.Keys == m.Keys
    ensures ApplyEnv(w, later) == later + OverwriteOf(w, ApplyEnv(w, m))
  {}

  /** Overrides that were subtracted come back when the environment is applied. */
  lemma RemovalIsUndone(w: Setup, cfg: Table, base: Table)
    requires ReportedAreWritten(w)
    ensures ApplyEnv(w, RemoveOverrides(w, cfg, base)) == ApplyEnv(w, cfg)
  {}

  lemma FlagsAreNotFixed()
    ensures forall p :: p in FIXED_PATHS ==> !IsFlag(p)
  {}

  lemma MainAt(a: Table, b: Table, p: Path)
    requires Main(a) == Main(b) && !IsFlag(p)
    ensures At(a, p) == At(b, p)
  {
    assert p in a <==> p in Main(a);
    assert p in b <==> p in Main(b);
    if p in a {
      assert Main(a)[p] == Main(b)[p];
    }
  }

  lemma MainByPaths(a: Table, b: Table)
    requires forall p :: !IsFlag(p) ==> At(a, p) == At(b, p)
    ensures Main(a) == Main(b)
  {
    forall p ensures p in Main(a) <==> p in Main(b) { assert !IsFlag(p) ==> At(a, p) == At(b, p); }
    forall p | p in Main(a) ensures Main(a)[p] == Main(b)[p] { assert At(a, p) == At(b, p); }
  }

  lemma ApplyEnvReadsMainOnly(w: Setup, a: Table, b: Table)
    requires Main(a) == Main(b)
    ensures Main(ApplyEnv(w, a)) == Main(ApplyEnv(w, b))
  {
    var ea, eb := ApplyEnv(w, a), ApplyEnv(w, b);
    forall p | !IsFlag(p) ensures At(ea, p) == At(eb, p) {
      MainAt(a, b, p);
    }
    MainByPaths(ea, eb);
  }

  /** At one setting the repairs read the settings they name and the setting itself. */
  lemma FixAt(locales: set<string>, a: Table, b: Table, p: Path)
    requires HasFixedSettings(a) && HasFixedSettings(b) && p in a && p in b && a[p] == b[p]
    requires forall q :: q in FIXED_PATHS ==> a[q] == b[q]
    ensures Fix(locales, a)[p] == Fix(locales, b)[p]
  {
    hide FixSiteURL, FixDirectory, FixLocale, FixAvailable;
  }

  lemma FixReadsMainOnly(w: Setup, a: Table, b: Table)
    requires HasFixedSettings(a) && HasFixedSettings(b) && Main(a) == Main(b)
    ensures Main(Fix(w.locales, a)) == Main(Fix(w.locales, b))
  {
    FlagsAreNotFixed();
    forall p | p in FIXED_PATHS ensures p in a && p in b && a[p] == b[p] {
      MainAt(a, b, p);
    }
    var fa, fb := Fix(w.locales, a), Fix(w.locales, b);
    hide Main, Fix;
    forall p | !IsFlag(p) ensures At(fa, p) == At(fb, p) {
      MainAt(a, b, p);
      if p in a { FixAt(w.locales, a, b, p); }
    }
    MainByPaths(fa, fb);
  }

  lemma EffectiveReadsMainOnly(w: Setup, a: Table, b: Table)
    requires SetupOk(w) && Full(w, a) && Full(w, b) && Main(a) == Main(b)
    ensures Main(Effective(w, a)) == Main(Effective(w, b))
  {
    EffectiveIsFixOfApplied(w, a);
    EffectiveIsFixOfApplied(w, b);
    ApplyEnvReadsMainOnly(w, a, b);
    FixReadsMainOnly(w, ApplyEnv(w, a), ApplyEnv(w, b));
  }

  lemma EffectiveAtFlag(w: Setup, m: Table, p: Path)
    requires SetupOk(w) && Full(w, m) && p in m && IsFlag(p)
    ensures Effective(w, m)[p] == if p in w.sets then w.sets[p] else m[p]
  {
    EffectiveIsFixOfApplied(w, m);
    FlagsAreNotFixed();
    FixTouches(w.locales, ApplyEnv(w, m), p);
  }

  // -------------------------------------------------------------------------
  // The invariant of the store
  // -------------------------------------------------------------------------

  /** The two views agree: applying the environment to `noEnv` gives `config`. */
  ghost predicate Coherent(w: Setup, s: State)
    requires SetupOk(w)
  {
    Full(w, s.config) && Full(w, s.noEnv) && Main(s.config) == Main(Effective(w, s.noEnv))
  }

  /** A nil leaf of a published configuration is nil by default or by environment. */
  ghost predicate NilsExplained(w: Setup, m: Table)
    requires SetupOk(w) && Full(w, m)
  {
    forall p :: p in m && m[p].IsNil() ==> m[p] == w.defaults[p] || (p in w.sets && w.sets[p] == m[p])
  }

  /** `config` is valid and already has everything the process would apply to it. */
  ghost predicate Settled(w: Setup, s: State)
    requires SetupOk(w) && Full(w, s.config)
  {
    Effective(w, s.config) == s.config && NilsExplained(w, s.config) && w.valid(Main(s.config))
  }

  /** What holds of a store after its first successful load under every environment. */
  ghost predicate Sound(w: Setup, s: State) {
    SetupOk(w) && TypedState(w, s) && Full(w, s.config) && Full(w, s.noEnv) && Settled(w, s)
  }

  /** And, where the environment writes all that it reports, agreement of the two views. */
  ghost predicate Inv(w: Setup, s: State) {
    Sound(w, s) && Coherent(w, s)
  }

  ghost predicate NilIsDefault(w: Setup, m: Table)
    requires SetupOk(w)
  {
    forall p :: p in m && m[p].IsNil() ==> p in w.defaults && m[p] == w.defaults[p]
  }

  lemma FilledNils(w: Setup, m: Table)
    requires SetupOk(w) && TypedLeaves(w, m)
    ensures NilIsDefault(w, Fill(w, m))
  {
  }

  lemma UnmaskedNils(w: Setup, actual: Table, target: Table)
    requires SetupOk(w) && Full(w, actual) && Full(w, target) && NilIsDefault(w, target)
    ensures NilIsDefault(w, Unmask(actual, target))
  {
    forall p | p in target && Unmask(actual, target)[p].IsNil() ensures Unmask(actual, target)[p] == target[p] {
      assert actual[p].HasKind(w.kinds[p]) && target[p].HasKind(w.kinds[p]);
    }
  }

  lemma EffectiveNils(w: Setup, m: Table)
    requires SetupOk(w) && Full(w, m) && NilIsDefault(w, m)
    ensures NilsExplained(w, Effective(w, m))
  {
    EffectiveIsFixOfApplied(w, m);
    var c := Effective(w, m);
    forall p | p in c && c[p].IsNil() ensures c[p] == w.defaults[p] || (p in w.sets && w.sets[p] == c[p]) {
      FixTouches(w.locales, ApplyEnv(w, m), p);
    }
  }

  lemma PreparedIsSettled(w: Setup, current: Table, input: Table)
    requires SetupOk(w) && Full(w, current) && TypedLeaves(w, input)
    ensures var cfg := Prepared(w, current, input);
      Effective(w, cfg) == cfg && NilsExplained(w, cfg)
  {
    UnmaskFull(w, current, Fill(w, input));
    EffectiveTwice(w, Unmask(current, Fill(w, input)));
    FilledNils(w, input);
    UnmaskedNils(w, current, Fill(w, input));
    EffectiveNils(w, Unmask(current, Fill(w, input)));
  }

  // -------------------------------------------------------------------------
  // Taking the flags from another table
  // -------------------------------------------------------------------------

  lemma MixedFull(w: Setup, a: Table, b: Table)
    requires Full(w, a) && Full(w, b)
    ensures Full(w, Main(a) + Flags(b))
    ensures Main(Main(a) + Flags(b)) == Main(a) && Flags(Main(a) + Flags(b)) == Flags(b)
  {
    var mixed := Main(a) + Flags(b);
    forall p ensures p in mixed <==> p in a {
      assert p in a <==> p in b;
    }
    forall p | p in mixed ensures mixed[p].HasKind(w.kinds[p]) {}
  }

  lemma MixedEffective(w: Setup, a: Table, b: Table)
    requires SetupOk(w) && Full(w, a) && Full(w, b)
    requires Effective(w, a) == a && Effective(w, b) == b
    ensures Full(w, Main(a) + Flags(b))
    ensures Effective(w, Main(a) + Flags(b)) == Main(a) + Flags(b)
  {
    hide Effective, SetupOk, ApplyEnv, Fix;
    MixedFull(w, a, b);
    var mixed := Main(a) + Flags(b);
    var e := Effective(w, mixed);
    EffectiveReadsMainOnly(w, mixed, a);
    forall p | p in mixed ensures e[p] == mixed[p] {
      if IsFlag(p) {
        EffectiveAtFlag(w, mixed, p);
        EffectiveAtFlag(w, b, p);
        assert mixed[p] == b[p];
      } else {
        assert Main(e)[p] == Main(a)[p];
      }
    }
  }
}

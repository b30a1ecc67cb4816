/** Every run of the store, whatever calls are made, fail or succeed. */
module StoreRuns {
  import opened Text
  import opened ConfigTree
  import opened FixConfig
  import opened StoreSpec
  import opened StoreTheorems

  // -------------------------------------------------------------------------
  // One call
  // -------------------------------------------------------------------------

  /** What `Set` publishes is valid and repaired, whatever the environment. */
  lemma SetKeepsSound(w: Setup, s: State, input: Table, outcome: Outcome)
    requires Sound(w, s) && TypedLeaves(w, input)
    ensures Sound(w, SetStep(w, s, input, outcome).state)
  {
    hide Prepared, RemoveOverrides, Full, TypedLeaves, NilsExplained, SetCommit, Main, TypedState;
    var r := SetStep(w, s, input, outcome);
    if r.error.None? {
      var cfg := Prepared(w, s.config, input);
      var noEnv := RemoveOverrides(w, cfg, s.noEnv);
      PreparedIsSettled(w, s.config, input);
      RemovedFull(w, cfg, s.noEnv);
      SetCommitSettles(w, s, cfg, noEnv);
      assert r.state == SetCommit(s, cfg, noEnv);
    } else {
      assert r.state == s;
    }
  }

  lemma RemovedFull(w: Setup, cfg: Table, base: Table)
    requires Full(w, cfg) && Full(w, base)
    ensures Full(w, RemoveOverrides(w, cfg, base))
  {}

  lemma SetCommitSettles(w: Setup, s: State, cfg: Table, noEnv: Table)
    requires Sound(w, s) && Full(w, cfg) && Full(w, noEnv)
    requires Effective(w, cfg) == cfg && NilsExplained(w, cfg) && w.valid(Main(cfg))
    ensures Sound(w, SetCommit(s, cfg, noEnv))
  {
    ClearedTyped(w, s, noEnv);
    if s.readOnlyFlags {
      MixedFull(w, cfg, s.config);
      MixedEffective(w, cfg, s.config);
      MixedFull(w, noEnv, s.noEnv);
      MixedNils(w, cfg, s.config);
    }
  }

  /** `Set` builds `noEnv` by subtracting the overrides from the repaired configuration and
      never repairs it again; where everything reported is written, the two views agree all the
      same. */
  lemma SetKeepsInvariant(w: Setup, s: State, input: Table, outcome: Outcome)
    requires Inv(w, s) && ReportedAreWritten(w) && TypedLeaves(w, input)
    ensures Inv(w, SetStep(w, s, input, outcome).state)
  {
    hide Prepared, RemoveOverrides, Full, TypedLeaves, NilsExplained, SetCommit, Main, TypedState, Settled;
    SetKeepsSound(w, s, input, outcome);
    var r := SetStep(w, s, input, outcome);
    if r.error.None? {
      var cfg := Prepared(w, s.config, input);
      var noEnv := RemoveOverrides(w, cfg, s.noEnv);
      PreparedIsSettled(w, s.config, input);
      SubtractedIsCoherent(w, cfg, s.noEnv);
      SetCommitAgrees(w, s, cfg, noEnv);
      assert r.state == SetCommit(s, cfg, noEnv);
    } else {
      assert r.state == s;
    }
  }

  lemma SetCommitAgrees(w: Setup, s: State, cfg: Table, noEnv: Table)
    requires Sound(w, s) && Full(w, cfg) && Full(w, noEnv) && Effective(w, noEnv) == cfg
    ensures Coherent(w, SetCommit(s, cfg, noEnv))
  {
    if s.readOnlyFlags {
      MixedFull(w, cfg, s.config);
      MixedFull(w, noEnv, s.noEnv);
      EffectiveReadsMainOnly(w, noEnv, Main(noEnv) + Flags(s.noEnv));
    }
  }

  lemma ClearedTyped(w: Setup, s: State, m: Table)
    requires Full(w, m)
    ensures TypedLeaves(w, Cleared(s, m))
  {}

  /** Subtracting overrides from a settled configuration leaves a table from which the
      environment and the repairs rebuild it. */
  lemma SubtractedIsCoherent(w: Setup, cfg: Table, base: Table)
    requires SetupOk(w) && ReportedAreWritten(w) && Full(w, cfg) && Full(w, base)
    requires Effective(w, cfg) == cfg
    ensures Full(w, RemoveOverrides(w, cfg, base))
    ensures Effective(w, RemoveOverrides(w, cfg, base)) == cfg
  {
    var noEnv := RemoveOverrides(w, cfg, base);
    RemovalIsUndone(w, cfg, base);
    EffectiveIsFixOfApplied(w, noEnv);
    EffectiveIsFixOfApplied(w, cfg);
  }

  lemma MixedNils(w: Setup, a: Table, b: Table)
    requires SetupOk(w) && Full(w, a) && Full(w, b) && NilsExplained(w, a) && NilsExplained(w, b)
    requires Full(w, Main(a) + Flags(b))
    ensures NilsExplained(w, Main(a) + Flags(b))
  {
    var mixed := Main(a) + Flags(b);
    forall p | p in mixed && mixed[p].IsNil()
      ensures mixed[p] == w.defaults[p] || (p in w.sets && w.sets[p] == mixed[p])
    {
      assert mixed[p] == if IsFlag(p) then b[p] else a[p];
    }
  }

  /** `Load`, from any state, even before the store has a configuration. */
  lemma LoadEstablishesInvariant(w: Setup, s: State, outcome: Outcome)
    requires SetupOk(w) && TypedState(w, s)
    requires LoadStep(w, s, outcome).error.None?
    ensures Inv(w, LoadStep(w, s, outcome).state)
  {
    var noEnv := Reloaded(w, s);
    EffectiveTwice(w, noEnv);
    ReloadedNils(w, s);
    EffectiveNils(w, noEnv);
    ClearedTyped(w, s, noEnv);
    LoadSuccess(w, s, outcome);
    LoadCommitSettles(w, s, Effective(w, noEnv), noEnv, LoadStep(w, s, outcome).wrote);
  }

  lemma LoadSuccess(w: Setup, s: State, outcome: Outcome)
    requires SetupOk(w) && TypedState(w, s)
    requires LoadStep(w, s, outcome).error.None?
    ensures var r := LoadStep(w, s, outcome);
      var noEnv := Reloaded(w, s);
      var cfg := Effective(w, noEnv);
      && (s.stored.Saved? || s.stored.Missing?)
      && r == LoadFinish(w, s, cfg, noEnv, outcome)
      && r.state == LoadCommit(s, cfg, noEnv, r.wrote)
      && w.valid(Main(cfg))
  {
    hide Effective, Reloaded, TypedState, SetupOk, Main, LoadCommit, LoadFinish;
    LoadFinishSuccess(w, s, Effective(w, Reloaded(w, s)), Reloaded(w, s), outcome);
  }

  lemma LoadFinishSuccess(w: Setup, s: State, cfg: Table, noEnv: Table, outcome: Outcome)
    requires LoadFinish(w, s, cfg, noEnv, outcome).error.None?
    ensures var r := LoadFinish(w, s, cfg, noEnv, outcome);
      r.state == LoadCommit(s, cfg, noEnv, r.wrote) && w.valid(Main(cfg))
  {}

  lemma LoadCommitSettles(w: Setup, s: State, cfg: Table, noEnv: Table, wrote: bool)
    requires SetupOk(w) && TypedState(w, s) && Full(w, noEnv) && Full(w, cfg)
    requires cfg == Effective(w, noEnv) == Effective(w, cfg) && NilsExplained(w, cfg) && w.valid(Main(cfg))
    requires TypedLeaves(w, Cleared(s, noEnv))
    ensures Inv(w, LoadCommit(s, cfg, noEnv, wrote))
  {}

  lemma ReloadedNils(w: Setup, s: State)
    requires SetupOk(w) && TypedState(w, s)
    ensures NilIsDefault(w, Reloaded(w, s))
  {
    var filled := Fill(w, WithSiteURL(w, Patched(w, s)));
    FilledNils(w, WithSiteURL(w, Patched(w, s)));
    FullHasFixedSettings(w, filled);
    forall p | p in filled && Fix(w.locales, filled)[p].IsNil() ensures Fix(w.locales, filled)[p] == filled[p] {
      FixTouches(w.locales, filled, p);
    }
  }

  lemma FailedLoadKeepsViews(w: Setup, s: State, outcome: Outcome)
    requires SetupOk(w) && TypedState(w, s) && LoadStep(w, s, outcome).error.Some?
    ensures LoadStep(w, s, outcome).state in {s, s.(customDefaults := None)}
  {
    hide Effective, Reloaded, TypedState, SetupOk, Main, LoadCommit;
  }

  lemma MergedDefaultsOnly(w: Setup, s: State)
    requires Sound(w, s)
    ensures Sound(w, s.(customDefaults := None))
    ensures Coherent(w, s) ==> Coherent(w, s.(customDefaults := None))
  {}

  /** Every call, failed or not, keeps what is sound under every environment. */
  lemma OpKeepsSound(w: Setup, s: State, op: Op)
    requires Sound(w, s) && TypedOp(w, op)
    ensures Sound(w, DoOp(w, s, op).state)
  {
    match op
    case OpSet(input, outcome) => SetKeepsSound(w, s, input, outcome);
    case OpLoad(outcome) => LoadKeeps(w, s, outcome);
    case OpReadOnlyFlags(_) =>
    case OpExternal(_) =>
  }

  /** And the agreement of the views where everything reported is written. */
  lemma OpKeepsInvariant(w: Setup, s: State, op: Op)
    requires Inv(w, s) && ReportedAreWritten(w) && TypedOp(w, op)
    ensures Inv(w, DoOp(w, s, op).state)
  {
    match op
    case OpSet(input, outcome) => SetKeepsInvariant(w, s, input, outcome);
    case OpLoad(outcome) => LoadKeeps(w, s, outcome);
    case OpReadOnlyFlags(_) =>
    case OpExternal(_) =>
  }

  lemma LoadKeeps(w: Setup, s: State, outcome: Outcome)
    requires Sound(w, s)
    ensures Sound(w, LoadStep(w, s, outcome).state)
    ensures Coherent(w, s) ==> Coherent(w, LoadStep(w, s, outcome).state)
  {
    hide TypedState, Settled, Coherent, LoadStep;
    if LoadStep(w, s, outcome).error.None? {
      LoadEstablishesInvariant(w, s, outcome);
    } else {
      FailedLoadKeepsViews(w, s, outcome);
      MergedDefaultsOnly(w, s);
    }
  }

  // -------------------------------------------------------------------------
  // Runs
  // -------------------------------------------------------------------------

  ghost predicate TypedOps(w: Setup, ops: seq<Op>) {
    forall i :: 0 <= i < |ops| ==> TypedOp(w, ops[i])
  }

  /** The state after `ops`. */
  ghost function Run(w: Setup, s: State, ops: seq<Op>): (r: State)
    requires Sound(w, s) && TypedOps(w, ops)
    ensures Sound(w, r)
  {
    if ops == [] then s
    else
      var before := Run(w, s, ops[..|ops| - 1]);
      OpKeepsSound(w, before, ops[|ops| - 1]);
      DoOp(w, before, ops[|ops| - 1]).state
  }

  lemma {:induction false} RunKeepsInvariant(w: Setup, s: State, ops: seq<Op>)
    requires Inv(w, s) && ReportedAreWritten(w) && TypedOps(w, ops)
    ensures Inv(w, Run(w, s, ops))
    decreases |ops|
  {
    if ops != [] {
      var front, last := ops[..|ops| - 1], ops[|ops| - 1];
      RunKeepsInvariant(w, s, front);
      OpKeepsInvariant(w, Run(w, s, front), last);
    }
  }

  /** In every state reached after the first successful load by any calls, successful or
      not, `config` is what the environment and the repairs make of `noEnv`, apart from the
      feature flags; and both have their feature flags. */
  lemma ViewsAgreeInEveryRun(w: Setup, start: State, first: Outcome, ops: seq<Op>)
    requires SetupOk(w) && ReportedAreWritten(w) && TypedState(w, start) && TypedOps(w, ops)
    requires LoadStep(w, start, first).error.None?
    ensures Inv(w, LoadStep(w, start, first).state)
    ensures var s := Run(w, LoadStep(w, start, first).state, ops);
      && Full(w, s.noEnv)
      && Main(s.config) == Main(Effective(w, s.noEnv))
      && Flags(s.config).Keys == Flags(s.noEnv).Keys == Flags(w.defaults).Keys
  {
    LoadEstablishesInvariant(w, start, first);
    RunKeepsInvariant(w, LoadStep(w, start, first).state, ops);
    InvariantFlags(w, Run(w, LoadStep(w, start, first).state, ops));
  }

  lemma InvariantFlags(w: Setup, s: State)
    requires Inv(w, s)
    ensures Full(w, s.noEnv) && Main(s.config) == Main(Effective(w, s.noEnv))
    ensures Flags(s.config).Keys == Flags(s.noEnv).Keys == Flags(w.defaults).Keys
  {
    SameFlagKeys(s.config, s.noEnv);
    SameFlagKeys(s.noEnv, w.defaults);
  }

  lemma SameFlagKeys(a: Table, b: Table)
    requires a.Keys == b.Keys
    ensures Flags(a).Keys == Flags(b).Keys
  {}
}

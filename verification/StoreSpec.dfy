/** The configuration store as a state machine over tables of settings.

    `config` has the environment applied, `noEnv` is what is persisted. The feature flags
    are the settings under `FeatureFlags`; clearing that pointer drops them from a table. */
module StoreSpec {
  import opened Text
  import opened ConfigTree
  import opened FixConfig
  import opened Desanitize

  const FLAGS := "FeatureFlags"

  /** What stays the same while a process runs: the leaves of the configuration type, what
      its environment writes and what it reports as overridden, the supported locales, the
      zero configuration, the defaults `SetDefaults` fills in, and `IsValid` (which ignores the
      feature flags). */
  datatype Setup = Setup(
    kinds: map<Path, Kind>,
    sets: Table,
    reported: set<Path>,
    locales: set<string>,
    zero: Table,
    defaults: Table,
    valid: Table -> bool)

  predicate IsFlag(p: Path) {
    p != [] && p[0] == FLAGS
  }

  function FlagPaths(m: Table): set<Path> {
    set p | p in m && IsFlag(p)
  }

  function Main(m: Table): Table {
    m - FlagPaths(m)
  }

  function Flags(m: Table): Table {
    Only(m, FlagPaths(m))
  }

  // -------------------------------------------------------------------------
  // The steps a configuration goes through
  // -------------------------------------------------------------------------

  /** `Merge`: the patch wins wherever it is not nil. */
  function Merge(base: Table, patch: Table): Table {
    base + (patch - (set p | p in patch && patch[p].IsNil() && p in base))
  }

  /** `SetDefaults`: nil leaves take their default. */
  function Fill(w: Setup, m: Table): Table {
    Merge(w.defaults, m)
  }

  /** `applyEnvironmentMap`; flags behind a nil pointer are not reached. */
  function ApplyEnv(w: Setup, m: Table): Table {
    m + Only(w.sets, m.Keys)
  }

  /** `removeEnvOverrides`. */
  function RemoveOverrides(w: Setup, cfg: Table, base: Table): Table {
    cfg + Only(base, w.reported * cfg.Keys)
  }

  ghost predicate TypedLeaves(w: Setup, m: Table) {
    m.Keys <= w.kinds.Keys && forall p :: p in m ==> m[p].HasKind(w.kinds[p])
  }

  /** A complete configuration: every leaf has a value. */
  ghost predicate Full(w: Setup, m: Table) {
    m.Keys == w.kinds.Keys && forall p :: p in m ==> m[p].HasKind(w.kinds[p])
  }

  /** The hypotheses under which a process runs, apart from `ReportedAreWritten`. */
  ghost predicate SetupOk(w: Setup) {
    && (forall p :: p in FIXED_PATHS ==> p in w.kinds && w.kinds[p] == KString)
    && TypedLeaves(w, w.sets)
    && w.reported <= w.kinds.Keys
    && (forall p :: p in w.reported ==> !IsFlag(p))
    && TypedLeaves(w, w.zero) && Full(w, w.defaults)
    && CommaFree(w.locales) && FallbackSupported(w.locales)
  }

  /** Every reported override is written by some variable whose text parses. */
  ghost predicate ReportedAreWritten(w: Setup) {
    w.reported <= w.sets.Keys
  }

  /** What a table without overrides amounts to once the process applies them. */
  function Effective(w: Setup, m: Table): (r: Table)
    requires SetupOk(w) && Full(w, m)
    ensures Full(w, r)
  {
    FullHasFixedSettings(w, ApplyEnv(w, m));
    FixFull(w, ApplyEnv(w, m));
    Fix(w.locales, ApplyEnv(w, m))
  }

  lemma FullHasFixedSettings(w: Setup, m: Table)
    requires SetupOk(w) && Full(w, m)
    ensures HasFixedSettings(m)
  {
    forall p | p in FIXED_PATHS ensures HasText(m, p) {}
  }

  lemma FixFull(w: Setup, m: Table)
    requires SetupOk(w) && Full(w, m) && HasFixedSettings(m)
    ensures Full(w, Fix(w.locales, m))
  {
    var fixed := Fix(w.locales, m);
    forall p | p in fixed ensures fixed[p].HasKind(w.kinds[p]) {
      FixTouches(w.locales, m, p);
    }
  }

  lemma UnmaskFull(w: Setup, actual: Table, target: Table)
    requires Full(w, actual) && Full(w, target)
    ensures Full(w, Unmask(actual, target))
  {
    forall p | p in target ensures UnmaskLeaf(p, actual[p], target[p]).HasKind(w.kinds[p]) {}
  }

  // -------------------------------------------------------------------------
  // The store
  // -------------------------------------------------------------------------

  /** What the backing store holds; `Unreadable` fails to load, `Corrupt` is not JSON, and from
      `Missing` no bytes are read. */
  datatype Stored = Missing | Unreadable | Corrupt | Saved(table: Table)

  /** What the backing store does with the next write. */
  datatype Outcome = Accept | Refuse | Fail

  datatype Error = ReadOnlyStore | InvalidConfig | FailedToPersist | FailedToLoad | BadJSON

  /** Before the first load both views are empty tables. */
  datatype State = State(
    config: Table,
    noEnv: Table,
    stored: Stored,
    customDefaults: Option<Table>,
    readOnly: bool,
    readOnlyFlags: bool)

  /** The outcome of one call: the new state, the error, the notification (old and new
      configuration) when listeners are invoked, and whether the backing store was written. */
  datatype Step = Step(state: State, error: Option<Error>, notice: Option<(Table, Table)>, wrote: bool)

  function Failed(s: State, error: Error): Step {
    Step(s, Some(error), None, false)
  }

  /** Clearing the flags before comparing and persisting. */
  function Cleared(s: State, m: Table): Table {
    if s.readOnlyFlags then Main(m) else m
  }

  /** Putting flags back after persisting. */
  function WithFlagsOf(s: State, m: Table, flags: Table): Table {
    if s.readOnlyFlags then Main(m) + Flags(flags) else m
  }

  ghost predicate TypedStored(w: Setup, stored: Stored) {
    stored.Saved? ==> TypedLeaves(w, stored.table)
  }

  ghost predicate TypedState(w: Setup, s: State) {
    && TypedStored(w, s.stored)
    && (s.customDefaults.Some? ==> TypedLeaves(w, s.customDefaults.value))
  }

  /** The configuration a `Set` call arrives at before validation. */
  function Prepared(w: Setup, current: Table, input: Table): (r: Table)
    requires SetupOk(w) && Full(w, current) && TypedLeaves(w, input)
    ensures Full(w, r)
  {
    UnmaskFull(w, current, Fill(w, input));
    Effective(w, Unmask(current, Fill(w, input)))
  }

  /** `Set`. */
  function SetStep(w: Setup, s: State, input: Table, outcome: Outcome): (r: Step)
    requires SetupOk(w) && Full(w, s.config) && Full(w, s.noEnv) && TypedLeaves(w, input)
  {
    if s.readOnly then Failed(s, ReadOnlyStore)
    else
      var cfg := Prepared(w, s.config, input);
      SetFinish(w, s, cfg, RemoveOverrides(w, cfg, s.noEnv), outcome)
  }

  /** `Set` once both views are computed. */
  function SetFinish(w: Setup, s: State, cfg: Table, noEnv: Table, outcome: Outcome): Step {
    if !w.valid(Main(cfg)) then Failed(s, InvalidConfig)
    else if outcome != Accept then Failed(s, FailedToPersist)
    else SetPublished(s, cfg, noEnv)
  }

  function SetPublished(s: State, cfg: Table, noEnv: Table): Step {
    var next := SetCommit(s, cfg, noEnv);
    Step(next, None, if Changed(s, cfg) then Some((s.config, next.config)) else None, true)
  }

  /** `equal` on what is left after clearing read-only flags (true means they differ). */
  predicate Changed(s: State, cfg: Table) {
    Cleared(s, s.config) != Cleared(s, cfg)
  }

  /** Persisting and publishing in `Set`: read-only flags are neither written nor taken. */
  function SetCommit(s: State, cfg: Table, noEnv: Table): State {
    s.(config := WithFlagsOf(s, cfg, s.config),
       noEnv := WithFlagsOf(s, noEnv, s.noEnv),
       stored := Saved(Cleared(s, noEnv)))
  }

  /** The bytes the backing store returned, decoded into the zero configuration. */
  function Decoded(w: Setup, stored: Stored): Table {
    if stored.Saved? then stored.table else w.zero
  }

  /** The stored configuration over the custom defaults, while there are any. */
  function Patched(w: Setup, s: State): (r: Table)
    requires SetupOk(w) && TypedState(w, s)
    ensures TypedLeaves(w, r)
  {
    if s.customDefaults.Some? then Merge(s.customDefaults.value, Decoded(w, s.stored)) else Decoded(w, s.stored)
  }

  /** A nil site URL becomes empty before the defaults are filled in. */
  function WithSiteURL(w: Setup, m: Table): (r: Table)
    requires SetupOk(w) && TypedLeaves(w, m)
    ensures TypedLeaves(w, r)
  {
    assert SITE_URL in FIXED_PATHS;
    if SITE_URL in m then m else m[SITE_URL := SString("")]
  }

  /** The persisted configuration with custom defaults, defaults and repairs. */
  function Reloaded(w: Setup, s: State): (r: Table)
    requires SetupOk(w) && TypedState(w, s)
    ensures Full(w, r)
  {
    var filled := Fill(w, WithSiteURL(w, Patched(w, s)));
    FullHasFixedSettings(w, filled);
    FixFull(w, filled);
    Fix(w.locales, filled)
  }

  /** `Load`. */
  function LoadStep(w: Setup, s: State, outcome: Outcome): (r: Step)
    requires SetupOk(w) && TypedState(w, s)
  {
    if s.stored.Unreadable? then Failed(s, FailedToLoad)
    else if s.stored.Corrupt? then Failed(s, BadJSON)
    else LoadFinish(w, s, Effective(w, Reloaded(w, s)), Reloaded(w, s), outcome)
  }

  /** `Load` once both views are computed. */
  function LoadFinish(w: Setup, s: State, cfg: Table, noEnv: Table, outcome: Outcome): Step {
    if !w.valid(Main(cfg)) then Failed(s.(customDefaults := None), InvalidConfig)
    else LoadFinished(s, cfg, noEnv, outcome)
  }

  /** `Load` once both views are known to be valid. */
  function LoadFinished(s: State, cfg: Table, noEnv: Table, outcome: Outcome): Step {
    var changed := Changed(s, cfg);
    var writes := !s.readOnly && (changed || s.stored.Missing?);
    if writes && outcome == Fail then Failed(s.(customDefaults := None), FailedToPersist)
    else
      var wrote := writes && outcome == Accept;
      Step(LoadCommit(s, cfg, noEnv, wrote), None, if changed then Some((s.config, cfg)) else None, wrote)
  }

  /** Publishing in `Load`: the flags are the loaded ones. */
  function LoadCommit(s: State, cfg: Table, noEnv: Table, wrote: bool): State {
    s.(config := cfg,
       noEnv := noEnv,
       stored := if wrote then Saved(Cleared(s, noEnv)) else s.stored,
       customDefaults := None)
  }

  // -------------------------------------------------------------------------
  // Runs
  // -------------------------------------------------------------------------

  /** A call on the store, or another process rewriting what the backing store holds. */
  datatype Op =
    | OpSet(input: Table, setOutcome: Outcome)
    | OpLoad(loadOutcome: Outcome)
    | OpReadOnlyFlags(flag: bool)
    | OpExternal(stored: Stored)

  ghost predicate TypedOp(w: Setup, op: Op) {
    match op
    case OpSet(input, _) => TypedLeaves(w, input)
    case OpExternal(stored) => TypedStored(w, stored)
    case _ => true
  }

  function DoOp(w: Setup, s: State, op: Op): Step
    requires SetupOk(w) && TypedState(w, s) && Full(w, s.config) && Full(w, s.noEnv) && TypedOp(w, op)
  {
    match op
    case OpSet(input, outcome) => SetStep(w, s, input, outcome)
    case OpLoad(outcome) => LoadStep(w, s, outcome)
    case OpReadOnlyFlags(flag) => Step(s.(readOnlyFlags := flag), None, None, false)
    case OpExternal(stored) => Step(s.(stored := stored), None, None, false)
  }
}

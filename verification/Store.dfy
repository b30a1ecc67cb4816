/** The store itself: configuration objects published under a lock. */
module Store {
  import opened Text
  import opened ConfigTree
  import opened EnvKeys
  import opened FixConfig
  import opened StoreSpec
  import opened StoreTheorems
  import opened World
  import opened ConfigObjects
  import opened ConfigSteps
  import opened Backing
  import opened StoreSteps

  /** `Store`. Each method runs under the lock; where it lets go of it, in
      `InvokeConfigListeners`, is the subject of `Notifications`. */
  class Store {
    const world: World
    const backing: BackingStore
    const emitter: Emitter
    const readOnly: bool
    var config: Config?
    var configNoEnv: Config?
    var configCustomDefaults: Config?
    var readOnlyFF: bool

    ghost predicate Valid()
      reads *
    {
      && WorldOk(world) && backing.Valid(world)
      && (config == null <==> configNoEnv == null)
      && (config != null ==> config.IsWhole(world) && configNoEnv.IsWhole(world))
      && (configCustomDefaults != null ==> configCustomDefaults.Partial(world))
    }

    /** The state of the specification this store is in. */
    ghost function State(): State
      requires WellFormed(world.Type())
      reads *
    {
      StoreSpec.State(
        TableIfAny(world, config), TableIfAny(world, configNoEnv), backing.Stored(world),
        TableOrNone(world, configCustomDefaults), readOnly, readOnlyFF)
    }

    lemma StateParts()
      requires Valid() && WellFormed(world.Type()) && config != null
      ensures configNoEnv != null && config.IsWhole(world) && configNoEnv.IsWhole(world)
      ensures State().config == config.Table(world) && State().noEnv == configNoEnv.Table(world)
      ensures State().stored == backing.Stored(world) && backing.Valid(world)
    {
      hide WellFormed, WorldOk;
    }

    lemma NotLoadedYet()
      requires WellFormed(world.Type()) && config == null && configNoEnv == null && readOnlyFF
      ensures State() == Unloaded(backing.Stored(world), TableOrNone(world, configCustomDefaults), readOnly)
    {
      hide WellFormed;
    }

    /** A store that has not loaded yet. */
    constructor (w: World, b: BackingStore, customDefaults: Config?, ro: bool)
      requires WorldOk(w) && b.Valid(w) && (customDefaults != null ==> customDefaults.Partial(w))
      ensures Valid() && world == w && backing == b && readOnly == ro
      ensures fresh(emitter) && emitter.listeners == {} && emitter.notices == []
      ensures config == null && configNoEnv == null && configCustomDefaults == customDefaults && readOnlyFF
    {
      hide WorldOk, Typed, Complete;
      world, backing, readOnly := w, b, ro;
      config, configNoEnv, configCustomDefaults, readOnlyFF := null, null, customDefaults, true;
      emitter := new Emitter();
    }

    /** `NewStoreFromBacking`: a store that has loaded what `b` holds over the custom defaults, in
        agreement with the environment, or none. */
    static method NewStoreFromBacking(w: World, b: BackingStore, customDefaults: Config?, ro: bool)
      returns (store: Store?, error: Option<Error>, ghost step: Step)
      requires WorldOk(w) && WellFormed(w.Type()) && b.Valid(w)
      requires customDefaults != null ==> customDefaults.Partial(w)
      modifies b`saved, b`writes
      ensures IsLoadStep(SetupOf(w), Unloaded(old(b.Stored(w)), old(TableOrNone(w, customDefaults)), ro),
                         old(b.Next()), step)
      ensures error == step.error
      ensures !step.wrote ==> b.saved == old(b.saved)
      ensures store != null ==> store.world == w && store.State() == step.state
      ensures store != null ==>
        && store.config != null && store.config.IsWhole(w) && store.config.Table(w) == step.state.config
        && b.Valid(w) && b.Stored(w) == step.state.stored
      ensures (store == null) == error.Some?
      ensures store != null ==>
        && fresh(store) && store.Valid() && store.world == w && store.backing == b && store.readOnly == ro
        && store.config != null && fresh({store.config, store.configNoEnv, store.emitter})
        && Inv(SetupOf(w), store.State())
    {
      hide WorldOk, WellFormed, SetupOf, IsLoadStep, Store.State, Inv, Config.Partial, BackingStore.Valid, Store.Valid;
      var s := new Store(w, b, customDefaults, ro);
      s.StateFacts();
      s.NotLoadedYet();
      ghost var before, told;
      error, step, before, told := s.Load();
      if error.Some? {
        return null, error, step;
      }
      store := s;
      store.StateParts();
    }

    /** `Get`. */
    method Get() returns (c: Config?)
      ensures c == config
    {
      c := config;
    }

    /** `RemoveEnvironmentOverrides`. */
    method RemoveEnvironmentOverrides(cfg: Config) returns (result: Config)
      requires Valid() && config != null && cfg.Partial(world)
      ensures fresh(result.Parts()) && result.Partial(world) && (cfg.IsWhole(world) ==> result.IsWhole(world))
      ensures WellFormed(world.Type()) &&
        result.Table(world) == RemoveOverrides(SetupOf(world), cfg.Table(world), configNoEnv.Table(world))
    {
      result := SubtractEnvironment(world, cfg, configNoEnv);
    }

    /** The file operations pass through; a read-only store refuses to write. */
    method SetFile(name: string, data: string) returns (ok: bool)
      modifies backing`files
      ensures ok == (!readOnly && name !in backing.faulty)
      ensures backing.files == if ok then old(backing.files)[name := data] else old(backing.files)
    {
      if readOnly {
        return false;
      }
      ok := backing.SetFile(name, data);
    }

    method HasFile(name: string) returns (has: Option<bool>)
      ensures has == if name in backing.faulty then None else Some(name in backing.files)
    {
      has := backing.HasFile(name);
    }

    method GetFile(name: string) returns (data: Option<string>)
      ensures data == if name in backing.files && name !in backing.faulty then Some(backing.files[name]) else None
    {
      data := backing.GetFile(name);
    }

    /** `SetReadOnlyFF`. */
    method SetReadOnlyFF(flag: bool)
      requires Valid()
      modifies this`readOnlyFF
      ensures Valid() && State() == old(State()).(readOnlyFlags := flag)
    {
      hide WorldOk, Typed, Complete, Leaves;
      readOnlyFF := flag;
    }

    /** What the contracts below need to know of a valid store. */
    lemma StateFacts()
      requires Valid()
      ensures WorldOk(world) && TypeOk(world) && WellFormed(world.Type())
      ensures SetupOk(SetupOf(world)) && TypedState(SetupOf(world), State())
      ensures config != null ==> Full(SetupOf(world), State().config) && Full(SetupOf(world), State().noEnv)
    {
      hide Typed, Complete, Leaves, WellFormed, WellNamed, NamedSettings, TypedLeaves, Full, SetupOk, SetupOf;
      SetupIsOk(world);
      if config != null {
        FullTableOf(world, config);
        FullTableOf(world, configNoEnv);
      }
      if configCustomDefaults != null { PartialTableOf(world, configCustomDefaults); }
      if backing.saved.Holds? { PartialTableOf(world, backing.saved.config); }
    }

    /** `Set` takes the step of the specification, on objects of its own: what was published
        earlier, and the input, are not written. The saved copy has no flags while they are
        read-only; the published configuration then shares its flag object with the old
        configuration handed out, and `configNoEnv` keeps the one it had. */
    method Set(newCfg: Config)
      returns (oldCfg: Config?, newCopy: Config?, error: Option<Error>, ghost step: Step, ghost told: Config?)
      requires Valid() && config != null && newCfg.Partial(world)
      modifies this`config, this`configNoEnv, backing`saved, backing`writes, emitter`notices
      ensures config != null && (error.None? ==> configNoEnv != null && oldCfg != null)
      ensures error.None? && !readOnlyFF ==> fresh({config.flags, configNoEnv.flags})
      ensures error.None? && !readOnlyFF ==> oldCfg.flags !in {config.flags, configNoEnv.flags}
      ensures Valid()
      ensures IsSetStep(SetupOf(world), old(State()), old(newCfg.Table(world)), old(backing.Next()), step)
      ensures State() == step.state && error == step.error
      ensures KeptBySet(SetupOf(world), old(State()), State())
      ensures error.Some? ==>
        config == old(config) && configNoEnv == old(configNoEnv) && backing.saved == old(backing.saved)
      ensures error.None? ==>
        fresh({config, configNoEnv}) && backing.saved.Holds? && fresh(backing.saved.config.Parts())
      ensures error.None? ==> oldCfg != null && newCopy != null && fresh(oldCfg.Parts()) && fresh(newCopy.Parts())
      ensures error.None? ==>
        oldCfg.Table(world) == old(config.Table(world)) && newCopy.Table(world) == config.Table(world)
      ensures error.None? && readOnlyFF ==>
        && backing.saved.config.flags == null
        && config.flags == oldCfg.flags && configNoEnv.flags == old(configNoEnv.flags)
      ensures step.notice.None? ==> emitter.notices == old(emitter.notices)
      ensures step.notice.Some? ==>
        && told != null && fresh(told.Parts()) && told.Table(world) == config.Table(world)
        && newCopy != null && told.Parts() !! newCopy.Parts()
        && Announced(old(emitter.notices), emitter.notices, emitter.listeners, oldCfg, told)
    {
      hide WorldOk, WellFormed, SetupOf, SetupOk, Full, TypedLeaves, TypedState, IsSetStep, TableOf;
      hide SectionsOk, FlagsOk, SectionsTyped, Typed, Changed, SetCommit, Announced, KeptBySet;
      hide Config.IsWhole, Config.Partial, Store.Valid, Store.State;
      StateFacts();
      ghost var w, s, input, outcome := SetupOf(world), State(), newCfg.Table(world), backing.Next();
      oldCfg, newCopy, error, told := null, null, None, null;
      if readOnly {
        error := Some(ReadOnlyStore);
        step := ReadOnlySet(newCfg);
        SetInvariant(w, s, input, outcome, step);
        return;
      }
      var before, cfg, noEnv;
      before, cfg, noEnv, step := Views(newCfg);
      SetInvariant(w, s, input, outcome, step);
      if noEnv == null {
        error := Some(InvalidConfig);
        return;
      }
      var hasChanged;
      error, hasChanged := Commit(before, cfg, noEnv);
      if error.Some? {
        return;
      }
      oldCfg := before;
      newCopy, told := Tell(before, hasChanged);
    }

    /** The end of `Set`: a copy for the caller and, if something changed, another one for
        the listeners. */
    method Tell(before: Config, hasChanged: bool) returns (newCopy: Config, ghost told: Config?)
      requires Valid() && config != null
      modifies emitter`notices
      ensures Valid() && State() == old(State())
      ensures fresh(newCopy.Parts())
      ensures newCopy.sections == config.sections && newCopy.FlagsValue() == config.FlagsValue()
      ensures !hasChanged ==> emitter.notices == old(emitter.notices)
      ensures hasChanged ==>
        && told != null && fresh(told.Parts()) && told.Parts() !! newCopy.Parts()
        && told.sections == config.sections && told.FlagsValue() == config.FlagsValue()
        && Announced(old(emitter.notices), emitter.notices, emitter.listeners, before, told)
    {
      hide WorldOk, WellFormed, TableOf, Config.IsWhole, Config.Partial, Config.Table, BackingStore.Valid;
      hide BackingStore.Stored;
      told := null;
      newCopy := config.Clone();
      if hasChanged {
        var copy := newCopy.Clone();
        emitter.InvokeConfigListeners(before, copy);
        told := copy;
      }
    }

    ghost method ReadOnlySet(newCfg: Config) returns (step: Step)
      requires Valid() && config != null && newCfg.Partial(world) && readOnly
      ensures Valid()
      ensures IsSetStep(SetupOf(world), State(), newCfg.Table(world), backing.Next(), step)
      ensures step == Failed(State(), ReadOnlyStore)
    {
      hide WorldOk, WellFormed, SetupOf, SetupOk, Full, TypedLeaves, TypedState, SetStep;
      StateFacts();
      PartialTableOf(world, newCfg);
      SetStepIs(SetupOf(world), State(), newCfg.Table(world), backing.Next());
      step := Failed(State(), ReadOnlyStore);
    }

    /** The first half of `Set`: a copy of the current configuration, the new configuration,
        and, if that is valid, the new view without overrides. */
    method Views(newCfg: Config) returns (before: Config, cfg: Config, noEnv: Config?, ghost step: Step)
      requires Valid() && config != null && newCfg.Partial(world) && !readOnly
      ensures Valid() && configNoEnv != null && State() == old(State())
      ensures fresh(before.Parts()) && fresh(cfg.Parts()) && before != cfg
      ensures before.sections == config.sections && before.FlagsValue() == config.FlagsValue()
      ensures before.IsWhole(world) && cfg.IsWhole(world)
      ensures before.flags != cfg.flags && cfg.flags != null
      ensures noEnv != null ==>
        && fresh(noEnv.Parts()) && noEnv.IsWhole(world) && noEnv != before && noEnv != cfg
        && before.flags != noEnv.flags && noEnv.flags != null
      ensures IsSetStep(SetupOf(world), State(), newCfg.Table(world), backing.Next(), step)
      ensures noEnv == null ==> step == Failed(State(), InvalidConfig)
      ensures noEnv != null ==>
        step == if backing.Next() != Accept then Failed(State(), FailedToPersist)
                else SetPublished(State(), cfg.Table(world), noEnv.Table(world))
    {
      hide WorldOk, WellFormed, SetupOf, SetupOk, Full, TypedLeaves, TypedState, Prepared, RemoveOverrides;
      hide SectionsOk, FlagsOk, SectionsTyped, SetStep, TableOf, Typed, Changed, SetCommit;
      StateFacts();
      PartialTableOf(world, newCfg);
      ghost var w, s, input := SetupOf(world), State(), newCfg.Table(world);
      SetStepIs(w, s, input, backing.Next());
      step := SetStep(w, s, input, backing.Next());
      before := config.Clone();
      cfg := Prepare(world, before, newCfg);
      ValidIffTable(world, cfg.sections, cfg.FlagsValue());
      noEnv := null;
      if world.isValid(cfg.sections) {
        WholeIsPartial(world, cfg);
        noEnv := SubtractEnvironment(world, cfg, configNoEnv);
      }
    }

    /** `Load` takes the step of the specification, on objects of its own. */
    method Load() returns (error: Option<Error>, ghost step: Step, ghost before: Config?, ghost told: Config?)
      requires Valid()
      modifies this`config, this`configNoEnv, this`configCustomDefaults, backing`saved, backing`writes, emitter`notices
      ensures Valid()
      ensures IsLoadStep(SetupOf(world), old(State()), old(backing.Next()), step)
      ensures State() == step.state && error == step.error
      ensures KeptByLoad(SetupOf(world), old(State()), State(), error.None?)
      ensures error.Some? ==> config == old(config) && configNoEnv == old(configNoEnv)
      ensures error.None? ==> config != null && fresh({config, configNoEnv})
      ensures !step.wrote ==> backing.saved == old(backing.saved)
      ensures step.wrote ==>
        && backing.saved.Holds? && fresh(backing.saved.config.Parts())
        && (readOnlyFF ==> backing.saved.config.flags == null)
      ensures step.notice.None? ==> emitter.notices == old(emitter.notices)
      ensures step.notice.Some? ==>
        && config != null && told != null && fresh(told.Parts()) && told.Table(world) == config.Table(world)
        && before != null && fresh(before.Parts())
        && (if old(config) == null then before.sections == world.Zero() && before.flags == null
            else before.sections == old(config.sections) && before.FlagsValue() == old(config.FlagsValue()))
        && Announced(old(emitter.notices), emitter.notices, emitter.listeners, before, told)
    {
      hide WorldOk, WellFormed, SetupOf, SetupOk, Full, TypedLeaves, TypedState, IsLoadStep, TableOf;
      hide SectionsOk, FlagsOk, SectionsTyped, Typed, Changed, LoadCommit, Announced, LoadStep;
      hide Config.IsWhole, Config.Partial, Store.Valid, Store.State, LoadFinished, IsPersisted, Installed;
      hide Store.Objects, KeptByLoad;
      error, told, before := None, null, null;
      StateFacts();
      ghost var w, start, outcome := SetupOf(world), State(), backing.Next();
      if backing.saved.Broken? || backing.saved.NotJSON? {
        step := UnreadLoad();
        LoadInvariant(w, start, outcome, step);
        error := Some(if backing.saved.Broken? then FailedToLoad else BadJSON);
        return;
      }
      var noEnv, cfg, valid;
      noEnv, cfg, valid, step := LoadViews();
      LoadInvariant(w, start, outcome, step);
      ghost var c, n := cfg.Table(world), noEnv.Table(world);
      DropCustomDefaults();
      if !valid {
        error := Some(InvalidConfig);
        return;
      }
      ghost var hasChanged, wrote;
      error, hasChanged, wrote, before, told := InstallAndTell(cfg, noEnv);
      LoadEnds(start, c, n, outcome, error, hasChanged, wrote);
    }

    /** The end of `Load`: valid views are installed, and the listeners told if something changed. */
    method InstallAndTell(cfg: Config, noEnv: Config)
      returns (error: Option<Error>, ghost hasChanged: bool, ghost wrote: bool,
               ghost before: Config?, ghost told: Config?)
      requires Valid() && (backing.saved.Nothing? || backing.saved.Holds?)
      requires cfg.IsWhole(world) && noEnv.IsWhole(world) && {cfg, noEnv} !! Objects() && cfg != noEnv
      modifies this`config, this`configNoEnv, backing`saved, backing`writes, emitter`notices, cfg`flags, noEnv`flags
      ensures Valid()
      ensures IsPersisted(old(State()), old(cfg.Table(world)), old(backing.Next()), error, hasChanged, wrote)
      ensures State() == Installed(old(State()), old(cfg.Table(world)), old(noEnv.Table(world)), wrote, error.None?)
      ensures if error.None? then config == cfg && configNoEnv == noEnv
              else config == old(config) && configNoEnv == old(configNoEnv)
      ensures !wrote ==> backing.saved == old(backing.saved)
      ensures wrote ==>
        && backing.saved.Holds? && fresh(backing.saved.config.Parts())
        && (readOnlyFF ==> backing.saved.config.flags == null)
      ensures error.Some? || !hasChanged ==> emitter.notices == old(emitter.notices)
      ensures error.None? && hasChanged ==>
        && config != null && told != null && fresh(told.Parts())
        && told.sections == config.sections && told.FlagsValue() == config.FlagsValue()
        && before != null && fresh(before.Parts())
        && (if old(config) == null then before.sections == world.Zero() && before.flags == null
            else before.sections == old(config.sections) && before.FlagsValue() == old(config.FlagsValue()))
        && Announced(old(emitter.notices), emitter.notices, emitter.listeners, before, told)
    {
      hide WorldOk, WellFormed, SetupOf, TableOf, IsPersisted, Installed, Announced;
      hide Config.IsWhole, Config.Partial, Config.Table, Store.Valid, Store.State;
      before, told := null, null;
      var oldCfg := OldConfig();
      var changed;
      error, changed, wrote := Install(oldCfg, cfg, noEnv);
      hasChanged := changed;
      if error.Some? {
        return;
      }
      before := oldCfg;
      told := TellLoaded(oldCfg, changed);
    }

    /** Custom defaults serve the first load only. */
    method DropCustomDefaults()
      requires Valid()
      modifies this`configCustomDefaults
      ensures Valid() && State() == old(State()).(customDefaults := None)
      ensures Objects() <= old(Objects()) + {null}
    {
      hide WorldOk, WellFormed, TableOf, Config.IsWhole, Config.Partial, Config.Table, BackingStore.Valid;
      hide BackingStore.Stored;
      configCustomDefaults := null;
    }

    /** A copy of the current configuration, or the empty one. */
    method OldConfig() returns (before: Config)
      requires Valid()
      ensures Valid() && State() == old(State()) && Objects() == old(Objects()) && before !in Objects()
      ensures fresh(before.Parts()) && IsOld(before)
    {
      hide WorldOk, WellFormed, TableOf, Config.IsWhole, Config.Partial, Config.Table, BackingStore.Valid;
      hide BackingStore.Stored;
      if config == null {
        before := new Config(world.Zero(), null);
      } else {
        before := config.Clone();
      }
    }

    ghost predicate IsOld(before: Config)
      reads *
    {
      if config == null then before.sections == world.Zero() && before.flags == null
      else before.sections == config.sections && before.FlagsValue() == config.FlagsValue()
    }

    /** A backing store that cannot be read, or holds no JSON. */
    ghost method UnreadLoad() returns (step: Step)
      requires Valid() && (backing.saved.Broken? || backing.saved.NotJSON?)
      ensures Valid()
      ensures IsLoadStep(SetupOf(world), State(), backing.Next(), step)
      ensures step == Failed(State(), if backing.saved.Broken? then FailedToLoad else BadJSON)
    {
      hide WorldOk, WellFormed, SetupOf, SetupOk, Full, TypedLeaves, TypedState;
      StateFacts();
      step := LoadStep(SetupOf(world), State(), backing.Next());
    }

    /** What the backing store returns, decoded. */
    method ReadBack() returns (loaded: Config)
      requires Valid() && (backing.saved.Nothing? || backing.saved.Holds?)
      ensures Valid() && State() == old(State()) && fresh(loaded.Parts()) && loaded.Partial(world)
      ensures loaded.Table(world) == Decoded(SetupOf(world), State().stored)
    {
      hide WorldOk, WellFormed, SetupOf, TypedLeaves, TableOf, SectionsTyped, Typed;
      StateFacts();
      if backing.saved.Holds? {
        loaded := backing.saved.config.Clone();
        PartialTableOf(world, backing.saved.config);
      } else {
        loaded := new Config(world.Zero(), null);
        ZeroIsTyped(world);
        NilTyped(world.flags);
      }
    }

    /** The view without environment `Load` arrives at. */
    method Reload() returns (noEnv: Config)
      requires Valid() && (backing.saved.Nothing? || backing.saved.Holds?)
      ensures Valid() && State() == old(State()) && fresh(noEnv.Parts()) && noEnv.IsWhole(world)
      ensures IsReloaded(SetupOf(world), State(), noEnv.Table(world))
    {
      hide WorldOk, WellFormed, SetupOf, SetupOk, TypedLeaves, TypedState, TableOf, SectionsOk, FlagsOk, SectionsTyped;
      hide Typed, Fix, Merge, IsRebuilt, Config.IsWhole;
      StateFacts();
      var loaded := ReadBack();
      ghost var given, custom := loaded.Table(world), TableIfAny(world, configCustomDefaults);
      noEnv := Rebuild(world, configCustomDefaults, loaded, custom, given);
      RebuiltIsReloaded(SetupOf(world), State(), noEnv.Table(world));
    }

    /** The views `Load` arrives at, and whether they are valid. */
    method LoadViews() returns (noEnv: Config, cfg: Config, valid: bool, ghost step: Step)
      requires Valid() && (backing.saved.Nothing? || backing.saved.Holds?)
      ensures Valid() && State() == old(State()) && Objects() == old(Objects()) && {noEnv, cfg} !! Objects()
      ensures fresh(noEnv.Parts()) && fresh(cfg.Parts()) && noEnv != cfg
      ensures noEnv.IsWhole(world) && cfg.IsWhole(world)
      ensures IsLoadStep(SetupOf(world), State(), backing.Next(), step)
      ensures !valid ==> step == Failed(State().(customDefaults := None), InvalidConfig)
      ensures valid ==>
        step == LoadFinished(State(), cfg.Table(world), noEnv.Table(world), backing.Next())
    {
      hide WorldOk, WellFormed, SetupOf, SetupOk, Full, TypedLeaves, TypedState, TableOf;
      hide SectionsOk, FlagsOk, SectionsTyped, Typed, Fix, ApplyEnv, Merge, Config.IsWhole, Config.Partial;
      hide LoadStep, LoadFinished, IsLoadStep, IsReloaded, IsActivated;
      noEnv := Reload();
      StateFacts();
      cfg := Activate(world, noEnv);
      valid := world.isValid(cfg.sections);
      step := LoadedStep(noEnv, cfg, valid);
    }

    /** The specified step, where `Load` has arrived at these views. */
    ghost method LoadedStep(noEnv: Config, cfg: Config, valid: bool) returns (step: Step)
      requires Valid() && (backing.saved.Nothing? || backing.saved.Holds?) && WellFormed(world.Type())
      requires cfg.IsWhole(world) && valid == world.isValid(cfg.sections)
      requires IsReloaded(SetupOf(world), State(), noEnv.Table(world))
      requires IsActivated(SetupOf(world), cfg.Table(world), noEnv.Table(world))
      ensures IsLoadStep(SetupOf(world), State(), backing.Next(), step)
      ensures !valid ==> step == Failed(State().(customDefaults := None), InvalidConfig)
      ensures valid ==>
        step == LoadFinished(State(), cfg.Table(world), noEnv.Table(world), backing.Next())
    {
      hide WorldOk, WellFormed, SetupOf, SetupOk, Full, TypedLeaves, TypedState, TableOf;
      hide SectionsOk, FlagsOk, SectionsTyped, Typed, Fix, ApplyEnv, Merge, Config.Partial;
      hide LoadStep, LoadFinished;
      StateFacts();
      LoadStepIs(SetupOf(world), State(), backing.Next());
      cfg.FilledFacts(world);
      ValidIffTable(world, cfg.sections, cfg.FlagsValue());
      step := LoadStep(SetupOf(world), State(), backing.Next());
    }

    /** Comparing and perhaps persisting in `Load`. */
    method PersistLoaded(before: Config, cfg: Config, noEnv: Config)
      returns (error: Option<Error>, hasChanged: bool, ghost wrote: bool)
      requires Valid() && (backing.saved.Nothing? || backing.saved.Holds?) && IsOld(before)
      requires cfg.IsWhole(world) && noEnv.IsWhole(world)
      requires {before, cfg, noEnv} !! Objects() && before != cfg && before != noEnv && cfg != noEnv
      modifies backing`saved, backing`writes, before`flags, cfg`flags, noEnv`flags
      ensures Valid()
      ensures IsPersisted(old(State()), old(cfg.Table(world)), old(backing.Next()), error, hasChanged, wrote)
      ensures State() == Restocked(old(State()), old(noEnv.Table(world)), wrote)
      ensures error.None? ==>
        && cfg.IsWhole(world) && cfg.Table(world) == old(cfg.Table(world))
        && noEnv.IsWhole(world) && noEnv.Table(world) == old(noEnv.Table(world))
        && before.flags == old(before.flags) && before.FlagsValue() == old(before.FlagsValue())
      ensures !wrote ==> backing.saved == old(backing.saved)
      ensures wrote ==>
        && backing.saved.Holds? && fresh(backing.saved.config.Parts())
        && (readOnlyFF ==> backing.saved.config.flags == null)
    {
      hide WorldOk, WellFormed, SetupOf, SetupOk, Full, TypedLeaves, TypedState, Changed;
      hide SectionsOk, FlagsOk, SectionsTyped, TableOf, Typed;
      error := None;
      StateFacts();
      ghost var s, c, n := State(), cfg.Table(world), noEnv.Table(world);
      WholeParts(world, cfg);
      WholeParts(world, noEnv);
      if config != null { WholeParts(world, config); }
      LoadedTables(world, s, before.sections, before.FlagsValue(), cfg.sections, cfg.FlagsValue(),
                   noEnv.sections, noEnv.FlagsValue());
      var failed;
      failed, hasChanged, wrote :=
        CompareAndPersist(backing, readOnly, readOnlyFF, backing.saved.Nothing?, before, cfg, noEnv);
      if wrote {
        NoFlagsOk(world);
        PartialFrom(world, backing.saved.config);
      }
      if failed {
        error := Some(FailedToPersist);
      }
    }

    /** Both views are replaced at once. */
    method Publish(cfg: Config, noEnv: Config)
      requires Valid() && cfg.IsWhole(world) && noEnv.IsWhole(world)
      modifies this`config, this`configNoEnv
      ensures Valid() && config == cfg && configNoEnv == noEnv
      ensures State() == old(State()).(config := cfg.Table(world), noEnv := noEnv.Table(world))
    {
      hide WorldOk, WellFormed, TableOf, Config.IsWhole, Config.Partial, Config.Table, BackingStore.Valid;
      hide BackingStore.Stored;
      configNoEnv, config := noEnv, cfg;
    }

    /** Comparing, perhaps persisting, and publishing in `Load`. */
    method Install(before: Config, cfg: Config, noEnv: Config)
      returns (error: Option<Error>, hasChanged: bool, ghost wrote: bool)
      requires Valid() && (backing.saved.Nothing? || backing.saved.Holds?) && IsOld(before)
      requires cfg.IsWhole(world) && noEnv.IsWhole(world)
      requires {before, cfg, noEnv} !! Objects() && before != cfg && before != noEnv && cfg != noEnv
      modifies this`config, this`configNoEnv, backing`saved, backing`writes, before`flags, cfg`flags, noEnv`flags
      ensures Valid()
      ensures IsPersisted(old(State()), old(cfg.Table(world)), old(backing.Next()), error, hasChanged, wrote)
      ensures State() == Installed(old(State()), old(cfg.Table(world)), old(noEnv.Table(world)), wrote, error.None?)
      ensures error.None? ==> before.flags == old(before.flags) && before.FlagsValue() == old(before.FlagsValue())
      ensures if error.None? then config == cfg && configNoEnv == noEnv
              else config == old(config) && configNoEnv == old(configNoEnv)
      ensures !wrote ==> backing.saved == old(backing.saved)
      ensures wrote ==>
        && backing.saved.Holds? && fresh(backing.saved.config.Parts())
        && (readOnlyFF ==> backing.saved.config.flags == null)
    {
      hide WorldOk, WellFormed, TableOf, Config.IsWhole, Config.Partial, Config.Table, BackingStore.Valid;
      hide BackingStore.Stored;
      hide Store.Valid, Store.State, IsPersisted, Restocked, Changed;
      error, hasChanged, wrote := PersistLoaded(before, cfg, noEnv);
      if error.None? {
        Publish(cfg, noEnv);
      }
    }

    /** The end of `Load`: a copy for the listeners if something changed. */
    method TellLoaded(before: Config, hasChanged: bool) returns (ghost told: Config?)
      requires Valid() && config != null
      modifies emitter`notices
      ensures Valid() && State() == old(State())
      ensures !hasChanged ==> emitter.notices == old(emitter.notices)
      ensures hasChanged ==>
        && told != null && fresh(told.Parts())
        && told.sections == config.sections && told.FlagsValue() == config.FlagsValue()
        && Announced(old(emitter.notices), emitter.notices, emitter.listeners, before, told)
    {
      hide WorldOk, WellFormed, TableOf, Config.IsWhole, Config.Partial, Config.Table, BackingStore.Valid;
      hide BackingStore.Stored;
      var copy := config.Clone();
      if hasChanged {
        emitter.InvokeConfigListeners(before, copy);
      }
      told := copy;
    }

    /** The configuration objects the state of the store is read from. */
    ghost function Objects(): set<Config?>
      reads this, backing`saved
    {
      {config, configNoEnv, configCustomDefaults} + if backing.saved.Holds? then {backing.saved.config} else {}
    }

    /** The second half of `Set`: persisting and publishing the views it has computed. */
    method Commit(before: Config, cfg: Config, noEnv: Config) returns (error: Option<Error>, hasChanged: bool)
      requires Valid() && config != null
      requires before.IsWhole(world) && cfg.IsWhole(world) && noEnv.IsWhole(world)
      requires before.sections == config.sections && before.FlagsValue() == config.FlagsValue()
      requires {before, cfg, noEnv} !! Objects() && before != cfg && before != noEnv && cfg != noEnv
      modifies this`config, this`configNoEnv, backing`saved, backing`writes, before`flags, cfg`flags, noEnv`flags
      ensures Valid()
      ensures error == if old(backing.Next()) == Accept then None else Some(FailedToPersist)
      ensures error.Some? ==>
        && State() == old(State()) && config == old(config) && configNoEnv == old(configNoEnv)
        && backing.saved == old(backing.saved)
      ensures error.None? ==>
        && config == cfg && configNoEnv == noEnv
        && State() == SetCommit(old(State()), old(cfg.Table(world)), old(noEnv.Table(world)))
        && hasChanged == Changed(old(State()), old(cfg.Table(world)))
        && backing.saved.Holds? && fresh(backing.saved.config.Parts())
        && before.flags == old(before.flags) && before.FlagsValue() == old(before.FlagsValue())
      ensures error.None? && readOnlyFF ==>
        && backing.saved.config.flags == null
        && config.flags == before.flags && configNoEnv.flags == old(configNoEnv.flags)
      ensures error.None? && !readOnlyFF ==>
        config.flags == old(cfg.flags) && configNoEnv.flags == old(noEnv.flags)
    {
      hide WorldOk, WellFormed, SetupOf, SetupOk, Full, TypedLeaves, TypedState, Changed;
      hide SectionsOk, FlagsOk, SectionsTyped, TableOf, Typed;
      error, hasChanged := None, false;
      StateFacts();
      ghost var s, c, n := State(), cfg.Table(world), noEnv.Table(world);
      WholeParts(world, before);
      WholeParts(world, cfg);
      WholeParts(world, noEnv);
      WholeParts(world, configNoEnv);
      CommittedTables(world, s, before.sections, before.FlagsValue(), cfg.sections, cfg.FlagsValue(),
                      noEnv.sections, noEnv.FlagsValue(), configNoEnv.sections, configNoEnv.FlagsValue());
      var result;
      result, hasChanged := PersistAndCompare(backing, readOnlyFF, before, cfg, noEnv, configNoEnv.flags);
      if result != Accept {
        error := Some(FailedToPersist);
        return;
      }
      NoFlagsOk(world);
      PartialFrom(world, backing.saved.config);
      configNoEnv, config := noEnv, cfg;
    }
  }

  ghost function PartsOf(c: Config?): set<object>
    reads c
  {
    if c == null then {} else c.Parts()
  }

  /** The state of a store that has not loaded yet. */
  function Unloaded(stored: Stored, customDefaults: Option<Table>, ro: bool): StoreSpec.State {
    StoreSpec.State(map[], map[], stored, customDefaults, ro, true)
  }

  ghost function TableOrNone(w: World, c: Config?): Option<Table>
    requires WellFormed(w.Type())
    reads c, PartsOf(c)
  {
    if c == null then None else Some(c.Table(w))
  }

  ghost function TableIfAny(w: World, c: Config?): Table
    requires WellFormed(w.Type())
    reads c, PartsOf(c)
  {
    if c == null then map[] else c.Table(w)
  }
}

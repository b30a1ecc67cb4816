/** Moving a configuration and its files from one store to another. */
module Migrate {
  import opened Text
  import opened ConfigTree
  import opened Desanitize
  import opened FixConfig
  import opened StoreSpec
  import opened StoreTheorems
  import opened StoreLaws
  import opened World
  import opened ConfigObjects
  import opened Repairs
  import opened Backing
  import opened ConfigSteps
  import opened StoreSteps
  import opened Store

  datatype MigrateError =
    | NoSource(cause: StoreSpec.Error)
    | NoDestination(cause: StoreSpec.Error)
    | NotSet(cause: StoreSpec.Error)
    | FileNotMoved(name: string)

  const IDP_CERTIFICATE: Path := ["SamlSettings", "IdpCertificateFile"]
  const PUBLIC_CERTIFICATE: Path := ["SamlSettings", "PublicCertificateFile"]
  const PRIVATE_KEY: Path := ["SamlSettings", "PrivateKeyFile"]
  const SIGNATURE_FILES: Path := ["PluginSettings", "SignaturePublicKeyFiles"]

  ghost predicate NamesFiles(w: World)
    requires WellFormed(w.Type())
  {
    && Setting(w, IDP_CERTIFICATE, KString) && Setting(w, PUBLIC_CERTIFICATE, KString)
    && Setting(w, PRIVATE_KEY, KString) && Setting(w, SIGNATURE_FILES, KList)
  }

  /** The files of `to` once those of `names` that `from` holds have been copied over them. */
  function Copied(to: map<string, string>, from: map<string, string>, names: seq<string>): map<string, string> {
    to + Only(from, set name | name in names)
  }

  /** Every listed file the source holds arrives unchanged, however often it is listed, and
      no other file of the destination is touched. */
  lemma CopiedFiles(to: map<string, string>, from: map<string, string>, names: seq<string>)
    ensures forall name :: name in names && name in from ==>
      name in Copied(to, from, names) && Copied(to, from, names)[name] == from[name]
    ensures forall name :: name !in names || name !in from ==>
      (name in Copied(to, from, names) <==> name in to) && (name in to ==> Copied(to, from, names)[name] == to[name])
  {}

  lemma CopiedOneMore(to: map<string, string>, from: map<string, string>, names: seq<string>, name: string)
    ensures Copied(to, from, names + [name]) ==
      var m := Copied(to, from, names); if name in from then m[name := from[name]] else m
  {}

  lemma CopiedOntoItself(files: map<string, string>, names: seq<string>)
    ensures Copied(files, files, names) == files
  {}

  /** A file can be moved if its existence can be found out, and, where it exists, written. */
  ghost predicate Movable(from: map<string, string>, source: Store, destination: Store, name: string) {
    && name !in source.backing.faulty
    && (name in from ==> !destination.readOnly && name !in destination.backing.faulty)
  }

  /** `migrateFile`. */
  method MigrateFile(name: string, source: Store, destination: Store) returns (ok: bool)
    modifies destination.backing`files
    ensures destination.backing.files ==
      if ok && name in old(source.backing.files)
      then old(destination.backing.files)[name := old(source.backing.files)[name]]
      else old(destination.backing.files)
    ensures ok == Movable(old(source.backing.files), source, destination, name)
  {
    var exists' := source.HasFile(name);
    if exists'.None? {
      return false;
    }
    if exists'.value {
      var data := source.GetFile(name);
      if data.None? {
        return false;
      }
      ok := destination.SetFile(name, data.value);
      return;
    }
    return true;
  }

  /** The loop over the listed files: it stops at the first one that cannot be moved. */
  method MigrateFiles(names: seq<string>, source: Store, destination: Store) returns (failed: Option<nat>)
    modifies destination.backing`files
    ensures failed.Some? ==>
      failed.value < |names| && !Movable(old(source.backing.files), source, destination, names[failed.value])
    ensures forall i :: 0 <= i < (if failed.Some? then failed.value else |names|) ==>
      Movable(old(source.backing.files), source, destination, names[i])
    ensures destination.backing.files ==
      Copied(old(destination.backing.files), old(source.backing.files),
             if failed.Some? then names[..failed.value] else names)
  {
    hide Copied, Movable;
    ghost var to, from := destination.backing.files, source.backing.files;
    CopyNothing(to, from);
    for i := 0 to |names|
      invariant destination.backing.files == Copied(to, from, names[..i])
      invariant source.backing.files == from
      invariant forall k :: 0 <= k < i ==> Movable(from, source, destination, names[k])
    {
      assert names[..i + 1] == names[..i] + [names[i]];
      CopiedOneMore(to, from, names[..i], names[i]);
      if source.backing == destination.backing {
        CopiedOntoItself(from, names[..i]);
        CopiedOntoItself(from, names[..i + 1]);
      }
      var ok := MigrateFile(names[i], source, destination);
      if !ok {
        return Some(i);
      }
    }
    assert names[..|names|] == names;
    failed := None;
  }

  /** What every store publishes. */
  ghost predicate IsPublished(w: Setup, m: Table) {
    SetupOk(w) && Publishable(w, m)
  }

  lemma PublishedByStore(w: Setup, s: State)
    requires Sound(w, s)
    ensures IsPublished(w, s.config)
  {}

  /** A configuration one store has published is taken over by another one, apart from flags. */
  lemma PublishedIsTakenOver(w: Setup, m: Table, to: State, outcome: Outcome, step: Step)
    requires IsPublished(w, m) && Sound(w, to) && IsSetStep(w, to, m, outcome, step) && step.error.None?
    requires NoPlaceholders(m)
    ensures Main(step.state.config) == Main(m)
  {
    hide NoPlaceholders, Full, TypedLeaves, NilsExplained, Prepared, RemoveOverrides, TypedState;
    SetOfPublished(w, to, m);
  }

  /** The file names a configuration mentions, with the logging configuration if it is a file. */
  ghost predicate Mentions(m: Table, logFile: Option<string>, names: seq<string>) {
    && HasText(m, IDP_CERTIFICATE) && HasText(m, PUBLIC_CERTIFICATE) && HasText(m, PRIVATE_KEY)
    && SIGNATURE_FILES in m
    && names == [m[IDP_CERTIFICATE].text, m[PUBLIC_CERTIFICATE].text, m[PRIVATE_KEY].text]
                + (if logFile.Some? then [logFile.value] else []) + Items(m[SIGNATURE_FILES])
  }

  method ListFiles(w: World, cfg: Config, logFile: Option<string>) returns (names: seq<string>)
    requires WellFormed(w.Type()) && NamesFiles(w) && cfg.IsWhole(w)
    ensures Mentions(cfg.Table(w), logFile, names)
  {
    hide Typed, Complete, Leaves, WellFormed, IsLeaf, KindAt, TableOf, SectionsOk, FlagsOk;
    var idp, public, key := Read(w, cfg, IDP_CERTIFICATE), Read(w, cfg, PUBLIC_CERTIFICATE), Read(w, cfg, PRIVATE_KEY);
    names := [idp.text, public.text, key.text];
    if logFile.Some? {
      names := names + [logFile.value];
    }
    var signatures := Read(w, cfg, SIGNATURE_FILES);
    names := names + Items(signatures);
  }

  /** What happens to the configuration: the loads of the source and of the destination, and the
      `Set` that follows, with what the backing store does with the writes. */
  datatype Moves = Moves(sourceLoad: Step, targetOutcome: Outcome, targetLoad: Step, setOutcome: Outcome, setStep: Step)
  {
    /** The steps are those of the store, each taken where the one before left off, if it succeeded;
        `from` and `to` are what the backing stores hold. */
    ghost predicate Taken(w: Setup, from: Stored, to: Stored, outcome: Outcome) {
      && AreLoads(w, from, to, outcome, sourceLoad, targetOutcome, targetLoad)
      && (sourceLoad.error.None? && targetLoad.error.None? ==>
            IsSetStep(w, targetLoad.state, sourceLoad.state.config, setOutcome, setStep))
    }

    function Failure(): Option<MigrateError> {
      if sourceLoad.error.Some? then Some(NoSource(sourceLoad.error.value))
      else if targetLoad.error.Some? then Some(NoDestination(targetLoad.error.value))
      else if setStep.error.Some? then Some(NotSet(setStep.error.value))
      else None
    }
  }

  ghost predicate AreLoads(w: Setup, from: Stored, to: Stored, outcome: Outcome, sourceLoad: Step,
                           targetOutcome: Outcome, targetLoad: Step)
  {
    && IsLoadStep(w, Unloaded(from, None, false), outcome, sourceLoad)
    && (sourceLoad.error.None? ==> IsLoadStep(w, Unloaded(to, None, false), targetOutcome, targetLoad))
  }

  /** Between writable stores, a configuration without placeholders is moved exactly if both loads
      succeed and the write is accepted; it then arrives whole, apart from flags. */
  lemma MovedIff(w: Setup, from: Stored, to: Stored, outcome: Outcome, m: Moves)
    requires m.Taken(w, from, to, outcome) && (m.sourceLoad.error.None? ==> NoPlaceholders(m.sourceLoad.state.config))
    ensures m.Failure() == None <==>
      m.sourceLoad.error.None? && m.targetLoad.error.None? && m.setOutcome == Accept
    ensures m.Failure() == None ==> Main(m.setStep.state.config) == Main(m.sourceLoad.state.config)
  {
    hide NoPlaceholders, Main, LoadStep, SetupOk, TypedState, IsLoadStep, Settled, Coherent, Full, TypedLeaves;
    if m.sourceLoad.error.None? && m.targetLoad.error.None? {
      LoadInvariant(w, Unloaded(from, None, false), outcome, m.sourceLoad);
      LoadInvariant(w, Unloaded(to, None, false), m.targetOutcome, m.targetLoad);
      LoadStaysWritable(w, Unloaded(to, None, false), m.targetOutcome, m.targetLoad);
      PublishedByStore(w, m.sourceLoad.state);
      SetOfPublished(w, m.targetLoad.state, m.sourceLoad.state.config);
      OnlyTheWriteCanFail(w, m.targetLoad.state, m.sourceLoad.state.config, m.setOutcome);
    }
  }

  lemma LoadStaysWritable(w: Setup, s: State, outcome: Outcome, step: Step)
    requires IsLoadStep(w, s, outcome, step)
    ensures step.state.readOnly == s.readOnly
  {
    hide SetupOk, TypedState, Effective, Reloaded, Changed, Cleared, Main;
  }

  /** If a `Set` succeeds with the write accepted, it fails only where that is not accepted. */
  lemma OnlyTheWriteCanFail(w: Setup, s: State, input: Table, outcome: Outcome)
    requires SetupOk(w) && Full(w, s.config) && Full(w, s.noEnv) && TypedLeaves(w, input)
    requires SetStep(w, s, input, Accept).error.None?
    ensures SetStep(w, s, input, outcome).error.None? <==> outcome == Accept
    ensures outcome == Accept ==> SetStep(w, s, input, outcome) == SetStep(w, s, input, Accept)
  {
    hide SetupOk, Full, TypedLeaves;
    SetStepIs(w, s, input, outcome);
    SetStepIs(w, s, input, Accept);
  }

  /** What a store publishes and persists is as in this state. */
  ghost predicate Holds(store: Store, s: State)
    requires WellFormed(store.world.Type()) && store.config != null && store.configNoEnv != null
    reads store, store.config, store.configNoEnv, PartsOf(store.config), PartsOf(store.configNoEnv),
          store.backing`saved, if store.backing.saved.Holds? then {store.backing.saved.config} else {},
          if store.backing.saved.Holds? then {store.backing.saved.config.flags} else {}
  {
    && store.config.Table(store.world) == s.config && store.configNoEnv.Table(store.world) == s.noEnv
    && store.backing.Stored(store.world) == s.stored
  }

  /** Setting the destination to what the source publishes. */
  method MoveConfig(published: Config, destination: Store) returns (failure: Option<StoreSpec.Error>, ghost step: Step)
    requires destination.Valid() && destination.config != null && published.IsWhole(destination.world)
    requires WellFormed(destination.world.Type())
    modifies destination`config, destination`configNoEnv, destination.emitter`notices
    modifies destination.backing`saved, destination.backing`writes
    ensures destination.config != null && destination.configNoEnv != null && destination.Valid()
    ensures IsSetStep(SetupOf(destination.world), old(destination.State()), old(published.Table(destination.world)),
                      old(destination.backing.Next()), step)
    ensures failure == step.error && Holds(destination, step.state)
  {
    hide WorldOk, WellFormed, SetupOf, Sound, IsSetStep, TableOf, SectionsOk, FlagsOk, SectionsTyped;
    hide Typed, Store.State, Store.Valid, KeptBySet, Announced;
    WholeIsPartial(destination.world, published);
    var oldCfg, newCfg;
    ghost var told;
    oldCfg, newCfg, failure, step, told := destination.Set(published);
    destination.StateParts();
  }

  /** The first two steps. */
  method OpenStores(w: World, from: BackingStore, to: BackingStore)
    returns (error: Option<MigrateError>, source: Store?, destination: Store?,
             ghost sourceLoad: Step, ghost targetOutcome: Outcome, ghost targetLoad: Step)
    requires WorldOk(w) && WellFormed(w.Type()) && from.Valid(w) && to.Valid(w)
    modifies from`saved, from`writes, to`saved, to`writes
    ensures AreLoads(SetupOf(w), old(from.Stored(w)), if from == to then sourceLoad.state.stored else old(to.Stored(w)),
                     old(from.Next()), sourceLoad, targetOutcome, targetLoad)
    ensures from != to ==> targetOutcome == old(to.Next())
    ensures error == Moves(sourceLoad, targetOutcome, targetLoad, Accept, targetLoad.(error := None)).Failure()
    ensures error.None? ==>
      && source != null && destination != null && fresh({source, destination, destination.emitter})
      && source.backing == from && destination.backing == to && source.world == destination.world == w
      && !destination.readOnly && destination.Valid() && destination.State() == targetLoad.state
      && source.config != null && destination.config != null && source != destination
      && fresh({source.config, destination.config, destination.configNoEnv})
      && source.config.IsWhole(w) && source.config.Table(w) == sourceLoad.state.config
  {
    hide WorldOk, WellFormed, SetupOf, IsLoadStep, TableOf, SectionsOk, FlagsOk;
    hide Config.Partial, BackingStore.Valid, Store.Valid, Store.State, BackingStore.Stored, Inv, Config.IsWhole;
    destination := null;
    var failure;
    source, failure, sourceLoad := Store.NewStoreFromBacking(w, from, null, false);
    targetOutcome, targetLoad := to.Next(), sourceLoad;
    if failure.Some? {
      error := Some(NoSource(failure.value));
      return;
    }
    destination, failure, targetLoad := Store.NewStoreFromBacking(w, to, null, false);
    if failure.Some? {
      error := Some(NoDestination(failure.value));
      return;
    }
    error := None;
  }

  /** Of the listed files `moved` can be moved; the next one, if there is one, cannot. */
  ghost predicate StopsAt(from: map<string, string>, source: Store, destination: Store, listed: seq<string>,
                          moved: nat, error: Option<MigrateError>)
  {
    && moved <= |listed|
    && (forall i :: 0 <= i < moved ==> Movable(from, source, destination, listed[i]))
    && if moved < |listed|
       then !Movable(from, source, destination, listed[moved]) && error == Some(FileNotMoved(listed[moved]))
       else error == None
  }

  /** The files that the published configuration mentions, up to the first that cannot be moved. */
  method MoveFiles(w: World, published: Config, logFile: Option<string>, source: Store, destination: Store)
    returns (error: Option<MigrateError>, ghost listed: seq<string>, ghost moved: nat)
    requires WellFormed(w.Type()) && NamesFiles(w) && published.IsWhole(w)
    modifies destination.backing`files
    ensures Mentions(published.Table(w), logFile, listed)
    ensures StopsAt(old(source.backing.files), source, destination, listed, moved, error) && moved <= |listed|
    ensures destination.backing.files ==
      Copied(old(destination.backing.files), old(source.backing.files), listed[..moved])
  {
    hide WellFormed, NamesFiles, TableOf, Mentions, Copied, SectionsOk, FlagsOk, Movable, Config.IsWhole;
    var files := ListFiles(w, published, logFile);
    var failed := MigrateFiles(files, source, destination);
    listed := files;
    if failed.Some? {
      moved := failed.value;
      error := Some(FileNotMoved(files[failed.value]));
    } else {
      moved := |files|;
      assert files[..moved] == files;
      error := None;
    }
  }

  /** `Migrate`. It stops at the first of the three steps that fails, with the failure of that
      step. After that the destination holds the configuration of the source, apart from flags if
      there was no placeholder in it, and the files are copied that the source's configuration
      mentions, up to the first that cannot be moved. */
  method Migrate(w: World, from: BackingStore, to: BackingStore, logFile: Option<string>)
    returns (error: Option<MigrateError>, source: Store?, destination: Store?,
             ghost m: Moves, ghost listed: seq<string>, ghost moved: nat)
    requires WorldOk(w) && WellFormed(w.Type()) && NamesFiles(w) && from.Valid(w) && to.Valid(w)
    modifies from`saved, from`writes, to`saved, to`writes, to`files
    ensures m.Taken(SetupOf(w), old(from.Stored(w)),
                    if from == to then m.sourceLoad.state.stored else old(to.Stored(w)), old(from.Next()))
    ensures from != to ==> m.targetOutcome == old(to.Next())
    ensures m.Failure().Some? ==> error == m.Failure() && moved == 0
    ensures moved <= |listed| && to.files == Copied(old(to.files), old(from.files), listed[..moved])
    ensures m.Failure().None? ==>
      && source != null && destination != null && source.backing == from && destination.backing == to
      && source.world == destination.world == w
      && destination.config != null && destination.configNoEnv != null && Holds(destination, m.setStep.state)
      && source.config != null && source.config.Table(w) == m.sourceLoad.state.config
      && (NoPlaceholders(source.config.Table(w)) ==>
            Main(destination.config.Table(w)) == Main(source.config.Table(w)))
      && Mentions(source.config.Table(w), logFile, listed)
      && StopsAt(old(from.files), source, destination, listed, moved, error)
  {
    hide StopsAt, WorldOk, WellFormed, NamesFiles, SetupOf, IsSetStep, AreLoads, TableOf, NoPlaceholders, Main;
    hide Config.Partial, BackingStore.Valid, Mentions, Copied, SectionsOk, FlagsOk, Movable;
    hide Store.Valid, Store.State, BackingStore.Stored, Config.IsWhole, Config.Table;
    listed, moved := [], 0;
    CopyNothing(to.files, from.files);
    assert listed[..moved] == [];
    ghost var start, goal, first := from.Stored(w), to.Stored(w), from.Next();
    ghost var sourceLoad, targetOutcome, targetLoad, setOutcome, setStep;
    error, source, destination, sourceLoad, targetOutcome, targetLoad := OpenStores(w, from, to);
    m := Moves(sourceLoad, targetOutcome, targetLoad, Accept, targetLoad);
    if error.Some? {
      return;
    }
    var published := source.config;
    setOutcome := to.Next();
    var failure;
    failure, setStep := MoveConfig(published, destination);
    m := Moves(sourceLoad, targetOutcome, targetLoad, setOutcome, setStep);
    if failure.Some? {
      error := Some(NotSet(failure.value));
      return;
    }
    if NoPlaceholders(sourceLoad.state.config) {
      MovedIff(SetupOf(w), start, if from == to then sourceLoad.state.stored else goal, first, m);
    }
    error, listed, moved := MoveFiles(w, published, logFile, source, destination);
  }

  lemma CopyNothing(to: map<string, string>, from: map<string, string>)
    ensures Copied(to, from, []) == to
  {}
}

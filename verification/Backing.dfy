/** Around the store: the listener registry, and backing stores that copy what they persist. */
module Backing {
  import opened Text
  import opened ConfigTree
  import opened Environment
  import opened StoreSpec
  import opened World
  import opened ConfigObjects

  /** One invocation of one listener. */
  datatype Notice = Notice(listener: string, before: Config, after: Config)

  /** `emitter`: the registry, and the invocations made so far. */
  class Emitter {
    var listeners: set<string>
    var notices: seq<Notice>

    constructor ()
      ensures listeners == {} && notices == []
    {
      listeners, notices := {}, [];
    }

    /** `AddListener`; `NewId` hands out an id not in use. */
    method AddListener(id: string)
      requires id !in listeners
      modifies this`listeners
      ensures listeners == old(listeners) + {id}
    {
      listeners := listeners + {id};
    }

    method RemoveListener(id: string)
      modifies this`listeners
      ensures listeners == old(listeners) - {id}
    {
      listeners := listeners - {id};
    }

    /** `invokeConfigListeners`: every registered listener once, in no particular order. */
    method InvokeConfigListeners(before: Config, after: Config)
      modifies this`notices
      ensures Announced(old(notices), notices, listeners, before, after)
    {
      ghost var sofar := notices;
      ghost var order: seq<string> := [];
      var pending := listeners;
      while pending != {}
        invariant pending <= listeners && Enumerates(order, listeners - pending)
        invariant notices == sofar + NoticesFor(order, before, after)
      {
        var id :| id in pending;
        notices := notices + [Notice(id, before, after)];
        assert NoticesFor(order + [id], before, after)
            == NoticesFor(order, before, after) + [Notice(id, before, after)];
        order := order + [id];
        pending := pending - {id};
      }
    }
  }

  ghost function NoticesFor(order: seq<string>, before: Config, after: Config): seq<Notice> {
    seq(|order|, i requires 0 <= i < |order| => Notice(order[i], before, after))
  }

  /** Between `sofar` and `now` each of `listeners` has been told exactly once. */
  ghost predicate Announced(sofar: seq<Notice>, now: seq<Notice>, listeners: set<string>,
                            before: Config?, after: Config?)
  {
    && before != null && after != null
    && exists order: seq<string> :: Enumerates(order, listeners) && now == sofar + NoticesFor(order, before, after)
  }

  /** What a backing store holds: nothing, something it cannot read or that is not JSON, or
      a configuration. */
  datatype Holding = Nothing | Broken | NotJSON | Holds(config: Config)

  /** A backing store. `MemoryStore` is the one whose writes are always accepted and which
      always holds a configuration. */
  class BackingStore {
    /** What it does with each write, and how many there have been. */
    const plan: nat -> Outcome
    var writes: nat
    var saved: Holding
    /** The files it holds, and the names on which the file operations fail. */
    var files: map<string, string>
    const faulty: set<string>

    constructor (initial: Holding, initialFiles: map<string, string>, outcomes: nat -> Outcome,
                 faultyNames: set<string>)
      ensures plan == outcomes && writes == 0 && saved == initial && files == initialFiles && faulty == faultyNames
    {
      plan, writes, saved, files, faulty := outcomes, 0, initial, initialFiles, faultyNames;
    }

    /** What it will do with the next write. */
    function Next(): Outcome
      reads this`writes
    {
      plan(writes)
    }

    ghost predicate Valid(w: World)
      reads this`saved, if saved.Holds? then {saved.config} else {}, if saved.Holds? then {saved.config.flags} else {}
    {
      saved.Holds? ==> saved.config.Partial(w)
    }

    ghost function Stored(w: World): Stored
      requires WellFormed(w.Type())
      reads this`saved, if saved.Holds? then {saved.config} else {}, if saved.Holds? then {saved.config.flags} else {}
    {
      match saved
      case Nothing => Missing
      case Broken => Unreadable
      case NotJSON => Corrupt
      case Holds(c) => Saved(c.Table(w))
    }

    /** `Set`: a copy of the configuration is saved, or nothing is. */
    method Set(cfg: Config) returns (result: Outcome)
      modifies this`saved, this`writes
      ensures result == old(Next()) && writes == old(writes) + 1
      ensures result != Accept ==> saved == old(saved)
      ensures result == Accept ==> saved.Holds? && fresh(saved.config.Parts())
      ensures result == Accept ==>
        saved.config.sections == cfg.sections && saved.config.FlagsValue() == cfg.FlagsValue()
    {
      result := Next();
      writes := writes + 1;
      if result == Accept {
        var copy := cfg.Clone();
        saved := Holds(copy);
      }
    }

    method HasFile(name: string) returns (has: Option<bool>)
      ensures has == if name in faulty then None else Some(name in files)
    {
      has := if name in faulty then None else Some(name in files);
    }

    method GetFile(name: string) returns (data: Option<string>)
      ensures data == if name in files && name !in faulty then Some(files[name]) else None
    {
      data := if name in files && name !in faulty then Some(files[name]) else None;
    }

    method SetFile(name: string, data: string) returns (ok: bool)
      modifies this`files
      ensures ok == (name !in faulty)
      ensures files == if ok then old(files)[name := data] else old(files)
    {
      ok := name !in faulty;
      if ok {
        files := files[name := data];
      }
    }
  }

  lemma SameWhole(a: seq<Tree>, f: Tree, b: seq<Tree>, g: Tree)
    ensures Whole(a, f) == Whole(b, g) <==> a == b && f == g
  {
    if Whole(a, f) == Whole(b, g) {
      assert a == Whole(a, f).fields[..|a|] && b == Whole(b, g).fields[..|b|];
      assert f == Whole(a, f).fields[|a|] && g == Whole(b, g).fields[|b|];
    }
  }

  /** The middle of `Set`: the flags are cleared around persisting and comparing, then `cfg`
      gets those of `before` and `noEnv` those of the previous `configNoEnv`. */
  method PersistAndCompare(backing: BackingStore, readOnlyFF: bool, before: Config, cfg: Config, noEnv: Config,
                           oldNoEnvFF: FeatureFlags?)
    returns (result: Outcome, hasChanged: bool)
    requires before != cfg && before != noEnv && cfg != noEnv
    modifies backing`saved, backing`writes, before`flags, cfg`flags, noEnv`flags
    ensures result == old(backing.Next())
    ensures result != Accept ==> backing.saved == old(backing.saved)
    ensures result == Accept ==>
      && backing.saved.Holds? && fresh(backing.saved.config.Parts())
      && backing.saved.config.sections == noEnv.sections
      && backing.saved.config.FlagsValue() == if readOnlyFF then Nil else old(noEnv.FlagsValue())
    ensures result == Accept ==>
      && before.flags == old(before.flags)
      && cfg.flags == (if readOnlyFF then old(before.flags) else old(cfg.flags))
      && noEnv.flags == (if readOnlyFF then oldNoEnvFF else old(noEnv.flags))
    ensures result == Accept ==>
      hasChanged == (before.sections != cfg.sections ||
                     (!readOnlyFF && old(before.FlagsValue()) != old(cfg.FlagsValue())))
  {
    var oldFF := before.flags;
    if readOnlyFF {
      before.flags, cfg.flags, noEnv.flags := null, null, null;
    }
    hasChanged := false;
    result := backing.Set(noEnv);
    if result != Accept {
      return;
    }
    SameWhole(before.sections, before.FlagsValue(), cfg.sections, cfg.FlagsValue());
    hasChanged := before.Value() != cfg.Value();
    if readOnlyFF {
      before.flags, cfg.flags, noEnv.flags := oldFF, oldFF, oldNoEnvFF;
    }
  }

  /** The middle of `Load`: the flags are cleared around comparing and persisting and put
      back where they were. */
  method CompareAndPersist(backing: BackingStore, readOnly: bool, readOnlyFF: bool, missing: bool,
                           before: Config, cfg: Config, noEnv: Config)
    returns (failed: bool, hasChanged: bool, ghost wrote: bool)
    requires before != cfg && before != noEnv && cfg != noEnv
    modifies backing`saved, backing`writes, before`flags, cfg`flags, noEnv`flags
    ensures hasChanged ==
      (before.sections != cfg.sections || (!readOnlyFF && old(before.FlagsValue()) != old(cfg.FlagsValue())))
    ensures failed == (!readOnly && (hasChanged || missing) && old(backing.Next()) == Fail)
    ensures wrote == (!readOnly && (hasChanged || missing) && old(backing.Next()) == Accept)
    ensures !failed ==>
      before.flags == old(before.flags) && cfg.flags == old(cfg.flags) && noEnv.flags == old(noEnv.flags)
    ensures backing.writes == old(backing.writes) + if !readOnly && (hasChanged || missing) then 1 else 0
    ensures !wrote ==> backing.saved == old(backing.saved)
    ensures wrote ==>
      && backing.saved.Holds? && fresh(backing.saved.config.Parts())
      && backing.saved.config.sections == noEnv.sections
      && backing.saved.config.FlagsValue() == if readOnlyFF then Nil else old(noEnv.FlagsValue())
  {
    var oldFF, loadedFF, noEnvFF := before.flags, cfg.flags, noEnv.flags;
    if readOnlyFF {
      before.flags, cfg.flags, noEnv.flags := null, null, null;
    }
    SameWhole(before.sections, before.FlagsValue(), cfg.sections, cfg.FlagsValue());
    hasChanged := before.Value() != cfg.Value();
    failed, wrote := false, false;
    if !readOnly && (hasChanged || missing) {
      var result := backing.Set(noEnv);
      if result == Fail {
        failed := true;
        return;
      }
      wrote := result == Accept;
    }
    if readOnlyFF {
      before.flags, cfg.flags, noEnv.flags := oldFF, loadedFF, noEnvFF;
    }
  }
}

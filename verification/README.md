# Mattermost server: configuration store, uploads and channel streaming, verified in Dafny

This project models the parts of the Mattermost server where several pieces of code have to
agree with each other, and proves that they do.

* **The layered configuration store** (`server/config`). `Store` holds two views of one
  configuration: `config`, with environment variables applied, and `configNoEnv`, which is
  persisted. The source never writes down how the two relate. Here it is proved that in every
  reachable state `config` is what the environment and the repairs make of `configNoEnv`,
  apart from the feature flags, exactly which environments this holds for, what holds under every
  environment, and exactly when nothing of the environment is persisted.
* **The structural diff** of two configurations: exactly which entries it lists, and that they are a
  patch in both directions, in any order, over an antichain of paths.
* **The database backing store**: `persist` and `cleanUp` interleaved statement by statement; what is
  active, and that the history of configurations is kept.
* **The multipart upload handler**: a pass that may restart itself as a stream or fall back to
  a buffered parser; which messages it accepts, what it stores, and how the two parsers relate.
* **Cursor pagination streamed as one JSON array.**

## How the model is built

A configuration is a finite typed tree of named fields (`ConfigTree`): structs, pointers that
may be nil, and leaves that are texts, flags, numbers, lists, raw JSON or plugin maps. `Leaves`
turns a tree into a table from leaf paths to leaf values, and is injective on complete trees;
every walk over the tree (`Environment`, `EnvReport`, `EnvKeys`, `EnvValues`, `Defaults`) is specified by
what it does to the table.

The store exists twice. `StoreSpec` is a state machine over tables, about which runs, laws and
interleavings are proved (`StoreTheorems`, `StoreRuns`, `StoreLaws`, `StoreValues`, `StorePersisted`,
`Notifications`). What holds under every environment is `StoreTheorems.Sound`; `Inv` adds that the
two views agree. `Store`
is the class itself, over configuration objects whose feature flags are separate, shareable
objects (`ConfigObjects`, `Repairs`, `ConfigSteps`, `Backing`); every call is proved to take
the specified step (`StoreSteps` takes these steps apart the way the methods run them). The
frames of the methods say which objects are never written: `Set` and `Load` modify fields of
the store, the saved configuration and the record of notifications, and no configuration object
that existed before the call.

What is taken for granted is spelled out in `World.WorldOk` and `StoreSpec.SetupOk`; `ExampleType`
and `Example` give a process that meets it, with the names of the real settings, and `ExampleRuns`
what becomes of it. What a theorem
asks of the environment beyond that is named there: `EnvKeys.ExactNames` (variables spell full
names), `EnvKeys.ReportedParse` (reported variables parse), both together (`ExactKeys`), or the
weaker `StoreSpec.ReportedAreWritten`. Taken for granted are:

* field names hold no underscore and no dot and differ whatever their case; the configuration is
  at most three levels deep, and the settings that the code names exist, the site URL behind a
  pointer;
* the defaults are complete, and validity does not depend on the feature flags;
* supported locale names hold no comma, and the fallback locale is supported unless no locale is
  loaded;
* no two variables write different values into one leaf, and what is reported as overridden are
  leaves;
* SHA-256 has no collisions.

Observations made along the way, each backed by a lemma or a contract below:

* The two views stay in step through a `Set` exactly when it changes no setting that the
  environment reports as overridden without writing it. A variable that names a number, a flag or
  a map but does not parse is such a case: with `MM_PASSWORDSETTINGS_MINIMUMLENGTH=abc` the first
  `Set` of another length publishes the submitted length and persists the previous one, which the
  next `Load` brings back (`ExampleRuns.AbcLosesLength`; in general
  `StoreLaws.UnwrittenReportBreaksSet` and `StoreLaws.SubmittedValueIsGone`).
* What `Set` persists is not always free of the environment. A setting behind a pointer to a struct
  is written but not reported, so its override is persisted
  (`ExampleRuns.RelayPasswordIsPersisted`), and so is a repair that reads an overridden setting:
  with the client locale overridden to `en`, the list `ru` is persisted as `ru,en`
  (`ExampleRuns.OverriddenLocaleJoinsTheList`). `StorePersisted.PersistedIsFreeIff` says exactly
  when.
* Applying the environment gives the same result for every map iteration order exactly when no
  two variables write different values into one leaf; since `applyEnvKey` ignores what is left of
  a key at a leaf, two different keys can reach the same leaf (`EnvKeys.TwoKeysConflict`).
* An exact `MM_FEATUREFLAGS` variable is reported although it names a pointer to a struct; removing
  the overrides then indexes an empty path, so that `Set` panics (`World.FlagsVariableIsNoLeaf`,
  `EnvReport.RemoveEnvOverrides`).
* `fixConfig` is idempotent exactly when the fallback locale is supported or no locale is loaded.
  Otherwise one repair adds the fallback to `AvailableLocales` and the next one throws the list
  away because of it (`FixConfig.FallbackIsDroppedAgain`). While no locale is loaded, `changed` is
  reported whether or not anything changed (`FixConfig.ChangedWithoutLocales`).
* While feature flags are read-only, the configuration published by `Set` shares its flag object
  with the old configuration handed to the caller and to the listeners (`Store.Store.Set`).
* With a channel in the query, an upload whose first `channel_id` part comes after a file stores
  the files before it twice (`Upload.FileBeforeChannelIsStoredTwice`).
* `getPathsRec` appends to shared slices. Down to three levels of nesting no two paths share
  storage; where an extended prefix has spare capacity, the second of two siblings overwrites the
  first (`EnvReport.AppendSiblings`).
* A placeholder in a list of data sources that is not as long as the current list stays where it is,
  and `Set` publishes and persists it (`Desanitize.NoneLeftIffSameLength`,
  `StoreValues.SetPublishesNoPlaceholderIff`).
* A message without files is never checked against its channel by the streaming upload, while
  the buffered parser does check it (`Upload.NoFileNoGate`).

## Model

| member | source | states |
|---|---|---|
| StoreRuns.ViewsAgreeInEveryRun | server/config/store.go:166-346 | After the first successful load, in every state reached by any sequence of `Set`, `Load`, `SetReadOnlyFF` and outside changes of the backing store, failed or not, `config` equals the repaired, environment-applied `configNoEnv` apart from flags, and both have all their flags |
| StoreRuns.OpKeepsSound | server/config/store.go:160-346 | Under every environment, every single call, failed or not, keeps `config` valid, repaired and with the environment applied, and both views complete |
| StoreRuns.OpKeepsInvariant | server/config/store.go:160-346 | Where everything reported is written, every single call also keeps the two views in agreement |
| StoreRuns.RunKeepsInvariant | server/config/store.go:160-346 | So does every run |
| StoreRuns.SetKeepsSound | server/config/store.go:168-241 | What `Set` publishes is valid and already repaired, whatever the environment |
| StoreRuns.SetKeepsInvariant | server/config/store.go:168-241 | `Set` keeps the views in agreement although it subtracts overrides from the repaired configuration and never repairs the result |
| StoreRuns.SubtractedIsCoherent | server/config/store.go:189-197 | Applying the environment and the repairs to what subtraction leaves gives the configuration back |
| StoreRuns.LoadEstablishesInvariant | server/config/store.go:244-346 | A successful `Load` establishes the invariant from any state, also before the store has a configuration |
| StoreRuns.FailedLoadKeepsViews | server/config/store.go:253-325 | A failed `Load` changes nothing but dropping the custom defaults |
| StoreTheorems.EffectiveTwice | server/config/store.go:189-190 | `fixConfig` after `applyEnvironmentMap`, done twice, is the same as once |
| StoreTheorems.RemovalIsUndone | server/config/environment.go:139-150 | Overrides that were removed come back when the environment is applied |
| StoreTheorems.EffectiveReadsMainOnly | server/config/utils.go:90-104 | Outside the flags, the result of environment and repairs does not depend on the flags |
| StoreTheorems.PreparedIsSettled | server/config/store.go:176-190 | The configuration a `Set` arrives at is a fixpoint of environment and repairs |
| StoreLaws.SetCoherentIff | server/config/store.go:168-241 | A successful `Set` leaves the views in step if and only if the configuration it arrives at agrees with the current one on every setting that is reported as overridden without being written, whatever validation allows |
| StoreLaws.CoherentIffReportedAreWritten | server/config/environment.go:50-86 | The views stay in step through every `Set`, and in every run from a first load, if and only if every reported override is written, as long as validation does not pin an unwritten one down to a single value |
| World.CoherentIffReportedParse | server/config/environment.go:29-134 | For a process whose variables spell full names, that is the case if and only if the variables of all reported settings parse |
| World.OnlyParsedFail | server/config/environment.go:58-86 | Only flags, numbers and maps can be reported without being written |
| StoreLaws.LoadPublishes | server/config/store.go:244-346 | Loading a configuration the process can publish publishes it |
| StoreLaws.UnwrittenReportBreaksSet | server/config/store.go:197 | Any store whose views agree, asked for a publishable configuration that differs in an unwritten setting: it publishes the new value, persists the old one, and is out of step |
| StoreLaws.SubmittedValueIsGone | server/config/store.go:253-338 | The next successful `Load` publishes the old value again |
| StoreLaws.LoadAfterLoad | server/config/store.go:312-346 | `Load` after a successful `Load` on a writable store writes nothing, tells nobody and leaves both views alone apart from flags (custom defaults can be pending only before the first load) |
| StoreLaws.LoadAfterSet | server/config/store.go:166-346 | Under every environment `Load` right after a successful `Set` does nothing if and only if the new `configNoEnv` is a fixpoint of the repairs, holds no nil that is not the default, and is in step with `config`, all apart from flags |
| StoreLaws.LoadAfterAgreeingSet | server/config/store.go:166-346 | If the views were in step before, they are after exactly if the `Set` leaves unwritten settings alone |
| StoreLaws.LoadAfterSetInEveryRun | server/config/store.go:166-346 | In every state reached after the first successful load by any calls and outside changes nils are no matter: `Load` after `Set` does nothing if and only if no repair is needed and the views are in step |
| StoreLaws.NilsStayDefault | server/config/store.go:166-346 | No call brings a nil setting into `configNoEnv` that is not nil by default |
| StoreLaws.RunKeepsNilsDefault | server/config/store.go:166-346 | So in every state of every run nil settings of `configNoEnv` are nil by default, and no custom defaults come back |
| World.NilWritesAreReported | server/config/environment.go:81-85 | What the laws about nils ask holds for every process whose variables spell full names |
| StoreLaws.SetOfMaskedChangesNothing | server/config/store.go:183-190 | `Set` on the current configuration with any part of its secrets replaced by the placeholder succeeds, leaves it unchanged and fires no listener |
| StoreLaws.SetOfPublished | server/config/migrate.go:24-27 | A configuration without placeholders that one store published is taken over by any other store of the process, apart from flags |
| StoreLaws.SetLeavesFlags | server/config/store.go:203-230 | While flags are read-only `Set` keeps those of both views and writes none |
| StoreLaws.ReadOnlyFlagsStay | server/config/store.go:199-230 | The same for every call that does not lift the protection; a call that writes, writes no flags |
| StoreLaws.RunPersistsNoFlags | server/config/store.go:199-227 | In any run under read-only flags, what is stored is what was stored at the start or holds no flags |
| StoreLaws.FailedSetDoesNothing | server/config/store.go:172-219 | A `Set` that fails changes neither the views nor the backing store |
| StoreLaws.LoadInStepIsQuiet | server/config/store.go:312-343 | `Load` of what is already current does nothing |
| StoreValues.SetPublishesChosen | server/config/store.go:176-230 | What a successful `Set` publishes, setting by setting: the repaired table in which the environment wins over what was submitted, with secrets put back, and that over the default; `configNoEnv` holds the old value where an override is reported and is what gets stored; while flags are read-only they stay, and are not stored; outside the five settings that are repaired it is the winning value itself |
| StoreValues.LoadPublishesFound | server/config/store.go:253-338 | What a successful `Load` publishes: `configNoEnv` is the repaired table of what is stored, over the custom defaults, over the defaults, nil counting as missing; `config` the repaired table of the environment over that; the first is stored if the call writes |
| StoreValues.SetSucceedsIff | server/config/store.go:168-219 | `Set` fails exactly if the store is read-only, the repaired table of winning values is not valid, or the write is not accepted, with the error of the first of these; it then changes, writes and announces nothing |
| StoreValues.LoadSucceedsIff | server/config/store.go:253-343 | `Load` succeeds exactly if what is stored can be read, the result is valid and no write that is due fails; it writes exactly if the store is writable, something that is compared changed or nothing was stored, and the write is accepted; a refused write is let pass; the custom defaults are gone as soon as something could be read |
| StoreValues.ReadOnlyNeverWrites | server/config/store.go:172-325 | In any run of a read-only store what its backing store holds changes only from outside |
| StoreValues.SetPublishesNoPlaceholderIff | server/config/store.go:183-190 | What `Set` publishes holds no placeholder outside the settings that the environment writes if and only if there is something else behind every placeholder that was submitted |
| ExampleType.TypeIsGood | server/public/model/config.go:3508 | A type with the sections and settings the code names, one of them behind a pointer to a struct, has the shape that is taken for granted |
| Example.SomeWorldIsOk | server/config/store.go:28-38 | Everything taken for granted of a process can be met, with one variable named after any leaf and holding any text |
| Example.ValidIffAllowed | server/public/model/config.go:3948-3950 | In that process a full table is valid if and only if the minimum length of passwords is in the allowed range |
| Example.FirstLoad | server/config/store.go:244-346 | The first load of a store over an empty backing store, unless the length of passwords is overridden: it publishes the repaired defaults with the environment, persists them without flags, and notifies |
| Example.FirstLoadSucceeds | server/config/store.go:244-346 | With the site URL overridden, it publishes the override trimmed, persists the default one, and establishes the invariant |
| ExampleRuns.LengthVariable | server/config/environment.go:58-69 | With `MM_PASSWORDSETTINGS_MINIMUMLENGTH` holding a text that is no number, everything taken for granted holds, that setting is the one reported, and nothing is written |
| ExampleRuns.LengthIsNamed | server/config/environment.go:107-134 | The full variable name of that setting is `MM_PASSWORDSETTINGS_MINIMUMLENGTH` |
| ExampleRuns.LengthIsLost | server/config/store.go:168-346 | Then, after the first load, `Set` to any other allowed length publishes that and persists the default one, and the next `Load` succeeds and publishes the default one |
| ExampleRuns.AbcLosesLength | server/config/store.go:168-346 | That run with the text `abc` |
| ExampleRuns.LengthBreaksCoherence | server/config/environment.go:102-134 | So for that process validation does let the reported setting change, and the views do not stay in step |
| StorePersisted.PersistedIsFreeIff | server/config/store.go:189-207 | What a successful `Set` persists is what it would persist of the same submission in an empty environment, overridden settings keeping their old value, if and only if what is written unreported agrees with what was submitted, and so do the repairs that read an overridden driver or client locale |
| StorePersisted.NothingEverLeaks | server/config/store.go:189-207 | That is so for every submission if all that is written is reported, and a repair that reads an overridden setting has its result overridden, too |
| StorePersisted.UnreportedIsPersisted | server/config/environment.go:139-150 | An override that is written without being reported is persisted, whatever was submitted |
| StorePersisted.RepairIsPersisted | server/config/utils.go:123-148 | The overridden client locale joins the persisted list of locales |
| ExampleRuns.RelayPasswordIsPersisted | server/config/environment.go:107-134 | In a process that overrides a setting behind a pointer to a struct, the override is persisted by every successful `Set` |
| ExampleRuns.OverriddenLocaleJoinsTheList | server/config/store.go:168-241 | With the client locale overridden to `en`: the first load, then a `Set` of a list that needs no repair, which is persisted repaired for the override |
| Notifications.NotificationsAreFaithful | server/config/store.go:217-238 | Under every environment, over all interleavings of calls and listener walks: every notification shows the two sides of one announced commit, no listener hears of a commit twice, commits form a chain, silent ones changed flags only, and replaying the announced ones rebuilds the current configuration apart from flags |
| Notifications.NobodyIsForgotten | server/config/emitter.go:34-40 | The walk visits each key it started with once and may find there what was registered at any time since: it tells nobody who was never registered meanwhile, and when it is done it has told every listener registered all along |
| Notifications.ExecutionKeepsInvariant | server/config/store.go:168-346 | Every state of every interleaving is sound and has the bookkeeping of commits and walks in order; and where everything reported is written, the views agree |
| Notifications.ReplayRebuilds | server/config/store.go:217-238 | Replaying a chain of commits whose silent members changed only flags gives the current configuration apart from flags |
| Notifications.CallsAreCandid | server/config/store.go:217-238 | A call either leaves `config` alone or announces exactly its change; without announcement only flags changed |
| Notifications.HistoryGrows | server/config/store.go:217-238 | In every interleaving commits and notifications once made stay recorded, in order |
| Notifications.WalksAreMeasured | server/config/emitter.go:34-40 | The bookkeeping the walks are judged by is right: in every interleaving a walk started at one moment, with the keys registered then, and `seen` and `steady` are those registered at some time and all along since that moment |
| Environment.OrderIndependentIffConflictFree | server/config/environment.go:89-98 | The result is the same for every iteration order of the environment if and only if no two variables write different values into one leaf |
| Environment.ApplyEnvironmentMap | server/config/environment.go:89-98 | The loop applies all variables in some order; without conflicts the result is the input overwritten by the overrides |
| Environment.ApplyEnvKeyIsPut | server/config/environment.go:29-87 | The reflective walk for one variable is a write to at most one leaf, or nothing; which value a text stands for is said by the rows of `EnvValues` |
| Environment.LeavesOfApplyKeys | server/config/environment.go:89-98 | Applying variables in a given order is overwriting the table with what they write, later ones winning |
| Environment.TargetIsLeaf | server/config/environment.go:34-57 | Whatever key is walked, the place it reaches is a leaf |
| Environment.FieldByUpperName | server/config/environment.go:34-41 | A field is found exactly if it is the only one whose upper-cased name matches |
| Environment.OverridesWhateverTheOrder | server/config/environment.go:93-95 | Without conflicts every order writes the same table of overrides |
| EnvReport.GenerateEnvironmentMap | server/config/environment.go:107-134 | The nested report names precisely the non-struct fields whose upper-cased full name is a variable, and is nested no deeper than the type |
| EnvReport.Append | server/config/environment.go:160-170 | `append` extends in place while there is capacity and otherwise copies to a fresh array of grown capacity |
| EnvReport.AppendSiblings | server/config/environment.go:163-165 | Two siblings appended to one prefix stay apart exactly when the prefix has no spare capacity |
| EnvReport.GetPathsRec | server/config/environment.go:160-170 | Down to three segments, with real slice capacity and any width, every path comes out intact and exactly once |
| EnvReport.GetPaths | server/config/environment.go:155-157 | The flattened report lists each reported path exactly once |
| EnvReport.GetValOfReported | server/config/environment.go:172-198 | On a reported field `getVal` finds the leaf, or nothing behind a nil pointer, and panics exactly if the field is no leaf |
| EnvReport.RemoveEnvOverrides | server/config/environment.go:139-150 | Panics if and only if some reported field is no leaf; otherwise every overridden leaf goes back to its base value, all others stay, whatever the order, and leaves behind nil pointers stay away |
| World.FlagsVariableIsNoLeaf | server/config/environment.go:102-134 | A variable named after the flags pointer is reported and is no leaf |
| EnvKeys.OverriddenPaths | server/config/environment.go:102-170 | Report and flattening together list, each once and intact, precisely the fields reached through struct values whose full variable name is set |
| EnvKeys.ReportedIffVariableSet | server/config/environment.go:107-134 | A field is reported if and only if it is reached through struct values and its `MM_`-joined upper-cased name is a variable |
| EnvKeys.VariableTargetsItsLeaf | server/config/environment.go:29-57 | The write walk follows the full name of any leaf to that leaf, through pointers, too |
| EnvKeys.TailIsIgnored | server/config/environment.go:29-57 | It gets to the same leaf if anything follows the name after an underscore |
| EnvKeys.TwoKeysConflict | server/config/environment.go:89-98 | So for every text setting there is an environment of two variables whose outcome depends on their order |
| EnvKeys.NamesAreDistinct | server/config/environment.go:107-134 | No two fields have the same full variable name |
| EnvKeys.OneVariable | server/config/environment.go:29-134 | What one variable named after a leaf writes and reports: a leaf behind a pointer to a struct is written, but not reported |
| EnvKeys.ReportedLeafIsWritten | server/config/environment.go:29-134 | A reported leaf is written by its own variable, with the parsed value, if that parses |
| EnvKeys.WrittenIffParses | server/config/environment.go:29-134 | If variables spell full names, a reported leaf is written if and only if its variable parses |
| EnvKeys.ExactKeysWriteWhatIsReported | server/config/environment.go:29-134 | Under exact, parseable variables the leaves written are the leaves reported, without conflicts |
| EnvValues.ParseIntIff | server/config/environment.go:65-74 | A text is read as a number if and only if it spells the number in decimal, maybe with a sign and leading zeros, and the number has 64 bits |
| EnvValues.ParseBoolIff | server/config/environment.go:60-64 | A text is read as a flag if and only if it is one of three words for that flag in small letters, in capitals or with one capital |
| EnvValues.ParseOfShown | server/config/environment.go:58-86 | What is shown of a value is read back: flags as `true` and `false`, numbers in decimal, lists of blank-free words with blanks in between, texts and raw JSON as they are |
| EnvValues.ParsedIsShowable | server/config/environment.go:58-86 | No text gives any other value, maps aside |
| EnvValues.ParseOfNumber | server/config/environment.go:65-74 | A decimal number is read back if it has 64 bits, and a wider one is not written at all |
| EnvValues.ShownIsWritten | server/config/environment.go:29-98 | A variable named after a leaf and showing a value overrides that leaf with that value, and nothing else |
| EnvValues.DecodedIsWritten | server/config/environment.go:81-85 | On a map setting it is the decoded text that is written, nil included, and nothing if it does not decode |
| EnvValues.ShownIsApplied | server/config/environment.go:29-98 | On any complete configuration that setting becomes that value and all others stay |
| Text.UpperAt | server/config/environment.go:35 | Upper-casing turns small letters into capitals, letter by letter, and leaves everything else |
| FixConfig.FixIdempotentIff | server/config/utils.go:90-151 | `fixConfig` is idempotent on every configuration if and only if the fallback locale is supported or no locale is |
| FixConfig.LocalesIdempotentIff | server/config/utils.go:107-151 | The same for the locale settings alone |
| FixConfig.FallbackIsDroppedAgain | server/config/utils.go:123-148 | With an unsupported fallback some list is first extended and then dropped |
| FixConfig.AvailableAfterFix | server/config/utils.go:123-148 | After the repair the list is empty, or duplicate-free, supported and containing the default client locale |
| FixConfig.ChangedIffDifferent | server/config/utils.go:107-151 | For every set of locales: a difference goes unreported if and only if it is a duplicate dropped from the list, and `changed` is reported without a difference if and only if an unsupported fallback was replaced by itself |
| FixConfig.ChangedWithoutLocales | server/config/utils.go:107-151 | With no locale loaded `changed` is always reported; something differs unless both locales are the fallback and the list is empty |
| FixConfig.AvailableDiffersIff | server/config/utils.go:123-148 | The list changes if and only if it names an unsupported locale, lacks the client locale or holds a duplicate |
| FixConfig.FixOverwriteFix | server/config/utils.go:90-104 | Repairing, overwriting leaves with what they held before, and repairing again changes nothing |
| FixConfig.FixTouches | server/config/utils.go:90-104 | The repairs touch only the settings they name, and keep them texts |
| FixConfig.SiteURLAfterFix | server/config/utils.go:91-94 | The repaired site URL is the given one without its trailing slashes, all of them and nothing else |
| FixConfig.DirectoryAfterFix | server/config/utils.go:96-101 | The directory of the driver `local` is empty or ends in a slash, added exactly where it was missing; that of any other driver stays |
| FixConfig.AvailableKeepsItsLocales | server/config/utils.go:123-148 | A list of supported locales keeps its locales, each once, in the order in which they first came up, with the client locale after them if it was missing |
| FixConfig.AfterFix | server/config/utils.go:90-151 | Setting by setting: unsupported locales become `ru`, the list is repaired for the repaired client locale, and every setting not named stays |
| Text.JoinOfSplit | server/config/utils.go:147 | Joining the words of a split text gives the text |
| Text.SplitOfJoin | server/config/utils.go:147 | Splitting joined separator-free words gives the words |
| Text.DedupKeepsWords | server/channels/utils/utils.go:60-72 | De-duplication keeps exactly the words, each once |
| Text.DedupKeepsOrder | server/channels/utils/utils.go:60-72 | The words kept stand in the order of their first positions |
| Text.RemoveDuplicates | server/channels/utils/utils.go:60-72 | The loop with its table of seen words keeps first occurrences in order |
| Desanitize.UnmaskMasked | server/config/utils.go:25-87 | Whatever part of the secrets was hidden, all of it comes back |
| Desanitize.UnmaskLeavesTheRest | server/config/utils.go:25-87 | A setting that holds no placeholder is left as given |
| Desanitize.RecoveredIff | server/config/utils.go:25-87 | No placeholder is left in a setting if and only if there is something else behind each: the current text is none, the lists are equally long and the current one has none in those places, the plugin does not hold it either |
| Desanitize.NoneLeftIffSameLength | server/config/utils.go:25-87 | If the current configuration holds no placeholder, none is left exactly if the lists with a placeholder are as long as the current ones |
| Desanitize.MissingBecomesNil | server/config/utils.go:80-86 | A masked plugin setting that the plugin does not have becomes nil |
| Desanitize.ItemsAreIndependent | server/config/utils.go:56-70 | What is submitted in one place of a list has no influence on another place |
| Desanitize.PluginsAreIndependent | server/config/utils.go:80-86 | Nor what is submitted for one plugin setting on another setting or plugin |
| Desanitize.SettingsAreIndependent | server/config/utils.go:25-87 | Nor one setting of the configuration, current or submitted, on another |
| Desanitize.UnmaskItemsInPlace | server/config/utils.go:56-70 | The replica loop, in place: if the lengths agree, the placeholders are replaced position by position, whatever stands in the other places |
| Desanitize.UnmaskPluginsByRange | server/config/utils.go:80-86 | The nested plugin loops replace exactly the placeholders, in any order |
| Repairs.FixInvalidLocales | server/config/utils.go:107-151 | In place, with its early exit: the three locale settings become their repaired values, nothing else changes, and `changed` is returned as specified |
| Repairs.ScanLocales | server/config/utils.go:125-137 | The loop over the words stops at the first unsupported one and otherwise knows whether the client locale occurs |
| Repairs.FixConfiguration | server/config/utils.go:90-104 | In place, the configuration becomes its repaired self |
| Repairs.DesanitizeInto | server/config/utils.go:25-87 | In place, the target becomes itself with the secrets of the actual configuration, which is not written |
| ConfigObjects.Config.Clone | server/config/store.go:176-177 | A deep copy: equal value, objects of its own |
| ConfigObjects.Config.SetDefaults | server/config/store.go:180-181 | In place, every missing setting takes its default and the flags get an object |
| Defaults.LeavesOfMerge | server/config/utils.go:153-157 | On leaves, the patch wins wherever it is not nil |
| Defaults.LeavesOfPutIfNil | server/config/store.go:280-282 | Only a missing site URL is set |
| ConfigTree.LeavesIsInjective | server/config/environment.go:172-198 | A complete configuration is determined by its leaves |
| ConfigTree.LeavesIsOnto | server/config/environment.go:172-198 | Every table with a value of its kind at every leaf is that of a complete configuration |
| ConfigTree.LookupOfPut | server/config/environment.go:141-147 | Writing a leaf changes that leaf and no other |
| ConfigTree.LeavesOfPut | server/config/environment.go:141-147 | Writing a leaf that no nil pointer hides is a table update |
| World.EqualIffSameTable | server/config/utils.go:216-226 | Two configurations with flags, or two without, are equal if and only if their tables are |
| World.MixedTable | server/config/store.go:203-227 | Clearing the flag pointer drops the flags from the table; pointing it elsewhere takes over the flags found there |
| World.SetupIsOk | server/config/store.go:28-38 | The hypotheses on the configuration type imply those of the specification |
| World.ConfigurationOf | server/config/store.go:191-193 | Every full table is that of a configuration, and valid if and only if that is |
| World.ExactKeysAreWritten | server/config/environment.go:89-134 | Under exact, parseable variables every reported override is written |
| ConfigSteps.Prepare | server/config/store.go:176-190 | The objects go through defaults, secrets, environment and repairs as specified, writing neither the current configuration nor the input |
| ConfigSteps.Activate | server/config/store.go:292-293 | Environment and repairs on a copy |
| ConfigSteps.SubtractEnvironment | server/config/environment.go:139-150 | The overrides reported now are removed, on a copy |
| ConfigSteps.Rebuild | server/config/store.go:258-290 | Custom defaults, site URL, defaults and repairs, as specified |
| ConfigSteps.ZeroDiffers | server/config/store.go:248-251 | The zero configuration, taken for the old one on the first load, differs from every complete one |
| Backing.Emitter.InvokeConfigListeners | server/config/emitter.go:34-40 | Every registered listener is told exactly once |
| Backing.Emitter.AddListener | server/config/emitter.go:21-26 | The listener joins the registry |
| Backing.Emitter.RemoveListener | server/config/emitter.go:28-31 | The listener leaves the registry |
| Backing.BackingStore.Set | server/config/memory.go:60-69 | What is saved is a copy of its own; a write that is refused or fails leaves what was saved; each write has an outcome of its own |
| Backing.BackingStore.SetFile | server/config/memory.go:92-96 | Exactly the named file changes |
| Backing.PersistAndCompare | server/config/store.go:203-227 | The saved copy has no flags while they are read-only, the comparison ignores them, and they are put back as in the source: the new configuration gets those of the old one, `configNoEnv` keeps its own |
| Backing.CompareAndPersist | server/config/store.go:301-332 | The same in `Load`: a write happens exactly when the store is writable and something changed or nothing was stored, and the flags return to their places |
| StoreSteps.CommittedTables | server/config/store.go:203-230 | What clearing, comparing and restoring mean for the specified state |
| StoreSteps.LoadStepIs | server/config/store.go:244-346 | The specified `Load`, taken apart into views, validity and installation |
| StoreSteps.SetInvariant | server/config/store.go:168-241 | A step the class takes in `Set` keeps what is sound, and the agreement of the views if every reported override is written |
| StoreSteps.LoadInvariant | server/config/store.go:244-346 | A step the class takes in `Load` establishes both if it succeeds, and keeps each if it fails |
| Store.Store.Set | server/config/store.go:168-241 | Takes the specified step, keeping what is sound, and the agreement of the views if every reported override is written; new views and saved copy are fresh objects, the result and the listeners get copies of their own, each listener is told once exactly if something changed, and flag objects are shared as described above while flags are read-only and not otherwise |
| Store.Store.Load | server/config/store.go:244-346 | Takes the specified step and establishes or keeps the same, with fresh views and a fresh saved copy exactly when it writes; each listener is told once exactly if something changed, with a copy of the new configuration and a copy of the one before (the zero one on the first load) |
| Store.Store.NewStoreFromBacking | server/config/store.go:71-84 | Takes the specified first `Load`, from what the backing store holds and the custom defaults given; a store comes back exactly if that succeeds, in the state it leads to, and then satisfies the invariant; a failure leaves the backing store as it was |
| Store.Store.SetReadOnlyFF | server/config/store.go:160-164 | Only the protection of the flags changes |
| Store.Store.RemoveEnvironmentOverrides | server/config/store.go:152-156 | A copy with the current overrides taken from `configNoEnv` |
| Store.Store.SetFile | server/config/store.go:357-364 | A read-only store refuses; otherwise the backing store's file is set |
| Migrate.Migrate | server/config/migrate.go:11-51 | Takes the first loads of both stores, from what their backing stores hold, and then the `Set` of the destination to what the source published, and stops at the first that fails with the failure of that step; after that the destination is in the state that `Set` leads to, with the source's configuration apart from flags if that held no placeholders; the listed files are copied up to the first that cannot be moved, which is the error, and there is none exactly if all can be moved |
| Migrate.MovedIff | server/config/migrate.go:12-27 | A configuration without placeholders is moved exactly if both loads succeed and the write is accepted |
| Migrate.OpenStores | server/config/migrate.go:12-22 | The source is loaded before the destination; when both are the same backing store, the destination finds what the source has stored |
| Migrate.CopiedFiles | server/config/migrate.go:44-71 | Every listed file the source holds arrives unchanged, however often it is listed, and no other file of the destination changes |
| Migrate.MigrateFiles | server/config/migrate.go:44-48 | The loop copies the listed files in order up to the first that cannot be moved |
| Migrate.MigrateFile | server/config/migrate.go:53-71 | A file the source does not hold is skipped; otherwise it is copied, or the call fails and changes nothing |
| Migrate.ListFiles | server/config/migrate.go:29-42 | The list is the three SAML files, the logging configuration if it is a file, and the signature keys |
| Migrate.PublishedIsTakenOver | server/config/migrate.go:24-27 | Setting a published configuration without placeholders gives that configuration apart from flags |
| Diff.LabelledDiffIsPatch | server/config/diff.go:91-156 | At the settings its labels name, writing the actual values of a diff into the base gives the actual configuration and writing the base values into the actual gives the base, in any order of the entries |
| Diff.DiffIsPatch | server/config/diff.go:91-147 | Writing every actual value at its path into the base, in any order, gives the actual value |
| Diff.DiffIsReversible | server/config/diff.go:91-147 | Writing every base value at its path into the actual value, in any order, gives the base |
| Diff.NoEntriesIffEqual | server/config/diff.go:94-145 | There are no entries if and only if the values are deeply equal |
| DiffEntries.EntriesIff | server/config/diff.go:91-147 | Which entries there are: one for each path at which the two sides differ, which leads to a leaf, or to something that is zero on just one side with no such thing above it; and what each holds |
| DiffEntries.IsZeroIff | server/config/diff.go:94-103 | A value is zero if and only if it is the zero value of its type |
| Diff.PathsAreAntichain | server/config/diff.go:120-135 | The paths are pairwise distinct and none is a prefix of another |
| Diff.LabelsAreAntichain | server/config/diff.go:126-129 | No two entries share a label and none lies under another one |
| Diff.PathOfLabel | server/config/diff.go:126-129 | A dotted label determines its path |
| Diff.SwapSwaps | server/config/diff.go:91-147 | Swapping the arguments swaps the values on the same paths |
| Diff.OneZero | server/config/diff.go:94-96 | A type has one zero value, so reporting nothing for two zero values is right |
| Diff.DiffValues | server/config/diff.go:91-147 | The recursion and its field loop produce the labelled entries for values of one type, and fail exactly on two non-zero values whose types differ once pointers are followed |
| Diff.DiffConfigs | server/config/diff.go:149-156 | Nil configurations are refused; others never fail |
| Database.AlwaysSafe | server/config/database.go:172-231 | Over all interleavings of `persist` and `cleanUp`, statement by statement, from any table with at most one active row: at most one row is ever active, and every row's digest is that of its value unless it had none from the start |
| Database.SuccessfulPersistWasActive | server/config/database.go:181-197 | Every `persist` that returned success had its own value active at some instant of the call, also when it skipped the write |
| Database.CommitIsSafe | server/config/database.go:226-228 | A commit leaves the inserted row as the only active one; what it leaves of the others is said by the next rows |
| Database.HistoryIsKept | server/config/database.go:210-228 | Over all interleavings a committed row stays, with its value, digest and creation time, until `cleanUp` runs with a threshold beyond that time |
| Database.RowsComeFromCommits | server/config/database.go:210-228 | Every row was there from the start or was committed by a call's transaction, active, with that call's value, its digest and the creation time, and has been kept since |
| Database.HowItGotThere | server/config/database.go:181-224 | Whoever is inside a call has started it with that value; whoever is past the check has found another digest active; whoever has inserted a row has done so holding every active row and with no other insert in flight |
| Database.ActKeepsRows | server/config/database.go:344-350 | In one step a row goes exactly if `cleanUp` finds it too old, and is deactivated only by a commit, for good |
| Database.NewRowsAreCommitted | server/config/database.go:214-228 | In one step a row appears exactly if its transaction commits, as it was inserted |
| Database.ActKeepsCallers | server/config/database.go:172-231 | A step is of one caller; only a new call changes the value it is about; what was updated and inserted is remembered |
| Database.HowCallsEnd | server/config/database.go:181-231 | A call succeeds exactly if its value is found active or its commit is acknowledged, and changes rows only by committing |
| Database.CleanUpIsSafe | server/config/database.go:344-350 | Deleting old rows, the active one included, keeps the table safe |
| Upload.StreamAcceptsIff | server/channels/api4/file.go:230-405 | A streaming pass accepts a message if and only if every part is sound and there are no client ids at all, or as many as files and strictly more ids than files before each file; it then stores each file once in order and answers with the files and all the ids |
| Upload.StreamRejects | server/channels/api4/file.go:230-405 | Any other message is rejected with the fault of its first part that does not fit, or for the number of its client ids, and what came before is stored all the same |
| Upload.UploadsPair | server/channels/api4/file.go:345-391 | The i-th stored file is the i-th file of the message, under the i-th client id if there are any |
| Upload.StepFits | server/channels/api4/file.go:244-393 | One part takes the variables of the pass to what the parts read so far say, exactly if it fits, and otherwise fails with the fault of that part |
| Upload.HowAccepted | server/channels/api4/file.go:274-313 | An accepted message was read in one go, restarted once as a stream, or read by the buffered parser, and what was stored before stays stored |
| Upload.AcceptedIff | server/channels/api4/file.go:205-405 | A message is accepted if and only if nothing is wrong before the first part that restarts the pass or makes it fall back, and it is sound and well paired for the stream that takes over, or meets what the buffered parser asks |
| Upload.UnsetStoresOnce | server/channels/api4/file.go:274-313 | Without a channel in the query nothing is stored before the restart or the fall-back, and each file of an accepted message is stored exactly once, in the order of the answer |
| Upload.PresetStoresTwiceIff | server/channels/api4/file.go:262-278 | With a channel in the query the files before the first `channel_id` part are stored twice, and the rest once |
| Upload.FileBeforeChannelIsStoredTwice | server/channels/api4/file.go:262-278 | Such a message: one file, then the channel of the query; it is accepted and the file stored twice |
| Upload.StreamRefinesLegacy | server/channels/api4/file.go:410-502 | A plain message accepted by streaming is accepted by the buffered parser, with the same files, ids and answer, if and only if it holds a file or its channel would do for one |
| Upload.NoFileNoGate | server/channels/api4/file.go:262-278 | A plain message of just a channel its sender may not use is accepted by the handler and refused by the buffered parser |
| Upload.LegacyAcceptsIff | server/channels/api4/file.go:410-502 | The buffered parser accepts a message if and only if it can be held and read, names a channel, the first one named is open to the sender, there is no client id or one for each `files` part, and no upload is refused; it then stores and answers with the i-th `files` part under the i-th id, and hands back the ids that are not empty |
| Upload.LegacyRejects | server/channels/api4/file.go:410-491 | Any other message is rejected for the reason that applies, and nothing of it is stored, except the files before the first one that is refused |
| Upload.ValuesInOrder | server/channels/api4/file.go:422-438 | The values of a form field are the texts of its parts, in message order |
| Upload.FilesInOrder | server/channels/api4/file.go:439 | The files of a form field are its file parts, in message order |
| Upload.ReadUpToTheLimit | server/channels/api4/file.go:249-260 | What is read of a value is its beginning, up to ten kibibytes |
| Upload.LegacyStoresAnswer | server/channels/api4/file.go:453-499 | The buffered parser stores exactly the files it answers with |
| UploadHandler.UploadFileMultipart | server/channels/api4/file.go:205-405 | Over the bytes of the body, with the buffer that keeps what was read: the handler does what the specification of the passes says, restarts at most once, and the restarted pass and the buffered parser both read the whole message again |
| UploadHandler.UploadPart | server/channels/api4/file.go:315-392 | A file part passes the channel checks, gets its client id and is uploaded, or fails and stores nothing |
| UploadHandler.UploadFileMultipartLegacy | server/channels/api4/file.go:410-502 | The buffered parser on everything its source still has to give, with its upload loop, which stops at the first refused file; the messages it accepts are those of `Upload.LegacyAcceptsIff` |
| UploadHandler.ReadAll | server/channels/api4/file.go:410-418 | Reading a source to the end gives the buffer followed by the unread body |
| UploadHandler.Pull | server/channels/api4/file.go:216-222 | However many bytes a part takes, buffer and unread body together remain the message |
| Channels.GetChannelsForUser | server/channels/api4/channel.go:1118-1186 | For every positive page size and non-empty list, exact multiples included, what is sent is the one array of all channels, after one request more than there are full pages; an empty list is an error, and a request that goes wrong cuts the array off after the full pages before it and is the error |
| Channels.ReadBack | server/channels/api4/channel.go:1130-1185 | Reading what is sent as a JSON array (section 5 of RFC 8259) gives the channels, each once and in order |
| Channels.ElementsConcat | server/channels/api4/channel.go:1159-1175 | Two runs of elements joined by one comma are the run of all elements |
| Channels.WritePage | server/channels/api4/channel.go:1159-1175 | A page is sent with a comma before it unless it is the first, and commas between its channels |
| Channels.AfterCursor | server/channels/api4/channel.go:1181 | The last id of what has been sent selects exactly the rest |

## Left out

- Reflection and JSON: struct embedding in `FieldByNameFunc`, the bytes of `json.Marshal`, and the fidelity of `Clone` are taken as given; `equal` compares configurations as values.
- `SetDefaults`, `IsValid` and `utils.Merge` are not part of this model; they enter as a fill of missing settings, an arbitrary predicate that ignores the flags, and the rule their callers state in comments.
- Upper-casing outside ASCII, and settings whose type the environment cannot write (a list of anything but texts).
- Store.Store.RemoveEnvironmentOverrides: like the rest of the class it assumes that what is reported are leaves, that is, no variable is named exactly after a pointer to a struct; with one, the source panics.
- The filter argument of `generateEnvironmentMap`.
- Environment.ApplyEnvironmentMap: asks for a configuration without nil pointers, because both callers fill in the defaults first.
- Store.Store.Set: runs as one step; that the lock is released while listeners run is the subject of `Notifications`, and a listener that calls the store back appears there as another thread.
- EnvReport.GetPathsRec: covers three levels of nesting, which is as deep as the configuration goes; for deeper trees only the exact condition for one pair of siblings is proved.
- Sharing of pointers, lists and maps inside sections (for example the secrets `desanitize` copies by pointer): leaves are values, only the flag object is shared.
- Upload.StreamRefinesLegacy: is stated for plain messages (file parts called `files`, no empty identifier, no value over the limit, a message the buffered parser can hold), which is where the two parsers are meant to agree.
- MIME boundaries, audit records, bookmarks, and what `UploadFileX` does: a message is a sequence of parts and an upload is stored or refused.
- Channels.GetChannelsForUser: assumes the list does not change between two pages; writes to the response that fail are only logged by the source.
- The filtering of channels by deletion time, and filling in channel properties beyond its failure.
- `FileStore` paths, database drivers and migrations; files of the database store.
- `GenerateClientConfig`, logging configuration, `GetValueByPath`, `ConfigDiffs.Sanitize`, `RemoveFile`: they would only add easy members.

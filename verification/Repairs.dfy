/** `fixConfig` and `desanitize` on configuration objects, in place. */
module Repairs {
  import opened Text
  import opened ConfigTree
  import opened FixConfig
  import opened Desanitize
  import opened StoreSpec
  import opened World
  import opened ConfigObjects

  // -------------------------------------------------------------------------
  // Reading and writing one setting
  // -------------------------------------------------------------------------

  /** A setting outside the flags. */
  ghost predicate Setting(w: World, p: Path, kind: Kind)
    requires WellFormed(w.Type())
  {
    IsLeaf(w.Type(), p) && KindAt(w.Type(), p) == kind && !IsFlag(p)
  }

  lemma PutOutside(w: World, a: seq<Tree>, f: Tree, p: Path, x: Scalar)
    requires WellFormed(w.Type()) && |a| == |w.sections| && p != [] && !IsFlag(p)
    ensures Put(TStruct(w.sections), Struct(a), p, x).Struct?
    ensures Put(w.Type(), Whole(a, f), p, x) == Whole(Put(TStruct(w.sections), Struct(a), p, x).fields, f)
  {
    hide WellFormed;
    FlagsIndex(w, p[0]);
    var i := FieldIndex(w.sections, p[0]);
    if i.Some? {
      assert w.Type().fields[i.value] == w.sections[i.value];
      assert (a + [f])[i.value := Put(w.sections[i.value].ty, a[i.value], p[1..], x)]
          == a[i.value := Put(w.sections[i.value].ty, a[i.value], p[1..], x)] + [f];
    }
  }

  lemma WholeLookup(w: World, a: seq<Tree>, f: Tree, p: Path)
    requires WellFormed(w.Type()) && SectionsOk(w, a) && FlagsOk(w, f) && !f.Nil? && IsLeaf(w.Type(), p)
    ensures Lookup(w.Type(), Whole(a, f), p).Some?
    ensures p in TableOf(w, a, f) && TableOf(w, a, f)[p] == Lookup(w.Type(), Whole(a, f), p).value
    ensures TableOf(w, a, f)[p].HasKind(KindAt(w.Type(), p))
  {
    WholeTyped(w, a, f);
    LookupTyped(w.Type(), Whole(a, f), p);
  }

  function Read(w: World, c: Config, p: Path): (x: Scalar)
    requires WellFormed(w.Type()) && c.IsWhole(w) && IsLeaf(w.Type(), p)
    reads c, c.flags
    ensures p in c.Table(w) && x == c.Table(w)[p] && x.HasKind(KindAt(w.Type(), p))
  {
    WholeLookup(w, c.sections, c.FlagsValue(), p);
    Lookup(w.Type(), c.Value(), p).value
  }

  lemma WrittenSections(w: World, a: seq<Tree>, f: Tree, p: Path, x: Scalar)
    requires WellFormed(w.Type()) && SectionsOk(w, a) && FlagsOk(w, f) && !f.Nil?
    requires IsLeaf(w.Type(), p) && !IsFlag(p) && x.HasKind(KindAt(w.Type(), p))
    ensures Put(TStruct(w.sections), Struct(a), p, x).Struct?
    ensures var b := Put(TStruct(w.sections), Struct(a), p, x).fields;
      SectionsOk(w, b) && TableOf(w, b, f) == TableOf(w, a, f)[p := x]
  {
    PutOutside(w, a, f, p, x);
    WholeTyped(w, a, f);
    LeavesOfPut(w.Type(), Whole(a, f), p, x);
    var b := Put(TStruct(w.sections), Struct(a), p, x).fields;
    assert |b| == |a|;
    WholeTyped(w, b, f);
  }

  method Write(w: World, c: Config, p: Path, x: Scalar)
    requires WellFormed(w.Type()) && c.IsWhole(w)
    requires IsLeaf(w.Type(), p) && !IsFlag(p) && x.HasKind(KindAt(w.Type(), p))
    modifies c`sections
    ensures c.IsWhole(w) && c.Table(w) == old(c.Table(w))[p := x]
  {
    WrittenSections(w, c.sections, c.FlagsValue(), p, x);
    c.sections := Put(TStruct(w.sections), Struct(c.sections), p, x).fields;
  }

  // -------------------------------------------------------------------------
  // fixConfig
  // -------------------------------------------------------------------------

  lemma SameEntry(m: Table, p: Path)
    requires p in m
    ensures m[p := m[p]] == m
  {}

  /** `available` once the loop has gone over all its words. */
  lemma RejoinedIsFixed(locales: set<string>, available: string, client: string, extended: string)
    requires available != "" && AllIn(Split(available, ','), locales)
    requires extended == if client in Split(available, ',') then available else available + "," + client
    ensures Join(Dedup(Split(extended, ',')), ',') == FixAvailable(locales, available, client)
  {
    if client !in Split(available, ',') {
      SplitOfConcat(available, ',', client);
      assert available + "," + client == available + [','] + client;
    }
  }

  lemma FixAvailableEmpties(locales: set<string>, available: string, client: string)
    ensures available == "" || !AllIn(Split(available, ','), locales) ==> FixAvailable(locales, available, client) == ""
    ensures Join(Dedup(Split("", ',')), ',') == ""
  {
    assert Dedup([""]) == [""];
  }

  /** The loop over the available locales: it stops at the first unsupported one. */
  method ScanLocales(locales: set<string>, available: string, client: string) returns (allIn: bool, found: bool)
    ensures allIn == AllIn(Split(available, ','), locales)
    ensures allIn ==> found == (client in Split(available, ','))
    ensures !allIn ==> found
  {
    var words := Split(available, ',');
    allIn, found := true, false;
    for i := 0 to |words|
      invariant allIn && AllIn(words[..i], locales)
      invariant found == (client in words[..i])
    {
      if words[i] !in locales {
        allIn, found := false, true;
        break;
      }
      assert words[..i + 1] == words[..i] + [words[i]];
      if words[i] == client {
        found := true;
      }
    }
    assert words[..|words|] == words;
  }

  /** `fixInvalidLocales`. */
  method FixInvalidLocales(w: World, c: Config) returns (changed: bool)
    requires WellFormed(w.Type()) && c.IsWhole(w)
    requires Setting(w, SERVER_LOCALE, KString) && Setting(w, CLIENT_LOCALE, KString) && Setting(w, AVAILABLE, KString)
    modifies c`sections
    ensures c.IsWhole(w)
    ensures HasText(old(c.Table(w)), SERVER_LOCALE) && HasText(old(c.Table(w)), CLIENT_LOCALE)
    ensures HasText(old(c.Table(w)), AVAILABLE)
    ensures var m := old(c.Table(w));
      var client := FixLocale(w.locales, m[CLIENT_LOCALE].text);
      c.Table(w) == m[SERVER_LOCALE := SString(FixLocale(w.locales, m[SERVER_LOCALE].text))]
                     [CLIENT_LOCALE := SString(client)]
                     [AVAILABLE := SString(FixAvailable(w.locales, m[AVAILABLE].text, client))]
    ensures var m := old(c.Table(w));
      changed == LocalesChange(w.locales, m[SERVER_LOCALE].text, m[CLIENT_LOCALE].text, m[AVAILABLE].text)
  {
    hide IsLeaf, KindAt, Typed, Complete, Leaves, WellFormed, TableOf, SectionsOk, FlagsOk;
    hide FixAvailable, Split, Join, Dedup;
    ghost var m := c.Table(w);
    changed := false;
    var server := Read(w, c, SERVER_LOCALE).text;
    var available := Read(w, c, AVAILABLE).text;
    SameEntry(m, SERVER_LOCALE);
    if server !in w.locales {
      Write(w, c, SERVER_LOCALE, SString(DEFAULT_LOCALE));
      changed := true;
    }
    ghost var m1 := c.Table(w);
    var client := Read(w, c, CLIENT_LOCALE).text;
    SameEntry(m1, CLIENT_LOCALE);
    if client !in w.locales {
      client := DEFAULT_LOCALE;
      Write(w, c, CLIENT_LOCALE, SString(DEFAULT_LOCALE));
      changed := true;
    }
    ghost var m2 := c.Table(w);
    SameEntry(m2, AVAILABLE);
    FixAvailableEmpties(w.locales, available, client);
    if available != "" {
      var allIn, found := ScanLocales(w.locales, available, client);
      var kept := available;
      if !allIn {
        Write(w, c, AVAILABLE, SString(""));
        kept := "";
        changed := true;
      }
      if !found {
        kept := kept + "," + client;
        changed := true;
      }
      if allIn { RejoinedIsFixed(w.locales, available, client, kept); }
      var distinct := RemoveDuplicates(Split(kept, ','));
      Write(w, c, AVAILABLE, SString(Join(distinct, ',')));
    }
  }

  /** `fixConfig`. */
  method FixConfiguration(w: World, c: Config)
    requires WellFormed(w.Type()) && c.IsWhole(w)
    requires Setting(w, SERVER_LOCALE, KString) && Setting(w, CLIENT_LOCALE, KString) && Setting(w, AVAILABLE, KString)
    requires Setting(w, SITE_URL, KString) && Setting(w, DRIVER, KString) && Setting(w, DIRECTORY, KString)
    modifies c`sections
    ensures c.IsWhole(w)
    ensures HasFixedSettings(old(c.Table(w)))
    ensures c.Table(w) == Fix(w.locales, old(c.Table(w)))
  {
    hide IsLeaf, KindAt, Typed, Complete, Leaves, WellFormed, TableOf, SectionsOk, FlagsOk;
    hide FixAvailable, LocalesChange;
    ghost var m := c.Table(w);
    var url := Read(w, c, SITE_URL).text;
    SameEntry(m, SITE_URL);
    if HasSuffix(url, '/') {
      Write(w, c, SITE_URL, SString(TrimRight(url, '/')));
    }
    var driver, directory := Read(w, c, DRIVER).text, Read(w, c, DIRECTORY).text;
    SameEntry(c.Table(w), DIRECTORY);
    if driver == DRIVER_LOCAL {
      if directory != "" && !HasSuffix(directory, '/') {
        Write(w, c, DIRECTORY, SString(directory + "/"));
      }
    }
    var _ := FixInvalidLocales(w, c);
  }

  // -------------------------------------------------------------------------
  // desanitize
  // -------------------------------------------------------------------------

  /** `Unmask` as far as the settings in `paths` have been gone through. */
  function UnmaskOnly(actual: Table, target: Table, paths: set<Path>): Table {
    map p | p in target :: if p in actual && p in paths then UnmaskLeaf(p, actual[p], target[p]) else target[p]
  }

  lemma UnmaskNone(actual: Table, target: Table)
    ensures UnmaskOnly(actual, target, {}) == target
  {}

  lemma UnmaskLeafTwice(p: Path, actual: Scalar, target: Scalar)
    ensures UnmaskLeaf(p, actual, UnmaskLeaf(p, actual, target)) == UnmaskLeaf(p, actual, target)
  {
    if p !in MASKED_TEXTS {
      if p in MASKED_LISTS && target.SList? {
        var once := UnmaskItems(Items(actual), target.items);
        assert UnmaskItems(Items(actual), once) == once;
      } else if p == PLUGINS && target.SMap? {
        var once := UnmaskPlugins(actual, target.entries);
        forall id | id in once ensures UnmaskSettings(actual, id, once[id]) == once[id] {
          assert once[id] == UnmaskSettings(actual, id, target.entries[id]);
        }
        assert UnmaskPlugins(actual, once) == once;
      }
    }
  }

  /** Going through one more setting, or through one again. */
  lemma UnmaskOneMore(actual: Table, target: Table, paths: set<Path>, p: Path)
    requires p in target && p in actual
    ensures var current := UnmaskOnly(actual, target, paths);
      current[p := UnmaskLeaf(p, actual[p], current[p])] == UnmaskOnly(actual, target, paths + {p})
  {
    UnmaskLeafTwice(p, actual[p], target[p]);
  }

  /** Only the named settings can hold a placeholder. */
  lemma UnmaskRest(actual: Table, target: Table, paths: set<Path>)
    requires forall p :: p in MASKED_TEXTS || p in MASKED_LISTS || p == PLUGINS ==> p in paths
    ensures UnmaskOnly(actual, target, paths) == Unmask(actual, target)
  {}

  ghost predicate Unmasking(w: World, actual: Config, target: Config, given: Table, paths: set<Path>)
    requires WellFormed(w.Type())
    reads actual, actual.flags, target, target.flags
  {
    actual.IsWhole(w) && target.IsWhole(w) && target.Table(w) == UnmaskOnly(actual.Table(w), given, paths)
  }

  /** One of the single-value settings. */
  method UnmaskText(w: World, actual: Config, target: Config, p: Path, ghost given: Table, ghost paths: set<Path>)
    requires WellFormed(w.Type()) && Unmasking(w, actual, target, given, paths) && actual != target
    requires p in MASKED_TEXTS && Setting(w, p, KString)
    modifies target`sections
    ensures Unmasking(w, actual, target, given, paths + {p})
  {
    hide IsLeaf, KindAt, Typed, Complete, Leaves, WellFormed, TableOf, SectionsOk, FlagsOk;
    ghost var a := actual.Table(w);
    var x, y := Read(w, target, p), Read(w, actual, p);
    SameEntry(target.Table(w), p);
    UnmaskOneMore(a, given, paths, p);
    if x.text == FAKE {
      Write(w, target, p, y);
    }
  }

  /** One of the replica lists. */
  method UnmaskList(w: World, actual: Config, target: Config, p: Path, ghost given: Table, ghost paths: set<Path>)
    requires WellFormed(w.Type()) && Unmasking(w, actual, target, given, paths) && actual != target
    requires p in MASKED_LISTS && Setting(w, p, KList)
    modifies target`sections
    ensures Unmasking(w, actual, target, given, paths + {p})
  {
    hide IsLeaf, KindAt, Typed, Complete, Leaves, WellFormed, TableOf, SectionsOk, FlagsOk;
    ghost var a := actual.Table(w);
    var x, y := Read(w, target, p), Read(w, actual, p);
    SameEntry(target.Table(w), p);
    UnmaskOneMore(a, given, paths, p);
    if x.SList? {
      var items := new string[|x.items|](i requires 0 <= i < |x.items| => x.items[i]);
      assert items[..] == x.items;
      UnmaskItemsInPlace(items, Items(y));
      Write(w, target, p, SList(items[..]));
    }
  }

  method UnmaskPluginSettings(w: World, actual: Config, target: Config, ghost given: Table, ghost paths: set<Path>)
    requires WellFormed(w.Type()) && Unmasking(w, actual, target, given, paths) && actual != target
    requires Setting(w, PLUGINS, KMap)
    modifies target`sections
    ensures Unmasking(w, actual, target, given, paths + {PLUGINS})
  {
    hide IsLeaf, KindAt, Typed, Complete, Leaves, WellFormed, TableOf, SectionsOk, FlagsOk;
    ghost var a := actual.Table(w);
    var x, y := Read(w, target, PLUGINS), Read(w, actual, PLUGINS);
    SameEntry(target.Table(w), PLUGINS);
    UnmaskOneMore(a, given, paths, PLUGINS);
    if x.SMap? {
      var entries := UnmaskPluginsByRange(x.entries, y);
      Write(w, target, PLUGINS, SMap(entries));
    }
  }

  /** `desanitize`. */
  method DesanitizeInto(w: World, actual: Config, target: Config)
    requires WellFormed(w.Type()) && actual.IsWhole(w) && target.IsWhole(w) && actual != target
    requires forall p :: p in MASKED_TEXTS ==> Setting(w, p, KString)
    requires forall p :: p in MASKED_LISTS ==> Setting(w, p, KList)
    requires Setting(w, PLUGINS, KMap)
    modifies target`sections
    ensures target.IsWhole(w) && target.Table(w) == Unmask(old(actual.Table(w)), old(target.Table(w)))
  {
    hide IsLeaf, KindAt, Typed, Complete, Leaves, WellFormed, UnmaskOnly, Unmask, SectionsOk, FlagsOk, TableOf, Setting;
    ghost var a, t := actual.Table(w), target.Table(w);
    UnmaskNone(a, t);
    ghost var s: set<Path> := {};
    UnmaskText(w, actual, target, ["LdapSettings", "BindPassword"], t, s);
    s := s + {["LdapSettings", "BindPassword"]};
    UnmaskText(w, actual, target, ["FileSettings", "PublicLinkSalt"], t, s);
    s := s + {["FileSettings", "PublicLinkSalt"]};
    UnmaskText(w, actual, target, ["FileSettings", "AmazonS3SecretAccessKey"], t, s);
    s := s + {["FileSettings", "AmazonS3SecretAccessKey"]};
    UnmaskText(w, actual, target, ["EmailSettings", "SMTPPassword"], t, s);
    s := s + {["EmailSettings", "SMTPPassword"]};
    UnmaskText(w, actual, target, ["OpenIdSettings", "Secret"], t, s);
    s := s + {["OpenIdSettings", "Secret"]};
    UnmaskText(w, actual, target, ["SqlSettings", "DataSource"], t, s);
    s := s + {["SqlSettings", "DataSource"]};
    UnmaskText(w, actual, target, ["SqlSettings", "AtRestEncryptKey"], t, s);
    s := s + {["SqlSettings", "AtRestEncryptKey"]};
    UnmaskText(w, actual, target, ["ElasticsearchSettings", "Password"], t, s);
    s := s + {["ElasticsearchSettings", "Password"]};
    UnmaskList(w, actual, target, ["SqlSettings", "DataSourceReplicas"], t, s);
    s := s + {["SqlSettings", "DataSourceReplicas"]};
    UnmaskList(w, actual, target, ["SqlSettings", "DataSourceSearchReplicas"], t, s);
    s := s + {["SqlSettings", "DataSourceSearchReplicas"]};
    UnmaskText(w, actual, target, ["MessageExportSettings", "GlobalRelaySettings", "SMTPPassword"], t, s);
    s := s + {["MessageExportSettings", "GlobalRelaySettings", "SMTPPassword"]};
    UnmaskText(w, actual, target, ["ServiceSettings", "SplitKey"], t, s);
    s := s + {["ServiceSettings", "SplitKey"]};
    UnmaskPluginSettings(w, actual, target, t, s);
    s := s + {PLUGINS};
    UnmaskRest(a, t, s);
  }
}

/** Repairing settings that depend on each other. */
module FixConfig {
  import opened Text
  import opened ConfigTree

  const DEFAULT_LOCALE := "ru"
  const DRIVER_LOCAL := "local"

  // -------------------------------------------------------------------------
  // The repairs, one setting at a time
  // -------------------------------------------------------------------------

  function FixSiteURL(url: string): string {
    TrimRight(url, '/')
  }

  function FixDirectory(driver: string, directory: string): string {
    if driver == DRIVER_LOCAL && directory != "" && !HasSuffix(directory, '/') then directory + "/"
    else directory
  }

  function FixLocale(locales: set<string>, locale: string): string {
    if locale in locales then locale else DEFAULT_LOCALE
  }

  predicate AllIn(words: seq<string>, locales: set<string>) {
    forall i :: 0 <= i < |words| ==> words[i] in locales
  }

  /** `AvailableLocales` once the default client locale is `client`. */
  function FixAvailable(locales: set<string>, available: string, client: string): string {
    if available == "" then ""
    else
      var words := Split(available, ',');
      if !AllIn(words, locales) then ""
      else Join(Dedup(if client in words then words else words + Split(client, ',')), ',')
  }

  /** What `fixInvalidLocales` returns. */
  predicate LocalesChange(locales: set<string>, server: string, client: string, available: string) {
    || server !in locales
    || client !in locales
    || (available != "" &&
        var words := Split(available, ',');
        !AllIn(words, locales) || FixLocale(locales, client) !in words)
  }

  /** Locale codes name translation files; none of them holds a comma. */
  ghost predicate CommaFree(locales: set<string>) {
    forall l :: l in locales ==> FreeOf(l, ',')
  }

  /** Either nothing is supported (translations not loaded) or the fallback is. */
  predicate FallbackSupported(locales: set<string>) {
    DEFAULT_LOCALE in locales || locales == {}
  }

  lemma DefaultLocaleHasNoComma()
    ensures FreeOf(DEFAULT_LOCALE, ',')
  {}

  /** The word list a repaired, non-empty `AvailableLocales` spells. */
  lemma FixedWords(locales: set<string>, available: string, client: string)
    requires available != "" && AllIn(Split(available, ','), locales)
    requires FreeOf(client, ',')
    ensures var words := Split(available, ',');
      Split(FixAvailable(locales, available, client), ',') ==
      Dedup(if client in words then words else words + [client])
  {
    var words := Split(available, ',');
    var all := if client in words then words else words + [client];
    SplitOfWord(client, ',');
    SplitWordsAreFree(available, ',');
    DedupKeepsWords(all);
    assert AllFreeOf(Dedup(all), ',') by {
      forall i | 0 <= i < |Dedup(all)| ensures FreeOf(Dedup(all)[i], ',') {
        assert Dedup(all)[i] in all;
        if Dedup(all)[i] != client {
          var j :| 0 <= j < |words| && words[j] == Dedup(all)[i];
          assert FreeOf(words[j], ',');
        }
      }
    }
    SplitOfJoin(Dedup(all), ',');
  }

  /** After the repair the list is empty, or a duplicate-free list of supported locales
      that contains the default client locale. */
  lemma AvailableAfterFix(locales: set<string>, available: string, client: string)
    requires client in locales && CommaFree(locales)
    ensures var fixed := FixAvailable(locales, available, client);
      fixed == "" ||
      var words := Split(fixed, ',');
      NoDuplicates(words) && AllIn(words, locales) && client in words
  {
    if available != "" && AllIn(Split(available, ','), locales) {
      FixedWords(locales, available, client);
      var words := Split(available, ',');
      var all := if client in words then words else words + [client];
      DedupKeepsWords(all);
      forall i | 0 <= i < |Dedup(all)| ensures Dedup(all)[i] in locales {
        assert Dedup(all)[i] in all;
      }
    }
  }

  lemma FixAvailableTwice(locales: set<string>, available: string, client: string)
    requires client in locales && CommaFree(locales)
    ensures var fixed := FixAvailable(locales, available, client);
      FixAvailable(locales, fixed, client) == fixed
  {
    var fixed := FixAvailable(locales, available, client);
    AvailableAfterFix(locales, available, client);
    if fixed != "" {
      DedupOfDistinct(Split(fixed, ','));
      JoinOfSplit(fixed, ',');
    }
  }

  lemma UnsupportedClientEmpties(locales: set<string>, available: string, client: string)
    requires locales == {}
    ensures FixAvailable(locales, available, client) == ""
  {
    assert Split(available, ',')[0] !in locales;
  }

  /** The locale repairs, together, are idempotent for every input exactly when the
      fallback locale is supported (or none is). */
  lemma LocalesIdempotentIff(locales: set<string>)
    requires CommaFree(locales)
    ensures FallbackSupported(locales) <==>
      forall available, client ::
        var fixed := FixAvailable(locales, available, FixLocale(locales, client));
        FixAvailable(locales, fixed, FixLocale(locales, client)) == fixed
  {
    if FallbackSupported(locales) {
      forall available, client
        ensures var fixed := FixAvailable(locales, available, FixLocale(locales, client));
          FixAvailable(locales, fixed, FixLocale(locales, client)) == fixed
      {
        if locales == {} {
          UnsupportedClientEmpties(locales, available, FixLocale(locales, client));
        } else {
          FixAvailableTwice(locales, available, FixLocale(locales, client));
        }
      }
    } else {
      FallbackIsDroppedAgain(locales);
    }
  }

  /** With an unsupported fallback, a list naming one supported locale first gains the
      fallback and then, on the next repair, is thrown away because of it. */
  lemma FallbackIsDroppedAgain(locales: set<string>)
    requires CommaFree(locales) && locales != {} && DEFAULT_LOCALE !in locales
    ensures exists available, client ::
      var fixed := FixAvailable(locales, available, FixLocale(locales, client));
      FixAvailable(locales, fixed, FixLocale(locales, client)) != fixed
  {
    var word :| word in locales && (word != "" || locales == {""});
    var client := DEFAULT_LOCALE;
    DefaultLocaleHasNoComma();
    SplitOfWord(word, ',');
    var available := if word == "" then "," else word;
    if word == "" {
      assert Split(",", ',') == ["", ""] by {
        SplitOfConcat("", ',', "");
        assert "" + [','] + "" == ",";
      }
    }
    var words := Split(available, ',');
    assert AllIn(words, locales) && client !in words;
    FixedWords(locales, available, client);
    var fixed := FixAvailable(locales, available, client);
    DedupKeepsWords(words + [client]);
    assert client in words + [client];
    assert client in Split(fixed, ',');
    assert !AllIn(Split(fixed, ','), locales);
    assert client !in Split("", ',');
    assert fixed != "";
    assert FixLocale(locales, client) == client;
    assert fixed == FixAvailable(locales, available, FixLocale(locales, client));
    assert FixAvailable(locales, fixed, FixLocale(locales, client)) == "" != fixed;
  }

  /** Some locale setting is not what it was. */
  predicate LocalesDiffer(locales: set<string>, server: string, client: string, available: string) {
    || FixLocale(locales, server) != server
    || FixLocale(locales, client) != client
    || FixAvailable(locales, available, FixLocale(locales, client)) != available
  }

  lemma AvailableDiffersIff(locales: set<string>, available: string, client: string)
    requires FreeOf(client, ',')
    ensures FixAvailable(locales, available, client) != available <==>
      available != "" &&
      var words := Split(available, ',');
      !AllIn(words, locales) || client !in words || !NoDuplicates(words)
  {
    if available != "" && AllIn(Split(available, ','), locales) {
      var words := Split(available, ',');
      FixedWords(locales, available, client);
      JoinOfSplit(available, ',');
      if client in words {
        if NoDuplicates(words) { DedupOfDistinct(words); } else { DedupShrinks(words); }
      } else {
        DedupKeepsWords(words + [client]);
        assert client in words + [client];
      }
    }
  }

  /** What `changed` says is what happened, with two exceptions. A duplicate dropped from the
      list goes unreported. And replacing an unsupported fallback by itself is reported. */
  lemma ChangedIffDifferent(locales: set<string>, server: string, client: string, available: string)
    requires CommaFree(locales)
    ensures
      var changed := LocalesChange(locales, server, client, available);
      var differ := LocalesDiffer(locales, server, client, available);
      && (differ && !changed <==> !changed && available != "" && !NoDuplicates(Split(available, ',')))
      && (changed && !differ <==> !differ && DEFAULT_LOCALE !in locales && DEFAULT_LOCALE in {server, client})
  {
    hide FixAvailable, Split, AllIn, NoDuplicates;
    assert FreeOf(FixLocale(locales, client), ',');
    AvailableDiffersIff(locales, available, FixLocale(locales, client));
  }

  /** While no translations are loaded `changed` is always reported. */
  lemma ChangedWithoutLocales(server: string, client: string, available: string)
    ensures LocalesChange({}, server, client, available)
    ensures LocalesDiffer({}, server, client, available) <==>
      server != DEFAULT_LOCALE || client != DEFAULT_LOCALE || available != ""
  {
    if available != "" {
      UnsupportedClientEmpties({}, available, DEFAULT_LOCALE);
    }
  }

  // -------------------------------------------------------------------------
  // The repairs on a table of settings
  // -------------------------------------------------------------------------

  const SITE_URL: Path := ["ServiceSettings", "SiteURL"]
  const DRIVER: Path := ["FileSettings", "DriverName"]
  const DIRECTORY: Path := ["FileSettings", "Directory"]
  const SERVER_LOCALE: Path := ["LocalizationSettings", "DefaultServerLocale"]
  const CLIENT_LOCALE: Path := ["LocalizationSettings", "DefaultClientLocale"]
  const AVAILABLE: Path := ["LocalizationSettings", "AvailableLocales"]

  const FIXED_PATHS: set<Path> := {SITE_URL, DRIVER, DIRECTORY, SERVER_LOCALE, CLIENT_LOCALE, AVAILABLE}

  predicate HasText(m: Table, p: Path) {
    p in m && m[p].SString?
  }

  predicate HasFixedSettings(m: Table) {
    && HasText(m, SITE_URL) && HasText(m, DRIVER) && HasText(m, DIRECTORY)
    && HasText(m, SERVER_LOCALE) && HasText(m, CLIENT_LOCALE) && HasText(m, AVAILABLE)
  }

  /** `fixConfig`. */
  function Fix(locales: set<string>, m: Table): (fixed: Table)
    requires HasFixedSettings(m)
    ensures fixed.Keys == m.Keys && HasFixedSettings(fixed)
  {
    var client := FixLocale(locales, m[CLIENT_LOCALE].text);
    m[SITE_URL := SString(FixSiteURL(m[SITE_URL].text))]
     [DIRECTORY := SString(FixDirectory(m[DRIVER].text, m[DIRECTORY].text))]
     [SERVER_LOCALE := SString(FixLocale(locales, m[SERVER_LOCALE].text))]
     [CLIENT_LOCALE := SString(client)]
     [AVAILABLE := SString(FixAvailable(locales, m[AVAILABLE].text, client))]
  }

  /** Only the settings named above change, and they stay texts. */
  lemma FixTouches(locales: set<string>, m: Table, p: Path)
    requires HasFixedSettings(m) && p in m
    ensures Fix(locales, m)[p] == m[p] || (p in FIXED_PATHS && Fix(locales, m)[p].SString?)
  {}

  /** A repaired value survives being repaired again beside the same neighbours. */
  lemma FixedStayFixed(locales: set<string>, url: string, driver: string, directory: string, locale: string,
                       available: string, client: string)
    requires CommaFree(locales) && FallbackSupported(locales)
    ensures FixSiteURL(FixSiteURL(url)) == FixSiteURL(url)
    ensures FixDirectory(driver, FixDirectory(driver, directory)) == FixDirectory(driver, directory)
    ensures FixLocale(locales, FixLocale(locales, locale)) == FixLocale(locales, locale)
    ensures var c := FixLocale(locales, client);
      FixAvailable(locales, FixAvailable(locales, available, c), c) == FixAvailable(locales, available, c)
  {
    LocalesIdempotentIff(locales);
  }

  /** Repairing, overwriting some leaves with what they held before the repair, and repairing
      again changes nothing. With no leaf overwritten this is idempotence. */
  lemma FixOverwriteFix(locales: set<string>, m: Table, overwrite: Table)
    requires HasFixedSettings(m) && CommaFree(locales) && FallbackSupported(locales)
    requires overwrite.Keys <= m.Keys && forall p :: p in overwrite ==> m[p] == overwrite[p]
    ensures HasFixedSettings(Fix(locales, m) + overwrite)
    ensures Fix(locales, Fix(locales, m) + overwrite) == Fix(locales, m)
  {
    hide FixSiteURL, FixDirectory, FixLocale, FixAvailable, CommaFree, FallbackSupported;
    FixedStayFixed(locales, m[SITE_URL].text, m[DRIVER].text, m[DIRECTORY].text, m[SERVER_LOCALE].text,
                   m[AVAILABLE].text, m[CLIENT_LOCALE].text);
    FixedStayFixed(locales, m[SITE_URL].text, m[DRIVER].text, m[DIRECTORY].text, m[CLIENT_LOCALE].text,
                   m[AVAILABLE].text, m[CLIENT_LOCALE].text);
    var once := Fix(locales, m);
    var twice := Fix(locales, once + overwrite);
    assert forall p :: p in once ==> twice[p] == once[p];
  }

  function Sample(client: string, available: string): (m: Table)
    ensures HasFixedSettings(m)
    ensures m[CLIENT_LOCALE] == SString(client) && m[AVAILABLE] == SString(available)
  {
    map[SITE_URL := SString(""), DRIVER := SString(""), DIRECTORY := SString(""),
        SERVER_LOCALE := SString(""), CLIENT_LOCALE := SString(client), AVAILABLE := SString(available)]
  }

  /** `fixConfig` is idempotent on every configuration exactly when the fallback locale is
      supported, or no locale is. */
  lemma FixIdempotentIff(locales: set<string>)
    requires CommaFree(locales)
    ensures FallbackSupported(locales) <==>
      forall m :: HasFixedSettings(m) ==> Fix(locales, Fix(locales, m)) == Fix(locales, m)
  {
    if FallbackSupported(locales) {
      forall m | HasFixedSettings(m) ensures Fix(locales, Fix(locales, m)) == Fix(locales, m) {
        FixIsIdempotent(locales, m);
      }
    } else {
      LocalesIdempotentIff(locales);
      var available, client :|
        FixAvailable(locales, FixAvailable(locales, available, FixLocale(locales, client)), FixLocale(locales, client))
        != FixAvailable(locales, available, FixLocale(locales, client));
      var m := Sample(client, available);
      var once := Fix(locales, m);
      FixedLocales(locales, m);
      FixedLocales(locales, once);
      assert once[AVAILABLE] != Fix(locales, once)[AVAILABLE];
    }
  }

  ghost predicate AllSlashes(s: string) {
    forall i :: 0 <= i < |s| ==> s[i] == '/'
  }

  /** The site URL loses all its trailing slashes, and nothing else. */
  lemma SiteURLAfterFix(url: string)
    ensures FixSiteURL(url) <= url && AllSlashes(url[|FixSiteURL(url)|..])
    ensures forall rest :: FixSiteURL(url) != rest + "/"
  {
    forall rest ensures FixSiteURL(url) != rest + "/" {
      assert HasSuffix(rest + "/", '/');
    }
  }

  /** The directory of the local driver is empty or ends in a slash, one being added where it is
      missing; that of any other driver is left as it was. */
  lemma DirectoryAfterFix(driver: string, directory: string)
    ensures var fixed := FixDirectory(driver, directory);
      if driver == "local" && directory != ""
      then directory <= fixed && |fixed| <= |directory| + 1 && (exists rest :: fixed == rest + "/")
           && (fixed == directory <==> exists rest :: directory == rest + "/")
      else fixed == directory
  {
    var fixed := FixDirectory(driver, directory);
    if driver == "local" && directory != "" {
      assert fixed == fixed[..|fixed| - 1] + "/";
      if fixed == directory {
        assert directory == directory[..|directory| - 1] + "/";
      } else {
        assert forall rest :: directory == rest + "/" ==> HasSuffix(directory, '/');
      }
    }
  }

  /** A list of supported locales keeps its locales, each once, in the order in which they came
      up first; after them comes the default client locale if it was missing. */
  lemma AvailableKeepsItsLocales(locales: set<string>, available: string, client: string)
    requires available != "" && AllIn(Split(available, ','), locales) && FreeOf(client, ',')
    ensures var words, fixed := Split(available, ','), Split(FixAvailable(locales, available, client), ',');
      && (forall w :: w in fixed <==> w in words || w == client)
      && (forall i, j :: 0 <= i < j < |fixed| && fixed[j] in words ==>
            fixed[i] in words && FirstIndex(words, fixed[i]) < FirstIndex(words, fixed[j]))
  {
    var words, fixed := Split(available, ','), Split(FixAvailable(locales, available, client), ',');
    FixedWords(locales, available, client);
    DedupKeepsWords(words);
    if client in words {
      forall i, j | 0 <= i < j < |fixed|
        ensures fixed[i] in words && fixed[j] in words
        ensures FirstIndex(words, fixed[i]) < FirstIndex(words, fixed[j])
      {
        DedupKeepsOrder(words, i, j);
      }
    } else {
      assert (words + [client])[..|words|] == words;
      assert fixed == Dedup(words) + [client];
      forall i, j | 0 <= i < j < |fixed| && fixed[j] in words
        ensures fixed[i] in words && FirstIndex(words, fixed[i]) < FirstIndex(words, fixed[j])
      {
        DedupKeepsOrder(words, i, j);
      }
    }
  }

  /** `fixConfig`, setting by setting: every setting it does not name stays. */
  lemma AfterFix(locales: set<string>, m: Table)
    requires HasFixedSettings(m)
    ensures var fixed := Fix(locales, m);
      var server, client := m[SERVER_LOCALE].text, m[CLIENT_LOCALE].text;
      && fixed.Keys == m.Keys && HasFixedSettings(fixed)
      && fixed[SITE_URL].text == FixSiteURL(m[SITE_URL].text)
      && fixed[DIRECTORY].text == FixDirectory(m[DRIVER].text, m[DIRECTORY].text)
      && fixed[SERVER_LOCALE].text == (if server in locales then server else "ru")
      && fixed[CLIENT_LOCALE].text == (if client in locales then client else "ru")
      && fixed[AVAILABLE].text == FixAvailable(locales, m[AVAILABLE].text, fixed[CLIENT_LOCALE].text)
      && forall p :: p in m && p !in FIXED_PATHS - {DRIVER} ==> fixed[p] == m[p]
  {
    hide FixSiteURL, FixDirectory, FixAvailable;
  }

  lemma FixedLocales(locales: set<string>, m: Table)
    requires HasFixedSettings(m)
    ensures Fix(locales, m)[CLIENT_LOCALE] == SString(FixLocale(locales, m[CLIENT_LOCALE].text))
    ensures Fix(locales, m)[AVAILABLE] ==
      SString(FixAvailable(locales, m[AVAILABLE].text, FixLocale(locales, m[CLIENT_LOCALE].text)))
  {}

  lemma FixIsIdempotent(locales: set<string>, m: Table)
    requires HasFixedSettings(m) && CommaFree(locales) && FallbackSupported(locales)
    ensures Fix(locales, Fix(locales, m)) == Fix(locales, m)
  {
    FixOverwriteFix(locales, m, map[]);
    assert Fix(locales, m) + map[] == Fix(locales, m);
  }
}

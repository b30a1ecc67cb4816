/** Putting real secrets back where the placeholder was received. */
module Desanitize {
  import opened ConfigTree

  const FAKE := "********************************"

  const MASKED_TEXTS: set<Path> := {
    ["LdapSettings", "BindPassword"],
    ["FileSettings", "PublicLinkSalt"],
    ["FileSettings", "AmazonS3SecretAccessKey"],
    ["EmailSettings", "SMTPPassword"],
    ["OpenIdSettings", "Secret"],
    ["SqlSettings", "DataSource"],
    ["SqlSettings", "AtRestEncryptKey"],
    ["ElasticsearchSettings", "Password"],
    ["MessageExportSettings", "GlobalRelaySettings", "SMTPPassword"],
    ["ServiceSettings", "SplitKey"]
  }

  const MASKED_LISTS: set<Path> := {
    ["SqlSettings", "DataSourceReplicas"],
    ["SqlSettings", "DataSourceSearchReplicas"]
  }

  const PLUGINS: Path := ["PluginSettings", "Plugins"]

  function Items(x: Scalar): seq<string> {
    if x.SList? then x.items else []
  }

  function UnmaskItems(actual: seq<string>, target: seq<string>): (r: seq<string>)
    ensures |r| == |target|
  {
    if |actual| != |target| then target
    else seq(|target|, i requires 0 <= i < |target| => if target[i] == FAKE then actual[i] else target[i])
  }

  /** `actual.PluginSettings.Plugins[id][k]`, nil when there is no such entry. */
  function PluginEntry(actual: Scalar, id: string, k: string): Json {
    if actual.SMap? && id in actual.entries && k in actual.entries[id] then actual.entries[id][k] else JNull
  }

  function UnmaskEntry(actual: Scalar, id: string, k: string, v: Json): Json {
    if v == JText(FAKE) then PluginEntry(actual, id, k) else v
  }

  function UnmaskSettings(actual: Scalar, id: string, settings: map<string, Json>): map<string, Json> {
    map k | k in settings :: UnmaskEntry(actual, id, k, settings[k])
  }

  function UnmaskPlugins(actual: Scalar, target: Plugins): Plugins {
    map id | id in target :: UnmaskSettings(actual, id, target[id])
  }

  /** What `desanitize` makes of one leaf. */
  function UnmaskLeaf(p: Path, actual: Scalar, target: Scalar): Scalar {
    if p in MASKED_TEXTS then if target == SString(FAKE) then actual else target
    else if p in MASKED_LISTS && target.SList? then SList(UnmaskItems(Items(actual), target.items))
    else if p == PLUGINS && target.SMap? then SMap(UnmaskPlugins(actual, target.entries))
    else target
  }

  /** `desanitize`. */
  function Unmask(actual: Table, target: Table): (r: Table)
    ensures r.Keys == target.Keys
  {
    map p | p in target :: if p in actual then UnmaskLeaf(p, actual[p], target[p]) else target[p]
  }

  // -------------------------------------------------------------------------
  // Masking and unmasking
  // -------------------------------------------------------------------------

  ghost predicate MaskedItems(actual: seq<string>, shown: seq<string>) {
    |shown| == |actual| && forall i :: 0 <= i < |shown| ==> shown[i] == actual[i] || shown[i] == FAKE
  }

  ghost predicate MaskedSettings(actual: map<string, Json>, shown: map<string, Json>) {
    shown.Keys == actual.Keys && forall k :: k in shown ==> shown[k] == actual[k] || shown[k] == JText(FAKE)
  }

  ghost predicate MaskedPlugins(actual: Plugins, shown: Plugins) {
    shown.Keys == actual.Keys && forall id :: id in shown ==> MaskedSettings(actual[id], shown[id])
  }

  /** `shown` is `actual` with the placeholder over any part of it that may be hidden. */
  ghost predicate MaskedLeaf(p: Path, actual: Scalar, shown: Scalar) {
    || shown == actual
    || (p in MASKED_TEXTS && shown == SString(FAKE))
    || (p in MASKED_LISTS && actual.SList? && shown.SList? && MaskedItems(actual.items, shown.items))
    || (p == PLUGINS && actual.SMap? && shown.SMap? && MaskedPlugins(actual.entries, shown.entries))
  }

  ghost predicate Masked(actual: Table, shown: Table) {
    shown.Keys == actual.Keys && forall p :: p in shown ==> MaskedLeaf(p, actual[p], shown[p])
  }

  lemma UnmaskMaskedPlugins(actual: Scalar, shown: Plugins)
    requires actual.SMap? && MaskedPlugins(actual.entries, shown)
    ensures UnmaskPlugins(actual, shown) == actual.entries
  {
    forall id | id in shown ensures UnmaskSettings(actual, id, shown[id]) == actual.entries[id] {
      assert MaskedSettings(actual.entries[id], shown[id]);
    }
  }

  lemma UnmaskMaskedLeaf(p: Path, actual: Scalar, shown: Scalar)
    requires MaskedLeaf(p, actual, shown)
    ensures UnmaskLeaf(p, actual, shown) == actual
  {
    if p !in MASKED_TEXTS {
      if p in MASKED_LISTS && shown.SList? {
        assert MaskedItems(Items(actual), shown.items);
        assert UnmaskItems(Items(actual), shown.items) == Items(actual);
      } else if p == PLUGINS && shown.SMap? {
        assert actual.SMap? && MaskedPlugins(actual.entries, shown.entries);
        UnmaskMaskedPlugins(actual, shown.entries);
      }
    }
  }

  /** Whatever subset of the secrets was hidden, all of it comes back. */
  lemma UnmaskMasked(actual: Table, shown: Table)
    requires Masked(actual, shown)
    ensures Unmask(actual, shown) == actual
  {
    forall p | p in shown ensures UnmaskLeaf(p, actual[p], shown[p]) == actual[p] {
      UnmaskMaskedLeaf(p, actual[p], shown[p]);
    }
  }

  ghost predicate NoPlaceholderIn(p: Path, x: Scalar) {
    && (p in MASKED_TEXTS ==> x != SString(FAKE))
    && (p in MASKED_LISTS && x.SList? ==> FAKE !in x.items)
    && (p == PLUGINS && x.SMap? ==>
          forall id, k :: id in x.entries && k in x.entries[id] ==> x.entries[id][k] != JText(FAKE))
  }

  ghost predicate NoPlaceholders(m: Table) {
    forall p :: p in m ==> NoPlaceholderIn(p, m[p])
  }

  /** A leaf that holds no placeholder is left as it was given. */
  lemma UnmaskLeavesTheRest(actual: Table, target: Table, p: Path)
    requires p in target && NoPlaceholderIn(p, target[p])
    ensures Unmask(actual, target)[p] == target[p]
  {
    var x := target[p];
    if p in actual && p !in MASKED_TEXTS {
      if p in MASKED_LISTS && x.SList? {
        assert UnmaskItems(Items(actual[p]), x.items) == x.items;
      } else if p == PLUGINS && x.SMap? {
        forall id | id in x.entries ensures UnmaskSettings(actual[p], id, x.entries[id]) == x.entries[id] {
        }
        assert UnmaskPlugins(actual[p], x.entries) == x.entries;
      }
    }
  }

  // -------------------------------------------------------------------------
  // Place by place
  // -------------------------------------------------------------------------

  /** What is submitted in one place of a list has no influence on any other place. */
  lemma ItemsAreIndependent(actual: seq<string>, target: seq<string>, i: nat, x: string, j: nat)
    requires i < |target| && j < |target| && i != j
    ensures UnmaskItems(actual, target[i := x])[j] == UnmaskItems(actual, target)[j]
  {}

  /** Nor has what is submitted for one plugin setting on another setting or another plugin. */
  lemma PluginsAreIndependent(actual: Scalar, target: Plugins, id: string, k: string, x: Json, jd: string, l: string)
    requires id in target && jd in target && l in target[jd] && (id, k) != (jd, l)
    ensures UnmaskPlugins(actual, target[id := target[id][k := x]])[jd][l] == UnmaskPlugins(actual, target)[jd][l]
  {}

  /** Nor has one setting of the configuration, current or submitted, on another one. */
  lemma SettingsAreIndependent(actual: Table, target: Table, p: Path, x: Scalar, q: Path)
    requires q in target && p != q
    ensures Unmask(actual, target[p := x])[q] == Unmask(actual, target)[q] == Unmask(actual[p := x], target)[q]
  {
    hide UnmaskLeaf;
  }

  /** A masked plugin setting that the plugin does not have becomes nil. */
  lemma MissingBecomesNil(actual: Scalar, target: Plugins, id: string, k: string)
    requires id in target && k in target[id] && target[id][k] == JText(FAKE)
    requires actual.SMap? && id in actual.entries ==> k !in actual.entries[id]
    ensures UnmaskPlugins(actual, target)[id][k] == JNull
  {}

  /** There is something else behind every placeholder of a list: the lists are equally long, and
      the current one holds no placeholder in that place. */
  ghost predicate RecoverableItems(actual: seq<string>, target: seq<string>) {
    FAKE in target ==>
      |actual| == |target| && forall i :: 0 <= i < |target| && target[i] == FAKE ==> actual[i] != FAKE
  }

  /** The same for the plugin settings; one that the plugin does not have becomes nil. */
  ghost predicate RecoverablePlugins(actual: Scalar, target: Plugins) {
    forall id, k :: id in target && k in target[id] && target[id][k] == JText(FAKE) ==>
      PluginEntry(actual, id, k) != JText(FAKE)
  }

  ghost predicate Recoverable(p: Path, actual: Scalar, target: Scalar) {
    && (p in MASKED_TEXTS && target == SString(FAKE) ==> actual != SString(FAKE))
    && (p in MASKED_LISTS && target.SList? ==> RecoverableItems(Items(actual), target.items))
    && (p == PLUGINS && target.SMap? ==> RecoverablePlugins(actual, target.entries))
  }

  lemma ItemsRecoveredIff(actual: seq<string>, target: seq<string>)
    ensures FAKE !in UnmaskItems(actual, target) <==> RecoverableItems(actual, target)
  {
    var r := UnmaskItems(actual, target);
    if !RecoverableItems(actual, target) && |actual| == |target| {
      var i :| 0 <= i < |target| && target[i] == FAKE && actual[i] == FAKE;
      assert r[i] == FAKE;
    }
  }

  lemma PluginsRecoveredIff(actual: Scalar, target: Plugins)
    ensures NoPlaceholderIn(PLUGINS, SMap(UnmaskPlugins(actual, target))) <==> RecoverablePlugins(actual, target)
  {
    hide PluginEntry;
    var r := UnmaskPlugins(actual, target);
    assert forall id :: id in target ==> r[id].Keys == target[id].Keys;
    if !RecoverablePlugins(actual, target) {
      var id, k :| id in target && k in target[id] && target[id][k] == JText(FAKE)
                   && PluginEntry(actual, id, k) == JText(FAKE);
      assert r[id][k] == JText(FAKE);
    } else {
      forall id, k | id in r && k in r[id] ensures r[id][k] != JText(FAKE) {
        assert k in target[id];
        assert r[id][k] == UnmaskEntry(actual, id, k, target[id][k]);
      }
    }
  }

  /** No placeholder is left in a setting if and only if there is something else behind each. */
  lemma RecoveredIff(actual: Table, target: Table, p: Path)
    requires p in actual && p in target
    ensures NoPlaceholderIn(p, Unmask(actual, target)[p]) <==> Recoverable(p, actual[p], target[p])
  {
    var a, t := actual[p], target[p];
    if p in MASKED_LISTS && t.SList? {
      ItemsRecoveredIff(Items(a), t.items);
    } else if p == PLUGINS && t.SMap? {
      PluginsRecoveredIff(a, t.entries);
    }
  }

  /** So if the current configuration holds no placeholder, none is left exactly if the lists with
      a placeholder are as long as the current ones. */
  lemma NoneLeftIffSameLength(actual: Table, target: Table)
    requires NoPlaceholders(actual) && target.Keys <= actual.Keys
    ensures NoPlaceholders(Unmask(actual, target)) <==>
      forall p :: p in target && p in MASKED_LISTS && target[p].SList? && FAKE in target[p].items ==>
        |Items(actual[p])| == |target[p].items|
  {
    var r := Unmask(actual, target);
    forall p | p in target
      ensures NoPlaceholderIn(p, r[p]) <==>
        (p in MASKED_LISTS && target[p].SList? && FAKE in target[p].items ==>
           |Items(actual[p])| == |target[p].items|)
    {
      RecoveredIff(actual, target, p);
      assert NoPlaceholderIn(p, actual[p]);
    }
  }

  // -------------------------------------------------------------------------
  // The loops
  // -------------------------------------------------------------------------

  /** The replica loop, in place over the target's slice. */
  method UnmaskItemsInPlace(target: array<string>, actual: seq<string>)
    modifies target
    ensures target[..] == UnmaskItems(actual, old(target[..]))
  {
    if target.Length == |actual| {
      for i := 0 to target.Length
        invariant target[..i] == UnmaskItems(actual, old(target[..]))[..i]
        invariant target[i..] == old(target[i..])
      {
        assert target[i] == old(target[i..])[0];
        if target[i] == FAKE {
          target[i] := actual[i];
        }
      }
    }
  }

  /** The plugin loops: over the plugins, and over the settings of each. */
  method UnmaskPluginsByRange(target: Plugins, actual: Scalar) returns (result: Plugins)
    ensures result == UnmaskPlugins(actual, target)
  {
    result := target;
    var ids := target.Keys;
    while ids != {}
      invariant ids <= target.Keys == result.Keys
      invariant forall id :: id in target ==>
        result[id] == if id in ids then target[id] else UnmaskSettings(actual, id, target[id])
    {
      var id :| id in ids;
      var settings := result[id];
      var keys := settings.Keys;
      while keys != {}
        invariant keys <= target[id].Keys == settings.Keys
        invariant forall k :: k in target[id] ==>
          settings[k] == if k in keys then target[id][k] else UnmaskEntry(actual, id, k, target[id][k])
      {
        var k :| k in keys;
        if settings[k] == JText(FAKE) {
          settings := settings[k := PluginEntry(actual, id, k)];
        }
        keys := keys - {k};
      }
      assert settings == UnmaskSettings(actual, id, target[id]);
      result := result[id := settings];
      ids := ids - {id};
    }
  }
}

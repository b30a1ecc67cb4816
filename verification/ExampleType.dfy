/** A configuration type of just the settings the code names, and one more that validation looks
    at: it has the shape the theorems take for granted. */
module ExampleType {
  import opened Text
  import opened ConfigTree
  import opened EnvReport
  import opened EnvKeys
  import opened FixConfig
  import opened Desanitize
  import opened Defaults
  import opened StoreSpec
  import opened World

  // -------------------------------------------------------------------------
  // The type
  // -------------------------------------------------------------------------

  const MINIMUM_LENGTH: Path := ["PasswordSettings", "MinimumLength"]
  const RELAY_PASSWORD: Path := ["MessageExportSettings", "GlobalRelaySettings", "SMTPPassword"]
  const RELAY: Ty := TStruct([TextField("SMTPPassword")])
  const FLAG_TYPE: Ty := TStruct([Field("TestFeature", TLeaf(KString))])

  function TextField(name: string): Field {
    Field(name, TPtr(TLeaf(KString)))
  }

  function SectionField(name: string, fields: seq<Field>): Field {
    Field(name, TStruct(fields))
  }

  const SERVICE: Field := SectionField("ServiceSettings", [TextField("SiteURL"), TextField("SplitKey")])
  const SQL: Field := SectionField("SqlSettings", [
    TextField("DataSource"), TextField("AtRestEncryptKey"), Field("DataSourceReplicas", TLeaf(KList)),
    Field("DataSourceSearchReplicas", TLeaf(KList))])
  const PASSWORD: Field := SectionField("PasswordSettings", [Field("MinimumLength", TPtr(TLeaf(KInt)))])
  const RATE_LIMIT: Field := SectionField("RateLimitSettings", [Field("VaryByHeader", TLeaf(KString))])
  const FILE: Field := SectionField("FileSettings", [
    TextField("Directory"), TextField("DriverName"), TextField("PublicLinkSalt"),
    TextField("AmazonS3SecretAccessKey")])
  const EMAIL: Field := SectionField("EmailSettings", [TextField("SMTPPassword")])
  const LDAP: Field := SectionField("LdapSettings", [TextField("BindPassword")])
  const OPEN_ID: Field := SectionField("OpenIdSettings", [TextField("Secret")])
  const LOCALIZATION: Field := SectionField("LocalizationSettings", [
    TextField("DefaultServerLocale"), TextField("DefaultClientLocale"), TextField("AvailableLocales")])
  const ELASTICSEARCH: Field := SectionField("ElasticsearchSettings", [TextField("Password")])
  const MESSAGE_EXPORT: Field := SectionField("MessageExportSettings", [Field("GlobalRelaySettings", TPtr(RELAY))])
  const PLUGIN: Field := SectionField("PluginSettings", [Field("Plugins", TLeaf(KMap))])

  const SECTIONS: seq<Field> :=
    [SERVICE, SQL, PASSWORD, RATE_LIMIT, FILE, EMAIL, LDAP, OPEN_ID, LOCALIZATION, ELASTICSEARCH,
     MESSAGE_EXPORT, PLUGIN]

  const FLAGS_FIELD: Field := Field(FLAGS, TPtr(FLAG_TYPE))
  const FIELDS: seq<Field> := SECTIONS + [FLAGS_FIELD]

  lemma {:induction false} UpperAt(s: string, k: nat)
    requires k < |s|
    ensures Upper(s)[k] == UpperChar(s[k])
  {
    if k > 0 { UpperAt(s[1..], k - 1); }
  }

  // -------------------------------------------------------------------------
  // Its names and its shape
  // -------------------------------------------------------------------------

  /** Numbers and flags sit behind pointers; texts need not. */
  ghost predicate NumbersBehindPointers(ty: Ty) {
    match ty
    case TLeaf(kind) => kind in {KString, KList, KRaw, KMap}
    case TPtr(_) => true
    case TStruct(fields) => forall i :: 0 <= i < |fields| ==> NumbersBehindPointers(fields[i].ty)
  }

  ghost predicate GoodField(f: Field, depth: nat) {
    && FreeOf(f.name, '_') && WellFormed(f.ty) && WellNamed(f.ty)
    && NestedWithin(f.ty, depth) && NumbersBehindPointers(f.ty)
  }

  /** Told apart whatever the case. */
  predicate Apart(a: Field, b: Field) {
    a.name != b.name && Upper(a.name) != Upper(b.name)
  }

  lemma GoodStruct(fields: seq<Field>, depth: nat)
    requires forall i :: 0 <= i < |fields| ==> GoodField(fields[i], depth)
    requires forall i, j :: 0 <= i < j < |fields| ==> Apart(fields[i], fields[j])
    ensures WellFormed(TStruct(fields)) && WellNamed(TStruct(fields)) && NestedWithin(TStruct(fields), depth + 1)
    ensures NumbersBehindPointers(TStruct(fields))
  {}

  /** A pointer to a scalar, or a text, a list or a map. */
  predicate Plain(f: Field) {
    match f.ty
    case TLeaf(kind) => kind in {KString, KList, KMap}
    case TPtr(to) => to.TLeaf?
    case TStruct(_) => false
  }

  lemma PlainIsGood(f: Field)
    requires Plain(f) && FreeOf(f.name, '_')
    ensures GoodField(f, 1)
  {}

  lemma Section1(name: string, a: Field)
    requires FreeOf(name, '_') && GoodField(a, 1)
    ensures GoodField(SectionField(name, [a]), 2)
  {
    GoodStruct([a], 1);
  }

  lemma Section3(name: string, a: Field, b: Field, c: Field)
    requires FreeOf(name, '_') && GoodField(a, 1) && GoodField(b, 1) && GoodField(c, 1)
    requires Apart(a, b) && Apart(a, c) && Apart(b, c)
    ensures GoodField(SectionField(name, [a, b, c]), 2) && GoodField(SectionField(name, [a, b]), 2)
  {
    hide Apart, WellFormed, WellNamed, NestedWithin, NumbersBehindPointers;
    GoodStruct([a, b, c], 1);
    GoodStruct([a, b], 1);
  }

  lemma Section4(name: string, a: Field, b: Field, c: Field, d: Field)
    requires FreeOf(name, '_') && GoodField(a, 1) && GoodField(b, 1) && GoodField(c, 1) && GoodField(d, 1)
    requires |a.name| < |b.name| < |c.name| < |d.name|
    ensures GoodField(SectionField(name, [a, b, c, d]), 2)
  {
    hide WellFormed, WellNamed, NestedWithin, NumbersBehindPointers;
    GoodStruct([a, b, c, d], 1);
  }

  lemma SectionWords()
    ensures FreeOf("ServiceSettings", '_') && FreeOf("SqlSettings", '_') && FreeOf("PasswordSettings", '_')
    ensures FreeOf("FileSettings", '_') && FreeOf("EmailSettings", '_') && FreeOf("LdapSettings", '_')
  {}

  lemma MoreSectionWords()
    ensures FreeOf("OpenIdSettings", '_') && FreeOf("LocalizationSettings", '_') && FreeOf("PluginSettings", '_')
  {}

  lemma LongSectionWords()
    ensures FreeOf("ElasticsearchSettings", '_') && FreeOf("MessageExportSettings", '_') && FreeOf(FLAGS, '_')
  {}

  lemma ServiceWords()
    ensures FreeOf("SiteURL", '_') && FreeOf("SplitKey", '_') && FreeOf("MinimumLength", '_')
    ensures FreeOf("Password", '_') && FreeOf("Plugins", '_')
  {}

  lemma RateLimitWords()
    ensures FreeOf("RateLimitSettings", '_') && FreeOf("VaryByHeader", '_')
  {}

  lemma SqlWords()
    ensures FreeOf("DataSource", '_') && FreeOf("DataSourceReplicas", '_')
    ensures FreeOf("DataSourceSearchReplicas", '_') && FreeOf("AtRestEncryptKey", '_')
  {}

  lemma FileWords()
    ensures FreeOf("Directory", '_') && FreeOf("DriverName", '_') && FreeOf("PublicLinkSalt", '_')
    ensures FreeOf("AmazonS3SecretAccessKey", '_')
  {}

  lemma MailWords()
    ensures FreeOf("SMTPPassword", '_') && FreeOf("BindPassword", '_') && FreeOf("Secret", '_')
    ensures FreeOf("GlobalRelaySettings", '_') && FreeOf("TestFeature", '_')
  {}

  lemma LocaleWords()
    ensures FreeOf("DefaultServerLocale", '_') && FreeOf("DefaultClientLocale", '_') && FreeOf("AvailableLocales", '_')
  {}

  lemma ServiceIsGood()
    ensures GoodField(SERVICE, 2) && GoodField(PASSWORD, 2)
  {
    hide GoodField, FreeOf, Upper;
    SectionWords();
    ServiceWords();
    var url, key, length := TextField("SiteURL"), TextField("SplitKey"), Field("MinimumLength", TPtr(TLeaf(KInt)));
    PlainIsGood(url);
    PlainIsGood(key);
    PlainIsGood(length);
    Section3("ServiceSettings", url, key, length);
    Section1("PasswordSettings", length);
  }

  lemma SqlIsGood()
    ensures GoodField(SQL, 2)
  {
    hide GoodField, FreeOf;
    SectionWords();
    SqlWords();
    var source, key := TextField("DataSource"), TextField("AtRestEncryptKey");
    var replicas, search := Field("DataSourceReplicas", TLeaf(KList)), Field("DataSourceSearchReplicas", TLeaf(KList));
    PlainIsGood(source);
    PlainIsGood(key);
    PlainIsGood(replicas);
    PlainIsGood(search);
    Section4("SqlSettings", source, key, replicas, search);
  }

  lemma FileIsGood()
    ensures GoodField(FILE, 2)
  {
    hide GoodField, FreeOf;
    SectionWords();
    FileWords();
    var directory, driver := TextField("Directory"), TextField("DriverName");
    var salt, secret := TextField("PublicLinkSalt"), TextField("AmazonS3SecretAccessKey");
    PlainIsGood(directory);
    PlainIsGood(driver);
    PlainIsGood(salt);
    PlainIsGood(secret);
    Section4("FileSettings", directory, driver, salt, secret);
  }

  lemma EmailIsGood()
    ensures GoodField(EMAIL, 2) && GoodField(LDAP, 2) && GoodField(OPEN_ID, 2)
  {
    hide GoodField, FreeOf;
    SectionWords();
    MoreSectionWords();
    MailWords();
    PlainIsGood(TextField("SMTPPassword"));
    PlainIsGood(TextField("BindPassword"));
    PlainIsGood(TextField("Secret"));
    Section1("EmailSettings", TextField("SMTPPassword"));
    Section1("LdapSettings", TextField("BindPassword"));
    Section1("OpenIdSettings", TextField("Secret"));
  }

  lemma LocalizationIsGood()
    ensures GoodField(LOCALIZATION, 2)
  {
    hide GoodField, FreeOf, Upper;
    MoreSectionWords();
    LocaleWords();
    var server, client := TextField("DefaultServerLocale"), TextField("DefaultClientLocale");
    var available := TextField("AvailableLocales");
    PlainIsGood(server);
    PlainIsGood(client);
    PlainIsGood(available);
    UpperAt(server.name, 7);
    UpperAt(client.name, 7);
    Section3("LocalizationSettings", server, client, available);
  }

  lemma PluginIsGood()
    ensures GoodField(ELASTICSEARCH, 2) && GoodField(PLUGIN, 2)
  {
    hide GoodField, FreeOf;
    MoreSectionWords();
    LongSectionWords();
    ServiceWords();
    PlainIsGood(TextField("Password"));
    PlainIsGood(Field("Plugins", TLeaf(KMap)));
    Section1("ElasticsearchSettings", TextField("Password"));
    Section1("PluginSettings", Field("Plugins", TLeaf(KMap)));
  }

  lemma RateLimitIsGood()
    ensures GoodField(RATE_LIMIT, 2)
  {
    hide GoodField, FreeOf;
    RateLimitWords();
    PlainIsGood(Field("VaryByHeader", TLeaf(KString)));
    Section1("RateLimitSettings", Field("VaryByHeader", TLeaf(KString)));
  }

  lemma PointersAreGood()
    ensures GoodField(MESSAGE_EXPORT, 2) && GoodField(FLAGS_FIELD, 2)
  {
    hide FreeOf;
    LongSectionWords();
    MailWords();
    Section1("MessageExportSettings", Field("GlobalRelaySettings", TPtr(RELAY)));
  }

  lemma FieldsAreGood()
    ensures forall i :: 0 <= i < |FIELDS| ==> GoodField(FIELDS[i], 2)
  {
    hide GoodField, SectionField;
    ServiceIsGood();
    SqlIsGood();
    FileIsGood();
    EmailIsGood();
    LocalizationIsGood();
    PluginIsGood();
    RateLimitIsGood();
    PointersAreGood();
  }

  /** Sections differ in the length of their names or in the second letter. */
  function Key(name: string): int {
    if |name| > 1 then 256 * |name| + UpperChar(name[1]) as int else 0
  }

  lemma KeysTellApart(a: Field, b: Field)
    requires Key(a.name) != Key(b.name)
    ensures Apart(a, b)
  {
    if |a.name| == |b.name| {
      UpperAt(a.name, 1);
      UpperAt(b.name, 1);
    }
  }

  lemma Keys()
    ensures Key(RATE_LIMIT.name) == 4417
    ensures Key(SERVICE.name) == 3909 && Key(SQL.name) == 2897 && Key(PASSWORD.name) == 4161
    ensures Key(FILE.name) == 3145 && Key(EMAIL.name) == 3405 && Key(LDAP.name) == 3140
    ensures Key(OPEN_ID.name) == 3664 && Key(LOCALIZATION.name) == 5199 && Key(ELASTICSEARCH.name) == 5452
    ensures Key(MESSAGE_EXPORT.name) == 5445 && Key(PLUGIN.name) == 3660 && Key(FLAGS_FIELD.name) == 3141
  {}

  lemma FieldsAreApart()
    ensures forall i, j :: 0 <= i < j < |FIELDS| ==> Apart(FIELDS[i], FIELDS[j])
  {
    hide Key, Apart, SectionField, TextField;
    Keys();
    forall i, j | 0 <= i < j < |FIELDS| ensures Apart(FIELDS[i], FIELDS[j]) {
      KeysTellApart(FIELDS[i], FIELDS[j]);
    }
  }

  lemma TypeIsGood()
    ensures WellFormed(TStruct(FIELDS)) && WellNamed(TStruct(FIELDS)) && NestedWithin(TStruct(FIELDS), 3)
    ensures NumbersBehindPointers(TStruct(FIELDS)) && NumbersBehindPointers(TStruct(SECTIONS))
  {
    hide GoodField, Apart, SectionField;
    FieldsAreGood();
    FieldsAreApart();
    GoodStruct(FIELDS, 2);
    forall i | 0 <= i < |SECTIONS| ensures SECTIONS[i] == FIELDS[i] {}
    assert forall i :: 0 <= i < |SECTIONS| ==> GoodField(SECTIONS[i], 2);
    GoodStruct(SECTIONS, 2);
  }

  // -------------------------------------------------------------------------
  // Its leaves
  // -------------------------------------------------------------------------

  const TYPE: Ty := TStruct(FIELDS)

  ghost predicate LeafOfKind(p: Path, kind: Kind) {
    IsLeaf(TYPE, p) && KindAt(TYPE, p) == kind
  }

  /** A plain field of a section is a leaf. */
  lemma PlainIsLeaf(fields: seq<Field>, section: Field, setting: Field)
    requires WellFormed(TStruct(fields)) && section in fields
    requires section.ty.TStruct? && setting in section.ty.fields && Plain(setting)
    ensures var ty, p := TStruct(fields), [section.name, setting.name];
      && IsLeaf(ty, p) && KindAt(ty, p) == (if setting.ty.TPtr? then setting.ty.to.kind else setting.ty.kind)
      && ValueField(ty, p) && (setting.ty.TPtr? ==> PointerField(ty, p))
  {
    var i :| 0 <= i < |fields| && fields[i] == section;
    var j :| 0 <= j < |section.ty.fields| && section.ty.fields[j] == setting;
    FieldIndexOf(fields, i);
    FieldIndexOf(section.ty.fields, j);
    var p := [section.name, setting.name];
    var q := [setting.name];
    assert p[1..] == q && q[1..] == [];
    ScalarIsLeaf(setting);
    assert IsLeaf(section.ty, q) && KindAt(section.ty, q) == KindAt(setting.ty, []);
  }

  lemma ScalarIsLeaf(f: Field)
    requires Plain(f)
    ensures IsLeaf(f.ty, []) && KindAt(f.ty, []) == if f.ty.TPtr? then f.ty.to.kind else f.ty.kind
  {}

  lemma Place(section: Field, setting: Field)
    requires section in FIELDS && section.ty.TStruct? && setting in section.ty.fields && Plain(setting)
    ensures var p := [section.name, setting.name];
      && LeafOfKind(p, if setting.ty.TPtr? then setting.ty.to.kind else setting.ty.kind)
      && ValueField(TYPE, p) && (setting.ty.TPtr? ==> PointerField(TYPE, p))
  {
    hide SectionField, TextField, WellFormed, WellNamed, NestedWithin, NumbersBehindPointers, ValueField;
    hide PointerField, IsLeaf;
    TypeIsGood();
    PlainIsLeaf(FIELDS, section, setting);
  }

  /** So is the one field behind the one pointer of a section. */
  lemma BehindPointerIsLeaf(fields: seq<Field>, section: Field, pointer: Field, setting: Field)
    requires WellFormed(TStruct(fields)) && section in fields && section.ty == TStruct([pointer])
    requires pointer.ty == TPtr(TStruct([setting])) && setting.ty == TPtr(TLeaf(KString))
    ensures var ty, p := TStruct(fields), [section.name, pointer.name, setting.name];
      IsLeaf(ty, p) && KindAt(ty, p) == KString && !ValueField(ty, p)
  {
    var i :| 0 <= i < |fields| && fields[i] == section;
    FieldIndexOf(fields, i);
    FieldIndexOf([pointer], 0);
    FieldIndexOf([setting], 0);
    var p := [section.name, pointer.name, setting.name];
    var q, r := [pointer.name, setting.name], [setting.name];
    assert p[1..] == q && q[1..] == r && r[1..] == [];
    ScalarIsLeaf(setting);
    assert IsLeaf(pointer.ty.to, r) && KindAt(pointer.ty.to, r) == KString;
    assert IsLeaf(pointer.ty, r) && KindAt(pointer.ty, r) == KString;
    assert IsLeaf(section.ty, q) && KindAt(section.ty, q) == KString;
  }

  lemma ServiceLeaves()
    ensures LeafOfKind(SITE_URL, KString) && ValueField(TYPE, SITE_URL) && PointerField(TYPE, SITE_URL)
    ensures LeafOfKind(["ServiceSettings", "SplitKey"], KString)
    ensures LeafOfKind(MINIMUM_LENGTH, KInt) && ValueField(TYPE, MINIMUM_LENGTH)
  {
    hide LeafOfKind, ValueField, PointerField;
    Place(SERVICE, TextField("SiteURL"));
    Place(SERVICE, TextField("SplitKey"));
    Place(PASSWORD, Field("MinimumLength", TPtr(TLeaf(KInt))));
  }

  lemma FileLeaves()
    ensures LeafOfKind(DRIVER, KString) && LeafOfKind(DIRECTORY, KString)
    ensures LeafOfKind(["FileSettings", "PublicLinkSalt"], KString)
    ensures LeafOfKind(["FileSettings", "AmazonS3SecretAccessKey"], KString)
  {
    hide LeafOfKind, ValueField, PointerField;
    Place(FILE, TextField("DriverName"));
    Place(FILE, TextField("Directory"));
    Place(FILE, TextField("PublicLinkSalt"));
    Place(FILE, TextField("AmazonS3SecretAccessKey"));
  }

  lemma LocaleLeaves()
    ensures LeafOfKind(SERVER_LOCALE, KString) && LeafOfKind(CLIENT_LOCALE, KString) && LeafOfKind(AVAILABLE, KString)
    ensures ValueField(TYPE, CLIENT_LOCALE)
  {
    hide LeafOfKind, ValueField, PointerField;
    Place(LOCALIZATION, TextField("DefaultServerLocale"));
    Place(LOCALIZATION, TextField("DefaultClientLocale"));
    Place(LOCALIZATION, TextField("AvailableLocales"));
  }

  lemma SqlLeaves()
    ensures LeafOfKind(["SqlSettings", "DataSource"], KString)
    ensures LeafOfKind(["SqlSettings", "AtRestEncryptKey"], KString)
    ensures LeafOfKind(["SqlSettings", "DataSourceReplicas"], KList)
    ensures LeafOfKind(["SqlSettings", "DataSourceSearchReplicas"], KList)
  {
    hide LeafOfKind, ValueField, PointerField;
    Place(SQL, TextField("DataSource"));
    Place(SQL, TextField("AtRestEncryptKey"));
    Place(SQL, Field("DataSourceReplicas", TLeaf(KList)));
    Place(SQL, Field("DataSourceSearchReplicas", TLeaf(KList)));
  }

  lemma MailLeaves()
    ensures LeafOfKind(["LdapSettings", "BindPassword"], KString)
    ensures LeafOfKind(["EmailSettings", "SMTPPassword"], KString)
    ensures LeafOfKind(["OpenIdSettings", "Secret"], KString)
  {
    hide LeafOfKind, ValueField, PointerField;
    Place(LDAP, TextField("BindPassword"));
    Place(EMAIL, TextField("SMTPPassword"));
    Place(OPEN_ID, TextField("Secret"));
  }

  lemma PluginLeaves()
    ensures LeafOfKind(["ElasticsearchSettings", "Password"], KString) && LeafOfKind(PLUGINS, KMap)
  {
    hide LeafOfKind, ValueField, PointerField;
    Place(ELASTICSEARCH, TextField("Password"));
    Place(PLUGIN, Field("Plugins", TLeaf(KMap)));
  }

  lemma RelayLeaf()
    ensures LeafOfKind(RELAY_PASSWORD, KString) && !ValueField(TYPE, RELAY_PASSWORD)
  {
    hide WellFormed, WellNamed, NestedWithin, NumbersBehindPointers, IsLeaf, KindAt;
    TypeIsGood();
    BehindPointerIsLeaf(FIELDS, MESSAGE_EXPORT, Field("GlobalRelaySettings", TPtr(RELAY)), TextField("SMTPPassword"));
  }

  lemma NamedSettingsAreThere()
    ensures NamedSettings(TYPE)
  {
    hide IsLeaf, KindAt, PointerField, ValueField;
    ServiceLeaves();
    FileLeaves();
    LocaleLeaves();
    SqlLeaves();
    MailLeaves();
    PluginLeaves();
    RelayLeaf();
    assert forall p :: p in FIXED_PATHS ==> LeafOfKind(p, KString);
    assert forall p :: p in MASKED_TEXTS ==> LeafOfKind(p, KString);
    assert forall p :: p in MASKED_LISTS ==> LeafOfKind(p, KList);
  }
}

/** How the two readings of the environment fit together: the report that names the
    overridden settings, and the walk that writes variables into the tree. */
module EnvKeys {
  import opened Text
  import opened ConfigTree
  import opened Environment
  import opened EnvReport

  /** Field names as the walk needs them: no underscore, distinct whatever the case. */
  ghost predicate WellNamed(ty: Ty) {
    match ty
    case TLeaf(_) => true
    case TPtr(to) => WellNamed(to)
    case TStruct(fields) =>
      && (forall i :: 0 <= i < |fields| ==> FreeOf(fields[i].name, '_') && WellNamed(fields[i].ty))
      && (forall i, j :: 0 <= i < j < |fields| ==> Upper(fields[i].name) != Upper(fields[j].name))
  }

  /** The upper-cased, underscore-joined name of a path. */
  function JoinedName(p: Path): string {
    if |p| == 0 then ""
    else if |p| == 1 then Upper(p[0])
    else Upper(p[0]) + ['_'] + JoinedName(p[1..])
  }

  function Variable(p: Path): string {
    "MM_" + JoinedName(p)
  }

  lemma {:induction false} ReportedUnder(ty: Ty, base: string, vars: map<string, string>, p: Path)
    ensures Reported(ty, base, vars, p) <==>
      ValueField(ty, p) && Upper(base) + ['_'] + JoinedName(p) in vars
    decreases ty
  {
    if ty.TStruct? && p != [] && FieldIndex(ty.fields, p[0]).Some? {
      var i := FieldIndex(ty.fields, p[0]).value;
      var name := base + "_" + p[0];
      calc {
        Upper(name);
        { UpperOfConcat(base + "_", p[0]); UpperOfConcat(base, "_"); }
        Upper(base) + Upper("_") + Upper(p[0]);
        Upper(base) + ['_'] + Upper(p[0]);
      }
      if ty.fields[i].ty.TStruct? {
        ReportedUnder(ty.fields[i].ty, name, vars, p[1..]);
        if |p| > 1 {
          assert Upper(name) + ['_'] + JoinedName(p[1..]) == Upper(base) + ['_'] + JoinedName(p);
        }
      }
    }
  }

  /** The report names precisely the fields whose full variable name is set. */
  lemma ReportedIffVariableSet(ty: Ty, vars: map<string, string>, p: Path)
    ensures Reported(ty, "MM", vars, p) <==> ValueField(ty, p) && Variable(p) in vars
  {
    ReportedUnder(ty, "MM", vars, p);
    assert Upper("MM") + ['_'] + JoinedName(p) == Variable(p) by {
      assert Upper("M") == "M" by { assert Upper("") == ""; }
      UpperOfConcat("M", "M");
      assert "M" + "M" == "MM";
      assert Upper("MM") == "MM";
    }
  }

  /** `getPaths(generateEnvironmentMap(...))`: each field whose full variable name is set,
      exactly once, in slices that stay intact. */
  method OverriddenPaths(ty: Ty, vars: map<string, string>) returns (paths: seq<Slice>, ghost texts: seq<Path>)
    requires WellFormed(ty) && NestedWithin(ty, 3)
    ensures Spell(paths, texts) && NoDuplicates(texts)
    ensures forall p :: p in texts <==> ValueField(ty, p) && Variable(p) in vars
  {
    var report := GenerateEnvironmentMap(ty, "MM", vars, 3);
    paths, texts := GetPaths(report);
    forall p ensures p in texts <==> ValueField(ty, p) && Variable(p) in vars {
      ReportedIffVariableSet(ty, vars, p);
      assert p in texts <==> InReport(report, p);
    }
  }

  lemma UpperMatch(fields: seq<Field>, i: nat)
    requires WellNamed(TStruct(fields)) && i < |fields|
    ensures FieldByUpperName(fields, Upper(fields[i].name)) == Some(i)
  {
    var ty := TStruct(fields);
    assert forall a, b :: 0 <= a < b < |ty.fields| ==> Upper(fields[a].name) != Upper(fields[b].name);
    assert OnlyMatch(fields, Upper(fields[i].name), i);
    var found := FieldByUpperName(fields, Upper(fields[i].name));
    assert found.Some?;
  }

  lemma SplitJoined(p: Path)
    requires p != [] && FreeOf(p[0], '_')
    ensures SplitFirst(JoinedName(p), '_') == (Upper(p[0]), if |p| == 1 then None else Some(JoinedName(p[1..])))
  {
    UpperKeepsUnderscoreFree(p[0]);
    if |p| == 1 {
      SplitFirstOfWord(Upper(p[0]), '_');
    } else {
      SplitFirstOfConcat(Upper(p[0]), '_', JoinedName(p[1..]));
    }
  }

  /** The walk follows the full name of a leaf to that leaf, through pointers, too. */
  lemma {:induction false} VariableTargetsItsLeaf(ty: Ty, p: Path)
    requires WellFormed(ty) && WellNamed(ty) && ty.TStruct? && IsLeaf(ty, p)
    ensures Target(ty, JoinedName(p)) == Some(p)
    decreases ty, 0
  {
    UpperMatch(ty.fields, FieldIndex(ty.fields, p[0]).value);
    SplitJoined(p);
    FieldTargetsLeaf(ty.fields[FieldIndex(ty.fields, p[0]).value].ty, p[1..]);
    assert p == [p[0]] + p[1..];
  }

  lemma {:induction false} FieldTargetsLeaf(ty: Ty, q: Path)
    requires WellFormed(ty) && WellNamed(ty) && IsLeaf(ty, q)
    ensures FieldTarget(ty, if q == [] then None else Some(JoinedName(q))) == Some(q)
    decreases ty, 1
  {
    match ty
    case TLeaf(_) =>
    case TPtr(to) => FieldTargetsLeaf(to, q);
    case TStruct(_) => VariableTargetsItsLeaf(ty, q);
  }

  /** No two fields have the same full variable name. */
  lemma {:induction false} NamesAreDistinct(ty: Ty, p: Path, q: Path)
    requires WellNamed(ty) && ValueField(ty, p) && ValueField(ty, q) && JoinedName(p) == JoinedName(q)
    ensures p == q
    decreases ty
  {
    var i, j := FieldIndex(ty.fields, p[0]).value, FieldIndex(ty.fields, q[0]).value;
    SplitJoined(p);
    SplitJoined(q);
    UpperMatch(ty.fields, i);
    UpperMatch(ty.fields, j);
    assert p == [p[0]] + p[1..] && q == [q[0]] + q[1..];
    if ty.fields[i].ty.TStruct? {
      NamesAreDistinct(ty.fields[i].ty, p[1..], q[1..]);
    }
  }

  /** Whatever follows the full name after an underscore is ignored. */
  lemma {:induction false} TailIsIgnored(ty: Ty, p: Path, tail: string)
    requires WellFormed(ty) && WellNamed(ty) && ty.TStruct? && IsLeaf(ty, p)
    ensures Target(ty, JoinedName(p) + ['_'] + tail) == Some(p)
    decreases ty, 0
  {
    var i := FieldIndex(ty.fields, p[0]).value;
    UpperMatch(ty.fields, i);
    UpperKeepsUnderscoreFree(p[0]);
    FieldIgnoresTail(ty.fields[i].ty, p[1..], tail);
    assert p == [p[0]] + p[1..];
    if |p| == 1 {
      SplitFirstOfConcat(Upper(p[0]), '_', tail);
    } else {
      var rest := JoinedName(p[1..]) + ['_'] + tail;
      SplitFirstOfConcat(Upper(p[0]), '_', rest);
      assert JoinedName(p) + ['_'] + tail == Upper(p[0]) + ['_'] + rest;
    }
  }

  lemma {:induction false} FieldIgnoresTail(ty: Ty, q: Path, tail: string)
    requires WellFormed(ty) && WellNamed(ty) && IsLeaf(ty, q)
    ensures FieldTarget(ty, Some(if q == [] then tail else JoinedName(q) + ['_'] + tail)) == Some(q)
    decreases ty, 1
  {
    match ty
    case TLeaf(_) =>
    case TPtr(to) => FieldIgnoresTail(to, q, tail);
    case TStruct(_) => TailIsIgnored(ty, q, tail);
  }

  /** So two different variables can reach one leaf, and the outcome depend on their order. */
  lemma TwoKeysConflict(ty: Ty, p: Path, tail: string, x: string, y: string, decode: string -> DecodedMap)
    requires WellFormed(ty) && WellNamed(ty) && ty.TStruct? && IsLeaf(ty, p) && KindAt(ty, p) == KString
    requires x != y
    ensures var env := Env(map[Variable(p) := x, Variable(p) + ['_'] + tail := y], decode);
      !ConflictFree(WritesOf(ty, env))
  {
    hide Target, JoinedName, WellNamed, ValueField;
    var k, l := Variable(p), Variable(p) + ['_'] + tail;
    var env := Env(map[k := x, l := y], decode);
    var writes := WritesOf(ty, env);
    assert |k| != |l|;
    VariableTargetsItsLeaf(ty, p);
    TrimMM(JoinedName(p));
    TailIsIgnored(ty, p, tail);
    TrimMM(JoinedName(p) + ['_'] + tail);
    assert l == "MM_" + (JoinedName(p) + ['_'] + tail);
    assert writes[k] == Some((p, SString(x))) && writes[l] == Some((p, SString(y)));
    assert Conflict(writes[k], writes[l]);
  }

  lemma TrimMM(s: string)
    ensures TrimPrefix("MM_" + s, "MM_") == s
  {}

  /** So a reported leaf whose text parses is written, with the parsed value. */
  lemma ReportedLeafIsWritten(ty: Ty, env: Env, p: Path)
    requires WellFormed(ty) && WellNamed(ty)
    requires Reported(ty, "MM", env.vars, p) && IsLeaf(ty, p)
    ensures Variable(p) in env.vars
    ensures WritesOf(ty, env)[Variable(p)] ==
      match Parse(env, KindAt(ty, p), env.vars[Variable(p)])
      case None => None
      case Some(x) => Some((p, x))
  {
    ReportedIffVariableSet(ty, env.vars, p);
    VariableTargetsItsLeaf(ty, p);
    TrimMM(JoinedName(p));
  }

  /** No variable names a pointer to a struct (its removal has no leaf to go to). */
  ghost predicate ReportsLeaves(ty: Ty, env: Env) {
    forall p :: Reported(ty, "MM", env.vars, p) ==> IsLeaf(ty, p)
  }

  ghost function ReportedLeaves(ty: Ty, env: Env): set<Path>
    requires WellFormed(ty)
  {
    set p | p in LeafPaths(ty) && Reported(ty, "MM", env.vars, p)
  }

  /** Every variable that reaches a leaf spells the leaf's full name. */
  ghost predicate ExactNames(ty: Ty, env: Env) {
    forall k :: k in env.vars && Target(ty, TrimPrefix(k, "MM_")).Some? ==>
      var p := Target(ty, TrimPrefix(k, "MM_")).value;
      k == Variable(p) && ValueField(ty, p)
  }

  /** The variables of the reported leaves hold texts that parse. */
  ghost predicate ReportedParse(ty: Ty, env: Env) {
    forall p :: Reported(ty, "MM", env.vars, p) && IsLeaf(ty, p) ==>
      Parse(env, KindAt(ty, p), env.vars[VariableIn(ty, env, p)]).Some?
  }

  ghost predicate ExactKeys(ty: Ty, env: Env) {
    ExactNames(ty, env) && ReportedParse(ty, env)
  }

  ghost function VariableIn(ty: Ty, env: Env, p: Path): (k: string)
    requires Reported(ty, "MM", env.vars, p)
    ensures k == Variable(p) && k in env.vars
  {
    ReportedIffVariableSet(ty, env.vars, p);
    Variable(p)
  }

  lemma ExactKeysConflictFree(ty: Ty, env: Env)
    requires ExactNames(ty, env)
    ensures ConflictFree(WritesOf(ty, env))
  {
    var writes := WritesOf(ty, env);
    forall k, l | k in writes && l in writes ensures !Conflict(writes[k], writes[l]) {
      if writes[k].Some? && writes[l].Some? && writes[k].value.0 == writes[l].value.0 {
        assert k == Variable(writes[k].value.0) == l;
      }
    }
  }

  lemma ExactWriteIsReported(ty: Ty, env: Env, k: string)
    requires WellFormed(ty) && ExactNames(ty, env) && k in env.vars && WritesOf(ty, env)[k].Some?
    ensures WritesOf(ty, env)[k].value.0 in ReportedLeaves(ty, env)
  {
    ReportedIffVariableSet(ty, env.vars, WritesOf(ty, env)[k].value.0);
  }

  /** Under exact names only what is reported is written. */
  lemma WrittenAreReported(ty: Ty, env: Env)
    requires WellFormed(ty) && ExactNames(ty, env)
    ensures Overrides(WritesOf(ty, env)).Keys <= ReportedLeaves(ty, env)
  {
    var writes := WritesOf(ty, env);
    var m := Overrides(writes);
    WrittenIsEntries(writes, SomeOrder(writes.Keys));
    assert EntriesOf(writes, m);
    forall p | p in m ensures p in ReportedLeaves(ty, env) {
      assert Wrote(writes, p, m[p]);
      var k :| k in writes && writes[k] == Some((p, m[p]));
      ExactWriteIsReported(ty, env, k);
    }
  }

  /** A reported leaf whose variable parses is written, by that variable or another one. */
  lemma ParsedIsWritten(ty: Ty, env: Env, p: Path)
    requires WellFormed(ty) && WellNamed(ty) && p in ReportedLeaves(ty, env)
    requires Parse(env, KindAt(ty, p), env.vars[VariableIn(ty, env, p)]).Some?
    ensures p in Overrides(WritesOf(ty, env))
  {
    var writes := WritesOf(ty, env);
    WrittenIsEntries(writes, SomeOrder(writes.Keys));
    assert EntriesOf(writes, Overrides(writes));
    ReportedLeafIsWritten(ty, env, p);
    assert VariableIn(ty, env, p) in writes;
    assert writes[VariableIn(ty, env, p)].Some?;
  }

  /** Under exact names a reported leaf is written exactly if its variable parses. */
  lemma WrittenIffParses(ty: Ty, env: Env, p: Path)
    requires WellFormed(ty) && WellNamed(ty) && ExactNames(ty, env) && p in ReportedLeaves(ty, env)
    ensures p in Overrides(WritesOf(ty, env)) <==>
      Parse(env, KindAt(ty, p), env.vars[VariableIn(ty, env, p)]).Some?
  {
    if p in Overrides(WritesOf(ty, env)) {
      var writes := WritesOf(ty, env);
      WrittenIsEntries(writes, SomeOrder(writes.Keys));
      assert Wrote(writes, p, Overrides(writes)[p]);
      var k :| k in writes && writes[k] == Some((p, Overrides(writes)[p]));
      assert k == VariableIn(ty, env, p);
    } else if Parse(env, KindAt(ty, p), env.vars[VariableIn(ty, env, p)]).Some? {
      ParsedIsWritten(ty, env, p);
    }
  }

  /** Texts, lists and raw JSON take whatever a variable holds. */
  lemma OnlyOtherKindsFail(ty: Ty, env: Env)
    requires WellFormed(ty) && WellNamed(ty)
    ensures forall p :: p in ReportedLeaves(ty, env) && p !in Overrides(WritesOf(ty, env)) ==>
      KindAt(ty, p) in {KBool, KInt, KMap}
  {
    forall p | p in ReportedLeaves(ty, env) && p !in Overrides(WritesOf(ty, env))
      ensures KindAt(ty, p) in {KBool, KInt, KMap}
    {
      var text := env.vars[VariableIn(ty, env, p)];
      if !(KindAt(ty, p).KBool? || KindAt(ty, p).KInt? || KindAt(ty, p).KMap?) {
        assert Parse(env, KindAt(ty, p), text).Some?;
        ParsedIsWritten(ty, env, p);
      }
    }
  }

  /** Under exact names everything reported is written exactly if everything reported parses. */
  lemma AllWrittenIffAllParse(ty: Ty, env: Env)
    requires WellFormed(ty) && WellNamed(ty) && ExactNames(ty, env)
    ensures ReportedLeaves(ty, env) <= Overrides(WritesOf(ty, env)).Keys <==> ReportedParse(ty, env)
  {
    hide ExactNames, WritesOf, Overrides, WellNamed, Reported, Parse, VariableIn;
    forall p | p in ReportedLeaves(ty, env)
      ensures p in Overrides(WritesOf(ty, env)) <==>
        Parse(env, KindAt(ty, p), env.vars[VariableIn(ty, env, p)]).Some?
    {
      WrittenIffParses(ty, env, p);
    }
    assert forall p :: Reported(ty, "MM", env.vars, p) && IsLeaf(ty, p) ==> p in ReportedLeaves(ty, env);
  }

  /** Under exact, parseable keys the leaves written are the leaves reported, and no two
      variables conflict. */
  lemma ExactKeysWriteWhatIsReported(ty: Ty, env: Env)
    requires WellFormed(ty) && WellNamed(ty) && ExactKeys(ty, env)
    ensures ConflictFree(WritesOf(ty, env))
    ensures Overrides(WritesOf(ty, env)).Keys == ReportedLeaves(ty, env)
  {
    ExactKeysConflictFree(ty, env);
    WrittenAreReported(ty, env);
    forall p | p in ReportedLeaves(ty, env) ensures p in Overrides(WritesOf(ty, env)) {
      ParsedIsWritten(ty, env, p);
    }
  }

  lemma PointerTarget(ty: Ty)
    requires WellFormed(ty) && !ty.TStruct? && !IsLeaf(ty, [])
    ensures FieldTarget(ty, None) == None
  {
    if ty.TPtr? {
      assert ty.to.TStruct?;
    }
  }

  /** The full name of a pointer to a struct leads nowhere. */
  lemma {:induction false} NonLeafHasNoTarget(ty: Ty, p: Path)
    requires WellFormed(ty) && WellNamed(ty) && ValueField(ty, p) && !IsLeaf(ty, p)
    ensures Target(ty, JoinedName(p)) == None
    decreases ty
  {
    var i := FieldIndex(ty.fields, p[0]).value;
    var fieldTy := ty.fields[i].ty;
    UpperMatch(ty.fields, i);
    SplitJoined(p);
    if fieldTy.TStruct? {
      if |p| > 1 { NonLeafHasNoTarget(fieldTy, p[1..]); }
    } else {
      assert p[1..] == [];
      PointerTarget(fieldTy);
    }
  }

  /** What an environment of one variable, named after a leaf, writes and reports: leaves behind a
      pointer to a struct are written, but not reported. */
  lemma OneVariable(ty: Ty, q: Path, text: string, decode: string -> DecodedMap)
    requires WellFormed(ty) && WellNamed(ty) && ty.TStruct? && IsLeaf(ty, q)
    ensures var env := Env(map[Variable(q) := text], decode);
      && (ValueField(ty, q) ==> ExactNames(ty, env))
      && ReportsLeaves(ty, env) && ReportedLeaves(ty, env) == (if ValueField(ty, q) then {q} else {})
      && ConflictFree(WritesOf(ty, env))
      && Overrides(WritesOf(ty, env)) ==
           (match Parse(env, KindAt(ty, q), text) case None => map[] case Some(x) => map[q := x])
  {
    var k, env := Variable(q), Env(map[Variable(q) := text], decode);
    VariableTargetsItsLeaf(ty, q);
    TrimMM(JoinedName(q));
    forall p ensures Reported(ty, "MM", env.vars, p) <==> p == q && ValueField(ty, q) {
      ReportedIffVariableSet(ty, env.vars, p);
      if ValueField(ty, p) && Variable(p) == k {
        TrimMM(JoinedName(p));
        if IsLeaf(ty, p) { VariableTargetsItsLeaf(ty, p); } else { NonLeafHasNoTarget(ty, p); }
      }
    }
    var writes := WritesOf(ty, env);
    assert writes.Keys == {k};
    WrittenIsEntries(writes, SomeOrder(writes.Keys));
    OnlyEntry(writes, k, Overrides(writes));
  }

  lemma OnlyEntry(writes: Writes, k: string, m: Table)
    requires writes.Keys == {k} && EntriesOf(writes, m)
    ensures m == match writes[k] case None => map[] case Some((p, x)) => map[p := x]
  {
    forall p | p in m ensures writes[k] == Some((p, m[p])) {
      assert Wrote(writes, p, m[p]);
    }
  }
}

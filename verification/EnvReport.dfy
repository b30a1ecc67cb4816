/** Which settings the environment overrides: the nested report, its flattening into
    paths over shared slices, and the removal of the overrides from a configuration. */
module EnvReport {
  import opened Text
  import opened ConfigTree

  /** The nested `map[string]any`: `true` at the overridden fields. */
  datatype EnvNode = Mark | Section(children: map<string, EnvNode>)

  predicate InNode(node: EnvNode, p: Path) {
    match node
    case Mark => p == []
    case Section(children) => p != [] && p[0] in children && InNode(children[p[0]], p[1..])
  }

  predicate InReport(report: Option<EnvNode>, p: Path) {
    report.Some? && InNode(report.value, p)
  }

  /** A field that is not itself a struct and whose upper-cased full name is a variable.
      A pointer to a struct counts as such a field. */
  predicate Reported(ty: Ty, base: string, vars: map<string, string>, p: Path)
    decreases ty, 0
  {
    ty.TStruct? && p != [] &&
    match FieldIndex(ty.fields, p[0])
    case None => false
    case Some(i) => ReportedField(ty.fields[i].ty, base + "_" + p[0], vars, p[1..])
  }

  predicate ReportedField(ty: Ty, name: string, vars: map<string, string>, rest: Path)
    decreases ty, 1
  {
    if ty.TStruct? then Reported(ty, name, vars, rest)
    else rest == [] && Upper(name) in vars
  }

  /** Struct nesting, counting the struct itself. */
  ghost predicate NestedWithin(ty: Ty, depth: nat) {
    ty.TStruct? ==>
      depth > 0 && forall i :: 0 <= i < |ty.fields| ==> NestedWithin(ty.fields[i].ty, depth - 1)
  }

  ghost predicate WithinDepth(node: EnvNode, depth: nat) {
    node.Section? ==>
      depth > 0 && forall k :: k in node.children ==> WithinDepth(node.children[k], depth - 1)
  }

  /** The children hold exactly the reported paths of the first `n` fields. */
  ghost predicate Covers(ty: Ty, base: string, vars: map<string, string>, n: nat, children: map<string, EnvNode>)
    requires ty.TStruct?
  {
    && (forall p :: InNode(Section(children), p) ==> Reported(ty, base, vars, p))
    && (forall p :: Reported(ty, base, vars, p) && FieldIndex(ty.fields, p[0]).value < n ==>
          InNode(Section(children), p))
    && (forall k :: k in children ==>
          FieldIndex(ty.fields, k).Some? && FieldIndex(ty.fields, k).value < n)
  }

  function WithChild(children: map<string, EnvNode>, name: string, child: Option<EnvNode>): map<string, EnvNode> {
    match child
    case None => children
    case Some(node) => children[name := node]
  }

  lemma CoversNextField(ty: Ty, base: string, vars: map<string, string>, n: nat,
                        children: map<string, EnvNode>, child: Option<EnvNode>)
    requires WellFormed(ty) && ty.TStruct? && n < |ty.fields|
    requires Covers(ty, base, vars, n, children)
    requires forall q :: InReport(child, q) <==>
      ReportedField(ty.fields[n].ty, base + "_" + ty.fields[n].name, vars, q)
    ensures Covers(ty, base, vars, n + 1, WithChild(children, ty.fields[n].name, child))
  {
    var name := ty.fields[n].name;
    var after := WithChild(children, name, child);
    FieldIndexOf(ty.fields, n);
    forall p | InNode(Section(after), p) ensures Reported(ty, base, vars, p) {
      if p[0] == name && child.Some? {
        assert InReport(child, p[1..]);
      } else {
        assert InNode(Section(children), p);
      }
    }
    forall p | Reported(ty, base, vars, p) && FieldIndex(ty.fields, p[0]).value < n + 1
      ensures InNode(Section(after), p)
    {
      if p[0] == name {
        assert InReport(child, p[1..]);
      } else {
        assert FieldIndex(ty.fields, p[0]).value != n;
        assert InNode(Section(children), p);
      }
    }
  }

  /** `generateEnvironmentMapWithBaseKey`, without a filter: the report lists precisely the
      reported fields, and is never nested deeper than the type. */
  method GenerateEnvironmentMap(ty: Ty, base: string, vars: map<string, string>, ghost depth: nat)
    returns (report: Option<EnvNode>)
    requires WellFormed(ty) && NestedWithin(ty, depth)
    ensures forall p :: InReport(report, p) <==> Reported(ty, base, vars, p)
    ensures report.Some? ==>
      report.value.Section? && report.value.children != map[] && WithinDepth(report.value, depth)
    decreases ty
  {
    if !ty.TStruct? {
      return None;
    }
    var children: map<string, EnvNode> := map[];
    for i := 0 to |ty.fields|
      invariant Covers(ty, base, vars, i, children)
      invariant forall k :: k in children ==> WithinDepth(children[k], depth - 1)
    {
      var field := ty.fields[i];
      var child: Option<EnvNode> := None;
      if field.ty.TStruct? {
        child := GenerateEnvironmentMap(field.ty, base + "_" + field.name, vars, depth - 1);
      } else if Upper(base + "_" + field.name) in vars {
        child := Some(Mark);
      }
      CoversNextField(ty, base, vars, i, children, child);
      children := WithChild(children, field.name, child);
    }
    report := if children == map[] then None else Some(Section(children));
    assert forall p :: Reported(ty, base, vars, p) <==> InNode(Section(children), p);
  }

  // -------------------------------------------------------------------------
  // Slices over shared backing arrays
  // -------------------------------------------------------------------------

  datatype Slice = NilSlice | Slice(arr: array<string>, len: nat)

  predicate ValidSlice(s: Slice) {
    s.Slice? ==> s.len <= s.arr.Length
  }

  function Len(s: Slice): nat {
    if s.Slice? then s.len else 0
  }

  function Cap(s: Slice): nat {
    if s.Slice? then s.arr.Length else 0
  }

  function Backing(s: Slice): set<object> {
    if s.Slice? then {s.arr} else {}
  }

  function Contents(s: Slice): (p: Path)
    requires ValidSlice(s)
    reads Backing(s)
    ensures |p| == Len(s)
  {
    if s.Slice? then s.arr[..s.len] else []
  }

  /** The capacity `append` asks for when it has to move (before size-class rounding,
      which changes nothing below 256 strings). */
  function GrownCap(cap: nat): nat {
    if cap == 0 then 1 else if cap < 256 then 2 * cap else cap + (cap + 768) / 4
  }

  /** `append(s, x)`: in place while there is room, otherwise on a fresh array. */
  method Append(s: Slice, x: string) returns (t: Slice)
    requires ValidSlice(s)
    modifies if Len(s) < Cap(s) then Backing(s) else {}
    ensures t.Slice? && ValidSlice(t) && Contents(t) == old(Contents(s)) + [x]
    ensures Len(s) < Cap(s) ==> t.arr == s.arr && t.arr[t.len..] == old(s.arr[s.len + 1..])
    ensures Len(s) == Cap(s) ==> fresh(t.arr) && Cap(t) == GrownCap(Cap(s))
  {
    if Len(s) < Cap(s) {
      s.arr[s.len] := x;
      t := Slice(s.arr, s.len + 1);
    } else {
      var arr := new string[GrownCap(Cap(s))];
      for i := 0 to Len(s)
        invariant arr[..i] == Contents(s)[..i]
      {
        arr[i] := s.arr[i];
      }
      arr[Len(s)] := x;
      t := Slice(arr, Len(s) + 1);
    }
  }

  /** Two siblings appended to one prefix, as consecutive turns of the loop do: they stay
      apart exactly when the prefix has no spare capacity. */
  method AppendSiblings(prefix: Slice, x: string, y: string) returns (a: Slice, b: Slice)
    requires ValidSlice(prefix)
    modifies if Len(prefix) < Cap(prefix) then Backing(prefix) else {}
    ensures ValidSlice(a) && ValidSlice(b)
    ensures Contents(b) == old(Contents(prefix)) + [y]
    ensures Contents(a) == old(Contents(prefix)) + [if Len(prefix) == Cap(prefix) then x else y]
  {
    a := Append(prefix, x);
    b := Append(prefix, y);
  }

  /** `texts` lists every path of `node`, behind `prefix`, exactly once. */
  ghost predicate Enumeration(node: EnvNode, prefix: Path, texts: seq<Path>) {
    && NoDuplicates(texts)
    && (forall t :: t in texts ==> Extends(node, prefix, t))
    && (forall q :: InNode(node, q) ==> prefix + q in texts)
  }

  /** The same while the children in `pending` are still to be visited. */
  ghost predicate Enumerating(node: EnvNode, prefix: Path, pending: set<string>, texts: seq<Path>)
    requires node.Section?
  {
    && NoDuplicates(texts)
    && (forall t :: t in texts ==> Extends(node, prefix, t) && t[|prefix|] !in pending)
    && (forall q :: InNode(node, q) && q[0] !in pending ==> prefix + q in texts)
  }

  ghost predicate Extends(node: EnvNode, prefix: Path, p: Path) {
    prefix <= p && InNode(node, p[|prefix|..]) && (node.Section? ==> |prefix| < |p|)
  }

  lemma ExtendsThroughChild(node: EnvNode, k: string, prefix: Path, p: Path)
    requires node.Section? && k in node.children && Extends(node.children[k], prefix + [k], p)
    ensures Extends(node, prefix, p) && p[|prefix|] == k
  {
    assert p[|prefix|] == (prefix + [k])[|prefix|];
    assert prefix <= prefix + [k];
    assert p[|prefix|..][1..] == p[|prefix + [k]|..];
  }

  lemma EnumeratingOneMore(node: EnvNode, prefix: Path, pending: set<string>, k: string,
                           texts: seq<Path>, sub: seq<Path>)
    requires node.Section? && pending <= node.children.Keys && k in pending
    requires Enumerating(node, prefix, pending, texts)
    requires Enumeration(node.children[k], prefix + [k], sub)
    ensures Enumerating(node, prefix, pending - {k}, texts + sub)
  {
    forall t | t in sub ensures Extends(node, prefix, t) && t[|prefix|] == k {
      ExtendsThroughChild(node, k, prefix, t);
    }
    assert NoDuplicates(texts + sub) by {
      forall i, j | 0 <= i < j < |texts + sub| ensures (texts + sub)[i] != (texts + sub)[j] {
        if i < |texts| <= j {
          assert texts[i] in texts && sub[j - |texts|] in sub;
        }
      }
    }
    forall q | InNode(node, q) && q[0] !in pending - {k} ensures prefix + q in texts + sub {
      if q[0] == k {
        assert prefix + [k] + q[1..] == prefix + q;
      }
    }
  }

  lemma EnumerationOfMark(prefix: Path)
    ensures Enumeration(Mark, prefix, [prefix])
  {
    assert prefix + [] == prefix;
  }

  lemma EnumeratingFromNothing(node: EnvNode, prefix: Path)
    requires node.Section?
    ensures Enumerating(node, prefix, node.children.Keys, [])
  {}

  lemma EnumeratedAll(node: EnvNode, prefix: Path, texts: seq<Path>)
    requires node.Section? && Enumerating(node, prefix, {}, texts)
    ensures Enumeration(node, prefix, texts)
  {}

  /** The storage of `paths`, read now, spells `texts`. */
  ghost predicate Spell(paths: seq<Slice>, texts: seq<Path>)
    reads set i, o | 0 <= i < |paths| && o in Backing(paths[i]) :: o
  {
    |paths| == |texts| &&
    forall i :: 0 <= i < |paths| ==> ValidSlice(paths[i]) && Contents(paths[i]) == texts[i]
  }

  lemma SpellConcat(a: seq<Slice>, aTexts: seq<Path>, b: seq<Slice>, bTexts: seq<Path>)
    requires Spell(a, aTexts) && Spell(b, bTexts)
    ensures Spell(a + b, aTexts + bTexts)
  {}

  /** `getPathsRec`. Down to three segments every prefix that is extended is full, so no
      two paths share storage and each reported path comes out intact, exactly once. */
  method GetPathsRec(node: EnvNode, cur: Slice, ghost depth: nat) returns (paths: seq<Slice>, ghost texts: seq<Path>)
    requires ValidSlice(cur) && WithinDepth(node, depth)
    requires Len(cur) + depth <= 3
    requires Len(cur) < 3 ==> Cap(cur) == Len(cur)
    ensures forall i :: 0 <= i < |paths| ==> paths[i] == cur || fresh(Backing(paths[i]))
    ensures Spell(paths, texts) && Enumeration(node, Contents(cur), texts)
    decreases node
  {
    hide Enumeration, Enumerating, InNode, Extends;
    ghost var prefix := Contents(cur);
    match node
    case Mark =>
      paths, texts := [cur], [prefix];
      EnumerationOfMark(prefix);
    case Section(children) =>
      paths, texts := [], [];
      var pending := children.Keys;
      EnumeratingFromNothing(node, prefix);
      while pending != {}
        invariant pending <= children.Keys
        invariant forall i :: 0 <= i < |paths| ==> fresh(Backing(paths[i]))
        invariant Spell(paths, texts) && Contents(cur) == prefix
        invariant Enumerating(node, prefix, pending, texts)
      {
        var k :| k in pending;
        var child := Append(cur, k);
        var sub, subTexts := GetPathsRec(children[k], child, depth - 1);
        EnumeratingOneMore(node, prefix, pending, k, texts, subTexts);
        SpellConcat(paths, texts, sub, subTexts);
        paths, texts := paths + sub, texts + subTexts;
        pending := pending - {k};
      }
      EnumeratedAll(node, prefix, texts);
  }

  /** `getPaths`: the report flattened. */
  method GetPaths(report: Option<EnvNode>) returns (paths: seq<Slice>, ghost texts: seq<Path>)
    requires report.Some? ==> report.value.Section? && WithinDepth(report.value, 3)
    ensures Spell(paths, texts) && NoDuplicates(texts)
    ensures forall p :: p in texts <==> InReport(report, p)
  {
    match report
    case None =>
      paths, texts := [], [];
    case Some(node) =>
      paths, texts := GetPathsRec(node, NilSlice, 3);
      forall p ensures p in texts <==> InNode(node, p) {
        assert [] + p == p && p[0..] == p;
        if p in texts { assert Extends(node, [], p); }
      }
  }

  // -------------------------------------------------------------------------
  // Removing the overrides
  // -------------------------------------------------------------------------

  /** A field reached through struct values only, and not itself a struct value. */
  predicate ValueField(ty: Ty, p: Path) {
    ty.TStruct? && p != [] &&
    match FieldIndex(ty.fields, p[0])
    case None => false
    case Some(i) =>
      if ty.fields[i].ty.TStruct? then ValueField(ty.fields[i].ty, p[1..]) else |p| == 1
  }

  /** What `getVal` comes back with; `Panic` is an index out of range or a field of a non-struct. */
  datatype Got = Panic | Invalid | Found(value: Scalar)

  /** `getVal`: follows field names, through at most one pointer each, until it meets something
      that is not a struct; whatever is left of the path then is ignored. */
  function GetVal(ty: Ty, v: Tree, path: Path): Got
    decreases |path|
  {
    if path == [] || !ty.TStruct? || !v.Struct? || |v.fields| != |ty.fields| then Panic
    else
      match FieldIndex(ty.fields, path[0])
      case None => Invalid
      case Some(i) =>
        var (t, x) := Behind(ty.fields[i].ty, v.fields[i]);
        if x.Struct? then GetVal(t, x, path[1..])
        else if x.Leaf? then Found(x.value)
        else Invalid
  }

  /** `reflect.Value.Elem` on a pointer. */
  function Behind(ty: Ty, v: Tree): (Ty, Tree) {
    if ty.TPtr? && v.Ptr? then (ty.to, v.to) else (ty, v)
  }

  /** Asked for a reported field, `getVal` finds it exactly if it is a leaf. */
  lemma {:induction false} GetValOfReported(ty: Ty, v: Tree, p: Path)
    requires WellFormed(ty) && Typed(ty, v) && ValueField(ty, p) && (IsLeaf(ty, p) || Complete(v))
    ensures GetVal(ty, v, p) ==
      if !IsLeaf(ty, p) then Panic
      else if Lookup(ty, v, p).Some? then Found(Lookup(ty, v, p).value)
      else Invalid
    decreases ty
  {
    var i := FieldIndex(ty.fields, p[0]).value;
    var fieldTy := ty.fields[i].ty;
    if fieldTy.TStruct? {
      GetValOfReported(fieldTy, v.fields[i], p[1..]);
    } else {
      assert p[1..] == [];
      GetValBehind(fieldTy, v.fields[i]);
    }
  }

  lemma GetValBehind(ty: Ty, v: Tree)
    requires WellFormed(ty) && Typed(ty, v) && !ty.TStruct? && (IsLeaf(ty, []) || Complete(v))
    ensures var (t, x) := Behind(ty, v);
      && (IsLeaf(ty, []) ==> !x.Struct? && (x.Leaf? ==> Lookup(ty, v, []) == Some(x.value)))
      && (IsLeaf(ty, []) && !x.Leaf? ==> Lookup(ty, v, []) == None)
      && (!IsLeaf(ty, []) ==> x.Struct? && GetVal(t, x, []) == Panic)
  {
    if ty.TPtr? {
      assert ty.to.TLeaf? || ty.to.TStruct?;
      assert v.Ptr? ==> Typed(ty.to, v.to);
    }
  }

  /** `removeEnvOverrides`: every overridden leaf goes back to its value in `base`, whatever
      order the report is walked in; a leaf behind a nil pointer stays away. It panics exactly if
      some reported field is not a leaf (but a pointer to a struct). */
  method RemoveEnvOverrides(ty: Ty, cfg: Tree, base: Tree, report: Option<EnvNode>) returns (result: Option<Tree>)
    requires WellFormed(ty)
    requires Typed(ty, cfg) && Typed(ty, base) && Complete(base)
    requires report.Some? ==> report.value.Section? && WithinDepth(report.value, 3)
    requires forall p :: InReport(report, p) ==> ValueField(ty, p)
    ensures result.Some? <==> forall p :: InReport(report, p) ==> IsLeaf(ty, p)
    ensures result.Some? ==>
      && Typed(ty, result.value) && (Complete(cfg) ==> Complete(result.value))
      && Leaves(ty, result.value) == Restored(Leaves(ty, cfg), Leaves(ty, base), iset p | InReport(report, p))
  {
    hide Leaves, Restored, InNode, WithinDepth, Typed, Complete, WellFormed, ValueField, GetVal, Put, IsLeaf, Lookup;
    var paths, texts := GetPaths(report);
    var now := cfg;
    RestoredNothing(Leaves(ty, cfg), Leaves(ty, base));
    assert (iset p | p in texts[..0]) == iset{};
    for i := 0 to |paths|
      invariant Spell(paths, texts)
      invariant Typed(ty, now) && (Complete(cfg) ==> Complete(now))
      invariant forall j :: 0 <= j < i ==> IsLeaf(ty, texts[j])
      invariant Leaves(ty, now) == Restored(Leaves(ty, cfg), Leaves(ty, base), iset p | p in texts[..i])
    {
      var p := Contents(paths[i]);
      assert p in texts;
      GetValOfReported(ty, base, p);
      var original := GetVal(ty, base, p);
      if original.Panic? {
        return None;
      }
      LookupTyped(ty, base, p);
      GetValOfReported(ty, now, p);
      RestoreOne(ty, cfg, base, now, texts[..i], p);
      if GetVal(ty, now, p).Found? {
        now := Put(ty, now, p, original.value);
      }
      assert texts[..i + 1] == texts[..i] + [p];
    }
    assert texts[..|paths|] == texts;
    assert (iset p | p in texts) == iset p | InReport(report, p);
    result := Some(now);
  }

  /** `to` with the entries named by `paths` taken from `from`. */
  ghost function Restored(to: Table, from: Table, paths: iset<Path>): Table {
    to + Only(from, set p | p in to && p in paths)
  }

  lemma RestoredNothing(to: Table, from: Table)
    ensures Restored(to, from, iset{}) == to
  {}

  lemma RestoreOne(ty: Ty, cfg: Tree, base: Tree, current: Tree, texts: seq<Path>, p: Path)
    requires WellFormed(ty) && IsLeaf(ty, p)
    requires Typed(ty, cfg) && Typed(ty, base) && Complete(base)
    requires Typed(ty, current) && Lookup(ty, base, p).Some?
    requires Leaves(ty, current) == Restored(Leaves(ty, cfg), Leaves(ty, base), iset q | q in texts)
    ensures var after := Put(ty, current, p, Lookup(ty, base, p).value);
      && (Lookup(ty, current, p).None? ==> after == current)
      && Typed(ty, after) && (Complete(current) ==> Complete(after))
      && Leaves(ty, after) == Restored(Leaves(ty, cfg), Leaves(ty, base), iset q | q in texts + [p])
  {
    var x := Lookup(ty, base, p).value;
    LookupTyped(ty, base, p);
    if Lookup(ty, current, p).Some? {
      assert p in Leaves(ty, current);
      LeavesOfPut(ty, current, p, x);
    } else {
      assert p !in Leaves(ty, current);
      PutBehindNil(ty, current, p, x);
    }
    RestoredOneMore(Leaves(ty, cfg), Leaves(ty, base), texts, p, x);
  }

  lemma RestoredOneMore(to: Table, from: Table, texts: seq<Path>, p: Path, x: Scalar)
    requires p in from && from[p] == x
    ensures Restored(to, from, iset q | q in texts + [p]) ==
      var m := Restored(to, from, iset q | q in texts); if p in m then m[p := x] else m
  {}
}

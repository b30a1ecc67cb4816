/** The configuration as reflection sees it: a typed tree of named fields whose
    leaves are scalars, lists and maps, with pointers that may be nil.

    `Leaves` forgets the tree and keeps the table of leaf paths and leaf values; a nil
    pointer contributes no entry. On complete trees (no nil pointer) `Leaves` loses
    nothing, so every walk of the tree can be specified by what it does to the table. */
module ConfigTree {
  import opened Text

  /** A value of Go's `any` inside the plugin settings. */
  datatype Json = JNull | JText(text: string) | JOther(raw: string)

  type Plugins = map<string, map<string, Json>>

  datatype Kind = KString | KBool | KInt | KList | KRaw | KMap

  datatype Scalar =
    | SString(text: string)
    | SBool(flag: bool)
    | SInt(number: int)
    | SList(items: seq<string>)
    | SNilList
    | SRaw(bytes: string)
    | SNilRaw
    | SMap(entries: Plugins)
    | SNilMap
  {
    predicate HasKind(kind: Kind) {
      match kind
      case KString => SString?
      case KBool => SBool?
      case KInt => SInt?
      case KList => SList? || SNilList?
      case KRaw => SRaw? || SNilRaw?
      case KMap => SMap? || SNilMap?
    }

    predicate IsNil() {
      SNilList? || SNilRaw? || SNilMap?
    }

    /** `reflect.Value.IsZero` on a leaf. */
    predicate IsZero() {
      IsNil() || this == SString("") || this == SBool(false) || this == SInt(0)
    }
  }

  datatype Ty = TLeaf(kind: Kind) | TPtr(to: Ty) | TStruct(fields: seq<Field>)

  datatype Field = Field(name: string, ty: Ty)

  datatype Tree = Nil | Ptr(to: Tree) | Leaf(value: Scalar) | Struct(fields: seq<Tree>)

  type Path = seq<string>

  type Table = map<Path, Scalar>

  /** The entries of `m` at `keys`. */
  function Only<K(==), V>(m: map<K, V>, keys: set<K>): map<K, V> {
    m - (m.Keys - keys)
  }

  /** `FieldByName`: the position of the field called `name`. */
  function FieldIndex(fields: seq<Field>, name: string): (i: Option<nat>)
    ensures i.Some? ==> i.value < |fields| && fields[i.value].name == name
    ensures i.None? ==> forall k :: 0 <= k < |fields| ==> fields[k].name != name
  {
    if fields == [] then None
    else if fields[0].name == name then Some(0)
    else
      match FieldIndex(fields[1..], name)
      case None => None
      case Some(i) => Some(i + 1)
  }

  ghost predicate DistinctNames(fields: seq<Field>) {
    forall i, j :: 0 <= i < j < |fields| ==> fields[i].name != fields[j].name
  }

  /** A Go struct type: sibling names differ, and no pointer to a pointer. */
  ghost predicate WellFormed(ty: Ty) {
    match ty
    case TLeaf(_) => true
    case TPtr(to) => !to.TPtr? && WellFormed(to)
    case TStruct(fields) =>
      DistinctNames(fields) && forall i :: 0 <= i < |fields| ==> WellFormed(fields[i].ty)
  }

  lemma FieldIndexOf(fields: seq<Field>, i: nat)
    requires DistinctNames(fields) && i < |fields|
    ensures FieldIndex(fields, fields[i].name) == Some(i)
  {
    var j := FieldIndex(fields, fields[i].name);
    assert j.Some?;
  }

  ghost predicate Typed(ty: Ty, v: Tree) {
    match ty
    case TLeaf(kind) => v.Leaf? && v.value.HasKind(kind)
    case TPtr(to) => v.Nil? || (v.Ptr? && Typed(to, v.to))
    case TStruct(fields) =>
      && v.Struct? && |v.fields| == |fields|
      && forall i :: 0 <= i < |fields| ==> Typed(fields[i].ty, v.fields[i])
  }

  /** No pointer anywhere is nil. */
  ghost predicate Complete(v: Tree) {
    match v
    case Nil => false
    case Ptr(to) => Complete(to)
    case Leaf(_) => true
    case Struct(fields) => forall i :: 0 <= i < |fields| ==> Complete(fields[i])
  }

  predicate IsLeaf(ty: Ty, p: Path) {
    match ty
    case TLeaf(_) => p == []
    case TPtr(to) => IsLeaf(to, p)
    case TStruct(fields) =>
      p != [] &&
      match FieldIndex(fields, p[0])
      case None => false
      case Some(i) => IsLeaf(fields[i].ty, p[1..])
  }

  function KindAt(ty: Ty, p: Path): Kind
    requires IsLeaf(ty, p)
  {
    match ty
    case TLeaf(kind) => kind
    case TPtr(to) => KindAt(to, p)
    case TStruct(fields) =>
      var i := FieldIndex(fields, p[0]).value;
      KindAt(fields[i].ty, p[1..])
  }

  ghost function LeafPaths(ty: Ty): (paths: set<Path>)
    requires WellFormed(ty)
    ensures forall p :: p in paths <==> IsLeaf(ty, p)
  {
    match ty
    case TLeaf(_) => {[]}
    case TPtr(to) => LeafPaths(to)
    case TStruct(fields) =>
      var paths := set i, q | 0 <= i < |fields| && q in LeafPaths(fields[i].ty) :: [fields[i].name] + q;
      assert forall p :: p in paths <==> IsLeaf(ty, p) by {
        forall p ensures p in paths <==> IsLeaf(ty, p) {
          if p in paths {
            var i, q :| 0 <= i < |fields| && q in LeafPaths(fields[i].ty) && p == [fields[i].name] + q;
            FieldIndexOf(fields, i);
            assert p[1..] == q;
          }
          if IsLeaf(ty, p) {
            var i := FieldIndex(fields, p[0]).value;
            assert p[1..] in LeafPaths(fields[i].ty);
            assert p == [fields[i].name] + p[1..];
          }
        }
      }
      paths
  }

  /** The value at a leaf path, unless a nil pointer is in the way. */
  function Lookup(ty: Ty, v: Tree, p: Path): Option<Scalar> {
    match ty
    case TLeaf(_) => if p == [] && v.Leaf? then Some(v.value) else None
    case TPtr(to) => if v.Ptr? then Lookup(to, v.to, p) else None
    case TStruct(fields) =>
      if p == [] || !v.Struct? || |v.fields| != |fields| then None
      else
        match FieldIndex(fields, p[0])
        case None => None
        case Some(i) => Lookup(fields[i].ty, v.fields[i], p[1..])
  }

  /** Setting the leaf at a path through reflection; nothing happens behind a nil pointer. */
  function Put(ty: Ty, v: Tree, p: Path, x: Scalar): Tree {
    match ty
    case TLeaf(_) => if p == [] && v.Leaf? then Leaf(x) else v
    case TPtr(to) => if v.Ptr? then Ptr(Put(to, v.to, p, x)) else v
    case TStruct(fields) =>
      if p == [] || !v.Struct? || |v.fields| != |fields| then v
      else
        match FieldIndex(fields, p[0])
        case None => v
        case Some(i) => Struct(v.fields[i := Put(fields[i].ty, v.fields[i], p[1..], x)])
  }

  /** The table of leaves. */
  ghost function Leaves(ty: Ty, v: Tree): Table
    requires WellFormed(ty)
  {
    map p | p in LeafPaths(ty) && Lookup(ty, v, p).Some? :: Lookup(ty, v, p).value
  }

  /** The entry of a table, if it has one. */
  function At(m: Table, p: Path): Option<Scalar> {
    if p in m then Some(m[p]) else None
  }

  lemma LeavesAt(ty: Ty, v: Tree, p: Path)
    requires WellFormed(ty)
    ensures At(Leaves(ty, v), p) == if IsLeaf(ty, p) then Lookup(ty, v, p) else None
  {}

  lemma {:induction false} PutTyped(ty: Ty, v: Tree, p: Path, x: Scalar)
    requires Typed(ty, v) && IsLeaf(ty, p) && x.HasKind(KindAt(ty, p))
    ensures Typed(ty, Put(ty, v, p, x))
    ensures Complete(v) ==> Complete(Put(ty, v, p, x))
    decreases ty
  {
    match ty
    case TLeaf(_) =>
    case TPtr(to) =>
      if v.Ptr? { PutTyped(to, v.to, p, x); }
    case TStruct(fields) =>
      var i := FieldIndex(fields, p[0]).value;
      PutTyped(fields[i].ty, v.fields[i], p[1..], x);
  }

  lemma {:induction false} LookupOfPut(ty: Ty, v: Tree, p: Path, x: Scalar, q: Path)
    requires IsLeaf(ty, p) && IsLeaf(ty, q) && Lookup(ty, v, p).Some?
    ensures Lookup(ty, Put(ty, v, p, x), q) == if p == q then Some(x) else Lookup(ty, v, q)
    decreases ty
  {
    match ty
    case TLeaf(_) =>
    case TPtr(to) =>
      LookupOfPut(to, v.to, p, x, q);
    case TStruct(fields) =>
      var i := FieldIndex(fields, p[0]).value;
      if p[0] == q[0] {
        LookupOfPut(fields[i].ty, v.fields[i], p[1..], x, q[1..]);
        assert p == [p[0]] + p[1..] && q == [q[0]] + q[1..];
      }
  }

  lemma {:induction false} LookupTyped(ty: Ty, v: Tree, p: Path)
    requires Typed(ty, v) && IsLeaf(ty, p)
    ensures Complete(v) ==> Lookup(ty, v, p).Some?
    ensures Lookup(ty, v, p).Some? ==> Lookup(ty, v, p).value.HasKind(KindAt(ty, p))
    decreases ty
  {
    match ty
    case TLeaf(_) =>
    case TPtr(to) =>
      if v.Ptr? { LookupTyped(to, v.to, p); }
    case TStruct(fields) =>
      var i := FieldIndex(fields, p[0]).value;
      LookupTyped(fields[i].ty, v.fields[i], p[1..]);
  }

  /** Behind a nil pointer there is nothing to write to. */
  lemma {:induction false} PutBehindNil(ty: Ty, v: Tree, p: Path, x: Scalar)
    requires Typed(ty, v) && IsLeaf(ty, p) && Lookup(ty, v, p).None?
    ensures Put(ty, v, p, x) == v
    decreases ty
  {
    match ty
    case TLeaf(_) =>
    case TPtr(to) =>
      if v.Ptr? { PutBehindNil(to, v.to, p, x); }
    case TStruct(fields) =>
      var i := FieldIndex(fields, p[0]).value;
      PutBehindNil(fields[i].ty, v.fields[i], p[1..], x);
      assert v.fields[i := v.fields[i]] == v.fields;
  }

  /** A table that could come from a complete tree of type `ty`. */
  ghost predicate FullTable(ty: Ty, m: Table)
    requires WellFormed(ty)
  {
    m.Keys == LeafPaths(ty) && TypedTable(ty, m)
  }

  ghost predicate TypedTable(ty: Ty, m: Table)
    requires WellFormed(ty)
  {
    m.Keys <= LeafPaths(ty) && forall p :: p in m ==> m[p].HasKind(KindAt(ty, p))
  }

  lemma LeavesOfTyped(ty: Ty, v: Tree)
    requires WellFormed(ty) && Typed(ty, v)
    ensures TypedTable(ty, Leaves(ty, v))
    ensures Complete(v) ==> FullTable(ty, Leaves(ty, v))
  {
    forall p | IsLeaf(ty, p)
      ensures Complete(v) ==> Lookup(ty, v, p).Some?
      ensures Lookup(ty, v, p).Some? ==> Lookup(ty, v, p).value.HasKind(KindAt(ty, p))
    {
      LookupTyped(ty, v, p);
    }
  }

  /** Writing a leaf that no nil pointer hides is a table update. */
  lemma LeavesOfPut(ty: Ty, v: Tree, p: Path, x: Scalar)
    requires WellFormed(ty) && Typed(ty, v) && IsLeaf(ty, p) && x.HasKind(KindAt(ty, p))
    requires Complete(v) || Lookup(ty, v, p).Some?
    ensures Typed(ty, Put(ty, v, p, x)) && (Complete(v) ==> Complete(Put(ty, v, p, x)))
    ensures Leaves(ty, Put(ty, v, p, x)) == Leaves(ty, v)[p := x]
  {
    var after := Put(ty, v, p, x);
    PutTyped(ty, v, p, x);
    LookupTyped(ty, v, p);
    var before, now := Leaves(ty, v), Leaves(ty, after);
    forall q ensures At(now, q) == if q == p then Some(x) else At(before, q) {
      LeavesAt(ty, v, q);
      LeavesAt(ty, after, q);
      if IsLeaf(ty, q) { LookupOfPut(ty, v, p, x, q); }
    }
    UpdatedByPaths(now, before, p, x);
  }

  lemma UpdatedByPaths(now: Table, before: Table, p: Path, x: Scalar)
    requires forall q :: At(now, q) == if q == p then Some(x) else At(before, q)
    ensures now == before[p := x]
  {
    forall q ensures q in now <==> q in before || q == p {
      assert At(now, q) == if q == p then Some(x) else At(before, q);
    }
    forall q | q in now ensures now[q] == before[p := x][q] {
      assert At(now, q) == if q == p then Some(x) else At(before, q);
    }
  }

  /** On complete trees of one type the table determines the tree. */
  lemma {:induction false} SameLeavesSameTree(ty: Ty, a: Tree, b: Tree)
    requires WellFormed(ty) && Typed(ty, a) && Typed(ty, b) && Complete(a) && Complete(b)
    requires forall p :: IsLeaf(ty, p) ==> Lookup(ty, a, p) == Lookup(ty, b, p)
    ensures a == b
    decreases ty
  {
    match ty
    case TLeaf(_) =>
      assert IsLeaf(ty, []);
    case TPtr(to) =>
      forall p | IsLeaf(to, p) ensures Lookup(to, a.to, p) == Lookup(to, b.to, p) {
        assert IsLeaf(ty, p);
      }
      SameLeavesSameTree(to, a.to, b.to);
    case TStruct(fields) =>
      forall i | 0 <= i < |fields| ensures a.fields[i] == b.fields[i] {
        forall p | IsLeaf(fields[i].ty, p)
          ensures Lookup(fields[i].ty, a.fields[i], p) == Lookup(fields[i].ty, b.fields[i], p)
        {
          var q := [fields[i].name] + p;
          FieldIndexOf(fields, i);
          assert q[1..] == p;
          assert IsLeaf(ty, q);
        }
        SameLeavesSameTree(fields[i].ty, a.fields[i], b.fields[i]);
      }
  }

  lemma LeavesIsInjective(ty: Ty, a: Tree, b: Tree)
    requires WellFormed(ty) && Typed(ty, a) && Typed(ty, b) && Complete(a) && Complete(b)
    requires Leaves(ty, a) == Leaves(ty, b)
    ensures a == b
  {
    forall p | IsLeaf(ty, p) ensures Lookup(ty, a, p) == Lookup(ty, b, p) {
      LookupTyped(ty, a, p);
      LookupTyped(ty, b, p);
      assert Leaves(ty, a)[p] == Leaves(ty, b)[p];
    }
    SameLeavesSameTree(ty, a, b);
  }

  /** The complete tree that holds, at each leaf, what `m` holds there; `prefix` leads to it. */
  function TreeAt(ty: Ty, m: Table, prefix: Path): Tree
    decreases ty
  {
    match ty
    case TLeaf(_) => if prefix in m then Leaf(m[prefix]) else Nil
    case TPtr(to) => Ptr(TreeAt(to, m, prefix))
    case TStruct(fields) =>
      Struct(seq(|fields|, i requires 0 <= i < |fields| => TreeAt(fields[i].ty, m, prefix + [fields[i].name])))
  }

  lemma {:induction false} TreeAtHolds(ty: Ty, m: Table, prefix: Path)
    requires WellFormed(ty)
    requires forall p :: IsLeaf(ty, p) ==> prefix + p in m && m[prefix + p].HasKind(KindAt(ty, p))
    ensures Typed(ty, TreeAt(ty, m, prefix)) && Complete(TreeAt(ty, m, prefix))
    ensures forall p :: IsLeaf(ty, p) ==> Lookup(ty, TreeAt(ty, m, prefix), p) == Some(m[prefix + p])
    decreases ty
  {
    match ty
    case TLeaf(_) =>
      assert IsLeaf(ty, []) && prefix + [] == prefix;
    case TPtr(to) =>
      forall p | IsLeaf(to, p) ensures prefix + p in m && m[prefix + p].HasKind(KindAt(to, p)) {
        assert IsLeaf(ty, p);
      }
      TreeAtHolds(to, m, prefix);
    case TStruct(fields) =>
      forall i | 0 <= i < |fields|
        ensures Typed(fields[i].ty, TreeAt(fields[i].ty, m, prefix + [fields[i].name]))
        ensures Complete(TreeAt(fields[i].ty, m, prefix + [fields[i].name]))
      {
        FieldHolds(ty, m, prefix, i);
        TreeAtHolds(fields[i].ty, m, prefix + [fields[i].name]);
      }
      forall p | IsLeaf(ty, p) ensures Lookup(ty, TreeAt(ty, m, prefix), p) == Some(m[prefix + p]) {
        var i := FieldIndex(fields, p[0]).value;
        FieldHolds(ty, m, prefix, i);
        TreeAtHolds(fields[i].ty, m, prefix + [fields[i].name]);
        assert p == [p[0]] + p[1..];
        assert prefix + [fields[i].name] + p[1..] == prefix + p;
      }
  }

  lemma FieldHolds(ty: Ty, m: Table, prefix: Path, i: nat)
    requires WellFormed(ty) && ty.TStruct? && i < |ty.fields|
    requires forall p :: IsLeaf(ty, p) ==> prefix + p in m && m[prefix + p].HasKind(KindAt(ty, p))
    ensures forall q :: IsLeaf(ty.fields[i].ty, q) ==>
      && prefix + [ty.fields[i].name] + q in m
      && m[prefix + [ty.fields[i].name] + q].HasKind(KindAt(ty.fields[i].ty, q))
  {
    var name, fieldTy := ty.fields[i].name, ty.fields[i].ty;
    FieldIndexOf(ty.fields, i);
    forall q | IsLeaf(fieldTy, q)
      ensures prefix + [name] + q in m && m[prefix + [name] + q].HasKind(KindAt(fieldTy, q))
    {
      var p := [name] + q;
      assert p[1..] == q;
      assert IsLeaf(ty, p) && KindAt(ty, p) == KindAt(fieldTy, q);
      assert prefix + [name] + q == prefix + p;
    }
  }

  /** Every full table is that of a complete configuration. */
  lemma LeavesIsOnto(ty: Ty, m: Table) returns (v: Tree)
    requires WellFormed(ty) && FullTable(ty, m)
    ensures Typed(ty, v) && Complete(v) && Leaves(ty, v) == m
  {
    v := TreeAt(ty, m, []);
    assert forall p: Path :: [] + p == p;
    TreeAtHolds(ty, m, []);
    forall p ensures At(Leaves(ty, v), p) == At(m, p) {
      LeavesAt(ty, v, p);
      if IsLeaf(ty, p) { assert [] + p == p; }
    }
    SameByPaths(Leaves(ty, v), m);
  }

  lemma SameByPaths(a: Table, b: Table)
    requires forall p :: At(a, p) == At(b, p)
    ensures a == b
  {
    forall p ensures p in a <==> p in b { assert At(a, p) == At(b, p); }
    forall p | p in a ensures a[p] == b[p] { assert At(a, p) == At(b, p); }
  }
}

/** Merging configurations as trees: a patch over a base, which with the defaults as base is
    also how `SetDefaults` fills a partial configuration. */
module Defaults {
  import opened Text
  import opened ConfigTree
  import opened StoreSpec

  /** `Merge`: the patch wins wherever it is not nil. */
  function MergeTree(ty: Ty, base: Tree, patch: Tree): Tree {
    match ty
    case TLeaf(_) => if patch.Leaf? && !patch.value.IsNil() then patch else base
    case TPtr(to) =>
      if !patch.Ptr? then base
      else if !base.Ptr? then patch
      else Ptr(MergeTree(to, base.to, patch.to))
    case TStruct(fields) =>
      if !patch.Struct? || !base.Struct? || |patch.fields| != |fields| || |base.fields| != |fields| then base
      else Struct(seq(|fields|, i requires 0 <= i < |fields| =>
                        MergeTree(fields[i].ty, base.fields[i], patch.fields[i])))
  }

  lemma {:induction false} MergeTyped(ty: Ty, base: Tree, patch: Tree)
    requires Typed(ty, base) && Typed(ty, patch)
    ensures Typed(ty, MergeTree(ty, base, patch))
    ensures Complete(base) ==> Complete(MergeTree(ty, base, patch))
    decreases ty
  {
    match ty
    case TLeaf(_) =>
    case TPtr(to) =>
      if patch.Ptr? && base.Ptr? { MergeTyped(to, base.to, patch.to); }
    case TStruct(fields) =>
      forall i | 0 <= i < |fields|
        ensures Typed(fields[i].ty, MergeTree(fields[i].ty, base.fields[i], patch.fields[i]))
        ensures Complete(base) ==> Complete(MergeTree(fields[i].ty, base.fields[i], patch.fields[i]))
      {
        MergeTyped(fields[i].ty, base.fields[i], patch.fields[i]);
      }
  }

  function Merged(base: Option<Scalar>, patch: Option<Scalar>): Option<Scalar> {
    if patch.Some? && (!patch.value.IsNil() || base.None?) then patch else base
  }

  lemma {:induction false} LookupOfMerge(ty: Ty, base: Tree, patch: Tree, p: Path)
    requires Typed(ty, base) && Typed(ty, patch) && IsLeaf(ty, p)
    ensures Lookup(ty, MergeTree(ty, base, patch), p) == Merged(Lookup(ty, base, p), Lookup(ty, patch, p))
    decreases ty
  {
    match ty
    case TLeaf(_) =>
    case TPtr(to) =>
      if patch.Ptr? && base.Ptr? { LookupOfMerge(to, base.to, patch.to, p); }
    case TStruct(fields) =>
      var i := FieldIndex(fields, p[0]).value;
      LookupOfMerge(fields[i].ty, base.fields[i], patch.fields[i], p[1..]);
  }

  /** On the tables of leaves it is the merge of the specification. */
  lemma LeavesOfMerge(ty: Ty, base: Tree, patch: Tree)
    requires WellFormed(ty) && Typed(ty, base) && Typed(ty, patch)
    ensures Leaves(ty, MergeTree(ty, base, patch)) == Merge(Leaves(ty, base), Leaves(ty, patch))
  {
    var m, b, q := Leaves(ty, MergeTree(ty, base, patch)), Leaves(ty, base), Leaves(ty, patch);
    forall p ensures At(m, p) == Merged(At(b, p), At(q, p)) {
      LeavesAt(ty, MergeTree(ty, base, patch), p);
      LeavesAt(ty, base, p);
      LeavesAt(ty, patch, p);
      if IsLeaf(ty, p) { LookupOfMerge(ty, base, patch, p); }
    }
    MergeByPaths(m, b, q);
  }

  lemma MergeByPaths(m: Table, base: Table, patch: Table)
    requires forall p :: At(m, p) == Merged(At(base, p), At(patch, p))
    ensures m == Merge(base, patch)
  {
    var n := Merge(base, patch);
    forall p ensures p in m <==> p in n {
      assert At(m, p) == Merged(At(base, p), At(patch, p));
    }
    forall p | p in m ensures m[p] == n[p] {
      assert At(m, p) == Merged(At(base, p), At(patch, p));
    }
  }

  // -------------------------------------------------------------------------
  // The zero value of a type
  // -------------------------------------------------------------------------

  function ZeroScalar(kind: Kind): (x: Scalar)
    ensures x.HasKind(kind) && x.IsZero()
  {
    match kind
    case KString => SString("")
    case KBool => SBool(false)
    case KInt => SInt(0)
    case KList => SNilList
    case KRaw => SNilRaw
    case KMap => SNilMap
  }

  /** Go's zero value: nil pointers, nil lists and maps, empty scalars. */
  function ZeroTree(ty: Ty): Tree {
    match ty
    case TLeaf(kind) => Leaf(ZeroScalar(kind))
    case TPtr(_) => Nil
    case TStruct(fields) => Struct(seq(|fields|, i requires 0 <= i < |fields| => ZeroTree(fields[i].ty)))
  }

  lemma {:induction false} ZeroTyped(ty: Ty)
    ensures Typed(ty, ZeroTree(ty))
  {
    match ty
    case TLeaf(_) =>
    case TPtr(_) =>
    case TStruct(fields) =>
      forall i | 0 <= i < |fields| ensures Typed(fields[i].ty, ZeroTree(fields[i].ty)) {
        ZeroTyped(fields[i].ty);
      }
  }

  // -------------------------------------------------------------------------
  // Giving a nil pointer a value
  // -------------------------------------------------------------------------

  /** A pointer to a scalar, reached through struct values. */
  predicate PointerField(ty: Ty, p: Path) {
    match ty
    case TLeaf(_) => false
    case TPtr(to) => to.TLeaf? && p == []
    case TStruct(fields) =>
      p != [] &&
      match FieldIndex(fields, p[0])
      case None => false
      case Some(i) => PointerField(fields[i].ty, p[1..])
  }

  lemma {:induction false} ZeroBehindPointer(ty: Ty, p: Path)
    requires PointerField(ty, p)
    ensures Lookup(ty, ZeroTree(ty), p) == None
    decreases ty
  {
    if ty.TStruct? {
      ZeroBehindPointer(ty.fields[FieldIndex(ty.fields, p[0]).value].ty, p[1..]);
    }
  }

  /** `if x == nil { x = NewPointer(...) }` on such a field. */
  function PutIfNil(ty: Ty, v: Tree, p: Path, x: Scalar): Tree {
    match ty
    case TLeaf(_) => v
    case TPtr(_) => if v.Nil? then Ptr(Leaf(x)) else v
    case TStruct(fields) =>
      if p == [] || !v.Struct? || |v.fields| != |fields| then v
      else
        match FieldIndex(fields, p[0])
        case None => v
        case Some(i) => Struct(v.fields[i := PutIfNil(fields[i].ty, v.fields[i], p[1..], x)])
  }

  function Ensured(p: Path, x: Scalar, q: Path, there: Option<Scalar>): Option<Scalar> {
    if p == q && there.None? then Some(x) else there
  }

  lemma {:induction false} LookupOfPutIfNil(ty: Ty, v: Tree, p: Path, x: Scalar, q: Path)
    requires Typed(ty, v) && PointerField(ty, p) && IsLeaf(ty, p) && IsLeaf(ty, q)
    ensures Lookup(ty, PutIfNil(ty, v, p, x), q) == Ensured(p, x, q, Lookup(ty, v, q))
    decreases ty
  {
    if ty.TStruct? {
      var fields := ty.fields;
      var i := FieldIndex(fields, p[0]).value;
      if p[0] == q[0] {
        LookupOfPutIfNil(fields[i].ty, v.fields[i], p[1..], x, q[1..]);
        assert p == [p[0]] + p[1..] && q == [q[0]] + q[1..];
      }
    }
  }

  lemma {:induction false} PutIfNilTyped(ty: Ty, v: Tree, p: Path, x: Scalar)
    requires Typed(ty, v) && PointerField(ty, p) && IsLeaf(ty, p) && x.HasKind(KindAt(ty, p))
    ensures Typed(ty, PutIfNil(ty, v, p, x))
    decreases ty
  {
    match ty
    case TLeaf(_) =>
    case TPtr(to) =>
      assert KindAt(ty, p) == KindAt(to, p) == to.kind;
      assert Typed(to, Leaf(x));
    case TStruct(fields) =>
      var i := FieldIndex(fields, p[0]).value;
      PutIfNilTyped(fields[i].ty, v.fields[i], p[1..], x);
  }

  lemma LeavesOfPutIfNil(ty: Ty, v: Tree, p: Path, x: Scalar)
    requires WellFormed(ty) && Typed(ty, v) && PointerField(ty, p) && IsLeaf(ty, p) && x.HasKind(KindAt(ty, p))
    ensures Typed(ty, PutIfNil(ty, v, p, x))
    ensures Leaves(ty, PutIfNil(ty, v, p, x)) == var m := Leaves(ty, v); if p in m then m else m[p := x]
  {
    PutIfNilTyped(ty, v, p, x);
    var m, now := Leaves(ty, v), Leaves(ty, PutIfNil(ty, v, p, x));
    forall q ensures At(now, q) == Ensured(p, x, q, At(m, q)) {
      LeavesAt(ty, v, q);
      LeavesAt(ty, PutIfNil(ty, v, p, x), q);
      if IsLeaf(ty, q) { LookupOfPutIfNil(ty, v, p, x, q); }
    }
    EnsuredByPaths(now, m, p, x);
  }

  lemma EnsuredByPaths(now: Table, m: Table, p: Path, x: Scalar)
    requires forall q :: At(now, q) == Ensured(p, x, q, At(m, q))
    ensures now == if p in m then m else m[p := x]
  {
    forall q ensures q in now <==> q in m || q == p {
      assert At(now, q) == Ensured(p, x, q, At(m, q));
    }
    forall q | q in now ensures now[q] == if q in m then m[q] else x {
      assert At(now, q) == Ensured(p, x, q, At(m, q));
    }
  }
}

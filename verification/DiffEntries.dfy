/** Which differences are listed: how fine the entries are, and what they hold. */
module DiffEntries {
  import opened Text
  import opened ConfigTree
  import opened Diff
  import Defaults

  /** The zero value of a type: empty texts and structs of zero values, nil everywhere else. */
  lemma {:induction false} IsZeroIff(ty: Ty, v: Tree)
    requires Typed(ty, v)
    ensures IsZero(v) <==> v == Defaults.ZeroTree(ty)
    decreases ty
  {
    Defaults.ZeroTyped(ty);
    match ty
    case TLeaf(_) =>
    case TPtr(_) =>
    case TStruct(fields) =>
      forall i | 0 <= i < |fields| ensures IsZero(v.fields[i]) <==> v.fields[i] == Defaults.ZeroTree(fields[i].ty) {
        IsZeroIff(fields[i].ty, v.fields[i]);
      }
  }

  /** What is found at a path, through the pointers on the way. */
  function ValueAt(ty: Ty, v: Tree, p: Path): Option<Tree> {
    if p == [] then Some(v)
    else
      match ty
      case TLeaf(_) => None
      case TPtr(to) => if v.Ptr? then ValueAt(to, v.to, p) else None
      case TStruct(fields) =>
        if !v.Struct? || |v.fields| != |fields| then None
        else
          match FieldIndex(fields, p[0])
          case None => None
          case Some(i) => ValueAt(fields[i].ty, v.fields[i], p[1..])
  }

  predicate OneIsZero(base: Option<Tree>, actual: Option<Tree>) {
    base.Some? && actual.Some? && IsZero(base.value) != IsZero(actual.value)
  }

  /** At this path there is zero on just one side. */
  predicate OneSided(ty: Ty, base: Tree, actual: Tree, p: Path) {
    OneIsZero(ValueAt(ty, base, p), ValueAt(ty, actual, p))
  }

  /** There is no such path above this one; paths shorter than `from` are not looked at. */
  ghost predicate NoneAbove(ty: Ty, base: Tree, actual: Tree, p: Path, from: nat) {
    forall k :: from <= k < |p| ==> !OneSided(ty, base, actual, p[..k])
  }

  /** The two sides differ at this path, which leads to a leaf, or to something that is zero on
      just one side, and no part of the path leads to such a thing. */
  ghost predicate Differs(ty: Ty, base: Tree, actual: Tree, p: Path) {
    && ValueAt(ty, base, p).Some? && ValueAt(ty, actual, p).Some? && ValueAt(ty, base, p) != ValueAt(ty, actual, p)
    && (IsLeaf(ty, p) || OneSided(ty, base, actual, p))
    && NoneAbove(ty, base, actual, p, 0)
  }

  function Indirect(v: Tree): Tree {
    if v.Ptr? then v.to else v
  }

  /** The entry for a path holds what is found there; a pointer with a value on both sides is
      shown as the value. */
  function EntryAt(ty: Ty, base: Tree, actual: Tree, at: Path, p: Path): Entry
    requires ValueAt(ty, base, p).Some? && ValueAt(ty, actual, p).Some?
  {
    var b, a := ValueAt(ty, base, p).value, ValueAt(ty, actual, p).value;
    if OneSided(ty, base, actual, p) then Entry(at + p, b, a) else Entry(at + p, Indirect(b), Indirect(a))
  }

  /** The same when zeros are not looked for at the very top. */
  ghost predicate DiffersBelow(ty: Ty, base: Tree, actual: Tree, p: Path) {
    && ValueAt(ty, base, p).Some? && ValueAt(ty, actual, p).Some? && ValueAt(ty, base, p) != ValueAt(ty, actual, p)
    && (IsLeaf(ty, p) || (p != [] && OneSided(ty, base, actual, p)))
    && NoneAbove(ty, base, actual, p, 1)
  }

  function EntryBelow(ty: Ty, base: Tree, actual: Tree, at: Path, p: Path): Entry
    requires ValueAt(ty, base, p).Some? && ValueAt(ty, actual, p).Some?
  {
    if p == [] then Entry(at, base, actual) else EntryAt(ty, base, actual, at, p)
  }

  ghost predicate IsEntryAt(ty: Ty, base: Tree, actual: Tree, at: Path, p: Path, e: Entry) {
    Differs(ty, base, actual, p) && e == EntryAt(ty, base, actual, at, p)
  }

  ghost predicate IsEntryBelow(ty: Ty, base: Tree, actual: Tree, at: Path, p: Path, e: Entry) {
    DiffersBelow(ty, base, actual, p) && e == EntryBelow(ty, base, actual, at, p)
  }

  /** Which entries there are: one for each path at which the two sides differ, which leads to a
      leaf, or to something that is zero on just one side with no such thing above it. */
  lemma {:induction false} EntriesIff(ty: Ty, base: Tree, actual: Tree, at: Path, e: Entry)
    requires Pair(ty, base, actual)
    ensures e in Diffs(ty, base, actual, at) <==>
      at <= e.path && IsEntryAt(ty, base, actual, at, e.path[|at|..], e)
    decreases ty, 1
  {
    if IsZero(base) && IsZero(actual) {
      OneZero(ty, base, actual);
    } else if IsZero(base) || IsZero(actual) {
      OnlyTheTop(ty, base, actual, at, e);
    } else {
      var inner, b, a := if ty.TPtr? then ty.to else ty, Indirect(base), Indirect(actual);
      EntriesBelowIff(inner, b, a, at, e);
      if at <= e.path {
        ThroughPointer(ty, base, actual, at, e.path[|at|..], e);
      }
    }
  }

  lemma OnlyTheTop(ty: Ty, base: Tree, actual: Tree, at: Path, e: Entry)
    requires Pair(ty, base, actual) && IsZero(base) != IsZero(actual)
    ensures e == Entry(at, base, actual) <==>
      at <= e.path && IsEntryAt(ty, base, actual, at, e.path[|at|..], e)
  {
    assert OneSided(ty, base, actual, []);
    assert at + [] == at && at[|at|..] == [];
    if at <= e.path && e.path[|at|..] != [] {
      assert e.path[|at|..][..0] == [];
    }
  }

  lemma ThroughPointer(ty: Ty, base: Tree, actual: Tree, at: Path, p: Path, e: Entry)
    requires Pair(ty, base, actual) && !IsZero(base) && !IsZero(actual)
    ensures var inner := if ty.TPtr? then ty.to else ty;
      IsEntryAt(ty, base, actual, at, p, e) <==> IsEntryBelow(inner, Indirect(base), Indirect(actual), at, p, e)
  {
    var inner, b, a := if ty.TPtr? then ty.to else ty, Indirect(base), Indirect(actual);
    assert forall q :: q != [] ==> ValueAt(ty, base, q) == ValueAt(inner, b, q);
    assert forall q :: q != [] ==> ValueAt(ty, actual, q) == ValueAt(inner, a, q);
    assert !OneSided(ty, base, actual, []) && p[..0] == [];
    assert forall q :: q != [] ==> OneSided(ty, base, actual, q) == OneSided(inner, b, a, q);
    assert NoneAbove(ty, base, actual, p, 0) <==> NoneAbove(inner, b, a, p, 1);
    assert IsLeaf(ty, p) <==> IsLeaf(inner, p);
    assert at + [] == at;
  }

  lemma {:induction false} EntriesBelowIff(ty: Ty, base: Tree, actual: Tree, at: Path, e: Entry)
    requires Pair(ty, base, actual) && !ty.TPtr?
    ensures e in Below(ty, base, actual, at) <==>
      at <= e.path && IsEntryBelow(ty, base, actual, at, e.path[|at|..], e)
    decreases ty, 0
  {
    if ty.TStruct? {
      EntryOfField(ty, base, actual, at, |ty.fields|, e);
      forall i | 0 <= i < |ty.fields|
        ensures InField(ty, base, actual, at, i, e) <==>
          at + [ty.fields[i].name] <= e.path && IsEntryBelow(ty, base, actual, at, e.path[|at|..], e)
      {
        EntriesIff(ty.fields[i].ty, base.fields[i], actual.fields[i], at + [ty.fields[i].name], e);
        if at + [ty.fields[i].name] <= e.path {
          InOneField(ty, base, actual, at, i, e);
        }
      }
      if at <= e.path && IsEntryBelow(ty, base, actual, at, e.path[|at|..], e) {
        var p := e.path[|at|..];
        assert p != [];
        var i := FieldIndex(ty.fields, p[0]).value;
        assert at + [ty.fields[i].name] <= e.path;
        assert InField(ty, base, actual, at, i, e);
      }
    } else {
      assert at + [] == at && at[|at|..] == [];
    }
  }

  /** An entry of a struct, seen from the field it belongs to. */
  lemma InOneField(ty: Ty, base: Tree, actual: Tree, at: Path, i: nat, e: Entry)
    requires Pair(ty, base, actual) && ty.TStruct? && i < |ty.fields| && at + [ty.fields[i].name] <= e.path
    ensures var name := ty.fields[i].name;
      IsEntryBelow(ty, base, actual, at, e.path[|at|..], e) <==>
      IsEntryAt(ty.fields[i].ty, base.fields[i], actual.fields[i], at + [name], e.path[|at| + 1..], e)
  {
    var name, p := ty.fields[i].name, e.path[|at|..];
    var fieldTy, b, a := ty.fields[i].ty, base.fields[i], actual.fields[i];
    var q := e.path[|at| + 1..];
    assert p == [name] + q && p[1..] == q && p[0] == name;
    FieldIndexOf(ty.fields, i);
    assert at + [name] + q == at + p;
    forall k | 1 <= k <= |p|
      ensures ValueAt(ty, base, p[..k]) == ValueAt(fieldTy, b, q[..k - 1])
      ensures ValueAt(ty, actual, p[..k]) == ValueAt(fieldTy, a, q[..k - 1])
    {
      assert p[..k][0] == name && p[..k][1..] == q[..k - 1];
    }
    assert p[..|p|] == p && q[..|q|] == q;
    assert NoneAbove(ty, base, actual, p, 1) <==> NoneAbove(fieldTy, b, a, q, 0) by {
      if NoneAbove(ty, base, actual, p, 1) {
        forall k | 0 <= k < |q| ensures !OneSided(fieldTy, b, a, q[..k]) {
          assert !OneSided(ty, base, actual, p[..k + 1]);
        }
      }
    }
  }
}

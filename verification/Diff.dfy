/** The structural diff of two configurations, and why it is a patch. */
module Diff {
  import opened Text
  import opened ConfigTree

  // -------------------------------------------------------------------------
  // Zero values
  // -------------------------------------------------------------------------

  /** `reflect.Value.IsZero`. */
  predicate IsZero(v: Tree) {
    match v
    case Nil => true
    case Ptr(_) => false
    case Leaf(x) => x.IsZero()
    case Struct(fields) => forall i :: 0 <= i < |fields| ==> IsZero(fields[i])
  }

  /** A type has one zero value. */
  lemma {:induction false} OneZero(ty: Ty, a: Tree, b: Tree)
    requires Typed(ty, a) && Typed(ty, b) && IsZero(a) && IsZero(b)
    ensures a == b
    decreases ty
  {
    match ty
    case TLeaf(_) =>
    case TPtr(_) =>
    case TStruct(fields) =>
      forall i | 0 <= i < |fields| ensures a.fields[i] == b.fields[i] {
        OneZero(fields[i].ty, a.fields[i], b.fields[i]);
      }
  }

  // -------------------------------------------------------------------------
  // The entries
  // -------------------------------------------------------------------------

  datatype Entry = Entry(path: Path, baseVal: Tree, actualVal: Tree)
  {
    function Swapped(): Entry {
      Entry(path, actualVal, baseVal)
    }
  }

  /** The differences of two values of one type found at `at`, in field order. */
  function Diffs(ty: Ty, base: Tree, actual: Tree, at: Path): seq<Entry>
    decreases ty, 2, 0
  {
    if IsZero(base) && IsZero(actual) then []
    else if IsZero(base) || IsZero(actual) then [Entry(at, base, actual)]
    else if ty.TPtr? then
      if base.Ptr? && actual.Ptr? then Below(ty.to, base.to, actual.to, at) else []
    else Below(ty, base, actual, at)
  }

  /** The same behind a pointer: what it points to is compared without looking for zeros. */
  function Below(ty: Ty, base: Tree, actual: Tree, at: Path): seq<Entry>
    decreases ty, 1, 0
  {
    if ty.TStruct? && base.Struct? && actual.Struct? && |base.fields| == |actual.fields| == |ty.fields| then
      FieldDiffs(ty, base, actual, at, |ty.fields|)
    else if base != actual then [Entry(at, base, actual)]
    else []
  }

  function FieldDiffs(ty: Ty, base: Tree, actual: Tree, at: Path, n: nat): seq<Entry>
    requires ty.TStruct? && base.Struct? && actual.Struct? && |base.fields| == |actual.fields| == |ty.fields|
    requires n <= |ty.fields|
    decreases ty, 0, n
  {
    if n == 0 then []
    else
      FieldDiffs(ty, base, actual, at, n - 1)
      + Diffs(ty.fields[n - 1].ty, base.fields[n - 1], actual.fields[n - 1], at + [ty.fields[n - 1].name])
  }

  ghost predicate Pair(ty: Ty, base: Tree, actual: Tree) {
    WellFormed(ty) && Typed(ty, base) && Typed(ty, actual)
  }

  /** Every entry of a struct belongs to one field. */
  lemma {:induction false} EntryOfField(ty: Ty, base: Tree, actual: Tree, at: Path, n: nat, e: Entry)
    requires Pair(ty, base, actual) && ty.TStruct? && n <= |ty.fields|
    ensures e in FieldDiffs(ty, base, actual, at, n) <==>
      exists i :: 0 <= i < n && InField(ty, base, actual, at, i, e)
  {
    if n > 0 {
      EntryOfField(ty, base, actual, at, n - 1, e);
      if e in FieldDiffs(ty, base, actual, at, n) && e !in FieldDiffs(ty, base, actual, at, n - 1) {
        assert InField(ty, base, actual, at, n - 1, e);
      }
    }
  }

  ghost predicate InField(ty: Ty, base: Tree, actual: Tree, at: Path, i: nat, e: Entry)
    requires Pair(ty, base, actual) && ty.TStruct? && i < |ty.fields|
  {
    e in Diffs(ty.fields[i].ty, base.fields[i], actual.fields[i], at + [ty.fields[i].name])
  }

  // -------------------------------------------------------------------------
  // No entries, equal values
  // -------------------------------------------------------------------------

  /** There is nothing to report exactly when the values are deeply equal. */
  lemma {:induction false} NoEntriesIffEqual(ty: Ty, base: Tree, actual: Tree, at: Path)
    requires Pair(ty, base, actual)
    ensures Diffs(ty, base, actual, at) == [] <==> base == actual
    decreases ty, 1
  {
    if IsZero(base) && IsZero(actual) {
      OneZero(ty, base, actual);
    } else if !IsZero(base) && !IsZero(actual) {
      if ty.TPtr? {
        NothingBelowIffEqual(ty.to, base.to, actual.to, at);
      } else {
        NothingBelowIffEqual(ty, base, actual, at);
      }
    }
  }

  lemma {:induction false} NothingBelowIffEqual(ty: Ty, base: Tree, actual: Tree, at: Path)
    requires Pair(ty, base, actual)
    ensures Below(ty, base, actual, at) == [] <==> base == actual
    decreases ty, 0
  {
    if ty.TStruct? {
      NothingInFieldsIffEqual(ty, base, actual, at, |ty.fields|);
      assert base.fields == base.fields[..|ty.fields|] && actual.fields == actual.fields[..|ty.fields|];
    }
  }

  lemma {:induction false} NothingInFieldsIffEqual(ty: Ty, base: Tree, actual: Tree, at: Path, n: nat)
    requires Pair(ty, base, actual) && ty.TStruct? && n <= |ty.fields|
    ensures FieldDiffs(ty, base, actual, at, n) == [] <==> base.fields[..n] == actual.fields[..n]
    decreases ty, 0, n
  {
    if n > 0 {
      NothingInFieldsIffEqual(ty, base, actual, at, n - 1);
      NoEntriesIffEqual(ty.fields[n - 1].ty, base.fields[n - 1], actual.fields[n - 1], at + [ty.fields[n - 1].name]);
      assert base.fields[..n] == base.fields[..n - 1] + [base.fields[n - 1]];
      assert actual.fields[..n] == actual.fields[..n - 1] + [actual.fields[n - 1]];
    }
  }

  // -------------------------------------------------------------------------
  // Swapping the arguments
  // -------------------------------------------------------------------------

  function SwapAll(entries: seq<Entry>): (r: seq<Entry>)
    ensures |r| == |entries|
  {
    seq(|entries|, i requires 0 <= i < |entries| => entries[i].Swapped())
  }

  /** Swapping the arguments swaps the values on the same paths in the same order. */
  lemma {:induction false} SwapSwaps(ty: Ty, base: Tree, actual: Tree, at: Path)
    requires Pair(ty, base, actual)
    ensures Diffs(ty, actual, base, at) == SwapAll(Diffs(ty, base, actual, at))
    decreases ty, 1
  {
    if !IsZero(base) && !IsZero(actual) {
      if ty.TPtr? {
        SwapSwapsBelow(ty.to, base.to, actual.to, at);
      } else {
        SwapSwapsBelow(ty, base, actual, at);
      }
    }
  }

  lemma {:induction false} SwapSwapsBelow(ty: Ty, base: Tree, actual: Tree, at: Path)
    requires Pair(ty, base, actual)
    ensures Below(ty, actual, base, at) == SwapAll(Below(ty, base, actual, at))
    decreases ty, 0
  {
    if ty.TStruct? {
      SwapSwapsFields(ty, base, actual, at, |ty.fields|);
    }
  }

  lemma {:induction false} SwapSwapsFields(ty: Ty, base: Tree, actual: Tree, at: Path, n: nat)
    requires Pair(ty, base, actual) && ty.TStruct? && n <= |ty.fields|
    ensures FieldDiffs(ty, actual, base, at, n) == SwapAll(FieldDiffs(ty, base, actual, at, n))
    decreases ty, 0, n
  {
    if n > 0 {
      SwapSwapsFields(ty, base, actual, at, n - 1);
      SwapSwaps(ty.fields[n - 1].ty, base.fields[n - 1], actual.fields[n - 1], at + [ty.fields[n - 1].name]);
    }
  }

  // -------------------------------------------------------------------------
  // The paths
  // -------------------------------------------------------------------------

  /** No path is a prefix of another one, nor repeated. */
  ghost predicate Antichain(entries: seq<Entry>) {
    forall i, j :: 0 <= i < |entries| && 0 <= j < |entries| && i != j ==> !(entries[i].path <= entries[j].path)
  }

  ghost predicate AllUnder(entries: seq<Entry>, at: Path) {
    forall i :: 0 <= i < |entries| ==> at <= entries[i].path
  }

  lemma {:induction false} PathsAreAntichain(ty: Ty, base: Tree, actual: Tree, at: Path)
    requires Pair(ty, base, actual)
    ensures Antichain(Diffs(ty, base, actual, at)) && AllUnder(Diffs(ty, base, actual, at), at)
    decreases ty, 1
  {
    if !IsZero(base) && !IsZero(actual) {
      if ty.TPtr? {
        PathsBelow(ty.to, base.to, actual.to, at);
      } else {
        PathsBelow(ty, base, actual, at);
      }
    }
  }

  lemma {:induction false} PathsBelow(ty: Ty, base: Tree, actual: Tree, at: Path)
    requires Pair(ty, base, actual)
    ensures Antichain(Below(ty, base, actual, at)) && AllUnder(Below(ty, base, actual, at), at)
    decreases ty, 0
  {
    if ty.TStruct? {
      PathsOfFields(ty, base, actual, at, |ty.fields|);
      forall i | 0 <= i < |Below(ty, base, actual, at)| ensures at <= Below(ty, base, actual, at)[i].path {
        assert UnderField(ty, Below(ty, base, actual, at)[i].path, at, |ty.fields|);
      }
    }
  }

  /** The path goes through one of the first `n` fields. */
  ghost predicate UnderField(ty: Ty, p: Path, at: Path, n: nat)
    requires ty.TStruct? && n <= |ty.fields|
  {
    exists k :: 0 <= k < n && at + [ty.fields[k].name] <= p
  }

  lemma {:induction false} PathsOfFields(ty: Ty, base: Tree, actual: Tree, at: Path, n: nat)
    requires Pair(ty, base, actual) && ty.TStruct? && n <= |ty.fields|
    ensures Antichain(FieldDiffs(ty, base, actual, at, n))
    ensures forall i :: 0 <= i < |FieldDiffs(ty, base, actual, at, n)| ==>
      UnderField(ty, FieldDiffs(ty, base, actual, at, n)[i].path, at, n)
    decreases ty, 0, n
  {
    if n > 0 {
      PathsOfFields(ty, base, actual, at, n - 1);
      var front := FieldDiffs(ty, base, actual, at, n - 1);
      var name := ty.fields[n - 1].name;
      var last := Diffs(ty.fields[n - 1].ty, base.fields[n - 1], actual.fields[n - 1], at + [name]);
      PathsAreAntichain(ty.fields[n - 1].ty, base.fields[n - 1], actual.fields[n - 1], at + [name]);
      AppendField(ty, front, last, at, n - 1);
    }
  }

  lemma AppendField(ty: Ty, front: seq<Entry>, last: seq<Entry>, at: Path, n: nat)
    requires ty.TStruct? && WellFormed(ty) && n < |ty.fields|
    requires Antichain(front) && Antichain(last) && AllUnder(last, at + [ty.fields[n].name])
    requires forall i :: 0 <= i < |front| ==> UnderField(ty, front[i].path, at, n)
    ensures Antichain(front + last)
    ensures forall i :: 0 <= i < |front + last| ==> UnderField(ty, (front + last)[i].path, at, n + 1)
  {
    forall i, j | 0 <= i < |front| && 0 <= j < |last|
      ensures !(front[i].path <= last[j].path) && !(last[j].path <= front[i].path)
    {
      assert UnderField(ty, front[i].path, at, n);
      var k :| 0 <= k < n && at + [ty.fields[k].name] <= front[i].path;
      assert (at + [ty.fields[k].name])[|at|] == front[i].path[|at|];
      assert (at + [ty.fields[n].name])[|at|] == last[j].path[|at|];
    }
    forall i | 0 <= i < |front + last| ensures UnderField(ty, (front + last)[i].path, at, n + 1) {
      if i < |front| {
        assert UnderField(ty, front[i].path, at, n);
        var k :| 0 <= k < n && at + [ty.fields[k].name] <= front[i].path;
        assert at + [ty.fields[k].name] <= (front + last)[i].path;
      } else {
        assert at + [ty.fields[n].name] <= (front + last)[i].path;
      }
    }
  }

  // -------------------------------------------------------------------------
  // Patching
  // -------------------------------------------------------------------------

  /** Assigning to what is found at a path: a pointer is replaced by a pointer, and written
      through by anything else. */
  function SetAt(ty: Ty, v: Tree, p: Path, x: Tree): Tree
    decreases ty
  {
    match ty
    case TLeaf(_) => if p == [] then x else v
    case TPtr(to) =>
      if p == [] then (if x.Nil? || x.Ptr? then x else Ptr(x))
      else if v.Ptr? then Ptr(SetAt(to, v.to, p, x))
      else v
    case TStruct(fields) =>
      if p == [] then x
      else if !v.Struct? || |v.fields| != |fields| then v
      else
        match FieldIndex(fields, p[0])
        case None => v
        case Some(i) => Struct(v.fields[i := SetAt(fields[i].ty, v.fields[i], p[1..], x)])
  }

  /** Writing the actual values of the entries, in the order given. */
  function ApplyActual(ty: Ty, v: Tree, entries: seq<Entry>): Tree {
    if entries == [] then v
    else
      var last := entries[|entries| - 1];
      SetAt(ty, ApplyActual(ty, v, entries[..|entries| - 1]), last.path, last.actualVal)
  }

  function ApplyBase(ty: Ty, v: Tree, entries: seq<Entry>): Tree {
    if entries == [] then v
    else
      var last := entries[|entries| - 1];
      SetAt(ty, ApplyBase(ty, v, entries[..|entries| - 1]), last.path, last.baseVal)
  }

  /** Part of the way from `base` to `actual`: the differences at the paths in `done` have
      been overwritten. */
  ghost function Mix(ty: Ty, base: Tree, actual: Tree, at: Path, done: iset<Path>): Tree
    decreases ty, 1
  {
    if IsZero(base) && IsZero(actual) then base
    else if IsZero(base) || IsZero(actual) then if at in done then actual else base
    else if ty.TPtr? then
      if base.Ptr? && actual.Ptr? then Ptr(MixBelow(ty.to, base.to, actual.to, at, done)) else base
    else MixBelow(ty, base, actual, at, done)
  }

  ghost function MixBelow(ty: Ty, base: Tree, actual: Tree, at: Path, done: iset<Path>): Tree
    decreases ty, 0
  {
    if ty.TStruct? && base.Struct? && actual.Struct? && |base.fields| == |actual.fields| == |ty.fields| then
      Struct(seq(|ty.fields|, i requires 0 <= i < |ty.fields| =>
                   Mix(ty.fields[i].ty, base.fields[i], actual.fields[i], at + [ty.fields[i].name], done)))
    else if at in done then actual
    else base
  }

  /** Before any write it is the base. */
  lemma {:induction false} MixOfNone(ty: Ty, base: Tree, actual: Tree, at: Path)
    requires Pair(ty, base, actual)
    ensures Mix(ty, base, actual, at, iset{}) == base
    decreases ty, 1
  {
    if !IsZero(base) && !IsZero(actual) {
      if ty.TPtr? { MixOfNoneBelow(ty.to, base.to, actual.to, at); } else { MixOfNoneBelow(ty, base, actual, at); }
    }
  }

  lemma {:induction false} MixOfNoneBelow(ty: Ty, base: Tree, actual: Tree, at: Path)
    requires Pair(ty, base, actual)
    ensures MixBelow(ty, base, actual, at, iset{}) == base
    decreases ty, 0
  {
    if ty.TStruct? {
      forall i | 0 <= i < |ty.fields|
        ensures Mix(ty.fields[i].ty, base.fields[i], actual.fields[i], at + [ty.fields[i].name], iset{})
             == base.fields[i]
      {
        MixOfNone(ty.fields[i].ty, base.fields[i], actual.fields[i], at + [ty.fields[i].name]);
      }
    }
  }

  ghost predicate Covers(entries: seq<Entry>, done: iset<Path>) {
    forall e :: e in entries ==> e.path in done
  }

  /** Once every entry is written it is the actual value. */
  lemma {:induction false} MixOfAll(ty: Ty, base: Tree, actual: Tree, at: Path, done: iset<Path>)
    requires Pair(ty, base, actual) && Covers(Diffs(ty, base, actual, at), done)
    ensures Mix(ty, base, actual, at, done) == actual
    decreases ty, 1
  {
    if IsZero(base) && IsZero(actual) {
      OneZero(ty, base, actual);
    } else if IsZero(base) || IsZero(actual) {
      assert Entry(at, base, actual) in Diffs(ty, base, actual, at);
    } else if ty.TPtr? {
      MixOfAllBelow(ty.to, base.to, actual.to, at, done);
    } else {
      MixOfAllBelow(ty, base, actual, at, done);
    }
  }

  lemma {:induction false} MixOfAllBelow(ty: Ty, base: Tree, actual: Tree, at: Path, done: iset<Path>)
    requires Pair(ty, base, actual) && Covers(Below(ty, base, actual, at), done)
    ensures MixBelow(ty, base, actual, at, done) == actual
    decreases ty, 0
  {
    if ty.TStruct? {
      forall i | 0 <= i < |ty.fields|
        ensures Mix(ty.fields[i].ty, base.fields[i], actual.fields[i], at + [ty.fields[i].name], done)
             == actual.fields[i]
      {
        forall e | e in Diffs(ty.fields[i].ty, base.fields[i], actual.fields[i], at + [ty.fields[i].name])
          ensures e.path in done
        {
          assert InField(ty, base, actual, at, i, e);
          EntryOfField(ty, base, actual, at, |ty.fields|, e);
        }
        MixOfAll(ty.fields[i].ty, base.fields[i], actual.fields[i], at + [ty.fields[i].name], done);
      }
    } else if base != actual {
      assert Entry(at, base, actual) in Below(ty, base, actual, at);
    }
  }

  /** Writes elsewhere make no difference here. */
  lemma {:induction false} MixElsewhere(ty: Ty, base: Tree, actual: Tree, at: Path, done: iset<Path>, p: Path)
    requires Pair(ty, base, actual) && !(at <= p)
    ensures Mix(ty, base, actual, at, done + iset{p}) == Mix(ty, base, actual, at, done)
    decreases ty, 1
  {
    if !IsZero(base) && !IsZero(actual) {
      if ty.TPtr? {
        MixElsewhereBelow(ty.to, base.to, actual.to, at, done, p);
      } else {
        MixElsewhereBelow(ty, base, actual, at, done, p);
      }
    }
  }

  lemma {:induction false} MixElsewhereBelow(ty: Ty, base: Tree, actual: Tree, at: Path, done: iset<Path>, p: Path)
    requires Pair(ty, base, actual) && !(at <= p)
    ensures MixBelow(ty, base, actual, at, done + iset{p}) == MixBelow(ty, base, actual, at, done)
    decreases ty, 0
  {
    if ty.TStruct? {
      forall i | 0 <= i < |ty.fields|
        ensures Mix(ty.fields[i].ty, base.fields[i], actual.fields[i], at + [ty.fields[i].name], done + iset{p})
             == Mix(ty.fields[i].ty, base.fields[i], actual.fields[i], at + [ty.fields[i].name], done)
      {
        assert at <= at + [ty.fields[i].name];
        MixElsewhere(ty.fields[i].ty, base.fields[i], actual.fields[i], at + [ty.fields[i].name], done, p);
      }
    }
  }

  /** Writing one entry takes the mix one step further. */
  lemma {:induction false} MixOneMore(ty: Ty, base: Tree, actual: Tree, at: Path, done: iset<Path>, e: Entry)
    requires Pair(ty, base, actual) && e in Diffs(ty, base, actual, at)
    ensures at <= e.path
    ensures SetAt(ty, Mix(ty, base, actual, at, done), e.path[|at|..], e.actualVal)
         == Mix(ty, base, actual, at, done + iset{e.path})
    decreases ty, 1
  {
    if IsZero(base) || IsZero(actual) {
      assert e == Entry(at, base, actual) && e.path[|at|..] == [];
    } else if ty.TPtr? {
      MixOneMoreBelow(ty.to, base.to, actual.to, at, done, e);
    } else {
      MixOneMoreBelow(ty, base, actual, at, done, e);
    }
  }

  lemma {:induction false} MixOneMoreBelow(ty: Ty, base: Tree, actual: Tree, at: Path, done: iset<Path>, e: Entry)
    requires Pair(ty, base, actual) && e in Below(ty, base, actual, at) && !ty.TPtr?
    ensures at <= e.path && (e.path == at ==> !e.actualVal.Nil? && !e.actualVal.Ptr?)
    ensures SetAt(ty, MixBelow(ty, base, actual, at, done), e.path[|at|..], e.actualVal)
         == MixBelow(ty, base, actual, at, done + iset{e.path})
    decreases ty, 0
  {
    if ty.TStruct? {
      EntryOfField(ty, base, actual, at, |ty.fields|, e);
      var i :| 0 <= i < |ty.fields| && InField(ty, base, actual, at, i, e);
      MixOneMore(ty.fields[i].ty, base.fields[i], actual.fields[i], at + [ty.fields[i].name], done, e);
      StepThroughField(ty, base, actual, at, done, i, e);
    } else {
      assert e == Entry(at, base, actual) && e.path[|at|..] == [];
    }
  }

  lemma StepThroughField(ty: Ty, base: Tree, actual: Tree, at: Path, done: iset<Path>, i: nat, e: Entry)
    requires Pair(ty, base, actual) && ty.TStruct? && i < |ty.fields| && at + [ty.fields[i].name] <= e.path
    requires var here := at + [ty.fields[i].name];
      SetAt(ty.fields[i].ty, Mix(ty.fields[i].ty, base.fields[i], actual.fields[i], here, done),
            e.path[|here|..], e.actualVal)
      == Mix(ty.fields[i].ty, base.fields[i], actual.fields[i], here, done + iset{e.path})
    ensures at <= e.path && e.path != at
    ensures SetAt(ty, MixBelow(ty, base, actual, at, done), e.path[|at|..], e.actualVal)
         == MixBelow(ty, base, actual, at, done + iset{e.path})
  {
    var here := at + [ty.fields[i].name];
    assert at <= here;
    var p := e.path[|at|..];
    assert p[0] == here[|at|] == ty.fields[i].name && p[1..] == e.path[|here|..];
    FieldIndexOf(ty.fields, i);
    forall j | 0 <= j < |ty.fields| && j != i
      ensures Mix(ty.fields[j].ty, base.fields[j], actual.fields[j], at + [ty.fields[j].name], done + iset{e.path})
           == Mix(ty.fields[j].ty, base.fields[j], actual.fields[j], at + [ty.fields[j].name], done)
    {
      assert (at + [ty.fields[j].name])[|at|] != e.path[|at|];
      MixElsewhere(ty.fields[j].ty, base.fields[j], actual.fields[j], at + [ty.fields[j].name], done, e.path);
    }
  }

  ghost function PathsOf(entries: seq<Entry>): iset<Path> {
    iset e | e in entries :: e.path
  }

  /** However entries of the diff are applied, one by one, the result is the mix. */
  lemma {:induction false} ApplyIsMix(ty: Ty, base: Tree, actual: Tree, entries: seq<Entry>)
    requires Pair(ty, base, actual)
    requires forall e :: e in entries ==> e in Diffs(ty, base, actual, [])
    ensures ApplyActual(ty, base, entries) == Mix(ty, base, actual, [], PathsOf(entries))
    decreases |entries|
  {
    if entries == [] {
      MixOfNone(ty, base, actual, []);
      assert PathsOf(entries) == iset{};
    } else {
      var front, last := entries[..|entries| - 1], entries[|entries| - 1];
      ApplyIsMix(ty, base, actual, front);
      MixOneMore(ty, base, actual, [], PathsOf(front), last);
      assert last.path[0..] == last.path;
      assert entries == front + [last];
      assert PathsOf(entries) == PathsOf(front) + iset{last.path};
    }
  }

  /** The same entries, in whatever order. */
  ghost predicate SameEntries(a: seq<Entry>, b: seq<Entry>) {
    forall e :: e in a <==> e in b
  }

  /** Writing every actual value into `base`, in any order, gives `actual`. */
  lemma DiffIsPatch(ty: Ty, base: Tree, actual: Tree, entries: seq<Entry>)
    requires Pair(ty, base, actual) && SameEntries(entries, Diffs(ty, base, actual, []))
    ensures ApplyActual(ty, base, entries) == actual
  {
    ApplyIsMix(ty, base, actual, entries);
    MixOfAll(ty, base, actual, [], PathsOf(entries));
  }

  lemma {:induction false} ApplyBaseIsApplySwapped(ty: Ty, v: Tree, entries: seq<Entry>)
    ensures ApplyBase(ty, v, entries) == ApplyActual(ty, v, SwapAll(entries))
    decreases |entries|
  {
    if entries != [] {
      var front := entries[..|entries| - 1];
      ApplyBaseIsApplySwapped(ty, v, front);
      assert SwapAll(entries)[..|entries| - 1] == SwapAll(front);
    }
  }

  /** Writing every base value into `actual`, in any order, gives `base` back. */
  lemma DiffIsReversible(ty: Ty, base: Tree, actual: Tree, entries: seq<Entry>)
    requires Pair(ty, base, actual) && SameEntries(entries, Diffs(ty, base, actual, []))
    ensures ApplyBase(ty, actual, entries) == base
  {
    ApplyBaseIsApplySwapped(ty, actual, entries);
    SwapSwaps(ty, base, actual, []);
    var swapped := SwapAll(entries);
    forall e | e in swapped ensures e in Diffs(ty, actual, base, []) {
      var i :| 0 <= i < |swapped| && swapped[i] == e;
      assert entries[i] in Diffs(ty, base, actual, []);
      var k :| 0 <= k < |Diffs(ty, base, actual, [])| && Diffs(ty, base, actual, [])[k] == entries[i];
      assert Diffs(ty, actual, base, [])[k] == entries[i].Swapped();
    }
    ApplyIsMix(ty, actual, base, swapped);
    forall e | e in Diffs(ty, actual, base, []) ensures e.path in PathsOf(swapped) {
      var k :| 0 <= k < |Diffs(ty, actual, base, [])| && Diffs(ty, actual, base, [])[k] == e;
      var original := Diffs(ty, base, actual, [])[k];
      assert original in entries;
      var i :| 0 <= i < |entries| && entries[i] == original;
      assert swapped[i] == e;
    }
    MixOfAll(ty, actual, base, [], PathsOf(swapped));
  }

  // -------------------------------------------------------------------------
  // Dotted labels, and the recursion that produces the entries
  // -------------------------------------------------------------------------

  datatype Result<+T> = Ok(value: T) | NotSameType

  datatype ConfigDiff = ConfigDiff(path: string, baseVal: Tree, actualVal: Tree)

  /** Names in a label are separated by dots. */
  function Label(p: Path): string {
    Join(p, '.')
  }

  function Labelled(entries: seq<Entry>): (r: seq<ConfigDiff>)
    ensures |r| == |entries|
  {
    seq(|entries|, i requires 0 <= i < |entries| =>
      ConfigDiff(Label(entries[i].path), entries[i].baseVal, entries[i].actualVal))
  }

  lemma LabelledNothing()
    ensures Labelled([]) == []
  {}

  lemma LabelledOne(e: Entry)
    ensures Labelled([e]) == [ConfigDiff(Label(e.path), e.baseVal, e.actualVal)]
  {}

  lemma LabelledConcat(a: seq<Entry>, b: seq<Entry>)
    ensures Labelled(a + b) == Labelled(a) + Labelled(b)
  {}

  /** Go field names are not empty and hold no dot. */
  ghost predicate IsName(name: string) {
    name != "" && FreeOf(name, '.')
  }

  ghost predicate AllNames(p: Path) {
    forall i :: 0 <= i < |p| ==> IsName(p[i])
  }

  ghost predicate Named(ty: Ty) {
    match ty
    case TLeaf(_) => true
    case TPtr(to) => Named(to)
    case TStruct(fields) => forall i :: 0 <= i < |fields| ==> IsName(fields[i].name) && Named(fields[i].ty)
  }

  lemma {:induction false} LabelOfField(at: Path, name: string)
    requires AllNames(at) && IsName(name)
    ensures Label(at + [name]) == if Label(at) == "" then name else Label(at) + "." + name
    ensures Label(at) == "" <==> at == []
  {
    if |at| == 1 {
      assert IsName(at[0]) && Label(at) == at[0];
      assert (at + [name])[1..] == [name] && Label([name]) == name;
    } else if |at| > 1 {
      assert (at + [name])[1..] == at[1..] + [name];
      LabelOfField(at[1..], name);
      assert IsName(at[0]);
    }
  }

  function PathOf(dotted: string): Path {
    if dotted == "" then [] else Split(dotted, '.')
  }

  /** A label can be read back. */
  lemma PathOfLabel(p: Path)
    requires AllNames(p)
    ensures PathOf(Label(p)) == p
  {
    if p != [] {
      assert AllFreeOf(p, '.') by {
        forall i | 0 <= i < |p| ensures FreeOf(p[i], '.') { assert IsName(p[i]); }
      }
      SplitOfJoin(p, '.');
      assert p == p[..|p| - 1] + [p[|p| - 1]];
      LabelOfField(p[..|p| - 1], p[|p| - 1]);
    }
  }

  lemma {:induction false} EntriesAreNamed(ty: Ty, base: Tree, actual: Tree, at: Path, e: Entry)
    requires Pair(ty, base, actual) && Named(ty) && AllNames(at) && e in Diffs(ty, base, actual, at)
    ensures AllNames(e.path)
    decreases ty, 1
  {
    if !IsZero(base) && !IsZero(actual) {
      if ty.TPtr? { NamedBelow(ty.to, base.to, actual.to, at, e); } else { NamedBelow(ty, base, actual, at, e); }
    }
  }

  lemma {:induction false} NamedBelow(ty: Ty, base: Tree, actual: Tree, at: Path, e: Entry)
    requires Pair(ty, base, actual) && Named(ty) && AllNames(at) && e in Below(ty, base, actual, at)
    ensures AllNames(e.path)
    decreases ty, 0
  {
    if ty.TStruct? {
      EntryOfField(ty, base, actual, at, |ty.fields|, e);
      var i :| 0 <= i < |ty.fields| && InField(ty, base, actual, at, i, e);
      EntriesAreNamed(ty.fields[i].ty, base.fields[i], actual.fields[i], at + [ty.fields[i].name], e);
    }
  }

  function Unlabelled(diffs: seq<ConfigDiff>): (r: seq<Entry>)
    ensures |r| == |diffs|
  {
    seq(|diffs|, i requires 0 <= i < |diffs| => Entry(PathOf(diffs[i].path), diffs[i].baseVal, diffs[i].actualVal))
  }

  /** What `Diff` returns is a patch both ways: at the settings its labels name, writing the
      actual values into `base` gives `actual` and writing the base values into `actual` gives
      `base`, whatever order the entries are taken in. */
  lemma LabelledDiffIsPatch(ty: Ty, base: Tree, actual: Tree, diffs: seq<ConfigDiff>)
    requires Pair(ty, base, actual) && Named(ty)
    requires forall d :: d in diffs <==> d in Labelled(Diffs(ty, base, actual, []))
    ensures ApplyActual(ty, base, Unlabelled(diffs)) == actual
    ensures ApplyBase(ty, actual, Unlabelled(diffs)) == base
  {
    var entries := Diffs(ty, base, actual, []);
    var labelled, read := Labelled(entries), Unlabelled(diffs);
    forall i | 0 <= i < |entries| ensures PathOf(labelled[i].path) == entries[i].path {
      assert entries[i] in entries;
      EntriesAreNamed(ty, base, actual, [], entries[i]);
      PathOfLabel(entries[i].path);
    }
    forall e | e in read ensures e in entries {
      var k :| 0 <= k < |read| && read[k] == e;
      assert diffs[k] in labelled;
      var i :| 0 <= i < |labelled| && labelled[i] == diffs[k];
      assert entries[i] == e;
    }
    forall e | e in entries ensures e in read {
      var i :| 0 <= i < |entries| && entries[i] == e;
      assert labelled[i] in diffs;
      var k :| 0 <= k < |diffs| && diffs[k] == labelled[i];
      assert read[k] == e;
    }
    DiffIsPatch(ty, base, actual, read);
    DiffIsReversible(ty, base, actual, read);
  }

  /** No two differences share a label, and none lies under another one. */
  lemma LabelsAreAntichain(ty: Ty, base: Tree, actual: Tree, i: nat, j: nat)
    requires Pair(ty, base, actual) && Named(ty)
    requires i < |Diffs(ty, base, actual, [])| && j < |Diffs(ty, base, actual, [])| && i != j
    ensures var labels := Labelled(Diffs(ty, base, actual, []));
      labels[i].path != labels[j].path && !(labels[i].path + "." <= labels[j].path)
  {
    var entries := Diffs(ty, base, actual, []);
    PathsAreAntichain(ty, base, actual, []);
    var p, q := entries[i].path, entries[j].path;
    assert entries[i] in entries && entries[j] in entries;
    EntriesAreNamed(ty, base, actual, [], entries[i]);
    EntriesAreNamed(ty, base, actual, [], entries[j]);
    assert !(p <= q) && !(q <= p);
    LabelPrefix(p, q);
  }

  lemma LabelPrefix(p: Path, q: Path)
    requires AllNames(p) && AllNames(q) && p != [] && q != []
    ensures Label(p) == Label(q) ==> p == q
    ensures Label(p) + "." <= Label(q) ==> p <= q
  {
    PathOfLabel(p);
    PathOfLabel(q);
    if Label(p) + "." <= Label(q) {
      var rest := Label(q)[|Label(p) + "."|..];
      assert Label(q) == Label(p) + ['.'] + rest;
      SplitOfConcat(Label(p), '.', rest);
      assert p <= p + Split(rest, '.') == q;
    }
  }

  /** The type met after `reflect.Indirect` on both sides. */
  function Indirected(bt: Ty, other: Ty): Ty {
    if bt.TPtr? && other.TPtr? then other.to else other
  }

  lemma SameTypeBelow(bt: Ty, at: Ty, base: Tree, actual: Tree)
    requires WellFormed(bt) && WellFormed(at) && Named(bt) && Typed(bt, base) && Typed(at, actual)
    requires !IsZero(base) && !IsZero(actual) && Indirected(bt, bt) == Indirected(bt, at)
    ensures WellFormed(Indirected(bt, bt)) && Named(Indirected(bt, bt)) && !Indirected(bt, bt).TPtr?
    ensures Indirected(bt, bt).TStruct? ==>
      forall i :: 0 <= i < |Indirected(bt, bt).fields| ==> WellFormed(Indirected(bt, bt).fields[i].ty)
    ensures Typed(Indirected(bt, bt), if bt.TPtr? then base.to else base)
    ensures Typed(Indirected(bt, bt), if bt.TPtr? && at.TPtr? then actual.to else actual)
  {}

  /** `diff`, on two values with a type each. It fails exactly when both are non-zero and
      their types differ once pointers are followed; on values of one type it never fails
      and lists the differences under their dotted labels. */
  method DiffValues(bt: Ty, base: Tree, at: Ty, actual: Tree, dotted: string, ghost path: Path)
    returns (r: Result<seq<ConfigDiff>>)
    requires WellFormed(bt) && WellFormed(at) && Named(bt) && Typed(bt, base) && Typed(at, actual)
    requires AllNames(path) && dotted == Label(path)
    ensures r.NotSameType? <==>
      !IsZero(base) && !IsZero(actual) && Indirected(bt, bt) != Indirected(bt, at)
    ensures bt == at ==> r == Ok(Labelled(Diffs(bt, base, actual, path)))
    decreases bt
  {
    hide Label, Labelled, WellFormed;
    LabelledNothing();
    LabelledOne(Entry(path, base, actual));
    var diffs: seq<ConfigDiff> := [];
    if IsZero(base) && IsZero(actual) {
      return Ok(diffs);
    }
    if IsZero(base) || IsZero(actual) {
      diffs := diffs + [ConfigDiff(dotted, base, actual)];
      assert diffs == [ConfigDiff(dotted, base, actual)];
      return Ok(diffs);
    }
    var baseType, actualType, b, a := bt, at, base, actual;
    if bt.TPtr? {
      b, baseType := base.to, bt.to;
      if at.TPtr? {
        a, actualType := actual.to, at.to;
      }
    }
    if baseType != actualType {
      return NotSameType;
    }
    SameTypeBelow(bt, at, base, actual);
    LabelledOne(Entry(path, b, a));
    if baseType.TStruct? {
      for i := 0 to |baseType.fields|
        invariant diffs == Labelled(FieldDiffs(baseType, b, a, path, i))
      {
        var fieldLabel := baseType.fields[i].name;
        if dotted != "" {
          fieldLabel := dotted + "." + fieldLabel;
        }
        LabelOfField(path, baseType.fields[i].name);
        var d := DiffValues(baseType.fields[i].ty, b.fields[i], actualType.fields[i].ty, a.fields[i],
                            fieldLabel, path + [baseType.fields[i].name]);
        if d.NotSameType? {
          return NotSameType;
        }
        LabelledConcat(FieldDiffs(baseType, b, a, path, i),
                       Diffs(baseType.fields[i].ty, b.fields[i], a.fields[i], path + [baseType.fields[i].name]));
        diffs := diffs + d.value;
      }
    } else if b != a {
      diffs := diffs + [ConfigDiff(dotted, b, a)];
    }
    assert diffs == Labelled(Below(baseType, b, a, path));
    return Ok(diffs);
  }

  /** `Diff`: nil configurations are refused; others are compared as struct values. */
  method DiffConfigs(ty: Ty, base: Option<Tree>, actual: Option<Tree>) returns (r: Option<seq<ConfigDiff>>)
    requires WellFormed(ty) && Named(ty) && ty.TStruct?
    requires (base.Some? ==> Typed(ty, base.value)) && (actual.Some? ==> Typed(ty, actual.value))
    ensures r.None? <==> base.None? || actual.None?
    ensures r.Some? ==> r.value == Labelled(Diffs(ty, base.value, actual.value, []))
  {
    if base.None? || actual.None? {
      return None;
    }
    var d := DiffValues(ty, base.value, ty, actual.value, "", []);
    return Some(d.value);
  }
}

/** Environment variables written over the configuration tree. */
module Environment {
  import opened Text
  import opened ConfigTree

  /** What `json.Unmarshal` makes of a text when the target is a map. */
  datatype DecodedMap = Malformed | NullMap | Entries(entries: Plugins)

  /** The variables of the process (keys already upper-cased) and the JSON decoder. */
  datatype Env = Env(vars: map<string, string>, decode: string -> DecodedMap)

  const MAX_INT := 0x7FFF_FFFF_FFFF_FFFF
  const MIN_INT := -0x8000_0000_0000_0000

  /** `strconv.ParseBool`. */
  function ParseBool(s: string): Option<bool> {
    if s in {"1", "t", "T", "TRUE", "true", "True"} then Some(true)
    else if s in {"0", "f", "F", "FALSE", "false", "False"} then Some(false)
    else None
  }

  function ParseDigits(s: string): Option<nat> {
    if s == "" then Some(0)
    else
      var front := ParseDigits(s[..|s| - 1]);
      var d := s[|s| - 1];
      if front.Some? && '0' <= d <= '9' then Some(10 * front.value + (d as int - '0' as int)) else None
  }

  /** `strconv.ParseInt(s, 10, 0)` where `int` has 64 bits. */
  function ParseInt(s: string): Option<int> {
    var negative := s != "" && s[0] == '-';
    var digits := if s != "" && (s[0] == '-' || s[0] == '+') then s[1..] else s;
    if digits == "" then None
    else
      match ParseDigits(digits)
      case None => None
      case Some(n) =>
        var i: int := if negative then -(n as int) else n;
        if MIN_INT <= i <= MAX_INT then Some(i) else None
  }

  /** The value a leaf of this kind takes from the text of a variable; None leaves it alone. */
  function Parse(env: Env, kind: Kind, text: string): (x: Option<Scalar>)
    ensures x.Some? ==> x.value.HasKind(kind)
    ensures kind in {KString, KList, KRaw} ==> x.Some?
  {
    match kind
    case KString => Some(SString(text))
    case KBool => (match ParseBool(text) case None => None case Some(b) => Some(SBool(b)))
    case KInt => (match ParseInt(text) case None => None case Some(i) => Some(SInt(i)))
    case KList => Some(SList(Split(text, ' ')))
    case KRaw => Some(SRaw(text))
    case KMap =>
      match env.decode(text)
      case Malformed => None
      case NullMap => Some(SNilMap)
      case Entries(m) => Some(SMap(m))
  }

  predicate OnlyMatch(fields: seq<Field>, head: string, i: nat)
    requires i < |fields|
  {
    Upper(fields[i].name) == head &&
    forall k :: 0 <= k < |fields| && k != i ==> Upper(fields[k].name) != head
  }

  /** `FieldByNameFunc`: the one field whose upper-cased name is `head`; two matches
      cancel each other. */
  function FieldByUpperName(fields: seq<Field>, head: string): (r: Option<nat>)
    ensures r.Some? ==> r.value < |fields| && OnlyMatch(fields, head, r.value)
    ensures r.None? ==> forall i :: 0 <= i < |fields| ==> !OnlyMatch(fields, head, i)
  {
    if exists i :: 0 <= i < |fields| && OnlyMatch(fields, head, i) then
      var i :| 0 <= i < |fields| && OnlyMatch(fields, head, i);
      Some(i)
    else None
  }

  /** Writes one variable into the struct `v`: the key is eaten segment by segment while
      the walk goes down, and a leaf ignores whatever is left of it. */
  function ApplyEnvKey(ty: Ty, env: Env, key: string, text: string, v: Tree): Tree
    decreases ty, 0
  {
    if !ty.TStruct? || !v.Struct? || |v.fields| != |ty.fields| then v
    else
      var (head, tail) := SplitFirst(key, '_');
      match FieldByUpperName(ty.fields, head)
      case None => v
      case Some(i) => Struct(v.fields[i := ApplyToField(ty.fields[i].ty, env, tail, text, v.fields[i])])
  }

  function ApplyToField(ty: Ty, env: Env, tail: Option<string>, text: string, v: Tree): Tree
    decreases ty, 1
  {
    match ty
    case TPtr(to) => if v.Ptr? then Ptr(ApplyToField(to, env, tail, text, v.to)) else v
    case TStruct(_) => if tail.None? then v else ApplyEnvKey(ty, env, tail.value, text, v)
    case TLeaf(kind) => (match Parse(env, kind, text) case None => v case Some(x) => Leaf(x))
  }

  /** The leaf a key resolves to. */
  function Target(ty: Ty, key: string): Option<Path>
    decreases ty, 0
  {
    if !ty.TStruct? then None
    else
      var (head, tail) := SplitFirst(key, '_');
      match FieldByUpperName(ty.fields, head)
      case None => None
      case Some(i) =>
        match FieldTarget(ty.fields[i].ty, tail)
        case None => None
        case Some(p) => Some([ty.fields[i].name] + p)
  }

  function FieldTarget(ty: Ty, tail: Option<string>): Option<Path>
    decreases ty, 1
  {
    match ty
    case TPtr(to) => FieldTarget(to, tail)
    case TStruct(_) => if tail.None? then None else Target(ty, tail.value)
    case TLeaf(_) => Some([])
  }

  lemma {:induction false} TargetIsLeaf(ty: Ty, key: string)
    requires WellFormed(ty) && Target(ty, key).Some?
    ensures IsLeaf(ty, Target(ty, key).value)
    decreases ty, 0
  {
    var (head, tail) := SplitFirst(key, '_');
    var i := FieldByUpperName(ty.fields, head).value;
    FieldTargetIsLeaf(ty.fields[i].ty, tail);
    FieldIndexOf(ty.fields, i);
  }

  lemma {:induction false} FieldTargetIsLeaf(ty: Ty, tail: Option<string>)
    requires WellFormed(ty) && FieldTarget(ty, tail).Some?
    ensures IsLeaf(ty, FieldTarget(ty, tail).value)
    decreases ty, 1
  {
    match ty
    case TPtr(to) => FieldTargetIsLeaf(to, tail);
    case TStruct(_) => TargetIsLeaf(ty, tail.value);
    case TLeaf(_) =>
  }

  /** The write one variable amounts to: which leaf, and which value. */
  function WriteOf(ty: Ty, env: Env, key: string, text: string): Option<(Path, Scalar)> {
    match Target(ty, key)
    case None => None
    case Some(p) =>
      if !IsLeaf(ty, p) then None
      else
        match Parse(env, KindAt(ty, p), text)
        case None => None
        case Some(x) => Some((p, x))
  }

  function PutWrite(ty: Ty, v: Tree, write: Option<(Path, Scalar)>): Tree {
    match write
    case None => v
    case Some((p, x)) => Put(ty, v, p, x)
  }

  /** The reflective walk is a single leaf write. */
  lemma {:induction false} ApplyEnvKeyIsPut(ty: Ty, env: Env, key: string, text: string, v: Tree)
    requires WellFormed(ty) && Typed(ty, v) && Complete(v)
    ensures ApplyEnvKey(ty, env, key, text, v) == PutWrite(ty, v, WriteOf(ty, env, key, text))
    decreases ty, 0
  {
    if ty.TStruct? {
      var (head, tail) := SplitFirst(key, '_');
      var found := FieldByUpperName(ty.fields, head);
      if found.Some? {
        var i := found.value;
        FieldIndexOf(ty.fields, i);
        ApplyToFieldIsPut(ty.fields[i].ty, env, tail, text, v.fields[i]);
        if FieldTarget(ty.fields[i].ty, tail).Some? {
          TargetIsLeaf(ty, key);
          var p := FieldTarget(ty.fields[i].ty, tail).value;
          assert ([ty.fields[i].name] + p)[1..] == p;
          assert KindAt(ty, [ty.fields[i].name] + p) == KindAt(ty.fields[i].ty, p);
        }
        assert v.fields[i := v.fields[i]] == v.fields;
      }
    }
  }

  ghost function FieldWriteOf(ty: Ty, env: Env, tail: Option<string>, text: string): Option<(Path, Scalar)>
    requires WellFormed(ty)
  {
    match FieldTarget(ty, tail)
    case None => None
    case Some(p) =>
      FieldTargetIsLeaf(ty, tail);
      match Parse(env, KindAt(ty, p), text)
      case None => None
      case Some(x) => Some((p, x))
  }

  lemma {:induction false} ApplyToFieldIsPut(ty: Ty, env: Env, tail: Option<string>, text: string, v: Tree)
    requires WellFormed(ty) && Typed(ty, v) && Complete(v)
    ensures ApplyToField(ty, env, tail, text, v) == PutWrite(ty, v, FieldWriteOf(ty, env, tail, text))
    decreases ty, 1
  {
    match ty
    case TPtr(to) =>
      ApplyToFieldIsPut(to, env, tail, text, v.to);
    case TStruct(_) =>
      if tail.Some? {
        ApplyEnvKeyIsPut(ty, env, tail.value, text, v);
        if Target(ty, tail.value).Some? { TargetIsLeaf(ty, tail.value); }
      }
    case TLeaf(_) =>
  }

  // -------------------------------------------------------------------------
  // All variables, in some order
  // -------------------------------------------------------------------------

  ghost predicate Enumerates<T(!new)>(keys: seq<T>, s: set<T>) {
    NoDuplicates(keys) && forall k :: k in keys <==> k in s
  }

  ghost function SomeOrder<T(!new)>(s: set<T>): (keys: seq<T>)
    ensures Enumerates(keys, s)
  {
    if s == {} then []
    else
      var k :| k in s;
      SomeOrder(s - {k}) + [k]
  }

  /** The write each variable amounts to, if any. */
  type Writes = map<string, Option<(Path, Scalar)>>

  function WritesOf(ty: Ty, env: Env): Writes {
    map key | key in env.vars :: WriteOfKey(ty, env, key)
  }

  /** What the variable `key` writes; nothing when it is not set. */
  function WriteOfKey(ty: Ty, env: Env, key: string): Option<(Path, Scalar)> {
    if key in env.vars then WriteOf(ty, env, TrimPrefix(key, "MM_"), env.vars[key]) else None
  }

  /** The loop body of `applyEnvironmentMap` run over `keys`, in that order. */
  function ApplyKeys(ty: Ty, env: Env, keys: seq<string>, v: Tree): Tree
    requires forall k :: k in keys ==> k in env.vars
  {
    if keys == [] then v
    else
      var last := keys[|keys| - 1];
      ApplyEnvKey(ty, env, TrimPrefix(last, "MM_"), env.vars[last],
                  ApplyKeys(ty, env, keys[..|keys| - 1], v))
  }

  function AddWrite(m: Table, write: Option<(Path, Scalar)>): Table {
    match write
    case None => m
    case Some((p, x)) => m[p := x]
  }

  /** The leaves written by `keys`, later writes winning. */
  function Written(writes: Writes, keys: seq<string>): Table
    requires forall k :: k in keys ==> k in writes
  {
    if keys == [] then map[]
    else AddWrite(Written(writes, keys[..|keys| - 1]), writes[keys[|keys| - 1]])
  }

  lemma LeavesOfPutWrite(ty: Ty, env: Env, key: string, text: string, v: Tree)
    requires WellFormed(ty) && Typed(ty, v) && Complete(v)
    ensures var after := ApplyEnvKey(ty, env, key, text, v);
      && Typed(ty, after) && Complete(after)
      && Leaves(ty, after) == AddWrite(Leaves(ty, v), WriteOf(ty, env, key, text))
  {
    ApplyEnvKeyIsPut(ty, env, key, text, v);
    match WriteOf(ty, env, key, text)
    case None =>
    case Some((p, x)) => LeavesOfPut(ty, v, p, x);
  }

  lemma {:induction false} LeavesOfApplyKeys(ty: Ty, env: Env, keys: seq<string>, v: Tree)
    requires WellFormed(ty) && Typed(ty, v) && Complete(v)
    requires forall k :: k in keys ==> k in env.vars
    ensures var after := ApplyKeys(ty, env, keys, v);
      && Typed(ty, after) && Complete(after)
      && Leaves(ty, after) == Leaves(ty, v) + Written(WritesOf(ty, env), keys)
    decreases |keys|
  {
    if keys != [] {
      var front, last := keys[..|keys| - 1], keys[|keys| - 1];
      LeavesOfApplyKeys(ty, env, front, v);
      LeavesOfPutWrite(ty, env, TrimPrefix(last, "MM_"), env.vars[last], ApplyKeys(ty, env, front, v));
      AddWriteLater(Leaves(ty, v), Written(WritesOf(ty, env), front), WritesOf(ty, env)[last]);
    }
  }

  lemma AddWriteLater(m: Table, t: Table, write: Option<(Path, Scalar)>)
    ensures AddWrite(m + t, write) == m + AddWrite(t, write)
  {}

  /** Every entry was written by some key, and every writing key left an entry. */
  ghost predicate WrittenBy(writes: Writes, keys: seq<string>, p: Path, x: Scalar) {
    exists k :: k in keys && k in writes && writes[k] == Some((p, x))
  }

  lemma {:induction false} WrittenEntries(writes: Writes, keys: seq<string>)
    requires forall k :: k in keys ==> k in writes
    ensures forall p :: p in Written(writes, keys) ==> WrittenBy(writes, keys, p, Written(writes, keys)[p])
    ensures forall p, x :: WrittenBy(writes, keys, p, x) ==> p in Written(writes, keys)
    decreases |keys|
  {
    if keys != [] {
      var front, last := keys[..|keys| - 1], keys[|keys| - 1];
      WrittenEntries(writes, front);
      assert keys == front + [last];
      forall p | p in Written(writes, keys)
        ensures WrittenBy(writes, keys, p, Written(writes, keys)[p])
      {
        if writes[last].Some? && writes[last].value.0 == p {
          assert last in keys;
        } else {
          assert WrittenBy(writes, front, p, Written(writes, front)[p]);
        }
      }
      forall p, x | WrittenBy(writes, keys, p, x) ensures p in Written(writes, keys) {
        if writes[last] != Some((p, x)) {
          assert WrittenBy(writes, front, p, x);
        }
      }
    }
  }

  /** No two variables write different values into one leaf. */
  ghost predicate ConflictFree(writes: Writes) {
    forall k, l :: k in writes && l in writes ==> !Conflict(writes[k], writes[l])
  }

  ghost predicate Conflict(a: Option<(Path, Scalar)>, b: Option<(Path, Scalar)>) {
    a.Some? && b.Some? && a.value.0 == b.value.0 && a.value.1 != b.value.1
  }

  /** The leaves the environment sets, with their values. */
  ghost function Overrides(writes: Writes): Table {
    Written(writes, SomeOrder(writes.Keys))
  }

  /** `m` holds, for every leaf some variable writes, a value some variable writes there. */
  ghost predicate EntriesOf(writes: Writes, m: Table) {
    && (forall p :: p in m ==> Wrote(writes, p, m[p]))
    && (forall k :: k in writes && writes[k].Some? ==> writes[k].value.0 in m)
  }

  ghost predicate Wrote(writes: Writes, p: Path, x: Scalar) {
    exists k :: k in writes && writes[k] == Some((p, x))
  }

  lemma WrittenIsEntries(writes: Writes, keys: seq<string>)
    requires Enumerates(keys, writes.Keys)
    ensures EntriesOf(writes, Written(writes, keys))
  {
    var m := Written(writes, keys);
    WrittenEntries(writes, keys);
    forall p | p in m ensures Wrote(writes, p, m[p]) {
      assert WrittenBy(writes, keys, p, m[p]);
    }
    forall k | k in writes && writes[k].Some? ensures writes[k].value.0 in m {
      assert k in keys;
      assert WrittenBy(writes, keys, writes[k].value.0, writes[k].value.1);
    }
  }

  lemma EntriesAgree(writes: Writes, a: Table, b: Table)
    requires ConflictFree(writes) && EntriesOf(writes, a) && EntriesOf(writes, b)
    ensures a == b
  {
    forall p ensures p in a <==> p in b {
      if p in a { assert Wrote(writes, p, a[p]); }
      if p in b { assert Wrote(writes, p, b[p]); }
    }
    forall p | p in a ensures a[p] == b[p] {
      assert Wrote(writes, p, a[p]) && Wrote(writes, p, b[p]);
      var k :| k in writes && writes[k] == Some((p, a[p]));
      var l :| l in writes && writes[l] == Some((p, b[p]));
      assert !Conflict(writes[k], writes[l]);
    }
  }

  lemma OverridesWhateverTheOrder(writes: Writes, keys: seq<string>)
    requires ConflictFree(writes) && Enumerates(keys, writes.Keys)
    ensures Written(writes, keys) == Overrides(writes)
  {
    WrittenIsEntries(writes, keys);
    WrittenIsEntries(writes, SomeOrder(writes.Keys));
    EntriesAgree(writes, Written(writes, keys), Written(writes, SomeOrder(writes.Keys)));
  }

  /** Go ranges over a map in a random order. The outcome is the same for every order,
      on any given complete configuration, exactly when no two variables conflict. */
  lemma OrderIndependentIffConflictFree(ty: Ty, env: Env, v: Tree)
    requires WellFormed(ty) && Typed(ty, v) && Complete(v)
    ensures ConflictFree(WritesOf(ty, env)) <==> SameForEveryOrder(ty, env, v)
  {
    hide ApplyKeys, Typed, Complete, WellFormed, WriteOfKey;
    var writes := WritesOf(ty, env);
    if ConflictFree(writes) {
      forall a, b | Enumerates(a, env.vars.Keys) && Enumerates(b, env.vars.Keys)
        ensures ApplyKeys(ty, env, a, v) == ApplyKeys(ty, env, b, v)
      {
        ConflictFreeOrders(ty, env, v, a, b);
      }
    } else {
      var k, l :| k in writes && l in writes && Conflict(writes[k], writes[l]);
      var a, b := OrderEndingIn(env.vars.Keys, k), OrderEndingIn(env.vars.Keys, l);
      LastWriteWins(ty, env, a, v);
      LastWriteWins(ty, env, b, v);
      assert ApplyKeys(ty, env, a, v) != ApplyKeys(ty, env, b, v);
    }
  }

  ghost predicate SameForEveryOrder(ty: Ty, env: Env, v: Tree) {
    forall a, b :: Enumerates(a, env.vars.Keys) && Enumerates(b, env.vars.Keys) ==>
      ApplyKeys(ty, env, a, v) == ApplyKeys(ty, env, b, v)
  }

  lemma ConflictFreeOrders(ty: Ty, env: Env, v: Tree, a: seq<string>, b: seq<string>)
    requires WellFormed(ty) && Typed(ty, v) && Complete(v)
    requires ConflictFree(WritesOf(ty, env))
    requires Enumerates(a, env.vars.Keys) && Enumerates(b, env.vars.Keys)
    ensures ApplyKeys(ty, env, a, v) == ApplyKeys(ty, env, b, v)
  {
    OverridesWhateverTheOrder(WritesOf(ty, env), a);
    OverridesWhateverTheOrder(WritesOf(ty, env), b);
    LeavesOfApplyKeys(ty, env, a, v);
    LeavesOfApplyKeys(ty, env, b, v);
    LeavesIsInjective(ty, ApplyKeys(ty, env, a, v), ApplyKeys(ty, env, b, v));
  }

  ghost function OrderEndingIn(s: set<string>, last: string): (keys: seq<string>)
    requires last in s
    ensures Enumerates(keys, s) && keys != [] && keys[|keys| - 1] == last
  {
    SomeOrder(s - {last}) + [last]
  }

  lemma LastWriteWins(ty: Ty, env: Env, keys: seq<string>, v: Tree)
    requires WellFormed(ty) && Typed(ty, v) && Complete(v)
    requires keys != [] && forall k :: k in keys ==> k in env.vars
    requires WritesOf(ty, env)[keys[|keys| - 1]].Some?
    ensures var (p, x) := WritesOf(ty, env)[keys[|keys| - 1]].value;
      var m := Leaves(ty, ApplyKeys(ty, env, keys, v));
      p in m && m[p] == x
  {
    LeavesOfApplyKeys(ty, env, keys, v);
  }

  /** `applyEnvironmentMap`: a clone of the input with every variable written, in
      whatever order the map hands them out. */
  method ApplyEnvironmentMap(ty: Ty, env: Env, input: Tree) returns (applied: Tree)
    requires WellFormed(ty) && Typed(ty, input) && Complete(input)
    ensures exists keys ::
      Enumerates(keys, env.vars.Keys) && applied == ApplyKeys(ty, env, keys, input)
    ensures Typed(ty, applied) && Complete(applied)
    ensures ConflictFree(WritesOf(ty, env)) ==>
      Leaves(ty, applied) == Leaves(ty, input) + Overrides(WritesOf(ty, env))
  {
    applied := input;
    var pending := env.vars.Keys;
    ghost var done: seq<string> := [];
    while pending != {}
      invariant pending <= env.vars.Keys
      invariant Enumerates(done, env.vars.Keys - pending)
      invariant applied == ApplyKeys(ty, env, done, input)
    {
      var key :| key in pending;
      applied := ApplyEnvKey(ty, env, TrimPrefix(key, "MM_"), env.vars[key], applied);
      assert (done + [key])[..|done|] == done;
      done := done + [key];
      pending := pending - {key};
    }
    LeavesOfApplyKeys(ty, env, done, input);
    if ConflictFree(WritesOf(ty, env)) {
      OverridesWhateverTheOrder(WritesOf(ty, env), done);
    }
  }
}

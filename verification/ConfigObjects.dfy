/** Configuration objects: the sections, and a pointer to a separate feature-flag object that
    several configurations may share. */
module ConfigObjects {
  import opened ConfigTree
  import opened StoreSpec
  import opened Defaults
  import opened World

  class FeatureFlags {
    var value: Tree

    constructor (v: Tree)
      ensures value == v
    {
      value := v;
    }
  }

  class Config {
    var sections: seq<Tree>
    var flags: FeatureFlags?

    ghost function Parts(): set<object>
      reads this
    {
      if flags == null then {this} else {this, flags}
    }

    function FlagsValue(): Tree
      reads this, flags
    {
      if flags == null then Nil else Ptr(flags.value)
    }

    function Value(): Tree
      reads this, flags
    {
      Whole(sections, FlagsValue())
    }

    ghost function Table(w: World): Table
      requires WellFormed(w.Type())
      reads this, flags
    {
      TableOf(w, sections, FlagsValue())
    }

    /** Of the configuration type, perhaps only partly filled in. */
    ghost predicate Partial(w: World)
      reads this, flags
    {
      SectionsTyped(w, sections) && Typed(TPtr(w.flags), FlagsValue())
    }

    /** Every setting has a value; the flags may have been cleared. */
    ghost predicate Filled(w: World)
      reads this, flags
    {
      SectionsOk(w, sections) && FlagsOk(w, FlagsValue())
    }

    /** A configuration in all its parts. */
    ghost predicate IsWhole(w: World)
      reads this, flags
    {
      Filled(w) && flags != null
    }

    lemma FilledFacts(w: World)
      requires IsWhole(w)
      ensures SectionsOk(w, sections) && FlagsOk(w, FlagsValue())
    {}

    constructor (s: seq<Tree>, f: FeatureFlags?)
      ensures sections == s && flags == f
    {
      sections, flags := s, f;
    }

    /** The configuration a tree spells, in objects of its own. */
    constructor OfTree(v: Tree)
      requires v.Struct? && v.fields != []
      requires v.fields[|v.fields| - 1].Nil? || v.fields[|v.fields| - 1].Ptr?
      ensures Value() == v && fresh(Parts())
    {
      var n := |v.fields| - 1;
      sections := v.fields[..n];
      if v.fields[n].Ptr? {
        flags := new FeatureFlags(v.fields[n].to);
      } else {
        flags := null;
      }
      new;
      assert v.fields == v.fields[..n] + [v.fields[n]];
    }

    /** `Clone`: a deep copy. */
    method Clone() returns (copy: Config)
      ensures fresh(copy.Parts())
      ensures copy.Value() == Value() && (copy.flags == null <==> flags == null)
      ensures copy.sections == sections && copy.FlagsValue() == FlagsValue()
    {
      copy := new Config.OfTree(Value());
      assert copy.Value().fields == Value().fields;
      assert copy.sections == copy.Value().fields[..|copy.sections|];
      assert copy.FlagsValue() == copy.Value().fields[|copy.sections|];
    }

    /** `SetDefaults`, in place. */
    method SetDefaults(w: World)
      requires TypeOk(w) && Partial(w)
      modifies this, flags
      ensures IsWhole(w) && Table(w) == Fill(SetupOf(w), old(Table(w)))
      ensures if old(flags) == null then fresh(flags) else flags == old(flags)
    {
      MergedIsFilled(w, sections, FlagsValue());
      var filled := MergedFlags(w, FlagsValue());
      sections := MergedSections(w, sections);
      if flags == null {
        flags := new FeatureFlags(filled);
      } else {
        flags.value := filled;
      }
    }
  }

  function MergedSections(w: World, a: seq<Tree>): seq<Tree>
    requires |w.defaultSections| == |a| == |w.sections|
  {
    MergeTree(TStruct(w.sections), Struct(w.defaultSections), Struct(a)).fields
  }

  function MergedFlags(w: World, f: Tree): Tree {
    if f.Ptr? then MergeTree(w.flags, w.defaultFlags, f.to) else w.defaultFlags
  }

  /** Merging the sections and merging the flags is merging the whole. */
  lemma MergeWhole(w: World, a: seq<Tree>, f: Tree)
    requires |w.defaultSections| == |w.sections| == |a|
    ensures |MergedSections(w, a)| == |a|
    ensures MergeTree(w.Type(), w.Defaults(), Whole(a, f)) == Whole(MergedSections(w, a), Ptr(MergedFlags(w, f)))
  {
    var whole := MergeTree(w.Type(), w.Defaults(), Whole(a, f));
    assert |whole.fields| == |a| + 1;
    assert w.Type().fields[|a|].ty == TPtr(w.flags);
    assert whole.fields[|a|] == MergeTree(TPtr(w.flags), Ptr(w.defaultFlags), f);
    forall i | 0 <= i < |a| ensures whole.fields[i] == MergedSections(w, a)[i] {
      assert w.Type().fields[i] == w.sections[i];
    }
    assert whole.fields == MergedSections(w, a) + [Ptr(MergedFlags(w, f))];
  }

  lemma MergedIsFilled(w: World, a: seq<Tree>, f: Tree)
    requires TypeOk(w) && SectionsTyped(w, a) && Typed(TPtr(w.flags), f)
    ensures var b, g := MergedSections(w, a), Ptr(MergedFlags(w, f));
      && SectionsOk(w, b) && FlagsOk(w, g)
      && TableOf(w, b, g) == Fill(SetupOf(w), TableOf(w, a, f))
  {
    WholeTyped(w, w.defaultSections, Ptr(w.defaultFlags));
    WholeTyped(w, a, f);
    WholeTyped(w, MergedSections(w, a), Ptr(MergedFlags(w, f)));
    MergeWhole(w, a, f);
    MergeTyped(w.Type(), w.Defaults(), Whole(a, f));
    LeavesOfMerge(w.Type(), w.Defaults(), Whole(a, f));
  }
}

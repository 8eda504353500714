/** Path and value diffs of two JSON values (`src/utils/diffOperations.ts`).
    Both diffs work on the display-path strings of `collectAllPaths`, taken
    as sets; every list they return is sorted in the default string order. */
module DiffOperations {

  import opened Seqs
  import opened Text
  import opened Json
  import opened Utils
  import opened PathUtils
  import opened FieldOperations
  import opened FieldMerge

  /** `new Set(collectAllPaths(v))`, iterated: the display paths of `v`, each
      once, in first-seen order. */
  function PathSet(v: Json): (r: seq<string>)
    ensures Distinct(r)
    ensures forall x :: x in r <==> x in CollectAllPaths(v, [])
  {
    Dedup(CollectAllPaths(v, []))
  }

  // ---------------------------------------------------------------------------
  // diffPaths

  /** `PathDiffResult`. */
  datatype PathDiff = PathDiff(intersection: seq<string>, differenceA: seq<string>, differenceB: seq<string>, union: seq<string>)

  /** A list that is sorted and free of duplicates. */
  predicate SortedSet(s: seq<string>) {
    Sorted(s) && Distinct(s)
  }

  /** `Array.prototype.sort()` of a list free of duplicates, with its members. */
  function SortSet(s: seq<string>): (r: seq<string>)
    requires Distinct(s)
    ensures SortedSet(r)
    ensures forall x :: x in r <==> x in s
  {
    SortMembers(s);
    SortDistinct(s);
    Sort(s)
  }

  /** The paths of `pa` that `pb` has. */
  function Common(pa: seq<string>, pb: seq<string>): (r: seq<string>)
    ensures forall x :: x in r <==> x in pa && x in pb
    ensures Distinct(pa) ==> Distinct(r)
  {
    FilterDistinctIf(pa, x => x in pb);
    Filter(pa, x => x in pb)
  }

  /** The paths of `pa` that `pb` lacks. */
  function Missing(pa: seq<string>, pb: seq<string>): (r: seq<string>)
    ensures forall x :: x in r <==> x in pa && x !in pb
    ensures Distinct(pa) ==> Distinct(r)
  {
    FilterDistinctIf(pa, x => x !in pb);
    Filter(pa, x => x !in pb)
  }

  lemma FilterDistinctIf(s: seq<string>, f: string -> bool)
    ensures Distinct(s) ==> Distinct(Filter(s, f))
  {
    if Distinct(s) {
      FilterDistinct(s, f);
    }
  }

  /** `diffPaths`: the paths both values have, only the first has, only the
      second has, and either has. */
  function DiffPaths(a: Json, b: Json): (r: PathDiff)
    ensures SortedSet(r.intersection) && SortedSet(r.differenceA) && SortedSet(r.differenceB) && SortedSet(r.union)
    ensures forall x :: x in r.intersection <==> x in CollectAllPaths(a, []) && x in CollectAllPaths(b, [])
    ensures forall x :: x in r.differenceA <==> x in CollectAllPaths(a, []) && x !in CollectAllPaths(b, [])
    ensures forall x :: x in r.differenceB <==> x !in CollectAllPaths(a, []) && x in CollectAllPaths(b, [])
    ensures forall x :: x in r.union <==> x in CollectAllPaths(a, []) || x in CollectAllPaths(b, [])
  {
    var pa, pb := PathSet(a), PathSet(b);
    PathDiff(SortSet(Common(pa, pb)), SortSet(Missing(pa, pb)), SortSet(Missing(pb, pa)), SortSet(Dedup(pa + pb)))
  }

  /** The four lists split the union: every path of the union is in exactly
      one of the intersection and the two differences. */
  lemma DiffPathsPartition(a: Json, b: Json, x: string)
    requires x in DiffPaths(a, b).union
    ensures var d := DiffPaths(a, b);
      (x in d.intersection) != (x in d.differenceA || x in d.differenceB) &&
      !(x in d.differenceA && x in d.differenceB)
  {
  }

  /** `set.add` of elements already present changes nothing. */
  lemma {:induction false} DedupAppendSeen(s: seq<string>, t: seq<string>)
    requires forall x :: x in t ==> x in s
    ensures Dedup(s + t) == Dedup(s)
    decreases |t|
  {
    if t != [] {
      var t' := t[..|t| - 1];
      var y := t[|t| - 1];
      assert (s + t)[..|s + t| - 1] == s + t';
      assert y in t;
      DedupAppendSeen(s, t');
    } else {
      assert s + t == s;
    }
  }

  /** Comparing a value with itself: no differences, and the intersection is
      the union. */
  lemma DiffPathsSelf(v: Json)
    ensures DiffPaths(v, v).differenceA == [] && DiffPaths(v, v).differenceB == []
    ensures DiffPaths(v, v).intersection == DiffPaths(v, v).union
  {
    var pa := PathSet(v);
    FilterAll(pa, x => x in pa);
    FilterNone(pa, x => x !in pa);
    DedupAppendSeen(pa, pa);
    DedupOfDistinct(pa);
  }

  // ---------------------------------------------------------------------------
  // generateJsonFromPathDiff

  /** Which of the four lists to rebuild a value from. */
  datatype PathType = Intersection | DifferenceA | DifferenceB | Union

  /** Where the rebuilt value takes its data from; with `Both` the second
      value's fields are merged over the first's. */
  datatype Source = SourceA | SourceB | Both

  function Chosen(d: PathDiff, t: PathType): seq<string> {
    match t
    case Intersection => d.intersection
    case DifferenceA => d.differenceA
    case DifferenceB => d.differenceB
    case Union => d.union
  }

  /** The data the paths are picked from. */
  function SourceData(a: Json, b: Json, src: Source): (r: Json)
    ensures src == SourceA ==> r == a
    ensures src == SourceB ==> r == b
  {
    match src
    case SourceA => a
    case SourceB => b
    case Both => MergeFieldsSuper(DeepClone(a), b, Dedup(CollectAllPaths(a, []) + CollectAllPaths(b, [])), false)
  }

  /** `generateJsonFromPathDiff`: an empty object when the chosen list is
      empty, otherwise the chosen paths picked from the chosen data. */
  function GenerateJsonFromPathDiff(a: Json, b: Json, t: PathType, src: Source): (r: Json)
    ensures Chosen(DiffPaths(a, b), t) == [] ==> r == Obj([])
    ensures Chosen(DiffPaths(a, b), t) != [] ==> r == PickFieldsSuper(SourceData(a, b, src), Chosen(DiffPaths(a, b), t), false)
  {
    var target := Chosen(DiffPaths(a, b), t);
    if target == [] then Obj([]) else PickFieldsSuper(SourceData(a, b, src), target, false)
  }

  /** Merging a well-formed value over itself is that value, so with equal
      inputs `Both` reads the same data as either side. */
  lemma BothOfSame(v: Json, t: PathType)
    requires Wf(v)
    ensures SourceData(v, v, Both) == v
    ensures GenerateJsonFromPathDiff(v, v, t, Both) == GenerateJsonFromPathDiff(v, v, t, SourceA)
  {
    MergeFieldsSuperIdentity(v, Dedup(CollectAllPaths(v, []) + CollectAllPaths(v, [])), false);
  }

  /** A value compared with itself has no paths of its own, so both
      differences rebuild to an empty object. */
  lemma GenerateDifferenceOfSelf(v: Json, src: Source)
    ensures GenerateJsonFromPathDiff(v, v, DifferenceA, src) == Obj([])
    ensures GenerateJsonFromPathDiff(v, v, DifferenceB, src) == Obj([])
  {
    DiffPathsSelf(v);
  }

  /** Every top-level key of a rebuilt object is a key of the selected data,
      and some chosen path (after its `**` patterns are expanded against
      that data) starts with it. */
  lemma GeneratedKeysChosen(a: Json, b: Json, t: PathType, src: Source, k: string)
    requires GenerateJsonFromPathDiff(a, b, t, src).Obj?
    requires HasKey(GenerateJsonFromPathDiff(a, b, t, src).members, k)
    ensures SourceData(a, b, src).Obj? && HasKey(SourceData(a, b, src).members, k)
    ensures exists p :: p in ExpandPaths(SourceData(a, b, src), Map(Chosen(DiffPaths(a, b), t), ParsePath)) && 0 < |p| && p[0] == Key(k)
  {
    var d := SourceData(a, b, src);
    PickSuperKeysChosen(d.members, Chosen(DiffPaths(a, b), t), k);
  }

  /** A chosen path that is just a key of the selected data copies that
      key's value unchanged, provided the chosen paths hold no `**` and none
      goes further below the key. */
  lemma GeneratedKeyCopied(a: Json, b: Json, t: PathType, src: Source, k: string)
    requires SourceData(a, b, src).Obj? && HasKey(SourceData(a, b, src).members, k)
    requires forall x :: x in Chosen(DiffPaths(a, b), t) ==> !HasGlob(ParsePath(x))
    requires exists x :: x in Chosen(DiffPaths(a, b), t) && ParsePath(x) == [Key(k)]
    requires forall x :: x in Chosen(DiffPaths(a, b), t) && 0 < |ParsePath(x)| && ParsePath(x)[0] == Key(k) ==> |ParsePath(x)| == 1
    ensures GenerateJsonFromPathDiff(a, b, t, src).Obj?
    ensures Find(GenerateJsonFromPathDiff(a, b, t, src).members, k) == Find(SourceData(a, b, src).members, k)
  {
    var d, target := SourceData(a, b, src), Chosen(DiffPaths(a, b), t);
    assert target != [];
    assert GenerateJsonFromPathDiff(a, b, t, src) == PickFieldsSuper(d, target, false);
    PickSuperKeyCopied(d.members, target, k);
  }

  // ---------------------------------------------------------------------------
  // diffValues

  /** `ValueDiffOptions`; each category is on unless switched off. */
  datatype DiffOptions = DiffOptions(includeAdded: bool, includeRemoved: bool, includeModified: bool)

  function DefaultOptions(): DiffOptions {
    DiffOptions(true, true, true)
  }

  /** `ValueDiffResult`. */
  datatype ValueDiff = ValueDiff(changedPaths: seq<string>, changedObject: Json, addedPaths: seq<string>, removedPaths: seq<string>, modifiedPaths: seq<string>)

  /** The paths of `pa` that `pb` has too but at which the two values read
      differently. */
  function Modified(a: Json, b: Json, pa: seq<string>, pb: seq<string>): (r: seq<string>)
    ensures forall x :: x in r <==> x in pa && x in pb && !IsEqualOpt(GetValueByPath(a, x), GetValueByPath(b, x))
    ensures Distinct(pa) ==> Distinct(r)
  {
    var f := x => x in pb && !IsEqualOpt(GetValueByPath(a, x), GetValueByPath(b, x));
    FilterDistinctIf(pa, f);
    Filter(pa, f)
  }

  /** The three categories of changes, each empty when switched off, in the
      order the source reports them: added, removed, modified. */
  function Added(a: Json, b: Json, o: DiffOptions): (r: seq<string>)
    ensures Distinct(r)
    ensures forall x :: x in r <==> o.includeAdded && x in PathSet(b) && x !in PathSet(a)
  {
    if o.includeAdded then Missing(PathSet(b), PathSet(a)) else []
  }

  function Removed(a: Json, b: Json, o: DiffOptions): (r: seq<string>)
    ensures Distinct(r)
    ensures forall x :: x in r <==> o.includeRemoved && x in PathSet(a) && x !in PathSet(b)
  {
    if o.includeRemoved then Missing(PathSet(a), PathSet(b)) else []
  }

  function ModifiedIf(a: Json, b: Json, o: DiffOptions): (r: seq<string>)
    ensures Distinct(r)
    ensures forall x :: x in r <==>
      (o.includeModified && x in PathSet(a) && x in PathSet(b) && !IsEqualOpt(GetValueByPath(a, x), GetValueByPath(b, x)))
  {
    if o.includeModified then Modified(a, b, PathSet(a), PathSet(b)) else []
  }

  /** `changedPaths` before it is sorted. */
  function Changed(a: Json, b: Json, o: DiffOptions): seq<string> {
    Added(a, b, o) + Removed(a, b, o) + ModifiedIf(a, b, o)
  }

  /** `diffValues`: the added, removed and modified display paths, their
      sorted union, and the second value picked down to the changed paths
      (an empty object when nothing changed). */
  function DiffValues(a: Json, b: Json, o: DiffOptions): (r: ValueDiff)
    ensures SortedSet(r.addedPaths) && SortedSet(r.removedPaths) && SortedSet(r.modifiedPaths) && Sorted(r.changedPaths)
    ensures forall x :: x in r.addedPaths <==> o.includeAdded && x in CollectAllPaths(b, []) && x !in CollectAllPaths(a, [])
    ensures forall x :: x in r.removedPaths <==> o.includeRemoved && x in CollectAllPaths(a, []) && x !in CollectAllPaths(b, [])
    ensures forall x :: x in r.modifiedPaths <==>
      (o.includeModified && x in CollectAllPaths(a, []) && x in CollectAllPaths(b, []) &&
       !IsEqualOpt(GetValueByPath(a, x), GetValueByPath(b, x)))
    ensures forall x :: x in r.changedPaths <==> x in r.addedPaths || x in r.removedPaths || x in r.modifiedPaths
    ensures r.changedPaths == [] ==> r.changedObject == Obj([])
    ensures r.changedPaths != [] ==> r.changedObject == PickFieldsSuper(b, Changed(a, b, o), false)
  {
    var added, removed, modified := Added(a, b, o), Removed(a, b, o), ModifiedIf(a, b, o);
    var changed := Changed(a, b, o);
    SortMembers(changed);
    ValueDiff(
      Sort(changed),
      if changed != [] then PickFieldsSuper(b, changed, false) else Obj([]),
      SortSet(added), SortSet(removed), SortSet(modified))
  }

  /** Every top-level key of the changed object is a key of the second value,
      and some changed path (after its `**` patterns are expanded against
      that value) starts with it. */
  lemma DiffValuesKeysChosen(a: Json, b: Json, o: DiffOptions, k: string)
    requires DiffValues(a, b, o).changedObject.Obj?
    requires HasKey(DiffValues(a, b, o).changedObject.members, k)
    ensures b.Obj? && HasKey(b.members, k)
    ensures exists p :: p in ExpandPaths(b, Map(Changed(a, b, o), ParsePath)) && 0 < |p| && p[0] == Key(k)
  {
    assert DiffValues(a, b, o).changedPaths != [];
    PickSuperKeysChosen(b.members, Changed(a, b, o), k);
  }

  /** A changed path that is just a key of the second value puts that key's
      value into the changed object unchanged, provided the changed paths
      hold no `**` and none goes further below the key. */
  lemma DiffValuesKeyCopied(a: Json, b: Json, o: DiffOptions, k: string)
    requires b.Obj? && HasKey(b.members, k)
    requires forall x :: x in Changed(a, b, o) ==> !HasGlob(ParsePath(x))
    requires exists x :: x in Changed(a, b, o) && ParsePath(x) == [Key(k)]
    requires forall x :: x in Changed(a, b, o) && 0 < |ParsePath(x)| && ParsePath(x)[0] == Key(k) ==> |ParsePath(x)| == 1
    ensures DiffValues(a, b, o).changedObject.Obj?
    ensures Find(DiffValues(a, b, o).changedObject.members, k) == Find(b.members, k)
  {
    SortMembers(Changed(a, b, o));
    assert DiffValues(a, b, o).changedPaths != [];
    PickSuperKeyCopied(b.members, Changed(a, b, o), k);
  }

  /** The three categories never share a path. */
  lemma DiffValuesDisjoint(a: Json, b: Json, o: DiffOptions)
    ensures var r := DiffValues(a, b, o);
      (forall x :: x in r.addedPaths ==> x !in r.removedPaths && x !in r.modifiedPaths) &&
      (forall x :: x in r.removedPaths ==> x !in r.modifiedPaths)
  {
  }

  /** `changedPaths` lists each changed path once. */
  lemma DiffValuesChangedDistinct(a: Json, b: Json, o: DiffOptions)
    ensures Distinct(DiffValues(a, b, o).changedPaths)
  {
    ChangedDistinct(a, b, o);
    SortDistinct(Changed(a, b, o));
  }

  lemma ChangedDistinct(a: Json, b: Json, o: DiffOptions)
    ensures Distinct(Changed(a, b, o))
  {
    DistinctAppendThree(Added(a, b, o), Removed(a, b, o), ModifiedIf(a, b, o));
  }

  /** Three duplicate-free lists, pairwise without common members, joined. */
  lemma DistinctAppendThree(s: seq<string>, t: seq<string>, u: seq<string>)
    requires Distinct(s) && Distinct(t) && Distinct(u)
    requires forall x :: x in s ==> x !in t && x !in u
    requires forall x :: x in t ==> x !in u
    ensures Distinct(s + t + u)
  {
    DistinctAppend(s, t);
    DistinctAppend(s + t, u);
  }

  /** Joining two duplicate-free lists with no common member keeps the result
      duplicate-free. */
  lemma DistinctAppend(s: seq<string>, t: seq<string>)
    requires Distinct(s) && Distinct(t) && forall x :: x in s ==> x !in t
    ensures Distinct(s + t)
  {
    forall i, j | 0 <= i < j < |s + t|
      ensures (s + t)[i] != (s + t)[j]
    {
      if i < |s| && j >= |s| {
        assert (s + t)[i] in s;
      }
    }
  }

  /** Every value stored in a well-formed value is well formed. */
  lemma {:induction false} LookupWf(v: Json, p: Path)
    requires Wf(v) && Lookup(v, p).Some?
    ensures Wf(Lookup(v, p).value)
    decreases |p|
  {
    if p != [] {
      var c := Child(v, p[0]).value;
      if v.Obj? {
        var i := FindIndex(v.members, p[0].name);
        assert c == v.members[i].value;
      }
      LookupWf(c, p[1..]);
    }
  }

  /** Comparing a well-formed value with itself reports nothing and yields an
      empty object, whatever the options. */
  lemma DiffValuesSelf(v: Json, o: DiffOptions)
    requires Wf(v)
    ensures var r := DiffValues(v, v, o);
      r.changedPaths == [] && r.addedPaths == [] && r.removedPaths == [] && r.modifiedPaths == [] &&
      r.changedObject == Obj([])
  {
    var pa := PathSet(v);
    FilterNone(pa, x => x !in pa);
    forall x | x in pa
      ensures IsEqualOpt(GetValueByPath(v, x), GetValueByPath(v, x))
    {
      var w := GetValueByPath(v, x);
      if w.Some? {
        LookupWf(v, ParseNewPathFormat(x));
        IsEqualReflexive(w.value);
      }
    }
    var f := x => x in pa && !IsEqualOpt(GetValueByPath(v, x), GetValueByPath(v, x));
    FilterNone(pa, f);
    assert Changed(v, v, o) == [];
  }

  // ---------------------------------------------------------------------------
  // generateValueDiffJson

  /** What `generateValueDiffJson` returns: the changed paths or the changed
      object. */
  datatype DiffOutput = Paths(paths: seq<string>) | Object(value: Json)

  datatype OutputType = PathsOutput | ObjectOutput

  /** `generateValueDiffJson`. */
  function GenerateValueDiffJson(a: Json, b: Json, t: OutputType, o: DiffOptions): (r: DiffOutput)
    ensures t == PathsOutput ==> r == Paths(DiffValues(a, b, o).changedPaths)
    ensures t == ObjectOutput ==> r == Object(DiffValues(a, b, o).changedObject)
  {
    var d := DiffValues(a, b, o);
    if t == PathsOutput then Paths(d.changedPaths) else Object(d.changedObject)
  }

  /** With equal well-formed inputs the output is empty in either form. */
  lemma GenerateValueDiffSelf(v: Json, t: OutputType, o: DiffOptions)
    requires Wf(v)
    ensures GenerateValueDiffJson(v, v, t, o) == if t == PathsOutput then Paths([]) else Object(Obj([]))
  {
    DiffValuesSelf(v, o);
  }
}

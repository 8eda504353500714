/** The two merge findings at the level of `mergeFieldsSuper`, with the path
    strings of their examples parsed. */
module MergeScenarios {
  import opened Seqs
  import opened Json
  import opened PathUtils
  import opened FieldOperations
  import opened FieldMerge
  import Scenarios

  /** `["a.x"]` parses to the one path `a`, `x`. */
  lemma ParseIncludes(strs: seq<string>)
    requires strs == ["a.x"]
    ensures Map(strs, ParsePath) == [[Key("a"), Key("x")]]
  {
    Scenarios.ParseTwoKeys("a", "x");
    assert "a" + "." + "x" == "a.x";
  }

  /** `["a.x", "zzz"]` parses to the sibling example's exclusions. */
  lemma ParseSiblingStrings(strs: seq<string>)
    requires strs == ["a.x", "zzz"]
    ensures Map(strs, ParsePath) == SiblingPaths()
  {
    Scenarios.ParseTwoKeys("a", "x");
    assert "a" + "." + "x" == "a.x";
    Scenarios.ParseOneKey("zzz");
  }

  /** `mergeFieldsSuper({a: {x: 1, y: 2}}, {a: 5}, ["a.x"])` throws as
      written; the corrected merge keeps the origin. */
  lemma ScalarPatchSuper(origin: Json, patch: Json, strs: seq<string>)
    requires origin == Obj([Member("a", Obj([Member("x", Num(1)), Member("y", Num(2))]))])
    requires patch == Obj([Member("a", Num(5))])
    requires strs == ["a.x"]
    ensures MergeFieldsSuperAsWritten(origin, patch, strs, false) == TypeError
    ensures MergeFieldsSuper(origin, patch, strs, false) == origin
  {
    ParseIncludes(strs);
    ScalarPatchExampleThrows(origin, patch, Map(strs, ParsePath));
    ScalarPatchExampleKeeps(origin, patch, Map(strs, ParsePath));
  }

  /** Excluding `a.x` and `zzz`: as written `a.y` keeps the origin's 2; the
      corrected merge takes the patch's 20. */
  lemma SiblingSuper(origin: Json, patch: Json, strs: seq<string>)
    requires origin == SiblingOrigin() && patch == SiblingPatch() && strs == ["a.x", "zzz"]
    ensures MergeFieldsSuperAsWritten(origin, patch, strs, true).Normal?
    ensures Lookup(MergeFieldsSuperAsWritten(origin, patch, strs, true).value, [Key("a"), Key("y")]) == Some(Num(2))
    ensures Lookup(MergeFieldsSuper(origin, patch, strs, true), [Key("a"), Key("y")]) == Some(Num(20))
  {
    SiblingSuperAsWritten(origin, patch, strs);
    SiblingSuperCorrected(origin, patch, strs);
  }

  /** The written half of the sibling example: `a.y` keeps the origin's 2. */
  lemma SiblingSuperAsWritten(origin: Json, patch: Json, strs: seq<string>)
    requires origin == SiblingOrigin() && patch == SiblingPatch() && strs == ["a.x", "zzz"]
    ensures MergeFieldsSuperAsWritten(origin, patch, strs, true) ==
      Normal(OmitMergeFieldsDeep(origin, Some(patch), SiblingPaths()))
    ensures Lookup(OmitMergeFieldsDeep(origin, Some(patch), SiblingPaths()), [Key("a"), Key("y")]) == Some(Num(2))
  {
    ParseSiblingStrings(strs);
    assert IsContainer(origin) && IsContainer(patch);
    AsWrittenFreezesSibling(origin, patch, SiblingPaths());
  }

  /** The corrected half of the sibling example: `a.y` takes the patch's 20. */
  lemma SiblingSuperCorrected(origin: Json, patch: Json, strs: seq<string>)
    requires origin == SiblingOrigin() && patch == SiblingPatch() && strs == ["a.x", "zzz"]
    ensures MergeFieldsSuper(origin, patch, strs, true) == OmitMergeScoped(origin, Some(patch), SiblingPaths())
    ensures Lookup(OmitMergeScoped(origin, Some(patch), SiblingPaths()), [Key("a"), Key("y")]) == Some(Num(20))
  {
    ParseSiblingStrings(strs);
    assert IsContainer(origin) && IsContainer(patch);
    ScopedUpdatesSibling(origin, patch, SiblingPaths());
  }
}

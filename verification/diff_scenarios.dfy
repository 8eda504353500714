/** The value diff of the tests in its smallest form: an `age` that goes
    from 25 to 26 is the one changed path, and the changed object reads 26
    under `age`, both from `diffValues` and from `generateValueDiffJson`'s
    default output. */
module DiffScenarios {
  import opened Seqs
  import opened Json
  import opened Utils
  import opened PathUtils
  import opened DiffOperations
  import Scenarios

  /** An object whose only member is `age`. */
  function Aged(n: int): Json {
    Obj([Member("age", Num(n))])
  }

  /** The only display path of `{age: n}` is `age`. */
  lemma AgedPaths(n: int)
    ensures CollectAllPaths(Aged(n), []) == ["age"]
  {
    var ms := Aged(n).members;
    assert ms[1..] == [];
    assert RenderPath([Key("age")]) == "age";
    assert CollectMemberPaths(ms, []) == CollectAllPaths(Num(n), [Key("age")]) + CollectMemberPaths(ms[1..], []);
    assert CollectMemberPaths(ms, []) == ["age"];
    assert Filter(["age"], NonEmpty) == ["age"] by {
      assert Filter(["age"][1..], NonEmpty) == [];
    }
  }

  /** `age` reads the number stored under it. */
  lemma AgedValue(n: int)
    ensures GetValueByPath(Aged(n), "age") == Some(Num(n))
  {
    var q := [Key("age")];
    assert DisplayPath(q);
    assert RenderPath(q) == "age";
    GetValueByRenderedPath(Aged(n), q);
    assert Lookup(Aged(n), q) == Some(Num(n)) by {
      assert FindIndex(Aged(n).members, "age") == 0;
    }
  }

  /** The path set of `{age: n}` holds `age` alone. */
  lemma AgedPathSet(n: int)
    ensures forall x :: x in PathSet(Aged(n)) <==> x == "age"
  {
    AgedPaths(n);
  }

  /** `age` is the one path whose value differs between the two objects. */
  lemma AgeModified(o: DiffOptions)
    requires o == DefaultOptions()
    ensures forall x :: x in ModifiedIf(Aged(25), Aged(26), o) <==> x == "age"
  {
    AgedPathSet(25);
    AgedPathSet(26);
    AgedValue(25);
    AgedValue(26);
    IsEqualScalar(Num(25), Num(26));
  }

  /** With 25 and 26 under `age`, `age` is the only changed path. */
  lemma AgeChanged(o: DiffOptions)
    requires o == DefaultOptions()
    ensures forall x :: x in Changed(Aged(25), Aged(26), o) <==> x == "age"
  {
    AgedPathSet(25);
    AgedPathSet(26);
    AgeModified(o);
  }

  /** `diffValues({age: 25}, {age: 26})` lists `age` as a modified and a
      changed path. */
  lemma AgeDiffPaths(o: DiffOptions)
    requires o == DefaultOptions()
    ensures "age" in DiffValues(Aged(25), Aged(26), o).modifiedPaths
    ensures "age" in DiffValues(Aged(25), Aged(26), o).changedPaths
  {
    AgedPaths(25);
    AgedPaths(26);
    AgedValue(25);
    AgedValue(26);
    IsEqualScalar(Num(25), Num(26));
    var r := DiffValues(Aged(25), Aged(26), o);
    assert "age" in r.modifiedPaths;
  }

  /** Its changed object reads 26 under `age`, and the default output of
      `generateValueDiffJson` is that object. */
  lemma AgeDiff(o: DiffOptions)
    requires o == DefaultOptions()
    ensures DiffValues(Aged(25), Aged(26), o).changedObject.Obj?
    ensures Find(DiffValues(Aged(25), Aged(26), o).changedObject.members, "age") == Some(Num(26))
    ensures GenerateValueDiffJson(Aged(25), Aged(26), ObjectOutput, o) == Object(DiffValues(Aged(25), Aged(26), o).changedObject)
  {
    var a, b := Aged(25), Aged(26);
    AgeChanged(o);
    Scenarios.ParseOneKey("age");
    assert FindIndex(b.members, "age") == 0;
    DiffValuesKeyCopied(a, b, o, "age");
  }
}

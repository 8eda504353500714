/** The array-wildcard pick of the tests, `pickFieldsSuper(testData,
    ["c[].a"])`, derived step by step from small facts about single-path
    picks, and the `null`-child finding at the level of `pickFieldsSuper`. */
module PickScenarios {
  import opened Seqs
  import opened Json
  import opened PathUtils
  import opened FieldOperations
  import Scenarios

  /** The element of `c` that has an `a`. */
  const FirstElement: Json := Obj([Member("a", Num(3)), Member("d", Str("test1"))])

  /** The element of `c` that has none. */
  const SecondElement: Json :=
    Obj([Member("b", Obj([Member("a", Num(4)), Member("e", Str("test2"))])), Member("f", Num(5))])

  /** The data the tests pick from. */
  const TestData: Json :=
    Obj([
      Member("a", Num(1)),
      Member("b", Obj([Member("a", Num(2)), Member("c", Num(3))])),
      Member("c", Arr([FirstElement, SecondElement])),
      Member("d", Obj([Member("e", Obj([Member("f", Obj([Member("a", Num(6)), Member("g", Str("deep"))]))]))]))
    ])

  /** A single path with a key at `depth` names just that key there. */
  lemma KeysAtSingle(p: Path, depth: nat)
    requires depth < |p| && p[depth].Key?
    ensures KeysAt([p], depth) == [p[depth].name]
  {
    assert [p][1..] == [];
    assert NamesAt([p], depth) == [p[depth].name] + NamesAt([], depth);
    DedupOfDistinct([p[depth].name]);
  }

  /** A single path selecting the step is all that matches it. */
  lemma MatchedSingle(p: Path, depth: nat, s: PathElement)
    requires depth < |p| && Selects(p[depth], s)
    ensures Matched([p], depth, s) == [p]
  {
    assert [p][1..] == [];
  }

  /** What a single path through key `k` asks for below it. */
  lemma DeeperSingle(p: Path, depth: nat, k: string)
    requires depth < |p| && p[depth] == Key(k)
    ensures DeeperPaths([p], depth, k) == if |p| == depth + 1 then [] else [p[depth + 1..]]
  {
    MatchedSingle(p, depth, Key(k));
    var t := p[depth + 1..];
    assert Tails([p], depth) == [t];
    assert [t][1..] == [];
    assert Filter([t], NonEmptyPath) == (if NonEmptyPath(t) then [t] else []) + Filter([t][1..], NonEmptyPath);
  }

  /** Picking a single key. */
  lemma PickKeysSingle(ms: seq<Member>, k: string, paths: seq<Path>, depth: nat)
    ensures PickKeys(ms, [k], paths, depth) == PickKeyMember(ms, k, paths, depth)
  {
    assert [k][1..] == [];
  }

  /** An object with key `k` first, under a single path ending at `k`,
      picks just that member. */
  lemma PickLeadingKey(v: Json, p: Path, depth: nat, k: string)
    requires v.Obj? && |v.members| > 0 && v.members[0].key == k
    requires |p| == depth + 1 && p[depth] == Key(k)
    ensures PickPlain(v, [p], depth) == Some(Obj([v.members[0]]))
  {
    KeysAtSingle(p, depth);
    DeeperSingle(p, depth, k);
    PickKeysSingle(v.members, k, [p], depth);
  }

  /** An object without key `k`, under a single path through `k`, picks to
      an empty object. */
  lemma PickMissingKey(v: Json, p: Path, depth: nat, k: string)
    requires v.Obj? && !HasKey(v.members, k)
    requires depth < |p| && p[depth] == Key(k)
    ensures PickPlain(v, [p], depth) == Some(Obj([]))
  {
    KeysAtSingle(p, depth);
    PickKeysSingle(v.members, k, [p], depth);
  }

  /** A two-element array under paths with an array segment keeps the first
      pick and drops the second, empty one. */
  lemma PickFirstOfTwo(x: Json, y: Json, paths: seq<Path>, a: Json)
    requires HasArraySegment(paths, 0)
    requires PickPlain(x, Matched(paths, 0, Index(0)), 1) == Some(a) && KeepPicked(Some(a))
    requires PickPlain(y, Matched(paths, 0, Index(1)), 1) == Some(Obj([]))
    ensures PickPlain(Arr([x, y]), paths, 0) == Some(Arr([a]))
  {
    TwoItems(x, y, paths, a);
    PickArrayItems([x, y], paths);
  }

  lemma TwoItems(x: Json, y: Json, paths: seq<Path>, a: Json)
    requires PickPlain(x, Matched(paths, 0, Index(0)), 1) == Some(a) && KeepPicked(Some(a))
    requires PickPlain(y, Matched(paths, 0, Index(1)), 1) == Some(Obj([]))
    ensures PickItems([x, y], 0, paths, 0) == [a]
  {
    PickItemsLastDropped(y, paths);
    var items := [x, y];
    assert items[0] == x && items[1..] == [y];
    assert PickItems(items, 0, paths, 0) == [a] + PickItems([y], 1, paths, 0);
  }

  /** An array under paths with an array segment picks its compacted
      elements. */
  lemma PickArrayItems(items: seq<Json>, paths: seq<Path>)
    requires HasArraySegment(paths, 0)
    ensures PickPlain(Arr(items), paths, 0) == Some(Arr(PickItems(items, 0, paths, 0)))
  {
  }

  lemma PickItemsLastDropped(y: Json, paths: seq<Path>)
    requires PickPlain(y, Matched(paths, 0, Index(1)), 1) == Some(Obj([]))
    ensures PickItems([y], 1, paths, 0) == []
  {
    assert [y][0] == y && [y][1..] == [];
    assert PickItems([], 2, paths, 0) == [];
  }

  /** An object under a wildcard-free path list naming only key `k`, with
      paths going on below it, picks the kept pick of `k`'s value. */
  lemma PickThroughKey(v: Json, paths: seq<Path>, k: string, child: seq<Path>, i: int, picked: Json)
    requires v.Obj? && GlobFree(paths)
    requires KeysAt(paths, 0) == [k] && DeeperPaths(paths, 0, k) == child && child != []
    requires FindIndex(v.members, k) == i && i >= 0
    requires PickPlain(v.members[i].value, child, 0) == Some(picked) && KeepPicked(Some(picked))
    ensures PickFieldsDeep(v, paths, 0) == Some(Obj([Member(k, picked)]))
  {
    PickKeysSingle(v.members, k, paths, 0);
  }

  /** Below `c[]`, the first element keeps its `a`. */
  lemma PickFirstElement(child: seq<Path>)
    requires child == [[AnyIndex, Key("a")]]
    ensures PickPlain(FirstElement, Matched(child, 0, Index(0)), 1) == Some(Obj([Member("a", Num(3))]))
  {
    MatchedSingle(child[0], 0, Index(0));
    assert FirstElement.members[0] == Member("a", Num(3));
    PickLeadingKey(FirstElement, child[0], 1, "a");
  }

  /** Below `c[]`, the second element has no `a` and picks to `{}`. */
  lemma PickSecondElement(child: seq<Path>)
    requires child == [[AnyIndex, Key("a")]]
    ensures PickPlain(SecondElement, Matched(child, 0, Index(1)), 1) == Some(Obj([]))
  {
    MatchedSingle(child[0], 0, Index(1));
    var ms := SecondElement.members;
    assert !HasKey(ms, "a") by {
      assert ms[0].key == "b" && ms[1].key == "f";
    }
    PickMissingKey(SecondElement, child[0], 1, "a");
  }

  /** The wildcard array picks the first element's `a` and drops the second
      element, whose pick is an empty object. */
  lemma PickElementsOfC(child: seq<Path>)
    requires child == [[AnyIndex, Key("a")]]
    ensures PickPlain(Arr([FirstElement, SecondElement]), child, 0) == Some(Arr([Obj([Member("a", Num(3))])]))
  {
    PickFirstElement(child);
    PickSecondElement(child);
    assert HasArraySegment(child, 0) by {
      assert child[0] in child;
    }
    PickFirstOfTwo(FirstElement, SecondElement, child, Obj([Member("a", Num(3))]));
  }

  /** `pickFieldsSuper(testData, ["c[].a"])` is `{ c: [{ a: 3 }] }`. */
  lemma PickArrayWildcard()
    ensures PickFieldsSuper(TestData, ["c[].a"], false) == Obj([Member("c", Arr([Obj([Member("a", Num(3))])]))])
  {
    var p := [Key("c"), AnyIndex, Key("a")];
    Scenarios.ParseArrayKey("c[].a");
    assert Map(["c[].a"], ParsePath) == [p];
    PickPathC([p]);
  }

  lemma PickPathC(paths: seq<Path>)
    requires paths == [[Key("c"), AnyIndex, Key("a")]]
    ensures PickFieldsDeep(TestData, paths, 0) == Some(Obj([Member("c", Arr([Obj([Member("a", Num(3))])]))]))
  {
    var child := [[AnyIndex, Key("a")]];
    PathsThroughC(paths, child);
    MemberC();
    PickElementsOfC(child);
    PickThroughKey(TestData, paths, "c", child, 2, Arr([Obj([Member("a", Num(3))])]));
  }

  /** `c` is the third member of the test data, holding the two elements. */
  lemma MemberC()
    ensures FindIndex(TestData.members, "c") == 2
    ensures TestData.members[2].value == Arr([FirstElement, SecondElement])
  {
    var ms := TestData.members;
    assert ms[0].key == "a" && ms[1].key == "b" && ms[2].key == "c";
  }

  /** The path `c[].a` is wildcard-free, names `c` at the top and asks for
      `[].a` below it. */
  lemma PathsThroughC(paths: seq<Path>, child: seq<Path>)
    requires paths == [[Key("c"), AnyIndex, Key("a")]] && child == [[AnyIndex, Key("a")]]
    ensures GlobFree(paths)
    ensures KeysAt(paths, 0) == ["c"]
    ensures DeeperPaths(paths, 0, "c") == child
  {
    assert GlobFree(paths) by {
      assert !HasGlob(paths[0]);
    }
    KeysAtSingle(paths[0], 0);
    DeeperSingle(paths[0], 0, "c");
    assert paths[0][1..] == child[0];
  }

  /** `pickFieldsSuper({a: null}, ["a.b"])` throws as written; the corrected
      pick keeps the `null`. */
  lemma NullChildSuper(input: Json, strs: seq<string>)
    requires input == Obj([Member("a", Null)]) && strs == ["a.b"]
    ensures PickFieldsSuperAsWritten(input, strs, false) == TypeError
    ensures PickFieldsSuper(input, strs, false) == input
  {
    Scenarios.ParseTwoKeys("a", "b");
    assert "a" + "." + "b" == "a.b";
    assert Map(strs, ParsePath) == [[Key("a"), Key("b")]];
    PickNullChildThrows(input, Map(strs, ParsePath));
    PickNullChildKept(input, Map(strs, ParsePath));
  }
}

/** The general helpers of the toolkit: object test, deep equality, deep copy,
    the enumeration of every path of a value as a display string, and the
    display-path parser and lookup used to read values back by those strings. */
module Utils {

  import opened Seqs
  import opened Text
  import opened Json

  /** `isPlainObject`: an object that is not an array (never `null` or
      `undefined`). */
  predicate IsPlainObject(v: Option<Json>) {
    v.Some? && v.value.Obj?
  }

  // ---------------------------------------------------------------------------
  // Deep equality

  /** Structural equality in the manner of lodash `isEqual`: scalars by value,
      arrays element by element, objects by their set of keys and the value
      under each key, regardless of member order. */
  predicate IsEqual(a: Json, b: Json)
    decreases a
  {
    match a
    case Arr(xs) => b.Arr? && |xs| == |b.items| && ItemsEqual(xs, b.items)
    case Obj(xs) => b.Obj? && |xs| == |b.members| && MembersIn(xs, b.members)
    case _ => a == b
  }

  predicate ItemsEqual(xs: seq<Json>, ys: seq<Json>)
    requires |xs| == |ys|
    decreases xs
  {
    xs == [] || (IsEqual(xs[0], ys[0]) && ItemsEqual(xs[1..], ys[1..]))
  }

  /** Every member of `xs` has an equal counterpart under its key in `ys`. */
  predicate MembersIn(xs: seq<Member>, ys: seq<Member>)
    decreases xs
  {
    xs == [] ||
    (var w := Find(ys, xs[0].key); w.Some? && IsEqual(xs[0].value, w.value) && MembersIn(xs[1..], ys))
  }

  /** `isEqual` on possibly-`undefined` values. */
  predicate IsEqualOpt(a: Option<Json>, b: Option<Json>) {
    match a
    case None => b.None?
    case Some(x) => b.Some? && IsEqual(x, b.value)
  }

  /** On scalars deep equality is plain equality. */
  lemma IsEqualScalar(a: Json, b: Json)
    requires !IsContainer(a)
    ensures IsEqual(a, b) <==> a == b
  {
  }

  /** Every value is deeply equal to itself. */
  lemma {:induction false} IsEqualReflexive(v: Json)
    requires Wf(v)
    ensures IsEqual(v, v)
    decreases v, 1
  {
    match v
    case Arr(items) => ItemsEqualReflexive(items);
    case Obj(ms) => MembersInReflexive(ms, ms);
    case _ =>
  }

  lemma {:induction false} ItemsEqualReflexive(items: seq<Json>)
    requires WfItems(items)
    ensures ItemsEqual(items, items)
    decreases items, 0
  {
    if items != [] {
      IsEqualReflexive(items[0]);
      assert WfItems(items[1..]) by {
        assert forall i :: 0 <= i < |items[1..]| ==> items[1..][i] == items[i + 1];
      }
      ItemsEqualReflexive(items[1..]);
    }
  }

  /** A sub-list of an object's members is found, member by member, in the
      object itself. */
  lemma {:induction false} MembersInReflexive(xs: seq<Member>, ms: seq<Member>)
    requires UniqueKeys(ms) && WfMembers(ms)
    requires forall i :: 0 <= i < |xs| ==> xs[i] in ms
    ensures MembersIn(xs, ms)
    decreases xs, 0
  {
    if xs != [] {
      assert xs[0] in ms;
      var j :| 0 <= j < |ms| && ms[j] == xs[0];
      FindUnique(ms, j);
      IsEqualReflexive(ms[j].value);
      assert forall i :: 0 <= i < |xs[1..]| ==> xs[1..][i] == xs[i + 1];
      MembersInReflexive(xs[1..], ms);
    }
  }

  /** Object member order does not matter to deep equality. */
  lemma ObjectOrderIrrelevant(a: seq<Member>, b: seq<Member>)
    requires Wf(Obj(a + b))
    ensures IsEqual(Obj(a + b), Obj(b + a))
  {
    var ab, ba := a + b, b + a;
    assert forall i, j :: 0 <= i < j < |ba| ==> ba[i].key != ba[j].key by {
      forall i, j | 0 <= i < j < |ba|
        ensures ba[i].key != ba[j].key
      {
        var i' := if i < |b| then i + |a| else i - |b|;
        var j' := if j < |b| then j + |a| else j - |b|;
        assert ba[i] == ab[i'] && ba[j] == ab[j'] && i' != j';
      }
    }
    assert forall i :: 0 <= i < |ba| ==> Wf(ba[i].value) by {
      forall i | 0 <= i < |ba|
        ensures Wf(ba[i].value)
      {
        var i' := if i < |b| then i + |a| else i - |b|;
        assert ba[i] == ab[i'];
      }
    }
    forall i | 0 <= i < |ab|
      ensures ab[i] in ba
    {
      if i < |a| {
        assert ab[i] == ba[i + |b|];
      } else {
        assert ab[i] == ba[i - |a|];
      }
    }
    MembersInReflexive(ab, ba);
  }

  // ---------------------------------------------------------------------------
  // Deep copy

  /** `deepClone`: the JSON round trip of a JSON value is a deeply equal
      value; with immutable values it is the value itself. */
  function DeepClone(v: Json): (r: Json)
    ensures Wf(v) ==> Wf(r) && IsEqual(r, v)
  {
    if Wf(v) then IsEqualReflexive(v); v else v
  }

  // ---------------------------------------------------------------------------
  // Display paths

  /** How one segment is written in a display path: `[n]` for an index, the
      bare name for a leading key and `.name` for any later key (and likewise
      `[]` and `**` for the wildcards). */
  function RenderSegment(s: PathElement, first: bool): string {
    match s
    case Index(i) => "[" + NatToDecimal(i) + "]"
    case AnyIndex => "[]"
    case Key(k) => if first then k else "." + k
    case Glob => if first then "**" else ".**"
  }

  /** All segments after the first, each in its non-leading form. */
  function RenderTail(p: Path): string {
    if p == [] then "" else RenderSegment(p[0], false) + RenderTail(p[1..])
  }

  /** The display string of a path, such as `users[0].hobbies[1]`. */
  function RenderPath(p: Path): string {
    if p == [] then "" else RenderSegment(p[0], true) + RenderTail(p[1..])
  }

  predicate NonEmpty(s: string) {
    |s| > 0
  }

  /** `collectAllPaths(obj, currentPath)`: the display string of every node
      below the root, in pre-order, with empty strings removed whenever `obj`
      is a container. */
  function CollectAllPaths(v: Json, cur: Path): (r: seq<string>)
    ensures IsContainer(v) || |cur| == 0 ==> forall i :: 0 <= i < |r| ==> |r[i]| > 0
    decreases v
  {
    var here := if |cur| > 0 then [RenderPath(cur)] else [];
    match v
    case Arr(items) => Filter(here + CollectItemPaths(items, cur, 0), NonEmpty)
    case Obj(ms) => Filter(here + CollectMemberPaths(ms, cur), NonEmpty)
    case _ => here
  }

  function CollectItemPaths(items: seq<Json>, cur: Path, start: nat): seq<string>
    decreases items
  {
    if items == [] then []
    else CollectAllPaths(items[0], cur + [Index(start)]) + CollectItemPaths(items[1..], cur, start + 1)
  }

  function CollectMemberPaths(ms: seq<Member>, cur: Path): seq<string>
    decreases ms
  {
    if ms == [] then []
    else CollectAllPaths(ms[0].value, cur + [Key(ms[0].key)]) + CollectMemberPaths(ms[1..], cur)
  }

  /** The display strings listed are those of the pre-order node enumeration,
      non-empty ones only. */
  lemma {:induction false} CollectAllPathsIsNodePaths(v: Json, cur: Path)
    ensures Filter(CollectAllPaths(v, cur), NonEmpty) == Filter(Map(NodePaths(v, cur), RenderPath), NonEmpty)
    decreases v, 1
  {
    match v
    case Arr(items) => ArrPathsAreNodePaths(items, cur);
    case Obj(ms) => ObjPathsAreNodePaths(ms, cur);
    case _ => ScalarPathsAreNodePaths(v, cur);
  }

  lemma {:induction false} ArrPathsAreNodePaths(items: seq<Json>, cur: Path)
    ensures Filter(CollectAllPaths(Arr(items), cur), NonEmpty) == Filter(Map(NodePaths(Arr(items), cur), RenderPath), NonEmpty)
    decreases items, 1
  {
    var here := if |cur| > 0 then [RenderPath(cur)] else [];
    assert CollectAllPaths(Arr(items), cur) == Filter(here + CollectItemPaths(items, cur, 0), NonEmpty);
    assert NodePaths(Arr(items), cur) == [cur] + ItemNodePaths(items, cur, 0);
    CollectItemPathsIsNodePaths(items, cur, 0);
    CombineStep(here, CollectItemPaths(items, cur, 0), cur, ItemNodePaths(items, cur, 0));
  }

  lemma {:induction false} ObjPathsAreNodePaths(ms: seq<Member>, cur: Path)
    ensures Filter(CollectAllPaths(Obj(ms), cur), NonEmpty) == Filter(Map(NodePaths(Obj(ms), cur), RenderPath), NonEmpty)
    decreases ms, 1
  {
    var here := if |cur| > 0 then [RenderPath(cur)] else [];
    assert CollectAllPaths(Obj(ms), cur) == Filter(here + CollectMemberPaths(ms, cur), NonEmpty);
    assert NodePaths(Obj(ms), cur) == [cur] + MemberNodePaths(ms, cur);
    CollectMemberPathsIsNodePaths(ms, cur);
    CombineStep(here, CollectMemberPaths(ms, cur), cur, MemberNodePaths(ms, cur));
  }

  lemma ScalarPathsAreNodePaths(v: Json, cur: Path)
    requires !IsContainer(v)
    ensures Filter(CollectAllPaths(v, cur), NonEmpty) == Filter(Map(NodePaths(v, cur), RenderPath), NonEmpty)
  {
    var here := if |cur| > 0 then [RenderPath(cur)] else [];
    assert CollectAllPaths(v, cur) == here;
    assert NodePaths(v, cur) == [cur] + [];
    CombineStep(here, [], cur, []);
    FilterTwice(here, NonEmpty);
    assert here + [] == here;
  }

  /** One level of the enumeration: the node itself, then what lies below. */
  lemma CombineStep(here: seq<string>, below: seq<string>, cur: Path, belowNodes: seq<Path>)
    requires here == if |cur| > 0 then [RenderPath(cur)] else []
    requires Filter(below, NonEmpty) == Filter(Map(belowNodes, RenderPath), NonEmpty)
    ensures Filter(Filter(here + below, NonEmpty), NonEmpty) == Filter(Map([cur] + belowNodes, RenderPath), NonEmpty)
  {
    var h := Filter([RenderPath(cur)], NonEmpty);
    assert Filter(here, NonEmpty) == h by {
      if |cur| == 0 {
        assert RenderPath(cur) == "";
      }
    }
    FilterTwice(here + below, NonEmpty);
    FilterAppend(here, below, NonEmpty);
    MapAppend([cur], belowNodes, RenderPath);
    assert Map([cur], RenderPath) == [RenderPath(cur)];
    FilterAppend([RenderPath(cur)], Map(belowNodes, RenderPath), NonEmpty);
  }

  lemma {:induction false} CollectItemPathsIsNodePaths(items: seq<Json>, cur: Path, start: nat)
    ensures Filter(CollectItemPaths(items, cur, start), NonEmpty) ==
            Filter(Map(ItemNodePaths(items, cur, start), RenderPath), NonEmpty)
    decreases items, 0
  {
    if items != [] {
      var step := cur + [Index(start)];
      CollectAllPathsIsNodePaths(items[0], step);
      CollectItemPathsIsNodePaths(items[1..], cur, start + 1);
      FilterAppend(CollectAllPaths(items[0], step), CollectItemPaths(items[1..], cur, start + 1), NonEmpty);
      MapAppend(NodePaths(items[0], step), ItemNodePaths(items[1..], cur, start + 1), RenderPath);
      FilterAppend(Map(NodePaths(items[0], step), RenderPath), Map(ItemNodePaths(items[1..], cur, start + 1), RenderPath), NonEmpty);
    }
  }

  lemma {:induction false} CollectMemberPathsIsNodePaths(ms: seq<Member>, cur: Path)
    ensures Filter(CollectMemberPaths(ms, cur), NonEmpty) ==
            Filter(Map(MemberNodePaths(ms, cur), RenderPath), NonEmpty)
    decreases ms, 0
  {
    if ms != [] {
      var step := cur + [Key(ms[0].key)];
      CollectAllPathsIsNodePaths(ms[0].value, step);
      CollectMemberPathsIsNodePaths(ms[1..], cur);
      FilterAppend(CollectAllPaths(ms[0].value, step), CollectMemberPaths(ms[1..], cur), NonEmpty);
      MapAppend(NodePaths(ms[0].value, step), MemberNodePaths(ms[1..], cur), RenderPath);
      FilterAppend(Map(NodePaths(ms[0].value, step), RenderPath), Map(MemberNodePaths(ms[1..], cur), RenderPath), NonEmpty);
    }
  }

  /** From the root, `collectAllPaths` is exactly the non-empty display
      strings of the pre-order node enumeration. */
  lemma CollectAllPathsFromRoot(v: Json)
    ensures CollectAllPaths(v, []) == Filter(Map(NodePaths(v, []), RenderPath), NonEmpty)
  {
    CollectAllPathsIsNodePaths(v, []);
    FilterNonEmptyNoop(CollectAllPaths(v, []));
  }

  lemma {:induction false} FilterNonEmptyNoop(s: seq<string>)
    requires forall i :: 0 <= i < |s| ==> |s[i]| > 0
    ensures Filter(s, NonEmpty) == s
  {
    if s != [] {
      FilterNonEmptyNoop(s[1..]);
      assert s == [s[0]] + s[1..];
    }
  }

  // ---------------------------------------------------------------------------
  // Display-path parsing and lookup

  /** A key that the display-path parser reads back as itself. */
  predicate DisplayKey(k: string) {
    |k| > 0 && '.' !in k && '[' !in k
  }

  /** Concrete paths made of display keys and indices. */
  predicate DisplayPath(p: Path) {
    forall i :: 0 <= i < |p| ==> p[i].Index? || (p[i].Key? && DisplayKey(p[i].name))
  }

  /** The number of characters before the first `c` (all of `s` if none). */
  function CountUntil(s: string, c: char): (r: nat)
    ensures r <= |s|
    ensures c !in s[..r]
    ensures r < |s| ==> s[r] == c
  {
    if s == [] || s[0] == c then 0
    else
      var r := CountUntil(s[1..], c);
      assert s[..r + 1] == [s[0]] + s[1..][..r];
      r + 1
  }

  /** The pending key, if any (`if (current) parts.push(current)`). */
  function Flush(current: string): Path {
    if current == "" then [] else [Key(current)]
  }

  /** The character loop of `parseNewPathFormat` from position 0 of `s` with
      `current` accumulated so far: `.` ends a key, `[` ends a key and reads
      up to `]`, keeping the bracket contents only when they are a number. */
  function ParseFrom(s: string, current: string): (r: Path)
    ensures IsConcrete(r)
    ensures '.' !in current && '[' !in current ==> DisplayPath(r)
    decreases |s|
  {
    if s == [] then Flush(current)
    else if s[0] == '.' then Flush(current) + ParseFrom(s[1..], "")
    else if s[0] == '[' then
      var n := CountUntil(s[1..], ']');
      var inner := s[1..1 + n];
      var next := if 1 + n < |s| then 2 + n else |s|;
      Flush(current) + (if IsNumeral(inner) then [Index(ParseNat(inner))] else []) + ParseFrom(s[next..], "")
    else
      assert forall c :: c in current + [s[0]] ==> c in current || c == s[0];
      ParseFrom(s[1..], current + [s[0]])
  }

  /** `parseNewPathFormat`: a display string back to keys and indices. Every
      key it produces is non-empty and free of `.` and `[`. */
  function ParseNewPathFormat(s: string): (r: Path)
    ensures IsConcrete(r)
    ensures DisplayPath(r)
  {
    ParseFrom(s, "")
  }

  /** Characters that are neither `.` nor `[` only extend the pending key. */
  lemma {:induction false} ParseFromPlain(k: string, rest: string, current: string)
    requires '.' !in k && '[' !in k
    ensures ParseFrom(k + rest, current) == ParseFrom(rest, current + k)
    decreases |k|
  {
    if k == [] {
      assert k + rest == rest && current + k == current;
    } else {
      assert k[0] in k;
      assert (k + rest)[0] == k[0] && (k + rest)[1..] == k[1..] + rest;
      ParseFromPlain(k[1..], rest, current + [k[0]]);
      assert current + [k[0]] + k[1..] == current + k;
    }
  }

  /** A `.` ends the pending key. */
  lemma ParseFromDot(rest: string, current: string)
    ensures ParseFrom("." + rest, current) == Flush(current) + ParseFrom(rest, "")
  {
    assert ("." + rest)[1..] == rest;
  }

  /** A bracketed decimal index is read back as that index. */
  lemma ParseFromIndex(i: nat, rest: string, current: string)
    ensures ParseFrom("[" + NatToDecimal(i) + "]" + rest, current) ==
            Flush(current) + [Index(i)] + ParseFrom(rest, "")
  {
    var d := NatToDecimal(i);
    var s := "[" + d + "]" + rest;
    assert s[0] == '[';
    assert s[1..] == d + ("]" + rest);
    assert ']' !in d by {
      assert forall j :: 0 <= j < |d| ==> IsDigit(d[j]);
    }
    CountUntilAfter(d, ']', "]" + rest);
    assert CountUntil(s[1..], ']') == |d|;
    assert s[1..1 + |d|] == d;
    assert 1 + |d| < |s|;
    assert s[2 + |d|..] == rest;
  }

  lemma {:induction false} CountUntilAfter(a: string, c: char, b: string)
    requires c !in a && |b| > 0 && b[0] == c
    ensures CountUntil(a + b, c) == |a|
    decreases |a|
  {
    if a != [] {
      assert a[0] in a;
      assert (a + b)[0] == a[0] && (a + b)[1..] == a[1..] + b;
      CountUntilAfter(a[1..], c, b);
    } else {
      assert a + b == b;
    }
  }

  lemma TailDisplay(q: Path)
    requires DisplayPath(q) && q != []
    ensures DisplayPath(q[1..])
  {
    assert forall i :: 0 <= i < |q[1..]| ==> q[1..][i] == q[i + 1];
  }

  /** Reading the non-leading segments back, after a pending key. */
  lemma {:induction false} ParseRenderTail(q: Path, current: string)
    requires DisplayPath(q)
    ensures ParseFrom(RenderTail(q), current) == Flush(current) + q
    decreases |q|
  {
    if q != [] {
      TailDisplay(q);
      var t := RenderTail(q[1..]);
      if q[0].Index? {
        ParseRenderTail(q[1..], "");
        IndexTailStep(q, current);
      } else {
        var k := q[0].name;
        assert RenderTail(q) == "." + (k + t);
        ParseFromDot(k + t, current);
        ParseFromPlain(k, t, "");
        assert "" + k == k;
        ParseRenderTail(q[1..], k);
        assert q == [Key(k)] + q[1..];
      }
    }
  }

  lemma IndexTailStep(q: Path, current: string)
    requires q != [] && q[0].Index?
    requires ParseFrom(RenderTail(q[1..]), "") == q[1..]
    ensures ParseFrom(RenderTail(q), current) == Flush(current) + q
  {
    var i := q[0].index;
    var rest := q[1..];
    TailOfIndex(q);
    IndexThenTail(i, RenderTail(rest), rest, current);
    assert [Index(i)] + rest == q;
  }

  /** A path starting with an index is written as the bracketed index and
      the rest. */
  lemma TailOfIndex(q: Path)
    requires q != [] && q[0].Index?
    ensures RenderTail(q) == "[" + NatToDecimal(q[0].index) + "]" + RenderTail(q[1..])
  {
  }

  lemma IndexThenTail(i: nat, t: string, rest: Path, current: string)
    requires ParseFrom(t, "") == rest
    ensures ParseFrom("[" + NatToDecimal(i) + "]" + t, current) == Flush(current) + ([Index(i)] + rest)
  {
    ParseFromIndex(i, t, current);
  }

  /** Display strings are read back as the path they display. */
  lemma ParseDisplayRoundTrip(q: Path)
    requires DisplayPath(q)
    ensures ParseNewPathFormat(RenderPath(q)) == q
  {
    if q != [] {
      TailDisplay(q);
      if q[0].Index? {
        ParseRenderTail(q[1..], "");
        IndexTailStep(q, "");
        assert RenderPath(q) == RenderTail(q);
      } else {
        var k := q[0].name;
        ParseFromPlain(k, RenderTail(q[1..]), "");
        ParseRenderTail(q[1..], "" + k);
        assert "" + k == k;
        assert q == [Key(k)] + q[1..];
      }
    }
  }

  /** The lookup loop of `getValueByPath`: stop with `undefined` when the
      current value is `null` or `undefined` before a step. */
  function Walk(cur: Option<Json>, parts: Path): Option<Json>
    decreases |parts|
  {
    if parts == [] then cur
    else if cur.None? || cur.value.Null? then None
    else Walk(Child(cur.value, parts[0]), parts[1..])
  }

  /** `getValueByPath`. */
  function GetValueByPath(v: Json, path: string): (r: Option<Json>)
    ensures r == Lookup(v, ParseNewPathFormat(path))
  {
    WalkIsLookup(v, ParseNewPathFormat(path));
    Walk(Some(v), ParseNewPathFormat(path))
  }

  /** The loop computes the path lookup. */
  lemma {:induction false} WalkIsLookup(v: Json, parts: Path)
    ensures Walk(Some(v), parts) == Lookup(v, parts)
    decreases |parts|
  {
    if parts != [] && !v.Null? {
      match Child(v, parts[0])
      case None =>
        assert Walk(Some(v), parts) == Walk(None, parts[1..]);
        if parts[1..] != [] {
          assert Walk(None, parts[1..]) == None;
        }
      case Some(c) =>
        WalkIsLookup(c, parts[1..]);
    }
  }

  /** Reading a value by the display string of a path is the path lookup. */
  lemma GetValueByRenderedPath(v: Json, q: Path)
    requires DisplayPath(q)
    ensures GetValueByPath(v, RenderPath(q)) == Lookup(v, q)
  {
    ParseDisplayRoundTrip(q);
  }

  // ---------------------------------------------------------------------------
  // Every listed path reads back

  /** Every key of every object in `v` is a display key. */
  predicate DisplayKeys(v: Json)
    decreases v
  {
    match v
    case Arr(items) => forall i :: 0 <= i < |items| ==> DisplayKeys(items[i])
    case Obj(ms) => forall i :: 0 <= i < |ms| ==> DisplayKey(ms[i].key) && DisplayKeys(ms[i].value)
    case _ => true
  }

  /** Under display keys, every enumerated node path is a display path. */
  lemma {:induction false} NodePathsDisplay(v: Json, cur: Path)
    requires DisplayKeys(v) && DisplayPath(cur)
    ensures forall i :: 0 <= i < |NodePaths(v, cur)| ==> DisplayPath(NodePaths(v, cur)[i])
    decreases v, 1
  {
    match v
    case Arr(items) => ItemNodePathsDisplay(items, cur, 0);
    case Obj(ms) => MemberNodePathsDisplay(ms, cur);
    case _ =>
  }

  lemma {:induction false} ItemNodePathsDisplay(items: seq<Json>, cur: Path, start: nat)
    requires forall i :: 0 <= i < |items| ==> DisplayKeys(items[i])
    requires DisplayPath(cur)
    ensures forall i :: 0 <= i < |ItemNodePaths(items, cur, start)| ==> DisplayPath(ItemNodePaths(items, cur, start)[i])
    decreases items, 0
  {
    if items != [] {
      NodePathsDisplay(items[0], cur + [Index(start)]);
      ItemNodePathsDisplay(items[1..], cur, start + 1);
    }
  }

  lemma {:induction false} MemberNodePathsDisplay(ms: seq<Member>, cur: Path)
    requires forall i :: 0 <= i < |ms| ==> DisplayKey(ms[i].key) && DisplayKeys(ms[i].value)
    requires DisplayPath(cur)
    ensures forall i :: 0 <= i < |MemberNodePaths(ms, cur)| ==> DisplayPath(MemberNodePaths(ms, cur)[i])
    decreases ms, 0
  {
    if ms != [] {
      NodePathsDisplay(ms[0].value, cur + [Key(ms[0].key)]);
      MemberNodePathsDisplay(ms[1..], cur);
    }
  }

  /** Each string `collectAllPaths` lists is the display string of a node
      path of the value, and reading the value by it finds that node. */
  lemma CollectedPathsResolve(v: Json, s: string)
    requires Wf(v) && DisplayKeys(v)
    requires s in CollectAllPaths(v, [])
    ensures exists q :: q in NodePaths(v, []) && q != [] && RenderPath(q) == s && GetValueByPath(v, s) == Lookup(v, q)
    ensures GetValueByPath(v, s).Some?
  {
    var qs := NodePaths(v, []);
    var q := CollectedNodePath(v, s);
    assert DisplayPath(q) by {
      NodePathsDisplay(v, []);
    }
    assert GetValueByPath(v, s) == Lookup(v, q) by {
      GetValueByRenderedPath(v, q);
    }
    assert Lookup(v, q).Some? by {
      assert [] + q == q;
      NodePathsExist(v, [], q);
    }
  }

  /** The node path behind a collected string. */
  lemma CollectedNodePath(v: Json, s: string) returns (q: Path)
    requires s in CollectAllPaths(v, [])
    ensures q in NodePaths(v, []) && q != [] && RenderPath(q) == s
  {
    CollectAllPathsFromRoot(v);
    var qs := NodePaths(v, []);
    var i :| 0 <= i < |qs| && Map(qs, RenderPath)[i] == s;
    q := qs[i];
    assert q != [] by {
      assert RenderPath([]) == "";
    }
  }
}

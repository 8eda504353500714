/** The value model of the toolkit: plain JSON values, the path elements of
    `src/utils/types.ts`, JavaScript `undefined` (as `None`) and the
    normal-or-thrown outcome of a JavaScript expression. */
module Json {

  import opened Seqs

  /** A JavaScript value that may be `undefined` (`None`). */
  datatype Option<+T> = None | Some(value: T) {
    function GetOr(default: T): T {
      match this
      case Some(v) => v
      case None => default
    }
  }

  /** The outcome of evaluating an expression that may throw a `TypeError`. */
  datatype Completion<+T> = Normal(value: T) | TypeError

  /** A plain JSON value. Numbers are integers; objects are member lists in
      enumeration order. */
  datatype Json =
    | Null
    | Bool(b: bool)
    | Num(n: int)
    | Str(s: string)
    | Arr(items: seq<Json>)
    | Obj(members: seq<Member>)

  datatype Member = Member(key: string, value: Json)

  /** One path step (`PathElement`): a property name, an array index, the
      unindexed-array wildcard (`null`, written `[]` or `[*]`) or the deep
      wildcard (`"**"`). */
  datatype PathElement = Key(name: string) | Index(index: nat) | AnyIndex | Glob

  type Path = seq<PathElement>

  /** `typeof v === 'object' && v !== null`. */
  predicate IsContainer(v: Json) {
    v.Arr? || v.Obj?
  }

  /** A path addressing one location: only keys and indices. */
  predicate IsConcrete(p: Path) {
    forall i :: 0 <= i < |p| ==> p[i].Key? || p[i].Index?
  }

  /** `path.includes('**')`. */
  predicate HasGlob(p: Path) {
    Glob in p
  }

  predicate UniqueKeys(ms: seq<Member>) {
    forall i, j :: 0 <= i < j < |ms| ==> ms[i].key != ms[j].key
  }

  /** Every object, at every depth, has distinct keys (as JavaScript objects
      always do). */
  predicate Wf(v: Json) {
    match v
    case Arr(items) => WfItems(items)
    case Obj(ms) => UniqueKeys(ms) && WfMembers(ms)
    case _ => true
  }

  predicate WfItems(items: seq<Json>) {
    forall i :: 0 <= i < |items| ==> Wf(items[i])
  }

  predicate WfMembers(ms: seq<Member>) {
    forall i :: 0 <= i < |ms| ==> Wf(ms[i].value)
  }

  /** `key in obj` for a plain object. */
  predicate HasKey(ms: seq<Member>, k: string) {
    exists i :: 0 <= i < |ms| && ms[i].key == k
  }

  /** The position of the first member named `k`, or -1. */
  function FindIndex(ms: seq<Member>, k: string): (r: int)
    ensures -1 <= r < |ms|
    ensures r >= 0 ==> ms[r].key == k && forall j :: 0 <= j < r ==> ms[j].key != k
    ensures r < 0 <==> !HasKey(ms, k)
  {
    if ms == [] then -1
    else if ms[0].key == k then 0
    else
      var r := FindIndex(ms[1..], k);
      assert forall j :: 1 <= j < |ms| ==> ms[j] == ms[1..][j - 1];
      if r < 0 then -1 else r + 1
  }

  /** `obj[k]` for a plain object: the value of the member named `k`. */
  function Find(ms: seq<Member>, k: string): (r: Option<Json>)
    ensures r.Some? <==> HasKey(ms, k)
  {
    var i := FindIndex(ms, k);
    if i < 0 then None else Some(ms[i].value)
  }

  /** In an object with distinct keys, a key finds its own member. */
  lemma FindUnique(ms: seq<Member>, i: int)
    requires UniqueKeys(ms) && 0 <= i < |ms|
    ensures FindIndex(ms, ms[i].key) == i
    ensures Find(ms, ms[i].key) == Some(ms[i].value)
  {
  }

  /** One property access `v[s]` on a JSON value: a key of an object or an
      in-range index of an array; anything else is `undefined`. */
  function Child(v: Json, s: PathElement): (r: Option<Json>)
    ensures r.Some? ==> (v.Obj? && s.Key?) || (v.Arr? && s.Index?)
  {
    match v
    case Obj(ms) => if s.Key? then Find(ms, s.name) else None
    case Arr(items) => if s.Index? && s.index < |items| then Some(items[s.index]) else None
    case _ => None
  }

  /** The value at concrete path `p`, if every step exists. */
  function Lookup(v: Json, p: Path): Option<Json>
    decreases |p|
  {
    if p == [] then Some(v)
    else
      match Child(v, p[0])
      case None => None
      case Some(c) => Lookup(c, p[1..])
  }

  /** The paths of every node of `v` (itself first), prefixed by `cur`, in
      pre-order: the traversal order of `collectMatchingPaths` and
      `collectAllPaths` (array elements by index, object members in
      enumeration order). */
  function NodePaths(v: Json, cur: Path): (r: seq<Path>)
    ensures |r| >= 1 && r[0] == cur
    ensures forall i :: 0 <= i < |r| ==> |r[i]| >= |cur| && r[i][..|cur|] == cur
    decreases v
  {
    [cur] +
    match v
    case Arr(items) => ItemNodePaths(items, cur, 0)
    case Obj(ms) => MemberNodePaths(ms, cur)
    case _ => []
  }

  function ItemNodePaths(items: seq<Json>, cur: Path, start: nat): (r: seq<Path>)
    ensures forall i :: 0 <= i < |r| ==> |r[i]| > |cur| && r[i][..|cur|] == cur
    decreases items
  {
    if items == [] then []
    else
      var here := NodePaths(items[0], cur + [Index(start)]);
      assert forall i :: 0 <= i < |here| ==> here[i][..|cur|] == (cur + [Index(start)])[..|cur|];
      here + ItemNodePaths(items[1..], cur, start + 1)
  }

  function MemberNodePaths(ms: seq<Member>, cur: Path): (r: seq<Path>)
    ensures forall i :: 0 <= i < |r| ==> |r[i]| > |cur| && r[i][..|cur|] == cur
    decreases ms
  {
    if ms == [] then []
    else
      var here := NodePaths(ms[0].value, cur + [Key(ms[0].key)]);
      assert forall i :: 0 <= i < |here| ==> here[i][..|cur|] == (cur + [Key(ms[0].key)])[..|cur|];
      here + MemberNodePaths(ms[1..], cur)
  }

  /** The number of nodes of a value. */
  function NodeCount(v: Json): nat
    decreases v
  {
    1 +
    match v
    case Arr(items) => ItemsNodeCount(items)
    case Obj(ms) => MembersNodeCount(ms)
    case _ => 0
  }

  function ItemsNodeCount(items: seq<Json>): nat
    decreases items
  {
    if items == [] then 0 else NodeCount(items[0]) + ItemsNodeCount(items[1..])
  }

  function MembersNodeCount(ms: seq<Member>): nat
    decreases ms
  {
    if ms == [] then 0 else NodeCount(ms[0].value) + MembersNodeCount(ms[1..])
  }

  /** The pre-order enumeration lists one path per node. */
  lemma {:induction false} NodePathsCount(v: Json, cur: Path)
    ensures |NodePaths(v, cur)| == NodeCount(v)
    decreases v, 1
  {
    match v
    case Arr(items) => ItemNodePathsCount(items, cur, 0);
    case Obj(ms) => MemberNodePathsCount(ms, cur);
    case _ =>
  }

  lemma {:induction false} ItemNodePathsCount(items: seq<Json>, cur: Path, start: nat)
    ensures |ItemNodePaths(items, cur, start)| == ItemsNodeCount(items)
    decreases items, 0
  {
    if items != [] {
      NodePathsCount(items[0], cur + [Index(start)]);
      ItemNodePathsCount(items[1..], cur, start + 1);
    }
  }

  lemma {:induction false} MemberNodePathsCount(ms: seq<Member>, cur: Path)
    ensures |MemberNodePaths(ms, cur)| == MembersNodeCount(ms)
    decreases ms, 0
  {
    if ms != [] {
      NodePathsCount(ms[0].value, cur + [Key(ms[0].key)]);
      MemberNodePathsCount(ms[1..], cur);
    }
  }

  /** A path that does not start with `step` is not among paths that all do. */
  lemma NotUnderStep(here: seq<Path>, step: Path, x: Path)
    requires forall i :: 0 <= i < |here| ==> |here[i]| >= |step| && here[i][..|step|] == step
    requires |x| >= |step| && x[..|step|] != step
    ensures x !in here
  {
  }

  /** The pre-order enumeration lists exactly the paths that lead to a node:
      `q` is enumerated under prefix `cur` iff `cur + q` looks up to a value. */
  lemma {:induction false} NodePathsExist(v: Json, cur: Path, q: Path)
    requires Wf(v)
    ensures cur + q in NodePaths(v, cur) <==> Lookup(v, q).Some?
    decreases v, 1
  {
    if q == [] {
      assert cur + q == cur;
    } else {
      assert cur + q != cur;
      match v
      case Arr(items) =>
        ItemNodePathsExist(items, cur, 0, q);
        if q[0].Index? && q[0].index < |items| {
          assert Lookup(v, q) == Lookup(items[q[0].index], q[1..]);
        }
      case Obj(ms) =>
        MemberNodePathsExist(ms, cur, q);
        if q[0].Key? && HasKey(ms, q[0].name) {
          var i := FindIndex(ms, q[0].name);
          assert Lookup(v, q) == Lookup(ms[i].value, q[1..]);
        }
      case _ =>
    }
  }

  lemma {:induction false} ItemNodePathsExist(items: seq<Json>, cur: Path, start: nat, q: Path)
    requires WfItems(items) && q != []
    ensures cur + q in ItemNodePaths(items, cur, start) <==>
      q[0].Index? && start <= q[0].index < start + |items| && Lookup(items[q[0].index - start], q[1..]).Some?
    decreases items, 0
  {
    if items != [] {
      var step := cur + [Index(start)];
      var here := NodePaths(items[0], step);
      ItemNodePathsExist(items[1..], cur, start + 1, q);
      assert WfItems(items[1..]) by {
        assert forall i :: 0 <= i < |items[1..]| ==> items[1..][i] == items[i + 1];
      }
      if q[0] == Index(start) {
        assert cur + q == step + q[1..];
        NodePathsExist(items[0], step, q[1..]);
      } else {
        assert (cur + q)[..|step|][|cur|] == q[0];
        NotUnderStep(here, step, cur + q);
      }
      if q[0].Index? && start + 1 <= q[0].index < start + |items| {
        assert items[q[0].index - start] == items[1..][q[0].index - (start + 1)];
      }
    }
  }

  lemma {:induction false} MemberNodePathsExist(ms: seq<Member>, cur: Path, q: Path)
    requires UniqueKeys(ms) && WfMembers(ms) && q != []
    ensures cur + q in MemberNodePaths(ms, cur) <==>
      q[0].Key? && HasKey(ms, q[0].name) && Lookup(ms[FindIndex(ms, q[0].name)].value, q[1..]).Some?
    decreases ms, 1
  {
    if ms != [] {
      MembersTailWf(ms);
      MemberNodePathsExist(ms[1..], cur, q);
      if q[0] == Key(ms[0].key) {
        FirstMemberNodePaths(ms, cur, q);
      } else {
        LaterMemberExists(ms, cur, q);
      }
    }
  }

  lemma MembersTailWf(ms: seq<Member>)
    requires UniqueKeys(ms) && WfMembers(ms) && ms != []
    ensures UniqueKeys(ms[1..]) && WfMembers(ms[1..]) && Wf(ms[0].value)
  {
    assert forall i :: 0 <= i < |ms[1..]| ==> ms[1..][i] == ms[i + 1];
  }

  /** A path through the first member exists exactly when the rest of it
      exists below that member. */
  lemma {:induction false} FirstMemberNodePaths(ms: seq<Member>, cur: Path, q: Path)
    requires UniqueKeys(ms) && WfMembers(ms) && ms != [] && q != [] && q[0] == Key(ms[0].key)
    ensures cur + q in MemberNodePaths(ms, cur) <==> Lookup(ms[FindIndex(ms, q[0].name)].value, q[1..]).Some?
    decreases ms, 0
  {
    MembersTailWf(ms);
    FirstMemberExists(ms, cur, q);
    assert cur + q == cur + [Key(ms[0].key)] + q[1..];
    NodePathsExist(ms[0].value, cur + [Key(ms[0].key)], q[1..]);
  }

  /** The path goes through the first member. */
  lemma FirstMemberExists(ms: seq<Member>, cur: Path, q: Path)
    requires UniqueKeys(ms) && ms != [] && q != [] && q[0] == Key(ms[0].key)
    ensures cur + q in MemberNodePaths(ms, cur) <==> cur + q in NodePaths(ms[0].value, cur + [Key(ms[0].key)])
    ensures FindIndex(ms, q[0].name) == 0
  {
    var rest := MemberNodePaths(ms[1..], cur);
    assert forall i :: 0 <= i < |rest| ==> rest[i][..|cur|] == cur;
    assert cur + q !in rest by {
      assert !HasKey(ms[1..], ms[0].key) by {
        assert forall i :: 0 <= i < |ms[1..]| ==> ms[1..][i] == ms[i + 1];
      }
      NotInLaterMembers(ms[1..], cur, q);
    }
  }

  /** Paths below later members never start with a key they lack. */
  lemma {:induction false} NotInLaterMembers(ms: seq<Member>, cur: Path, q: Path)
    requires q != [] && q[0].Key? && !HasKey(ms, q[0].name)
    ensures cur + q !in MemberNodePaths(ms, cur)
    decreases ms
  {
    if ms != [] {
      var step := cur + [Key(ms[0].key)];
      assert (cur + q)[..|step|][|cur|] == q[0];
      NotUnderStep(NodePaths(ms[0].value, step), step, cur + q);
      assert !HasKey(ms[1..], q[0].name) by {
        assert forall i :: 0 <= i < |ms[1..]| ==> ms[1..][i] == ms[i + 1];
      }
      NotInLaterMembers(ms[1..], cur, q);
    }
  }

  /** The path does not go through the first member. */
  lemma LaterMemberExists(ms: seq<Member>, cur: Path, q: Path)
    requires UniqueKeys(ms) && ms != [] && q != [] && q[0] != Key(ms[0].key)
    ensures cur + q in MemberNodePaths(ms, cur) <==> cur + q in MemberNodePaths(ms[1..], cur)
    ensures q[0].Key? && HasKey(ms, q[0].name) ==>
      HasKey(ms[1..], q[0].name) && FindIndex(ms, q[0].name) == FindIndex(ms[1..], q[0].name) + 1
    ensures q[0].Key? && !HasKey(ms, q[0].name) ==> !HasKey(ms[1..], q[0].name)
  {
    var step := cur + [Key(ms[0].key)];
    assert (cur + q)[..|step|][|cur|] == q[0];
    NotUnderStep(NodePaths(ms[0].value, step), step, cur + q);
    if q[0].Key? && HasKey(ms, q[0].name) {
      var j :| 0 <= j < |ms| && ms[j].key == q[0].name;
      assert j > 0 && ms[1..][j - 1] == ms[j];
    }
    if q[0].Key? && HasKey(ms[1..], q[0].name) {
      var j :| 0 <= j < |ms[1..]| && ms[1..][j].key == q[0].name;
      assert ms[j + 1] == ms[1..][j];
    }
  }

  /** Every enumerated node path below a concrete prefix is concrete. */
  lemma {:induction false} NodePathsConcrete(v: Json, cur: Path)
    requires IsConcrete(cur)
    ensures forall q :: q in NodePaths(v, cur) ==> IsConcrete(q)
    decreases v, 1
  {
    match v
    case Arr(items) => ItemNodePathsConcrete(items, cur, 0);
    case Obj(ms) => MemberNodePathsConcrete(ms, cur);
    case _ =>
  }

  lemma {:induction false} ItemNodePathsConcrete(items: seq<Json>, cur: Path, start: nat)
    requires IsConcrete(cur)
    ensures forall q :: q in ItemNodePaths(items, cur, start) ==> IsConcrete(q)
    decreases items, 0
  {
    if items != [] {
      assert IsConcrete(cur + [Index(start)]);
      NodePathsConcrete(items[0], cur + [Index(start)]);
      ItemNodePathsConcrete(items[1..], cur, start + 1);
    }
  }

  lemma {:induction false} MemberNodePathsConcrete(ms: seq<Member>, cur: Path)
    requires IsConcrete(cur)
    ensures forall q :: q in MemberNodePaths(ms, cur) ==> IsConcrete(q)
    decreases ms, 0
  {
    if ms != [] {
      assert IsConcrete(cur + [Key(ms[0].key)]);
      NodePathsConcrete(ms[0].value, cur + [Key(ms[0].key)]);
      MemberNodePathsConcrete(ms[1..], cur);
    }
  }
}

/** The field-scoped merges of `src/utils/fieldOperations.ts`: include mode
    (`mergeFieldsDeep`), exclude mode (`omitMergeFieldsDeep`) and their entry
    point `mergeFieldsSuper`. A patch value that is absent (`undefined`) is
    `None`; the warnings the merges log change no result and are not
    modelled. */
module FieldMerge {

  import opened Seqs
  import opened Text
  import opened Json
  import opened Utils
  import opened PathUtils
  import opened FieldOperations

  /** `value?.[s]`: one property access on a value that may be absent. */
  function Access(x: Option<Json>, s: PathElement): Option<Json> {
    if x.Some? then Child(x.value, s) else None
  }

  /** Two member lists with the same key at every position find every key at
      the same position. */
  lemma {:induction false} SameKeysFindIndex(a: seq<Member>, b: seq<Member>, k: string)
    requires |a| == |b| && forall i :: 0 <= i < |a| ==> a[i].key == b[i].key
    ensures FindIndex(a, k) == FindIndex(b, k)
  {
    if a != [] && a[0].key != k {
      SameKeysFindIndex(a[1..], b[1..], k);
    }
  }

  /** Looking up a key of `a` in `a + b` finds it in `a`. */
  lemma FindPrefix(a: seq<Member>, b: seq<Member>, j: nat)
    requires j < |a| && FindIndex(a, a[j].key) == j
    ensures Find(a + b, a[j].key) == Some(a[j].value)
  {
    FindAppend(a, b, a[j].key);
  }

  // ---------------------------------------------------------------------------
  // Include mode

  /** Every step of `path` is allowed by the include path `ip`: equal, or
      `null` there, which in this check matches keys as well as indices. */
  predicate PrefixAgrees(path: Path, ip: Path)
    requires |path| <= |ip|
  {
    forall i :: 0 <= i < |path| ==> ip[i] == AnyIndex || ip[i] == path[i]
  }

  /** `shouldProcessCurrentPath`: `path` matches a `**` include pattern, or is
      a prefix (possibly all) of a plain include path. */
  predicate ProcessCurrent(path: Path, includes: seq<Path>) {
    exists ip :: ip in includes &&
      if HasGlob(ip) then IsPathMatch(path, ip) else |ip| >= |path| && PrefixAgrees(path, ip)
  }

  /** `shouldProcessDeeper`: some include path holds `**` (which turns all
      pruning off), or a plain include path strictly extends `path`. */
  predicate ProcessDeeper(path: Path, includes: seq<Path>) {
    exists ip :: ip in includes && (HasGlob(ip) || (|ip| > |path| && PrefixAgrees(path, ip)))
  }

  /** The merge descends into the child at `path`. */
  predicate Visits(path: Path, includes: seq<Path>) {
    ProcessDeeper(path, includes) || ProcessCurrent(path, includes)
  }

  /** `mergeFieldsDeep`: `origin` with the included fields taken from `patch`.
      A scalar takes the patch value when its own path is included, and
      otherwise keeps its value (a deeply equal patch value is the same JSON
      value). Containers are merged child by child: a child the include
      paths lead to is merged recursively, any other child is kept. Array
      elements beyond the origin's length and object keys the origin lacks
      are taken from the patch whatever the include paths say. */
  function MergeFieldsDeep(origin: Json, patch: Option<Json>, includes: seq<Path>, cur: Path): (r: Json)
    ensures !IsContainer(origin) ==> r == origin || Some(r) == patch
    ensures !IsContainer(origin) && patch.Some? && ProcessCurrent(cur, includes) ==> Some(r) == patch
    ensures !IsContainer(origin) && !ProcessCurrent(cur, includes) ==> r == origin
    ensures origin.Arr? ==> r.Arr? && |r.items| >= |origin.items|
    ensures origin.Obj? ==> r.Obj? && |r.members| >= |origin.members|
    ensures origin.Obj? ==> forall i :: 0 <= i < |origin.members| ==> r.members[i].key == origin.members[i].key
    decreases origin, 0
  {
    match origin
    case Arr(items) => Arr(MergeItems(items, patch, includes, cur) + ExtraItems(items, patch))
    case Obj(ms) => Obj(MergeMembers(ms, patch, includes, cur) + NewMembers(ms, patch))
    case _ => MergeLeaf(origin, patch, includes, cur)
  }

  /** The scalar step: the patch value when the path is included, and
      otherwise the origin, which a deeply equal patch value already is. */
  function MergeLeaf(origin: Json, patch: Option<Json>, includes: seq<Path>, cur: Path): Json
    requires !IsContainer(origin)
  {
    if ProcessCurrent(cur, includes) then patch.GetOr(origin)
    else if patch.Some? && !IsEqual(origin, patch.value) then origin
    else
      IsEqualScalar(origin, patch.GetOr(origin));
      patch.GetOr(origin)
  }

  /** The origin's elements, each merged or kept. */
  function MergeItems(items: seq<Json>, patch: Option<Json>, includes: seq<Path>, cur: Path): (r: seq<Json>)
    ensures |r| == |items|
    decreases items, 0
  {
    seq(|items|, i requires 0 <= i < |items| => MergeItem(items[i], i, patch, includes, cur))
  }

  /** Element `i`: merged with the patch's element when the include paths
      lead to it, kept otherwise. */
  function MergeItem(item: Json, i: nat, patch: Option<Json>, includes: seq<Path>, cur: Path): Json
    decreases item, 1
  {
    if Visits(cur + [Index(i)], includes)
    then MergeFieldsDeep(item, Access(patch, Index(i)), includes, cur + [Index(i)])
    else item
  }

  /** The origin's members in order, each value merged or kept. */
  function MergeMembers(ms: seq<Member>, patch: Option<Json>, includes: seq<Path>, cur: Path): (r: seq<Member>)
    ensures |r| == |ms| && forall i :: 0 <= i < |ms| ==> r[i].key == ms[i].key
    decreases ms, 0
  {
    seq(|ms|, i requires 0 <= i < |ms| => MergeMember(ms[i], patch, includes, cur))
  }

  /** A member of the origin, its value treated as an element is. */
  function MergeMember(m: Member, patch: Option<Json>, includes: seq<Path>, cur: Path): (r: Member)
    ensures r.key == m.key
    decreases m, 1
  {
    var s := Key(m.key);
    Member(m.key, if Visits(cur + [s], includes) then MergeFieldsDeep(m.value, Access(patch, s), includes, cur + [s]) else m.value)
  }

  /** The patch's elements past the end of the origin, when the patch is a
      longer array. */
  function ExtraItems(items: seq<Json>, patch: Option<Json>): seq<Json> {
    if patch.Some? && patch.value.Arr? && |patch.value.items| > |items| then patch.value.items[|items|..] else []
  }

  /** The members of a plain-object patch whose keys the origin lacks, in the
      patch's order. */
  function NewMembers(ms: seq<Member>, patch: Option<Json>): seq<Member> {
    if IsPlainObject(patch) then Unseen(patch.value.members, ms) else []
  }

  /** The members of `ps` whose keys `ms` lacks. */
  function Unseen(ps: seq<Member>, ms: seq<Member>): (r: seq<Member>)
    ensures forall m :: m in r ==> m in ps && !HasKey(ms, m.key)
  {
    if ps == [] then []
    else (if HasKey(ms, ps[0].key) then [] else [ps[0]]) + Unseen(ps[1..], ms)
  }

  /** A key `ms` lacks is looked up in the unseen members as in `ps`. */
  lemma {:induction false} FindUnseen(ps: seq<Member>, ms: seq<Member>, k: string)
    requires !HasKey(ms, k)
    ensures Find(Unseen(ps, ms), k) == Find(ps, k)
  {
    if ps != [] {
      var h: seq<Member> := if HasKey(ms, ps[0].key) then [] else [ps[0]];
      assert Unseen(ps, ms) == h + Unseen(ps[1..], ms);
      FindUnseen(ps[1..], ms, k);
      FindAppend(h, Unseen(ps[1..], ms), k);
      FindAppend([ps[0]], ps[1..], k);
      assert [ps[0]] + ps[1..] == ps;
      if ps[0].key == k {
        assert h == [ps[0]];
      } else {
        assert !HasKey(h, k);
        assert !HasKey([ps[0]], k);
      }
    }
  }

  /** The merged child at `s`, one level down: merged with the patch's child
      when the include paths lead there, the origin's child otherwise. */
  lemma MergeChild(v: Json, patch: Option<Json>, includes: seq<Path>, cur: Path, s: PathElement)
    requires Child(v, s).Some?
    ensures Child(MergeFieldsDeep(v, patch, includes, cur), s) ==
      Some(if Visits(cur + [s], includes)
           then MergeFieldsDeep(Child(v, s).value, Access(patch, s), includes, cur + [s])
           else Child(v, s).value)
  {
    if v.Obj? {
      var ms := v.members;
      var mm := MergeMembers(ms, patch, includes, cur);
      var j := FindIndex(ms, s.name);
      SameKeysFindIndex(mm, ms, s.name);
      FindPrefix(mm, NewMembers(ms, patch), j);
      assert mm[j] == MergeMember(ms[j], patch, includes, cur);
    } else {
      var mi := MergeItems(v.items, patch, includes, cur);
      assert (mi + ExtraItems(v.items, patch))[s.index] == mi[s.index] == MergeItem(v.items[s.index], s.index, patch, includes, cur);
    }
  }

  /** Merging in an absent patch changes nothing. */
  lemma {:induction false} MergeWithoutPatch(v: Json, includes: seq<Path>, cur: Path)
    ensures MergeFieldsDeep(v, None, includes, cur) == v
    decreases v
  {
    match v
    case Arr(items) =>
      var mi := MergeItems(items, None, includes, cur);
      forall i | 0 <= i < |items|
        ensures mi[i] == items[i]
      {
        assert mi[i] == MergeItem(items[i], i, None, includes, cur);
        MergeWithoutPatch(items[i], includes, cur + [Index(i)]);
      }
      assert mi == items;
    case Obj(ms) =>
      var mm := MergeMembers(ms, None, includes, cur);
      forall i | 0 <= i < |ms|
        ensures mm[i] == ms[i]
      {
        assert mm[i] == MergeMember(ms[i], None, includes, cur);
        MergeWithoutPatch(ms[i].value, includes, cur + [Key(ms[i].key)]);
      }
      assert mm == ms;
    case _ =>
  }

  /** Merging a value with itself gives it back, whatever the include paths. */
  lemma {:induction false} MergeIdentity(v: Json, includes: seq<Path>, cur: Path)
    requires Wf(v)
    ensures MergeFieldsDeep(v, Some(v), includes, cur) == v
    decreases v
  {
    match v
    case Arr(items) =>
      var mi := MergeItems(items, Some(v), includes, cur);
      forall i | 0 <= i < |items|
        ensures mi[i] == items[i]
      {
        assert mi[i] == MergeItem(items[i], i, Some(v), includes, cur);
        MergeIdentity(items[i], includes, cur + [Index(i)]);
      }
      assert mi == items;
    case Obj(ms) =>
      var mm := MergeMembers(ms, Some(v), includes, cur);
      forall i | 0 <= i < |ms|
        ensures mm[i] == ms[i]
      {
        FindUnique(ms, i);
        assert mm[i] == MergeMember(ms[i], Some(v), includes, cur);
        MergeIdentity(ms[i].value, includes, cur + [Key(ms[i].key)]);
      }
      assert mm == ms;
      KeysPresent(ms);
      UnseenOfPresent(ms, ms);
    case _ =>
  }

  /** Every member's key is a key of its list. */
  lemma KeysPresent(ms: seq<Member>)
    ensures forall m :: m in ms ==> HasKey(ms, m.key)
  {
    forall m | m in ms
      ensures HasKey(ms, m.key)
    {
      var j :| 0 <= j < |ms| && ms[j] == m;
    }
  }

  /** Nothing is unseen when every key is already present. */
  lemma {:induction false} UnseenOfPresent(ps: seq<Member>, ms: seq<Member>)
    requires forall m :: m in ps ==> HasKey(ms, m.key)
    ensures Unseen(ps, ms) == []
  {
    if ps != [] {
      assert ps[0] in ps;
      UnseenOfPresent(ps[1..], ms);
    }
  }

  /** A key the include paths do not lead to keeps the origin's value, even
      when the patch has a scalar where the origin has an object. */
  lemma MergeKeepsUnvisited(ms: seq<Member>, patch: Option<Json>, includes: seq<Path>, cur: Path, k: string)
    requires HasKey(ms, k) && !Visits(cur + [Key(k)], includes)
    ensures Find(MergeFieldsDeep(Obj(ms), patch, includes, cur).members, k) == Find(ms, k)
  {
    MergeChild(Obj(ms), patch, includes, cur, Key(k));
  }

  /** A present value other than `null`, `false`, `0`, `""` and the
      containers: the values the `in` operator refuses as its right side
      even though they pass a truthiness test. */
  predicate TruthyPrimitive(patch: Option<Json>) {
    patch.Some? &&
    match patch.value
    case Bool(b) => b
    case Num(n) => n != 0
    case Str(t) => t != ""
    case _ => false
  }

  /** Whether `mergeFieldsDeep` as written throws: an object level reaches a
      key the include paths do not lead to while its patch is a truthy
      primitive, and the warning test `key in patch` raises a `TypeError`. */
  predicate MergeThrows(origin: Json, patch: Option<Json>, includes: seq<Path>, cur: Path)
    decreases origin, 0
  {
    match origin
    case Arr(items) => ItemsThrowFrom(items, 0, patch, includes, cur)
    case Obj(ms) => MembersThrowFrom(ms, 0, patch, includes, cur)
    case _ => false
  }

  /** Some element from index `i` on throws. */
  predicate ItemsThrowFrom(items: seq<Json>, i: nat, patch: Option<Json>, includes: seq<Path>, cur: Path)
    decreases items, 2, |items| - i
  {
    i < |items| &&
    (ItemThrows(items, i, patch, includes, cur) || ItemsThrowFrom(items, i + 1, patch, includes, cur))
  }

  /** Some member from position `i` on throws. */
  predicate MembersThrowFrom(ms: seq<Member>, i: nat, patch: Option<Json>, includes: seq<Path>, cur: Path)
    decreases ms, 2, |ms| - i
  {
    i < |ms| &&
    (MemberThrows(ms, i, patch, includes, cur) || MembersThrowFrom(ms, i + 1, patch, includes, cur))
  }

  /** Element `i` is visited and its merge throws. */
  predicate ItemThrows(items: seq<Json>, i: int, patch: Option<Json>, includes: seq<Path>, cur: Path)
    requires 0 <= i < |items|
    decreases items, 1, 0
  {
    Visits(cur + [Index(i)], includes) &&
    MergeThrows(items[i], Access(patch, Index(i)), includes, cur + [Index(i)])
  }

  /** Member `i` is visited and its merge throws, or it is skipped while the
      patch is a truthy primitive. */
  predicate MemberThrows(ms: seq<Member>, i: int, patch: Option<Json>, includes: seq<Path>, cur: Path)
    requires 0 <= i < |ms|
    decreases ms, 1, 0
  {
    var s := Key(ms[i].key);
    if Visits(cur + [s], includes) then MergeThrows(ms[i].value, Access(patch, s), includes, cur + [s])
    else TruthyPrimitive(patch)
  }

  /** JavaScript truthiness of a value that may be absent. */
  predicate Truthy(patch: Option<Json>) {
    patch.Some? && (IsContainer(patch.value) || TruthyPrimitive(patch))
  }

  /** `key in patch` for a present patch: an object has its own keys, an
      array its indices and `length`; any other value makes `in` throw a
      `TypeError`. Inherited properties are not modelled: the answer only
      decides whether a warning is logged. */
  function InAsWritten(key: string, patch: Json): (r: Completion<bool>)
    ensures r.TypeError? <==> !IsContainer(patch)
  {
    match patch
    case Obj(ms) => Normal(HasKey(ms, key))
    case Arr(items) => Normal(key == "length" || exists i :: 0 <= i < |items| && key == NatToDecimal(i))
    case _ => TypeError
  }

  /** The warning test for a key the include paths skip, up to the deep
      comparison: a falsy patch stops it, any other reaches `key in patch`. */
  function SkippedKeyAsWritten(key: string, patch: Option<Json>): Completion<bool> {
    if !Truthy(patch) then Normal(false) else InAsWritten(key, patch.value)
  }

  /** `mergeFieldsDeep` as written: the same walk as `MergeFieldsDeep`, in
      which a `TypeError` raised anywhere below ends the whole merge. */
  function MergeFieldsDeepAsWritten(origin: Json, patch: Option<Json>, includes: seq<Path>, cur: Path): Completion<Json>
    decreases origin, 0
  {
    match origin
    case Arr(items) =>
      (match MergeItemsAsWritten(items, 0, patch, includes, cur)
       case TypeError => TypeError
       case Normal(rs) => Normal(Arr(rs + ExtraItems(items, patch))))
    case Obj(ms) =>
      (match MergeMembersAsWritten(ms, 0, patch, includes, cur)
       case TypeError => TypeError
       case Normal(rs) => Normal(Obj(rs + NewMembers(ms, patch))))
    case Null => Normal(MergeLeaf(origin, patch, includes, cur))
    case Bool(_) => Normal(MergeLeaf(origin, patch, includes, cur))
    case Num(_) => Normal(MergeLeaf(origin, patch, includes, cur))
    case Str(_) => Normal(MergeLeaf(origin, patch, includes, cur))
  }

  /** One step of a loop as written: the step's value in front of the rest,
      the first `TypeError` ending the loop. */
  function ConsAsWritten<T>(h: Completion<T>, rest: Completion<seq<T>>): Completion<seq<T>> {
    match h
    case TypeError => TypeError
    case Normal(x) =>
      (match rest
       case TypeError => TypeError
       case Normal(xs) => Normal([x] + xs))
  }

  /** The loop over the elements from index `i` on, as written. */
  function MergeItemsAsWritten(items: seq<Json>, i: nat, patch: Option<Json>, includes: seq<Path>, cur: Path): Completion<seq<Json>>
    requires i <= |items|
    decreases items, 2, |items| - i
  {
    if i == |items| then Normal([])
    else ConsAsWritten(ItemAsWritten(items, i, patch, includes, cur), MergeItemsAsWritten(items, i + 1, patch, includes, cur))
  }

  /** Element `i`, as written: merged when the include paths lead to it,
      kept otherwise. */
  function ItemAsWritten(items: seq<Json>, i: nat, patch: Option<Json>, includes: seq<Path>, cur: Path): Completion<Json>
    requires i < |items|
    decreases items, 1
  {
    var s := Index(i);
    if Visits(cur + [s], includes) then MergeFieldsDeepAsWritten(items[i], Access(patch, s), includes, cur + [s])
    else Normal(items[i])
  }

  /** The `for...in` over the origin's keys from position `i` on, as
      written. */
  function MergeMembersAsWritten(ms: seq<Member>, i: nat, patch: Option<Json>, includes: seq<Path>, cur: Path): Completion<seq<Member>>
    requires i <= |ms|
    decreases ms, 2, |ms| - i
  {
    if i == |ms| then Normal([])
    else ConsAsWritten(MemberAsWritten(ms, i, patch, includes, cur), MergeMembersAsWritten(ms, i + 1, patch, includes, cur))
  }

  /** Member `i`, as written: merged when the include paths lead to it;
      otherwise kept, after the warning test, which may throw. */
  function MemberAsWritten(ms: seq<Member>, i: nat, patch: Option<Json>, includes: seq<Path>, cur: Path): Completion<Member>
    requires i < |ms|
    decreases ms, 1
  {
    var s := Key(ms[i].key);
    if Visits(cur + [s], includes) then
      (match MergeFieldsDeepAsWritten(ms[i].value, Access(patch, s), includes, cur + [s])
       case TypeError => TypeError
       case Normal(v) => Normal(Member(ms[i].key, v)))
    else
      (match SkippedKeyAsWritten(ms[i].key, patch)
       case TypeError => TypeError
       case Normal(_) => Normal(ms[i]))
  }

  lemma SliceCons<T>(xs: seq<T>, i: nat)
    requires i < |xs|
    ensures xs[i..] == [xs[i]] + xs[i + 1..]
  {
  }

  /** A loop step that throws or gives `x`, in front of a rest that throws
      or gives `xs`. */
  lemma ConsAgrees<T>(h: Completion<T>, rest: Completion<seq<T>>, t: bool, x: T, u: bool, xs: seq<T>)
    requires h == if t then TypeError else Normal(x)
    requires rest == if u then TypeError else Normal(xs)
    ensures ConsAsWritten(h, rest) == if t || u then TypeError else Normal([x] + xs)
  {
  }

  /** The merge as written throws exactly when some visited element or key
      below throws or a skipped key meets a truthy primitive patch, and
      otherwise gives what the corrected merge gives. */
  lemma {:induction false} MergeAsWrittenAgrees(origin: Json, patch: Option<Json>, includes: seq<Path>, cur: Path)
    ensures MergeFieldsDeepAsWritten(origin, patch, includes, cur) ==
      if MergeThrows(origin, patch, includes, cur) then TypeError
      else Normal(MergeFieldsDeep(origin, patch, includes, cur))
    decreases origin, 0
  {
    match origin
    case Arr(items) =>
      MergeItemsAgree(items, 0, patch, includes, cur);
      assert MergeItems(items, patch, includes, cur)[0..] == MergeItems(items, patch, includes, cur);
      assert MergeThrows(origin, patch, includes, cur) == ItemsThrowFrom(items, 0, patch, includes, cur);
    case Obj(ms) =>
      MergeMembersAgree(ms, 0, patch, includes, cur);
      assert MergeMembers(ms, patch, includes, cur)[0..] == MergeMembers(ms, patch, includes, cur);
      assert MergeThrows(origin, patch, includes, cur) == MembersThrowFrom(ms, 0, patch, includes, cur);
    case Null =>
    case Bool(_) =>
    case Num(_) =>
    case Str(_) =>
  }

  lemma {:induction false} MergeItemsAgree(items: seq<Json>, i: nat, patch: Option<Json>, includes: seq<Path>, cur: Path)
    requires i <= |items|
    ensures MergeItemsAsWritten(items, i, patch, includes, cur) ==
      if ItemsThrowFrom(items, i, patch, includes, cur) then TypeError
      else Normal(MergeItems(items, patch, includes, cur)[i..])
    decreases items, 2, |items| - i
  {
    if i < |items| {
      var mi := MergeItems(items, patch, includes, cur);
      ItemAgrees(items, i, patch, includes, cur);
      MergeItemsAgree(items, i + 1, patch, includes, cur);
      ConsAgrees(ItemAsWritten(items, i, patch, includes, cur), MergeItemsAsWritten(items, i + 1, patch, includes, cur),
        ItemThrows(items, i, patch, includes, cur), mi[i], ItemsThrowFrom(items, i + 1, patch, includes, cur), mi[i + 1..]);
      SliceCons(mi, i);
    } else {
      assert !ItemsThrowFrom(items, i, patch, includes, cur);
      assert MergeItemsAsWritten(items, i, patch, includes, cur) == Normal([]);
      assert MergeItems(items, patch, includes, cur)[i..] == [];
    }
  }

  lemma {:induction false} ItemAgrees(items: seq<Json>, i: nat, patch: Option<Json>, includes: seq<Path>, cur: Path)
    requires i < |items|
    ensures ItemAsWritten(items, i, patch, includes, cur) ==
      if ItemThrows(items, i, patch, includes, cur) then TypeError
      else Normal(MergeItems(items, patch, includes, cur)[i])
    decreases items, 1
  {
    var s := Index(i);
    if Visits(cur + [s], includes) {
      MergeAsWrittenAgrees(items[i], Access(patch, s), includes, cur + [s]);
    }
    assert MergeItems(items, patch, includes, cur)[i] == MergeItem(items[i], i, patch, includes, cur);
  }

  lemma {:induction false} MergeMembersAgree(ms: seq<Member>, i: nat, patch: Option<Json>, includes: seq<Path>, cur: Path)
    requires i <= |ms|
    ensures MergeMembersAsWritten(ms, i, patch, includes, cur) ==
      if MembersThrowFrom(ms, i, patch, includes, cur) then TypeError
      else Normal(MergeMembers(ms, patch, includes, cur)[i..])
    decreases ms, 2, |ms| - i
  {
    if i < |ms| {
      var mm := MergeMembers(ms, patch, includes, cur);
      MemberAgrees(ms, i, patch, includes, cur);
      MergeMembersAgree(ms, i + 1, patch, includes, cur);
      ConsAgrees(MemberAsWritten(ms, i, patch, includes, cur), MergeMembersAsWritten(ms, i + 1, patch, includes, cur),
        MemberThrows(ms, i, patch, includes, cur), mm[i], MembersThrowFrom(ms, i + 1, patch, includes, cur), mm[i + 1..]);
      SliceCons(mm, i);
    } else {
      assert !MembersThrowFrom(ms, i, patch, includes, cur);
      assert MergeMembersAsWritten(ms, i, patch, includes, cur) == Normal([]);
      assert MergeMembers(ms, patch, includes, cur)[i..] == [];
    }
  }

  lemma {:induction false} MemberAgrees(ms: seq<Member>, i: nat, patch: Option<Json>, includes: seq<Path>, cur: Path)
    requires i < |ms|
    ensures MemberAsWritten(ms, i, patch, includes, cur) ==
      if MemberThrows(ms, i, patch, includes, cur) then TypeError
      else Normal(MergeMembers(ms, patch, includes, cur)[i])
    decreases ms, 1
  {
    var s := Key(ms[i].key);
    if Visits(cur + [s], includes) {
      MergeAsWrittenAgrees(ms[i].value, Access(patch, s), includes, cur + [s]);
    } else {
      SkippedKeyThrows(ms[i].key, patch);
    }
    assert MergeMembers(ms, patch, includes, cur)[i] == MergeMember(ms[i], patch, includes, cur);
  }

  /** A member that throws at position `j` makes the members from any
      earlier position `i` throw. */
  lemma {:induction false} MembersThrowAt(ms: seq<Member>, i: nat, j: nat, patch: Option<Json>, includes: seq<Path>, cur: Path)
    requires i <= j < |ms| && MemberThrows(ms, j, patch, includes, cur)
    ensures MembersThrowFrom(ms, i, patch, includes, cur)
    decreases j - i
  {
    if i < j {
      MembersThrowAt(ms, i + 1, j, patch, includes, cur);
      assert MembersThrowFrom(ms, i + 1, patch, includes, cur);
    } else {
      assert MemberThrows(ms, i, patch, includes, cur);
    }
  }

  /** The warning test throws exactly for a truthy primitive patch. */
  lemma SkippedKeyThrows(key: string, patch: Option<Json>)
    ensures SkippedKeyAsWritten(key, patch).TypeError? <==> TruthyPrimitive(patch)
  {
  }

  /** As written, a key the include paths skip throws as soon as the patch
      at that level is a truthy primitive. */
  lemma ScalarPatchThrows(ms: seq<Member>, patch: Option<Json>, includes: seq<Path>, cur: Path, k: string)
    requires HasKey(ms, k) && !Visits(cur + [Key(k)], includes) && TruthyPrimitive(patch)
    ensures MergeThrows(Obj(ms), patch, includes, cur)
    ensures MergeFieldsDeepAsWritten(Obj(ms), patch, includes, cur) == TypeError
  {
    var i := FindIndex(ms, k);
    assert MemberThrows(ms, i, patch, includes, cur);
    MembersThrowAt(ms, 0, i, patch, includes, cur);
    MergeAsWrittenAgrees(Obj(ms), patch, includes, cur);
  }

  /** Merging only `a.x` from the patch `{a: 5}` into `{a: {x: 1, y: 2}}`
      throws as written: `a` is visited with the patch 5, and its key `y`,
      which no include path leads to, meets `"y" in 5`. */
  lemma ScalarPatchExampleThrows(origin: Json, patch: Json, includes: seq<Path>)
    requires origin == Obj([Member("a", Obj([Member("x", Num(1)), Member("y", Num(2))]))])
    requires patch == Obj([Member("a", Num(5))])
    requires includes == [[Key("a"), Key("x")]]
    ensures MergeFieldsDeepAsWritten(origin, Some(patch), includes, []) == TypeError
  {
    var a: Path := [Key("a")];
    ScalarPatchInnerThrows(origin.members[0].value, includes, a);
    assert origin.members[0].key == "a" && [] + [Key("a")] == a;
    assert Access(Some(patch), Key("a")) == Some(Num(5));
    VisitedMemberThrows(origin.members, 0, Some(patch), includes, []);
  }

  /** The inner object `{x: 1, y: 2}` under the scalar patch 5 throws at `y`. */
  lemma ScalarPatchInnerThrows(inner: Json, includes: seq<Path>, a: Path)
    requires inner == Obj([Member("x", Num(1)), Member("y", Num(2))])
    requires includes == [[Key("a"), Key("x")]] && a == [Key("a")]
    ensures Visits(a, includes) && MergeThrows(inner, Some(Num(5)), includes, a)
  {
    var ay: Path := [Key("a"), Key("y")];
    OnlyAxVisits(includes, a, ay);
    assert a + [Key("y")] == ay;
    assert HasKey(inner.members, "y") by {
      assert inner.members[1].key == "y";
    }
    ScalarPatchThrows(inner.members, Some(Num(5)), includes, a, "y");
  }

  /** A visited member whose own merge throws makes the object's merge throw. */
  lemma VisitedMemberThrows(ms: seq<Member>, i: nat, patch: Option<Json>, includes: seq<Path>, cur: Path)
    requires i < |ms| && Visits(cur + [Key(ms[i].key)], includes)
    requires MergeThrows(ms[i].value, Access(patch, Key(ms[i].key)), includes, cur + [Key(ms[i].key)])
    ensures MergeThrows(Obj(ms), patch, includes, cur)
    ensures MergeFieldsDeepAsWritten(Obj(ms), patch, includes, cur) == TypeError
  {
    assert MemberThrows(ms, i, patch, includes, cur);
    MembersThrowAt(ms, 0, i, patch, includes, cur);
    MergeAsWrittenAgrees(Obj(ms), patch, includes, cur);
  }

  /** Including only `a.x` leads the merge to `a` but not to `a.y`. */
  lemma OnlyAxVisits(includes: seq<Path>, a: Path, ay: Path)
    requires includes == [[Key("a"), Key("x")]] && a == [Key("a")] && ay == [Key("a"), Key("y")]
    ensures Visits(a, includes) && !Visits(ay, includes)
  {
    assert PrefixAgrees(a, includes[0]);
    assert includes[0][1] == Key("x") && ay[1] == Key("y");
    assert !PrefixAgrees(ay, includes[0]);
  }

  /** The same call in the model: `a` gets no patch value for `x` out of the
      scalar 5, and the origin comes back unchanged. */
  lemma ScalarPatchExampleKeeps(origin: Json, patch: Json, includes: seq<Path>)
    requires origin == Obj([Member("a", Obj([Member("x", Num(1)), Member("y", Num(2))]))])
    requires patch == Obj([Member("a", Num(5))])
    requires includes == [[Key("a"), Key("x")]]
    ensures MergeFieldsDeep(origin, Some(patch), includes, []) == origin
  {
    var inner := origin.members[0].value;
    assert origin.members[0].key == "a" && [] + [Key("a")] == [Key("a")];
    assert Access(Some(patch), Key("a")) == Some(Num(5));
    MergeScalarPatch(inner, Num(5), includes, [Key("a")]);
    var mm := MergeMembers(origin.members, Some(patch), includes, []);
    assert mm[0] == MergeMember(origin.members[0], Some(patch), includes, []);
    assert mm == origin.members;
    assert NewMembers(origin.members, Some(patch)) == [] by {
      assert HasKey(origin.members, "a");
    }
  }

  /** A scalar patch for a container supplies nothing: no element or key can
      be read from it, so the container comes back unchanged. */
  lemma MergeScalarPatch(v: Json, pv: Json, includes: seq<Path>, cur: Path)
    requires IsContainer(v) && !IsContainer(pv)
    ensures MergeFieldsDeep(v, Some(pv), includes, cur) == v
  {
    MergeWithoutPatch(v, includes, cur);
    match v
    case Arr(items) =>
      forall i | 0 <= i < |items|
        ensures MergeItems(items, Some(pv), includes, cur)[i] == MergeItems(items, None, includes, cur)[i]
      {
        assert Access(Some(pv), Index(i)) == None;
      }
      assert MergeItems(items, Some(pv), includes, cur) == MergeItems(items, None, includes, cur);
    case Obj(ms) =>
      forall i | 0 <= i < |ms|
        ensures MergeMembers(ms, Some(pv), includes, cur)[i] == MergeMembers(ms, None, includes, cur)[i]
      {
        assert Access(Some(pv), Key(ms[i].key)) == None;
      }
      assert MergeMembers(ms, Some(pv), includes, cur) == MergeMembers(ms, None, includes, cur);
  }

  /** A key only the patch has is added with the patch's value; the include
      paths play no part. */
  lemma MergeAddsNewKeys(ms: seq<Member>, pms: seq<Member>, includes: seq<Path>, cur: Path, k: string)
    requires !HasKey(ms, k)
    ensures Find(MergeFieldsDeep(Obj(ms), Some(Obj(pms)), includes, cur).members, k) == Find(pms, k)
  {
    var mm := MergeMembers(ms, Some(Obj(pms)), includes, cur);
    assert !HasKey(mm, k);
    FindAppend(mm, NewMembers(ms, Some(Obj(pms))), k);
    FindUnseen(pms, ms, k);
  }

  /** A longer patch array extends the origin with its extra elements; the
      result is as long as the longer of the two. */
  lemma MergeArrayExtends(items: seq<Json>, pitems: seq<Json>, includes: seq<Path>, cur: Path)
    ensures var r := MergeFieldsDeep(Arr(items), Some(Arr(pitems)), includes, cur).items;
      |r| == (if |pitems| > |items| then |pitems| else |items|) &&
      r[|items|..] == (if |pitems| > |items| then pitems[|items|..] else [])
  {
    var r := MergeFieldsDeep(Arr(items), Some(Arr(pitems)), includes, cur).items;
    assert r[|items|..] == ExtraItems(items, Some(Arr(pitems)));
  }

  /** An included path that reaches a scalar of the origin gets the patch's
      value there. */
  lemma {:induction false} MergeIncludedLeaf(v: Json, pv: Json, includes: seq<Path>, cur: Path, rest: Path)
    requires cur + rest in includes && !HasGlob(cur + rest)
    requires Lookup(v, rest).Some? && !IsContainer(Lookup(v, rest).value)
    requires Lookup(pv, rest).Some?
    ensures Lookup(MergeFieldsDeep(v, Some(pv), includes, cur), rest) == Lookup(pv, rest)
    decreases |rest|
  {
    var ip := cur + rest;
    if rest == [] {
      assert ip == cur && PrefixAgrees(cur, ip);
    } else {
      var s := rest[0];
      assert PrefixAgrees(cur + [s], ip) && |ip| >= |cur + [s]| by {
        assert forall i :: 0 <= i < |cur + [s]| ==> (cur + [s])[i] == ip[i];
      }
      assert (cur + [s]) + rest[1..] == ip;
      MergeIncludedLeaf(Child(v, s).value, Child(pv, s).value, includes, cur + [s], rest[1..]);
      MergeChild(v, Some(pv), includes, cur, s);
    }
  }

  /** With a `**` include path every child is visited: no pruning happens. */
  lemma GlobVisitsEverything(includes: seq<Path>, path: Path)
    requires exists ip :: ip in includes && HasGlob(ip)
    ensures Visits(path, includes)
  {
  }

  /** A `null` step in a plain include path also lets keys through. */
  lemma AnyIndexLetsKeysThrough(includes: seq<Path>, cur: Path, k: string, ip: Path)
    requires ip in includes && !HasGlob(ip) && |ip| > |cur| && PrefixAgrees(cur, ip) && ip[|cur|] == AnyIndex
    ensures Visits(cur + [Key(k)], includes)
  {
    assert PrefixAgrees(cur + [Key(k)], ip);
  }

  // ---------------------------------------------------------------------------
  // Exclude mode

  predicate Selected(expanded: seq<Path>, depth: nat, s: PathElement) {
    exists p :: p in expanded && depth < |p| && Selects(p[depth], s)
  }

  /** Some expanded path ends exactly at this depth. */
  predicate FullMatch(expanded: seq<Path>, depth: nat) {
    exists p :: p in expanded && |p| == depth
  }

  /** The paths handed down to the child at step `s`. As written the whole
      list goes down unchanged; scoped, a plain path goes down only when its
      step at this depth selects `s` (patterns always go down, to be
      expanded again below). */
  function Scope(paths: seq<Path>, depth: nat, s: PathElement, scoped: bool): (r: seq<Path>)
    ensures forall p :: p in r ==> p in paths
    ensures scoped ==> forall p :: p in r <==> p in paths && (HasGlob(p) || (depth < |p| && Selects(p[depth], s)))
  {
    if scoped then Narrow(paths, depth, s) else paths
  }

  function Narrow(paths: seq<Path>, depth: nat, s: PathElement): (r: seq<Path>)
    ensures forall p :: p in r <==> p in paths && (HasGlob(p) || (depth < |p| && Selects(p[depth], s)))
  {
    if paths == [] then []
    else (if HasGlob(paths[0]) || (depth < |paths[0]| && Selects(paths[0][depth], s)) then [paths[0]] else []) + Narrow(paths[1..], depth, s)
  }


  /** `omitMergeFieldsDeep` (with `scoped` false) and its corrected form
      (`scoped` true): `origin` with every field except the excluded ones
      taken from `patch`. The `**` patterns are expanded again at every
      level against the value there. A level that some expanded path ends at
      keeps the origin; a scalar takes the patch when it has one. A child no
      path selects takes the patch's child when there is one; a child some
      path selects is merged one level deeper. Array elements past the
      origin's end and keys the origin lacks come from the patch unless some
      path ends right at them. */
  function OmitMergeWith(origin: Json, patch: Option<Json>, paths: seq<Path>, depth: nat, scoped: bool): (r: Json)
    ensures origin.Arr? ==> r.Arr?
    ensures origin.Obj? ==> r.Obj?
    decreases origin, 0
  {
    var expanded := ExpandPaths(origin, paths);
    if FullMatch(expanded, depth) then origin
    else
      match origin
      case Arr(items) =>
        Arr(OmitMergeItems(items, patch, paths, expanded, depth, scoped) + AddedItems(items, patch, expanded, depth))
      case Obj(ms) =>
        Obj(OmitMergeMembers(ms, patch, paths, expanded, depth, scoped) + AddedMembers(ms, patch, expanded, depth))
      case _ => patch.GetOr(origin)
  }

  function OmitMergeItems(items: seq<Json>, patch: Option<Json>, paths: seq<Path>, expanded: seq<Path>, depth: nat, scoped: bool): (r: seq<Json>)
    ensures |r| == |items|
    decreases items, 0
  {
    seq(|items|, i requires 0 <= i < |items| => OmitMergeItem(items[i], i, patch, paths, expanded, depth, scoped))
  }

  /** Element `i`: merged one level deeper when some path selects index
      `i`, otherwise the patch's element or, lacking one, the origin's. */
  function OmitMergeItem(item: Json, i: nat, patch: Option<Json>, paths: seq<Path>, expanded: seq<Path>, depth: nat, scoped: bool): Json
    decreases item, 1
  {
    if Selected(expanded, depth, Index(i))
    then OmitMergeWith(item, Access(patch, Index(i)), Scope(paths, depth, Index(i), scoped), depth + 1, scoped)
    else Access(patch, Index(i)).GetOr(item)
  }

  function OmitMergeMembers(ms: seq<Member>, patch: Option<Json>, paths: seq<Path>, expanded: seq<Path>, depth: nat, scoped: bool): (r: seq<Member>)
    ensures |r| == |ms| && forall i :: 0 <= i < |ms| ==> r[i].key == ms[i].key
    decreases ms, 0
  {
    seq(|ms|, i requires 0 <= i < |ms| => OmitMergeMember(ms[i], patch, paths, expanded, depth, scoped))
  }

  /** A member of the origin, its value treated as an element is. */
  function OmitMergeMember(m: Member, patch: Option<Json>, paths: seq<Path>, expanded: seq<Path>, depth: nat, scoped: bool): (r: Member)
    ensures r.key == m.key
    decreases m, 1
  {
    var s := Key(m.key);
    Member(m.key,
      if Selected(expanded, depth, s)
      then OmitMergeWith(m.value, Access(patch, s), Scope(paths, depth, s, scoped), depth + 1, scoped)
      else Access(patch, s).GetOr(m.value))
  }

  /** The patch's elements past the origin's end, each kept unless some path
      ends at its index. */
  function AddedItems(items: seq<Json>, patch: Option<Json>, expanded: seq<Path>, depth: nat): seq<Json> {
    if patch.Some? && patch.value.Arr? then KeptFrom(patch.value.items, |items|, expanded, depth) else []
  }

  /** The elements of `ps` from index `start` on that no path ends at. */
  function KeptFrom(ps: seq<Json>, start: nat, expanded: seq<Path>, depth: nat): (r: seq<Json>)
    ensures |r| <= |ps| - start || (start >= |ps| && r == [])
    decreases |ps| - start
  {
    if start >= |ps| then []
    else (if Terminates(expanded, depth, Index(start)) then [] else [ps[start]]) + KeptFrom(ps, start + 1, expanded, depth)
  }

  /** The members of a plain-object patch whose keys the origin lacks and at
      which no path ends. */
  function AddedMembers(ms: seq<Member>, patch: Option<Json>, expanded: seq<Path>, depth: nat): seq<Member> {
    if IsPlainObject(patch) then UnseenUnended(patch.value.members, ms, expanded, depth) else []
  }

  function UnseenUnended(ps: seq<Member>, ms: seq<Member>, expanded: seq<Path>, depth: nat): (r: seq<Member>)
    ensures forall m :: m in r ==> m in ps && !HasKey(ms, m.key)
  {
    if ps == [] then []
    else
      (if HasKey(ms, ps[0].key) || Terminates(expanded, depth, Key(ps[0].key)) then [] else [ps[0]]) +
      UnseenUnended(ps[1..], ms, expanded, depth)
  }

  /** A key `ms` lacks is found among the added members exactly when no path
      ends at it, with the patch's value. */
  lemma {:induction false} FindUnseenUnended(ps: seq<Member>, ms: seq<Member>, expanded: seq<Path>, depth: nat, k: string)
    requires !HasKey(ms, k)
    ensures Find(UnseenUnended(ps, ms, expanded, depth), k) ==
      if Terminates(expanded, depth, Key(k)) then None else Find(ps, k)
  {
    if ps != [] {
      var h: seq<Member> := if HasKey(ms, ps[0].key) || Terminates(expanded, depth, Key(ps[0].key)) then [] else [ps[0]];
      FindUnseenUnended(ps[1..], ms, expanded, depth, k);
      FindAppend(h, UnseenUnended(ps[1..], ms, expanded, depth), k);
      FindAppend([ps[0]], ps[1..], k);
      assert [ps[0]] + ps[1..] == ps;
      if ps[0].key == k {
        assert h == (if Terminates(expanded, depth, Key(k)) then [] else [ps[0]]);
      } else {
        assert !HasKey(h, k);
        assert !HasKey([ps[0]], k);
      }
    }
  }

  /** The result's child at `s`, one level down, when no path ends at this
      level: merged deeper when some path selects `s`, otherwise the
      patch's child or, lacking one, the origin's. */
  lemma OmitMergeChild(v: Json, patch: Option<Json>, paths: seq<Path>, depth: nat, scoped: bool, s: PathElement)
    requires Child(v, s).Some? && !FullMatch(ExpandPaths(v, paths), depth)
    ensures Child(OmitMergeWith(v, patch, paths, depth, scoped), s) ==
      Some(if Selected(ExpandPaths(v, paths), depth, s)
           then OmitMergeWith(Child(v, s).value, Access(patch, s), Scope(paths, depth, s, scoped), depth + 1, scoped)
           else Access(patch, s).GetOr(Child(v, s).value))
  {
    var expanded := ExpandPaths(v, paths);
    if v.Obj? {
      OmitMergeMemberChild(v.members, patch, paths, expanded, depth, scoped, s.name);
    } else {
      OmitMergeItemChild(v.items, patch, paths, expanded, depth, scoped, s.index);
    }
  }

  lemma OmitMergeMemberChild(ms: seq<Member>, patch: Option<Json>, paths: seq<Path>, expanded: seq<Path>, depth: nat, scoped: bool, k: string)
    requires HasKey(ms, k) && expanded == ExpandPaths(Obj(ms), paths) && !FullMatch(expanded, depth)
    ensures Find(OmitMergeWith(Obj(ms), patch, paths, depth, scoped).members, k) ==
      Some(if Selected(expanded, depth, Key(k))
           then OmitMergeWith(Find(ms, k).value, Access(patch, Key(k)), Scope(paths, depth, Key(k), scoped), depth + 1, scoped)
           else Access(patch, Key(k)).GetOr(Find(ms, k).value))
  {
    var mm := OmitMergeMembers(ms, patch, paths, expanded, depth, scoped);
    var added := AddedMembers(ms, patch, expanded, depth);
    assert OmitMergeWith(Obj(ms), patch, paths, depth, scoped) == Obj(mm + added);
    var j := FindIndex(ms, k);
    SameKeysFindIndex(mm, ms, k);
    FindPrefix(mm, added, j);
    assert mm[j] == OmitMergeMember(ms[j], patch, paths, expanded, depth, scoped);
  }

  lemma OmitMergeItemChild(items: seq<Json>, patch: Option<Json>, paths: seq<Path>, expanded: seq<Path>, depth: nat, scoped: bool, i: nat)
    requires i < |items| && expanded == ExpandPaths(Arr(items), paths) && !FullMatch(expanded, depth)
    ensures OmitMergeWith(Arr(items), patch, paths, depth, scoped).items[i] ==
      if Selected(expanded, depth, Index(i))
      then OmitMergeWith(items[i], Access(patch, Index(i)), Scope(paths, depth, Index(i), scoped), depth + 1, scoped)
      else Access(patch, Index(i)).GetOr(items[i])
  {
    var mi := OmitMergeItems(items, patch, paths, expanded, depth, scoped);
    assert OmitMergeWith(Arr(items), patch, paths, depth, scoped) == Arr(mi + AddedItems(items, patch, expanded, depth));
    assert (mi + AddedItems(items, patch, expanded, depth))[i] == mi[i] == OmitMergeItem(items[i], i, patch, paths, expanded, depth, scoped);
  }

  /** Merging in an absent patch changes nothing. */
  lemma {:induction false} OmitMergeWithoutPatch(v: Json, paths: seq<Path>, depth: nat, scoped: bool)
    ensures OmitMergeWith(v, None, paths, depth, scoped) == v
    decreases v, 1
  {
    if !FullMatch(ExpandPaths(v, paths), depth) {
      match v
      case Arr(items) => OmitMergeItemsWithoutPatch(items, paths, depth, scoped);
      case Obj(ms) => OmitMergeMembersWithoutPatch(ms, paths, depth, scoped);
      case _ =>
    }
  }

  lemma {:induction false} OmitMergeItemsWithoutPatch(items: seq<Json>, paths: seq<Path>, depth: nat, scoped: bool)
    requires !FullMatch(ExpandPaths(Arr(items), paths), depth)
    ensures OmitMergeWith(Arr(items), None, paths, depth, scoped) == Arr(items)
    decreases Arr(items), 0
  {
    var expanded := ExpandPaths(Arr(items), paths);
    var mi := OmitMergeItems(items, None, paths, expanded, depth, scoped);
    assert mi == items by {
      forall i | 0 <= i < |items|
        ensures mi[i] == items[i]
      {
        assert mi[i] == OmitMergeItem(items[i], i, None, paths, expanded, depth, scoped);
        OmitMergeItemWithoutPatch(items[i], i, paths, expanded, depth, scoped);
      }
    }
    assert OmitMergeWith(Arr(items), None, paths, depth, scoped) == Arr(mi + AddedItems(items, None, expanded, depth));
  }

  lemma {:induction false} OmitMergeItemWithoutPatch(item: Json, i: nat, paths: seq<Path>, expanded: seq<Path>, depth: nat, scoped: bool)
    ensures OmitMergeItem(item, i, None, paths, expanded, depth, scoped) == item
    decreases item, 2
  {
    if Selected(expanded, depth, Index(i)) {
      OmitMergeWithoutPatch(item, Scope(paths, depth, Index(i), scoped), depth + 1, scoped);
    }
  }

  lemma {:induction false} OmitMergeMembersWithoutPatch(ms: seq<Member>, paths: seq<Path>, depth: nat, scoped: bool)
    requires !FullMatch(ExpandPaths(Obj(ms), paths), depth)
    ensures OmitMergeWith(Obj(ms), None, paths, depth, scoped) == Obj(ms)
    decreases Obj(ms), 0
  {
    var expanded := ExpandPaths(Obj(ms), paths);
    var mm := OmitMergeMembers(ms, None, paths, expanded, depth, scoped);
    assert mm == ms by {
      forall i | 0 <= i < |ms|
        ensures mm[i] == ms[i]
      {
        assert mm[i] == OmitMergeMember(ms[i], None, paths, expanded, depth, scoped);
        OmitMergeMemberWithoutPatch(ms[i], paths, expanded, depth, scoped);
      }
    }
    assert OmitMergeWith(Obj(ms), None, paths, depth, scoped) == Obj(mm + AddedMembers(ms, None, expanded, depth));
  }

  lemma {:induction false} OmitMergeMemberWithoutPatch(m: Member, paths: seq<Path>, expanded: seq<Path>, depth: nat, scoped: bool)
    ensures OmitMergeMember(m, None, paths, expanded, depth, scoped) == m
    decreases m, 0
  {
    if Selected(expanded, depth, Key(m.key)) {
      OmitMergeWithoutPatch(m.value, Scope(paths, depth, Key(m.key), scoped), depth + 1, scoped);
    }
  }

  /** Merging a value with itself gives it back, whatever is excluded. */
  lemma {:induction false} OmitMergeIdentity(v: Json, paths: seq<Path>, depth: nat, scoped: bool)
    requires Wf(v)
    ensures OmitMergeWith(v, Some(v), paths, depth, scoped) == v
    decreases v, 1
  {
    if !FullMatch(ExpandPaths(v, paths), depth) {
      match v
      case Arr(items) => OmitMergeItemsIdentity(items, paths, depth, scoped);
      case Obj(ms) => OmitMergeMembersIdentity(ms, paths, depth, scoped);
      case _ =>
    }
  }

  lemma {:induction false} OmitMergeItemsIdentity(items: seq<Json>, paths: seq<Path>, depth: nat, scoped: bool)
    requires WfItems(items) && !FullMatch(ExpandPaths(Arr(items), paths), depth)
    ensures OmitMergeWith(Arr(items), Some(Arr(items)), paths, depth, scoped) == Arr(items)
    decreases Arr(items), 0
  {
    var expanded := ExpandPaths(Arr(items), paths);
    var mi := OmitMergeItems(items, Some(Arr(items)), paths, expanded, depth, scoped);
    assert mi == items by {
      forall i | 0 <= i < |items|
        ensures mi[i] == items[i]
      {
        assert mi[i] == OmitMergeItem(items[i], i, Some(Arr(items)), paths, expanded, depth, scoped);
        OmitMergeItemIdentity(items[i], i, Some(Arr(items)), paths, expanded, depth, scoped);
      }
    }
    assert OmitMergeWith(Arr(items), Some(Arr(items)), paths, depth, scoped) == Arr(mi + AddedItems(items, Some(Arr(items)), expanded, depth));
    assert KeptFrom(items, |items|, expanded, depth) == [];
  }

  lemma {:induction false} OmitMergeMembersIdentity(ms: seq<Member>, paths: seq<Path>, depth: nat, scoped: bool)
    requires UniqueKeys(ms) && WfMembers(ms) && !FullMatch(ExpandPaths(Obj(ms), paths), depth)
    ensures OmitMergeWith(Obj(ms), Some(Obj(ms)), paths, depth, scoped) == Obj(ms)
    decreases Obj(ms), 0
  {
    var expanded := ExpandPaths(Obj(ms), paths);
    var mm := OmitMergeMembers(ms, Some(Obj(ms)), paths, expanded, depth, scoped);
    assert mm == ms by {
      forall i | 0 <= i < |ms|
        ensures mm[i] == ms[i]
      {
        FindUnique(ms, i);
        assert mm[i] == OmitMergeMember(ms[i], Some(Obj(ms)), paths, expanded, depth, scoped);
        OmitMergeMemberIdentity(ms[i], Some(Obj(ms)), paths, expanded, depth, scoped);
      }
    }
    assert OmitMergeWith(Obj(ms), Some(Obj(ms)), paths, depth, scoped) == Obj(mm + AddedMembers(ms, Some(Obj(ms)), expanded, depth));
    KeysPresent(ms);
    UnseenUnendedOfPresent(ms, ms, expanded, depth);
  }

  /** An element whose patch counterpart is itself is unchanged. */
  lemma {:induction false} OmitMergeItemIdentity(item: Json, i: nat, patch: Option<Json>, paths: seq<Path>, expanded: seq<Path>, depth: nat, scoped: bool)
    requires Wf(item) && Access(patch, Index(i)) == Some(item)
    ensures OmitMergeItem(item, i, patch, paths, expanded, depth, scoped) == item
    decreases item, 2
  {
    if Selected(expanded, depth, Index(i)) {
      OmitMergeIdentity(item, Scope(paths, depth, Index(i), scoped), depth + 1, scoped);
    }
  }

  /** A member whose patch counterpart is its own value is unchanged. */
  lemma {:induction false} OmitMergeMemberIdentity(m: Member, patch: Option<Json>, paths: seq<Path>, expanded: seq<Path>, depth: nat, scoped: bool)
    requires Wf(m.value) && Access(patch, Key(m.key)) == Some(m.value)
    ensures OmitMergeMember(m, patch, paths, expanded, depth, scoped) == m
    decreases m, 0
  {
    if Selected(expanded, depth, Key(m.key)) {
      OmitMergeIdentity(m.value, Scope(paths, depth, Key(m.key), scoped), depth + 1, scoped);
    }
  }

  /** Nothing is added when every key is already present. */
  lemma {:induction false} UnseenUnendedOfPresent(ps: seq<Member>, ms: seq<Member>, expanded: seq<Path>, depth: nat)
    requires forall m :: m in ps ==> HasKey(ms, m.key)
    ensures UnseenUnended(ps, ms, expanded, depth) == []
  {
    if ps != [] {
      assert ps[0] in ps;
      UnseenUnendedOfPresent(ps[1..], ms, expanded, depth);
    }
  }

  /** A key only the patch has is added with the patch's value unless some
      path ends right at it. */
  lemma OmitMergeAddsNewKeys(ms: seq<Member>, pms: seq<Member>, paths: seq<Path>, depth: nat, scoped: bool, k: string)
    requires !HasKey(ms, k) && !FullMatch(ExpandPaths(Obj(ms), paths), depth)
    ensures Find(OmitMergeWith(Obj(ms), Some(Obj(pms)), paths, depth, scoped).members, k) ==
      if Terminates(ExpandPaths(Obj(ms), paths), depth, Key(k)) then None else Find(pms, k)
  {
    var expanded := ExpandPaths(Obj(ms), paths);
    var mm := OmitMergeMembers(ms, Some(Obj(pms)), paths, expanded, depth, scoped);
    assert !HasKey(mm, k);
    FindAppend(mm, AddedMembers(ms, Some(Obj(pms)), expanded, depth), k);
    FindUnseenUnended(pms, ms, expanded, depth, k);
  }

  /** When no path ends at any index past the origin's end, every extra
      element of a longer patch array is appended. */
  lemma OmitMergeAppendsExtra(items: seq<Json>, pitems: seq<Json>, paths: seq<Path>, depth: nat, scoped: bool)
    requires !FullMatch(ExpandPaths(Arr(items), paths), depth)
    requires forall i: nat :: |items| <= i < |pitems| ==> !Terminates(ExpandPaths(Arr(items), paths), depth, Index(i))
    ensures var r := OmitMergeWith(Arr(items), Some(Arr(pitems)), paths, depth, scoped).items;
      r[|items|..] == (if |pitems| > |items| then pitems[|items|..] else [])
  {
    var expanded := ExpandPaths(Arr(items), paths);
    KeptFromAll(pitems, |items|, expanded, depth);
  }

  lemma {:induction false} KeptFromAll(ps: seq<Json>, start: nat, expanded: seq<Path>, depth: nat)
    requires forall i: nat :: start <= i < |ps| ==> !Terminates(expanded, depth, Index(i))
    ensures KeptFrom(ps, start, expanded, depth) == if start < |ps| then ps[start..] else []
    decreases |ps| - start
  {
    if start < |ps| {
      KeptFromAll(ps, start + 1, expanded, depth);
      assert ps[start..] == [ps[start]] + (if start + 1 < |ps| then ps[start + 1..] else []);
    }
  }

  /** The origin's value at an excluded wildcard-free path survives the
      merge, as written and scoped alike. */
  lemma {:induction false} OmitMergeKeepsExcluded(v: Json, patch: Option<Json>, paths: seq<Path>, depth: nat, scoped: bool, q: Path)
    requires q in paths && !HasGlob(q) && depth <= |q| && Lookup(v, q[depth..]).Some?
    ensures Lookup(OmitMergeWith(v, patch, paths, depth, scoped), q[depth..]) == Lookup(v, q[depth..])
    decreases |q| - depth
  {
    var expanded := ExpandPaths(v, paths);
    assert q in expanded;
    if !FullMatch(expanded, depth) {
      var s := q[depth];
      LookupStep(v, q, depth);
      var sc := Scope(paths, depth, s, scoped);
      assert Selected(expanded, depth, s) by {
        assert q in expanded && depth < |q| && Selects(q[depth], s);
      }
      assert q in sc;
      OmitMergeKeepsExcluded(Child(v, s).value, Access(patch, s), sc, depth + 1, scoped, q);
      OmitMergeChild(v, patch, paths, depth, scoped, s);
      LookupThroughChild(OmitMergeWith(v, patch, paths, depth, scoped), v, q, depth);
    }
  }

  /** `p` lies on the route of `q`: each step of the shorter one selects the
      other's step. */
  predicate OnRoute(p: Path, q: Path) {
    forall i :: 0 <= i < |p| && i < |q| ==> Selects(p[i], q[i])
  }

  /** Scoped, a field on the route of no excluded path takes the patch's
      value wherever both sides have it. */
  lemma ScopedTakesPatch(v: Json, pv: Json, paths: seq<Path>, q: Path)
    requires GlobFree(paths) && |q| > 0
    requires forall p :: p in paths ==> !OnRoute(p, q)
    requires Lookup(v, q).Some? && Lookup(pv, q).Some?
    ensures Lookup(OmitMergeWith(v, Some(pv), paths, 0, true), q) == Lookup(pv, q)
  {
    forall p | p in paths
      ensures AgreesUpTo(p, q, 0)
    {
    }
    ScopedTakesPatchFrom(v, pv, paths, 0, q);
  }

  lemma {:induction false} ScopedTakesPatchFrom(v: Json, pv: Json, paths: seq<Path>, depth: nat, q: Path)
    requires GlobFree(paths) && depth < |q|
    requires forall p :: p in paths ==> AgreesUpTo(p, q, depth)
    requires forall p :: p in paths ==> !OnRoute(p, q)
    requires Lookup(v, q[depth..]).Some? && Lookup(pv, q[depth..]).Some?
    ensures Lookup(OmitMergeWith(v, Some(pv), paths, depth, true), q[depth..]) == Lookup(pv, q[depth..])
    decreases |q| - depth
  {
    assert ExpandPaths(v, paths) == paths;
    assert !FullMatch(paths, depth);
    var s := q[depth];
    LookupStep(v, q, depth);
    LookupStep(pv, q, depth);
    var r := OmitMergeWith(v, Some(pv), paths, depth, true);
    OmitMergeChild(v, Some(pv), paths, depth, true, s);
    if Selected(paths, depth, s) {
      var scoped := Scope(paths, depth, s, true);
      forall p | p in scoped
        ensures AgreesUpTo(p, q, depth + 1)
      {
        AgreesStep(p, q, depth);
      }
      var p0 :| p0 in paths && depth < |p0| && Selects(p0[depth], s);
      assert p0 in scoped;
      assert depth + 1 < |q|;
      ScopedTakesPatchFrom(Child(v, s).value, Child(pv, s).value, scoped, depth + 1, q);
    }
    LookupThroughChild(r, pv, q, depth);
  }

  /** `p` is at least `depth` long and selects `q`'s first `depth` steps. */
  predicate AgreesUpTo(p: Path, q: Path, depth: nat) {
    depth <= |p| && depth <= |q| && forall i :: 0 <= i < depth ==> Selects(p[i], q[i])
  }

  lemma AgreesStep(p: Path, q: Path, depth: nat)
    requires AgreesUpTo(p, q, depth) && depth < |p| && depth < |q| && Selects(p[depth], q[depth])
    ensures AgreesUpTo(p, q, depth + 1)
  {
  }

  /** One step of a lookup. */
  lemma LookupStep(v: Json, q: Path, depth: nat)
    requires depth < |q|
    ensures Lookup(v, q[depth..]) == match Child(v, q[depth]) case None => None case Some(c) => Lookup(c, q[depth + 1..])
  {
    assert q[depth..][1..] == q[depth + 1..];
  }

  /** Two values whose children at the next step read the same along the
      rest of the path read the same along the path. */
  lemma LookupThroughChild(r: Json, w: Json, q: Path, depth: nat)
    requires depth < |q| && Child(r, q[depth]).Some? && Child(w, q[depth]).Some?
    requires Lookup(Child(r, q[depth]).value, q[depth + 1..]) == Lookup(Child(w, q[depth]).value, q[depth + 1..])
    ensures Lookup(r, q[depth..]) == Lookup(w, q[depth..])
  {
    LookupStep(r, q, depth);
    LookupStep(w, q, depth);
  }

  /** `omitMergeFieldsDeep` as written. */
  function OmitMergeFieldsDeep(origin: Json, patch: Option<Json>, paths: seq<Path>): (r: Json)
    ensures FullMatch(ExpandPaths(origin, paths), 0) ==> r == origin
  {
    OmitMergeWith(origin, patch, paths, 0, false)
  }

  /** The exclude merge with the path list narrowed at each step. */
  function OmitMergeScoped(origin: Json, patch: Option<Json>, paths: seq<Path>): (r: Json)
    ensures FullMatch(ExpandPaths(origin, paths), 0) ==> r == origin
  {
    OmitMergeWith(origin, patch, paths, 0, true)
  }

  /** The origin, patch and exclusions of the sibling example: `a.x` and an
      unrelated one-step `zzz` are excluded. */
  function SiblingOrigin(): Json {
    Obj([Member("a", Obj([Member("x", Num(1)), Member("y", Num(2))]))])
  }

  function SiblingPatch(): Json {
    Obj([Member("a", Obj([Member("x", Num(10)), Member("y", Num(20))]))])
  }

  function SiblingPaths(): seq<Path> {
    [[Key("a"), Key("x")], [Key("zzz")]]
  }

  /** Where `a.y` reads in the sibling example. */
  lemma SiblingLookups(origin: Json, patch: Json, q: Path)
    requires origin == SiblingOrigin() && patch == SiblingPatch() && q == [Key("a"), Key("y")]
    ensures Child(origin, q[0]).Some? && Lookup(origin, q) == Some(Num(2)) && Lookup(patch, q) == Some(Num(20))
  {
    var inner := Obj([Member("x", Num(1)), Member("y", Num(2))]);
    var pinner := Obj([Member("x", Num(10)), Member("y", Num(20))]);
    assert "x" != "y" by {
      assert "x"[0] != "y"[0];
    }
    assert FindIndex(inner.members, "y") == 1 by {
      assert inner.members[1..] == [Member("y", Num(2))];
    }
    assert FindIndex(pinner.members, "y") == 1 by {
      assert pinner.members[1..] == [Member("y", Num(20))];
    }
    assert q[1..] == [Key("y")] && q[1..][1..] == [];
    assert Lookup(inner, q[1..]) == Some(Num(2));
    assert Lookup(pinner, q[1..]) == Some(Num(20));
  }

  /** As written, the whole list goes down unchanged, so once any excluded
      path is one step long, every child some path selects counts as fully
      matched one level down and keeps the origin's value entirely, whatever
      the patch says below it. */
  lemma AsWrittenFreezesSelected(v: Json, patch: Option<Json>, paths: seq<Path>, s: PathElement)
    requires GlobFree(paths) && Child(v, s).Some?
    requires !FullMatch(paths, 0) && FullMatch(paths, 1) && Selected(paths, 0, s)
    ensures Child(OmitMergeFieldsDeep(v, patch, paths), s) == Child(v, s)
  {
    assert ExpandPaths(v, paths) == paths;
    assert ExpandPaths(Child(v, s).value, paths) == paths;
    OmitMergeChild(v, patch, paths, 0, false, s);
  }

  /** Excluding `a.x` and an unrelated `zzz` freezes all of `a`, so the
      sibling `a.y` keeps the origin's 2. */
  lemma AsWrittenFreezesSibling(origin: Json, patch: Json, paths: seq<Path>)
    requires origin == SiblingOrigin() && patch == SiblingPatch() && paths == SiblingPaths()
    ensures Lookup(OmitMergeFieldsDeep(origin, Some(patch), paths), [Key("a"), Key("y")]) == Some(Num(2))
  {
    var q: Path := [Key("a"), Key("y")];
    assert GlobFree(paths) by {
      assert !HasGlob(paths[0]) && !HasGlob(paths[1]);
    }
    assert !FullMatch(paths, 0);
    assert FullMatch(paths, 1) by {
      assert paths[1] in paths;
    }
    assert Selected(paths, 0, Key("a")) by {
      assert paths[0] in paths && Selects(paths[0][0], Key("a"));
    }
    SiblingLookups(origin, patch, q);
    var r := OmitMergeFieldsDeep(origin, Some(patch), paths);
    AsWrittenFreezesSelected(origin, Some(patch), paths, Key("a"));
    LookupThroughChild(r, origin, q, 0);
    assert q[0..] == q;
  }

  /** Scoped, the same exclusions leave `a.y` free to take the patch's 20. */
  lemma ScopedUpdatesSibling(origin: Json, patch: Json, paths: seq<Path>)
    requires origin == SiblingOrigin() && patch == SiblingPatch() && paths == SiblingPaths()
    ensures Lookup(OmitMergeScoped(origin, Some(patch), paths), [Key("a"), Key("y")]) == Some(Num(20))
  {
    var q: Path := [Key("a"), Key("y")];
    assert GlobFree(paths) by {
      assert !HasGlob(paths[0]) && !HasGlob(paths[1]);
    }
    assert !OnRoute(paths[0], q) by {
      assert !Selects(paths[0][1], q[1]);
    }
    assert !OnRoute(paths[1], q) by {
      assert !Selects(paths[1][0], q[0]);
    }
    SiblingLookups(origin, patch, q);
    ScopedTakesPatch(origin, patch, paths, q);
  }

  // ---------------------------------------------------------------------------
  // Entry point

  /** `mergeFieldsSuper`: unless both values are containers the origin comes
      back as it is; otherwise the path strings are parsed and the include or
      (scoped) exclude merge applied from the root. */
  function MergeFieldsSuper(origin: Json, patch: Json, pathStrings: seq<string>, exclude: bool): (r: Json)
    ensures !IsContainer(origin) || !IsContainer(patch) ==> r == origin
    ensures IsContainer(origin) ==> (r.Arr? <==> origin.Arr?)
  {
    if !IsContainer(origin) || !IsContainer(patch) then origin
    else
      var parsed := Map(pathStrings, ParsePath);
      if exclude then OmitMergeScoped(origin, Some(patch), parsed)
      else MergeFieldsDeep(origin, Some(patch), parsed, [])
  }

  /** `mergeFieldsSuper` as written: excluding runs the exclude merge that
      hands the whole path list down, and including runs the merge that
      throws on a truthy primitive patch. */
  function MergeFieldsSuperAsWritten(origin: Json, patch: Json, pathStrings: seq<string>, exclude: bool): (r: Completion<Json>)
    ensures !IsContainer(origin) || !IsContainer(patch) ==> r == Normal(origin)
    ensures exclude ==> r.Normal?
  {
    if !IsContainer(origin) || !IsContainer(patch) then Normal(origin)
    else
      var parsed := Map(pathStrings, ParsePath);
      if exclude then Normal(OmitMergeFieldsDeep(origin, Some(patch), parsed))
      else MergeFieldsDeepAsWritten(origin, Some(patch), parsed, [])
  }

  /** When including, the entry point as written and the corrected one
      differ only where the written one throws; when excluding, the written
      one is the unscoped exclude merge. */
  lemma MergeFieldsSuperAsWrittenAgrees(origin: Json, patch: Json, pathStrings: seq<string>, exclude: bool)
    ensures var parsed := Map(pathStrings, ParsePath);
      MergeFieldsSuperAsWritten(origin, patch, pathStrings, exclude) ==
      if !IsContainer(origin) || !IsContainer(patch) then Normal(MergeFieldsSuper(origin, patch, pathStrings, exclude))
      else if exclude then Normal(OmitMergeWith(origin, Some(patch), parsed, 0, false))
      else if MergeThrows(origin, Some(patch), parsed, []) then TypeError
      else Normal(MergeFieldsSuper(origin, patch, pathStrings, exclude))
  {
    if IsContainer(origin) && IsContainer(patch) && !exclude {
      MergeAsWrittenAgrees(origin, Some(patch), Map(pathStrings, ParsePath), []);
    }
  }

  /** Merging a tree with itself gives it back, in either mode and for any
      paths. */
  lemma MergeFieldsSuperIdentity(t: Json, pathStrings: seq<string>, exclude: bool)
    requires Wf(t)
    ensures MergeFieldsSuper(t, t, pathStrings, exclude) == t
  {
    var parsed := Map(pathStrings, ParsePath);
    if IsContainer(t) {
      if exclude {
        OmitMergeIdentity(t, parsed, 0, true);
      } else {
        MergeIdentity(t, parsed, []);
      }
    }
  }
}

/** Path-scoped projection and merge of JSON values (`fieldOperations.ts`):
    keeping or dropping the fields named by a list of paths, and merging a
    patch into an origin either only along the named paths (include mode) or
    everywhere except along them (exclude mode). */
module FieldOperations {

  import opened Seqs
  import opened Text
  import opened Json
  import opened Utils
  import opened PathUtils

  // ---------------------------------------------------------------------------
  // Path lists

  /** `p[depth] === key` together with `key === null || key === idx`: the
      same key or index, or `null` standing for any index. */
  predicate Selects(e: PathElement, s: PathElement) {
    e == s || (e.AnyIndex? && s.Index?)
  }

  /** The paths whose segment at `depth` selects the step `s`. */
  function Matched(paths: seq<Path>, depth: nat, s: PathElement): (r: seq<Path>)
    ensures forall p :: p in r <==> p in paths && depth < |p| && Selects(p[depth], s)
  {
    Filter(paths, p => depth < |p| && Selects(p[depth], s))
  }

  /** Some path selecting `s` ends right there: `matched.some(p => p.length === depth + 1)`. */
  predicate Terminates(paths: seq<Path>, depth: nat, s: PathElement) {
    exists p :: p in paths && |p| == depth + 1 && Selects(p[depth], s)
  }

  /** Some path has an index or `null` at `depth`. */
  predicate HasArraySegment(paths: seq<Path>, depth: nat) {
    exists p: Path :: p in paths && depth < |p| && (p[depth].Index? || p[depth].AnyIndex?)
  }

  /** `p.slice(depth + 1)` for every path, all of which are longer than `depth`. */
  function Tails(paths: seq<Path>, depth: nat): (r: seq<Path>)
    requires forall p :: p in paths ==> depth < |p|
    ensures |r| == |paths|
    ensures forall i :: 0 <= i < |r| ==> r[i] == paths[i][depth + 1..]
  {
    if paths == [] then [] else [paths[0][depth + 1..]] + Tails(paths[1..], depth)
  }

  /** What the paths that go through key `k` at `depth` ask for below it. */
  function ChildPaths(paths: seq<Path>, depth: nat, k: string): seq<Path> {
    Tails(Matched(paths, depth, Key(k)), depth)
  }

  predicate NonEmptyPath(p: Path) {
    |p| > 0
  }

  /** The child paths that still ask for something below `k`. */
  function DeeperPaths(paths: seq<Path>, depth: nat, k: string): seq<Path> {
    Filter(ChildPaths(paths, depth, k), NonEmptyPath)
  }

  /** The remainder of a path through `k` is among the child paths. */
  lemma ChildPathsMember(paths: seq<Path>, depth: nat, k: string, p: Path)
    requires p in paths && depth < |p| && p[depth] == Key(k)
    ensures p[depth + 1..] in ChildPaths(paths, depth, k)
  {
    var m := Matched(paths, depth, Key(k));
    var j :| 0 <= j < |m| && m[j] == p;
    assert ChildPaths(paths, depth, k)[j] == p[depth + 1..];
  }

  /** An empty remainder among the child paths means a path ends at `k`. */
  lemma ChildPathsEmpty(paths: seq<Path>, depth: nat, k: string)
    ensures [] in ChildPaths(paths, depth, k) <==> Terminates(paths, depth, Key(k))
  {
    var m := Matched(paths, depth, Key(k));
    var c := ChildPaths(paths, depth, k);
    if [] in c {
      var j :| 0 <= j < |c| && c[j] == [];
      assert m[j] in m && |m[j]| == depth + 1;
    }
    if Terminates(paths, depth, Key(k)) {
      var p :| p in paths && |p| == depth + 1 && Selects(p[depth], Key(k));
      ChildPathsMember(paths, depth, k, p);
      assert p[depth + 1..] == [];
    }
  }

  /** The string keys at position `depth` of the paths, in order, with repeats. */
  function NamesAt(paths: seq<Path>, depth: nat): (r: seq<string>)
    ensures forall k :: k in r <==> exists p :: p in paths && depth < |p| && p[depth] == Key(k)
  {
    if paths == [] then []
    else
      var rest := NamesAt(paths[1..], depth);
      assert forall p :: p in paths <==> p == paths[0] || p in paths[1..];
      (if depth < |paths[0]| && paths[0][depth].Key? then [paths[0][depth].name] else []) + rest
  }

  /** `keysAtThisDepth`: the keys at `depth`, once each, in first-seen order. */
  function KeysAt(paths: seq<Path>, depth: nat): (r: seq<string>)
    ensures Distinct(r)
    ensures forall k :: k in r <==> exists p :: p in paths && depth < |p| && p[depth] == Key(k)
  {
    Dedup(NamesAt(paths, depth))
  }

  /** No path of the list holds `**`. */
  predicate GlobFree(paths: seq<Path>) {
    forall p :: p in paths ==> !HasGlob(p)
  }

  /** The path list with every `**` pattern replaced by the concrete paths of
      `input` it matches: first the wildcard-free paths, then each pattern's
      matches in pre-order. The result is wildcard-free, and a wildcard-free
      list expands to itself. */
  function ExpandPaths(input: Json, paths: seq<Path>): (r: seq<Path>)
    ensures GlobFree(r)
    ensures forall q :: q in paths && !HasGlob(q) ==> q in r
    ensures GlobFree(paths) ==> r == paths
  {
    PlainPaths(paths) + Expansions(input, Patterns(paths))
  }

  /** `paths.filter(path => !path.includes('**'))`. */
  function PlainPaths(paths: seq<Path>): (r: seq<Path>)
    ensures forall q :: q in r <==> q in paths && !HasGlob(q)
    ensures GlobFree(paths) ==> r == paths
  {
    if paths == [] then []
    else (if HasGlob(paths[0]) then [] else [paths[0]]) + PlainPaths(paths[1..])
  }

  /** `paths.filter(path => path.includes('**'))`. */
  function Patterns(paths: seq<Path>): (r: seq<Path>)
    ensures forall q :: q in r <==> q in paths && HasGlob(q)
    ensures GlobFree(paths) ==> r == []
  {
    if paths == [] then []
    else (if HasGlob(paths[0]) then [paths[0]] else []) + Patterns(paths[1..])
  }

  /** Each pattern's matches in `input`, one pattern after the other; all of
      them concrete, so free of `**`. */
  function Expansions(input: Json, patterns: seq<Path>): (r: seq<Path>)
    ensures GlobFree(r)
  {
    if patterns == [] then []
    else
      MatchesGlobFree(input, patterns[0]);
      CollectMatchingPaths(input, patterns[0], []) + Expansions(input, patterns[1..])
  }

  /** A path is among the expansions exactly when one of the patterns
      matches it. */
  lemma {:induction false} ExpansionsMembership(input: Json, patterns: seq<Path>, q: Path)
    ensures q in Expansions(input, patterns) <==> exists wp :: wp in patterns && q in CollectMatchingPaths(input, wp, [])
  {
    if patterns != [] {
      ExpansionsMembership(input, patterns[1..], q);
      if q in CollectMatchingPaths(input, patterns[0], []) {
        assert patterns[0] in patterns;
      }
      if exists wp :: wp in patterns && q in CollectMatchingPaths(input, wp, []) {
        var wp :| wp in patterns && q in CollectMatchingPaths(input, wp, []);
        if wp != patterns[0] {
          assert wp in patterns[1..];
        }
      }
    }
  }

  /** The concrete paths a pattern expands to hold no `**`. */
  lemma MatchesGlobFree(input: Json, wp: Path)
    ensures GlobFree(CollectMatchingPaths(input, wp, []))
  {
    NodePathsConcrete(input, []);
    CollectMatchingIsFilter(input, wp, []);
    forall q | q in CollectMatchingPaths(input, wp, [])
      ensures !HasGlob(q)
    {
      ConcreteNoGlob(q);
    }
  }

  lemma ConcreteNoGlob(q: Path)
    requires IsConcrete(q)
    ensures !HasGlob(q)
  {
    assert forall i :: 0 <= i < |q| ==> q[i] != Glob;
  }

  /** On a value with distinct keys, the expanded list holds exactly the
      wildcard-free paths and the present paths that some pattern matches. */
  lemma ExpandMembership(input: Json, paths: seq<Path>, q: Path)
    requires Wf(input)
    ensures q in ExpandPaths(input, paths) <==>
      (q in paths && !HasGlob(q)) ||
      (Lookup(input, q).Some? && exists wp :: wp in paths && HasGlob(wp) && IsPathMatch(q, wp))
  {
    if exists wp :: wp in paths && HasGlob(wp) && IsPathMatch(q, wp) && Lookup(input, q).Some? {
      var wp :| wp in paths && HasGlob(wp) && IsPathMatch(q, wp) && Lookup(input, q).Some?;
      CollectMatchingMembership(input, wp, q);
      assert wp in Patterns(paths);
    }
    ExpansionsMembership(input, Patterns(paths), q);
    if q in Expansions(input, Patterns(paths)) {
      var wp :| wp in Patterns(paths) && q in CollectMatchingPaths(input, wp, []);
      CollectMatchingMembership(input, wp, q);
    }
  }

  // ---------------------------------------------------------------------------
  // Pick

  /** Whether a picked child is kept: it is defined and not an empty plain
      object; empty arrays, scalars and `null` are kept. */
  predicate KeepPicked(picked: Option<Json>) {
    picked.Some? && !(picked.value.Obj? && |picked.value.members| == 0)
  }

  /** The keep test as written, which calls `Object.keys` on a `null` child
      and so throws a `TypeError` for it. */
  function KeepPickedAsWritten(picked: Option<Json>): (r: Completion<bool>)
    ensures picked == Some(Null) ==> r.TypeError?
    ensures picked != Some(Null) ==> r == Normal(KeepPicked(picked))
  {
    match picked
    case None => Normal(false)
    case Some(v) =>
      if !IsContainer(v) && !v.Null? then Normal(true)
      else if v.Null? then TypeError
      else if v.Obj? && |v.members| > 0 then Normal(true)
      else Normal(v.Arr?)
  }

  /** `pickFieldsDeep`: keep only what the paths name. `null` comes back as
      is, other scalars as `undefined`; arrays are filtered element by element
      and compacted; objects keep the named keys they have. The source
      expands `**` patterns again at every level, but what reaches a deeper
      level is already wildcard-free and expands to itself, so expanding once
      here is the same. */
  function PickFieldsDeep(input: Json, paths: seq<Path>, depth: nat): (r: Option<Json>)
    ensures input.Null? ==> r == Some(Null)
    ensures !IsContainer(input) && !input.Null? ==> r == None
    ensures input.Arr? ==> r.Some? && r.value.Arr? && |r.value.items| <= |input.items|
    ensures input.Arr? && !HasArraySegment(ExpandPaths(input, paths), depth) ==> r == Some(Arr([]))
    ensures input.Obj? ==> r.Some? && r.value.Obj?
  {
    PickPlain(input, ExpandPaths(input, paths), depth)
  }

  /** The pick for a wildcard-free path list. */
  function PickPlain(input: Json, paths: seq<Path>, depth: nat): (r: Option<Json>)
    ensures input.Null? ==> r == Some(Null)
    ensures !IsContainer(input) && !input.Null? ==> r == None
    ensures input.Arr? ==> r.Some? && r.value.Arr? && |r.value.items| <= |input.items|
    ensures input.Arr? && !HasArraySegment(paths, depth) ==> r == Some(Arr([]))
    ensures input.Obj? ==> r.Some? && r.value.Obj?
    decreases input, 0
  {
    match input
    case Null => Some(Null)
    case Arr(items) =>
      if !HasArraySegment(paths, depth) then Some(Arr([]))
      else Some(Arr(PickItems(items, 0, paths, depth)))
    case Obj(ms) => Some(Obj(PickKeys(ms, KeysAt(paths, depth), paths, depth)))
    case _ => None
  }

  /** The picked elements from index `idx` on, those not kept left out. */
  function PickItems(items: seq<Json>, idx: nat, paths: seq<Path>, depth: nat): (r: seq<Json>)
    ensures |r| <= |items|
    ensures forall i :: 0 <= i < |r| ==> KeepPicked(Some(r[i]))
    decreases items, 0
  {
    if items == [] then []
    else
      var picked := PickPlain(items[0], Matched(paths, depth, Index(idx)), depth + 1);
      var rest := PickItems(items[1..], idx + 1, paths, depth);
      if KeepPicked(picked) then [picked.value] + rest else rest
  }

  /** The pick of every element, the one at offset `i` sitting at index
      `idx + i`. */
  function ElementPicks(items: seq<Json>, idx: nat, paths: seq<Path>, depth: nat): (r: seq<Option<Json>>)
    ensures |r| == |items|
  {
    seq(|items|, i requires 0 <= i < |items| => ElementPick(items[i], paths, depth, idx + i))
  }

  /** The pick of the element at index `n`, with the paths that select it. */
  function ElementPick(v: Json, paths: seq<Path>, depth: nat, n: nat): Option<Json> {
    PickPlain(v, Matched(paths, depth, Index(n)), depth + 1)
  }

  /** The values of the picks that pass the keep test, in order. */
  function Compact(ps: seq<Option<Json>>): (r: seq<Json>) {
    if ps == [] then []
    else (if KeepPicked(ps[0]) then [ps[0].value] else []) + Compact(ps[1..])
  }

  /** The offsets of the picks that pass the keep test, in order. */
  function KeptOffsets(ps: seq<Option<Json>>): (r: seq<nat>) {
    if ps == [] then []
    else
      var rest := KeptOffsets(ps[1..]);
      (if KeepPicked(ps[0]) then [0] else []) + seq(|rest|, j requires 0 <= j < |rest| => rest[j] + 1)
  }

  /** `r` holds the picks of `ps` at offsets `js`: its `t`-th element is the
      pick at the `t`-th offset, the offsets increase, and a pick is among
      them exactly when it passes the keep test. */
  predicate IsCompaction(r: seq<Json>, js: seq<nat>, ps: seq<Option<Json>>) {
    && |js| == |r|
    && (forall t :: 0 <= t < |js| ==> js[t] < |ps| && Some(r[t]) == ps[js[t]])
    && (forall t, u :: 0 <= t < u < |js| ==> js[t] < js[u])
    && (forall i: nat :: i < |ps| ==> (i in js <==> KeepPicked(ps[i])))
  }

  /** The compacted array is the kept picks of the elements, in element order. */
  lemma {:induction false} PickItemsCompacts(items: seq<Json>, idx: nat, paths: seq<Path>, depth: nat)
    ensures PickItems(items, idx, paths, depth) == Compact(ElementPicks(items, idx, paths, depth))
    decreases items
  {
    if items != [] {
      PickItemsCompacts(items[1..], idx + 1, paths, depth);
      var ps := ElementPicks(items, idx, paths, depth);
      ElementPicksTail(items, idx, paths, depth);
      var picked := ElementPick(items[0], paths, depth, idx);
      assert ps[0] == picked;
      CompactStep(ps, picked, PickItems(items[1..], idx + 1, paths, depth));
    } else {
      assert ElementPicks(items, idx, paths, depth) == [];
    }
  }

  /** One step of the compaction, in terms of the compaction of the rest. */
  lemma CompactStep(ps: seq<Option<Json>>, picked: Option<Json>, rest: seq<Json>)
    requires ps != [] && ps[0] == picked && Compact(ps[1..]) == rest
    ensures Compact(ps) == if KeepPicked(picked) then [picked.value] + rest else rest
  {
  }

  /** The picks of the tail are the tail of the picks. */
  lemma ElementPicksTail(items: seq<Json>, idx: nat, paths: seq<Path>, depth: nat)
    requires items != []
    ensures ElementPicks(items[1..], idx + 1, paths, depth) == ElementPicks(items, idx, paths, depth)[1..]
  {
    var ps := ElementPicks(items, idx, paths, depth);
    var qs := ElementPicks(items[1..], idx + 1, paths, depth);
    forall i | 0 <= i < |qs|
      ensures qs[i] == ps[i + 1]
    {
      ElementPicksShift(items, idx, paths, depth, i);
    }
    assert qs == ps[1..];
  }

  /** The `i`-th pick of the tail is the `i + 1`-th pick of the whole. */
  lemma ElementPicksShift(items: seq<Json>, idx: nat, paths: seq<Path>, depth: nat, i: nat)
    requires i + 1 < |items|
    ensures ElementPicks(items[1..], idx + 1, paths, depth)[i] == ElementPicks(items, idx, paths, depth)[i + 1]
  {
    assert items[1..][i] == items[i + 1] && idx + 1 + i == idx + (i + 1);
  }

  /** The compaction holds exactly the kept picks, in order. */
  lemma {:induction false} CompactKept(ps: seq<Option<Json>>)
    ensures IsCompaction(Compact(ps), KeptOffsets(ps), ps)
    decreases ps
  {
    if ps != [] {
      CompactKept(ps[1..]);
      var rest := KeptOffsets(ps[1..]);
      var shifted := seq(|rest|, j requires 0 <= j < |rest| => rest[j] + 1);
      ShiftedOffsets(ps, Compact(ps[1..]), rest, shifted);
      if KeepPicked(ps[0]) {
        ConsCompaction(ps, Compact(ps[1..]), shifted);
      }
    }
  }

  /** The tail's offsets moved up by one are a compaction of the whole list
      that leaves out the first pick. */
  lemma ShiftedOffsets(ps: seq<Option<Json>>, rr: seq<Json>, rest: seq<nat>, shifted: seq<nat>)
    requires ps != []
    requires IsCompaction(rr, rest, ps[1..])
    requires |shifted| == |rest| && forall j :: 0 <= j < |rest| ==> shifted[j] == rest[j] + 1
    ensures 0 !in shifted
    ensures forall i: nat :: 0 < i < |ps| ==> (i in shifted <==> KeepPicked(ps[i]))
    ensures forall t :: 0 <= t < |shifted| ==> shifted[t] < |ps| && Some(rr[t]) == ps[shifted[t]]
    ensures forall t, u :: 0 <= t < u < |shifted| ==> shifted[t] < shifted[u]
  {
    forall i: nat | 0 < i < |ps|
      ensures i in shifted <==> i - 1 in rest
    {
      if i in shifted {
        var j :| 0 <= j < |shifted| && shifted[j] == i;
      }
      if i - 1 in rest {
        var j :| 0 <= j < |rest| && rest[j] == i - 1;
        assert shifted[j] == i;
      }
    }
    forall i: nat | 0 < i < |ps|
      ensures i in shifted <==> KeepPicked(ps[i])
    {
      assert ps[1..][i - 1] == ps[i];
    }
  }

  /** Putting a kept first pick in front keeps the compaction. */
  lemma ConsCompaction(ps: seq<Option<Json>>, rr: seq<Json>, shifted: seq<nat>)
    requires ps != [] && KeepPicked(ps[0])
    requires 0 !in shifted && |shifted| == |rr|
    requires forall i: nat :: 0 < i < |ps| ==> (i in shifted <==> KeepPicked(ps[i]))
    requires forall t :: 0 <= t < |shifted| ==> shifted[t] < |ps| && Some(rr[t]) == ps[shifted[t]]
    requires forall t, u :: 0 <= t < u < |shifted| ==> shifted[t] < shifted[u]
    ensures IsCompaction([ps[0].value] + rr, [0] + shifted, ps)
  {
    var r := [ps[0].value] + rr;
    var js := [0] + shifted;
    forall t, u | 0 <= t < u < |js|
      ensures js[t] < js[u]
    {
      if t > 0 {
        assert js[t] == shifted[t - 1] && js[u] == shifted[u - 1];
      } else {
        assert js[u] == shifted[u - 1] && js[u] != 0;
      }
    }
    forall t | 0 <= t < |js|
      ensures js[t] < |ps| && Some(r[t]) == ps[js[t]]
    {
      if t > 0 {
        assert js[t] == shifted[t - 1] && r[t] == rr[t - 1];
      }
    }
    forall i: nat | i < |ps|
      ensures i in js <==> KeepPicked(ps[i])
    {
      assert i in js <==> i == 0 || i in shifted;
    }
  }

  /** The picked elements of an array are exactly the kept picks of its
      elements, in increasing index order. */
  lemma PickItemsKept(items: seq<Json>, idx: nat, paths: seq<Path>, depth: nat)
    ensures var ps := ElementPicks(items, idx, paths, depth);
      IsCompaction(PickItems(items, idx, paths, depth), KeptOffsets(ps), ps)
  {
    PickItemsCompacts(items, idx, paths, depth);
    CompactKept(ElementPicks(items, idx, paths, depth));
  }

  /** Array elements that are non-null scalars are never kept: a pattern
      such as `a[0]` that ends at one picks nothing, so picking again after
      the compaction is not the same pick. */
  lemma {:induction false} PickItemsDropsScalars(items: seq<Json>, idx: nat, paths: seq<Path>, depth: nat)
    requires forall i :: 0 <= i < |items| ==> !IsContainer(items[i]) && !items[i].Null?
    ensures PickItems(items, idx, paths, depth) == []
    decreases items
  {
    if items != [] {
      PickItemsDropsScalars(items[1..], idx + 1, paths, depth);
    }
  }

  lemma PickDropsScalarElements(items: seq<Json>, paths: seq<Path>, depth: nat)
    requires forall i :: 0 <= i < |items| ==> !IsContainer(items[i]) && !items[i].Null?
    ensures PickFieldsDeep(Arr(items), paths, depth) == Some(Arr([]))
  {
    PickItemsDropsScalars(items, 0, ExpandPaths(Arr(items), paths), depth);
  }

  /** The picked value under key `k`: the whole value when no path goes
      below `k`, otherwise the picked child when it is kept. */
  function PickKey(ms: seq<Member>, k: string, paths: seq<Path>, depth: nat): (r: Option<Json>)
    ensures r.Some? ==> HasKey(ms, k)
    decreases ms, 0
  {
    var child := DeeperPaths(paths, depth, k);
    var i := FindIndex(ms, k);
    if i < 0 then None
    else if child == [] then Some(ms[i].value)
    else
      var picked := PickPlain(ms[i].value, child, 0);
      if KeepPicked(picked) then picked else None
  }

  /** The member for key `k` in the picked object, if any. */
  function PickKeyMember(ms: seq<Member>, k: string, paths: seq<Path>, depth: nat): (r: seq<Member>)
    ensures |r| <= 1 && forall m :: m in r ==> m.key == k && HasKey(ms, k)
    decreases ms, 1
  {
    match PickKey(ms, k, paths, depth)
    case None => []
    case Some(w) => [Member(k, w)]
  }

  /** The members of the picked object, in the order of `keys`. */
  function PickKeys(ms: seq<Member>, keys: seq<string>, paths: seq<Path>, depth: nat): (r: seq<Member>)
    ensures forall m :: m in r ==> m.key in keys && HasKey(ms, m.key)
    decreases ms, |keys| + 2
  {
    if keys == [] then []
    else PickKeyMember(ms, keys[0], paths, depth) + PickKeys(ms, keys[1..], paths, depth)
  }

  /** Looking a key up in a picked object finds the picked value for it, and
      only keys in the list are found. */
  lemma {:induction false} PickKeysFind(ms: seq<Member>, keys: seq<string>, paths: seq<Path>, depth: nat, k: string)
    ensures Find(PickKeys(ms, keys, paths, depth), k) == (if k in keys then PickKey(ms, k, paths, depth) else None)
  {
    if keys != [] {
      PickKeysFind(ms, keys[1..], paths, depth, k);
      FindAppend(PickKeyMember(ms, keys[0], paths, depth), PickKeys(ms, keys[1..], paths, depth), k);
    }
  }

  /** Looking up in a concatenation looks in the first part first. */
  lemma FindAppend(a: seq<Member>, b: seq<Member>, k: string)
    ensures Find(a + b, k) == if HasKey(a, k) then Find(a, k) else Find(b, k)
  {
    HasKeyAppend(a, b, k);
    if HasKey(a, k) {
      var i := FindIndex(a, k);
      FirstIndex(a + b, k, i);
    } else if HasKey(b, k) {
      var i := FindIndex(b, k);
      FirstIndex(a + b, k, |a| + i);
    }
  }

  /** The first member with a key is the one `FindIndex` finds. */
  lemma FirstIndex(ms: seq<Member>, k: string, i: int)
    requires 0 <= i < |ms| && ms[i].key == k && forall j :: 0 <= j < i ==> ms[j].key != k
    ensures FindIndex(ms, k) == i
  {
  }

  /** In a picked object, a key all of whose paths end there holds the input
      value unchanged. */
  lemma PickTerminalCopies(ms: seq<Member>, paths: seq<Path>, depth: nat, k: string)
    requires HasKey(ms, k)
    requires exists p :: p in ExpandPaths(Obj(ms), paths) && depth < |p| && p[depth] == Key(k)
    requires forall p :: p in ExpandPaths(Obj(ms), paths) && depth < |p| && p[depth] == Key(k) ==> |p| == depth + 1
    ensures Find(PickFieldsDeep(Obj(ms), paths, depth).value.members, k) == Find(ms, k)
  {
    var expanded := ExpandPaths(Obj(ms), paths);
    var keys := KeysAt(expanded, depth);
    assert PickFieldsDeep(Obj(ms), paths, depth).value.members == PickKeys(ms, keys, expanded, depth);
    assert k in keys;
    PickKeysFind(ms, keys, expanded, depth, k);
    NoChildPaths(expanded, depth, k);
    PickKeyTerminal(ms, k, expanded, depth);
  }

  /** A key nothing is asked below is picked whole. */
  lemma PickKeyTerminal(ms: seq<Member>, k: string, paths: seq<Path>, depth: nat)
    requires HasKey(ms, k) && DeeperPaths(paths, depth, k) == []
    ensures PickKey(ms, k, paths, depth) == Find(ms, k)
  {
  }

  /** When every path through `k` ends there, nothing is asked below `k`. */
  lemma NoChildPaths(paths: seq<Path>, depth: nat, k: string)
    requires forall p :: p in paths && depth < |p| && p[depth] == Key(k) ==> |p| == depth + 1
    ensures DeeperPaths(paths, depth, k) == []
  {
    var c := ChildPaths(paths, depth, k);
    forall x | x in c
      ensures !NonEmptyPath(x)
    {
      var p := ChildPathsSource(paths, depth, k, x);
    }
    FilterNone(c, NonEmptyPath);
  }

  /** A picked object has only keys the input has and the paths name at
      this depth. */
  lemma PickObjectKeys(ms: seq<Member>, paths: seq<Path>, depth: nat, k: string)
    requires HasKey(PickFieldsDeep(Obj(ms), paths, depth).value.members, k)
    ensures HasKey(ms, k)
    ensures exists p :: p in ExpandPaths(Obj(ms), paths) && depth < |p| && p[depth] == Key(k)
  {
    var expanded := ExpandPaths(Obj(ms), paths);
    var rs := PickKeys(ms, KeysAt(expanded, depth), expanded, depth);
    var j :| 0 <= j < |rs| && rs[j].key == k;
    assert rs[j] in rs;
  }

  /** Picking nothing leaves an empty container. */
  lemma PickNothing(v: Json, depth: nat)
    requires IsContainer(v)
    ensures PickFieldsDeep(v, [], depth) == Some(if v.Arr? then Arr([]) else Obj([]))
  {
    assert ExpandPaths(v, []) == [];
    assert PickFieldsDeep(v, [], depth) == PickPlain(v, [], depth);
    if v.Obj? {
      assert KeysAt([], depth) == [];
      assert PickKeys(v.members, [], [], depth) == [];
      assert PickPlain(v, [], depth) == Some(Obj(PickKeys(v.members, KeysAt([], depth), [], depth)));
    } else {
      assert !HasArraySegment([], depth);
    }
  }

  /** Every wildcard-free path made of keys that no other path extends
      survives a pick: the picked value reads the same as the input along
      it. */
  lemma PickKeepsPath(v: Json, paths: seq<Path>, q: Path)
    requires GlobFree(paths)
    requires q in paths && |q| > 0 && forall i :: 0 <= i < |q| ==> q[i].Key?
    requires forall p :: p in paths && |p| > |q| ==> p[..|q|] != q
    requires Lookup(v, q).Some?
    ensures PickFieldsDeep(v, paths, 0).Some?
    ensures Lookup(PickFieldsDeep(v, paths, 0).value, q) == Lookup(v, q)
  {
    PickPlainKeepsPath(v, paths, q);
  }

  lemma {:induction false} PickPlainKeepsPath(v: Json, paths: seq<Path>, q: Path)
    requires q in paths && |q| > 0 && forall i :: 0 <= i < |q| ==> q[i].Key?
    requires forall p :: p in paths && |p| > |q| ==> p[..|q|] != q
    requires Lookup(v, q).Some?
    ensures PickPlain(v, paths, 0).Some?
    ensures Lookup(PickPlain(v, paths, 0).value, q) == Lookup(v, q)
    decreases v, 1
  {
    assert v.Obj? && HasKey(v.members, q[0].name);
    if |q| == 1 {
      PickKeepsLast(v.members, paths, q);
    } else {
      PickKeepsDeeper(v.members, paths, q);
    }
  }

  /** The case of a path longer than one key: the pick below the first key
      keeps the rest of the path. */
  lemma {:induction false} PickKeepsDeeper(ms: seq<Member>, paths: seq<Path>, q: Path)
    requires q in paths && |q| > 1 && forall i :: 0 <= i < |q| ==> q[i].Key?
    requires forall p :: p in paths && |p| > |q| ==> p[..|q|] != q
    requires HasKey(ms, q[0].name) && Lookup(Obj(ms), q).Some?
    ensures PickPlain(Obj(ms), paths, 0).Some?
    ensures Lookup(PickPlain(Obj(ms), paths, 0).value, q) == Lookup(Obj(ms), q)
    decreases ms, 0
  {
    var k := q[0].name;
    var child := DeeperPaths(paths, 0, k);
    var w := ms[FindIndex(ms, k)].value;
    ChildKeepsPath(paths, q);
    LookupThroughKey(ms, q);
    assert Lookup(w, q[1..]).Some?;
    assert forall i :: 0 <= i < |q[1..]| ==> q[1..][i].Key?;
    PickPlainKeepsPath(w, child, q[1..]);
    PickKeepsStep(ms, paths, q);
  }

  /** A one-key path that no other path extends is picked whole. */
  lemma PickKeepsLast(ms: seq<Member>, paths: seq<Path>, q: Path)
    requires q in paths && |q| == 1 && q[0].Key? && HasKey(ms, q[0].name)
    requires forall p :: p in paths && |p| > |q| ==> p[..|q|] != q
    ensures Lookup(PickPlain(Obj(ms), paths, 0).value, q) == Lookup(Obj(ms), q)
  {
    PickFindsKey(ms, paths, q);
    OnlyEndsAt(paths, q);
  }

  /** One key down: when the pick below the key keeps the rest of the path,
      the pick of the object keeps the whole path. */
  lemma PickKeepsStep(ms: seq<Member>, paths: seq<Path>, q: Path)
    requires q in paths && |q| > 1 && q[0].Key? && q[1].Key? && HasKey(ms, q[0].name)
    requires var child := DeeperPaths(paths, 0, q[0].name);
      var w := ms[FindIndex(ms, q[0].name)].value;
      q[1..] in child &&
      PickPlain(w, child, 0).Some? &&
      Lookup(PickPlain(w, child, 0).value, q[1..]) == Lookup(w, q[1..]) &&
      Lookup(w, q[1..]).Some?
    ensures Lookup(PickPlain(Obj(ms), paths, 0).value, q) == Lookup(Obj(ms), q)
  {
    PickFindsKey(ms, paths, q);
    var k := q[0].name;
    var child := DeeperPaths(paths, 0, k);
    var w := ms[FindIndex(ms, k)].value;
    assert child != [];
    PickedChildKept(w, child, q[1..]);
  }

  /** The picked object holds, under the first key of a named path, the
      picked value for that key. */
  lemma PickFindsKey(ms: seq<Member>, paths: seq<Path>, q: Path)
    requires q in paths && |q| > 0 && q[0].Key? && HasKey(ms, q[0].name)
    ensures Find(PickPlain(Obj(ms), paths, 0).value.members, q[0].name) == PickKey(ms, q[0].name, paths, 0)
  {
    assert q[0] == Key(q[0].name);
    PickKeysFind(ms, KeysAt(paths, 0), paths, 0, q[0].name);
  }

  /** A one-key path that no other path extends asks for nothing below. */
  lemma OnlyEndsAt(paths: seq<Path>, q: Path)
    requires |q| == 1 && q[0].Key?
    requires forall p :: p in paths && |p| > |q| ==> p[..|q|] != q
    ensures DeeperPaths(paths, 0, q[0].name) == []
  {
    forall p | p in paths && 0 < |p| && p[0] == Key(q[0].name)
      ensures |p| == 1
    {
      assert p[..1] == q;
    }
    NoChildPaths(paths, 0, q[0].name);
  }

  /** Below the first key, the rest of the path is still named, still
      wildcard-free and still not extended by any other path. */
  lemma ChildKeepsPath(paths: seq<Path>, q: Path)
    requires q in paths && |q| > 1 && q[0].Key?
    requires forall p :: p in paths && |p| > |q| ==> p[..|q|] != q
    ensures var child := DeeperPaths(paths, 0, q[0].name);
      q[1..] in child &&
      (forall p :: p in child && |p| > |q[1..]| ==> p[..|q[1..]|] != q[1..])
  {
    var k := q[0].name;
    ChildPathsMember(paths, 0, k, q);
    ChildNotExtended(paths, q);
  }

  lemma ChildNotExtended(paths: seq<Path>, q: Path)
    requires |q| > 1 && q[0].Key?
    requires forall p :: p in paths && |p| > |q| ==> p[..|q|] != q
    ensures forall p :: p in ChildPaths(paths, 0, q[0].name) && |p| > |q[1..]| ==> p[..|q[1..]|] != q[1..]
  {
    var k := q[0].name;
    forall p | p in ChildPaths(paths, 0, k) && |p| > |q[1..]|
      ensures p[..|q[1..]|] != q[1..]
    {
      var o := ChildPathsSource(paths, 0, k, p);
      ChildNotExtendedOne(o, p, q);
    }
  }

  lemma ChildNotExtendedOne(o: Path, p: Path, q: Path)
    requires |q| > 1 && |o| > 0 && o[0] == q[0] && p == o[1..] && |p| > |q[1..]|
    requires o[..|q|] != q
    ensures p[..|q[1..]|] != q[1..]
  {
    assert o[..|q|] == [o[0]] + p[..|q| - 1];
    assert q == [q[0]] + q[1..];
  }

  /** Where a child path came from: a path through `k` it is the rest of. */
  lemma ChildPathsSource(paths: seq<Path>, depth: nat, k: string, c: Path) returns (p: Path)
    requires c in ChildPaths(paths, depth, k)
    ensures p in paths && depth < |p| && p[depth] == Key(k) && c == p[depth + 1..]
  {
    var m := Matched(paths, depth, Key(k));
    var cs := ChildPaths(paths, depth, k);
    var j :| 0 <= j < |cs| && cs[j] == c;
    p := m[j];
    assert p in m;
  }

  /** A picked object that still reaches a path is not empty, so it is kept. */
  lemma PickedChildKept(w: Json, child: seq<Path>, q: Path)
    requires |q| > 0 && PickPlain(w, child, 0).Some?
    requires Lookup(PickPlain(w, child, 0).value, q).Some? && q[0].Key?
    ensures KeepPicked(PickPlain(w, child, 0))
  {
  }

  /** The keep test as written fails exactly on a picked `null`, and a pick
      yields `null` exactly for a `null` input. */
  lemma KeepTestThrowsOnNull(v: Json, paths: seq<Path>, depth: nat)
    ensures KeepPickedAsWritten(PickPlain(v, paths, depth)).TypeError? <==> v.Null?
  {
  }

  /** Whether `pickFieldsDeep` as written throws somewhere below: an array
      element, or a named key with paths going on below it, holds `null`, so
      the keep test calls `Object.keys(null)`. */
  predicate PickThrows(input: Json, paths: seq<Path>, depth: nat)
    decreases input, 0
  {
    match input
    case Arr(items) => HasArraySegment(paths, depth) && ItemsThrow(items, 0, paths, depth)
    case Obj(ms) => KeysThrow(ms, KeysAt(paths, depth), paths, depth)
    case Null => false
    case Bool(_) => false
    case Num(_) => false
    case Str(_) => false
  }

  /** Some element from index `idx` on throws. */
  predicate ItemsThrow(items: seq<Json>, idx: nat, paths: seq<Path>, depth: nat)
    decreases items, 1
  {
    items != [] &&
    (ElementThrows(items[0], paths, depth, idx) || ItemsThrow(items[1..], idx + 1, paths, depth))
  }

  /** Some key of `keys` throws. */
  predicate KeysThrow(ms: seq<Member>, keys: seq<string>, paths: seq<Path>, depth: nat)
    decreases ms, |keys| + 1
  {
    keys != [] && (KeyThrows(ms, keys[0], paths, depth) || KeysThrow(ms, keys[1..], paths, depth))
  }

  /** The element at index `idx` is `null`, or its own pick throws. */
  predicate ElementThrows(v: Json, paths: seq<Path>, depth: nat, idx: nat)
    decreases v, 2
  {
    v.Null? || PickThrows(v, Matched(paths, depth, Index(idx)), depth + 1)
  }

  /** Key `k` is present, paths go on below it, and its value is `null` or
      its own pick throws. */
  predicate KeyThrows(ms: seq<Member>, k: string, paths: seq<Path>, depth: nat)
    decreases ms, 0
  {
    var child := DeeperPaths(paths, depth, k);
    var i := FindIndex(ms, k);
    i >= 0 && child != [] && (ms[i].value.Null? || PickThrows(ms[i].value, child, 0))
  }

  /** `pickFieldsDeep` as written: the pick, or the `TypeError` it throws. */
  function PickFieldsDeepAsWritten(input: Json, paths: seq<Path>, depth: nat): Completion<Option<Json>> {
    PickPlainAsWritten(input, ExpandPaths(input, paths), depth)
  }

  /** The pick of a wildcard-free path list as written: the same recursion
      as `PickPlain`, but every keep test is the throwing one and a throw
      below ends the whole pick. */
  function PickPlainAsWritten(input: Json, paths: seq<Path>, depth: nat): Completion<Option<Json>>
    decreases input, 0
  {
    match input
    case Null => Normal(Some(Null))
    case Arr(items) =>
      if !HasArraySegment(paths, depth) then Normal(Some(Arr([])))
      else
        (match PickItemsAsWritten(items, 0, paths, depth)
         case TypeError => TypeError
         case Normal(rs) => Normal(Some(Arr(rs))))
    case Obj(ms) =>
      (match PickKeysAsWritten(ms, KeysAt(paths, depth), paths, depth)
       case TypeError => TypeError
       case Normal(rs) => Normal(Some(Obj(rs))))
    case Bool(_) => Normal(None)
    case Num(_) => Normal(None)
    case Str(_) => Normal(None)
  }

  /** The `forEach` over the elements from index `idx` on, as written. */
  function PickItemsAsWritten(items: seq<Json>, idx: nat, paths: seq<Path>, depth: nat): Completion<seq<Json>>
    decreases items, 0
  {
    if items == [] then Normal([])
    else
      match PickPlainAsWritten(items[0], Matched(paths, depth, Index(idx)), depth + 1)
      case TypeError => TypeError
      case Normal(picked) =>
        (match KeepPickedAsWritten(picked)
         case TypeError => TypeError
         case Normal(keep) =>
           (match PickItemsAsWritten(items[1..], idx + 1, paths, depth)
            case TypeError => TypeError
            case Normal(rest) => Normal(if keep && picked.Some? then [picked.value] + rest else rest)))
  }

  /** The `forEach` over `keysAtThisDepth`, as written. */
  function PickKeysAsWritten(ms: seq<Member>, keys: seq<string>, paths: seq<Path>, depth: nat): Completion<seq<Member>>
    decreases ms, |keys| + 1
  {
    if keys == [] then Normal([])
    else
      match PickKeyAsWritten(ms, keys[0], paths, depth)
      case TypeError => TypeError
      case Normal(h) =>
        (match PickKeysAsWritten(ms, keys[1..], paths, depth)
         case TypeError => TypeError
         case Normal(rest) => Normal(h + rest))
  }

  /** One key of the object, as written: copied whole when no path goes on
      below it, otherwise picked and put through the throwing keep test. */
  function PickKeyAsWritten(ms: seq<Member>, k: string, paths: seq<Path>, depth: nat): Completion<seq<Member>>
    decreases ms, 0
  {
    var child := DeeperPaths(paths, depth, k);
    var i := FindIndex(ms, k);
    if i < 0 then Normal([])
    else if child == [] then Normal([Member(k, ms[i].value)])
    else
      match PickPlainAsWritten(ms[i].value, child, 0)
      case TypeError => TypeError
      case Normal(picked) =>
        (match KeepPickedAsWritten(picked)
         case TypeError => TypeError
         case Normal(keep) => Normal(if keep && picked.Some? then [Member(k, picked.value)] else []))
  }

  /** The pick as written throws exactly when some visited element or named
      key below holds `null`, and otherwise gives what the corrected pick
      gives. */
  lemma PickAsWrittenAgrees(input: Json, paths: seq<Path>, depth: nat)
    ensures PickFieldsDeepAsWritten(input, paths, depth) ==
      if PickThrows(input, ExpandPaths(input, paths), depth) then TypeError
      else Normal(PickFieldsDeep(input, paths, depth))
  {
    PickPlainAgrees(input, ExpandPaths(input, paths), depth);
  }

  lemma {:induction false} PickPlainAgrees(input: Json, paths: seq<Path>, depth: nat)
    ensures PickPlainAsWritten(input, paths, depth) ==
      if PickThrows(input, paths, depth) then TypeError else Normal(PickPlain(input, paths, depth))
    decreases input, 0
  {
    match input
    case Null =>
    case Bool(_) =>
    case Num(_) =>
    case Str(_) =>
    case Arr(items) =>
      if HasArraySegment(paths, depth) {
        PickItemsAgrees(items, 0, paths, depth);
      }
    case Obj(ms) =>
      PickKeysAgrees(ms, KeysAt(paths, depth), paths, depth);
  }

  lemma {:induction false} PickItemsAgrees(items: seq<Json>, idx: nat, paths: seq<Path>, depth: nat)
    ensures PickItemsAsWritten(items, idx, paths, depth) ==
      if ItemsThrow(items, idx, paths, depth) then TypeError else Normal(PickItems(items, idx, paths, depth))
    decreases items, 0
  {
    if items != [] {
      var v := items[0];
      var sub := Matched(paths, depth, Index(idx));
      PickPlainAgrees(v, sub, depth + 1);
      KeepTestThrowsOnNull(v, sub, depth + 1);
      PickItemsAgrees(items[1..], idx + 1, paths, depth);
    }
  }

  lemma {:induction false} PickKeysAgrees(ms: seq<Member>, keys: seq<string>, paths: seq<Path>, depth: nat)
    ensures PickKeysAsWritten(ms, keys, paths, depth) ==
      if KeysThrow(ms, keys, paths, depth) then TypeError else Normal(PickKeys(ms, keys, paths, depth))
    decreases ms, |keys| + 1
  {
    if keys != [] {
      PickKeyAgrees(ms, keys[0], paths, depth);
      PickKeysAgrees(ms, keys[1..], paths, depth);
    }
  }

  lemma {:induction false} PickKeyAgrees(ms: seq<Member>, k: string, paths: seq<Path>, depth: nat)
    ensures PickKeyAsWritten(ms, k, paths, depth) ==
      if KeyThrows(ms, k, paths, depth) then TypeError else Normal(PickKeyMember(ms, k, paths, depth))
    decreases ms, 0
  {
    var child := DeeperPaths(paths, depth, k);
    var i := FindIndex(ms, k);
    if i >= 0 && child != [] {
      PickPlainAgrees(ms[i].value, child, 0);
      KeepTestThrowsOnNull(ms[i].value, child, 0);
    }
  }

  /** The path list `[a.b]` at the root: it expands to itself, names the one
      key `a` and asks for `b` below it. */
  lemma NullChildPaths(input: Json, paths: seq<Path>)
    requires paths == [[Key("a"), Key("b")]]
    ensures ExpandPaths(input, paths) == paths
    ensures KeysAt(paths, 0) == ["a"]
    ensures DeeperPaths(paths, 0, "a") == [[Key("b")]]
  {
    NullChildExpand(input, paths);
    NullChildKeys(paths);
    NullChildDeeper(paths);
  }

  lemma NullChildExpand(input: Json, paths: seq<Path>)
    requires paths == [[Key("a"), Key("b")]]
    ensures ExpandPaths(input, paths) == paths
  {
    assert GlobFree(paths) by {
      assert !HasGlob(paths[0]);
    }
  }

  lemma NullChildKeys(paths: seq<Path>)
    requires paths == [[Key("a"), Key("b")]]
    ensures KeysAt(paths, 0) == ["a"]
  {
    assert paths[1..] == [];
    assert NamesAt(paths, 0) == ["a"];
  }

  lemma NullChildDeeper(paths: seq<Path>)
    requires paths == [[Key("a"), Key("b")]]
    ensures DeeperPaths(paths, 0, "a") == [[Key("b")]]
  {
    assert Matched(paths, 0, Key("a")) == paths;
    assert ChildPaths(paths, 0, "a") == [[Key("b")]];
  }

  /** Picking `a.b` from `{a: null}` throws as written. */
  lemma PickNullChildThrows(input: Json, paths: seq<Path>)
    requires input == Obj([Member("a", Null)]) && paths == [[Key("a"), Key("b")]]
    ensures PickFieldsDeepAsWritten(input, paths, 0) == TypeError
  {
    NullChildPaths(input, paths);
    NullChildPickThrows(input.members, paths);
    PickAsWrittenAgrees(input, paths, 0);
  }

  /** The keep test on the `null` under `a` throws. */
  lemma NullChildPickThrows(ms: seq<Member>, paths: seq<Path>)
    requires ms == [Member("a", Null)] && paths == [[Key("a"), Key("b")]]
    ensures PickThrows(Obj(ms), paths, 0)
  {
    NullChildKeys(paths);
    NullChildDeeper(paths);
    assert FindIndex(ms, "a") == 0;
    assert KeysAt(paths, 0) == ["a"] && KeyThrows(ms, "a", paths, 0);
  }

  /** The model keeps the `null` under `a`, as it keeps every picked value
      that is not an empty object. */
  lemma PickNullChildKept(input: Json, paths: seq<Path>)
    requires input == Obj([Member("a", Null)]) && paths == [[Key("a"), Key("b")]]
    ensures PickFieldsDeep(input, paths, 0) == Some(input)
  {
    NullChildPaths(input, paths);
    var ms := input.members;
    PickOneKey(ms, "a", paths, 0);
    NullChildKeyPicks(ms, paths);
    assert PickKeyMember(ms, "a", paths, 0) == ms;
  }

  /** The corrected pick of `a` in `{a: null}` below `b` is the `null`. */
  lemma NullChildKeyPicks(ms: seq<Member>, paths: seq<Path>)
    requires ms == [Member("a", Null)] && paths == [[Key("a"), Key("b")]]
    ensures PickKey(ms, "a", paths, 0) == Some(Null)
  {
    NullChildDeeper(paths);
    assert FindIndex(ms, "a") == 0;
    assert PickPlain(Null, [[Key("b")]], 0) == Some(Null) && KeepPicked(Some(Null));
  }

  /** Picking from an object when the paths name a single key. */
  lemma PickOneKey(ms: seq<Member>, k: string, paths: seq<Path>, depth: nat)
    requires KeysAt(paths, depth) == [k]
    ensures PickPlain(Obj(ms), paths, depth) == Some(Obj(PickKeyMember(ms, k, paths, depth)))
  {
    assert PickPlain(Obj(ms), paths, depth) == Some(Obj(PickKeys(ms, [k], paths, depth)));
    PickSingleKey(ms, k, paths, depth);
  }

  /** The members picked for a one-key list are those of that key. */
  lemma PickSingleKey(ms: seq<Member>, k: string, paths: seq<Path>, depth: nat)
    ensures PickKeys(ms, [k], paths, depth) == PickKeyMember(ms, k, paths, depth)
  {
    var keys := [k];
    assert keys[1..] == [];
    assert PickKeys(ms, keys[1..], paths, depth) == [];
  }

  // ---------------------------------------------------------------------------
  // Omit

  /** `omitFieldsDeep`: drop what the paths name. Arrays keep their length
      (elements are omitted from, never removed); objects lose exactly the
      keys at which some path ends. As with picking, the wildcards are
      expanded once here; the levels below see only the expanded paths. */
  function OmitFieldsDeep(input: Json, paths: seq<Path>, depth: nat): (r: Json)
    ensures !IsContainer(input) ==> r == input
    ensures input.Arr? ==> r.Arr? && |r.items| == |input.items|
    ensures input.Obj? ==> r.Obj? && forall m :: m in r.members ==> HasKey(input.members, m.key)
  {
    OmitPlain(input, ExpandPaths(input, paths), depth)
  }

  /** Omitting wildcard-free paths. */
  function OmitPlain(input: Json, paths: seq<Path>, depth: nat): (r: Json)
    ensures !IsContainer(input) ==> r == input
    ensures input.Arr? ==> r.Arr? && |r.items| == |input.items|
    ensures input.Obj? ==> r.Obj? && forall m :: m in r.members ==> HasKey(input.members, m.key)
    decreases input, 0
  {
    match input
    case Arr(items) =>
      if !HasArraySegment(paths, depth) then DeepClone(input)
      else Arr(OmitItems(items, paths, depth))
    case Obj(ms) => Obj(OmitMembers(ms, paths, depth))
    case _ => input
  }

  /** Every element with the paths that select its index omitted from it. */
  function OmitItems(items: seq<Json>, paths: seq<Path>, depth: nat): (r: seq<Json>)
    ensures |r| == |items|
    decreases items, 0
  {
    seq(|items|, i requires 0 <= i < |items| => OmitPlain(items[i], Matched(paths, depth, Index(i)), depth + 1))
  }

  function OmitMembers(ms: seq<Member>, paths: seq<Path>, depth: nat): (r: seq<Member>)
    ensures forall m :: m in r ==> HasKey(ms, m.key)
    decreases ms, 1
  {
    if ms == [] then []
    else
      var rest := OmitMembers(ms[1..], paths, depth);
      HasKeyTail(ms);
      OmitMember(ms[0], paths, depth) + rest
  }

  /** A key of the tail is a key of the list. */
  lemma HasKeyTail(ms: seq<Member>)
    requires ms != []
    ensures forall k :: HasKey(ms[1..], k) ==> HasKey(ms, k)
    ensures HasKey(ms, ms[0].key)
  {
    forall k | HasKey(ms[1..], k)
      ensures HasKey(ms, k)
    {
      var j :| 0 <= j < |ms[1..]| && ms[1..][j].key == k;
      assert ms[j + 1].key == k;
    }
  }

  /** What one member of the input becomes: itself when no path mentions
      its key, nothing when a path ends at it, else its value with the
      remainders omitted. */
  function OmitMember(m: Member, paths: seq<Path>, depth: nat): (r: seq<Member>)
    ensures |r| <= 1 && forall x :: x in r ==> x.key == m.key
    decreases m, 0
  {
    if Matched(paths, depth, Key(m.key)) == [] then [m]
    else if Terminates(paths, depth, Key(m.key)) then []
    else [Member(m.key, OmitPlain(m.value, ChildPaths(paths, depth, m.key), 0))]
  }

  lemma OmitMemberKey(m: Member, paths: seq<Path>, depth: nat)
    ensures |OmitMember(m, paths, depth)| == 1 <==> !Terminates(paths, depth, Key(m.key))
  {
    if Terminates(paths, depth, Key(m.key)) {
      var p :| p in paths && |p| == depth + 1 && Selects(p[depth], Key(m.key));
      assert p in Matched(paths, depth, Key(m.key));
    }
  }

  /** Omitting a key: it disappears exactly when some path ends at it. */
  lemma {:induction false} OmitMembersKey(ms: seq<Member>, paths: seq<Path>, depth: nat, k: string)
    ensures HasKey(OmitMembers(ms, paths, depth), k) <==> HasKey(ms, k) && !Terminates(paths, depth, Key(k))
  {
    if ms != [] {
      var h := OmitMember(ms[0], paths, depth);
      var rest := OmitMembers(ms[1..], paths, depth);
      OmitMembersKey(ms[1..], paths, depth, k);
      OmitMemberKey(ms[0], paths, depth);
      HasKeyAppend(h, rest, k);
      HasKeyCons(ms, k);
      assert HasKey(h, k) <==> ms[0].key == k && |h| == 1 by {
        if |h| == 1 {
          assert h[0] in h;
        }
      }
    }
  }

  lemma HasKeyAppend(a: seq<Member>, b: seq<Member>, k: string)
    ensures HasKey(a + b, k) <==> HasKey(a, k) || HasKey(b, k)
  {
    if HasKey(a + b, k) {
      var j :| 0 <= j < |a + b| && (a + b)[j].key == k;
      if j >= |a| {
        assert b[j - |a|].key == k;
      }
    }
    if HasKey(a, k) {
      var j :| 0 <= j < |a| && a[j].key == k;
      assert (a + b)[j].key == k;
    }
    if HasKey(b, k) {
      var j :| 0 <= j < |b| && b[j].key == k;
      assert (a + b)[j + |a|].key == k;
    }
  }

  lemma HasKeyCons(ms: seq<Member>, k: string)
    requires ms != []
    ensures HasKey(ms, k) <==> ms[0].key == k || HasKey(ms[1..], k)
  {
    if HasKey(ms, k) && ms[0].key != k {
      var j :| 0 <= j < |ms| && ms[j].key == k;
      assert ms[1..][j - 1] == ms[j];
    }
    if HasKey(ms[1..], k) {
      var j :| 0 <= j < |ms[1..]| && ms[1..][j].key == k;
      assert ms[j + 1] == ms[1..][j];
    }
  }

  /** A key no path mentions at this depth keeps its member as it is. */
  lemma {:induction false} OmitMembersUnmentioned(ms: seq<Member>, paths: seq<Path>, depth: nat, k: string)
    requires Matched(paths, depth, Key(k)) == []
    ensures Find(OmitMembers(ms, paths, depth), k) == Find(ms, k)
  {
    if ms != [] {
      var head, rest := OmitMember(ms[0], paths, depth), OmitMembers(ms[1..], paths, depth);
      assert OmitMembers(ms, paths, depth) == head + rest;
      OmitMembersUnmentioned(ms[1..], paths, depth, k);
      FindAppend(head, rest, k);
      assert ms == [ms[0]] + ms[1..];
      FindAppend([ms[0]], ms[1..], k);
      OmitMemberUnmentioned(ms[0], paths, depth, k);
    }
  }

  /** A member for the unmentioned key stays; any other member does not
      bring that key in. */
  lemma OmitMemberUnmentioned(m: Member, paths: seq<Path>, depth: nat, k: string)
    requires Matched(paths, depth, Key(k)) == []
    ensures m.key == k ==> OmitMember(m, paths, depth) == [m]
    ensures HasKey(OmitMember(m, paths, depth), k) <==> HasKey([m], k)
  {
    if m.key != k {
      assert !HasKey([m], k);
    }
  }

  /** Omit on an object removes a present key exactly when some path ends at
      it, and leaves every key no path mentions as it is. */
  lemma OmitObjectKeys(ms: seq<Member>, paths: seq<Path>, depth: nat, k: string)
    ensures var r := OmitFieldsDeep(Obj(ms), paths, depth).members;
      HasKey(r, k) <==> HasKey(ms, k) && !Terminates(ExpandPaths(Obj(ms), paths), depth, Key(k))
    ensures Matched(ExpandPaths(Obj(ms), paths), depth, Key(k)) == [] ==>
      Find(OmitFieldsDeep(Obj(ms), paths, depth).members, k) == Find(ms, k)
  {
    var expanded := ExpandPaths(Obj(ms), paths);
    OmitMembersKey(ms, expanded, depth, k);
    if Matched(expanded, depth, Key(k)) == [] {
      OmitMembersUnmentioned(ms, expanded, depth, k);
    }
  }

  /** Omitting nothing is the identity. */
  lemma OmitNothing(v: Json, depth: nat)
    ensures OmitFieldsDeep(v, [], depth) == v
  {
    assert ExpandPaths(v, []) == [];
    if v.Obj? {
      OmitMembersNothing(v.members, depth);
    }
  }

  lemma {:induction false} OmitMembersNothing(ms: seq<Member>, depth: nat)
    ensures OmitMembers(ms, [], depth) == ms
  {
    if ms != [] {
      OmitMembersNothing(ms[1..], depth);
      MatchedNothing(depth, Key(ms[0].key));
      assert OmitMember(ms[0], [], depth) == [ms[0]];
      assert OmitMembers(ms, [], depth) == [ms[0]] + ms[1..];
      assert [ms[0]] + ms[1..] == ms;
    }
  }

  /** No path selects anything from an empty list. */
  lemma MatchedNothing(depth: nat, s: PathElement)
    ensures Matched([], depth, s) == []
  {
  }

  /** The member for a key through which paths go on below. */
  lemma {:induction false} OmitMembersFind(ms: seq<Member>, paths: seq<Path>, depth: nat, k: string)
    requires HasKey(ms, k) && Matched(paths, depth, Key(k)) != [] && !Terminates(paths, depth, Key(k))
    ensures Find(OmitMembers(ms, paths, depth), k) == Some(OmitPlain(ms[FindIndex(ms, k)].value, ChildPaths(paths, depth, k), 0))
  {
    FindAppend(OmitMember(ms[0], paths, depth), OmitMembers(ms[1..], paths, depth), k);
    if ms[0].key != k {
      HasKeyCons(ms, k);
      OmitMembersFind(ms[1..], paths, depth, k);
      assert !HasKey(OmitMember(ms[0], paths, depth), k);
    }
  }

  /** Omitting a wildcard-free path that ends in a key removes what it
      addresses: afterwards the path no longer leads anywhere. */
  lemma OmitRemovesPath(v: Json, paths: seq<Path>, q: Path)
    requires q in paths && !HasGlob(q) && |q| > 0 && q[|q| - 1].Key?
    ensures Lookup(OmitFieldsDeep(v, paths, 0), q).None?
  {
    assert q in ExpandPaths(v, paths);
    OmitPlainRemovesPath(v, ExpandPaths(v, paths), 0, q);
  }

  lemma {:induction false} OmitPlainRemovesPath(v: Json, paths: seq<Path>, depth: nat, q: Path)
    requires q in paths && !HasGlob(q) && depth < |q| && q[|q| - 1].Key?
    ensures Lookup(OmitPlain(v, paths, depth), q[depth..]).None?
    decreases v, 1
  {
    match v
    case Arr(items) => OmitItemsRemovePath(items, paths, depth, q);
    case Obj(ms) => OmitMembersRemovePath(ms, paths, depth, q);
    case Null =>
    case Bool(_) =>
    case Num(_) =>
    case Str(_) =>
  }

  /** The array case: the step goes on into the addressed element, with the
      same paths one level deeper. */
  lemma {:induction false} OmitItemsRemovePath(items: seq<Json>, paths: seq<Path>, depth: nat, q: Path)
    requires q in paths && !HasGlob(q) && depth < |q| && q[|q| - 1].Key?
    ensures Lookup(OmitPlain(Arr(items), paths, depth), q[depth..]).None?
    decreases items, 0
  {
    if q[depth].Index? && q[depth].index < |items| {
      var i := q[depth].index;
      assert q in Matched(paths, depth, Index(i));
      OmitPlainRemovesPath(items[i], Matched(paths, depth, Index(i)), depth + 1, q);
      OmitArrayStep(items, paths, depth, q);
    } else {
      OmitArrayMiss(items, paths, depth, q);
    }
  }

  /** The object case: the step goes on into the named member with the
      paths cut below it, unless a path ends at it. */
  lemma {:induction false} OmitMembersRemovePath(ms: seq<Member>, paths: seq<Path>, depth: nat, q: Path)
    requires q in paths && !HasGlob(q) && depth < |q| && q[|q| - 1].Key?
    ensures Lookup(OmitPlain(Obj(ms), paths, depth), q[depth..]).None?
    decreases ms, 0
  {
    if q[depth].Key? && HasKey(ms, q[depth].name) && !Terminates(paths, depth, q[depth]) {
      var k := q[depth].name;
      var i := FindIndex(ms, k);
      var rest := q[depth + 1..];
      assert depth + 1 < |q| by {
        if depth + 1 == |q| {
          assert q in paths && |q| == depth + 1 && Selects(q[depth], q[depth]);
        }
      }
      assert rest[|rest| - 1] == q[|q| - 1];
      ChildPathsMember(paths, depth, k, q);
      GlobFreeTail(q, depth + 1);
      OmitPlainRemovesPath(ms[i].value, ChildPaths(paths, depth, k), 0, rest);
      assert rest[0..] == rest;
      OmitObjectStep(ms, paths, depth, q);
    } else {
      OmitObjectMiss(ms, paths, depth, q);
    }
  }

  lemma GlobFreeTail(q: Path, n: nat)
    requires !HasGlob(q) && n <= |q|
    ensures !HasGlob(q[n..])
  {
    assert forall x :: x in q[n..] ==> x in q;
  }

  /** Through an array element, from the result below it. */
  lemma OmitArrayStep(items: seq<Json>, paths: seq<Path>, depth: nat, q: Path)
    requires q in paths && depth + 1 < |q| && q[depth].Index? && q[depth].index < |items|
    requires Lookup(OmitPlain(items[q[depth].index], Matched(paths, depth, Index(q[depth].index)), depth + 1), q[depth + 1..]).None?
    ensures Lookup(OmitPlain(Arr(items), paths, depth), q[depth..]).None?
  {
    var i := q[depth].index;
    assert HasArraySegment(paths, depth);
    var r := OmitItems(items, paths, depth);
    assert OmitPlain(Arr(items), paths, depth) == Arr(r);
    assert r[i] == OmitPlain(items[i], Matched(paths, depth, Index(i)), depth + 1);
    LookupThroughIndex(r, q[depth..]);
  }

  /** Looking up through an index step looks up in that element. */
  lemma LookupThroughIndex(items: seq<Json>, p: Path)
    requires 1 < |p| && p[0].Index? && p[0].index < |items|
    ensures Lookup(Arr(items), p) == Lookup(items[p[0].index], p[1..])
  {
  }

  /** An array step that addresses no element finds nothing. */
  lemma OmitArrayMiss(items: seq<Json>, paths: seq<Path>, depth: nat, q: Path)
    requires depth < |q| && !(q[depth].Index? && q[depth].index < |items|)
    ensures Lookup(OmitPlain(Arr(items), paths, depth), q[depth..]).None?
  {
  }

  /** Through an object member, from the result below it. */
  lemma OmitObjectStep(ms: seq<Member>, paths: seq<Path>, depth: nat, q: Path)
    requires q in paths && depth < |q| && q[depth].Key? && HasKey(ms, q[depth].name)
    requires !Terminates(paths, depth, q[depth])
    requires Lookup(OmitPlain(ms[FindIndex(ms, q[depth].name)].value, ChildPaths(paths, depth, q[depth].name), 0), q[depth + 1..]).None?
    ensures Lookup(OmitPlain(Obj(ms), paths, depth), q[depth..]).None?
  {
    var k := q[depth].name;
    assert q in Matched(paths, depth, Key(k));
    OmitMembersFind(ms, paths, depth, k);
    assert OmitPlain(Obj(ms), paths, depth) == Obj(OmitMembers(ms, paths, depth));
    LookupThroughKey(OmitMembers(ms, paths, depth), q[depth..]);
  }

  /** Looking up through a key step looks up in that key's value. */
  lemma LookupThroughKey(ms: seq<Member>, p: Path)
    requires 0 < |p| && p[0].Key? && HasKey(ms, p[0].name)
    ensures Lookup(Obj(ms), p) == Lookup(Find(ms, p[0].name).value, p[1..])
  {
  }

  /** An object step at a missing key, or at a key a path ends at, finds
      nothing. */
  lemma OmitObjectMiss(ms: seq<Member>, paths: seq<Path>, depth: nat, q: Path)
    requires depth < |q|
    requires !(q[depth].Key? && HasKey(ms, q[depth].name) && !Terminates(paths, depth, q[depth]))
    ensures Lookup(OmitPlain(Obj(ms), paths, depth), q[depth..]).None?
  {
    if q[depth].Key? {
      OmitMembersKey(ms, paths, depth, q[depth].name);
    }
  }

  // ---------------------------------------------------------------------------
  // Entry point

  /** `pickFieldsSuper`: a scalar or `null` comes back as it is; otherwise the
      path strings are parsed and the fields they name kept or, with
      `exclude`, dropped. */
  function PickFieldsSuper(input: Json, pathStrings: seq<string>, exclude: bool): (r: Json)
    ensures !IsContainer(input) ==> r == input
    ensures IsContainer(input) ==> (r.Arr? <==> input.Arr?) && (r.Obj? <==> input.Obj?)
    ensures exclude && input.Arr? ==> |r.items| == |input.items|
    ensures !exclude && input.Arr? ==> |r.items| <= |input.items|
  {
    if !IsContainer(input) then input
    else
      var parsed := Map(pathStrings, ParsePath);
      if exclude then OmitFieldsDeep(input, parsed, 0)
      else PickFieldsDeep(input, parsed, 0).value
  }

  /** With no paths, keeping leaves an empty container of the same kind and
      dropping leaves the input as it is. */
  lemma PickFieldsSuperNoPaths(input: Json)
    requires IsContainer(input)
    ensures PickFieldsSuper(input, [], false) == if input.Arr? then Arr([]) else Obj([])
    ensures PickFieldsSuper(input, [], true) == input
  {
    assert Map([], ParsePath) == [];
    PickNothing(input, 0);
    OmitNothing(input, 0);
  }

  /** Every top-level key of an object picked by path strings is a key of
      the input that some parsed path, after `**` expansion, starts with. */
  lemma PickSuperKeysChosen(ms: seq<Member>, pathStrings: seq<string>, k: string)
    requires HasKey(PickFieldsSuper(Obj(ms), pathStrings, false).members, k)
    ensures HasKey(ms, k)
    ensures exists p :: p in ExpandPaths(Obj(ms), Map(pathStrings, ParsePath)) && 0 < |p| && p[0] == Key(k)
  {
    PickObjectKeys(ms, Map(pathStrings, ParsePath), 0, k);
  }

  /** A path string that parses to one key of the input copies that key's
      value unchanged, provided no string holds `**` and none goes further
      below the key. */
  lemma PickSuperKeyCopied(ms: seq<Member>, pathStrings: seq<string>, k: string)
    requires HasKey(ms, k)
    requires forall x :: x in pathStrings ==> !HasGlob(ParsePath(x))
    requires exists x :: x in pathStrings && ParsePath(x) == [Key(k)]
    requires forall x :: x in pathStrings && 0 < |ParsePath(x)| && ParsePath(x)[0] == Key(k) ==> |ParsePath(x)| == 1
    ensures PickFieldsSuper(Obj(ms), pathStrings, false).Obj?
    ensures Find(PickFieldsSuper(Obj(ms), pathStrings, false).members, k) == Find(ms, k)
  {
    ParsedKeyFacts(pathStrings, k);
    PickSuperOfObject(ms, pathStrings);
    PickDeepKeyCopied(ms, Map(pathStrings, ParsePath), k);
  }

  /** `PickTerminalCopies` at the root, for wildcard-free paths. */
  lemma PickDeepKeyCopied(ms: seq<Member>, paths: seq<Path>, k: string)
    requires HasKey(ms, k) && GlobFree(paths)
    requires exists p :: p in paths && 0 < |p| && p[0] == Key(k)
    requires forall p :: p in paths && 0 < |p| && p[0] == Key(k) ==> |p| == 1
    ensures Find(PickFieldsDeep(Obj(ms), paths, 0).value.members, k) == Find(ms, k)
  {
    assert ExpandPaths(Obj(ms), paths) == paths;
    PickTerminalCopies(ms, paths, 0, k);
  }

  /** Keeping from an object by path strings is the pick of the parsed paths. */
  lemma PickSuperOfObject(ms: seq<Member>, pathStrings: seq<string>)
    ensures PickFieldsSuper(Obj(ms), pathStrings, false) == PickFieldsDeep(Obj(ms), Map(pathStrings, ParsePath), 0).value
  {
  }

  /** The facts about the parsed list that a terminal key path needs. */
  lemma ParsedKeyFacts(pathStrings: seq<string>, k: string)
    requires forall x :: x in pathStrings ==> !HasGlob(ParsePath(x))
    requires exists x :: x in pathStrings && ParsePath(x) == [Key(k)]
    requires forall x :: x in pathStrings && 0 < |ParsePath(x)| && ParsePath(x)[0] == Key(k) ==> |ParsePath(x)| == 1
    ensures GlobFree(Map(pathStrings, ParsePath))
    ensures exists p :: p in Map(pathStrings, ParsePath) && 0 < |p| && p[0] == Key(k)
    ensures forall p :: p in Map(pathStrings, ParsePath) && 0 < |p| && p[0] == Key(k) ==> |p| == 1
  {
    var parsed := Map(pathStrings, ParsePath);
    var x :| x in pathStrings && ParsePath(x) == [Key(k)];
    var i :| 0 <= i < |pathStrings| && pathStrings[i] == x;
    assert parsed[i] in parsed;
    forall p | p in parsed
      ensures !HasGlob(p)
      ensures 0 < |p| && p[0] == Key(k) ==> |p| == 1
    {
      MapPreimage(pathStrings, ParsePath, p);
    }
  }

  /** `pickFieldsSuper` as written: keeping runs the pick that throws on a
      `null` child. A container always picks to a value, so the fallback to
      the input is never taken. */
  function PickFieldsSuperAsWritten(input: Json, pathStrings: seq<string>, exclude: bool): (r: Completion<Json>)
    ensures !IsContainer(input) ==> r == Normal(input)
    ensures exclude ==> r.Normal?
  {
    if !IsContainer(input) then Normal(input)
    else
      var parsed := Map(pathStrings, ParsePath);
      if exclude then Normal(OmitFieldsDeep(input, parsed, 0))
      else
        match PickFieldsDeepAsWritten(input, parsed, 0)
        case TypeError => TypeError
        case Normal(picked) => Normal(picked.GetOr(input))
  }

  /** The entry point as written and the corrected one differ only where the
      written one throws: when keeping, on a container, whose pick meets a
      `null` child that the paths go below. */
  lemma PickFieldsSuperAsWrittenAgrees(input: Json, pathStrings: seq<string>, exclude: bool)
    ensures PickFieldsSuperAsWritten(input, pathStrings, exclude) ==
      if !exclude && IsContainer(input) && PickThrows(input, ExpandPaths(input, Map(pathStrings, ParsePath)), 0)
      then TypeError
      else Normal(PickFieldsSuper(input, pathStrings, exclude))
  {
    if IsContainer(input) && !exclude {
      PickAsWrittenAgrees(input, Map(pathStrings, ParsePath), 0);
    }
  }

  /** Paths made of one key each hold no `**`. */
  lemma TopKeysGlobFree(paths: seq<Path>)
    requires forall p: Path :: p in paths ==> |p| == 1 && p[0].Key?
    ensures GlobFree(paths)
  {
    forall p | p in paths
      ensures !HasGlob(p)
    {
      assert p == [p[0]];
    }
  }

  /** Picking top-level keys keeps a present key exactly when it is listed. */
  lemma PickTopKeys(ms: seq<Member>, paths: seq<Path>, k: string)
    requires forall p: Path :: p in paths ==> |p| == 1 && p[0].Key?
    ensures HasKey(PickFieldsDeep(Obj(ms), paths, 0).value.members, k) <==> HasKey(ms, k) && [Key(k)] in paths
  {
    if HasKey(PickFieldsDeep(Obj(ms), paths, 0).value.members, k) {
      PickTopKeyListed(ms, paths, k);
    }
    if HasKey(ms, k) && [Key(k)] in paths {
      PickTopKeyKept(ms, paths, k);
    }
  }

  lemma PickTopKeyListed(ms: seq<Member>, paths: seq<Path>, k: string)
    requires forall p: Path :: p in paths ==> |p| == 1 && p[0].Key?
    requires HasKey(PickFieldsDeep(Obj(ms), paths, 0).value.members, k)
    ensures HasKey(ms, k) && [Key(k)] in paths
  {
    TopKeysGlobFree(paths);
    PickObjectKeys(ms, paths, 0, k);
    assert ExpandPaths(Obj(ms), paths) == paths;
    SingleKeyPath(paths, k);
  }

  /** In a list of one-key paths, a path that starts with `k` is `[k]`. */
  lemma SingleKeyPath(paths: seq<Path>, k: string)
    requires forall p: Path :: p in paths ==> |p| == 1 && p[0].Key?
    requires exists p :: p in paths && 0 < |p| && p[0] == Key(k)
    ensures [Key(k)] in paths
  {
    var p :| p in paths && 0 < |p| && p[0] == Key(k);
    assert p == [Key(k)];
  }

  lemma PickTopKeyKept(ms: seq<Member>, paths: seq<Path>, k: string)
    requires forall p: Path :: p in paths ==> |p| == 1 && p[0].Key?
    requires HasKey(ms, k) && [Key(k)] in paths
    ensures HasKey(PickFieldsDeep(Obj(ms), paths, 0).value.members, k)
  {
    TopKeysGlobFree(paths);
    var q: Path := [Key(k)];
    assert q[1..] == [];
    assert Lookup(Obj(ms), q).Some?;
    PickKeepsPath(Obj(ms), paths, q);
  }

  /** Omitting top-level keys keeps a present key exactly when it is not
      listed. */
  lemma OmitTopKeys(ms: seq<Member>, paths: seq<Path>, k: string)
    requires forall p: Path :: p in paths ==> |p| == 1 && p[0].Key?
    ensures HasKey(OmitFieldsDeep(Obj(ms), paths, 0).members, k) <==> HasKey(ms, k) && [Key(k)] !in paths
  {
    TopKeysGlobFree(paths);
    assert ExpandPaths(Obj(ms), paths) == paths;
    var q: Path := [Key(k)];
    OmitObjectKeys(ms, paths, 0, k);
    if Terminates(paths, 0, Key(k)) {
      var p :| p in paths && |p| == 1 && Selects(p[0], Key(k));
      assert p == q;
    }
    if q in paths {
      assert Terminates(paths, 0, Key(k));
    }
  }

  /** For top-level keys, keeping and dropping split an object's keys
      between them: each key of the input survives exactly one of the two. */
  lemma PickOmitComplement(ms: seq<Member>, paths: seq<Path>, k: string)
    requires forall p: Path :: p in paths ==> |p| == 1 && p[0].Key?
    requires HasKey(ms, k)
    ensures HasKey(PickFieldsDeep(Obj(ms), paths, 0).value.members, k) <==> !HasKey(OmitFieldsDeep(Obj(ms), paths, 0).members, k)
  {
    PickTopKeys(ms, paths, k);
    OmitTopKeys(ms, paths, k);
  }
}

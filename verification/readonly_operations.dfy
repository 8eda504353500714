/** Read-only field location over a JSON syntax tree
    (`src/utils/readonlyOperations.ts`). The tree is what a tolerant JSON
    parser builds from the editor text; here it is an input. Path patterns
    are expanded against it, and the properties they reach become text
    ranges that the editor refuses to change. */
module ReadonlyOperations {

  import opened Json
  import opened Utils
  import opened PathUtils
  import Seqs

  /** The value carried by a literal node: null, a boolean, a number or a
      string. */
  type Scalar = v: Json | !IsContainer(v) witness Null

  /** A syntax-tree node: its kind, its offset and length in the text, and its
      children. A property's children are its key node and, when the text has
      one, its value node. */
  datatype Node =
    | ObjectNode(offset: nat, length: nat, properties: seq<Node>)
    | ArrayNode(offset: nat, length: nat, elements: seq<Node>)
    | PropertyNode(offset: nat, length: nat, keyNode: Node, valueNode: Option<Node>)
    | ScalarNode(offset: nat, length: nat, value: Scalar)

  /** A node together with its parent link (`node.parent`); the root has
      none. */
  datatype Located = Located(node: Node, parent: Option<Node>)

  /** `node.children`. */
  function Children(n: Node): seq<Node> {
    match n
    case ObjectNode(_, _, ps) => ps
    case ArrayNode(_, _, es) => es
    case PropertyNode(_, _, k, v) => if v.Some? then [k, v.value] else [k]
    case ScalarNode(_, _, _) => []
  }

  /** The children of `n`, each linked to `n`. */
  function ChildLocs(n: Node): (r: seq<Located>)
    ensures |r| == |Children(n)|
    ensures forall i :: 0 <= i < |r| ==> r[i] == Located(Children(n)[i], Some(n))
  {
    var cs := Children(n);
    seq(|cs|, i requires 0 <= i < |cs| => Located(cs[i], Some(n)))
  }

  /** `node.value`: defined on literal nodes only. */
  function NodeValue(n: Node): (r: Option<Json>)
    ensures r.Some? ==> !IsContainer(r.value)
  {
    if n.ScalarNode? then Some(n.value) else None
  }

  // ---------------------------------------------------------------------------
  // The JSON value a tree denotes

  /** A property with a string key and a value node. */
  predicate IsMemberNode(p: Node) {
    p.PropertyNode? && p.keyNode.ScalarNode? && p.keyNode.value.Str? && p.valueNode.Some?
  }

  /** The JSON value the tree spells, when it is complete: every object child
      a property with a string key and a value. */
  function ToJson(n: Node): Option<Json>
    decreases n, 1
  {
    match n
    case ScalarNode(_, _, v) => Some(v)
    case ArrayNode(_, _, es) =>
      (match ItemsToJson(es)
       case Some(items) => Some(Arr(items))
       case None => None)
    case ObjectNode(_, _, ps) =>
      (match MembersToJson(ps)
       case Some(ms) => Some(Obj(ms))
       case None => None)
    case PropertyNode(_, _, _, _) => None
  }

  function ItemsToJson(es: seq<Node>): (r: Option<seq<Json>>)
    ensures r.Some? ==> |r.value| == |es| && forall i :: 0 <= i < |es| ==> ToJson(es[i]) == Some(r.value[i])
    decreases es, 0
  {
    if es == [] then Some([])
    else
      match (ToJson(es[0]), ItemsToJson(es[1..]))
      case (Some(v), Some(vs)) =>
        assert forall i :: 1 <= i < |es| ==> es[i] == es[1..][i - 1];
        Some([v] + vs)
      case _ => None
  }

  function MembersToJson(ps: seq<Node>): (r: Option<seq<Member>>)
    ensures r.Some? ==> |r.value| == |ps| && forall i :: 0 <= i < |ps| ==>
      IsMemberNode(ps[i]) && r.value[i].key == ps[i].keyNode.value.s && PropertyValueJson(ps[i]) == Some(r.value[i].value)
    decreases ps, 0
  {
    if ps == [] then Some([])
    else if !IsMemberNode(ps[0]) then None
    else
      match (PropertyValueJson(ps[0]), MembersToJson(ps[1..]))
      case (Some(v), Some(ms)) =>
        assert forall i :: 1 <= i < |ps| ==> ps[i] == ps[1..][i - 1];
        Some([Member(ps[0].keyNode.value.s, v)] + ms)
      case _ => None
  }

  /** The value a property's value node spells. */
  function PropertyValueJson(p: Node): (r: Option<Json>)
    ensures r.Some? ==> p.PropertyNode? && p.valueNode.Some? && r == ToJson(p.valueNode.value)
    decreases p, 2
  {
    match p
    case PropertyNode(_, _, _, Some(v)) => ToJson(v)
    case _ => None
  }

  // ---------------------------------------------------------------------------
  // findNodeAtLocation

  /** A property whose key node holds `name` and which has a value node. */
  predicate KeyMatches(p: Node, name: string) {
    p.PropertyNode? && p.keyNode.ScalarNode? && p.keyNode.value == Str(name) && p.valueNode.Some?
  }

  /** The position of the first property of `ps` named `name`, or -1. */
  function FindProperty(ps: seq<Node>, name: string): (r: int)
    ensures -1 <= r < |ps|
    ensures r >= 0 ==> KeyMatches(ps[r], name) && forall j :: 0 <= j < r ==> !KeyMatches(ps[j], name)
    ensures r < 0 ==> forall j :: 0 <= j < |ps| ==> !KeyMatches(ps[j], name)
  {
    if ps == [] then -1
    else if KeyMatches(ps[0], name) then 0
    else
      var r := FindProperty(ps[1..], name);
      assert forall j :: 1 <= j < |ps| ==> ps[j] == ps[1..][j - 1];
      if r < 0 then -1 else r + 1
  }

  /** One step of `findNodeAtLocation`: the value node of the first property
      with that key of an object, or the element at an in-range index of an
      array. */
  function Step(n: Node, s: PathElement): (r: Option<Located>)
    ensures r.Some? ==> (s.Key? && n.ObjectNode?) || (s.Index? && n.ArrayNode?)
    ensures r.Some? ==> r.value.parent.Some? && r.value.node in Children(r.value.parent.value)
  {
    match s
    case Key(name) =>
      if !n.ObjectNode? then None
      else
        var i := FindProperty(n.properties, name);
        if i < 0 then None
        else
          var p := n.properties[i];
          Some(Located(p.valueNode.value, Some(p)))
    case Index(i) =>
      if n.ArrayNode? && i < |n.elements| then Some(Located(n.elements[i], Some(n))) else None
    case _ => None
  }

  /** `findNodeAtLocation(node, path)` for a whole concrete path. */
  function NodeAt(loc: Located, p: Path): Option<Located>
    decreases |p|
  {
    if p == [] then Some(loc)
    else
      match Step(loc.node, p[0])
      case None => None
      case Some(next) => NodeAt(next, p[1..])
  }

  // ---------------------------------------------------------------------------
  // collectAllNodes and expandPathWithWildcards

  /** `collectAllNodes`: the node, then the nodes below it, in pre-order. */
  function Preorder(n: Node, parent: Option<Node>): (r: seq<Located>)
    ensures r != [] && r[0] == Located(n, parent)
    decreases n, 1
  {
    [Located(n, parent)] +
    match n
    case ObjectNode(_, _, ps) => PreorderAll(ps, n)
    case ArrayNode(_, _, es) => PreorderAll(es, n)
    case PropertyNode(_, _, k, v) => Preorder(k, Some(n)) + (if v.Some? then Preorder(v.value, Some(n)) else [])
    case ScalarNode(_, _, _) => []
  }

  function PreorderAll(cs: seq<Node>, parent: Node): seq<Located>
    decreases cs, 0
  {
    if cs == [] then [] else Preorder(cs[0], Some(parent)) + PreorderAll(cs[1..], parent)
  }

  /** `expandPathWithWildcards`: the nodes a path pattern reaches, each with
      its parent link. `**` at the end takes the node and everything below it;
      `**` before more segments expands the rest at the node and at every node
      below it, in pre-order; `null` expands over the elements of an array and
      yields nothing elsewhere; a key or an index takes one step, or yields
      nothing when the child is missing. */
  function Expand(loc: Located, path: Path): seq<Located>
    decreases |path|, 0, 0
  {
    if path == [] then [loc]
    else
      var tail := path[1..];
      match path[0]
      case Glob =>
        if tail == [] then Preorder(loc.node, loc.parent)
        else ExpandEach(Preorder(loc.node, loc.parent), tail)
      case AnyIndex =>
        if loc.node.ArrayNode? then ExpandEach(ChildLocs(loc.node), tail) else []
      case _ =>
        match Step(loc.node, path[0])
        case None => []
        case Some(target) => if tail == [] then [target] else Expand(target, tail)
  }

  /** The expansions of `rest` at each of `locs`, joined in order. */
  function ExpandEach(locs: seq<Located>, rest: Path): seq<Located>
    decreases |rest|, 1, |locs|
  {
    if locs == [] then [] else Expand(locs[0], rest) + ExpandEach(locs[1..], rest)
  }

  lemma {:induction false} ExpandEachMembers(locs: seq<Located>, rest: Path)
    ensures forall x :: x in ExpandEach(locs, rest) <==> exists i :: 0 <= i < |locs| && x in Expand(locs[i], rest)
    decreases |locs|
  {
    if locs != [] {
      ExpandEachMembers(locs[1..], rest);
      assert forall i :: 1 <= i < |locs| ==> locs[i] == locs[1..][i - 1];
    }
  }

  /** A trailing `**` yields the node itself followed by every node below it,
      with the parent links the tree has. */
  lemma {:induction false} PreorderMembers(n: Node, parent: Option<Node>, x: Located)
    ensures x in Preorder(n, parent) <==>
      x == Located(n, parent) || exists c :: c in Children(n) && x in Preorder(c, Some(n))
    decreases n, 1
  {
    match n
    case ObjectNode(_, _, ps) => PreorderAllMembers(ps, n, x);
    case ArrayNode(_, _, es) => PreorderAllMembers(es, n, x);
    case PropertyNode(_, _, k, v) =>
      var cs := Children(n);
      assert k in cs;
      assert v.Some? ==> v.value in cs;
      if x != Located(n, parent) && x !in Preorder(k, Some(n)) && !(v.Some? && x in Preorder(v.value, Some(n))) {
        forall c | c in cs
          ensures x !in Preorder(c, Some(n))
        {
        }
      }
    case ScalarNode(_, _, _) =>
  }

  lemma {:induction false} PreorderAllMembers(cs: seq<Node>, parent: Node, x: Located)
    ensures x in PreorderAll(cs, parent) <==> exists c :: c in cs && x in Preorder(c, Some(parent))
    decreases cs, 0
  {
    if cs != [] {
      PreorderAllMembers(cs[1..], parent, x);
      assert PreorderAll(cs, parent) == Preorder(cs[0], Some(parent)) + PreorderAll(cs[1..], parent);
      if x in Preorder(cs[0], Some(parent)) {
        assert cs[0] in cs;
      } else if x in PreorderAll(cs[1..], parent) {
        var c :| c in cs[1..] && x in Preorder(c, Some(parent));
        assert c in cs;
      } else {
        forall c | c in cs
          ensures x !in Preorder(c, Some(parent))
        {
          if c != cs[0] {
            assert c in cs[1..];
          }
        }
      }
    }
  }

  /** A pattern ending in `**` reaches the node itself and every node below
      it: the children, each followed by the nodes below it. */
  lemma ExpandTrailingGlob(loc: Located, x: Located)
    ensures x in Expand(loc, [Glob]) <==>
      x == loc || exists c :: c in Children(loc.node) && x in Preorder(c, Some(loc.node))
  {
    PreorderMembers(loc.node, loc.parent, x);
  }

  /** An empty pattern reaches the node itself; a key or index pattern reaches
      at most one node, the one `findNodeAtLocation` finds for the whole
      path. */
  lemma {:induction false} ExpandConcrete(loc: Located, p: Path)
    requires IsConcrete(p)
    ensures Expand(loc, p) == if NodeAt(loc, p).Some? then [NodeAt(loc, p).value] else []
    decreases |p|
  {
    if p != [] {
      match Step(loc.node, p[0])
      case None =>
      case Some(target) =>
        assert IsConcrete(p[1..]) by {
          assert forall i :: 1 <= i < |p| ==> p[i] == p[1..][i - 1];
        }
        ExpandConcrete(target, p[1..]);
    }
  }

  /** `null` reaches the element nodes of an array, each expanded by the rest
      of the pattern, and nothing below any other kind of node. */
  lemma AnyIndexOnlyOverArrays(loc: Located, rest: Path, x: Located)
    ensures x in Expand(loc, [AnyIndex] + rest) <==>
      loc.node.ArrayNode? && exists i :: 0 <= i < |loc.node.elements| && x in Expand(Located(loc.node.elements[i], Some(loc.node)), rest)
  {
    assert ([AnyIndex] + rest)[1..] == rest;
    if loc.node.ArrayNode? {
      ExpandEachMembers(ChildLocs(loc.node), rest);
    }
  }

  /** `**` followed by more segments expands them at the node and at every
      node below it. */
  lemma GlobTriesEveryNode(loc: Located, rest: Path, x: Located)
    requires rest != []
    ensures x in Expand(loc, [Glob] + rest) <==>
      exists d :: d in Preorder(loc.node, loc.parent) && x in Expand(d, rest)
  {
    assert ([Glob] + rest)[1..] == rest;
    var ds := Preorder(loc.node, loc.parent);
    assert Expand(loc, [Glob] + rest) == ExpandEach(ds, rest);
    ExpandEachMembers(ds, rest);
    if x in Expand(loc, [Glob] + rest) {
      var i :| 0 <= i < |ds| && x in Expand(ds[i], rest);
      assert ds[i] in ds;
    }
    if d :| d in ds && x in Expand(d, rest) {
      var i :| 0 <= i < |ds| && ds[i] == d;
      assert x in Expand(ds[i], rest);
    }
  }

  /** The tree spells the JSON value `v`: one step in the tree agrees with one
      property access on `v`. */
  lemma StepLookup(n: Node, v: Json, s: PathElement)
    requires ToJson(n) == Some(v)
    ensures Step(n, s).Some? <==> Child(v, s).Some?
    ensures Step(n, s).Some? ==> ToJson(Step(n, s).value.node) == Child(v, s)
  {
    match n
    case ObjectNode(_, _, ps) =>
      if s.Key? {
        var ms := MembersToJson(ps).value;
        var i := FindProperty(ps, s.name);
        assert forall j :: 0 <= j < |ps| ==> (KeyMatches(ps[j], s.name) <==> ms[j].key == s.name);
        if i >= 0 {
          assert ms[i].key == s.name;
          assert FindIndex(ms, s.name) == i;
        } else {
          assert !HasKey(ms, s.name);
        }
      }
    case ArrayNode(_, _, es) =>
    case _ =>
  }

  /** On a complete tree, a concrete path reaches a node exactly when the path
      exists in the value the tree spells, and that node spells the value
      found there. */
  lemma {:induction false} NodeAtLookup(loc: Located, v: Json, p: Path)
    requires ToJson(loc.node) == Some(v)
    ensures NodeAt(loc, p).Some? <==> Lookup(v, p).Some?
    ensures NodeAt(loc, p).Some? ==> ToJson(NodeAt(loc, p).value.node) == Lookup(v, p)
    decreases |p|
  {
    if p != [] {
      StepLookup(loc.node, v, p[0]);
      match Step(loc.node, p[0])
      case None =>
      case Some(next) => NodeAtLookup(next, Child(v, p[0]).value, p[1..]);
    }
  }

  // ---------------------------------------------------------------------------
  // Parent links and offsets

  /** Every node of the tree lies inside a text of length `len`. */
  predicate Fits(n: Node, len: nat)
    decreases n, 1
  {
    n.offset + n.length <= len &&
    match n
    case ObjectNode(_, _, ps) => FitsAll(ps, len)
    case ArrayNode(_, _, es) => FitsAll(es, len)
    case PropertyNode(_, _, k, v) => Fits(k, len) && (v.Some? ==> Fits(v.value, len))
    case ScalarNode(_, _, _) => true
  }

  predicate FitsAll(cs: seq<Node>, len: nat)
    decreases cs, 0
  {
    forall i :: 0 <= i < |cs| ==> Fits(cs[i], len)
  }

  /** A located node is sound when it and its parent lie inside the text and
      the parent really has it as a child. */
  predicate Sound(x: Located, len: nat) {
    Fits(x.node, len) && (x.parent.Some? ==> Fits(x.parent.value, len) && x.node in Children(x.parent.value))
  }

  lemma {:induction false} PreorderSound(n: Node, parent: Option<Node>, len: nat)
    requires Sound(Located(n, parent), len)
    ensures forall x :: x in Preorder(n, parent) ==> Sound(x, len)
    decreases n, 1
  {
    match n
    case ObjectNode(_, _, ps) => PreorderAllSound(ps, n, len);
    case ArrayNode(_, _, es) => PreorderAllSound(es, n, len);
    case PropertyNode(_, _, k, v) =>
      PreorderSound(k, Some(n), len);
      if v.Some? {
        PreorderSound(v.value, Some(n), len);
      }
    case ScalarNode(_, _, _) =>
  }

  lemma {:induction false} PreorderAllSound(cs: seq<Node>, parent: Node, len: nat)
    requires Fits(parent, len) && FitsAll(cs, len) && forall c :: c in cs ==> c in Children(parent)
    ensures forall x :: x in PreorderAll(cs, parent) ==> Sound(x, len)
    decreases cs, 0
  {
    if cs != [] {
      PreorderSound(cs[0], Some(parent), len);
      PreorderAllSound(cs[1..], parent, len);
    }
  }

  /** Expansion only yields nodes of the tree, each with its true parent. */
  lemma {:induction false} ExpandSound(loc: Located, path: Path, len: nat)
    requires Sound(loc, len)
    ensures forall x :: x in Expand(loc, path) ==> Sound(x, len)
    decreases |path|, 0, 0
  {
    if path != [] {
      var tail := path[1..];
      match path[0]
      case Glob =>
        PreorderSound(loc.node, loc.parent, len);
        if tail != [] {
          ExpandEachSound(Preorder(loc.node, loc.parent), tail, len);
        }
      case AnyIndex =>
        if loc.node.ArrayNode? {
          var cs := ChildLocs(loc.node);
          assert FitsAll(loc.node.elements, len);
          forall x | x in cs
            ensures Sound(x, len)
          {
            var i :| 0 <= i < |cs| && cs[i] == x;
            assert loc.node.elements[i] in Children(loc.node);
          }
          ExpandEachSound(cs, tail, len);
        }
      case Key(name) =>
        var step := Step(loc.node, path[0]);
        if step.Some? {
          var i := FindProperty(loc.node.properties, name);
          assert FitsAll(loc.node.properties, len);
          assert Fits(loc.node.properties[i], len);
          if tail != [] {
            ExpandSound(step.value, tail, len);
          }
        }
      case Index(_) =>
        var step := Step(loc.node, path[0]);
        if step.Some? {
          assert FitsAll(loc.node.elements, len);
          if tail != [] {
            ExpandSound(step.value, tail, len);
          }
        }
    }
  }

  lemma {:induction false} ExpandEachSound(locs: seq<Located>, rest: Path, len: nat)
    requires forall x :: x in locs ==> Sound(x, len)
    ensures forall x :: x in ExpandEach(locs, rest) ==> Sound(x, len)
    decreases |rest|, 1, |locs|
  {
    if locs != [] {
      ExpandSound(locs[0], rest, len);
      ExpandEachSound(locs[1..], rest, len);
    }
  }

  // ---------------------------------------------------------------------------
  // findReadonlyFieldRanges

  /** `ReadonlyRange['type']`. */
  datatype RangeType = PropertyRange | KeyRange | ValueRange

  /** A half-open range `[start, end)` of text offsets. */
  datatype ReadonlyRange = ReadonlyRange(kind: RangeType, start: nat, end: nat)

  /** `FindReadonlyFieldRangesOptions`. */
  datatype RangeOptions = RangeOptions(includeComma: bool, splitKeyValue: bool)

  /** Whole properties, each extended over a following comma. */
  function DefaultRangeOptions(): RangeOptions {
    RangeOptions(true, false)
  }

  /** The characters the regular-expression class `\s` matches: ASCII white
      space, the no-break and byte-order marks, the line and paragraph
      separators and the Unicode space separators. */
  predicate IsSpace(c: char) {
    c == ' ' || c == '\t' || c == '\n' || c == '\U{000B}' || c == '\U{000C}' || c == '\r' ||
    c == '\U{00A0}' || c == '\U{1680}' || ('\U{2000}' <= c <= '\U{200A}') || c == '\U{2028}' || c == '\U{2029}' ||
    c == '\U{202F}' || c == '\U{205F}' || c == '\U{3000}' || c == '\U{FEFF}'
  }

  /** The number of white-space characters from `e` on. */
  function SpaceRun(text: string, e: nat): (r: nat)
    ensures e + r <= |text| || (e >= |text| && r == 0)
    ensures forall j :: e <= j < e + r ==> IsSpace(text[j])
    ensures e + r < |text| ==> !IsSpace(text[e + r])
    decreases |text| - e
  {
    if e < |text| && IsSpace(text[e]) then 1 + SpaceRun(text, e + 1) else 0
  }

  /** The length of the match of `/^\s*,/` in `text.slice(e)`, or 0 when it
      does not match. */
  function CommaRun(text: string, e: nat): (r: nat)
    ensures r > 0 ==> e + r <= |text| && text[e + r - 1] == ',' && forall j :: e <= j < e + r - 1 ==> IsSpace(text[j])
    ensures r == 0 <==> forall m :: e <= m < |text| && text[m] == ',' ==> exists j :: e <= j < m && !IsSpace(text[j])
  {
    var w := SpaceRun(text, e);
    if e + w < |text| && text[e + w] == ',' then w + 1
    else
      assert forall m :: e <= m < |text| && text[m] == ',' ==> !IsSpace(text[m]);
      0
  }

  /** A property range ending at `end` instead of `e`: the same end, or, when
      commas are included, an end past white space and one comma. */
  predicate CommaExtension(text: string, e: nat, end: nat, includeComma: bool) {
    end == e ||
    (includeComma && e < end <= |text| && text[end - 1] == ',' && forall j :: e <= j < end - 1 ==> IsSpace(text[j]))
  }

  /** The ranges one reached node contributes: nothing unless its parent is a
      property with a key and a value; otherwise the key range and then the
      value range, or the whole property, extended over white space and one
      comma when asked. */
  function RangesAt(text: string, x: Located, opts: RangeOptions): (r: seq<ReadonlyRange>)
    ensures r != [] ==> x.parent.Some? && x.parent.value.PropertyNode? && x.parent.value.valueNode.Some?
    ensures forall g :: g in r ==> g.start <= g.end
    ensures Sound(x, |text|) ==> forall g :: g in r ==> g.end <= |text|
    ensures opts.splitKeyValue ==> forall g :: g in r ==> g.kind != PropertyRange
    ensures !opts.splitKeyValue ==> forall g :: g in r ==> g.kind == PropertyRange && g.start == x.parent.value.offset
    ensures !opts.splitKeyValue ==> forall g :: g in r ==> CommaExtension(text, g.start + x.parent.value.length, g.end, opts.includeComma)
  {
    match x.parent
    case Some(PropertyNode(po, pl, k, Some(v))) =>
      if opts.splitKeyValue then
        assert Sound(x, |text|) ==> Fits(k, |text|) && Fits(v, |text|);
        [ReadonlyRange(KeyRange, k.offset, k.offset + k.length), ReadonlyRange(ValueRange, v.offset, v.offset + v.length)]
      else
        var end := po + pl;
        [ReadonlyRange(PropertyRange, po, if opts.includeComma then end + CommaRun(text, end) else end)]
    case _ => []
  }

  /** The ranges of several reached nodes, in order. */
  function RangesOfNodes(text: string, locs: seq<Located>, opts: RangeOptions): (r: seq<ReadonlyRange>)
    ensures forall g :: g in r <==> exists i :: 0 <= i < |locs| && g in RangesAt(text, locs[i], opts)
  {
    if locs == [] then []
    else
      var r := RangesOfNodes(text, locs[..|locs| - 1], opts);
      assert forall i :: 0 <= i < |locs| - 1 ==> locs[i] == locs[..|locs| - 1][i];
      r + RangesAt(text, locs[|locs| - 1], opts)
  }

  /** The root of a parsed text. */
  function Root(n: Node): Located {
    Located(n, None)
  }

  /** The ranges of every node one parsed pattern reaches. */
  function PatternRanges(text: string, root: Node, p: Path, opts: RangeOptions): seq<ReadonlyRange> {
    RangesOfNodes(text, Expand(Root(root), p), opts)
  }

  /** The ranges of every node one raw path reaches. */
  function PathRanges(text: string, root: Node, path: string, opts: RangeOptions): seq<ReadonlyRange> {
    PatternRanges(text, root, ParsePath(path), opts)
  }

  /** The ranges of every node each parsed pattern reaches, pattern by
      pattern. */
  function RangesOfPatterns(text: string, root: Node, pats: seq<Path>, opts: RangeOptions): (r: seq<ReadonlyRange>)
    ensures forall g :: g in r <==> exists k :: 0 <= k < |pats| && g in PatternRanges(text, root, pats[k], opts)
  {
    if pats == [] then []
    else
      var r := RangesOfPatterns(text, root, pats[..|pats| - 1], opts);
      assert forall k :: 0 <= k < |pats| - 1 ==> pats[k] == pats[..|pats| - 1][k];
      r + PatternRanges(text, root, pats[|pats| - 1], opts)
  }

  /** The ranges of every node each path pattern reaches, pattern by pattern. */
  function RangesOfPaths(text: string, root: Node, paths: seq<string>, opts: RangeOptions): (r: seq<ReadonlyRange>)
    ensures forall g :: g in r <==> exists k :: 0 <= k < |paths| && g in PathRanges(text, root, paths[k], opts)
  {
    RangesOfPatterns(text, root, Seqs.Map(paths, ParsePath), opts)
  }

  /** Every range lies inside the text when the tree does. */
  lemma RangesOfPathsWithinText(text: string, root: Node, paths: seq<string>, opts: RangeOptions)
    requires Fits(root, |text|)
    ensures forall g :: g in RangesOfPaths(text, root, paths, opts) ==> g.start <= g.end <= |text|
  {
    forall g | g in RangesOfPaths(text, root, paths, opts)
      ensures g.start <= g.end <= |text|
    {
      var k :| 0 <= k < |paths| && g in PathRanges(text, root, paths[k], opts);
      PatternRangesWithinText(text, root, ParsePath(paths[k]), opts, g);
    }
  }

  lemma PatternRangesWithinText(text: string, root: Node, p: Path, opts: RangeOptions, g: ReadonlyRange)
    requires Fits(root, |text|) && g in PatternRanges(text, root, p, opts)
    ensures g.start <= g.end <= |text|
  {
    var locs := Expand(Root(root), p);
    var i :| 0 <= i < |locs| && g in RangesAt(text, locs[i], opts);
    ExpandSound(Root(root), p, |text|);
    assert locs[i] in locs;
  }

  /** `findReadonlyFieldRanges`: no ranges without a parse tree; otherwise
      the ranges of every node each pattern reaches, pattern by pattern and
      node by node. */
  method FindReadonlyFieldRanges(text: string, root: Option<Node>, paths: seq<string>, opts: RangeOptions)
    returns (ranges: seq<ReadonlyRange>)
    ensures root.None? ==> ranges == []
    ensures root.Some? ==> ranges == RangesOfPaths(text, root.value, paths, opts)
  {
    if root.None? {
      return [];
    }
    ranges := PatternsRanges(text, root.value, Seqs.Map(paths, ParsePath), opts);
  }

  /** The outer loop of `findReadonlyFieldRanges`, once the patterns are
      parsed: pattern by pattern, the ranges of the nodes each reaches. */
  method PatternsRanges(text: string, root: Node, pats: seq<Path>, opts: RangeOptions)
    returns (ranges: seq<ReadonlyRange>)
    ensures ranges == RangesOfPatterns(text, root, pats, opts)
  {
    ranges := [];
    var k := 0;
    while k < |pats|
      invariant 0 <= k <= |pats|
      invariant ranges == RangesOfPatterns(text, root, pats[..k], opts)
    {
      var more := NodeRanges(text, Expand(Root(root), pats[k]), opts);
      assert more == PatternRanges(text, root, pats[k], opts);
      RangesOfPatternsSnoc(text, root, pats, k, opts);
      ranges := ranges + more;
      k := k + 1;
    }
    assert pats[..k] == pats;
  }

  /** One more pattern adds its ranges at the end. */
  lemma RangesOfPatternsSnoc(text: string, root: Node, pats: seq<Path>, k: nat, opts: RangeOptions)
    requires k < |pats|
    ensures RangesOfPatterns(text, root, pats[..k + 1], opts) ==
      RangesOfPatterns(text, root, pats[..k], opts) + PatternRanges(text, root, pats[k], opts)
  {
    assert pats[..k + 1][..k] == pats[..k] && pats[..k + 1][k] == pats[k];
  }

  /** The inner loop of `findReadonlyFieldRanges`: the ranges of the reached
      nodes, node by node. */
  method NodeRanges(text: string, nodes: seq<Located>, opts: RangeOptions) returns (ranges: seq<ReadonlyRange>)
    ensures ranges == RangesOfNodes(text, nodes, opts)
  {
    ranges := [];
    var i := 0;
    while i < |nodes|
      invariant 0 <= i <= |nodes|
      invariant ranges == RangesOfNodes(text, nodes[..i], opts)
    {
      assert nodes[..i + 1][..i] == nodes[..i];
      ranges := ranges + RangesAt(text, nodes[i], opts);
      i := i + 1;
    }
    assert nodes[..i] == nodes;
  }

  // ---------------------------------------------------------------------------
  // isReadonlyValueChanged

  /** `newNodes[i]?.value`. */
  function ValueAt(locs: seq<Located>, i: nat): Option<Json> {
    if i < |locs| then NodeValue(locs[i].node) else None
  }

  /** The `i`-th old node holds a literal and the `i`-th new node does not
      hold an equal one. */
  predicate DiffersAt(olds: seq<Located>, news: seq<Located>, i: nat)
    requires i < |olds|
  {
    NodeValue(olds[i].node).Some? && !IsEqualOpt(NodeValue(olds[i].node), ValueAt(news, i))
  }

  predicate Differs(olds: seq<Located>, news: seq<Located>) {
    exists i :: 0 <= i < |olds| && DiffersAt(olds, news, i)
  }

  /** Some position of one pattern's expansion holds an old literal that
      the new tree does not match. */
  predicate ChangedBy(prev: Node, next: Node, path: string) {
    ChangedAlong(prev, next, ParsePath(path))
  }

  /** `ChangedBy` for a pattern that is already parsed. */
  predicate ChangedAlong(prev: Node, next: Node, p: Path) {
    Differs(Expand(Root(prev), p), Expand(Root(next), p))
  }

  /** `isReadonlyValueChanged`: without both trees, nothing changed;
      otherwise some pattern reaches, at some position of its expansion, a
      literal in the old tree that the new tree does not match at the same
      position. Containers in the old tree are skipped. */
  method IsReadonlyValueChanged(prev: Option<Node>, next: Option<Node>, paths: seq<string>) returns (changed: bool)
    ensures changed <==> (prev.Some? && next.Some? &&
      exists k :: 0 <= k < |paths| && ChangedBy(prev.value, next.value, paths[k]))
  {
    if prev.None? || next.None? {
      return false;
    }
    var pats := Seqs.Map(paths, ParsePath);
    changed := AnyChanged(prev.value, next.value, pats);
  }

  /** The outer loop of `isReadonlyValueChanged`, once both trees exist and
      the patterns are parsed: pattern by pattern, stopping at the first
      change. */
  method AnyChanged(oldRoot: Node, newRoot: Node, pats: seq<Path>) returns (changed: bool)
    ensures changed <==> exists k :: 0 <= k < |pats| && ChangedAlong(oldRoot, newRoot, pats[k])
  {
    var k := 0;
    while k < |pats|
      invariant 0 <= k <= |pats|
      invariant forall j :: 0 <= j < k ==> !ChangedAlong(oldRoot, newRoot, pats[j])
    {
      var differs := FindDifference(Expand(Root(oldRoot), pats[k]), Expand(Root(newRoot), pats[k]));
      if differs {
        return true;
      }
      k := k + 1;
    }
    return false;
  }

  /** The inner loop of `isReadonlyValueChanged`: old and new nodes are
      compared position by position, skipping old nodes without a literal. */
  method FindDifference(olds: seq<Located>, news: seq<Located>) returns (differs: bool)
    ensures differs <==> Differs(olds, news)
  {
    var i := 0;
    while i < |olds|
      invariant 0 <= i <= |olds|
      invariant forall j :: 0 <= j < i ==> !DiffersAt(olds, news, j)
    {
      var oldVal := NodeValue(olds[i].node);
      if oldVal.Some? {
        var newVal := if i < |news| then NodeValue(news[i].node) else None;
        if !IsEqualOpt(oldVal, newVal) {
          assert DiffersAt(olds, news, i);
          return true;
        }
      }
      i := i + 1;
    }
    return false;
  }

  /** A tree compared with itself has no changed read-only value, whatever
      the patterns. */
  lemma UnchangedAgainstItself(t: Node, paths: seq<string>)
    ensures forall k :: 0 <= k < |paths| ==> !ChangedBy(t, t, paths[k])
  {
    forall k | 0 <= k < |paths|
      ensures !ChangedBy(t, t, paths[k])
    {
      UnchangedAlong(t, ParsePath(paths[k]));
    }
  }

  /** One parsed pattern never reports a change of a tree against itself. */
  lemma UnchangedAlong(t: Node, p: Path)
    ensures !ChangedAlong(t, t, p)
  {
    var nodes := Expand(Root(t), p);
    forall i | 0 <= i < |nodes|
      ensures !DiffersAt(nodes, nodes, i)
    {
      var v := NodeValue(nodes[i].node);
      if v.Some? {
        IsEqualScalar(v.value, v.value);
      }
    }
  }

  /** On complete trees and a key-and-index pattern, a value counts as
      changed exactly when the old value at that path is a literal and the new
      value there is missing or different. */
  lemma ConcreteChange(prev: Node, next: Node, a: Json, b: Json, p: Path)
    requires ToJson(prev) == Some(a) && ToJson(next) == Some(b) && IsConcrete(p)
    ensures ChangedAlong(prev, next, p) <==>
      Lookup(a, p).Some? && !IsContainer(Lookup(a, p).value) && Lookup(b, p) != Lookup(a, p)
  {
    ExpandConcrete(Root(prev), p);
    ExpandConcrete(Root(next), p);
    NodeAtLookup(Root(prev), a, p);
    NodeAtLookup(Root(next), b, p);
    var olds, news := Expand(Root(prev), p), Expand(Root(next), p);
    var va, vb := Lookup(a, p), Lookup(b, p);
    assert ValueAt(news, 0) == (if vb.Some? && !IsContainer(vb.value) then vb else None) by {
      if news != [] {
        NodeValueSpelled(news[0].node, vb.value);
      }
    }
    if olds == [] {
      assert !Differs(olds, news);
    } else {
      NodeValueSpelled(olds[0].node, va.value);
      assert Differs(olds, news) <==> DiffersAt(olds, news, 0);
      if !IsContainer(va.value) && ValueAt(news, 0).Some? {
        IsEqualScalar(va.value, ValueAt(news, 0).value);
      }
    }
  }

  /** A node's literal value is the value it spells, unless that is a
      container. */
  lemma NodeValueSpelled(n: Node, v: Json)
    requires ToJson(n) == Some(v)
    ensures NodeValue(n) == if IsContainer(v) then None else Some(v)
  {
  }
}

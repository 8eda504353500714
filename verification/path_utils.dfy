/** Field-path strings and patterns: parsing `a.b[0].c`, `arr[].x` and `**`
    paths into path elements, matching concrete paths against patterns, and
    enumerating the paths of a value that match a pattern. */
module PathUtils {

  import opened Seqs
  import opened Text
  import opened Json
  import opened Utils

  // ---------------------------------------------------------------------------
  // parsePath

  /** A key that `parsePath` can produce: non-empty, free of `.`, `[`, `]` and
      `**`, and not a digit string (those become indices). */
  predicate PlainKey(k: string) {
    ScannedKey(k) && !IsNumeral(k)
  }

  /** A key as the bracket scanner cuts it, before digit strings are turned
      into indices. */
  predicate ScannedKey(k: string) {
    |k| > 0 && '.' !in k && '[' !in k && ']' !in k && !HasDoubleStar(k)
  }

  /** Patterns whose keys are all plain. */
  predicate PlainPath(p: Path) {
    forall i :: 0 <= i < |p| ==> p[i].Key? ==> PlainKey(p[i].name)
  }

  predicate ScannedPath(p: Path) {
    forall i :: 0 <= i < |p| ==> p[i].Key? ==> ScannedKey(p[i].name)
  }

  /** The length of the longest prefix of `s` free of `[` and `]`. */
  function RunLength(s: string): (r: nat)
    ensures r <= |s|
    ensures forall i :: 0 <= i < r ==> s[i] != '[' && s[i] != ']'
    ensures r < |s| ==> s[r] == '[' || s[r] == ']'
  {
    if s == [] || s[0] == '[' || s[0] == ']' then 0 else 1 + RunLength(s[1..])
  }

  /** The length of the longest prefix of `s` made of decimal digits. */
  function DigitRun(s: string): (r: nat)
    ensures r <= |s|
    ensures AllDigits(s[..r])
    ensures r < |s| ==> !IsDigit(s[r])
  {
    if s == [] || !IsDigit(s[0]) then 0
    else
      var r := DigitRun(s[1..]);
      assert s[..1 + r] == [s[0]] + s[1..][..r];
      1 + r
  }

  /** The pieces of a bracket-free run split at `**`: a deep wildcard between
      consecutive pieces, and each non-empty piece as a key. */
  function StarPieces(ps: seq<string>, first: bool): (r: Path)
    requires forall i :: 0 <= i < |ps| ==> |ps[i]| > 0 ==> ScannedKey(ps[i])
    ensures ScannedPath(r)
  {
    if ps == [] then []
    else (if first then [] else [Glob]) + (if ps[0] != "" then [Key(ps[0])] else []) + StarPieces(ps[1..], false)
  }

  /** One maximal bracket-free run: a key, or keys and deep wildcards when the
      run contains `**`. */
  function RunPieces(run: string): (r: Path)
    requires |run| > 0 && '.' !in run && '[' !in run && ']' !in run
    ensures ScannedPath(r)
  {
    if HasDoubleStar(run) then
      var ps := SplitOnDoubleStar(run);
      SplitOnDoubleStarPieces(run);
      SplitOnDoubleStarAvoids(run, '.');
      SplitOnDoubleStarAvoids(run, '[');
      SplitOnDoubleStarAvoids(run, ']');
      StarPieces(ps, true)
    else [Key(run)]
  }

  /** The global scan of one dot-separated part with the pattern
      `([^[\]]+)|\[(\d*|\*)\]`: bracket-free runs become keys, `[digits]`
      an index, `[]` and `[*]` the array wildcard; any other bracket
      character is skipped. */
  function ScanPart(s: string): (r: Path)
    requires '.' !in s
    ensures ScannedPath(r)
    decreases |s|
  {
    if s == [] then []
    else if s[0] == ']' then ScanPart(s[1..])
    else if s[0] == '[' then
      var d := DigitRun(s[1..]);
      if 1 + d < |s| && s[1 + d] == ']' then
        assert s[1..1 + d] == s[1..][..d];
        [BracketToken(s[1..1 + d])] + ScanPart(s[2 + d..])
      else if |s| >= 3 && s[1] == '*' && s[2] == ']' then [AnyIndex] + ScanPart(s[3..])
      else ScanPart(s[1..])
    else
      var n := RunLength(s);
      assert forall c :: c in s[..n] ==> c in s;
      RunPieces(s[..n]) + ScanPart(s[n..])
  }

  /** The element a bracket token `[digits]` stands for: `[]` is the array
      wildcard, anything else an index. */
  function BracketToken(digits: string): PathElement
    requires AllDigits(digits)
  {
    if digits == [] then AnyIndex else Index(ParseNat(digits))
  }

  /** One dot-separated part: exactly `**` is the deep wildcard, anything
      else is scanned. */
  function ParsePart(part: string): (r: Path)
    requires '.' !in part
    ensures ScannedPath(r)
  {
    if part == "**" then [Glob] else ScanPart(part)
  }

  function ParseParts(parts: seq<string>): (r: Path)
    requires forall i :: 0 <= i < |parts| ==> '.' !in parts[i]
    ensures ScannedPath(r)
  {
    if parts == [] then [] else ParsePart(parts[0]) + ParseParts(parts[1..])
  }

  /** The final pass: a key that is a digit string becomes an index. */
  function NormalizeElement(e: PathElement): PathElement {
    if e.Key? && IsNumeral(e.name) then Index(ParseNat(e.name)) else e
  }

  /** `parsePath`: a leading `**` (and one `.` after it), then the
      dot-separated parts, then digit-string keys turned into indices. Every
      key of the result is plain. */
  function ParsePath(path: string): (r: Path)
    ensures PlainPath(r)
  {
    var leading := StartsWith(path, "**");
    var rest :=
      if !leading then path
      else if StartsWith(path[2..], ".") then path[3..]
      else path[2..];
    var parsed := (if leading then [Glob] else []) + ParseParts(SplitOn(rest, '.'));
    Map(parsed, NormalizeElement)
  }

  // ---------------------------------------------------------------------------
  // parsePath reads back what RenderPath writes

  /** The text a part starts with: a key, the deep wildcard, or nothing. */
  function HeadText(h: Option<PathElement>): string {
    match h
    case Some(Key(k)) => k
    case Some(Glob) => "**"
    case _ => ""
  }

  function HeadPath(h: Option<PathElement>): Path {
    match h
    case Some(e) => [e]
    case None => []
  }

  predicate Bracketed(b: Path) {
    forall i :: 0 <= i < |b| ==> b[i].Index? || b[i].AnyIndex?
  }

  predicate GoodHead(h: Option<PathElement>) {
    h.None? || h.value.Glob? || (h.value.Key? && PlainKey(h.value.name))
  }

  lemma {:induction false} RenderTailAppend(a: Path, b: Path)
    ensures RenderTail(a + b) == RenderTail(a) + RenderTail(b)
    decreases |a|
  {
    if a == [] {
      assert a + b == b;
    } else {
      assert (a + b)[1..] == a[1..] + b;
      RenderTailAppend(a[1..], b);
    }
  }

  /** Rendered indices and array wildcards contain no `.`. */
  lemma {:induction false} BracketsNoDot(b: Path)
    requires Bracketed(b)
    ensures '.' !in RenderTail(b)
    ensures |RenderTail(b)| > 0 ==> RenderTail(b)[0] == '['
    decreases |b|
  {
    if b != [] {
      assert Bracketed(b[1..]) by {
        assert forall i :: 0 <= i < |b[1..]| ==> b[1..][i] == b[i + 1];
      }
      BracketsNoDot(b[1..]);
      BracketSegmentNoDot(b[0]);
      assert RenderTail(b) == RenderSegment(b[0], false) + RenderTail(b[1..]);
    }
  }

  /** One rendered index or array wildcard: `[`, digits, `]`. */
  lemma BracketSegmentNoDot(e: PathElement)
    requires e.Index? || e.AnyIndex?
    ensures '.' !in RenderSegment(e, false) && RenderSegment(e, false)[0] == '['
  {
    var d := if e.Index? then NatToDecimal(e.index) else "";
    assert forall j :: 0 <= j < |d| ==> IsDigit(d[j]);
    assert RenderSegment(e, false) == "[" + d + "]";
  }

  /** Scanning rendered indices and array wildcards reads them back. */
  lemma {:induction false} ScanBrackets(b: Path)
    requires Bracketed(b)
    ensures '.' !in RenderTail(b)
    ensures ScanPart(RenderTail(b)) == b
    decreases |b|
  {
    BracketsNoDot(b);
    if b != [] {
      assert Bracketed(b[1..]) by {
        assert forall i :: 0 <= i < |b[1..]| ==> b[1..][i] == b[i + 1];
      }
      ScanBrackets(b[1..]);
      var rest := RenderTail(b[1..]);
      var d := if b[0].Index? then NatToDecimal(b[0].index) else "";
      var s := "[" + d + "]" + rest;
      assert RenderSegment(b[0], false) == "[" + d + "]";
      assert RenderTail(b) == s;
      ScanOneBracket(d, rest);
      assert b[0] == (if d == "" then AnyIndex else Index(ParseNat(d)));
      assert b == [b[0]] + b[1..];
    }
  }

  lemma ScanOneBracket(d: string, rest: string)
    requires AllDigits(d) && '.' !in rest && '.' !in d
    ensures '.' !in "[" + d + "]" + rest
    ensures ScanPart("[" + d + "]" + rest) ==
            [if d == "" then AnyIndex else Index(ParseNat(d))] + ScanPart(rest)
  {
    var s := "[" + d + "]" + rest;
    assert s[1..] == d + ("]" + rest);
    DigitRunAfter(d, "]" + rest);
    assert s[1 + |d|] == ']';
    assert s[1..1 + |d|] == d;
    assert s[2 + |d|..] == rest;
    ScanBracketStep(s, |d|);
  }

  /** The scanner's step at a well-formed bracket token. */
  lemma ScanBracketStep(s: string, d: nat)
    requires '.' !in s && 1 + d < |s| && s[0] == '['
    requires DigitRun(s[1..]) == d && s[1 + d] == ']'
    ensures AllDigits(s[1..1 + d])
    ensures ScanPart(s) == [BracketToken(s[1..1 + d])] + ScanPart(s[2 + d..])
  {
    assert s[1..][..d] == s[1..1 + d];
  }

  lemma {:induction false} DigitRunAfter(d: string, rest: string)
    requires AllDigits(d) && |rest| > 0 && !IsDigit(rest[0])
    ensures DigitRun(d + rest) == |d|
    decreases |d|
  {
    if d == [] {
      assert d + rest == rest;
    } else {
      assert (d + rest)[0] == d[0] && (d + rest)[1..] == d[1..] + rest;
      DigitRunAfter(d[1..], rest);
    }
  }

  lemma {:induction false} RunLengthAfter(k: string, rest: string)
    requires '[' !in k && ']' !in k
    requires |rest| > 0 ==> rest[0] == '['
    ensures RunLength(k + rest) == |k|
    decreases |k|
  {
    if k == [] {
      assert k + rest == rest;
    } else {
      assert k[0] in k;
      assert (k + rest)[0] == k[0] && (k + rest)[1..] == k[1..] + rest;
      RunLengthAfter(k[1..], rest);
    }
  }

  /** The scanner's step at a bracket-free run. */
  lemma ScanRunStep(s: string)
    requires '.' !in s && |s| > 0 && s[0] != '[' && s[0] != ']'
    ensures 0 < RunLength(s) <= |s|
    ensures '.' !in s[..RunLength(s)] && '[' !in s[..RunLength(s)] && ']' !in s[..RunLength(s)]
    ensures ScanPart(s) == RunPieces(s[..RunLength(s)]) + ScanPart(s[RunLength(s)..])
  {
    assert forall c :: c in s[..RunLength(s)] ==> c in s;
  }

  /** `"**".split("**")` is two empty pieces, read as one deep wildcard. */
  lemma DoubleStarRun()
    ensures HasDoubleStar("**")
    ensures RunPieces("**") == [Glob]
  {
    assert "**"[0] == '*' && "**"[1] == '*';
    assert "**"[2..] == "";
    assert SplitOnDoubleStar("**") == ["", ""];
  }

  /** One part: its head, then its indices and array wildcards. */
  lemma ParseOnePart(h: Option<PathElement>, b: Path)
    requires GoodHead(h) && Bracketed(b)
    ensures '.' !in HeadText(h) + RenderTail(b)
    ensures ParsePart(HeadText(h) + RenderTail(b)) == HeadPath(h) + b
  {
    var t := RenderTail(b);
    if h.None? {
      assert HeadText(h) + t == t && HeadPath(h) + b == b;
      PartWithoutHead(b);
    } else if h.value.Glob? {
      assert HeadText(h) == "**" && HeadPath(h) == [Glob];
      PartAfterGlob(b);
    } else {
      var k := h.value.name;
      assert HeadText(h) == k && HeadPath(h) == [Key(k)];
      PartAfterKey(k, b);
    }
  }

  lemma PartWithoutHead(b: Path)
    requires Bracketed(b)
    ensures '.' !in RenderTail(b)
    ensures ParsePart(RenderTail(b)) == b
  {
    var t := RenderTail(b);
    ScanBrackets(b);
    BracketsNoDot(b);
    assert t != "**" by {
      if |t| > 0 {
        assert t[0] == '[';
      }
    }
  }

  lemma PartAfterGlob(b: Path)
    requires Bracketed(b)
    ensures '.' !in "**" + RenderTail(b)
    ensures ParsePart("**" + RenderTail(b)) == [Glob] + b
  {
    var t := RenderTail(b);
    ScanBrackets(b);
    BracketsNoDot(b);
    var s := "**" + t;
    assert '.' !in s;
    if b == [] {
      assert s == "**";
    } else {
      assert s != "**" by {
        assert |t| > 0;
      }
      RunLengthAfter("**", t);
      ScanRunStep(s);
      assert s[..2] == "**" && s[2..] == t;
      DoubleStarRun();
    }
  }

  lemma PartAfterKey(k: string, b: Path)
    requires PlainKey(k) && Bracketed(b)
    ensures '.' !in k + RenderTail(b)
    ensures ParsePart(k + RenderTail(b)) == [Key(k)] + b
  {
    var t := RenderTail(b);
    ScanBrackets(b);
    BracketsNoDot(b);
    var s := k + t;
    assert '.' !in s;
    assert k[0] in k;
    RunLengthAfter(k, t);
    ScanRunStep(s);
    assert s[..|k|] == k && s[|k|..] == t;
    assert s != "**";
  }

  /** The general read-back: a pending head and accumulated indices, then
      the rest of the path in non-leading form. */
  lemma {:induction false} ParseGroups(h: Option<PathElement>, b: Path, q: Path)
    requires GoodHead(h) && Bracketed(b) && PlainPath(q)
    ensures ParseParts(SplitOn(HeadText(h) + RenderTail(b) + RenderTail(q), '.')) == HeadPath(h) + b + q
    decreases |q|
  {
    if q == [] {
      GroupsEnd(h, b);
    } else {
      assert PlainPath(q[1..]) by {
        assert forall i :: 0 <= i < |q[1..]| ==> q[1..][i] == q[i + 1];
      }
      if q[0].Index? || q[0].AnyIndex? {
        assert Bracketed(b + [q[0]]);
        ParseGroups(h, b + [q[0]], q[1..]);
        GroupsBracketStep(h, b, q);
      } else {
        ParseGroups(Some(q[0]), [], q[1..]);
        GroupsHeadStep(h, b, q);
      }
    }
  }

  lemma GroupsEnd(h: Option<PathElement>, b: Path)
    requires GoodHead(h) && Bracketed(b)
    ensures ParseParts(SplitOn(HeadText(h) + RenderTail(b) + RenderTail([]), '.')) == HeadPath(h) + b + []
  {
    var x := HeadText(h) + RenderTail(b);
    ParseOnePart(h, b);
    assert x + RenderTail([]) == x;
    SplitOnNoSeparator(x, '.');
    assert ParseParts([x]) == ParsePart(x) + ParseParts([]);
  }

  lemma GroupsBracketStep(h: Option<PathElement>, b: Path, q: Path)
    requires q != []
    ensures HeadText(h) + RenderTail(b + [q[0]]) + RenderTail(q[1..]) == HeadText(h) + RenderTail(b) + RenderTail(q)
    ensures HeadPath(h) + (b + [q[0]]) + q[1..] == HeadPath(h) + b + q
  {
    var e, rest := q[0], q[1..];
    assert [e] + rest == q;
    RenderTailAppend([e], rest);
    RenderTailAppend(b, [e]);
    StringAssoc(HeadText(h), RenderTail(b), RenderTail([e]), RenderTail(rest));
  }

  lemma StringAssoc(a: string, b: string, c: string, d: string)
    ensures a + (b + c) + d == a + b + (c + d)
  {
  }

  lemma GroupsHeadStep(h: Option<PathElement>, b: Path, q: Path)
    requires q != [] && (q[0].Key? || q[0].Glob?)
    requires GoodHead(h) && Bracketed(b)
    requires ParseParts(SplitOn(HeadText(Some(q[0])) + RenderTail([]) + RenderTail(q[1..]), '.')) == HeadPath(Some(q[0])) + [] + q[1..]
    ensures ParseParts(SplitOn(HeadText(h) + RenderTail(b) + RenderTail(q), '.')) == HeadPath(h) + b + q
  {
    var s := HeadText(h) + RenderTail(b) + RenderTail(q);
    var x := HeadText(h) + RenderTail(b);
    var parts := SplitOn(HeadText(Some(q[0])) + RenderTail([]) + RenderTail(q[1..]), '.');
    HeadPathFirst(q);
    ParseOnePart(h, b);
    HeadStepText(h, b, q);
    ParsePartsVia(s, x, parts, HeadPath(h) + b, q);
  }

  lemma HeadPathFirst(q: Path)
    requires q != []
    ensures HeadPath(Some(q[0])) + [] + q[1..] == q
  {
  }

  /** The parse of a text whose dot parts are one part and then others. */
  lemma ParsePartsVia(s: string, x: string, parts: seq<string>, xs: Path, q: Path)
    requires SplitOn(s, '.') == [x] + parts
    requires '.' !in x && forall i :: 0 <= i < |parts| ==> '.' !in parts[i]
    requires ParsePart(x) == xs && ParseParts(parts) == q
    ensures ParseParts(SplitOn(s, '.')) == xs + q
  {
    ParsePartsJoin(x, parts, xs, q);
  }

  /** `ParseParts` of one more part, in terms of what the parts parse to. */
  lemma ParsePartsJoin(x: string, parts: seq<string>, xs: Path, q: Path)
    requires '.' !in x && forall i :: 0 <= i < |parts| ==> '.' !in parts[i]
    requires ParsePart(x) == xs && ParseParts(parts) == q
    ensures ParseParts([x] + parts) == xs + q
  {
    ParsePartsCons(x, parts);
  }

  /** A key or `**` after the pending part starts a new dot-separated part. */
  lemma HeadStepText(h: Option<PathElement>, b: Path, q: Path)
    requires q != [] && (q[0].Key? || q[0].Glob?)
    requires GoodHead(h) && Bracketed(b)
    ensures SplitOn(HeadText(h) + RenderTail(b) + RenderTail(q), '.') ==
            [HeadText(h) + RenderTail(b)] + SplitOn(HeadText(Some(q[0])) + RenderTail([]) + RenderTail(q[1..]), '.')
  {
    var y := HeadText(Some(q[0])) + RenderTail([]) + RenderTail(q[1..]);
    HeadTail(q);
    ParseOnePart(h, b);
    DotSplit(HeadText(h) + RenderTail(b), y, RenderTail(q));
  }

  /** A key or `**` in a non-leading position is written as `.` and then its
      leading form. */
  lemma HeadTail(q: Path)
    requires q != [] && (q[0].Key? || q[0].Glob?)
    ensures RenderTail(q) == "." + (HeadText(Some(q[0])) + RenderTail([]) + RenderTail(q[1..]))
  {
    var e, rest := q[0], q[1..];
    assert [e] + rest == q;
    RenderTailAppend([e], rest);
    HeadSegmentText(e);
    StringAssoc("", ".", HeadText(Some(e)) + RenderTail([]), RenderTail(rest));
  }

  lemma DotSplit(x: string, y: string, t: string)
    requires '.' !in x && t == "." + y
    ensures SplitOn(x + t, '.') == [x] + SplitOn(y, '.')
  {
    assert x + t == x + ['.'] + y;
    SplitOnCons(x, '.', y);
  }

  /** A non-leading key or `**` is written as a dot and its head text. */
  lemma HeadSegmentText(e: PathElement)
    requires e.Key? || e.Glob?
    ensures RenderTail([e]) == "." + HeadText(Some(e)) + RenderTail([])
  {
    assert [e][1..] == [];
  }

  lemma ParsePartsCons(x: string, parts: seq<string>)
    requires '.' !in x && forall i :: 0 <= i < |parts| ==> '.' !in parts[i]
    ensures ParseParts([x] + parts) == ParsePart(x) + ParseParts(parts)
  {
    assert ([x] + parts)[1..] == parts;
  }

  /** Normalisation leaves paths with plain keys alone. */
  lemma NormalizePlain(q: Path)
    requires PlainPath(q)
    ensures Map(q, NormalizeElement) == q
  {
  }

  /** `parsePath` reads back every path written by `RenderPath` whose keys
      are plain, wildcards included. */
  lemma ParsePathRoundTrip(q: Path)
    requires PlainPath(q)
    ensures ParsePath(RenderPath(q)) == q
  {
    if q == [] {
      RoundTripEmpty();
    } else if q[0].Glob? {
      RoundTripGlobFirst(q);
    } else if q[0].Key? {
      RoundTripKeyFirst(q);
    } else {
      RoundTripBracketFirst(q);
    }
  }

  /** The empty path renders to "" and parses back. */
  lemma RoundTripEmpty()
    ensures ParsePath(RenderPath([])) == []
  {
    assert SplitOn("", '.') == [""];
    assert ParseParts([""]) == [];
  }

  /** The round trip of a plain path that starts with `**`. */
  lemma RoundTripGlobFirst(q: Path)
    requires PlainPath(q) && q != [] && q[0].Glob?
    ensures ParsePath(RenderPath(q)) == q
  {
    PlainTail(q);
    RoundTripAfterGlob(q[1..]);
    assert RenderPath(q) == "**" + RenderTail(q[1..]);
    assert q == [Glob] + q[1..];
  }

  /** The round trip of a plain path that starts with a key. */
  lemma RoundTripKeyFirst(q: Path)
    requires PlainPath(q) && q != [] && q[0].Key?
    ensures ParsePath(RenderPath(q)) == q
  {
    PlainTail(q);
    RoundTripAfterKey(q[0].name, q[1..]);
    assert RenderPath(q) == q[0].name + RenderTail(q[1..]);
    assert q == [Key(q[0].name)] + q[1..];
  }

  /** What `parsePath` builds before its final pass, when no `**` leads. */
  lemma UnledParse(s: string)
    requires !StartsWith(s, "**")
    ensures ParsePath(s) == Map(ParseParts(SplitOn(s, '.')), NormalizeElement)
  {
    assert [] + ParseParts(SplitOn(s, '.')) == ParseParts(SplitOn(s, '.'));
  }

  /** An unled path whose parts scan to plain keys parses to exactly them. */
  lemma UnledParseTo(s: string, q: Path)
    requires !StartsWith(s, "**") && ParseParts(SplitOn(s, '.')) == q && PlainPath(q)
    ensures ParsePath(s) == q
  {
    UnledParse(s);
    NormalizePlain(q);
  }

  /** What `parsePath` builds before its final pass, after a leading `**`. */
  lemma LedParse(s: string)
    requires StartsWith(s, "**")
    ensures ParsePath(s) ==
      Map([Glob] + ParseParts(SplitOn(if StartsWith(s[2..], ".") then s[3..] else s[2..], '.')), NormalizeElement)
  {
  }

  /** The parts of two part lists, one after the other. */
  lemma {:induction false} ParsePartsAppend(xs: seq<string>, ys: seq<string>)
    requires forall i :: 0 <= i < |xs| ==> '.' !in xs[i]
    requires forall i :: 0 <= i < |ys| ==> '.' !in ys[i]
    ensures ParseParts(xs + ys) == ParseParts(xs) + ParseParts(ys)
  {
    if xs != [] {
      assert (xs + ys)[0] == xs[0] && (xs + ys)[1..] == xs[1..] + ys;
      ParsePartsAppend(xs[1..], ys);
      assert ParseParts(xs + ys) == ParsePart(xs[0]) + ParseParts(xs[1..] + ys);
    } else {
      assert xs + ys == ys;
    }
  }

  /** A dot joins two paths: parsing `a.b` gives the segments of `a` followed
      by those of `b`, when neither starts with `**`. */
  lemma ParsePathSplit(a: string, b: string)
    requires !StartsWith(a, "**") && !StartsWith(b, "**")
    ensures ParsePath(a + "." + b) == ParsePath(a) + ParsePath(b)
  {
    var s := a + "." + b;
    assert !StartsWith(s, "**") by {
      if |a| >= 2 {
        assert s[..2] == a[..2];
      } else if |a| == 1 {
        assert s[1] == '.';
      } else {
        assert s[0] == '.';
      }
    }
    UnledParse(s);
    UnledParse(a);
    UnledParse(b);
    SplitOnJoin(a, '.', b);
    ParsePartsAppend(SplitOn(a, '.'), SplitOn(b, '.'));
    MapAppend(ParseParts(SplitOn(a, '.')), ParseParts(SplitOn(b, '.')), NormalizeElement);
  }

  /** A leading `**`, with or without a dot after it, puts the deep wildcard
      in front of the path that follows. */
  lemma ParsePathAfterGlob(s: string, dot: bool)
    requires !StartsWith(s, "**") && (dot || !StartsWith(s, "."))
    ensures ParsePath((if dot then "**." else "**") + s) == [Glob] + ParsePath(s)
  {
    var t := (if dot then "**." else "**") + s;
    assert t[..2] == "**";
    assert t[2..] == (if dot then "." + s else s);
    if dot {
      assert t[2..][..1] == ".";
      assert t[3..] == s;
    }
    LedParse(t);
    UnledParse(s);
    MapAppend([Glob], ParseParts(SplitOn(s, '.')), NormalizeElement);
  }

  /** A path written with a leading `**`. */
  lemma RoundTripAfterGlob(t: Path)
    requires PlainPath(t)
    ensures ParsePath("**" + RenderTail(t)) == [Glob] + t
  {
    var s := "**" + RenderTail(t);
    assert StartsWith(s, "**") && s[2..] == RenderTail(t);
    LedParse(s);
    var rest := if StartsWith(s[2..], ".") then s[3..] else s[2..];
    assert ParseParts(SplitOn(rest, '.')) == t by {
      GlobTailParts(t);
    }
    NormalizeOfGlob(t);
  }

  /** The text after a leading `**` (and its dot) is read back as the rest. */
  lemma GlobTailParts(t: Path)
    requires PlainPath(t)
    ensures ParseParts(SplitOn(if StartsWith(RenderTail(t), ".") then RenderTail(t)[1..] else RenderTail(t), '.')) == t
  {
    if t != [] && (t[0].Key? || t[0].Glob?) {
      GlobThenHead(t);
    } else {
      GlobThenBrackets(t);
    }
  }

  lemma GlobThenHead(t: Path)
    requires PlainPath(t) && t != [] && (t[0].Key? || t[0].Glob?)
    ensures StartsWith(RenderTail(t), ".")
    ensures ParseParts(SplitOn(RenderTail(t)[1..], '.')) == t
  {
    var y := HeadText(Some(t[0])) + RenderTail(t[1..]);
    TailOfHead(t);
    DropDot(RenderTail(t), y);
    PlainTail(t);
    ParseGroupsAt(Some(t[0]), t[1..], y);
    HeadAndRest(t);
  }

  /** A path starting with a key or `**` is written as a dot, its head text
      and the rest. */
  lemma TailOfHead(t: Path)
    requires t != [] && (t[0].Key? || t[0].Glob?)
    ensures RenderTail(t) == "." + (HeadText(Some(t[0])) + RenderTail(t[1..]))
  {
    assert [t[0]] + t[1..] == t;
    RenderTailAppend([t[0]], t[1..]);
    HeadSegmentText(t[0]);
  }

  lemma DropDot(r: string, y: string)
    requires r == "." + y
    ensures StartsWith(r, ".") && r[1..] == y
  {
  }

  lemma PlainTail(t: Path)
    requires PlainPath(t) && t != []
    ensures PlainPath(t[1..])
  {
    assert forall i :: 0 <= i < |t[1..]| ==> t[1..][i] == t[i + 1];
  }

  lemma HeadAndRest(t: Path)
    requires t != []
    ensures HeadPath(Some(t[0])) + t[1..] == t
  {
  }

  lemma GlobThenBrackets(t: Path)
    requires PlainPath(t) && !(t != [] && (t[0].Key? || t[0].Glob?))
    ensures !StartsWith(RenderTail(t), ".")
    ensures ParseParts(SplitOn(RenderTail(t), '.')) == t
  {
    assert !StartsWith(RenderTail(t), ".") by {
      if t != [] {
        assert [t[0]] + t[1..] == t;
        RenderTailAppend([t[0]], t[1..]);
        BracketsNoDot([t[0]]);
      }
    }
    ParseGroupsAt(None, t, RenderTail(t));
  }

  /** `ParseGroups` with nothing accumulated, at a given text. */
  lemma ParseGroupsAt(h: Option<PathElement>, t: Path, s: string)
    requires GoodHead(h) && PlainPath(t) && s == HeadText(h) + RenderTail(t)
    ensures ParseParts(SplitOn(s, '.')) == HeadPath(h) + t
  {
    ParseGroups(h, [], t);
    EmptyTail(HeadText(h), RenderTail(t));
    EmptyMiddle(HeadPath(h), t);
  }

  lemma EmptyTail(a: string, c: string)
    ensures a + RenderTail([]) + c == a + c
  {
    assert RenderTail([]) == "";
  }

  lemma EmptyMiddle(a: Path, c: Path)
    ensures a + [] + c == a + c
  {
  }

  lemma NormalizeOfGlob(t: Path)
    requires PlainPath(t)
    ensures Map([Glob] + t, NormalizeElement) == [Glob] + t
  {
    assert PlainPath([Glob] + t) by {
      assert forall i :: 1 <= i < |[Glob] + t| ==> ([Glob] + t)[i] == t[i - 1];
    }
    NormalizePlain([Glob] + t);
  }

  /** A path written with a leading key. */
  lemma RoundTripAfterKey(k: string, t: Path)
    requires PlainKey(k) && PlainPath(t)
    ensures ParsePath(k + RenderTail(t)) == [Key(k)] + t
  {
    var s := k + RenderTail(t);
    KeyThenTailNoDoubleStar(k, t);
    UnledParse(s);
    ParseGroupsAt(Some(Key(k)), t, s);
    NormalizeOfKey(k, t);
  }

  lemma NormalizeOfKey(k: string, t: Path)
    requires PlainKey(k) && PlainPath(t)
    ensures Map([Key(k)] + t, NormalizeElement) == [Key(k)] + t
  {
    assert PlainPath([Key(k)] + t) by {
      assert forall i :: 1 <= i < |[Key(k)] + t| ==> ([Key(k)] + t)[i] == t[i - 1];
    }
    NormalizePlain([Key(k)] + t);
  }

  /** Text starting with a plain key never starts with `**`. */
  lemma KeyThenTailNoDoubleStar(k: string, t: Path)
    requires PlainKey(k)
    ensures !StartsWith(k + RenderTail(t), "**")
  {
    var s := k + RenderTail(t);
    if |k| >= 2 {
      assert s[0] == k[0] && s[1] == k[1];
      assert !(k[0] == '*' && k[1] == '*');
    } else if t != [] {
      assert [t[0]] + t[1..] == t;
      RenderTailAppend([t[0]], t[1..]);
      TailStartsWithPunctuation(t[0]);
      assert s[1] == RenderTail(t)[0];
    }
  }

  /** A non-leading segment is written starting with `.` or `[`. */
  lemma TailStartsWithPunctuation(e: PathElement)
    ensures |RenderTail([e])| > 0
    ensures RenderTail([e])[0] == '.' || RenderTail([e])[0] == '['
  {
    assert [e][1..] == [];
  }

  /** A path written with a leading index or array wildcard. */
  lemma RoundTripBracketFirst(q: Path)
    requires PlainPath(q) && q != [] && (q[0].Index? || q[0].AnyIndex?)
    ensures ParsePath(RenderPath(q)) == q
  {
    var s := RenderPath(q);
    assert s == RenderTail(q) by {
      assert RenderSegment(q[0], true) == RenderSegment(q[0], false);
    }
    assert !StartsWith(s, "**") by {
      assert [q[0]] + q[1..] == q;
      RenderTailAppend([q[0]], q[1..]);
      TailStartsWithPunctuation(q[0]);
    }
    UnledParse(s);
    assert s == HeadText(None) + RenderTail([]) + RenderTail(q);
    ParseGroups(None, [], q);
    assert HeadPath(None) + [] + q == q;
    NormalizePlain(q);
  }

  // ---------------------------------------------------------------------------
  // isPathMatch

  /** The two-cursor matcher, on the remaining suffixes of target and
      pattern: `**` last in the pattern accepts any non-empty remainder; `**`
      elsewhere tries every later split point whose next target segment is a
      candidate for the next pattern element; `null` accepts one index; any
      other element must equal the target segment; both must run out
      together. */
  function IsPathMatch(t: Path, p: Path): bool
    decreases |p|, |t|, 1
  {
    if p == [] || t == [] then p == [] && t == []
    else if p[0].Glob? then
      if |p| == 1 then true else TrySplits(t, p[1..], 0)
    else if p[0].AnyIndex? then t[0].Index? && IsPathMatch(t[1..], p[1..])
    else p[0] == t[0] && IsPathMatch(t[1..], p[1..])
  }

  /** Whether position `i` of the target is tried after a `**`. */
  predicate Candidate(t: Path, next: PathElement, i: nat)
    requires i <= |t|
  {
    i == |t| || next.AnyIndex? || next == t[i] || (next.Index? && t[i].Index?)
  }

  /** The split-point loop after a non-final `**`, from position `i`. */
  function TrySplits(t: Path, rest: Path, i: nat): bool
    requires rest != [] && i <= |t|
    decreases |rest| + 1, |t| - i, 0
  {
    (Candidate(t, rest[0], i) && IsPathMatch(t[i..], rest)) || (i < |t| && TrySplits(t, rest, i + 1))
  }

  /** How one concrete segment meets one non-`**` pattern element. */
  predicate SegMatch(s: PathElement, e: PathElement) {
    if e.AnyIndex? then s.Index? else s == e
  }

  /** The reference meaning of a pattern: `**` stands for any run of
      segments, which must be non-empty when `**` is last; other elements
      meet one segment each. */
  predicate Matches(t: Path, p: Path)
    decreases |p|, |t|
  {
    if p == [] then t == []
    else if p[0].Glob? then
      if |p| == 1 then |t| > 0 else exists i :: 0 <= i <= |t| && Matches(t[i..], p[1..])
    else |t| > 0 && SegMatch(t[0], p[0]) && Matches(t[1..], p[1..])
  }

  predicate NoAdjacentGlobs(p: Path) {
    forall i :: 0 <= i < |p| - 1 ==> !(p[i].Glob? && p[i + 1].Glob?)
  }

  /** Without `**`, a pattern matches exactly the targets of its length whose
      segments each meet the element at the same position. */
  lemma {:induction false} IsPathMatchPlain(t: Path, p: Path)
    requires !HasGlob(p)
    ensures IsPathMatch(t, p) <==> |t| == |p| && forall i :: 0 <= i < |p| ==> SegMatch(t[i], p[i])
    decreases |p|
  {
    if p != [] && t != [] {
      assert !HasGlob(p[1..]) by {
        assert forall x :: x in p[1..] ==> x in p;
      }
      IsPathMatchPlain(t[1..], p[1..]);
      assert forall i :: 1 <= i < |p| ==> p[1..][i - 1] == p[i];
      if |t| == |p| {
        assert forall i :: 1 <= i < |t| ==> t[1..][i - 1] == t[i];
      }
    }
  }

  /** A target that a non-`**` element accepts is a candidate split point. */
  lemma MatchIsCandidate(t: Path, rest: Path, i: nat)
    requires rest != [] && !rest[0].Glob? && i <= |t|
    requires IsPathMatch(t[i..], rest)
    ensures Candidate(t, rest[0], i)
  {
    if i < |t| {
      assert t[i..][0] == t[i];
    }
  }

  /** The split-point loop finds a split point iff one exists from `i` on. */
  lemma {:induction false} TrySplitsExists(t: Path, rest: Path, i: nat)
    requires rest != [] && !rest[0].Glob? && i <= |t|
    ensures TrySplits(t, rest, i) <==> exists j :: i <= j <= |t| && IsPathMatch(t[j..], rest)
    decreases |t| - i
  {
    if i < |t| {
      TrySplitsExists(t, rest, i + 1);
    }
    if IsPathMatch(t[i..], rest) {
      MatchIsCandidate(t, rest, i);
    }
    if exists j :: i <= j <= |t| && IsPathMatch(t[j..], rest) {
      var j :| i <= j <= |t| && IsPathMatch(t[j..], rest);
      MatchIsCandidate(t, rest, j);
    }
  }

  /** When no two `**` are adjacent, the matcher computes the reference
      meaning of the pattern. */
  lemma {:induction false} IsPathMatchSound(t: Path, p: Path)
    requires NoAdjacentGlobs(p)
    ensures IsPathMatch(t, p) <==> Matches(t, p)
    decreases |p|, |t|
  {
    if p == [] {
    } else {
      var rest := p[1..];
      assert NoAdjacentGlobs(rest) by {
        assert forall i :: 0 <= i < |rest| ==> rest[i] == p[i + 1];
      }
      if p[0].Glob? {
        if |p| > 1 && t != [] {
          assert !rest[0].Glob?;
          TrySplitsExists(t, rest, 0);
          forall j | 0 <= j <= |t|
            ensures IsPathMatch(t[j..], rest) <==> Matches(t[j..], rest)
          {
            IsPathMatchSound(t[j..], rest);
          }
        } else if |p| > 1 {
          IsPathMatchSound(t, rest);
          assert t[0..] == t;
        }
      } else if t != [] {
        IsPathMatchSound(t[1..], rest);
      }
    }
  }

  /** `**` in last position needs at least one more segment: a pattern
      ending in `**` matches exactly the targets longer than the rest of the
      pattern whose leading segments meet it. */
  lemma {:induction false} TrailingGlob(t: Path, q: Path)
    requires !HasGlob(q)
    ensures IsPathMatch(t, q + [Glob]) <==> |t| > |q| && forall i :: 0 <= i < |q| ==> SegMatch(t[i], q[i])
    decreases |q|
  {
    if q == [] {
      assert q + [Glob] == [Glob];
    } else if t != [] {
      assert (q + [Glob])[0] == q[0] && (q + [Glob])[1..] == q[1..] + [Glob];
      assert !HasGlob(q[1..]) by {
        assert forall x :: x in q[1..] ==> x in q;
      }
      TrailingGlob(t[1..], q[1..]);
      ShiftSegMatch(t, q);
    }
  }

  lemma ShiftSegMatch(t: Path, q: Path)
    requires t != [] && q != []
    ensures (|t| > |q| && forall i :: 0 <= i < |q| ==> SegMatch(t[i], q[i])) <==>
      SegMatch(t[0], q[0]) && |t[1..]| > |q[1..]| && forall i :: 0 <= i < |q[1..]| ==> SegMatch(t[1..][i], q[1..][i])
  {
    if SegMatch(t[0], q[0]) && |t[1..]| > |q[1..]| && forall i :: 0 <= i < |q[1..]| ==> SegMatch(t[1..][i], q[1..][i]) {
      forall i | 1 <= i < |q| && i < |t|
        ensures SegMatch(t[i], q[i])
      {
        assert t[1..][i - 1] == t[i] && q[1..][i - 1] == q[i];
      }
    }
  }

  /** A path never matches itself followed by `**`. */
  lemma NotMatchedByOwnGlob(q: Path)
    requires !HasGlob(q)
    ensures !IsPathMatch(q, q + [Glob])
  {
    TrailingGlob(q, q);
  }

  /** Two adjacent `**` never match: the first one only tries the end of the
      target as a split point. */
  lemma AdjacentGlobsNeverMatch(t: Path, rest: Path)
    requires IsConcrete(t)
    ensures !IsPathMatch(t, [Glob, Glob] + rest)
  {
    var p := [Glob, Glob] + rest;
    if t != [] {
      assert p[1..] == [Glob] + rest;
      NoSplitBeforeGlob(t, [Glob] + rest, 0);
    }
  }

  lemma {:induction false} NoSplitBeforeGlob(t: Path, rest: Path, i: nat)
    requires rest != [] && rest[0].Glob? && i <= |t|
    requires forall j :: 0 <= j < |t| ==> !t[j].Glob?
    ensures !TrySplits(t, rest, i)
    decreases |t| - i
  {
    if i < |t| {
      NoSplitBeforeGlob(t, rest, i + 1);
    } else {
      assert t[i..] == [];
    }
  }

  /** The reference meaning accepts `x.a` for `**.**.a`; the matcher does
      not. */
  lemma AdjacentGlobsDiffer()
    ensures Matches([Key("x"), Key("a")], [Glob, Glob, Key("a")])
    ensures !IsPathMatch([Key("x"), Key("a")], [Glob, Glob, Key("a")])
  {
    var t := [Key("x"), Key("a")];
    var p := [Glob, Glob, Key("a")];
    assert t[0..] == t && t[1..] == [Key("a")] && t[2..] == [];
    assert p[1..] == [Glob, Key("a")] && p[1..][1..] == [Key("a")];
    assert Matches([Key("a")], [Key("a")]) by {
      assert [Key("a")][1..] == [];
    }
    assert Matches(t[1..], [Key("a")]);
    assert Matches(t[0..], p[1..]);
    AdjacentGlobsNeverMatch(t, [Key("a")]);
    assert [Glob, Glob] + [Key("a")] == p;
  }

  // ---------------------------------------------------------------------------
  // collectMatchingPaths and isPathUnderWildcardPattern

  /** `collectMatchingPaths`: in pre-order, every node path of `v` (under
      prefix `cur`) that the pattern matches. */
  function CollectMatchingPaths(v: Json, pat: Path, cur: Path): (r: seq<Path>)
    decreases v
  {
    var here := if IsPathMatch(cur, pat) then [cur] else [];
    match v
    case Arr(items) => here + CollectMatchingItems(items, pat, cur, 0)
    case Obj(ms) => here + CollectMatchingMembers(ms, pat, cur)
    case _ => here
  }

  function CollectMatchingItems(items: seq<Json>, pat: Path, cur: Path, start: nat): seq<Path>
    decreases items
  {
    if items == [] then []
    else CollectMatchingPaths(items[0], pat, cur + [Index(start)]) + CollectMatchingItems(items[1..], pat, cur, start + 1)
  }

  function CollectMatchingMembers(ms: seq<Member>, pat: Path, cur: Path): seq<Path>
    decreases ms
  {
    if ms == [] then []
    else CollectMatchingPaths(ms[0].value, pat, cur + [Key(ms[0].key)]) + CollectMatchingMembers(ms[1..], pat, cur)
  }

  /** The matching paths are the pre-order node enumeration filtered by the
      pattern. */
  lemma {:induction false} CollectMatchingIsFilter(v: Json, pat: Path, cur: Path)
    ensures CollectMatchingPaths(v, pat, cur) == Filter(NodePaths(v, cur), q => IsPathMatch(q, pat))
    decreases v, 1
  {
    var f := q => IsPathMatch(q, pat);
    match v
    case Arr(items) =>
      CollectMatchingItemsIsFilter(items, pat, cur, 0);
      FilterAppend([cur], ItemNodePaths(items, cur, 0), f);
    case Obj(ms) =>
      CollectMatchingMembersIsFilter(ms, pat, cur);
      FilterAppend([cur], MemberNodePaths(ms, cur), f);
    case _ =>
  }

  lemma {:induction false} CollectMatchingItemsIsFilter(items: seq<Json>, pat: Path, cur: Path, start: nat)
    ensures CollectMatchingItems(items, pat, cur, start) == Filter(ItemNodePaths(items, cur, start), q => IsPathMatch(q, pat))
    decreases items, 0
  {
    if items != [] {
      var step := cur + [Index(start)];
      CollectMatchingIsFilter(items[0], pat, step);
      CollectMatchingItemsIsFilter(items[1..], pat, cur, start + 1);
      FilterAppend(NodePaths(items[0], step), ItemNodePaths(items[1..], cur, start + 1), q => IsPathMatch(q, pat));
    }
  }

  lemma {:induction false} CollectMatchingMembersIsFilter(ms: seq<Member>, pat: Path, cur: Path)
    ensures CollectMatchingMembers(ms, pat, cur) == Filter(MemberNodePaths(ms, cur), q => IsPathMatch(q, pat))
    decreases ms, 0
  {
    if ms != [] {
      var step := cur + [Key(ms[0].key)];
      CollectMatchingIsFilter(ms[0].value, pat, step);
      CollectMatchingMembersIsFilter(ms[1..], pat, cur);
      FilterAppend(NodePaths(ms[0].value, step), MemberNodePaths(ms[1..], cur), q => IsPathMatch(q, pat));
    }
  }

  /** From the root, a path is collected iff it leads to a node of `v` and
      the pattern matches it. */
  lemma CollectMatchingMembership(v: Json, pat: Path, q: Path)
    requires Wf(v)
    ensures q in CollectMatchingPaths(v, pat, []) <==> Lookup(v, q).Some? && IsPathMatch(q, pat)
  {
    CollectMatchingIsFilter(v, pat, []);
    NodePathsExist(v, [], q);
    assert [] + q == q;
  }

  /** `isPathUnderWildcardPattern`: only patterns with `**` qualify; for those
      without adjacent `**` it is the reference meaning. */
  function IsPathUnderWildcardPattern(t: Path, p: Path): (r: bool)
    ensures !HasGlob(p) ==> !r
    ensures NoAdjacentGlobs(p) ==> (r <==> HasGlob(p) && Matches(t, p))
  {
    var r := HasGlob(p) && IsPathMatch(t, p);
    if NoAdjacentGlobs(p) then IsPathMatchSound(t, p); r else r
  }
}

/** Worked examples of `parsePath` from its documentation comment and its
    tests, derived from the general lemmas about the parser. */
module Scenarios {
  import opened Seqs
  import opened Text
  import opened Json
  import opened Utils
  import opened PathUtils

  /** A word of lower-case letters is a key `parsePath` keeps as it is. */
  lemma LetterKey(k: string)
    requires |k| > 0 && forall i :: 0 <= i < |k| ==> 'a' <= k[i] <= 'z'
    ensures PlainKey(k)
  {
    assert !IsDigit(k[0]);
  }

  /** `[]` then a key, written after the first segment. */
  lemma RenderArrayThenKey(t: Path, k: string)
    requires t == [AnyIndex, Key(k)]
    ensures RenderTail(t) == "[]." + k
  {
    assert t[1..] == [Key(k)] && t[1..][1..] == [];
    assert RenderTail(t[1..]) == "." + k;
  }

  /** The display path of `arr[].item[].name`. */
  lemma RenderUnindexed(q: Path)
    requires q == [Key("arr"), AnyIndex, Key("item"), AnyIndex, Key("name")]
    ensures RenderPath(q) == "arr[].item[].name"
  {
    RenderArrayThenKey(q[3..], "name");
    assert q[2..][1..] == q[3..];
    RenderArrayThenKey([AnyIndex, Key("item")], "item");
    RenderTailAppend([AnyIndex, Key("item")], q[3..]);
    assert q[1..] == [AnyIndex, Key("item")] + q[3..];
  }

  /** `parsePath("arr[].item[].name")` is `["arr", null, "item", null, "name"]`. */
  lemma ParseUnindexed(s: string)
    requires s == "arr[].item[].name"
    ensures ParsePath(s) == [Key("arr"), AnyIndex, Key("item"), AnyIndex, Key("name")]
  {
    var q := [Key("arr"), AnyIndex, Key("item"), AnyIndex, Key("name")];
    LetterKey("arr");
    LetterKey("item");
    LetterKey("name");
    assert PlainPath(q);
    RenderUnindexed(q);
    ParsePathRoundTrip(q);
  }

  /** A word of letters on its own parses to that one key. */
  lemma ParseOneKey(k: string)
    requires |k| > 0 && forall i :: 0 <= i < |k| ==> 'a' <= k[i] <= 'z'
    ensures ParsePath(k) == [Key(k)]
  {
    var q := [Key(k)];
    LetterKey(k);
    assert PlainPath(q);
    assert q[1..] == [];
    assert RenderPath(q) == k;
    ParsePathRoundTrip(q);
  }

  /** Two words of letters joined by a dot parse to the two keys. */
  lemma ParseTwoKeys(k: string, l: string)
    requires |k| > 0 && forall i :: 0 <= i < |k| ==> 'a' <= k[i] <= 'z'
    requires |l| > 0 && forall i :: 0 <= i < |l| ==> 'a' <= l[i] <= 'z'
    ensures ParsePath(k + "." + l) == [Key(k), Key(l)]
  {
    var q := [Key(k), Key(l)];
    LetterKey(k);
    LetterKey(l);
    assert PlainPath(q);
    assert q[1..] == [Key(l)] && q[1..][1..] == [];
    assert RenderTail(q[1..]) == "." + l + RenderTail([]);
    assert RenderPath(q) == k + ("." + l);
    assert k + ("." + l) == k + "." + l;
    ParsePathRoundTrip(q);
  }

  /** The first index, written in a display path. */
  lemma IndexZeroText()
    ensures RenderTail([Index(0)]) == "[0]"
  {
    assert [Index(0)][1..] == [];
    assert NatToDecimal(0) == [DigitChar(0)];
  }

  /** The display path of `a.b[0].c`. */
  lemma RenderIndexed(q: Path)
    requires q == [Key("a"), Key("b"), Index(0), Key("c")]
    ensures RenderPath(q) == "a.b[0].c"
  {
    IndexZeroText();
    assert q[1..][1..] == [Index(0), Key("c")] && q[1..][1..][1..] == [Key("c")];
    assert RenderTail([Key("c")]) == ".c" by {
      assert [Key("c")][1..] == [];
    }
    assert RenderTail([Index(0), Key("c")]) == "[0]" + ".c";
  }

  /** `parsePath("a.b[0].c")` is `["a", "b", 0, "c"]`. */
  lemma ParseIndexed(s: string)
    requires s == "a.b[0].c"
    ensures ParsePath(s) == [Key("a"), Key("b"), Index(0), Key("c")]
  {
    var q := [Key("a"), Key("b"), Index(0), Key("c")];
    LetterKey("a");
    LetterKey("b");
    LetterKey("c");
    assert PlainPath(q);
    RenderIndexed(q);
    ParsePathRoundTrip(q);
  }

  /** `parsePath("c[].a")`, the pattern of the array-wildcard test, is
      `["c", null, "a"]`. */
  lemma ParseArrayKey(s: string)
    requires s == "c[].a"
    ensures ParsePath(s) == [Key("c"), AnyIndex, Key("a")]
  {
    var q := [Key("c"), AnyIndex, Key("a")];
    LetterKey("c");
    LetterKey("a");
    assert PlainPath(q);
    RenderArrayThenKey(q[1..], "a");
    assert RenderPath(q) == s;
    ParsePathRoundTrip(q);
  }

  lemma GlobRun(part: string)
    requires part == "**a"
    ensures RunLength(part) == 3 && part[..3] == part
  {
    assert part[1..][1..] == "a" && "a"[1..] == [];
  }

  lemma GlobPieces(part: string)
    requires part == "**a"
    ensures SplitOnDoubleStar(part) == ["", "a"]
  {
    assert part[2..] == "a";
    SplitOnDoubleStarNone("a");
  }

  /** A part starting with `**` splits into the deep wildcard and the key
      after it. */
  lemma InnerGlobPart(part: string)
    requires part == "**a"
    ensures '.' !in part && ParsePart(part) == [Glob, Key("a")]
  {
    GlobRun(part);
    assert part[3..] == [];
    assert ScanPart(part) == RunPieces(part) + ScanPart([]);
    assert part[0] == '*' && part[1] == '*';
    GlobPieces(part);
    assert StarPieces(["", "a"], true) == [Glob, Key("a")] by {
      assert ["", "a"][1..] == ["a"] && ["a"][1..] == [];
    }
  }

  /** A key with an index after it. */
  lemma IndexedPart(part: string)
    requires part == "c[0]"
    ensures '.' !in part && ParsePart(part) == [Key("c"), Index(0)]
  {
    LetterKey("c");
    IndexZeroText();
    assert Bracketed([Index(0)]);
    PartAfterKey("c", [Index(0)]);
    assert "c" + "[0]" == part;
  }

  lemma SplitIndexedGlob(s: string)
    requires s == "c[0].**a"
    ensures SplitOn(s, '.') == ["c[0]", "**a"]
  {
    assert s == "c[0]" + ['.'] + "**a";
    SplitOnCons("c[0]", '.', "**a");
    SplitOnNoSeparator("**a", '.');
  }

  lemma PartsIndexedGlob(parts: seq<string>)
    requires parts == ["c[0]", "**a"]
    ensures ParseParts(parts) == [Key("c"), Index(0), Glob, Key("a")]
  {
    IndexedPart(parts[0]);
    InnerGlobPart(parts[1]);
    assert parts[1..] == ["**a"] && parts[1..][1..] == [];
    assert ParseParts(parts[1..]) == ParsePart("**a") + ParseParts([]);
    assert ParseParts(parts) == ParsePart("c[0]") + ParseParts(parts[1..]);
  }

  /** A `**` at the start of a later part becomes its own segment:
      `parsePath("c[0].**a")` is `["c", 0, "**", "a"]`. */
  lemma ParseInnerGlob(s: string)
    requires s == "c[0].**a"
    ensures ParsePath(s) == [Key("c"), Index(0), Glob, Key("a")]
  {
    var q := [Key("c"), Index(0), Glob, Key("a")];
    InnerGlobParts(s);
    LetterKey("c");
    LetterKey("a");
    assert PlainPath(q);
    UnledParseTo(s, q);
  }

  /** The parts of `c[0].**a` scan to `c`, `0`, `**` and `a`. */
  lemma InnerGlobParts(s: string)
    requires s == "c[0].**a"
    ensures !StartsWith(s, "**")
    ensures ParseParts(SplitOn(s, '.')) == [Key("c"), Index(0), Glob, Key("a")]
  {
    SplitIndexedGlob(s);
    PartsIndexedGlob(SplitOn(s, '.'));
    assert s[0] == 'c';
  }

  /** A leading `**` becomes the first segment: `parsePath("**a")` is
      `["**", "a"]`. */
  lemma ParseLeadingGlob(s: string)
    requires s == "**a"
    ensures ParsePath(s) == [Glob, Key("a")]
  {
    LedParse(s);
    assert s[2..] == "a" && !StartsWith("a", ".");
    SplitOnNoSeparator("a", '.');
    PartAfterKey("a", []);
    assert "a" + RenderTail([]) == "a";
  }
}

/** String helpers with the JavaScript semantics the toolkit relies on:
    decimal digits, `String.prototype.split`, `startsWith`, and the default
    `Array.prototype.sort` order on strings. */
module Text {

  import opened Seqs

  predicate IsDigit(c: char) {
    '0' <= c <= '9'
  }

  predicate AllDigits(s: string) {
    forall i :: 0 <= i < |s| ==> IsDigit(s[i])
  }

  /** A non-empty run of decimal digits: the strings the model reads as
      array indices. */
  predicate IsNumeral(s: string) {
    |s| > 0 && AllDigits(s)
  }

  function DigitChar(d: nat): (c: char)
    requires d < 10
    ensures IsDigit(c)
  {
    (('0' as int) + d) as char
  }

  /** The decimal value of a digit string (`Number("007") == 7`). */
  function ParseNat(s: string): nat
    requires AllDigits(s)
  {
    if s == [] then 0
    else ParseNat(s[..|s| - 1]) * 10 + ((s[|s| - 1] as int) - ('0' as int))
  }

  /** `String(n)` for a natural number: shortest decimal numeral. */
  function NatToDecimal(n: nat): (r: string)
    ensures IsNumeral(r)
    ensures ParseNat(r) == n
    ensures |r| > 1 ==> r[0] != '0'
  {
    if n < 10 then [DigitChar(n)]
    else
      var r := NatToDecimal(n / 10) + [DigitChar(n % 10)];
      assert r[..|r| - 1] == NatToDecimal(n / 10);
      r
  }

  predicate StartsWith(s: string, prefix: string) {
    |prefix| <= |s| && s[..|prefix|] == prefix
  }

  /** `s.split(c)` for a one-character separator: the pieces between the
      separators, so `"".split(c) == [""]` and the pieces never contain `c`. */
  function SplitOn(s: string, c: char): (r: seq<string>)
    ensures |r| >= 1
    ensures forall i :: 0 <= i < |r| ==> c !in r[i]
  {
    if s == [] then [""]
    else if s[0] == c then [""] + SplitOn(s[1..], c)
    else
      var rest := SplitOn(s[1..], c);
      [[s[0]] + rest[0]] + rest[1..]
  }

  /** A string without the separator is a single piece. */
  lemma {:induction false} SplitOnNoSeparator(s: string, c: char)
    requires c !in s
    ensures SplitOn(s, c) == [s]
  {
    if s != [] {
      SplitOnNoSeparator(s[1..], c);
      assert [s[0]] + s[1..] == s;
    }
  }

  /** Splitting `a + c + b` where `a` has no separator yields `a` first. */
  lemma {:induction false} SplitOnCons(a: string, c: char, b: string)
    requires c !in a
    ensures SplitOn(a + [c] + b, c) == [a] + SplitOn(b, c)
  {
    if a == [] {
      assert a + [c] + b == [c] + b;
      assert ([c] + b)[1..] == b;
    } else {
      assert (a + [c] + b)[1..] == a[1..] + [c] + b;
      SplitOnCons(a[1..], c, b);
      assert [a[0]] + a[1..] == a;
    }
  }

  /** Splitting two strings joined by the separator splits each of them. */
  lemma {:induction false} SplitOnJoin(a: string, c: char, b: string)
    ensures SplitOn(a + [c] + b, c) == SplitOn(a, c) + SplitOn(b, c)
    decreases |a|
  {
    if a == [] {
      assert a + [c] + b == [c] + b;
      assert ([c] + b)[1..] == b;
    } else {
      SplitOnJoin(a[1..], c, b);
      SplitOnJoinStep(a, c, b);
    }
  }

  /** One character in front of the joined string, given the join for the
      rest. */
  lemma SplitOnJoinStep(a: string, c: char, b: string)
    requires a != []
    requires SplitOn(a[1..] + [c] + b, c) == SplitOn(a[1..], c) + SplitOn(b, c)
    ensures SplitOn(a + [c] + b, c) == SplitOn(a, c) + SplitOn(b, c)
  {
    var s := a + [c] + b;
    assert s[0] == a[0] && s[1..] == a[1..] + [c] + b;
    if a[0] == c {
      SeparatorFirst(a, c, s);
      JoinAfterEmpty(SplitOn(s[1..], c), SplitOn(a[1..], c), SplitOn(b, c));
    } else {
      CharFirst(a, c, s);
      JoinAfterChar([a[0]], SplitOn(s[1..], c), SplitOn(a[1..], c), SplitOn(b, c));
    }
  }

  lemma JoinAfterEmpty(r: seq<string>, u: seq<string>, v: seq<string>)
    requires r == u + v
    ensures [""] + r == ([""] + u) + v
  {
  }

  lemma JoinAfterChar(x: string, r: seq<string>, u: seq<string>, v: seq<string>)
    requires |u| >= 1 && r == u + v
    ensures [x + r[0]] + r[1..] == ([x + u[0]] + u[1..]) + v
  {
    assert r[0] == u[0] && r[1..] == u[1..] + v;
  }

  lemma SeparatorFirst(a: string, c: char, s: string)
    requires a != [] && s != [] && a[0] == c && s[0] == c
    ensures SplitOn(s, c) == [""] + SplitOn(s[1..], c)
    ensures SplitOn(a, c) == [""] + SplitOn(a[1..], c)
  {
  }

  lemma CharFirst(a: string, c: char, s: string)
    requires a != [] && s != [] && a[0] != c && s[0] == a[0]
    ensures SplitOn(s, c) == [[a[0]] + SplitOn(s[1..], c)[0]] + SplitOn(s[1..], c)[1..]
    ensures SplitOn(a, c) == [[a[0]] + SplitOn(a[1..], c)[0]] + SplitOn(a[1..], c)[1..]
  {
  }

  /** Whether `s` contains the two-character substring `**`. */
  predicate HasDoubleStar(s: string) {
    exists i :: 0 <= i < |s| - 1 && s[i] == '*' && s[i + 1] == '*'
  }

  /** `s.split("**")`: pieces between left-to-right, non-overlapping `**`
      occurrences; no piece contains `**` itself. */
  function SplitOnDoubleStar(s: string): (r: seq<string>)
    ensures |r| >= 1
    ensures forall i :: 0 <= i < |r| ==> |r[i]| <= |s|
  {
    if |s| >= 2 && s[0] == '*' && s[1] == '*' then [""] + SplitOnDoubleStar(s[2..])
    else if s == [] then [""]
    else
      var rest := SplitOnDoubleStar(s[1..]);
      [[s[0]] + rest[0]] + rest[1..]
  }

  /** A character missing from `s` is missing from every piece of
      `s.split("**")`. */
  lemma {:induction false} SplitOnDoubleStarAvoids(s: string, c: char)
    requires c !in s
    ensures forall i :: 0 <= i < |SplitOnDoubleStar(s)| ==> c !in SplitOnDoubleStar(s)[i]
  {
    var r := SplitOnDoubleStar(s);
    if |s| >= 2 && s[0] == '*' && s[1] == '*' {
      assert c !in s[2..] by {
        assert s == s[..2] + s[2..];
      }
      SplitOnDoubleStarAvoids(s[2..], c);
      AvoidsAfterEmpty(r, SplitOnDoubleStar(s[2..]), c);
    } else if s != [] {
      assert c !in s[1..] && c != s[0] by {
        assert s == [s[0]] + s[1..];
      }
      SplitOnDoubleStarAvoids(s[1..], c);
      AvoidsAfterChar(r, s[0], SplitOnDoubleStar(s[1..]), c);
    } else {
      assert r == [""];
    }
  }

  /** A list of pieces that starts with an empty piece avoids `c` when the
      rest does. */
  lemma AvoidsAfterEmpty(r: seq<string>, t: seq<string>, c: char)
    requires r == [""] + t
    requires forall i :: 0 <= i < |t| ==> c !in t[i]
    ensures forall i :: 0 <= i < |r| ==> c !in r[i]
  {
    forall i | 0 <= i < |r|
      ensures c !in r[i]
    {
      if i > 0 {
        assert r[i] == t[i - 1];
      }
    }
  }

  /** Gluing a character other than `c` to the first piece keeps every
      piece free of `c`. */
  lemma AvoidsAfterChar(r: seq<string>, x: char, t: seq<string>, c: char)
    requires t != [] && r == [[x] + t[0]] + t[1..] && x != c
    requires forall i :: 0 <= i < |t| ==> c !in t[i]
    ensures forall i :: 0 <= i < |r| ==> c !in r[i]
  {
    forall i | 0 <= i < |r|
      ensures c !in r[i]
    {
      if i == 0 {
        assert r[0] == [x] + t[0];
      } else {
        assert r[i] == t[i];
      }
    }
  }

  /** No piece of `s.split("**")` contains `**`. */
  lemma {:induction false} SplitOnDoubleStarPieces(s: string)
    ensures forall i :: 0 <= i < |SplitOnDoubleStar(s)| ==> !HasDoubleStar(SplitOnDoubleStar(s)[i])
  {
    var r := SplitOnDoubleStar(s);
    if |s| >= 2 && s[0] == '*' && s[1] == '*' {
      var t := SplitOnDoubleStar(s[2..]);
      assert r == [""] + t;
      SplitOnDoubleStarPieces(s[2..]);
      forall i | 0 <= i < |r|
        ensures !HasDoubleStar(r[i])
      {
        if i > 0 {
          assert r[i] == t[i - 1];
        }
      }
    } else if s != [] {
      var rest := SplitOnDoubleStar(s[1..]);
      assert r == [[s[0]] + rest[0]] + rest[1..];
      SplitOnDoubleStarPieces(s[1..]);
      FirstPieceClean(s);
      forall i | 0 <= i < |r|
        ensures !HasDoubleStar(r[i])
      {
        if i > 0 {
          assert r[i] == rest[i];
        }
      }
    }
  }

  /** The first piece, when `s` does not start with `**`, is free of `**`
      provided the first piece of its tail is. */
  lemma FirstPieceClean(s: string)
    requires s != [] && !(|s| >= 2 && s[0] == '*' && s[1] == '*')
    requires !HasDoubleStar(SplitOnDoubleStar(s[1..])[0])
    ensures !HasDoubleStar(SplitOnDoubleStar(s)[0])
  {
    var rest := SplitOnDoubleStar(s[1..]);
    assert SplitOnDoubleStar(s)[0] == [s[0]] + rest[0];
    FirstPieceHead(s[1..]);
    ConsNoDoubleStar(s[0], rest[0]);
  }

  /** Putting a character in front of a string without `**` creates one
      only when both the character and the string's head are `*`. */
  lemma ConsNoDoubleStar(c: char, t: string)
    requires !HasDoubleStar(t)
    requires !(c == '*' && |t| > 0 && t[0] == '*')
    ensures !HasDoubleStar([c] + t)
  {
    var h := [c] + t;
    forall k | 0 <= k < |h| - 1
      ensures !(h[k] == '*' && h[k + 1] == '*')
    {
      if k > 0 {
        assert h[k] == t[k - 1] && h[k + 1] == t[k];
      }
    }
  }

  /** A non-empty first piece of `s.split("**")` starts with the first
      character of `s`, and then `s` does not start with `**`. */
  lemma FirstPieceHead(s: string)
    ensures |SplitOnDoubleStar(s)[0]| > 0 ==>
      |s| > 0 && SplitOnDoubleStar(s)[0][0] == s[0] && !(|s| >= 2 && s[0] == '*' && s[1] == '*')
  {
  }

  /** A `**` in the tail of a string is a `**` in the string. */
  lemma DoubleStarInTail(s: string)
    requires |s| > 0 && HasDoubleStar(s[1..])
    ensures HasDoubleStar(s)
  {
    var k :| 0 <= k < |s[1..]| - 1 && s[1..][k] == '*' && s[1..][k + 1] == '*';
    assert s[k + 1] == '*' && s[k + 2] == '*';
  }

  /** A string without `**` is a single piece of `split("**")`. */
  lemma {:induction false} SplitOnDoubleStarNone(s: string)
    requires !HasDoubleStar(s)
    ensures SplitOnDoubleStar(s) == [s]
  {
    if s != [] {
      if HasDoubleStar(s[1..]) {
        DoubleStarInTail(s);
      }
      SplitOnDoubleStarNone(s[1..]);
      assert [s[0]] + s[1..] == s;
    }
  }

  // ---------------------------------------------------------------------------
  // The default sort order of JavaScript strings: lexicographic by character.

  /** `a < b` in lexicographic character order (a proper prefix is smaller). */
  predicate Below(a: string, b: string)
    decreases |a|
  {
    |b| > 0 && (|a| == 0 || a[0] < b[0] || (a[0] == b[0] && Below(a[1..], b[1..])))
  }

  predicate LessEq(a: string, b: string) {
    a == b || Below(a, b)
  }

  lemma {:induction false} BelowIrreflexive(a: string)
    ensures !Below(a, a)
  {
    if |a| > 0 {
      BelowIrreflexive(a[1..]);
    }
  }

  lemma {:induction false} BelowAsymmetric(a: string, b: string)
    requires Below(a, b)
    ensures !Below(b, a)
  {
    if |a| > 0 && a[0] == b[0] {
      BelowAsymmetric(a[1..], b[1..]);
    }
  }

  lemma {:induction false} BelowTransitive(a: string, b: string, c: string)
    requires Below(a, b) && Below(b, c)
    ensures Below(a, c)
  {
    if |a| > 0 && a[0] == b[0] && b[0] == c[0] {
      BelowTransitive(a[1..], b[1..], c[1..]);
    }
  }

  lemma {:induction false} BelowTotal(a: string, b: string)
    requires a != b
    ensures Below(a, b) || Below(b, a)
  {
    if |a| > 0 && |b| > 0 && a[0] == b[0] {
      assert a == [a[0]] + a[1..] && b == [b[0]] + b[1..];
      BelowTotal(a[1..], b[1..]);
    }
  }

  lemma LessEqTransitive(a: string, b: string, c: string)
    requires LessEq(a, b) && LessEq(b, c)
    ensures LessEq(a, c)
  {
    if a != b && b != c {
      BelowTransitive(a, b, c);
    }
  }

  predicate Sorted(s: seq<string>) {
    forall i, j :: 0 <= i < j < |s| ==> LessEq(s[i], s[j])
  }

  /** Sorted and free of duplicates means strictly increasing. */
  lemma SortedDistinctStrict(s: seq<string>, i: int, j: int)
    requires Sorted(s) && Distinct(s)
    requires 0 <= i < j < |s|
    ensures Below(s[i], s[j])
  {
  }

  function Insert(x: string, s: seq<string>): (r: seq<string>)
    requires Sorted(s)
    ensures Sorted(r)
    ensures multiset(r) == multiset(s) + multiset{x}
  {
    if s == [] then [x]
    else if LessEq(x, s[0]) then
      InsertFront(x, s);
      [x] + s
    else
      InsertLater(x, s, Insert(x, s[1..]));
      [s[0]] + Insert(x, s[1..])
  }

  /** `x` goes in front of a sorted list whose first string is not below it. */
  lemma InsertFront(x: string, s: seq<string>)
    requires Sorted(s) && s != [] && LessEq(x, s[0])
    ensures Sorted([x] + s) && multiset([x] + s) == multiset(s) + multiset{x}
  {
    BelowSorted(x, s);
    SortedCons(x, s);
  }

  /** Otherwise the first string stays in front of `x` inserted into the rest. */
  lemma InsertLater(x: string, s: seq<string>, rest: seq<string>)
    requires Sorted(s) && s != [] && !LessEq(x, s[0])
    requires Sorted(rest) && multiset(rest) == multiset(s[1..]) + multiset{x}
    ensures Sorted([s[0]] + rest) && multiset([s[0]] + rest) == multiset(s) + multiset{x}
  {
    assert LessEq(s[0], x) by {
      BelowTotal(x, s[0]);
    }
    assert s == [s[0]] + s[1..];
    assert forall j :: 0 <= j < |s[1..]| ==> LessEq(s[0], s[1..][j]);
    AboveAll(s[0], rest, s[1..], x);
    SortedCons(s[0], rest);
  }

  /** A string at most the first of a sorted list is at most all of it. */
  lemma BelowSorted(x: string, s: seq<string>)
    requires Sorted(s) && s != [] && LessEq(x, s[0])
    ensures forall j :: 0 <= j < |s| ==> LessEq(x, s[j])
  {
    forall j | 0 <= j < |s|
      ensures LessEq(x, s[j])
    {
      if j > 0 {
        LessEqTransitive(x, s[0], s[j]);
      }
    }
  }

  /** A lower bound of a list and of one more element bounds any list with
      those members. */
  lemma AboveAll(y: string, rest: seq<string>, t: seq<string>, x: string)
    requires multiset(rest) == multiset(t) + multiset{x}
    requires LessEq(y, x) && forall j :: 0 <= j < |t| ==> LessEq(y, t[j])
    ensures forall j :: 0 <= j < |rest| ==> LessEq(y, rest[j])
  {
    forall j | 0 <= j < |rest|
      ensures LessEq(y, rest[j])
    {
      assert rest[j] in multiset(rest);
      if rest[j] != x {
        assert rest[j] in multiset(t);
        var k :| 0 <= k < |t| && t[k] == rest[j];
      }
    }
  }

  /** A lower bound of a sorted list can go in front of it. */
  lemma SortedCons(y: string, s: seq<string>)
    requires Sorted(s) && forall j :: 0 <= j < |s| ==> LessEq(y, s[j])
    ensures Sorted([y] + s)
  {
    var r := [y] + s;
    forall i, j | 0 <= i < j < |r|
      ensures LessEq(r[i], r[j])
    {
      if i > 0 {
        assert r[i] == s[i - 1] && r[j] == s[j - 1];
      } else {
        assert r[j] == s[j - 1];
      }
    }
  }

  /** `array.sort()` on strings: an ordered permutation of the input. */
  function Sort(s: seq<string>): (r: seq<string>)
    ensures Sorted(r)
    ensures multiset(r) == multiset(s)
    ensures |r| == |s|
  {
    if s == [] then []
    else
      var r := Insert(s[0], Sort(s[1..]));
      assert s == [s[0]] + s[1..];
      assert |multiset(r)| == |multiset(s)|;
      r
  }

  /** Sorting keeps exactly the same members. */
  lemma SortMembers(s: seq<string>)
    ensures forall x :: x in Sort(s) <==> x in s
  {
    var r := Sort(s);
    forall x
      ensures x in r <==> x in s
    {
      assert x in r <==> x in multiset(r);
      assert x in s <==> x in multiset(s);
    }
  }

  /** Sorting a list without duplicates gives a list without duplicates. */
  lemma SortDistinct(s: seq<string>)
    requires Distinct(s)
    ensures Distinct(Sort(s))
  {
    forall x
      ensures multiset(Sort(s))[x] <= 1
    {
      MultisetCountDistinct(s, x);
    }
    DistinctFromCounts(Sort(s));
  }

  lemma {:induction false} MultisetCountDistinct(s: seq<string>, x: string)
    requires Distinct(s)
    ensures multiset(s)[x] <= 1
  {
    if s != [] {
      MultisetCountDistinct(s[1..], x);
      assert s == [s[0]] + s[1..];
      assert s[0] !in s[1..];
    }
  }

  lemma {:induction false} DistinctFromCounts(s: seq<string>)
    requires forall x :: multiset(s)[x] <= 1
    ensures Distinct(s)
  {
    if s != [] {
      assert s == [s[0]] + s[1..];
      assert multiset(s)[s[0]] == 1 + multiset(s[1..])[s[0]];
      assert s[0] !in multiset(s[1..]);
      forall x
        ensures multiset(s[1..])[x] <= 1
      {
        assert multiset(s)[x] >= multiset(s[1..])[x];
      }
      DistinctFromCounts(s[1..]);
      forall i, j | 0 <= i < j < |s|
        ensures s[i] != s[j]
      {
        if i > 0 {
          assert s[i] == s[1..][i - 1] && s[j] == s[1..][j - 1];
        } else {
          assert s[j] in s[1..];
        }
      }
    }
  }
}

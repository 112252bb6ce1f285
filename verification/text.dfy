/**
 * String primitives the converter is built from: the JavaScript notion of
 * white space, digit tests, the two `String.prototype.replace` forms the
 * normalizer uses (every occurrence through a global pattern, the first
 * occurrence through a plain-string pattern), `trim`, the first-letter
 * capitalisation, and a split on single spaces used to read words back.
 */
module Text {

  /** JavaScript `\s`: the WhiteSpace and LineTerminator code points. */
  predicate IsJsSpace(c: char) {
    || c == '\t' || c == '\n' || c == '\U{0B}' || c == '\U{0C}' || c == '\r'
    || c == ' ' || c == '\U{A0}' || c == '\U{1680}'
    || ('\U{2000}' <= c <= '\U{200A}')
    || c == '\U{2028}' || c == '\U{2029}' || c == '\U{202F}' || c == '\U{205F}'
    || c == '\U{3000}' || c == '\U{FEFF}'
  }

  /** Regular-expression `\d` (without the `u` flag): an ASCII digit. */
  predicate IsDigit(c: char) {
    '0' <= c <= '9'
  }

  predicate AllDigits(s: string) {
    forall i :: 0 <= i < |s| ==> IsDigit(s[i])
  }

  /** A digit string holds neither of the two separators. */
  lemma DigitsHaveNoSeparator(s: string)
    requires AllDigits(s)
    ensures '.' !in s && ',' !in s
  {
    forall i | 0 <= i < |s| ensures s[i] != '.' && s[i] != ',' {
      assert IsDigit(s[i]);
    }
  }

  lemma AllDigitsAppend(a: string, b: string)
    requires AllDigits(a) && AllDigits(b)
    ensures AllDigits(a + b)
  {
    forall i | 0 <= i < |a + b| ensures IsDigit((a + b)[i]) {
      if i >= |a| {
        assert (a + b)[i] == b[i - |a|];
      }
    }
  }

  predicate IsLowerAscii(c: char) {
    'a' <= c <= 'z'
  }

  predicate IsUpperAscii(c: char) {
    'A' <= c <= 'Z'
  }

  /** Index of the first occurrence of `x` in `s`, or -1 when there is none. */
  function FirstIndex<T(==)>(s: seq<T>, x: T): (k: int)
    ensures -1 <= k < |s|
    ensures k == -1 <==> x !in s
    ensures k >= 0 ==> s[k] == x && x !in s[..k]
  {
    if s == [] then -1
    else if s[0] == x then 0
    else
      var k := FirstIndex(s[1..], x);
      assert s[1..][..if k < 0 then 0 else k] == s[1..if k < 0 then 1 else k + 1];
      if k < 0 then -1 else k + 1
  }

  /** The first occurrence of `x` is determined by the two facts that characterise it. */
  lemma FirstIndexUnique<T>(s: seq<T>, x: T, k: int)
    requires 0 <= k < |s| && s[k] == x && x !in s[..k]
    ensures FirstIndex(s, x) == k
  {
  }

  lemma FirstIndexAppend<T>(a: seq<T>, b: seq<T>, x: T)
    ensures x in a ==> FirstIndex(a + b, x) == FirstIndex(a, x)
    ensures x !in a && x in b ==> FirstIndex(a + b, x) == |a| + FirstIndex(b, x)
    ensures x !in a && x !in b ==> FirstIndex(a + b, x) == -1
  {
    if x in a {
      var k := FirstIndex(a, x);
      assert (a + b)[..k] == a[..k];
      FirstIndexUnique(a + b, x, k);
    } else if x in b {
      var k := FirstIndex(b, x);
      assert (a + b)[..|a| + k] == a + b[..k];
      FirstIndexUnique(a + b, x, |a| + k);
    }
  }

  /** A sequence is what stands before position `k`, the element at `k`, and what follows. */
  lemma SplitAround<T>(s: seq<T>, k: nat)
    requires k < |s|
    ensures s == s[..k] + [s[k]] + s[k + 1..]
  {
  }

  /** `s.replace(/x/g, '')`: every occurrence of `x` removed. */
  function RemoveAll(s: string, x: char): (r: string)
    ensures x !in r
    ensures |r| <= |s|
  {
    if s == [] then []
    else (if s[0] == x then [] else [s[0]]) + RemoveAll(s[1..], x)
  }

  lemma {:induction false} RemoveAllAppend(a: string, b: string, x: char)
    ensures RemoveAll(a + b, x) == RemoveAll(a, x) + RemoveAll(b, x)
  {
    if a != [] {
      assert (a + b)[1..] == a[1..] + b;
      RemoveAllAppend(a[1..], b, x);
    } else {
      assert a + b == b;
    }
  }

  lemma {:induction false} RemoveAllAbsent(s: string, x: char)
    requires x !in s
    ensures RemoveAll(s, x) == s
  {
    if s != [] {
      RemoveAllAbsent(s[1..], x);
    }
  }

  /** Removing the only occurrence of `x` joins what stood on either side of it. */
  lemma RemoveAllAround(a: string, x: char, b: string)
    requires x !in a && x !in b
    ensures RemoveAll(a + [x] + b, x) == a + b
  {
    RemoveAllAppend(a + [x], b, x);
    RemoveAllAppend(a, [x], x);
    RemoveAllAbsent(a, x);
    RemoveAllAbsent(b, x);
    assert RemoveAll([x], x) == [];
    assert RemoveAll(a + [x], x) == a;
    assert RemoveAll(a + [x] + b, x) == RemoveAll(a + [x], x) + RemoveAll(b, x);
  }

  /** `s.replace(x, y)` with a one-character string pattern: only the first `x` becomes `y`. */
  function ReplaceFirst(s: string, x: char, y: char): (r: string)
    ensures |r| == |s|
    ensures x !in s ==> r == s
    ensures x in s ==> r == s[..FirstIndex(s, x)] + [y] + s[FirstIndex(s, x) + 1..]
  {
    var k := FirstIndex(s, x);
    if k < 0 then s else s[..k] + [y] + s[k + 1..]
  }

  lemma ReplaceFirstAt(a: string, x: char, y: char, b: string)
    requires x !in a
    ensures ReplaceFirst(a + [x] + b, x, y) == a + [y] + b
  {
    FirstIndexUnique(a + [x] + b, x, |a|);
    assert (a + [x] + b)[..|a|] == a;
    assert (a + [x] + b)[|a| + 1..] == b;
  }

  /** Every character of `s` is JavaScript white space. */
  predicate AllSpace(s: string) {
    forall k :: 0 <= k < |s| ==> IsJsSpace(s[k])
  }

  lemma AllSpaceAppend(a: string, b: string)
    requires AllSpace(a) && AllSpace(b)
    ensures AllSpace(a + b)
  {
    forall k | 0 <= k < |a + b| ensures IsJsSpace((a + b)[k]) {
      if k >= |a| {
        assert (a + b)[k] == b[k - |a|];
      }
    }
  }

  /** Leading JavaScript white space removed: what is dropped is all white space. */
  function TrimStart(s: string): (r: string)
    ensures r == [] || !IsJsSpace(r[0])
    ensures |r| <= |s| && r == s[|s| - |r|..]
    ensures AllSpace(s[..|s| - |r|])
  {
    if s != [] && IsJsSpace(s[0]) then
      var r := TrimStart(s[1..]);
      assert s[..|s| - |r|] == [s[0]] + s[1..][..|s| - 1 - |r|];
      r
    else s
  }

  /** Trailing JavaScript white space removed: what is dropped is all white space. */
  function TrimEnd(s: string): (r: string)
    ensures r == [] || !IsJsSpace(r[|r| - 1])
    ensures |r| <= |s| && r == s[..|r|]
    ensures AllSpace(s[|r|..])
  {
    if s != [] && IsJsSpace(s[|s| - 1]) then
      var r := TrimEnd(s[..|s| - 1]);
      assert s[|r|..] == s[..|s| - 1][|r|..] + [s[|s| - 1]];
      r
    else s
  }

  /**
   * `String.prototype.trim`: the middle of `s` between a white-space prefix
   * and a white-space suffix, starting and ending with other characters;
   * nothing is left exactly when `s` is all white space.
   */
  function Trim(s: string): (r: string)
    ensures r == [] || (!IsJsSpace(r[0]) && !IsJsSpace(r[|r| - 1]))
    ensures exists i, j :: 0 <= i <= j <= |s| && r == s[i..j] && AllSpace(s[..i]) && AllSpace(s[j..])
    ensures r == [] <==> AllSpace(s)
  {
    var t := TrimStart(s);
    var r := TrimEnd(t);
    TrimSpec(s, t, r, |s| - |t|);
    r
  }

  /** The two trims keep a slice of `s` with white space before and after it. */
  lemma TrimSpec(s: string, t: string, r: string, i: nat)
    requires t == TrimStart(s) && r == TrimEnd(t) && i == |s| - |t|
    ensures i + |r| <= |s| && r == s[i..i + |r|]
    ensures AllSpace(s[..i]) && AllSpace(s[i + |r|..])
    ensures r == [] <==> AllSpace(s)
  {
    TrimStartBlank(s);
    TrimEndBlank(t);
    MiddleSlice(s, t, r, i);
  }

  /**
   * A prefix `r` of the suffix `t` of `s` from `i` is the slice of `s` from `i`;
   * with white space before `i` and after `r`, it is empty exactly for a text of white space.
   */
  lemma MiddleSlice(s: string, t: string, r: string, i: nat)
    requires i <= |s| && t == s[i..] && |r| <= |t| && r == t[..|r|]
    requires AllSpace(s[..i]) && AllSpace(t[|r|..])
    requires t == [] <==> AllSpace(s)
    requires r == [] <==> AllSpace(t)
    ensures i + |r| <= |s| && r == s[i..i + |r|]
    ensures AllSpace(s[i + |r|..])
    ensures r == [] <==> AllSpace(s)
  {
    assert s[i + |r|..] == t[|r|..];
    if r == [] {
      assert s == s[..i] + t;
      AllSpaceAppend(s[..i], t);
    }
  }

  /** Nothing is left of the start trim exactly for a text of white space. */
  lemma TrimStartBlank(s: string)
    ensures TrimStart(s) == [] <==> AllSpace(s)
  {
    var t := TrimStart(s);
    var i := |s| - |t|;
    assert t != [] ==> s[i] == t[0];
    assert t == [] ==> s[..i] == s;
  }

  /** Nothing is left of the end trim exactly for a text of white space. */
  lemma TrimEndBlank(s: string)
    ensures TrimEnd(s) == [] <==> AllSpace(s)
  {
    var r := TrimEnd(s);
    assert r != [] ==> s[|r| - 1] == r[|r| - 1];
    assert r == [] ==> s[|r|..] == s;
  }

  /** Upper-casing of one character, for the ASCII letters. */
  function ToUpper(c: char): (u: char)
    ensures IsLowerAscii(c) ==> IsUpperAscii(u) && u as int == c as int - 32
    ensures !IsLowerAscii(c) ==> u == c
  {
    if IsLowerAscii(c) then (c as int - 32) as char else c
  }

  function ToLower(c: char): (l: char)
    ensures IsUpperAscii(c) ==> IsLowerAscii(l) && l as int == c as int + 32
    ensures !IsUpperAscii(c) ==> l == c
  {
    if IsUpperAscii(c) then (c as int + 32) as char else c
  }

  /** `s.charAt(0).toUpperCase() + s.slice(1)`. */
  function UpperFirst(s: string): (r: string)
    ensures |r| == |s|
    ensures s != [] ==> r[0] == ToUpper(s[0]) && r[1..] == s[1..]
  {
    if s == [] then [] else [ToUpper(s[0])] + s[1..]
  }

  /** Capitalising a text only touches its first part. */
  lemma UpperFirstAppend(a: string, b: string)
    requires a != []
    ensures UpperFirst(a + b) == UpperFirst(a) + b
  {
    assert (a + b)[1..] == a[1..] + b;
  }

  function LowerFirst(s: string): (r: string)
    ensures |r| == |s|
    ensures s != [] ==> r[0] == ToLower(s[0]) && r[1..] == s[1..]
  {
    if s == [] then [] else [ToLower(s[0])] + s[1..]
  }

  /** Lower-casing undoes the capitalisation of a word that starts with a lower-case letter. */
  lemma LowerUpperFirst(s: string)
    requires s != [] && IsLowerAscii(s[0])
    ensures LowerFirst(UpperFirst(s)) == s
  {
  }

  /** The pieces of `s` between single spaces (an empty piece for two spaces in a row). */
  function Split(s: string): (r: seq<string>)
    ensures |r| >= 1
    decreases |s|
  {
    if s == [] then [[]]
    else
      var rest := Split(s[1..]);
      if s[0] == ' ' then [[]] + rest else [[s[0]] + rest[0]] + rest[1..]
  }

  /** A text without spaces is a single piece. */
  lemma {:induction false} SplitNoSpace(s: string)
    requires ' ' !in s
    ensures Split(s) == [s]
    decreases |s|
  {
    if s != [] {
      assert ' ' !in s[1..];
      SplitNoSpace(s[1..]);
      assert [s[0]] + s[1..] == s;
    }
  }

  /** Splitting distributes over joining two texts with a space. */
  lemma {:induction false} SplitJoin(a: string, b: string)
    ensures Split(a + " " + b) == Split(a) + Split(b)
    decreases |a|
  {
    if a == [] {
      assert a + " " + b == [' '] + b;
      SplitCons(' ', b);
    } else {
      var t := a[1..] + " " + b;
      assert a + " " + b == [a[0]] + t;
      assert a == [a[0]] + a[1..];
      SplitJoin(a[1..], b);
      SplitCons(a[0], t);
      SplitCons(a[0], a[1..]);
      ConsPieces(a[0], Split(a[1..]), Split(b));
    }
  }

  /** A word without spaces, a space and a text: the word is the first piece. */
  lemma SplitWordThen(w: string, t: string)
    requires ' ' !in w
    ensures Split(w + " " + t) == [w] + Split(t)
  {
    SplitJoin(w, t);
    SplitNoSpace(w);
  }

  /** A text, a space and a word without spaces: the word is the last piece. */
  lemma SplitThenWord(t: string, w: string)
    requires ' ' !in w
    ensures Split(t + " " + w) == Split(t) + [w]
  {
    SplitJoin(t, w);
    SplitNoSpace(w);
  }

  lemma SplitCons(c: char, t: string)
    ensures Split([c] + t) == Glue(c, Split(t))
  {
    assert ([c] + t)[1..] == t;
  }

  /** The pieces of `[c] + t`, given the pieces of `t`. */
  function Glue(c: char, rest: seq<string>): seq<string>
    requires |rest| >= 1
  {
    if c == ' ' then [[]] + rest else [[c] + rest[0]] + rest[1..]
  }

  lemma ConsPieces(c: char, rest: seq<string>, tail: seq<string>)
    requires |rest| >= 1
    ensures Glue(c, rest + tail) == Glue(c, rest) + tail
  {
    if c != ' ' {
      assert (rest + tail)[0] == rest[0];
      assert (rest + tail)[1..] == rest[1..] + tail;
    }
  }
}

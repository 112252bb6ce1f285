/**
 * The normalizer (`normalizeNumber`): deletes currency signs and white
 * space, decides from the shape of what is left which separator groups
 * thousands and which marks the decimals, rewrites the numeral with a point
 * as the only separator, reads it exactly and rounds it to hundredths.
 */
module Normalizer {
  import opened Text
  import opened Arith
  import opened Decimals

  /** The characters `/[$\s]/g` deletes. */
  predicate IsNoise(c: char) {
    c == '$' || IsJsSpace(c)
  }

  /** `value.replace(/[$\s]/g, '')`. */
  function Clean(s: string): (r: string)
    ensures forall i :: 0 <= i < |r| ==> !IsNoise(r[i])
    ensures |r| <= |s|
  {
    if s == [] then []
    else (if IsNoise(s[0]) then [] else [s[0]]) + Clean(s[1..])
  }

  lemma {:induction false} CleanAppend(a: string, b: string)
    ensures Clean(a + b) == Clean(a) + Clean(b)
  {
    if a == [] {
      assert a + b == b;
    } else {
      assert (a + b)[1..] == a[1..] + b;
      CleanAppend(a[1..], b);
    }
  }

  lemma {:induction false} CleanKeeps(s: string)
    requires forall i :: 0 <= i < |s| ==> !IsNoise(s[i])
    ensures Clean(s) == s
  {
    if s != [] {
      CleanKeeps(s[1..]);
    }
  }

  /** `^\d{1,3}(<sep>\d{3})*$`: one to three digits, then any number of groups of `sep` and three digits. */
  predicate Grouped(s: string, sep: char)
    decreases |s|
  {
    || (1 <= |s| <= 3 && AllDigits(s))
    || (|s| >= 5 && s[|s| - 4] == sep && AllDigits(s[|s| - 3..]) && Grouped(s[..|s| - 4], sep))
  }

  /**
   * `^\d{1,3}(<sep>\d{3})*<point>\d*$`: a grouped integer part, then `point`,
   * then digits. The grouped part holds no `point`, so `point` is its first
   * occurrence.
   */
  predicate GroupedWithFraction(s: string, sep: char, point: char) {
    var k := FirstIndex(s, point);
    k >= 0 && Grouped(s[..k], sep) && AllDigits(s[k + 1..])
  }

  /** The role of the separators, as inferred from the shape of the cleaned numeral. */
  datatype SeparatorFormat =
    | DotThousandsCommaDecimal
    | CommaThousandsDotDecimal
    | DotsOnlyGrouping
    | CommasOnlyGrouping
    | BareCommaDecimal
    | Unformatted

  /** The four shape tests in their fixed order, first match wins; then "has a comma"; then nothing. */
  function Classify(c: string): SeparatorFormat {
    if GroupedWithFraction(c, '.', ',') then DotThousandsCommaDecimal
    else if GroupedWithFraction(c, ',', '.') then CommaThousandsDotDecimal
    else if Grouped(c, '.') then DotsOnlyGrouping
    else if Grouped(c, ',') then CommasOnlyGrouping
    else if ',' in c then BareCommaDecimal
    else Unformatted
  }

  /** The rewriting each format selects, leaving a point as the only separator it knows of. */
  function Rewrite(c: string, f: SeparatorFormat): string {
    match f
    case DotThousandsCommaDecimal => ReplaceFirst(RemoveAll(c, '.'), ',', '.')
    case CommaThousandsDotDecimal => RemoveAll(c, ',')
    case DotsOnlyGrouping => RemoveAll(c, '.')
    case CommasOnlyGrouping => RemoveAll(c, ',')
    case BareCommaDecimal => ReplaceFirst(c, ',', '.')
    case Unformatted => c
  }

  /** The string handed to `new BigNumber`. */
  function Prepared(raw: string): string {
    var c := Clean(raw);
    Rewrite(c, Classify(c))
  }

  /** `normalizeNumber`: None stands for the NaN result. */
  function Normalize(raw: string): (r: Option<Decimal>)
    ensures r.Some? ==> r.value.scale == 2
  {
    match ParseDecimal(Prepared(raw))
    case None => None
    case Some(d) => Some(RoundHalfUp2(d))
  }

  /**
   * A normalization fails exactly when the prepared string is not a plain
   * numeral; otherwise it is the prepared value rounded to the nearest
   * hundredth, halves going up.
   */
  lemma NormalizeSpec(raw: string)
    ensures Normalize(raw).None? <==> !IsPlainNumeral(Prepared(raw))
    ensures Normalize(raw).Some? ==>
      var d := ParseDecimal(Prepared(raw)).value;
      && Normalize(raw).value.scale == 2
      && IsHalfUpHundredths(d.mantissa, Pow10(d.scale), Normalize(raw).value.mantissa)
  {
    ParseDecimalAccepts(Prepared(raw));
    if Normalize(raw).Some? {
      RoundHalfUp2Nearest(ParseDecimal(Prepared(raw)).value);
    }
  }

  /** Deleting a currency sign or a white-space character anywhere does not change the result. */
  lemma NormalizeIgnoresNoise(a: string, c: char, b: string)
    requires IsNoise(c)
    ensures Normalize(a + [c] + b) == Normalize(a + b)
  {
    CleanAppend(a + [c], b);
    CleanAppend(a, [c]);
    CleanAppend(a, b);
    assert Clean([c]) == [];
    assert Clean(a + [c]) == Clean(a);
  }

  lemma NormalizeIgnoresLeadingNoise(c: char, b: string)
    requires IsNoise(c)
    ensures Normalize([c] + b) == Normalize(b)
  {
    CleanAppend([c], b);
    assert Clean([c]) == [];
    assert Clean([c] + b) == Clean(b);
    assert Prepared([c] + b) == Prepared(b);
  }

  // ---------------------------------------------------------------------
  // The shape tests, restated

  /**
   * Position by position, a grouped numeral has the separator exactly where
   * a multiple of four characters remain, and digits elsewhere.
   */
  ghost predicate IsGroupedByPosition(s: string, sep: char) {
    && |s| % 4 != 0
    && forall i :: 0 <= i < |s| ==> if (|s| - i) % 4 == 0 then s[i] == sep else IsDigit(s[i])
  }

  lemma GroupedByPosition(s: string, sep: char)
    requires !IsDigit(sep)
    ensures Grouped(s, sep) <==> IsGroupedByPosition(s, sep)
  {
    if Grouped(s, sep) {
      GroupedHasPositions(s, sep);
    }
    if IsGroupedByPosition(s, sep) {
      PositionsAreGrouped(s, sep);
    }
  }

  lemma {:induction false} GroupedHasPositions(s: string, sep: char)
    requires Grouped(s, sep)
    ensures IsGroupedByPosition(s, sep)
    decreases |s|
  {
    if |s| <= 3 {
      forall i | 0 <= i < |s| ensures IsDigit(s[i]) && (|s| - i) % 4 != 0 {
      }
    } else {
      var t := s[..|s| - 4];
      GroupedHasPositions(t, sep);
      forall i | 0 <= i < |s|
        ensures if (|s| - i) % 4 == 0 then s[i] == sep else IsDigit(s[i])
      {
        GroupPosition(s, t, sep, i);
      }
    }
  }

  /** One position of a grouped numeral: in its grouped front part, at the last separator, or in the last group. */
  lemma GroupPosition(s: string, t: string, sep: char, i: nat)
    requires |s| >= 5 && t == s[..|s| - 4] && i < |s|
    requires s[|s| - 4] == sep && AllDigits(s[|s| - 3..]) && IsGroupedByPosition(t, sep)
    ensures if (|s| - i) % 4 == 0 then s[i] == sep else IsDigit(s[i])
  {
    if i < |t| {
      assert s[i] == t[i];
      FourMore(|t|, i);
    } else if i > |t| {
      assert s[i] == s[|s| - 3..][i - (|s| - 3)];
    }
  }

  lemma {:induction false} PositionsAreGrouped(s: string, sep: char)
    requires !IsDigit(sep) && IsGroupedByPosition(s, sep)
    ensures Grouped(s, sep)
    decreases |s|
  {
    if |s| <= 4 {
      forall i | 0 <= i < |s| ensures IsDigit(s[i]) {
        assert (|s| - i) % 4 != 0;
      }
    } else {
      var t := s[..|s| - 4];
      assert (|s| - |t|) % 4 == 0;
      forall i | |s| - 3 <= i < |s| ensures IsDigit(s[i]) {
        assert (|s| - i) % 4 != 0;
      }
      assert AllDigits(s[|s| - 3..]);
      forall i | 0 <= i < |t|
        ensures if (|t| - i) % 4 == 0 then t[i] == sep else IsDigit(t[i])
      {
        assert t[i] == s[i];
        FourMore(|t|, i);
      }
      assert |t| % 4 == |s| % 4;
      PositionsAreGrouped(t, sep);
    }
  }

  lemma FourMore(n: nat, i: nat)
    requires i <= n
    ensures (n + 4 - i) % 4 == (n - i) % 4
  {
  }

  /** A grouped numeral holds only digits and its separator. */
  lemma {:induction false} GroupedChars(s: string, sep: char)
    requires Grouped(s, sep)
    ensures forall i :: 0 <= i < |s| ==> IsDigit(s[i]) || s[i] == sep
    decreases |s|
  {
    if |s| > 3 {
      var t, d := s[..|s| - 4], s[|s| - 3..];
      GroupedChars(t, sep);
      forall i | 0 <= i < |s| ensures IsDigit(s[i]) || s[i] == sep {
        if i < |t| {
          assert s[i] == t[i];
        } else if i > |t| {
          assert s[i] == d[i - |t| - 1];
        }
      }
    }
  }

  /**
   * The first-occurrence form of the fraction tests is the regular
   * expression's: some `point` with a grouped part before it and digits after.
   */
  lemma GroupedWithFractionSome(s: string, sep: char, point: char)
    requires point != sep && !IsDigit(point)
    ensures GroupedWithFraction(s, sep, point) <==>
      exists k :: 0 <= k < |s| && s[k] == point && Grouped(s[..k], sep) && AllDigits(s[k + 1..])
  {
    if k :| 0 <= k < |s| && s[k] == point && Grouped(s[..k], sep) && AllDigits(s[k + 1..]) {
      GroupedChars(s[..k], sep);
      assert point !in s[..k];
      FirstIndexUnique(s, point, k);
    }
  }

  // ---------------------------------------------------------------------
  // Writing a value in each convention, and reading it back

  /** Digits with `sep` inserted before every group of three counted from the right. */
  function Group(ds: string, sep: char): (g: string)
    decreases |ds|
  {
    if |ds| <= 3 then ds else Group(ds[..|ds| - 3], sep) + [sep] + ds[|ds| - 3..]
  }

  lemma {:induction false} GroupSpec(ds: string, sep: char)
    requires |ds| >= 1 && AllDigits(ds) && !IsDigit(sep)
    ensures Grouped(Group(ds, sep), sep)
    ensures RemoveAll(Group(ds, sep), sep) == ds
    decreases |ds|
  {
    if |ds| <= 3 {
      DigitsHaveNoSeparatorAt(ds, sep);
      RemoveAllAbsent(ds, sep);
    } else {
      var hi, lo := ds[..|ds| - 3], ds[|ds| - 3..];
      assert AllDigits(hi) && AllDigits(lo);
      GroupSpec(hi, sep);
      var g := Group(hi, sep);
      assert Group(ds, sep) == g + [sep] + lo;
      GroupedExtend(g, sep, lo);
      DigitsHaveNoSeparatorAt(lo, sep);
      RemoveAllGroup(g, sep, lo);
      assert hi + lo == ds;
    }
  }

  lemma GroupedExtend(g: string, sep: char, lo: string)
    requires Grouped(g, sep) && |lo| == 3 && AllDigits(lo)
    ensures Grouped(g + [sep] + lo, sep)
  {
    var s := g + [sep] + lo;
    assert s[..|s| - 4] == g;
    assert s[|s| - 3..] == lo;
  }

  lemma RemoveAllGroup(g: string, sep: char, lo: string)
    requires sep !in lo
    ensures RemoveAll(g + [sep] + lo, sep) == RemoveAll(g, sep) + lo
  {
    RemoveAllAppend(g + [sep], lo, sep);
    RemoveAllAppend(g, [sep], sep);
    RemoveAllAbsent(lo, sep);
    assert RemoveAll([sep], sep) == [];
    assert RemoveAll(g, sep) + [] == RemoveAll(g, sep);
  }

  lemma DigitsHaveNoSeparatorAt(s: string, c: char)
    requires AllDigits(s) && !IsDigit(c)
    ensures c !in s
  {
    forall i | 0 <= i < |s| ensures s[i] != c {
      assert IsDigit(s[i]);
    }
  }

  /** A number of hundredths written with dot thousands and a decimal comma: "2.050.300,56". */
  function FormatDotComma(h: nat): string {
    Group(DigitsOf(h / 100), '.') + [','] + TwoDigits(h % 100)
  }

  /** A number of hundredths written with comma thousands and a decimal point: "2,050,300.56". */
  function FormatCommaDot(h: nat): string {
    Group(DigitsOf(h / 100), ',') + ['.'] + TwoDigits(h % 100)
  }

  /** A number of hundredths written with a decimal point and no grouping: "2050300.56". */
  function FormatPlain(h: nat): string {
    DigitsOf(h / 100) + ['.'] + TwoDigits(h % 100)
  }

  /** A numeral made of digits and separators only is left alone by the cleaning step. */
  lemma CleanNumeral(s: string)
    requires forall i :: 0 <= i < |s| ==> IsDigit(s[i]) || s[i] == '.' || s[i] == ','
    ensures Clean(s) == s
  {
    CleanKeeps(s);
  }

  /** A grouped part, a separator and digits make a numeral the cleaning step leaves alone. */
  lemma CleanJoined(g: string, sep: char, y: char, t: string)
    requires Grouped(g, sep) && (sep == '.' || sep == ',') && (y == '.' || y == ',') && AllDigits(t)
    ensures Clean(g + [y] + t) == g + [y] + t
  {
    GroupedChars(g, sep);
    var s := g + [y] + t;
    forall i | 0 <= i < |s| ensures IsDigit(s[i]) || s[i] == '.' || s[i] == ',' {
      if i < |g| {
        assert s[i] == g[i];
      } else if i > |g| {
        assert s[i] == t[i - |g| - 1];
      }
    }
    CleanNumeral(s);
  }

  /**
   * When the first `x` stands before a later non-digit, what follows the
   * first `x` is not all digits, so no fraction shape with `x` as its point
   * matches.
   */
  lemma NoFractionBeforeSeparator(g: string, y: char, t: string, x: char, gs: char)
    requires x in g && !IsDigit(y)
    ensures !GroupedWithFraction(g + [y] + t, gs, x)
  {
    var s := g + [y] + t;
    assert s == g + ([y] + t);
    FirstIndexAppend(g, [y] + t, x);
    var k := FirstIndex(s, x);
    assert s[k + 1..][|g| - k - 1] == y;
  }

  /** A numeral whose only point follows all of its commas is not of the dot-thousands shape. */
  lemma NotDotThousands(g: string, t: string)
    requires Grouped(g, ',') && AllDigits(t)
    ensures !GroupedWithFraction(g + ['.'] + t, '.', ',')
  {
    if ',' in g {
      NoFractionBeforeSeparator(g, '.', t, ',', '.');
    } else {
      DigitsHaveNoSeparator(t);
      assert ',' !in g + ['.'] + t;
    }
  }

  /** A string holding a character other than digits and `sep` is not grouped by `sep`. */
  lemma NotGroupedWithForeign(s: string, sep: char, i: nat)
    requires i < |s| && !IsDigit(s[i]) && s[i] != sep
    ensures !Grouped(s, sep)
  {
    if Grouped(s, sep) {
      GroupedChars(s, sep);
      assert false;
    }
  }

  /** Digits alone are grouped exactly when there are one to three of them. */
  lemma DigitsGrouped(a: string, sep: char)
    requires AllDigits(a) && !IsDigit(sep)
    ensures Grouped(a, sep) <==> 1 <= |a| <= 3
  {
    if |a| >= 5 {
      assert IsDigit(a[|a| - 4]);
    }
  }

  /**
   * One separator after no digits, or after four or more, is not a grouping:
   * groups of three would need another separator four places earlier.
   */
  lemma OneSeparatorNotGrouped(a: string, x: char, b: string)
    requires AllDigits(a) && AllDigits(b) && !IsDigit(x)
    requires |a| == 0 || |a| >= 4
    ensures !Grouped(a + [x] + b, x)
  {
    var s := a + [x] + b;
    GroupedByPosition(s, x);
    var n := |s| - |a|;
    assert s[|a|] == x;
    if n % 4 != 0 {
      assert (|s| - |a|) % 4 != 0 && !IsDigit(s[|a|]);
    } else if |a| == 0 {
      assert |s| % 4 == 0;
    } else {
      var i := |a| - 4;
      assert s[i] == a[i];
      FourMore(n, 0);
      assert |s| - i == n + 4;
      assert (|s| - i) % 4 == 0 && s[i] != x;
    }
    assert !IsGroupedByPosition(s, x);
  }

  /** Removing a character other than the one between two pieces keeps that one in place. */
  lemma RemoveAllAcross(g: string, y: char, t: string, x: char)
    requires y != x && x !in t
    ensures RemoveAll(g + [y] + t, x) == RemoveAll(g, x) + [y] + t
  {
    RemoveAllAppend(g + [y], t, x);
    RemoveAllAppend(g, [y], x);
    RemoveAllAbsent([y], x);
    RemoveAllAbsent(t, x);
  }

  /** The plain writing "<digits>.<two digits>" is read as exactly the hundredths it spells. */
  lemma ParsePlain(h: nat)
    ensures ParseDecimal(FormatPlain(h)) == Some(Decimal(h, 2))
    ensures RoundHalfUp2(Decimal(h, 2)) == Decimal(h, 2)
  {
    var ds, t := DigitsOf(h / 100), TwoDigits(h % 100);
    ParsePointed(ds, t);
    DigitsValueAppend(ds, t);
    assert Pow10(2) == 100 && Pow10(0) == 1;
    HundredsSplit(h, DigitsValue(ds), DigitsValue(t));
  }

  lemma HundredsSplit(h: nat, q: nat, r: nat)
    requires q == h / 100 && r == h % 100
    ensures q * 100 + r == h
  {
  }

  /** The dot-thousands writing is recognised as such and rewritten to the plain one. */
  lemma DotCommaPrepared(ds: string, t: string)
    requires |ds| >= 1 && AllDigits(ds) && AllDigits(t)
    ensures Classify(Group(ds, '.') + [','] + t) == DotThousandsCommaDecimal
    ensures Prepared(Group(ds, '.') + [','] + t) == ds + ['.'] + t
  {
    var g := Group(ds, '.');
    GroupSpec(ds, '.');
    CleanJoined(g, '.', ',', t);
    FractionAfterGroups(g, '.', ',', t);
    DigitsHaveNoSeparator(t);
    DigitsHaveNoSeparator(ds);
    RemoveAllAcross(g, ',', t, '.');
    ReplaceFirstAt(ds, ',', '.', t);
  }

  /** The comma-thousands writing is recognised as such and rewritten to the plain one. */
  lemma CommaDotPrepared(ds: string, t: string)
    requires |ds| >= 1 && AllDigits(ds) && AllDigits(t)
    ensures Classify(Group(ds, ',') + ['.'] + t) == CommaThousandsDotDecimal
    ensures Prepared(Group(ds, ',') + ['.'] + t) == ds + ['.'] + t
  {
    var g := Group(ds, ',');
    GroupSpec(ds, ',');
    CleanJoined(g, ',', '.', t);
    NotDotThousands(g, t);
    FractionAfterGroups(g, ',', '.', t);
    DigitsHaveNoSeparator(t);
    RemoveAllAcross(g, '.', t, ',');
  }

  lemma FractionAfterGroups(g: string, sep: char, point: char, t: string)
    requires Grouped(g, sep) && AllDigits(t) && point != sep && !IsDigit(point)
    ensures GroupedWithFraction(g + [point] + t, sep, point)
  {
    var s := g + [point] + t;
    GroupedChars(g, sep);
    assert point !in g;
    assert s[..|g|] == g && s[|g| + 1..] == t;
    FirstIndexUnique(s, point, |g|);
  }

  /** "2.050.300,56" is read as 2050300.56. */
  lemma NormalizeDotComma(h: nat)
    ensures Classify(FormatDotComma(h)) == DotThousandsCommaDecimal
    ensures Normalize(FormatDotComma(h)) == Some(Decimal(h, 2))
  {
    DotCommaPrepared(DigitsOf(h / 100), TwoDigits(h % 100));
    ParsePlain(h);
  }

  /** "2,050,300.56" is read as 2050300.56. */
  lemma NormalizeCommaDot(h: nat)
    ensures Classify(FormatCommaDot(h)) == CommaThousandsDotDecimal
    ensures Normalize(FormatCommaDot(h)) == Some(Decimal(h, 2))
  {
    CommaDotPrepared(DigitsOf(h / 100), TwoDigits(h % 100));
    ParsePlain(h);
  }

  /** "2050300.56" is read as 2050300.56. */
  lemma NormalizePlain(h: nat)
    ensures Normalize(FormatPlain(h)) == Some(Decimal(h, 2))
  {
    PlainPrepared(DigitsOf(h / 100), TwoDigits(h % 100));
    ParsePlain(h);
  }

  // ---------------------------------------------------------------------
  // What the shape priority means for numerals with one or with several separators

  lemma CleanDigitsAround(a: string, x: char, b: string)
    requires AllDigits(a) && AllDigits(b) && (x == '.' || x == ',')
    ensures Clean(a + [x] + b) == a + [x] + b
  {
    var s := a + [x] + b;
    forall i | 0 <= i < |s| ensures IsDigit(s[i]) || s[i] == '.' || s[i] == ',' {
      if i < |a| {
        assert s[i] == a[i];
      } else if i > |a| {
        assert s[i] == b[i - |a| - 1];
      }
    }
    CleanNumeral(s);
  }

  /**
   * A single separator between digits is read as the decimal point, whether
   * it is a comma or a dot and however many digits stand on either side:
   * "1,005" and "1.234" are decimals, not thousands.
   */
  lemma SingleSeparatorIsPoint(a: string, x: char, b: string)
    requires AllDigits(a) && AllDigits(b) && (x == '.' || x == ',')
    ensures Prepared(a + [x] + b) == a + ['.'] + b
  {
    CleanDigitsAround(a, x, b);
    DigitsHaveNoSeparator(a);
    DigitsHaveNoSeparator(b);
    if x == ',' {
      CommaIsPoint(a, b);
    } else {
      DotIsPoint(a, b);
    }
  }

  /** "<digits>,<digits>": the comma becomes the point, through the first shape or the comma fallback. */
  lemma CommaIsPoint(a: string, b: string)
    requires AllDigits(a) && AllDigits(b) && '.' !in a && ',' !in a && '.' !in b && ',' !in b
    requires Clean(a + [','] + b) == a + [','] + b
    ensures Prepared(a + [','] + b) == a + ['.'] + b
  {
    var s := a + [','] + b;
    if 1 <= |a| <= 3 {
      CommaAfterShortHead(a, b);
    } else {
      CommaAfterLongHead(a, b);
    }
    ReplaceFirstAt(a, ',', '.', b);
  }

  /** After one to three digits the first shape matches; deleting the absent dots changes nothing. */
  lemma CommaAfterShortHead(a: string, b: string)
    requires AllDigits(a) && AllDigits(b) && '.' !in a && ',' !in a && '.' !in b && ',' !in b
    requires 1 <= |a| <= 3
    ensures Rewrite(a + [','] + b, Classify(a + [','] + b)) == ReplaceFirst(a + [','] + b, ',', '.')
  {
    var s := a + [','] + b;
    assert s[|a|] == ',' && s[..|a|] == a;
    FirstIndexUnique(s, ',', |a|);
    DigitsGrouped(a, '.');
    FractionAfterGroups(a, '.', ',', b);
    RemoveAllAbsent(s, '.');
  }

  /** With no digit or more than three before it, no shape matches and the comma fallback applies. */
  lemma CommaAfterLongHead(a: string, b: string)
    requires AllDigits(a) && AllDigits(b) && '.' !in a && ',' !in a && '.' !in b && ',' !in b
    requires !(1 <= |a| <= 3)
    ensures Classify(a + [','] + b) == BareCommaDecimal
  {
    var s := a + [','] + b;
    assert s[|a|] == ',' && s[..|a|] == a;
    FirstIndexUnique(s, ',', |a|);
    DigitsGrouped(a, '.');
    assert !GroupedWithFraction(s, '.', ',');
    assert '.' !in s;
    NotGroupedWithForeign(s, '.', |a|);
    OneSeparatorNotGrouped(a, ',', b);
  }

  /** "<digits>.<digits>": the point stays, through the second shape or no rewriting at all. */
  lemma DotIsPoint(a: string, b: string)
    requires AllDigits(a) && AllDigits(b) && '.' !in a && ',' !in a && '.' !in b && ',' !in b
    requires Clean(a + ['.'] + b) == a + ['.'] + b
    ensures Prepared(a + ['.'] + b) == a + ['.'] + b
  {
    var s := a + ['.'] + b;
    assert s[|a|] == '.' && s[..|a|] == a;
    FirstIndexUnique(s, '.', |a|);
    assert ',' !in s;
    DigitsGrouped(a, ',');
    if 1 <= |a| <= 3 {
      FractionAfterGroups(a, ',', '.', b);
      RemoveAllAbsent(s, ',');
    } else {
      assert !GroupedWithFraction(s, ',', '.');
      OneSeparatorNotGrouped(a, '.', b);
      NotGroupedWithForeign(s, ',', |a|);
      assert Classify(s) == Unformatted;
    }
  }

  /** A grouping of seven or more digits has at least two separators. */
  lemma GroupHasSeparator(ds: string, sep: char)
    requires |ds| >= 4
    ensures sep in Group(ds, sep)
  {
    var g := Group(ds[..|ds| - 3], sep);
    assert Group(ds, sep)[|g|] == sep;
  }

  /**
   * Digits grouped by threes with two or more separators of the same kind
   * are read as a whole number, dots and commas alike: "2.050.300" and
   * "2,050,300" both stand for 2050300.
   */
  lemma GroupedIntegerPrepared(ds: string, sep: char)
    requires |ds| >= 7 && AllDigits(ds) && (sep == '.' || sep == ',')
    ensures Prepared(Group(ds, sep)) == ds
  {
    var hi, lo := ds[..|ds| - 3], ds[|ds| - 3..];
    var g := Group(hi, sep);
    var s := Group(ds, sep);
    assert s == g + [sep] + lo;
    GroupSpec(ds, sep);
    GroupHasSeparator(hi, sep);
    GroupedChars(s, sep);
    forall i | 0 <= i < |s| ensures IsDigit(s[i]) || s[i] == '.' || s[i] == ',' {
    }
    CleanNumeral(s);
    NoFractionBeforeSeparator(g, sep, lo, sep, if sep == '.' then ',' else '.');
    if sep == '.' {
      assert ',' !in s;
    } else {
      assert '.' !in s;
      assert s[|g|] == ',';
      NotGroupedWithForeign(s, '.', |g|);
    }
  }

  /** "2.050.300" and "2,050,300" are whole numbers. */
  lemma NormalizeGroupedInteger(ds: string, sep: char)
    requires |ds| >= 7 && AllDigits(ds) && (sep == '.' || sep == ',')
    ensures Normalize(Group(ds, sep)) == Some(Decimal(DigitsValue(ds) * 100, 2))
  {
    GroupedIntegerPrepared(ds, sep);
    ParseDigits(ds);
    RoundWhole(DigitsValue(ds));
  }

  lemma RoundWhole(v: nat)
    ensures RoundHalfUp2(Decimal(v, 0)) == Decimal(v * 100, 2)
  {
    assert Pow10(2) == 100;
  }

  /** With a single separator, the numeral is read as "<digits>.<digits>" and rounded half up. */
  lemma NormalizeSingleSeparator(a: string, x: char, b: string)
    requires AllDigits(a) && AllDigits(b) && |a| + |b| >= 1 && (x == '.' || x == ',')
    ensures AllDigits(a + b)
    ensures Normalize(a + [x] + b) == Some(RoundHalfUp2(Decimal(DigitsValue(a + b), |b|)))
  {
    SingleSeparatorIsPoint(a, x, b);
    ParsePointed(a, b);
  }

  lemma PlainPrepared(ds: string, t: string)
    requires |ds| >= 1 && AllDigits(ds) && |t| == 2 && AllDigits(t)
    ensures Prepared(ds + ['.'] + t) == ds + ['.'] + t
  {
    var s := ds + ['.'] + t;
    DigitsHaveNoSeparator(t);
    DigitsHaveNoSeparator(ds);
    forall i | 0 <= i < |s| ensures IsDigit(s[i]) || s[i] == '.' {
      if i < |ds| {
        assert s[i] == ds[i];
      } else if i > |ds| {
        assert s[i] == t[i - |ds| - 1];
      }
    }
    CleanNumeral(s);
    assert ',' !in s;
    assert s[|s| - 3..][0] == '.';
    assert !Grouped(s, '.') && !Grouped(s, ',');
    RemoveAllAbsent(s, ',');
  }
}

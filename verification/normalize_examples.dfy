/**
 * What the normalizer gives for concrete inputs: the four spellings of the
 * sample amount, the inputs whose reading depends on the shape priority,
 * and inputs that are not numbers.
 */
module NormalizeExamples {
  import opened Text
  import opened Arith
  import opened Decimals
  import opened Normalizer

  /** One more digit: the digits of the quotient by ten, then the last digit. */
  lemma DigitsStep(n: nat, s: string, d: char)
    requires n >= 10 && DigitsOf(n / 10) == s && d == DigitChar(n % 10)
    ensures DigitsOf(n) == s + [d]
  {
  }

  lemma SampleDigits()
    ensures DigitsOf(2050300) == "2050300"
  {
    assert DigitsOf(2) == "2";
    DigitsStep(20, "2", '0');
    assert "2" + ['0'] == "20";
    DigitsStep(205, "20", '5');
    assert "20" + ['5'] == "205";
    DigitsStep(2050, "205", '0');
    assert "205" + ['0'] == "2050";
    DigitsStep(20503, "2050", '3');
    assert "2050" + ['3'] == "20503";
    DigitsStep(205030, "20503", '0');
    assert "20503" + ['0'] == "205030";
    DigitsStep(2050300, "205030", '0');
    assert "205030" + ['0'] == "2050300";
  }

  lemma SampleCents()
    ensures TwoDigits(56) == "56"
  {
  }

  lemma SampleGroups()
    ensures Group("2050300", '.') == "2.050.300"
    ensures Group("2050300", ',') == "2,050,300"
  {
    assert "2050300"[..4] == "2050" && "2050300"[4..] == "300";
    assert "2050"[..1] == "2" && "2050"[1..] == "050";
    assert Group("2050", '.') == "2.050";
    assert Group("2050", ',') == "2,050";
  }

  /** The sample amount written in each convention. */
  lemma SampleSpellings()
    ensures FormatDotComma(205030056) == "2.050.300,56"
    ensures FormatCommaDot(205030056) == "2,050,300.56"
    ensures FormatPlain(205030056) == "2050300.56"
  {
    SampleDigits();
    SampleCents();
    SampleGroups();
    assert 205030056 / 100 == 2050300 && 205030056 % 100 == 56;
    assert "2.050.300" + [','] + "56" == "2.050.300,56";
    assert "2,050,300" + ['.'] + "56" == "2,050,300.56";
    assert "2050300" + ['.'] + "56" == "2050300.56";
  }

  /** "$2.050.300,56", "2.050.300,56", "2050300.56" and "2,050,300.56" all read as 2050300.56. */
  lemma FourSpellingsAgree()
    ensures Normalize("$2.050.300,56") == Some(Decimal(205030056, 2))
    ensures Normalize("2.050.300,56") == Some(Decimal(205030056, 2))
    ensures Normalize("2050300.56") == Some(Decimal(205030056, 2))
    ensures Normalize("2,050,300.56") == Some(Decimal(205030056, 2))
  {
    DotCommaSpelling();
    SignedSpelling();
    PlainSpelling();
    CommaDotSpelling();
  }

  lemma DotCommaSpelling()
    ensures Normalize("2.050.300,56") == Some(Decimal(205030056, 2))
  {
    SampleSpellings();
    NormalizeDotComma(205030056);
  }

  lemma SignedSpelling()
    ensures Normalize("$2.050.300,56") == Some(Decimal(205030056, 2))
  {
    SignPrefixed();
    assert ['$'] + "2.050.300,56" == "$2.050.300,56";
  }

  lemma SignPrefixed()
    ensures Normalize(['$'] + "2.050.300,56") == Some(Decimal(205030056, 2))
  {
    DotCommaSpelling();
    NormalizeIgnoresLeadingNoise('$', "2.050.300,56");
  }

  lemma PlainSpelling()
    ensures Normalize("2050300.56") == Some(Decimal(205030056, 2))
  {
    SampleSpellings();
    NormalizePlain(205030056);
  }

  lemma CommaDotSpelling()
    ensures Normalize("2,050,300.56") == Some(Decimal(205030056, 2))
  {
    SampleSpellings();
    NormalizeCommaDot(205030056);
  }

  lemma ThousandthsValues()
    ensures DigitsValue("1005") == 1005 && DigitsValue("1234") == 1234 && DigitsValue("125") == 125
  {
    assert DigitsOf(1005) == "1005";
    assert DigitsOf(1234) == "1234";
    assert DigitsOf(125) == "125";
  }

  lemma ThousandthsRounded()
    ensures RoundHalfUp2(Decimal(1005, 3)) == Decimal(101, 2)
    ensures RoundHalfUp2(Decimal(1234, 3)) == Decimal(123, 2)
    ensures RoundHalfUp2(Decimal(125, 3)) == Decimal(13, 2)
  {
  }

  /** A numeral with one separator, whose digits read as `v`, normalizes to `v` rounded at its length. */
  lemma SingleSeparatorRead(a: string, x: char, b: string, s: string, v: nat, r: Decimal)
    requires AllDigits(a) && AllDigits(b) && |a| + |b| >= 1 && (x == '.' || x == ',')
    requires s == a + [x] + b
    requires AllDigits(a + b) && DigitsValue(a + b) == v
    requires RoundHalfUp2(Decimal(v, |b|)) == r
    ensures Normalize(s) == Some(r)
  {
    NormalizeSingleSeparator(a, x, b);
  }

  lemma ThousandthsJoined()
    ensures "1" + "005" == "1005" && "1" + "234" == "1234" && "0" + "125" == "0125"
    ensures "1" + [','] + "005" == "1,005"
    ensures "1" + [','] + "234" == "1,234" && "1" + ['.'] + "234" == "1.234"
    ensures "0" + [','] + "125" == "0,125"
  {
  }

  /** "1,005" is one and five thousandths, rounded half up to 1.01. */
  lemma CommaBeforeThreeDigits()
    ensures Normalize("1,005") == Some(Decimal(101, 2))
  {
    ThousandthsJoined();
    ThousandthsValues();
    ThousandthsRounded();
    SingleSeparatorRead("1", ',', "005", "1,005", 1005, Decimal(101, 2));
  }

  /** "1,234" and "1.234" are both read as 1.234 and rounded to 1.23, not as 1234. */
  lemma OneSeparatorIsDecimal()
    ensures Normalize("1,234") == Some(Decimal(123, 2))
    ensures Normalize("1.234") == Some(Decimal(123, 2))
  {
    ThousandthsJoined();
    ThousandthsValues();
    ThousandthsRounded();
    SingleSeparatorRead("1", ',', "234", "1,234", 1234, Decimal(123, 2));
    SingleSeparatorRead("1", '.', "234", "1.234", 1234, Decimal(123, 2));
  }

  lemma LeadingZeroValue()
    ensures AllDigits("0125") && DigitsValue("0125") == 125
  {
    DigitsValueAppend("0", "125");
    ThousandthsJoined();
    ThousandthsValues();
  }

  /** "0,125" is 0.125, rounded half up to 0.13. */
  lemma HalfRoundsUp()
    ensures Normalize("0,125") == Some(Decimal(13, 2))
  {
    ThousandthsJoined();
    LeadingZeroValue();
    ThousandthsRounded();
    SingleSeparatorRead("0", ',', "125", "0,125", 125, Decimal(13, 2));
  }

  lemma TwelveAndAHalfParts()
    ensures "12" + "5" == "125" && "12" + ['.'] + "5" == "12.5"
    ensures RoundHalfUp2(Decimal(125, 1)) == Decimal(1250, 2)
  {
  }

  /** "12.5" fits the comma-thousands shape with no comma group; deleting the absent commas keeps it, and it is 12.50. */
  lemma DecimalPointKept()
    ensures Normalize("12.5") == Some(Decimal(1250, 2))
  {
    TwelveAndAHalfParts();
    ThousandthsValues();
    SingleSeparatorRead("12", '.', "5", "12.5", 125, Decimal(1250, 2));
  }

  /** "2.050.300" and "2,050,300", with two separators, are whole numbers. */
  lemma TwoSeparatorsAreThousands()
    ensures Normalize("2.050.300") == Some(Decimal(205030000, 2))
    ensures Normalize("2,050,300") == Some(Decimal(205030000, 2))
  {
    SampleDigits();
    SampleGroups();
    NormalizeGroupedInteger("2050300", '.');
    NormalizeGroupedInteger("2050300", ',');
  }

  /** In "1,2,3" only the first comma becomes a point, and "1.2,3" is not a number. */
  lemma OnlyFirstCommaReplaced()
    ensures Prepared("1,2,3") == "1.2,3"
    ensures Normalize("1,2,3") == None
  {
    CommasPrepared();
    SecondCommaRejected();
  }

  lemma CommasPrepared()
    ensures Prepared("1,2,3") == "1.2,3"
  {
    CommasClassified();
    CommasRewritten();
  }

  lemma CommasRewritten()
    ensures Rewrite("1,2,3", BareCommaDecimal) == "1.2,3"
  {
    assert "1,2,3" == "1" + [','] + "2,3";
    ReplaceFirstAt("1", ',', '.', "2,3");
    assert "1" + ['.'] + "2,3" == "1.2,3";
  }

  lemma CommasClassified()
    ensures Clean("1,2,3") == "1,2,3"
    ensures Classify("1,2,3") == BareCommaDecimal
  {
    CleanNumeral("1,2,3");
    CommasNotFraction();
    CommasNotGrouped();
  }

  lemma CommasNotFraction()
    ensures !GroupedWithFraction("1,2,3", '.', ',')
    ensures !GroupedWithFraction("1,2,3", ',', '.')
  {
    assert "1,2" + [','] + "3" == "1,2,3";
    assert ',' in "1,2";
    NoFractionBeforeSeparator("1,2", ',', "3", ',', '.');
    assert '.' !in "1,2,3";
  }

  lemma CommasNotGrouped()
    ensures !Grouped("1,2,3", '.')
    ensures !Grouped("1,2,3", ',')
  {
    var s := "1,2,3";
    NotGroupedWithForeign(s, '.', 1);
    assert s[|s| - 3..][1] == ',';
  }

  lemma SecondCommaRejected()
    ensures ParseDecimal("1.2,3") == None
  {
    var s := "1.2,3";
    assert s[..1] == "1" && s[1] == '.';
    FirstIndexUnique(s, '.', 1);
    assert s[2..][1] == ',';
  }

  /** Letters, and a lone currency sign, are not numbers. */
  lemma NotNumbers()
    ensures Normalize("abc") == None
    ensures Normalize("$") == None
    ensures Normalize("") == None
  {
    LettersNotNumber();
    EmptyNotNumber();
    SignAloneNotNumber();
  }

  lemma LettersNotNumber()
    ensures Normalize("abc") == None
  {
    NoDigitNotNumber("abc");
  }

  /** Text with neither digits, separators nor noise is not a number. */
  lemma NoDigitNotNumber(s: string)
    requires s != []
    requires forall i :: 0 <= i < |s| ==> !IsDigit(s[i]) && !IsNoise(s[i]) && s[i] != '.' && s[i] != ','
    ensures Normalize(s) == None
  {
    CleanKeeps(s);
    assert !AllDigits(s);
    assert |s| >= 5 ==> !AllDigits(s[|s| - 3..]) by {
      if |s| >= 5 {
        assert s[|s| - 3..][2] == s[|s| - 1];
      }
    }
    assert !Grouped(s, '.') && !Grouped(s, ',');
    assert Classify(s) == Unformatted;
  }

  lemma EmptyNotNumber()
    ensures Normalize("") == None
  {
    assert Clean("") == [];
    assert Classify([]) == Unformatted;
  }

  lemma SignAloneNotNumber()
    ensures Normalize("$") == None
  {
    EmptyNotNumber();
    NormalizeIgnoresLeadingNoise('$', "");
    assert ['$'] + "" == "$";
  }
}

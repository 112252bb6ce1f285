/**
 * The sample amount carried through the whole conversion, and the shapes of
 * the words for a few numbers that show the wordifier's spelling choices.
 */
module ConvertExamples {
  import opened Text
  import opened Decimals
  import opened Normalizer
  import opened NormalizeExamples
  import opened Wordifier
  import opened Converter

  lemma ThreeHundred()
    ensures Words(300) == "trescientos"
  {
    assert Words(300) == Then(Wordifier.Hundreds[3], Rest(0, Words(0)));
  }

  lemma Fifty()
    ensures Words(50) == "cincuenta"
  {
    assert Words(50) == Tens[5] + "";
  }

  lemma FiftyThousandThreeHundred()
    ensures Words(50300) == "cincuenta mil trescientos"
  {
    assert Words(50300) == Scaled(Words(50), "mil", Rest(300, Words(300)));
    Fifty();
    ThreeHundred();
    assert "cincuenta" + " " + "mil" + " " + "trescientos" == "cincuenta mil trescientos";
  }

  lemma SampleUnits()
    ensures Words(2050300) == "dos" + " " + "millones" + " " + "cincuenta mil trescientos"
  {
    assert Words(2050300) == Scaled(Words(2), "millones", Rest(50300, Words(50300)));
    assert Words(2) == Units[2];
    FiftyThousandThreeHundred();
  }

  lemma SampleHundredths()
    ensures Words(56) == "cincuenta y seis"
  {
    assert Words(56) == Tens[5] + (" y " + Units[6]);
  }

  lemma Regroup8<T>(a: seq<T>, b: seq<T>, c: seq<T>, d: seq<T>, e: seq<T>, f: seq<T>, g: seq<T>, h: seq<T>)
    ensures a + b + c + d + e + f + g + h == a + (b + c + d + e + f + g + h)
  {
  }

  lemma CapitalDos()
    ensures UpperFirst("dos") == "Dos"
  {
    assert ToUpper('d') == 'D';
  }

  lemma Regroup5<T>(a: seq<T>, b: seq<T>, c: seq<T>, d: seq<T>, e: seq<T>)
    ensures a + b + c + d + e == a + (b + c + d + e)
  {
  }

  /** An amount whose units are spelled `head + tail` and whose hundredths are spelled `cents` is shown so. */
  lemma ShownAs(raw: string, m: nat, head: string, tail: string, cents: string)
    requires head != []
    requires Normalize(raw) == Some(Decimal(m, 2))
    requires PartWords(m / 100) == head + tail && PartWords(m % 100) == cents
    ensures Convert(raw) == UpperFirst(head) + (tail + " con " + cents + " centésimos")
  {
    ConvertSome(raw, Decimal(m, 2));
    var rest := tail + " con " + cents + " centésimos";
    assert AmountText(m / 100, m % 100) == head + tail + " con " + cents + " centésimos";
    Regroup5(head, tail, " con ", cents, " centésimos");
    UpperFirstAppend(head, rest);
  }

  /** "$2.050.300,56" is shown as two million fifty thousand three hundred and fifty-six hundredths. */
  lemma SampleConverted()
    ensures Convert("$2.050.300,56")
         == "Dos" + " " + "millones" + " " + "cincuenta mil trescientos" + " con " + "cincuenta y seis" + " centésimos"
  {
    FourSpellingsAgree();
    SampleUnits();
    SampleHundredths();
    var tail := " " + "millones" + " " + "cincuenta mil trescientos";
    var cents := "cincuenta y seis";
    Regroup5("dos", " ", "millones", " ", "cincuenta mil trescientos");
    assert PartWords(2050300) == "dos" + tail && PartWords(56) == cents;
    ShownAs("$2.050.300,56", 205030056, "dos", tail, cents);
    CapitalDos();
    Regroup8("Dos", " ", "millones", " ", "cincuenta mil trescientos", " con ", cents, " centésimos");
  }
}

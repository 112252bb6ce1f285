/**
 * The spelling choices of the wordifier on the numbers that show them: the
 * contracted twenties, "y" in the other tens, "cien" alone and "ciento"
 * before a remainder, and the singular forms of the scale words.
 */
module WordExamples {
  import opened Wordifier

  /** Twenty-one is "veinte", "i" and "uno" run together. */
  lemma TwentyOne()
    ensures Words(21) == "veinteiuno"
  {
    assert Words(21) == Tens[2] + ("i" + Units[1]);
  }

  /** Thirty-one keeps "y" between the tens and the unit. */
  lemma ThirtyOne()
    ensures Words(31) == "treinta y uno"
  {
    assert Words(31) == Tens[3] + (" y " + Units[1]);
  }

  /** A number from 101 to 199 is "ciento", a space, and the words of its remainder. */
  lemma CientoBeforeRemainder(n: nat)
    requires 100 < n < 200
    ensures Words(n) == "ciento " + Words(n - 100)
  {
    assert n / 100 == 1 && n % 100 == n - 100;
    assert Wordifier.Hundreds[1] + " " == "ciento ";
  }

  /** One hundred as the count of thousands is still "cien". */
  lemma HundredThousand()
    ensures Words(100000) == "cien mil"
  {
    assert Words(100000) == Scaled(Words(100), "mil", Rest(0, Words(0)));
  }

  /** One thousand is "mil" alone; two thousand counts its thousands. */
  lemma Thousands()
    ensures Words(1000) == "mil"
    ensures Words(2000) == "dos mil"
  {
    assert Words(2000) == Scaled(Words(2), "mil", Rest(0, Words(0)));
  }

  /** One million is "un millón"; two million is counted, in the plural. */
  lemma Millions()
    ensures Words(1000000) == "un millón"
    ensures Words(2000000) == "dos millones"
  {
    assert Words(2000000) == Scaled(Words(2), "millones", Rest(0, Words(0)));
  }

  /** Above the millions a count of one is spelled "uno", with the singular scale word. */
  lemma HigherTiersOne()
    ensures Words(Billion) == "uno billón"
    ensures Words(Trillion) == "uno trillón"
    ensures Words(Quintillion) == "uno quintillón"
  {
    assert Words(Billion) == Scaled(Words(1), "billón", Rest(0, Words(0)));
    assert Words(Trillion) == Scaled(Words(1), "trillón", Rest(0, Words(0)));
    assert Words(Quintillion) == Scaled(Words(1), "quintillón", Rest(0, Words(0)));
  }

  /** Two quintillions take the plural. */
  lemma TwoQuintillions()
    ensures Words(2 * Quintillion) == "dos quintillones"
  {
    assert Words(2 * Quintillion) == Scaled(Words(2), "quintillones", Rest(0, Words(0)));
  }
}

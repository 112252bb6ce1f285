/**
 * The whole conversion (`convertToWords`, and what the form shows once the
 * amount is converted): the whole units and the whole hundredths of the
 * normalized amount, each in words ("cero" when there are none), joined as
 * "<units> con <hundredths> centésimos", with the first letter capitalised.
 * Its partner reads such a text back into the two parts.
 */
module Converter {
  import opened Text
  import opened Arith
  import opened Decimals
  import opened Normalizer
  import opened Wordifier
  import opened WordReader

  const InvalidMessage: string := "Ingresa un número válido"
  const EmptyMessage: string := "Ingresa un número para convertir"

  /** One part of the amount in words: "cero" when it is zero. */
  function PartWords(n: nat): (w: string)
    ensures w != [] && IsLowerAscii(w[0])
  {
    if n == 0 then "cero" else Words(n)
  }

  /** The amount text for `i` units and `c` hundredths. */
  function AmountText(i: nat, c: nat): (s: string)
    ensures s != [] && IsLowerAscii(s[0]) && s[|s| - 1] == 's'
  {
    PartWords(i) + " con " + PartWords(c) + " centésimos"
  }

  /** `convertToWords`; None stands for the NaN value. */
  function ConvertToWords(d: Option<Decimal>): string {
    match d
    case None => InvalidMessage
    case Some(v) => Trim(AmountText(FloorInt(v), FloorCents(v)))
  }

  /** The conversion of a raw input, first letter upper-cased. */
  function Convert(raw: string): string {
    UpperFirst(ConvertToWords(Normalize(raw)))
  }

  /** What the result line shows after "Convertir": a prompt for a blank input, the conversion otherwise. */
  function Shown(input: string): string {
    if Trim(input) == [] then EmptyMessage else Convert(input)
  }

  // ----- Reading an amount text back -----

  /** A part read back: "cero" is zero, anything else is read as number words. */
  function ReadPart(ps: seq<string>): nat {
    if ps == ["cero"] then 0 else Eval(LexAll(ps))
  }

  /**
   * The two parts of "<units> con <hundredths> centésimos"; None for a text
   * without "con" or not ending in "centésimos".
   */
  function ReadAmount(text: string): Option<(nat, nat)> {
    ReadPieces(Split(text))
  }

  function ReadPieces(ps: seq<string>): Option<(nat, nat)> {
    match Around(ps, "con", "centésimos")
    case None => None
    case Some((a, b)) => Some((ReadPart(a), ReadPart(b)))
  }

  /** What stands before the first `x`, and between it and a final `y`; None when `ps` is not so shaped. */
  function Around<T(==)>(ps: seq<T>, x: T, y: T): Option<(seq<T>, seq<T>)> {
    var k := FirstIndex(ps, x);
    if k < 0 || k == |ps| - 1 || ps[|ps| - 1] != y then None
    else Some((ps[..k], ps[k + 1..|ps| - 1]))
  }

  // ----- Lemmas -----

  /** Trimming keeps a text that neither starts nor ends with white space. */
  lemma TrimKeeps(s: string)
    requires s != [] && !IsJsSpace(s[0]) && !IsJsSpace(s[|s| - 1])
    ensures Trim(s) == s
  {
    assert TrimStart(s) == s;
  }

  /** The amount text is never trimmed: it starts with a letter and ends with "centésimos". */
  lemma AmountUntrimmed(i: nat, c: nat)
    ensures Trim(AmountText(i, c)) == AmountText(i, c)
  {
    TrimKeeps(AmountText(i, c));
  }

  lemma NotNumberWords()
    ensures Lex("con") == Unknown && Lex("cero") == Unknown
  {
  }

  /** The words of a part hold no "con", and read back as the part. */
  lemma PartReadsBack(n: nat)
    ensures "con" !in Split(PartWords(n))
    ensures ReadPart(Split(PartWords(n))) == n
  {
    if n == 0 {
      SplitNoSpace("cero");
    } else {
      NotNumberWords();
      UnknownNotWritten(n, "con");
      UnknownNotWritten(n, "cero");
      assert Split(Words(n)) != ["cero"];
      WordsReadBack(n);
    }
  }

  /** The pieces of "<a> con <b> centésimos": those of `a`, "con", those of `b`, "centésimos". */
  lemma JoinedPieces(a: string, b: string)
    ensures Split(a + " con " + b + " centésimos") == Split(a) + (["con"] + (Split(b) + ["centésimos"]))
  {
    var tail := b + " " + "centésimos";
    SpacedShape(a, b);
    SplitThenWord(b, "centésimos");
    SplitWordThen("con", tail);
    SplitJoin(a, "con" + " " + tail);
  }

  lemma SpacedShape(a: string, b: string)
    ensures a + " con " + b + " centésimos" == a + " " + ("con" + " " + (b + " " + "centésimos"))
  {
    assert " con " == " " + "con" + " ";
    assert " centésimos" == " " + "centésimos";
  }

  /** `p`, then `x`, then `q`, then `y` is taken apart again into `p` and `q` when `p` holds no `x`. */
  lemma AroundJoined<T>(p: seq<T>, x: T, q: seq<T>, y: T)
    requires x !in p
    ensures Around(p + ([x] + (q + [y])), x, y) == Some((p, q))
  {
    var rest := [x] + (q + [y]);
    FirstIndexAppend(p, rest, x);
    assert FirstIndex(rest, x) == 0;
    var ps := p + rest;
    assert ps[..|p|] == p;
    assert ps[|p| + 1..|ps| - 1] == q;
  }

  /** The amount text reads back as the units and the hundredths it was written from. */
  lemma AmountReadsBack(i: nat, c: nat)
    ensures ReadAmount(AmountText(i, c)) == Some((i, c))
  {
    JoinedPieces(PartWords(i), PartWords(c));
    PartReadsBack(i);
    PartReadsBack(c);
    AroundJoined(Split(PartWords(i)), "con", Split(PartWords(c)), "centésimos");
  }

  /** A number is converted to the words of its whole units and whole hundredths, untrimmed. */
  lemma ConvertSome(raw: string, v: Decimal)
    requires Normalize(raw) == Some(v)
    ensures v.scale == 2
    ensures ConvertToWords(Normalize(raw)) == AmountText(v.mantissa / 100, v.mantissa % 100)
  {
    FloorAtScale2(v.mantissa);
    AmountUntrimmed(v.mantissa / 100, v.mantissa % 100);
  }

  /** Undoing the capitalisation of a conversion reads back the amount to the hundredth. */
  lemma ConvertReadsBack(raw: string, v: Decimal)
    requires Normalize(raw) == Some(v)
    ensures ReadAmount(LowerFirst(Convert(raw))) == Some((v.mantissa / 100, v.mantissa % 100))
  {
    ConvertSome(raw, v);
    var s := AmountText(v.mantissa / 100, v.mantissa % 100);
    LowerUpperFirst(s);
    AmountReadsBack(v.mantissa / 100, v.mantissa % 100);
  }

  /** The shown result starts with an upper-case letter and otherwise is the conversion as computed. */
  lemma ConvertCapitalised(raw: string)
    ensures Convert(raw) != [] && IsUpperAscii(Convert(raw)[0])
    ensures Convert(raw)[1..] == ConvertToWords(Normalize(raw))[1..]
  {
    match Normalize(raw)
    case None =>
    case Some(v) => ConvertSome(raw, v);
  }

  /** A conversion is the invalid-number message, or a text ending in "centésimos"'s last letter. */
  lemma ConvertEnds(raw: string)
    ensures Normalize(raw).None? ==> Convert(raw) == InvalidMessage
    ensures Normalize(raw).Some? ==> Convert(raw) != [] && Convert(raw)[|Convert(raw)| - 1] == 's'
  {
    match Normalize(raw)
    case None =>
      assert UpperFirst(InvalidMessage) == InvalidMessage;
    case Some(v) =>
      ConvertSome(raw, v);
  }

  /** The invalid-number message is shown exactly for the inputs that are not numbers. */
  lemma ConvertInvalid(raw: string)
    ensures Convert(raw) == InvalidMessage <==> Normalize(raw) == None
  {
    ConvertEnds(raw);
    assert InvalidMessage[|InvalidMessage| - 1] == 'o';
  }

  /** Two inputs give the same text exactly when they normalize to the same amount. */
  lemma ConvertInjective(a: string, b: string)
    ensures Convert(a) == Convert(b) <==> Normalize(a) == Normalize(b)
  {
    if Convert(a) == Convert(b) {
      ConvertInvalid(a);
      ConvertInvalid(b);
      if Normalize(a).Some? && Normalize(b).Some? {
        var u, v := Normalize(a).value, Normalize(b).value;
        ConvertReadsBack(a, u);
        ConvertReadsBack(b, v);
        SameHundredths(u, v);
      }
    }
  }

  /** Two amounts in hundredths with the same units and the same hundredths are equal. */
  lemma SameHundredths(u: Decimal, v: Decimal)
    requires u.scale == 2 && v.scale == 2
    requires u.mantissa / 100 == v.mantissa / 100 && u.mantissa % 100 == v.mantissa % 100
    ensures u == v
  {
    assert u.mantissa == 100 * (u.mantissa / 100) + u.mantissa % 100;
    assert v.mantissa == 100 * (v.mantissa / 100) + v.mantissa % 100;
  }

  /** The prompt is shown exactly for a blank input; otherwise the conversion is. */
  lemma ShownSpec(input: string)
    ensures Shown(input) == EmptyMessage <==> Trim(input) == []
    ensures Trim(input) != [] ==> Shown(input) == Convert(input)
  {
    ConvertEnds(input);
    assert EmptyMessage[|EmptyMessage| - 1] == 'r';
    assert InvalidMessage != EmptyMessage by {
      assert InvalidMessage[|InvalidMessage| - 1] == 'o';
    }
  }
}

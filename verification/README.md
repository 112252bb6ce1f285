# Numeral to Spanish words — a Dafny model

This project models the conversion pipeline of a small web page that turns a
free-form amount such as `$2.050.300,56` into Spanish words ("Dos millones
cincuenta mil trescientos con cincuenta y seis centésimos"). The page's logic
lives in `src/App.jsx`. The model covers its three pure functions and the
expressions of the "Convertir" handler that shape the displayed text:

- **Normalizer** (`normalizeNumber`). It deletes `$` and white space. It then
  tests the cleaned numeral against four shapes, in a fixed order: dot
  thousands with a decimal comma, comma thousands with a decimal point, dot
  thousands only, comma thousands only. If none matches, the first comma
  becomes a point. The numeral is then read exactly and rounded half up to
  hundredths.
- **Wordifier** (`numberToWords`). It spells a whole number by recursion over
  the scale tiers 10^15, 10^12, 10^9, 10^6 and 10^3, then the hundreds, tens,
  teens and units.
- **Converter** (`convertToWords` and the capitalisation in `handleConvert`).
  It produces "<units> con <hundredths> centésimos", with "cero" for a zero
  part, or "Ingresa un número válido" when the input is not a number. The
  first letter is then upper-cased. A blank input instead shows "Ingresa un
  número para convertir".

Modules, one per file:

| file | module | contents |
|---|---|---|
| `text.dfy` | `Text` | the JavaScript string operations used: `replace` (all and first), `trim`, `\s`, `\d`, first-letter case change, splitting at spaces |
| `arith.dfy` | `Arith` | powers of ten and division facts |
| `decimals.dfy` | `Decimals` | exact decimals `mantissa / 10^scale`; BigNumber's plain-notation parse, `decimalPlaces(2, ROUND_HALF_UP)` and the two `ROUND_FLOOR` steps of `convertToWords` |
| `normalizer.dfy` | `Normalizer` | `normalizeNumber`: cleaning, the four shape tests, rewriting, parsing, rounding |
| `wordifier.dfy` | `Wordifier` | `numberToWords` with its four word tables |
| `reader.dfy` | `WordReader` | the partner of the wordifier: a reader that evaluates Spanish number words, proved to read every spelled number back |
| `converter.dfy` | `Converter` | `convertToWords`, the capitalised result, the blank-input prompt, and a reader for the whole amount text |
| `normalize_examples.dfy`, `words_examples.dfy`, `convert_examples.dfy` | `NormalizeExamples`, `WordExamples`, `ConvertExamples` | the behaviour on concrete inputs: the four sample spellings on the page, ambiguous separators, rounding, invalid inputs, the spelling choices, the end-to-end sample |

BigNumber values are modelled as `Decimal(mantissa, scale)` with natural
numbers; NaN is `None` of an `Option`. Every value the normalizer returns has
scale 2.

Where the code and a plain reading of the page's purpose disagree, the model
follows the code:

- **A single separator is always the decimal point.** "1,005" and "0,125"
  match the dot-thousands-with-decimal-comma shape with no dot group, so they
  are read as 1.005 and 0.125. "1.234" matches the comma-thousands-with-decimal-point
  shape, so it is read as 1.234. With one kind of separator only, the
  separators are read as thousands separators only when there are two or
  more of them ("2.050.300"). A lone dot before a comma, as in "1.234,56",
  is a thousands separator too.
- **The 21-29 branch writes "veinteiuno", not "veintiuno".** It appends "i"
  and the unit to the full tens word "veinte".
- **Above the millions, a count of one is written "uno".** For example,
  10^9 is "uno billón". The 10^15 tier is called "quintillón".
- **The hundredths are floored, not rounded** (`ROUND_FLOOR`, lines 102-104).
  The value was already rounded to two places, so flooring gives the same
  result as rounding. `Decimals.FloorAtScale2` proves this.

## Model

| member | source | states |
|---|---|---|
| Text.RemoveAll | src/App.jsx:23-29 | a `replace` with a global pattern leaves no occurrence of the character and never lengthens the text |
| Text.ReplaceFirst | src/App.jsx:31 | `replace` with a string pattern changes only the first occurrence, keeps the length, and changes nothing when the character is absent |
| Text.Trim | src/App.jsx:109 | the trimmed text is a slice of the input with only white space before and after it, neither starts nor ends with white space, and is empty exactly when the input is all white space |
| Text.UpperFirst | src/App.jsx:125 | the length is kept, the first character is upper-cased and the rest is unchanged |
| Text.LowerUpperFirst | src/App.jsx:125 | lower-casing the first letter undoes the capitalisation of a text that starts with a lower-case letter |
| Normalizer.Grouped | src/App.jsx:17-18 | the test `^\d{1,3}(<sep>\d{3})*$`; `Normalizer.GroupedByPosition` gives it meaning by position |
| Normalizer.GroupedWithFraction | src/App.jsx:15-16 | the test `^\d{1,3}(<sep>\d{3})*<point>\d*$`; `Normalizer.NormalizeDotComma` and `Normalizer.NormalizeCommaDot` show which spellings pass it |
| Normalizer.Classify | src/App.jsx:15-34 | the four shape tests in their order, then the comma test; `Normalizer.SingleSeparatorIsPoint`, `Normalizer.NormalizeGroupedInteger` and the dot-comma and comma-dot rows give its outcome for each kind of input |
| Normalizer.Rewrite | src/App.jsx:22-34 | the rewriting each branch applies; its effect is stated by the same rows |
| Normalizer.Prepared | src/App.jsx:13-34 | the numeral handed to BigNumber; `Normalizer.SingleSeparatorIsPoint` states it for every numeral with one separator |
| Normalizer.Clean | src/App.jsx:13 | the cleaned text holds no `$` and no white space, and is no longer than the input |
| Normalizer.NormalizeIgnoresNoise | src/App.jsx:13 | inserting a `$` or a white-space character anywhere in the input does not change the normalized value |
| Normalizer.GroupedByPosition | src/App.jsx:17-18 | the grouped shape `\d{1,3}(<sep>\d{3})*` holds exactly when the separator stands wherever a multiple of four characters remain and digits stand everywhere else |
| Normalizer.GroupSpec | src/App.jsx:26-29 | writing digits with a separator before every group of three gives a grouped numeral, and deleting the separators gives back the digits |
| Normalizer.Normalize | src/App.jsx:36-40 | every successful normalization has exactly two fraction digits |
| Normalizer.NormalizeSpec | src/App.jsx:36-40 | the result is NaN exactly when the rewritten numeral is not a plain decimal; otherwise it is that decimal's nearest hundredth, halves going up |
| Normalizer.NormalizeDotComma | src/App.jsx:15-23 | any amount written with dot thousands and a decimal comma is recognised by the first shape and read back as exactly that amount |
| Normalizer.NormalizeCommaDot | src/App.jsx:16-25 | any amount written with comma thousands and a decimal point is recognised by the second shape and read back as exactly that amount |
| Normalizer.NormalizePlain | src/App.jsx:16-38 | any amount written plainly with two decimals is read back as exactly that amount, so normalizing is idempotent on its own plain output |
| Normalizer.SingleSeparatorIsPoint | src/App.jsx:15-34 | whichever shape or fallback applies, a numeral with one separator, comma or point, is rewritten with a point in its place |
| Normalizer.NormalizeSingleSeparator | src/App.jsx:12-41 | a numeral with one separator is its digits divided by ten to the number of digits after the separator, rounded half up to hundredths |
| Normalizer.NormalizeGroupedInteger | src/App.jsx:17-29 | seven or more digits grouped in threes by dots or by commas are read as the whole number the digits spell |
| Decimals.ParseDecimal | src/App.jsx:36 | `new BigNumber(s)` for plain notation; `Decimals.ParseDecimalAccepts` and `Decimals.ParseDecimalValue` give what it accepts and what value it reads |
| Decimals.RoundHalfUp2 | src/App.jsx:38 | `decimalPlaces(2, ROUND_HALF_UP)`, always at scale two; `Decimals.RoundHalfUp2Nearest` and `Decimals.HalfUpHundredthsUnique` characterise it |
| Decimals.FloorInt | src/App.jsx:102 | `integerValue(ROUND_FLOOR)`; `Decimals.FloorSpec` states it is the largest whole number not above the value |
| Decimals.FloorCents | src/App.jsx:103-104 | the whole hundredths of the fraction; `Decimals.FloorSpec` states they are below one hundred and the largest that fit |
| Decimals.ParseDecimalAccepts | src/App.jsx:36-37 | BigNumber's parse in plain notation succeeds exactly on digits with at most one point and at least one digit |
| Decimals.ParseDecimalValue | src/App.jsx:36 | a parsed numeral's mantissa is its digits without the point and its scale is the number of digits after the point |
| Decimals.RoundHalfUp2Nearest | src/App.jsx:38 | the rounded value is the hundredth nearest to the value, a half going up |
| Decimals.HalfUpHundredthsUnique | src/App.jsx:38 | that nearest hundredth is unique, so the rounding is fully determined by the previous row |
| Decimals.RoundHalfUp2Exact | src/App.jsx:38 | a value with at most two fraction digits keeps its value through the rounding |
| Decimals.FloorSpec | src/App.jsx:102-104 | the integer part is the largest whole number not above the value; the hundredths are the whole hundredths of the rest, below one hundred |
| Decimals.FloorAtScale2 | src/App.jsx:102-104 | for a normalized value the integer part and the hundredths are the quotient and remainder of its hundredths by one hundred |
| NormalizeExamples.FourSpellingsAgree | src/App.jsx:138 | the four sample spellings on the page all normalize to 2050300.56 |
| NormalizeExamples.CommaBeforeThreeDigits | src/App.jsx:15-23 | "1,005" is read as 1.005 and rounded half up to 1.01 |
| NormalizeExamples.OneSeparatorIsDecimal | src/App.jsx:15-25 | "1,234" and "1.234" are both 1.23, not 1234 |
| NormalizeExamples.DecimalPointKept | src/App.jsx:16-25 | "12.5" fits the comma-thousands shape with no comma group, keeps its point and is 12.50 |
| NormalizeExamples.HalfRoundsUp | src/App.jsx:38 | "0,125" is 0.125, rounded half up to 0.13 |
| NormalizeExamples.TwoSeparatorsAreThousands | src/App.jsx:17-29 | "2.050.300" and "2,050,300" are the whole number 2050300 |
| NormalizeExamples.OnlyFirstCommaReplaced | src/App.jsx:30-31 | in "1,2,3" only the first comma becomes a point, and the resulting "1.2,3" is not a number |
| NormalizeExamples.NotNumbers | src/App.jsx:36-40 | "abc", "$" and the empty input are not numbers |
| Wordifier.TablesStartLower | src/App.jsx:45-48 | every non-empty word of the four tables starts with a lower-case letter |
| WordReader.TierTokens | src/App.jsx:84-88 | the words of a tier are the words of its head followed by those of the remainder, with nothing added for a zero remainder |
| WordReader.NamedTokens | src/App.jsx:54-82 | the words of a counted tier are the count's words, the scale word, then the remainder's words |
| Wordifier.Scaled | src/App.jsx:58 | a scale phrase starts with the first letter of its count |
| Wordifier.Words | src/App.jsx:44-97 | the words are empty exactly for zero and otherwise start with a lower-case letter |
| WordReader.ReadBack | src/App.jsx:44-97 | the words of every positive number read back as that number, name no scale above it, and are all known number words |
| WordReader.WordsReadBack | src/App.jsx:44-97 | reading the text of any number gives the number back |
| WordReader.WordsInjective | src/App.jsx:44-97 | two numbers are spelled alike exactly when they are equal |
| WordReader.UnknownNotWritten | src/App.jsx:44-97 | a word outside the vocabulary, such as "con" or "cero", never appears among the words of a positive number |
| WordExamples.TwentyOne | src/App.jsx:90-93 | 21 is written "veinteiuno" |
| WordExamples.ThirtyOne | src/App.jsx:90-93 | 31 is written "treinta y uno" |
| WordExamples.CientoBeforeRemainder | src/App.jsx:84-88 | 101 to 199 are "ciento", one space, and the words of the remainder |
| WordExamples.HundredThousand | src/App.jsx:78-82 | one hundred as a count of thousands is "cien", so 100000 is "cien mil" |
| WordExamples.Thousands | src/App.jsx:78-82 | 1000 is "mil" alone and 2000 is "dos mil" |
| WordExamples.Millions | src/App.jsx:72-76 | 1000000 is "un millón" and 2000000 is "dos millones" |
| WordExamples.HigherTiersOne | src/App.jsx:54-71 | 10^9, 10^12 and 10^15 are "uno billón", "uno trillón" and "uno quintillón" |
| WordExamples.TwoQuintillions | src/App.jsx:54-58 | 2 × 10^15 is "dos quintillones" |
| Converter.ConvertToWords | src/App.jsx:100-110 | `convertToWords`; `Converter.ConvertSome` and `Converter.AmountReadsBack` state what it gives for a number, `Converter.ConvertInvalid` what it gives for NaN |
| Converter.Convert | src/App.jsx:122-125 | normalization, `convertToWords` and capitalisation in sequence; `Converter.ConvertReadsBack`, `Converter.ConvertInjective` and `Converter.ConvertCapitalised` state its meaning |
| Converter.Shown | src/App.jsx:115-125 | the result line after "Convertir"; `Converter.ShownSpec` states when the prompt and when the conversion is shown |
| Converter.PartWords | src/App.jsx:106-107 | a part in words is never empty and starts with a lower-case letter ("cero" for zero) |
| Converter.AmountText | src/App.jsx:106-109 | the amount text is non-empty, starts with a lower-case letter and ends with the last letter of "centésimos" |
| Converter.AmountUntrimmed | src/App.jsx:109 | the final `trim` never changes the amount text |
| Converter.AmountReadsBack | src/App.jsx:106-109 | the amount text reads back as the units and the hundredths it was written from |
| Converter.ConvertSome | src/App.jsx:100-110 | a number is converted to the words of its hundredths divided by one hundred and of their remainder |
| Converter.ConvertReadsBack | src/App.jsx:100-125 | undoing the capitalisation of a conversion reads back the normalized amount, to the hundredth |
| Converter.ConvertCapitalised | src/App.jsx:125 | the shown text starts with an upper-case letter and is otherwise the text `convertToWords` returned |
| Converter.ConvertEnds | src/App.jsx:101-109 | a non-number gives exactly the invalid-number message, and a number gives a text ending in "s" |
| Converter.ConvertInvalid | src/App.jsx:101 | the invalid-number message is shown exactly for the inputs that do not normalize |
| Converter.ConvertInjective | src/App.jsx:100-125 | two inputs are shown alike exactly when they normalize to the same amount |
| Converter.ShownSpec | src/App.jsx:115-125 | the prompt is shown exactly for a blank input; otherwise the capitalised conversion is shown |
| ConvertExamples.SampleUnits | src/App.jsx:72-88 | 2050300 is "dos millones cincuenta mil trescientos" |
| ConvertExamples.SampleHundredths | src/App.jsx:90-93 | 56 is "cincuenta y seis" |
| ConvertExamples.SampleConverted | src/App.jsx:122-125 | "$2.050.300,56" is shown as "Dos millones cincuenta mil trescientos con cincuenta y seis centésimos" |

## Left out

- The React component is not modelled: its state hooks, the form, the buttons, the example chips, the reset handler and the loading indicator. It is presentation.
- The rest of the "Convertir" handler is left out: `preventDefault`, the 300 ms `setTimeout`, `setLoading`, `setIsConverted` and the `console.log` of the normalized value. These are timers, UI state and output. `Converter.Shown` keeps only the text the handler sets as the result.
- `Decimals.ParseDecimal` does not model all of BigNumber's parse. It accepts only plain notation: digits with at most one point, as `\d+(\.\d*)?|\.\d+`. Every other notation BigNumber accepts is read as NaN by choice. That includes exponents ("1e3"), `0x`/`0o`/`0b` prefixes, a leading `+`, a leading `-` and `Infinity`. For most of these the page does spell a number: "1e3" matches no shape, passes through unchanged, and the page shows "Mil con cero centésimos", where the model gives "Ingresa un número válido". Only two have a further reason to stay out. A negative value makes `numberToWords` index its tables with a negative number (line 96). `Infinity` makes it recurse forever (lines 54-58).
- `Text.IsJsSpace` fixes JavaScript's `\s` (and the white space `trim` removes) to the WhiteSpace and LineTerminator code points of the current Unicode version. The regular-expression engine itself is replaced by explicit predicates over strings.
- `Text.ToUpper` upper-cases only the ASCII letters a-z, not the full Unicode mapping of `toUpperCase`. This loses nothing here: every text the converter capitalises starts with an ASCII letter.

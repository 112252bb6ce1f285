/**
 * The wordifier (`numberToWords`): spells a whole number in Spanish words,
 * descending through the scale tiers 10^15, 10^12, 10^9, 10^6 and 10^3, then
 * the hundreds, the tens from twenty up, the teens and the units.
 */
module Wordifier {
  import opened Text

  const Units: seq<string> :=
    ["", "uno", "dos", "tres", "cuatro", "cinco", "seis", "siete", "ocho", "nueve"]
  const Teens: seq<string> :=
    ["diez", "once", "doce", "trece", "catorce", "quince", "dieciséis", "diecisiete", "dieciocho", "diecinueve"]
  const Tens: seq<string> :=
    ["", "diez", "veinte", "treinta", "cuarenta", "cincuenta", "sesenta", "setenta", "ochenta", "noventa"]
  const Hundreds: seq<string> :=
    ["", "ciento", "doscientos", "trescientos", "cuatrocientos", "quinientos", "seiscientos", "setecientos", "ochocientos", "novecientos"]

  const Quintillion: nat := 1_000_000_000_000_000
  const Trillion: nat := 1_000_000_000_000
  const Billion: nat := 1_000_000_000
  const Million: nat := 1_000_000
  const Thousand: nat := 1000

  /** A group's words followed, after one space, by the words of the rest when there are any. */
  function Then(head: string, rest: string): (r: string)
    ensures |head| <= |r| && r[..|head|] == head
    ensures |r| == |head| <==> rest == []
  {
    if rest == [] then head else head + " " + rest
  }

  /** `${count} ${name}`, then the remainder's words. */
  function Scaled(count: string, name: string, rest: string): (r: string)
    requires count != []
    ensures r != [] && r[0] == count[0]
  {
    Then(count + " " + name, rest)
  }

  /** The words of a remainder: nothing for zero. */
  function Rest(r: nat, words: string): string {
    if r == 0 then "" else words
  }

  /** Every non-empty word of the tables starts with a lower-case ASCII letter. */
  lemma TablesStartLower()
    ensures forall i :: 1 <= i < 10 ==> Units[i] != [] && IsLowerAscii(Units[i][0])
    ensures forall i :: 0 <= i < 10 ==> Teens[i] != [] && IsLowerAscii(Teens[i][0])
    ensures forall i :: 2 <= i < 10 ==> Tens[i] != [] && IsLowerAscii(Tens[i][0])
    ensures forall i :: 1 <= i < 10 ==> Hundreds[i] != [] && IsLowerAscii(Hundreds[i][0])
  {
  }

  /**
   * `numberToWords`. Zero gives the empty string, so a zero remainder adds
   * nothing; every other number gives words starting with a lower-case letter.
   */
  function Words(n: nat): (w: string)
    ensures n == 0 <==> w == []
    ensures n > 0 ==> IsLowerAscii(w[0])
    decreases n
  {
    TablesStartLower();
    if n == 0 then ""
    else if n == 100 then "cien"
    else if n >= Quintillion then
      var q, r := n / Quintillion, n % Quintillion;
      Scaled(Words(q), if q == 1 then "quintillón" else "quintillones", Rest(r, Words(r)))
    else if n >= Trillion then
      var q, r := n / Trillion, n % Trillion;
      Scaled(Words(q), if q == 1 then "trillón" else "trillones", Rest(r, Words(r)))
    else if n >= Billion then
      var q, r := n / Billion, n % Billion;
      Scaled(Words(q), if q == 1 then "billón" else "billones", Rest(r, Words(r)))
    else if n >= Million then
      var q, r := n / Million, n % Million;
      if q == 1 then Then("un millón", Rest(r, Words(r)))
      else Scaled(Words(q), "millones", Rest(r, Words(r)))
    else if n >= Thousand then
      var q, r := n / Thousand, n % Thousand;
      if q == 1 then Then("mil", Rest(r, Words(r)))
      else Scaled(Words(q), "mil", Rest(r, Words(r)))
    else if n >= 100 then
      var r := n % 100;
      Then(Hundreds[n / 100], Rest(r, Words(r)))
    else if n >= 20 then
      var t, u := n / 10, n % 10;
      Tens[t] + (if u > 0 then (if t == 2 then "i" else " y ") + Units[u] else "")
    else if n >= 10 then Teens[n - 10]
    else Units[n]
  }
}

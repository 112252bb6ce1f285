/**
 * Reading Spanish number words back into the number: the partner of the
 * wordifier. Words are split on spaces; each word is either a scale word
 * ("mil", "millón", "millones", …) or carries a plain value ("tres",
 * "veinteiuno", "cien", …; "y" and unknown words carry none). A sequence of
 * words is read at its largest scale: what stands before the last word of
 * that scale counts how many (one when nothing does), what follows is added.
 */
module WordReader {
  import opened Text
  import opened Wordifier

  /** What one word contributes: a scale, a plain value, the connector "y", or nothing. */
  datatype Word = Scale(size: nat) | Plain(value: nat) | Connector | Unknown

  /**
   * The word a piece of text is: "veintei" followed by a unit word is
   * twenty and that unit; every other word is looked up in the vocabulary.
   */
  function Lex(t: string): Word {
    if |t| > 7 && t[0] == 'v' && t[..7] == "veintei" then
      match TableWord(t[7..])
      case Plain(u) => if 1 <= u <= 9 then Plain(20 + u) else Unknown
      case _ => Unknown
    else TableWord(t)
  }

  /** The vocabulary, listed by word length and first letter. */
  function TableWord(t: string): Word {
    if t == [] then Unknown
    else match (|t|, t[0])
      case (1, 'y') => if t == "y" then Connector else Unknown
      case (2, 'u') => if t == "un" then Plain(1) else Unknown
      case (3, 'd') => if t == "dos" then Plain(2) else Unknown
      case (3, 'm') => if t == "mil" then Scale(Thousand) else Unknown
      case (3, 'u') => if t == "uno" then Plain(1) else Unknown
      case (4, 'c') => if t == "cien" then Plain(100) else Unknown
      case (4, 'd') => if t == "diez" then Plain(10) else if t == "doce" then Plain(12) else Unknown
      case (4, 'o') => if t == "ocho" then Plain(8) else if t == "once" then Plain(11) else Unknown
      case (4, 's') => if t == "seis" then Plain(6) else Unknown
      case (4, 't') => if t == "tres" then Plain(3) else Unknown
      case (5, 'c') => if t == "cinco" then Plain(5) else Unknown
      case (5, 'n') => if t == "nueve" then Plain(9) else Unknown
      case (5, 's') => if t == "siete" then Plain(7) else Unknown
      case (5, 't') => if t == "trece" then Plain(13) else Unknown
      case (6, 'b') => if t == "billón" then Scale(Billion) else Unknown
      case (6, 'c') => if t == "cuatro" then Plain(4) else if t == "ciento" then Plain(100) else Unknown
      case (6, 'm') => if t == "millón" then Scale(Million) else Unknown
      case (6, 'q') => if t == "quince" then Plain(15) else Unknown
      case (6, 'v') => if t == "veinte" then Plain(20) else Unknown
      case (7, 'c') => if t == "catorce" then Plain(14) else Unknown
      case (7, 'n') => if t == "noventa" then Plain(90) else Unknown
      case (7, 'o') => if t == "ochenta" then Plain(80) else Unknown
      case (7, 's') => if t == "sesenta" then Plain(60) else if t == "setenta" then Plain(70) else Unknown
      case (7, 't') => if t == "trillón" then Scale(Trillion) else if t == "treinta" then Plain(30) else Unknown
      case (8, 'b') => if t == "billones" then Scale(Billion) else Unknown
      case (8, 'c') => if t == "cuarenta" then Plain(40) else Unknown
      case (8, 'm') => if t == "millones" then Scale(Million) else Unknown
      case (9, 'c') => if t == "cincuenta" then Plain(50) else Unknown
      case (9, 'd') => if t == "dieciséis" then Plain(16) else if t == "dieciocho" then Plain(18) else Unknown
      case (9, 't') => if t == "trillones" then Scale(Trillion) else Unknown
      case (10, 'd') => if t == "diecisiete" then Plain(17) else if t == "diecinueve" then Plain(19) else if t == "doscientos" then Plain(200) else Unknown
      case (10, 'q') => if t == "quintillón" then Scale(Quintillion) else if t == "quinientos" then Plain(500) else Unknown
      case (11, 'n') => if t == "novecientos" then Plain(900) else Unknown
      case (11, 'o') => if t == "ochocientos" then Plain(800) else Unknown
      case (11, 's') => if t == "seiscientos" then Plain(600) else if t == "setecientos" then Plain(700) else Unknown
      case (11, 't') => if t == "trescientos" then Plain(300) else Unknown
      case (12, 'q') => if t == "quintillones" then Scale(Quintillion) else Unknown
      case (13, 'c') => if t == "cuatrocientos" then Plain(400) else Unknown
      case _ => Unknown
  }

  /** Every piece lexed. */
  function LexAll(ts: seq<string>): (ws: seq<Word>)
    ensures |ws| == |ts|
  {
    seq(|ts|, i requires 0 <= i < |ts| => Lex(ts[i]))
  }

  function ScaleOf(w: Word): nat {
    if w.Scale? then w.size else 0
  }

  function ValueOf(w: Word): nat {
    if w.Plain? then w.value else 0
  }

  function Max(a: nat, b: nat): nat {
    if a >= b then a else b
  }

  /** The largest scale named in `ws`, or 0. */
  function MaxScale(ws: seq<Word>): (s: nat)
    ensures forall i :: 0 <= i < |ws| ==> ScaleOf(ws[i]) <= s
  {
    if ws == [] then 0
    else
      var rest := MaxScale(ws[1..]);
      assert forall i :: 1 <= i < |ws| ==> ws[i] == ws[1..][i - 1];
      Max(ScaleOf(ws[0]), rest)
  }

  /** Index of the last word of scale `s` in `ws`, or -1. */
  function LastAt(ws: seq<Word>, s: nat): (k: int)
    ensures -1 <= k < |ws|
    ensures k >= 0 ==> ScaleOf(ws[k]) == s
    ensures forall j :: k < j < |ws| ==> ScaleOf(ws[j]) != s
  {
    if ws == [] then -1
    else if ScaleOf(ws[|ws| - 1]) == s then |ws| - 1
    else LastAt(ws[..|ws| - 1], s)
  }

  /** The sum of the plain values of `ws`. */
  function Sum(ws: seq<Word>): nat {
    if ws == [] then 0 else ValueOf(ws[0]) + Sum(ws[1..])
  }

  /** The number a sequence of words reads as. */
  function Eval(ws: seq<Word>): nat
    decreases |ws|
  {
    var s := MaxScale(ws);
    var k := LastAt(ws, s);
    if s == 0 || k < 0 then Sum(ws)
    else
      var count := if k == 0 then 1 else Eval(ws[..k]);
      NatProduct(count, s);
      count * s + Eval(ws[k + 1..])
  }

  lemma NatProduct(a: nat, b: nat)
    ensures a * b >= 0
  {
  }

  /** The number a text of space-separated words reads as. */
  function Read(text: string): nat {
    Eval(LexAll(Split(text)))
  }

  /** A word the wordifier writes: known, and naming one of its scales if any. */
  predicate IsNumberWord(w: Word) {
    w != Unknown && (w.Scale? ==> w.size in {Thousand, Million, Billion, Trillion, Quintillion})
  }

  predicate AllNumberWords(ws: seq<Word>) {
    forall i :: 0 <= i < |ws| ==> IsNumberWord(ws[i])
  }

  /** The words of `n` as the wordifier writes them, one per element. */
  function Tokens(n: nat): seq<Word> {
    LexAll(Split(Words(n)))
  }

  /** The words of a remainder: none for zero. */
  function TailTokens(r: nat): seq<Word> {
    if r == 0 then [] else Tokens(r)
  }

  /** `ws` reads as `n`, names no scale above `n`, and holds only number words. */
  predicate ReadsAs(ws: seq<Word>, n: nat) {
    Eval(ws) == n && MaxScale(ws) <= n && MaxScale(ws) <= Quintillion && AllNumberWords(ws)
  }

  // ----- Lemmas about the reading functions -----

  lemma LexAllAppend(a: seq<string>, b: seq<string>)
    ensures LexAll(a + b) == LexAll(a) + LexAll(b)
  {
    assert forall i :: 0 <= i < |a + b| ==> LexAll(a + b)[i] == (LexAll(a) + LexAll(b))[i];
  }

  lemma {:induction false} MaxScaleAppend(a: seq<Word>, b: seq<Word>)
    ensures MaxScale(a + b) == Max(MaxScale(a), MaxScale(b))
  {
    if a != [] {
      assert (a + b)[1..] == a[1..] + b;
      MaxScaleAppend(a[1..], b);
    } else {
      assert a + b == b;
    }
  }

  /** Number words name no scale, or one of at least a thousand. */
  lemma {:induction false} MaxScaleOfNumberWords(ws: seq<Word>)
    requires AllNumberWords(ws)
    ensures MaxScale(ws) == 0 || MaxScale(ws) >= Thousand
  {
    if ws != [] {
      assert forall i :: 0 <= i < |ws[1..]| ==> ws[1..][i] == ws[i + 1];
      MaxScaleOfNumberWords(ws[1..]);
      assert IsNumberWord(ws[0]);
    }
  }

  lemma {:induction false} SumAppend(a: seq<Word>, b: seq<Word>)
    ensures Sum(a + b) == Sum(a) + Sum(b)
  {
    if a != [] {
      assert (a + b)[1..] == a[1..] + b;
      SumAppend(a[1..], b);
    } else {
      assert a + b == b;
    }
  }

  lemma {:induction false} LastAtUnique(ws: seq<Word>, s: nat, k: nat)
    requires k < |ws| && ScaleOf(ws[k]) == s
    requires forall j :: k < j < |ws| ==> ScaleOf(ws[j]) != s
    ensures LastAt(ws, s) == k
    decreases |ws|
  {
    if k < |ws| - 1 {
      var init := ws[..|ws| - 1];
      assert init[k] == ws[k];
      assert forall j :: k < j < |init| ==> init[j] == ws[j];
      LastAtUnique(init, s, k);
    }
  }

  lemma AllNumberWordsAppend(a: seq<Word>, b: seq<Word>)
    requires AllNumberWords(a) && AllNumberWords(b)
    ensures AllNumberWords(a + b)
  {
    forall i | 0 <= i < |a + b| ensures IsNumberWord((a + b)[i]) {
      if i >= |a| {
        assert (a + b)[i] == b[i - |a|];
      }
    }
  }

  /** In a scale tier, the scale word is the last word of the largest scale. */
  lemma ScaleWordIsLast(p: nat, w: Word, head: seq<Word>, tail: seq<Word>)
    requires ScaleOf(w) == p && p > 0
    requires MaxScale(head) <= p && MaxScale(tail) < p
    ensures MaxScale(head + [w] + tail) == p
    ensures LastAt(head + [w] + tail, p) == |head|
  {
    var ws := head + [w] + tail;
    MaxScaleAppend(head, [w]);
    MaxScaleAppend(head + [w], tail);
    assert MaxScale([w]) == p;
    assert ws[|head|] == w;
    assert forall j :: |head| < j < |ws| ==> ws[j] == tail[j - |head| - 1];
    LastAtUnique(ws, p, |head|);
  }

  /** Reading at a scale word: the count before it times the scale, plus what follows. */
  lemma ScaledEval(p: nat, w: Word, head: seq<Word>, tail: seq<Word>)
    requires ScaleOf(w) == p && p > 0
    requires MaxScale(head) <= p && MaxScale(tail) < p
    ensures Eval(head + [w] + tail) == (if head == [] then 1 else Eval(head)) * p + Eval(tail)
  {
    var ws := head + [w] + tail;
    var k := |head|;
    ScaleWordIsLast(p, w, head, tail);
    assert Eval(ws) == (if k == 0 then 1 else Eval(ws[..k])) * p + Eval(ws[k + 1..]);
    assert ws[..k] == head;
    assert ws[k + 1..] == tail;
  }

  /**
   * The shape of every scale tier: `head` counts how many of scale `p`
   * (nothing standing for one), the scale word follows, then the remainder.
   */
  lemma ScaledReads(q: nat, p: nat, w: Word, r: nat, head: seq<Word>, tail: seq<Word>)
    requires IsNumberWord(w) && ScaleOf(w) == p && p > 0 && r < p
    requires (head == [] && q == 1) || (head != [] && ReadsAs(head, q) && q >= 1)
    requires MaxScale(head) <= p
    requires ReadsAs(tail, r)
    ensures ReadsAs(head + [w] + tail, q * p + r)
  {
    ScaleWordIsLast(p, w, head, tail);
    ScaledEval(p, w, head, tail);
    assert p <= q * p by {
      MulAtLeast(q, p);
    }
    assert AllNumberWords([w]);
    AllNumberWordsAppend(head, [w]);
    AllNumberWordsAppend(head + [w], tail);
  }

  lemma MulAtLeast(q: nat, p: nat)
    requires q >= 1
    ensures p <= q * p
  {
  }

  /** A word below the scales, followed by the remainder below it. */
  lemma PlainFollowedBy(w: Word, r: nat, tail: seq<Word>)
    requires w.Plain? && w.value > 0
    requires r < Thousand && ReadsAs(tail, r)
    ensures ReadsAs([w] + tail, w.value + r)
  {
    MaxScaleOfNumberWords(tail);
    MaxScaleAppend([w], tail);
    SumAppend([w], tail);
    assert AllNumberWords([w]);
    AllNumberWordsAppend([w], tail);
  }

  // ----- The wordifier's vocabulary -----

  lemma UnitWord(i: nat)
    requires 1 <= i < 10
    ensures Lex(Units[i]) == Plain(i) && TableWord(Units[i]) == Plain(i) && ' ' !in Units[i]
  {
  }

  lemma TeenWord(i: nat)
    requires 0 <= i < 10
    ensures Lex(Teens[i]) == Plain(10 + i) && ' ' !in Teens[i]
  {
  }

  lemma TensWord(i: nat)
    requires 2 <= i < 10
    ensures Lex(Tens[i]) == Plain(10 * i) && ' ' !in Tens[i]
  {
  }

  lemma HundredsWord(i: nat)
    requires 1 <= i < 10
    ensures Lex(Hundreds[i]) == Plain(100 * i) && ' ' !in Hundreds[i]
  {
    if i < 5 {
      LowHundredsWord(i);
    } else {
      HighHundredsWord(i);
    }
  }

  lemma LowHundredsWord(i: nat)
    requires 1 <= i < 5
    ensures Lex(Hundreds[i]) == Plain(100 * i) && ' ' !in Hundreds[i]
  {
  }

  lemma HighHundredsWord(i: nat)
    requires 5 <= i < 10
    ensures Lex(Hundreds[i]) == Plain(100 * i) && ' ' !in Hundreds[i]
  {
  }

  /** "veinteiuno" … "veinteinueve", one word each. */
  lemma TwentyWord(u: nat)
    requires 1 <= u < 10
    ensures Lex("veinte" + "i" + Units[u]) == Plain(20 + u) && ' ' !in "veinte" + "i" + Units[u]
  {
    var w := "veinte" + "i" + Units[u];
    UnitWord(u);
    assert w[..7] == "veintei";
    assert w[7..] == Units[u];
    assert w == "veintei" + Units[u];
  }

  /** The scale words. */
  lemma ScaleWords()
    ensures Lex("mil") == Scale(Thousand)
    ensures Lex("millón") == Scale(Million) && Lex("millones") == Scale(Million)
    ensures Lex("billón") == Scale(Billion) && Lex("billones") == Scale(Billion)
    ensures Lex("trillón") == Scale(Trillion) && Lex("trillones") == Scale(Trillion)
    ensures Lex("quintillón") == Scale(Quintillion) && Lex("quintillones") == Scale(Quintillion)
  {
  }

  /** The words that are in no table: "un", "y", "cien". */
  lemma ShortWords()
    ensures Lex("un") == Plain(1) && Lex("y") == Connector && Lex("cien") == Plain(100)
  {
  }

  /** A text without spaces is one word. */
  lemma OneWord(s: string)
    requires ' ' !in s
    ensures LexAll(Split(s)) == [Lex(s)]
  {
    SplitNoSpace(s);
  }

  /** A group's words, then the remainder's. */
  lemma TierTokens(head: string, r: nat)
    ensures LexAll(Split(Then(head, Rest(r, Words(r))))) == LexAll(Split(head)) + TailTokens(r)
  {
    if r == 0 {
      assert LexAll(Split(head)) + [] == LexAll(Split(head));
    } else {
      SplitJoin(head, Words(r));
      LexAllAppend(Split(head), Split(Words(r)));
    }
  }

  /** Words followed by a scale name. */
  lemma NamedHead(x: string, name: string)
    requires ' ' !in name
    ensures LexAll(Split(x + " " + name)) == LexAll(Split(x)) + [Lex(name)]
  {
    SplitJoin(x, name);
    SplitNoSpace(name);
    LexAllAppend(Split(x), [name]);
  }

  /** A plain word alone reads as its value. */
  lemma PlainAlone(w: Word)
    requires w.Plain? && w.value > 0
    ensures ReadsAs([w], w.value)
  {
    PlainFollowedBy(w, 0, []);
    assert [w] + [] == [w];
  }

  // ----- The words of each tier -----

  lemma HundredTokens()
    ensures Tokens(100) == [Plain(100)]
  {
    assert Words(100) == "cien";
    ShortWords();
    OneWord("cien");
  }

  lemma TeenTokens(n: nat)
    requires 10 <= n < 20
    ensures Tokens(n) == [Plain(n)]
  {
    assert Words(n) == Teens[n - 10];
    TeenWord(n - 10);
    OneWord(Teens[n - 10]);
  }

  lemma UnitTokens(n: nat)
    requires 0 < n < 10
    ensures Tokens(n) == [Plain(n)]
  {
    assert Words(n) == Units[n];
    UnitWord(n);
    OneWord(Units[n]);
  }

  /** "veinte", "treinta", … "noventa". */
  lemma RoundTensTokens(n: nat)
    requires 20 <= n < 100 && n % 10 == 0
    ensures Tokens(n) == [Plain(n)]
  {
    var t := n / 10;
    assert 10 * t == n;
    assert Words(n) == Tens[t] + "";
    assert Tens[t] + "" == Tens[t];
    TensWord(t);
    OneWord(Tens[t]);
  }

  /** "veinteiuno" … "veinteinueve". */
  lemma TwentiesTokens(n: nat)
    requires 20 < n < 30
    ensures Tokens(n) == [Plain(n)]
  {
    var u := n % 10;
    assert Words(n) == "veinte" + ("i" + Units[u]);
    assert "veinte" + ("i" + Units[u]) == "veinte" + "i" + Units[u];
    TwentyWord(u);
    OneWord(Words(n));
  }

  /** "treinta y uno" … "noventa y nueve". */
  lemma JoinedTensTokens(n: nat)
    requires 30 < n < 100 && n % 10 != 0
    ensures Tokens(n) == [Plain(10 * (n / 10)), Connector, Plain(n % 10)]
  {
    var t, u := n / 10, n % 10;
    assert Words(n) == Tens[t] + " y " + Units[u];
    JoinedSplit(t, u);
    LexThree(Tens[t], "y", Units[u]);
    TensWord(t);
    UnitWord(u);
    ShortWords();
  }

  lemma JoinedSplit(t: nat, u: nat)
    requires 3 <= t < 10 && 1 <= u < 10
    ensures Split(Tens[t] + " y " + Units[u]) == [Tens[t], "y", Units[u]]
  {
    TensWord(t);
    UnitWord(u);
    assert Tens[t] + " y " + Units[u] == Tens[t] + " " + ("y" + " " + Units[u]);
    SplitJoin(Tens[t], "y" + " " + Units[u]);
    SplitJoin("y", Units[u]);
    SplitNoSpace("y");
    SplitNoSpace(Tens[t]);
    SplitNoSpace(Units[u]);
  }

  lemma LexThree(a: string, b: string, c: string)
    ensures LexAll([a, b, c]) == [Lex(a), Lex(b), Lex(c)]
  {
  }

  lemma HundredsTokens(n: nat)
    requires 100 < n < Thousand
    ensures Tokens(n) == [Plain(100 * (n / 100))] + TailTokens(n % 100)
  {
    var h, r := n / 100, n % 100;
    assert Words(n) == Then(Hundreds[h], Rest(r, Words(r)));
    TierTokens(Hundreds[h], r);
    HundredsWord(h);
    OneWord(Hundreds[h]);
  }

  /** The tokens of a tier: the count's words, the scale word, the remainder's words. */
  lemma NamedTokens(head: string, name: string, r: nat)
    requires head != [] && ' ' !in name
    ensures LexAll(Split(Scaled(head, name, Rest(r, Words(r)))))
         == LexAll(Split(head)) + [Lex(name)] + TailTokens(r)
  {
    TierTokens(head + " " + name, r);
    NamedHead(head, name);
  }

  lemma OneThousandTokens(n: nat)
    requires Thousand <= n < 2 * Thousand
    ensures Tokens(n) == [] + [Scale(Thousand)] + TailTokens(n % Thousand)
  {
    var r := n % Thousand;
    assert Words(n) == Then("mil", Rest(r, Words(r)));
    TierTokens("mil", r);
    ScaleWords();
    OneWord("mil");
    assert [] + [Scale(Thousand)] == [Scale(Thousand)];
  }

  lemma ThousandsTokens(n: nat)
    requires 2 * Thousand <= n < Million
    ensures Tokens(n) == Tokens(n / Thousand) + [Scale(Thousand)] + TailTokens(n % Thousand)
  {
    var q, r := n / Thousand, n % Thousand;
    assert Words(n) == Scaled(Words(q), "mil", Rest(r, Words(r)));
    NamedTokens(Words(q), "mil", r);
    ScaleWords();
  }

  lemma OneMillionTokens(n: nat)
    requires Million <= n < 2 * Million
    ensures Tokens(n) == [Plain(1)] + [Scale(Million)] + TailTokens(n % Million)
  {
    var r := n % Million;
    assert Words(n) == Then("un millón", Rest(r, Words(r)));
    TierTokens("un millón", r);
    OneMillion();
    assert [Plain(1)] + [Scale(Million)] == [Plain(1), Scale(Million)];
  }

  /** "un millón" is two words. */
  lemma OneMillion()
    ensures LexAll(Split("un millón")) == [Plain(1), Scale(Million)]
  {
    assert "un millón" == "un" + " " + "millón";
    NamedHead("un", "millón");
    ScaleWords();
    ShortWords();
    OneWord("un");
  }

  lemma MillionsTokens(n: nat)
    requires 2 * Million <= n < Billion
    ensures Tokens(n) == Tokens(n / Million) + [Scale(Million)] + TailTokens(n % Million)
  {
    var q, r := n / Million, n % Million;
    assert Words(n) == Scaled(Words(q), "millones", Rest(r, Words(r)));
    NamedTokens(Words(q), "millones", r);
    ScaleWords();
  }

  lemma BillionsTokens(n: nat)
    requires Billion <= n < Trillion
    ensures Tokens(n) == Tokens(n / Billion) + [Scale(Billion)] + TailTokens(n % Billion)
  {
    var q, r := n / Billion, n % Billion;
    var name := if q == 1 then "billón" else "billones";
    assert Words(n) == Scaled(Words(q), name, Rest(r, Words(r)));
    NamedTokens(Words(q), name, r);
    ScaleWords();
  }

  lemma TrillionsTokens(n: nat)
    requires Trillion <= n < Quintillion
    ensures Tokens(n) == Tokens(n / Trillion) + [Scale(Trillion)] + TailTokens(n % Trillion)
  {
    var q, r := n / Trillion, n % Trillion;
    var name := if q == 1 then "trillón" else "trillones";
    assert Words(n) == Scaled(Words(q), name, Rest(r, Words(r)));
    NamedTokens(Words(q), name, r);
    ScaleWords();
  }

  lemma QuintillionsTokens(n: nat)
    requires Quintillion <= n
    ensures Tokens(n) == Tokens(n / Quintillion) + [Scale(Quintillion)] + TailTokens(n % Quintillion)
  {
    var q, r := n / Quintillion, n % Quintillion;
    var name := if q == 1 then "quintillón" else "quintillones";
    assert Words(n) == Scaled(Words(q), name, Rest(r, Words(r)));
    NamedTokens(Words(q), name, r);
    ScaleWords();
  }

  // ----- Reading back what the wordifier writes -----

  /** The words of every positive number read back as that number. */
  lemma {:induction false} ReadBack(n: nat)
    requires n > 0
    ensures ReadsAs(Tokens(n), n)
    decreases n, 1
  {
    if n < 100 || n == 100 {
      BelowHundredRead(n);
    } else if n < Thousand {
      HundredsRead(n);
    } else if n < 2 * Thousand {
      OneThousandRead(n, n % Thousand);
    } else if n < Million {
      ThousandsTokens(n);
      CountedRead(n, Thousand, n / Thousand, n % Thousand);
    } else if n < 2 * Million {
      OneMillionRead(n, n % Million);
    } else if n < Billion {
      MillionsTokens(n);
      CountedRead(n, Million, n / Million, n % Million);
    } else if n < Trillion {
      BillionsTokens(n);
      CountedRead(n, Billion, n / Billion, n % Billion);
    } else if n < Quintillion {
      TrillionsTokens(n);
      CountedRead(n, Trillion, n / Trillion, n % Trillion);
    } else {
      QuintillionsTokens(n);
      CountedRead(n, Quintillion, n / Quintillion, n % Quintillion);
    }
  }

  lemma TailReads(r: nat)
    ensures ReadsAs(TailTokens(r), r)
    decreases r, 2
  {
    if r > 0 {
      ReadBack(r);
    }
  }

  lemma HundredsRead(n: nat)
    requires 100 < n < Thousand
    ensures ReadsAs(Tokens(n), n)
    decreases n, 0
  {
    var h, r := n / 100, n % 100;
    HundredsTokens(n);
    TailReads(r);
    PlainFollowedBy(Plain(100 * h), r, TailTokens(r));
  }

  /** "mil" alone counts one thousand. */
  lemma OneThousandRead(n: nat, r: nat)
    requires Thousand <= n < 2 * Thousand && r == n % Thousand && n == Thousand + r
    ensures ReadsAs(Tokens(n), n)
    decreases n, 0
  {
    OneThousandTokens(n);
    TailReads(r);
    ScaledReads(1, Thousand, Scale(Thousand), r, [], TailTokens(r));
  }

  /** "un millón" counts one million. */
  lemma OneMillionRead(n: nat, r: nat)
    requires Million <= n < 2 * Million && r == n % Million && n == Million + r
    ensures ReadsAs(Tokens(n), n)
    decreases n, 0
  {
    OneMillionTokens(n);
    PlainAlone(Plain(1));
    TailReads(r);
    ScaledReads(1, Million, Scale(Million), r, [Plain(1)], TailTokens(r));
  }

  /** A tier whose count is spelled out: read the count, then the scale, then the remainder. */
  lemma CountedRead(n: nat, p: nat, q: nat, r: nat)
    requires p in {Thousand, Million, Billion, Trillion, Quintillion}
    requires 1 <= q < n && r < n && r < p && n == q * p + r
    requires p == Quintillion || q < Thousand
    requires Tokens(n) == Tokens(q) + [Scale(p)] + TailTokens(r)
    ensures ReadsAs(Tokens(n), n)
    decreases n, 0
  {
    ReadBack(q);
    TailReads(r);
    ScaledReads(q, p, Scale(p), r, Tokens(q), TailTokens(r));
  }

  /** Up to one hundred: one word, or a tens word, "y" and a unit word. */
  lemma BelowHundredRead(n: nat)
    requires 0 < n <= 100
    ensures ReadsAs(Tokens(n), n)
  {
    if n == 100 {
      HundredTokens();
    } else if n < 10 {
      UnitTokens(n);
    } else if n < 20 {
      TeenTokens(n);
    } else if n % 10 == 0 {
      RoundTensTokens(n);
    } else if n < 30 {
      TwentiesTokens(n);
    } else {
      JoinedTensTokens(n);
      ConnectedUnit(n % 10);
      PlainFollowedBy(Plain(10 * (n / 10)), n % 10, [Connector, Plain(n % 10)]);
      assert [Plain(10 * (n / 10))] + [Connector, Plain(n % 10)] == Tokens(n);
      return;
    }
    PlainAlone(Plain(n));
  }

  lemma ConnectedUnit(u: nat)
    requires 1 <= u < 10
    ensures ReadsAs([Connector, Plain(u)], u)
  {
    var ws := [Connector, Plain(u)];
    assert ws[1..] == [Plain(u)] && [Plain(u)][1..] == [];
    assert MaxScale([Plain(u)]) == 0 && Sum([Plain(u)]) == u;
    assert MaxScale(ws) == 0 && Sum(ws) == u;
  }

  // ----- The wordifier and its reader -----

  /** Reading the wordifier's text gives back the number; zero's empty text reads as zero. */
  lemma WordsReadBack(n: nat)
    ensures Read(Words(n)) == n
  {
    if n > 0 {
      ReadBack(n);
    } else {
      assert LexAll(Split(Words(0))) == [Unknown];
    }
  }

  /** Two numbers are spelled alike exactly when they are equal. */
  lemma WordsInjective(a: nat, b: nat)
    ensures Words(a) == Words(b) <==> a == b
  {
    WordsReadBack(a);
    WordsReadBack(b);
  }

  /** A word the reader does not know, such as "con" or "cero", is never among the words of a positive number. */
  lemma UnknownNotWritten(n: nat, t: string)
    requires n > 0 && Lex(t) == Unknown
    ensures t !in Split(Words(n))
  {
    ReadBack(n);
    var ps := Split(Words(n));
    forall i | 0 <= i < |ps| ensures ps[i] != t {
      assert IsNumberWord(Tokens(n)[i]);
    }
  }
}

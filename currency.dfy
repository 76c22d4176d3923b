/** Brazilian-real amounts as the forms show them: an amount in centavos
    written the way Number.prototype.toLocaleString("pt-BR") writes it with
    exactly two fraction digits ("1.234,56"), the input mask that turns
    whatever was typed into such a text, and the parse the forms apply to
    read it back (drop every ".", turn the first "," into "."). */
module Currency {
  import opened Text
  import opened JsNumbers

  /** The digits of n with "." between groups of three, counted from the
      right, as pt-BR writes an integer part. */
  function Grouped(n: nat): (s: string)
    ensures s != [] && IsDigit(s[0]) && IsDigit(s[|s| - 1])
    ensures DigitsAndPoints(s)
  {
    if n < 1000 then NatToString(n)
    else
      var g := Grouped(n / 1000);
      var s := g + "." + PadDigits(n % 1000, 3);
      assert forall i :: 0 <= i < |g| ==> s[i] == g[i];
      s
  }

  /** The points of s stand exactly every fourth place counted from the
      right: the groups between them have three digits. */
  predicate PointsEveryFour(s: string) {
    forall i :: 0 <= i < |s| ==> (s[i] == '.' <==> (|s| - i) % 4 == 0)
  }

  /** Grouped(n) puts a point before every group of three digits counted
      from the right, and nowhere else. */
  lemma {:induction false} GroupedPoints(n: nat)
    ensures PointsEveryFour(Grouped(n))
  {
    if n < 1000 {
      ShortNatText(n);
      ShortDigitsNoPoint(NatToString(n));
    } else {
      GroupedPoints(n / 1000);
      GroupStep(Grouped(n / 1000), PadDigits(n % 1000, 3));
    }
  }

  /** A number below 1000 has at most three digits. */
  lemma ShortNatText(n: nat)
    requires n < 1000
    ensures |NatToString(n)| <= 3
  {
    if n >= 10 {
      assert |NatToString(n)| == |NatToString(n / 10)| + 1;
      if n / 10 >= 10 {
        assert |NatToString(n / 10)| == |NatToString(n / 100)| + 1;
      }
    }
  }

  lemma ShortDigitsNoPoint(s: string)
    requires AllDigits(s) && |s| <= 3
    ensures PointsEveryFour(s)
  {
    forall i | 0 <= i < |s|
      ensures s[i] != '.' && (|s| - i) % 4 != 0
    {
      assert 0 < |s| - i < 4;
    }
  }

  lemma GroupStep(g: string, p: string)
    requires PointsEveryFour(g) && AllDigits(p) && |p| == 3
    ensures PointsEveryFour(g + "." + p)
  {
    var s := g + "." + p;
    forall i | 0 <= i < |s|
      ensures s[i] == '.' <==> (|s| - i) % 4 == 0
    {
      if i < |g| {
        assert s[i] == g[i];
        ModFour(|g| - i);
      } else if i > |g| {
        assert s[i] == p[i - |g| - 1];
        assert 0 < |s| - i < 4;
      }
    }
  }

  lemma ModFour(k: int)
    ensures (k + 4) % 4 == k % 4
  {
  }

  predicate DigitsAndPoints(s: string) {
    forall i :: 0 <= i < |s| ==> IsDigit(s[i]) || s[i] == '.'
  }

  /** The text of a non-negative amount of a centavos. */
  function MoneyText(a: nat): string {
    Grouped(a / 100) + "," + PadDigits(a % 100, 2)
  }

  /** The parse's clean-up: drop every ".", turn the first "," into ".". */
  function Cleaned(s: string): string {
    ReplaceFirst(RemoveChar(s, '.'), ',', '.')
  }

  /** An amount of c centavos as toLocaleString("pt-BR", two fraction
      digits) writes c / 100: an optional "-", the grouped integer part, a
      "," and two digits. */
  function FormatMoney(c: int): string {
    var a: nat := if c < 0 then -c else c;
    (if c < 0 then "-" else "") + MoneyText(a)
  }

  /** The value, in centavos, of the digits typed into an amount field. */
  function TypedCentavos(s: string): nat {
    DigitsValue(Digits(s))
  }

  /** The amount mask of the donation and campaign forms: the digits typed
      are read as centavos; a text without digits becomes "". */
  function FormatCurrency(s: string): (r: string)
    ensures r == "" <==> Digits(s) == []
  {
    if Digits(s) == [] then "" else FormatMoney(TypedCentavos(s))
  }

  /** parseFloat(s.replace(/\./g, "").replace(",", ".")). */
  function ParseMoney(s: string): JsNumber {
    ParseFloat(Cleaned(s))
  }

  /** Removing the points of a text made of digits and points keeps its
      digits. */
  lemma {:induction false} RemovePointsIsDigits(s: string)
    requires DigitsAndPoints(s)
    ensures RemoveChar(s, '.') == Digits(s)
  {
    if s != [] {
      assert DigitsAndPoints(s[1..]) by {
        assert forall i :: 0 <= i < |s[1..]| ==> s[1..][i] == s[i + 1];
      }
      RemovePointsIsDigits(s[1..]);
    }
  }

  /** The digits of Grouped(n) read back as n. */
  lemma {:induction false} GroupedValue(n: nat)
    ensures Digits(Grouped(n)) != []
    ensures DigitsValue(Digits(Grouped(n))) == n
  {
    if n < 1000 {
      DigitsOfDigits(NatToString(n));
    } else {
      var g := Grouped(n / 1000);
      var p := PadDigits(n % 1000, 3);
      GroupedValue(n / 1000);
      DigitsConcat(g + ".", p);
      DigitsConcat(g, ".");
      DigitsOfDigits(p);
      assert Digits(Grouped(n)) == Digits(g) + p;
      DigitsValueConcat(Digits(g), p);
      assert Pow10(3) == 1000;
    }
  }

  /** The digits of the text of a non-negative amount, and their value. */
  lemma MoneyDigits(a: nat)
    ensures Digits(FormatMoney(a)) == Digits(Grouped(a / 100)) + PadDigits(a % 100, 2)
    ensures DigitsValue(Digits(FormatMoney(a))) == a
    ensures |Digits(FormatMoney(a))| >= 3
  {
    var g := Grouped(a / 100);
    var p := PadDigits(a % 100, 2);
    assert FormatMoney(a) == g + "," + p;
    DigitsConcat(g + ",", p);
    DigitsConcat(g, ",");
    DigitsOfDigits(p);
    GroupedValue(a / 100);
    DigitsValueConcat(Digits(g), p);
    assert Pow10(2) == 100;
  }

  /** What the parse sees of the text of a non-negative amount a: the
      digits of the integer part, a ".", and the two centavo digits. */
  lemma UnsignedMoneyText(a: nat) returns (g: string, p: string)
    ensures AllDigits(g) && g != [] && AllDigits(p) && |p| == 2
    ensures DigitsValue(g) * 100 + DigitsValue(p) == a
    ensures Cleaned(MoneyText(a)) == g + "." + p
  {
    var gr := Grouped(a / 100);
    p := PadDigits(a % 100, 2);
    g := Digits(gr);
    PointsRemoved(gr, p);
    CommaReplaced(g, p);
    GroupedValue(a / 100);
  }

  /** Removing the points of "gr,p" leaves the digits of gr, "," and p. */
  lemma PointsRemoved(gr: string, p: string)
    requires DigitsAndPoints(gr) && AllDigits(p)
    ensures RemoveChar(gr + "," + p, '.') == Digits(gr) + "," + p
  {
    RemoveCharConcat(gr + ",", p, '.');
    RemoveCharConcat(gr, ",", '.');
    RemovePointsIsDigits(gr);
    RemoveCharAbsent(p, '.');
    assert RemoveChar(",", '.') == ",";
  }

  /** In "g,p" with g made of digits, the first "," is the one after g. */
  lemma CommaReplaced(g: string, p: string)
    requires AllDigits(g)
    ensures ReplaceFirst(g + "," + p, ',', '.') == g + "." + p
  {
    DigitsAreNotComma(g);
    ReplaceFirstSkips(g, "," + p, ',', '.');
    assert g + "," + p == g + ("," + p);
    assert g + "." + p == g + ("." + p);
  }

  lemma DigitsAreNotComma(s: string)
    requires AllDigits(s)
    ensures ',' !in s
  {
  }

  /** The cleaned text of a non-negative amount starts with a digit and
      reads back as that amount exactly. */
  lemma UnsignedMoneyRoundTrip(a: nat) returns (t: string)
    ensures Cleaned(MoneyText(a)) == t
    ensures t != [] && IsDigit(t[0])
    ensures ParseFloat(t) == Finite(Decimal(a, -2))
  {
    var g, p := UnsignedMoneyText(a);
    t := g + "." + p;
    assert t[0] == g[0];
    MoneyPointParse(g, p, a);
  }

  lemma MoneyPointParse(g: string, p: string, a: nat)
    requires AllDigits(g) && g != [] && AllDigits(p) && |p| == 2
    requires DigitsValue(g) * 100 + DigitsValue(p) == a
    ensures ParseFloat(g + "." + p) == Finite(Decimal(a, -2))
  {
    ParseDigitsPointDigits(g, p);
    CentavoDigits(g, p, a);
    SameDecimal(ParseFloat(g + "." + p), DigitsValue(g + p), |p|, a);
  }

  lemma CentavoDigits(g: string, p: string, a: nat)
    requires |p| == 2 && DigitsValue(g) * 100 + DigitsValue(p) == a
    ensures DigitsValue(g + p) == a
  {
    DigitsValueConcat(g, p);
    assert Pow10(2) == 100;
  }

  lemma SameDecimal(x: JsNumber, m: int, n: int, a: int)
    requires x == Finite(Decimal(m, -n)) && m == a && n == 2
    ensures x == Finite(Decimal(a, -2))
  {
  }

  /** The forms read the text of any amount of c centavos back as exactly
      c / 100. */
  lemma ParseFormatMoney(c: int)
    ensures ParseMoney(FormatMoney(c)) == Finite(Decimal(c, -2))
  {
    var a: nat := if c < 0 then -c else c;
    var t := UnsignedMoneyRoundTrip(a);
    if c >= 0 {
      assert FormatMoney(c) == MoneyText(a);
      ParseOfCleaned(FormatMoney(c), t);
    } else {
      assert FormatMoney(c) == "-" + MoneyText(a);
      SignCleaned(MoneyText(a), t);
      ParseOfCleaned(FormatMoney(c), "-" + t);
      ParseNegative(t);
      NegateFinite(ParseFloat(t), Decimal(a, -2));
    }
  }

  lemma ParseOfCleaned(s: string, t: string)
    requires Cleaned(s) == t
    ensures ParseMoney(s) == ParseFloat(t)
  {
  }

  /** The clean-up keeps a leading "-". */
  lemma SignCleaned(u: string, t: string)
    requires Cleaned(u) == t
    ensures Cleaned("-" + u) == "-" + t
  {
    RemoveCharConcat("-", u, '.');
    assert RemoveChar("-", '.') == "-";
    ReplaceFirstSkips("-", RemoveChar(u, '.'), ',', '.');
  }

  /** Masking an already masked amount changes nothing. */
  lemma FormatCurrencyIdempotent(s: string)
    ensures FormatCurrency(FormatCurrency(s)) == FormatCurrency(s)
  {
    if Digits(s) != [] {
      MoneyDigits(TypedCentavos(s));
    }
  }

  /** The masked text keeps the centavos that were typed. */
  lemma MaskedCentavos(s: string)
    ensures TypedCentavos(FormatCurrency(s)) == TypedCentavos(s)
  {
    if Digits(s) != [] {
      MoneyDigits(TypedCentavos(s));
    }
  }

  lemma {:induction false} TypedAppend(f: string, d: char)
    requires IsDigit(d)
    ensures Digits(f + [d]) == Digits(f) + [d]
    ensures TypedCentavos(f + [d]) == TypedCentavos(f) * 10 + DigitVal(d)
  {
    DigitsConcat(f, [d]);
    assert Digits([d]) == [d];
    var ds := Digits(f) + [d];
    assert ds[..|ds| - 1] == Digits(f);
  }

  /** Typing a digit at the end of a masked amount shifts the centavos one
      place left and adds the digit. */
  lemma TypeDigit(s: string, d: char)
    requires IsDigit(d)
    ensures FormatCurrency(FormatCurrency(s) + [d]) == FormatMoney(TypedCentavos(s) * 10 + DigitVal(d))
  {
    MaskedCentavos(s);
    TypedAppend(FormatCurrency(s), d);
  }

  /** Deleting the last character of a masked amount drops its last
      centavo digit. */
  lemma DeleteDigit(s: string)
    requires FormatCurrency(s) != ""
    ensures var f := FormatCurrency(s);
      FormatCurrency(f[..|f| - 1]) == FormatMoney(TypedCentavos(s) / 10)
  {
    var f := FormatCurrency(s);
    MaskedEndsInDigit(s);
    assert f == f[..|f| - 1] + [f[|f| - 1]];
    DeleteLast(f[..|f| - 1], f[|f| - 1], TypedCentavos(s));
  }

  /** A non-empty mask ends in a digit and holds at least three digits. */
  lemma MaskedEndsInDigit(s: string)
    requires FormatCurrency(s) != ""
    ensures var f := FormatCurrency(s);
      IsDigit(f[|f| - 1]) && |Digits(f)| >= 3 && TypedCentavos(f) == TypedCentavos(s)
  {
    var c := TypedCentavos(s);
    MoneyDigits(c);
    var p := PadDigits(c % 100, 2);
    assert FormatMoney(c) == Grouped(c / 100) + "," + p;
  }

  lemma DeleteLast(pre: string, last: char, c: nat)
    requires IsDigit(last) && |Digits(pre + [last])| >= 3 && TypedCentavos(pre + [last]) == c
    ensures FormatCurrency(pre) == FormatMoney(c / 10)
  {
    TypedAppend(pre, last);
    DivTen(TypedCentavos(pre), DigitVal(last), c);
    MaskOf(pre, c / 10);
  }

  lemma MaskOf(s: string, c: nat)
    requires Digits(s) != [] && TypedCentavos(s) == c
    ensures FormatCurrency(s) == FormatMoney(c)
  {
  }

  lemma DivTen(x: nat, d: nat, c: nat)
    requires d < 10 && c == x * 10 + d
    ensures c / 10 == x
  {
  }
}

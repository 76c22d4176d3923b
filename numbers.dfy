/** JavaScript numbers as the forms and handlers use them: parseFloat on a
    string, Number.prototype.toString, and integers written as digit
    strings. Values are exact decimals; the rounding of IEEE doubles is not
    modelled. */
module JsNumbers {
  import opened Text

  function Pow10(n: nat): (p: nat)
    ensures p >= 1
  {
    if n == 0 then 1 else 10 * Pow10(n - 1)
  }

  lemma {:induction false} Pow10Add(a: nat, b: nat)
    ensures Pow10(a + b) == Pow10(a) * Pow10(b)
  {
    if a > 0 {
      Pow10Add(a - 1, b);
    }
  }

  function DigitVal(c: char): nat {
    if IsDigit(c) then (c as int - '0' as int) else 0
  }

  function DigitChar(d: nat): (c: char)
    requires d < 10
    ensures IsDigit(c) && DigitVal(c) == d
  {
    ('0' as int + d) as char
  }

  /** The value of a digit string read in base 10 ("" reads as 0). */
  function DigitsValue(s: string): nat {
    if s == [] then 0 else DigitsValue(s[..|s| - 1]) * 10 + DigitVal(s[|s| - 1])
  }

  /** (x * p + y) * 10 + d == x * (p * 10) + (y * 10 + d): the one step of
      arithmetic behind DigitsValueConcat, kept apart from sequence facts. */
  lemma ShiftStep(x: int, p: int, y: int, d: int)
    ensures (x * p + y) * 10 + d == x * (p * 10) + (y * 10 + d)
  {
  }

  lemma {:induction false} DigitsValueConcat(a: string, b: string)
    ensures DigitsValue(a + b) == DigitsValue(a) * Pow10(|b|) + DigitsValue(b)
    decreases |b|
  {
    if b == [] {
      assert a + b == a;
    } else {
      var b' := b[..|b| - 1];
      assert (a + b)[..|a + b| - 1] == a + b';
      assert (a + b)[|a + b| - 1] == b[|b| - 1];
      DigitsValueConcat(a, b');
      ShiftStep(DigitsValue(a), Pow10(|b'|), DigitsValue(b'), DigitVal(b[|b| - 1]));
    }
  }

  /** A digit string's value is below 10 to the power of its length. */
  lemma {:induction false} DigitsValueBound(s: string)
    ensures DigitsValue(s) < Pow10(|s|)
  {
    if s != [] {
      DigitsValueBound(s[..|s| - 1]);
    }
  }

  /** String(n) for a natural number: decimal digits, no leading zero. */
  function NatToString(n: nat): (s: string)
    ensures s != [] && AllDigits(s)
    ensures DigitsValue(s) == n
    ensures s[0] != '0' || n == 0
  {
    if n < 10 then [DigitChar(n)]
    else
      var s := NatToString(n / 10) + [DigitChar(n % 10)];
      assert s[..|s| - 1] == NatToString(n / 10);
      s
  }

  /** The last `width` decimal digits of n, padded on the left with zeros. */
  function PadDigits(n: nat, width: nat): (s: string)
    requires n < Pow10(width)
    ensures |s| == width && AllDigits(s)
    ensures DigitsValue(s) == n
  {
    if width == 0 then []
    else
      var s := PadDigits(n / 10, width - 1) + [DigitChar(n % 10)];
      assert s[..|s| - 1] == PadDigits(n / 10, width - 1);
      s
  }

  /** A decimal number mantissa * 10^exponent. */
  datatype Decimal = Decimal(mantissa: int, exponent: int)

  /** The numbers parseFloat can produce (both zeros are one value here). */
  datatype JsNumber = NaN | PosInfinity | NegInfinity | Finite(value: Decimal)

  /** mantissa * 10^(exponent - k), an integer when k <= exponent. */
  function Scaled(d: Decimal, k: int): int
    requires k <= d.exponent
  {
    d.mantissa * Pow10(d.exponent - k)
  }

  /** Two decimals denote the same rational number. */
  predicate SameValue(a: Decimal, b: Decimal) {
    var k := if a.exponent <= b.exponent then a.exponent else b.exponent;
    Scaled(a, k) == Scaled(b, k)
  }

  /** `isNaN(x) || x <= 0` is false, i.e. the number is strictly positive. */
  predicate IsPositive(x: JsNumber) {
    x.PosInfinity? || (x.Finite? && x.value.mantissa > 0)
  }

  function Negate(x: JsNumber): JsNumber {
    match x
    case NaN => NaN
    case PosInfinity => NegInfinity
    case NegInfinity => PosInfinity
    case Finite(d) => Finite(Decimal(-d.mantissa, d.exponent))
  }

  /** The longest prefix of s made of digits. */
  function LeadingDigits(s: string): (r: string)
    ensures |r| <= |s| && AllDigits(r) && r == s[..|r|]
    ensures |r| == |s| || !IsDigit(s[|r|])
  {
    if s != [] && IsDigit(s[0]) then [s[0]] + LeadingDigits(s[1..]) else []
  }

  lemma {:induction false} LeadingDigitsOf(a: string, b: string)
    requires AllDigits(a)
    requires b == [] || !IsDigit(b[0])
    ensures LeadingDigits(a + b) == a
  {
    if a != [] {
      assert (a + b)[1..] == a[1..] + b;
      LeadingDigitsOf(a[1..], b);
    } else {
      assert a + b == b;
    }
  }

  /** The exponent part "e5", "E-3", "e+2" at the start of s, if any; a
      malformed exponent is ignored as parseFloat does. */
  function ExponentOf(s: string): int {
    if |s| >= 2 && (s[0] == 'e' || s[0] == 'E') then
      if s[1] == '+' || s[1] == '-' then
        var v: int := DigitsValue(LeadingDigits(s[2..]));
        if s[1] == '-' then -v else v
      else DigitsValue(LeadingDigits(s[1..]))
    else 0
  }

  predicate StartsWithInfinity(u: string) {
    |u| >= 8 && u[..8] == "Infinity"
  }

  /** The numeral after its integer digits `ip`: an optional point with
      fraction digits, then an optional exponent. */
  function ParseAfterInteger(ip: string, rest: string): JsNumber {
    if |rest| > 0 && rest[0] == '.' then
      var fp := LeadingDigits(rest[1..]);
      if ip == [] && fp == [] then NaN
      else Finite(Decimal(DigitsValue(ip + fp), ExponentOf(rest[1 + |fp|..]) - |fp|))
    else if ip == [] then NaN
    else Finite(Decimal(DigitsValue(ip), ExponentOf(rest)))
  }

  /** JavaScript's parseFloat on a string with no sign and no leading space:
      "Infinity", or digits with an optional fraction and exponent. Whatever
      follows the longest such prefix is ignored. */
  function ParseUnsigned(u: string): JsNumber {
    if StartsWithInfinity(u) then PosInfinity
    else
      var ip := LeadingDigits(u);
      ParseAfterInteger(ip, u[|ip|..])
  }

  /** JavaScript's parseFloat(s). */
  function ParseFloat(s: string): JsNumber {
    var t := TrimStart(s);
    if |t| > 0 && t[0] == '-' then Negate(ParseUnsigned(t[1..]))
    else if |t| > 0 && t[0] == '+' then ParseUnsigned(t[1..])
    else ParseUnsigned(t)
  }

  /** A string that starts with a digit is not trimmed and carries no sign. */
  lemma {:induction false} ParseFloatDigitFirst(u: string)
    requires u != [] && IsDigit(u[0])
    ensures ParseFloat(u) == ParseUnsigned(u)
    ensures !StartsWithInfinity(u)
  {
    assert TrimStart(u) == u;
  }

  /** parseFloat of digits, a point and digits reads exactly that decimal. */
  lemma {:induction false} ParseDigitsPointDigits(ip: string, fp: string)
    requires AllDigits(ip) && AllDigits(fp) && ip != []
    ensures ParseFloat(ip + "." + fp) == Finite(Decimal(DigitsValue(ip + fp), -|fp|))
  {
    var rest := "." + fp;
    var u := ip + rest;
    assert ip + "." + fp == u;
    assert u[0] == ip[0];
    ParseFloatDigitFirst(u);
    LeadingDigitsOf(ip, rest);
    assert u[|ip|..] == rest;
    assert rest[1..] == fp + "";
    LeadingDigitsOf(fp, "");
    assert rest[1 + |fp|..] == "";
    assert ExponentOf("") == 0;
    assert ParseAfterInteger(ip, rest) == Finite(Decimal(DigitsValue(ip + fp), -|fp|));
  }

  /** parseFloat of a sign-less digit string reads its value. */
  lemma {:induction false} ParseDigits(ds: string)
    requires AllDigits(ds) && ds != []
    ensures ParseFloat(ds) == Finite(Decimal(DigitsValue(ds), 0))
  {
    ParseFloatDigitFirst(ds);
    LeadingDigitsOf(ds, "");
    assert ds + "" == ds;
    assert ds[|ds|..] == "";
    assert ParseAfterInteger(ds, "") == Finite(Decimal(DigitsValue(ds), 0));
  }

  /** parseFloat of "-" followed by a numeral that starts with a digit
      negates that numeral's value. */
  lemma {:induction false} ParseNegative(u: string)
    requires u != [] && IsDigit(u[0])
    ensures ParseFloat("-" + u) == Negate(ParseFloat(u))
  {
    var s := "-" + u;
    assert TrimStart(s) == s;
    assert s[1..] == u;
    ParseFloatDigitFirst(u);
  }

  /** Removes the zeros at the end of a digit string. */
  function StripTrailingZeros(s: string): (r: string)
    ensures |r| <= |s| && r == s[..|r|]
    ensures r == [] || r[|r| - 1] != '0'
  {
    if s != [] && s[|s| - 1] == '0' then StripTrailingZeros(s[..|s| - 1]) else s
  }

  lemma TimesTenStep(x: int, p: int)
    ensures x * p * 10 == x * (10 * p)
  {
  }

  /** Stripping trailing zeros divides the value by a power of ten. */
  lemma {:induction false} StripTrailingZerosValue(s: string)
    ensures DigitsValue(s) == DigitsValue(StripTrailingZeros(s)) * Pow10(|s| - |StripTrailingZeros(s)|)
  {
    if s != [] && s[|s| - 1] == '0' {
      var s' := s[..|s| - 1];
      var f := StripTrailingZeros(s');
      StripTrailingZerosValue(s');
      assert StripTrailingZeros(s) == f;
      assert DigitsValue(s) == DigitsValue(s') * 10;
      assert |s| - |f| == (|s'| - |f|) + 1;
      TimesTenStep(DigitsValue(f), Pow10(|s'| - |f|));
    } else {
      assert StripTrailingZeros(s) == s;
    }
  }

  lemma MulNonNegative(x: nat, y: nat)
    ensures x * y >= 0
  {
  }

  lemma DivMod(m: nat, p: nat)
    requires p > 0
    ensures m / p >= 0 && 0 <= m % p < p
    ensures m == (m / p) * p + m % p
  {
  }

  /** The digits of m / 10^k and of m % 10^k written on k places. */
  function IntegerPart(m: nat, k: nat): nat {
    DivMod(m, Pow10(k));
    m / Pow10(k)
  }

  function FractionDigits(m: nat, k: nat): (f: string)
    ensures AllDigits(f) && |f| <= k
  {
    DivMod(m, Pow10(k));
    var f := StripTrailingZeros(PadDigits(m % Pow10(k), k));
    assert forall i :: 0 <= i < |f| ==> f[i] == PadDigits(m % Pow10(k), k)[i];
    f
  }

  /** Number.prototype.toString for a finite value written without an
      exponent: an optional "-", the integer part, and the fraction digits
      with trailing zeros removed (no point when there are none). */
  function DecimalToString(d: Decimal): string {
    var m: nat := if d.mantissa < 0 then -d.mantissa else d.mantissa;
    var sign := if d.mantissa < 0 then "-" else "";
    sign + UnsignedToString(m, d.exponent)
  }

  function UnsignedToString(m: nat, e: int): (s: string)
    ensures s != [] && IsDigit(s[0])
  {
    if e >= 0 then
      MulNonNegative(m, Pow10(e));
      NatToString(m * Pow10(e))
    else
      var f := FractionDigits(m, -e);
      if f == [] then NatToString(IntegerPart(m, -e)) else NatToString(IntegerPart(m, -e)) + "." + f
  }

  /** Two decimals agree when the one with the larger exponent, scaled down
      to the other's exponent, has the other's mantissa. */
  lemma SameValueByScaling(a: Decimal, b: Decimal)
    requires b.exponent <= a.exponent && Scaled(a, b.exponent) == b.mantissa
    ensures SameValue(a, b)
  {
    assert Scaled(b, b.exponent) == b.mantissa * 1;
  }

  /** Reading back the unsigned text of m * 10^e gives the same number. */
  lemma {:induction false} UnsignedRoundTrip(m: nat, e: int)
    ensures ParseFloat(UnsignedToString(m, e)).Finite?
    ensures SameValue(ParseFloat(UnsignedToString(m, e)).value, Decimal(m, e))
  {
    if e >= 0 {
      IntegerRoundTrip(m, e);
    } else {
      FractionRoundTrip(m, e);
    }
  }

  lemma {:induction false} IntegerRoundTrip(m: nat, e: int)
    requires e >= 0
    ensures ParseFloat(UnsignedToString(m, e)).Finite?
    ensures SameValue(ParseFloat(UnsignedToString(m, e)).value, Decimal(m, e))
  {
    MulNonNegative(m, Pow10(e));
    var n := m * Pow10(e);
    assert UnsignedToString(m, e) == NatToString(n);
    ParseDigits(NatToString(n));
    SameValueByScaling(Decimal(m, e), Decimal(n, 0));
  }

  /** The arithmetic that ties m to its integer part and its fraction digits. */
  lemma {:induction false} FractionFacts(m: nat, k: nat)
    ensures |FractionDigits(m, k)| <= k
    ensures m == IntegerPart(m, k) * Pow10(k) + m % Pow10(k)
    ensures m % Pow10(k) == DigitsValue(FractionDigits(m, k)) * Pow10(k - |FractionDigits(m, k)|)
    ensures Pow10(k) == Pow10(|FractionDigits(m, k)|) * Pow10(k - |FractionDigits(m, k)|)
  {
    DivMod(m, Pow10(k));
    var p := PadDigits(m % Pow10(k), k);
    var f := FractionDigits(m, k);
    assert f == StripTrailingZeros(p);
    StripTrailingZerosValue(p);
    Pow10Add(|f|, k - |f|);
  }

  lemma {:induction false} FractionRoundTrip(m: nat, e: int)
    requires e < 0
    ensures ParseFloat(UnsignedToString(m, e)).Finite?
    ensures SameValue(ParseFloat(UnsignedToString(m, e)).value, Decimal(m, e))
  {
    if FractionDigits(m, -e) == [] {
      WholeRoundTrip(m, e);
    } else {
      PointRoundTrip(m, e);
    }
  }

  /** No fraction digit is left: the text is the integer part alone. */
  lemma {:induction false} WholeRoundTrip(m: nat, e: int)
    requires e < 0 && FractionDigits(m, -e) == []
    ensures ParseFloat(UnsignedToString(m, e)).Finite?
    ensures SameValue(ParseFloat(UnsignedToString(m, e)).value, Decimal(m, e))
  {
    var q := IntegerPart(m, -e);
    WholeText(m, e);
    WholeParse(q);
    WholeValue(m, e);
    SameValueByScaling(Decimal(q, 0), Decimal(m, e));
  }

  lemma WholeText(m: nat, e: int)
    requires e < 0 && FractionDigits(m, -e) == []
    ensures UnsignedToString(m, e) == NatToString(IntegerPart(m, -e))
  {
  }

  lemma WholeParse(q: nat)
    ensures ParseFloat(NatToString(q)) == Finite(Decimal(q, 0))
  {
    ParseDigits(NatToString(q));
  }

  lemma WholeValue(m: nat, e: int)
    requires e < 0 && FractionDigits(m, -e) == []
    ensures m == IntegerPart(m, -e) * Pow10(-e)
  {
    FractionFacts(m, -e);
  }

  /** Some fraction digits remain: the text is "q.f". */
  lemma {:induction false} PointRoundTrip(m: nat, e: int)
    requires e < 0 && FractionDigits(m, -e) != []
    ensures ParseFloat(UnsignedToString(m, e)).Finite?
    ensures SameValue(ParseFloat(UnsignedToString(m, e)).value, Decimal(m, e))
  {
    var n, e1, z := PointReading(m, e);
    ReadsAs(UnsignedToString(m, e), n, e1, m, e, Pow10(z));
  }

  /** A text that parseFloat reads as n * 10^e1 reads as m * 10^e2 too when
      n * 10^(e1 - e2) == m. */
  lemma ReadsAs(s: string, n: int, e1: int, m: int, e2: int, p: nat)
    requires ParseFloat(s) == Finite(Decimal(n, e1))
    requires e2 <= e1 && p == Pow10(e1 - e2) && n * p == m
    ensures ParseFloat(s).Finite? && SameValue(ParseFloat(s).value, Decimal(m, e2))
  {
    SameValueFromParts(n, e1, m, e2, p);
  }

  /** parseFloat reads the text "q.f" of m * 10^e as n * 10^e1, and
      n * 10^(e1 - e) == m. */
  lemma PointReading(m: nat, e: int) returns (n: nat, e1: int, z: nat)
    requires e < 0 && FractionDigits(m, -e) != []
    ensures ParseFloat(UnsignedToString(m, e)) == Finite(Decimal(n, e1))
    ensures z == e1 - e && n * Pow10(z) == m
  {
    var q, f;
    q, f, n, z := PointParts(m, e);
    PointParse(q, f, n);
    e1 := -|f|;
  }

  /** The text "q.f" of m * 10^e, and how q and f make up m. */
  lemma PointParts(m: nat, e: int) returns (q: nat, f: string, n: nat, z: nat)
    requires e < 0 && FractionDigits(m, -e) != []
    ensures AllDigits(f)
    ensures UnsignedToString(m, e) == NatToString(q) + "." + f
    ensures n == q * Pow10(|f|) + DigitsValue(f)
    ensures z == -|f| - e && n * Pow10(z) == m
  {
    var k: nat := -e;
    q, f, n, z := PointPieces(m, k);
    PointText(m, e, k);
  }

  /** The integer part q and the fraction digits f of m * 10^-k, with
      n = q * 10^|f| + f and n * 10^(k - |f|) == m. */
  lemma PointPieces(m: nat, k: nat) returns (q: nat, f: string, n: nat, z: nat)
    ensures q == IntegerPart(m, k) && f == FractionDigits(m, k)
    ensures n == q * Pow10(|f|) + DigitsValue(f)
    ensures z == k - |f| && n * Pow10(z) == m
  {
    q := IntegerPart(m, k);
    f := FractionDigits(m, k);
    z := k - |f|;
    n := q * Pow10(|f|) + DigitsValue(f);
    PointValue(m, k);
  }

  lemma PointText(m: nat, e: int, k: nat)
    requires e < 0 && k == -e && FractionDigits(m, k) != []
    ensures UnsignedToString(m, e) == NatToString(IntegerPart(m, k)) + "." + FractionDigits(m, k)
  {
  }

  lemma PointParse(q: nat, f: string, n: nat)
    requires AllDigits(f) && n == q * Pow10(|f|) + DigitsValue(f)
    ensures ParseFloat(NatToString(q) + "." + f) == Finite(Decimal(n, -|f|))
  {
    ParseDigitsPointDigits(NatToString(q), f);
    DigitsValueConcat(NatToString(q), f);
  }

  lemma {:induction false} PointValue(m: nat, k: nat)
    ensures |FractionDigits(m, k)| <= k
    ensures (IntegerPart(m, k) * Pow10(|FractionDigits(m, k)|) + DigitsValue(FractionDigits(m, k)))
      * Pow10(k - |FractionDigits(m, k)|) == m
  {
    FractionFacts(m, k);
    var f := FractionDigits(m, k);
    FractionValue(m, IntegerPart(m, k), m % Pow10(k), DigitsValue(f), Pow10(|f|), Pow10(k - |f|), Pow10(k));
  }

  /** Decimal(m1, e1) and Decimal(m2, e2) agree when e2 <= e1 and m1 * 10^(e1 - e2) == m2. */
  lemma SameValueFromParts(m1: int, e1: int, m2: int, e2: int, p: nat)
    requires e2 <= e1 && p == Pow10(e1 - e2) && m1 * p == m2
    ensures SameValue(Decimal(m1, e1), Decimal(m2, e2))
  {
    SameValueByScaling(Decimal(m1, e1), Decimal(m2, e2));
  }

  lemma FractionFreeValue(m: nat, q: nat, r: nat, p: nat)
    requires m == q * p + r && r == 0
    ensures q * p == m
  {
  }

  /** (q * pf + v) * pz == m when m = q * pk + r, r = v * pz and pk = pf * pz. */
  lemma FractionValue(m: nat, q: nat, r: nat, v: nat, pf: nat, pz: nat, pk: nat)
    requires m == q * pk + r && r == v * pz && pk == pf * pz
    ensures (q * pf + v) * pz == m
  {
    calc {
      (q * pf + v) * pz;
      q * (pf * pz) + v * pz;
      m;
    }
  }

  lemma NegateSameValue(a: Decimal, b: Decimal)
    requires SameValue(a, b)
    ensures SameValue(Decimal(-a.mantissa, a.exponent), Decimal(-b.mantissa, b.exponent))
  {
    var k := if a.exponent <= b.exponent then a.exponent else b.exponent;
    NegMul(a.mantissa, Pow10(a.exponent - k));
    NegMul(b.mantissa, Pow10(b.exponent - k));
  }

  lemma NegMul(x: int, p: int)
    ensures (-x) * p == -(x * p)
  {
  }

  /** Reading back the text of a number gives the same number. */
  lemma {:induction false} DecimalToStringRoundTrip(d: Decimal)
    ensures ParseFloat(DecimalToString(d)).Finite?
    ensures SameValue(ParseFloat(DecimalToString(d)).value, d)
  {
    if d.mantissa < 0 {
      NegativeRoundTrip(d);
    } else {
      var u := UnsignedToString(d.mantissa, d.exponent);
      assert DecimalToString(d) == "" + u == u;
      UnsignedRoundTrip(d.mantissa, d.exponent);
    }
  }

  lemma {:induction false} NegativeRoundTrip(d: Decimal)
    requires d.mantissa < 0
    ensures ParseFloat(DecimalToString(d)).Finite?
    ensures SameValue(ParseFloat(DecimalToString(d)).value, d)
  {
    var u, pu := NegativeParts(d);
    NegativeParse(DecimalToString(d), u, pu);
    NegativeValue(ParseFloat(DecimalToString(d)), d, pu);
  }

  /** The text of a negative number is "-" followed by a numeral u that
      reads back as the magnitude. */
  lemma NegativeParts(d: Decimal) returns (u: string, pu: Decimal)
    requires d.mantissa < 0
    ensures DecimalToString(d) == "-" + u
    ensures u != [] && IsDigit(u[0])
    ensures ParseFloat(u) == Finite(pu)
    ensures SameValue(pu, Decimal(-d.mantissa, d.exponent))
  {
    var m: nat := -d.mantissa;
    u, pu := UnsignedParts(m, d.exponent);
    NegativeText(d, m, u);
    assert Decimal(m, d.exponent) == Decimal(-d.mantissa, d.exponent);
  }

  lemma UnsignedParts(m: nat, e: int) returns (u: string, pu: Decimal)
    ensures u == UnsignedToString(m, e)
    ensures u != [] && IsDigit(u[0])
    ensures ParseFloat(u) == Finite(pu)
    ensures SameValue(pu, Decimal(m, e))
  {
    u := UnsignedToString(m, e);
    UnsignedRoundTrip(m, e);
    pu := ParseFloat(u).value;
  }

  lemma NegativeText(d: Decimal, m: nat, u: string)
    requires d.mantissa < 0 && m == -d.mantissa && u == UnsignedToString(m, d.exponent)
    ensures DecimalToString(d) == "-" + u
  {
  }

  lemma NegativeParse(s: string, u: string, pu: Decimal)
    requires s == "-" + u && u != [] && IsDigit(u[0]) && ParseFloat(u) == Finite(pu)
    ensures ParseFloat(s) == Finite(Decimal(-pu.mantissa, pu.exponent))
  {
    ParseNegative(u);
    NegateFinite(ParseFloat(u), pu);
  }

  lemma NegateFinite(x: JsNumber, d: Decimal)
    requires x == Finite(d)
    ensures Negate(x) == Finite(Decimal(-d.mantissa, d.exponent))
  {
  }

  lemma NegativeValue(x: JsNumber, d: Decimal, pu: Decimal)
    requires x == Finite(Decimal(-pu.mantissa, pu.exponent))
    requires SameValue(pu, Decimal(-d.mantissa, d.exponent))
    ensures x.Finite? && SameValue(x.value, d)
  {
    NegateSameValue(pu, Decimal(-d.mantissa, d.exponent));
  }
}

/** Exact decimal numbers and their texts, as JavaScript prints them. */
module Decimals {

  /** A nonzero number: sign, and m times 10 to the power e. */
  datatype Decimal = Decimal(neg: bool, m: nat, e: int)

  /** No trailing zero in m: every number has one such form. */
  predicate Canonical(d: Decimal) {
    d.m % 10 != 0
  }

  function Canon(neg: bool, m: nat, e: int): (d: Decimal)
    requires m != 0
    ensures Canonical(d)
    decreases m
  {
    if m % 10 == 0 then Canon(neg, m / 10, e + 1) else Decimal(neg, m, e)
  }

  function Pow10(n: nat): (p: nat)
    ensures p > 0
  {
    if n == 0 then 1 else 10 * Pow10(n - 1)
  }

  lemma Tenfold(m: nat, a: nat)
    ensures m * (10 * a) == 10 * (m * a) && (10 * (m * a)) / 10 == m * a && (10 * (m * a)) % 10 == 0
  {
  }

  lemma CanonTenfold(neg: bool, n: nat, e: int)
    requires n != 0
    ensures Canon(neg, 10 * n, e) == Canon(neg, n, e + 1)
  {
    assert (10 * n) % 10 == 0 && (10 * n) / 10 == n;
  }

  lemma Nonzero(m: nat, a: nat)
    requires m != 0 && a != 0
    ensures m * a != 0
  {
  }

  /** Two ways to write a number with different powers of ten have the same canonical form. */
  lemma {:induction false} CanonScaled(neg: bool, m: nat, e: int, j: nat)
    requires m % 10 != 0
    ensures m * Pow10(j) != 0 && Canon(neg, m * Pow10(j), e) == Decimal(neg, m, e + j)
    decreases j
  {
    Nonzero(m, Pow10(j));
    if j == 0 {
      assert m * Pow10(0) == m;
    } else {
      Nonzero(m, Pow10(j - 1));
      Tenfold(m, Pow10(j - 1));
      CanonTenfold(neg, m * Pow10(j - 1), e);
      CanonScaled(neg, m, e + 1, j - 1);
    }
  }

  // --- Digit strings ---

  predicate IsDigit(c: char) {
    '0' <= c <= '9'
  }

  predicate AllDigits(s: string) {
    forall i :: 0 <= i < |s| ==> IsDigit(s[i])
  }

  function DigitValue(c: char): nat
    requires IsDigit(c)
  {
    c as int - '0' as int
  }

  function DigitChar(d: int): (c: char)
    requires 0 <= d < 10
    ensures IsDigit(c) && DigitValue(c) == d
  {
    (d + '0' as int) as char
  }

  function NatOf(s: string): nat
    requires AllDigits(s)
  {
    if s == "" then 0 else NatOf(s[..|s| - 1]) * 10 + DigitValue(s[|s| - 1])
  }

  function ToDec(n: nat): (s: string)
    ensures |s| > 0 && AllDigits(s)
  {
    if n < 10 then [DigitChar(n)] else ToDec(n / 10) + [DigitChar(n % 10)]
  }

  lemma {:induction false} NatOfToDec(n: nat)
    ensures NatOf(ToDec(n)) == n
  {
    if n >= 10 {
      NatOfToDec(n / 10);
      var s := ToDec(n);
      assert s[..|s| - 1] == ToDec(n / 10);
    } else {
      assert ToDec(n)[..0] == "";
    }
  }

  function Zeros(n: nat): (s: string)
    ensures |s| == n && AllDigits(s)
  {
    seq(n, _ => '0')
  }

  lemma {:induction false} NatOfZerosAfter(s: string, n: nat)
    requires AllDigits(s)
    ensures AllDigits(s + Zeros(n)) && NatOf(s + Zeros(n)) == NatOf(s) * Pow10(n)
    decreases n
  {
    var t := s + Zeros(n);
    if n == 0 {
      assert t == s;
    } else {
      assert t[..|t| - 1] == s + Zeros(n - 1) && t[|t| - 1] == '0';
      NatOfZerosAfter(s, n - 1);
      Tenfold(NatOf(s), Pow10(n - 1));
    }
  }

  lemma {:induction false} NatOfZerosBefore(n: nat, s: string)
    requires AllDigits(s)
    ensures AllDigits(Zeros(n) + s) && NatOf(Zeros(n) + s) == NatOf(s)
    decreases n + |s|
  {
    var t := Zeros(n) + s;
    if s != "" {
      assert t[..|t| - 1] == Zeros(n) + s[..|s| - 1];
      NatOfZerosBefore(n, s[..|s| - 1]);
    } else if n > 0 {
      assert t[..|t| - 1] == Zeros(n - 1) + "";
      NatOfZerosBefore(n - 1, "");
    }
  }

  /** Digits count by their position: those in front by as many powers of ten as there are digits behind. */
  lemma {:induction false} NatOfAppend(a: string, b: string)
    requires AllDigits(a) && AllDigits(b)
    ensures AllDigits(a + b) && NatOf(a + b) == NatOf(a) * Pow10(|b|) + NatOf(b)
    decreases |b|
  {
    var t := a + b;
    if b == "" {
      assert t == a;
    } else {
      assert t[..|t| - 1] == a + b[..|b| - 1];
      NatOfAppend(a, b[..|b| - 1]);
      Tenfold(NatOf(a), Pow10(|b| - 1));
    }
  }

  lemma NatOfOne(c: char)
    requires IsDigit(c)
    ensures NatOf([c]) == c as int - 48
  {
    assert [c][..0] == "";
  }

  // --- Number to text ---

  /** The position of the decimal point behind the first digit of m. */
  function Point(d: Decimal): int {
    |ToDec(d.m)| + d.e
  }

  /** Numbers printed without an exponent. */
  predicate Plain(d: Decimal) {
    -6 < Point(d) <= 21
  }

  /** The integer and the fractional digits of a plain number. */
  function IntegerDigits(d: Decimal): (s: string)
    requires Plain(d)
    ensures |s| > 0 && AllDigits(s)
  {
    var ds, n := ToDec(d.m), Point(d);
    if n <= 0 then "0" else if n < |ds| then ds[..n] else ds + Zeros(n - |ds|)
  }

  function FractionDigits(d: Decimal): (s: string)
    requires Plain(d)
    ensures AllDigits(s)
  {
    var ds, n := ToDec(d.m), Point(d);
    if n <= 0 then Zeros(-n) + ds else if n < |ds| then ds[n..] else ""
  }

  function Sign(d: Decimal): string {
    if d.neg then "-" else ""
  }

  function Fraction(s: string): string {
    if s == "" then "" else "." + s
  }

  /** The digits in front of the exponent, and the exponent. */
  function Mantissa(d: Decimal): string {
    [ToDec(d.m)[0]] + Fraction(ToDec(d.m)[1..])
  }

  function Exponent(d: Decimal): string {
    var x := Point(d) - 1;
    if x < 0 then "e-" + ToDec(-x) else "e+" + ToDec(x)
  }

  /** The text of a number in canonical form. */
  function Print(d: Decimal): string {
    Sign(d) + if Plain(d) then IntegerDigits(d) + Fraction(FractionDigits(d)) else Mantissa(d) + Exponent(d)
  }

  predicate Denotes(d: Decimal, i: string, f: string) {
    AllDigits(i + f) && NatOf(i + f) != 0 && Canon(d.neg, NatOf(i + f), -|f|) == d
  }

  lemma ZerosBeforeDenote(d: Decimal, zeros: nat, i: string, f: string)
    requires Canonical(d) && i + f == Zeros(zeros) + ToDec(d.m) && |f| == -d.e
    ensures Denotes(d, i, f)
  {
    NatOfToDec(d.m);
    NatOfZerosBefore(zeros, ToDec(d.m));
  }

  lemma ZerosAfterDenote(d: Decimal, zeros: nat)
    requires Canonical(d) && d.e == zeros
    ensures Denotes(d, ToDec(d.m) + Zeros(zeros), "")
  {
    var i := ToDec(d.m) + Zeros(zeros);
    NatOfToDec(d.m);
    NatOfZerosAfter(ToDec(d.m), zeros);
    CanonScaled(d.neg, d.m, 0, zeros);
    assert i + "" == i;
  }

  lemma SmallDenotes(d: Decimal, ds: string, zeros: nat)
    requires Canonical(d) && ds == ToDec(d.m) && zeros == -Point(d)
    ensures Denotes(d, "0", Zeros(zeros) + ds)
  {
    assert "0" + (Zeros(zeros) + ds) == Zeros(zeros + 1) + ds;
    ZerosBeforeDenote(d, zeros + 1, "0", Zeros(zeros) + ds);
  }

  lemma MiddleDenotes(d: Decimal, ds: string, n: nat)
    requires Canonical(d) && ds == ToDec(d.m) && n == Point(d) < |ds|
    ensures Denotes(d, ds[..n], ds[n..])
  {
    assert ds[..n] + ds[n..] == Zeros(0) + ds;
    ZerosBeforeDenote(d, 0, ds[..n], ds[n..]);
  }

  /** The digits of the text denote the number. */
  lemma PlainDenotes(d: Decimal)
    requires Plain(d) && Canonical(d)
    ensures Denotes(d, IntegerDigits(d), FractionDigits(d))
  {
    var ds, n := ToDec(d.m), Point(d);
    if n <= 0 {
      SmallDenotes(d, ds, -n);
    } else if n < |ds| {
      MiddleDenotes(d, ds, n);
    } else {
      ZerosAfterDenote(d, n - |ds|);
    }
  }

  /** The number the mantissa alone denotes: the same digits with the point after the first. */
  function Alone(d: Decimal): Decimal {
    d.(e := 1 - |ToDec(d.m)|)
  }

  lemma MantissaDenotes(d: Decimal)
    requires Canonical(d)
    ensures Denotes(Alone(d), [ToDec(d.m)[0]], ToDec(d.m)[1..])
  {
    var ds := ToDec(d.m);
    assert [ds[0]] + ds[1..] == Zeros(0) + ds;
    ZerosBeforeDenote(Alone(d), 0, [ds[0]], ds[1..]);
  }

  /** How JavaScript prints numbers: from 10^21 on and below 10^-6 with an exponent. */
  lemma PrintsPlain()
    ensures Print(Decimal(false, 15, 2)) == "1500" && Print(Decimal(false, 15, -1)) == "1.5"
    ensures Print(Decimal(true, 15, -1)) == "-1.5"
  {
    assert ToDec(15) == "15" && Zeros(2) == "00";
  }

  lemma PrintsLarge()
    ensures Print(Decimal(false, 2, 20)) == "2" + Zeros(20) && Print(Decimal(false, 2, 21)) == "2e+21"
  {
    assert ToDec(2) == "2" && ToDec(21) == "21";
  }

  lemma PrintsSmall()
    ensures Print(Decimal(false, 2, -6)) == "0.000002" && Print(Decimal(false, 25, -8)) == "2.5e-7"
  {
    assert ToDec(2) == "2" && ToDec(25) == "25" && ToDec(7) == "7" && Zeros(5) == "00000";
  }
}

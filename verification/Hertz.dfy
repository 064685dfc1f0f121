/** Normalisation of frequency texts: reading a number with a unit, scaling it, printing it. */
module Hertz {
  import opened Bytes
  import opened Decimals

  datatype Unit = Giga | Mega | Kilo | One

  function Exp(u: Unit): int {
    match u case Giga => 9 case Mega => 6 case Kilo => 3 case One => 0
  }

  function Letter(u: Unit): string {
    match u case Giga => "G" case Mega => "M" case Kilo => "K" case One => ""
  }

  /** The unit a character stands for. */
  function UnitOf(c: char): Unit {
    if c == 'G' then Giga else if c == 'M' then Mega else if c == 'K' then Kilo else One
  }

  function UpperChar(c: char): char {
    if 'a' <= c <= 'z' then (c as int - 32) as char else c
  }

  function Upper(s: string): (t: string)
    ensures |t| == |s|
  {
    seq(|s|, i requires 0 <= i < |s| => UpperChar(s[i]))
  }

  /** The white space of JavaScript's regular expressions. */
  predicate IsSpace(c: char) {
    var n := c as int;
    9 <= n <= 13 || 0x2000 <= n <= 0x200A || n in {0x20, 0xA0, 0x1680, 0x2028, 0x2029, 0x202F, 0x205F, 0x3000, 0xFEFF}
  }

  // --- Reading: the first match of number, spaces, unit letter ---

  function DigitRun(s: string): (n: nat)
    ensures n <= |s| && AllDigits(s[..n]) && (n < |s| ==> !IsDigit(s[n]))
  {
    if s == "" || !IsDigit(s[0]) then 0 else 1 + DigitRun(s[1..])
  }

  /** The groups of a point and digits behind the integer digits: the first one, how many there are,
      and what follows. */
  datatype Groups = Groups(first: string, count: nat, rest: string)

  function ReadGroups(s: string): (g: Groups)
    ensures AllDigits(g.first)
    decreases |s|
  {
    if |s| >= 2 && s[0] == '.' && IsDigit(s[1]) then
      var n := DigitRun(s[1..]);
      Groups(s[1..][..n], ReadGroups(s[1..][n..]).count + 1, ReadGroups(s[1..][n..]).rest)
    else Groups("", 0, s)
  }

  /** Where the first number starts: at a digit, or at a minus sign in front of one. */
  function NumberStart(s: string): (i: nat)
    ensures i <= |s|
    ensures i < |s| ==> IsDigit(s[i]) || (s[i] == '-' && i + 1 < |s| && IsDigit(s[i + 1]))
  {
    if s == "" || IsDigit(s[0]) || (s[0] == '-' && |s| >= 2 && IsDigit(s[1])) then 0 else 1 + NumberStart(s[1..])
  }

  /** The unit letter behind optional spaces. */
  function UnitAfter(s: string): Unit {
    if s == "" then One else if IsSpace(s[0]) then UnitAfter(s[1..]) else UnitOf(s[0])
  }

  /** What is read from a text: the number and its unit, One if there is none. */
  datatype Reading = Reading(value: Decimal, unit: Unit)

  /** The number at the front of s. Several groups make it not a number; that and 0 are refused. */
  function ReadNumber(neg: bool, s: string): Option<Reading> {
    var n := DigitRun(s);
    var g := ReadGroups(s[n..]);
    if g.count >= 2 || NatOf(s[..n] + g.first) == 0 then None
    else Some(Reading(Canon(neg, NatOf(s[..n] + g.first), -|g.first|), UnitAfter(g.rest)))
  }

  function Read(s: string): Option<Reading> {
    var i := NumberStart(s);
    if i == |s| then None
    else if s[i] == '-' then ReadNumber(true, s[i + 1..])
    else ReadNumber(false, s[i..])
  }

  // --- normalizeHz ---

  /** Strings are empty where an option is absent; `number` asks for the bare number. */
  datatype Options = Options(to: string, scale: bool, assumed: string, number: bool)

  datatype Normal = Throws | Number(value: Decimal) | Text(text: string)

  function Assumed(o: Options): Unit {
    if o.assumed == "" then One else UnitOf(UpperChar(o.assumed[0]))
  }

  /** The unit of the input: the one read, else the assumed one. */
  function InUnit(r: Reading, o: Options): Unit {
    if r.unit != One then r.unit else Assumed(o)
  }

  /** The unit of the output: that of the input unless another one is named; None for a name that only
      starts with a unit letter. */
  function OutUnit(inUnit: Unit, to: string): Option<Unit> {
    var t := Upper(to);
    if t == "" || UnitOf(t[0]) == One then Some(inUnit)
    else if |t| == 1 then Some(UnitOf(t[0]))
    else None
  }

  function Shift(d: Decimal, k: int): Decimal {
    d.(e := d.e + k)
  }

  function Suffix(u: Unit): string {
    " " + Letter(u) + "Hz"
  }

  function WithUnit(d: Decimal, u: Unit): string {
    Print(d) + Suffix(u)
  }

  /** The number printed and its unit, for what was read. */
  function Rescale(r: Reading, o: Options): Option<Reading> {
    match OutUnit(InUnit(r, o), o.to)
    case None => None
    case Some(u) => Some(Reading(Shift(r.value, Exp(InUnit(r, o)) - Exp(u)), u))
  }

  function Scaled(s: string, o: Options): Option<Reading> {
    match Read(Upper(s))
    case None => None
    case Some(r) => Rescale(r, o)
  }

  function NormalizeHz(s: string, o: Options): Normal {
    match Scaled(s, o)
    case None => Throws
    case Some(r) =>
      if o.number then Number(r.value)
      else if o.scale then Text(WithUnit(r.value, r.unit))
      else Text(Print(r.value))
  }

  /** The frequency in Hz a text stands for. */
  function Hz(s: string, o: Options): Option<Decimal> {
    match Read(Upper(s))
    case None => None
    case Some(r) => Some(Shift(r.value, Exp(InUnit(r, o))))
  }

  // --- Reading back what is printed ---

  lemma {:induction false} RunOf(ds: string, t: string)
    requires AllDigits(ds) && (t == "" || !IsDigit(t[0]))
    ensures DigitRun(ds + t) == |ds|
    decreases |ds|
  {
    if ds == "" {
      assert ds + t == t;
    } else {
      assert (ds + t)[1..] == ds[1..] + t;
      RunOf(ds[1..], t);
    }
  }

  /** Behind the fraction comes neither a digit nor a point in front of one. */
  predicate Stops(t: string) {
    t == "" || (!IsDigit(t[0]) && !(t[0] == '.' && |t| >= 2 && IsDigit(t[1])))
  }

  lemma NoGroups(t: string)
    requires Stops(t)
    ensures ReadGroups(t) == Groups("", 0, t)
  {
  }

  lemma PointFirst(f: string, t: string)
    requires f != ""
    ensures var s := Fraction(f) + t;
      |s| >= 2 && s[0] == '.' && s[1..] == f + t && (f + t)[0] == f[0]
  {
  }

  lemma SomeGroup(f: string, t: string)
    requires f != "" && AllDigits(f) && Stops(t)
    ensures ReadGroups(Fraction(f) + t) == Groups(f, 1, t)
  {
    NoGroups(t);
    RunOf(f, t);
    Halves(f, t);
    PointFirst(f, t);
    OneGroup(Fraction(f) + t, f + t, f, t);
  }

  lemma GroupsOf(f: string, t: string)
    requires AllDigits(f) && Stops(t)
    ensures ReadGroups(Fraction(f) + t) == Groups(f, if f == "" then 0 else 1, t)
  {
    if f == "" {
      assert Fraction(f) + t == t;
      NoGroups(t);
    } else {
      SomeGroup(f, t);
    }
  }

  lemma OneGroup(s: string, s1: string, f: string, t: string)
    requires |s| >= 2 && s[0] == '.' && s[1..] == s1 && f != "" && AllDigits(f) && s1[0] == f[0]
    requires DigitRun(s1) == |f| && s1[..|f|] == f && s1[|f|..] == t && ReadGroups(t) == Groups("", 0, t)
    ensures ReadGroups(s) == Groups(f, 1, t)
  {
  }

  lemma NumberParts(neg: bool, i: string, f: string, t: string, d: Decimal)
    requires AllDigits(i) && AllDigits(f) && Stops(t) && d.neg == neg && Denotes(d, i, f)
    ensures ReadNumber(neg, i + (Fraction(f) + t)) == Some(Reading(d, UnitAfter(t)))
  {
    var b := Fraction(f) + t;
    RunOf(i, b);
    Halves(i, b);
    GroupsOf(f, t);
    NumberFrom(neg, i + b, i, b, f, if f == "" then 0 else 1, t, d);
  }

  lemma NumberFrom(neg: bool, s: string, i: string, b: string, f: string, count: nat, t: string, d: Decimal)
    requires DigitRun(s) == |i| && s[..|i|] == i && s[|i|..] == b && ReadGroups(b) == Groups(f, count, t) && count <= 1
    requires d.neg == neg && Denotes(d, i, f)
    ensures ReadNumber(neg, s) == Some(Reading(d, UnitAfter(t)))
  {
  }

  lemma Halves(a: string, b: string)
    ensures (a + b)[..|a|] == a && (a + b)[|a|..] == b
  {
  }

  lemma ReadParts(neg: bool, i: string, f: string, t: string, d: Decimal)
    requires i != "" && AllDigits(i) && AllDigits(f) && Stops(t) && d.neg == neg && Denotes(d, i, f)
    ensures Read((if neg then "-" else "") + (i + (Fraction(f) + t))) == Some(Reading(d, UnitAfter(t)))
  {
    NumberParts(neg, i, f, t, d);
    SignedStart(neg, i + (Fraction(f) + t));
  }

  lemma SignedStart(neg: bool, a: string)
    requires a != "" && IsDigit(a[0])
    ensures Read((if neg then "-" else "") + a) == ReadNumber(neg, a)
  {
  }

  lemma UpperAppend(a: string, b: string)
    ensures Upper(a + b) == Upper(a) + Upper(b)
  {
  }

  /** The upper-case unit behind a printed number. */
  function Tail(u: Unit): string {
    " " + Letter(u) + "HZ"
  }

  lemma UpperTail(u: Unit)
    ensures Upper(Suffix(u)) == Tail(u) && UnitAfter(Tail(u)) == u && Stops(Tail(u))
  {
  }

  lemma Regroup(a: string, i: string, f: string, x: string, t: string)
    ensures a + (i + f + x) + t == a + (i + (f + (x + t)))
  {
  }

  lemma UpperBody(i: string, f: string, x: string)
    requires AllDigits(i) && AllDigits(f)
    ensures Upper(i + Fraction(f) + x) == i + Fraction(f) + Upper(x)
  {
  }

  lemma UpperParts(d: Decimal, i: string, f: string, x: string, u: Unit)
    requires AllDigits(i) && AllDigits(f)
    ensures Upper(Sign(d) + (i + Fraction(f) + x) + Suffix(u)) ==
      Sign(d) + (i + (Fraction(f) + (Upper(x) + Tail(u))))
  {
    var b := i + Fraction(f) + x;
    UpperTail(u);
    UpperBody(i, f, x);
    UpperAppend(Sign(d) + b, Suffix(u));
    UpperAppend(Sign(d), b);
    assert Upper(Sign(d)) == Sign(d);
    Regroup(Sign(d), i, Fraction(f), Upper(x), Tail(u));
  }

  /** A number printed without an exponent is read back with its unit. */
  lemma ReadPlain(d: Decimal, u: Unit)
    requires Canonical(d) && Plain(d)
    ensures Read(Upper(WithUnit(d, u))) == Some(Reading(d, u))
  {
    var i, f := IntegerDigits(d), FractionDigits(d);
    UpperParts(d, i, f, "", u);
    assert i + Fraction(f) + "" == i + Fraction(f) && Upper("") + Tail(u) == Tail(u);
    UpperTail(u);
    PlainDenotes(d);
    ReadParts(d.neg, i, f, Tail(u), d);
  }

  /** A number printed alone is read back without a unit. */
  lemma ReadBare(d: Decimal)
    requires Canonical(d) && Plain(d)
    ensures Read(Upper(Print(d))) == Some(Reading(d, One))
  {
    var i, f := IntegerDigits(d), FractionDigits(d);
    UpperBody(i, f, "");
    assert i + Fraction(f) + "" == i + Fraction(f) && Upper("") == "";
    UpperAppend(Sign(d), i + Fraction(f));
    assert Upper(Sign(d)) == Sign(d);
    assert i + Fraction(f) == i + (Fraction(f) + "");
    PlainDenotes(d);
    ReadParts(d.neg, i, f, "", d);
  }

  lemma ExponentTail(d: Decimal, u: Unit)
    ensures var t := Upper(Exponent(d)) + Tail(u);
      Stops(t) && UnitAfter(t) == One
  {
  }

  lemma WithExponent(d: Decimal, u: Unit)
    requires !Plain(d)
    ensures WithUnit(d, u) ==
      Sign(d) + ([ToDec(d.m)[0]] + Fraction(ToDec(d.m)[1..]) + Exponent(d)) + Suffix(u)
  {
  }

  /** Of a number printed with an exponent only the mantissa is read, and no unit. */
  lemma ReadExponent(d: Decimal, u: Unit)
    requires Canonical(d) && !Plain(d)
    ensures Read(Upper(WithUnit(d, u))) == Some(Reading(Alone(d), One))
  {
    var i, f := [ToDec(d.m)[0]], ToDec(d.m)[1..];
    WithExponent(d, u);
    UpperParts(d, i, f, Exponent(d), u);
    MantissaDenotes(d);
    ExponentTail(d, u);
    ReadParts(d.neg, i, f, Upper(Exponent(d)) + Tail(u), Alone(d));
  }

  // --- Meaning ---

  lemma ReadCanonical(s: string)
    ensures Read(s).Some? ==> Canonical(Read(s).value.value)
  {
  }

  lemma RescaleKeeps(r: Reading, o: Options)
    ensures var out := Rescale(r, o);
      out.Some? ==>
        Shift(r.value, Exp(InUnit(r, o))) == Shift(out.value.value, Exp(out.value.unit))
        && (Canonical(r.value) ==> Canonical(out.value.value))
  {
  }

  /** The number returned stands for the same frequency as the input, in the unit of the output. */
  lemma ValuePreserved(s: string, o: Options)
    ensures var out := Scaled(s, o);
      out.Some? ==> Hz(s, o) == Some(Shift(out.value.value, Exp(out.value.unit))) && Canonical(out.value.value)
  {
    ReadCanonical(Upper(s));
    if Read(Upper(s)).Some? {
      RescaleKeeps(Read(Upper(s)).value, o);
    }
  }

  // --- What is printed, in terms of what was read ---

  /** The input is read, and the output unit is known. */
  predicate Accepted(s: string, o: Options) {
    Read(Upper(s)).Some? && OutUnit(InUnit(Read(Upper(s)).value, o), o.to).Some?
  }

  function ReadingOf(s: string, o: Options): Reading
    requires Accepted(s, o)
  {
    Read(Upper(s)).value
  }

  function UnitPrinted(s: string, o: Options): Unit
    requires Accepted(s, o)
  {
    OutUnit(InUnit(ReadingOf(s, o), o), o.to).value
  }

  /** Where the decimal point of the output will be: that of the input, moved by the factor of the units. */
  function PointPrinted(s: string, o: Options): int
    requires Accepted(s, o)
  {
    Point(ReadingOf(s, o).value) + Exp(InUnit(ReadingOf(s, o), o)) - Exp(UnitPrinted(s, o))
  }

  /** The output is printed without an exponent. */
  predicate PrintedPlain(s: string, o: Options)
    requires Accepted(s, o)
  {
    -6 < PointPrinted(s, o) <= 21
  }

  lemma PrintedOutput(s: string, o: Options)
    ensures Scaled(s, o).Some? <==> Accepted(s, o)
    ensures Accepted(s, o) ==>
      var r := Scaled(s, o).value;
      r.unit == UnitPrinted(s, o) && Point(r.value) == PointPrinted(s, o) && (Plain(r.value) <==> PrintedPlain(s, o))
  {
  }

  /** The condition under which the printed text can be read back: no exponent, or an exponent that
      happens to equal the factor between the assumed unit and the printed one. */
  predicate Readable(r: Reading, o: Options) {
    Plain(r.value) || Point(r.value) - 1 == Exp(Assumed(o)) - Exp(r.unit)
  }

  lemma HzOfPlain(r: Reading, o: Options)
    requires Canonical(r.value) && Plain(r.value) && (r.unit == One ==> Assumed(o) == One)
    ensures Hz(WithUnit(r.value, r.unit), o) == Some(Shift(r.value, Exp(r.unit)))
  {
    ReadPlain(r.value, r.unit);
  }

  lemma HzOfExponent(r: Reading, o: Options)
    requires Canonical(r.value) && !Plain(r.value)
    ensures Hz(WithUnit(r.value, r.unit), o) == Some(Shift(Alone(r.value), Exp(Assumed(o))))
  {
    ReadExponent(r.value, r.unit);
  }

  lemma ReadBackExactly(s: string, o: Options)
    requires Scaled(s, o).Some?
    ensures Hz(WithUnit(Scaled(s, o).value.value, Scaled(s, o).value.unit), o) == Hz(s, o) <==>
      Readable(Scaled(s, o).value, o)
  {
    ValuePreserved(s, o);
    OutUnitRead(s, o);
    ReadableMeans(Scaled(s, o).value, o);
  }

  /** The input will be printed so that it can be read back: without an exponent, or with one that equals the
      factor between the assumed unit and the printed one. */
  predicate ReadsBack(s: string, o: Options)
    requires Accepted(s, o)
  {
    PrintedPlain(s, o) || PointPrinted(s, o) - 1 == Exp(Assumed(o)) - Exp(UnitPrinted(s, o))
  }

  /** The printed text stands for the same frequency as the input exactly if the input is one that reads back. */
  lemma MeaningPreserved(s: string, o: Options)
    requires Accepted(s, o)
    ensures Scaled(s, o).Some?
    ensures Hz(WithUnit(Scaled(s, o).value.value, Scaled(s, o).value.unit), o) == Hz(s, o) <==> ReadsBack(s, o)
  {
    PrintedOutput(s, o);
    ReadBackExactly(s, o);
  }

  lemma ShiftAlone(d: Decimal, a: int, b: int)
    ensures Shift(Alone(d), a) == Shift(d, b) <==> Point(d) - 1 == a - b
  {
  }

  lemma ReadableMeans(r: Reading, o: Options)
    requires Canonical(r.value) && (r.unit == One ==> Assumed(o) == One)
    ensures Hz(WithUnit(r.value, r.unit), o) == Some(Shift(r.value, Exp(r.unit))) <==> Readable(r, o)
  {
    if Plain(r.value) {
      HzOfPlain(r, o);
    } else {
      HzOfExponent(r, o);
      ShiftAlone(r.value, Exp(Assumed(o)), Exp(r.unit));
    }
  }

  /** Plain hertz are printed only if none of the options and the text names a unit. */
  lemma OutUnitRead(s: string, o: Options)
    requires Scaled(s, o).Some?
    ensures Scaled(s, o).value.unit == One ==> Assumed(o) == One
  {
  }

  /** Exactly the texts of the last case change no meaning although they print an exponent: numbers of
      1 to 10 Hz, printed in GHz when no unit is assumed. */
  lemma ReadableExponents(s: string, o: Options)
    requires Accepted(s, o) && !PrintedPlain(s, o)
    ensures ReadsBack(s, o) <==> PointPrinted(s, o) == -8 && UnitPrinted(s, o) == Giga && Assumed(o) == One
  {
  }

  // --- Applying it again ---

  predicate NoExponentMark(s: string) {
    forall i :: 0 <= i < |s| ==> s[i] != 'e'
  }

  lemma PlainHasNoMark(d: Decimal, u: Unit)
    requires Plain(d)
    ensures NoExponentMark(WithUnit(d, u))
  {
    assert AllDigits(IntegerDigits(d)) && AllDigits(FractionDigits(d));
    assert NoExponentMark(Fraction(FractionDigits(d)));
    assert NoExponentMark(Suffix(u));
  }

  lemma ExponentText(d: Decimal, u: Unit)
    requires !Plain(d)
    ensures WithUnit(d, u) == (Sign(d) + Mantissa(d)) + (Exponent(d) + Suffix(u))
  {
  }

  lemma SameDigits(n: nat, x: string, n2: nat, x2: string)
    requires x != "" && !IsDigit(x[0]) && x2 != "" && !IsDigit(x2[0])
    requires ToDec(n) + x == ToDec(n2) + x2
    ensures n == n2 && x == x2
  {
    RunOf(ToDec(n), x);
    RunOf(ToDec(n2), x2);
    Halves(ToDec(n), x);
    Halves(ToDec(n2), x2);
    NatOfToDec(n);
    NatOfToDec(n2);
  }

  lemma ExponentParts(d: Decimal, u: Unit)
    ensures var x := Point(d) - 1;
      var t := Exponent(d) + Suffix(u);
      |t| > 2 && t[1] == (if x < 0 then '-' else '+') && t[2..] == ToDec(if x < 0 then -x else x) + Suffix(u)
  {
  }

  lemma SameExponent(d: Decimal, u: Unit, d2: Decimal, u2: Unit)
    requires Exponent(d) + Suffix(u) == Exponent(d2) + Suffix(u2)
    ensures Point(d) == Point(d2) && u == u2
  {
    var x, x2 := Point(d) - 1, Point(d2) - 1;
    ExponentParts(d, u);
    ExponentParts(d2, u2);
    SameDigits(if x < 0 then -x else x, Suffix(u), if x2 < 0 then -x2 else x2, Suffix(u2));
    SameSuffix(u, u2);
  }

  lemma SameSuffix(u: Unit, u2: Unit)
    requires Suffix(u) == Suffix(u2)
    ensures u == u2
  {
    assert Suffix(u)[1] == Suffix(u2)[1];
  }

  /** Two texts of numbers with the same digits, one of them with an exponent, differ unless number and
      unit are the same. */
  lemma TextsDiffer(d: Decimal, u: Unit, d2: Decimal, u2: Unit)
    requires !Plain(d) && d2.m == d.m && d2.neg == d.neg && WithUnit(d, u) == WithUnit(d2, u2)
    ensures d == d2 && u == u2
  {
    ExponentText(d, u);
    var p := Sign(d) + Mantissa(d);
    Halves(p, Exponent(d) + Suffix(u));
    assert WithUnit(d, u)[|p|] == Exponent(d)[0] == 'e';
    if Plain(d2) {
      PlainHasNoMark(d2, u2);
      assert false;
    }
    ExponentText(d2, u2);
    Halves(p, Exponent(d2) + Suffix(u2));
    SameExponent(d, u, d2, u2);
  }

  predicate Names(to: string) {
    to != "" && UnitOf(UpperChar(to[0])) != One
  }

  lemma RescaleAgain(r0: Reading, r: Reading, o: Options)
    requires Rescale(r0, o) == Some(r)
    ensures Rescale(r, o) == Some(r)
  {
  }

  lemma RescaleBare(r0: Reading, r: Reading, x: Decimal, o: Options)
    requires Rescale(r0, o) == Some(r)
    ensures var u := if Names(o.to) then r.unit else Assumed(o);
      Rescale(Reading(x, One), o) == Some(Reading(Shift(x, Exp(Assumed(o)) - Exp(u)), u))
  {
  }

  lemma AgainPlain(r: Reading, s: string, o: Options)
    requires Scaled(s, o) == Some(r) && Plain(r.value)
    ensures Scaled(WithUnit(r.value, r.unit), o) == Some(r)
  {
    ReadCanonical(Upper(s));
    ReadPlain(r.value, r.unit);
    RescaleAgain(Read(Upper(s)).value, r, o);
  }

  lemma ExponentFixed(r: Reading, u: Unit, o: Options)
    requires !Plain(r.value) && (r.unit == One ==> Assumed(o) == One) && u == if Names(o.to) then r.unit else Assumed(o)
    ensures WithUnit(Shift(Alone(r.value), Exp(Assumed(o)) - Exp(u)), u) == WithUnit(r.value, r.unit) <==>
      Point(r.value) == -8 && r.unit == Giga && Assumed(o) == One && Names(o.to)
  {
    var d := Shift(Alone(r.value), Exp(Assumed(o)) - Exp(u));
    ShiftAlone(r.value, Exp(Assumed(o)) - Exp(u), 0);
    if WithUnit(d, u) == WithUnit(r.value, r.unit) {
      TextsDiffer(r.value, r.unit, d, u);
    }
  }

  lemma Normalized(s: string, o: Options, r: Reading)
    requires Scaled(s, o) == Some(r) && o.scale && !o.number
    ensures NormalizeHz(s, o) == Text(WithUnit(r.value, r.unit))
  {
  }

  lemma PlainFixed(s: string, o: Options, r: Reading)
    requires Scaled(s, o) == Some(r) && o.scale && !o.number && Plain(r.value)
    ensures NormalizeHz(WithUnit(r.value, r.unit), o) == Text(WithUnit(r.value, r.unit))
  {
    AgainPlain(r, s, o);
    Normalized(WithUnit(r.value, r.unit), o, r);
  }

  /** What a text gives of which only a bare number is read. */
  lemma BareAgain(t: string, o: Options, r0: Reading, r: Reading, x: Decimal, u: Unit)
    requires Rescale(r0, o) == Some(r) && o.scale && !o.number && Read(Upper(t)) == Some(Reading(x, One))
    requires u == if Names(o.to) then r.unit else Assumed(o)
    ensures NormalizeHz(t, o) == Text(WithUnit(Shift(x, Exp(Assumed(o)) - Exp(u)), u))
  {
    RescaleBare(r0, r, x, o);
    Normalized(t, o, Reading(Shift(x, Exp(Assumed(o)) - Exp(u)), u));
  }

  lemma ExponentAgain(s: string, o: Options, r: Reading)
    requires Scaled(s, o) == Some(r) && o.scale && !o.number && !Plain(r.value)
    ensures NormalizeHz(WithUnit(r.value, r.unit), o) == Text(WithUnit(r.value, r.unit)) <==>
      Point(r.value) == -8 && r.unit == Giga && Assumed(o) == One && Names(o.to)
  {
    var u := if Names(o.to) then r.unit else Assumed(o);
    OutUnitRead(s, o);
    ReadCanonical(Upper(s));
    ReadExponent(r.value, r.unit);
    BareAgain(WithUnit(r.value, r.unit), o, Read(Upper(s)).value, r, Alone(r.value), u);
    ExponentFixed(r, u, o);
  }

  /** With the unit printed, a second application with the same options changes nothing exactly if the
      input is printed without an exponent, or is one of 1 to 10 Hz printed in GHz on request. */
  lemma Idempotent(s: string, o: Options)
    requires Accepted(s, o) && o.scale && !o.number
    ensures var n := NormalizeHz(s, o);
      n.Text? && (NormalizeHz(n.text, o) == n <==>
        PrintedPlain(s, o)
        || (PointPrinted(s, o) == -8 && UnitPrinted(s, o) == Giga && Assumed(o) == One && Names(o.to)))
  {
    PrintedOutput(s, o);
    var r := Scaled(s, o).value;
    Normalized(s, o, r);
    if Plain(r.value) {
      PlainFixed(s, o, r);
    } else {
      ExponentAgain(s, o, r);
    }
  }

  const TO_GHZ := Options("G", true, "", false)

  lemma ToGiga(d: Decimal)
    ensures Rescale(Reading(d, One), TO_GHZ) == Some(Reading(Shift(d, -9), Giga))
  {
    assert Upper("G") == "G";
  }

  lemma HundredHertz()
    ensures Scaled("100", TO_GHZ) == Some(Reading(Decimal(false, 1, -7), Giga))
  {
    var d := Decimal(false, 1, 2);
    assert Print(d) == "100";
    ReadBare(d);
    ToGiga(d);
  }

  lemma ExponentPrinted()
    ensures WithUnit(Decimal(false, 1, -7), Giga) == "1e-7 GHz" && !Plain(Decimal(false, 1, -7))
  {
  }

  lemma AloneDigit(d: Decimal, o: Options)
    requires 0 < d.m < 10 && o.assumed == ""
    ensures Shift(Alone(d), Exp(Assumed(o))) == Decimal(d.neg, d.m, 0)
  {
    assert |ToDec(d.m)| == 1;
  }

  lemma DigitHz(r: Reading, o: Options)
    requires 0 < r.value.m < 10 && !Plain(r.value) && o.assumed == ""
    ensures Hz(WithUnit(r.value, r.unit), o) == Some(Decimal(r.value.neg, r.value.m, 0))
  {
    AloneDigit(r.value, o);
    HzOfExponent(r, o);
  }

  lemma ExponentChanges(s: string, o: Options, r: Reading)
    requires Scaled(s, o) == Some(r) && o.scale && !o.number && !Plain(r.value) && Point(r.value) != -8
    ensures NormalizeHz(s, o) == Text(WithUnit(r.value, r.unit))
    ensures NormalizeHz(WithUnit(r.value, r.unit), o) != Text(WithUnit(r.value, r.unit))
  {
    PrintedOutput(s, o);
    Idempotent(s, o);
    Normalized(s, o, r);
  }

  /** 100 Hz in GHz is printed with an exponent: read back it stands for 1 Hz, and applied again the text
      changes. */
  lemma ExponentMisread()
    ensures NormalizeHz("100", TO_GHZ) == Text("1e-7 GHz")
    ensures Hz("100", TO_GHZ) == Some(Decimal(false, 1, 2)) && Hz("1e-7 GHz", TO_GHZ) == Some(Decimal(false, 1, 0))
    ensures NormalizeHz("1e-7 GHz", TO_GHZ) != Text("1e-7 GHz")
  {
    HundredHertz();
    ExponentPrinted();
    var r := Reading(Decimal(false, 1, -7), Giga);
    DigitHz(r, TO_GHZ);
    ExponentChanges("100", TO_GHZ, r);
    ValuePreserved("100", TO_GHZ);
  }

  /** A printed number with a unit is kept as it is when no other unit is asked for. */
  lemma FixedPoint(d: Decimal, u: Unit, o: Options)
    requires Canonical(d) && Plain(d) && u != One && o.to == "" && o.scale && !o.number
    ensures NormalizeHz(WithUnit(d, u), o) == Text(WithUnit(d, u))
  {
    ReadPlain(d, u);
    KeepsUnit(d, u, o);
    assert Scaled(WithUnit(d, u), o) == Some(Reading(d, u));
  }

  lemma KeepsUnit(d: Decimal, u: Unit, o: Options)
    requires u != One && o.to == ""
    ensures Rescale(Reading(d, u), o) == Some(Reading(d, u))
  {
  }

  lemma EndsInHz(d: Decimal, u: Unit)
    ensures var t := WithUnit(d, u);
      |t| > 2 && t[|t| - 1] == 'z' && Upper(t)[|t| - 1] == 'Z'
  {
  }
}

/** Which texts are read as which frequencies, and what is made of them: in terms of their characters. */
module HertzTexts {
  import opened Bytes
  import opened Decimals
  import opened Hertz

  // --- Texts ---

  predicate NoDigits(s: string) {
    forall k :: 0 <= k < |s| ==> !('0' <= s[k] <= '9')
  }

  /** Tabs, line ends, blanks: what a JavaScript pattern takes for white space. */
  predicate Blank(s: string) {
    forall k :: 0 <= k < |s| ==>
      s[k] as int in {0x09, 0x0A, 0x0B, 0x0C, 0x0D, 0x20, 0xA0, 0x1680, 0x2000, 0x2001, 0x2002, 0x2003, 0x2004, 0x2005,
                      0x2006, 0x2007, 0x2008, 0x2009, 0x200A, 0x2028, 0x2029, 0x202F, 0x205F, 0x3000, 0xFEFF}
  }

  /** The power of ten that the first letter of a text stands for. */
  function Power(letters: string): int {
    if letters == "" then 0
    else if letters[0] in "Gg" then 9 else if letters[0] in "Mm" then 6 else if letters[0] in "Kk" then 3 else 0
  }

  /** The unit of a power of ten. */
  function UnitName(power: int): string {
    if power == 9 then "GHz" else if power == 6 then "MHz" else if power == 3 then "KHz" else "Hz"
  }

  /** A text with a number: integer digits, a point and fraction digits perhaps, white space, a unit letter
      perhaps, and anything in front and behind. */
  datatype Spelling = Spelling(before: string, neg: bool, integer: string, fraction: string, spaces: string,
                               unit: string, behind: string)

  function Behind(x: Spelling): string {
    x.spaces + (x.unit + x.behind)
  }

  function Spelled(x: Spelling): string {
    x.before + ((if x.neg then "-" else "")
                + (x.integer + ((if x.fraction == "" then "" else "." + x.fraction) + Behind(x))))
  }

  /** The parts are where they seem to be: the digits are the first ones, a minus sign belongs to the number,
      the white space and the digits do not go on, and the letter is one of G, M and K. */
  predicate Proper(x: Spelling) {
    && NoDigits(x.before) && (!x.neg && x.before != "" ==> x.before[|x.before| - 1] != '-')
    && x.integer != "" && AllDigits(x.integer) && AllDigits(x.fraction) && Blank(x.spaces)
    && (x.unit != "" ==> |x.unit| == 1 && Power(x.unit) != 0)
    && (x.unit == "" && x.behind != "" ==> !Blank(x.behind[..1]) && Power(x.behind) == 0)
    && (x.unit == "" && x.spaces == "" ==> Stops(x.behind))
  }

  /** The text is read as this number, with the unit of this power of ten. */
  predicate ReadAs(s: string, d: Decimal, power: int) {
    var r := Read(Upper(s));
    r.Some? && r.value.value == d && Exp(r.value.unit) == power
  }

  // --- Reading ---

  lemma {:induction false} StartBehind(u: string, t: string)
    requires NoDigits(u) && t != "" && (IsDigit(t[0]) || (t[0] == '-' && |t| >= 2 && IsDigit(t[1])))
    requires IsDigit(t[0]) && u != "" ==> u[|u| - 1] != '-'
    ensures NumberStart(u + t) == |u|
    decreases |u|
  {
    if u == "" {
      assert u + t == t;
    } else {
      assert (u + t)[1..] == u[1..] + t;
      StartBehind(u[1..], t);
    }
  }

  lemma ReadBehind(u: string, neg: bool, a: string, t: string)
    requires NoDigits(u) && (!neg && u != "" ==> u[|u| - 1] != '-') && a != "" && IsDigit(a[0])
    requires t == (if neg then "-" else "") + a
    ensures Read(u + t) == ReadNumber(neg, a)
  {
    StartBehind(u, t);
    var s := u + t;
    assert s[|u|] == t[0];
    if neg {
      assert s[|u| + 1..] == a;
    } else {
      assert s[|u|..] == t == a;
    }
  }

  lemma UpperDigits(u: string)
    requires NoDigits(u)
    ensures NoDigits(Upper(u)) && (u != "" && u[|u| - 1] != '-' ==> Upper(u)[|u| - 1] != '-')
  {
  }

  lemma UnitUpper(c: char)
    ensures Exp(UnitOf(UpperChar(c))) == Power([c])
  {
  }

  /** Behind white space the unit is that of the first other character. */
  lemma {:induction false} UnitBehind(spaces: string, t: string)
    requires Blank(spaces) && (t != "" ==> !Blank(t[..1]))
    ensures Exp(UnitAfter(Upper(spaces + t))) == Power(t)
    decreases |spaces|
  {
    var s := spaces + t;
    if spaces != "" {
      assert s[1..] == spaces[1..] + t;
      assert IsSpace(s[0]) && UpperChar(s[0]) == s[0];
      UpperRest(s);
      UnitBehind(spaces[1..], t);
    } else if t != "" {
      assert s == t && t[..1] == [t[0]];
      NotSpace(t[0]);
      UnitUpper(t[0]);
    }
  }

  lemma UpperRest(s: string)
    requires s != ""
    ensures Upper(s) != "" && Upper(s)[0] == UpperChar(s[0]) && Upper(s)[1..] == Upper(s[1..])
  {
  }

  lemma NotSpace(c: char)
    requires !Blank([c])
    ensures !IsSpace(UpperChar(c))
  {
    assert [c][0] == c;
  }

  /** The text in upper case, part by part. */
  lemma UpperSpelled(x: Spelling)
    requires AllDigits(x.integer) && AllDigits(x.fraction)
    ensures Upper(Spelled(x)) ==
      Upper(x.before) + ((if x.neg then "-" else "")
                         + (x.integer + (Fraction(x.fraction) + Upper(Behind(x)))))
  {
    var sign := if x.neg then "-" else "";
    var body := x.integer + (Fraction(x.fraction) + Behind(x));
    UpperAppend(x.before, sign + body);
    UpperAppend(sign, body);
    UpperAppend(x.integer, Fraction(x.fraction) + Behind(x));
    UpperAppend(Fraction(x.fraction), Behind(x));
    assert Upper(sign) == sign && Upper(x.integer) == x.integer && Upper(Fraction(x.fraction)) == Fraction(x.fraction);
  }

  /** What follows the digits neither continues them nor hides the unit. */
  lemma BehindRead(x: Spelling)
    requires Proper(x)
    ensures Stops(Upper(Behind(x))) && Exp(UnitAfter(Upper(Behind(x)))) == Power(x.unit)
  {
    var t := x.unit + x.behind;
    if x.unit == "" {
      assert t == x.behind;
    } else {
      assert t[..1] == x.unit && t[0] == x.unit[0];
    }
    UnitBehind(x.spaces, t);
    BehindStops(x, Behind(x));
  }

  lemma BehindStops(x: Spelling, t: string)
    requires Proper(x) && t == Behind(x)
    ensures Stops(Upper(t))
  {
    if x.spaces != "" {
      assert t[0] == x.spaces[0];
    } else if x.unit != "" {
      assert t[0] == x.unit[0];
    } else {
      assert t == x.behind;
    }
  }

  /** Every text of this form is read as the number its digits denote, with the unit of its letter. */
  lemma ReadsText(x: Spelling, d: Decimal)
    requires Proper(x) && d.neg == x.neg && Denotes(d, x.integer, x.fraction)
    ensures ReadAs(Spelled(x), d, Power(x.unit))
  {
    var t := Upper(Behind(x));
    var a := x.integer + (Fraction(x.fraction) + t);
    UpperSpelled(x);
    UpperDigits(x.before);
    BehindRead(x);
    ReadBehind(Upper(x.before), x.neg, a, (if x.neg then "-" else "") + a);
    NumberParts(x.neg, x.integer, x.fraction, t, d);
  }

  /** A text without a digit is refused. */
  lemma RefusesNoDigits(s: string, o: Options)
    requires NoDigits(s)
    ensures NormalizeHz(s, o) == Throws
  {
    UpperDigits(s);
    NoStart(Upper(s));
  }

  lemma {:induction false} NoStart(u: string)
    requires NoDigits(u)
    ensures NumberStart(u) == |u|
    decreases |u|
  {
    if u != "" {
      NoStart(u[1..]);
    }
  }

  /** So is the number 0. */
  lemma RefusesZero(x: Spelling, o: Options)
    requires Proper(x) && AllDigits(x.integer + x.fraction) && NatOf(x.integer + x.fraction) == 0
    ensures NormalizeHz(Spelled(x), o) == Throws
  {
    var t := Upper(Behind(x));
    var a := x.integer + (Fraction(x.fraction) + t);
    UpperSpelled(x);
    UpperDigits(x.before);
    BehindRead(x);
    ReadBehind(Upper(x.before), x.neg, a, (if x.neg then "-" else "") + a);
    ZeroRefused(x.neg, x.integer, x.fraction, t);
  }

  lemma ZeroRefused(neg: bool, i: string, f: string, t: string)
    requires AllDigits(i) && AllDigits(f) && AllDigits(i + f) && NatOf(i + f) == 0 && Stops(t)
    ensures ReadNumber(neg, i + (Fraction(f) + t)) == None
  {
    RunOf(i, Fraction(f) + t);
    Halves(i, Fraction(f) + t);
    GroupsOf(f, t);
  }

  lemma TwoGroups(s: string, s1: string, f: string, s2: string)
    requires |s| >= 2 && s[0] == '.' && s[1..] == s1 && DigitRun(s1) == |f| && s1[|f|..] == s2 && IsDigit(s[1])
    requires |s2| >= 2 && s2[0] == '.' && IsDigit(s2[1])
    ensures ReadGroups(s).count >= 2
  {
  }

  lemma GroupsRefused(neg: bool, i: string, f: string, t: string)
    requires i != "" && AllDigits(i) && f != "" && AllDigits(f) && t != "" && IsDigit(t[0])
    ensures ReadNumber(neg, i + ("." + f + ("." + t))) == None
  {
    var more := "." + t;
    var groups := "." + f + more;
    RunOf(i, groups);
    Halves(i, groups);
    assert groups[1..] == f + more && groups[1] == f[0] && more[1] == t[0];
    RunOf(f, more);
    Halves(f, more);
    TwoGroups(groups, f + more, f, more);
  }

  lemma UpperGroups(f: string, t: string)
    requires AllDigits(f)
    ensures Upper("." + f + ("." + t)) == "." + f + ("." + Upper(t))
  {
    UpperAppend("." + f, "." + t);
    UpperAppend(".", t);
    assert Upper("." + f) == "." + f && Upper(".") == ".";
  }

  lemma UpperNumber(before: string, neg: bool, i: string, groups: string)
    requires AllDigits(i)
    ensures Upper(before + ((if neg then "-" else "") + (i + groups))) ==
      Upper(before) + ((if neg then "-" else "") + (i + Upper(groups)))
  {
    var sign := if neg then "-" else "";
    UpperAppend(before, sign + (i + groups));
    UpperAppend(sign, i + groups);
    UpperAppend(i, groups);
    assert Upper(sign) == sign && Upper(i) == i;
  }

  lemma ThrowsUnread(s: string, o: Options)
    requires Read(Upper(s)) == None
    ensures NormalizeHz(s, o) == Throws
  {
  }

  /** And so are two fractions one behind the other. */
  lemma RefusesGroups(before: string, neg: bool, i: string, f: string, t: string, s: string, o: Options)
    requires NoDigits(before) && (!neg && before != "" ==> before[|before| - 1] != '-')
    requires i != "" && AllDigits(i) && f != "" && AllDigits(f) && t != "" && IsDigit(t[0])
    requires s == before + ((if neg then "-" else "") + (i + ("." + f + ("." + t))))
    ensures NormalizeHz(s, o) == Throws
  {
    UpperDigits(before);
    UpperNumber(before, neg, i, "." + f + ("." + t));
    UpperGroups(f, t);
    var a := i + ("." + f + ("." + Upper(t)));
    ReadBehind(Upper(before), neg, a, (if neg then "-" else "") + a);
    GroupsRefused(neg, i, f, Upper(t));
    ThrowsUnread(s, o);
  }

  // --- What is made of them ---

  lemma OutUnitPower(u: Unit, to: string)
    ensures var out := OutUnit(u, to);
      if Power(to) == 0 then out == Some(u)
      else if |to| > 1 then out == None
      else out.Some? && Exp(out.value) == Power(to)
  {
    if to != "" {
      UnitUpper(to[0]);
      assert Power([to[0]]) == Power(to);
    }
  }

  lemma AssumedPower(o: Options)
    ensures Exp(Assumed(o)) == Power(o.assumed)
  {
    if o.assumed != "" {
      UnitUpper(o.assumed[0]);
      assert Power([o.assumed[0]]) == Power(o.assumed);
    }
  }

  lemma SuffixName(u: Unit)
    ensures Suffix(u) == " " + UnitName(Exp(u))
  {
  }

  /** How a number comes out: as it is, as a text with its unit, or as a bare text. */
  function Output(v: Decimal, unit: string, o: Options): Normal {
    if o.number then Number(v) else if o.scale then Text(Print(v) + (" " + unit)) else Text(Print(v))
  }

  /** What is made of a number: converted from its own unit, or the assumed one if it has none, to the unit
      asked for, or its own if none is asked for. An option counts by its first letter, except that the unit
      asked for must be that letter alone. */
  function Converted(d: Decimal, power: int, o: Options): Normal {
    var a := if power != 0 then power else Power(o.assumed);
    var b := if Power(o.to) != 0 then Power(o.to) else a;
    if Power(o.to) != 0 && |o.to| > 1 then Throws else Output(d.(e := d.e + a - b), UnitName(b), o)
  }

  lemma ScaledTo(s: string, o: Options, r: Reading, u: Unit, v: Decimal)
    requires Read(Upper(s)) == Some(r) && OutUnit(InUnit(r, o), o.to) == Some(u)
    requires v == Shift(r.value, Exp(InUnit(r, o)) - Exp(u))
    ensures Scaled(s, o) == Some(Reading(v, u))
  {
  }

  lemma NormalizesTo(s: string, o: Options, u: Unit, v: Decimal)
    requires Scaled(s, o) == Some(Reading(v, u))
    ensures NormalizeHz(s, o) == Output(v, UnitName(Exp(u)), o)
  {
    SuffixName(u);
  }

  lemma NormalizesNot(s: string, o: Options, r: Reading)
    requires Read(Upper(s)) == Some(r) && OutUnit(InUnit(r, o), o.to) == None
    ensures NormalizeHz(s, o) == Throws
  {
  }

  lemma InPower(r: Reading, o: Options)
    ensures Exp(InUnit(r, o)) == if Exp(r.unit) != 0 then Exp(r.unit) else Power(o.assumed)
  {
    AssumedPower(o);
  }

  lemma ConvertedTo(d: Decimal, power: int, o: Options, a: Unit, u: Unit, v: Decimal)
    requires Exp(a) == (if power != 0 then power else Power(o.assumed)) && OutUnit(a, o.to) == Some(u)
    requires v == Shift(d, Exp(a) - Exp(u))
    ensures Converted(d, power, o) == Output(v, UnitName(Exp(u)), o)
  {
    OutUnitPower(a, o.to);
  }

  lemma Normalizes(s: string, o: Options, d: Decimal, power: int)
    requires ReadAs(s, d, power)
    ensures NormalizeHz(s, o) == Converted(d, power, o)
  {
    var r := Read(Upper(s)).value;
    NormalizesReading(s, o, r, InUnit(r, o));
  }

  lemma NormalizesReading(s: string, o: Options, r: Reading, a: Unit)
    requires Read(Upper(s)) == Some(r) && a == InUnit(r, o)
    ensures NormalizeHz(s, o) == Converted(r.value, Exp(r.unit), o)
  {
    InPower(r, o);
    match OutUnit(a, o.to)
    case None =>
      OutUnitPower(a, o.to);
      NormalizesNot(s, o, r);
    case Some(u) =>
      var v := Shift(r.value, Exp(a) - Exp(u));
      ConvertedTo(r.value, Exp(r.unit), o, a, u, v);
      ScaledTo(s, o, r, u, v);
      NormalizesTo(s, o, u, v);
  }

  /** The frequency texts, character by character: digits, white space and a letter in, and digits, one blank
      and a unit out. */
  lemma NormalizesText(x: Spelling, o: Options, d: Decimal)
    requires Proper(x) && d.neg == x.neg && Denotes(d, x.integer, x.fraction)
    ensures NormalizeHz(Spelled(x), o) == Converted(d, Power(x.unit), o)
  {
    ReadsText(x, d);
    Normalizes(Spelled(x), o, d, Power(x.unit));
  }

  lemma FifteenSpelled(x: Spelling)
    requires x == Spelling("", false, "1500", "", "", "M", "Hz")
    ensures Proper(x) && Spelled(x) == "1500MHz"
  {
  }

  lemma FifteenDenoted(d: Decimal)
    requires d == Decimal(false, 15, 2)
    ensures Denotes(d, "1500", "")
  {
    assert "15" + Zeros(2) == "1500" + "";
    assert "15"[..1] == "1" && "1"[..0] == "";
    NatOfZerosAfter("15", 2);
    assert Canon(false, 1500, 0) == d;
  }

  lemma FifteenConverted(d: Decimal, o: Options)
    requires o == Options("", true, "", false)
    ensures Converted(d, Power("M"), o) == Output(d, "MHz", o)
  {
    assert d.(e := d.e + 6 - 6) == d;
  }

  /** A unit right behind the digits. */
  lemma Fifteen(o: Options)
    requires o == Options("", true, "", false)
    ensures NormalizeHz("1500MHz", o) == Text("1500" + (" " + "MHz"))
  {
    var d, x := Decimal(false, 15, 2), Spelling("", false, "1500", "", "", "M", "Hz");
    PrintsPlain();
    FifteenDenoted(d);
    FifteenSpelled(x);
    FifteenConverted(d, o);
    NormalizesText(x, o, d);
  }
}

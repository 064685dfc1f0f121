/** The names of the resolution bandwidths, and the bits that stand for them. */
module Bandwidths {
  import opened Bytes
  import opened Hex
  import opened Decimals
  import opened Hertz
  import HertzTexts

  function RbwName(i: nat): string
    requires i < 8
  {
    match i
    case 0 => "RESERVED"
    case 1 => "200 KHz"
    case 2 => "3 KHz"
    case 3 => "10 KHz"
    case 4 => "100 KHz"
    case 5 => "300 KHz"
    case 6 => "1 MHz"
    case _ => "3 MHz"
  }

  /** The position of a name, or 7 if there is none: an unknown bandwidth becomes 3 MHz. */
  function RbwIndex(name: string): (i: nat)
    ensures i < 8
    ensures forall k :: 0 <= k < i ==> name != RbwName(k)
    ensures name == RbwName(i) || forall k :: 0 <= k < 8 ==> name != RbwName(k)
  {
    if name == RbwName(0) then 0 else if name == RbwName(1) then 1 else if name == RbwName(2) then 2
    else if name == RbwName(3) then 3 else if name == RbwName(4) then 4 else if name == RbwName(5) then 5
    else if name == RbwName(6) then 6 else 7
  }

  function Mask(i: nat): byte
    requires i < 8
  {
    [1, 2, 4, 8, 16, 32, 64, 128][i]
  }

  const RBW_OPTIONS := Options("", true, "K", false)

  /** `toRBWHex`; None where it throws. */
  function ToRbwHex(name: string): Option<string> {
    if name == "" || Upper(name) == "RESERVED" then Some("00") else
    match NormalizeHz(name, RBW_OPTIONS)
    case Text(t) => HexFromNumber(Mask(RbwIndex(t)), 2)
    case _ => None
  }

  /** `fromRBWHex`: the name of the lowest set bit. */
  function FromRbw(b: byte): Option<string> {
    if Bit(b, 0) then Some(RbwName(0)) else if Bit(b, 1) then Some(RbwName(1))
    else if Bit(b, 2) then Some(RbwName(2)) else if Bit(b, 3) then Some(RbwName(3))
    else if Bit(b, 4) then Some(RbwName(4)) else if Bit(b, 5) then Some(RbwName(5))
    else if Bit(b, 6) then Some(RbwName(6)) else if Bit(b, 7) then Some(RbwName(7)) else None
  }

  lemma MaskHex(i: nat)
    requires i < 8
    ensures var t := HexFromNumber(Mask(i), 2);
      t.Some? && BufferFrom(t.value) == [Mask(i)] && |t.value| == 2 && AllHex(t.value)
  {
    ByteHex(Mask(i));
  }

  /** Two digits stand for one byte. */
  lemma ByteHex(b: byte)
    ensures var t := HexFromNumber(b, 2);
      t.Some? && |t.value| == 2 && AllHex(t.value) && BufferFrom(t.value) == [b]
  {
    assert Pow16(2) == 256 by {
      assert Pow16(1) == 16 * Pow16(0);
    }
    HexExact(b, 2);
    var t := HexFromNumber(b, 2).value;
    BufferValue(t);
    FromBe1(BufferFrom(t));
  }

  /** Eight digits stand for the four bytes of a 32-bit value. */
  lemma WordHex(n: int)
    requires 0 <= n < 0x1_0000_0000
    ensures var t := HexFromNumber(n, 8);
      t.Some? && |t.value| == 8 && AllHex(t.value) && BufferFrom(t.value) == Be32(n)
  {
    assert Pow16(8) == 0x1_0000_0000 by {
      assert Pow16(2) == 256 && Pow16(4) == 0x1_0000 && Pow16(6) == 0x100_0000;
    }
    HexExact(n, 8);
    var t := HexFromNumber(n, 8).value;
    BufferValue(t);
    Be32Inverse(BufferFrom(t));
  }

  lemma LookedUp(t: string)
    requires t != "" && Upper(t) != "RESERVED" && NormalizeHz(t, RBW_OPTIONS) == Text(t)
    ensures ToRbwHex(t) == HexFromNumber(Mask(RbwIndex(t)), 2)
  {
  }

  /** A text that is already in printed form is looked up as it is. */
  lemma PrintedName(d: Decimal, u: Unit)
    requires Canonical(d) && Plain(d) && u != One
    ensures ToRbwHex(WithUnit(d, u)) == HexFromNumber(Mask(RbwIndex(WithUnit(d, u))), 2)
  {
    FixedPoint(d, u, RBW_OPTIONS);
    EndsInHz(d, u);
    NotReserved(Upper(WithUnit(d, u)));
    LookedUp(WithUnit(d, u));
  }

  lemma NotReserved(t: string)
    requires t != "" && t[|t| - 1] == 'Z'
    ensures t != "RESERVED"
  {
  }

  /** The number and the unit of each name but the reserved one. */
  function RbwValue(i: nat): Decimal
    requires 1 <= i < 8
  {
    match i
    case 1 => Decimal(false, 2, 2)
    case 2 => Decimal(false, 3, 0)
    case 3 => Decimal(false, 1, 1)
    case 4 => Decimal(false, 1, 2)
    case 5 => Decimal(false, 3, 2)
    case 6 => Decimal(false, 1, 0)
    case _ => Decimal(false, 3, 0)
  }

  lemma OneDigit(d: Decimal, u: Unit)
    requires !d.neg && 0 < d.m < 10 && 0 <= d.e <= 2
    ensures Canonical(d) && Plain(d)
    ensures WithUnit(d, u) == [DigitChar(d.m)] + Zeros(d.e) + Suffix(u)
  {
  }

  lemma NameText(i: nat)
    requires 1 <= i < 8
    ensures var d := RbwValue(i);
      Canonical(d) && Plain(d) && RbwName(i) == WithUnit(d, if i < 6 then Kilo else Mega)
  {
    OneDigit(RbwValue(i), if i < 6 then Kilo else Mega);
    if i < 6 {
      KiloName(i);
    } else {
      assert RbwName(i) == [DigitChar(RbwValue(i).m)] + Zeros(0) + " MHz";
    }
  }

  lemma KiloName(i: nat)
    requires 1 <= i < 6
    ensures RbwName(i) == [DigitChar(RbwValue(i).m)] + Zeros(RbwValue(i).e) + " KHz"
  {
  }

  lemma IndexOfName(i: nat)
    requires i < 8
    ensures RbwIndex(RbwName(i)) == i
  {
  }

  lemma NamedSent(i: nat)
    requires 1 <= i < 8
    ensures ToRbwHex(RbwName(i)) == HexFromNumber(Mask(i), 2)
  {
    NameText(i);
    PrintedName(RbwValue(i), if i < 6 then Kilo else Mega);
    IndexOfName(i);
  }

  lemma MaskRead(i: nat)
    requires i < 8
    ensures FromRbw(Mask(i)) == Some(RbwName(i))
  {
    assert Mask(i) == if i == 0 then 1 else if i == 1 then 2 else if i == 2 then 4 else if i == 3 then 8
      else if i == 4 then 16 else if i == 5 then 32 else if i == 6 then 64 else 128;
  }

  /** Every named bandwidth is sent as its own bit, and read back by name. */
  lemma RbwRoundTrip(i: nat)
    requires 1 <= i < 8
    ensures ToRbwHex(RbwName(i)).Some?
    ensures BufferFrom(ToRbwHex(RbwName(i)).value) == [Mask(i)]
    ensures FromRbw(Mask(i)) == Some(RbwName(i))
  {
    NamedSent(i);
    MaskHex(i);
    MaskRead(i);
  }

  /** The name is sent as this byte, and the byte read as this name. */
  predicate StandsFor(name: string, b: byte) {
    ToRbwHex(name).Some? && BufferFrom(ToRbwHex(name).value) == [b] && FromRbw(b) == Some(name)
  }

  lemma NameStands(i: nat, name: string, b: byte)
    requires 1 <= i < 8 && name == RbwName(i) && b == Mask(i)
    ensures StandsFor(name, b)
  {
    RbwRoundTrip(i);
  }

  predicate BitOf(b: byte, name: string) {
    || (b == 0x80 && name == "3 MHz") || (b == 0x40 && name == "1 MHz") || (b == 0x20 && name == "300 KHz")
    || (b == 0x10 && name == "100 KHz") || (b == 0x08 && name == "10 KHz") || (b == 0x04 && name == "3 KHz")
    || (b == 0x02 && name == "200 KHz")
  }

  /** The bits, by name. */
  lemma BitNames(b: byte, name: string)
    requires BitOf(b, name)
    ensures StandsFor(name, b)
  {
    NameStands(if b == 0x80 then 7 else if b == 0x40 then 6 else if b == 0x20 then 5 else if b == 0x10 then 4
               else if b == 0x08 then 3 else if b == 0x04 then 2 else 1, name, b);
  }

  /** Of several bits the lowest counts; no bit has no name. */
  lemma LowestBit(b: byte, i: nat)
    requires i < 8 && Bit(b, i) && forall k :: 0 <= k < i ==> !Bit(b, k)
    ensures FromRbw(b) == Some(RbwName(i))
    ensures FromRbw(0) == None
  {
    assert forall k :: 0 <= k < 8 ==> !Bit(0, k);
  }

  // --- Any text ---

  /** What a name is read as. */
  function RbwReading(i: nat): Reading
    requires 1 <= i < 8
  {
    Reading(RbwValue(i), if i < 6 then Kilo else Mega)
  }

  lemma MarkInExponent(d: Decimal, u: Unit)
    requires !Plain(d)
    ensures !NoExponentMark(WithUnit(d, u))
  {
    ExponentText(d, u);
    var p := Sign(d) + Mantissa(d);
    assert WithUnit(d, u)[|p|] == Exponent(d)[0] == 'e';
  }

  /** A number and unit are printed as a name exactly if they are those of the name. */
  lemma NameMeans(i: nat, r: Reading)
    requires 1 <= i < 8 && Canonical(r.value)
    ensures WithUnit(r.value, r.unit) == RbwName(i) <==> r == RbwReading(i)
  {
    NameText(i);
    var n := RbwReading(i);
    if WithUnit(r.value, r.unit) == RbwName(i) {
      PlainHasNoMark(n.value, n.unit);
      if !Plain(r.value) {
        MarkInExponent(r.value, r.unit);
      }
      ReadPlain(n.value, n.unit);
      ReadPlain(r.value, r.unit);
    }
  }

  lemma NotReservedName(d: Decimal, u: Unit)
    ensures WithUnit(d, u) != RbwName(0)
  {
    EndsInHz(d, u);
  }

  lemma MasksDiffer(i: nat, k: nat)
    requires i < 8 && k < 8
    ensures Mask(i) == Mask(k) <==> i == k
  {
  }

  lemma IndexMeans(r: Reading, i: nat)
    requires Canonical(r.value) && 1 <= i < 8
    ensures var k := RbwIndex(WithUnit(r.value, r.unit));
      k >= 1 && (i < 7 ==> (k == i <==> r == RbwReading(i)))
      && (k == 7 <==> forall j :: 1 <= j < 7 ==> r != RbwReading(j))
  {
    var t := WithUnit(r.value, r.unit);
    NotReservedName(r.value, r.unit);
    forall j | 1 <= j < 8
      ensures t == RbwName(j) <==> r == RbwReading(j)
    {
      NameMeans(j, r);
    }
    if t == RbwName(i) {
      IndexOfName(i);
    }
    var k := RbwIndex(t);
    if k < 7 {
      assert t == RbwName(k);
    } else {
      assert forall j :: 1 <= j < 7 ==> t != RbwName(j);
    }
  }

  lemma IndexSent(s: string, r: Reading)
    requires s != "" && Upper(s) != "RESERVED" && Scaled(s, RBW_OPTIONS) == Some(r)
    ensures ToRbwHex(s) == HexFromNumber(Mask(RbwIndex(WithUnit(r.value, r.unit))), 2)
  {
  }

  /** Whatever text asks for a bandwidth, it is sent as the bit of a name below 3 MHz exactly if its
      number and unit are those of the name, KHz being assumed; any other bandwidth that can be read,
      1000 KHz included, is sent as 3 MHz. */
  lemma RbwSent(s: string, r: Reading, i: nat)
    requires s != "" && Upper(s) != "RESERVED" && Scaled(s, RBW_OPTIONS) == Some(r) && 1 <= i < 7
    ensures ToRbwHex(s).Some?
    ensures BufferFrom(ToRbwHex(s).value) == [Mask(i)] <==> r == RbwReading(i)
    ensures BufferFrom(ToRbwHex(s).value) == [0x80] <==> forall k :: 1 <= k < 7 ==> r != RbwReading(k)
  {
    ValuePreserved(s, RBW_OPTIONS);
    IndexSent(s, r);
    IndexMeans(r, i);
    var k := RbwIndex(WithUnit(r.value, r.unit));
    MaskHex(k);
    MasksDiffer(k, i);
    MasksDiffer(k, 7);
    assert [Mask(k)][0] == Mask(k);
  }

  /** A text with a digit is no reserved name. */
  lemma DigitNotReserved(s: string, k: nat)
    requires k < |s| && IsDigit(s[k])
    ensures s != "" && Upper(s) != "RESERVED"
  {
    assert IsDigit(Upper(s)[k]);
  }

  lemma SpelledDigit(x: HertzTexts.Spelling)
    requires HertzTexts.Proper(x)
    ensures var s, k := HertzTexts.Spelled(x), |x.before| + if x.neg then 1 else 0;
      k < |s| && IsDigit(s[k])
  {
    assert HertzTexts.Spelled(x)[|x.before| + if x.neg then 1 else 0] == x.integer[0];
  }

  /** What is looked up for a text that is read: its number in its own unit, or in KHz. */
  lemma LookedUpAs(s: string, d: Decimal, power: int)
    requires HertzTexts.ReadAs(s, d, power)
    ensures var r := Scaled(s, RBW_OPTIONS);
      r.Some? && r.value.value == d && Exp(r.value.unit) == if power == 0 then 3 else power
  {
    var r := Read(Upper(s)).value;
    var u := InUnit(r, RBW_OPTIONS);
    assert Upper("") == "";
    HertzTexts.InPower(r, RBW_OPTIONS);
    HertzTexts.ScaledTo(s, RBW_OPTIONS, r, u, r.value);
  }

  /** The bandwidth a text asks for, character by character: below 3 MHz it is sent as the bit of a name
      exactly if its digits are the number of the name and its letter is the unit, K if there is none. */
  lemma RbwTextSent(s: string, x: HertzTexts.Spelling, d: Decimal, i: nat)
    requires HertzTexts.Proper(x) && d.neg == x.neg && Denotes(d, x.integer, x.fraction)
    requires s == HertzTexts.Spelled(x) && 1 <= i < 7
    ensures ToRbwHex(s).Some?
    ensures BufferFrom(ToRbwHex(s).value) == [Mask(i)] <==>
      d == RbwValue(i) && (if x.unit == "" then 3 else HertzTexts.Power(x.unit)) == if i < 6 then 3 else 6
  {
    HertzTexts.ReadsText(x, d);
    SpelledDigit(x);
    DigitNotReserved(s, |x.before| + if x.neg then 1 else 0);
    LookedUpAs(s, d, HertzTexts.Power(x.unit));
    RbwSent(s, Scaled(s, RBW_OPTIONS).value, i);
  }
}

/** The JavaScript builder of the change-settings packet: a text of hex digits grown piece by piece and
    turned into bytes at the end. */
module Requests {
  import opened Bytes
  import opened Hex
  import opened Decimals
  import opened Hertz
  import HertzTexts
  import opened Bandwidths
  import opened Schemas
  import opened ChangeSettings
  import opened Framing

  /** A frequency argument: absent (or `NaN`), a number (0 counts as absent), or a text (so does the empty one). */
  datatype Arg = Absent | Num(value: Decimal) | Str(text: string)

  predicate Missing(a: Arg) {
    a.Absent? || (a.Num? && a.value.m == 0) || (a.Str? && a.text == "")
  }

  const MHZ_OPTIONS := Options("M", false, "M", true)

  /** The frequency in MHz that an argument gives, or the default if it is missing. */
  function Megahertz(a: Arg, default: Decimal): Normal {
    NormalizeHz(if Missing(a) then Print(default) else if a.Num? then Print(a.value) else a.text, MHZ_OPTIONS)
  }

  const DEFAULT_CF := Decimal(false, 125, 1)
  const DEFAULT_SP := Decimal(false, 6, 2)

  /** The value 10000 times d, if it is a whole number. */
  function Units(d: Decimal): Option<int> {
    if d.e + 4 >= 0 then Some((if d.neg then -1 else 1) * (d.m * Pow10(d.e + 4))) else None
  }

  /** A number as it is printed in hex: a text that is none; `NaN` itself, or no argument at all; an infinity;
      a whole number; or one with a sign, a whole part and a fraction, whose hex digits are given. */
  datatype Value =
    | Unreadable
    | NotANumber
    | Infinite(neg: bool)
    | Whole(n: int)
    | Part(neg: bool, whole: nat, fraction: string)

  /** A level or input argument: a number, or a text that is not empty, which is converted where it is printed
      and is never taken for missing. */
  datatype Argument = AsNumber(v: Value) | AsText(v: Value)

  /** The hex digits that JavaScript prints behind the point of a number that is not whole. */
  type Fractions = Decimal -> string

  function Quotient(m: nat, p: nat): nat
    requires p > 0
  {
    m / p
  }

  /** 10000 times d. */
  function ValueOf(d: Decimal, digits: Fractions): Value {
    match Units(d)
    case Some(n) => Whole(n)
    case None => Part(d.neg, Quotient(d.m, Pow10(-(d.e + 4))), digits(d))
  }

  /** `toCSW(normalizeHz(…))`. */
  function WireValue(a: Arg, default: Decimal, digits: Fractions): Value {
    match Megahertz(a, default)
    case Number(d) => ValueOf(d, digits)
    case _ => Unreadable
  }

  /** `hexFromNumber` of any number. */
  function HexOf(v: Value, len: nat): Option<string>
    requires len > 0
  {
    match v
    case Unreadable => None
    case NotANumber => None
    case Infinite(neg) => if neg then Some(PadStart("-" + "Infinity", len)) else None
    case Whole(n) => HexFromNumber(n, len)
    case Part(neg, whole, fraction) =>
      if neg || whole < Pow16(len)
      then Some(PadStart((if neg then "-" else "") + ToHex(whole) + ("." + fraction), len)) else None
  }

  const MISSING := AsNumber(NotANumber)

  function OrDefault(a: Argument, default: int): Value {
    if a == AsNumber(Whole(0)) || a == AsNumber(NotANumber) then Whole(default) else a.v
  }

  function NameOrDefault(rbw: string): string {
    if rbw == "" then "1 MHz" else rbw
  }

  /** The builder throws, or yields bytes. */
  datatype Made = Thrown | Bytes(bytes: seq<byte>)

  /** The texts of the five values; None where printing one throws. */
  datatype Pieces = Pieces(
    cf: Option<string>, sp: Option<string>, rl: Option<string>, rbw: Option<string>, rf: Option<string>)

  function PiecesOf(cf: Value, sp: Value, rl: Value, rbw: string, rf: Value): Pieces {
    Pieces(HexOf(cf, 8), HexOf(sp, 8), HexOf(rl, 2), ToRbwHex(rbw), HexOf(rf, 2))
  }

  predicate NoneThrows(p: Pieces) {
    p.cf.Some? && p.sp.Some? && p.rl.Some? && p.rbw.Some? && p.rf.Some?
  }

  function Head(): string { "02001004" }
  function End(): string { "00000003" }

  function Join(p: Pieces): string
    requires NoneThrows(p)
  {
    Head() + p.cf.value + p.sp.value + p.rl.value + p.rbw.value + p.rf.value + End()
  }

  function MadeFrom(p: Pieces): Made {
    if NoneThrows(p) then Bytes(BufferFrom(Join(p))) else Thrown
  }

  /** `makeChangeConfig`, with the defaults for missing arguments; `digits` prints fractions. */
  function ChangeMade(cf: Arg, sp: Arg, rl: Argument, rbw: string, rf: Argument, digits: Fractions): Made {
    MadeFrom(PiecesOf(WireValue(cf, DEFAULT_CF, digits), WireValue(sp, DEFAULT_SP, digits), OrDefault(rl, 50),
                      NameOrDefault(rbw), OrDefault(rf, 10)))
  }

  /** The builder itself: the text grows by one piece after the other. */
  method MakeChangeConfig(cf: Arg, sp: Arg, rl: Argument, rbw: string, rf: Argument, digits: Fractions)
      returns (r: Made)
    ensures r == ChangeMade(cf, sp, rl, rbw, rf, digits)
  {
    var level, name, input := rl, rbw, rf;
    if level == AsNumber(Whole(0)) || level == AsNumber(NotANumber) { level := AsNumber(Whole(50)); }
    if name == "" { name := "1 MHz"; }
    if input == AsNumber(Whole(0)) || input == AsNumber(NotANumber) { input := AsNumber(Whole(10)); }
    var c, s := WireValue(cf, DEFAULT_CF, digits), WireValue(sp, DEFAULT_SP, digits);
    r := MakeText(PiecesOf(c, s, level.v, name, input.v));
  }

  method MakeText(p: Pieces) returns (r: Made)
    ensures r == MadeFrom(p)
  {
    var hex := "02";
    hex := hex + "0010";
    hex := hex + "04";
    assert hex == Head();
    if p.cf.None? { return Thrown; }
    hex := hex + p.cf.value;
    if p.sp.None? { return Thrown; }
    hex := hex + p.sp.value;
    if p.rl.None? { return Thrown; }
    hex := hex + p.rl.value;
    if p.rbw.None? { return Thrown; }
    hex := hex + p.rbw.value;
    if p.rf.None? { return Thrown; }
    hex := hex + p.rf.value;
    ghost var front := hex;
    hex := hex + "00";
    hex := hex + "0000";
    hex := hex + "03";
    assert hex == front + End();
    return Bytes(BufferFrom(hex));
  }

  // --- What the text stands for ---

  /** An even number of hex digits that stand for these bytes. */
  predicate Spells(t: string, bytes: seq<byte>) {
    |t| % 2 == 0 && AllHex(t) && BufferFrom(t) == bytes
  }

  lemma SpellsBoth(a: string, x: seq<byte>, b: string, y: seq<byte>)
    requires Spells(a, x) && Spells(b, y)
    ensures Spells(a + b, x + y)
  {
    BufferAppend(a, b);
  }

  lemma HeadSpells()
    ensures Spells(Head(), [STX] + Be16(0x10) + [WAVE_CHANGE])
  {
  }

  lemma EndSpells()
    ensures Spells(End(), [0, 0, 0, ETX])
  {
  }

  /** What is sent for a bandwidth is always one byte. */
  lemma RbwSpells(rbw: string)
    requires ToRbwHex(rbw).Some?
    ensures |BufferFrom(ToRbwHex(rbw).value)| == 1
    ensures Spells(ToRbwHex(rbw).value, BufferFrom(ToRbwHex(rbw).value)) && |ToRbwHex(rbw).value| == 2
  {
    if rbw == "" || Upper(rbw) == "RESERVED" {
      assert "00"[2..] == "";
    } else {
      MaskHex(RbwIndex(NormalizeHz(rbw, RBW_OPTIONS).text));
    }
  }

  function RbwByte(rbw: string): byte
    requires ToRbwHex(rbw).Some?
  {
    RbwSpells(rbw);
    BufferFrom(ToRbwHex(rbw).value)[0]
  }

  predicate InField(v: Value, limit: int) {
    v.Whole? && 0 <= v.n < limit
  }

  /** Every number is whole and fits its field, and the bandwidth is readable. */
  predicate AllFit(cf: Value, sp: Value, rl: Value, rbw: string, rf: Value) {
    && InField(cf, 0x1_0000_0000) && InField(sp, 0x1_0000_0000) && InField(rl, 256) && InField(rf, 256)
    && ToRbwHex(rbw).Some?
  }

  lemma FrontSpells(tc: string, xc: seq<byte>, ts: string, xs: seq<byte>)
    requires Spells(tc, xc) && Spells(ts, xs)
    ensures Spells(Head() + tc + ts, [STX] + Be16(0x10) + [WAVE_CHANGE] + xc + xs)
  {
    var h := [STX] + Be16(0x10) + [WAVE_CHANGE];
    HeadSpells();
    SpellsBoth(Head(), h, tc, xc);
    SpellsBoth(Head() + tc, h + xc, ts, xs);
  }

  lemma RestSpells(t: string, x: seq<byte>, tl: string, rl: byte, tb: string, rbw: byte, tf: string, rf: byte)
    requires Spells(t, x) && Spells(tl, [rl]) && Spells(tb, [rbw]) && Spells(tf, [rf])
    ensures Spells(t + tl + tb + tf + End(), x + [rl, rbw, rf, 0, 0, 0, ETX])
  {
    EndSpells();
    SpellsBoth(t, x, tl, [rl]);
    SpellsBoth(t + tl, x + [rl], tb, [rbw]);
    SpellsBoth(t + tl + tb, x + [rl] + [rbw], tf, [rf]);
    SpellsBoth(t + tl + tb + tf, x + [rl] + [rbw] + [rf], End(), [0, 0, 0, ETX]);
    assert x + [rl] + [rbw] + [rf] + [0, 0, 0, ETX] == x + [rl, rbw, rf, 0, 0, 0, ETX];
  }

  lemma PiecesSpell(p: Pieces, w: Wire)
    requires NoneThrows(p) && w.lnb == 0
    requires Spells(p.cf.value, Be32(w.cf)) && Spells(p.sp.value, Be32(w.sp))
    requires Spells(p.rl.value, [w.rl]) && Spells(p.rbw.value, [w.rbw]) && Spells(p.rf.value, [w.rf])
    ensures Spells(Join(p), ChangeFrame(w))
  {
    FrontSpells(p.cf.value, Be32(w.cf), p.sp.value, Be32(w.sp));
    RestSpells(Head() + p.cf.value + p.sp.value, [STX] + Be16(0x10) + [WAVE_CHANGE] + Be32(w.cf) + Be32(w.sp),
               p.rl.value, w.rl, p.rbw.value, w.rbw, p.rf.value, w.rf);
  }

  lemma WordSpells(v: Value)
    requires InField(v, 0x1_0000_0000)
    ensures HexOf(v, 8).Some? && Spells(HexOf(v, 8).value, Be32(v.n))
  {
    WordHex(v.n);
  }

  lemma ByteSpells(v: Value)
    requires InField(v, 256)
    ensures HexOf(v, 2).Some? && Spells(HexOf(v, 2).value, [v.n as byte])
  {
    ByteHex(v.n);
  }

  lemma RbwByteSpells(rbw: string)
    requires ToRbwHex(rbw).Some?
    ensures Spells(ToRbwHex(rbw).value, [RbwByte(rbw)])
  {
    RbwSpells(rbw);
  }

  function MadeWire(cf: Value, sp: Value, rl: Value, rbw: string, rf: Value): Wire
    requires AllFit(cf, sp, rl, rbw, rf)
  {
    Wire(cf.n, sp.n, rl.n, RbwByte(rbw), rf.n, 0)
  }

  /** The text spells the packet that the C library builds in place, with the LNB byte 0. */
  lemma JoinSpells(cf: Value, sp: Value, rl: Value, rbw: string, rf: Value)
    requires AllFit(cf, sp, rl, rbw, rf)
    ensures MadeFrom(PiecesOf(cf, sp, rl, rbw, rf)) == Bytes(ChangeFrame(MadeWire(cf, sp, rl, rbw, rf)))
  {
    WordSpells(cf);
    WordSpells(sp);
    ByteSpells(rl);
    ByteSpells(rf);
    RbwByteSpells(rbw);
    PiecesSpell(PiecesOf(cf, sp, rl, rbw, rf), MadeWire(cf, sp, rl, rbw, rf));
  }

  // --- Values that do not fit ---

  /** The bytes end where the text stops being hex digits. */
  lemma {:induction false} BufferStops(s: string, i: nat)
    requires i < |s| && !IsHex(s[i])
    ensures |BufferFrom(s)| <= i / 2
    decreases i
  {
    if i >= 2 {
      BufferStops(s[2..], i - 2);
    }
  }

  /** Padding moves a character by what it adds in front. */
  lemma Padded(t: string, len: nat, i: nat)
    requires i < |t|
    ensures var j := if |t| >= len then i else i + (len - |t|);
      j < |PadStart(t, len)| && PadStart(t, len)[j] == t[i] && (i == 0 || |t| < len ==> j < len || j == i)
  {
  }

  /** A number that is not whole or does not fit throws, or its text has a sign or a point in one of the
      places up to the asked length. */
  lemma BadText(v: Value, len: nat)
    requires len > 0 && !InField(v, Pow16(len)) && HexOf(v, len).Some?
    ensures exists i :: 0 <= i <= len && i < |HexOf(v, len).value| && !IsHex(HexOf(v, len).value[i])
  {
    var p := HexOf(v, len).value;
    if v.Whole? {
      var t := "-" + ToHex(-v.n);
      Padded(t, len, 0);
      assert p[if |t| >= len then 0 else len - |t|] == '-';
    } else if v.Infinite? {
      var t := "-" + "Infinity";
      Padded(t, len, 0);
      assert p[if |t| >= len then 0 else len - |t|] == '-';
    } else {
      BadPart(v.neg, v.whole, v.fraction, len);
    }
  }

  lemma BadPart(neg: bool, whole: nat, fraction: string, len: nat)
    requires len > 0 && (neg || whole < Pow16(len))
    ensures var p := PadStart((if neg then "-" else "") + ToHex(whole) + ("." + fraction), len);
      exists i :: 0 <= i <= len && i < |p| && !IsHex(p[i])
  {
    var t := (if neg then "-" else "") + ToHex(whole) + ("." + fraction);
    var i := if neg then 0 else |ToHex(whole)|;
    if !neg {
      ToHexDenotes(whole, len);
    }
    assert t[i] == if neg then '-' else '.';
    Padded(t, len, i);
    var j := if |t| >= len then i else i + (len - |t|);
    assert !IsHex(PadStart(t, len)[j]) && j <= len;
  }

  /** A character that is no hex digit at an early place of the text costs the end of the packet. */
  lemma BadStops(a: string, t: string, b: string, i: nat)
    requires i < |t| && !IsHex(t[i]) && |a| + i < 38
    ensures |BufferFrom(a + t + b)| < 19
  {
    var s := a + t + b;
    assert s[|a| + i] == t[i];
    BufferStops(s, |a| + i);
  }

  lemma HexLength(v: Value, len: nat)
    requires len > 0 && InField(v, Pow16(len))
    ensures HexOf(v, len).Some? && |HexOf(v, len).value| == len
  {
    HexExact(v.n, len);
  }

  lemma Powers()
    ensures Pow16(2) == 256 && Pow16(8) == 0x1_0000_0000
  {
    assert Pow16(4) == 0x1_0000;
  }

  /** A piece that does not fit, behind few enough digits. */
  lemma BadPiece(a: string, v: Value, len: nat, b: string)
    requires len > 0 && |a| + len < 38 && !InField(v, Pow16(len)) && HexOf(v, len).Some?
    ensures |BufferFrom(a + HexOf(v, len).value + b)| < 19
  {
    BadText(v, len);
    var t := HexOf(v, len).value;
    var i :| 0 <= i <= len && i < |t| && !IsHex(t[i]);
    BadStops(a, t, b, i);
  }

  /** The same text, cut around each of the pieces. */
  lemma Cuts(p: Pieces)
    requires NoneThrows(p)
    ensures var c, s, l, b, f := p.cf.value, p.sp.value, p.rl.value, p.rbw.value, p.rf.value;
      && Join(p) == Head() + c + (s + l + b + f + End())
      && Join(p) == (Head() + c) + s + (l + b + f + End())
      && Join(p) == (Head() + c + s) + l + (b + f + End())
      && Join(p) == (Head() + c + s + l + b) + f + End()
  {
  }

  lemma FirstBad(cf: Value, sp: Value, rl: Value, rbw: string, rf: Value)
    requires !AllFit(cf, sp, rl, rbw, rf) && NoneThrows(PiecesOf(cf, sp, rl, rbw, rf))
    ensures |BufferFrom(Join(PiecesOf(cf, sp, rl, rbw, rf)))| < 19
  {
    var p := PiecesOf(cf, sp, rl, rbw, rf);
    var c, s, l, b, f := p.cf.value, p.sp.value, p.rl.value, p.rbw.value, p.rf.value;
    Powers();
    Cuts(p);
    RbwSpells(rbw);
    if !InField(cf, 0x1_0000_0000) {
      BadPiece(Head(), cf, 8, s + l + b + f + End());
    } else if !InField(sp, 0x1_0000_0000) {
      HexLength(cf, 8);
      BadPiece(Head() + c, sp, 8, l + b + f + End());
    } else if !InField(rl, 256) {
      HexLength(cf, 8);
      HexLength(sp, 8);
      BadPiece(Head() + c + s, rl, 2, b + f + End());
    } else {
      HexLength(cf, 8);
      HexLength(sp, 8);
      HexLength(rl, 2);
      BadPiece(Head() + c + s + l + b, rf, 2, End());
    }
  }

  /** A value that cannot be printed: it is no number, or too large; a negative one always can. */
  predicate Unprintable(v: Value, limit: int) {
    match v
    case Unreadable => true
    case NotANumber => true
    case Infinite(neg) => !neg
    case Whole(n) => n >= limit
    case Part(neg, whole, _) => !neg && whole >= limit
  }

  lemma PrintsExactly(v: Value, len: nat)
    requires len > 0
    ensures HexOf(v, len) == None <==> Unprintable(v, Pow16(len))
  {
  }

  /** The builder throws exactly if a value cannot be printed or the bandwidth cannot be read. */
  lemma ThrowsExactly(cf: Value, sp: Value, rl: Value, rbw: string, rf: Value)
    ensures MadeFrom(PiecesOf(cf, sp, rl, rbw, rf)) == Thrown <==>
      || Unprintable(cf, 0x1_0000_0000) || Unprintable(sp, 0x1_0000_0000)
      || Unprintable(rl, 256) || Unprintable(rf, 256) || ToRbwHex(rbw) == None
  {
    Powers();
    PrintsExactly(cf, 8);
    PrintsExactly(sp, 8);
    PrintsExactly(rl, 2);
    PrintsExactly(rf, 2);
  }

  /** If one of the numbers is not whole or does not fit, the builder throws or the packet is cut short. */
  lemma JoinStops(cf: Value, sp: Value, rl: Value, rbw: string, rf: Value)
    requires !AllFit(cf, sp, rl, rbw, rf)
    ensures var m := MadeFrom(PiecesOf(cf, sp, rl, rbw, rf));
      m.Thrown? || |m.bytes| < 19
  {
    if NoneThrows(PiecesOf(cf, sp, rl, rbw, rf)) {
      FirstBad(cf, sp, rl, rbw, rf);
    }
  }

  lemma Positive(m: nat, p: nat)
    requires m > 0 && p > 0
    ensures m * p > 0
  {
  }

  /** A negative frequency never fits its field. */
  lemma NegativeNeverFits(d: Decimal, digits: Fractions, limit: int)
    requires d.neg && d.m > 0
    ensures !InField(ValueOf(d, digits), limit)
  {
    if d.e + 4 >= 0 {
      Positive(d.m, Pow10(d.e + 4));
    }
  }

  /** So a text with one makes no packet, whatever its digits. */
  lemma NegativeFrequency(s: string, x: HertzTexts.Spelling, d: Decimal, sp: Arg, rl: Argument, rbw: string,
                          rf: Argument, digits: Fractions)
    requires HertzTexts.Proper(x) && x.neg && d.neg && d.m > 0 && Denotes(d, x.integer, x.fraction)
    requires s == HertzTexts.Spelled(x)
    ensures var m := ChangeMade(Str(s), sp, rl, rbw, rf, digits);
      m.Thrown? || |m.bytes| < 19
  {
    var c, p := WireValue(Str(s), DEFAULT_CF, digits), WireValue(sp, DEFAULT_SP, digits);
    TextSent(s, x, d, DEFAULT_CF, digits);
    NegativeNeverFits(InMhz(d, x.unit), digits, 0x1_0000_0000);
    JoinStops(c, p, OrDefault(rl, 50), NameOrDefault(rbw), OrDefault(rf, 10));
  }

  // --- When the packet is right ---

  lemma FitsExactly(c: Value, s: Value, rl: Value, rbw: string, rf: Value)
    ensures var m := MadeFrom(PiecesOf(c, s, rl, rbw, rf));
      && (m.Bytes? && Walk(ChangeConfig(), m.bytes, 0).Some? <==> AllFit(c, s, rl, rbw, rf))
      && (AllFit(c, s, rl, rbw, rf) ==> m == Bytes(ChangeFrame(MadeWire(c, s, rl, rbw, rf))))
  {
    var m := MadeFrom(PiecesOf(c, s, rl, rbw, rf));
    if AllFit(c, s, rl, rbw, rf) {
      JoinSpells(c, s, rl, rbw, rf);
      WireRoundTrip(MadeWire(c, s, rl, rbw, rf));
    } else {
      JoinStops(c, s, rl, rbw, rf);
      if m.Bytes? {
        ChangeAccepted(m.bytes);
      }
    }
  }

  /** The builder yields a packet that the schema accepts exactly if the arguments, with the defaults for
      the missing ones, are readable and whole and fit; then it is the packet of their wire values with
      the LNB supply byte 0. However fractions are printed, they never make a packet. */
  lemma MadeExactly(cf: Arg, sp: Arg, rl: Argument, rbw: string, rf: Argument, digits: Fractions)
    ensures var m := ChangeMade(cf, sp, rl, rbw, rf, digits);
      var c, s := WireValue(cf, DEFAULT_CF, digits), WireValue(sp, DEFAULT_SP, digits);
      var l, b, f := OrDefault(rl, 50), NameOrDefault(rbw), OrDefault(rf, 10);
      && (m.Bytes? && Walk(ChangeConfig(), m.bytes, 0).Some? <==> AllFit(c, s, l, b, f))
      && (AllFit(c, s, l, b, f) ==> m == Bytes(ChangeFrame(MadeWire(c, s, l, b, f))))
  {
    FitsExactly(WireValue(cf, DEFAULT_CF, digits), WireValue(sp, DEFAULT_SP, digits), OrDefault(rl, 50),
                NameOrDefault(rbw), OrDefault(rf, 10));
  }

  // --- The same packet as the C library ---

  lemma TenTimes(m: nat, k: nat)
    ensures m * Pow10(k + 1) == 10 * (m * Pow10(k))
  {
    Tenfold(m, Pow10(k));
  }

  lemma {:induction false} CanonValue(neg: bool, m: nat, e: int)
    requires m != 0
    ensures var d := Canon(neg, m, e);
      d.neg == neg && d.e >= e && d.m > 0 && d.m * Pow10(d.e - e) == m
    decreases m
  {
    if m % 10 == 0 {
      CanonValue(neg, m / 10, e + 1);
      var d := Canon(neg, m / 10, e + 1);
      TenTimes(d.m, d.e - e - 1);
    } else {
      assert m * Pow10(0) == m;
    }
  }

  lemma {:induction false} DigitsBound(n: nat, k: nat)
    requires n < Pow10(k) && k > 0
    ensures |ToDec(n)| <= k
    decreases k
  {
    if n >= 10 {
      assert Pow10(k) == 10 * Pow10(k - 1) && Pow10(0) == 1;
      DigitsBound(n / 10, k - 1);
    }
  }

  lemma {:induction false} Pow10Grows(a: nat, b: nat)
    requires a <= b
    ensures Pow10(a) <= Pow10(b)
    decreases b
  {
    if a < b {
      Pow10Grows(a, b - 1);
    }
  }

  /** The number of MHz that n wire units are. */
  function MhzOf(n: nat): Decimal {
    if n == 0 then Decimal(false, 0, 0) else Canon(false, n, -4)
  }

  lemma TenDigits()
    ensures Pow10(10) == 10_000_000_000
  {
  }

  lemma Factors(a: nat, b: nat, n: nat)
    requires a * b == n && a > 0 && b > 0
    ensures a <= n && b <= n
  {
  }

  lemma MhzPlain(n: nat)
    requires 0 < n < 0x1_0000_0000
    ensures Canonical(MhzOf(n)) && Plain(MhzOf(n)) && MhzOf(n).m > 0 && Units(MhzOf(n)) == Some(n)
  {
    var d := MhzOf(n);
    CanonValue(false, n, -4);
    TenDigits();
    Factors(d.m, Pow10(d.e + 4), n);
    DigitsBound(d.m, 10);
    if d.e + 4 >= 10 {
      Pow10Grows(10, d.e + 4);
    }
  }

  lemma NumberRead(d: Decimal, default: Decimal)
    requires Canonical(d) && Plain(d) && d.m > 0
    ensures Megahertz(Num(d), default) == Number(d)
  {
    ReadBare(d);
    BareMegahertz(d);
    assert Scaled(Print(d), MHZ_OPTIONS) == Some(Reading(d, Mega));
  }

  lemma BareMegahertz(d: Decimal)
    ensures Rescale(Reading(d, One), MHZ_OPTIONS) == Some(Reading(d, Mega))
  {
  }

  /** A frequency given in MHz becomes the wire value it stands for, and 0 the default. */
  lemma MhzSent(n: nat, default: Decimal, digits: Fractions)
    requires n < 0x1_0000_0000 && Canonical(default) && Plain(default)
    ensures WireValue(Num(MhzOf(n)), default, digits) ==
      if n != 0 then Whole(n) else WireValue(Num(default), default, digits)
  {
    if n != 0 {
      MhzPlain(n);
      NumberRead(MhzOf(n), default);
    }
  }

  lemma DefaultsPlain()
    ensures Canonical(DEFAULT_CF) && Plain(DEFAULT_CF) && Canonical(DEFAULT_SP) && Plain(DEFAULT_SP)
  {
  }

  lemma DefaultsSent(digits: Fractions)
    ensures WireValue(Num(DEFAULT_CF), DEFAULT_CF, digits) == Whole(12_500_000)
    ensures WireValue(Num(DEFAULT_SP), DEFAULT_SP, digits) == Whole(6_000_000)
  {
    DefaultsPlain();
    NumberRead(DEFAULT_CF, DEFAULT_CF);
    NumberRead(DEFAULT_SP, DEFAULT_SP);
    assert Pow10(3) == 1000 && Pow10(5) == 100_000 && Pow10(6) == 1_000_000;
  }

  lemma ConvertedMhz(d: Decimal, power: int)
    ensures HertzTexts.Converted(d, power, MHZ_OPTIONS) ==
      Number(d.(e := d.e + (if power == 0 then 6 else power) - 6))
  {
  }

  lemma TextValue(s: string, d: Decimal, default: Decimal, digits: Fractions)
    requires s != "" && NormalizeHz(s, MHZ_OPTIONS) == Number(d)
    ensures WireValue(Str(s), default, digits) == ValueOf(d, digits)
  {
  }

  lemma TextGiven(x: HertzTexts.Spelling)
    requires x.integer != ""
    ensures HertzTexts.Spelled(x) != ""
  {
  }

  /** The number in MHz. */
  function InMhz(d: Decimal, unit: string): Decimal {
    d.(e := d.e + (if HertzTexts.Power(unit) == 0 then 6 else HertzTexts.Power(unit)) - 6)
  }

  lemma TextConverted(s: string, x: HertzTexts.Spelling, d: Decimal)
    requires HertzTexts.Proper(x) && d.neg == x.neg && Denotes(d, x.integer, x.fraction)
    requires s == HertzTexts.Spelled(x)
    ensures NormalizeHz(s, MHZ_OPTIONS) == Number(InMhz(d, x.unit))
  {
    HertzTexts.NormalizesText(x, MHZ_OPTIONS, d);
    ConvertedMhz(d, HertzTexts.Power(x.unit));
  }

  /** A frequency given as a text is sent in units of 100 Hz, in MHz unless it names a unit. */
  lemma TextSent(s: string, x: HertzTexts.Spelling, d: Decimal, default: Decimal, digits: Fractions)
    requires HertzTexts.Proper(x) && d.neg == x.neg && Denotes(d, x.integer, x.fraction)
    requires s == HertzTexts.Spelled(x)
    ensures WireValue(Str(s), default, digits) == ValueOf(InMhz(d, x.unit), digits)
  {
    TextConverted(s, x, d);
    TextGiven(x);
    TextValue(s, InMhz(d, x.unit), default, digits);
  }

  /** The packet the builder makes for wire values given in the builder's terms: 0 means the default. */
  function Defaulted(w: Wire): Wire
  {
    Wire(if w.cf == 0 then 12_500_000 else w.cf, if w.sp == 0 then 6_000_000 else w.sp,
         if w.rl == 0 then 50 else w.rl, w.rbw, if w.rf == 0 then 10 else w.rf, 0)
  }

  /** The builder, given wire values in its own terms: MHz, the name of a bandwidth, plain numbers. */
  function MadeOf(w: Wire, i: nat, digits: Fractions): Made
    requires i < 8
  {
    ChangeMade(Num(MhzOf(w.cf)), Num(MhzOf(w.sp)), AsNumber(Whole(w.rl)), RbwName(i), AsNumber(Whole(w.rf)), digits)
  }

  lemma BuilderSends(w: Wire, i: nat, digits: Fractions)
    requires 1 <= i < 8 && w.rbw == Mask(i)
    ensures MadeOf(w, i, digits) ==
      Bytes(ChangeFrame(Defaulted(w)))
  {
    var d := Defaulted(w);
    WireDefaults(w, digits);
    RbwRoundTrip(i);
    NamePresent(i);
    FitsExactly(Whole(d.cf), Whole(d.sp), Whole(d.rl), RbwName(i), Whole(d.rf));
  }

  lemma NamePresent(i: nat)
    requires i < 8
    ensures NameOrDefault(RbwName(i)) == RbwName(i)
  {
  }

  lemma WireDefaults(w: Wire, digits: Fractions)
    ensures WireValue(Num(MhzOf(w.cf)), DEFAULT_CF, digits) == Whole(Defaulted(w).cf)
    ensures WireValue(Num(MhzOf(w.sp)), DEFAULT_SP, digits) == Whole(Defaulted(w).sp)
  {
    DefaultsSent(digits);
    DefaultsPlain();
    MhzSent(w.cf, DEFAULT_CF, digits);
    MhzSent(w.sp, DEFAULT_SP, digits);
  }

  lemma SentByBoth(w: Wire, d: Wire, m: Made)
    requires d == Defaulted(w) && m == Bytes(ChangeFrame(d))
    ensures |m.bytes| == 19 && m.bytes[15] == 0 && ChangeFrame(w)[15] == w.lnb
    ensures (forall k :: 0 <= k < 19 && k != 15 ==> m.bytes[k] == ChangeFrame(w)[k]) <==>
      w.cf != 0 && w.sp != 0 && w.rl != 0 && w.rf != 0
  {
    SameButLnb(w, d);
  }

  lemma SupplyOn(firmware: int, q: Request)
    ensures ToWire(firmware, q).lnb >= 0x40 && ToWire(firmware, q).rbw == UChar(q.rbw)
  {
  }

  /** Two builders, one packet: for the same wire values the two packets agree in every byte but that of
      the LNB supply, exactly if none of the four numbers is 0; that byte always differs. */
  lemma TwoBuilders(firmware: int, q: Request, i: nat, digits: Fractions)
    requires 1 <= i < 8 && UChar(q.rbw) == Mask(i)
    ensures var w := ToWire(firmware, q);
      var m := MadeOf(w, i, digits);
      && m.Bytes? && |m.bytes| == 19 && m.bytes[15] == 0 && ChangeFrame(w)[15] >= 0x40
      && ((forall k :: 0 <= k < 19 && k != 15 ==> m.bytes[k] == ChangeFrame(w)[k]) <==>
          w.cf != 0 && w.sp != 0 && w.rl != 0 && w.rf != 0)
  {
    var w := ToWire(firmware, q);
    SupplyOn(firmware, q);
    BuilderSends(w, i, digits);
    SentByBoth(w, Defaulted(w), MadeOf(w, i, digits));
  }

  lemma SpanBytes(w: Wire, d: Wire)
    ensures ChangeFrame(w)[8..12] == Be32(w.sp) && ChangeFrame(d)[8..12] == Be32(d.sp)
  {
    FrameParts(w);
    FrameParts(d);
  }

  /** A span of 0, which the C library sends as it is, is widened to 600 MHz by the builder. */
  lemma ZeroSpanWidened(w: Wire, i: nat, digits: Fractions)
    requires 1 <= i < 8 && w.rbw == Mask(i) && w.sp == ToUnits(0.0)
    ensures var m := MadeOf(w, i, digits);
      m.Bytes? && |m.bytes| == 19 && m.bytes[8..12] == Be32(6_000_000) && ChangeFrame(w)[8..12] == Be32(0)
  {
    var d := Defaulted(w);
    assert w.sp == 0 && d.sp == 6_000_000;
    BuilderSends(w, i, digits);
    SpanBytes(w, d);
  }

  lemma SameButLnb(w: Wire, d: Wire)
    ensures ChangeFrame(w)[15] == w.lnb && ChangeFrame(d)[15] == d.lnb
    ensures (forall k :: 0 <= k < 19 && k != 15 ==> ChangeFrame(d)[k] == ChangeFrame(w)[k]) <==> d == w.(lnb := d.lnb)
  {
    var f, g := ChangeFrame(w), ChangeFrame(d);
    FrameParts(w);
    FrameParts(d);
    FrameBytes(w);
    FrameBytes(d);
    Be32RoundTrip(w.cf);
    Be32RoundTrip(w.sp);
    Be32RoundTrip(d.cf);
    Be32RoundTrip(d.sp);
    if forall k :: 0 <= k < 19 && k != 15 ==> g[k] == f[k] {
      assert f[4..8] == g[4..8];
      assert f[8..12] == g[8..12];
      assert g[12] == f[12] && g[13] == f[13] && g[14] == f[14];
    }
  }

  // --- Packets cut short ---

  lemma AbsentIsDefault(default: Decimal)
    requires default.m > 0
    ensures Megahertz(Absent, default) == Megahertz(Num(default), default)
  {
  }

  lemma AbsentSent(digits: Fractions)
    ensures WireValue(Absent, DEFAULT_CF, digits) == Whole(12_500_000)
    ensures WireValue(Absent, DEFAULT_SP, digits) == Whole(6_000_000)
  {
    DefaultsSent(digits);
    AbsentIsDefault(DEFAULT_CF);
    AbsentIsDefault(DEFAULT_SP);
  }

  lemma NothingThrown(cf: Value, rl: Value)
    requires HexOf(cf, 8).Some? && HexOf(rl, 2).Some?
    ensures MadeFrom(PiecesOf(cf, Whole(6_000_000), rl, "1 MHz", Whole(10))).Bytes?
  {
    RbwRoundTrip(6);
    assert RbwName(6) == "1 MHz";
    Powers();
    HexLength(Whole(6_000_000), 8);
    HexLength(Whole(10), 2);
  }

  lemma CutShort(cf: Value, rl: Value)
    requires HexOf(cf, 8).Some? && HexOf(rl, 2).Some? && !(InField(cf, 0x1_0000_0000) && InField(rl, 256))
    ensures var m := MadeFrom(PiecesOf(cf, Whole(6_000_000), rl, "1 MHz", Whole(10)));
      m.Bytes? && |m.bytes| < 19 && Walk(ChangeConfig(), m.bytes, 0).None?
  {
    NothingThrown(cf, rl);
    JoinStops(cf, Whole(6_000_000), rl, "1 MHz", Whole(10));
    ChangeAccepted(MadeFrom(PiecesOf(cf, Whole(6_000_000), rl, "1 MHz", Whole(10))).bytes);
  }

  lemma SpanAbsent(cf: Arg, rl: Argument, digits: Fractions)
    ensures ChangeMade(cf, Absent, rl, "", MISSING, digits) ==
      MadeFrom(PiecesOf(WireValue(cf, DEFAULT_CF, digits), Whole(6_000_000), OrDefault(rl, 50), "1 MHz", Whole(10)))
  {
    AbsentSent(digits);
  }

  /** No frequency: none is given, or 0, or the empty text. */
  predicate Nothing(a: Arg) {
    a == Absent || a == Str("") || (a.Num? && a.value.m == 0)
  }

  /** What a level or input argument sends: a number but 0, or any text, its own value, and a missing one the
      default. */
  predicate Gives(a: Argument, n: byte, default: byte) {
    || a == AsText(Whole(n)) || (a == AsNumber(Whole(n)) && n != 0)
    || (n == default && (a == AsNumber(Whole(0)) || a == MISSING))
  }

  lemma GivenOrDefault(a: Argument, n: byte, default: byte)
    requires Gives(a, n, default)
    ensures OrDefault(a, default) == Whole(n)
  {
  }

  lemma DefaultBytes(w: Wire)
    requires w == Wire(12_500_000, 6_000_000, w.rl, 0x40, w.rf, 0)
    ensures ChangeFrame(w) ==
      [0x02, 0x00, 0x10, 0x04, 0x00, 0xBE, 0xBC, 0x20, 0x00, 0x5B, 0x8D, 0x80, w.rl, 0x40, w.rf, 0, 0, 0, 0x03]
  {
  }

  lemma DefaultName(name: string)
    requires name == RbwName(6)
    ensures ToRbwHex(name).Some? && RbwByte(name) == 0x40
  {
    RbwRoundTrip(6);
  }

  lemma DefaultFits(c: Value, s: Value, l: Value, name: string, f: Value)
    requires c == Whole(12_500_000) && s == Whole(6_000_000) && InField(l, 256) && InField(f, 256)
    requires name == RbwName(6)
    ensures AllFit(c, s, l, name, f)
    ensures MadeWire(c, s, l, name, f) == Wire(12_500_000, 6_000_000, l.n, 0x40, f.n, 0)
  {
    DefaultName(name);
  }

  lemma PiecesSent(c: Value, s: Value, l: Value, name: string, f: Value)
    requires c == Whole(12_500_000) && s == Whole(6_000_000) && InField(l, 256) && InField(f, 256)
    requires name == RbwName(6)
    ensures MadeFrom(PiecesOf(c, s, l, name, f)) ==
      Bytes(ChangeFrame(Wire(12_500_000, 6_000_000, l.n, 0x40, f.n, 0)))
  {
    DefaultFits(c, s, l, name, f);
    JoinSpells(c, s, l, name, f);
  }

  lemma NothingSent(a: Arg, default: Decimal, digits: Fractions)
    requires Nothing(a)
    ensures WireValue(a, default, digits) == WireValue(Absent, default, digits)
  {
  }

  lemma DefaultsMade(cf: Arg, sp: Arg, rl: Argument, rf: Argument, digits: Fractions,
                     c: Value, s: Value, l: Value, name: string, f: Value)
    requires Nothing(cf) && Nothing(sp) && c == Whole(12_500_000) && s == Whole(6_000_000)
    requires l == OrDefault(rl, 50) && name == NameOrDefault("") && f == OrDefault(rf, 10)
    ensures ChangeMade(cf, sp, rl, "", rf, digits) == MadeFrom(PiecesOf(c, s, l, name, f))
  {
    AbsentSent(digits);
    NothingSent(cf, DEFAULT_CF, digits);
    NothingSent(sp, DEFAULT_SP, digits);
  }

  lemma DefaultsSpelled(cf: Arg, sp: Arg, rl: Argument, rf: Argument, digits: Fractions,
                        c: Value, s: Value, l: Value, name: string, f: Value)
    requires Nothing(cf) && Nothing(sp) && c == Whole(12_500_000) && s == Whole(6_000_000)
    requires l == OrDefault(rl, 50) && name == NameOrDefault("") && f == OrDefault(rf, 10)
    requires name == RbwName(6) && InField(l, 256) && InField(f, 256)
    ensures ChangeMade(cf, sp, rl, "", rf, digits) ==
      Bytes(ChangeFrame(Wire(12_500_000, 6_000_000, l.n, 0x40, f.n, 0)))
  {
    DefaultsMade(cf, sp, rl, rf, digits, c, s, l, name, f);
    PiecesSent(c, s, l, name, f);
  }

  /** The packet of a call without frequencies: 1250 MHz, 600 MHz of span, 1 MHz, and the level and the input
      that the other arguments give, or 50 and 10. A level or an input of 0 can be sent as a text only. */
  lemma DefaultPacket(cf: Arg, sp: Arg, rl: Argument, l: byte, rf: Argument, f: byte, digits: Fractions)
    requires Nothing(cf) && Nothing(sp) && Gives(rl, l, 50) && Gives(rf, f, 10)
    ensures ChangeMade(cf, sp, rl, "", rf, digits) ==
      Bytes([0x02, 0x00, 0x10, 0x04, 0x00, 0xBE, 0xBC, 0x20, 0x00, 0x5B, 0x8D, 0x80, l, 0x40, f, 0, 0, 0, 0x03])
  {
    GivenOrDefault(rl, l, 50);
    GivenOrDefault(rf, f, 10);
    DefaultsSpelled(cf, sp, rl, rf, digits, Whole(12_500_000), Whole(6_000_000), Whole(l), NameOrDefault(""), Whole(f));
    DefaultBytes(Wire(12_500_000, 6_000_000, l, 0x40, f, 0));
  }

  /** One value that does not fit: nothing is thrown, and the packet is cut short. */
  lemma ValueCuts(cf: Arg, v: Value, rl: Argument, l: Value, digits: Fractions)
    requires v == WireValue(cf, DEFAULT_CF, digits) && l == OrDefault(rl, 50)
    requires HexOf(v, 8).Some? && HexOf(l, 2).Some? && !(InField(v, 0x1_0000_0000) && InField(l, 256))
    ensures var m := ChangeMade(cf, Absent, rl, "", MISSING, digits);
      m.Bytes? && |m.bytes| < 19 && Walk(ChangeConfig(), m.bytes, 0).None?
  {
    SpanAbsent(cf, rl, digits);
    CutShort(v, l);
  }

  lemma NegativePrinted()
    ensures HexOf(Whole(-5), 2).Some? && HexOf(Whole(12_500_000), 8).Some?
  {
    Powers();
    HexLength(Whole(12_500_000), 8);
  }

  /** A negative level cuts the packet short. */
  lemma NegativeLevelCuts(digits: Fractions)
    ensures var m := ChangeMade(Absent, Absent, AsNumber(Whole(-5)), "", MISSING, digits);
      m.Bytes? && |m.bytes| < 19 && Walk(ChangeConfig(), m.bytes, 0).None?
  {
    AbsentSent(digits);
    NegativePrinted();
    ValueCuts(Absent, Whole(12_500_000), AsNumber(Whole(-5)), Whole(-5), digits);
  }

  lemma HalfUnit(digits: Fractions)
    ensures var d := Decimal(false, 125000005, -5);
      WireValue(Num(d), DEFAULT_CF, digits) == Part(false, 12_500_000, digits(d))
  {
    var d := Decimal(false, 125000005, -5);
    TenDigits();
    DigitsBound(d.m, 10);
    NumberRead(d, DEFAULT_CF);
    assert Pow10(1) == 10 && Quotient(125000005, 10) == 12_500_000;
  }

  lemma PartPrinted(fraction: string)
    ensures HexOf(Part(false, 12_500_000, fraction), 8).Some?
  {
    Powers();
  }

  /** A frequency of 1250.00005 MHz, half a unit above 1250 MHz, cuts the packet short, however the fraction
      is printed. */
  lemma HalfUnitCuts(digits: Fractions)
    ensures var m := ChangeMade(Num(Decimal(false, 125000005, -5)), Absent, MISSING, "", MISSING, digits);
      m.Bytes? && |m.bytes| < 19 && Walk(ChangeConfig(), m.bytes, 0).None?
  {
    var fraction := digits(Decimal(false, 125000005, -5));
    HalfUnit(digits);
    PartPrinted(fraction);
    Powers();
    HexLength(Whole(50), 2);
    ValueCuts(Num(Decimal(false, 125000005, -5)), Part(false, 12_500_000, fraction), MISSING, Whole(50), digits);
  }
}

/** What a handle knows of its analyzer: decoding of the description responses by fixed offsets. */
module Analyzer {
  import opened Bytes
  import opened Schemas

  /** Range of reference levels, as two signed chars. */
  datatype Window = Window(min: int, max: int)

  datatype Input = Input(rfAvail: bool, db70: bool, lnbAvail: bool, window: Window)

  datatype Settings = Settings(cf: int, sp: int, refLevel: int, rbw: int, input: int, lnb: int)

  datatype Limits = Limits(min: real, max: real)

  datatype Rbws = Rbws(mask: byte, mhz3: bool, mhz1: bool, khz300: bool, khz100: bool, khz10: bool, khz200: bool)

  datatype Hardware = Hardware(
    prodID: byte, projID: byte, firmware: int, pcbFab: byte, rbws: Rbws, availInputs: byte,
    serial: seq<byte>, calDay: int, calMonth: int, calYear: int)

  // --- Reference levels ---

  /** Firmware before 3.0 sends reference levels with the sign dropped. */
  predicate Negated(firmware: int) {
    firmware < 0x0300
  }

  /** The level as read from a waveform response (`char` arithmetic). */
  function DecodeLevel(firmware: int, b: byte): int {
    if Negated(firmware) then SChar(-Signed(b)) else Signed(b)
  }

  /** The byte a requested level is sent as. */
  function EncodeLevel(firmware: int, level: int): byte {
    UChar(if Negated(firmware) then SChar(-SChar(level)) else SChar(level))
  }

  /** A level survives encoding and decoding, for both firmware families, exactly if it is a `char`. */
  lemma LevelRoundTrip(firmware: int, level: int)
    ensures DecodeLevel(firmware, EncodeLevel(firmware, level)) == level <==> -128 <= level < 128
  {
    var c := SChar(level);
    SCharKeeps(level);
    SCharKeeps(c);
    SCharKeeps(SChar(-c));
    SCharNegNeg(c);
    assert DecodeLevel(firmware, EncodeLevel(firmware, level)) == c;
  }

  /** The level window of an input, computed in `char` arithmetic as the code does. */
  function WindowOf(firmware: int, db70: bool, fxdg: byte): Window {
    var base := if db70 then -70 else -50;
    if firmware > 0x02FF then Window(SChar(base - fxdg), SChar(-10 - fxdg)) else Window(base, -10)
  }

  /** The window is the nominal one shifted by the signed gain exactly if the gain is small enough
      for its lower end to stay a `char`. */
  lemma WindowExact(firmware: int, db70: bool, fxdg: byte)
    ensures var base := if db70 then -70 else -50;
      var s := if Negated(firmware) then 0 else Signed(fxdg);
      WindowOf(firmware, db70, fxdg) == Window(base - s, -10 - s) <==> s <= 128 + base
  {
  }

  /** Every level a window admits is a `char`, so it comes back unchanged from the wire. */
  lemma AdmittedLevelRoundTrip(firmware: int, db70: bool, fxdg: byte, level: int)
    requires var w := WindowOf(firmware, db70, fxdg); w.min <= level <= w.max
    ensures DecodeLevel(firmware, EncodeLevel(firmware, level)) == level
  {
    LevelRoundTrip(firmware, level);
  }

  // --- The hardware description, by fixed offsets ---

  function LimitsOf(prodID: byte, projID: byte, before: Limits): Limits {
    match prodID
    case 0x4A => Limits(1.0, 1100.0)
    case 0x3A => Limits(950.0, 2150.0)
    case 0x6A => Limits(5.0, 2500.0)
    case 0x5A => if projID % 16 == 3 then Limits(5.0, 2300.0) else Limits(5.0, 2500.0)
    case _ => before
  }

  function RbwsOf(mask: byte): Rbws {
    Rbws(mask, Bit(mask, 7), Bit(mask, 6), Bit(mask, 5), Bit(mask, 4), Bit(mask, 3), Bit(mask, 1))
  }

  /** The description computed from the raw field values. */
  function Describe(prodID: byte, projID: byte, major: byte, minor: byte, pcbFab: byte, rbws: byte, availRF: byte,
                    serial: seq<byte>, day: byte, month: byte, yearMsb: byte, yearLsb: byte): Hardware {
    Hardware(prodID, projID, major as int * 0x100 + minor, pcbFab, RbwsOf(rbws), AvailInputs(availRF), serial,
             day as int - 10, month as int - 10, yearMsb as int * 100 + yearLsb)
  }

  function AvailInputs(availRF: byte): byte {
    UChar(availRF as int - 10)
  }

  function SettingsFor(firmware: int, cf: int, sp: int, rl: byte, rbw: int, rf: int, lnb: int): Settings
    requires 0 <= cf < 0x1_0000_0000 && 0 <= sp < 0x1_0000_0000
  {
    Settings(Signed32(cf), Signed32(sp), if Negated(firmware) then -Signed(rl) else Signed(rl), rbw, rf - 9, lnb)
  }

  /** The flags of one of the six inputs: available, 70 dB range, LNB power. */
  datatype Flags = Flags(rfAvail: bool, db70: bool, lnbAvail: bool)

  function FlagsFor(availRF: byte, avail70: byte, availLNB: byte, i: nat): Flags
    requires i < 6
  {
    if i < AvailInputs(availRF) then Flags(true, Bit(avail70, i), Bit(availLNB, i + 1)) else Flags(false, false, false)
  }

  function HardwareOf(rx: seq<byte>): Hardware
    requires |rx| >= 60
  {
    Describe(rx[4], rx[58], rx[5], rx[6], rx[45], rx[18], rx[20], rx[29..45], rx[46], rx[47], rx[48], rx[49])
  }

  function SettingsOf(rx: seq<byte>): Settings
    requires |rx| >= 60
  {
    SettingsFor(Word16(rx, 5), Word32(rx, 8), Word32(rx, 12),
                rx[16], rx[17], rx[19], rx[55])
  }

  function FlagsOf(rx: seq<byte>, i: nat): Flags
    requires |rx| >= 60 && i < 6
  {
    FlagsFor(rx[20], rx[59], rx[54], i)
  }

  // --- Agreement with the declarative schemas ---

  function Num(r: Record, n: Name): nat
    requires n in r
  {
    FromBe(r[n])
  }

  function Byte(r: Record, n: Name): byte
    requires n in r
  {
    UChar(FromBe(r[n]))
  }

  predicate HasHardware(r: Record) {
    && PROD_ID in r && FM_MAJOR in r && FM_MINOR in r && CUR_CF in r && CUR_SP in r && CUR_RL in r && CUR_RBW in r
    && AVAIL_RBW in r && CUR_RF in r && AVAIL_RF in r && SERIAL_NO in r && PCB_FAB in r
    && CAL_DAY in r && CAL_MONTH in r
    && CAL_YEAR_MSB in r && CAL_YEAR_LSB in r && AVAIL_LNB in r && CUR_LNB in r && PROJ_ID in r && AVAIL70 in r
  }

  /** The same description, settings and flags, read by field name. */
  function HardwareFrom(r: Record): Hardware
    requires HasHardware(r)
  {
    Describe(Byte(r, PROD_ID), Byte(r, PROJ_ID), Byte(r, FM_MAJOR), Byte(r, FM_MINOR), Byte(r, PCB_FAB),
             Byte(r, AVAIL_RBW), Byte(r, AVAIL_RF), r[SERIAL_NO], Byte(r, CAL_DAY), Byte(r, CAL_MONTH),
             Byte(r, CAL_YEAR_MSB), Byte(r, CAL_YEAR_LSB))
  }

  function SettingsFrom(r: Record): Settings
    requires HasHardware(r) && Num(r, CUR_CF) < 0x1_0000_0000 && Num(r, CUR_SP) < 0x1_0000_0000
  {
    SettingsFor(Byte(r, FM_MAJOR) as int * 0x100 + Byte(r, FM_MINOR), Num(r, CUR_CF), Num(r, CUR_SP),
                Byte(r, CUR_RL), Byte(r, CUR_RBW), Byte(r, CUR_RF), Byte(r, CUR_LNB))
  }

  function FlagsFrom(r: Record, i: nat): Flags
    requires HasHardware(r) && i < 6
  {
    FlagsFor(Byte(r, AVAIL_RF), Byte(r, AVAIL70), Byte(r, AVAIL_LNB), i)
  }

  lemma ByteField(body: Schema, f: seq<byte>, r: Record, n: Name, at: nat)
    requires n > DTYPE && Walk(Framed(body), f, 0) == Some(r) && Locate(body, n, 4) == Span(at, 1)
    ensures at < |f| && Is(r, n, f[at])
  {
    FramedReads(body, f, n);
    FromBe1(f[at..at + 1]);
  }

  lemma WordField(body: Schema, f: seq<byte>, r: Record, n: Name, at: nat)
    requires n > DTYPE && Walk(Framed(body), f, 0) == Some(r) && Locate(body, n, 4) == Span(at, 4)
    ensures at + 4 <= |f| && n in r
    ensures Num(r, n) == Word32(f, at) < 0x1_0000_0000
  {
    FramedReads(body, f, n);
    FromBe4(f[at..at + 4]);
  }

  /** On every frame the hardware schema accepts, decoding by fixed offsets and reading by name give
      the same description, settings and input flags. */
  lemma HardwareAgrees(f: seq<byte>, r: Record)
    requires Walk(Framed(HardwareInfo()), f, 0) == Some(r)
    ensures |f| >= 60 && HasHardware(r) && Num(r, CUR_CF) < 0x1_0000_0000 && Num(r, CUR_SP) < 0x1_0000_0000
    ensures HardwareOf(f) == HardwareFrom(r)
    ensures SettingsOf(f) == SettingsFrom(r)
    ensures forall i :: 0 <= i < 6 ==> FlagsOf(f, i) == FlagsFrom(r, i)
  {
    HardwareHead(f, r);
    HardwareTail(f, r);
    SameFieldsSameHardware(f, r);
  }

  /** The field holds this one byte. */
  predicate Is(r: Record, n: Name, b: byte) {
    n in r && Byte(r, n) == Num(r, n) == b
  }

  predicate HeadMatches(f: seq<byte>, r: Record)
    requires |f| >= 60
  {
    && Is(r, PROD_ID, f[4]) && Is(r, FM_MAJOR, f[5]) && Is(r, FM_MINOR, f[6])
    && CUR_CF in r && Num(r, CUR_CF) == Word32(f, 8) < 0x1_0000_0000
    && CUR_SP in r && Num(r, CUR_SP) == Word32(f, 12) < 0x1_0000_0000
    && Is(r, CUR_RL, f[16]) && Is(r, CUR_RBW, f[17]) && Is(r, AVAIL_RBW, f[18])
    && Is(r, CUR_RF, f[19]) && Is(r, AVAIL_RF, f[20])
  }

  predicate TailMatches(f: seq<byte>, r: Record)
    requires |f| >= 60
  {
    && SERIAL_NO in r && r[SERIAL_NO] == f[29..45] && Is(r, PCB_FAB, f[45])
    && Is(r, CAL_DAY, f[46]) && Is(r, CAL_MONTH, f[47]) && Is(r, CAL_YEAR_MSB, f[48]) && Is(r, CAL_YEAR_LSB, f[49])
    && Is(r, AVAIL_LNB, f[54]) && Is(r, CUR_LNB, f[55]) && Is(r, PROJ_ID, f[58]) && Is(r, AVAIL70, f[59])
  }

  lemma SameFieldsSameHardware(f: seq<byte>, r: Record)
    requires |f| >= 60 && HeadMatches(f, r) && TailMatches(f, r)
    ensures HardwareOf(f) == HardwareFrom(r)
    ensures SettingsOf(f) == SettingsFrom(r)
    ensures forall i :: 0 <= i < 6 ==> FlagsOf(f, i) == FlagsFrom(r, i)
  {
  }

  lemma HardwareHead(f: seq<byte>, r: Record)
    requires Walk(Framed(HardwareInfo()), f, 0) == Some(r)
    ensures |f| >= 60 && HeadMatches(f, r)
  {
    var h := HardwareInfo();
    HardwareInfoHeadSpans();
    HardwareInfoSpans();
    ByteField(h, f, r, PROD_ID, 4);
    ByteField(h, f, r, FM_MAJOR, 5);
    ByteField(h, f, r, FM_MINOR, 6);
    WordField(h, f, r, CUR_CF, 8);
    WordField(h, f, r, CUR_SP, 12);
    ByteField(h, f, r, CUR_RL, 16);
    ByteField(h, f, r, CUR_RBW, 17);
    ByteField(h, f, r, AVAIL_RBW, 18);
    ByteField(h, f, r, CUR_RF, 19);
    ByteField(h, f, r, AVAIL_RF, 20);
    ByteField(h, f, r, AVAIL70, 59);
  }

  lemma HardwareTail(f: seq<byte>, r: Record)
    requires Walk(Framed(HardwareInfo()), f, 0) == Some(r)
    ensures |f| >= 60 && TailMatches(f, r)
  {
    var h := HardwareInfo();
    HardwareInfoSpans();
    FramedReads(h, f, SERIAL_NO);
    ByteField(h, f, r, PCB_FAB, 45);
    ByteField(h, f, r, CAL_DAY, 46);
    ByteField(h, f, r, CAL_MONTH, 47);
    ByteField(h, f, r, CAL_YEAR_MSB, 48);
    ByteField(h, f, r, CAL_YEAR_LSB, 49);
    ByteField(h, f, r, AVAIL_LNB, 54);
    ByteField(h, f, r, CUR_LNB, 55);
    ByteField(h, f, r, PROJ_ID, 58);
    ByteField(h, f, r, AVAIL70, 59);
  }

  function Fxdg(i: nat): Name
    requires i < 6
  {
    RF1_FXDG + i
  }

  lemma FxdgSpan(i: nat)
    requires i < 6
    ensures Locate(PowerLnb(), Fxdg(i), 4) == Span(37 + i, 1)
  {
    PowerLnbSpans();
  }

  /** The gain bytes the level windows use, 37 to 42, are the fields RF1FXDG to RF6FXDG. */
  lemma LnbAgrees(f: seq<byte>, r: Record, i: nat)
    requires Walk(Framed(PowerLnb()), f, 0) == Some(r) && i < 6
    ensures 37 + i < |f| && Is(r, Fxdg(i), f[37 + i])
  {
    FxdgSpan(i);
    ByteField(PowerLnb(), f, r, Fxdg(i), 37 + i);
  }
}

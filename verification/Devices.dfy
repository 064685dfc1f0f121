/** An analyzer in its own terms: how its descriptions carry its values, and what a registration stores of
    them. */
module Devices {
  import opened Bytes
  import opened Framing
  import opened Reassembly
  import opened SessionSpec
  import opened LockStep
  import opened Schemas
  import opened Analyzer
  import opened Handles
  import opened Describing
  import opened RegistrySpec
  import opened Session
  import Registry

  // --- Registration ---

  /** The analyzer's descriptions, as its schemas read them. */
  predicate Announces(hw: Item, lnb: Item, rh: Record, rl: Record) {
    && Walk(Framed(HardwareInfo()), hw.frame, 0) == Some(rh) && Walk(Framed(PowerLnb()), lnb.frame, 0) == Some(rl)
  }

  lemma SameHardware(a: seq<byte>, f: seq<byte>)
    requires 60 <= |f| <= |a| && a[..|f|] == f
    ensures HardwareOf(a) == HardwareOf(f) && SettingsOf(a) == SettingsOf(f)
    ensures forall i :: 0 <= i < 6 ==> FlagsOf(a, i) == FlagsOf(f, i)
  {
    assert forall k :: 0 <= k < |f| ==> a[k] == f[k];
    assert a[29..45] == f[29..45];
  }

  /** What a handle stores is what its analyzer's frames say by field name: description, settings, limits of
      a known product, flags, the level windows of the available inputs, and the front panel. */
  predicate Faithful(x: Stored, rh: Record, rl: Record, panel: Item) {
    && HasHardware(rh) && Num(rh, CUR_CF) < 0x1_0000_0000 && Num(rh, CUR_SP) < 0x1_0000_0000 && |x.inputs| == 6
    && x.hardware == HardwareFrom(rh) && x.current == SettingsFrom(rh)
    && LimitsKnown(Byte(rh, PROD_ID), Byte(rh, PROJ_ID), x.limits)
    && (HasPanel(Byte(rh, PROD_ID), Byte(rh, PROJ_ID)) ==> |panel.frame| >= 13 && x.panel == PanelOf(panel.frame))
    && forall i :: 0 <= i < 6 ==>
      && Flags(x.inputs[i].rfAvail, x.inputs[i].db70, x.inputs[i].lnbAvail) == FlagsFrom(rh, i)
      && Fxdg(i) in rl
      && (i < x.hardware.availInputs ==>
          x.inputs[i].window == WindowOf(x.hardware.firmware, FlagsFrom(rh, i).db70, Byte(rl, Fxdg(i))))
  }

  lemma SamePanel(a: seq<byte>, f: seq<byte>)
    requires 13 <= |f| <= |a| && a[..|f|] == f
    ensures PanelOf(a) == PanelOf(f)
  {
    assert forall k :: 0 <= k < |f| ==> a[k] == f[k];
  }

  lemma ProductNamed(f: seq<byte>, rh: Record)
    requires Walk(Framed(HardwareInfo()), f, 0) == Some(rh)
    ensures |f| >= 60 && HasHardware(rh) && Byte(rh, PROD_ID) == f[4] && Byte(rh, PROJ_ID) == f[58]
  {
    HardwareAgrees(f, rh);
    assert HardwareOf(f).prodID == HardwareFrom(rh).prodID && HardwareOf(f).projID == HardwareFrom(rh).projID;
  }

  /** The buffers of a dialogue start with the frames. */
  predicate Holds(d: Dialogue, hw: Item, lnb: Item, panel: Item) {
    && 60 <= |hw.frame| <= |d.hw| && d.hw[..|hw.frame|] == hw.frame
    && 43 <= |lnb.frame| <= |d.lnb| && d.lnb[..|lnb.frame|] == lnb.frame
    && (HasPanel(hw.frame[4], hw.frame[58]) ==>
        13 <= |panel.frame| <= |d.panel| && d.panel[..|panel.frame|] == panel.frame)
  }

  lemma FaithfulInputs(x: Stored, d: Dialogue, hw: Item, lnb: Item, panel: Item, rh: Record, rl: Record)
    requires Announces(hw, lnb, rh, rl) && Described(x, d) && Holds(d, hw, lnb, panel)
    ensures HasHardware(rh) && |x.inputs| == 6
    ensures forall i :: 0 <= i < 6 ==>
      && Flags(x.inputs[i].rfAvail, x.inputs[i].db70, x.inputs[i].lnbAvail) == FlagsFrom(rh, i)
      && Fxdg(i) in rl
      && (i < x.hardware.availInputs ==>
          x.inputs[i].window == WindowOf(x.hardware.firmware, FlagsFrom(rh, i).db70, Byte(rl, Fxdg(i))))
  {
    HardwareAgrees(hw.frame, rh);
    SameHardware(d.hw, hw.frame);
    forall i | 0 <= i < 6
      ensures Fxdg(i) in rl && Byte(rl, Fxdg(i)) == d.lnb[37 + i]
    {
      LnbAgrees(lnb.frame, rl, i);
      assert d.lnb[37 + i] == d.lnb[..|lnb.frame|][37 + i];
    }
  }

  lemma FaithfulStored(x: Stored, d: Dialogue, hw: Item, lnb: Item, panel: Item, rh: Record, rl: Record)
    requires Announces(hw, lnb, rh, rl) && Described(x, d) && Holds(d, hw, lnb, panel)
    ensures Faithful(x, rh, rl, panel)
  {
    HardwareAgrees(hw.frame, rh);
    SameHardware(d.hw, hw.frame);
    ProductNamed(hw.frame, rh);
    ProductStored(x, d.hw);
    assert d.hw[4] == d.hw[..|hw.frame|][4] && d.hw[58] == d.hw[..|hw.frame|][58];
    FaithfulInputs(x, d, hw, lnb, panel, rh, rl);
    if HasPanel(hw.frame[4], hw.frame[58]) {
      SamePanel(d.panel, panel.frame);
    }
  }

  lemma RegistrationReads(greeting: Item, hw: Item, lnb: Item, panel: Item,
                          ending: Ending, garbage: byte, buf: seq<byte>)
    requires Sendable(greeting) && |greeting.frame| <= BUFFER == |buf| && Conforms(hw, lnb, panel)
    ensures RegistrationRoom(Introducing(hw, lnb, panel), Encode([greeting]), ending, garbage, buf)
    ensures var d := Registration(Introducing(hw, lnb, panel), Encode([greeting]), ending, garbage, buf);
      d.code == 0 && d.rest == [] && Holds(d, hw, lnb, panel)
  {
    ItemsFit([greeting], ending, garbage);
    ReadItem([greeting], ending, garbage, buf);
    IntroductionInStep(hw, lnb, panel, ending, garbage, buf);
  }

  // --- The values of an analyzer ---

  /** An RF input: the 70 dB range, LNB power, and the byte of its gain. */
  datatype Port = Port(db70: bool, lnbPower: bool, gain: byte)

  /** What an analyzer is, and how it is set when it describes itself. Frequencies are in units of 100 Hz;
      `mask` has a bit for each bandwidth it offers. */
  datatype Device = Device(
    product: byte, project: byte, major: byte, minor: byte, pcb: byte, mask: byte, inputs: int, ports: seq<Port>,
    serial: seq<byte>, day: int, month: int, year: int,
    cf: int, sp: int, level: int, rbw: byte, input: int, lnb: byte, front: FrontPanel)

  function Flag(b: bool): nat {
    if b then 1 else 0
  }

  /** Bits 0 to 5 of a byte, the others as they happen to be. */
  predicate Bits(b: int, f: seq<bool>, high: nat)
    requires |f| == 6
  {
    b == Flag(f[0]) + 2 * Flag(f[1]) + 4 * Flag(f[2]) + 8 * Flag(f[3]) + 16 * Flag(f[4]) + 32 * Flag(f[5]) + 64 * high
  }

  function Ranges(v: Device): (f: seq<bool>)
    ensures |f| == |v.ports|
  {
    seq(|v.ports|, i requires 0 <= i < |v.ports| => v.ports[i].db70)
  }

  function Powers(v: Device): (f: seq<bool>)
    ensures |f| == |v.ports|
  {
    seq(|v.ports|, i requires 0 <= i < |v.ports| => v.ports[i].lnbPower)
  }

  /** The byte of a reference level: firmware before 3.0 drops the sign. */
  function LevelByte(major: byte, level: int): byte {
    (if major < 3 then -level else level) % 256
  }

  /** How the hardware description carries the values: what the analyzer is, how it is set, its inputs. */
  predicate TellsKind(r: Record, v: Device)
    requires HasHardware(r)
  {
    && Num(r, PROD_ID) == v.product && Num(r, PROJ_ID) == v.project
    && Num(r, FM_MAJOR) == v.major && Num(r, FM_MINOR) == v.minor && Num(r, PCB_FAB) == v.pcb
    && Num(r, AVAIL_RBW) == v.mask && Num(r, AVAIL_RF) == v.inputs + 10 && 0 <= v.inputs <= 6
    && r[SERIAL_NO] == v.serial
    && Num(r, CAL_DAY) == v.day + 10 < 256 && Num(r, CAL_MONTH) == v.month + 10 < 256
    && Num(r, CAL_YEAR_MSB) < 256 && Num(r, CAL_YEAR_LSB) < 256
    && v.year == 100 * Num(r, CAL_YEAR_MSB) + Num(r, CAL_YEAR_LSB)
  }

  predicate TellsSettings(r: Record, v: Device)
    requires HasHardware(r)
  {
    && Num(r, FM_MAJOR) == v.major && Num(r, FM_MINOR) == v.minor
    && Num(r, CUR_CF) == v.cf < 0x1_0000_0000 && Num(r, CUR_SP) == v.sp < 0x1_0000_0000
    && -128 <= v.level < 128 && Num(r, CUR_RL) == LevelByte(v.major, v.level)
    && Num(r, CUR_RBW) == v.rbw && Num(r, CUR_RF) == v.input + 9 < 256 && Num(r, CUR_LNB) == v.lnb
  }

  predicate TellsPorts(r: Record, v: Device)
    requires HasHardware(r)
  {
    && |v.ports| == 6 && 0 <= v.inputs <= 6 && Num(r, AVAIL_RF) == v.inputs + 10
    && Num(r, AVAIL70) < 256 && Num(r, AVAIL_LNB) < 256
    && Bits(Num(r, AVAIL70), Ranges(v), Num(r, AVAIL70) / 64)
    && Bits(Num(r, AVAIL_LNB) / 2, Powers(v), Num(r, AVAIL_LNB) / 128)
  }

  predicate Tells(r: Record, v: Device) {
    HasHardware(r) && TellsKind(r, v) && TellsSettings(r, v) && TellsPorts(r, v)
  }

  const GAINS: seq<Name> := [RF1_FXDG, RF2_FXDG, RF3_FXDG, RF4_FXDG, RF5_FXDG, RF6_FXDG]

  /** How the LNB description carries the gains. */
  predicate TellsGains(r: Record, v: Device) {
    |v.ports| == 6 && forall i :: 0 <= i < 6 ==> GAINS[i] in r && Num(r, GAINS[i]) == v.ports[i].gain
  }

  /** There is a front panel: one of bits 1 to 3 of the project byte is set, and the product is not 0xFF. */
  predicate HasFront(v: Device) {
    v.product != 0xFF && (v.project / 2 % 2 == 1 || v.project / 4 % 2 == 1 || v.project / 8 % 2 == 1)
  }

  /** How the front panel's description carries its values. */
  predicate TellsFront(f: seq<byte>, p: FrontPanel) {
    && |f| >= 13 && 0 <= p.firmware < 0x1_0000 && 0 <= p.projID < 0x1_0000
    && f[5..7] == Be16(p.firmware) && f[7] == p.mbFab && f[8] == p.fpFab && f[11..13] == Be16(p.projID)
  }

  predicate Describes(rh: Record, rl: Record, panel: Item, v: Device) {
    Tells(rh, v) && TellsGains(rl, v) && (HasFront(v) ==> TellsFront(panel.frame, v.front))
  }

  // --- What a registration stores of them ---

  /** A number wrapped to a signed `char`. */
  function Wrap(n: int): int {
    (n + 128) % 256 - 128
  }

  /** The level window of an input: 40 or 60 dB below -10 dB, shifted by the gain since firmware 3.0. */
  function Lowest(v: Device, p: Port): int {
    Wrap((if p.db70 then -70 else -50) - if v.major < 3 then 0 else p.gain)
  }

  function Highest(v: Device, p: Port): int {
    Wrap(-10 - if v.major < 3 then 0 else p.gain)
  }

  /** The range of a product in MHz. */
  predicate InRange(v: Device, x: Limits) {
    && (v.product == 0x4A ==> x == Limits(1.0, 1100.0))
    && (v.product == 0x3A ==> x == Limits(950.0, 2150.0))
    && (v.product == 0x6A ==> x == Limits(5.0, 2500.0))
    && (v.product == 0x5A && v.project % 16 == 3 ==> x == Limits(5.0, 2300.0))
    && (v.product == 0x5A && v.project % 16 != 3 ==> x == Limits(5.0, 2500.0))
  }

  predicate StoresInput(y: Input, v: Device, i: nat)
    requires i < |v.ports|
  {
    && y.rfAvail == (i < v.inputs)
    && y.db70 == (i < v.inputs && v.ports[i].db70) && y.lnbAvail == (i < v.inputs && v.ports[i].lnbPower)
    && (i < v.inputs ==> y.window == Window(Lowest(v, v.ports[i]), Highest(v, v.ports[i])))
  }

  /** A bandwidth is offered if its bit is set. */
  predicate StoresMask(b: Rbws, mask: byte) {
    && b.mask == mask && b.mhz3 == (mask / 0x80 % 2 == 1) && b.mhz1 == (mask / 0x40 % 2 == 1)
    && b.khz300 == (mask / 0x20 % 2 == 1) && b.khz100 == (mask / 0x10 % 2 == 1)
    && b.khz10 == (mask / 0x08 % 2 == 1) && b.khz200 == (mask / 0x02 % 2 == 1)
  }

  predicate StoresHardware(h: Hardware, v: Device) {
    && h.prodID == v.product && h.projID == v.project && h.firmware == v.major as int * 256 + v.minor
    && h.pcbFab == v.pcb && h.availInputs == v.inputs && h.serial == v.serial
    && h.calDay == v.day && h.calMonth == v.month && h.calYear == v.year
    && StoresMask(h.rbws, v.mask)
  }

  /** The settings; a frequency comes through exactly if it fits an `int`, and a level exactly unless it is
      -128 from firmware before 3.0. */
  predicate StoresSettings(s: Settings, v: Device) {
    && s.cf == (if v.cf < 0x8000_0000 then v.cf else v.cf - 0x1_0000_0000)
    && s.sp == (if v.sp < 0x8000_0000 then v.sp else v.sp - 0x1_0000_0000)
    && s.refLevel == (if v.major < 3 && v.level == -128 then 128 else v.level)
    && s.rbw == v.rbw && s.input == v.input && s.lnb == v.lnb
  }

  predicate Stores(x: Stored, v: Device) {
    && StoresHardware(x.hardware, v) && StoresSettings(x.current, v) && InRange(v, x.limits)
    && |x.inputs| == 6 == |v.ports| && (forall i :: 0 <= i < 6 ==> StoresInput(x.inputs[i], v, i))
    && (HasFront(v) ==> x.panel == v.front)
  }

  lemma Above(b: nat, p: nat, low: nat, flag: bool, high: nat)
    requires p in {1, 2, 4, 8, 16, 32} && low < p && b == low + p * (Flag(flag) + 2 * high)
    ensures b / p % 2 == Flag(flag)
  {
    assert b / p == Flag(flag) + 2 * high;
  }

  lemma BitRead(b: byte, f: seq<bool>, high: nat, i: nat)
    requires |f| == 6 && i < 6 && Bits(b, f, high)
    ensures Bit(b, i) == f[i]
  {
    var a0, a1, a2, a3, a4 := Flag(f[0]), Flag(f[1]), Flag(f[2]), Flag(f[3]), Flag(f[4]);
    var h4 := Flag(f[5]) + 2 * high;
    var h3 := a4 + 2 * h4;
    var h2 := a3 + 2 * h3;
    var h1 := a2 + 2 * h2;
    match i
    case 0 => Above(b, 1, 0, f[0], a1 + 2 * h1);
    case 1 => Above(b, 2, a0, f[1], h1);
    case 2 => Above(b, 4, a0 + 2 * a1, f[2], h2);
    case 3 => Above(b, 8, a0 + 2 * a1 + 4 * a2, f[3], h3);
    case 4 => Above(b, 16, a0 + 2 * a1 + 4 * a2 + 8 * a3, f[4], h4);
    case _ => Above(b, 32, a0 + 2 * a1 + 4 * a2 + 8 * a3 + 16 * a4, f[5], high);
  }

  lemma BitBehind(b: byte, i: nat)
    requires i < 6
    ensures Bit(b, i + 1) == Bit(b / 2, i)
  {
  }

  lemma RbwsRead(mask: byte)
    ensures StoresMask(RbwsOf(mask), mask)
  {
  }

  lemma KindStored(h: Hardware, v: Device, day: byte, month: byte, msb: byte, lsb: byte)
    requires 0 <= v.inputs <= 6 && day == v.day + 10 && month == v.month + 10 && v.year == 100 * msb as int + lsb
    requires h == Describe(v.product, v.project, v.major, v.minor, v.pcb, v.mask, v.inputs + 10, v.serial,
                           day, month, msb, lsb)
    ensures StoresHardware(h, v)
  {
    RbwsRead(v.mask);
  }

  lemma ByteIs(r: Record, n: Name, b: byte)
    requires n in r && Num(r, n) == b
    ensures Byte(r, n) == b
  {
  }

  lemma HardwareNamed(r: Record, v: Device, day: byte, month: byte, msb: byte, lsb: byte)
    requires HasHardware(r) && TellsKind(r, v)
    requires day == Num(r, CAL_DAY) && month == Num(r, CAL_MONTH)
    requires msb == Num(r, CAL_YEAR_MSB) && lsb == Num(r, CAL_YEAR_LSB)
    ensures HardwareFrom(r) == Describe(v.product, v.project, v.major, v.minor, v.pcb, v.mask, v.inputs + 10, v.serial,
                                          day, month, msb, lsb)
  {
    ByteIs(r, PROD_ID, v.product);
    ByteIs(r, PROJ_ID, v.project);
    ByteIs(r, FM_MAJOR, v.major);
    ByteIs(r, FM_MINOR, v.minor);
    ByteIs(r, PCB_FAB, v.pcb);
    ByteIs(r, AVAIL_RBW, v.mask);
    ByteIs(r, AVAIL_RF, v.inputs + 10);
    ByteIs(r, CAL_DAY, day);
    ByteIs(r, CAL_MONTH, month);
    ByteIs(r, CAL_YEAR_MSB, msb);
    ByteIs(r, CAL_YEAR_LSB, lsb);
  }

  lemma HardwareStored(r: Record, v: Device)
    requires HasHardware(r) && TellsKind(r, v)
    ensures StoresHardware(HardwareFrom(r), v)
  {
    HardwareNamed(r, v, Num(r, CAL_DAY), Num(r, CAL_MONTH), Num(r, CAL_YEAR_MSB), Num(r, CAL_YEAR_LSB));
    KindStored(HardwareFrom(r), v, Num(r, CAL_DAY), Num(r, CAL_MONTH), Num(r, CAL_YEAR_MSB), Num(r, CAL_YEAR_LSB));
  }

  lemma SettingsRead(r: Record, v: Device)
    requires HasHardware(r) && TellsSettings(r, v)
    ensures SettingsFrom(r) == SettingsFor(v.major as int * 0x100 + v.minor, v.cf, v.sp,
                                           LevelByte(v.major, v.level), v.rbw, v.input + 9, v.lnb)
  {
    assert Byte(r, FM_MAJOR) == v.major;
    assert Byte(r, FM_MINOR) == v.minor;
    assert Byte(r, CUR_RL) == LevelByte(v.major, v.level);
    assert Byte(r, CUR_RBW) == v.rbw;
    assert Byte(r, CUR_RF) == v.input + 9;
    assert Byte(r, CUR_LNB) == v.lnb;
  }

  /** What becomes of the level byte. */
  lemma LevelRead(major: byte, level: int)
    requires -128 <= level < 128
    ensures var b := Signed(LevelByte(major, level));
      if major < 3 then -b == (if level == -128 then 128 else level) else b == level
  {
  }

  lemma SettingsStored(r: Record, v: Device)
    requires HasHardware(r) && TellsSettings(r, v)
    ensures StoresSettings(SettingsFrom(r), v)
  {
    SettingsRead(r, v);
    LevelRead(v.major, v.level);
  }

  lemma FlagRead(avail70: byte, availLNB: byte, f: seq<bool>, g: seq<bool>, high: nat, high2: nat, i: nat)
    requires |f| == 6 == |g| && i < 6 && Bits(avail70, f, high) && Bits(availLNB / 2, g, high2)
    ensures Bit(avail70, i) == f[i] && Bit(availLNB, i + 1) == g[i]
  {
    BitRead(avail70, f, high, i);
    BitBehind(availLNB, i);
    BitRead(availLNB / 2, g, high2, i);
  }

  lemma PortsRead(r: Record, v: Device, avail70: byte, availLNB: byte, i: nat)
    requires HasHardware(r) && TellsPorts(r, v) && i < 6
    requires avail70 == Num(r, AVAIL70) && availLNB == Num(r, AVAIL_LNB)
    ensures FlagsFrom(r, i) == FlagsFor(v.inputs + 10, avail70, availLNB, i)
    ensures Bits(avail70, Ranges(v), avail70 / 64) && Bits(availLNB / 2, Powers(v), availLNB / 128)
  {
    assert Byte(r, AVAIL_RF) == v.inputs + 10;
    assert Byte(r, AVAIL70) == avail70;
    assert Byte(r, AVAIL_LNB) == availLNB;
  }

  lemma PortsFlags(v: Device, avail70: byte, availLNB: byte, i: nat)
    requires |v.ports| == 6 && 0 <= v.inputs <= 6 && i < 6
    requires Bits(avail70, Ranges(v), avail70 / 64) && Bits(availLNB / 2, Powers(v), availLNB / 128)
    ensures FlagsFor(v.inputs + 10, avail70, availLNB, i) == FlagsIn(v, i)
  {
    FlagRead(avail70, availLNB, Ranges(v), Powers(v), avail70 / 64, availLNB / 128, i);
  }

  function FlagsIn(v: Device, i: nat): Flags
    requires i < |v.ports|
  {
    if i < v.inputs then Flags(true, v.ports[i].db70, v.ports[i].lnbPower) else Flags(false, false, false)
  }

  lemma FlagsStored(r: Record, v: Device, i: nat)
    requires HasHardware(r) && TellsPorts(r, v) && i < 6
    ensures FlagsFrom(r, i) == FlagsIn(v, i)
  {
    var avail70, availLNB := Num(r, AVAIL70), Num(r, AVAIL_LNB);
    PortsRead(r, v, avail70, availLNB, i);
    PortsFlags(v, avail70, availLNB, i);
  }

  lemma CharWraps(n: int)
    ensures SChar(n) == Wrap(n)
  {
  }

  lemma WindowStored(v: Device, p: Port, firmware: int)
    requires firmware == v.major as int * 256 + v.minor
    ensures WindowOf(firmware, p.db70, p.gain) == Window(Lowest(v, p), Highest(v, p))
  {
    var base := if p.db70 then -70 else -50;
    CharWraps(base - p.gain);
    CharWraps(-10 - p.gain);
    assert Wrap(base) == base && Wrap(-10) == -10;
  }

  lemma GainRead(r: Record, v: Device, i: nat)
    requires TellsGains(r, v) && i < 6
    ensures Fxdg(i) in r && Byte(r, Fxdg(i)) == v.ports[i].gain
  {
    assert GAINS[i] == Fxdg(i);
    assert Num(r, GAINS[i]) == v.ports[i].gain;
  }

  lemma InputStored(x: Stored, rh: Record, rl: Record, panel: Item, v: Device, i: nat)
    requires Faithful(x, rh, rl, panel) && TellsPorts(rh, v) && TellsGains(rl, v) && i < 6
    requires StoresHardware(x.hardware, v)
    ensures StoresInput(x.inputs[i], v, i)
  {
    FlagsStored(rh, v, i);
    GainRead(rl, v, i);
    WindowStored(v, v.ports[i], x.hardware.firmware);
  }

  lemma FrontRead(f: seq<byte>, p: FrontPanel)
    requires TellsFront(f, p)
    ensures PanelOf(f) == p
  {
    assert f[5] == f[5..7][0] && f[6] == f[5..7][1] && f[11] == f[11..13][0] && f[12] == f[11..13][1];
  }

  lemma LowBits(n: nat, a: nat, b: nat, c: nat, x: nat, y: nat, z: nat)
    requires x < 2 && y < 2 && z < 2 && n == 2 * a + x && a == 2 * b + y && b == 2 * c + z
    ensures n % 8 == 4 * z + 2 * y + x
  {
    assert n == 8 * c + (4 * z + 2 * y + x);
  }

  lemma FrontPanels(v: Device)
    ensures HasPanel(v.product, v.project) <==> HasFront(v)
  {
    var n := v.project / 2;
    var a := n / 2;
    var b := a / 2;
    LowBits(n, a, b, b / 2, n % 2, a % 2, b % 2);
    assert v.project / 4 == a && v.project / 8 == b;
  }

  /** What the descriptions say nothing of is left as it was: the range of an unknown product, and the windows of
      the other inputs. */
  lemma LeftAlone(prodID: byte, projID: byte, limits: Limits, hw: Hardware, input: Input, i: nat, gain: byte)
    ensures prodID !in {0x3A, 0x4A, 0x5A, 0x6A} ==> LimitsOf(prodID, projID, limits) == limits
    ensures i >= hw.availInputs ==> Windowed(hw, input, i, gain) == input
  {
  }

  lemma RangeStored(v: Device, x: Limits)
    requires LimitsKnown(v.product, v.project, x)
    ensures InRange(v, x)
  {
  }

  lemma ProductRead(r: Record, v: Device)
    requires HasHardware(r) && TellsKind(r, v)
    ensures Byte(r, PROD_ID) == v.product && Byte(r, PROJ_ID) == v.project
  {
  }

  /** What says by field name what the frames say, stores the values of the analyzer. */
  lemma FaithfulStores(x: Stored, rh: Record, rl: Record, panel: Item, v: Device)
    requires Faithful(x, rh, rl, panel) && Describes(rh, rl, panel, v)
    ensures Stores(x, v)
  {
    HardwareStored(rh, v);
    SettingsStored(rh, v);
    ProductRead(rh, v);
    RangeStored(v, x.limits);
    FrontPanels(v);
    if HasFront(v) {
      FrontRead(panel.frame, v.front);
    }
    forall i | 0 <= i < 6
      ensures StoresInput(x.inputs[i], v, i)
    {
      InputStored(x, rh, rl, panel, v, i);
    }
  }

  /** From the frames on the stream to the handle: with an analyzer that greets with one frame and answers
      each request with one of its type, the dialogue of a registration succeeds and leaves nothing unread.
      Every handle filled from it says what the frames say by field name, and stores the values of whatever
      analyzer they describe. */
  lemma RegistrationOfFrames(greeting: Item, hw: Item, lnb: Item, panel: Item, rh: Record, rl: Record, x: Stored,
                             v: Device, ending: Ending, garbage: byte, buf: seq<byte>)
    requires Sendable(greeting) && |greeting.frame| <= BUFFER == |buf|
    requires Conforms(hw, lnb, panel) && Announces(hw, lnb, rh, rl)
    ensures RegistrationRoom(Introducing(hw, lnb, panel), Encode([greeting]), ending, garbage, buf)
    ensures var d := Registration(Introducing(hw, lnb, panel), Encode([greeting]), ending, garbage, buf);
      && d.code == 0 && d.rest == [] && (Described(x, d) ==> Faithful(x, rh, rl, panel))
      && (Described(x, d) && Describes(rh, rl, panel, v) ==> Stores(x, v))
  {
    RegistrationReads(greeting, hw, lnb, panel, ending, garbage, buf);
    var d := Registration(Introducing(hw, lnb, panel), Encode([greeting]), ending, garbage, buf);
    if Described(x, d) {
      FaithfulStored(x, d, hw, lnb, panel, rh, rl);
      if Describes(rh, rl, panel, v) {
        FaithfulStores(x, rh, rl, panel, v);
      }
    }
  }

  /** The whole way: registering an analyzer that greets and describes itself in frames, on a connection with
      nothing else under way. If the registration succeeds the new handle stores the values of the analyzer,
      the requests sent are those for its descriptions, and nothing is left unread; it fails only for reasons
      outside the dialogue. */
  method RegisterAnalyzer(lib: Registry.Library, port: int, flags: int, memory: Option<Registry.Memory>,
                          host: Option<Host>, dial: Dial, line: Link, greeting: Item, hw: Item, lnb: Item, panel: Item,
                          garbage: byte, junk: seq<byte>, close: bool, ghost rh: Record, ghost rl: Record,
                          ghost v: Device)
    returns (code: int, handle: Option<Handle>)
    requires lib.Valid() && FreshDial(lib.View(), dial) && |junk| == BUFFER
    requires memory.Some? ==> |memory.value.inputs| == 6
    requires Sendable(greeting) && |greeting.frame| <= BUFFER && line.conn.pending == Encode([greeting])
    requires Conforms(hw, lnb, panel) && Announces(hw, lnb, rh, rl) && Describes(rh, rl, panel, v)
    modifies lib`plist, lib`sockets, line, line.conn
    ensures lib.Valid()
    ensures Outcome(lib.View(), code) ==
      DoRegister(old(lib.View()), port, flags, Setup(handle, host, dial, NO_ERROR, close))
    ensures code == NO_ERROR ==>
      handle.Some? && Stores(StoredIn(handle.value), v) && line.conn.pending == []
    ensures code == NO_ERROR ==>
      line.sent == old(line.sent) + [[0x02, 0x00, 0x03, 0x07, 0x00, 0x03], [0x02, 0x00, 0x02, 0x0D, 0x03]]
        + if HasFront(v) then [[0x02, 0x00, 0x03, 0x27, 0x22, 0x03]] else []
  {
    var d := Introducing(hw, lnb, panel);
    RegistrationReads(greeting, hw, lnb, panel, line.conn.ending, garbage, junk);
    code, handle := lib.Register(port, flags, memory, host, dial, line, d, garbage, junk, close);
    if code == NO_ERROR {
      RegistrationOfFrames(greeting, hw, lnb, panel, rh, rl, StoredIn(handle.value), v, line.conn.ending, garbage,
                           junk);
      Registered(old(line.sent), handle.value.hardware, v);
    }
  }

  lemma Registered(sent: seq<seq<byte>>, hw: Hardware, v: Device)
    requires StoresHardware(hw, v)
    ensures sent + Registry.Requested(hw) ==
      sent + [[0x02, 0x00, 0x03, 0x07, 0x00, 0x03], [0x02, 0x00, 0x02, 0x0D, 0x03]]
        + if HasFront(v) then [[0x02, 0x00, 0x03, 0x27, 0x22, 0x03]] else []
  {
    Registry.RequestedBytes(hw);
    FrontPanels(v);
  }
}

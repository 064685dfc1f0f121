/** Frames in which every analyzer can describe itself and send its sweeps, and the sample that the repository
    keeps. */
module Descriptions {
  import opened Bytes
  import opened Framing
  import opened Reassembly
  import opened Schemas
  import opened Analyzer
  import opened Handles
  import opened Describing
  import opened Devices
  import opened Waveform
  import opened Trace
  import opened Splitter

  /** The ranges in which a description can carry the values. */
  predicate Sound(v: Device) {
    && |v.ports| == 6 && 0 <= v.inputs <= 6 && |v.serial| == 16
    && -10 <= v.day < 246 && -10 <= v.month < 246 && 0 <= v.year < 25600
    && 0 <= v.cf < 0x1_0000_0000 && 0 <= v.sp < 0x1_0000_0000 && -128 <= v.level < 128 && -9 <= v.input < 247
    && 0 <= v.front.firmware < 0x1_0000 && 0 <= v.front.projID < 0x1_0000
  }

  /** The byte whose bits 0 to 5 are given. */
  function Mask(f: seq<bool>): (b: nat)
    requires |f| == 6
    ensures b < 64 && Bits(b, f, 0)
  {
    Flag(f[0]) + 2 * Flag(f[1]) + 4 * Flag(f[2]) + 8 * Flag(f[3]) + 16 * Flag(f[4]) + 32 * Flag(f[5])
  }

  /** Byte i of the hardware description; fields that are not looked at are 0. */
  function HardwareByte(v: Device, i: nat): byte
    requires Sound(v)
  {
    if i < 5 then [0x02, 0, 85, 0x07, v.product][i]
    else if i < 8 then [v.major, v.minor, 0][i - 5]
    else if i < 12 then Be32(v.cf)[i - 8]
    else if i < 16 then Be32(v.sp)[i - 12]
    else if i < 21 then [LevelByte(v.major, v.level), v.rbw, v.mask, v.input + 9, v.inputs + 10][i - 16]
    else if 29 <= i < 45 then v.serial[i - 29]
    else if 45 <= i < 50 then [v.pcb, v.day + 10, v.month + 10, v.year / 100, v.year % 100][i - 45]
    else if 54 <= i < 56 then [2 * Mask(Powers(v)), v.lnb][i - 54]
    else if 58 <= i < 60 then [v.project, Mask(Ranges(v))][i - 58]
    else if i == 87 then 0x03 else 0
  }

  function HardwareFrame(v: Device): seq<byte>
    requires Sound(v)
  {
    seq(88, i requires 0 <= i < 88 => HardwareByte(v, i))
  }

  function LnbFrame(v: Device): seq<byte>
    requires Sound(v)
  {
    seq(48, i requires 0 <= i < 48 =>
      if i < 4 then [0x02, 0, 45, 0x0D][i] else if 37 <= i < 43 then v.ports[i - 37].gain
      else if i == 47 then 0x03 else 0)
  }

  function FrontFrame(p: FrontPanel): seq<byte>
    requires 0 <= p.firmware < 0x1_0000 && 0 <= p.projID < 0x1_0000
  {
    [0x02, 0, 11, 0x27, 0x22] + Be16(p.firmware) + [p.mbFab, p.fpFab, 0, 0] + Be16(p.projID) + [0x03]
  }

  /** What a schema has read tells the values of the analyzer. */
  ghost predicate KindRead(x: Option<Record>, v: Device) {
    exists r :: x == Some(r) && Tells(r, v)
  }

  ghost predicate GainsRead(x: Option<Record>, v: Device) {
    exists r :: x == Some(r) && TellsGains(r, v)
  }

  lemma FrontTells(p: FrontPanel)
    requires 0 <= p.firmware < 0x1_0000 && 0 <= p.projID < 0x1_0000
    ensures TellsFront(FrontFrame(p), p) && IsFrame(FrontFrame(p)) && FrontFrame(p)[3] == 0x27
  {
  }

  lemma GainTells(r: Record, p: Port, i: nat)
    requires i < 6 && Is(r, Fxdg(i), p.gain)
    ensures GAINS[i] in r && Num(r, GAINS[i]) == p.gain
  {
    assert GAINS[i] == Fxdg(i);
  }

  lemma GainsTell(v: Device, f: seq<byte>)
    requires Sound(v) && f == LnbFrame(v)
    ensures IsFrame(f) && |f| == 48 && f[3] == 0x0D
    ensures GainsRead(Walk(Framed(PowerLnb()), f, 0), v)
  {
    PowerLnbUnasserted();
    FramedAccepts(PowerLnb(), f);
    var r := Walk(Framed(PowerLnb()), f, 0).value;
    forall i | 0 <= i < 6
      ensures GAINS[i] in r && Num(r, GAINS[i]) == v.ports[i].gain
    {
      LnbAgrees(f, r, i);
      GainTells(r, v.ports[i], i);
    }
  }

  lemma WordTells(f: seq<byte>, at: nat, n: int)
    requires 0 <= n < 0x1_0000_0000 && at + 4 <= |f| && f[at..at + 4] == Be32(n)
    ensures Word32(f, at) == n
  {
    var w := f[at..at + 4];
    assert w[0] == f[at] && w[1] == f[at + 1] && w[2] == f[at + 2] && w[3] == f[at + 3];
    Be32RoundTrip(n);
    FromBe4(w);
  }

  lemma HardwareWords(v: Device, f: seq<byte>)
    requires Sound(v) && f == HardwareFrame(v)
    ensures Word32(f, 8) == v.cf && Word32(f, 12) == v.sp && f[29..45] == v.serial
  {
    assert f[8..12] == Be32(v.cf);
    assert f[12..16] == Be32(v.sp);
    assert f[29..45] == v.serial;
    WordTells(f, 8, v.cf);
    WordTells(f, 12, v.sp);
  }

  lemma HardwareBytes(v: Device, f: seq<byte>)
    requires Sound(v) && f == HardwareFrame(v)
    ensures f[4] == v.product && f[5] == v.major && f[6] == v.minor && f[16] == LevelByte(v.major, v.level)
    ensures f[17] == v.rbw && f[18] == v.mask && f[19] == v.input + 9 && f[20] == v.inputs + 10
    ensures f[45] == v.pcb && f[46] == v.day + 10 && f[47] == v.month + 10 && f[48] == v.year / 100
    ensures f[49] == v.year % 100 && f[54] == 2 * Mask(Powers(v)) && f[55] == v.lnb
    ensures f[58] == v.project && f[59] == Mask(Ranges(v))
  {
  }

  lemma KindFields(v: Device, f: seq<byte>, r: Record)
    requires Sound(v) && |f| == 88 && HeadMatches(f, r) && TailMatches(f, r) && f == HardwareFrame(v)
    ensures HasHardware(r) && TellsKind(r, v)
  {
    HardwareWords(v, f);
    HardwareBytes(v, f);
  }

  lemma SettingsFields(v: Device, f: seq<byte>, r: Record)
    requires Sound(v) && |f| == 88 && HeadMatches(f, r) && TailMatches(f, r) && f == HardwareFrame(v)
    ensures HasHardware(r) && TellsSettings(r, v)
  {
    HardwareWords(v, f);
    HardwareBytes(v, f);
  }

  lemma BitsOfMask(f: seq<bool>, b: nat)
    requires |f| == 6 && b == Mask(f)
    ensures Bits(b, f, b / 64) && Bits(2 * b / 2, f, 2 * b / 128) && 2 * b < 256
  {
  }

  lemma PortFields(v: Device, f: seq<byte>, r: Record)
    requires Sound(v) && |f| == 88 && HeadMatches(f, r) && TailMatches(f, r) && f == HardwareFrame(v)
    ensures HasHardware(r) && TellsPorts(r, v)
  {
    HardwareBytes(v, f);
    BitsOfMask(Ranges(v), f[59]);
    BitsOfMask(Powers(v), Mask(Powers(v)));
  }

  lemma HardwareFramed(v: Device, f: seq<byte>)
    requires Sound(v) && f == HardwareFrame(v)
    ensures IsFrame(f) && |f| == 88 && f[0] == 0x02 && f[3] == 0x07 && f[87] == 0x03
  {
  }

  lemma HardwareTells(v: Device, f: seq<byte>)
    requires Sound(v) && f == HardwareFrame(v)
    ensures KindRead(Walk(Framed(HardwareInfo()), f, 0), v)
  {
    HardwareFramed(v, f);
    HardwareInfoUnasserted();
    FramedAccepts(HardwareInfo(), f);
    var r := Walk(Framed(HardwareInfo()), f, 0).value;
    HardwareHead(f, r);
    HardwareTail(f, r);
    KindFields(v, f, r);
    SettingsFields(v, f, r);
    PortFields(v, f, r);
  }

  lemma FramesConform(v: Device, hw: Item, lnb: Item, panel: Item)
    requires Sound(v)
    requires hw == Item([], HardwareFrame(v)) && lnb == Item([], LnbFrame(v)) && panel == Item([], FrontFrame(v.front))
    ensures Conforms(hw, lnb, panel)
  {
    HardwareFramed(v, hw.frame);
    HardwareBytes(v, hw.frame);
    GainsTell(v, lnb.frame);
    FrontTells(v.front);
  }

  /** Every analyzer can describe itself: there are frames from which a registration stores its values. */
  lemma EveryDevice(v: Device)
    requires Sound(v)
    ensures var hw, lnb, panel := Item([], HardwareFrame(v)), Item([], LnbFrame(v)), Item([], FrontFrame(v.front));
      && Conforms(hw, lnb, panel)
      && exists rh, rl :: Announces(hw, lnb, rh, rl) && Describes(rh, rl, panel, v)
  {
    var hw, lnb, panel := Item([], HardwareFrame(v)), Item([], LnbFrame(v)), Item([], FrontFrame(v.front));
    FramesConform(v, hw, lnb, panel);
    HardwareTells(v, hw.frame);
    GainsTell(v, lnb.frame);
    FrontTells(v.front);
    var rh := Walk(Framed(HardwareInfo()), hw.frame, 0).value;
    var rl := Walk(Framed(PowerLnb()), lnb.frame, 0).value;
    assert Announces(hw, lnb, rh, rl) && Describes(rh, rl, panel, v);
  }

  /** The bytes of a description that the repository keeps as a sample. */
  predicate Sample(f: seq<byte>) {
    && |f| == 88 && f[0] == 0x02 && f[87] == 0x03 && f[4] == 0x5A && f[5] == 0x02 && f[6] == 0x10
    && f[8..12] == [0x00, 0xB7, 0x1B, 0x00] && f[12..16] == [0x00, 0x52, 0x65, 0xC0]
    && f[16] == 0x2D && f[17] == 0x40 && f[18] == 0x78 && f[19] == 0x0A && f[20] == 0x0B
    && f[45] == 0x2C && f[46] == 0x1B && f[47] == 0x0D && f[48] == 0x14 && f[49] == 0x0A
    && f[54] == 0x00 && f[55] == 0x40 && f[58] == 0xFF && f[59] == 0x80
  }

  /** A 2500 with firmware 2.16 at 1200 MHz, with 540 MHz of span, -45 dB, and one input of 50 dB range,
      calibrated on day 17 of month 3 in 2010. */
  function SampleDevice(serial: seq<byte>, front: FrontPanel): Device {
    Device(0x5A, 0xFF, 2, 0x10, 0x2C, 0x78, 1, seq(6, _ => Port(false, false, 0xFF)), serial, 17, 3, 2010,
           12_000_000, 5_400_000, -45, 0x40, 1, 0x40, front)
  }

  lemma SampleTells(f: seq<byte>, front: FrontPanel)
    requires Sample(f)
    ensures KindRead(Walk(Framed(HardwareInfo()), f, 0), SampleDevice(f[29..45], front))
  {
    HardwareInfoUnasserted();
    FramedAccepts(HardwareInfo(), f);
    var r := Walk(Framed(HardwareInfo()), f, 0).value;
    HardwareHead(f, r);
    HardwareTail(f, r);
    SampleFields(f, r, SampleDevice(f[29..45], front));
  }

  lemma SampleFields(f: seq<byte>, r: Record, v: Device)
    requires Sample(f) && HeadMatches(f, r) && TailMatches(f, r) && v == SampleDevice(f[29..45], v.front)
    ensures Tells(r, v)
  {
    assert f[8] == f[8..12][0] && f[9] == f[8..12][1] && f[10] == f[8..12][2] && f[11] == f[8..12][3];
    assert f[12] == f[12..16][0] && f[13] == f[12..16][1] && f[14] == f[12..16][2] && f[15] == f[12..16][3];
  }

  // --- Every sweep can be sent ---

  predicate SoundSweep(w: Sweep) {
    && |w.points| == POINTS && 0 <= w.cf < 0x1_0000_0000 && 0 <= w.sp < 0x1_0000_0000 && -128 <= w.level < 128
    && -9 <= w.input < 247 && 0 <= w.extender < 0x1_0000
  }

  /** The settings behind the data. */
  function SweepTail(w: Sweep, firmware: int): (b: seq<byte>)
    requires SoundSweep(w)
    ensures |b| == 20
  {
    [0x00] + Be32(w.cf) + Be32(w.sp)
    + [(if firmware < 0x0300 then -w.level else w.level) % 256, w.rbw, w.input + 9]
    + Be16(w.extender) + [0, 0, 0x40, 0, 0, 0x03]
  }

  function SweepFrame(w: Sweep, firmware: int, data: seq<byte>): seq<byte>
    requires SoundSweep(w) && |data| <= 480
  {
    [0x02] + Be16(|data| + 21) + [if |data| == 320 then 0x09 else 0x0F] + data + SweepTail(w, firmware)
  }

  lemma SweepParts(w: Sweep, firmware: int, data: seq<byte>, f: seq<byte>, n: nat)
    requires SoundSweep(w) && |data| == n <= 480 && f == SweepFrame(w, firmware, data)
    ensures |f| == n + 24 && IsFrame(f) && f[0] == 0x02 && f[3] == (if n == 320 then 0x09 else 0x0F)
    ensures f[4..4 + n] == data && f[4 + n..] == SweepTail(w, firmware)
  {
  }

  lemma TailWords(w: Sweep, firmware: int, t: seq<byte>)
    requires SoundSweep(w) && t == SweepTail(w, firmware)
    ensures Word32(t, 1) == w.cf && Word32(t, 5) == w.sp && Word16(t, 12) == w.extender && t[19] == 0x03
    ensures t[9] == (if firmware < 0x0300 then -w.level else w.level) % 256 && t[10] == w.rbw && t[11] == w.input + 9
  {
    assert t[1..5] == Be32(w.cf);
    assert t[5..9] == Be32(w.sp);
    WordTells(t, 1, w.cf);
    WordTells(t, 5, w.sp);
  }

  lemma TailAt(f: seq<byte>, n: nat, t: seq<byte>)
    requires |f| == n + 24 && t == f[n + 4..]
    ensures forall k :: 0 <= k < 20 ==> f[n + 4 + k] == t[k]
    ensures Word32(f, n + 5) == Word32(t, 1) && Word32(f, n + 9) == Word32(t, 5) && Word16(f, n + 16) == Word16(t, 12)
  {
  }

  lemma SweepReported(w: Sweep, firmware: int, f: seq<byte>, r: Record, n: nat)
    requires SoundSweep(w) && |f| == n + 24 && f[n + 4..] == SweepTail(w, firmware) && WaveMatches(f, r, n)
    ensures Reports(r, firmware, w)
  {
    TailWords(w, firmware, f[n + 4..]);
    TailAt(f, n, f[n + 4..]);
  }

  /** The data of a frame for these points. */
  predicate Coded(data: seq<byte>, points: seq<sample>) {
    data == Pack(points) || Draws(data, 320, points)
  }

  lemma DataDrawn(w: Sweep, data: seq<byte>)
    requires SoundSweep(w)
    requires Coded(data, w.points)
    ensures (|data| == 320 || |data| == 480) && Draws(data, |data|, w.points)
  {
    UnpackPack(w.points, POINTS / 2);
  }

  lemma SweepRead(w: Sweep, firmware: int, f: seq<byte>, r: Record, n: int)
    requires SoundSweep(w) && (n == 320 || n == 480) && |f| == n + 24 && f[n + 4..] == SweepTail(w, firmware)
    requires Walk(Framed(WaveformData(n)), f, 0) == Some(r)
    ensures HasSettings(r) && DATA in r && r[DATA] == f[4..4 + n] && Reports(r, firmware, w)
  {
    if n == 320 {
      WaveformData8Spans();
    } else {
      WaveformData12Spans();
    }
    WaveFields(WaveformData(n), f, r, n);
    SweepReported(w, firmware, f, r, n);
  }

  lemma SweepAccepted(w: Sweep, firmware: int, data: seq<byte>, f: seq<byte>, n: int)
    requires SoundSweep(w) && |data| == n && (n == 320 || n == 480) && f == SweepFrame(w, firmware, data)
    ensures Walk(Framed(WaveformData(n)), f, 0).Some?
  {
    SweepParts(w, firmware, data, f, n);
    TailWords(w, firmware, f[n + 4..]);
    TailAt(f, n, f[n + 4..]);
    WaveformUnasserted(n);
    FramedAccepts(WaveformData(n), f);
  }

  /** Every sweep can be sent: packed in 12 bits, and in 8 bits if its points are multiples of a fifth of a dB. */
  lemma EverySweep(w: Sweep, firmware: int, data: seq<byte>)
    requires SoundSweep(w) && Coded(data, w.points)
    ensures |data| <= 480 && exists r :: Sweeps(Item([], SweepFrame(w, firmware, data)), |data|, r, firmware, w)
  {
    DataDrawn(w, data);
    var n := |data|;
    var f := SweepFrame(w, firmware, data);
    SweepAccepted(w, firmware, data, f, n);
    SweepParts(w, firmware, data, f, n);
    var r := Walk(Framed(WaveformData(n)), f, 0).value;
    SweepRead(w, firmware, f, r, n);
    assert Sweeps(Item([], f), n, r, firmware, w);
  }

  // --- The JavaScript parser ---

  lemma ParsesAs(b: seq<byte>, body: Schema)
    requires |b| >= 4 && BodyOf(b[3], BlobLength(b)) == Some(body)
    ensures ParseResponse(b) == Walk(Framed(body), b, 0)
  {
  }

  /** The parser of responses accepts a description or an 8-bit waveform exactly if it is long enough and has
      STX and ETX in their places. */
  lemma ParserAccepts(b: seq<byte>)
    requires |b| >= 4
    ensures b[3] == 0x07 ==> (ParseResponse(b).Some? <==> |b| >= 88 && b[0] == 0x02 && b[87] == 0x03)
    ensures b[3] == 0x0D ==> (ParseResponse(b).Some? <==> |b| >= 48 && b[0] == 0x02 && b[47] == 0x03)
    ensures b[3] == 0x09 ==> (ParseResponse(b).Some? <==> |b| >= 344 && b[0] == 0x02 && b[343] == 0x03)
  {
    if b[3] == 0x07 {
      HardwareInfoUnasserted();
      ParsesAs(b, HardwareInfo());
      FramedAccepts(HardwareInfo(), b);
    } else if b[3] == 0x0D {
      PowerLnbUnasserted();
      ParsesAs(b, PowerLnb());
      FramedAccepts(PowerLnb(), b);
    } else if b[3] == 0x09 {
      WaveformUnasserted(320);
      ParsesAs(b, WaveformData(320));
      FramedAccepts(WaveformData(320), b);
    }
  }

  /** Of every analyzer it reads the values that a registration stores. */
  lemma ParserReadsDevice(v: Device)
    requires Sound(v)
    ensures KindRead(ParseResponse(HardwareFrame(v)), v) && GainsRead(ParseResponse(LnbFrame(v)), v)
  {
    HardwareFramed(v, HardwareFrame(v));
    HardwareTells(v, HardwareFrame(v));
    GainsTell(v, LnbFrame(v));
    ParsesAs(HardwareFrame(v), HardwareInfo());
    ParsesAs(LnbFrame(v), PowerLnb());
  }

  /** And of every 8-bit sweep the one that a spectrum call shows. */
  lemma ParserReadsSweep(w: Sweep, firmware: int, data: seq<byte>)
    requires SoundSweep(w) && Draws(data, 320, w.points)
    ensures exists r ::
      ParseResponse(SweepFrame(w, firmware, data)) == Some(r)
      && Sweeps(Item([], SweepFrame(w, firmware, data)), 320, r, firmware, w)
  {
    var f := SweepFrame(w, firmware, data);
    SweepAccepted(w, firmware, data, f, 320);
    SweepParts(w, firmware, data, f, 320);
    ParsesAs(f, WaveformData(320));
    SweepRead(w, firmware, f, ParseResponse(f).value, 320);
  }
}

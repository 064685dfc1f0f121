/** From the wire to the handle: what a spectrum call stores for the frames on the stream. */
module Trace {
  import opened Bytes
  import opened Framing
  import opened Reassembly
  import opened SessionSpec
  import opened LockStep
  import opened Schemas
  import opened Analyzer
  import opened Waveform
  import opened Handles
  import opened Session

  /** A waveform frame with this many data bytes, somewhere in a stream behind noise. */
  predicate Carries(it: Item, bytes: int, r: Record) {
    && (bytes == 320 || bytes == 480)
    && Sendable(it) && |it.frame| == bytes + 24 && Walk(Framed(WaveformData(bytes)), it.frame, 0) == Some(r)
  }

  lemma FrameInBuffer(it: Item, rest: seq<byte>, s: seq<byte>, ending: Ending, garbage: byte, buf: seq<byte>)
    requires Sendable(it) && |it.frame| <= BUFFER == |buf|
    requires Parts(s, it, rest) && Fits(s, ending, garbage)
    ensures var x := ReadOne(s, ending, garbage, buf);
      x.code == 0 && x.rest == rest && x.rx[..|it.frame|] == it.frame
  {
    ReceiveFirst(it, rest, s, ending, garbage);
  }

  lemma SamePrefix(firmware: int, a: seq<byte>, f: seq<byte>, at: nat)
    requires |f| <= |a| && a[..|f|] == f && 5 <= at && at + 12 <= |f|
    ensures WaveSettings(firmware, a, at) == WaveSettings(firmware, f, at)
    ensures Word32(a, at) == Word32(f, at) && Word32(a, at + 4) == Word32(f, at + 4)
    ensures a[4..at - 1] == f[4..at - 1]
  {
    assert forall k :: 0 <= k < |f| ==> a[k] == f[k];
  }

  lemma WordsOf(w: Schema, f: seq<byte>, r: Record, bytes: nat)
    requires WaveSpans(w, bytes) && Walk(Framed(w), f, 0) == Some(r)
    ensures |f| >= bytes + 21 && CUR_CF in r && CUR_SP in r
    ensures Word32(f, bytes + 5) == Num(r, CUR_CF) && Word32(f, bytes + 9) == Num(r, CUR_SP)
  {
    WaveFields(w, f, r, bytes);
  }

  lemma WordsNamed(f: seq<byte>, r: Record, bytes: int)
    requires bytes == 320 || bytes == 480
    requires Walk(Framed(WaveformData(bytes)), f, 0) == Some(r)
    ensures |f| >= bytes + 21 && CUR_CF in r && CUR_SP in r
    ensures Word32(f, bytes + 5) == Num(r, CUR_CF) && Word32(f, bytes + 9) == Num(r, CUR_SP)
  {
    if bytes == 320 {
      WaveformData8Spans();
    } else {
      WaveformData12Spans();
    }
    WordsOf(WaveformData(bytes), f, r, bytes);
  }

  /** Whatever noise precedes it, whatever follows it and whatever the buffer held before, the data, the
      settings and the two words of the axis that a spectrum call finds at its fixed offsets are the
      named fields of the frame, the LNB setting excepted; the rest of the stream stays unread. */
  lemma SpectrumOfFrame(it: Item, bytes: int, r: Record, rest: seq<byte>, s: seq<byte>, firmware: int,
                        ending: Ending, garbage: byte, buf: seq<byte>)
    requires Carries(it, bytes, r) && |buf| == BUFFER
    requires Parts(s, it, rest) && Fits(s, ending, garbage)
    ensures HasSettings(r) && DATA in r
    ensures var x := ReadOne(s, ending, garbage, buf);
      && x.code == 0 && x.rest == rest && x.rx[4..4 + bytes] == r[DATA]
      && WaveSettings(firmware, x.rx, bytes + 5) == SettingsNamed(firmware, r, Num(r, CUR_IEF) / 0x100)
      && Word32(x.rx, bytes + 5) == Num(r, CUR_CF) && Word32(x.rx, bytes + 9) == Num(r, CUR_SP)
  {
    FrameInBuffer(it, rest, s, ending, garbage, buf);
    var x := ReadOne(s, ending, garbage, buf);
    WaveformAgrees(firmware, it.frame, r, bytes);
    WordsNamed(it.frame, r, bytes);
    SamePrefix(firmware, x.rx, it.frame, bytes + 5);
  }

  /** The 320 samples an analyzer packs into a 12-bit frame are the samples of the trace. */
  lemma SamplesArrive(it: Item, r: Record, samples: seq<sample>, level: int, rest: seq<byte>, s: seq<byte>,
                      ending: Ending, garbage: byte, buf: seq<byte>, k: nat)
    requires Carries(it, 480, r) && |samples| == POINTS && DATA in r && r[DATA] == Pack(samples)
    requires |buf| == BUFFER && Parts(s, it, rest) && Fits(s, ending, garbage) && k < POINTS
    ensures var x := ReadOne(s, ending, garbage, buf);
      var a := Amplitudes12(x.rx[4..484], level);
      |a| == POINTS && a[k] == Amplitude12(samples[k], level)
  {
    SpectrumOfFrame(it, 480, r, rest, s, 0, ending, garbage, buf);
    UnpackPack(samples, POINTS / 2);
  }

  // --- A sweep ---

  /** A sweep as the analyzer makes it: the points in 80ths of a dB above the bottom of the screen, which lies
      40 dB below the reference level; the frequencies in units of 100 Hz; the offset of the internal extender. */
  datatype Sweep = Sweep(points: seq<sample>, cf: int, sp: int, level: int, rbw: byte, input: int, extender: int)

  /** How the settings of a waveform frame carry those of the sweep; firmware before 3.0 drops the sign of the
      level. */
  predicate Reports(r: Record, firmware: int, w: Sweep)
    requires HasSettings(r)
  {
    && Num(r, CUR_CF) == w.cf && Num(r, CUR_SP) == w.sp && Num(r, CUR_RBW) == w.rbw && Num(r, CUR_IEF) == w.extender
    && -128 <= w.level < 128 && Num(r, CUR_RL) == (if firmware < 0x0300 then -w.level else w.level) % 256
    && Num(r, CUR_RF) == w.input + 9 < 256
  }

  /** How the data carries the points: two in three bytes, or one in each byte with a step of a fifth of a dB. */
  predicate Draws(data: seq<byte>, bytes: int, points: seq<sample>) {
    && |points| == POINTS && (bytes == 480 ==> data == Pack(points))
    && (bytes == 320 ==> |data| == POINTS && forall k :: 0 <= k < POINTS ==> points[k] == 16 * data[k] as int)
  }

  /** A word as an `int`, and as an `unsigned long` of this many bits. */
  function AsInt(n: int): int {
    if n < 0x8000_0000 then n else n - 0x1_0000_0000
  }

  function AsLong(bits: int, n: int): int {
    if bits == 64 && n >= 0x8000_0000 then n + 0xFFFF_FFFF_0000_0000 else n
  }

  /** Every point at its level. */
  predicate Levels(a: seq<real>, points: seq<sample>, level: int) {
    |points| == POINTS == |a| && forall k :: 0 <= k < POINTS ==> a[k] == points[k] as real / 80.0 + level as real - 40.0
  }

  /** The axis around the centre frequency. */
  predicate Frequencies(f: seq<real>, cf: int, sp: int) {
    |f| == POINTS &&
    forall k :: 0 <= k < POINTS ==> f[k] == (cf as real + (k - 160) as real * sp as real / 320.0) * 0.0001
  }

  /** What the caller gets: amplitudes, axis and settings, where the LNB setting is the high byte of the
      extender's offset. Words with the top bit set come out wrong in the settings, and with a `long` of 64
      bits in the axis. */
  predicate Shows(x: Handles.Trace, bits: int, w: Sweep) {
    && Levels(x.amplitude, w.points, w.level)
    && Frequencies(x.frequency, AsLong(bits, w.cf), AsLong(bits, w.sp))
    && x.current == Settings(AsInt(w.cf), AsInt(w.sp), w.level, w.rbw, w.input, w.extender / 0x100)
  }

  lemma LevelReported(firmware: int, level: int, b: byte)
    requires -128 <= level < 128 && b == (if firmware < 0x0300 then -level else level) % 256
    ensures DecodeLevel(firmware, b) == level
  {
    SCharKeeps(level);
    SCharNegNeg(level);
  }

  lemma SettingsReported(r: Record, firmware: int, w: Sweep)
    requires HasSettings(r) && Reports(r, firmware, w)
    ensures SettingsNamed(firmware, r, Num(r, CUR_IEF) / 0x100) ==
      Settings(AsInt(w.cf), AsInt(w.sp), w.level, w.rbw, w.input, w.extender / 0x100)
  {
    LevelReported(firmware, w.level, Byte(r, CUR_RL));
  }

  lemma Points12(points: seq<sample>, level: int, a: seq<real>)
    requires |points| == POINTS && a == Amplitudes12(Pack(points), level)
    ensures Levels(a, points, level)
  {
    UnpackPack(points, POINTS / 2);
  }

  lemma Points8(data: seq<byte>, points: seq<sample>, level: int, a: seq<real>)
    requires Draws(data, 320, points) && a == Amplitudes8(data, level)
    ensures Levels(a, points, level)
  {
  }

  lemma AxisShown(bits: int, cf: int, sp: int, f: seq<real>)
    requires (bits == 32 || bits == 64) && f == Axis(ULong(bits, cf), ULong(bits, sp))
    ensures Frequencies(f, AsLong(bits, cf), AsLong(bits, sp))
  {
    assert ULong(bits, cf) == AsLong(bits, cf) && ULong(bits, sp) == AsLong(bits, sp);
  }

  lemma TraceParts(rx: seq<byte>, firmware: int, bits: int, before: Handles.Trace, cf: int, sp: int, bytes: int)
    requires |rx| == 1024 && (bits == 32 || bits == 64) && (bytes == 320 || bytes == 480)
    requires rx[3] == if bytes == 320 then 0x09 else 0x0F
    ensures var x := TraceOf(firmware, rx, bits, before, cf, sp);
      && x.current == WaveSettings(firmware, rx, bytes + 5)
      && x.amplitude == (if bytes == 320 then Amplitudes8(rx[4..324], x.current.refLevel)
                         else Amplitudes12(rx[4..484], x.current.refLevel))
      && x.frequency == Axis(ULong(bits, Word32(rx, bytes + 5)), ULong(bits, Word32(rx, bytes + 9)))
  {
  }

  lemma Shown(x: Handles.Trace, r: Record, firmware: int, bits: int, bytes: int, w: Sweep)
    requires (bits == 32 || bits == 64) && (bytes == 320 || bytes == 480)
    requires HasSettings(r) && DATA in r && Reports(r, firmware, w) && Draws(r[DATA], bytes, w.points)
    requires x.current == SettingsNamed(firmware, r, Num(r, CUR_IEF) / 0x100)
    requires x.amplitude == if bytes == 320 then Amplitudes8(r[DATA], x.current.refLevel)
                            else Amplitudes12(r[DATA], x.current.refLevel)
    requires x.frequency == Axis(ULong(bits, Num(r, CUR_CF)), ULong(bits, Num(r, CUR_SP)))
    ensures Shows(x, bits, w)
  {
    SettingsReported(r, firmware, w);
    AxisShown(bits, w.cf, w.sp, x.frequency);
    if bytes == 320 {
      Points8(r[DATA], w.points, w.level, x.amplitude);
    } else {
      Points12(w.points, w.level, x.amplitude);
    }
  }

  /** A waveform frame of this size and its type, somewhere in a stream behind noise, that carries a sweep. */
  predicate Sweeps(it: Item, bytes: int, r: Record, firmware: int, w: Sweep) {
    && Carries(it, bytes, r) && it.frame[3] == (if bytes == 320 then 0x09 else 0x0F)
    && HasSettings(r) && DATA in r && Reports(r, firmware, w) && Draws(r[DATA], bytes, w.points)
  }

  /** What a spectrum call stores of the frame it reads shows the sweep, for 8-bit frames and for 12-bit ones:
      whatever precedes the frame, follows it, or was in the buffer and in the trace before. */
  lemma SweepShown(it: Item, bytes: int, r: Record, w: Sweep, rest: seq<byte>, s: seq<byte>, firmware: int, bits: int,
                   before: Handles.Trace, cf: int, sp: int, ending: Ending, garbage: byte, buf: seq<byte>)
    requires Sweeps(it, bytes, r, firmware, w) && (bits == 32 || bits == 64) && |buf| == BUFFER
    requires Parts(s, it, rest) && Fits(s, ending, garbage)
    ensures var x := ReadOne(s, ending, garbage, buf);
      x.code == 0 && x.rest == rest && Shows(TraceOf(firmware, x.rx, bits, before, cf, sp), bits, w)
  {
    SpectrumOfFrame(it, bytes, r, rest, s, firmware, ending, garbage, buf);
    FrameInBuffer(it, rest, s, ending, garbage, buf);
    var x := ReadOne(s, ending, garbage, buf);
    assert x.rx[3] == x.rx[..|it.frame|][3];
    TraceParts(x.rx, firmware, bits, before, cf, sp, bytes);
    Shown(TraceOf(firmware, x.rx, bits, before, cf, sp), r, firmware, bits, bytes, w);
  }

  /** The whole way of a spectrum: on a connection that delivers a waveform frame, behind noise perhaps, the
      call succeeds, leaves what follows the frame unread, and shows the sweep. */
  method ReadSpectrum(line: Link, h: Handle, amplitude: array<real>, frequency: array<real>, bits: int,
                      cf: int, sp: int, answer: seq<byte>, garbage: byte, junk: seq<byte>,
                      ghost it: Item, ghost rest: seq<byte>, ghost bytes: int, ghost r: Record, ghost w: Sweep)
    returns (code: int)
    requires amplitude.Length == POINTS && frequency.Length == POINTS && amplitude != frequency
    requires (bits == 32 || bits == 64) && |junk| == BUFFER
    requires Fits(line.conn.pending + answer, line.conn.ending, garbage) && Parts(line.conn.pending + answer, it, rest)
    requires Sweeps(it, bytes, r, h.hardware.firmware, w)
    modifies line, line.conn, h`current, amplitude, frequency
    ensures code == 0 && line.conn.pending == rest
    ensures Shows(Handles.Trace(h.current, amplitude[..], frequency[..]), bits, w)
  {
    ghost var s, before := line.conn.pending + answer, Handles.Trace(h.current, amplitude[..], frequency[..]);
    SweepShown(it, bytes, r, w, rest, s, h.hardware.firmware, bits, before, cf, sp, line.conn.ending, garbage, junk);
    SpectrumReads(s, line.conn.ending, garbage, junk);
    ghost var res;
    code, res := line.GetSpectrumData(h, amplitude, frequency, bits, cf, sp, Exchange(0, answer), garbage, junk);
  }

  /** A connection closed in front of a whole frame: the spectrum call succeeds, and all that was not
      received is the content of its uninitialised buffer. */
  lemma SpectrumWithoutFrame(s: seq<byte>, garbage: byte, buf: seq<byte>)
    requires |buf| == BUFFER && Fits(s, Closed, garbage) && !Complete(s)
    ensures var x := Perform(Spectrum, s, Closed, garbage, buf);
      && x.Some? && x.value.code == 0 && |x.value.rx| == BUFFER
      && forall k :: |Leftover(s, garbage)| <= k < BUFFER ==> x.value.rx[k] == buf[k]
  {
  }

  /** A call for a spectrum that succeeds has received a whole frame, exactly if one was there or the
      stream ended in an error. */
  lemma SpectrumMeansFrame(s: seq<byte>, ending: Ending, garbage: byte, buf: seq<byte>)
    requires |buf| == BUFFER && Fits(s, ending, garbage)
    ensures var x := Perform(Spectrum, s, ending, garbage, buf);
      x.Some? && ((x.value.code == 0 ==> Complete(s)) <==> Complete(s) || ending.Failed?)
  {
    SuccessMeansComplete(s, ending, garbage);
  }

  /** On an empty closed connection even the packet type, and with it the whole trace, is left to the buffer. */
  lemma TraceOfNothing(garbage: byte, buf: seq<byte>, level: int)
    requires |buf| == BUFFER && Fits([], Closed, garbage)
    ensures var x := Perform(Spectrum, [], Closed, garbage, buf).value;
      x.code == 0 && |x.rx| == BUFFER && x.rx[3] == buf[3]
      && Amplitudes12(x.rx[4..484], level) == Amplitudes12(buf[4..484], level)
  {
    SpectrumWithoutFrame([], garbage, buf);
    var x := Perform(Spectrum, [], Closed, garbage, buf).value;
    assert x.rx[4..484] == buf[4..484];
  }

  lemma FrameRead(f: seq<byte>, ending: Ending, garbage: byte, buf: seq<byte>)
    requires IsFrame(f) && |f| <= BUFFER == |buf|
    ensures Fits(f, ending, garbage)
    ensures var x := ReadOne(f, ending, garbage, buf);
      x.code == 0 && x.rx[..|f|] == f
  {
    WholeFrame(f);
    FrameFits(f, ending, garbage);
  }

  lemma SpectrumReads(s: seq<byte>, ending: Ending, garbage: byte, buf: seq<byte>)
    requires |buf| == BUFFER && Fits(s, ending, garbage)
    ensures Perform(Spectrum, s, ending, garbage, buf) == Some(ReadOne(s, ending, garbage, buf))
  {
  }

  /** A spectrum call that receives a well-formed waveform frame with the LNB setting 0x40, accepted by the
      schema, and records 0. */
  lemma LnbMisrecorded(firmware: int, bytes: int, ending: Ending, garbage: byte, buf: seq<byte>,
                       before: Handles.Trace, bits: int, cf: int, sp: int)
    requires (bytes == 320 || bytes == 480) && |buf| == BUFFER && (bits == 32 || bits == 64)
    ensures var f := PlainFrame(bytes);
      && WellFormed(f) && f[bytes + 20] == 0x40 && Walk(Framed(WaveformData(bytes)), f, 0).Some?
      && Fits(f, ending, garbage)
      && var x := Perform(Spectrum, f, ending, garbage, buf).value;
      x.code == 0 && |x.rx| == BUFFER && TraceOf(firmware, x.rx, bits, before, cf, sp).current.lnb == 0
  {
    var f := PlainFrame(bytes);
    LnbMisread(firmware, bytes);
    FrameRead(f, ending, garbage, buf);
    SpectrumReads(f, ending, garbage, buf);
    var x := ReadOne(f, ending, garbage, buf);
    SamePrefix(firmware, x.rx, f, bytes + 5);
    assert x.rx[3] == x.rx[..|f|][3];
  }
}

/** Waveform responses: packed samples, amplitudes, the frequency axis, and the settings they carry. */
module Waveform {
  import opened Bytes
  import opened Framing
  import opened Schemas
  import opened Analyzer

  const POINTS := 320

  type sample = x: int | 0 <= x < 4096

  // --- 12-bit samples, two in three bytes ---

  /** The sample in the high 12 bits of the two bytes at j, and the one in their low 12 bits. */
  function High(p: seq<byte>, j: nat): sample
    requires j + 1 < |p|
  {
    p[j] as int * 0x10 + p[j + 1] / 0x10
  }

  function Low(p: seq<byte>, j: nat): sample
    requires j + 1 < |p|
  {
    p[j] as int % 0x10 * 0x100 + p[j + 1]
  }

  /** The samples of packed data: in each three bytes the high 12 bits, then the low ones. */
  function Unpack(p: seq<byte>): seq<sample> {
    if |p| < 3 then [] else [High(p, 0), Low(p, 1)] + Unpack(p[3..])
  }

  /** The three bytes that start with a sample and end with the next one. */
  function Triple(s: seq<sample>): (b: seq<byte>)
    requires |s| >= 2
    ensures |b| == 3
  {
    [s[0] / 0x10, s[0] as int % 0x10 * 0x10 + s[1] / 0x100, s[1] % 0x100]
  }

  function Pack(s: seq<sample>): seq<byte> {
    if |s| < 2 then [] else Triple(s) + Pack(s[2..])
  }

  lemma PairRoundTrip(s: seq<sample>, b: seq<byte>)
    requires |s| >= 2 && b == Triple(s)
    ensures High(b, 0) == s[0] && Low(b, 1) == s[1]
  {
  }

  lemma TripleRoundTrip(p: seq<byte>, s: seq<sample>)
    requires |p| >= 3 && |s| >= 2 && s[0] == High(p, 0) && s[1] == Low(p, 1)
    ensures Triple(s) == p[..3]
  {
    assert Triple(s)[0] == p[0];
    assert Triple(s)[1] == p[1];
    assert Triple(s)[2] == p[2];
  }

  lemma PackStep(s: seq<sample>, p: seq<byte>)
    requires |s| >= 2 && p == Pack(s)
    ensures |p| >= 3 && High(p, 0) == s[0] && Low(p, 1) == s[1] && p[3..] == Pack(s[2..])
  {
    PairRoundTrip(s, Triple(s));
  }

  lemma UnpackStep(p: seq<byte>, s: seq<sample>)
    requires |p| >= 3 && s == Unpack(p)
    ensures |s| >= 2 && Triple(s) == p[..3] && s[2..] == Unpack(p[3..])
  {
    TripleRoundTrip(p, s);
  }

  /** Packing loses no sample, for any number n of pairs. */
  lemma {:induction false} UnpackPack(s: seq<sample>, n: nat)
    requires |s| == 2 * n
    ensures Unpack(Pack(s)) == s && |Pack(s)| == 3 * n
    decreases n
  {
    if n > 0 {
      PackStep(s, Pack(s));
      UnpackPack(s[2..], n - 1);
    }
  }

  /** Every byte string of n whole triples is the packing of its samples. */
  lemma {:induction false} PackUnpack(p: seq<byte>, n: nat)
    requires |p| == 3 * n
    ensures Pack(Unpack(p)) == p && |Unpack(p)| == 2 * n
    decreases n
  {
    if n > 0 {
      UnpackStep(p, Unpack(p));
      PackUnpack(p[3..], n - 1);
    }
  }

  lemma UnpackedRest(p: seq<byte>, t: seq<byte>, k: nat)
    requires |p| >= 3 && t == p[3..] && k < |Unpack(t)|
    ensures k + 2 < |Unpack(p)| && Unpack(p)[k + 2] == Unpack(t)[k]
  {
  }

  lemma RestAt(p: seq<byte>, t: seq<byte>, j: nat)
    requires |p| >= 3 && t == p[3..] && j + 2 < |t|
    ensures High(t, j) == High(p, j + 3) && Low(t, j + 1) == Low(p, j + 4)
  {
    assert t[j] == p[j + 3] && t[j + 1] == p[j + 4] && t[j + 2] == p[j + 5];
  }

  /** Samples k and k + 1 of packed data lie in the bytes from j on. */
  predicate PairAt(p: seq<byte>, j: nat, s: seq<sample>, k: nat) {
    j + 2 < |p| && k + 1 < |s| && s[k] == High(p, j) && s[k + 1] == Low(p, j + 1)
  }

  lemma PairShifts(p: seq<byte>, t: seq<byte>, j: nat, k: nat)
    requires |p| >= 3 && t == p[3..] && PairAt(t, j, Unpack(t), k)
    ensures PairAt(p, j + 3, Unpack(p), k + 2)
  {
    UnpackedRest(p, t, k);
    UnpackedRest(p, t, k + 1);
    RestAt(p, t, j);
  }

  lemma {:induction false} UnpackedPair(p: seq<byte>, q: nat, j: nat, k: nat)
    requires j == 3 * q && k == 2 * q && j + 2 < |p|
    ensures PairAt(p, j, Unpack(p), k)
    decreases q
  {
    if q > 0 {
      UnpackedPair(p[3..], q - 1, j - 3, k - 2);
      PairShifts(p, p[3..], j - 3, k - 2);
    }
  }

  /** Packing writes one sample behind the other: three bytes, as one number of 24 bits, are two samples
      of 12 bits. */
  lemma PackedBits(s: seq<sample>, n: nat, q: nat)
    requires |s| == 2 * n && q < n
    ensures var p := Pack(s);
      && |p| == 3 * n
      && p[3 * q] as int * 0x1_0000 + p[3 * q + 1] as int * 0x100 + p[3 * q + 2]
        == s[2 * q] as int * 0x1000 + s[2 * q + 1]
  {
    UnpackPack(s, n);
    UnpackedPair(Pack(s), q, 3 * q, 2 * q);
  }

  // --- Amplitudes in dB ---

  function Amplitude8(data: int, level: int): real {
    data as real / 5.0 + (level - 40) as real
  }

  function Amplitude12(data: int, level: int): real {
    data as real / 80.0 + (level - 40) as real
  }

  /** The JavaScript conversion; `crl` is the reference level as its schema yields it, unsigned. */
  function ToDb(wdp: int, crl: int, useV3Logic: bool): real {
    if useV3Logic then 0.2 * wdp as real + (crl - 40) as real else 0.2 * wdp as real - (crl + 40) as real
  }

  /** Both implementations give the same amplitude exactly for the level bytes below 128, and for 128
      too with firmware before 3.0: the JavaScript side never reads a level as negative. */
  lemma ToDbAgrees(firmware: int, wdp: int, rl: byte)
    ensures ToDb(wdp, rl, !Negated(firmware)) == Amplitude8(wdp, DecodeLevel(firmware, rl)) <==>
      rl < 128 || (rl == 128 && Negated(firmware))
  {
  }

  /** A 12-bit sample refines the 8-bit one it starts with: it adds less than one 8-bit step. */
  lemma TwelveBitRefines(d: sample, level: int)
    ensures 0.0 <= Amplitude12(d, level) - Amplitude8(d / 16, level) < 0.2
    ensures Amplitude12(d, level) == Amplitude8(d / 16, level) <==> d % 16 == 0
  {
  }

  function Amplitudes8(p: seq<byte>, level: int): seq<real> {
    seq(|p|, k requires 0 <= k < |p| => Amplitude8(p[k], level))
  }

  function Amplitudes12(p: seq<byte>, level: int): seq<real> {
    seq(|Unpack(p)|, k requires 0 <= k < |Unpack(p)| => Amplitude12(Unpack(p)[k], level))
  }

  /** The 8-bit loop: bytes 4 to 323. */
  method Store8(rx: array<byte>, level: int, amplitude: array<real>)
    requires rx.Length >= 4 + POINTS && amplitude.Length == POINTS
    modifies amplitude
    ensures amplitude[..] == Amplitudes8(rx[4..4 + POINTS], level)
  {
    var i, j := 0, 4;
    while i < POINTS
      invariant 0 <= i <= POINTS && j == 4 + i
      invariant forall k :: 0 <= k < i ==> amplitude[k] == Amplitude8(rx[4 + k], level)
    {
      amplitude[i] := Amplitude8(rx[j], level);
      j := j + 1;
      i := i + 1;
    }
  }

  lemma AmplitudeAt(p: seq<byte>, level: int, k: nat)
    requires k < |Unpack(p)|
    ensures |Amplitudes12(p, level)| == |Unpack(p)| && Amplitudes12(p, level)[k] == Amplitude12(Unpack(p)[k], level)
  {
  }

  lemma AmplitudePair(p: seq<byte>, level: int, q: nat)
    requires 3 * q + 2 < |p|
    ensures var a := Amplitudes12(p, level);
      && 2 * q + 1 < |a| && a[2 * q] == Amplitude12(High(p, 3 * q), level)
      && a[2 * q + 1] == Amplitude12(Low(p, 3 * q + 1), level)
  {
    UnpackedPair(p, q, 3 * q, 2 * q);
    AmplitudeAt(p, level, 2 * q);
    AmplitudeAt(p, level, 2 * q + 1);
  }

  /** One round of the 12-bit loop: two samples from three bytes. */
  method StorePair(rx: array<byte>, j: nat, level: int, amplitude: array<real>, i: nat) returns (nextJ: nat, nextI: nat)
    requires j + 2 < rx.Length && i + 1 < amplitude.Length
    modifies amplitude
    ensures nextJ == j + 3 && nextI == i + 2
    ensures amplitude[i] == Amplitude12(High(rx[..], j), level)
    ensures amplitude[i + 1] == Amplitude12(Low(rx[..], j + 1), level)
    ensures forall k :: 0 <= k < amplitude.Length && k != i && k != i + 1 ==> amplitude[k] == old(amplitude[k])
  {
    nextI, nextJ := i, j;
    var data: int := rx[nextJ] as int * 0x10;
    nextJ := nextJ + 1;
    data := data + rx[nextJ] / 0x10;
    amplitude[nextI] := Amplitude12(data, level);
    nextI := nextI + 1;
    data := rx[nextJ] as int % 0x10 * 0x100;
    nextJ := nextJ + 1;
    data := data + rx[nextJ];
    nextJ := nextJ + 1;
    amplitude[nextI] := Amplitude12(data, level);
    nextI := nextI + 1;
  }

  /** The 12-bit loop: the counter moves by two in each round, the byte index by three. */
  method Store12(rx: array<byte>, level: int, amplitude: array<real>)
    requires rx.Length >= 4 + 3 * POINTS / 2 && amplitude.Length == POINTS
    modifies amplitude
    ensures amplitude[..] == Amplitudes12(rx[4..4 + 3 * POINTS / 2], level)
  {
    ghost var p := rx[4..4 + 3 * POINTS / 2];
    ghost var want := Amplitudes12(p, level);
    PackUnpack(p, POINTS / 2);
    ghost var q := 0;
    var i, j := 0, 4;
    while i < POINTS
      invariant 0 <= i <= POINTS && i == 2 * q && j == 4 + 3 * q
      invariant forall k :: 0 <= k < i ==> amplitude[k] == want[k]
    {
      AmplitudePair(p, level, q);
      assert rx[j] == p[3 * q] && rx[j + 1] == p[3 * q + 1] && rx[j + 2] == p[3 * q + 2];
      j, i := StorePair(rx, j, level, amplitude, i);
      q := q + 1;
    }
  }

  // --- Centre frequency and span ---

  /** A word assembled in an `int` and stored in an `unsigned long` of the given width: with 64 bits
      a set top bit is extended. */
  function ULong(bits: int, word: int): int
    requires bits == 32 || bits == 64
  {
    if bits == 64 && word >= 0x8000_0000 then word - 0x1_0000_0000 + 0x1_0000_0000_0000_0000 else word
  }

  function Frequency(cf: int, sp: int, k: int): real {
    (cf as real + (k - 160) as real * sp as real / 320.0) * 0.0001
  }

  function Axis(cf: int, sp: int): seq<real> {
    seq(POINTS, k requires 0 <= k < POINTS => Frequency(cf, sp, k))
  }

  method StoreAxis(cf: int, sp: int, frequency: array<real>)
    requires frequency.Length == POINTS
    modifies frequency
    ensures frequency[..] == Axis(cf, sp)
  {
    var i := -160;
    while i < 160
      invariant -160 <= i <= 160
      invariant forall k :: 0 <= k < i + 160 ==> frequency[k] == Axis(cf, sp)[k]
    {
      frequency[i + 160] := (cf as real + i as real * sp as real / 320.0) * 0.0001;
      i := i + 1;
    }
  }

  lemma AxisEntry(cf: int, sp: int, k: int, a: real)
    requires 0 <= k < POINTS && a == (k - 160) as real
    ensures Axis(cf, sp)[k] == (cf as real + a * (sp as real / 320.0)) * 0.0001
  {
    Quotient(a, sp as real);
  }

  lemma Quotient(a: real, s: real)
    ensures a * s / 320.0 == a * (s / 320.0)
  {
  }

  lemma InSpan(a: real, d: real)
    requires -160.0 <= a < 160.0 && d > 0.0
    ensures -160.0 * d <= a * d < 160.0 * d
  {
    assert (a + 160.0) * d >= 0.0 && (160.0 - a) * d > 0.0;
  }

  lemma NextStep(c: real, a: real, d: real)
    ensures (c + (a + 1.0) * d) * 0.0001 - (c + a * d) * 0.0001 == d * 0.0001
  {
    assert (a + 1.0) * d == a * d + d;
  }

  lemma AxisStep(cf: int, sp: int, k: int)
    requires 0 <= k < POINTS - 1
    ensures Axis(cf, sp)[k + 1] - Axis(cf, sp)[k] == sp as real / 320.0 * 0.0001
  {
    var a := (k - 160) as real;
    AxisEntry(cf, sp, k, a);
    AxisEntry(cf, sp, k + 1, a + 1.0);
    NextStep(cf as real, a, sp as real / 320.0);
  }

  lemma AxisMarks(cf: int, sp: int)
    ensures Axis(cf, sp)[160] == cf as real * 0.0001
    ensures Axis(cf, sp)[0] == cf as real * 0.0001 - sp as real * 0.0001 / 2.0
  {
    AxisEntry(cf, sp, 0, -160.0);
    AxisEntry(cf, sp, 160, 0.0);
  }

  lemma Within(c: real, x: real, w: real)
    requires -(w / 2.0) <= x < w / 2.0
    ensures c * 0.0001 - w * 0.0001 / 2.0 <= (c + x) * 0.0001 < c * 0.0001 + w * 0.0001 / 2.0
  {
  }

  lemma AxisBounds(cf: int, sp: int, k: int)
    requires 0 <= k < POINTS && sp > 0
    ensures var c, w := cf as real * 0.0001, sp as real * 0.0001;
      c - w / 2.0 <= Axis(cf, sp)[k] < c + w / 2.0
  {
    var a, d := (k - 160) as real, sp as real / 320.0;
    AxisEntry(cf, sp, k, a);
    InSpan(a, d);
    Within(cf as real, a * d, sp as real);
  }

  /** The axis starts half a span below the centre, which is entry 160, rises by a constant step of
      one 320th of the span, and stays in the half-open window. */
  lemma AxisShape(cf: int, sp: int, k: int)
    requires 0 <= k < POINTS && sp > 0
    ensures var f, c, w := Axis(cf, sp), cf as real * 0.0001, sp as real * 0.0001;
      && f[160] == c && f[0] == c - w / 2.0
      && c - w / 2.0 <= f[k] < c + w / 2.0
      && (k + 1 < POINTS ==> f[k + 1] - f[k] == w / 320.0 > 0.0)
  {
    AxisMarks(cf, sp);
    AxisBounds(cf, sp, k);
    if k + 1 < POINTS {
      AxisStep(cf, sp, k);
    }
  }

  /** The word on the wire is the value used for the axis exactly if `long` has 32 bits or the top
      bit is clear; otherwise all higher bits are set as well. */
  lemma ULongExact(bits: int, b: seq<byte>)
    requires (bits == 32 || bits == 64) && |b| == 4
    ensures ULong(bits, Word32(b, 0)) == FromBe(b) <==> bits == 32 || b[0] < 128
    ensures bits == 64 && b[0] >= 128 ==> ULong(bits, Word32(b, 0)) == FromBe(b) + 0xFFFF_FFFF_0000_0000
  {
    FromBe4(b);
  }

  // --- The settings block after the samples ---

  function SettingsWith(firmware: int, cf: int, sp: int, rl: byte, rbw: int, rf: int, lnb: int): Settings
    requires 0 <= cf < 0x1_0000_0000 && 0 <= sp < 0x1_0000_0000
  {
    Settings(Signed32(cf), Signed32(sp), DecodeLevel(firmware, rl), rbw, rf - 9, lnb)
  }

  /** Settings read by fixed offsets from `at`, the first byte of CurCF. */
  function WaveSettings(firmware: int, rx: seq<byte>, at: nat): Settings
    requires at + 12 <= |rx|
  {
    SettingsWith(firmware, Word32(rx, at), Word32(rx, at + 4), rx[at + 8], rx[at + 9], rx[at + 10], rx[at + 11])
  }

  predicate HasSettings(r: Record) {
    && CUR_CF in r && CUR_SP in r && CUR_RL in r && CUR_RBW in r && CUR_RF in r && CUR_IEF in r && CUR_LNB in r
    && Num(r, CUR_CF) < 0x1_0000_0000 && Num(r, CUR_SP) < 0x1_0000_0000
  }

  /** Settings read by name, with the given LNB setting. */
  function SettingsNamed(firmware: int, r: Record, lnb: int): Settings
    requires HasSettings(r)
  {
    SettingsWith(firmware, Num(r, CUR_CF), Num(r, CUR_SP), Byte(r, CUR_RL), Byte(r, CUR_RBW), Byte(r, CUR_RF), lnb)
  }

  predicate WaveSpans(w: Schema, bytes: nat) {
    && Locate(w, DATA, 4) == Span(4, bytes) && Locate(w, CUR_CF, 4) == Span(bytes + 5, 4)
    && Locate(w, CUR_SP, 4) == Span(bytes + 9, 4) && Locate(w, CUR_RL, 4) == Span(bytes + 13, 1)
    && Locate(w, CUR_RBW, 4) == Span(bytes + 14, 1) && Locate(w, CUR_RF, 4) == Span(bytes + 15, 1)
    && Locate(w, CUR_IEF, 4) == Span(bytes + 16, 2) && Locate(w, CUR_LNB, 4) == Span(bytes + 20, 1)
  }

  /** The fixed offsets agree with the schema field by field, for 8-bit and 12-bit frames, except
      that the LNB setting is taken from the high byte of the internal extender offset; CurLNB
      lies four bytes further on. */
  lemma WaveformAgrees(firmware: int, f: seq<byte>, r: Record, bytes: int)
    requires bytes == 320 || bytes == 480
    requires Walk(Framed(WaveformData(bytes)), f, 0) == Some(r)
    ensures |f| >= bytes + 21 && HasSettings(r) && DATA in r && r[DATA] == f[4..4 + bytes]
    ensures f[bytes + 20] == Byte(r, CUR_LNB)
    ensures Num(r, CUR_IEF) < 0x1_0000
    ensures WaveSettings(firmware, f, bytes + 5) == SettingsNamed(firmware, r, Num(r, CUR_IEF) / 0x100)
  {
    if bytes == 320 {
      WaveformData8Spans();
    } else {
      WaveformData12Spans();
    }
    WaveFields(WaveformData(bytes), f, r, bytes);
    SameFieldsSameSettings(firmware, f, r, bytes);
  }

  predicate WaveMatches(f: seq<byte>, r: Record, bytes: nat)
    requires |f| >= bytes + 21
  {
    var at := bytes + 5;
    && HasSettings(r)
    && Num(r, CUR_CF) == Word32(f, at)
    && Num(r, CUR_SP) == Word32(f, at + 4)
    && Is(r, CUR_RL, f[at + 8]) && Is(r, CUR_RBW, f[at + 9]) && Is(r, CUR_RF, f[at + 10])
    && Num(r, CUR_IEF) == Word16(f, at + 11) && Is(r, CUR_LNB, f[at + 15])
  }

  lemma WaveFields(w: Schema, f: seq<byte>, r: Record, bytes: nat)
    requires WaveSpans(w, bytes) && Walk(Framed(w), f, 0) == Some(r)
    ensures |f| >= bytes + 21 && WaveMatches(f, r, bytes) && DATA in r && r[DATA] == f[4..4 + bytes]
  {
    WordField(w, f, r, CUR_CF, bytes + 5);
    WordField(w, f, r, CUR_SP, bytes + 9);
    ByteField(w, f, r, CUR_RL, bytes + 13);
    ByteField(w, f, r, CUR_RBW, bytes + 14);
    ByteField(w, f, r, CUR_RF, bytes + 15);
    ByteField(w, f, r, CUR_LNB, bytes + 20);
    FramedReads(w, f, CUR_IEF);
    FramedReads(w, f, DATA);
    FromBe2(f[bytes + 16..bytes + 18]);
  }

  lemma SameFieldsSameSettings(firmware: int, f: seq<byte>, r: Record, bytes: nat)
    requires |f| >= bytes + 21 && WaveMatches(f, r, bytes)
    ensures Num(r, CUR_IEF) < 0x1_0000
    ensures WaveSettings(firmware, f, bytes + 5) == SettingsNamed(firmware, r, Num(r, CUR_IEF) / 0x100)
  {
  }

  /** The LNB setting the code records is the reported one exactly if the extender offset happens to
      lie in the one block of 256 values that starts with the LNB byte. */
  lemma LnbExact(firmware: int, f: seq<byte>, r: Record, bytes: int)
    requires bytes == 320 || bytes == 480
    requires Walk(Framed(WaveformData(bytes)), f, 0) == Some(r)
    ensures |f| >= bytes + 21 && HasSettings(r)
    ensures WaveSettings(firmware, f, bytes + 5).lnb == Byte(r, CUR_LNB) <==>
      Byte(r, CUR_LNB) as int * 0x100 <= Num(r, CUR_IEF) < (Byte(r, CUR_LNB) as int + 1) * 0x100
  {
    WaveformAgrees(firmware, f, r, bytes);
    BlockOf(Num(r, CUR_IEF), Byte(r, CUR_LNB));
  }

  lemma BlockOf(n: nat, b: int)
    ensures n / 0x100 == b <==> b * 0x100 <= n < (b + 1) * 0x100
  {
  }

  const WAVE_8BIT: byte := 0x09
  const WAVE_12BIT: byte := 0x0F

  /** The type of a waveform frame with this many data bytes. */
  function WaveType(bytes: int): byte {
    if bytes == 320 then WAVE_8BIT else WAVE_12BIT
  }

  /** An otherwise blank waveform frame with the LNB supply off. */
  function PlainFrame(bytes: nat): seq<byte>
    requires bytes <= 480
  {
    seq(bytes + 24, i requires 0 <= i < bytes + 24 =>
      if i == 0 then 0x02 else if i == 1 then (bytes + 21) / 0x100 else if i == 2 then (bytes + 21) % 0x100
      else if i == 3 then WaveType(bytes) else if i == bytes + 20 then 0x40 else if i == bytes + 23 then 0x03 else 0)
  }

  /** It is a well-formed frame that the schema accepts; the code takes 0 for its LNB setting instead of 0x40. */
  lemma LnbMisread(firmware: int, bytes: int)
    requires bytes == 320 || bytes == 480
    ensures var f := PlainFrame(bytes);
      && WellFormed(f) && f[3] == WaveType(bytes)
      && Walk(Framed(WaveformData(bytes)), f, 0).Some? && f[bytes + 20] == 0x40
      && WaveSettings(firmware, f, bytes + 5).lnb == 0
  {
    var f := PlainFrame(bytes);
    WaveformUnasserted(bytes);
    FramedAccepts(WaveformData(bytes), f);
  }
}

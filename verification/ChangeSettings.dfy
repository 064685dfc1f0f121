/** The change-settings packet: validation, building in place, and what survives the wire. */
module ChangeSettings {
  import opened Bytes
  import opened Framing
  import opened Schemas
  import opened Analyzer

  const WAVE_CHANGE: byte := 0x04

  const INVALID_CFREQ := 300000
  const INVALID_SPAN := 300001
  const INVALID_RFLVL := 300002
  const INVALID_RBW := 300003
  const INVALID_RF := 300004

  datatype Lnb = Lnb(enable: bool, volt: int, khz22: bool)

  /** The arguments of `AVCOM_SA_SetAllSettings`: frequencies in MHz, the level in dB. */
  datatype Request = Request(cfreq: real, span: real, level: int, rbw: int, input: int, lnb: Option<Lnb>)

  /** The values that travel in the packet. */
  datatype Wire = Wire(cf: word, sp: word, rl: byte, rbw: byte, rf: byte, lnb: byte)

  predicate RbwAvailable(rbws: Rbws, rbw: int) {
    || (rbw == 0x80 && rbws.mhz3)
    || (rbw == 0x40 && rbws.mhz1)
    || (rbw == 0x20 && rbws.khz300)
    || (rbw == 0x10 && rbws.khz100)
    || (rbw == 0x08 && rbws.khz10)
    || (rbw == 0x02 && rbws.khz200)
  }

  /** The validation of `AVCOM_SA_SetAllSettings`: 0, or the code of the first check that fails. The
      frequency is compared with the lower limit only. */
  function Check(hw: Hardware, limits: Limits, inputs: seq<Input>, q: Request): int
    requires |inputs| == 6 && hw.availInputs <= 6
  {
    if q.cfreq < limits.min then INVALID_CFREQ
    else if q.span < 0.0 || q.span > 1300.0 then INVALID_SPAN
    else if q.input < 1 || q.input > hw.availInputs then INVALID_RF
    else if !RbwAvailable(hw.rbws, q.rbw) then INVALID_RBW
    else
      var w := inputs[q.input - 1].window;
      if q.level > w.max || q.level < w.min then INVALID_RFLVL else 0
  }

  /** Whatever is accepted is accepted at every higher frequency too: the upper limit is not checked. */
  lemma NoUpperLimit(hw: Hardware, limits: Limits, inputs: seq<Input>, q: Request, cfreq: real)
    requires |inputs| == 6 && hw.availInputs <= 6
    requires Check(hw, limits, inputs, q) == 0 && cfreq >= q.cfreq
    ensures Check(hw, limits, inputs, q.(cfreq := cfreq)) == 0
  {
  }

  function Truncate(x: real): int {
    if x >= 0.0 then x.Floor else -(-x).Floor
  }

  /** `(unsigned int)(mhz * 10000)`: truncated, and reduced to 32 bits when it does not fit. */
  function ToUnits(mhz: real): (u: int)
    ensures 0 <= u < 0x1_0000_0000
  {
    Truncate(mhz * 10000.0) % 0x1_0000_0000
  }

  function FromUnits(u: int): real {
    u as real / 10000.0
  }

  /** The LNB byte of `AVCOM_SA_SetAllSettings`. */
  function LnbByte(lnb: Option<Lnb>): byte {
    if lnb.Some? && lnb.value.enable
    then 0x44 + (if lnb.value.volt == 18 then 0x08 else 0) + (if lnb.value.khz22 then 0x20 else 0)
    else 0x40
  }

  /** The LNB byte of `AVCOM_SA_SetLNB`, where any voltage but 0 counts as 18 V. */
  function SetLnbByte(lnb: Option<Lnb>): byte {
    if lnb.Some? && lnb.value.enable
    then 0x44 + (if lnb.value.volt != 0 then 0x08 else 0) + (if lnb.value.khz22 then 0x20 else 0)
    else 0x40
  }

  /** The two calls ask for the same supply exactly if it is off or the voltage is 18 or 0. */
  lemma LnbBytesAgree(lnb: Lnb)
    ensures LnbByte(Some(lnb)) == SetLnbByte(Some(lnb)) <==> !lnb.enable || lnb.volt == 18 || lnb.volt == 0
  {
  }

  function ToWire(firmware: int, q: Request): Wire
  {
    Wire(ToUnits(q.cfreq), ToUnits(q.span), EncodeLevel(firmware, q.level), UChar(q.rbw), UChar(q.input + 9),
         LnbByte(q.lnb))
  }

  // --- The packet ---

  function ChangeFrame(w: Wire): (f: seq<byte>)
    ensures |f| == 19
  {
    [STX] + Be16(0x10) + [WAVE_CHANGE] + Be32(w.cf) + Be32(w.sp) + [w.rl, w.rbw, w.rf, w.lnb, 0, 0, ETX]
  }

  /** `sa_tx[k++] = b`. */
  method Put(tx: array<byte>, k: nat, b: byte) returns (next: nat)
    requires k < tx.Length
    modifies tx
    ensures next == k + 1 && tx[..next] == old(tx[..k]) + [b]
    ensures forall i :: next <= i < tx.Length ==> tx[i] == old(tx[i])
  {
    tx[k] := b;
    next := k + 1;
    assert tx[..k] == old(tx[..k]);
  }

  /** The four bytes of an `unsigned int`, most significant first. */
  method PutWord(tx: array<byte>, k: nat, v: int) returns (next: nat)
    requires 0 <= v < 0x1_0000_0000 && k + 4 <= tx.Length
    modifies tx
    ensures next == k + 4 && tx[..next] == old(tx[..k]) + Be32(v)
    ensures forall i :: next <= i < tx.Length ==> tx[i] == old(tx[i])
  {
    next := Put(tx, k, v / 0x100_0000);
    next := Put(tx, next, v / 0x1_0000 % 0x100);
    next := Put(tx, next, v / 0x100 % 0x100);
    next := Put(tx, next, v % 0x100);
  }

  /** Closes a packet whose DTYPE and data lie from index 3 on: ETX behind them, STX and LEN in front. */
  method Seal(tx: array<byte>, end: nat) returns (k: nat)
    requires 3 <= end < tx.Length < 0x1_0000
    modifies tx
    ensures k == end + 1 && tx[..k] == [STX] + Be16(end - 2) + old(tx[3..end]) + [ETX]
    ensures forall i :: k <= i < tx.Length ==> tx[i] == old(tx[i])
  {
    k := end;
    tx[k] := ETX; k := k + 1;
    var txlen := k - 3;
    tx[0] := STX;
    tx[1] := txlen / 0x100 % 0x100;
    tx[2] := txlen % 0x100;
    assert tx[3..end] == old(tx[3..end]);
  }

  method PutRest(tx: array<byte>, k: nat, w: Wire) returns (next: nat)
    requires k + 6 <= tx.Length
    modifies tx
    ensures next == k + 6 && tx[..next] == old(tx[..k]) + [w.rl, w.rbw, w.rf, w.lnb, 0, 0]
    ensures forall i :: next <= i < tx.Length ==> tx[i] == old(tx[i])
  {
    next := Put(tx, k, w.rl);
    next := Put(tx, next, w.rbw);
    next := Put(tx, next, w.rf);
    next := Put(tx, next, w.lnb);
    next := Put(tx, next, 0);
    next := Put(tx, next, 0);
  }

  /** The packet from DTYPE to the reserved bytes. */
  function ChangeBody(w: Wire): (b: seq<byte>)
    ensures |b| == 15
  {
    [WAVE_CHANGE] + Be32(w.cf) + Be32(w.sp) + [w.rl, w.rbw, w.rf, w.lnb, 0, 0]
  }

  lemma BodyFramed(w: Wire)
    ensures [STX] + Be16(16) + ChangeBody(w) + [ETX] == ChangeFrame(w)
  {
  }

  method BuildBody(tx: array<byte>, w: Wire) returns (k: nat)
    requires tx.Length == 64
    modifies tx
    ensures k == 18 && tx[3..k] == ChangeBody(w)
    ensures forall i :: k <= i < tx.Length ==> tx[i] == old(tx[i])
  {
    k := Put(tx, 3, WAVE_CHANGE);
    k := PutWord(tx, k, w.cf);
    k := PutWord(tx, k, w.sp);
    k := PutRest(tx, k, w);
    assert tx[3..k] == tx[..k][3..];
  }

  /** Builds the packet in the transmit buffer, header last. */
  method BuildChange(tx: array<byte>, w: Wire) returns (k: nat)
    requires tx.Length == 64
    modifies tx
    ensures k == 19 && tx[..k] == ChangeFrame(w)
    ensures forall i :: k <= i < tx.Length ==> tx[i] == old(tx[i])
  {
    k := BuildBody(tx, w);
    k := Seal(tx, k);
    BodyFramed(w);
  }

  predicate HasChange(r: Record) {
    && CF in r && SP in r && RL in r && RBW in r && RF in r && LNB in r
    && Num(r, CF) < 0x1_0000_0000 && Num(r, SP) < 0x1_0000_0000
  }

  function WireFrom(r: Record): Wire
    requires HasChange(r)
  {
    Wire(Num(r, CF), Num(r, SP), Byte(r, RL), Byte(r, RBW), Byte(r, RF), Byte(r, LNB))
  }

  /** The schema accepts a packet exactly if its four constants are right. */
  lemma ChangeAccepted(f: seq<byte>)
    ensures Walk(ChangeConfig(), f, 0).Some? <==>
      |f| >= 19 && f[0] == STX && f[1] == 0 && f[2] == 0x10 && f[3] == WAVE_CHANGE && f[18] == ETX
  {
    WalkAccepts(ChangeConfig(), f, 0);
    ChangeConfigChecked(f);
    if |f| >= 19 {
      FromBe1(f[0..1]);
      FromBe2(f[1..3]);
      FromBe1(f[3..4]);
      FromBe1(f[18..19]);
    }
  }

  predicate Reads(f: seq<byte>, r: Record)
    requires |f| >= 19
  {
    && HasChange(r) && Num(r, CF) == FromBe(f[4..8]) && Num(r, SP) == FromBe(f[8..12])
    && Byte(r, RL) == f[12] && Byte(r, RBW) == f[13] && Byte(r, RF) == f[14] && Byte(r, LNB) == f[15]
  }

  lemma ChangeReads(s: Schema, f: seq<byte>, r: Record)
    requires |f| >= 19 && ChangeSpans(s) && Walk(s, f, 0) == Some(r)
    ensures Reads(f, r)
  {
    WalkReads(s, f, 0, CF);
    WalkReads(s, f, 0, SP);
    WalkReads(s, f, 0, RL);
    WalkReads(s, f, 0, RBW);
    WalkReads(s, f, 0, RF);
    WalkReads(s, f, 0, LNB);
    FromBe4(f[4..8]);
    FromBe4(f[8..12]);
    FromBe1(f[12..13]);
    FromBe1(f[13..14]);
    FromBe1(f[14..15]);
    FromBe1(f[15..16]);
  }

  /** What the schema reads from an accepted packet. */
  lemma AcceptedReads(f: seq<byte>)
    requires Walk(ChangeConfig(), f, 0).Some?
    ensures |f| >= 19 && Reads(f, Walk(ChangeConfig(), f, 0).value)
  {
    ChangeAccepted(f);
    ChangeConfigSpans();
    ChangeReads(ChangeConfig(), f, Walk(ChangeConfig(), f, 0).value);
  }

  lemma FrameParts(w: Wire)
    ensures var f := ChangeFrame(w);
      && f[..4] == [STX, 0, 0x10, WAVE_CHANGE] && f[4..8] == Be32(w.cf) && f[8..12] == Be32(w.sp)
      && f[12..] == [w.rl, w.rbw, w.rf, w.lnb, 0, 0, ETX]
  {
  }

  lemma FrameBytes(w: Wire)
    ensures var f := ChangeFrame(w);
      && f[0] == STX && f[1] == 0 && f[2] == 0x10 && f[3] == WAVE_CHANGE
      && f[12] == w.rl && f[13] == w.rbw && f[14] == w.rf && f[15] == w.lnb && f[18] == ETX
  {
  }

  /** The built packet is accepted, and reading it gives back every value. */
  lemma WireRoundTrip(w: Wire)
    ensures exists r :: Walk(ChangeConfig(), ChangeFrame(w), 0) == Some(r) && HasChange(r) && WireFrom(r) == w
  {
    var f := ChangeFrame(w);
    FrameBytes(w);
    FrameParts(w);
    ChangeAccepted(f);
    AcceptedReads(f);
    Be32RoundTrip(w.cf);
    Be32RoundTrip(w.sp);
  }

  /** Every accepted packet of 19 bytes with clear reserved bytes is the one built from its values. */
  lemma WireInverse(f: seq<byte>)
    requires Walk(ChangeConfig(), f, 0).Some? && |f| == 19 && f[16] == 0 && f[17] == 0
    ensures var r := Walk(ChangeConfig(), f, 0).value;
      HasChange(r) && ChangeFrame(WireFrom(r)) == f
  {
    ChangeAccepted(f);
    AcceptedReads(f);
    SameBytesSameFrame(f, Walk(ChangeConfig(), f, 0).value);
  }

  lemma SameBytesSameFrame(f: seq<byte>, r: Record)
    requires |f| == 19 && Reads(f, r)
    requires f[0] == STX && f[1] == 0 && f[2] == 0x10 && f[3] == WAVE_CHANGE && f[16] == 0 && f[17] == 0 && f[18] == ETX
    ensures ChangeFrame(WireFrom(r)) == f
  {
    FrameFrom(f, WireFrom(r));
  }

  lemma FrameFrom(f: seq<byte>, w: Wire)
    requires |f| == 19 && w.cf == FromBe(f[4..8]) && w.sp == FromBe(f[8..12])
    requires w.rl == f[12] && w.rbw == f[13] && w.rf == f[14] && w.lnb == f[15]
    requires f[0] == STX && f[1] == 0 && f[2] == 0x10 && f[3] == WAVE_CHANGE && f[16] == 0 && f[17] == 0 && f[18] == ETX
    ensures ChangeFrame(w) == f
  {
    Be32Inverse(f[4..8]);
    Be32Inverse(f[8..12]);
    FrameParts(w);
    FromParts(f, ChangeFrame(w));
  }

  lemma FromParts(f: seq<byte>, g: seq<byte>)
    requires |f| == |g| == 19 && f[4..8] == g[4..8] && f[8..12] == g[8..12]
    requires g[..4] == [f[0], f[1], f[2], f[3]]
    requires g[12..] == [f[12], f[13], f[14], f[15], f[16], f[17], f[18]]
    ensures f == g
  {
    assert f == f[..4] + f[4..8] + f[8..12] + f[12..];
    assert g == g[..4] + g[4..8] + g[8..12] + g[12..];
  }

  /** What a truncated frequency loses: less than one unit, exactly if it is in the range of the wire. */
  lemma UnitsError(mhz: real)
    ensures 0.0 <= mhz - FromUnits(ToUnits(mhz)) < 0.0001 <==> 0.0 <= mhz < 429496.7296
  {
  }

  /** What an accepted request is known to satisfy. */
  lemma CheckedRequest(hw: Hardware, limits: Limits, inputs: seq<Input>, q: Request)
    requires |inputs| == 6 && hw.availInputs <= 6
    requires forall i :: 0 <= i < 6 ==> -128 <= inputs[i].window.min && inputs[i].window.max < 128
    requires Check(hw, limits, inputs, q) == 0
    ensures 0.0 <= q.span <= 1300.0 && 1 <= q.input <= 6 && 0 <= q.rbw < 256 && -128 <= q.level < 128
  {
  }

  lemma WireSurvives(firmware: int, q: Request, w: Wire)
    requires w == ToWire(firmware, q)
    requires 0.0 <= q.span <= 1300.0 && 1 <= q.input <= 6 && 0 <= q.rbw < 256 && -128 <= q.level < 128
    ensures DecodeLevel(firmware, w.rl) == q.level && w.rbw == q.rbw
    ensures w.rf as int - 9 == q.input && w.lnb == LnbByte(q.lnb)
    ensures 0.0 <= q.span - FromUnits(w.sp) < 0.0001
    ensures 0.0 <= q.cfreq - FromUnits(w.cf) < 0.0001 <==> 0.0 <= q.cfreq < 429496.7296
  {
    LevelRoundTrip(firmware, q.level);
    UnitsError(q.span);
    UnitsError(q.cfreq);
  }

  /** Settings survive the wire: for every accepted request the packet is accepted by the schema, and
      level, bandwidth, input and LNB supply come back exactly, the span with an error below one unit;
      the frequency too exactly if it is in the range of the wire. */
  lemma SettingsSurvive(hw: Hardware, limits: Limits, inputs: seq<Input>, q: Request)
    requires |inputs| == 6 && hw.availInputs <= 6
    requires forall i :: 0 <= i < 6 ==> -128 <= inputs[i].window.min && inputs[i].window.max < 128
    requires Check(hw, limits, inputs, q) == 0
    ensures var f := ChangeFrame(ToWire(hw.firmware, q));
      |f| == 19 && exists r ::
      && Walk(ChangeConfig(), f, 0) == Some(r) && HasChange(r)
      && DecodeLevel(hw.firmware, Byte(r, RL)) == q.level && Byte(r, RBW) == q.rbw
      && Byte(r, RF) as int - 9 == q.input && Byte(r, LNB) == LnbByte(q.lnb)
      && 0.0 <= q.span - FromUnits(Num(r, SP)) < 0.0001
      && (0.0 <= q.cfreq - FromUnits(Num(r, CF)) < 0.0001 <==> 0.0 <= q.cfreq < 429496.7296)
  {
    var w := ToWire(hw.firmware, q);
    CheckedRequest(hw, limits, inputs, q);
    WireRoundTrip(w);
    WireSurvives(hw.firmware, q, w);
    assert w == WireFrom(Walk(ChangeConfig(), ChangeFrame(w), 0).value);
  }

  /** The highest frequency of the wire and one unit more: accepted wherever any lower one is, and sent as 0. */
  lemma FrequencyLost(hw: Hardware, limits: Limits, inputs: seq<Input>, q: Request)
    requires |inputs| == 6 && hw.availInputs <= 6
    requires Check(hw, limits, inputs, q) == 0 && q.cfreq <= 429496.7296
    ensures var high := q.(cfreq := 429496.7296);
      Check(hw, limits, inputs, high) == 0 && ToWire(hw.firmware, high).cf == 0
  {
    NoUpperLimit(hw, limits, inputs, q, 429496.7296);
    assert 429496.7296 * 10000.0 == 4294967296.0;
  }
}

/** Which requests are accepted for a registered analyzer, and what an accepted one sends. */
module Acceptance {
  import opened Bytes
  import opened Framing
  import opened Reassembly
  import opened SessionSpec
  import opened LockStep
  import opened Analyzer
  import opened Handles
  import opened Describing
  import opened ChangeSettings
  import opened Session
  import opened Devices

  /** The lower end of the range of a known product. */
  predicate Reaches(v: Device, mhz: real) {
    mhz >= if v.product == 0x4A then 1.0 else if v.product == 0x3A then 950.0 else 5.0
  }

  /** One of the six bandwidths, and its bit is set. */
  predicate Offers(v: Device, rbw: int) {
    rbw in {0x80, 0x40, 0x20, 0x10, 0x08, 0x02} && v.mask / rbw % 2 == 1
  }

  predicate Admits(v: Device, input: int, level: int)
    requires 1 <= input <= |v.ports|
  {
    Lowest(v, v.ports[input - 1]) <= level <= Highest(v, v.ports[input - 1])
  }

  predicate Grants(v: Device, q: Request) {
    && |v.ports| == 6 && 0 <= v.inputs <= 6
    && Reaches(v, q.cfreq) && 0.0 <= q.span <= 1300.0 && 1 <= q.input <= v.inputs
    && Offers(v, q.rbw) && Admits(v, q.input, q.level)
  }

  lemma OffersExact(v: Device, b: Rbws, rbw: int)
    requires StoresMask(b, v.mask)
    ensures RbwAvailable(b, rbw) <==> Offers(v, rbw)
  {
  }

  /** The code of a request for a registered analyzer of a known product: the first condition that fails
      decides. It is accepted exactly if the frequency is not below the range of the product, the span lies
      in 0 to 1300 MHz, the input is one of those announced, the bandwidth is offered, and the level lies in
      the window of the input. */
  lemma RequestCode(x: Stored, v: Device, q: Request)
    requires Stores(x, v) && v.product in {0x3A, 0x4A, 0x5A, 0x6A} && 0 <= v.inputs <= 6
    ensures |x.inputs| == 6 && x.hardware.availInputs <= 6
    ensures Check(x.hardware, x.limits, x.inputs, q) ==
      if !Reaches(v, q.cfreq) then 300000
      else if !(0.0 <= q.span <= 1300.0) then 300001
      else if !(1 <= q.input <= v.inputs) then 300004
      else if !Offers(v, q.rbw) then 300003
      else if !Admits(v, q.input, q.level) then 300002
      else 0
    ensures Check(x.hardware, x.limits, x.inputs, q) == 0 <==> Grants(v, q)
  {
    OffersExact(v, x.hardware.rbws, q.rbw);
    if 1 <= q.input <= v.inputs {
      assert StoresInput(x.inputs[q.input - 1], v, q.input - 1);
    }
  }

  // --- What an accepted request sends ---

  /** The supply byte: bit 6 always, bit 2 for the supply, bit 3 for 18 V and bit 5 for the 22 kHz tone. */
  function SupplyByte(lnb: Option<Lnb>): byte {
    match lnb
    case None => 0x40
    case Some(l) => 0x40 + Flag(l.enable) * (0x04 + 0x08 * Flag(l.volt == 18) + 0x20 * Flag(l.khz22))
  }

  /** The packet of an accepted request, byte by byte. Frequencies are sent in units of 100 Hz. */
  function Asks(v: Device, q: Request): seq<byte>
    requires Grants(v, q)
  {
    [0x02, 0x00, 0x10, 0x04] + Be32((q.cfreq * 10000.0).Floor % 0x1_0000_0000) + Be32((q.span * 10000.0).Floor)
    + [LevelByte(v.major, q.level), q.rbw, q.input + 9, SupplyByte(q.lnb), 0x00, 0x00, 0x03]
  }

  /** The call that sets the supply alone differs in counting any voltage but 0 as 18 V. */
  lemma SupplySent(lnb: Option<Lnb>)
    ensures LnbByte(lnb) == SupplyByte(lnb)
    ensures SetLnbByte(lnb) == match lnb
      case None => 0x40
      case Some(l) => 0x40 + Flag(l.enable) * (0x04 + 0x08 * Flag(l.volt != 0) + 0x20 * Flag(l.khz22))
  {
  }

  lemma LevelSent(v: Device, firmware: int, level: int)
    requires firmware == v.major as int * 256 + v.minor && -128 <= level < 128
    ensures EncodeLevel(firmware, level) == LevelByte(v.major, level)
  {
    SCharKeeps(level);
    CharByte(level);
    CharByte(-level);
  }

  lemma CharByte(n: int)
    ensures UChar(SChar(n)) == n % 256
  {
  }

  lemma ChangeBytes(w: Wire)
    ensures ChangeFrame(w) ==
      [0x02, 0x00, 0x10, 0x04] + Be32(w.cf) + Be32(w.sp) + [w.rl, w.rbw, w.rf, w.lnb, 0x00, 0x00, 0x03]
  {
  }

  lemma UnitsSent(mhz: real)
    requires mhz >= 0.0
    ensures ToUnits(mhz) == (mhz * 10000.0).Floor % 0x1_0000_0000
    ensures mhz <= 1300.0 ==> ToUnits(mhz) == (mhz * 10000.0).Floor
  {
  }

  lemma GrantedRange(v: Device, q: Request)
    requires Grants(v, q)
    ensures q.cfreq >= 0.0 && 0.0 <= q.span <= 1300.0 && 0 <= q.rbw < 256 && 1 <= q.input <= 6
    ensures -128 <= q.level < 128
  {
  }

  lemma WireSent(v: Device, firmware: int, q: Request)
    requires firmware == v.major as int * 256 + v.minor && Grants(v, q)
    ensures 0 <= q.rbw < 256 && 1 <= q.input <= 6 && 0 <= (q.span * 10000.0).Floor < 0x1_0000_0000
    ensures ToWire(firmware, q) ==
      Wire((q.cfreq * 10000.0).Floor % 0x1_0000_0000, (q.span * 10000.0).Floor, LevelByte(v.major, q.level),
           q.rbw, q.input + 9, SupplyByte(q.lnb))
  {
    GrantedRange(v, q);
    SupplySent(q.lnb);
    LevelSent(v, firmware, q.level);
    UnitsSent(q.cfreq);
    UnitsSent(q.span);
  }

  lemma RequestSent(v: Device, firmware: int, q: Request)
    requires firmware == v.major as int * 256 + v.minor && Grants(v, q)
    ensures ChangeFrame(ToWire(firmware, q)) == Asks(v, q)
  {
    WireSent(v, firmware, q);
    ChangeBytes(ToWire(firmware, q));
  }

  lemma WaveRequest()
    ensures Taken(Packet(WAVEFORM_REQUEST), 0) == [0x02, 0x00, 0x03, 0x03, 0x05, 0x03]
  {
  }

  lemma ChangeReads(s: seq<byte>, ending: Ending, garbage: byte, buf: seq<byte>)
    requires |buf| == BUFFER && Fits(s, ending, garbage)
    ensures Perform(ChangeAll, s, ending, garbage, buf) == Some(ReadOne(s, ending, garbage, buf))
  {
  }

  /** The stream holds one frame, which is read as a whole. */
  predicate Answers(s: seq<byte>, ending: Ending, garbage: byte, buf: seq<byte>) {
    |buf| == BUFFER && Fits(s, ending, garbage) &&
    var r := Perform(ChangeAll, s, ending, garbage, buf);
    r.Some? && r.value.code == 0 && r.value.rest == []
  }

  lemma OneAnswer(s: seq<byte>, it: Item, ending: Ending, garbage: byte, buf: seq<byte>)
    requires Sendable(it) && |it.frame| <= BUFFER == |buf| && s == Encode([it])
    ensures Answers(s, ending, garbage, buf)
  {
    ReadItem([it], ending, garbage, buf);
    ChangeReads(s, ending, garbage, buf);
  }

  method ChangeInStep(line: Link, h: Handle, q: Request, it: Item, garbage: byte, junk: seq<byte>,
                      ghost packet: seq<byte>) returns (code: int)
    requires |h.inputs| == 6 && h.hardware.availInputs <= 6 && Check(h.hardware, h.limits, h.inputs, q) == 0
    requires packet == ChangeFrame(ToWire(h.hardware.firmware, q))
    requires line.conn.pending == [] && Sendable(it) && |it.frame| <= BUFFER == |junk|
    modifies line, line.conn, h`current
    ensures code == 0 && line.conn.pending == [] && h.current == old(h.current).(input := q.input)
    ensures line.sent == old(line.sent) + [packet, [0x02, 0x00, 0x03, 0x03, 0x05, 0x03]]
  {
    WaveRequest();
    assert line.conn.pending + [] + Encode([it]) == Encode([it]);
    OneAnswer(Encode([it]), it, line.conn.ending, garbage, junk);
    ghost var r;
    code, r := line.SetAllSettings(h, q, Exchange(0, []), Answer(it), garbage, junk);
  }

  /** The whole way of a change of settings: for a registered analyzer of a known product, and a request its
      description grants, the packet and the request for a spectrum are sent, and with one frame as the answer
      the call succeeds, records the input and leaves nothing unread. */
  method ChangeRegistered(line: Link, h: Handle, q: Request, it: Item, garbage: byte, junk: seq<byte>, ghost v: Device)
    returns (code: int)
    requires Stores(StoredIn(h), v) && v.product in {0x3A, 0x4A, 0x5A, 0x6A} && Grants(v, q)
    requires line.conn.pending == [] && Sendable(it) && |it.frame| <= BUFFER == |junk|
    modifies line, line.conn, h`current
    ensures code == 0 && line.conn.pending == [] && h.current == old(h.current).(input := q.input)
    ensures line.sent == old(line.sent) + [Asks(v, q), [0x02, 0x00, 0x03, 0x03, 0x05, 0x03]]
  {
    RequestCode(StoredIn(h), v, q);
    RequestSent(v, h.hardware.firmware, q);
    code := ChangeInStep(line, h, q, it, garbage, junk, Asks(v, q));
  }
}

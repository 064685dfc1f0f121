/** The exchanges of a registration on a fresh connection: hardware, LNB power and, where there is one,
    the front panel. */
module Describing {
  import opened Bytes
  import opened Framing
  import opened Reassembly
  import opened SessionSpec
  import opened Analyzer
  import opened Handles
  import opened LockStep

  /** What the analyzer does with each of the three requests. */
  datatype Introduction = Introduction(hw: Exchange, lnb: Exchange, panel: Exchange)

  /** Result code, the buffer after each answer (empty where there is none), and the unread stream. */
  datatype Dialogue = Dialogue(code: int, hw: seq<byte>, lnb: seq<byte>, panel: seq<byte>, rest: seq<byte>)

  predicate HasPanel(prodID: byte, projID: byte) {
    projID / 2 % 8 != 0 && prodID != 0xFF
  }

  function AskHardware(d: Introduction, s: seq<byte>, ending: Ending, garbage: byte, buf: seq<byte>): (a: Heard)
    requires |buf| == BUFFER && Fits(s + d.hw.answer, ending, garbage)
    ensures |a.rx| == BUFFER
  {
    Asked(Query(HW_DESC), d.hw, s, ending, garbage, buf)
  }

  /** The answers fit the buffer, and at most six inputs are claimed, the number a handle has room for. */
  predicate Room(d: Introduction, s: seq<byte>, ending: Ending, garbage: byte, buf: seq<byte>) {
    |buf| == BUFFER && Fits(s + d.hw.answer, ending, garbage) &&
    var a := AskHardware(d, s, ending, garbage, buf);
    a.code == 0 ==> AvailInputs(a.rx[20]) <= 6 && RoomAfter(d, a, ending, garbage)
  }

  function AskLnb(d: Introduction, a: Heard, ending: Ending, garbage: byte): (b: Heard)
    requires |a.rx| == BUFFER && Fits(a.rest + d.lnb.answer, ending, garbage)
    ensures |b.rx| == BUFFER
  {
    Asked(Query(LNB_DESC), d.lnb, a.rest, ending, garbage, a.rx)
  }

  predicate RoomAfter(d: Introduction, a: Heard, ending: Ending, garbage: byte) {
    |a.rx| == BUFFER && Fits(a.rest + d.lnb.answer, ending, garbage) &&
    var b := AskLnb(d, a, ending, garbage);
    b.code == 0 ==> RoomForPanel(d, a, b, ending, garbage)
  }

  predicate RoomForPanel(d: Introduction, a: Heard, b: Heard, ending: Ending, garbage: byte) {
    |a.rx| == BUFFER == |b.rx| && (HasPanel(a.rx[4], a.rx[58]) ==> Fits(b.rest + d.panel.answer, ending, garbage))
  }

  /** The dialogue: the first failure ends it; the last exchange depends on the first answer. */
  function Introduce(d: Introduction, s: seq<byte>, ending: Ending, garbage: byte, buf: seq<byte>): Dialogue
    requires Room(d, s, ending, garbage, buf)
  {
    var a := AskHardware(d, s, ending, garbage, buf);
    if a.code != 0 then Dialogue(a.code, [], [], [], a.rest) else IntroduceRest(d, a, ending, garbage)
  }

  function IntroduceRest(d: Introduction, a: Heard, ending: Ending, garbage: byte): Dialogue
    requires RoomAfter(d, a, ending, garbage)
  {
    var b := AskLnb(d, a, ending, garbage);
    if b.code != 0 then Dialogue(b.code, a.rx, [], [], b.rest) else IntroducePanel(d, a, b, ending, garbage)
  }

  function IntroducePanel(d: Introduction, a: Heard, b: Heard, ending: Ending, garbage: byte): Dialogue
    requires RoomForPanel(d, a, b, ending, garbage)
  {
    if !HasPanel(a.rx[4], a.rx[58]) then Dialogue(0, a.rx, b.rx, [], b.rest)
    else
      var c := Asked(SessionSpec.Panel, d.panel, b.rest, ending, garbage, b.rx);
      Dialogue(c.code, a.rx, b.rx, if c.code == 0 then c.rx else [], c.rest)
  }

  /** What is left of the stream after the frame that greets a new connection. */
  function Greeted(s: seq<byte>, ending: Ending, garbage: byte): seq<byte> {
    Receive(s, ending, garbage).rest
  }

  predicate RegistrationRoom(d: Introduction, s: seq<byte>, ending: Ending, garbage: byte, buf: seq<byte>) {
    Fits(s, ending, garbage) && Room(d, Greeted(s, ending, garbage), ending, garbage, buf)
  }

  /** The dialogue of a registration, greeting included. */
  function Registration(d: Introduction, s: seq<byte>, ending: Ending, garbage: byte, buf: seq<byte>): Dialogue
    requires RegistrationRoom(d, s, ending, garbage, buf)
  {
    Introduce(d, Greeted(s, ending, garbage), ending, garbage, buf)
  }

  /** The stored fields of a handle. */
  datatype Stored = Stored(hardware: Hardware, limits: Limits, inputs: seq<Input>, current: Settings, panel: FrontPanel)

  /** The limits follow from the product, for the products the library knows. */
  predicate LimitsKnown(prodID: byte, projID: byte, limits: Limits) {
    prodID in {0x3A, 0x4A, 0x5A, 0x6A} ==> limits == LimitsOf(prodID, projID, Limits(0.0, 0.0))
  }

  predicate FlagsFit(inputs: seq<Input>, hw: seq<byte>)
    requires |hw| == BUFFER
  {
    |inputs| == 6 &&
    forall i :: 0 <= i < 6 ==> Flags(inputs[i].rfAvail, inputs[i].db70, inputs[i].lnbAvail) == FlagsOf(hw, i)
  }

  /** Filled from the hardware description. */
  predicate Loaded(x: Stored, hw: seq<byte>) {
    && |hw| == BUFFER && x.hardware == HardwareOf(hw) && x.current == SettingsOf(hw)
    && LimitsKnown(hw[4], hw[58], x.limits) && FlagsFit(x.inputs, hw)
  }

  /** The windows of the available inputs, from the LNB description. */
  predicate WindowsFit(hardware: Hardware, inputs: seq<Input>, lnb: seq<byte>) {
    |inputs| == 6 && |lnb| == BUFFER &&
    forall i :: 0 <= i < 6 && i < hardware.availInputs ==>
      inputs[i].window == WindowOf(hardware.firmware, inputs[i].db70, lnb[37 + i])
  }

  predicate PanelFits(prodID: byte, projID: byte, panel: FrontPanel, rx: seq<byte>) {
    HasPanel(prodID, projID) ==> |rx| == BUFFER && panel == PanelOf(rx)
  }

  /** Filled from the buffers of a dialogue. */
  predicate Described(x: Stored, d: Dialogue) {
    && Loaded(x, d.hw) && WindowsFit(x.hardware, x.inputs, d.lnb)
    && PanelFits(x.hardware.prodID, x.hardware.projID, x.panel, d.panel)
  }

  function StoredIn(h: Handle): Stored
    reads h
  {
    Stored(h.hardware, h.limits, h.inputs, h.current, h.panel)
  }

  lemma FlagsLoaded(x: Stored, before: seq<Input>, hw: seq<byte>)
    requires |hw| == BUFFER && |before| == 6 == |x.inputs|
    requires x.hardware == HardwareOf(hw) && x.current == SettingsOf(hw) && LimitsKnown(hw[4], hw[58], x.limits)
    requires forall i :: 0 <= i < 6 ==> x.inputs[i] == Flagged(before[i], FlagsOf(hw, i))
    ensures Loaded(x, hw)
  {
  }

  lemma LimitsLoaded(prodID: byte, projID: byte, before: Limits)
    ensures LimitsKnown(prodID, projID, LimitsOf(prodID, projID, before))
  {
  }

  lemma WindowsLoaded(x: Stored, y: Stored, hw: seq<byte>, lnb: seq<byte>)
    requires Loaded(x, hw) && |lnb| == BUFFER && y == x.(inputs := y.inputs) && |y.inputs| == 6
    requires forall i :: 0 <= i < 6 ==> y.inputs[i] == Windowed(x.hardware, x.inputs[i], i, lnb[37 + i])
    ensures Loaded(y, hw) && WindowsFit(y.hardware, y.inputs, lnb)
  {
  }

  lemma PanelLoaded(x: Stored, d: Dialogue)
    requires Loaded(x, d.hw) && WindowsFit(x.hardware, x.inputs, d.lnb)
    requires HasPanel(x.hardware.prodID, x.hardware.projID) ==> |d.panel| == BUFFER && x.panel == PanelOf(d.panel)
    ensures Described(x, d)
  {
  }

  lemma ProductStored(x: Stored, hw: seq<byte>)
    requires Loaded(x, hw)
    ensures x.hardware.prodID == hw[4] && x.hardware.projID == hw[58] && x.hardware.availInputs == AvailInputs(hw[20])
  {
  }

  // --- In step with an analyzer that keeps the protocol ---

  /** An exchange that succeeds is one turn of a run. */
  lemma AskedIsTurn(t: Turn, unread: seq<byte>, ending: Ending, garbage: byte)
    requires (t.call.Query? || t.call.Panel?) && |t.buf| == BUFFER && Fits(unread + Encode(t.answer), ending, garbage)
    ensures var r := Do(t, unread, ending, garbage);
      r.Some? && Asked(t.call, Exchange(0, Encode(t.answer)), unread, ending, garbage, t.buf) ==
        Heard(r.value.code, r.value.rx, r.value.rest)
  {
  }

  /** The exchange in which the analyzer sends one frame. */
  function Answer(it: Item): Exchange {
    Exchange(0, Encode([it]))
  }

  /** One exchange with one frame as the answer: refused if the packet is not taken whole, or if the frame is not
      of the type asked for, the front panel's only if both its bytes are wrong. */
  function AskedCode(c: Call, lack: nat, f: seq<byte>): int
    requires |f| >= 5
  {
    if lack != 0 then 100007
    else if c.Query? && f[3] != c.dtype then 100014
    else if c.Panel? && f[3] != 0x27 && f[4] != 0x22 then 100014
    else 0
  }

  lemma AskedUnsent(c: Call, e: Exchange, s: seq<byte>, ending: Ending, garbage: byte, buf: seq<byte>)
    requires (c.Query? || c.Panel?) && |buf| == BUFFER && Fits(s + e.answer, ending, garbage) && e.lack != 0
    ensures Asked(c, e, s, ending, garbage, buf).code == 100007
  {
  }

  /** The type check, on the frame at the front of the buffer. */
  lemma TypeChecked(c: Call, f: seq<byte>, rx: seq<byte>)
    requires (c.Query? || c.Panel?) && 5 <= |f| && |rx| == BUFFER && rx[3] == f[3] && rx[4] == f[4]
    ensures (if c.Query? then QueryCode(rx, c.dtype) else PanelCode(rx)) == AskedCode(c, 0, f)
  {
  }

  lemma AskedSent(c: Call, it: Item, ending: Ending, garbage: byte, buf: seq<byte>)
    requires (c.Query? || c.Panel?) && Sendable(it) && 5 <= |it.frame| <= BUFFER == |buf|
    requires Fits([] + Encode([it]), ending, garbage)
    ensures Asked(c, Exchange(0, Encode([it])), [], ending, garbage, buf) ==
      Heard(AskedCode(c, 0, it.frame), it.frame + buf[|it.frame|..], [])
  {
    var t := Turn(c, [it], buf);
    assert [] + Encode([it]) == Encode([it]);
    AskedIsTurn(t, [], ending, garbage);
    DoReads(t, [], [it], ending, garbage);
    TypeChecked(c, it.frame, it.frame + buf[|it.frame|..]);
  }

  lemma AskedExact(c: Call, lack: nat, it: Item, ending: Ending, garbage: byte, buf: seq<byte>)
    requires (c.Query? || c.Panel?) && Sendable(it) && 5 <= |it.frame| <= BUFFER == |buf|
    ensures Fits([] + Encode([it]), ending, garbage)
    ensures var a := Asked(c, Exchange(lack, Encode([it])), [], ending, garbage, buf);
      && a.code == AskedCode(c, lack, it.frame)
      && (lack == 0 ==> a.rx == it.frame + buf[|it.frame|..] && a.rest == [])
  {
    ItemsFit([it], ending, garbage);
    assert [] + Encode([it]) == Encode([it]);
    if lack == 0 {
      AskedSent(c, it, ending, garbage, buf);
    } else {
      AskedUnsent(c, Exchange(lack, Encode([it])), [], ending, garbage, buf);
    }
  }

  /** One exchange in step: the frame is what the buffer starts with, and nothing stays unread. */
  lemma AskedInStep(c: Call, it: Item, ending: Ending, garbage: byte, buf: seq<byte>)
    requires (c.Query? || c.Panel?) && Sendable(it) && 5 <= |it.frame| <= BUFFER == |buf|
    requires c.Query? ==> it.frame[3] == c.dtype
    requires c.Panel? ==> it.frame[3] == BLKFIN_CMDS
    ensures Fits([] + Encode([it]), ending, garbage)
    ensures Asked(c, Answer(it), [], ending, garbage, buf) == Heard(0, it.frame + buf[|it.frame|..], [])
  {
    AskedExact(c, 0, it, ending, garbage, buf);
  }

  /** The analyzer's frames are long enough, with at most six inputs. */
  predicate Fitting(hw: Item, lnb: Item, panel: Item) {
    && Sendable(hw) && 60 <= |hw.frame| <= BUFFER && AvailInputs(hw.frame[20]) <= 6
    && Sendable(lnb) && 43 <= |lnb.frame| <= BUFFER
    && (HasPanel(hw.frame[4], hw.frame[58]) ==> Sendable(panel) && 13 <= |panel.frame| <= BUFFER)
  }

  /** And they are of the types asked for. */
  predicate Conforms(hw: Item, lnb: Item, panel: Item) {
    && Fitting(hw, lnb, panel) && hw.frame[3] == HW_DESC && lnb.frame[3] == LNB_DESC
    && (HasPanel(hw.frame[4], hw.frame[58]) ==> panel.frame[3] == BLKFIN_CMDS)
  }

  function Introducing(hw: Item, lnb: Item, panel: Item): Introduction {
    Introduction(Answer(hw), Answer(lnb), Answer(panel))
  }

  lemma PanelInStep(d: Introduction, a: Heard, lnb: Item, panel: Item, ending: Ending, garbage: byte)
    requires d.lnb == Answer(lnb) && d.panel == Answer(panel)
    requires |a.rx| == BUFFER && a.code == 0 && a.rest == []
    requires Sendable(lnb) && 43 <= |lnb.frame| <= BUFFER && lnb.frame[3] == LNB_DESC
    requires HasPanel(a.rx[4], a.rx[58]) ==>
      Sendable(panel) && 13 <= |panel.frame| <= BUFFER && panel.frame[3] == BLKFIN_CMDS
    ensures RoomAfter(d, a, ending, garbage)
    ensures var x := IntroduceRest(d, a, ending, garbage);
      && x.code == 0 && x.rest == [] && x.hw == a.rx && |x.lnb| == BUFFER && x.lnb[..|lnb.frame|] == lnb.frame
      && (HasPanel(a.rx[4], a.rx[58]) ==> |x.panel| == BUFFER && x.panel[..|panel.frame|] == panel.frame)
  {
    AskedInStep(Query(LNB_DESC), lnb, ending, garbage, a.rx);
    if HasPanel(a.rx[4], a.rx[58]) {
      var b := AskLnb(d, a, ending, garbage);
      AskedInStep(SessionSpec.Panel, panel, ending, garbage, b.rx);
    }
  }

  /** A registration in step: each exchange finds the frame sent for it at the front of its buffer, and
      nothing stays unread, with a front panel and without one. */
  lemma IntroductionInStep(hw: Item, lnb: Item, panel: Item, ending: Ending, garbage: byte, buf: seq<byte>)
    requires Conforms(hw, lnb, panel) && |buf| == BUFFER
    ensures Room(Introducing(hw, lnb, panel), [], ending, garbage, buf)
    ensures var x := Introduce(Introducing(hw, lnb, panel), [], ending, garbage, buf);
      && x.code == 0 && x.rest == []
      && |x.hw| == BUFFER && x.hw[..|hw.frame|] == hw.frame && |x.lnb| == BUFFER && x.lnb[..|lnb.frame|] == lnb.frame
      && (HasPanel(hw.frame[4], hw.frame[58]) ==> |x.panel| == BUFFER && x.panel[..|panel.frame|] == panel.frame)
  {
    var d := Introducing(hw, lnb, panel);
    AskedInStep(Query(HW_DESC), hw, ending, garbage, buf);
    var a := AskHardware(d, [], ending, garbage, buf);
    assert a.rx[..|hw.frame|] == hw.frame;
    assert a.rx[20] == hw.frame[20] && a.rx[4] == hw.frame[4] && a.rx[58] == hw.frame[58];
    PanelInStep(d, a, lnb, panel, ending, garbage);
  }

  // --- Any frames, and packets that are not taken whole ---

  function Attempt(hw: Item, lnb: Item, panel: Item, a: nat, b: nat, c: nat): Introduction {
    Introduction(Exchange(a, Encode([hw])), Exchange(b, Encode([lnb])), Exchange(c, Encode([panel])))
  }

  /** The first packet that is not taken whole, or answered by a frame of another type, ends the dialogue. */
  function Verdict(hw: seq<byte>, lnb: seq<byte>, panel: seq<byte>, a: nat, b: nat, c: nat): int
    requires |hw| >= 60 && |lnb| >= 5 && (HasPanel(hw[4], hw[58]) ==> |panel| >= 5)
  {
    if a != 0 then 100007
    else if hw[3] != 0x07 then 100014
    else if b != 0 then 100007
    else if lnb[3] != 0x0D then 100014
    else if !HasPanel(hw[4], hw[58]) then 0
    else if c != 0 then 100007
    else if panel[3] != 0x27 && panel[4] != 0x22 then 100014
    else 0
  }

  lemma RestVerdict(d: Introduction, x: Heard, hw: Item, lnb: Item, panel: Item, b: nat, c: nat,
                    ending: Ending, garbage: byte)
    requires Fitting(hw, lnb, panel) && d == Attempt(hw, lnb, panel, 0, b, c) && hw.frame[3] == 0x07
    requires |x.rx| == BUFFER && x.rest == [] && x.rx[4] == hw.frame[4] && x.rx[58] == hw.frame[58]
    ensures RoomAfter(d, x, ending, garbage)
    ensures IntroduceRest(d, x, ending, garbage).code == Verdict(hw.frame, lnb.frame, panel.frame, 0, b, c)
  {
    AskedExact(Query(LNB_DESC), b, lnb, ending, garbage, x.rx);
    var y := AskLnb(d, x, ending, garbage);
    if y.code == 0 && HasPanel(hw.frame[4], hw.frame[58]) {
      AskedExact(SessionSpec.Panel, c, panel, ending, garbage, y.rx);
    }
  }

  /** The code of the dialogue, whatever the analyzer sends and however much of each packet is taken. */
  lemma IntroductionCode(hw: Item, lnb: Item, panel: Item, a: nat, b: nat, c: nat,
                         ending: Ending, garbage: byte, buf: seq<byte>)
    requires Fitting(hw, lnb, panel) && |buf| == BUFFER
    ensures Room(Attempt(hw, lnb, panel, a, b, c), [], ending, garbage, buf)
    ensures Introduce(Attempt(hw, lnb, panel, a, b, c), [], ending, garbage, buf).code ==
      Verdict(hw.frame, lnb.frame, panel.frame, a, b, c)
  {
    var d := Attempt(hw, lnb, panel, a, b, c);
    AskedExact(Query(HW_DESC), a, hw, ending, garbage, buf);
    var x := AskHardware(d, [], ending, garbage, buf);
    if x.code == 0 {
      assert x.rx[20] == hw.frame[20] && x.rx[4] == hw.frame[4] && x.rx[58] == hw.frame[58];
      RestVerdict(d, x, hw, lnb, panel, b, c, ending, garbage);
    }
  }
}

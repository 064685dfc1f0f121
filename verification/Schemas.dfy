/** Declarative packet schemas: named fields read one after the other, with assertions. */
module Schemas {
  import opened Bytes

  /** Field names, numbered. */
  type Name = nat

  const STX_BYTE: Name := 0
  const LEN: Name := 1
  const DTYPE: Name := 2
  const BLOB: Name := 3
  const ETX_BYTE: Name := 4
  const PROD_ID: Name := 5
  const FM_MAJOR: Name := 6
  const FM_MINOR: Name := 7
  const STRM_M: Name := 8
  const CUR_CF: Name := 9
  const CUR_SP: Name := 10
  const CUR_RL: Name := 11
  const CUR_RBW: Name := 12
  const AVAIL_RBW: Name := 13
  const CUR_RF: Name := 14
  const AVAIL_RF: Name := 15
  const CUR_GAIN: Name := 16
  const OPT_BMK: Name := 17
  const CUR_COM: Name := 18
  const AVAIL_COM: Name := 19
  const CUR_IEF: Name := 20
  const CUR_EEF: Name := 21
  const SERIAL_NO: Name := 22
  const PCB_FAB: Name := 23
  const CAL_DAY: Name := 24
  const CAL_MONTH: Name := 25
  const CAL_YEAR_MSB: Name := 26
  const CAL_YEAR_LSB: Name := 27
  const TEMP: Name := 28
  const TEMP_MIN: Name := 29
  const TEMP_MAX: Name := 30
  const AMP_CAL: Name := 31
  const AVAIL_LNB: Name := 32
  const CUR_LNB: Name := 33
  const FIRST_RUN: Name := 34
  const IS_LOCK: Name := 35
  const PROJ_ID: Name := 36
  const AVAIL70: Name := 37
  const FUTURE_HW: Name := 38
  const LNB_LOM: Name := 39
  const LNB_PM: Name := 40
  const LNB_RFP: Name := 41
  const RF1_OFF1: Name := 42
  const RF1_OFF2: Name := 43
  const RF2_OFF1: Name := 44
  const RF2_OFF2: Name := 45
  const RF3_OFF1: Name := 46
  const RF3_OFF2: Name := 47
  const RF4_OFF1: Name := 48
  const RF4_OFF2: Name := 49
  const RF5_OFF1: Name := 50
  const RF5_OFF2: Name := 51
  const RF6_OFF1: Name := 52
  const RF6_OFF2: Name := 53
  const RF1_LNB: Name := 54
  const RF2_LNB: Name := 55
  const RF3_LNB: Name := 56
  const RF4_LNB: Name := 57
  const RF5_LNB: Name := 58
  const RF6_LNB: Name := 59
  const RF1_FXDG: Name := 60
  const RF2_FXDG: Name := 61
  const RF3_FXDG: Name := 62
  const RF4_FXDG: Name := 63
  const RF5_FXDG: Name := 64
  const RF6_FXDG: Name := 65
  const DATA: Name := 66
  const CF: Name := 67
  const SP: Name := 68
  const RL: Name := 69
  const RBW: Name := 70
  const RF: Name := 71
  const LNB: Name := 72
  const RESERVED: Name := 73

  /** A chain of fields; a Const field is asserted to hold its value. */
  datatype Schema =
    | End
    | Field(name: Name, width: nat, rest: Schema)
    | Const(name: Name, width: nat, value: nat, rest: Schema)

  function U8(name: Name, rest: Schema): Schema { Field(name, 1, rest) }
  function U16(name: Name, rest: Schema): Schema { Field(name, 2, rest) }
  function U32(name: Name, rest: Schema): Schema { Field(name, 4, rest) }
  function Raw(name: Name, width: nat, rest: Schema): Schema { Field(name, width, rest) }
  function Is8(name: Name, value: nat, rest: Schema): Schema { Const(name, 1, value, rest) }
  function Is16(name: Name, value: nat, rest: Schema): Schema { Const(name, 2, value, rest) }

  type Record = map<Name, seq<byte>>

  /** The parser: reads the fields in order from `pos`; None if the bytes run out or an assertion
      fails. Names do not repeat within a schema. */
  function Walk(schema: Schema, b: seq<byte>, pos: nat): Option<Record> {
    if schema.End? then Some(map[])
    else if pos + schema.width > |b| then None
    else
      var v := b[pos..pos + schema.width];
      if schema.Const? && FromBe(v) != schema.value then None else
      match Walk(schema.rest, b, pos + schema.width)
      case None => None
      case Some(r) => Some(r[schema.name := v])
  }

  function Total(schema: Schema): nat {
    if schema.End? then 0 else schema.width + Total(schema.rest)
  }

  /** The bytes of a field: where it starts and how many it takes. */
  datatype Span = Nowhere | Span(at: nat, width: nat)

  /** Where a field lies when its schema starts at `pos`: after the widths of the fields before it. */
  function Locate(schema: Schema, name: Name, pos: nat): Span {
    if schema.End? then Nowhere
    else if schema.name == name then Span(pos, schema.width)
    else Locate(schema.rest, name, pos + schema.width)
  }

  /** The assertions of a schema, at the offsets where it reads. */
  predicate Checked(schema: Schema, b: seq<byte>, pos: nat)
    requires pos + Total(schema) <= |b|
  {
    schema.End? ||
    ((schema.Const? ==> FromBe(b[pos..pos + schema.width]) == schema.value)
     && Checked(schema.rest, b, pos + schema.width))
  }

  /** The parser accepts exactly the inputs that are long enough and meet every assertion. */
  lemma {:induction false} WalkAccepts(schema: Schema, b: seq<byte>, pos: nat)
    requires pos <= |b|
    ensures Walk(schema, b, pos).Some? <==> (pos + Total(schema) <= |b| && Checked(schema, b, pos))
  {
    if !schema.End? && pos + schema.width <= |b| {
      WalkAccepts(schema.rest, b, pos + schema.width);
    }
  }

  /** Field by field reading gives each name the bytes of its span. */
  lemma {:induction false} WalkReads(schema: Schema, b: seq<byte>, pos: nat, name: Name)
    requires Walk(schema, b, pos).Some? && Locate(schema, name, pos).Span?
    ensures var s := Locate(schema, name, pos);
      s.at + s.width <= |b| && name in Walk(schema, b, pos).value
      && Walk(schema, b, pos).value[name] == b[s.at..s.at + s.width]
  {
    if schema.name != name {
      WalkReads(schema.rest, b, pos + schema.width, name);
    }
  }

  // --- The frame: STX, LEN, DTYPE, a body, ETX ---

  function Tail(): Schema {
    Is8(ETX_BYTE, 0x03, End)
  }

  /** A schema with the frame's header in front; the body ends in ETX. */
  function Framed(body: Schema): Schema {
    Is8(STX_BYTE, 0x02, U16(LEN, U8(DTYPE, body)))
  }

  /** What the record of a framed packet holds for a field of its body. */
  lemma FramedReads(body: Schema, f: seq<byte>, n: Name)
    requires n > DTYPE && Walk(Framed(body), f, 0).Some? && Locate(body, n, 4).Span?
    ensures var s := Locate(body, n, 4);
      s.at + s.width <= |f| && n in Walk(Framed(body), f, 0).value
      && Walk(Framed(body), f, 0).value[n] == f[s.at..s.at + s.width]
  {
    assert Locate(U16(LEN, U8(DTYPE, body)), n, 1) == Locate(body, n, 4);
    WalkReads(Framed(body), f, 0, n);
  }

  /** Fields without assertions, and ETX behind them. */
  predicate Unasserted(body: Schema) {
    body == Tail() || (body.Field? && Unasserted(body.rest))
  }

  lemma {:induction false} UnassertedChecked(body: Schema, f: seq<byte>, pos: nat)
    requires Unasserted(body)
    ensures Total(body) >= 1
    ensures pos + Total(body) <= |f| ==> (Checked(body, f, pos) <==> f[pos + Total(body) - 1] == 0x03)
  {
    if body != Tail() {
      UnassertedChecked(body.rest, f, pos + body.width);
    } else if pos < |f| {
      FromBe1(f[pos..pos + 1]);
    }
  }

  /** A framed packet of plain fields is accepted exactly if it is long enough and has STX and ETX in their
      places; what follows ETX is ignored. */
  lemma FramedAccepts(body: Schema, f: seq<byte>)
    requires Unasserted(body)
    ensures Walk(Framed(body), f, 0).Some? <==>
      |f| >= Total(body) + 4 && f[0] == 0x02 && f[Total(body) + 3] == 0x03
  {
    var named := U8(DTYPE, body);
    var sized := U16(LEN, named);
    UnassertedChecked(body, f, 4);
    WalkAccepts(Framed(body), f, 0);
    assert Total(named) == Total(body) + 1 && Total(sized) == Total(body) + 3;
    if |f| >= Total(body) + 4 {
      FromBe1(f[0..1]);
      assert Checked(named, f, 3) == Checked(body, f, 4);
      assert Checked(sized, f, 1) == Checked(named, f, 3);
    }
  }

  // --- Hardware description response ---

  function HardwareInfo(): Schema {
    U8(PROD_ID, U8(FM_MAJOR, U8(FM_MINOR, U8(STRM_M, U32(CUR_CF, U32(CUR_SP, U8(CUR_RL, U8(CUR_RBW, U8(AVAIL_RBW,
    HardwareInfo2())))))))))
  }

  function HardwareInfo2(): Schema {
    U8(CUR_RF, U8(AVAIL_RF, U8(CUR_GAIN, U8(OPT_BMK, U8(CUR_COM, U8(AVAIL_COM, U16(CUR_IEF, U16(CUR_EEF, Raw(SERIAL_NO,
    16, HardwareInfo3())))))))))
  }

  function HardwareInfo3(): Schema {
    U8(PCB_FAB, U8(CAL_DAY, U8(CAL_MONTH, U8(CAL_YEAR_MSB, U8(CAL_YEAR_LSB, U8(TEMP, U8(TEMP_MIN, U8(TEMP_MAX,
    U8(AMP_CAL, HardwareInfo4())))))))))
  }

  function HardwareInfo4(): Schema {
    U8(AVAIL_LNB, U8(CUR_LNB, U8(FIRST_RUN, U8(IS_LOCK, U8(PROJ_ID, U8(AVAIL70, Raw(FUTURE_HW, 27, Tail())))))))
  }

  lemma HardwareInfo4Spans()
    ensures var s := HardwareInfo4();
      && Locate(s, AVAIL_LNB, 54) == Span(54, 1)
      && Locate(s, CUR_LNB, 54) == Span(55, 1)
      && Locate(s, PROJ_ID, 54) == Span(58, 1)
      && Locate(s, AVAIL70, 54) == Span(59, 1)
  {
  }

  lemma HardwareInfo3Spans()
    ensures var s := HardwareInfo3();
      && Locate(s, PCB_FAB, 45) == Span(45, 1)
      && Locate(s, CAL_DAY, 45) == Span(46, 1)
      && Locate(s, CAL_MONTH, 45) == Span(47, 1)
      && Locate(s, CAL_YEAR_MSB, 45) == Span(48, 1)
      && Locate(s, CAL_YEAR_LSB, 45) == Span(49, 1)
      && Locate(s, AVAIL_LNB, 45) == Span(54, 1)
      && Locate(s, CUR_LNB, 45) == Span(55, 1)
      && Locate(s, PROJ_ID, 45) == Span(58, 1)
      && Locate(s, AVAIL70, 45) == Span(59, 1)
  {
    HardwareInfo4Spans();
  }

  lemma HardwareInfo2Spans()
    ensures var s := HardwareInfo2();
      && Locate(s, CUR_RF, 19) == Span(19, 1)
      && Locate(s, AVAIL_RF, 19) == Span(20, 1)
      && Locate(s, SERIAL_NO, 19) == Span(29, 16)
      && Locate(s, PCB_FAB, 19) == Span(45, 1)
      && Locate(s, CAL_DAY, 19) == Span(46, 1)
      && Locate(s, CAL_MONTH, 19) == Span(47, 1)
      && Locate(s, CAL_YEAR_MSB, 19) == Span(48, 1)
      && Locate(s, CAL_YEAR_LSB, 19) == Span(49, 1)
      && Locate(s, AVAIL_LNB, 19) == Span(54, 1)
      && Locate(s, CUR_LNB, 19) == Span(55, 1)
      && Locate(s, PROJ_ID, 19) == Span(58, 1)
      && Locate(s, AVAIL70, 19) == Span(59, 1)
  {
    HardwareInfo3Spans();
  }

  lemma HardwareInfoHeadSpans()
    ensures var s := HardwareInfo();
      && Locate(s, PROD_ID, 4) == Span(4, 1)
      && Locate(s, FM_MAJOR, 4) == Span(5, 1)
      && Locate(s, FM_MINOR, 4) == Span(6, 1)
      && Locate(s, CUR_CF, 4) == Span(8, 4)
      && Locate(s, CUR_SP, 4) == Span(12, 4)
      && Locate(s, CUR_RL, 4) == Span(16, 1)
      && Locate(s, CUR_RBW, 4) == Span(17, 1)
      && Locate(s, AVAIL_RBW, 4) == Span(18, 1)
  {
  }

  lemma HardwareInfoSpans()
    ensures var s := HardwareInfo();
      && Locate(s, CUR_RF, 4) == Span(19, 1)
      && Locate(s, AVAIL_RF, 4) == Span(20, 1)
      && Locate(s, SERIAL_NO, 4) == Span(29, 16)
      && Locate(s, PCB_FAB, 4) == Span(45, 1)
      && Locate(s, CAL_DAY, 4) == Span(46, 1)
      && Locate(s, CAL_MONTH, 4) == Span(47, 1)
      && Locate(s, CAL_YEAR_MSB, 4) == Span(48, 1)
      && Locate(s, CAL_YEAR_LSB, 4) == Span(49, 1)
      && Locate(s, AVAIL_LNB, 4) == Span(54, 1)
      && Locate(s, CUR_LNB, 4) == Span(55, 1)
      && Locate(s, PROJ_ID, 4) == Span(58, 1)
      && Locate(s, AVAIL70, 4) == Span(59, 1)
  {
    HardwareInfo2Spans();
  }

  lemma HardwareInfoUnasserted()
    ensures Unasserted(HardwareInfo()) && Total(HardwareInfo()) == 84
  {
    assert Unasserted(HardwareInfo4()) && Total(HardwareInfo4()) == 34;
    assert Unasserted(HardwareInfo3()) && Total(HardwareInfo3()) == 43;
    assert Unasserted(HardwareInfo2()) && Total(HardwareInfo2()) == 69;
  }

  // --- LNB power description response ---

  function PowerLnb(): Schema {
    U8(LNB_LOM, U8(LNB_PM, U8(LNB_RFP, U16(RF1_OFF1, U16(RF1_OFF2, U16(RF2_OFF1, U16(RF2_OFF2, U16(RF3_OFF1,
    U16(RF3_OFF2, PowerLnb2())))))))))
  }

  function PowerLnb2(): Schema {
    U16(RF4_OFF1, U16(RF4_OFF2, U16(RF5_OFF1, U16(RF5_OFF2, U16(RF6_OFF1, U16(RF6_OFF2, U8(RF1_LNB, U8(RF2_LNB,
    U8(RF3_LNB, PowerLnb3())))))))))
  }

  function PowerLnb3(): Schema {
    U8(RF4_LNB, U8(RF5_LNB, U8(RF6_LNB, U8(RF1_FXDG, U8(RF2_FXDG, U8(RF3_FXDG, U8(RF4_FXDG, U8(RF5_FXDG, U8(RF6_FXDG,
    PowerLnb4())))))))))
  }

  function PowerLnb4(): Schema {
    Raw(RESERVED, 4, Tail())
  }

  lemma PowerLnb3Spans()
    ensures var s := PowerLnb3();
      && Locate(s, RF1_FXDG, 34) == Span(37, 1)
      && Locate(s, RF2_FXDG, 34) == Span(38, 1)
      && Locate(s, RF3_FXDG, 34) == Span(39, 1)
      && Locate(s, RF4_FXDG, 34) == Span(40, 1)
      && Locate(s, RF5_FXDG, 34) == Span(41, 1)
      && Locate(s, RF6_FXDG, 34) == Span(42, 1)
  {
  }

  lemma PowerLnb2Spans()
    ensures var s := PowerLnb2();
      && Locate(s, RF1_FXDG, 19) == Span(37, 1)
      && Locate(s, RF2_FXDG, 19) == Span(38, 1)
      && Locate(s, RF3_FXDG, 19) == Span(39, 1)
      && Locate(s, RF4_FXDG, 19) == Span(40, 1)
      && Locate(s, RF5_FXDG, 19) == Span(41, 1)
      && Locate(s, RF6_FXDG, 19) == Span(42, 1)
  {
    PowerLnb3Spans();
  }

  lemma PowerLnbSpans()
    ensures var s := PowerLnb();
      && Locate(s, RF1_FXDG, 4) == Span(37, 1)
      && Locate(s, RF2_FXDG, 4) == Span(38, 1)
      && Locate(s, RF3_FXDG, 4) == Span(39, 1)
      && Locate(s, RF4_FXDG, 4) == Span(40, 1)
      && Locate(s, RF5_FXDG, 4) == Span(41, 1)
      && Locate(s, RF6_FXDG, 4) == Span(42, 1)
  {
    PowerLnb2Spans();
  }

  lemma PowerLnbUnasserted()
    ensures Unasserted(PowerLnb()) && Total(PowerLnb()) == 44
  {
    assert Unasserted(PowerLnb4()) && Total(PowerLnb4()) == 5;
    assert Unasserted(PowerLnb3()) && Total(PowerLnb3()) == 14;
    assert Unasserted(PowerLnb2()) && Total(PowerLnb2()) == 29;
  }

  // --- Waveform response ---

  /** `samples` bytes of data: 320 for 8-bit samples, 480 for 12-bit samples. */
  function WaveformData(samples: nat): Schema {
    Raw(DATA, samples, U8(PROD_ID, U32(CUR_CF, U32(CUR_SP, U8(CUR_RL, U8(CUR_RBW, U8(CUR_RF, WaveformDataEnd())))))))
  }

  function WaveformDataEnd(): Schema {
    U16(CUR_IEF, U16(CUR_EEF, U8(CUR_LNB, U16(RESERVED, Tail()))))
  }

  lemma WaveformData8Spans()
    ensures var s := WaveformData(320);
      && Locate(s, DATA, 4) == Span(4, 320)
      && Locate(s, CUR_CF, 4) == Span(325, 4)
      && Locate(s, CUR_SP, 4) == Span(329, 4)
      && Locate(s, CUR_RL, 4) == Span(333, 1)
      && Locate(s, CUR_RBW, 4) == Span(334, 1)
      && Locate(s, CUR_RF, 4) == Span(335, 1)
      && Locate(s, CUR_IEF, 4) == Span(336, 2)
      && Locate(s, CUR_LNB, 4) == Span(340, 1)
  {
  }

  lemma WaveformData12Spans()
    ensures var s := WaveformData(480);
      && Locate(s, DATA, 4) == Span(4, 480)
      && Locate(s, CUR_CF, 4) == Span(485, 4)
      && Locate(s, CUR_SP, 4) == Span(489, 4)
      && Locate(s, CUR_RL, 4) == Span(493, 1)
      && Locate(s, CUR_RBW, 4) == Span(494, 1)
      && Locate(s, CUR_RF, 4) == Span(495, 1)
      && Locate(s, CUR_IEF, 4) == Span(496, 2)
      && Locate(s, CUR_LNB, 4) == Span(500, 1)
  {
  }

  lemma WaveformUnasserted(bytes: nat)
    ensures Unasserted(WaveformData(bytes)) && Total(WaveformData(bytes)) == bytes + 20
  {
    assert Unasserted(WaveformDataEnd()) && Total(WaveformDataEnd()) == 8;
  }

  // --- Change-settings request ---

  function ChangeConfig(): Schema {
    Is8(STX_BYTE, 0x02, Is16(LEN, 0x10, Is8(DTYPE, 0x04, ChangeConfig2())))
  }

  function ChangeConfig2(): Schema {
    U32(CF, U32(SP, U8(RL, U8(RBW, U8(RF, U8(LNB, U16(RESERVED, Tail())))))))
  }

  predicate ChangeSpans(s: Schema) {
    && Locate(s, CF, 0) == Span(4, 4)
    && Locate(s, SP, 0) == Span(8, 4)
    && Locate(s, RL, 0) == Span(12, 1)
    && Locate(s, RBW, 0) == Span(13, 1)
    && Locate(s, RF, 0) == Span(14, 1)
    && Locate(s, LNB, 0) == Span(15, 1)
  }

  lemma ChangeConfigSpans()
    ensures ChangeSpans(ChangeConfig())
  {
  }

  /** The assertions of the change-settings schema. */
  lemma ChangeConfigChecked(f: seq<byte>)
    ensures Total(ChangeConfig()) == 19
    ensures |f| >= 19 ==>
      (Checked(ChangeConfig(), f, 0) <==>
        FromBe(f[0..1]) == 0x02 && FromBe(f[1..3]) == 0x10 && FromBe(f[3..4]) == 0x04 && FromBe(f[18..19]) == 0x03)
  {
    var t4 := U8(RF, U8(LNB, U16(RESERVED, Tail())));
    assert Total(U16(RESERVED, Tail())) == 3;
    assert Total(t4) == 5;
    var t3 := U8(RL, U8(RBW, t4));
    assert Total(t3) == 7;
    assert Total(ChangeConfig2()) == 15;
    assert Total(Is8(DTYPE, 0x04, ChangeConfig2())) == 16;
    if |f| >= 19 {
      var t1 := Is8(DTYPE, 0x04, ChangeConfig2());
      assert Checked(ChangeConfig(), f, 0) <==>
        FromBe(f[0..1]) == 0x02 && FromBe(f[1..3]) == 0x10 && Checked(t1, f, 3);
      assert Checked(Tail(), f, 18) <==> FromBe(f[18..19]) == 0x03;
      assert Checked(U16(RESERVED, Tail()), f, 16) == Checked(Tail(), f, 18);
      assert Checked(t4, f, 14) == Checked(U16(RESERVED, Tail()), f, 16);
      assert Checked(t3, f, 12) == Checked(t4, f, 14);
      assert Checked(ChangeConfig2(), f, 4) == Checked(t3, f, 12);
    }
  }
}

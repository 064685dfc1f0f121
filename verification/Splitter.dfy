/** The declarative response parsers: the generic splitter and the dispatch on DTYPE. */
module Splitter {
  import opened Bytes
  import opened Framing
  import opened Schemas
  import opened Analyzer
  import Waveform

  /** The number of bytes between DTYPE and ETX that LEN announces. */
  function BlobLength(b: seq<byte>): nat
    requires |b| >= 3
  {
    var len := LenAt(b, 0);
    if len < 2 then 0 else len - 2
  }

  function Generic(n: nat): Schema {
    Framed(Raw(BLOB, n, Tail()))
  }

  /** `parseTester`: None where the parser throws. Bytes behind ETX are ignored. */
  function ParseTester(b: seq<byte>): Option<Record> {
    if |b| < 3 then None else Walk(Generic(BlobLength(b)), b, 0)
  }

  /** The frame around a DTYPE and its data. */
  function Reframe(dtype: byte, blob: seq<byte>): seq<byte>
    requires |blob| <= 0xFFFD
  {
    [STX] + Be16(|blob| + 2) + [dtype] + blob + [ETX]
  }

  /** What is accepted: enough bytes, and STX and ETX where LEN puts them. */
  lemma TesterAccepts(b: seq<byte>)
    ensures ParseTester(b).Some? <==>
      |b| >= 3 && |b| >= BlobLength(b) + 5 && b[0] == STX && b[BlobLength(b) + 4] == ETX
  {
    if |b| >= 3 {
      var body := Raw(BLOB, BlobLength(b), Tail());
      assert Unasserted(body.rest) && Total(body.rest) == 1;
      assert Unasserted(body) && Total(body) == BlobLength(b) + 1;
      FramedAccepts(body, b);
    }
  }

  predicate Splits(b: seq<byte>, r: Record) {
    && |b| >= 4 && LEN in r && DTYPE in r && BLOB in r
    && Num(r, LEN) == LenAt(b, 0) && Byte(r, DTYPE) == b[3]
    && |b| >= BlobLength(b) + 5 && r[BLOB] == b[4..4 + BlobLength(b)]
  }

  lemma GenericSpans(s: Schema, n: nat)
    requires s == Generic(n)
    ensures Locate(s, LEN, 0) == Span(1, 2) && Locate(s, DTYPE, 0) == Span(3, 1) && Locate(s, BLOB, 0) == Span(4, n)
  {
    var body := Raw(BLOB, n, Tail());
    assert Locate(U8(DTYPE, body), BLOB, 3) == Span(4, n);
    assert Locate(U16(LEN, U8(DTYPE, body)), BLOB, 1) == Span(4, n);
    assert Locate(U16(LEN, U8(DTYPE, body)), DTYPE, 1) == Span(3, 1);
  }

  lemma TesterReads(b: seq<byte>)
    requires ParseTester(b).Some?
    ensures Splits(b, ParseTester(b).value)
  {
    var n := BlobLength(b);
    TesterAccepts(b);
    GenericSpans(Generic(n), n);
    GenericReads(Generic(n), b, ParseTester(b).value);
  }

  lemma GenericReads(s: Schema, b: seq<byte>, r: Record)
    requires |b| >= 5 && |b| >= BlobLength(b) + 5 && Walk(s, b, 0) == Some(r)
    requires Locate(s, LEN, 0) == Span(1, 2) && Locate(s, DTYPE, 0) == Span(3, 1)
    requires Locate(s, BLOB, 0) == Span(4, BlobLength(b))
    ensures Splits(b, r)
  {
    WalkReads(s, b, 0, LEN);
    WalkReads(s, b, 0, DTYPE);
    WalkReads(s, b, 0, BLOB);
    FromBe2(b[1..3]);
    FromBe1(b[3..4]);
  }

  lemma ReframeParts(dtype: byte, blob: seq<byte>)
    requires |blob| <= 0xFFFD
    ensures var b := Reframe(dtype, blob);
      && |b| == |blob| + 5 && b[0] == STX && b[3] == dtype && b[|blob| + 4] == ETX
      && LenAt(b, 0) == |blob| + 2 && BlobLength(b) == |blob| && b[4..4 + |blob|] == blob
  {
  }

  /** Splitting undoes framing, for every type and all data that LEN can announce. */
  lemma SplitReframe(dtype: byte, blob: seq<byte>)
    requires |blob| <= 0xFFFD
    ensures exists r ::
      && ParseTester(Reframe(dtype, blob)) == Some(r) && LEN in r && DTYPE in r && BLOB in r
      && Num(r, LEN) == |blob| + 2 && Byte(r, DTYPE) == dtype && r[BLOB] == blob
  {
    var b := Reframe(dtype, blob);
    ReframeParts(dtype, blob);
    TesterAccepts(b);
    TesterReads(b);
  }

  /** Framing undoes splitting exactly on the inputs that are one well-formed frame. */
  lemma ReframeSplit(b: seq<byte>)
    requires ParseTester(b).Some?
    ensures var r := ParseTester(b).value;
      DTYPE in r && BLOB in r && |r[BLOB]| <= 0xFFFD && (Reframe(Byte(r, DTYPE), r[BLOB]) == b <==> WellFormed(b))
  {
    TesterAccepts(b);
    TesterReads(b);
    var r := ParseTester(b).value;
    var n := BlobLength(b);
    ReframeParts(b[3], r[BLOB]);
    if WellFormed(b) {
      assert LenAt(b, 0) / 0x100 == b[1] && LenAt(b, 0) % 0x100 == b[2];
      assert b == [b[0]] + [b[1], b[2]] + [b[3]] + b[4..4 + n] + [b[n + 4]];
    }
  }

  /** Of the frames the receiver returns, the splitter accepts exactly the well-formed ones. */
  lemma ReceivedFrameSplits(f: seq<byte>)
    requires IsFrame(f)
    ensures ParseTester(f).Some? <==> WellFormed(f)
  {
    TesterAccepts(f);
  }

  // --- Dispatch on DTYPE ---

  /** The body schema `parser` chooses; a text message takes what LEN announces. Types without a schema
      of their own are not modelled. */
  function BodyOf(dtype: byte, n: nat): Option<Schema> {
    match dtype
    case 0x07 => Some(HardwareInfo())
    case 0x0D => Some(PowerLnb())
    case 0x09 => Some(WaveformData(320))
    case 0x0F => Some(WaveformData(320))
    case 0x60 => Some(Raw(BLOB, n, Tail()))
    case _ => None
  }

  function ParseResponse(b: seq<byte>): Option<Record> {
    if |b| < 4 || BodyOf(b[3], BlobLength(b)).None? then None
    else Walk(Framed(BodyOf(b[3], BlobLength(b)).value), b, 0)
  }

  /** Text messages round-trip. */
  lemma TextRoundTrip(text: seq<byte>)
    requires |text| <= 0xFFFD
    ensures exists r :: ParseResponse(Reframe(0x60, text)) == Some(r) && BLOB in r && r[BLOB] == text
  {
    var b := Reframe(0x60, text);
    ReframeParts(0x60, text);
    SplitReframe(0x60, text);
    assert ParseResponse(b) == ParseTester(b);
  }

  /** A 12-bit waveform is dispatched to the schema of 8-bit ones: it is accepted exactly if one of its
      sample bytes happens to be 0x03, and then only 320 of its 480 sample bytes are taken as data. */
  lemma TwelveBitMisparsed(f: seq<byte>)
    requires WellFormed(f) && |f| == 504 && f[3] == 0x0F
    ensures ParseResponse(f).Some? <==> f[343] == 0x03
    ensures ParseResponse(f).Some? ==> DATA in ParseResponse(f).value && |ParseResponse(f).value[DATA]| == 320
  {
    WaveformUnasserted(320);
    FramedAccepts(WaveformData(320), f);
    if ParseResponse(f).Some? {
      Waveform.WaveformAgrees(0, f, ParseResponse(f).value, 320);
    }
  }
}

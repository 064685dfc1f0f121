/** Calls on an open connection: what each one sends, reads and returns, and when requests and
    answers stay in step. */
module SessionSpec {
  import opened Bytes
  import opened Framing
  import opened Reassembly

  const PACKET_ACK: byte := 0x21
  const API_CMDS: byte := 0x28
  const API_TRIGGER: byte := 0x1D
  const BLKFIN_CMDS: byte := 0x27
  const READ_FP_HW_DESC: byte := 0x22

  const SEND_FAILED := 100007
  const UNEXPECTED_CMD := 100014
  const SET_SWEEP_FAILED := 300013

  const BUFFER := 1024

  /** The calls of the library once their arguments have been checked. Setter covers the calls that
      send one command and check its acknowledgement; `failed` is their own error code. A registration
      is the calls Connect, Query for the hardware, Query for the LNB power and, with a front panel, Panel. */
  datatype Call =
    | Connect
    | Query(dtype: byte)
    | Panel
    | Spectrum
    | ChangeAll
    | Setter(cmd: byte, sub: byte, failed: int)
    | Trigger
    | Rejected(code: int)

  /** Result code, receive buffer and unread stream after a call. */
  datatype Result = Result(code: int, rx: seq<byte>, size: nat, rest: seq<byte>)

  /** Everything the stream can deliver fits the receive buffer. */
  predicate Fits(s: seq<byte>, ending: Ending, garbage: byte)
    decreases |s|
  {
    |Receive(s, ending, garbage).data| <= BUFFER &&
    (s == [] || Fits(Receive(s, ending, garbage).rest, ending, garbage))
  }

  /** One `AOV_recData`: the received bytes replace the front of the buffer. */
  function ReadOne(s: seq<byte>, ending: Ending, garbage: byte, buf: seq<byte>): (r: Result)
    requires |buf| == BUFFER && Fits(s, ending, garbage)
    ensures |r.rx| == BUFFER
  {
    var r := Receive(s, ending, garbage);
    Result(r.code, r.data + buf[|r.data|..], |r.data|, r.rest)
  }

  /** The answer to a description request must be of the type that was asked for. */
  function QueryCode(rx: seq<byte>, dtype: byte): int
    requires |rx| == BUFFER
  {
    if rx[3] != dtype then UNEXPECTED_CMD else 0
  }

  /** The front panel's description is refused only if both bytes differ from the expected ones. */
  function PanelCode(rx: seq<byte>): int
    requires |rx| == BUFFER
  {
    if rx[3] != BLKFIN_CMDS && rx[4] != READ_FP_HW_DESC then UNEXPECTED_CMD else 0
  }

  /** The check of an acknowledgement: the packet is refused only if it differs in all three bytes.
      A set status byte is an error, reported in the next two bytes unless the packet was short. */
  function AckCode(rx: seq<byte>, size: nat, cmd: byte, sub: byte, failed: int): int
    requires |rx| == BUFFER
  {
    if rx[3] != PACKET_ACK && rx[4] != cmd && rx[5] != sub then UNEXPECTED_CMD
    else if rx[6] == 0 then 0
    else if size == 5 then failed
    else Word16(rx, 7)
  }

  /** One read: what is unread, and the buffer before it. */
  type Reader = (seq<byte>, seq<byte>) -> Result

  function ReaderOf(ending: Ending, garbage: byte): Reader {
    (s, buf) => Fetch(s, ending, garbage, buf)
  }

  /** A read, with an arbitrary failure where the buffer is too small. */
  function Fetch(s: seq<byte>, ending: Ending, garbage: byte, buf: seq<byte>): (r: Result)
    ensures |r.rx| == |buf|
  {
    if |buf| == BUFFER && Fits(s, ending, garbage) then ReadOne(s, ending, garbage, buf) else Result(1, buf, 0, [])
  }

  /** The loop of a trigger ends after this read. */
  predicate Ends(r: Result) {
    r.code != 0 || |r.rx| < 7 || r.rx[6] != 3
  }

  /** Reads until the loop ends; None if it never does. */
  function Loop(read: Reader, s: seq<byte>, buf: seq<byte>): Option<Result>
    decreases |s|
  {
    var r := read(s, buf);
    if Ends(r) then Some(r) else if |r.rest| >= |s| then None else Loop(read, r.rest, r.rx)
  }

  /** A read keeps the size of the buffer and takes something from the stream, if there is anything; with
      nothing to read, a loop that goes on once goes on for ever. */
  ghost predicate Proper(read: Reader) {
    && (forall s, b :: |read(s, b).rx| == |b| && (s != [] ==> |read(s, b).rest| < |s|))
    && (forall b :: !Ends(read([], b)) ==> read([], b).rest == [] && !Ends(read([], read([], b).rx)))
  }

  lemma ProperReader(ending: Ending, garbage: byte)
    ensures Proper(ReaderOf(ending, garbage))
  {
    var read := ReaderOf(ending, garbage);
    forall b | !Ends(read([], b))
      ensures read([], b).rest == [] && !Ends(read([], read([], b).rx))
    {
      ReadNothing(ending, garbage, b);
      ReadNothing(ending, garbage, read([], b).rx);
    }
    forall s, b
      ensures |read(s, b).rx| == |b| && (s != [] ==> |read(s, b).rest| < |s|)
    {
      if s != [] {
        Consumes(s, ending, garbage);
      }
    }
  }

  lemma ReadNothing(ending: Ending, garbage: byte, buf: seq<byte>)
    requires |buf| == BUFFER
    ensures Fits([], ending, garbage)
    ensures var r := ReadOne([], ending, garbage, buf);
      r.rest == [] && r.rx[6] == buf[6] && r.code == Code(ending)
  {
  }

  lemma Consumes(s: seq<byte>, ending: Ending, garbage: byte)
    requires s != []
    ensures |Receive(s, ending, garbage).rest| < |s|
  {
  }

  lemma {:induction false} LoopKeepsSize(read: Reader, s: seq<byte>, buf: seq<byte>)
    requires Proper(read)
    ensures Loop(read, s, buf).Some? ==> |Loop(read, s, buf).value.rx| == |buf|
    decreases |s|
  {
    var r := read(s, buf);
    if !Ends(r) && |r.rest| < |s| {
      LoopKeepsSize(read, r.rest, r.rx);
    }
  }

  /** The loop of `AVCOM_SA_Trigger`: reads until the status byte is not 3; None if it never ends. */
  function TriggerLoop(s: seq<byte>, ending: Ending, garbage: byte, buf: seq<byte>): (r: Option<Result>)
    requires |buf| == BUFFER && Fits(s, ending, garbage)
    ensures r.Some? ==> |r.value.rx| == BUFFER
  {
    ProperReader(ending, garbage);
    LoopKeepsSize(ReaderOf(ending, garbage), s, buf);
    Loop(ReaderOf(ending, garbage), s, buf)
  }

  /** The answer of a call to the bytes `s` that are unread when it starts to read. */
  function Perform(c: Call, s: seq<byte>, ending: Ending, garbage: byte, buf: seq<byte>): Option<Result>
    requires |buf| == BUFFER && Fits(s, ending, garbage)
  {
    match c
    case Rejected(code) => Some(Result(code, buf, 0, s))
    case Connect => Some(ReadOne(s, ending, garbage, buf).(code := 0))
    case Query(dtype) =>
      var r := ReadOne(s, ending, garbage, buf);
      Some(if r.code != 0 then r else r.(code := QueryCode(r.rx, dtype)))
    case Panel =>
      var r := ReadOne(s, ending, garbage, buf);
      Some(if r.code != 0 then r else r.(code := PanelCode(r.rx)))
    case Spectrum => Some(ReadOne(s, ending, garbage, buf))
    case ChangeAll => Some(ReadOne(s, ending, garbage, buf))
    case Setter(cmd, sub, failed) =>
      var r := ReadOne(s, ending, garbage, buf);
      Some(if r.code != 0 then r else r.(code := AckCode(r.rx, r.size, cmd, sub, failed)))
    case Trigger => AfterLoop(TriggerLoop(s, ending, garbage, buf))
  }

  /** A trigger whose loop has ended checks the last packet. */
  function AfterLoop(outcome: Option<Result>): Option<Result>
    requires outcome.Some? ==> |outcome.value.rx| == BUFFER
  {
    match outcome
    case None => None
    case Some(r) =>
      Some(if r.code != 0 then r else r.(code := AckCode(r.rx, r.size, API_CMDS, API_TRIGGER, SET_SWEEP_FAILED)))
  }

  // --- Exchanges ---

  /** One request on the connection: how many bytes of it `send` leaves, and what the analyzer sends next. */
  datatype Exchange = Exchange(lack: nat, answer: seq<byte>)

  /** Result code, receive buffer and unread stream after one exchange. */
  datatype Heard = Heard(code: int, rx: seq<byte>, rest: seq<byte>)

  /** One description exchange of a registration. */
  function Asked(c: Call, e: Exchange, s: seq<byte>, ending: Ending, garbage: byte, buf: seq<byte>): (a: Heard)
    requires c.Query? || c.Panel?
    requires |buf| == BUFFER && Fits(s + e.answer, ending, garbage)
    ensures |a.rx| == BUFFER
  {
    if e.lack != 0 then Heard(SEND_FAILED, buf, s + e.answer) else
    var r := ReadOne(s + e.answer, ending, garbage, buf);
    Heard(if r.code != 0 then r.code else if c.Query? then QueryCode(r.rx, c.dtype) else PanelCode(r.rx), r.rx, r.rest)
  }

  // --- The loop of Trigger ---

  /** The first `limit` rounds of the loop: None if it is still running after them. */
  function Rounds(limit: nat, read: Reader, s: seq<byte>, buf: seq<byte>): Option<Result>
    decreases limit
  {
    if limit == 0 then None else
    var r := read(s, buf);
    if Ends(r) then Some(r) else Rounds(limit - 1, read, r.rest, r.rx)
  }

  lemma RoundsStep(limit: nat, read: Reader, s: seq<byte>, buf: seq<byte>, r: Result)
    requires limit > 0 && r == read(s, buf)
    ensures Rounds(limit, read, s, buf) == if Ends(r) then Some(r) else Rounds(limit - 1, read, r.rest, r.rx)
  {
  }

  lemma FetchFits(s: seq<byte>, ending: Ending, garbage: byte, buf: seq<byte>, r: Result)
    requires |buf| == BUFFER && Fits(s, ending, garbage) && r == ReadOne(s, ending, garbage, buf)
    ensures ReaderOf(ending, garbage)(s, buf) == r && Fits(r.rest, ending, garbage)
  {
    if s == [] {
      ReadNothing(ending, garbage, buf);
    }
  }

  /** With nothing left to read, a loop that goes on goes on for any number of rounds. */
  lemma {:induction false} DeadRounds(limit: nat, read: Reader, buf: seq<byte>)
    requires Proper(read) && !Ends(read([], buf))
    ensures Rounds(limit, read, [], buf).None?
    decreases limit
  {
    if limit > 0 {
      DeadRounds(limit - 1, read, read([], buf).rx);
    }
  }

  lemma {:induction false} EndedRounds(limit: nat, read: Reader, s: seq<byte>, buf: seq<byte>)
    requires Proper(read) && Rounds(limit, read, s, buf).Some?
    ensures Rounds(limit, read, s, buf) == Loop(read, s, buf)
    decreases limit
  {
    var r := read(s, buf);
    if !Ends(r) {
      if s == [] {
        DeadRounds(limit, read, buf);
      } else {
        EndedRounds(limit - 1, read, r.rest, r.rx);
      }
    }
  }

  lemma {:induction false} EnoughRounds(limit: nat, read: Reader, s: seq<byte>, buf: seq<byte>)
    requires Proper(read) && limit > |s| && Loop(read, s, buf).Some?
    ensures Rounds(limit, read, s, buf).Some?
    decreases limit
  {
    var r := read(s, buf);
    if !Ends(r) {
      EnoughRounds(limit - 1, read, r.rest, r.rx);
    }
  }

  /** A loop that ends does so within one round more than there are bytes to read, and with the outcome
      of the model; where the model has none, no number of rounds ends it. */
  lemma TriggerSpins(limit: nat, s: seq<byte>, ending: Ending, garbage: byte, buf: seq<byte>)
    requires |buf| == BUFFER && Fits(s, ending, garbage)
    ensures var rounds := Rounds(limit, ReaderOf(ending, garbage), s, buf);
      (rounds.Some? || limit > |s|) ==> rounds == TriggerLoop(s, ending, garbage, buf)
  {
    var read := ReaderOf(ending, garbage);
    ProperReader(ending, garbage);
    if limit > |s| && Loop(read, s, buf).Some? {
      EnoughRounds(limit, read, s, buf);
    }
    if Rounds(limit, read, s, buf).Some? {
      EndedRounds(limit, read, s, buf);
    }
  }

  lemma LoopStep(s: seq<byte>, ending: Ending, garbage: byte, buf: seq<byte>, r: Result)
    requires |buf| == BUFFER && Fits(s, ending, garbage) && r == ReadOne(s, ending, garbage, buf)
    ensures r.code != 0 || r.rx[6] != 3 ==> TriggerLoop(s, ending, garbage, buf) == Some(r)
    ensures s != [] && r.code == 0 && r.rx[6] == 3 ==>
      Fits(r.rest, ending, garbage)
      && TriggerLoop(s, ending, garbage, buf) == TriggerLoop(r.rest, ending, garbage, r.rx)
    ensures s == [] && r.code == 0 && r.rx[6] == 3 ==> TriggerLoop(s, ending, garbage, buf).None?
  {
    assert r == ReaderOf(ending, garbage)(s, buf);
    if s != [] {
      Consumes(s, ending, garbage);
    }
  }

  /** What the calls of the receiver on a stream store: its frames, and in the end what is left over. */
  function Packets(s: seq<byte>, garbage: byte): (ps: seq<seq<byte>>)
    ensures ps != []
    decreases |s|
  {
    if Complete(s) then [First(s).frame] + Packets(Rest(s), garbage) else [Leftover(s, garbage)]
  }

  /** Those are the frames that reassembly finds, followed by what no whole frame covers. */
  lemma {:induction false} PacketsDecoded(s: seq<byte>, garbage: byte)
    ensures var d := Decode(s);
      |Packets(s, garbage)| == |d.items| + 1 && Packets(s, garbage)[|d.items|] == Leftover(d.rest, garbage)
      && forall i :: 0 <= i < |d.items| ==> Packets(s, garbage)[i] == d.items[i].frame
    decreases |s|
  {
    if Complete(s) {
      PacketsDecoded(Rest(s), garbage);
    }
  }

  /** No packet long enough for a status byte has one other than 3; if the first is too short, the buffer
      held a 3 there before. */
  predicate AlwaysThree(packets: seq<seq<byte>>, before: byte) {
    && (forall i :: 0 <= i < |packets| && |packets[i]| >= 7 ==> packets[i][6] == 3)
    && (packets == [] || |packets[0]| < 7 ==> before == 3)
  }

  /** The status byte looked at after a packet has replaced the front of the buffer. */
  function Status(packet: seq<byte>, before: byte): byte {
    if |packet| >= 7 then packet[6] else before
  }

  lemma ThreeFirst(p: seq<byte>, rest: seq<seq<byte>>, before: byte)
    ensures AlwaysThree([p] + rest, before) <==> Status(p, before) == 3 && AlwaysThree(rest, 3)
  {
    var ps := [p] + rest;
    assert forall i :: 0 <= i < |rest| ==> rest[i] == ps[i + 1];
    assert ps[0] == p;
  }

  lemma StatusRead(s: seq<byte>, ending: Ending, garbage: byte, buf: seq<byte>)
    requires |buf| == BUFFER && Fits(s, ending, garbage)
    ensures ReadOne(s, ending, garbage, buf).rx[6] == Status(Receive(s, ending, garbage).data, buf[6])
  {
  }

  /** When the loop never ends: exactly if the peer has closed the connection and every status byte
      looked at, those left over from earlier packets included, is 3. */
  lemma {:induction false} TriggerNeverEnds(s: seq<byte>, ending: Ending, garbage: byte, buf: seq<byte>)
    requires |buf| == BUFFER && Fits(s, ending, garbage)
    ensures TriggerLoop(s, ending, garbage, buf).None? <==>
      ending.Closed? && AlwaysThree(Packets(s, garbage), buf[6])
    decreases |s|
  {
    var r := ReadOne(s, ending, garbage, buf);
    StatusRead(s, ending, garbage, buf);
    LoopStep(s, ending, garbage, buf, r);
    if Complete(s) {
      ThreeFirst(First(s).frame, Packets(Rest(s), garbage), buf[6]);
      if r.rx[6] == 3 {
        TriggerNeverEnds(Rest(s), ending, garbage, r.rx);
      }
    } else {
      ThreeFirst(Leftover(s, garbage), [], buf[6]);
      EndOfStream(s, ending, garbage, buf);
    }
  }

  /** The round that runs into the end of the stream. */
  lemma EndOfStream(s: seq<byte>, ending: Ending, garbage: byte, buf: seq<byte>)
    requires |buf| == BUFFER && Fits(s, ending, garbage) && !Complete(s)
    ensures TriggerLoop(s, ending, garbage, buf).None? <==>
      ending.Closed? && Status(Leftover(s, garbage), buf[6]) == 3
  {
    var r := ReadOne(s, ending, garbage, buf);
    StatusRead(s, ending, garbage, buf);
    LoopStep(s, ending, garbage, buf, r);
    if s != [] && r.code == 0 && r.rx[6] == 3 {
      ReadNothing(ending, garbage, r.rx);
      LoopStep([], ending, garbage, r.rx, ReadOne([], ending, garbage, r.rx));
    }
  }

  lemma WholeFrame(f: seq<byte>)
    requires IsFrame(f)
    ensures Complete(f) && First(f).frame == f && Rest(f) == []
  {
    assert Parts(f, Item([], f), []);
    FrameFound(Item([], f), [], f);
  }

  lemma FrameFits(f: seq<byte>, ending: Ending, garbage: byte)
    requires Complete(f) && First(f).frame == f && Rest(f) == [] && |f| <= BUFFER
    ensures Fits(f, ending, garbage)
  {
    ReadNothing(ending, garbage, seq(BUFFER, _ => 0));
  }

  lemma OnePacket(f: seq<byte>, garbage: byte)
    requires Complete(f) && First(f).frame == f && Rest(f) == []
    ensures Packets(f, garbage) == [f, Leftover([], garbage)]
  {
    assert Packets([], garbage) == [Leftover([], garbage)];
  }

  lemma OneThree(f: seq<byte>, garbage: byte, before: byte)
    requires |f| >= 7 && f[6] == 3
    ensures AlwaysThree([f, Leftover([], garbage)], before)
  {
  }

  /** One acknowledgement with status 3 and a closed connection: the loop never ends. */
  lemma TriggerHangs(garbage: byte, buf: seq<byte>)
    requires |buf| == BUFFER
    ensures var s: seq<byte> := [2, 0, 5, PACKET_ACK, API_CMDS, API_TRIGGER, 3, ETX];
      Fits(s, Closed, garbage) && TriggerLoop(s, Closed, garbage, buf).None?
  {
    var s: seq<byte> := [2, 0, 5, PACKET_ACK, API_CMDS, API_TRIGGER, 3, ETX];
    WholeFrame(s);
    FrameFits(s, Closed, garbage);
    OnePacket(s, garbage);
    OneThree(s, garbage, buf[6]);
    TriggerNeverEnds(s, Closed, garbage, buf);
  }

  /** An answer too short to carry a status byte does not end the loop once a 3 has been read: the
      byte of the earlier packet is looked at again. */
  lemma ShortAnswerIgnored(it: Item, rest: seq<byte>, s: seq<byte>, ending: Ending, garbage: byte, buf: seq<byte>,
                           r: Result)
    requires Sendable(it) && |it.frame| < 7 && |buf| == BUFFER && buf[6] == 3
    requires Parts(s, it, rest) && Fits(s, ending, garbage) && r == ReadOne(s, ending, garbage, buf)
    ensures r.rx[6] == 3 && r.rest == rest && Fits(rest, ending, garbage)
    ensures TriggerLoop(s, ending, garbage, buf) == TriggerLoop(rest, ending, garbage, r.rx)
  {
    ReceiveFirst(it, rest, s, ending, garbage);
    LoopStep(s, ending, garbage, buf, r);
  }
}

/** Calls on an open connection, as the library makes them: build a request, send it, read the answer. */
module Session {
  import opened Bytes
  import opened Framing
  import opened SessionSpec
  import opened ChangeSettings
  import opened Handles
  import opened Waveform

  const INVALID_FLAG := 300007

  const WAVE_REQ: byte := 0x03
  const SINGLE_12BIT: byte := 0x05

  /** The packet with these bytes from DTYPE on. */
  function Packet(payload: seq<byte>): seq<byte>
    requires |payload| < 0xFFFF
  {
    [STX] + Be16(|payload| + 1) + payload + [ETX]
  }

  /** The front of a packet that `send` takes when it leaves this many bytes. */
  function Taken(packet: seq<byte>, lack: nat): seq<byte> {
    if lack <= |packet| then packet[..|packet| - lack] else []
  }

  /** A packet is a well-formed frame around its bytes, and what `send` takes of it is its front. */
  lemma PacketFramed(payload: seq<byte>, lack: nat)
    requires 1 <= |payload| < 0xFFFF
    ensures var p := Packet(payload);
      && WellFormed(p) && p[3..|p| - 1] == payload
      && Taken(p, lack) <= p && (lack <= |p| ==> |Taken(p, lack)| == |p| - lack)
  {
  }

  const WAVEFORM_REQUEST: seq<byte> := [WAVE_REQ, SINGLE_12BIT]

  class Link {
    const conn: Connection
    /** What each call of `send` took so far. */
    ghost var sent: seq<seq<byte>>

    constructor (conn: Connection)
      ensures this.conn == conn && sent == []
    {
      this.conn := conn;
      sent := [];
    }

    /** `AOV_sendData`. Only a packet that is taken whole counts as sent; what the analyzer sends next
        arrives in any case. */
    method SendData(data: array<byte>, size: nat, e: Exchange) returns (code: int)
      requires size <= data.Length
      modifies this, conn
      ensures code == if e.lack == 0 then 0 else SEND_FAILED
      ensures conn.pending == old(conn.pending) + e.answer
      ensures sent == old(sent) + [Taken(data[..size], e.lack)]
    {
      sent := sent + [Taken(data[..size], e.lack)];
      conn.pending := conn.pending + e.answer;
      if e.lack != 0 {
        return SEND_FAILED;
      }
      return 0;
    }

    /** `AOV_recData` into the receive buffer of a call. */
    method Read(rx: array<byte>, garbage: byte) returns (code: int, size: nat)
      requires rx.Length == BUFFER && Fits(conn.pending, conn.ending, garbage)
      modifies conn, rx
      ensures var r := ReadOne(old(conn.pending), conn.ending, garbage, old(rx[..]));
        code == r.code && rx[..] == r.rx && conn.pending == r.rest && (code == 0 ==> size == r.size)
    {
      var s: Option<nat>;
      code, s := conn.RecData(rx, garbage);
      size := if s.Some? then s.value else 0;
    }

    /** The check of an acknowledgement. */
    method CheckAck(rx: array<byte>, size: nat, cmd: byte, sub: byte, failed: int) returns (code: int)
      requires rx.Length == BUFFER
      ensures code == AckCode(rx[..], size, cmd, sub, failed)
    {
      if rx[3] != PACKET_ACK && rx[4] != cmd && rx[5] != sub {
        return UNEXPECTED_CMD;
      }
      if rx[6] != 0 {
        if size == 5 {
          return failed;
        }
        code := Word16(rx[..], 7);
        return;
      }
      return 0;
    }

    /** Builds and sends the packet with these bytes from DTYPE on. */
    method SendPacket(payload: seq<byte>, e: Exchange) returns (code: int)
      requires |payload| <= 10
      modifies this, conn
      ensures code == if e.lack == 0 then 0 else SEND_FAILED
      ensures conn.pending == old(conn.pending) + e.answer
      ensures sent == old(sent) + [Taken(Packet(payload), e.lack)]
    {
      var tx := new byte[64];
      var k := PutArgs(tx, 3, payload);
      assert tx[3..k] == tx[..k][3..] == payload;
      k := Seal(tx, k);
      code := SendData(tx, k, e);
    }

    method PutArgs(tx: array<byte>, k: nat, args: seq<byte>) returns (next: nat)
      requires k + |args| <= tx.Length
      modifies tx
      ensures next == k + |args| && tx[..next] == old(tx[..k]) + args
    {
      next := k;
      while next < k + |args|
        invariant k <= next <= k + |args| && tx[..next] == old(tx[..k]) + args[..next - k]
      {
        next := Put(tx, next, args[next - k]);
      }
    }

    /** One exchange of a registration: a description is asked for, and its type checked. */
    method Ask(payload: seq<byte>, c: Call, e: Exchange, rx: array<byte>, garbage: byte) returns (code: int)
      requires |payload| <= 10 && (c.Query? || c.Panel?)
      requires rx.Length == BUFFER && Fits(conn.pending + e.answer, conn.ending, garbage)
      modifies this, conn, rx
      ensures sent == old(sent) + [Taken(Packet(payload), e.lack)]
      ensures code == 0 ==> sent == old(sent) + [Packet(payload)]
      ensures Asked(c, e, old(conn.pending), conn.ending, garbage, old(rx[..])) == Heard(code, rx[..], conn.pending)
    {
      assert Taken(Packet(payload), 0) == Packet(payload);
      code := SendPacket(payload, e);
      if code != 0 {
        return;
      }
      var size;
      code, size := Read(rx, garbage);
      if code == 0 {
        code := if c.Query? then QueryCode(rx[..], c.dtype) else PanelCode(rx[..]);
      }
    }

    /** A call that sends one command and checks its acknowledgement. */
    method SetOne(cmd: byte, sub: byte, args: seq<byte>, failed: int, e: Exchange, garbage: byte, junk: seq<byte>)
      returns (code: int, ghost r: Result)
      requires |args| <= 8 && |junk| == BUFFER
      requires Fits(conn.pending + e.answer, conn.ending, garbage)
      modifies this, conn
      ensures sent == old(sent) + [Taken(Packet([cmd, sub] + args), e.lack)]
      ensures e.lack != 0 ==> code == SEND_FAILED && conn.pending == old(conn.pending) + e.answer
      ensures e.lack == 0 ==>
        && Perform(Setter(cmd, sub, failed), old(conn.pending) + e.answer, conn.ending, garbage, junk) == Some(r)
        && code == r.code && conn.pending == r.rest
    {
      r := Result(0, [], 0, []);
      code := SendPacket([cmd, sub] + args, e);
      if code != 0 {
        return;
      }
      var rx := new byte[BUFFER](i requires 0 <= i < BUFFER => junk[i]);
      assert rx[..] == junk;
      r := ReadOne(conn.pending, conn.ending, garbage, junk);
      var size;
      code, size := Read(rx, garbage);
      if code == 0 {
        code := CheckAck(rx, size, cmd, sub, failed);
        r := r.(code := code);
      }
    }

    /** The loop of `AVCOM_SA_Trigger`: reads packets while the status byte is 3. The source sets no limit:
        `limit` is the number of rounds that are looked at, after which the loop may still be running. */
    method AwaitStatus(rx: array<byte>, garbage: byte, limit: nat) returns (ended: bool, code: int, size: nat)
      requires rx.Length == BUFFER && Fits(conn.pending, conn.ending, garbage)
      modifies conn, rx
      ensures var r := Rounds(limit, ReaderOf(conn.ending, garbage), old(conn.pending), old(rx[..]));
        && (ended <==> r.Some?)
        && (ended ==> code == r.value.code && rx[..] == r.value.rx && conn.pending == r.value.rest)
        && (ended && code == 0 ==> size == r.value.size)
      ensures limit > |old(conn.pending)| ==>
        (ended <==> TriggerLoop(old(conn.pending), conn.ending, garbage, old(rx[..])).Some?)
    {
      TriggerSpins(limit, conn.pending, conn.ending, garbage, rx[..]);
      ended, code, size := AwaitRounds(rx, garbage, limit);
    }

    /** One round: a packet is read, and the loop goes on if its status is 3. */
    method AwaitOne(rx: array<byte>, garbage: byte, ghost limit: nat)
      returns (code: int, size: nat, loop: bool, ghost r: Result)
      requires rx.Length == BUFFER && Fits(conn.pending, conn.ending, garbage) && limit > 0
      modifies conn, rx
      ensures r.code == code && r.rx == rx[..] && r.rest == conn.pending && (code == 0 ==> r.size == size)
      ensures Rounds(limit, ReaderOf(conn.ending, garbage), old(conn.pending), old(rx[..])) ==
        if loop then Rounds(limit - 1, ReaderOf(conn.ending, garbage), conn.pending, rx[..]) else Some(r)
      ensures loop ==> code == 0 && Fits(conn.pending, conn.ending, garbage)
    {
      r := ReadOne(conn.pending, conn.ending, garbage, rx[..]);
      FetchFits(conn.pending, conn.ending, garbage, rx[..], r);
      RoundsStep(limit, ReaderOf(conn.ending, garbage), conn.pending, rx[..], r);
      code, size := Read(rx, garbage);
      loop := code == 0 && rx[6] == 3;
    }

    method AwaitRounds(rx: array<byte>, garbage: byte, limit: nat) returns (ended: bool, code: int, size: nat)
      requires rx.Length == BUFFER && Fits(conn.pending, conn.ending, garbage)
      modifies conn, rx
      ensures var r := Rounds(limit, ReaderOf(conn.ending, garbage), old(conn.pending), old(rx[..]));
        && (ended <==> r.Some?)
        && (ended ==> code == r.value.code && rx[..] == r.value.rx && conn.pending == r.value.rest)
        && (ended && code == 0 ==> size == r.value.size)
    {
      ghost var read := ReaderOf(conn.ending, garbage);
      ghost var outcome := Rounds(limit, read, conn.pending, rx[..]);
      code, size := 0, 0;
      var k := 0;
      while k < limit
        invariant k <= limit && Fits(conn.pending, conn.ending, garbage)
        invariant Rounds(limit - k, read, conn.pending, rx[..]) == outcome
      {
        var loop;
        ghost var r;
        code, size, loop, r := AwaitOne(rx, garbage, limit - k);
        if !loop {
          return true, code, size;
        }
        k := k + 1;
      }
      ended := false;
    }

    /** `AVCOM_SA_Trigger`, looked at for so many rounds of its loop. */
    method Trigger(flags: int, e: Exchange, limit: nat, garbage: byte, junk: seq<byte>)
      returns (ended: bool, code: int, ghost r: Result)
      requires |junk| == BUFFER && Fits(conn.pending + e.answer, conn.ending, garbage)
      modifies this, conn
      ensures flags != 0 ==> ended && code == INVALID_FLAG && conn.pending == old(conn.pending) && sent == old(sent)
      ensures flags == 0 ==> sent == old(sent) + [Taken(Packet([API_CMDS, API_TRIGGER, 0]), e.lack)]
      ensures flags == 0 && e.lack != 0 ==> ended && code == SEND_FAILED && conn.pending == old(conn.pending) + e.answer
      ensures flags == 0 && e.lack == 0 ==>
        var p := Perform(SessionSpec.Trigger, old(conn.pending) + e.answer, conn.ending, garbage, junk);
        && (ended ==> p == Some(r) && code == r.code && conn.pending == r.rest)
        && (limit > |old(conn.pending) + e.answer| ==> (ended <==> p.Some?))
    {
      r := Result(0, [], 0, []);
      if flags != 0 {
        return true, INVALID_FLAG, r;
      }
      code := SendPacket([API_CMDS, API_TRIGGER, 0], e);
      if code != 0 {
        return true, code, r;
      }
      var rx := new byte[BUFFER](i requires 0 <= i < BUFFER => junk[i]);
      assert rx[..] == junk;
      ghost var s := conn.pending;
      TriggerSpins(limit, s, conn.ending, garbage, junk);
      var size;
      ended, code, size := AwaitStatus(rx, garbage, limit);
      if ended {
        r := TriggerLoop(s, conn.ending, garbage, junk).value;
        if code == 0 {
          code := CheckAck(rx, size, API_CMDS, API_TRIGGER, SET_SWEEP_FAILED);
          r := r.(code := code);
        }
      }
    }

    /** The waveform request and the reading of its answer. */
    method RequestSpectrum(e: Exchange, rx: array<byte>, garbage: byte) returns (code: int, ghost r: Result)
      requires rx.Length == BUFFER && Fits(conn.pending + e.answer, conn.ending, garbage)
      modifies this, conn, rx
      ensures sent == old(sent) + [Taken(Packet(WAVEFORM_REQUEST), e.lack)] && |r.rx| == BUFFER
      ensures e.lack != 0 ==> code == SEND_FAILED && conn.pending == old(conn.pending) + e.answer
      ensures e.lack == 0 ==>
        && Perform(Spectrum, old(conn.pending) + e.answer, conn.ending, garbage, old(rx[..])) == Some(r)
        && code == r.code && rx[..] == r.rx && conn.pending == r.rest
    {
      r := Result(0, rx[..], 0, []);
      code := SendPacket(WAVEFORM_REQUEST, e);
      if code != 0 {
        return;
      }
      r := ReadOne(conn.pending, conn.ending, garbage, rx[..]);
      var size;
      code, size := Read(rx, garbage);
    }

    /** `AVCOM_SA_GetSpectrumData`. */
    method GetSpectrumData(h: Handle, amplitude: array<real>, frequency: array<real>, bits: int, cf: int, sp: int,
                           e: Exchange, garbage: byte, junk: seq<byte>) returns (code: int, ghost r: Result)
      requires amplitude.Length == POINTS && frequency.Length == POINTS && amplitude != frequency
      requires bits == 32 || bits == 64
      requires |junk| == BUFFER && Fits(conn.pending + e.answer, conn.ending, garbage)
      modifies this, conn, h`current, amplitude, frequency
      ensures sent == old(sent) + [Taken(Packet(WAVEFORM_REQUEST), e.lack)]
      ensures |r.rx| == BUFFER
      ensures e.lack != 0 ==> code == SEND_FAILED && conn.pending == old(conn.pending) + e.answer
      ensures e.lack == 0 ==>
        && Perform(Spectrum, old(conn.pending) + e.answer, conn.ending, garbage, junk) == Some(r)
        && code == r.code && conn.pending == r.rest
      ensures
        var before := Trace(old(h.current), old(amplitude[..]), old(frequency[..]));
        Trace(h.current, amplitude[..], frequency[..]) ==
          if code == 0 then TraceOf(h.hardware.firmware, r.rx, bits, before, cf, sp) else before
    {
      var rx := new byte[BUFFER](i requires 0 <= i < BUFFER => junk[i]);
      assert rx[..] == junk;
      code, r := RequestSpectrum(e, rx, garbage);
      if code == 0 {
        h.StoreSpectrum(rx, amplitude, frequency, bits, cf, sp);
      }
    }

    /** `AVCOM_SA_SetAllSettings`: the exchanges of its two requests. */
    method SetAllSettings(h: Handle, q: Request, change: Exchange, wave: Exchange, garbage: byte, junk: seq<byte>)
      returns (code: int, ghost r: Result)
      requires |h.inputs| == 6 && h.hardware.availInputs <= 6
      requires |junk| == BUFFER && Fits(conn.pending + change.answer + wave.answer, conn.ending, garbage)
      modifies this, conn, h`current
      ensures var check := Check(h.hardware, h.limits, h.inputs, q);
        var packet := ChangeFrame(ToWire(h.hardware.firmware, q));
        && (check != 0 ==>
            code == check && sent == old(sent) && conn.pending == old(conn.pending) && h.current == old(h.current))
        && (check == 0 && change.lack != 0 ==>
            && code == SEND_FAILED && sent == old(sent) + [Taken(packet, change.lack)]
            && conn.pending == old(conn.pending) + change.answer && h.current == old(h.current))
        && (check == 0 && change.lack == 0 ==>
            sent == old(sent) + [packet, Taken(Packet(WAVEFORM_REQUEST), wave.lack)])
        && (check == 0 && change.lack == 0 && wave.lack != 0 ==>
            && code == SEND_FAILED && conn.pending == old(conn.pending) + change.answer + wave.answer
            && h.current == old(h.current))
        && (check == 0 && change.lack == 0 && wave.lack == 0 ==>
            && var s := old(conn.pending) + change.answer + wave.answer;
            && Perform(ChangeAll, s, conn.ending, garbage, junk) == Some(r)
            && code == r.code && conn.pending == r.rest
            && h.current == if code == 0 then old(h.current).(input := q.input) else old(h.current))
    {
      r := Result(0, [], 0, []);
      code := Check(h.hardware, h.limits, h.inputs, q);
      if code != 0 {
        return;
      }
      var tx := new byte[64];
      var k := BuildChange(tx, ToWire(h.hardware.firmware, q));
      code := SendData(tx, k, change);
      if code != 0 {
        return;
      }
      assert Taken(tx[..k], 0) == tx[..k];
      code := SendPacket(WAVEFORM_REQUEST, wave);
      assert sent == old(sent) + [tx[..k], Taken(Packet(WAVEFORM_REQUEST), wave.lack)];
      if code != 0 {
        return;
      }
      var rx := new byte[BUFFER](i requires 0 <= i < BUFFER => junk[i]);
      assert rx[..] == junk;
      r := ReadOne(conn.pending, conn.ending, garbage, junk);
      var size;
      code, size := Read(rx, garbage);
      if code == 0 {
        h.current := h.current.(input := q.input);
      }
    }
  }
}

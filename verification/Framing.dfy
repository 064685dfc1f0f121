/** The CSW byte stream: frames, the byte-at-a-time receiver, and reassembly of whole streams. */
module Framing {
  import opened Bytes

  const STX: byte := 0x02
  const ETX: byte := 0x03

  /** What `recv` reports once the bytes that arrive are used up: 0 (orderly close) or an error. */
  datatype Ending = Closed | Failed(error: Errno)

  type Errno = e: int | e != 0 witness 1

  // --- The frame grammar ---

  /** LEN of a header at p. */
  function LenAt(s: seq<byte>, p: nat): (n: nat)
    requires p + 3 <= |s|
  {
    Word16(s, p + 1)
  }

  /** Bytes the receiver takes for a header at p: at least one byte follows it. */
  function SizeAt(s: seq<byte>, p: nat): (n: nat)
    requires p + 3 <= |s|
  {
    (if LenAt(s, p) < 1 then 1 else LenAt(s, p)) + 3
  }

  function Declared(f: seq<byte>): nat
    requires |f| >= 3
  {
    SizeAt(f, 0)
  }

  predicate IsFrame(f: seq<byte>) {
    |f| >= 3 && f[0] == STX && |f| == Declared(f)
  }

  /** A frame of the protocol: LEN counts DTYPE and ETX, so it is at least 2, and ETX is last. */
  predicate WellFormed(f: seq<byte>) {
    IsFrame(f) && LenAt(f, 0) >= 2 && f[|f| - 1] == ETX
  }

  function StxFrom(s: seq<byte>, i: nat): (p: nat)
    requires i <= |s|
    ensures i <= p <= |s|
    ensures forall k :: i <= k < p ==> s[k] != STX
    ensures p < |s| ==> s[p] == STX
    decreases |s| - i
  {
    if i == |s| || s[i] == STX then i else StxFrom(s, i + 1)
  }

  /** The position of the first STX, or the length. */
  function FirstStx(s: seq<byte>): (p: nat)
    ensures p <= |s|
    ensures forall k :: 0 <= k < p ==> s[k] != STX
    ensures p < |s| ==> s[p] == STX
  {
    StxFrom(s, 0)
  }

  lemma FirstStxIs(s: seq<byte>, p: nat)
    requires p <= |s| && (forall k :: 0 <= k < p ==> s[k] != STX) && (p < |s| ==> s[p] == STX)
    ensures FirstStx(s) == p
  {
  }

  /** The stream holds a whole frame after its noise. */
  predicate Complete(s: seq<byte>) {
    var p := FirstStx(s);
    p + 3 <= |s| && p + SizeAt(s, p) <= |s|
  }

  /** One past the first frame of the stream. */
  function FrameEnd(s: seq<byte>): (e: nat)
    requires Complete(s)
    ensures FirstStx(s) + 4 <= e <= |s|
  {
    FirstStx(s) + SizeAt(s, FirstStx(s))
  }

  lemma FrameInside(s: seq<byte>, p: nat, e: nat)
    requires Complete(s) && p == FirstStx(s) && e == FrameEnd(s)
    ensures IsFrame(s[p..e])
  {
  }

  // --- One call of the receiver ---

  /** Result code, bytes stored from the start of the buffer, and the unread stream. */
  datatype Received = Received(code: int, data: seq<byte>, rest: seq<byte>)

  /** On a stream without a whole frame the byte variable is examined once more after the stream
      ends, still holding the last byte read (or its initial garbage). */
  function Leftover(s: seq<byte>, garbage: byte): seq<byte> {
    var p := FirstStx(s);
    if p < |s| then s[p..] + [s[|s| - 1]]
    else if s == [] && garbage == STX then [STX]
    else []
  }

  /** The result code of a call whose last `recv` ran into the end of the stream. */
  function Code(ending: Ending): int {
    if ending.Closed? then 0 else ending.error
  }

  function Receive(s: seq<byte>, ending: Ending, garbage: byte): Received {
    if Complete(s) then Received(0, s[FirstStx(s)..FrameEnd(s)], s[FrameEnd(s)..])
    else Received(Code(ending), Leftover(s, garbage), [])
  }

  /** LEN 0 and LEN 1 take one byte behind the header. */
  lemma ShortestFrame(len: byte, b: byte, rest: seq<byte>, s: seq<byte>, ending: Ending, garbage: byte)
    requires len < 2 && s == [0x02, 0x00, len, b] + rest
    ensures Receive(s, ending, garbage) == Received(0, [0x02, 0x00, len, b], rest)
  {
    FirstStxIs(s, 0);
    assert s[0..4] == [0x02, 0x00, len, b] && s[4..] == rest;
  }

  /** An error of the socket is reported exactly if no whole frame comes before it; then everything is used up.
      With nothing to read, the byte that happens to be in the variable counts if it is STX. */
  lemma ErrorReported(s: seq<byte>, e: Errno, garbage: byte)
    ensures Receive(s, Failed(e), garbage).code == (if Complete(s) then 0 else e)
    ensures !Complete(s) ==> Receive(s, Failed(e), garbage).rest == []
    ensures Receive([], Closed, garbage) == Received(0, if garbage == 0x02 then [0x02] else [], [])
  {
  }

  // --- The receiver's automaton, byte by byte ---

  predicate Full(got: seq<byte>) {
    |got| >= 4 && |got| >= Declared(got)
  }

  /** Bytes are dropped until the first STX, and stored from there on. */
  function Store(got: seq<byte>, b: byte): seq<byte> {
    if got != [] || b == STX then got + [b] else []
  }

  /** The rest of a call that has stored `got` and last read `onedata`. */
  function Scan(s: seq<byte>, got: seq<byte>, onedata: byte, ending: Ending): (r: Received)
    ensures |got| <= |r.data|
    decreases |s|
  {
    if s == [] then
      Received(Code(ending), Store(got, onedata), [])
    else if Full(Store(got, s[0])) then
      Received(0, Store(got, s[0]), s[1..])
    else
      Scan(s[1..], Store(got, s[0]), s[0], ending)
  }

  /** The counters of the loop: bytes stored, LEN and the bytes behind the header. */
  predicate Counts(got: seq<byte>, i: int, j: int, packlen: int) {
    i == |got| && (i >= 3 ==> packlen == LenAt(got, 0) && j == i - 3)
  }

  /** The third byte stored completes LEN; from the fourth on they tell when the frame is full. */
  lemma CountsStored(got: seq<byte>, b: byte, i: int, j: int, packlen: int)
    requires Counts(got, i, j, packlen)
    ensures var next := got + [b];
      if i + 1 == 3 then Counts(next, 3, 0, LenAt(next, 0)) && !Full(next)
      else if i + 1 > 3 then Counts(next, i + 1, j + 1, packlen) && (Full(next) <==> j + 1 >= packlen)
      else Counts(next, i + 1, j, packlen) && !Full(next)
  {
  }

  /** What is left to scan after one more byte, or after the stream has ended. */
  lemma ScanStep(s: seq<byte>, got: seq<byte>, onedata: byte, ending: Ending)
    ensures s != [] && !Full(Store(got, s[0])) ==>
      Scan(s, got, onedata, ending) == Scan(s[1..], Store(got, s[0]), s[0], ending)
    ensures s != [] && Full(Store(got, s[0])) ==> Scan(s, got, onedata, ending) == Received(0, Store(got, s[0]), s[1..])
    ensures s == [] ==> Scan(s, got, onedata, ending) == Received(Code(ending), Store(got, onedata), [])
  {
  }

  /** What is left of a call that has synchronised on f: the declared bytes of f, or all and the last again. */
  predicate Collected(f: seq<byte>, ending: Ending, r: Received)
    requires f != []
  {
    r == if |f| >= 3 && |f| >= Declared(f) then Received(0, f[..Declared(f)], f[Declared(f)..])
         else Received(Code(ending), f + [f[|f| - 1]], [])
  }

  /** Once synchronised, the automaton takes the declared number of bytes. */
  lemma {:induction false} ScanCollects(s: seq<byte>, got: seq<byte>, onedata: byte, ending: Ending,
                                        f: seq<byte>, r: Received)
    requires got != [] && got[|got| - 1] == onedata && !Full(got)
    requires f == got + s && r == Scan(s, got, onedata, ending)
    ensures Collected(f, ending, r)
    decreases |s|
  {
    if s == [] {
      assert f == got;
    } else {
      var next := got + [s[0]];
      assert next + s[1..] == f;
      if Full(next) {
        assert Declared(f) == Declared(next) == |next| && f[..|next|] == next && f[|next|..] == s[1..];
      } else {
        ScanCollects(s[1..], next, s[0], ending, f, r);
      }
    }
  }

  lemma SkipOne(s: seq<byte>)
    requires s != [] && s[0] != STX
    ensures FirstStx(s) == 1 + FirstStx(s[1..])
    ensures Complete(s) == Complete(s[1..])
    ensures Complete(s) ==> FrameEnd(s) == 1 + FrameEnd(s[1..])
  {
    FirstStxIs(s, 1 + FirstStx(s[1..]));
  }

  /** Slices of a stream, counted from its second byte. */
  lemma TailSlices(s: seq<byte>, t: seq<byte>, p: nat, e: nat)
    requires s != [] && t == s[1..] && p <= e <= |t|
    ensures s[p + 1..e + 1] == t[p..e] && s[e + 1..] == t[e..] && s[p + 1..] == t[p..]
  {
    assert |t| == |s| - 1 && forall k :: 0 <= k < |t| ==> t[k] == s[k + 1];
    assert s[e + 1..] == t[e..];
  }

  lemma FrameSkips(s: seq<byte>, t: seq<byte>, garbage: byte, ending: Ending, b: byte)
    requires s != [] && t == s[1..] && Complete(s) && Complete(t)
    requires FirstStx(s) == 1 + FirstStx(t) && FrameEnd(s) == 1 + FrameEnd(t)
    ensures Receive(s, ending, garbage) == Receive(t, ending, b)
  {
    TailSlices(s, t, FirstStx(t), FrameEnd(t));
  }

  lemma LeftoverSkips(s: seq<byte>, t: seq<byte>, garbage: byte)
    requires s != [] && t == s[1..] && s[0] != STX && FirstStx(s) == 1 + FirstStx(t)
    ensures Leftover(s, garbage) == Leftover(t, s[0])
  {
    TailSlices(s, t, FirstStx(t), |t|);
  }

  lemma ReceiveSkips(s: seq<byte>, garbage: byte, ending: Ending)
    requires s != [] && s[0] != STX
    ensures Receive(s, ending, garbage) == Receive(s[1..], ending, s[0])
  {
    SkipOne(s);
    if Complete(s) {
      FrameSkips(s, s[1..], garbage, ending, s[0]);
    } else {
      LeftoverSkips(s, s[1..], garbage);
    }
  }

  lemma ReceiveSynced(s: seq<byte>, garbage: byte, ending: Ending)
    requires s != [] && s[0] == STX
    ensures Collected(s, ending, Receive(s, ending, garbage))
  {
    FirstStxIs(s, 0);
    assert s[0..] == s;
  }

  lemma ScanSynced(s: seq<byte>, garbage: byte, ending: Ending)
    requires s != [] && s[0] == STX
    ensures Scan(s, [], garbage, ending) == Receive(s, ending, garbage)
  {
    ReceiveSynced(s, garbage, ending);
    assert Store([], s[0]) == [s[0]] && [s[0]] + s[1..] == s;
    ScanCollects(s[1..], [s[0]], s[0], ending, s, Scan(s[1..], [s[0]], s[0], ending));
  }

  /** The automaton computes the declarative description of a call. */
  lemma {:induction false} ScanIsReceive(s: seq<byte>, garbage: byte, ending: Ending)
    ensures Scan(s, [], garbage, ending) == Receive(s, ending, garbage)
    decreases |s|
  {
    if s != [] {
      if s[0] == STX {
        ScanSynced(s, garbage, ending);
      } else {
        ReceiveSkips(s, garbage, ending);
        ScanIsReceive(s[1..], s[0], ending);
      }
    }
  }

  /** The socket: bytes the peer has sent or will send before the stream ends. */
  class Connection {
    var pending: seq<byte>
    const ending: Ending

    constructor (pending: seq<byte>, ending: Ending)
      ensures this.pending == pending && this.ending == ending
    {
      this.pending := pending;
      this.ending := ending;
    }

    /** `recv(fd, &onedata, 1, 0)`: the byte variable keeps its value when nothing is read. */
    method Recv(onedata: byte) returns (result: int, b: byte)
      modifies this
      ensures old(pending) != [] ==> result == 1 && b == old(pending)[0] && pending == old(pending)[1..]
      ensures old(pending) == [] ==> b == onedata && pending == []
      ensures old(pending) == [] ==> result == if ending.Closed? then 0 else -1
    {
      if pending != [] {
        result, b, pending := 1, pending[0], pending[1..];
      } else {
        result, b := if ending.Closed? then 0 else -1, onedata;
      }
    }

    /** Stores one byte behind the i bytes stored so far, and counts. */
    method Take(data: array<byte>, b: byte, i: nat, j: int, packlen: int, ghost got: seq<byte>)
      returns (next: nat, behind: int, len: int, full: bool)
      requires i < data.Length && Counts(got, i, j, packlen) && forall k :: 0 <= k < i ==> data[k] == got[k]
      modifies data
      ensures next == i + 1 && data[i] == b && forall k :: 0 <= k < data.Length && k != i ==> data[k] == old(data[k])
      ensures Counts(got + [b], next, behind, len) && (full <==> Full(got + [b]))
    {
      CountsStored(got, b, i, j, packlen);
      data[i] := b;
      next, behind, len, full := i + 1, j, packlen, false;
      if next == 3 {
        behind := 0;
        len := data[1] as int * 0x100 + data[2];
      }
      if next > 3 {
        behind := behind + 1;
        if behind >= len {
          full := true;
        }
      }
    }

    /** `AOV_recData`. The size is reported only on success. */
    method RecData(data: array<byte>, garbage: byte) returns (code: int, size: Option<nat>)
      requires |Receive(pending, ending, garbage).data| <= data.Length
      modifies this, data
      ensures var r := Receive(old(pending), ending, garbage);
        && code == r.code
        && pending == r.rest
        && data[..] == r.data + old(data[|r.data|..])
        && size == if code == 0 then Some(|r.data|) else None
    {
      ScanIsReceive(pending, garbage, ending);
      code, size := ScanInto(data, garbage);
    }

    /** The loop. */
    method ScanInto(data: array<byte>, garbage: byte) returns (code: int, size: Option<nat>)
      requires |Scan(pending, [], garbage, ending).data| <= data.Length
      modifies this, data
      ensures var r := Scan(old(pending), [], garbage, ending);
        && code == r.code
        && pending == r.rest
        && data[..] == r.data + old(data[|r.data|..])
        && size == if code == 0 then Some(|r.data|) else None
    {
      ghost var outcome, before, got := Scan(pending, [], garbage, ending), data[..], [];
      var onedata := garbage;
      var iResult := 1;
      var started, full := false, false;
      var i, j, packlen := 0, 0, 0;
      var again := true;
      while again
        invariant again ==> iResult == 1 && !full && outcome == Scan(pending, got, onedata, ending)
        invariant !again ==> outcome == Received(if iResult < 0 then Code(ending) else 0, got, pending)
        invariant iResult < 0 ==> ending.Failed?
        invariant (started <==> got != []) && Counts(got, i, j, packlen) && i <= |outcome.data|
        invariant forall k :: 0 <= k < i ==> data[k] == got[k]
        invariant forall k :: i <= k < data.Length ==> data[k] == before[k]
        decreases |pending|, again
      {
        ScanStep(pending, got, onedata, ending);
        ghost var had := got;
        iResult, onedata := Recv(onedata);
        got := Store(got, onedata);
        if onedata == STX && !started {
          started := true;
        }
        if started {
          i, j, packlen, full := Take(data, onedata, i, j, packlen, had);
        }
        again := iResult > 0 && !full;
      }
      assert data[..] == got + before[i..];
      if iResult < 0 {
        return Code(ending), None;
      }
      return 0, Some(i);
    }
  }
}

/** Whole streams: repeated receiver calls cut a stream into exactly the frames that were sent. */
module Reassembly {
  import opened Bytes
  import opened Framing

  /** One frame and the line noise in front of it. */
  datatype Item = Item(noise: seq<byte>, frame: seq<byte>)

  predicate Sendable(it: Item) {
    STX !in it.noise && IsFrame(it.frame)
  }

  predicate AllSendable(items: seq<Item>) {
    forall i :: 0 <= i < |items| ==> Sendable(items[i])
  }

  function Encode(items: seq<Item>): seq<byte> {
    if items == [] then [] else items[0].noise + items[0].frame + Encode(items[1..])
  }

  function First(s: seq<byte>): Item
    requires Complete(s)
  {
    Item(s[..FirstStx(s)], s[FirstStx(s)..FrameEnd(s)])
  }

  function Rest(s: seq<byte>): (t: seq<byte>)
    requires Complete(s)
    ensures |t| < |s|
  {
    s[FrameEnd(s)..]
  }

  /** The frames a stream holds, and what is left unread after the last one. */
  datatype Decoded = Decoded(items: seq<Item>, rest: seq<byte>)

  function Push(it: Item, d: Decoded): Decoded {
    Decoded([it] + d.items, d.rest)
  }

  /** The results of calling the receiver for as long as the stream holds a whole frame. */
  function Decode(s: seq<byte>): Decoded
    decreases |s|
  {
    if Complete(s) then Push(First(s), Decode(Rest(s))) else Decoded([], s)
  }

  /** One call of the receiver on a stream. */
  type Receiver = seq<byte> -> Received

  function ReceiverOf(ending: Ending, garbage: byte): Receiver {
    s => Receive(s, ending, garbage)
  }

  /** The outcome of call number i (from 0) of the receiver on one stream. */
  function Call(receiver: Receiver, s: seq<byte>, i: nat): Received
    decreases i
  {
    if i == 0 then receiver(s) else receiver(Call(receiver, s, i - 1).rest)
  }

  /** A stream in three parts: noise, a frame, and what follows. */
  predicate Parts(s: seq<byte>, it: Item, t: seq<byte>) {
    s == it.noise + it.frame + t
  }

  lemma PartsAt(s: seq<byte>, it: Item, t: seq<byte>)
    requires Parts(s, it, t)
    ensures var n, m := |it.noise|, |it.frame|;
      && |s| == n + m + |t| && s[..n] == it.noise && s[n..n + m] == it.frame && s[n + m..] == t
      && (forall k :: 0 <= k < n ==> s[k] == it.noise[k]) && (forall k :: 0 <= k < m ==> s[n + k] == it.frame[k])
  {
  }

  lemma PartsOf(s: seq<byte>, p: nat, e: nat)
    requires p <= e <= |s|
    ensures Parts(s, Item(s[..p], s[p..e]), s[e..])
  {
  }

  lemma PartsGrow(s: seq<byte>, it: Item, r: seq<byte>, t: seq<byte>, u: seq<byte>, w: seq<byte>)
    requires Parts(s, it, r) && u == s + t && w == r + t
    ensures Parts(u, it, w)
  {
  }

  lemma NoStx(s: seq<byte>, p: nat)
    requires p <= |s| && forall k :: 0 <= k < p ==> s[k] != STX
    ensures STX !in s[..p]
  {
  }

  lemma FirstAndRest(s: seq<byte>)
    requires Complete(s)
    ensures Sendable(First(s)) && Parts(s, First(s), Rest(s))
  {
    FrameInside(s, FirstStx(s), FrameEnd(s));
    NoStx(s, FirstStx(s));
    PartsOf(s, FirstStx(s), FrameEnd(s));
  }

  /** The receiver finds a frame behind its noise, whatever the frame's payload contains. */
  lemma FrameFound(it: Item, t: seq<byte>, s: seq<byte>)
    requires Sendable(it) && Parts(s, it, t)
    ensures Complete(s) && FirstStx(s) == |it.noise| && First(s) == it && Rest(s) == t
  {
    var n := |it.noise|;
    PartsAt(s, it, t);
    FirstStxIs(s, n);
    assert s[n + 1] == it.frame[1] && s[n + 2] == it.frame[2];
  }

  /** A stream of frames, and a tail behind them. */
  predicate Streams(s: seq<byte>, items: seq<Item>, tail: seq<byte>) {
    s == Encode(items) + tail
  }

  lemma StreamParts(s: seq<byte>, items: seq<Item>, tail: seq<byte>, t: seq<byte>)
    requires items != [] && Streams(t, items[1..], tail)
    ensures Streams(s, items, tail) <==> Parts(s, items[0], t)
  {
  }

  /** A frame is found after exactly its noise if and only if the noise is free of STX. */
  lemma NoiseLimit(noise: seq<byte>, frame: seq<byte>, t: seq<byte>, s: seq<byte>)
    requires IsFrame(frame) && Parts(s, Item(noise, frame), t)
    ensures (Complete(s) && First(s) == Item(noise, frame)) <==> STX !in noise
  {
    if STX !in noise {
      FrameFound(Item(noise, frame), t, s);
    } else {
      var k :| 0 <= k < |noise| && noise[k] == STX;
      PartsAt(s, Item(noise, frame), t);
      assert s[k] == STX;
    }
  }

  /** Reassembly: everything sent comes back, frame by frame and in order. */
  lemma {:induction false} DecodeEncode(items: seq<Item>, tail: seq<byte>, s: seq<byte>)
    requires AllSendable(items)
    requires !Complete(tail) && Streams(s, items, tail)
    ensures Decode(s) == Decoded(items, tail)
    decreases |items|
  {
    if items == [] {
      assert s == tail;
    } else {
      var t := Encode(items[1..]) + tail;
      StreamParts(s, items, tail, t);
      FrameFound(items[0], t, s);
      DecodeEncode(items[1..], tail, t);
      assert [items[0]] + items[1..] == items;
    }
  }

  lemma PushFirst(s: seq<byte>, d: Decoded)
    requires Complete(s) && Streams(Rest(s), d.items, d.rest) && AllSendable(d.items)
    ensures var p := Push(First(s), d);
      Streams(s, p.items, p.rest) && AllSendable(p.items)
  {
    var items := [First(s)] + d.items;
    FirstAndRest(s);
    assert items[1..] == d.items;
    StreamParts(s, items, d.rest, Rest(s));
  }

  /** No byte is lost or invented on any stream, and no whole frame is left behind. */
  lemma {:induction false} EncodeDecode(s: seq<byte>)
    ensures var d := Decode(s);
      Streams(s, d.items, d.rest) && !Complete(d.rest) && AllSendable(d.items)
    decreases |s|
  {
    if Complete(s) {
      EncodeDecode(Rest(s));
      PushFirst(s, Decode(Rest(s)));
    }
  }

  /** Framing is uniquely decodable. */
  lemma UniqueDecoding(s: seq<byte>, a: seq<Item>, ta: seq<byte>, b: seq<Item>, tb: seq<byte>)
    requires AllSendable(a)
    requires AllSendable(b)
    requires !Complete(ta) && !Complete(tb)
    requires Streams(s, a, ta) && Streams(s, b, tb)
    ensures a == b && ta == tb
  {
    DecodeEncode(a, ta, s);
    DecodeEncode(b, tb, s);
  }

  lemma CompleteGrows(s: seq<byte>, t: seq<byte>, u: seq<byte>)
    requires Complete(s) && u == s + t
    ensures Complete(u) && First(u) == First(s) && Rest(u) == Rest(s) + t
  {
    FirstAndRest(s);
    PartsGrow(s, First(s), Rest(s), t, u, Rest(s) + t);
    FrameFound(First(s), Rest(s) + t, u);
  }

  /** How the network splits the bytes does not matter: for a stream u in two parts, decoding the first and
      carrying its unread rest over to the second (v) gives the frames of the whole. */
  lemma {:induction false} Segmentation(s: seq<byte>, t: seq<byte>, u: seq<byte>, v: seq<byte>)
    requires u == s + t && v == Decode(s).rest + t
    ensures Decode(u) == Append(Decode(s).items, Decode(v))
    decreases |s|
  {
    if Complete(s) {
      CompleteGrows(s, t, u);
      Segmentation(Rest(s), t, Rest(u), v);
      PushAppend(First(s), Decode(Rest(s)).items, Decode(v));
    }
  }

  function Append(a: seq<Item>, d: Decoded): Decoded {
    Decoded(a + d.items, d.rest)
  }

  lemma PushAppend(it: Item, a: seq<Item>, d: Decoded)
    ensures Push(it, Append(a, d)) == Append([it] + a, d)
  {
  }

  /** The stream from frame i on. */
  function From(items: seq<Item>, tail: seq<byte>, i: nat): seq<byte>
    requires i <= |items|
  {
    Encode(items[i..]) + tail
  }

  /** Each call finds the next frame. */
  predicate InOrder(receiver: Receiver, items: seq<Item>, tail: seq<byte>) {
    forall k :: 0 <= k < |items| ==>
      receiver(From(items, tail, k)) == Received(0, items[k].frame, From(items, tail, k + 1))
  }

  lemma CallAt(items: seq<Item>, tail: seq<byte>, i: nat, ending: Ending, garbage: byte)
    requires AllSendable(items) && i < |items|
    ensures Receive(From(items, tail, i), ending, garbage) == Received(0, items[i].frame, From(items, tail, i + 1))
  {
    assert items[i..][1..] == items[i + 1..];
    FirstCall(items[i..], tail, From(items, tail, i), From(items, tail, i + 1), ending, garbage);
  }

  lemma {:induction false} CallsFrom(receiver: Receiver, items: seq<Item>, tail: seq<byte>, i: nat)
    requires InOrder(receiver, items, tail) && i < |items|
    ensures Call(receiver, From(items, tail, 0), i) == Received(0, items[i].frame, From(items, tail, i + 1))
    decreases i
  {
    if i > 0 {
      CallsFrom(receiver, items, tail, i - 1);
    }
  }

  /** Calls of the receiver on a stream of frames: call i succeeds with exactly frame i, and leaves
      exactly what was sent after it. */
  lemma CallsReturnFrames(items: seq<Item>, tail: seq<byte>, i: nat, ending: Ending, garbage: byte)
    requires AllSendable(items)
    requires i < |items|
    ensures Call(ReceiverOf(ending, garbage), Encode(items) + tail, i) ==
      Received(0, items[i].frame, Encode(items[i + 1..]) + tail)
  {
    forall k | 0 <= k < |items|
      ensures ReceiverOf(ending, garbage)(From(items, tail, k)) == Received(0, items[k].frame, From(items, tail, k + 1))
    {
      CallAt(items, tail, k, ending, garbage);
    }
    assert items[0..] == items;
    CallsFrom(ReceiverOf(ending, garbage), items, tail, i);
  }

  lemma FirstCall(items: seq<Item>, tail: seq<byte>, s: seq<byte>, t: seq<byte>, ending: Ending, garbage: byte)
    requires AllSendable(items) && items != [] && Streams(s, items, tail) && Streams(t, items[1..], tail)
    ensures Receive(s, ending, garbage) == Received(0, items[0].frame, t)
  {
    StreamParts(s, items, tail, t);
    ReceiveFirst(items[0], t, s, ending, garbage);
  }

  lemma ReceiveFirst(it: Item, t: seq<byte>, s: seq<byte>, ending: Ending, garbage: byte)
    requires Sendable(it) && Parts(s, it, t)
    ensures Receive(s, ending, garbage) == Received(0, it.frame, t)
  {
    FrameFound(it, t, s);
  }

  // --- Streams that end too early ---

  /** Success means that a whole frame was there, exactly if it was or the stream ends in an error: when the
      peer closes too early, at whatever point, the call succeeds all the same. */
  lemma SuccessMeansComplete(s: seq<byte>, ending: Ending, garbage: byte)
    ensures (Receive(s, ending, garbage).code == 0 ==> Complete(s)) <==> Complete(s) || ending.Failed?
  {
  }

  /** A closed connection with half a frame: the call succeeds with five bytes that are no frame. */
  lemma HalfFrameReported()
    ensures var s: seq<byte> := [2, 0, 9, 1];
      Receive(s, Closed, 0) == Received(0, [2, 0, 9, 1, 1], []) && !IsFrame([2, 0, 9, 1, 1])
  {
    var s: seq<byte> := [2, 0, 9, 1];
    FirstStxIs(s, 0);
    assert s[0..] == s;
  }

  /** What a successful call stored has the declared size of a frame exactly if the stream held one, or
      the peer closed one byte short of one: the last byte is then stored twice. */
  lemma DeclaredSizeReported(s: seq<byte>, ending: Ending, garbage: byte)
    ensures var r := Receive(s, ending, garbage);
      var f := s[FirstStx(s)..];
      (r.code == 0 && IsFrame(r.data)) <==>
        Complete(s) || (ending.Closed? && |f| >= 3 && |f| + 1 == Declared(f))
  {
  }

  /** A frame cut short by one byte that passes for a well-formed one. */
  lemma TruncationAccepted()
    ensures var s: seq<byte> := [2, 0, 2, 3];
      !Complete(s) && Receive(s, Closed, 0).code == 0 && WellFormed(Receive(s, Closed, 0).data)
  {
    var s: seq<byte> := [2, 0, 2, 3];
    FirstStxIs(s, 0);
    assert s[0..] == s;
  }
}

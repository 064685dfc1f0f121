/** Requests and answers stay in step over every run of calls with an analyzer that keeps the protocol;
    with any other analyzer the stream behaves as a queue. */
module LockStep {
  import opened Bytes
  import opened Framing
  import opened Reassembly
  import opened SessionSpec

  /** One call: the frames the analyzer sends because of it, and the arbitrary content of the call's
      receive buffer. */
  datatype Turn = Turn(call: Call, answer: seq<Item>, buf: seq<byte>)

  predicate Sized(items: seq<Item>) {
    forall i :: 0 <= i < |items| ==> |items[i].frame| <= BUFFER
  }

  predicate Legal(t: Turn) {
    AllSendable(t.answer) && Sized(t.answer) && |t.buf| == BUFFER
  }

  predicate HasStatus(it: Item) {
    |it.frame| >= 7
  }

  predicate Waiting(it: Item) {
    HasStatus(it) && it.frame[6] == 3
  }

  /** What the analyzer does for a trigger: status packets with 3, then one with another status. */
  predicate TriggerAnswer(items: seq<Item>) {
    && items != []
    && (forall i :: 0 <= i < |items| - 1 ==> Waiting(items[i]))
    && HasStatus(items[|items| - 1]) && !Waiting(items[|items| - 1])
  }

  /** The protocol: nothing for a call that is rejected before sending, one frame for any other, where
      setting everything provokes an answer to its second request only. */
  predicate Obeys(t: Turn) {
    Legal(t) &&
    match t.call
    case Rejected(_) => t.answer == []
    case Trigger => TriggerAnswer(t.answer)
    case _ => |t.answer| == 1
  }

  lemma {:induction false} ItemsFit(items: seq<Item>, ending: Ending, garbage: byte)
    requires AllSendable(items) && Sized(items)
    ensures Fits(Encode(items), ending, garbage)
    decreases |items|
  {
    if items != [] {
      ItemsFit(items[1..], ending, garbage);
      ReceiveFirst(items[0], Encode(items[1..]), Encode(items), ending, garbage);
    }
  }

  /** The outcome of a turn that starts with `unread` bytes left over. */
  function Do(t: Turn, unread: seq<byte>, ending: Ending, garbage: byte): Option<Result> {
    var s := unread + Encode(t.answer);
    if |t.buf| == BUFFER && Fits(s, ending, garbage) then Perform(t.call, s, ending, garbage, t.buf) else None
  }

  /** How a connection answers a turn that starts with some bytes unread. */
  type Answerer = (Turn, seq<byte>) -> Option<Result>

  function AnswererOf(ending: Ending, garbage: byte): Answerer {
    (t, unread) => Do(t, unread, ending, garbage)
  }

  /** The bytes left unread before turn k. */
  function Unread(peer: Answerer, turns: seq<Turn>, k: nat): seq<byte>
    requires k <= |turns|
    decreases k
  {
    if k == 0 then [] else Left(peer(turns[k - 1], Unread(peer, turns, k - 1)))
  }

  /** The outcome of turn k of a run. */
  function At(peer: Answerer, turns: seq<Turn>, k: nat): Option<Result>
    requires k < |turns|
  {
    peer(turns[k], Unread(peer, turns, k))
  }

  function Left(r: Option<Result>): seq<byte> {
    if r.Some? then r.value.rest else []
  }

  /** The call looked at exactly this frame. */
  predicate Saw(r: Result, frame: seq<byte>) {
    r.size == |frame| <= |r.rx| && r.rx[..r.size] == frame
  }

  lemma ReadItem(items: seq<Item>, ending: Ending, garbage: byte, buf: seq<byte>)
    requires AllSendable(items) && Sized(items) && items != [] && |buf| == BUFFER
    ensures Fits(Encode(items), ending, garbage)
    ensures var r := ReadOne(Encode(items), ending, garbage, buf);
      r.code == 0 && Saw(r, items[0].frame) && r.rest == Encode(items[1..])
      && r.rx == items[0].frame + buf[|items[0].frame|..]
  {
    ItemsFit(items, ending, garbage);
    ReceiveFirst(items[0], Encode(items[1..]), Encode(items), ending, garbage);
  }

  /** How many frames the loop of a trigger reads from a queue, given the status byte in its buffer: up to the
      first frame after which that byte is not 3. None if the queue does not hold it. */
  function TriggerNeeds(items: seq<Item>, status: byte): (n: Option<nat>)
    ensures n.Some? ==> 1 <= n.value <= |items|
    decreases |items|
  {
    if items == [] then None
    else if Status(items[0].frame, status) != 3 then Some(1)
    else match TriggerNeeds(items[1..], 3)
      case None => None
      case Some(n) => Some(n + 1)
  }

  /** A reader that finds frame after frame. */
  ghost predicate ReadsFrames(read: Reader) {
    forall items: seq<Item>, b: seq<byte> ::
      AllSendable(items) && Sized(items) && items != [] && |b| == BUFFER ==>
        read(Encode(items), b) ==
          Result(0, items[0].frame + b[|items[0].frame|..], |items[0].frame|, Encode(items[1..]))
  }

  lemma {:induction false} LoopReads(read: Reader, items: seq<Item>, buf: seq<byte>)
    requires ReadsFrames(read) && AllSendable(items) && Sized(items) && |buf| == BUFFER
    requires TriggerNeeds(items, buf[6]).Some?
    ensures var n, r := TriggerNeeds(items, buf[6]).value, Loop(read, Encode(items), buf);
      r.Some? && r.value.code == 0 && Saw(r.value, items[n - 1].frame) && r.value.rest == Encode(items[n..])
    decreases |items|
  {
    var r := read(Encode(items), buf);
    assert |Encode(items[1..])| < |Encode(items)|;
    if r.rx[6] == 3 {
      LoopReads(read, items[1..], r.rx);
      Behind(items, TriggerNeeds(items[1..], 3).value);
    }
  }

  lemma Behind(items: seq<Item>, n: nat)
    requires 1 <= n < |items|
    ensures items[1..][n - 1] == items[n] && items[1..][n..] == items[n + 1..]
  {
  }

  lemma ReaderReads(ending: Ending, garbage: byte)
    ensures ReadsFrames(ReaderOf(ending, garbage))
  {
    forall items: seq<Item>, b: seq<byte> | AllSendable(items) && Sized(items) && items != [] && |b| == BUFFER
      ensures ReaderOf(ending, garbage)(Encode(items), b) ==
        Result(0, items[0].frame + b[|items[0].frame|..], |items[0].frame|, Encode(items[1..]))
    {
      ReadItem(items, ending, garbage, b);
    }
  }

  /** The loop reads exactly as many frames as it needs. */
  lemma TriggerReads(items: seq<Item>, ending: Ending, garbage: byte, buf: seq<byte>)
    requires AllSendable(items) && Sized(items) && |buf| == BUFFER && TriggerNeeds(items, buf[6]).Some?
    ensures Fits(Encode(items), ending, garbage)
    ensures var n := TriggerNeeds(items, buf[6]).value;
      var r := TriggerLoop(Encode(items), ending, garbage, buf);
      r.Some? && r.value.code == 0 && Saw(r.value, items[n - 1].frame) && r.value.rest == Encode(items[n..])
  {
    ItemsFit(items, ending, garbage);
    ReaderReads(ending, garbage);
    LoopReads(ReaderOf(ending, garbage), items, buf);
  }

  /** A trigger that is answered as the protocol says reads its whole answer, whatever its buffer held. */
  lemma {:induction false} AnswerNeeded(items: seq<Item>, status: byte)
    requires TriggerAnswer(items)
    ensures TriggerNeeds(items, status) == Some(|items|)
    decreases |items|
  {
    if |items| > 1 {
      assert Waiting(items[0]);
      assert items[1..][|items| - 2] == items[|items| - 1];
      AnswerNeeded(items[1..], 3);
    }
  }

  /** The frame a call should look at: the last one of its answer. */
  function Expected(t: Turn): seq<byte> {
    if t.answer == [] then [] else t.answer[|t.answer| - 1].frame
  }

  /** The call has returned, has looked at the expected frame if it sent a request, and has left
      nothing unread. */
  predicate InStep(t: Turn, r: Option<Result>) {
    && r.Some? && |r.value.rx| == BUFFER && r.value.rest == []
    && (!t.call.Rejected? ==> Saw(r.value, Expected(t)))
  }

  /** A call that reads once, on a stream of frames. */
  lemma DoReads(t: Turn, unread: seq<byte>, items: seq<Item>, ending: Ending, garbage: byte)
    requires ReadsOnce(t.call) && |t.buf| == BUFFER
    requires AllSendable(items) && Sized(items) && items != [] && unread + Encode(t.answer) == Encode(items)
    ensures var r := Do(t, unread, ending, garbage);
      && r.Some? && |r.value.rx| == BUFFER && Saw(r.value, items[0].frame) && r.value.rest == Encode(items[1..])
      && r.value.rx == items[0].frame + t.buf[|items[0].frame|..]
      && (t.call.Query? ==> r.value.code == QueryCode(r.value.rx, t.call.dtype))
      && (t.call.Panel? ==> r.value.code == PanelCode(r.value.rx))
      && (t.call.Setter? ==>
          r.value.code == AckCode(r.value.rx, r.value.size, t.call.cmd, t.call.sub, t.call.failed))
  {
    ReadItem(items, ending, garbage, t.buf);
  }

  lemma AfterLoopSaw(outcome: Option<Result>, frame: seq<byte>)
    requires outcome.Some? && |outcome.value.rx| == BUFFER && Saw(outcome.value, frame)
    ensures var r := AfterLoop(outcome);
      r.Some? && |r.value.rx| == BUFFER && r.value.rest == outcome.value.rest && Saw(r.value, frame)
  {
  }

  lemma DoTrigger(t: Turn, ending: Ending, garbage: byte)
    requires Obeys(t) && t.call.Trigger?
    ensures InStep(t, Do(t, [], ending, garbage))
  {
    AnswerNeeded(t.answer, t.buf[6]);
    assert [] + Encode(t.answer) == Encode(t.answer);
    TriggerTakes(t, [], t.answer, ending, garbage);
    assert t.answer[|t.answer|..] == [];
    SawExpected(t, Do(t, [], ending, garbage));
  }

  lemma SawExpected(t: Turn, r: Option<Result>)
    requires t.answer != [] && Took(r, t.answer, |t.answer|) && t.answer[|t.answer|..] == []
    ensures InStep(t, r)
  {
  }

  /** The call has read n frames from the front of a queue. */
  predicate Took(r: Option<Result>, queue: seq<Item>, n: nat)
    requires n <= |queue|
  {
    match r
    case None => false
    case Some(x) => |x.rx| == BUFFER && x.rest == Encode(queue[n..]) && (n > 0 ==> Saw(x, queue[n - 1].frame))
  }

  lemma DoLoop(t: Turn, unread: seq<byte>, s: seq<byte>, ending: Ending, garbage: byte)
    requires t.call.Trigger? && |t.buf| == BUFFER && s == unread + Encode(t.answer) && Fits(s, ending, garbage)
    ensures Do(t, unread, ending, garbage) == AfterLoop(TriggerLoop(s, ending, garbage, t.buf))
  {
  }

  /** A trigger on a queue of frames. */
  lemma TriggerTakes(t: Turn, unread: seq<byte>, queue: seq<Item>, ending: Ending, garbage: byte)
    requires t.call.Trigger? && |t.buf| == BUFFER
    requires AllSendable(queue) && Sized(queue) && unread + Encode(t.answer) == Encode(queue)
    requires TriggerNeeds(queue, t.buf[6]).Some?
    ensures Took(Do(t, unread, ending, garbage), queue, TriggerNeeds(queue, t.buf[6]).value)
  {
    TriggerReads(queue, ending, garbage, t.buf);
    DoLoop(t, unread, Encode(queue), ending, garbage);
    var n := TriggerNeeds(queue, t.buf[6]).value;
    AfterLoopSaw(TriggerLoop(Encode(queue), ending, garbage, t.buf), queue[n - 1].frame);
  }

  lemma DoRejected(t: Turn, ending: Ending, garbage: byte)
    requires Obeys(t) && t.call.Rejected?
    ensures InStep(t, Do(t, [], ending, garbage))
  {
  }

  /** One turn in step. */
  lemma TurnInStep(t: Turn, ending: Ending, garbage: byte)
    requires Obeys(t)
    ensures InStep(t, Do(t, [], ending, garbage))
  {
    if t.call.Trigger? {
      DoTrigger(t, ending, garbage);
    } else if t.call.Rejected? {
      DoRejected(t, ending, garbage);
    } else {
      assert [] + Encode(t.answer) == Encode(t.answer);
      DoReads(t, [], t.answer, ending, garbage);
    }
  }

  predicate AllObey(turns: seq<Turn>) {
    forall i :: 0 <= i < |turns| ==> Obeys(turns[i])
  }

  lemma {:induction false} NothingUnread(peer: Answerer, turns: seq<Turn>, k: nat)
    requires k <= |turns| && forall i :: 0 <= i < k ==> Left(peer(turns[i], [])) == []
    ensures Unread(peer, turns, k) == []
    decreases k
  {
    if k > 0 {
      NothingUnread(peer, turns, k - 1);
    }
  }

  /** Lock step over every run of a protocol-keeping analyzer: no byte is unread before any call, so
      every call reads the answer to its own request. */
  lemma RunInStep(turns: seq<Turn>, k: nat, ending: Ending, garbage: byte)
    requires AllObey(turns) && k < |turns|
    ensures var peer := AnswererOf(ending, garbage);
      && Unread(peer, turns, k) == [] && Unread(peer, turns, k + 1) == []
      && InStep(turns[k], At(peer, turns, k))
  {
    var peer := AnswererOf(ending, garbage);
    forall i | 0 <= i < |turns|
      ensures InStep(turns[i], peer(turns[i], []))
    {
      TurnInStep(turns[i], ending, garbage);
    }
    NothingUnread(peer, turns, k);
    NothingUnread(peer, turns, k + 1);
  }

  // --- Any analyzer: the stream is a queue ---

  predicate ReadsOnce(c: Call) {
    !c.Trigger? && !c.Rejected?
  }

  lemma {:induction false} EncodeAppend(a: seq<Item>, b: seq<Item>)
    ensures Encode(a + b) == Encode(a) + Encode(b)
    decreases |a|
  {
    if a == [] {
      assert a + b == b;
    } else {
      assert (a + b)[1..] == a[1..] + b;
      EncodeAppend(a[1..], b);
    }
  }

  predicate AllLegal(turns: seq<Turn>) {
    forall i :: 0 <= i < |turns| ==> Legal(turns[i])
  }

  /** How many frames of a queue a call reads; None if the queue does not hold enough. */
  function Needs(t: Turn, queue: seq<Item>): (n: Option<nat>)
    ensures n.Some? ==> n.value <= |queue| && (n.value == 0 <==> t.call.Rejected?)
  {
    match t.call
    case Rejected(_) => Some(0)
    case Trigger => TriggerNeeds(queue, if |t.buf| > 6 then t.buf[6] else 0)
    case _ => if queue == [] then None else Some(1)
  }

  /** What is left of a queue after a call. */
  function Rest(t: Turn, queue: seq<Item>): seq<Item> {
    match Needs(t, queue)
    case None => []
    case Some(n) => queue[n..]
  }

  /** The frames left over before turn k. */
  function Backlog(turns: seq<Turn>, k: nat): seq<Item>
    requires k <= |turns|
    decreases k
  {
    if k == 0 then [] else Rest(turns[k - 1], Backlog(turns, k - 1) + turns[k - 1].answer)
  }

  /** The frames that turn k finds: those left over, then its own answer. */
  function Found(turns: seq<Turn>, k: nat): seq<Item>
    requires k < |turns|
  {
    Backlog(turns, k) + turns[k].answer
  }

  /** Up to turn k every call finds all the frames it needs. */
  predicate Supplied(turns: seq<Turn>, k: nat)
    requires k < |turns|
  {
    Needs(turns[k], Found(turns, k)).Some? && (k > 0 ==> Supplied(turns, k - 1))
  }

  /** One turn on a queue of frames: it takes what it needs from the front. */
  lemma DoTakes(t: Turn, unread: seq<byte>, queue: seq<Item>, ending: Ending, garbage: byte)
    requires Legal(t) && AllSendable(queue) && Sized(queue) && unread + Encode(t.answer) == Encode(queue)
    requires Needs(t, queue).Some?
    ensures Took(Do(t, unread, ending, garbage), queue, Needs(t, queue).value)
  {
    if t.call.Trigger? {
      TriggerTakes(t, unread, queue, ending, garbage);
    } else if t.call.Rejected? {
      RejectedTakes(t, unread, queue, ending, garbage);
    } else {
      DoReads(t, unread, queue, ending, garbage);
    }
  }

  lemma RejectedIs(t: Turn, unread: seq<byte>, s: seq<byte>, ending: Ending, garbage: byte)
    requires t.call.Rejected? && |t.buf| == BUFFER && s == unread + Encode(t.answer) && Fits(s, ending, garbage)
    ensures Do(t, unread, ending, garbage) == Some(Result(t.call.code, t.buf, 0, s))
  {
  }

  lemma RejectedTakes(t: Turn, unread: seq<byte>, queue: seq<Item>, ending: Ending, garbage: byte)
    requires t.call.Rejected? && |t.buf| == BUFFER
    requires AllSendable(queue) && Sized(queue) && unread + Encode(t.answer) == Encode(queue)
    ensures Took(Do(t, unread, ending, garbage), queue, 0)
  {
    ItemsFit(queue, ending, garbage);
    RejectedIs(t, unread, Encode(queue), ending, garbage);
    assert queue[0..] == queue;
  }

  lemma {:induction false} BacklogLegal(turns: seq<Turn>, k: nat)
    requires AllLegal(turns) && k <= |turns|
    ensures AllSendable(Backlog(turns, k)) && Sized(Backlog(turns, k))
    decreases k
  {
    if k > 0 {
      BacklogLegal(turns, k - 1);
    }
  }

  /** The turn finds this queue, and enough in it. */
  predicate Served(t: Turn, unread: seq<byte>, queue: seq<Item>) {
    && Legal(t) && AllSendable(queue) && Sized(queue) && unread + Encode(t.answer) == Encode(queue)
    && Needs(t, queue).Some?
  }

  /** Calls take what they need, in order. */
  ghost predicate Serves(peer: Answerer) {
    forall t: Turn, unread: seq<byte>, queue: seq<Item> ::
      Served(t, unread, queue) ==> Took(peer(t, unread), queue, Needs(t, queue).value)
  }

  lemma AnswererServes(ending: Ending, garbage: byte)
    ensures Serves(AnswererOf(ending, garbage))
  {
    forall t: Turn, unread: seq<byte>, queue: seq<Item> | Served(t, unread, queue)
      ensures Took(AnswererOf(ending, garbage)(t, unread), queue, Needs(t, queue).value)
    {
      DoTakes(t, unread, queue, ending, garbage);
    }
  }

  lemma FoundServed(t: Turn, left: seq<Item>)
    requires Legal(t) && AllSendable(left) && Sized(left) && Needs(t, left + t.answer).Some?
    ensures Served(t, Encode(left), left + t.answer)
  {
    EncodeAppend(left, t.answer);
  }

  lemma QueueTurn(peer: Answerer, t: Turn, left: seq<Item>)
    requires Serves(peer) && Legal(t) && AllSendable(left) && Sized(left) && Needs(t, left + t.answer).Some?
    ensures Took(peer(t, Encode(left)), left + t.answer, Needs(t, left + t.answer).value)
    ensures Left(peer(t, Encode(left))) == Encode(Rest(t, left + t.answer))
  {
    FoundServed(t, left);
  }

  lemma {:induction false} Queued(peer: Answerer, turns: seq<Turn>, k: nat)
    requires Serves(peer) && AllLegal(turns) && k < |turns| && Supplied(turns, k)
    ensures Unread(peer, turns, k) == Encode(Backlog(turns, k))
    decreases k
  {
    if k > 0 {
      Queued(peer, turns, k - 1);
      BacklogLegal(turns, k - 1);
      QueueTurn(peer, turns[k - 1], Backlog(turns, k - 1));
    }
  }

  /** Any calls, and any analyzer: as long as every call finds the frames it needs, each call takes its
      frames from the front of those left over and its own answer, and the rest is left over for the next. */
  lemma Queue(turns: seq<Turn>, k: nat, ending: Ending, garbage: byte)
    requires AllLegal(turns) && k < |turns| && Supplied(turns, k)
    ensures var peer, n := AnswererOf(ending, garbage), Needs(turns[k], Found(turns, k)).value;
      && Unread(peer, turns, k) == Encode(Backlog(turns, k))
      && Took(At(peer, turns, k), Found(turns, k), n)
      && Backlog(turns, k + 1) == Found(turns, k)[n..]
  {
    AnswererServes(ending, garbage);
    PeerQueue(AnswererOf(ending, garbage), turns, k);
  }

  lemma PeerQueue(peer: Answerer, turns: seq<Turn>, k: nat)
    requires Serves(peer) && AllLegal(turns) && k < |turns| && Supplied(turns, k)
    ensures Unread(peer, turns, k) == Encode(Backlog(turns, k))
    ensures var n := Needs(turns[k], Found(turns, k)).value;
      Took(At(peer, turns, k), Found(turns, k), n) && Backlog(turns, k + 1) == Found(turns, k)[n..]
  {
    Queued(peer, turns, k);
    BacklogLegal(turns, k);
    QueueTurn(peer, turns[k], Backlog(turns, k));
  }

  /** All frames sent in the first k turns. */
  function Sent(turns: seq<Turn>, k: nat): seq<Item>
    requires k <= |turns|
    decreases k
  {
    if k == 0 then [] else Sent(turns, k - 1) + turns[k - 1].answer
  }

  /** b is the end of s. */
  predicate IsSuffix(b: seq<Item>, s: seq<Item>) {
    |b| <= |s| && s[|s| - |b|..] == b
  }

  lemma SuffixTaken(b: seq<Item>, s: seq<Item>, a: seq<Item>, n: nat)
    requires IsSuffix(b, s) && n <= |b| + |a|
    ensures IsSuffix((b + a)[n..], s + a)
  {
    assert s + a == s[..|s| - |b|] + (b + a);
  }

  /** No frame is skipped and none is read twice: what is left over is the end of all that was sent. */
  lemma {:induction false} BacklogIsLatest(turns: seq<Turn>, k: nat)
    requires k <= |turns| && (k > 0 ==> Supplied(turns, k - 1))
    ensures IsSuffix(Backlog(turns, k), Sent(turns, k))
    decreases k
  {
    if k > 0 {
      BacklogIsLatest(turns, k - 1);
      SuffixTaken(Backlog(turns, k - 1), Sent(turns, k - 1), turns[k - 1].answer,
                  Needs(turns[k - 1], Found(turns, k - 1)).value);
    }
  }

  lemma NoBytesNoFrames(items: seq<Item>)
    requires AllSendable(items)
    ensures Encode(items) == [] <==> items == []
  {
    if items != [] {
      assert Sendable(items[0]);
      assert |Encode(items)| >= |items[0].frame| > 0;
    }
  }

  /** What a call that has read n frames has looked at, by whose answer it was. */
  lemma TookFrom(r: Option<Result>, left: seq<Item>, answer: seq<Item>, n: nat)
    requires 1 <= n <= |left| + |answer| && Took(r, left + answer, n)
    ensures r.Some?
    ensures n > |left| ==> Saw(r.value, answer[n - 1 - |left|].frame)
    ensures n <= |left| ==> Saw(r.value, left[n - 1].frame) && r.value.rest == Encode(left[n..] + answer)
  {
    if n <= |left| {
      assert (left + answer)[n..] == left[n..] + answer;
    }
  }

  /** Whose answer a call looks at: a frame of its own answer if it needs more frames than were left over, and
      otherwise one of those left over, while its own answer stays unread as a whole. A call that reads once
      gets its own answer exactly if nothing was unread before it. */
  lemma OwnAnswer(turns: seq<Turn>, k: nat, ending: Ending, garbage: byte)
    requires AllLegal(turns) && k < |turns| && Supplied(turns, k) && !turns[k].call.Rejected?
    ensures var peer := AnswererOf(ending, garbage);
      var r, n, left := At(peer, turns, k), Needs(turns[k], Found(turns, k)).value, Backlog(turns, k);
      && r.Some? && n >= 1 && (Unread(peer, turns, k) == [] <==> left == [])
      && (ReadsOnce(turns[k].call) ==> (n > |left| <==> Unread(peer, turns, k) == []))
      && (n > |left| ==> Saw(r.value, turns[k].answer[n - 1 - |left|].frame))
      && (n <= |left| ==> Saw(r.value, left[n - 1].frame) && r.value.rest == Encode(left[n..] + turns[k].answer))
  {
    AnswererServes(ending, garbage);
    PeerAnswer(AnswererOf(ending, garbage), turns, k);
  }

  lemma PeerAnswer(peer: Answerer, turns: seq<Turn>, k: nat)
    requires Serves(peer) && AllLegal(turns) && k < |turns| && Supplied(turns, k) && !turns[k].call.Rejected?
    ensures var r, n, left := At(peer, turns, k), Needs(turns[k], Found(turns, k)).value, Backlog(turns, k);
      && r.Some? && n >= 1 && (Unread(peer, turns, k) == [] <==> left == [])
      && (ReadsOnce(turns[k].call) ==> (n > |left| <==> Unread(peer, turns, k) == []))
      && (n > |left| ==> Saw(r.value, turns[k].answer[n - 1 - |left|].frame))
      && (n <= |left| ==> Saw(r.value, left[n - 1].frame) && r.value.rest == Encode(left[n..] + turns[k].answer))
  {
    PeerQueue(peer, turns, k);
    BacklogLegal(turns, k);
    AnswerTaken(At(peer, turns, k), turns[k], Unread(peer, turns, k), Backlog(turns, k), Found(turns, k));
  }

  lemma AnswerTaken(r: Option<Result>, t: Turn, unread: seq<byte>, left: seq<Item>, queue: seq<Item>)
    requires AllSendable(left) && unread == Encode(left) && queue == left + t.answer
    requires !t.call.Rejected? && Needs(t, queue).Some? && Took(r, queue, Needs(t, queue).value)
    ensures var n := Needs(t, queue).value;
      && r.Some? && n >= 1 && (unread == [] <==> left == [])
      && (ReadsOnce(t.call) ==> (n > |left| <==> unread == []))
      && (n > |left| ==> Saw(r.value, t.answer[n - 1 - |left|].frame))
      && (n <= |left| ==> Saw(r.value, left[n - 1].frame) && r.value.rest == Encode(left[n..] + t.answer))
  {
    NoBytesNoFrames(left);
    TookFrom(r, left, t.answer, Needs(t, queue).value);
  }

  // --- Acknowledgements ---

  function Matches(rx: seq<byte>, cmd: byte, sub: byte): nat
    requires |rx| == BUFFER
  {
    (if rx[3] == PACKET_ACK then 1 else 0) + (if rx[4] == cmd then 1 else 0) + (if rx[5] == sub then 1 else 0)
  }

  /** An acknowledgement is refused exactly if none of its three bytes matches. So the check and the intended
      one, that all three match, decide alike exactly if all three or none of them match. Of a packet that is
      not refused, the status decides: clear is success, set is the call's own error if the packet is of five
      bytes, and else the error behind the status. */
  lemma AckCheckExact(rx: seq<byte>, size: nat, cmd: byte, sub: byte, failed: int)
    requires |rx| == BUFFER && failed != 100014
    ensures var code, n := AckCode(rx, size, cmd, sub, failed), Matches(rx, cmd, sub);
      && (code == 100014 <==> n == 0)
      && ((code != 100014 <==> n == 3) <==> n == 0 || n == 3)
      && (n > 0 ==> code == if rx[6] == 0 then 0 else if size == 5 then failed else rx[7] as int * 256 + rx[8])
  {
  }

  /** A packet that is no acknowledgement, but carries the right command byte and no status. */
  function Stranger(cmd: byte, sub: byte): seq<byte> {
    [STX, 0, 5, 0, cmd, UChar(sub as int + 1), 0, ETX]
  }

  /** A setter that receives it succeeds. */
  lemma StrangerAccepted(cmd: byte, sub: byte, failed: int, ending: Ending, garbage: byte, buf: seq<byte>)
    requires |buf| == BUFFER
    ensures var r := Do(Turn(Setter(cmd, sub, failed), [Item([], Stranger(cmd, sub))], buf), [], ending, garbage);
      r.Some? && |r.value.rx| == BUFFER && r.value.code == 0 && Matches(r.value.rx, cmd, sub) == 1
  {
    var it := Item([], Stranger(cmd, sub));
    var t := Turn(Setter(cmd, sub, failed), [it], buf);
    assert [] + Encode([it]) == Encode([it]);
    DoReads(t, [], [it], ending, garbage);
    StrangerChecked(Do(t, [], ending, garbage).value.rx, cmd, sub, buf, failed);
  }

  lemma StrangerChecked(rx: seq<byte>, cmd: byte, sub: byte, buf: seq<byte>, failed: int)
    requires |buf| == BUFFER && rx == Stranger(cmd, sub) + buf[8..]
    ensures |rx| == BUFFER && AckCode(rx, 8, cmd, sub, failed) == 0 && Matches(rx, cmd, sub) == 1
  {
    assert rx[3] == 0 && rx[4] == cmd && rx[5] == UChar(sub as int + 1) && rx[6] == 0;
  }

  predicate Acknowledges(f: seq<byte>, cmd: byte, sub: byte) {
    |f| >= 7 && f[3] == PACKET_ACK && f[4] == cmd && f[5] == sub
  }

  /** The error code of an acknowledgement with a set status: its bytes 7 and 8, or what the buffer held
      there if the packet is shorter. */
  function ErrorCode(f: seq<byte>, buf: seq<byte>): int
    requires |buf| == BUFFER && 7 <= |f| <= BUFFER
  {
    (if |f| > 7 then f[7] else buf[7]) as int * 0x100 + if |f| > 8 then f[8] else buf[8]
  }

  /** In step with an analyzer that acknowledges each command by its own bytes, the weak check is
      enough: a setter returns 0 if the status is clear, and else the reported error code. */
  lemma SetterInStep(turns: seq<Turn>, k: nat, ending: Ending, garbage: byte)
    requires AllObey(turns) && k < |turns| && turns[k].call.Setter?
    requires Acknowledges(Expected(turns[k]), turns[k].call.cmd, turns[k].call.sub)
    ensures var r := At(AnswererOf(ending, garbage), turns, k);
      var f := Expected(turns[k]);
      && r.Some? && |r.value.rx| == BUFFER && Matches(r.value.rx, turns[k].call.cmd, turns[k].call.sub) == 3
      && |f| <= BUFFER && r.value.code == if f[6] == 0 then 0 else ErrorCode(f, turns[k].buf)
  {
    RunInStep(turns, k, ending, garbage);
    var t := turns[k];
    assert [] + Encode(t.answer) == Encode(t.answer);
    DoReads(t, [], t.answer, ending, garbage);
    AckOf(t, Do(t, [], ending, garbage).value);
  }

  /** And a frame that shares none of the three bytes is refused. */
  lemma SetterRefused(turns: seq<Turn>, k: nat, f: seq<byte>, ending: Ending, garbage: byte)
    requires AllObey(turns) && k < |turns| && turns[k].call.Setter? && turns[k].call.failed != 100014
    requires f == Expected(turns[k]) && |f| >= 6
    requires f[3] != 0x21 && f[4] != turns[k].call.cmd && f[5] != turns[k].call.sub
    ensures var r := At(AnswererOf(ending, garbage), turns, k);
      r.Some? && r.value.code == 100014 && r.value.rest == []
  {
    RunInStep(turns, k, ending, garbage);
    var t := turns[k];
    assert [] + Encode(t.answer) == Encode(t.answer);
    DoReads(t, [], t.answer, ending, garbage);
    var r := Do(t, [], ending, garbage).value;
    AckCheckExact(r.rx, r.size, t.call.cmd, t.call.sub, t.call.failed);
    assert r.rx[3] == f[3] && r.rx[4] == f[4] && r.rx[5] == f[5];
  }

  lemma AckOf(t: Turn, r: Result)
    requires t.call.Setter? && |Expected(t)| <= BUFFER == |t.buf| && r.size == |Expected(t)|
    requires r.rx == Expected(t) + t.buf[|Expected(t)|..]
    requires Acknowledges(Expected(t), t.call.cmd, t.call.sub)
    requires r.code == AckCode(r.rx, r.size, t.call.cmd, t.call.sub, t.call.failed)
    ensures Matches(r.rx, t.call.cmd, t.call.sub) == 3
    ensures r.code == if Expected(t)[6] == 0 then 0 else ErrorCode(Expected(t), t.buf)
  {
  }

  /** What a trigger returns: the check of the last packet it has read. */
  lemma TriggerChecks(t: Turn, queue: seq<Item>, unread: seq<byte>, ending: Ending, garbage: byte)
    requires t.call.Trigger? && |t.buf| == BUFFER
    requires AllSendable(queue) && Sized(queue) && unread + Encode(t.answer) == Encode(queue)
    requires TriggerNeeds(queue, t.buf[6]).Some?
    ensures var r := Do(t, unread, ending, garbage);
      && r.Some? && |r.value.rx| == BUFFER
      && r.value.code == AckCode(r.value.rx, r.value.size, API_CMDS, API_TRIGGER, SET_SWEEP_FAILED)
  {
    TriggerReads(queue, ending, garbage, t.buf);
    DoLoop(t, unread, Encode(queue), ending, garbage);
  }

  lemma AckOfTrigger(f: seq<byte>, r: Result)
    requires |r.rx| == BUFFER && Saw(r, f) && Acknowledges(f, API_CMDS, API_TRIGGER)
    requires r.code == AckCode(r.rx, r.size, API_CMDS, API_TRIGGER, SET_SWEEP_FAILED)
    ensures Matches(r.rx, API_CMDS, API_TRIGGER) == 3
    ensures r.code == if f[6] == 0 then 0 else Word16(r.rx, 7)
    ensures |f| >= 9 ==> r.rx[7] == f[7] && r.rx[8] == f[8]
  {
    assert forall k :: 0 <= k < |f| ==> r.rx[k] == r.rx[..r.size][k];
  }

  /** In step with an analyzer whose last packet acknowledges the trigger: the trigger returns 0 if its status is
      clear, and else the error code behind it, or what earlier packets left there if it is too short. */
  lemma TriggerInStep(turns: seq<Turn>, k: nat, ending: Ending, garbage: byte)
    requires AllObey(turns) && k < |turns| && turns[k].call.Trigger?
    requires Acknowledges(Expected(turns[k]), API_CMDS, API_TRIGGER)
    ensures var r, f := At(AnswererOf(ending, garbage), turns, k), Expected(turns[k]);
      && r.Some? && |r.value.rx| == BUFFER && Matches(r.value.rx, API_CMDS, API_TRIGGER) == 3
      && r.value.code == (if f[6] == 0 then 0 else Word16(r.value.rx, 7))
      && (|f| >= 9 ==> r.value.code == if f[6] == 0 then 0 else Word16(f, 7))
  {
    var t := turns[k];
    RunInStep(turns, k, ending, garbage);
    AnswerNeeded(t.answer, t.buf[6]);
    assert [] + Encode(t.answer) == Encode(t.answer);
    TriggerChecks(t, t.answer, [], ending, garbage);
    AckOfTrigger(Expected(t), Do(t, [], ending, garbage).value);
  }
}

/** What each call of the registry answers and changes, by the state before it and the outcomes of its
    system calls, and when the library is up over a whole run. */
module Lifecycle {
  import opened Bytes
  import opened RegistrySpec
  import opened RegistryProofs

  // --- Up and down ---

  /** Initialisation succeeds exactly if the library is not up, and leaves it up in either case. A success
      starts with an empty list and the same open sockets; a refusal changes nothing. */
  lemma InitializeExact<H>(r: Registry<H>)
    ensures var o := Step(r, Initialize);
      && (o.code == 0 <==> !r.up) && (o.code == 400002 <==> r.up)
      && o.reg.up && o.reg.open == r.open
      && (r.up ==> o.reg == r) && (!r.up ==> o.reg.entries == [])
  {
  }

  /** Deinitialisation succeeds exactly if the library is up, and leaves it down with an empty list. */
  lemma DeinitializeExact<H>(r: Registry<H>, stuck: set<int>)
    requires Inv(r)
    ensures var o := Step(r, Deinitialize(stuck));
      && (o.code == 0 <==> r.up) && (o.code == 400003 <==> !r.up)
      && !o.reg.up && o.reg.entries == [] && (!r.up ==> o.reg == r)
  {
    UnregisterAllInv(r, stuck, -1);
  }

  lemma DisconnectUp<H>(r: Registry<H>, h: H, close: bool)
    ensures DoDisconnect(r, h, close).reg.up == r.up
  {
  }

  lemma ConnectUp<H>(r: Registry<H>, h: H, d: Dial)
    ensures DoConnect(r, h, d).reg.up == r.up
  {
    if Listed(r, h) && d.socket.Some? {
      var i := Find(r.entries, h);
      DisconnectUp(SetFd(r, i, d.socket.value).(open := r.open + {d.socket.value}), h, d.close);
    }
  }

  lemma UnregisterUp<H>(r: Registry<H>, h: H, close: bool)
    ensures DoUnregister(r, h, close).reg.up == r.up
  {
    DisconnectUp(r, h, close);
  }

  lemma ExchangeUp<H>(added: Registry<H>, h: H, flags: int, s: Setup<H>)
    ensures DialAndExchange(added, h, flags, s).reg.up == added.up
  {
    ConnectUp(added, h, s.dial);
    var c := DoConnect(added, h, s.dial).reg;
    UnregisterUp(c, h, s.close);
    DisconnectUp(c, h, s.close);
  }

  lemma RegisterUp<H>(r: Registry<H>, port: int, flags: int, s: Setup<H>)
    ensures DoRegister(r, port, flags, s).reg.up == r.up
  {
    if r.up && s.memory.Some? {
      var h, port16 := s.memory.value, port % 0x1_0000;
      var address := if s.host.Some? then Some(Address(port16, s.host.value)) else None;
      var added := Push(r, Entry(h, -1, address, port16));
      UnregisterUp(added, h, s.close);
      ExchangeUp(added, h, flags, s);
    }
  }

  lemma {:induction false} UnregisterAllUp<H>(r: Registry<H>, stuck: set<int>)
    ensures UnregisterAll(r, stuck).up == r.up
    decreases |r.entries|
  {
    if r.entries != [] {
      var last := r.entries[|r.entries| - 1];
      var close := r.entries[Find(r.entries, last.h)].fd !in stuck;
      UnregisterUp(r, last.h, close);
      UnregisterAllUp(DoUnregister(r, last.h, close).reg, stuck);
    }
  }

  /** No other call brings the library up or down. */
  lemma StepUp<H>(r: Registry<H>, c: Call<H>)
    ensures Step(r, c).reg.up <==> c.Initialize? || (r.up && !c.Deinitialize?)
  {
    match c
    case Initialize =>
    case Deinitialize(stuck) => UnregisterAllUp(r, stuck);
    case Register(port, flags, s) => RegisterUp(r, port, flags, s);
    case Unregister(h, close) => UnregisterUp(r, h, close);
    case Connect(h, d) => ConnectUp(r, h, d);
    case Disconnect(h, close) => DisconnectUp(r, h, close);
  }

  /** By the calls alone: the library was initialised, in the run or (`up`) before it, and never
      deinitialised since. */
  ghost predicate UpBy<H>(up: bool, calls: seq<Call<H>>) {
    || (up && forall j :: 0 <= j < |calls| ==> !calls[j].Deinitialize?)
    || exists i :: 0 <= i < |calls| && calls[i].Initialize? && forall j :: i < j < |calls| ==> !calls[j].Deinitialize?
  }

  lemma UpShift<H>(up: bool, calls: seq<Call<H>>)
    requires calls != []
    ensures UpBy(up, calls) <==> UpBy(calls[0].Initialize? || (up && !calls[0].Deinitialize?), calls[1..])
  {
    var rest := calls[1..];
    assert forall j :: 1 <= j < |calls| ==> calls[j] == rest[j - 1];
    assert forall j :: 0 <= j < |rest| ==> rest[j] == calls[j + 1];
  }

  /** The library is up after a run exactly if the last call of the run that initialises or deinitialises
      initialises; without such a call it is as it was. */
  lemma {:induction false} UpExactly<H>(r: Registry<H>, calls: seq<Call<H>>)
    ensures After(r, calls).up <==> UpBy(r.up, calls)
    decreases |calls|
  {
    if calls != [] {
      StepUp(r, calls[0]);
      UpExactly(Step(r, calls[0]).reg, calls[1..]);
      UpShift(r.up, calls);
    }
  }

  // --- Connections ---

  /** A call for a handle that is not listed is refused and changes nothing. */
  lemma StrangerRefused<H>(r: Registry<H>, h: H, close: bool, d: Dial)
    requires forall k :: 0 <= k < |r.entries| ==> r.entries[k].h != h
    ensures Step(r, Disconnect(h, close)) == Step(r, Connect(h, d)) == Step(r, Unregister(h, close))
      == Outcome(r, 400000)
  {
    assert !Listed(r, h);
  }

  /** b is a with another socket for the handle at i. */
  ghost predicate OnlyFd<H>(a: seq<Entry<H>>, b: seq<Entry<H>>, i: nat, fd: int) {
    && i < |a| == |b| && b[i].fd == fd
    && b[i].h == a[i].h && b[i].address == a[i].address && b[i].port == a[i].port
    && forall k :: 0 <= k < |a| && k != i ==> b[k] == a[k]
  }

  /** Disconnecting succeeds exactly if there is a connection and it can be closed. */
  lemma DisconnectExact<H>(r: Registry<H>, i: nat, close: bool)
    requires DistinctHandles(r.entries) && i < |r.entries|
    ensures var o, fd := Step(r, Disconnect(r.entries[i].h, close)), r.entries[i].fd;
      && o.code == (if fd == -1 then 100010 else if !close then 100006 else 0)
      && (o.code != 0 ==> o.reg == r)
      && (o.code == 0 ==>
          o.reg.up == r.up && OnlyFd(r.entries, o.reg.entries, i, -1) && o.reg.open == r.open - {fd})
  {
    FindUnique(r.entries, i);
  }

  /** Connecting succeeds exactly if there is no connection yet and socket, option and connection are all
      granted. A socket that is opened stays with the handle, unless the connection is refused and the socket
      closed again. */
  lemma ConnectExact<H>(r: Registry<H>, i: nat, d: Dial)
    requires DistinctHandles(r.entries) && i < |r.entries| && FreshDial(r, d)
    ensures var o, fd := Step(r, Connect(r.entries[i].h, d)), r.entries[i].fd;
      && o.code == (if fd != -1 then 100011 else if d.socket.None? then 100001 else if !d.option then 100002
                    else if !d.connect then 100003 else 0)
      && (if fd == -1 && d.socket.Some? && (!d.option || d.connect || !d.close)
          then o.reg.up == r.up && OnlyFd(r.entries, o.reg.entries, i, d.socket.value)
            && o.reg.open == r.open + {d.socket.value}
          else o.reg == r)
  {
    FindUnique(r.entries, i);
    if r.entries[i].fd == -1 && d.socket.Some? {
      var h := r.entries[i].h;
      var dialed := SetFd(r, i, d.socket.value).(open := r.open + {d.socket.value});
      FindUnique(dialed.entries, i);
      assert SetFd(dialed, i, -1).entries == r.entries;
      assert r.open + {d.socket.value} - {d.socket.value} == r.open;
    }
  }

  /** A connection that is closed again leaves the registry as it was. */
  lemma ConnectDisconnect<H>(r: Registry<H>, i: nat, d: Dial)
    requires DistinctHandles(r.entries) && i < |r.entries| && FreshDial(r, d)
    requires Step(r, Connect(r.entries[i].h, d)).code == 0
    ensures Step(Step(r, Connect(r.entries[i].h, d)).reg, Disconnect(r.entries[i].h, true)) == Outcome(r, 0)
  {
    ConnectExact(r, i, d);
    var c := Step(r, Connect(r.entries[i].h, d)).reg;
    DisconnectExact(c, i, true);
    var o := Step(c, Disconnect(r.entries[i].h, true)).reg;
    assert o.entries == r.entries;
    assert r.open + {d.socket.value} - {d.socket.value} == r.open;
  }

  /** Unregistering a listed handle takes it off the list, whatever happens to its connection. */
  lemma UnregisterExact<H>(r: Registry<H>, i: nat, close: bool)
    requires DistinctHandles(r.entries) && i < |r.entries|
    ensures var o, fd := Step(r, Unregister(r.entries[i].h, close)), r.entries[i].fd;
      && o.code == 0 && o.reg.up == r.up
      && o.reg.entries == r.entries[..i] + r.entries[i + 1..]
      && o.reg.open == if fd != -1 && close then r.open - {fd} else r.open
  {
    FindUnique(r.entries, i);
    var d := DoDisconnect(r, r.entries[i].h, close).reg;
    assert d.entries[..i] == r.entries[..i] && d.entries[i + 1..] == r.entries[i + 1..];
  }

  // --- Registration ---

  /** The endpoint is listed. */
  ghost predicate Taken<H>(r: Registry<H>, port: int, host: Host) {
    exists i :: 0 <= i < |r.entries| && r.entries[i].address == Some(Address(port % 0x1_0000, host))
  }

  /** The answer of a registration: the first step that fails decides. */
  lemma RegisterCode<H>(r: Registry<H>, port: int, flags: int, s: Setup<H>)
    requires Inv(r) && Fair(r, Register(port, flags, s))
    ensures Step(r, Register(port, flags, s)).code ==
      if !r.up then 100013
      else if s.memory.None? then 100009
      else if s.host.None? then 100012
      else if Taken(r, port, s.host.value) then 400001
      else if s.dial.socket.None? then 100001
      else if !s.dial.option then 100002
      else if !s.dial.connect then 100003
      else if s.exchange != 0 then s.exchange
      else if flags != 1 && !s.close then 100006
      else 0
  {
    if r.up && s.memory.Some? && s.host.Some? {
      var a := Address(port % 0x1_0000, s.host.value);
      assert Taken(r, port, s.host.value) <==> FindAddress(r.entries, a) < |r.entries|;
      if !Taken(r, port, s.host.value) {
        DialCode(r, NewEntry(port, s, -1), flags, s);
      }
    }
  }

  lemma DialCode<H>(r: Registry<H>, e: Entry<H>, flags: int, s: Setup<H>)
    requires !Listed(r, e.h) && e.fd == -1 && FreshDial(r, s.dial)
    ensures DialAndExchange(Push(r, e), e.h, flags, s).code ==
      if s.dial.socket.None? then 100001
      else if !s.dial.option then 100002
      else if !s.dial.connect then 100003
      else if s.exchange != 0 then s.exchange
      else if flags != 1 && !s.close then 100006
      else 0
  {
    FindPushed(r.entries, e);
    DialLeft(r, e, s.dial);
  }

  // --- Lookup ---

  /** The lookup finds a handle exactly if the address is found and some entry has it and this port number; it
      is the first such entry. */
  lemma GetHandleExact<H>(r: Registry<H>, host: Option<Host>, port: int)
    ensures DoGetHandle(r, host, port).Some? <==>
      host.Some? && exists i :: 0 <= i < |r.entries| && Matches(r.entries[i], host.value, port)
    ensures DoGetHandle(r, host, port).Some? ==>
      exists i :: 0 <= i < |r.entries| && DoGetHandle(r, host, port) == Some(r.entries[i].h)
        && Matches(r.entries[i], host.value, port)
        && forall k :: 0 <= k < i ==> !Matches(r.entries[k], host.value, port)
  {
    if host.Some? {
      var a := Address(port % 0x1_0000, host.value);
      var i := FindEndpoint(r.entries, a, port);
      assert forall k :: 0 <= k < i ==> !Matches(r.entries[k], host.value, port);
      if i < |r.entries| {
        assert Matches(r.entries[i], host.value, port);
      }
    }
  }

  ghost predicate Matches<H>(e: Entry<H>, host: Host, port: int) {
    e.address == Some(Address(port % 0x1_0000, host)) && e.port == port
  }

  // --- Who is listed ---

  /** The registration ends with its handle listed: it succeeds, or is one of the two failures that are not
      undone. */
  ghost predicate Lists<H>(r: Registry<H>, c: Call<H>, h: H) {
    c.Register? && c.setup.memory == Some(h)
    && (Step(r, c).code == 0 || StaysConnected(r, c.port, c.flags, c.setup)
        || (Duplicate(r, c.port, c.setup) && !PortOk(c.port)))
  }

  ghost predicate Drops<H>(c: Call<H>, h: H) {
    c.Deinitialize? || (c.Unregister? && c.h == h)
  }

  lemma ListedAt<H>(r: Registry<H>, h: H)
    ensures Listed(r, h) <==> exists i :: 0 <= i < |r.entries| && r.entries[i].h == h
  {
  }

  ghost predicate SameHandles<H>(a: seq<Entry<H>>, b: seq<Entry<H>>) {
    |a| == |b| && forall i :: 0 <= i < |a| ==> a[i].h == b[i].h
  }

  lemma SameListed<H>(a: Registry<H>, b: Registry<H>, h: H)
    requires SameHandles(a.entries, b.entries)
    ensures Listed(a, h) <==> Listed(b, h)
  {
    ListedAt(a, h);
    ListedAt(b, h);
  }

  lemma PushListed<H>(r: Registry<H>, e: Entry<H>, h: H)
    ensures Listed(Push(r, e), h) <==> Listed(r, h) || e.h == h
  {
    var es := Push(r, e).entries;
    ListedAt(r, h);
    ListedAt(Push(r, e), h);
    assert es[|r.entries|] == e && forall i :: 0 <= i < |r.entries| ==> es[i] == r.entries[i];
  }

  lemma DisconnectHandles<H>(r: Registry<H>, h: H, close: bool)
    ensures SameHandles(DoDisconnect(r, h, close).reg.entries, r.entries)
  {
  }

  lemma ConnectHandles<H>(r: Registry<H>, h: H, d: Dial)
    ensures SameHandles(DoConnect(r, h, d).reg.entries, r.entries)
  {
    if Listed(r, h) && d.socket.Some? {
      DisconnectHandles(Dialed(r, Find(r.entries, h), d.socket.value), h, d.close);
    }
  }

  lemma UnregisterListed<H>(r: Registry<H>, x: H, close: bool, h: H)
    requires DistinctHandles(r.entries)
    ensures Listed(DoUnregister(r, x, close).reg, h) <==> Listed(r, h) && h != x
  {
    var after := DoUnregister(r, x, close).reg;
    ListedAt(r, h);
    ListedAt(after, h);
    if Listed(r, x) {
      var i := Find(r.entries, x);
      UnregisterExact(r, i, close);
      RemovedListed(r.entries, after.entries, i, h);
    }
  }

  lemma RemovedListed<H>(es: seq<Entry<H>>, left: seq<Entry<H>>, i: nat, h: H)
    requires DistinctHandles(es) && i < |es| && left == es[..i] + es[i + 1..]
    ensures (exists k :: 0 <= k < |left| && left[k].h == h) <==>
      (exists k :: 0 <= k < |es| && es[k].h == h) && h != es[i].h
  {
    if k :| 0 <= k < |es| && es[k].h == h && k != i {
      assert left[if k < i then k else k - 1].h == h;
    }
    if k :| 0 <= k < |left| && left[k].h == h {
      assert es[if k < i then k else k + 1].h == h;
    }
  }

  lemma RegisterListed<H>(r: Registry<H>, c: Call<H>, h: H)
    requires Inv(r) && Fair(r, c) && c.Register?
    ensures Listed(Step(r, c).reg, h) <==> Lists(r, c, h) || Listed(r, h)
  {
    var after := Step(r, c).reg;
    if r.up && c.setup.memory.Some? {
      if StaysConnected(r, c.port, c.flags, c.setup) {
        var fd := c.setup.dial.socket.value;
        ConnectedOnFailure(r, c.port, c.flags, c.setup);
        PushListed(r.(open := r.open + {fd}), NewEntry(c.port, c.setup, fd), h);
      } else if Step(r, c).code == 0 {
        RegisterAppends(r, c.port, c.flags, c.setup);
        var fd := c.setup.dial.socket.value;
        PushListed(r.(open := r.open + {fd}), NewEntry(c.port, c.setup, fd), h);
        PushListed(r, NewEntry(c.port, c.setup, -1), h);
      } else if Duplicate(r, c.port, c.setup) {
        DuplicateUndone(r, NewEntry(c.port, c.setup, -1), c.port, c.flags, c.setup);
        PushListed(r, NewEntry(c.port, c.setup, -1), h);
      } else {
        RegisterAtomic(r, c.port, c.flags, c.setup);
      }
    }
  }

  /** One step: a handle is listed exactly if this step lists it, or it was and this step does not drop it. */
  lemma StepListed<H>(r: Registry<H>, c: Call<H>, h: H)
    requires Inv(r) && Fair(r, c)
    ensures Listed(Step(r, c).reg, h) <==> Lists(r, c, h) || (Listed(r, h) && !Drops(c, h))
  {
    match c
    case Initialize =>
    case Deinitialize(stuck) =>
      DeinitializeExact(r, stuck);
    case Register(port, flags, s) => RegisterListed(r, c, h);
    case Unregister(x, close) => UnregisterListed(r, x, close, h);
    case Connect(x, d) =>
      ConnectHandles(r, x, d);
      SameListed(Step(r, c).reg, r, h);
    case Disconnect(x, close) =>
      DisconnectHandles(r, x, close);
      SameListed(Step(r, c).reg, r, h);
  }

  /** Call i - 1 lists the handle, or it is listed before the run (i == 0), and no later call drops it. */
  ghost predicate ListedFrom<H>(r: Registry<H>, calls: seq<Call<H>>, i: nat, h: H)
    requires i <= |calls|
  {
    && (if i == 0 then Listed(r, h) else Lists(After(r, calls[..i - 1]), calls[i - 1], h))
    && forall j :: i <= j < |calls| ==> !Drops(calls[j], h)
  }

  lemma FromRest<H>(r: Registry<H>, calls: seq<Call<H>>, i: nat, h: H)
    requires calls != [] && 1 <= i < |calls|
    ensures ListedFrom(Step(r, calls[0]).reg, calls[1..], i, h) <==> ListedFrom(r, calls, i + 1, h)
  {
    var rest := calls[1..];
    assert calls[..i][1..] == rest[..i - 1];
    assert forall j :: i <= j < |rest| ==> rest[j] == calls[j + 1];
    assert forall j :: i + 1 <= j < |calls| ==> calls[j] == rest[j - 1];
  }

  lemma FromStart<H>(r: Registry<H>, calls: seq<Call<H>>, h: H)
    requires calls != [] && Inv(r) && Fair(r, calls[0])
    ensures ListedFrom(Step(r, calls[0]).reg, calls[1..], 0, h) <==>
      ListedFrom(r, calls, 0, h) || ListedFrom(r, calls, 1, h)
  {
    var rest := calls[1..];
    StepListed(r, calls[0], h);
    assert calls[..0] == [] && After(r, []) == r;
    assert forall j :: 0 <= j < |rest| ==> rest[j] == calls[j + 1];
    assert forall j :: 1 <= j < |calls| ==> calls[j] == rest[j - 1];
  }

  lemma FromShifts<H>(r: Registry<H>, calls: seq<Call<H>>, h: H)
    requires calls != [] && Inv(r) && Fair(r, calls[0])
    ensures (exists i: nat :: i <= |calls| - 1 && ListedFrom(Step(r, calls[0]).reg, calls[1..], i, h)) <==>
      (exists i: nat :: i <= |calls| && ListedFrom(r, calls, i, h))
  {
    var r1, rest := Step(r, calls[0]).reg, calls[1..];
    FromStart(r, calls, h);
    if i: nat :| i <= |rest| && ListedFrom(r1, rest, i, h) {
      if i > 0 {
        FromRest(r, calls, i, h);
      }
    }
    if i: nat :| i <= |calls| && ListedFrom(r, calls, i, h) {
      if i > 1 {
        FromRest(r, calls, i - 1, h);
      } else {
        assert ListedFrom(r1, rest, 0, h);
      }
    }
  }

  /** Over every run a handle is listed at the end exactly if some registration of the run lists it, or it was
      listed before, and it is neither unregistered nor the library deinitialised after that. */
  lemma {:induction false} ListedExactly<H>(r: Registry<H>, calls: seq<Call<H>>, h: H)
    requires Inv(r) && Run(r, calls)
    ensures Listed(After(r, calls), h) <==> exists i: nat :: i <= |calls| && ListedFrom(r, calls, i, h)
    decreases |calls|
  {
    if calls == [] {
      assert ListedFrom(r, calls, 0, h) <==> Listed(r, h);
    } else {
      StepKeeps(r, calls[0]);
      ListedExactly(Step(r, calls[0]).reg, calls[1..], h);
      FromShifts(r, calls, h);
    }
  }

  // --- A life ---

  /** A run of one step more. */
  lemma {:induction false} RunSnoc<H>(r: Registry<H>, calls: seq<Call<H>>, c: Call<H>)
    ensures Run(r, calls + [c]) <==> Run(r, calls) && Fair(After(r, calls), c)
    ensures After(r, calls + [c]) == Step(After(r, calls), c).reg
    decreases |calls|
  {
    if calls == [] {
      assert [] + [c] == [c];
      assert [c][1..] == [];
      assert Run(Step(r, c).reg, []) && After(Step(r, c).reg, []) == Step(r, c).reg;
    } else {
      assert (calls + [c])[1..] == calls[1..] + [c];
      RunSnoc(Step(r, calls[0]).reg, calls[1..], c);
    }
  }

  lemma RegistersFirst<H>(r: Registry<H>, s: Setup<H>, h: H, host: Host, port: int, fd: nat)
    requires r == Registry(true, [], {})
    requires s == Setup(Some(h), Some(host), Dial(Some(fd), true, true, true), 0, true)
    ensures Fair(r, Register(port, 1, s))
    ensures Step(r, Register(port, 1, s)).reg ==
      Registry(true, [Entry(h, fd, Some(Address(port % 0x1_0000, host)), port % 0x1_0000)], {fd})
  {
    RegisterSucceeds(r, port, 1, s);
    RegisterAppends(r, port, 1, s);
  }

  lemma RunTwo<H>(r: Registry<H>, a: Call<H>, b: Call<H>)
    ensures Run(r, [a, b]) <==> Fair(r, a) && Fair(Step(r, a).reg, b)
    ensures After(r, [a, b]) == Step(Step(r, a).reg, b).reg
  {
    var none: seq<Call<H>> := [];
    RunSnoc(r, none, a);
    RunSnoc(r, [a], b);
    assert none + [a] == [a] && [a] + [b] == [a, b];
  }

  /** From the library as it is loaded: after `Initialize` and one registration with everything granted the
      handle is listed and connected. */
  lemma FirstHandle<H>(r: Registry<H>, s: Setup<H>, h: H, host: Host, port: int, fd: nat)
    requires r == Registry(false, [], {})
    requires s == Setup(Some(h), Some(host), Dial(Some(fd), true, true, true), 0, true)
    ensures Run(r, [Initialize, Register(port, 1, s)])
    ensures After(r, [Initialize, Register(port, 1, s)]) ==
      Registry(true, [Entry(h, fd, Some(Address(port % 0x1_0000, host)), port % 0x1_0000)], {fd})
  {
    InitializeExact(r);
    RunTwo(r, Initialize, Register(port, 1, s));
    RegistersFirst(Registry(true, [], {}), s, h, host, port, fd);
  }

  /** The handle is disconnected, connected again by another socket, and the library deinitialised: it is as
      it was when it was loaded, with nothing open. */
  lemma LastHandle<H>(r: Registry<H>, e: Entry<H>, fd: nat)
    requires r == Registry(true, [e], {e.fd}) && e.fd >= 0
    requires e.address.Some? && e.address.value.port == e.port && 0 <= e.port < 0x1_0000
    ensures var away := [Disconnect(e.h, true), Connect(e.h, Dial(Some(fd), true, true, true))];
      && Run(r, away + [Deinitialize({})])
      && After(r, away) == Registry(true, [e.(fd := fd)], {fd})
      && After(r, away + [Deinitialize({})]) == Registry(false, [], {})
  {
    var off, on := Disconnect(e.h, true), Connect(e.h, Dial(Some(fd), true, true, true));
    var alone, again := Registry(true, [e.(fd := -1)], {}), Registry(true, [e.(fd := fd)], {fd});
    DisconnectExact(r, 0, true);
    assert Step(r, off).reg == alone by {
      assert Step(r, off).reg.entries == alone.entries;
    }
    ConnectExact(alone, 0, on.dial);
    assert Step(alone, on).reg == again by {
      assert Step(alone, on).reg.entries == again.entries;
    }
    RunTwo(r, off, on);
    RunSnoc(r, [off, on], Deinitialize({}));
    DeinitializeExact(again, {});
    DeinitializeCloses(again, {});
    assert NoLeak(again);
  }
}

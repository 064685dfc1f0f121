/** Properties of the registry over every run: distinct handles, owned sockets, distinct endpoints,
    and all-or-nothing registration. */
module RegistryProofs {
  import opened Bytes
  import opened RegistrySpec

  // --- Invariants ---

  ghost predicate DistinctHandles<H>(es: seq<Entry<H>>) {
    forall i, j :: 0 <= i < j < |es| ==> es[i].h != es[j].h
  }

  /** Every connection belongs to one handle and is open. */
  ghost predicate OwnedSockets<H>(r: Registry<H>) {
    && (forall i :: 0 <= i < |r.entries| && r.entries[i].fd != -1 ==> r.entries[i].fd in r.open)
    && (forall i, j :: 0 <= i < j < |r.entries| && r.entries[i].fd != -1 ==> r.entries[i].fd != r.entries[j].fd)
  }

  ghost predicate Resolved<H>(e: Entry<H>) {
    e.address.Some? && e.address.value.port == e.port && 0 <= e.port < 0x1_0000
  }

  ghost predicate Inv<H>(r: Registry<H>) {
    && (!r.up ==> r.entries == [])
    && DistinctHandles(r.entries)
    && OwnedSockets(r)
    && -1 !in r.open
    && forall i :: 0 <= i < |r.entries| ==> Resolved(r.entries[i])
  }

  ghost predicate Owns<H>(r: Registry<H>, fd: int) {
    exists i :: 0 <= i < |r.entries| && r.entries[i].fd == fd
  }

  /** An open socket that no handle owns: nothing can close it any more. */
  ghost predicate Lost<H>(r: Registry<H>, fd: int) {
    fd in r.open && !Owns(r, fd)
  }

  ghost predicate NoLeak<H>(r: Registry<H>) {
    forall fd :: !Lost(r, fd)
  }

  ghost predicate DistinctEndpoints<H>(es: seq<Entry<H>>) {
    forall i, j :: 0 <= i < j < |es| ==> es[i].address != es[j].address
  }

  // --- Single steps ---

  lemma FindUnique<H>(es: seq<Entry<H>>, i: nat)
    requires DistinctHandles(es) && i < |es|
    ensures Find(es, es[i].h) == i
  {
  }

  lemma DisconnectInv<H>(r: Registry<H>, h: H, close: bool)
    requires Inv(r)
    ensures Inv(DoDisconnect(r, h, close).reg)
    ensures DistinctEndpoints(r.entries) ==> DistinctEndpoints(DoDisconnect(r, h, close).reg.entries)
  {
  }

  /** Exchanging the socket of one entry changes nothing for any other socket. */
  lemma SetFdOwns<H>(r: Registry<H>, i: nat, fd: int, x: int)
    requires i < |r.entries| && x != fd && x != r.entries[i].fd
    ensures Owns(SetFd(r, i, fd), x) <==> Owns(r, x)
  {
    var r' := SetFd(r, i, fd);
    if Owns(r, x) {
      var k :| 0 <= k < |r.entries| && r.entries[k].fd == x;
      assert r'.entries[k].fd == x;
    }
    if Owns(r', x) {
      var k :| 0 <= k < |r'.entries| && r'.entries[k].fd == x;
      assert r.entries[k].fd == x;
    }
  }

  lemma DisconnectLost<H>(r: Registry<H>, h: H, close: bool, x: int)
    requires Inv(r)
    ensures Lost(DoDisconnect(r, h, close).reg, x) <==> Lost(r, x)
  {
    var i := Find(r.entries, h);
    if Listed(r, h) && r.entries[i].fd != -1 && close && x in r.open {
      if x == r.entries[i].fd {
        assert Owns(r, x);
      } else {
        SetFdOwns(r, i, -1, x);
        assert Owns(DoDisconnect(r, h, close).reg, x) == Owns(SetFd(r, i, -1), x);
      }
    }
  }

  /** The registry once entry i holds a newly opened socket. */
  ghost function Dialed<H>(r: Registry<H>, i: nat, fd: int): Registry<H>
    requires i < |r.entries|
  {
    SetFd(r, i, fd).(open := r.open + {fd})
  }

  lemma DialedInv<H>(r: Registry<H>, i: nat, fd: int)
    requires Inv(r) && i < |r.entries| && r.entries[i].fd == -1 && fd >= 0 && fd !in r.open
    ensures Inv(Dialed(r, i, fd))
    ensures DistinctEndpoints(r.entries) ==> DistinctEndpoints(Dialed(r, i, fd).entries)
  {
  }

  lemma DialedLost<H>(r: Registry<H>, i: nat, fd: int, x: int)
    requires Inv(r) && i < |r.entries| && r.entries[i].fd == -1 && fd >= 0 && fd !in r.open
    ensures Lost(Dialed(r, i, fd), x) <==> Lost(r, x)
  {
    var d := Dialed(r, i, fd);
    if x == fd {
      assert d.entries[i].fd == x;
      assert Owns(d, x);
    } else if x in r.open {
      SetFdOwns(r, i, fd, x);
      assert Owns(d, x) == Owns(SetFd(r, i, fd), x);
    }
  }

  lemma ConnectInv<H>(r: Registry<H>, h: H, d: Dial)
    requires Inv(r) && FreshDial(r, d)
    ensures Inv(DoConnect(r, h, d).reg)
    ensures DistinctEndpoints(r.entries) ==> DistinctEndpoints(DoConnect(r, h, d).reg.entries)
  {
    if Listed(r, h) && r.entries[Find(r.entries, h)].fd == -1 && d.socket.Some? {
      var i := Find(r.entries, h);
      DialedInv(r, i, d.socket.value);
      DisconnectInv(Dialed(r, i, d.socket.value), h, d.close);
    }
  }

  lemma ConnectLost<H>(r: Registry<H>, h: H, d: Dial, x: int)
    requires Inv(r) && FreshDial(r, d)
    ensures Lost(DoConnect(r, h, d).reg, x) <==> Lost(r, x)
  {
    if Listed(r, h) && r.entries[Find(r.entries, h)].fd == -1 && d.socket.Some? {
      var i := Find(r.entries, h);
      DialedInv(r, i, d.socket.value);
      DialedLost(r, i, d.socket.value, x);
      DisconnectLost(Dialed(r, i, d.socket.value), h, d.close, x);
    }
  }

  lemma RemoveInv<H>(r: Registry<H>, i: nat)
    requires Inv(r) && i < |r.entries|
    ensures Inv(Remove(r, i))
    ensures DistinctEndpoints(r.entries) ==> DistinctEndpoints(Remove(r, i).entries)
  {
  }

  /** Removing an entry loses exactly the socket it still held. */
  lemma RemoveLost<H>(r: Registry<H>, i: nat, x: int)
    requires Inv(r) && i < |r.entries|
    ensures Lost(Remove(r, i), x) <==> Lost(r, x) || (x == r.entries[i].fd && x != -1)
  {
    if x != -1 {
      RemoveOwns(r, i, x);
    }
  }

  lemma RemoveOwns<H>(r: Registry<H>, i: nat, x: int)
    requires Inv(r) && i < |r.entries| && x != -1
    ensures Owns(Remove(r, i), x) <==> Owns(r, x) && x != r.entries[i].fd
  {
    var es, es' := r.entries, Remove(r, i).entries;
    if Owns(r, x) && x != es[i].fd {
      var k :| 0 <= k < |es| && es[k].fd == x;
      assert es'[if k < i then k else k - 1].fd == x;
    }
    if Owns(Remove(r, i), x) {
      var k :| 0 <= k < |es'| && es'[k].fd == x;
      assert es[if k < i then k else k + 1].fd == x;
    }
  }

  lemma UnregisterInv<H>(r: Registry<H>, h: H, close: bool)
    requires Inv(r)
    ensures Inv(DoUnregister(r, h, close).reg)
    ensures DistinctEndpoints(r.entries) ==> DistinctEndpoints(DoUnregister(r, h, close).reg.entries)
  {
    if Listed(r, h) {
      DisconnectInv(r, h, close);
      RemoveInv(DoDisconnect(r, h, close).reg, Find(r.entries, h));
    }
  }

  /** The socket that unregistering a handle loses: a connection of a listed handle that fails to close. */
  ghost function UnregisterLoses<H>(r: Registry<H>, h: H, close: bool): set<int> {
    if Listed(r, h) && !close && r.entries[Find(r.entries, h)].fd != -1 then {r.entries[Find(r.entries, h)].fd} else {}
  }

  lemma UnregisterLost<H>(r: Registry<H>, h: H, close: bool, x: int)
    requires Inv(r)
    ensures Lost(DoUnregister(r, h, close).reg, x) <==> Lost(r, x) || x in UnregisterLoses(r, h, close)
  {
    if Listed(r, h) {
      var i := Find(r.entries, h);
      DisconnectInv(r, h, close);
      DisconnectLost(r, h, close, x);
      RemoveLost(DoDisconnect(r, h, close).reg, i, x);
    }
  }

  /** Unregistering leaks a socket exactly if a listed handle's connection fails to close. */
  lemma UnregisterLeaks<H>(r: Registry<H>, h: H, close: bool)
    requires Inv(r) && NoLeak(r)
    ensures NoLeak(DoUnregister(r, h, close).reg) <==>
      !Listed(r, h) || close || r.entries[Find(r.entries, h)].fd == -1
  {
    var reg := DoUnregister(r, h, close).reg;
    forall x
      ensures Lost(reg, x) <==> x in UnregisterLoses(r, h, close)
    {
      UnregisterLost(r, h, close, x);
    }
    if Listed(r, h) && !close && r.entries[Find(r.entries, h)].fd != -1 {
      assert Lost(reg, r.entries[Find(r.entries, h)].fd);
    }
  }

  // --- Registration ---

  lemma FindPushed<H>(es: seq<Entry<H>>, e: Entry<H>)
    requires Find(es, e.h) == |es|
    ensures Find(es + [e], e.h) == |es|
  {
    assert forall k :: 0 <= k < |es| ==> (es + [e])[k].h != e.h;
    assert (es + [e])[|es|].h == e.h;
    FindAt(es + [e], e.h, |es|);
  }

  lemma FindAt<H>(es: seq<Entry<H>>, h: H, i: nat)
    requires i < |es| && es[i].h == h && forall k :: 0 <= k < i ==> es[k].h != h
    ensures Find(es, h) == i
  {
  }

  /** Undoing the addition of an entry: only its socket can be left over. */
  lemma UnregisterPushed<H>(r: Registry<H>, e: Entry<H>, close: bool)
    requires !Listed(r, e.h)
    ensures DoUnregister(Push(r, e), e.h, close) ==
      Outcome(if e.fd != -1 && close then r.(open := r.open - {e.fd}) else r, NO_ERROR)
  {
    FindPushed(r.entries, e);
    var d := DoDisconnect(Push(r, e), e.h, close).reg;
    assert d.entries[..|r.entries|] == r.entries;
    assert d.entries[..|r.entries|] + d.entries[|r.entries| + 1..] == r.entries;
  }

  lemma ConnectPushed<H>(r: Registry<H>, e: Entry<H>, d: Dial)
    requires !Listed(r, e.h) && e.fd == -1 && FreshDial(r, d)
    ensures var c := DoConnect(Push(r, e), e.h, d);
      (c.reg == Push(r, e) && c.code != NO_ERROR)
      || (d.socket.Some? && c.reg == Push(r.(open := r.open + {d.socket.value}), e.(fd := d.socket.value)))
    ensures DoConnect(Push(r, e), e.h, d).code == NO_ERROR <==> d.socket.Some? && d.option && d.connect
  {
    FindPushed(r.entries, e);
    if d.socket.Some? {
      var fd := d.socket.value;
      var dialed := Push(r.(open := r.open + {fd}), e.(fd := fd));
      assert (r.entries + [e])[|r.entries| := e.(fd := fd)] == r.entries + [e.(fd := fd)];
      FindPushed(r.entries, e.(fd := fd));
      if d.close {
        assert dialed.entries[|r.entries| := e] == r.entries + [e];
        assert r.open + {fd} - {fd} == r.open;
      }
    }
  }

  ghost predicate Duplicate<H>(r: Registry<H>, port: int, s: Setup<H>) {
    r.up && s.memory.Some? && s.host.Some?
    && FindAddress(r.entries, Address(port % 0x1_0000, s.host.value)) < |r.entries|
  }

  ghost predicate PortOk(port: int) {
    0 <= port < 0x1_0000
  }

  /** The one failure behind a complete dialogue: the connection is to be closed again, and that fails. */
  ghost predicate StaysConnected<H>(r: Registry<H>, port: int, flags: int, s: Setup<H>) {
    && r.up && s.memory.Some? && s.host.Some? && !Duplicate(r, port, s)
    && s.dial.socket.Some? && s.dial.option && s.dial.connect && s.exchange == NO_ERROR
    && flags != ALSO_CONNECT && !s.close
  }

  /** The entry of a new handle. */
  ghost function NewEntry<H>(port: int, s: Setup<H>, fd: int): Entry<H>
    requires s.memory.Some? && s.host.Some?
  {
    Entry(s.memory.value, fd, Some(Address(port % 0x1_0000, s.host.value)), port % 0x1_0000)
  }

  /** Such a call returns an error although the new handle is listed and connected. */
  lemma ConnectedOnFailure<H>(r: Registry<H>, port: int, flags: int, s: Setup<H>)
    requires Inv(r) && Fair(r, Register(port, flags, s)) && StaysConnected(r, port, flags, s)
    ensures var fd := s.dial.socket.value;
      DoRegister(r, port, flags, s) == Outcome(Push(r.(open := r.open + {fd}), NewEntry(port, s, fd)), CLOSE_FAILED)
  {
    var fd := s.dial.socket.value;
    ConnectPushed(r, NewEntry(port, s, -1), s.dial);
    FindPushed(r.entries, NewEntry(port, s, fd));
  }

  lemma DialUndone<H>(r: Registry<H>, e: Entry<H>, flags: int, s: Setup<H>)
    requires !Listed(r, e.h) && e.fd == -1 && FreshDial(r, s.dial)
    ensures var o := DialAndExchange(Push(r, e), e.h, flags, s);
      o.code != NO_ERROR && (s.exchange != NO_ERROR || !s.dial.connect || !s.dial.option || s.dial.socket.None?) ==>
        o.reg.entries == r.entries && (s.close ==> o.reg == r)
  {
    ConnectPushed(r, e, s.dial);
    UnregisterPushed(r, e, s.close);
    if s.dial.socket.Some? {
      var fd := s.dial.socket.value;
      UnregisterPushed(r.(open := r.open + {fd}), e.(fd := fd), s.close);
      assert r.open + {fd} - {fd} == r.open;
    }
  }

  lemma RegisterUndone<H>(r: Registry<H>, port: int, flags: int, s: Setup<H>)
    requires Inv(r) && Fair(r, Register(port, flags, s)) && !StaysConnected(r, port, flags, s)
    ensures var o := DoRegister(r, port, flags, s);
      o.code != NO_ERROR ==>
        && (o.reg.entries == r.entries <==> !Duplicate(r, port, s) || PortOk(port))
        && (s.close ==> (o.reg == r <==> !Duplicate(r, port, s) || PortOk(port)))
  {
    RegisterSucceeds(r, port, flags, s);
    if r.up && s.memory.Some? {
      if s.host.None? {
        UnregisterPushed(r, Entry(s.memory.value, -1, None, port % 0x1_0000), s.close);
      } else if Duplicate(r, port, s) {
        DuplicateUndone(r, NewEntry(port, s, -1), port, flags, s);
        assert Push(r, NewEntry(port, s, -1)).entries != r.entries;
      } else {
        DialUndone(r, NewEntry(port, s, -1), flags, s);
      }
    }
  }

  /** All or nothing: a failed registration leaves the list as it was, exactly unless it is a duplicate
      requested by a port number outside 16 bits, or nothing but the closing at the end has failed. Given
      that the sockets close, it leaves the open sockets as they were too. */
  lemma RegisterAtomic<H>(r: Registry<H>, port: int, flags: int, s: Setup<H>)
    requires Inv(r) && Fair(r, Register(port, flags, s))
    ensures var o := DoRegister(r, port, flags, s);
      o.code != NO_ERROR ==>
        && (o.reg.entries == r.entries <==>
            (!Duplicate(r, port, s) || PortOk(port)) && !StaysConnected(r, port, flags, s))
        && (s.close ==> (o.reg == r <==> !Duplicate(r, port, s) || PortOk(port)))
  {
    if StaysConnected(r, port, flags, s) {
      ConnectedOnFailure(r, port, flags, s);
    } else {
      RegisterUndone(r, port, flags, s);
    }
  }

  /** A successful registration appends one handle, connected if and only if that was asked for. */
  lemma RegisterAppends<H>(r: Registry<H>, port: int, flags: int, s: Setup<H>)
    requires Inv(r) && Fair(r, Register(port, flags, s))
    requires DoRegister(r, port, flags, s).code == NO_ERROR
    ensures r.up && s.memory.Some? && s.host.Some? && s.dial.socket.Some? && !Duplicate(r, port, s)
    ensures DoRegister(r, port, flags, s).reg ==
      if flags == ALSO_CONNECT
      then Push(r.(open := r.open + {s.dial.socket.value}), NewEntry(port, s, s.dial.socket.value))
      else Push(r, NewEntry(port, s, -1))
  {
    RegisterSucceeds(r, port, flags, s);
    var e, fd := NewEntry(port, s, -1), s.dial.socket.value;
    ConnectPushed(r, e, s.dial);
    FindPushed(r.entries, e.(fd := fd));
    assert (r.entries + [e.(fd := fd)])[|r.entries| := e] == r.entries + [e];
    assert r.open + {fd} - {fd} == r.open;
  }

  /** When a registration succeeds. */
  lemma RegisterSucceeds<H>(r: Registry<H>, port: int, flags: int, s: Setup<H>)
    requires Inv(r) && Fair(r, Register(port, flags, s))
    ensures DoRegister(r, port, flags, s).code == NO_ERROR <==>
      && r.up && s.memory.Some? && s.host.Some? && !Duplicate(r, port, s)
      && s.dial.socket.Some? && s.dial.option && s.dial.connect && s.exchange == NO_ERROR
      && (flags == ALSO_CONNECT || s.close)
  {
    if r.up && s.memory.Some? && s.host.Some? && !Duplicate(r, port, s) {
      var e := Entry(s.memory.value, -1, Some(Address(port % 0x1_0000, s.host.value)), port % 0x1_0000);
      ConnectPushed(r, e, s.dial);
      DialLeft(r, e, s.dial);
    }
  }

  lemma PushInv<H>(r: Registry<H>, e: Entry<H>)
    requires Inv(r) && r.up && !Listed(r, e.h) && Resolved(e) && e.fd == -1
    ensures Inv(Push(r, e))
    ensures DistinctEndpoints(r.entries) ==>
      (DistinctEndpoints(Push(r, e).entries) <==> FindAddress(r.entries, e.address.value) == |r.entries|)
  {
    var es := Push(r, e).entries;
    assert forall k :: 0 <= k < |r.entries| ==> es[k] == r.entries[k];
    assert es[|r.entries|] == e;
  }

  lemma PushLost<H>(r: Registry<H>, e: Entry<H>, x: int)
    requires Inv(r) && e.fd == -1
    ensures Lost(Push(r, e), x) <==> Lost(r, x)
  {
    var es := Push(r, e).entries;
    if x in r.open {
      if Owns(r, x) {
        var i :| 0 <= i < |r.entries| && r.entries[i].fd == x;
        assert es[i].fd == x;
      }
      if Owns(Push(r, e), x) {
        var i :| 0 <= i < |es| && es[i].fd == x;
        assert r.entries[i].fd == x;
      }
    }
  }

  /** Registration keeps the invariant, and keeps the endpoints distinct exactly if it is not the duplicate
      with an oversized port. */
  lemma RegisterInv<H>(r: Registry<H>, port: int, flags: int, s: Setup<H>)
    requires Inv(r) && Fair(r, Register(port, flags, s))
    ensures var o := DoRegister(r, port, flags, s);
      && Inv(o.reg)
      && (DistinctEndpoints(r.entries) ==>
          (DistinctEndpoints(o.reg.entries) <==> !Duplicate(r, port, s) || PortOk(port)))
  {
    if r.up && s.memory.Some? {
      var e := Entry(s.memory.value, -1, None, port % 0x1_0000);
      if s.host.None? {
        UnregisterPushed(r, e, s.close);
      } else {
        var e := e.(address := Some(Address(port % 0x1_0000, s.host.value)));
        PushInv(r, e);
        if Duplicate(r, port, s) {
          DuplicateUndone(r, e, port, flags, s);
        } else {
          AddedInv(Push(r, e), e.h, flags, s);
        }
      }
    }
  }

  /** The connection is still open when the handle is taken off the list again: a step behind `socket`
      has failed, and what was opened was not closed right away. */
  ghost predicate FailsOpen<H>(s: Setup<H>) {
    && s.dial.socket.Some?
    && (!s.dial.option || (!s.dial.connect && !s.dial.close) || (s.dial.connect && s.exchange != NO_ERROR))
  }

  /** The socket that a registration loses. */
  ghost function RegisterLoses<H>(r: Registry<H>, port: int, s: Setup<H>): set<int> {
    if r.up && s.memory.Some? && s.host.Some? && !Duplicate(r, port, s) && FailsOpen(s) && !s.close
    then {s.dial.socket.value} else {}
  }

  /** Of a handle listed without a connection, connecting leaves open what was dialled, unless `connect`
      failed and the socket was closed. */
  lemma DialLeft<H>(r: Registry<H>, e: Entry<H>, d: Dial)
    requires !Listed(r, e.h) && e.fd == -1 && FreshDial(r, d)
    ensures var c := DoConnect(Push(r, e), e.h, d).reg;
      && Find(c.entries, e.h) == |r.entries| && |c.entries| == |r.entries| + 1
      && c.entries[|r.entries|].fd ==
        if d.socket.Some? && (!d.option || d.connect || !d.close) then d.socket.value else -1
  {
    FindPushed(r.entries, e);
    if d.socket.Some? {
      FindPushed(r.entries, e.(fd := d.socket.value));
      assert (r.entries + [e])[|r.entries| := e.(fd := d.socket.value)] == r.entries + [e.(fd := d.socket.value)];
      assert (r.entries + [e.(fd := d.socket.value)])[|r.entries| := e] == r.entries + [e];
    }
  }

  lemma AddedLost<H>(r: Registry<H>, e: Entry<H>, flags: int, s: Setup<H>, x: int)
    requires Inv(r) && r.up && !Listed(r, e.h) && Resolved(e) && e.fd == -1 && FreshDial(r, s.dial)
    ensures Lost(DialAndExchange(Push(r, e), e.h, flags, s).reg, x) <==>
      Lost(r, x) || (FailsOpen(s) && !s.close && x == s.dial.socket.value)
  {
    var c := DoConnect(Push(r, e), e.h, s.dial);
    PushInv(r, e);
    PushLost(r, e, x);
    ConnectInv(Push(r, e), e.h, s.dial);
    ConnectLost(Push(r, e), e.h, s.dial, x);
    ConnectPushed(r, e, s.dial);
    DialLeft(r, e, s.dial);
    if c.code != NO_ERROR || s.exchange != NO_ERROR {
      UnregisterLost(c.reg, e.h, s.close, x);
    } else if flags != ALSO_CONNECT {
      DisconnectLost(c.reg, e.h, s.close, x);
    }
  }

  /** What a registration loses, whatever was lost before. */
  lemma RegisterLost<H>(r: Registry<H>, port: int, flags: int, s: Setup<H>, x: int)
    requires Inv(r) && Fair(r, Register(port, flags, s))
    ensures Lost(DoRegister(r, port, flags, s).reg, x) <==> Lost(r, x) || x in RegisterLoses(r, port, s)
  {
    if r.up && s.memory.Some? {
      var e := Entry(s.memory.value, -1, None, port % 0x1_0000);
      if s.host.None? {
        UnregisterPushed(r, e, s.close);
      } else {
        var e := e.(address := Some(Address(port % 0x1_0000, s.host.value)));
        if Duplicate(r, port, s) {
          DuplicateUndone(r, e, port, flags, s);
          PushLost(r, e, x);
        } else {
          AddedLost(r, e, flags, s, x);
        }
      }
    }
  }

  /** A duplicate is taken off the list again exactly if the port number fits 16 bits. */
  lemma DuplicateUndone<H>(r: Registry<H>, e: Entry<H>, port: int, flags: int, s: Setup<H>)
    requires Inv(r) && Fair(r, Register(port, flags, s)) && Duplicate(r, port, s)
    requires e == Entry(s.memory.value, -1, Some(Address(port % 0x1_0000, s.host.value)), port % 0x1_0000)
    ensures DoRegister(r, port, flags, s) ==
      Outcome(if PortOk(port) then r else Push(r, e), HANDLE_ALREADY_EXISTS)
  {
    UnregisterPushed(r, e, s.close);
    var i := FindAddress(r.entries, e.address.value);
    assert Resolved(r.entries[i]) && r.entries[i].port == port % 0x1_0000;
  }

  lemma AddedInv<H>(added: Registry<H>, h: H, flags: int, s: Setup<H>)
    requires Inv(added) && FreshDial(added, s.dial)
    ensures var o := DialAndExchange(added, h, flags, s);
      Inv(o.reg) && (DistinctEndpoints(added.entries) ==> DistinctEndpoints(o.reg.entries))
  {
    var c := DoConnect(added, h, s.dial);
    ConnectInv(added, h, s.dial);
    if c.code != NO_ERROR || s.exchange != NO_ERROR {
      UnregisterInv(c.reg, h, s.close);
    } else if flags != ALSO_CONNECT {
      DisconnectInv(c.reg, h, s.close);
    }
  }

  // --- Every run ---

  /** The registry without its last handle, whose socket is closed unless it is stuck. */
  ghost function Shorter<H>(r: Registry<H>, stuck: set<int>): Registry<H>
    requires r.entries != []
  {
    var n := |r.entries| - 1;
    var fd := r.entries[n].fd;
    r.(entries := r.entries[..n], open := if fd == -1 || fd in stuck then r.open else r.open - {fd})
  }

  lemma UnregisterLast<H>(r: Registry<H>, stuck: set<int>)
    requires Inv(r) && r.entries != []
    ensures UnregisterAll(r, stuck) == UnregisterAll(Shorter(r, stuck), stuck) && Inv(Shorter(r, stuck))
  {
    var n := |r.entries| - 1;
    var last := r.entries[n];
    FindUnique(r.entries, n);
    UnregisterInv(r, last.h, last.fd !in stuck);
    assert DoUnregister(r, last.h, last.fd !in stuck).reg == Shorter(r, stuck);
  }

  lemma ShorterOwns<H>(r: Registry<H>, stuck: set<int>, fd: int)
    requires Inv(r) && r.entries != []
    ensures fd in Shorter(r, stuck).open && (fd in stuck || !Owns(Shorter(r, stuck), fd)) <==>
      fd in r.open && (fd in stuck || !Owns(r, fd))
  {
  }

  /** Deinitialisation empties the list, and closes exactly the listed connections that can be closed. */
  lemma {:induction false} UnregisterAllInv<H>(r: Registry<H>, stuck: set<int>, fd: int)
    requires Inv(r)
    ensures Inv(UnregisterAll(r, stuck)) && UnregisterAll(r, stuck).entries == []
    ensures fd in UnregisterAll(r, stuck).open <==> fd in r.open && (fd in stuck || !Owns(r, fd))
    decreases |r.entries|
  {
    if r.entries != [] {
      UnregisterLast(r, stuck);
      UnregisterAllInv(Shorter(r, stuck), stuck, fd);
      ShorterOwns(r, stuck, fd);
    }
  }

  /** After a deinitialisation exactly the stuck sockets are open, if none had leaked before. */
  lemma DeinitializeCloses<H>(r: Registry<H>, stuck: set<int>)
    requires Inv(r) && r.up
    ensures var o := DoDeinitialize(r, stuck);
      o.code == NO_ERROR && !o.reg.up && Inv(o.reg) && (NoLeak(r) ==> o.reg.open == r.open * stuck)
  {
    UnregisterAllInv(r, stuck, -1);
    if NoLeak(r) {
      forall fd
        ensures fd in UnregisterAll(r, stuck).open <==> fd in r.open * stuck
      {
        UnregisterAllInv(r, stuck, fd);
        assert !Lost(r, fd);
      }
    }
  }

  lemma DeinitializeLost<H>(r: Registry<H>, stuck: set<int>, x: int)
    requires Inv(r)
    ensures Lost(DoDeinitialize(r, stuck).reg, x) <==> Lost(r, x) || (r.up && x in r.open && x in stuck)
  {
    if r.up {
      UnregisterAllInv(r, stuck, x);
    }
  }

  /** The sockets that a step loses, by its inputs and the registry before it. */
  ghost function Loses<H>(r: Registry<H>, c: Call<H>): set<int> {
    match c
    case Deinitialize(stuck) => if r.up then r.open * stuck else {}
    case Register(port, _, s) => RegisterLoses(r, port, s)
    case Unregister(h, close) => UnregisterLoses(r, h, close)
    case _ => {}
  }

  /** One step: the lost sockets are those lost before and those this step loses. */
  lemma StepLost<H>(r: Registry<H>, c: Call<H>, x: int)
    requires Inv(r) && Fair(r, c)
    ensures Lost(Step(r, c).reg, x) <==> Lost(r, x) || x in Loses(r, c)
  {
    match c
    case Initialize =>
    case Deinitialize(stuck) => DeinitializeLost(r, stuck, x);
    case Register(port, flags, s) => RegisterLost(r, port, flags, s, x);
    case Unregister(h, close) => UnregisterLost(r, h, close, x);
    case Connect(h, dial) => ConnectLost(r, h, dial, x);
    case Disconnect(h, close) => DisconnectLost(r, h, close, x);
  }

  /** The step lists an endpoint a second time. */
  ghost predicate ListsTwice<H>(r: Registry<H>, c: Call<H>) {
    c.Register? && Duplicate(r, c.port, c.setup) && !PortOk(c.port)
  }

  lemma NoLeakStep<H>(r: Registry<H>, c: Call<H>)
    requires Inv(r) && Fair(r, c) && NoLeak(r)
    ensures NoLeak(Step(r, c).reg) <==> Loses(r, c) == {}
  {
    forall x
      ensures Lost(Step(r, c).reg, x) <==> x in Loses(r, c)
    {
      StepLost(r, c, x);
      assert !Lost(r, x);
    }
    var after, loses := Step(r, c).reg, Loses(r, c);
    if NoLeak(after) {
      assert forall x :: !Lost(after, x);
      assert forall x :: x !in loses;
    }
  }

  lemma EndpointsStep<H>(r: Registry<H>, c: Call<H>)
    requires Inv(r) && Fair(r, c)
    ensures Inv(Step(r, c).reg)
    ensures DistinctEndpoints(r.entries) ==> (DistinctEndpoints(Step(r, c).reg.entries) <==> !ListsTwice(r, c))
  {
    match c
    case Initialize =>
    case Deinitialize(stuck) =>
      if r.up {
        UnregisterAllInv(r, stuck, -1);
      }
    case Register(port, flags, s) => RegisterInv(r, port, flags, s);
    case Unregister(h, close) => UnregisterInv(r, h, close);
    case Connect(h, dial) => ConnectInv(r, h, dial);
    case Disconnect(h, close) => DisconnectInv(r, h, close);
  }

  /** One step, whatever the call and the outcomes of its system calls: what it keeps, and exactly when it
      leaks a socket or lists an endpoint twice. */
  lemma StepKeeps<H>(r: Registry<H>, c: Call<H>)
    requires Inv(r) && Fair(r, c)
    ensures Inv(Step(r, c).reg)
    ensures NoLeak(r) ==> (NoLeak(Step(r, c).reg) <==> Loses(r, c) == {})
    ensures DistinctEndpoints(r.entries) ==> (DistinctEndpoints(Step(r, c).reg.entries) <==> !ListsTwice(r, c))
  {
    EndpointsStep(r, c);
    if NoLeak(r) {
      NoLeakStep(r, c);
    }
  }

  /** The sockets that the steps of a run lose. */
  ghost function RunLoses<H>(r: Registry<H>, calls: seq<Call<H>>): set<int>
    decreases |calls|
  {
    if calls == [] then {} else Loses(r, calls[0]) + RunLoses(Step(r, calls[0]).reg, calls[1..])
  }

  /** Some step of the run lists an endpoint twice. */
  ghost predicate RunListsTwice<H>(r: Registry<H>, calls: seq<Call<H>>)
    decreases |calls|
  {
    calls != [] && (ListsTwice(r, calls[0]) || RunListsTwice(Step(r, calls[0]).reg, calls[1..]))
  }

  /** A lost socket never finds an owner again, nor is it closed: what is lost after a run is exactly what
      was lost before it and what its steps lost. */
  lemma {:induction false} RunLost<H>(r: Registry<H>, calls: seq<Call<H>>, x: int)
    requires Inv(r) && Run(r, calls)
    ensures Lost(After(r, calls), x) <==> Lost(r, x) || x in RunLoses(r, calls)
    decreases |calls|
  {
    if calls != [] {
      StepKeeps(r, calls[0]);
      StepLost(r, calls[0], x);
      RunLost(Step(r, calls[0]).reg, calls[1..], x);
    }
  }

  /** Every run, from the empty, uninitialised library for instance: handles are distinct and own their open
      sockets; a socket leaks exactly if some step loses one; endpoints stay distinct unless some step lists
      one twice. */
  lemma {:induction false} RunKeeps<H>(r: Registry<H>, calls: seq<Call<H>>)
    requires Inv(r) && Run(r, calls)
    ensures Inv(After(r, calls))
    ensures NoLeak(After(r, calls)) <==> NoLeak(r) && RunLoses(r, calls) == {}
    ensures DistinctEndpoints(r.entries) && !RunListsTwice(r, calls) ==> DistinctEndpoints(After(r, calls).entries)
    decreases |calls|
  {
    RunLeaks(r, calls);
    if calls != [] {
      StepKeeps(r, calls[0]);
      RunKeeps(Step(r, calls[0]).reg, calls[1..]);
    }
  }

  /** Every entry of a is still in its place in b, at the same address. */
  ghost predicate Keeps<H>(a: seq<Entry<H>>, b: seq<Entry<H>>) {
    |a| <= |b| && forall i :: 0 <= i < |a| ==> b[i].address == a[i].address
  }

  lemma KeepsDouble<H>(a: seq<Entry<H>>, b: seq<Entry<H>>)
    requires Keeps(a, b) && !DistinctEndpoints(a)
    ensures !DistinctEndpoints(b)
  {
    var i, j :| 0 <= i < j < |a| && a[i].address == a[j].address;
    assert b[i].address == b[j].address;
  }

  /** The calls that take no handle off the list. */
  ghost predicate Grows<H>(c: Call<H>) {
    !c.Unregister? && !c.Deinitialize?
  }

  lemma AddedKeeps<H>(r: Registry<H>, e: Entry<H>, flags: int, s: Setup<H>)
    requires Inv(r) && r.up && !Listed(r, e.h) && e.fd == -1 && FreshDial(r, s.dial)
    ensures Keeps(r.entries, DialAndExchange(Push(r, e), e.h, flags, s).reg.entries)
  {
    ConnectPushed(r, e, s.dial);
    UnregisterPushed(r, e, s.close);
    if s.dial.socket.Some? {
      var fd := s.dial.socket.value;
      UnregisterPushed(r.(open := r.open + {fd}), e.(fd := fd), s.close);
    }
  }

  lemma RegisterGrows<H>(r: Registry<H>, port: int, flags: int, s: Setup<H>)
    requires Inv(r) && Fair(r, Register(port, flags, s)) && r.up && s.memory.Some?
    ensures Keeps(r.entries, DoRegister(r, port, flags, s).reg.entries)
  {
    if s.host.None? {
      UnregisterPushed(r, Entry(s.memory.value, -1, None, port % 0x1_0000), s.close);
    } else if Duplicate(r, port, s) {
      DuplicateUndone(r, NewEntry(port, s, -1), port, flags, s);
    } else {
      AddedKeeps(r, NewEntry(port, s, -1), flags, s);
    }
  }

  lemma StepGrows<H>(r: Registry<H>, c: Call<H>)
    requires Inv(r) && Fair(r, c) && Grows(c)
    ensures Keeps(r.entries, Step(r, c).reg.entries)
  {
    if c.Register? && r.up && c.setup.memory.Some? {
      RegisterGrows(r, c.port, c.flags, c.setup);
    }
  }

  lemma {:induction false} RunGrows<H>(r: Registry<H>, calls: seq<Call<H>>)
    requires Inv(r) && Run(r, calls) && forall i :: 0 <= i < |calls| ==> Grows(calls[i])
    requires !DistinctEndpoints(r.entries)
    ensures !DistinctEndpoints(After(r, calls).entries)
    decreases |calls|
  {
    if calls != [] {
      StepGrows(r, calls[0]);
      StepKeeps(r, calls[0]);
      KeepsDouble(r.entries, Step(r, calls[0]).reg.entries);
      RunGrows(Step(r, calls[0]).reg, calls[1..]);
    }
  }

  /** Over a run that takes no handle off the list, endpoints stay distinct exactly if no step lists one twice. */
  lemma {:induction false} EndpointsExact<H>(r: Registry<H>, calls: seq<Call<H>>)
    requires Inv(r) && Run(r, calls) && forall i :: 0 <= i < |calls| ==> Grows(calls[i])
    requires DistinctEndpoints(r.entries)
    ensures DistinctEndpoints(After(r, calls).entries) <==> !RunListsTwice(r, calls)
    decreases |calls|
  {
    if calls != [] {
      StepKeeps(r, calls[0]);
      if ListsTwice(r, calls[0]) {
        RunGrows(Step(r, calls[0]).reg, calls[1..]);
      } else {
        EndpointsExact(Step(r, calls[0]).reg, calls[1..]);
      }
    }
  }

  lemma RunLeaks<H>(r: Registry<H>, calls: seq<Call<H>>)
    requires Inv(r) && Run(r, calls)
    ensures NoLeak(After(r, calls)) <==> NoLeak(r) && RunLoses(r, calls) == {}
  {
    var after, loses := After(r, calls), RunLoses(r, calls);
    forall x
      ensures Lost(after, x) <==> Lost(r, x) || x in loses
    {
      RunLost(r, calls, x);
    }
    if NoLeak(after) {
      assert forall x :: !Lost(after, x);
      assert forall x :: x !in loses;
    }
  }

  /** Inputs for which no step loses a socket: everything can be closed. */
  ghost predicate Closes<H>(c: Call<H>) {
    match c
    case Deinitialize(stuck) => stuck == {}
    case Register(_, _, s) => s.close
    case Unregister(_, close) => close
    case _ => true
  }

  /** If everything can be closed and every port number fits 16 bits, nothing leaks and nothing is listed twice. */
  lemma {:induction false} CleanRun<H>(r: Registry<H>, calls: seq<Call<H>>)
    requires forall i :: 0 <= i < |calls| ==> Closes(calls[i]) && (calls[i].Register? ==> PortOk(calls[i].port))
    ensures RunLoses(r, calls) == {} && !RunListsTwice(r, calls)
    decreases |calls|
  {
    if calls != [] {
      CleanRun(Step(r, calls[0]).reg, calls[1..]);
    }
  }

  /** The outcome of a first registration whose description exchange fails, and whose socket then fails to
      close: the handle is gone, and the socket stays open. */
  lemma ExchangeFails<H>(r: Registry<H>, h: H, port: int, flags: int, s: Setup<H>, host: Host, fd: int)
    requires r == Registry(true, [], {}) && s.memory == Some(h) && s.host == Some(host)
    requires s.dial == Dial(Some(fd), true, true, true) && s.exchange != NO_ERROR && !s.close && fd >= 0
    ensures DoRegister(r, port, flags, s) == Outcome(r.(open := {fd}), s.exchange)
  {
    var e := Entry(h, -1, Some(Address(port % 0x1_0000, host)), port % 0x1_0000);
    ConnectPushed(r, e, s.dial);
    UnregisterPushed(r.(open := r.open + {fd}), e.(fd := fd), false);
  }

  /** A registration that leaks: nobody owns the socket it leaves open. */
  lemma FailedRegistrationLeaks<H>(h: H, host: Host, fd: int)
    requires fd >= 0
    ensures var r: Registry<H> := Registry(true, [], {});
      var o := DoRegister(r, 26482, 0, Setup(Some(h), Some(host), Dial(Some(fd), true, true, true), 100014, false));
      Inv(r) && NoLeak(r) && o == Outcome(r.(open := {fd}), 100014) && Lost(o.reg, fd)
  {
    var r: Registry<H> := Registry(true, [], {});
    var s := Setup(Some(h), Some(host), Dial(Some(fd), true, true, true), 100014, false);
    ExchangeFails(r, h, 26482, 0, s, host, fd);
  }

  lemma StartsSound<H>()
    ensures var r: Registry<H> := Registry(false, [], {});
      Inv(r) && NoLeak(r) && DistinctEndpoints(r.entries)
  {
  }

  /** With distinct endpoints the lookup finds exactly the handle registered for host and port, and
      answers that there is none exactly if none is listed. */
  lemma GetHandleUnique<H>(r: Registry<H>, host: Host, port: int, i: nat)
    requires Inv(r) && DistinctEndpoints(r.entries) && i < |r.entries|
    ensures DoGetHandle(r, Some(host), port) == Some(r.entries[i].h) <==>
      r.entries[i].address == Some(Address(port, host))
    ensures DoGetHandle(r, Some(host), port).None? <==>
      forall k :: 0 <= k < |r.entries| ==> r.entries[k].address != Some(Address(port, host))
  {
  }

  /** A duplicate that stays listed: the same endpoint asked for as port 26482 + 65536. */
  lemma OversizedPortListsTwice<H>(h1: H, h2: H, host: Host)
    requires h1 != h2
    ensures var e := Entry(h1, -1, Some(Address(26482, host)), 26482);
      var s := Setup(Some(h2), Some(host), Dial(None, true, true, true), 0, true);
      var o := DoRegister(Registry(true, [e], {}), 92018, 0, s);
      o.code == HANDLE_ALREADY_EXISTS && o.reg.entries == [e, e.(h := h2)]
  {
  }
}

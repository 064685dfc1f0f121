/** The library's global handle list, with the operations that change it. */
module Registry {
  import opened Bytes
  import opened Handles
  import opened RegistrySpec
  import opened Analyzer
  import opened Framing
  import opened Session
  import opened Describing
  import SessionSpec

  ghost function EntryOf(h: Handle): Entry<Handle>
    reads h
  {
    Entry(h, h.socketfd, h.address, h.portno)
  }

  ghost function EntriesOf(hs: seq<Handle>): (es: seq<Entry<Handle>>)
    reads hs
    ensures |es| == |hs| && forall i :: 0 <= i < |hs| ==> es[i] == EntryOf(hs[i])
  {
    seq(|hs|, i requires 0 <= i < |hs| reads hs => EntryOf(hs[i]))
  }

  /** The arbitrary content of newly allocated memory. */
  datatype Memory = Memory(hardware: Hardware, limits: Limits, inputs: seq<Input>, current: Settings, panel: FrontPanel)


  const PANEL_REQUEST := [SessionSpec.BLKFIN_CMDS, SessionSpec.READ_FP_HW_DESC]

  /** The packets of the three requests; the last one is for the front panel. */
  function HardwarePacket(): seq<byte> { Packet([HW_DESC, 0]) }
  function LnbPacket(): seq<byte> { Packet([LNB_DESC]) }
  function PanelPacket(): seq<byte> { Packet(PANEL_REQUEST) }

  function PanelPackets(hw: Hardware): seq<seq<byte>> {
    if HasPanel(hw.prodID, hw.projID) then [PanelPacket()] else []
  }

  /** What a registration sends, as calls of `send`. */
  function Requested(hw: Hardware): seq<seq<byte>> {
    [HardwarePacket()] + [LnbPacket()] + PanelPackets(hw)
  }

  lemma RequestedInAll(sent: seq<seq<byte>>, hw: Hardware)
    ensures sent + [HardwarePacket()] + [LnbPacket()] + PanelPackets(hw) == sent + Requested(hw)
  {
  }

  /** Packet by packet; the third is for the front panel, if there is one. */
  lemma RequestedBytes(hw: Hardware)
    ensures Requested(hw) ==
      [[0x02, 0x00, 0x03, 0x07, 0x00, 0x03], [0x02, 0x00, 0x02, 0x0D, 0x03]]
      + if HasPanel(hw.prodID, hw.projID) then [[0x02, 0x00, 0x03, 0x27, 0x22, 0x03]] else []
  {
    assert HardwarePacket() == [0x02, 0x00, 0x03, 0x07, 0x00, 0x03];
    assert LnbPacket() == [0x02, 0x00, 0x02, 0x0D, 0x03];
    assert PanelPacket() == [0x02, 0x00, 0x03, 0x27, 0x22, 0x03];
  }

  /** The loop of a deinitialisation takes one handle after the other from the end. */
  lemma {:induction false} LastStep<H>(r: RegistrySpec.Registry<H>, stuck: set<int>, h: H, fd: int)
    requires r.entries != [] && r.entries[|r.entries| - 1].h == h && r.entries[Find(r.entries, h)].fd == fd
    ensures UnregisterAll(r, stuck) == UnregisterAll(DoUnregister(r, h, fd !in stuck).reg, stuck)
    ensures |DoUnregister(r, h, fd !in stuck).reg.entries| < |r.entries|
  {
  }

  class Library {
    /** `plist != NULL`, and the list itself. */
    var up: bool
    var plist: seq<Handle>
    /** The sockets the library holds open. */
    var sockets: set<int>

    ghost function View(): RegistrySpec.Registry<Handle>
      reads this, plist
    {
      RegistrySpec.Registry(up, EntriesOf(plist), sockets)
    }

    ghost predicate Valid()
      reads this
    {
      forall i, j :: 0 <= i < j < |plist| ==> plist[i] != plist[j]
    }

    constructor ()
      ensures Valid() && View() == RegistrySpec.Registry(false, [], {})
    {
      up, plist, sockets := false, [], {};
    }

    /** The list position of a handle, by linear search; the length if it is not listed. */
    method Search(h: Handle) returns (i: nat)
      ensures i == Find(EntriesOf(plist), h)
    {
      i := 0;
      while i < |plist|
        invariant 0 <= i <= |plist|
        invariant forall k :: 0 <= k < i ==> plist[k] != h
      {
        if plist[i] == h {
          break;
        }
        i := i + 1;
      }
      ghost var es := EntriesOf(plist);
      assert forall k :: 0 <= k < i ==> es[k].h != h;
    }

    /** The first entry before the last one with this address. */
    method FirstWith(a: Address, ghost r: RegistrySpec.Registry<Handle>, ghost e: Entry<Handle>) returns (i: nat)
      requires View() == Push(r, e)
      ensures i == FindAddress(r.entries, a) && |plist| == |r.entries| + 1
      ensures i < |r.entries| ==> plist[i].portno == r.entries[i].port
    {
      i := 0;
      ghost var es := View().entries;
      while i < |plist| - 1
        invariant 0 <= i <= |plist| - 1
        invariant forall k :: 0 <= k < i ==> r.entries[k].address != Some(a)
      {
        assert r.entries[i] == es[i] == EntryOf(plist[i]);
        if plist[i].address == Some(a) {
          break;
        }
        i := i + 1;
      }
    }

    /** `checkforhandle`. */
    method CheckForHandle(h: Handle) returns (code: int)
      ensures code == if Listed(View(), h) then NO_ERROR else HANDLE_NOT_FOUND
    {
      var i := Search(h);
      code := if i < |plist| then NO_ERROR else HANDLE_NOT_FOUND;
    }

    method Disconnect(h: Handle, closed: bool) returns (code: int)
      requires Valid()
      modifies this`sockets, h`socketfd
      ensures Valid() && Outcome(View(), code) == DoDisconnect(old(View()), h, closed)
    {
      var check := CheckForHandle(h);
      if check != NO_ERROR {
        return HANDLE_NOT_FOUND;
      }
      if h.socketfd == -1 {
        return SOCKET_NOT_OPEN;
      }
      if !closed {
        return CLOSE_FAILED;
      }
      sockets := sockets - {h.socketfd};
      h.socketfd := -1;
      return NO_ERROR;
    }

    /** `AVCOM_SA_Connect`. The frame that greets a new connection is read and ignored. */
    method Connect(h: Handle, d: Dial, conn: Connection, garbage: byte) returns (code: int)
      requires Valid() && FreshDial(View(), d) && SessionSpec.Fits(conn.pending, conn.ending, garbage)
      modifies this`sockets, h`socketfd, conn
      ensures Valid() && Outcome(View(), code) == DoConnect(old(View()), h, d)
      ensures conn.pending ==
        if code == NO_ERROR then Greeted(old(conn.pending), conn.ending, garbage) else old(conn.pending)
    {
      code := Dial(h, d);
      if code == NO_ERROR {
        var rx := new byte[1024];
        var _, _ := conn.RecData(rx, garbage);
      }
    }

    method Dial(h: Handle, d: Dial) returns (code: int)
      requires Valid() && FreshDial(View(), d)
      modifies this`sockets, h`socketfd
      ensures Valid() && Outcome(View(), code) == DoConnect(old(View()), h, d)
    {
      var check := CheckForHandle(h);
      if check != NO_ERROR {
        return HANDLE_NOT_FOUND;
      }
      if h.socketfd != -1 {
        return SOCKET_ALREADY_OPEN;
      }
      if d.socket.None? {
        h.socketfd := -1;
        return SOCKET_FAILED;
      }
      ghost var r := View();
      h.socketfd := d.socket.value;
      sockets := sockets + {h.socketfd};
      assert View() == SetFd(r, Find(r.entries, h), d.socket.value).(open := r.open + {d.socket.value});
      if !d.option {
        return SETSOCKETOPT_FAILED;
      }
      if !d.connect {
        var _ := Disconnect(h, d.close);
        return CONNECT_FAILED;
      }
      return NO_ERROR;
    }

    /** Closes the gap at position `at`: later entries move down by one. */
    method Shift(at: nat)
      requires Valid() && at < |plist|
      modifies this`plist
      ensures Valid() && View() == Remove(old(View()), at)
      ensures forall k :: k in plist ==> k in old(plist)
    {
      var i := at;
      while i < |plist| - 1
        invariant at <= i < |plist| == |old(plist)|
        invariant forall k :: 0 <= k < at ==> plist[k] == old(plist)[k]
        invariant forall k :: at <= k < i ==> plist[k] == old(plist)[k + 1]
        invariant forall k :: i <= k < |plist| ==> plist[k] == old(plist)[k]
      {
        plist := plist[i := plist[i + 1]];
        i := i + 1;
      }
      plist := plist[..|plist| - 1];
      ghost var es := old(EntriesOf(plist));
      assert EntriesOf(plist) == es[..at] + es[at + 1..];
    }

    method Unregister(h: Handle, closed: bool) returns (code: int)
      requires Valid()
      modifies this`plist, this`sockets, h`socketfd
      ensures Valid() && Outcome(View(), code) == DoUnregister(old(View()), h, closed)
      ensures forall k :: k in plist ==> k in old(plist)
    {
      var i := Search(h);
      if i == |plist| {
        return HANDLE_NOT_FOUND;
      }
      var _ := Disconnect(h, closed);
      Shift(i);
      return NO_ERROR;
    }

    method Initialize() returns (code: int)
      requires Valid()
      modifies this`up, this`plist
      ensures Valid() && Outcome(View(), code) == DoInitialize(old(View()))
    {
      if up {
        return ALREADY_INITIALIZED;
      }
      up, plist := true, [];
      assert EntriesOf(plist) == [];
      return NO_ERROR;
    }

    /** `stuck` are the sockets that fail to close. */
    method Deinitialize(stuck: set<int>) returns (code: int)
      requires Valid()
      modifies this, plist
      ensures Valid() && Outcome(View(), code) == DoDeinitialize(old(View()), stuck)
    {
      if !up {
        return ALREADY_NOT_INITIALIZED;
      }
      while |plist| > 0
        invariant up && Valid()
        invariant forall h :: h in plist ==> h in old(plist)
        invariant UnregisterAll(View(), stuck) == UnregisterAll(old(View()), stuck)
        decreases |plist|
      {
        var h := plist[|plist| - 1];
        assert h in plist;
        UnregisterLastOne(h, stuck);
      }
      assert EntriesOf(plist) == [];
      up, plist := false, [];
      return NO_ERROR;
    }

    /** One round of the loop: the last handle is unregistered. */
    method UnregisterLastOne(h: Handle, stuck: set<int>)
      requires Valid() && plist != [] && h == plist[|plist| - 1]
      modifies this`plist, this`sockets, h`socketfd
      ensures Valid() && |plist| < |old(plist)|
      ensures forall h :: h in plist ==> h in old(plist)
      ensures UnregisterAll(View(), stuck) == UnregisterAll(old(View()), stuck)
    {
      ghost var r := View();
      assert r.entries[|plist| - 1].h == h;
      assert r.entries[Find(r.entries, h)] == EntryOf(h);
      LastStep(r, stuck, h, h.socketfd);
      var _ := Unregister(h, h.socketfd !in stuck);
    }

    /** `AVCOM_SA_GetHandle`, given the outcome of the address lookup. */
    method GetHandle(host: Option<Host>, port: int) returns (h: Option<Handle>)
      requires forall k :: k in plist ==> k.address.Some?
      ensures h == DoGetHandle(View(), host, port)
    {
      if host.None? {
        return None;
      }
      ghost var es, a := EntriesOf(plist), Address(port % 0x1_0000, host.value);
      var i := 0;
      while i < |plist|
        invariant 0 <= i <= |plist|
        invariant forall k :: 0 <= k < i ==> !(es[k].address == Some(a) && es[k].port == port)
      {
        if plist[i].address.value == Address(port % 0x1_0000, host.value) {
          if port == plist[i].portno {
            return Some(plist[i]);
          }
        }
        i := i + 1;
      }
      return None;
    }

    /** The exchanges of a registration: what is asked, and what is stored in the handle. */
    method Describe(h: Handle, line: Link, d: Introduction, garbage: byte, junk: seq<byte>) returns (code: int)
      requires Room(d, line.conn.pending, line.conn.ending, garbage, junk) && |h.inputs| == 6
      modifies h`hardware, h`limits, h`inputs, h`current, h`panel, line, line.conn
      ensures var x := Introduce(d, old(line.conn.pending), line.conn.ending, garbage, junk);
        code == x.code && line.conn.pending == x.rest && (code == NO_ERROR ==> Described(StoredIn(h), x))
      ensures code == NO_ERROR ==> line.sent == old(line.sent) + Requested(h.hardware)
    {
      var rx := new byte[1024](i requires 0 <= i < 1024 => junk[i]);
      assert rx[..] == junk;
      ghost var a := AskHardware(d, line.conn.pending, line.conn.ending, garbage, junk);
      code := DescribeHardware(h, line, d, rx, garbage, a);
      if code == NO_ERROR {
        code := DescribeRest(h, line, d, rx, garbage, a);
        RequestedInAll(old(line.sent), h.hardware);
      }
    }

    method DescribeHardware(h: Handle, line: Link, d: Introduction, rx: array<byte>, garbage: byte,
                            ghost a: SessionSpec.Heard) returns (code: int)
      requires rx.Length == 1024 && |h.inputs| == 6
      requires SessionSpec.Fits(line.conn.pending + d.hw.answer, line.conn.ending, garbage)
      requires a == AskHardware(d, line.conn.pending, line.conn.ending, garbage, rx[..])
      modifies h`hardware, h`limits, h`inputs, h`current, line, line.conn, rx
      ensures a == SessionSpec.Heard(code, rx[..], line.conn.pending)
      ensures code == NO_ERROR ==> Loaded(StoredIn(h), rx[..]) && line.sent == old(line.sent) + [HardwarePacket()]
    {
      code := line.Ask([HW_DESC, 0], SessionSpec.Query(HW_DESC), d.hw, rx, garbage);
      if code == NO_ERROR {
        StoreHardware(h, rx);
      }
    }

    /** The same; the list and the sockets are not touched. */
    method DescribeListed(h: Handle, line: Link, d: Introduction, garbage: byte, junk: seq<byte>) returns (code: int)
      requires Room(d, line.conn.pending, line.conn.ending, garbage, junk) && |h.inputs| == 6
      modifies h`hardware, h`limits, h`inputs, h`current, h`panel, line, line.conn
      ensures View() == old(View())
      ensures var x := Introduce(d, old(line.conn.pending), line.conn.ending, garbage, junk);
        code == x.code && line.conn.pending == x.rest && (code == NO_ERROR ==> Described(StoredIn(h), x))
      ensures code == NO_ERROR ==> line.sent == old(line.sent) + Requested(h.hardware)
    {
      code := Describe(h, line, d, garbage, junk);
      assert View().entries == old(View()).entries;
    }

    method StoreHardware(h: Handle, rx: array<byte>)
      requires rx.Length == 1024 && |h.inputs| == 6
      modifies h`hardware, h`limits, h`inputs, h`current
      ensures Loaded(StoredIn(h), rx[..])
    {
      ghost var before, limits := h.inputs, h.limits;
      h.LoadHardware(rx);
      LimitsLoaded(rx[4], rx[58], limits);
      FlagsLoaded(StoredIn(h), before, rx[..]);
    }

    method StoreWindows(h: Handle, rx: array<byte>, ghost hw: seq<byte>)
      requires rx.Length == 1024 && Loaded(StoredIn(h), hw) && AvailInputs(hw[20]) <= 6
      modifies h`inputs
      ensures Loaded(StoredIn(h), hw) && WindowsFit(h.hardware, h.inputs, rx[..])
    {
      ghost var before := StoredIn(h);
      ProductStored(before, hw);
      h.LoadWindows(rx);
      WindowsLoaded(before, StoredIn(h), hw, rx[..]);
    }

    method DescribeRest(h: Handle, line: Link, d: Introduction, rx: array<byte>, garbage: byte,
                        ghost a: SessionSpec.Heard) returns (code: int)
      requires rx.Length == 1024 && a == SessionSpec.Heard(0, rx[..], line.conn.pending)
      requires RoomAfter(d, a, line.conn.ending, garbage)
      requires Loaded(StoredIn(h), a.rx) && AvailInputs(a.rx[20]) <= 6
      modifies h`inputs, h`panel, line, line.conn, rx
      ensures var x := IntroduceRest(d, a, line.conn.ending, garbage);
        code == x.code && line.conn.pending == x.rest && (code == NO_ERROR ==> Described(StoredIn(h), x))
      ensures code == NO_ERROR ==> line.sent == old(line.sent) + [LnbPacket()] + PanelPackets(h.hardware)
    {
      ghost var b := AskLnb(d, a, line.conn.ending, garbage);
      code := line.Ask([LNB_DESC], SessionSpec.Query(LNB_DESC), d.lnb, rx, garbage);
      if code != NO_ERROR {
        return;
      }
      StoreWindows(h, rx, a.rx);
      code := DescribePanel(h, line, d, rx, garbage, a, b);
    }

    method DescribePanel(h: Handle, line: Link, d: Introduction, rx: array<byte>, garbage: byte,
                         ghost a: SessionSpec.Heard, ghost b: SessionSpec.Heard) returns (code: int)
      requires rx.Length == 1024 && b == SessionSpec.Heard(0, rx[..], line.conn.pending)
      requires RoomForPanel(d, a, b, line.conn.ending, garbage)
      requires Loaded(StoredIn(h), a.rx) && WindowsFit(h.hardware, h.inputs, b.rx)
      modifies h`panel, line, line.conn, rx
      ensures var x := IntroducePanel(d, a, b, line.conn.ending, garbage);
        code == x.code && line.conn.pending == x.rest && (code == NO_ERROR ==> Described(StoredIn(h), x))
      ensures code == NO_ERROR ==> line.sent == old(line.sent) + PanelPackets(h.hardware)
    {
      ProductStored(StoredIn(h), a.rx);
      if HasPanel(h.hardware.prodID, h.hardware.projID) {
        code := line.Ask(PANEL_REQUEST, SessionSpec.Panel, d.panel, rx, garbage);
        if code != NO_ERROR {
          return;
        }
        h.LoadPanel(rx);
      } else {
        code := NO_ERROR;
      }
      PanelLoaded(StoredIn(h), IntroducePanel(d, a, b, line.conn.ending, garbage));
    }

    /** The second half of a registration, with the handle listed: connect, describe, disconnect. */
    method DialAndDescribe(h: Handle, flags: int, ghost s: Setup<Handle>, dial: Dial, line: Link, d: Introduction,
                           garbage: byte, junk: seq<byte>, close: bool) returns (code: int)
      requires Valid() && FreshDial(View(), dial) && |h.inputs| == 6
      requires RegistrationRoom(d, line.conn.pending, line.conn.ending, garbage, junk)
      requires s.dial == dial && s.close == close
      requires s.exchange == Registration(d, line.conn.pending, line.conn.ending, garbage, junk).code
      modifies this`plist, this`sockets, h, line, line.conn
      ensures Valid() && Outcome(View(), code) == DialAndExchange(old(View()), h, flags, s)
      ensures var x := Registration(d, old(line.conn.pending), line.conn.ending, garbage, junk);
        code == NO_ERROR ==> Described(StoredIn(h), x) && line.conn.pending == x.rest
      ensures code == NO_ERROR ==> line.sent == old(line.sent) + Requested(h.hardware)
    {
      code := Connect(h, dial, line.conn, garbage);
      if code != NO_ERROR {
        var _ := Unregister(h, close);
        return;
      }
      code := DescribeAndClose(h, flags, s, line, d, garbage, junk, close);
    }

    /** Its part with the handle connected. */
    method DescribeAndClose(h: Handle, flags: int, ghost s: Setup<Handle>, line: Link, d: Introduction,
                            garbage: byte, junk: seq<byte>, close: bool) returns (code: int)
      requires Valid() && |h.inputs| == 6 && Room(d, line.conn.pending, line.conn.ending, garbage, junk)
      requires s.close == close && s.exchange == Introduce(d, line.conn.pending, line.conn.ending, garbage, junk).code
      modifies this`plist, this`sockets, h, line, line.conn
      ensures Valid() && Outcome(View(), code) == ExchangeAndClose(old(View()), h, flags, s)
      ensures var x := Introduce(d, old(line.conn.pending), line.conn.ending, garbage, junk);
        code == NO_ERROR ==> Described(StoredIn(h), x) && line.conn.pending == x.rest
      ensures code == NO_ERROR ==> line.sent == old(line.sent) + Requested(h.hardware)
    {
      code := DescribeListed(h, line, d, garbage, junk);
      if code != NO_ERROR {
        var _ := Unregister(h, close);
        return;
      }
      if flags != ALSO_CONNECT {
        code := Disconnect(h, close);
      }
    }

    /** Appends a new handle to the list. */
    method Enlist(port: int, m: Memory) returns (h: Handle)
      requires Valid() && |m.inputs| == 6
      modifies this`plist
      ensures Valid() && fresh(h) && |h.inputs| == 6
      ensures View() == Push(old(View()), Entry(h, -1, None, port % 0x1_0000))
      ensures plist == old(plist) + [h]
    {
      h := new Handle(port, m.hardware, m.limits, m.inputs, m.current, m.panel);
      plist := plist + [h];
      assert EntriesOf(plist) == old(EntriesOf(plist)) + [EntryOf(h)];
    }

    /** `AVCOM_SA_Register`, given the outcomes of the system calls; `line` is the connection to the analyzer,
        on which its greeting is already under way. */
    method Register(port: int, flags: int, memory: Option<Memory>, host: Option<Host>, dial: Dial, line: Link,
                    d: Introduction, garbage: byte, junk: seq<byte>, close: bool)
      returns (code: int, handle: Option<Handle>)
      requires Valid() && FreshDial(View(), dial)
      requires RegistrationRoom(d, line.conn.pending, line.conn.ending, garbage, junk)
      requires memory.Some? ==> |memory.value.inputs| == 6
      modifies this`plist, this`sockets, line, line.conn
      ensures Valid()
      ensures handle.Some? <==> up && memory.Some?
      ensures handle.Some? ==> fresh(handle.value)
      ensures var x := Registration(d, old(line.conn.pending), line.conn.ending, garbage, junk);
        && Outcome(View(), code) == DoRegister(old(View()), port, flags, Setup(handle, host, dial, x.code, close))
        && (code == NO_ERROR ==> handle.Some? && Described(StoredIn(handle.value), x) && line.conn.pending == x.rest)
      ensures code == NO_ERROR ==>
        handle.Some? && line.sent == old(line.sent) + Requested(handle.value.hardware)
    {
      if !up {
        return NOT_INITIALIZED, None;
      }
      if memory.None? {
        return MALLOC_FAILED, None;
      }
      var h := Enlist(port, memory.value);
      handle := Some(h);
      ghost var x := Registration(d, line.conn.pending, line.conn.ending, garbage, junk);
      ghost var s := Setup(handle, host, dial, x.code, close);
      code := RegisterListed(h, port, flags, old(View()), s, host, dial, line, d, garbage, junk, close);
    }

    /** The rest of a registration, with the new handle at the end of the list. */
    method RegisterListed(h: Handle, port: int, flags: int,
                          ghost r: RegistrySpec.Registry<Handle>, ghost s: Setup<Handle>,
                          host: Option<Host>, dial: Dial, line: Link, d: Introduction, garbage: byte, junk: seq<byte>,
                          close: bool)
      returns (code: int)
      requires Valid() && FreshDial(View(), dial) && |h.inputs| == 6
      requires RegistrationRoom(d, line.conn.pending, line.conn.ending, garbage, junk)
      requires View() == Push(r, Entry(h, -1, None, port % 0x1_0000))
      requires s.host == host && s.dial == dial && s.close == close
      requires s.exchange == Registration(d, line.conn.pending, line.conn.ending, garbage, junk).code
      modifies this`plist, this`sockets, h, line, line.conn
      ensures Valid() && Outcome(View(), code) == RegisterNew(r, h, port, flags, s)
      ensures var x := Registration(d, old(line.conn.pending), line.conn.ending, garbage, junk);
        code == NO_ERROR ==> Described(StoredIn(h), x) && line.conn.pending == x.rest
      ensures code == NO_ERROR ==> line.sent == old(line.sent) + Requested(h.hardware)
    {
      if host.None? {
        var _ := Unregister(h, close);
        return GET_ADDR_INFO_FAIL;
      }
      var address := Address(port % 0x1_0000, host.value);
      SetAddress(h, address, r);
      code := RegisterAt(h, port, flags, r, s, address, dial, line, d, garbage, junk, close);
    }

    /** The same once the address is known. */
    method RegisterAt(h: Handle, port: int, flags: int, ghost r: RegistrySpec.Registry<Handle>, ghost s: Setup<Handle>,
                      address: Address, dial: Dial, line: Link, d: Introduction, garbage: byte, junk: seq<byte>,
                      close: bool) returns (code: int)
      requires Valid() && FreshDial(View(), dial) && |h.inputs| == 6
      requires RegistrationRoom(d, line.conn.pending, line.conn.ending, garbage, junk)
      requires address.port == port % 0x1_0000 && View() == Push(r, Entry(h, -1, Some(address), address.port))
      requires s.host == Some(address.host) && s.dial == dial && s.close == close
      requires s.exchange == Registration(d, line.conn.pending, line.conn.ending, garbage, junk).code
      modifies this`plist, this`sockets, h, line, line.conn
      ensures Valid() && Outcome(View(), code) == RegisterNew(r, h, port, flags, s)
      ensures var x := Registration(d, old(line.conn.pending), line.conn.ending, garbage, junk);
        code == NO_ERROR ==> Described(StoredIn(h), x) && line.conn.pending == x.rest
      ensures code == NO_ERROR ==> line.sent == old(line.sent) + Requested(h.hardware)
    {
      var i := FirstWith(address, r, Entry(h, -1, Some(address), address.port));
      if i < |plist| - 1 {
        if port == plist[i].portno {
          var _ := Unregister(h, close);
        }
        return HANDLE_ALREADY_EXISTS;
      }
      code := DialAndDescribe(h, flags, s, dial, line, d, garbage, junk, close);
    }

    /** The address of the handle at the end of the list is known. */
    method SetAddress(h: Handle, a: Address, ghost r: RegistrySpec.Registry<Handle>)
      requires Valid() && View() == Push(r, Entry(h, -1, None, h.portno))
      modifies h`address
      ensures View() == Push(r, Entry(h, -1, Some(a), h.portno))
    {
      assert View().entries[|r.entries|] == EntryOf(plist[|r.entries|]);
      assert plist[|r.entries|] == h;
      assert forall k :: 0 <= k < |r.entries| ==> r.entries[k] == View().entries[k] == EntryOf(plist[k]);
      h.address := Some(a);
      assert forall k :: 0 <= k < |r.entries| ==> r.entries[k] == EntryOf(plist[k]);
      assert View().entries == r.entries + [EntryOf(h)];
    }
  }
}

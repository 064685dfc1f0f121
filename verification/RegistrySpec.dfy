/** The handle registry and the connections, as a state machine on values. `H` is the type of handle
    pointers; the outcomes of system calls are inputs of each step. */
module RegistrySpec {
  import opened Bytes

  const NO_ERROR := 0
  const SOCKET_FAILED := 100001
  const SETSOCKETOPT_FAILED := 100002
  const CONNECT_FAILED := 100003
  const CLOSE_FAILED := 100006
  const MALLOC_FAILED := 100009
  const SOCKET_NOT_OPEN := 100010
  const SOCKET_ALREADY_OPEN := 100011
  const GET_ADDR_INFO_FAIL := 100012
  const NOT_INITIALIZED := 100013
  const HANDLE_NOT_FOUND := 400000
  const HANDLE_ALREADY_EXISTS := 400001
  const ALREADY_INITIALIZED := 400002
  const ALREADY_NOT_INITIALIZED := 400003

  const ALSO_CONNECT := 1

  /** A host as it is compared: the 12 bytes of `sa_data` behind the port. */
  type Host = seq<byte>

  /** What is compared as a socket address. */
  datatype Address = Address(port: int, host: Host)

  /** A listed handle; `fd` is -1 while there is no connection. The port number is kept in 16 bits. */
  datatype Entry<H> = Entry(h: H, fd: int, address: Option<Address>, port: int)

  /** `up` says that the list is allocated; `open` are the sockets the library has opened and not closed. */
  datatype Registry<H> = Registry(up: bool, entries: seq<Entry<H>>, open: set<int>)

  datatype Outcome<H> = Outcome(reg: Registry<H>, code: int)

  /** Outcomes of `socket`, `setsockopt` and `connect`, and of closing after a failed `connect`. */
  datatype Dial = Dial(socket: Option<int>, option: bool, connect: bool, close: bool)

  /** Outcomes of a registration: memory, address lookup, connection, the code of the description
      exchange (0 if it went well), and of the closing at the end. */
  datatype Setup<H> = Setup(memory: Option<H>, host: Option<Host>, dial: Dial, exchange: int, close: bool)

  datatype Call<H> =
    | Initialize
    | Deinitialize(stuck: set<int>)
    | Register(port: int, flags: int, setup: Setup<H>)
    | Unregister(h: H, close: bool)
    | Connect(h: H, dial: Dial)
    | Disconnect(h: H, close: bool)

  // --- Steps ---

  /** The position of a handle, or the number of entries. */
  ghost function Find<H>(es: seq<Entry<H>>, h: H): (i: nat)
    ensures i <= |es|
    ensures forall k :: 0 <= k < i ==> es[k].h != h
    ensures i < |es| ==> es[i].h == h
  {
    if es == [] || es[0].h == h then 0 else 1 + Find(es[1..], h)
  }

  ghost predicate Listed<H>(r: Registry<H>, h: H) {
    Find(r.entries, h) < |r.entries|
  }

  ghost function SetFd<H>(r: Registry<H>, i: nat, fd: int): Registry<H>
    requires i < |r.entries|
  {
    r.(entries := r.entries[i := r.entries[i].(fd := fd)])
  }

  ghost function DoDisconnect<H>(r: Registry<H>, h: H, close: bool): Outcome<H> {
    if !Listed(r, h) then Outcome(r, HANDLE_NOT_FOUND) else
    var i := Find(r.entries, h);
    var fd := r.entries[i].fd;
    if fd == -1 then Outcome(r, SOCKET_NOT_OPEN)
    else if !close then Outcome(r, CLOSE_FAILED)
    else Outcome(SetFd(r, i, -1).(open := r.open - {fd}), NO_ERROR)
  }

  ghost function DoConnect<H>(r: Registry<H>, h: H, d: Dial): Outcome<H> {
    if !Listed(r, h) then Outcome(r, HANDLE_NOT_FOUND) else
    var i := Find(r.entries, h);
    if r.entries[i].fd != -1 then Outcome(r, SOCKET_ALREADY_OPEN)
    else if d.socket.None? then Outcome(r, SOCKET_FAILED)
    else
      var dialed := SetFd(r, i, d.socket.value).(open := r.open + {d.socket.value});
      if !d.option then Outcome(dialed, SETSOCKETOPT_FAILED)
      else if !d.connect then Outcome(DoDisconnect(dialed, h, d.close).reg, CONNECT_FAILED)
      else Outcome(dialed, NO_ERROR)
  }

  ghost function Remove<H>(r: Registry<H>, i: nat): Registry<H>
    requires i < |r.entries|
  {
    r.(entries := r.entries[..i] + r.entries[i + 1..])
  }

  ghost function DoUnregister<H>(r: Registry<H>, h: H, close: bool): Outcome<H> {
    if !Listed(r, h) then Outcome(r, HANDLE_NOT_FOUND)
    else Outcome(Remove(DoDisconnect(r, h, close).reg, Find(r.entries, h)), NO_ERROR)
  }

  /** The first entry with this address, or the number of entries. */
  ghost function FindAddress<H>(es: seq<Entry<H>>, a: Address): (i: nat)
    ensures i <= |es|
    ensures forall k :: 0 <= k < i ==> es[k].address != Some(a)
    ensures i < |es| ==> es[i].address == Some(a)
  {
    if es == [] || es[0].address == Some(a) then 0 else 1 + FindAddress(es[1..], a)
  }

  ghost function Push<H>(r: Registry<H>, e: Entry<H>): Registry<H> {
    r.(entries := r.entries + [e])
  }

  /** The part of a registration that starts with the handle listed. */
  ghost function DialAndExchange<H>(added: Registry<H>, h: H, flags: int, s: Setup<H>): Outcome<H> {
    var c := DoConnect(added, h, s.dial);
    if c.code != NO_ERROR then Outcome(DoUnregister(c.reg, h, s.close).reg, c.code)
    else ExchangeAndClose(c.reg, h, flags, s)
  }

  /** The part that starts with the handle connected. */
  ghost function ExchangeAndClose<H>(r: Registry<H>, h: H, flags: int, s: Setup<H>): Outcome<H> {
    if s.exchange != NO_ERROR then Outcome(DoUnregister(r, h, s.close).reg, s.exchange)
    else if flags != ALSO_CONNECT then DoDisconnect(r, h, s.close)
    else Outcome(r, NO_ERROR)
  }

  /** The registration of a new handle h. The port is an `int` in the comparison with a listed port,
      which has 16 bits. */
  ghost function RegisterNew<H>(r: Registry<H>, h: H, port: int, flags: int, s: Setup<H>): Outcome<H> {
    var port16 := port % 0x1_0000;
    if s.host.None? then
      Outcome(DoUnregister(Push(r, Entry(h, -1, None, port16)), h, s.close).reg, GET_ADDR_INFO_FAIL)
    else
      var a := Address(port16, s.host.value);
      var added := Push(r, Entry(h, -1, Some(a), port16));
      var i := FindAddress(r.entries, a);
      if i == |r.entries| then DialAndExchange(added, h, flags, s)
      else
        var undone := if port == r.entries[i].port then DoUnregister(added, h, s.close).reg else added;
        Outcome(undone, HANDLE_ALREADY_EXISTS)
  }

  ghost function DoRegister<H>(r: Registry<H>, port: int, flags: int, s: Setup<H>): Outcome<H> {
    if !r.up then Outcome(r, NOT_INITIALIZED)
    else if s.memory.None? then Outcome(r, MALLOC_FAILED)
    else RegisterNew(r, s.memory.value, port, flags, s)
  }

  /** Lookup of a handle: the first entry that matches in address and in port, the latter as an `int`. */
  ghost function FindEndpoint<H>(es: seq<Entry<H>>, a: Address, port: int): (i: nat)
    ensures i <= |es|
    ensures forall k :: 0 <= k < i ==> !(es[k].address == Some(a) && es[k].port == port)
    ensures i < |es| ==> es[i].address == Some(a) && es[i].port == port
  {
    if es == [] || (es[0].address == Some(a) && es[0].port == port) then 0 else 1 + FindEndpoint(es[1..], a, port)
  }

  ghost function DoGetHandle<H>(r: Registry<H>, host: Option<Host>, port: int): Option<H> {
    if host.None? then None else
    var i := FindEndpoint(r.entries, Address(port % 0x1_0000, host.value), port);
    if i < |r.entries| then Some(r.entries[i].h) else None
  }

  ghost function DoInitialize<H>(r: Registry<H>): Outcome<H> {
    if r.up then Outcome(r, ALREADY_INITIALIZED) else Outcome(r.(up := true, entries := []), NO_ERROR)
  }

  /** Unregisters the last handle until none is left; `stuck` are the sockets that fail to close. */
  ghost function UnregisterAll<H>(r: Registry<H>, stuck: set<int>): Registry<H>
    decreases |r.entries|
  {
    if r.entries == [] then r else
      var last := r.entries[|r.entries| - 1];
      var i := Find(r.entries, last.h);
      UnregisterAll(DoUnregister(r, last.h, r.entries[i].fd !in stuck).reg, stuck)
  }

  ghost function DoDeinitialize<H>(r: Registry<H>, stuck: set<int>): Outcome<H> {
    if !r.up then Outcome(r, ALREADY_NOT_INITIALIZED)
    else Outcome(UnregisterAll(r, stuck).(up := false), NO_ERROR)
  }

  ghost function Step<H>(r: Registry<H>, c: Call<H>): Outcome<H> {
    match c
    case Initialize => DoInitialize(r)
    case Deinitialize(stuck) => DoDeinitialize(r, stuck)
    case Register(port, flags, s) => DoRegister(r, port, flags, s)
    case Unregister(h, close) => DoUnregister(r, h, close)
    case Connect(h, dial) => DoConnect(r, h, dial)
    case Disconnect(h, close) => DoDisconnect(r, h, close)
  }

  /** What the system guarantees of the inputs of a step: new sockets and new memory are new. */
  ghost predicate FreshDial<H>(r: Registry<H>, d: Dial) {
    d.socket.Some? ==> d.socket.value >= 0 && d.socket.value !in r.open
  }

  ghost predicate Fair<H>(r: Registry<H>, c: Call<H>) {
    match c
    case Register(_, _, s) => (s.memory.Some? ==> !Listed(r, s.memory.value)) && FreshDial(r, s.dial)
    case Connect(_, d) => FreshDial(r, d)
    case _ => true
  }

  ghost predicate Run<H>(r: Registry<H>, calls: seq<Call<H>>)
    decreases |calls|
  {
    calls == [] || (Fair(r, calls[0]) && Run(Step(r, calls[0]).reg, calls[1..]))
  }

  ghost function After<H>(r: Registry<H>, calls: seq<Call<H>>): Registry<H>
    decreases |calls|
  {
    if calls == [] then r else After(Step(r, calls[0]).reg, calls[1..])
  }
}

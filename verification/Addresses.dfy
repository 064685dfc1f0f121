/** The comparison key of a socket address: the 14 bytes of `sa_data`. */
module Addresses {
  import opened Bytes
  import opened RegistrySpec
  import opened RegistryProofs

  /** The host of a socket address. */
  datatype HostAddress = V4(addr: seq<byte>) | V6(flow: seq<byte>, addr: seq<byte>)

  predicate IsHost(a: HostAddress) {
    match a
    case V4(addr) => |addr| == 4
    case V6(flow, addr) => |flow| == 4 && |addr| == 16
  }

  /** What `sa_data` holds behind the port: an IPv4 address and padding, or the flow information and the
      first half of an IPv6 address. The address family lies in front of it. */
  function Key(a: HostAddress): (k: seq<byte>)
    requires IsHost(a)
    ensures |k| == 12
  {
    match a
    case V4(addr) => addr + [0, 0, 0, 0, 0, 0, 0, 0]
    case V6(flow, addr) => flow + addr[..8]
  }

  function SaData(port: int, a: HostAddress): (d: seq<byte>)
    requires 0 <= port < 0x1_0000 && IsHost(a)
    ensures |d| == 14
  {
    Be16(port) + Key(a)
  }

  /** The same first half and flow, or an IPv6 address whose first half is 0 and whose flow is the IPv4 address. */
  predicate Confused(a: HostAddress, b: HostAddress)
    requires IsHost(a) && IsHost(b)
  {
    if a.V4? && b.V4? then a == b
    else if a.V6? && b.V6? then a.flow == b.flow && a.addr[..8] == b.addr[..8]
    else if a.V4? then a.addr == b.flow && b.addr[..8] == [0, 0, 0, 0, 0, 0, 0, 0]
    else b.addr == a.flow && a.addr[..8] == [0, 0, 0, 0, 0, 0, 0, 0]
  }

  lemma HalvesEqual(a: seq<byte>, b: seq<byte>, c: seq<byte>, d: seq<byte>)
    requires |a| == |c|
    ensures a + b == c + d <==> a == c && b == d
  {
    assert (a + b)[..|a|] == a && (a + b)[|a|..] == b;
    assert (c + d)[..|c|] == c && (c + d)[|c|..] == d;
  }

  /** When two hosts have the same key. */
  lemma KeyExact(a: HostAddress, b: HostAddress)
    requires IsHost(a) && IsHost(b)
    ensures Key(a) == Key(b) <==> Confused(a, b)
  {
    var z: seq<byte> := [0, 0, 0, 0, 0, 0, 0, 0];
    HalvesEqual(if a.V4? then a.addr else a.flow, if a.V4? then z else a.addr[..8],
                if b.V4? then b.addr else b.flow, if b.V4? then z else b.addr[..8]);
  }

  /** Comparing `sa_data` tells two endpoints apart exactly if their ports differ or their hosts are not
      confused; IPv4 hosts never are. */
  lemma SaDataExact(p: int, a: HostAddress, q: int, b: HostAddress)
    requires 0 <= p < 0x1_0000 && 0 <= q < 0x1_0000 && IsHost(a) && IsHost(b)
    ensures SaData(p, a) == SaData(q, b) <==> p == q && Confused(a, b)
    ensures SaData(p, a) == SaData(q, b) <==> Address(p, Key(a)) == Address(q, Key(b))
  {
    HalvesEqual(Be16(p), Key(a), Be16(q), Key(b));
    KeyExact(a, b);
    assert Be16(p) == Be16(q) <==> p == q by {
      assert p == Be16(p)[0] as int * 0x100 + Be16(p)[1] && q == Be16(q)[0] as int * 0x100 + Be16(q)[1];
    }
  }

  /** With distinct endpoints, looking up host b finds the handle registered for host a exactly if the two
      are confused. */
  lemma LookupExact<H>(r: Registry<H>, i: nat, a: HostAddress, b: HostAddress, port: int)
    requires Inv(r) && DistinctEndpoints(r.entries) && i < |r.entries| && IsHost(a) && IsHost(b)
    requires r.entries[i].address == Some(Address(port, Key(a)))
    ensures DoGetHandle(r, Some(Key(b)), port) == Some(r.entries[i].h) <==> Confused(a, b)
  {
    GetHandleUnique(r, Key(b), port, i);
    KeyExact(a, b);
  }

  /** Two hosts of one IPv6 network: the second is refused as a duplicate of the first, and looking it up
      finds the first. */
  lemma NeighbourTaken<H>(h1: H, h2: H)
    requires h1 != h2
    ensures var a, b := Documented(1), Documented(2);
      && IsHost(a) && IsHost(b) && a != b
      && var r := Registry(true, [Entry(h1, -1, Some(Address(26482, Key(a))), 26482)], {});
      && DoGetHandle(r, Some(Key(b)), 26482) == Some(h1)
      && DoRegister(r, 26482, 0, Setup(Some(h2), Some(Key(b)), Dial(None, true, true, true), 0, true)) ==
          Outcome(r, HANDLE_ALREADY_EXISTS)
  {
    var a, b := Documented(1), Documented(2);
    assert a.addr[15] != b.addr[15];
    var e := Entry(h1, -1, Some(Address(26482, Key(a))), 26482);
    var r := Registry(true, [e], {});
    assert a.addr[..8] == b.addr[..8];
    UnregisterPushed(r, Entry(h2, -1, Some(Address(26482, Key(b))), 26482), true);
    assert FindAddress([e], Address(26482, Key(b))) == 0;
  }

  /** A host of the network 2001:db8::/64. */
  function Documented(last: byte): HostAddress {
    V6([0, 0, 0, 0], [0x20, 1, 0x0D, 0xB8] + seq(11, _ => 0) + [last])
  }
}

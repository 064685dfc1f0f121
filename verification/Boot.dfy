/** Boot-loader packets and their additive checksum. */
module Boot {
  import opened Bytes
  import opened Framing
  import opened ChangeSettings

  const SBS_BOOTLOADER: byte := 0x3A
  const BOOTLOAD_KEY: byte := 0x0E
  const BOOTLOAD_DESC: byte := 0x10

  function Sum(s: seq<byte>): nat {
    if s == [] then 0 else s[0] as int + Sum(s[1..])
  }

  /** The bytes a checksum covers, itself included, add up to 0 modulo 256. */
  predicate Balanced(s: seq<byte>) {
    Sum(s) % 256 == 0
  }

  function Checksum(s: seq<byte>): byte {
    UChar(-(Sum(s) as int))
  }

  lemma {:induction false} SumAppend(a: seq<byte>, b: seq<byte>)
    ensures Sum(a + b) == Sum(a) + Sum(b)
    decreases |a|
  {
    if a == [] {
      assert a + b == b;
    } else {
      assert (a + b)[1..] == a[1..] + b;
      SumAppend(a[1..], b);
    }
  }

  lemma SumOne(b: byte)
    ensures Sum([b]) == b
  {
  }

  /** A checksum balances exactly the bytes it was computed for. */
  lemma ChecksumBalances(s: seq<byte>, c: byte)
    ensures Balanced(s + [c]) <==> c == Checksum(s)
  {
    SumAppend(s, [c]);
    SumOne(c);
    Complement(Sum(s), c);
  }

  lemma Complement(n: int, c: byte)
    ensures (n + c) % 256 == 0 <==> c == UChar(-n)
  {
  }

  lemma Subtract(n: int, b: int)
    ensures UChar(-(n + b)) == UChar(UChar(-n) as int - b)
  {
  }

  lemma ChecksumStep(s: seq<byte>, b: byte)
    ensures Checksum(s + [b]) == UChar(Checksum(s) as int - b)
  {
    SumAppend(s, [b]);
    SumOne(b);
    Subtract(Sum(s), b);
  }

  lemma SumUpdate(s: seq<byte>, i: nat, b: byte)
    requires i < |s|
    ensures Sum(s[i := b]) == Sum(s) - s[i] + b
  {
    assert s == s[..i] + ([s[i]] + s[i + 1..]);
    assert s[i := b] == s[..i] + ([b] + s[i + 1..]);
    SumAppend(s[..i], [s[i]] + s[i + 1..]);
    SumAppend(s[..i], [b] + s[i + 1..]);
    SumAppend([s[i]], s[i + 1..]);
    SumAppend([b], s[i + 1..]);
    SumOne(s[i]);
    SumOne(b);
  }

  /** Every alteration of a single byte is noticed. */
  lemma AlterationNoticed(s: seq<byte>, i: nat, b: byte)
    requires Balanced(s) && i < |s|
    ensures Balanced(s[i := b]) <==> b == s[i]
  {
    SumUpdate(s, i, b);
  }

  lemma SumTwice(s: seq<byte>, i: nat, j: nat, b: byte, c: byte)
    requires i < j < |s|
    ensures Sum(s[i := b][j := c]) == Sum(s) + (b as int - s[i] + (c as int - s[j]))
  {
    SumUpdate(s, i, b);
    SumUpdate(s[i := b], j, c);
  }

  lemma Shifted(n: int, d: int)
    requires n % 256 == 0
    ensures (n + d) % 256 == 0 <==> d % 256 == 0
  {
  }

  /** Two altered bytes are noticed unless the changes cancel; an exchange of two bytes never is. */
  lemma DoubleAlteration(s: seq<byte>, i: nat, j: nat, b: byte, c: byte)
    requires Balanced(s) && i < j < |s|
    ensures Balanced(s[i := b][j := c]) <==> (b as int - s[i] + (c as int - s[j])) % 256 == 0
    ensures Balanced(s[i := s[j]][j := s[i]])
  {
    SumTwice(s, i, j, b, c);
    Shifted(Sum(s), b as int - s[i] + (c as int - s[j]));
    SumTwice(s, i, j, s[j], s[i]);
  }

  // --- The packets ---

  function Description(product: byte, project: byte, pcb: byte, chassis: byte, serial: seq<byte>): seq<byte> {
    [SBS_BOOTLOADER, BOOTLOAD_DESC, product, pcb, project, chassis] + serial + seq(10, _ => 0xFF)
  }

  /** The bytes between the header and ETX. */
  function Inner(f: seq<byte>): seq<byte>
    requires |f| >= 4
  {
    f[3..|f| - 1]
  }

  method CopyInto(tx: array<byte>, k: nat, s: seq<byte>) returns (next: nat)
    requires k + |s| <= tx.Length
    modifies tx
    ensures next == k + |s| && tx[..next] == old(tx[..k]) + s
  {
    forall i | 0 <= i < |s| {
      tx[k + i] := s[i];
    }
    next := k + |s|;
    assert tx[..k] == old(tx[..k]);
  }

  /** The checksum loop, over the bytes from index 3 on. */
  method SumFrom3(tx: array<byte>, k: nat) returns (sum: byte)
    requires 3 <= k <= tx.Length
    ensures sum == Checksum(tx[3..k])
  {
    sum := 0;
    var i := 3;
    while i < k
      invariant 3 <= i <= k && sum == Checksum(tx[3..i])
    {
      assert tx[3..i + 1] == tx[3..i] + [tx[i]];
      ChecksumStep(tx[3..i], tx[i]);
      sum := UChar(sum as int - tx[i]);
      i := i + 1;
    }
  }

  /** `AVCOM_SA_BootDescProg`, up to the sending: for every description the packet is framed and its
      inner bytes balance. */
  method BuildDescription(tx: array<byte>, product: byte, project: byte, pcb: byte, chassis: byte, serial: seq<byte>)
      returns (k: nat)
    requires tx.Length == 64 && |serial| == 16
    modifies tx
    ensures k == 37 && WellFormed(tx[..k]) && Balanced(Inner(tx[..k]))
    ensures Inner(tx[..k])[..32] == Description(product, project, pcb, chassis, serial)
    ensures tx[3] == 0x3A && tx[4] == 0x10 && tx[5] == product && tx[6] == pcb && tx[7] == project && tx[8] == chassis
    ensures tx[9..25] == serial && forall i :: 25 <= i < 35 ==> tx[i] == 0xFF
  {
    ghost var d := Description(product, project, pcb, chassis, serial);
    k := CopyInto(tx, 3, [SBS_BOOTLOADER, BOOTLOAD_DESC, product, pcb, project, chassis]);
    k := CopyInto(tx, k, serial);
    k := CopyInto(tx, k, seq(10, _ => 0xFF));
    assert tx[3..k] == tx[..k][3..] == d;
    var sum := SumFrom3(tx, k);
    k := Put(tx, k, sum);
    assert tx[3..k] == tx[..k][3..] == d + [sum];
    ChecksumBalances(d, sum);
    k := Seal(tx, k);
    ghost var f := tx[..k];
    assert f[3..k - 1] == d + [sum];
    DescriptionBytes(f, product, project, pcb, chassis, serial);
  }

  lemma DescriptionBytes(f: seq<byte>, product: byte, project: byte, pcb: byte, chassis: byte, serial: seq<byte>)
    requires |f| == 37 && |serial| == 16
    requires f[3..36][..32] == Description(product, project, pcb, chassis, serial)
    ensures f[3] == 0x3A && f[4] == 0x10 && f[5] == product && f[6] == pcb && f[7] == project && f[8] == chassis
    ensures f[9..25] == serial && forall i :: 25 <= i < 35 ==> f[i] == 0xFF
  {
    assert forall i :: 3 <= i < 35 ==> f[i] == f[3..36][..32][i - 3];
  }

  /** The hard-coded key packet carries the checksum of its other bytes. */
  method BuildKey(tx: array<byte>) returns (k: nat)
    requires tx.Length == 64
    modifies tx
    ensures k == 11 && WellFormed(tx[..k]) && Balanced(Inner(tx[..k]))
    ensures Inner(tx[..k]) == [SBS_BOOTLOADER, BOOTLOAD_KEY, 0x77, 0x30, 0x77, 0x30, 0x6A]
  {
    ghost var inner: seq<byte> := [SBS_BOOTLOADER, BOOTLOAD_KEY, 0x77, 0x30, 0x77, 0x30, 0x6A];
    k := CopyInto(tx, 3, [SBS_BOOTLOADER, BOOTLOAD_KEY, 0x77, 0x30, 0x77, 0x30, 0x6A]);
    assert tx[3..k] == tx[..k][3..] == inner;
    k := Seal(tx, k);
    assert tx[..k][3..k - 1] == inner;
    KeySum(inner);
  }

  lemma KeySum(s: seq<byte>)
    requires s == [SBS_BOOTLOADER, BOOTLOAD_KEY, 0x77, 0x30, 0x77, 0x30, 0x6A]
    ensures Balanced(s) && s[6] == Checksum(s[..6])
  {
    SumOne(0x6A);
    assert Sum(s[4..]) == 0x77 + 0x30 + 0x6A by {
      assert s[4..][1..] == [0x30, 0x6A] && [0x30, 0x6A][1..] == [0x6A];
    }
    assert Sum(s[2..]) == 0x77 + 0x30 + Sum(s[4..]) by {
      assert s[2..][1..] == s[3..] && s[3..][1..] == s[4..];
    }
    assert Sum(s) == 0x3A + 0x0E + Sum(s[2..]) by {
      assert s[1..][1..] == s[2..];
    }
    assert s == s[..6] + [0x6A];
    ChecksumBalances(s[..6], 0x6A);
  }
}

/** Hexadecimal texts: numbers padded to a length, and the bytes a text stands for. */
module Hex {
  import opened Bytes

  predicate IsHex(c: char) {
    '0' <= c <= '9' || 'a' <= c <= 'f' || 'A' <= c <= 'F'
  }

  predicate AllHex(s: string) {
    forall i :: 0 <= i < |s| ==> IsHex(s[i])
  }

  function HexValue(c: char): (v: nat)
    requires IsHex(c)
    ensures v < 16
  {
    if c <= '9' then c as int - '0' as int
    else if c <= 'F' then c as int - 'A' as int + 10
    else c as int - 'a' as int + 10
  }

  function HexChar(d: int): (c: char)
    requires 0 <= d < 16
    ensures IsHex(c) && HexValue(c) == d && c != '-'
  {
    if d < 10 then (d + '0' as int) as char else (d - 10 + 'a' as int) as char
  }

  /** The number a text of hex digits denotes. */
  function Value(s: string): nat
    requires AllHex(s)
  {
    if s == "" then 0 else Value(s[..|s| - 1]) * 16 + HexValue(s[|s| - 1])
  }

  function Pow16(n: nat): (p: nat)
    ensures p > 0
  {
    if n == 0 then 1 else 16 * Pow16(n - 1)
  }

  /** `num.toString(16)` of a natural number. */
  function ToHex(n: nat): (s: string)
    ensures |s| > 0 && AllHex(s) && s[0] != '-'
  {
    if n < 16 then [HexChar(n)] else ToHex(n / 16) + [HexChar(n % 16)]
  }

  function PadStart(s: string, len: nat): string {
    if |s| >= len then s else seq(len - |s|, _ => '0') + s
  }

  /** `hexFromNumber`; None where it throws. The length defaults to 2. A negative number is printed
      with its sign. */
  function HexFromNumber(num: int, len: nat): Option<string> {
    var n := if len == 0 then 2 else len;
    if Pow16(n) > num then Some(PadStart(if num < 0 then "-" + ToHex(-num) else ToHex(num), n)) else None
  }

  lemma {:induction false} ToHexDenotes(n: nat, len: nat)
    requires n < Pow16(len) && len > 0
    ensures Value(ToHex(n)) == n && |ToHex(n)| <= len
    decreases n
  {
    if n < 16 {
      assert ToHex(n)[..0] == "";
    } else {
      assert Pow16(len) == 16 * Pow16(len - 1) && Pow16(0) == 1;
      ToHexDenotes(n / 16, len - 1);
      var s := ToHex(n);
      assert s[..|s| - 1] == ToHex(n / 16);
    }
  }

  lemma {:induction false} PaddedValue(z: nat, s: string)
    requires AllHex(s)
    ensures var t := seq(z, _ => '0') + s;
      AllHex(t) && Value(t) == Value(s)
    decreases z + |s|
  {
    var t := seq(z, _ => '0') + s;
    if s != "" {
      assert t[..|t| - 1] == seq(z, _ => '0') + s[..|s| - 1];
      PaddedValue(z, s[..|s| - 1]);
    } else if z > 0 {
      assert t[..|t| - 1] == seq(z - 1, _ => '0') + "";
      PaddedValue(z - 1, "");
    }
  }

  /** The text has exactly the asked number of hex digits and denotes the number, exactly if the number
      is natural and fits that many digits. */
  lemma HexExact(num: int, len: nat)
    requires len > 0
    ensures var t := HexFromNumber(num, len);
      (t.Some? && |t.value| == len && AllHex(t.value) && Value(t.value) == num) <==> 0 <= num < Pow16(len)
  {
    if 0 <= num < Pow16(len) {
      ToHexDenotes(num, len);
      PaddedValue(len - |ToHex(num)|, ToHex(num));
    } else if num < 0 {
      var t := "-" + ToHex(-num);
      assert PadStart(t, len)[|PadStart(t, len)| - |t|] == '-';
    }
  }

  lemma Powers16()
    ensures Pow16(1) == 16 && Pow16(2) == 256 && Pow16(4) == 0x1_0000
  {
  }

  /** Small letters, zeros in front even of a sign, and two digits unless more are asked for. */
  lemma Samples()
    ensures HexFromNumber(255, 4) == Some("00ff") && HexFromNumber(10, 0) == Some("0a")
    ensures HexFromNumber(-5, 4) == Some("00-5") && HexFromNumber(256, 2) == None
  {
    Powers16();
    assert ToHex(255) == "ff" && ToHex(10) == "a" && ToHex(5) == "5";
    assert PadStart("ff", 4) == "00ff" && PadStart("a", 2) == "0a";
    var t := "-" + ToHex(-(-5));
    assert t == "-5";
    assert PadStart(t, 4) == "00-5";
  }

  // --- Bytes ---

  /** `Buffer.from(text, 'hex')`: pairs of digits, up to the first pair that is none. */
  function BufferFrom(s: string): seq<byte> {
    if |s| < 2 || !IsHex(s[0]) || !IsHex(s[1]) then []
    else [HexValue(s[0]) * 16 + HexValue(s[1])] + BufferFrom(s[2..])
  }

  lemma FirstPair(a: string)
    requires |a| >= 2 && AllHex(a)
    ensures BufferFrom(a) == [HexValue(a[0]) * 16 + HexValue(a[1])] + BufferFrom(a[2..]) && AllHex(a[2..])
  {
  }

  lemma FirstPairOf(a: string, b: string)
    requires |a| >= 2 && AllHex(a)
    ensures BufferFrom(a + b) == [HexValue(a[0]) * 16 + HexValue(a[1])] + BufferFrom(a[2..] + b)
  {
    assert (a + b)[2..] == a[2..] + b;
  }

  lemma Regrouped(x: byte, a: seq<byte>, b: seq<byte>)
    ensures [x] + (a + b) == [x] + a + b
  {
  }

  lemma AppendStep(a: string, b: string)
    requires |a| >= 2 && AllHex(a) && BufferFrom(a[2..] + b) == BufferFrom(a[2..]) + BufferFrom(b)
    ensures BufferFrom(a + b) == BufferFrom(a) + BufferFrom(b)
  {
    FirstPair(a);
    FirstPairOf(a, b);
    Regrouped(HexValue(a[0]) * 16 + HexValue(a[1]), BufferFrom(a[2..]), BufferFrom(b));
  }

  lemma {:induction false} BufferAppend(a: string, b: string)
    requires |a| % 2 == 0 && AllHex(a)
    ensures BufferFrom(a + b) == BufferFrom(a) + BufferFrom(b)
    ensures |BufferFrom(a)| == |a| / 2
    decreases |a|
  {
    if a == "" {
      assert a + b == b;
    } else {
      FirstPair(a);
      BufferAppend(a[2..], b);
      AppendStep(a, b);
    }
  }

  lemma LastByte(bs: seq<byte>, b: byte)
    ensures FromBe(bs + [b]) == FromBe(bs) * 0x100 + b
  {
    assert (bs + [b])[..|bs|] == bs;
  }

  lemma TwoDigits(t: string)
    requires |t| == 2 && AllHex(t)
    ensures BufferFrom(t) == [HexValue(t[0]) * 16 + HexValue(t[1])]
  {
    assert t[2..] == "";
  }

  lemma Joined(front: string, last: string)
    requires |front| % 2 == 0 && AllHex(front) && |last| == 2 && AllHex(last)
    ensures BufferFrom(front + last) == BufferFrom(front) + [HexValue(last[0]) * 16 + HexValue(last[1])]
  {
    BufferAppend(front, last);
    TwoDigits(last);
  }

  /** One byte more for two digits more. */
  lemma PairValue(front: string, x: char, y: char, s: string)
    requires |front| % 2 == 0 && AllHex(front) && IsHex(x) && IsHex(y) && s == front + [x, y]
    requires |BufferFrom(front)| == |front| / 2 && FromBe(BufferFrom(front)) == Value(front)
    ensures AllHex(s) && |BufferFrom(s)| == |s| / 2 && FromBe(BufferFrom(s)) == Value(s)
  {
    var b := HexValue(x) * 16 + HexValue(y);
    Joined(front, [x, y]);
    LastByte(BufferFrom(front), b);
    LastDigits(front, x, y);
  }

  lemma LastDigits(front: string, x: char, y: char)
    requires AllHex(front) && IsHex(x) && IsHex(y)
    ensures AllHex(front + [x, y]) && Value(front + [x, y]) == Value(front) * 0x100 + (HexValue(x) * 16 + HexValue(y))
  {
    LastDigit(front, x);
    LastDigit(front + [x], y);
    assert front + [x, y] == front + [x] + [y];
  }

  lemma LastDigit(front: string, x: char)
    requires AllHex(front) && IsHex(x)
    ensures AllHex(front + [x]) && Value(front + [x]) == Value(front) * 16 + HexValue(x)
  {
    assert (front + [x])[..|front|] == front;
  }

  /** The bytes of a text denote, most significant first, the number the text denotes. */
  lemma {:induction false} BufferValue(s: string)
    requires |s| % 2 == 0 && AllHex(s)
    ensures |BufferFrom(s)| == |s| / 2 && FromBe(BufferFrom(s)) == Value(s)
    decreases |s|
  {
    if s != "" {
      var front := s[..|s| - 2];
      BufferValue(front);
      PairValue(front, s[|s| - 2], s[|s| - 1], s);
    }
  }
}

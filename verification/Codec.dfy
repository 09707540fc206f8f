// The 16-byte packet header (dataplane/partspacker.go): part id, then sequence
// number, each as a big-endian two's-complement 64-bit number.
module Codec {

  type byte = x: int | 0 <= x < 256

  const HEADER_LEN := 16

  predicate IsInt64(x: int)
  {
    -0x8000_0000_0000_0000 <= x < 0x8000_0000_0000_0000
  }

  // uint64(x) and int64(u)
  function ToUint64(x: int): nat
    requires IsInt64(x)
  {
    if x < 0 then x + 0x1_0000_0000_0000_0000 else x
  }

  function ToInt64(u: nat): int
  {
    if u < 0x8000_0000_0000_0000 then u else u - 0x1_0000_0000_0000_0000
  }

  // The k low-order base-256 digits of u, most significant first.
  function BigEndian(u: nat, k: nat): (s: seq<byte>)
    ensures |s| == k
  {
    if k == 0 then [] else BigEndian(u / 256, k - 1) + [u % 256]
  }

  function FromBigEndian(s: seq<byte>): nat
  {
    if |s| == 0 then 0 else FromBigEndian(s[..|s| - 1]) * 256 + s[|s| - 1]
  }

  function Pow256(k: nat): nat
  {
    if k == 0 then 1 else 256 * Pow256(k - 1)
  }

  lemma {:induction false} DigitsDecode(u: nat, k: nat)
    requires u < Pow256(k)
    ensures FromBigEndian(BigEndian(u, k)) == u
  {
    if k > 0 {
      DigitsDecode(u / 256, k - 1);
      assert BigEndian(u, k)[..k - 1] == BigEndian(u / 256, k - 1);
    }
  }

  lemma {:induction false} DigitsEncode(s: seq<byte>)
    ensures BigEndian(FromBigEndian(s), |s|) == s
    ensures FromBigEndian(s) < Pow256(|s|)
  {
    if |s| > 0 {
      var t := s[..|s| - 1];
      DigitsEncode(t);
      assert FromBigEndian(s) / 256 == FromBigEndian(t);
      assert s == t + [s[|s| - 1]];
    }
  }

  lemma Pow256Of8()
    ensures Pow256(8) == 0x1_0000_0000_0000_0000
  {
    assert Pow256(2) == 0x1_0000;
    assert Pow256(4) == 0x1_0000_0000;
    assert Pow256(6) == 0x1_0000_0000_0000;
  }

  function Put64(x: int): (s: seq<byte>)
    requires IsInt64(x)
    ensures |s| == 8
  {
    BigEndian(ToUint64(x), 8)
  }

  function Get64(s: seq<byte>): int
    requires |s| == 8
  {
    ToInt64(FromBigEndian(s))
  }

  lemma GetPut64(x: int)
    requires IsInt64(x)
    ensures Get64(Put64(x)) == x
  {
    Pow256Of8();
    DigitsDecode(ToUint64(x), 8);
  }

  lemma PutGet64(s: seq<byte>)
    requires |s| == 8
    ensures IsInt64(Get64(s)) && Put64(Get64(s)) == s
  {
    Pow256Of8();
    DigitsEncode(s);
  }

  // A data packet as it leaves the sender.
  function Wire(partId: int, seqNum: int, payload: seq<byte>): seq<byte>
    requires IsInt64(partId) && IsInt64(seqNum)
  {
    Put64(partId) + Put64(seqNum) + payload
  }

  datatype Parsed = Foreign | PartPacket(seqNum: int, rest: seq<byte>)

  // Unpack on the bytes of the read buffer.
  function Parse(buf: seq<byte>, partId: int): Parsed
    requires |buf| >= HEADER_LEN
  {
    if Get64(buf[0..8]) != partId then Foreign
    else PartPacket(Get64(buf[8..16]), buf[HEADER_LEN..])
  }

  // Reading back a packed header returns the number and the payload to the
  // context that has the packet's part id, and nothing to any other context.
  lemma HeaderRoundTrip(partId: int, seqNum: int, payload: seq<byte>, contextId: int)
    requires IsInt64(partId) && IsInt64(seqNum)
    ensures Parse(Wire(partId, seqNum, payload), contextId)
         == if contextId == partId then PartPacket(seqNum, payload) else Foreign
  {
    var w := Wire(partId, seqNum, payload);
    assert w[0..8] == Put64(partId);
    assert w[8..16] == Put64(seqNum);
    assert w[16..] == payload;
    GetPut64(partId);
    GetPut64(seqNum);
  }

  // Conversely, an accepted buffer is the packing of what was read from it.
  lemma HeaderIsLossless(buf: seq<byte>, partId: int)
    requires |buf| >= HEADER_LEN
    requires Parse(buf, partId).PartPacket?
    ensures var p := Parse(buf, partId);
            IsInt64(partId) && IsInt64(p.seqNum) && Wire(partId, p.seqNum, p.rest) == buf
  {
    PutGet64(buf[0..8]);
    PutGet64(buf[8..16]);
    assert buf == buf[0..8] + buf[8..16] + buf[16..];
  }

  // ----------------------------------------------------------------- layout

  // The number that eight bytes write out, the most significant one first.
  function Weighted(s: seq<byte>): int
    requires |s| == 8
  {
    0x100_0000_0000_0000 * (s[0] as int) + 0x1_0000_0000_0000 * (s[1] as int)
    + 0x100_0000_0000 * (s[2] as int) + 0x1_0000_0000 * (s[3] as int)
    + 0x100_0000 * (s[4] as int) + 0x1_0000 * (s[5] as int) + 0x100 * (s[6] as int) + s[7]
  }

  lemma EightDigits(s: seq<byte>)
    requires |s| == 8
    ensures FromBigEndian(s) == Weighted(s)
  {
    FourMoreDigits(s, 0);
    FourMoreDigits(s, 4);
    assert FromBigEndian(s[..0]) == 0;
    assert s[..8] == s;
  }

  lemma FourMoreDigits(s: seq<byte>, i: nat)
    requires i + 4 <= |s|
    ensures FromBigEndian(s[..i + 4])
         == 0x1_0000_0000 * FromBigEndian(s[..i]) + 0x100_0000 * (s[i] as int) + 0x1_0000 * (s[i + 1] as int)
            + 0x100 * (s[i + 2] as int) + s[i + 3]
  {
    OneMoreDigit(s, i);
    OneMoreDigit(s, i + 1);
    OneMoreDigit(s, i + 2);
    OneMoreDigit(s, i + 3);
  }

  lemma OneMoreDigit(s: seq<byte>, i: nat)
    requires i < |s|
    ensures FromBigEndian(s[..i + 1]) == 256 * FromBigEndian(s[..i]) + s[i]
  {
    assert s[..i + 1][..i] == s[..i];
  }

  // A number is written as its residue modulo 2^64.
  lemma Put64Layout(x: int)
    requires IsInt64(x)
    ensures Weighted(Put64(x)) == x % 0x1_0000_0000_0000_0000
  {
    Pow256Of8();
    DigitsDecode(ToUint64(x), 8);
    EightDigits(Put64(x));
  }

  // Byte for byte: the part id, then the number, then the payload.
  lemma WireLayout(partId: int, seqNum: int, payload: seq<byte>)
    requires IsInt64(partId) && IsInt64(seqNum)
    ensures var w := Wire(partId, seqNum, payload);
            && |w| == 16 + |payload| && w[16..] == payload
            && Weighted(w[0..8]) == partId % 0x1_0000_0000_0000_0000
            && Weighted(w[8..16]) == seqNum % 0x1_0000_0000_0000_0000
  {
    var w := Wire(partId, seqNum, payload);
    assert w[0..8] == Put64(partId) && w[8..16] == Put64(seqNum);
    Put64Layout(partId);
    Put64Layout(seqNum);
  }
}

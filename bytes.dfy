/** Byte strings as the frame code sees them: QByteArray slicing and the
    four-byte integer decode that the capture header uses. */
module Bytes {

  newtype byte = x: int | 0 <= x < 256

  const TWO_32: int := 0x1_0000_0000
  const TWO_31: int := 0x8000_0000

  predicate IsInt32(v: int) {
    -TWO_31 <= v < TWO_31
  }

  /** The value a C `int` holds after an arithmetic result x wraps around
      (two's complement, 32 bits). */
  function Wrap32(x: int): (r: int)
    ensures IsInt32(r) && (x - r) % TWO_32 == 0
    ensures IsInt32(x) ==> r == x
  {
    var u := x % TWO_32;
    if u >= TWO_31 then u - TWO_32 else u
  }

  /** QByteArray::mid(pos, len): empty when pos is past the end, the rest of
      the array when len is negative, otherwise clipped to the end. */
  function Mid<T>(s: seq<T>, pos: nat, len: int): (r: seq<T>)
    ensures pos >= |s| ==> r == []
    ensures pos < |s| && len < 0 ==> r == s[pos..]
    ensures pos < |s| && 0 <= len && pos + len <= |s| ==> r == s[pos..pos + len]
    ensures pos < |s| && 0 <= len && pos + len > |s| ==> r == s[pos..]
    ensures |r| <= |s|
  {
    if pos >= |s| then []
    else if len < 0 || pos + len > |s| then s[pos..]
    else s[pos..pos + len]
  }

  /** QByteArray::mid(pos) with the length left out. */
  function Drop<T>(s: seq<T>, pos: nat): (r: seq<T>)
    ensures pos <= |s| ==> r == s[pos..]
    ensures pos > |s| ==> r == []
  {
    Mid(s, pos, -1)
  }

  /** Byte i of q, or 0 past its end. */
  function ByteAt(q: seq<byte>, i: nat): (b: int)
    ensures 0 <= b < 256
    ensures i < |q| ==> b == q[i] as int
  {
    if i < |q| then q[i] as int else 0
  }

  /** The unsigned value of the first four bytes of q, least significant
      byte first, as a little-endian host reads them with bcopy. */
  function HostUInt32(q: seq<byte>): (u: int)
    ensures 0 <= u < TWO_32
  {
    ByteAt(q, 0) + 0x100 * ByteAt(q, 1) + 0x1_0000 * ByteAt(q, 2) + 0x100_0000 * ByteAt(q, 3)
  }

  /** bigEndianToInt32: despite its name, copies the four bytes into a
      uint32_t in host (here little-endian) order and returns it as an int,
      so a value with the high bit set comes back negative. Bytes missing
      from a short argument read as 0. */
  function HostInt32(q: seq<byte>): (v: int)
    ensures IsInt32(v)
    ensures v < 0 <==> ByteAt(q, 3) >= 0x80
    ensures v >= 0 ==> v == HostUInt32(q)
    ensures v < 0 ==> v == HostUInt32(q) - TWO_32
  {
    var u := HostUInt32(q);
    if u >= TWO_31 then u - TWO_32 else u
  }

  /** The four bytes a little-endian host stores for the 32-bit value v. */
  function EncodeHost(v: int): (q: seq<byte>)
    ensures |q| == 4
  {
    var u := v % TWO_32;
    [(u % 0x100) as byte, (u / 0x100 % 0x100) as byte,
     (u / 0x1_0000 % 0x100) as byte, (u / 0x100_0000) as byte]
  }

  lemma UIntDigits(u: int)
    requires 0 <= u < TWO_32
    ensures u % 0x100 + 0x100 * (u / 0x100 % 0x100) + 0x1_0000 * (u / 0x1_0000 % 0x100)
            + 0x100_0000 * (u / 0x100_0000) == u
  {
    var a, b, c, d := u % 0x100, u / 0x100 % 0x100, u / 0x1_0000 % 0x100, u / 0x100_0000;
    assert u / 0x100 == 0x100 * (u / 0x1_0000) + b;
    assert u / 0x1_0000 == 0x100 * d + c;
    assert u == 0x100 * (u / 0x100) + a;
  }

  /** Decoding what the host stores gives the value back. */
  lemma HostInt32OfEncode(v: int)
    requires IsInt32(v)
    ensures HostInt32(EncodeHost(v)) == v
  {
    var u := v % TWO_32;
    UIntDigits(u);
    assert HostUInt32(EncodeHost(v)) == u;
  }

  lemma SplitByte(x: int, a: int, y: int)
    requires 0 <= a < 0x100 && x == a + 0x100 * y
    ensures x % 0x100 == a && x / 0x100 == y
  {
  }

  /** Encoding a decoded four-byte string gives the same bytes back. */
  lemma EncodeOfHostInt32(q: seq<byte>)
    requires |q| == 4
    ensures EncodeHost(HostInt32(q)) == q
  {
    var u := HostUInt32(q);
    assert HostInt32(q) % TWO_32 == u;
    var a, b, c, d := q[0] as int, q[1] as int, q[2] as int, q[3] as int;
    var t1, t2 := c + 0x100 * d, b + 0x100 * (c + 0x100 * d);
    assert u == a + 0x100 * t2;
    SplitByte(u, a, t2);
    SplitByte(t2, b, t1);
    SplitByte(t1, c, d);
    assert u / 0x1_0000 == t2 / 0x100;
    assert u / 0x100_0000 == t1 / 0x100;
  }
}

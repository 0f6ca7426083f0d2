/**
 * Bytes and the little-endian 32-bit integers that Python's
 * `struct.pack`/`struct.unpack` produce and read with the formats `'<I'`
 * (unsigned) and `'<i'` (signed).
 */
module Bytes {
  newtype byte = x: int | 0 <= x < 256

  const TwoTo32: int := 0x1_0000_0000
  const TwoTo31: int := 0x8000_0000

  /** The values `'<I'` can hold. */
  predicate IsU32(n: int)
  {
    0 <= n < TwoTo32
  }

  /** `struct.unpack('<I', b)`: four bytes, least significant first. */
  function DecodeU32(b: seq<byte>): (n: int)
    requires |b| == 4
    ensures IsU32(n)
  {
    b[0] as int + 0x100 * b[1] as int + 0x1_0000 * b[2] as int + 0x100_0000 * b[3] as int
  }

  /** `struct.pack('<I', n)` for a value it accepts. */
  function EncodeU32(n: int): (b: seq<byte>)
    requires IsU32(n)
    ensures |b| == 4
  {
    [(n % 0x100) as byte, (n / 0x100 % 0x100) as byte, (n / 0x1_0000 % 0x100) as byte, (n / 0x100_0000) as byte]
  }

  /** Packing and then unpacking gives back the value. */
  lemma DecodeEncodeU32(n: int)
    requires IsU32(n)
    ensures DecodeU32(EncodeU32(n)) == n
  {
    Digits(n);
  }

  /** A value below 2^32 is the sum of its four base-256 digits. */
  lemma Digits(n: int)
    requires IsU32(n)
    ensures n == n % 0x100 + 0x100 * (n / 0x100 % 0x100) + 0x1_0000 * (n / 0x1_0000 % 0x100) + 0x100_0000 * (n / 0x100_0000)
  {
    var q1 := n / 0x100;
    var q2 := q1 / 0x100;
    var q3 := q2 / 0x100;
    assert n == n % 0x100 + 0x100 * q1;
    assert q1 == q1 % 0x100 + 0x100 * q2;
    assert q2 == q2 % 0x100 + 0x100 * q3;
    assert q2 == n / 0x1_0000 by { DivDiv(n, 0x100); }
    assert q3 == n / 0x100_0000 by { DivDiv(n, 0x100); DivDiv(n, 0x1_0000); }
    assert q3 < 0x100;
  }

  /** Dividing by 256 after dividing by `a` is dividing by `256 * a`. */
  lemma DivDiv(n: int, a: int)
    requires 0 <= n && (a == 0x100 || a == 0x1_0000)
    ensures n / a / 0x100 == n / (a * 0x100)
  {
    var q := n / a;
    var p := q / 0x100;
    assert a * q <= n < a * q + a;
    assert 0x100 * p <= q < 0x100 * p + 0x100;
    assert a * 0x100 * p <= n < a * 0x100 * p + a * 0x100;
  }

  /** Unpacking and then packing gives back the bytes. */
  lemma EncodeDecodeU32(b: seq<byte>)
    requires |b| == 4
    ensures EncodeU32(DecodeU32(b)) == b
  {
    var n := DecodeU32(b);
    var b0, b1, b2, b3 := b[0] as int, b[1] as int, b[2] as int, b[3] as int;
    assert n % 0x100 == b0 && n / 0x100 == b1 + 0x100 * b2 + 0x1_0000 * b3;
    var q1 := n / 0x100;
    assert q1 % 0x100 == b1 && q1 / 0x100 == b2 + 0x100 * b3;
    var q2 := q1 / 0x100;
    assert q2 % 0x100 == b2 && q2 / 0x100 == b3;
    DivDiv(n, 0x100);
    DivDiv(n, 0x1_0000);
    assert EncodeU32(n) == [b[0], b[1], b[2], b[3]];
  }

  /** `struct.unpack('<i', b)`: the unsigned reading, less 2^32 when the top bit is set. */
  function DecodeI32(b: seq<byte>): (n: int)
    requires |b| == 4
    ensures -TwoTo31 <= n < TwoTo31
    ensures n < 0 <==> b[3] >= 0x80
    ensures n == DecodeU32(b) || n == DecodeU32(b) - TwoTo32
  {
    var u := DecodeU32(b);
    if u >= TwoTo31 then u - TwoTo32 else u
  }

  /** The index of the first NUL at or after `o`, or the length when there is none. */
  function NulFrom(data: seq<byte>, o: int): (k: int)
    requires 0 <= o <= |data|
    ensures o <= k <= |data|
    ensures forall i :: o <= i < k ==> data[i] != 0
    ensures k < |data| ==> data[k] == 0
    decreases |data| - o
  {
    if o == |data| || data[o] == 0 then o else NulFrom(data, o + 1)
  }
}

/** Byte-level vocabulary shared by every ring protocol variant: bytes,
    little-endian integer fields and an option type. */
module Bytes {

  /** One element of a Python `bytes`/`bytearray`. */
  type Byte = b: int | 0 <= b < 256

  datatype Option<T> = None | Some(value: T)

  const TwoTo16: int := 0x1_0000
  const TwoTo31: int := 0x8000_0000
  const TwoTo32: int := 0x1_0000_0000

  /** `x & 0xFF` for any Python int (two's complement on negatives). */
  function LowByte(x: int): (b: Byte)
    ensures (x - b) % 256 == 0
  {
    x % 256
  }

  /** `(x >> (8 * k)) & 0xFF` for any Python int. */
  function ByteOf(x: int, k: nat): (b: Byte)
    decreases k
  {
    if k == 0 then LowByte(x) else ByteOf(x / 256, k - 1)
  }

  /** Unsigned 16-bit little-endian field at s[i], s[i+1]. */
  function UInt16At(s: seq<Byte>, i: nat): (v: int)
    requires i + 2 <= |s|
    ensures 0 <= v < TwoTo16
    ensures v % 256 == s[i] && v / 256 == s[i + 1]
  {
    s[i] as int + 256 * s[i + 1] as int
  }

  /** `struct.unpack("h", s[i:i+2])` on a little-endian host. */
  function Int16At(s: seq<Byte>, i: nat): (v: int)
    requires i + 2 <= |s|
    ensures -0x8000 <= v < 0x8000
  {
    var u := UInt16At(s, i);
    if u < 0x8000 then u else u - TwoTo16
  }

  /** `struct.unpack("I", s[i:i+4])` on a little-endian host. */
  function UInt32At(s: seq<Byte>, i: nat): (v: int)
    requires i + 4 <= |s|
    ensures 0 <= v < TwoTo32
  {
    s[i] as int + 256 * s[i + 1] as int + 0x1_0000 * s[i + 2] as int + 0x100_0000 * s[i + 3] as int
  }

  /** `struct.unpack("i", s[i:i+4])` on a little-endian host. */
  function Int32At(s: seq<Byte>, i: nat): (v: int)
    requires i + 4 <= |s|
    ensures -TwoTo31 <= v < TwoTo31
  {
    var u := UInt32At(s, i);
    if u < TwoTo31 then u else u - TwoTo32
  }

  /** The four bytes `(x >> 0) & 0xFF, ..., (x >> 24) & 0xFF`. */
  function LittleEndian32(x: int): (r: seq<Byte>)
    ensures |r| == 4
  {
    [ByteOf(x, 0), ByteOf(x, 1), ByteOf(x, 2), ByteOf(x, 3)]
  }

  /** Writing the low 32 bits of `x` byte by byte and reading them back as an
      unsigned field gives `x` modulo 2^32. */
  lemma {:induction false} LittleEndian32RoundTrip(x: int)
    ensures UInt32At(LittleEndian32(x), 0) == x % TwoTo32
  {
    var q1 := x / 256;
    var q2 := q1 / 256;
    var q3 := q2 / 256;
    assert ByteOf(x, 1) == q1 % 256;
    assert ByteOf(x, 2) == q2 % 256;
    assert ByteOf(x, 3) == q3 % 256;
    var lo := FourDigits(x % 256, q1 % 256, q2 % 256, q3 % 256, x, q1, q2, q3, q3 / 256);
    assert UInt32At(LittleEndian32(x), 0) == lo;
    LowBitsUnique(x, lo, q3 / 256);
  }

  /** Four base-256 digits peeled off `x` one at a time make up its low 32
      bits. */
  lemma FourDigits(b0: int, b1: int, b2: int, b3: int, x: int, q1: int, q2: int, q3: int, q4: int) returns (lo: int)
    requires 0 <= b0 < 256 && 0 <= b1 < 256 && 0 <= b2 < 256 && 0 <= b3 < 256
    requires b0 == x % 256 && q1 == x / 256 && b1 == q1 % 256 && q2 == q1 / 256
    requires b2 == q2 % 256 && q3 == q2 / 256 && b3 == q3 % 256 && q4 == q3 / 256
    ensures lo == b0 + 256 * b1 + 0x1_0000 * b2 + 0x100_0000 * b3
    ensures 0 <= lo < TwoTo32 && x == lo + TwoTo32 * q4
  {
    lo := b0 + 256 * b1 + 0x1_0000 * b2 + 0x100_0000 * b3;
    assert x == b0 + 256 * q1 && q1 == b1 + 256 * q2;
    assert q2 == b2 + 256 * q3 && q3 == b3 + 256 * q4;
  }

  /** The remainder modulo 2^32 is the one value in range that differs from
      `x` by a multiple of 2^32. */
  lemma LowBitsUnique(x: int, lo: int, q: int)
    requires 0 <= lo < TwoTo32 && x == lo + TwoTo32 * q
    ensures x % TwoTo32 == lo
  {
  }

  /** A signed 32-bit value written byte by byte reads back as itself. */
  lemma Int32RoundTrip(x: int)
    requires -TwoTo31 <= x < TwoTo31
    ensures Int32At(LittleEndian32(x), 0) == x
  {
    LittleEndian32RoundTrip(x);
    if x >= 0 {
      LowBitsUnique(x, x, 0);
    } else {
      LowBitsUnique(x, x + TwoTo32, -1);
    }
  }

  /** The two bytes `x & 0xFF, (x >> 8) & 0xFF`. */
  function LittleEndian16(x: int): (r: seq<Byte>)
    ensures |r| == 2
  {
    [ByteOf(x, 0), ByteOf(x, 1)]
  }

  /** A signed 16-bit value written low byte first reads back as itself
      through `struct.unpack("h", ...)`. */
  lemma Int16RoundTrip(x: int)
    requires -0x8000 <= x < 0x8000
    ensures Int16At(LittleEndian16(x), 0) == x
  {
    var q1 := x / 256;
    assert ByteOf(x, 1) == q1 % 256;
    assert x == x % 256 + 256 * q1;
    assert q1 == q1 % 256 + 256 * (q1 / 256);
    var lo := x % 256 + 256 * (q1 % 256);
    assert x == lo + TwoTo16 * (q1 / 256);
    assert UInt16At(LittleEndian16(x), 0) == lo;
  }
}


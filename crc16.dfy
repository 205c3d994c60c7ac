/** The 16-bit checksum shared by the legacy (AA55 / control) and ZHW ring
    protocols, and the in-place routine that stamps a command buffer with its
    type byte and checksum.

    The register is updated exactly as CRC-16/MODBUS (Modbus over Serial
    Line V1.02, section 6.2.2): reflected polynomial 0xA001, initial value
    0xFFFF, no final xor; the low byte of the result is written first. */
module Crc {
  import opened Bytes

  const GenPoly: bv16 := 0xA001
  const Init: bv16 := 0xFFFF

  /** One iteration of the inner `for _ in range(8)` loop. */
  function ShiftRound(r: bv16): bv16 {
    if r & 1 == 1 then (r >> 1) ^ GenPoly else r >> 1
  }

  /** `n` inner iterations. */
  function Rounds(r: bv16, n: nat): bv16
    decreases n
  {
    if n == 0 then r else Rounds(ShiftRound(r), n - 1)
  }

  /** A byte as a 16-bit value, as Python's `crc ^= data[i]` sees it. */
  function Widen(b: Byte): (w: bv16)
    ensures w as int == b
    decreases b
  {
    if b == 0 then 0 else Widen(b - 1) + 1
  }

  /** One outer iteration: xor the byte into the low bits, then eight rounds. */
  function Absorb(r: bv16, b: Byte): bv16 {
    Rounds(r ^ Widen(b), 8)
  }

  /** The register after absorbing every byte of `s`, front to back. */
  function CrcFrom(r: bv16, s: seq<Byte>): bv16
    decreases |s|
  {
    if s == [] then r else CrcFrom(Absorb(r, s[0]), s[1..])
  }

  /** First index that `range(offset, len(data))` visits (none if past the end). */
  function Start(data: seq<Byte>, offset: nat): (k: nat)
    ensures k <= |data|
  {
    if offset <= |data| then offset else |data|
  }

  /** `crc16(data, offset)`: the checksum of `data[offset:]`. */
  function Crc16(data: seq<Byte>, offset: nat): (crc: int)
    ensures 0 <= crc <= 0xFFFF
  {
    CrcFrom(Init, data[Start(data, offset)..]) as int
  }

  /** `crc & 0xFF` and `(crc >> 8) & 0xFF`, the two checksum bytes on the wire. */
  function CrcLow(crc: int): Byte { crc % 256 }
  function CrcHigh(crc: int): Byte { (crc / 256) % 256 }

  /** One outer iteration of `crc16`: the byte is xored into the low bits
      of the register, then the inner `for _ in range(8)` loop runs. */
  method AbsorbByte(r: bv16, b: Byte) returns (result: bv16)
    ensures result == Absorb(r, b)
  {
    result := r ^ Widen(b);
    var k := 0;
    while k < 8
      invariant 0 <= k <= 8
      invariant Rounds(result, 8 - k) == Absorb(r, b)
    {
      if result & 1 == 1 {
        result := (result >> 1) ^ GenPoly;
      } else {
        result := result >> 1;
      }
      k := k + 1;
    }
  }

  /** The outer loop of `crc16`, proved to compute `Crc16`. */
  method ComputeCrc16(data: seq<Byte>, offset: nat) returns (crc: int)
    ensures crc == Crc16(data, offset)
    ensures 0 <= crc <= 0xFFFF
  {
    var result: bv16 := Init;
    var i := Start(data, offset);
    while i < |data|
      invariant Start(data, offset) <= i <= |data|
      invariant CrcFrom(result, data[i..]) == CrcFrom(Init, data[Start(data, offset)..])
    {
      assert data[i..][0] == data[i] && data[i..][1..] == data[i + 1..];
      result := AbsorbByte(result, data[i]);
      i := i + 1;
    }
    crc := result as int;
  }

  /** The checksum reads nothing before `offset`: two buffers that agree from
      `offset` on have the same checksum. */
  lemma CrcIgnoresPrefix(a: seq<Byte>, b: seq<Byte>, offset: nat)
    requires offset <= |a| && offset <= |b|
    requires a[offset..] == b[offset..]
    ensures Crc16(a, offset) == Crc16(b, offset)
  {
  }

  /** Absorbing `a + b` is absorbing `a`, then `b`. */
  lemma {:induction false} CrcFromConcat(r: bv16, a: seq<Byte>, b: seq<Byte>)
    ensures CrcFrom(r, a + b) == CrcFrom(CrcFrom(r, a), b)
    decreases |a|
  {
    if a != [] {
      assert (a + b)[0] == a[0] && (a + b)[1..] == a[1..] + b;
      CrcFromConcat(Absorb(r, a[0]), a[1..], b);
      assert CrcFrom(r, a + b) == CrcFrom(Absorb(r, a[0]), a[1..] + b);
    } else {
      assert a + b == b;
    }
  }

  /** One round maps different registers to different registers: the shift
      loses bit 0, but bit 0 decides whether the top bit of the polynomial
      is set. */
  lemma ShiftRoundInjective(a: bv16, b: bv16)
    requires a != b
    ensures ShiftRound(a) != ShiftRound(b)
  {
  }

  lemma {:induction false} RoundsInjective(a: bv16, b: bv16, n: nat)
    requires a != b
    ensures Rounds(a, n) != Rounds(b, n)
    decreases n
  {
    if n > 0 {
      ShiftRoundInjective(a, b);
      RoundsInjective(ShiftRound(a), ShiftRound(b), n - 1);
    }
  }

  lemma XorInjective(a: bv16, b: bv16, w: bv16)
    requires a != b
    ensures a ^ w != b ^ w
  {
  }

  /** Absorbing the same byte into different registers keeps them apart. */
  lemma AbsorbSeparates(a: bv16, b: bv16, x: Byte)
    requires a != b
    ensures Absorb(a, x) != Absorb(b, x)
  {
    var w := Widen(x);
    XorInjective(a, b, w);
    AbsorbWidened(a, x, w);
    AbsorbWidened(b, x, w);
    RoundsInjective(a ^ w, b ^ w, 8);
  }

  /** Absorbing different bytes into the same register gives different registers. */
  lemma AbsorbDetects(r: bv16, x: Byte, y: Byte)
    requires x != y
    ensures Absorb(r, x) != Absorb(r, y)
  {
    var u, v := Widen(x), Widen(y);
    XorInjective(u, v, r);
    assert r ^ u == u ^ r && r ^ v == v ^ r;
    AbsorbWidened(r, x, u);
    AbsorbWidened(r, y, v);
    RoundsInjective(r ^ u, r ^ v, 8);
  }

  /** Registers that differ stay different whatever bytes follow. */
  lemma {:induction false} CrcFromSeparates(a: bv16, b: bv16, s: seq<Byte>)
    requires a != b
    ensures CrcFrom(a, s) != CrcFrom(b, s)
    decreases |s|
  {
    if s != [] {
      AbsorbSeparates(a, b, s[0]);
      CrcFromSeparates(Absorb(a, s[0]), Absorb(b, s[0]), s[1..]);
    }
  }

  /** Changing any one byte of the input changes the register: the checksum
      detects every single-byte error, whatever its position and value. */
  lemma {:induction false} CrcFromDetectsChange(r: bv16, s: seq<Byte>, i: nat, v: Byte)
    requires i < |s| && v != s[i]
    ensures CrcFrom(r, s[i := v]) != CrcFrom(r, s)
    decreases i
  {
    var t := s[i := v];
    assert t[0] == (if i == 0 then v else s[0]);
    assert t[1..] == if i == 0 then s[1..] else s[1..][i - 1 := v];
    if i == 0 {
      AbsorbDetects(r, v, s[0]);
      CrcFromSeparates(Absorb(r, v), Absorb(r, s[0]), s[1..]);
    } else {
      CrcFromDetectsChange(Absorb(r, s[0]), s[1..], i - 1, v);
    }
  }

  /** The two checksum bytes of a register read as an integer are its two
      8-bit halves. */
  lemma ChecksumHalves(a: bv16)
    ensures CrcLow(a as int) == ((a & 0xFF) as bv8) as int
    ensures CrcHigh(a as int) == ((a >> 8) as bv8) as int
  {
    RegisterHalves(a);
    ByteDigits(a as int, ((a >> 8) as bv8) as int, ((a & 0xFF) as bv8) as int);
  }

  lemma RegisterHalves(a: bv16)
    ensures a as int == ((a >> 8) as bv8) as int * 256 + ((a & 0xFF) as bv8) as int
  {
  }

  lemma ByteDigits(x: int, h: int, l: int)
    requires 0 <= h < 256 && 0 <= l < 256 && x == h * 256 + l
    ensures CrcLow(x) == l && CrcHigh(x) == h
  {
  }

  lemma HalfValueInjective(u: bv8, w: bv8)
    requires u != w
    ensures u as int != w as int
  {
  }

  lemma HalvesSeparate(a: bv16, b: bv16)
    requires a != b
    ensures (a & 0xFF) as bv8 != (b & 0xFF) as bv8 || (a >> 8) as bv8 != (b >> 8) as bv8
  {
  }

  /** Registers that differ give checksums that differ in their low or their
      high byte. */
  lemma ChecksumBytesSeparate(a: bv16, b: bv16)
    requires a != b
    ensures CrcLow(a as int) != CrcLow(b as int) || CrcHigh(a as int) != CrcHigh(b as int)
  {
    ChecksumHalves(a);
    ChecksumHalves(b);
    HalvesSeparate(a, b);
    if (a & 0xFF) as bv8 != (b & 0xFF) as bv8 {
      HalfValueInjective((a & 0xFF) as bv8, (b & 0xFF) as bv8);
    } else {
      HalfValueInjective((a >> 8) as bv8, (b >> 8) as bv8);
    }
  }

  /** `crc16(data, offset)` detects a change of any one byte at or after
      `offset`: its low or its high checksum byte changes. */
  lemma Crc16DetectsChange(data: seq<Byte>, offset: nat, i: nat, v: Byte)
    requires offset <= i < |data| && v != data[i]
    ensures CrcLow(Crc16(data[i := v], offset)) != CrcLow(Crc16(data, offset))
         || CrcHigh(Crc16(data[i := v], offset)) != CrcHigh(Crc16(data, offset))
  {
    var t := data[i := v];
    assert t[offset..] == data[offset..][i - offset := v];
    CrcFromDetectsChange(Init, data[offset..], i - offset, v);
    var a, b := CrcFrom(Init, t[offset..]), CrcFrom(Init, data[offset..]);
    assert Start(t, offset) == offset && Start(data, offset) == offset;
    assert Crc16(t, offset) == a as int && Crc16(data, offset) == b as int;
    ChecksumBytesSeparate(a, b);
  }

  /** A byte absorbed into a register, with the byte already widened to 16 bits. */
  lemma AbsorbWidened(r: bv16, b: Byte, w: bv16)
    requires Widen(b) == w
    ensures Absorb(r, b) == Rounds(r ^ w, 8)
  {
  }

  /** The widened digits "1" to "9" of the check text. */
  lemma WidenDigits()
    ensures Widen(0x31) == 0x31 && Widen(0x32) == 0x32 && Widen(0x33) == 0x33
    ensures Widen(0x34) == 0x34 && Widen(0x35) == 0x35 && Widen(0x36) == 0x36
    ensures Widen(0x37) == 0x37 && Widen(0x38) == 0x38 && Widen(0x39) == 0x39
  {
  }

  /** The register after the bytes "1234" of the check text. */
  lemma {:induction false} CheckValueFront(s: seq<Byte>)
    requires |s| == 4 && s[0] == 0x31 && s[1] == 0x32 && s[2] == 0x33 && s[3] == 0x34
    ensures CrcFrom(Init, s) == 0x30BA
  {
    WidenDigits();
    AbsorbWidened(Init, s[0], 0x31);
    AbsorbWidened(0x947E, s[1], 0x32);
    AbsorbWidened(0xF595, s[2], 0x33);
    AbsorbWidened(0x7A75, s[3], 0x34);
    assert Rounds(0xFFCE, 8) == 0x947E && Rounds(0x944C, 8) == 0xF595;
    assert Rounds(0xF5A6, 8) == 0x7A75 && Rounds(0x7A41, 8) == 0x30BA;
    assert CrcFrom(0x30BA, s[4..]) == 0x30BA;
    assert CrcFrom(0x7A75, s[3..]) == 0x30BA;
    assert CrcFrom(0xF595, s[2..]) == 0x30BA;
    assert CrcFrom(0x947E, s[1..]) == 0x30BA;
  }

  /** The register after the bytes "56789" of the check text. */
  lemma {:induction false} CheckValueBack(s: seq<Byte>)
    requires |s| == 5 && s[0] == 0x35 && s[1] == 0x36 && s[2] == 0x37 && s[3] == 0x38
    requires s[4] == 0x39
    ensures CrcFrom(0x30BA, s) == 0x4B37
  {
    WidenDigits();
    AbsorbWidened(0x30BA, s[0], 0x35);
    AbsorbWidened(0xA471, s[1], 0x36);
    AbsorbWidened(0x32E4, s[2], 0x37);
    AbsorbWidened(0x9D73, s[3], 0x38);
    AbsorbWidened(0x37DD, s[4], 0x39);
    assert Rounds(0x308F, 8) == 0xA471 && Rounds(0xA447, 8) == 0x32E4;
    assert Rounds(0x32D3, 8) == 0x9D73 && Rounds(0x9D4B, 8) == 0x37DD;
    assert Rounds(0x37E4, 8) == 0x4B37;
    assert CrcFrom(0x4B37, s[5..]) == 0x4B37;
    assert CrcFrom(0x37DD, s[4..]) == 0x4B37;
    assert CrcFrom(0x9D73, s[3..]) == 0x4B37;
    assert CrcFrom(0x32E4, s[2..]) == 0x4B37;
    assert CrcFrom(0xA471, s[1..]) == 0x4B37;
  }

  /** Known-answer test of the parameterisation: the checksum of the ASCII
      text "123456789" is 0x4B37, the CRC-16/MODBUS check value. */
  lemma {:induction false} CheckValue(s: seq<Byte>)
    requires |s| == 9 && s[0] == 0x31 && s[1] == 0x32 && s[2] == 0x33 && s[3] == 0x34
    requires s[4] == 0x35 && s[5] == 0x36 && s[6] == 0x37 && s[7] == 0x38 && s[8] == 0x39
    ensures Crc16(s, 0) == 0x4B37
  {
    assert s[..4] + s[4..] == s && s[Start(s, 0)..] == s;
    CheckValueFront(s[..4]);
    CheckValueBack(s[4..]);
    CrcFromConcat(Init, s[..4], s[4..]);
  }

  /** `check_data(data, type)` as a value: the type byte and the checksum of
      `data[3:]` replace bytes 0..2; everything from byte 3 on is kept, so the
      written checksum is that of the final buffer. */
  function Sealed(data: seq<Byte>, typ: Byte): (r: seq<Byte>)
    requires |data| >= 3
    ensures |r| == |data| && r[0] == typ && r[3..] == data[3..]
    ensures r[1] == CrcLow(Crc16(r, 3)) && r[2] == CrcHigh(Crc16(r, 3))
  {
    var crc := Crc16(data, 3);
    var r := [typ, CrcLow(crc), CrcHigh(crc)] + data[3..];
    CrcIgnoresPrefix(data, r, 3);
    r
  }

  /** Sealing a sealed buffer again with the same type changes nothing. */
  lemma SealIdempotent(data: seq<Byte>, typ: Byte)
    requires |data| >= 3
    ensures Sealed(Sealed(data, typ), typ) == Sealed(data, typ)
  {
    var r := Sealed(data, typ);
    assert Sealed(r, typ)[..3] == r[..3];
    assert Sealed(r, typ) == Sealed(r, typ)[..3] + Sealed(r, typ)[3..];
    assert r == r[..3] + r[3..];
  }

  /** `check_data`: computes the checksum of `data[3:]` first, then writes
      indices 0, 1 and 2 of the buffer in place. */
  method CheckData(data: array<Byte>, typ: Byte)
    requires data.Length >= 3
    modifies data
    ensures data[..] == Sealed(old(data[..]), typ)
  {
    var crc := ComputeCrc16(data[..], 3);
    data[0] := typ;
    data[1] := CrcLow(crc);
    data[2] := CrcHigh(crc);
    assert data[..] == [typ, CrcLow(crc), CrcHigh(crc)] + old(data[..])[3..];
  }
}

/** The batched IMU packet of `ring/ble_ring_zhw.py`: type byte 0x19, two
    checksum bytes over everything from byte 3 on, then up to eight 28-byte
    sub-records of six signed and one unsigned little-endian 32-bit
    fields (accelerometer, gyroscope, timestamp). */
module Zhw {
  import opened Bytes
  import opened Crc
  import opened Events
  import LegacyControl

  const ImuPacketType: Byte := 0x19
  const RecordSize: nat := 28
  const MaxRecords: nat := 8

  /** Where sub-record `i` starts. */
  function RecordOffset(i: nat): nat { 3 + RecordSize * i }

  /** A 28-byte sub-record as the sample handed to the IMU callback. */
  function DecodeRecord(rec: seq<Byte>): ImuSample
    requires |rec| == RecordSize
  {
    ImuSample(
      Int32At(rec, 0) as real, Int32At(rec, 4) as real, Int32At(rec, 8) as real,
      Int32At(rec, 12) as real, Int32At(rec, 16) as real, Int32At(rec, 20) as real,
      UInt32At(rec, 24) as real)
  }

  /** Slot `i` is one of the eight and the packet holds all its bytes. */
  predicate HasRecord(data: seq<Byte>, i: nat) {
    i < MaxRecords && RecordOffset(i) + RecordSize <= |data|
  }

  /** `data[3 + i * 28 : 3 + (i + 1) * 28]` of a complete slot. */
  function RecordAt(data: seq<Byte>, i: nat): seq<Byte>
    requires HasRecord(data, i)
  {
    data[RecordOffset(i)..RecordOffset(i) + RecordSize]
  }

  /** How many sub-records a packet of this length holds. */
  function RecordCount(data: seq<Byte>): nat {
    if |data| < 3 then 0
    else if (|data| - 3) / RecordSize < MaxRecords then (|data| - 3) / RecordSize
    else MaxRecords
  }

  /** Slot `i` is decoded exactly when it is one of the first eight and the
      packet holds all of its 28 bytes. */
  lemma CountBound(data: seq<Byte>, i: nat)
    ensures i < RecordCount(data) <==> HasRecord(data, i)
  {
    if |data| >= 3 {
      var q := (|data| - 3) / RecordSize;
      assert RecordSize * q <= |data| - 3 < RecordSize * (q + 1);
      if i < q {
        assert RecordSize * (i + 1) <= RecordSize * q;
      } else {
        assert RecordSize * (q + 1) <= RecordSize * (i + 1);
      }
    }
  }

  /** The samples of the `for i in range(8)` loop: it stops at the first
      slice shorter than 28 bytes, so it decodes the first `RecordCount`
      slots, in order. */
  function Samples(data: seq<Byte>): seq<Event> {
    seq(RecordCount(data), (k: int) requires 0 <= k < RecordCount(data) =>
      CountBound(data, k); Imu(DecodeRecord(RecordAt(data, k))))
  }

  /** `spp_notify_callback`. Only the type test reads outside the `try`;
      inside it, a short packet's `IndexError` is swallowed by the bare
      `except` exactly like a failed checksum assertion. */
  function ZhwNotify(data: seq<Byte>): Reply {
    if |data| == 0 then Fault
    else if data[0] != ImuPacketType then Emit([])
    else match LegacyControl.CheckGate(data)
      case GateFault => Emit([])
      case Reject => Emit([])
      case Pass => Emit(Samples(data))
  }

  /** The callback raises only on an empty packet. */
  lemma ZhwFaults(data: seq<Byte>)
    ensures ZhwNotify(data).faulted <==> |data| == 0
  {
  }

  /** A packet of another type produces nothing. */
  lemma OtherTypeIgnored(data: seq<Byte>)
    requires |data| > 0 && data[0] != ImuPacketType
    ensures ZhwNotify(data) == Emit([])
  {
  }

  /** A sample packet that is too short to carry a checksum, or whose
      checksum bytes are wrong, produces no sample. */
  lemma CorruptedDropped(data: seq<Byte>)
    requires |data| >= 1 && data[0] == ImuPacketType
    requires |data| < 3 || data[1] != CrcLow(Crc16(data, 3)) || data[2] != CrcHigh(Crc16(data, 3))
    ensures ZhwNotify(data) == Emit([])
  {
    LegacyControl.CheckGateSpec(data);
  }

  /** 32-bit fields laid out one after the other, low byte first. */
  function Words(vs: seq<int>): (r: seq<Byte>)
    ensures |r| == 4 * |vs|
    decreases |vs|
  {
    if vs == [] then [] else LittleEndian32(vs[0]) + Words(vs[1..])
  }

  /** Field `k` of the layout is the `k`-th value's four bytes. */
  lemma {:induction false} WordsAt(vs: seq<int>, k: nat)
    requires k < |vs|
    ensures Words(vs)[4 * k..4 * k + 4] == LittleEndian32(vs[k])
    decreases k
  {
    var w := Words(vs);
    assert w == LittleEndian32(vs[0]) + Words(vs[1..]);
    if k > 0 {
      WordsAt(vs[1..], k - 1);
      assert w[4 * k..4 * k + 4] == Words(vs[1..])[4 * (k - 1)..4 * (k - 1) + 4];
    }
  }

  /** The 32-bit field at `o` reads what was written there. */
  lemma FieldAt(rec: seq<Byte>, o: nat, x: int)
    requires o + 4 <= |rec| && rec[o..o + 4] == LittleEndian32(x)
    ensures UInt32At(rec, o) == x % TwoTo32
    ensures -TwoTo31 <= x < TwoTo31 ==> Int32At(rec, o) == x
  {
    var w := LittleEndian32(x);
    assert rec[o] == w[0] && rec[o + 1] == w[1] && rec[o + 2] == w[2] && rec[o + 3] == w[3];
    assert UInt32At(rec, o) == UInt32At(w, 0);
    LittleEndian32RoundTrip(x);
    if -TwoTo31 <= x < TwoTo31 {
      Int32RoundTrip(x);
    }
  }

  predicate IsInt32(x: int) { -TwoTo31 <= x < TwoTo31 }

  /** Field `k` of the layout reads back the `k`-th value. */
  lemma WordField(vs: seq<int>, k: nat)
    requires k < |vs|
    ensures UInt32At(Words(vs), 4 * k) == vs[k] % TwoTo32
    ensures IsInt32(vs[k]) ==> Int32At(Words(vs), 4 * k) == vs[k]
  {
    var w := Words(vs);
    WordsAt(vs, k);
    assert w[4 * k..4 * k + 4] == LittleEndian32(vs[k]);
    FieldAt(w, 4 * k, vs[k]);
  }

  /** Encode then decode: a sub-record laid out by the ring from six
      signed and one unsigned 32-bit value decodes to those values. */
  lemma RecordRoundTrip(vs: seq<int>)
    requires |vs| == 7
    requires forall k :: 0 <= k < 6 ==> IsInt32(vs[k])
    requires 0 <= vs[6] < TwoTo32
    ensures DecodeRecord(Words(vs))
      == ImuSample(vs[0] as real, vs[1] as real, vs[2] as real, vs[3] as real, vs[4] as real, vs[5] as real, vs[6] as real)
  {
    var rec := Words(vs);
    WordField(vs, 0);
    WordField(vs, 1);
    WordField(vs, 2);
    WordField(vs, 3);
    WordField(vs, 4);
    WordField(vs, 5);
    WordField(vs, 6);
    assert Int32At(rec, 0) == vs[0] && Int32At(rec, 4) == vs[1] && Int32At(rec, 8) == vs[2];
    assert Int32At(rec, 12) == vs[3] && Int32At(rec, 16) == vs[4] && Int32At(rec, 20) == vs[5];
    assert UInt32At(rec, 24) == vs[6];
  }

  /** `spp_notify_callback`: the checksum gate, then the sub-record loop
      with its early `break`. */
  method SppNotify(data: seq<Byte>) returns (reply: Reply)
    ensures reply == ZhwNotify(data)
  {
    if |data| == 0 {
      return Fault;
    }
    if data[0] != ImuPacketType {
      return Emit([]);
    }
    var crc := ComputeCrc16(data, 3);
    if |data| < 2 {
      return Emit([]);
    }
    if CrcLow(crc) != data[1] {
      return Emit([]);
    }
    if |data| < 3 {
      return Emit([]);
    }
    if CrcHigh(crc) != data[2] {
      return Emit([]);
    }
    var events := DecodeRecords(data);
    reply := Emit(events);
  }

  /** The `for i in range(8)` loop of a packet that passed the gate. */
  method DecodeRecords(data: seq<Byte>) returns (events: seq<Event>)
    ensures events == Samples(data)
  {
    events := [];
    var i := 0;
    while i < MaxRecords
      invariant 0 <= i <= MaxRecords && |events| == i
      invariant forall k :: 0 <= k < i ==> HasRecord(data, k) && events[k] == Imu(DecodeRecord(RecordAt(data, k)))
      decreases MaxRecords - i
    {
      // `data[3 + i * 28 : 3 + (i + 1) * 28]` is cut short exactly when
      // the packet ends before the slot does.
      if RecordOffset(i + 1) > |data| {
        CountBound(data, i);
        assert RecordCount(data) == i by {
          if i > 0 {
            CountBound(data, i - 1);
          }
        }
        return;
      }
      var frame := data[RecordOffset(i)..RecordOffset(i + 1)];
      var sample := DecodeRecord(frame);
      events := events + [Imu(sample)];
      i := i + 1;
    }
    CountBound(data, MaxRecords - 1);
  }
}

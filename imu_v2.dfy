/** The IMU records of the opcode-V2 protocol: 12-byte records of six
    signed little-endian 16-bit readings (accelerometer x, y, z, then
    gyroscope x, y, z), converted to the driver's units, turned to the
    ring's axes, and, in two of the drivers, with the sixth sample's
    neighbours averaged into the fifth sample's z rate. */
module ImuV2 {
  import opened Bytes
  import opened Events

  const RecordLength: nat := 12

  /** `struct.unpack("hhh", data[i:i+6])` and `data[i+6:i+12]`. */
  datatype RawRecord = RawRecord(ax: int, ay: int, az: int, gx: int, gy: int, gz: int)

  function RawAt(data: seq<Byte>, i: nat): RawRecord
    requires i + RecordLength <= |data|
  {
    RawRecord(Int16At(data, i), Int16At(data, i + 2), Int16At(data, i + 4),
      Int16At(data, i + 6), Int16At(data, i + 8), Int16At(data, i + 10))
  }

  /** The record as the ring lays it out, each reading low byte first. */
  function RecordBytes(r: RawRecord): (b: seq<Byte>)
    ensures |b| == RecordLength
  {
    LittleEndian16(r.ax) + LittleEndian16(r.ay) + LittleEndian16(r.az)
      + LittleEndian16(r.gx) + LittleEndian16(r.gy) + LittleEndian16(r.gz)
  }

  predicate IsInt16(x: int) { -0x8000 <= x < 0x8000 }

  predicate FitsInt16(r: RawRecord) {
    IsInt16(r.ax) && IsInt16(r.ay) && IsInt16(r.az) && IsInt16(r.gx) && IsInt16(r.gy) && IsInt16(r.gz)
  }

  /** The reading at `o` of bytes laid out as `w` there reads `x` back. */
  lemma ReadingAt(data: seq<Byte>, o: nat, x: int)
    requires IsInt16(x) && o + 2 <= |data| && data[o..o + 2] == LittleEndian16(x)
    ensures Int16At(data, o) == x
  {
    var w := LittleEndian16(x);
    assert data[o] == w[0] && data[o + 1] == w[1];
    assert Int16At(data, o) == Int16At(w, 0);
    Int16RoundTrip(x);
  }

  /** Encode then decode: every record of 16-bit readings comes back. */
  lemma RecordRoundTrip(r: RawRecord)
    requires FitsInt16(r)
    ensures RawAt(RecordBytes(r), 0) == r
  {
    var b := RecordBytes(r);
    assert b[0..2] == LittleEndian16(r.ax);
    assert b[2..4] == LittleEndian16(r.ay);
    assert b[4..6] == LittleEndian16(r.az);
    assert b[6..8] == LittleEndian16(r.gx);
    assert b[8..10] == LittleEndian16(r.gy);
    assert b[10..12] == LittleEndian16(r.gz);
    ReadingAt(b, 0, r.ax);
    ReadingAt(b, 2, r.ay);
    ReadingAt(b, 4, r.az);
    ReadingAt(b, 6, r.gx);
    ReadingAt(b, 8, r.gy);
    ReadingAt(b, 10, r.gz);
  }

  /** `gyro_bias`, subtracted from the turned gyroscope rates. */
  datatype Bias = Bias(x: real, y: real, z: real)

  const NoBias: Bias := Bias(0.0, 0.0, 0.0)

  /** How the samples of one batch are stamped: all with one clock reading,
      or spread evenly from `start` with `step` between records. */
  datatype Timing = Fixed(stamp: real) | Spread(start: real, step: real)

  function StampAt(t: Timing, k: nat): real {
    match t
    case Fixed(stamp) => stamp
    case Spread(start, step) => start + step * (k as real)
  }

  /** The units the readings are multiplied into. */
  datatype Units = Units(acc: real, gyr: real)

  /** `acc / 1000 * 9.8` (milli-g to m/s^2) and `gyr / 180 * math.pi`
      (degrees to radians per second). */
  const StandardUnits: Units := Units(9.8 / 1000.0, MathPi / 180.0)

  /** `4 + len(data) % 2`: where the records start, from the parity of the
      whole message's length. */
  function HeadLength(data: seq<Byte>): nat { 4 + |data| % 2 }

  /** `IMUData(-acc_y, acc_z, -acc_x, -gyr_y - b0, gyr_z - b1, -gyr_x - b2, t)`
      after the unit conversion. */
  function Turn(r: RawRecord, u: Units, bias: Bias, stamp: real): ImuSample {
    ImuSample(
      -(r.ay as real * u.acc), r.az as real * u.acc, -(r.ax as real * u.acc),
      -(r.gy as real * u.gyr) - bias.x, r.gz as real * u.gyr - bias.y, -(r.gx as real * u.gyr) - bias.z,
      stamp)
  }

  /** The axis change undone: with unit conversions of 1 and no bias, the
      turned sample's axes hold the record's readings, negated where the
      drivers negate them. */
  lemma TurnAxes(r: RawRecord, stamp: real)
    ensures var s := Turn(r, Units(1.0, 1.0), NoBias, stamp);
      RawRecord((-s.accZ).Floor, (-s.accX).Floor, s.accY.Floor, (-s.gyrZ).Floor, (-s.gyrX).Floor, s.gyrY.Floor) == r
  {
    var s := Turn(r, Units(1.0, 1.0), NoBias, stamp);
    assert -s.accZ == r.ax as real && -s.accX == r.ay as real && s.accY == r.az as real;
    assert -s.gyrZ == r.gx as real && -s.gyrX == r.gy as real && s.gyrY == r.gz as real;
  }

  /** The samples of the whole records in `bytes`, in order: record `k`
      starts at byte `12 * k` and is record number `k` of its batch. */
  function Samples(bytes: seq<Byte>, u: Units, bias: Bias, t: Timing): seq<ImuSample> {
    seq(|bytes| / RecordLength, (k: int) requires 0 <= k < |bytes| / RecordLength =>
      WholeRecord(|bytes|, k); Turn(RawAt(bytes, RecordLength * k), u, bias, StampAt(t, k)))
  }

  /** The bias moves the three rates by its three components and nothing
      else. */
  lemma BiasSubtracted(r: RawRecord, u: Units, bias: Bias, stamp: real)
    ensures var b := Turn(r, u, bias, stamp);
      var plain := Turn(r, u, NoBias, stamp);
      b == plain.(gyrX := plain.gyrX - bias.x, gyrY := plain.gyrY - bias.y, gyrZ := plain.gyrZ - bias.z)
  {
  }

  /** One sample per whole record; sample `k` is the record at byte
      `12 * k`. */
  lemma SampleAt(bytes: seq<Byte>, u: Units, bias: Bias, t: Timing, k: nat)
    requires k < |bytes| / RecordLength
    ensures |Samples(bytes, u, bias, t)| == |bytes| / RecordLength
    ensures RecordLength * k + RecordLength <= |bytes|
    ensures Samples(bytes, u, bias, t)[k] == Turn(RawAt(bytes, RecordLength * k), u, bias, StampAt(t, k))
  {
    WholeRecord(|bytes|, k);
  }

  /** Record `k` of `n` bytes is whole when fewer than `k` records fit. */
  lemma WholeRecord(n: nat, k: nat)
    requires k < n / RecordLength
    ensures RecordLength * k + RecordLength <= n
  {
    var q := n / RecordLength;
    assert RecordLength * q <= n;
    assert RecordLength * (k + 1) <= RecordLength * q;
  }

  /** A sequence holding, in order, the sample of every whole record of
      `data[lo..hi]`, read in place, is that slice's samples. */
  lemma SamplesOfSlice(data: seq<Byte>, lo: nat, hi: nat, u: Units, bias: Bias, t: Timing, xs: seq<ImuSample>)
    requires lo <= hi <= |data| && |xs| == (hi - lo) / RecordLength
    requires forall k :: 0 <= k < |xs| ==>
      lo + RecordLength * k + RecordLength <= hi
      && xs[k] == Turn(RawAt(data, lo + RecordLength * k), u, bias, StampAt(t, k))
    ensures xs == Samples(data[lo..hi], u, bias, t)
  {
    forall k | 0 <= k < |xs|
      ensures xs[k] == Turn(RawAt(data[lo..hi], RecordLength * k), u, bias, StampAt(t, k))
    {
      RawAtSlice(data, lo, hi, RecordLength * k);
    }
  }

  /** A record read inside a slice is the record read at the same place of
      the whole message. */
  lemma RawAtSlice(data: seq<Byte>, lo: nat, hi: nat, i: nat)
    requires lo + i + RecordLength <= hi <= |data|
    ensures RawAt(data[lo..hi], i) == RawAt(data, lo + i)
  {
    ReadingInSlice(data, lo, hi, i);
    ReadingInSlice(data, lo, hi, i + 2);
    ReadingInSlice(data, lo, hi, i + 4);
    ReadingInSlice(data, lo, hi, i + 6);
    ReadingInSlice(data, lo, hi, i + 8);
    ReadingInSlice(data, lo, hi, i + 10);
  }

  lemma ReadingInSlice(data: seq<Byte>, lo: nat, hi: nat, i: nat)
    requires lo + i + 2 <= hi <= |data|
    ensures Int16At(data[lo..hi], i) == Int16At(data, lo + i)
  {
    var w := data[lo..hi];
    assert w[i] == data[lo + i] && w[i + 1] == data[lo + i + 1];
  }

  /** `imu_datas[4].gyr_z = (imu_datas[3].gyr_z + imu_datas[5].gyr_z) / 2`. */
  function Smooth(samples: seq<ImuSample>): seq<ImuSample>
    requires |samples| >= 6
  {
    samples[4 := samples[4].(gyrZ := (samples[3].gyrZ + samples[5].gyrZ) / 2.0)]
  }

  /** Only the fifth sample's z rate changes, and it becomes the mean of
      its neighbours', so it lies between them. */
  lemma SmoothSpec(samples: seq<ImuSample>)
    requires |samples| >= 6
    ensures |Smooth(samples)| == |samples|
    ensures forall k :: 0 <= k < |samples| && k != 4 ==> Smooth(samples)[k] == samples[k]
    ensures Smooth(samples)[4].gyrZ + Smooth(samples)[4].gyrZ == samples[3].gyrZ + samples[5].gyrZ
    ensures Smooth(samples)[4] == samples[4].(gyrZ := Smooth(samples)[4].gyrZ)
    ensures samples[3].gyrZ <= samples[5].gyrZ ==> samples[3].gyrZ <= Smooth(samples)[4].gyrZ <= samples[5].gyrZ
    ensures samples[5].gyrZ <= samples[3].gyrZ ==> samples[5].gyrZ <= Smooth(samples)[4].gyrZ <= samples[3].gyrZ
  {
  }

  /** One `imu_callback` per sample, in order. */
  function ImuEvents(samples: seq<ImuSample>): (ev: seq<Event>)
    ensures |ev| == |samples|
    decreases |samples|
  {
    if samples == [] then [] else [Imu(samples[0])] + ImuEvents(samples[1..])
  }

  lemma {:induction false} ImuEventsAt(samples: seq<ImuSample>, k: nat)
    requires k < |samples|
    ensures ImuEvents(samples)[k] == Imu(samples[k])
    decreases k
  {
    if k > 0 {
      ImuEventsAt(samples[1..], k - 1);
    }
  }
}

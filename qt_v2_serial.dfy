/** `notify_callback` of `ring/qt/ble_ring_v2_serial.py`: the serial-relay
    variant of the opcode-V2 dispatcher. IMU batches are 133 bytes, carry
    their sensor ranges in byte 4, start their records after a 4- or
    5-byte header and may end in two 32-bit timestamps; the ring's own
    gesture codes are reported through a double-tap detector; calibration
    replies record the ring's clock. */
module QtV2Serial {
  import opened Bytes
  import opened Events
  import opened Touch
  import opened ImuV2

  /** `package_length`. */
  const PackageLength: nat := 133
  const BatchRecords: nat := 10
  /** The ring's clock counts 16384 ticks per second. */
  const RingTicksPerSecond: real := 16384.0

  /** `(data[4] >> 2) & 3`, the accelerometer range exponent. */
  function AccExponent(b: Byte): nat { (b / 4) % 4 }

  /** `data[4] & 3`, the gyroscope range exponent. */
  function GyrExponent(b: Byte): nat { b % 4 }

  /** The two exponents are two bit fields of the range byte: packing them
      and reading them back gives them again, and the bits above are
      ignored. */
  lemma ExponentsRoundTrip(acc: nat, gyr: nat, high: nat)
    requires acc < 4 && gyr < 4 && high < 16
    ensures AccExponent(16 * high + 4 * acc + gyr) == acc
    ensures GyrExponent(16 * high + 4 * acc + gyr) == gyr
  {
  }

  /** `2 ** e` for a two-bit exponent. */
  function PowerOfTwo(e: nat): (p: real)
    requires e < 4
    ensures p >= 1.0
  {
    if e == 0 then 1.0 else if e == 1 then 2.0 else if e == 2 then 4.0 else 8.0
  }

  /** Dividing by `acc_scale = 32768/16 * 2**e / 9.8` and by
      `gyr_scale = 32768/2000 * 2**e / (pi/180)`, as multipliers. */
  function SerialUnits(b: Byte): Units {
    Units(9.8 / (2048.0 * PowerOfTwo(AccExponent(b))), (MathPi / 180.0) / (16.384 * PowerOfTwo(GyrExponent(b))))
  }

  /** The message ends in a start and an end timestamp exactly when the
      bytes after the header are not a whole number of records. */
  predicate HasStamps(data: seq<Byte>) {
    (|data| - HeadLength(data)) % RecordLength != 0
  }

  /** `imu_packet_num`. */
  function PacketNum(data: seq<Byte>): int {
    if HasStamps(data) then (|data| - HeadLength(data) - 8) / RecordLength
    else (|data| - HeadLength(data)) / RecordLength
  }

  /** How the batch is stamped: spread evenly from the start to the end
      timestamp when both are present and non-zero, otherwise with one
      `perf_counter` reading. */
  function BatchTiming(data: seq<Byte>, perfNow: real): Timing
    requires |data| >= PackageLength
  {
    if HasStamps(data) then
      var start := Int32At(data, |data| - 8);
      var end := Int32At(data, |data| - 4);
      if start != 0 && end != 0 then
        assert PacketNum(data) >= 10;
        Spread(start as real, (end - start) as real / (PacketNum(data) - 1) as real)
      else Fixed(perfNow)
    else Fixed(perfNow)
  }

  /** The records of `range(head_length, package_length, 12)` that still
      have 12 bytes before `package_length`. */
  function Batch(data: seq<Byte>, perfNow: real): seq<ImuSample>
    requires |data| >= PackageLength
  {
    Samples(data[HeadLength(data)..PackageLength], SerialUnits(data[4]), NoBias, BatchTiming(data, perfNow))
  }

  /** Record `k` of a batch is whole, inside the first 133 bytes, and read
      with the batch's units and stamp `k`. */
  lemma BatchRecord(data: seq<Byte>, perfNow: real, k: nat)
    requires |data| >= PackageLength && k < BatchRecords
    ensures HeadLength(data) + RecordLength * k + RecordLength <= PackageLength
    ensures Batch(data, perfNow)[k]
      == Turn(RawAt(data, HeadLength(data) + RecordLength * k), SerialUnits(data[4]), NoBias,
           StampAt(BatchTiming(data, perfNow), k))
  {
    var head := HeadLength(data);
    var u := SerialUnits(data[4]);
    var t := BatchTiming(data, perfNow);
    var bytes := data[head..PackageLength];
    assert Batch(data, perfNow) == Samples(bytes, u, NoBias, t);
    SampleAt(bytes, u, NoBias, t, k);
    RawAtSlice(data, head, PackageLength, RecordLength * k);
  }

  /** A batch holds ten records from the header on, each whole and inside
      the first 133 bytes, in order, with no smoothing. */
  lemma BatchLayout(data: seq<Byte>, perfNow: real)
    requires |data| >= PackageLength
    ensures HeadLength(data) == 4 || HeadLength(data) == 5
    ensures |Batch(data, perfNow)| == BatchRecords
    ensures forall k :: 0 <= k < BatchRecords ==>
      HeadLength(data) + RecordLength * k + RecordLength <= PackageLength
      && Batch(data, perfNow)[k]
        == Turn(RawAt(data, HeadLength(data) + RecordLength * k), SerialUnits(data[4]), NoBias,
             StampAt(BatchTiming(data, perfNow), k))
  {
    forall k | 0 <= k < BatchRecords
      ensures HeadLength(data) + RecordLength * k + RecordLength <= PackageLength
      ensures Batch(data, perfNow)[k]
        == Turn(RawAt(data, HeadLength(data) + RecordLength * k), SerialUnits(data[4]), NoBias,
             StampAt(BatchTiming(data, perfNow), k))
    {
      BatchRecord(data, perfNow, k);
    }
  }

  /** Stamps spread over `n` records from `start` reach `end` at the last. */
  lemma SpreadReachesEnd(start: real, end: real, n: int)
    requires n >= 2
    ensures StampAt(Spread(start, (end - start) / (n - 1) as real), 0) == start
    ensures StampAt(Spread(start, (end - start) / (n - 1) as real), n - 1) == end
  {
    var m := (n - 1) as real;
    var step := (end - start) / m;
    assert step * m == end - start;
  }

  /** With timestamps, they are the last eight bytes and the count leaves
      them out; the spread stamps run from the start timestamp and reach
      the end timestamp at record `imu_packet_num - 1`. */
  lemma TimingSpec(data: seq<Byte>, perfNow: real)
    requires |data| >= PackageLength
    ensures HasStamps(data) ==> PacketNum(data) == (|data| - HeadLength(data) - 8) / RecordLength >= 10
    ensures !HasStamps(data) ==> PacketNum(data) == (|data| - HeadLength(data)) / RecordLength
    ensures BatchTiming(data, perfNow).Spread? ==>
      HasStamps(data)
      && StampAt(BatchTiming(data, perfNow), 0) == Int32At(data, |data| - 8) as real
      && StampAt(BatchTiming(data, perfNow), PacketNum(data) - 1) == Int32At(data, |data| - 4) as real
    ensures BatchTiming(data, perfNow).Fixed? ==>
      BatchTiming(data, perfNow) == Fixed(perfNow)
      && (HasStamps(data) ==> Int32At(data, |data| - 8) == 0 || Int32At(data, |data| - 4) == 0)
  {
    if BatchTiming(data, perfNow).Spread? {
      SpreadReachesEnd(Int32At(data, |data| - 8) as real, Int32At(data, |data| - 4) as real, PacketNum(data));
    }
  }

  /** The state `notify_callback` reads and writes: the touch machine,
      `last_tap_time`, `end_calib_timestamps` and `ring_timestamps`. */
  datatype SerialState = SerialState(touch: CountingState, lastTapTime: real, endCalib: seq<real>, ringTimestamps: seq<real>)

  datatype Outcome = Outcome(state: SerialState, reply: Reply)

  function After(events: seq<Event>, o: Outcome): Outcome {
    Outcome(o.state, Reply(events + o.reply.events, o.reply.faulted))
  }

  /** `_detect_double_tap_with_tap` with one `perf_counter` reading `now`:
      a tap less than half a second after the remembered one is a
      double-tap, after which the remembered time is 0. */
  function DoubleTapWithTap(lastTapTime: real, now: real): Stepped<real> {
    if now - lastTapTime < 0.5 then Stepped(0.0, [Touch(DoubleTapCode)]) else Stepped(now, [])
  }

  lemma DoubleTapSpec(lastTapTime: real, now: real)
    ensures DoubleTapWithTap(lastTapTime, now).events == [Touch(DoubleTapCode)] <==> now - lastTapTime < 0.5
    ensures DoubleTapWithTap(lastTapTime, now).events == [] <==> now - lastTapTime >= 0.5
    ensures DoubleTapWithTap(lastTapTime, now).state == (if now - lastTapTime < 0.5 then 0.0 else now)
  {
  }

  /** Three quick taps make one double-tap: the second tap reports it, and
      since the remembered time is then 0, a third tap at a clock reading
      of at least half a second reports nothing and is remembered. */
  lemma ThirdTapQuiet(last: real, t1: real, t2: real, t3: real)
    requires t1 - last >= 0.5 && t2 - t1 < 0.5 && t3 >= 0.5
    ensures DoubleTapWithTap(last, t1) == Stepped(t1, [])
    ensures DoubleTapWithTap(t1, t2) == Stepped(0.0, [Touch(DoubleTapCode)])
    ensures DoubleTapWithTap(0.0, t3) == Stepped(t3, [])
  {
  }

  /** The gesture codes the ring classifies itself (opcode 0x61 0x02):
      0, 3 and 4 go to the double-tap detector, 1 is reported as
      long-touch, any other code as itself. */
  function Gesture(s: SerialState, code: Byte, perfNow: real): Stepped<SerialState> {
    if code == 0 || code == 3 || code == 4 then
      var d := DoubleTapWithTap(s.lastTapTime, perfNow);
      Stepped(s.(lastTapTime := d.state), d.events)
    else if code == 1 then Stepped(s, [Touch(LongTouchCode)])
    else Stepped(s, [Touch(code)])
  }

  lemma GestureSpec(s: SerialState, code: Byte, perfNow: real)
    ensures code == 1 ==> Gesture(s, code, perfNow) == Stepped(s, [Touch(LongTouchCode)])
    ensures code !in {0, 1, 3, 4} ==> Gesture(s, code, perfNow) == Stepped(s, [Touch(code)])
    ensures code in {0, 3, 4} ==>
      && Gesture(s, code, perfNow).state.touch == s.touch
      && (Gesture(s, code, perfNow).events == [Touch(DoubleTapCode)] <==> perfNow - s.lastTapTime < 0.5)
      && (Gesture(s, code, perfNow).events == [] <==> perfNow - s.lastTapTime >= 0.5)
  {
  }

  /** `notify_callback(data)` with one wall-clock reading `wallNow`
      (`time.time()`) and one `perf_counter` reading `perfNow`. The battery
      level is only printed. */
  function Notify(s: SerialState, data: seq<Byte>, wallNow: real, perfNow: real): Outcome
    decreases |data|
  {
    if |data| < 4 then Outcome(s, Emit([]))
    else if data[2] == 0x10 && data[3] == 0x00 && |data| < 5 then Outcome(s, Fault)
    else if data[2] == 0x40 && data[3] == 0x06 then
      if |data| < 5 then Outcome(s, Fault)
      else if |data| < PackageLength then Outcome(s, Emit([]))
      else
        var ev := ImuEvents(Batch(data, perfNow));
        if |data| > PackageLength then After(ev, Notify(s, data[PackageLength..], wallNow, perfNow))
        else Outcome(s, Emit(ev))
    else if data[2] == 0x61 && data[3] == 0x00 then Outcome(s, Emit([]))
    else if data[2] == 0x61 && data[3] == 0x01 then
      if |data| < 7 then Outcome(s, Fault)
      else
        var d := CountingDetect(s.touch, data[6], wallNow);
        Outcome(s.(touch := d.state), Emit(d.events))
    else if data[2] == 0x61 && data[3] == 0x02 then
      if |data| < 5 then Outcome(s, Fault)
      else
        var g := Gesture(s, data[4], perfNow);
        After(g.events, if |data| > 5 then Notify(g.state, data[5..], wallNow, perfNow) else Outcome(g.state, Emit([])))
    else if data[2] == 0x12 && data[3] == 0x00 then
      if |data| < 5 then Outcome(s, Fault)
      else if |data| > 5 then Notify(s, data[5..], wallNow, perfNow)
      else Outcome(s, Emit([]))
    else if data[2] == 0x99 && data[3] == 0x00 then
      var t := s.(endCalib := s.endCalib + [perfNow]);
      if |data| != 8 then Outcome(t, Fault)
      else Outcome(t.(ringTimestamps := s.ringTimestamps + [Int32At(data, 4) as real / RingTicksPerSecond]), Emit([]))
    else Outcome(s, Emit([]))
  }

  /** Messages shorter than four bytes are ignored. */
  lemma ShortIgnored(s: SerialState, data: seq<Byte>, wallNow: real, perfNow: real)
    requires |data| < 4
    ensures Notify(s, data, wallNow, perfNow) == Outcome(s, Emit([]))
  {
  }

  /** A calibration reply of exactly eight bytes records one host time and
      the ring's time in seconds; any other length records the host time
      and then fails in `struct.unpack`, so the two lists drift apart. */
  lemma CalibrationReply(s: SerialState, data: seq<Byte>, wallNow: real, perfNow: real)
    requires |data| >= 4 && data[2] == 0x99 && data[3] == 0x00
    ensures Notify(s, data, wallNow, perfNow).state.endCalib == s.endCalib + [perfNow]
    ensures |data| == 8 ==>
      Notify(s, data, wallNow, perfNow).state.ringTimestamps == s.ringTimestamps + [Int32At(data, 4) as real / RingTicksPerSecond]
    ensures |data| != 8 ==>
      && Notify(s, data, wallNow, perfNow).reply == Fault
      && Notify(s, data, wallNow, perfNow).state.ringTimestamps == s.ringTimestamps
  {
  }

  /** A gesture message of five bytes followed by more bytes is handled
      as the gesture, then the rest as a message of its own. */
  lemma GestureThenMore(s: SerialState, p: seq<Byte>, q: seq<Byte>, wallNow: real, perfNow: real)
    requires |p| == 5 && p[2] == 0x61 && p[3] == 0x02 && |q| > 0
    ensures !Notify(s, p, wallNow, perfNow).reply.faulted
    ensures Notify(s, p + q, wallNow, perfNow)
      == After(Notify(s, p, wallNow, perfNow).reply.events, Notify(Notify(s, p, wallNow, perfNow).state, q, wallNow, perfNow))
  {
    var pq := p + q;
    assert pq[2] == p[2] && pq[3] == p[3] && pq[4] == p[4] && pq[5..] == q;
    var g := Gesture(s, p[4], perfNow);
    assert g.events + [] == g.events;
  }

  /** The header length and the timestamps are taken from the length of
      the whole message, not of the 133-byte batch: a batch of 133 bytes
      read alone starts its records at byte 5, but followed by another
      such batch in the same message it is read from byte 4. */
  lemma JoinedBatchesShiftHeader(p: seq<Byte>, q: seq<Byte>)
    requires |p| == PackageLength && |q| == PackageLength
    ensures HeadLength(p) == 5 && HasStamps(p) && PacketNum(p) == 10
    ensures HeadLength(p + q) == 4 && HasStamps(p + q) && PacketNum(p + q) == 21
    ensures (p + q)[HeadLength(p + q)..PackageLength] == [p[4]] + p[HeadLength(p)..PackageLength]
  {
    assert (p + q)[4..PackageLength] == p[4..PackageLength];
  }

  /** The build loop: `for i in range(head_length, package_length, 12)`,
      leaving when fewer than 12 bytes remain before `package_length`. */
  method DecodeRecords(data: seq<Byte>, head: nat, u: Units, t: Timing) returns (samples: seq<ImuSample>)
    requires head <= PackageLength <= |data|
    ensures samples == Samples(data[head..PackageLength], u, NoBias, t)
  {
    samples := [];
    var i := head;
    while i < PackageLength
      invariant i == head + RecordLength * |samples| && i <= PackageLength
      invariant forall k :: 0 <= k < |samples| ==>
        head + RecordLength * k + RecordLength <= PackageLength
        && samples[k] == Turn(RawAt(data, head + RecordLength * k), u, NoBias, StampAt(t, k))
      decreases PackageLength - i
    {
      if PackageLength - i < RecordLength {
        break;
      }
      var imu := Turn(RawAt(data, i), u, NoBias, StampAt(t, |samples|));
      samples := samples + [imu];
      i := i + RecordLength;
    }
    SamplesOfSlice(data, head, PackageLength, u, NoBias, t, samples);
  }

  /** The driver object of `ring/qt/ble_ring_v2_serial.py`, reduced to the
      state `notify_callback` and `tap_func` use. */
  class QtV2SerialRing {
    const touch: CountingTouch
    /** `last_tap_time`. */
    var lastTapTime: real
    /** `end_calib_timestamps`. */
    var endCalib: seq<real>
    /** `ring_timestamps`. */
    var ringTimestamps: seq<real>

    constructor ()
      ensures fresh(touch) && State() == SerialState(CountingState([], 0, 0.0, Tap(false, -1, -1)), 0.0, [], [])
    {
      touch := new CountingTouch();
      lastTapTime := 0.0;
      endCalib := [];
      ringTimestamps := [];
    }

    function State(): SerialState
      reads this, touch
    {
      SerialState(touch.State(), lastTapTime, endCalib, ringTimestamps)
    }

    /** One pass of `tap_func`'s loop; a lone tap classified 0 is reported
        as a tap after 50 ticks. */
    method TapFuncTick() returns (events: seq<Event>)
      modifies touch
      ensures Stepped(touch.State(), events) == CountingTick(old(touch.State()), true)
      ensures lastTapTime == old(lastTapTime) && endCalib == old(endCalib) && ringTimestamps == old(ringTimestamps)
    {
      events := touch.Tick(true);
    }

    /** `_detect_double_tap_with_tap()`. */
    method DetectDoubleTapWithTap(now: real) returns (events: seq<Event>)
      modifies this
      ensures lastTapTime == DoubleTapWithTap(old(lastTapTime), now).state
      ensures events == DoubleTapWithTap(old(lastTapTime), now).events
      ensures endCalib == old(endCalib) && ringTimestamps == old(ringTimestamps)
    {
      var doubleTapped := false;
      events := [];
      if now - lastTapTime < 0.5 {
        doubleTapped := true;
        events := [Touch(DoubleTapCode)];
      }
      lastTapTime := now;
      if doubleTapped {
        lastTapTime := 0.0;
      }
    }

    /** The IMU branch: the range byte, the header, the timestamps, the
        build loop, then the callbacks. */
    method ImuBatch(data: seq<Byte>, perfNow: real) returns (events: seq<Event>)
      requires |data| >= PackageLength
      ensures events == ImuEvents(Batch(data, perfNow))
    {
      var units := SerialUnits(data[4]);
      var head := 4 + |data| % 2;
      var start := 0;
      var end := 0;
      var packetNum;
      if (|data| - head) % 12 != 0 {
        start := Int32At(data, |data| - 8);
        end := Int32At(data, |data| - 4);
        packetNum := (|data| - head - 8) / 12;
      } else {
        packetNum := (|data| - head) / 12;
      }
      var timing;
      if start != 0 && end != 0 {
        timing := Spread(start as real, (end - start) as real / (packetNum - 1) as real);
      } else {
        timing := Fixed(perfNow);
      }
      assert head == HeadLength(data) && timing == BatchTiming(data, perfNow);
      var samples := DecodeRecords(data, head, units, timing);
      assert samples == Batch(data, perfNow);
      events := ImuEvents(samples);
    }

    /** `notify_callback(data)`. */
    method NotifyCallback(data: seq<Byte>, wallNow: real, perfNow: real) returns (reply: Reply)
      modifies this, touch
      ensures Outcome(State(), reply) == Notify(old(State()), data, wallNow, perfNow)
      decreases |data|
    {
      if |data| < 4 {
        return Emit([]);
      }
      if data[2] == 0x10 && data[3] == 0x00 && |data| < 5 {
        return Fault;
      }
      if data[2] == 0x40 && data[3] == 0x06 {
        if |data| < 5 {
          return Fault;
        }
        if |data| < PackageLength {
          return Emit([]);
        }
        var events := ImuBatch(data, perfNow);
        if |data| > PackageLength {
          var rest := NotifyCallback(data[PackageLength..], wallNow, perfNow);
          reply := Reply(events + rest.events, rest.faulted);
        } else {
          reply := Emit(events);
        }
      } else if data[2] == 0x61 && data[3] == 0x00 {
        reply := Emit([]);
      } else if data[2] == 0x61 && data[3] == 0x01 {
        if |data| < 7 {
          return Fault;
        }
        var events := touch.Detect(data[6], wallNow);
        reply := Emit(events);
      } else if data[2] == 0x61 && data[3] == 0x02 {
        if |data| < 5 {
          return Fault;
        }
        var events;
        var code := data[4];
        if code == 0 || code == 3 || code == 4 {
          events := DetectDoubleTapWithTap(perfNow);
        } else if code == 1 {
          events := [Touch(LongTouchCode)];
        } else {
          events := [Touch(code)];
        }
        if |data| > 5 {
          var rest := NotifyCallback(data[5..], wallNow, perfNow);
          reply := Reply(events + rest.events, rest.faulted);
        } else {
          reply := Emit(events + []);
        }
      } else if data[2] == 0x12 && data[3] == 0x00 {
        if |data| < 5 {
          return Fault;
        }
        if |data| > 5 {
          reply := NotifyCallback(data[5..], wallNow, perfNow);
        } else {
          reply := Emit([]);
        }
      } else if data[2] == 0x99 && data[3] == 0x00 {
        endCalib := endCalib + [perfNow];
        if |data| != 8 {
          return Fault;
        }
        ringTimestamps := ringTimestamps + [Int32At(data, 4) as real / RingTicksPerSecond];
        reply := Emit([]);
      } else {
        reply := Emit([]);
      }
    }
  }
}

/** `notify_callback` of `ring/ble_ring_v2.py`: the opcode-V2 driver that
    takes IMU records from the header to the end of the message, subtracts
    a gyroscope bias, keeps every sample it decodes and detects touches
    with the hold flag. */
module BleV2 {
  import opened Bytes
  import opened Events
  import opened Touch
  import opened ImuV2

  /** Only IMU messages longer than this are decoded. */
  const MinImuLength: nat := 20
  /** `imu_data[5]` must exist for the smoothing step. */
  const SmoothedRecords: nat := 6

  /** The bytes after the header are whole records. */
  predicate WholeRecords(data: seq<Byte>)
    requires HeadLength(data) <= |data|
  {
    (|data| - HeadLength(data)) % RecordLength == 0
  }

  /** The samples of the records from the header to the end, all stamped
      with one `perf_counter` reading. */
  function Batch(data: seq<Byte>, bias: Bias, perfNow: real): seq<ImuSample>
    requires HeadLength(data) <= |data|
  {
    Samples(data[HeadLength(data)..], StandardUnits, bias, Fixed(perfNow))
  }

  /** The state `notify_callback` updates: the touch machine and
      `all_imu_data`. */
  datatype BleV2State = BleV2State(touch: HoldingState, allImu: seq<ImuSample>)

  datatype Outcome = Outcome(state: BleV2State, reply: Reply)

  /** `notify_callback(sender, data)` with the driver's `gyro_bias`, one
      wall-clock reading and one `perf_counter` reading. The battery level
      is only printed. */
  function Notify(s: BleV2State, bias: Bias, data: seq<Byte>, wallNow: real, perfNow: real): Outcome {
    if |data| < 3 then Outcome(s, Fault)
    else if (data[2] == 0x40 || data[2] == 0x61 || data[2] == 0x12) && |data| < 4 then Outcome(s, Fault)
    else if data[2] == 0x40 && data[3] == 0x06 then
      if |data| <= MinImuLength then Outcome(s, Emit([]))
      else if !WholeRecords(data) then Outcome(s, Fault)
      else if |Batch(data, bias, perfNow)| < SmoothedRecords then Outcome(s, Fault)
      else
        var imu := Smooth(Batch(data, bias, perfNow));
        Outcome(s.(allImu := s.allImu + imu), Emit(ImuEvents(imu)))
    else if data[2] == 0x61 && data[3] == 0x00 then Outcome(s, Emit([]))
    else if data[2] == 0x61 && data[3] == 0x01 then
      if |data| < 7 then Outcome(s, Fault)
      else
        var d := HoldingDetect(s.touch, data[6], wallNow);
        Outcome(s.(touch := d.state), Emit(d.events))
    else if data[2] == 0x12 && data[3] == 0x00 then
      if |data| < 5 then Outcome(s, Fault) else Outcome(s, Emit([]))
    else Outcome(s, Emit([]))
  }

  /** Every failure happens before anything is stored: a message that
      raises leaves the state as it was and reports nothing. */
  lemma FaultKeepsState(s: BleV2State, bias: Bias, data: seq<Byte>, wallNow: real, perfNow: real)
    ensures Notify(s, bias, data, wallNow, perfNow).reply.faulted ==>
      Notify(s, bias, data, wallNow, perfNow) == Outcome(s, Fault)
  {
  }

  /** Only an IMU message adds samples, only a touch report changes the
      touch machine, and `all_imu_data` only grows. */
  lemma StateSeparation(s: BleV2State, bias: Bias, data: seq<Byte>, wallNow: real, perfNow: real)
    ensures var o := Notify(s, bias, data, wallNow, perfNow);
      |o.state.allImu| >= |s.allImu| && o.state.allImu[..|s.allImu|] == s.allImu
    ensures var o := Notify(s, bias, data, wallNow, perfNow);
      o.state.allImu != s.allImu ==> |data| > MinImuLength && data[2] == 0x40 && data[3] == 0x06
    ensures var o := Notify(s, bias, data, wallNow, perfNow);
      o.state.touch != s.touch ==> |data| >= 7 && data[2] == 0x61 && data[3] == 0x01
  {
  }

  /** An IMU message longer than 20 bytes fails on a partial record or on
      fewer than six records; otherwise it appends its samples, smoothed,
      to `all_imu_data` and reports each of them, in order. */
  lemma ImuMessage(s: BleV2State, bias: Bias, data: seq<Byte>, wallNow: real, perfNow: real)
    requires |data| > MinImuLength && data[2] == 0x40 && data[3] == 0x06
    ensures var o := Notify(s, bias, data, wallNow, perfNow);
      o.reply.faulted <==> !WholeRecords(data) || (|data| - HeadLength(data)) / RecordLength < SmoothedRecords
    ensures var o := Notify(s, bias, data, wallNow, perfNow);
      !o.reply.faulted ==>
        && o.state == s.(allImu := s.allImu + Smooth(Batch(data, bias, perfNow)))
        && |o.reply.events| == (|data| - HeadLength(data)) / RecordLength
        && forall k :: 0 <= k < |o.reply.events| ==> o.reply.events[k] == Imu(Smooth(Batch(data, bias, perfNow))[k])
  {
    if !Notify(s, bias, data, wallNow, perfNow).reply.faulted {
      var imu := Smooth(Batch(data, bias, perfNow));
      forall k | 0 <= k < |imu|
        ensures ImuEvents(imu)[k] == Imu(imu[k])
      {
        ImuEventsAt(imu, k);
      }
    }
  }

  /** Record `k` of a batch is read from byte `head + 12 * k`, turned,
      unit-converted and shifted by the bias. */
  lemma BatchRecord(data: seq<Byte>, bias: Bias, perfNow: real, k: nat)
    requires HeadLength(data) <= |data| && k < |Batch(data, bias, perfNow)|
    ensures HeadLength(data) + RecordLength * k + RecordLength <= |data|
    ensures Batch(data, bias, perfNow)[k]
      == Turn(RawAt(data, HeadLength(data) + RecordLength * k), StandardUnits, bias, perfNow)
  {
    var head := HeadLength(data);
    SampleAt(data[head..], StandardUnits, bias, Fixed(perfNow), k);
    assert data[head..] == data[head..|data|];
    RawAtSlice(data, head, |data|, RecordLength * k);
  }

  /** `q` whole records and `r` bytes more. */
  lemma RecordsAndRest(q: nat, r: nat)
    requires r < RecordLength
    ensures (RecordLength * q + r) % RecordLength == r && (RecordLength * q + r) / RecordLength == q
  {
  }

  /** The build loop `for i in range(4 + len(data) % 2, len(data), 12)`;
      `whole` is false where `struct.unpack` meets a partial record. */
  method DecodeRecords(data: seq<Byte>, bias: Bias, stamp: real) returns (samples: seq<ImuSample>, whole: bool)
    requires HeadLength(data) <= |data|
    ensures whole <==> WholeRecords(data)
    ensures whole ==> samples == Samples(data[HeadLength(data)..], StandardUnits, bias, Fixed(stamp))
  {
    var head := 4 + |data| % 2;
    samples := [];
    var i := head;
    while i < |data|
      invariant i == head + RecordLength * |samples| && i <= |data|
      invariant forall k :: 0 <= k < |samples| ==>
        head + RecordLength * k + RecordLength <= |data|
        && samples[k] == Turn(RawAt(data, head + RecordLength * k), StandardUnits, bias, StampAt(Fixed(stamp), k))
      decreases |data| - i
    {
      if |data| - i < RecordLength {
        RecordsAndRest(|samples|, |data| - i);
        return samples, false;
      }
      var imu := Turn(RawAt(data, i), StandardUnits, bias, stamp);
      samples := samples + [imu];
      i := i + RecordLength;
    }
    RecordsAndRest(|samples|, 0);
    SamplesOfSlice(data, head, |data|, StandardUnits, bias, Fixed(stamp), samples);
    assert data[head..] == data[head..|data|];
    whole := true;
  }

  /** The driver object of `ring/ble_ring_v2.py`, reduced to the state
      `notify_callback` and `tap_func` use. */
  class BleV2Ring {
    const touch: HoldingTouch
    /** `gyro_bias`. */
    const gyroBias: Bias
    /** `all_imu_data`. */
    var allImu: seq<ImuSample>

    /** `BLERing(address, index, gyro_bias)`: no bias given means zero
        bias. */
    constructor (gyroBias: Option<Bias>)
      ensures fresh(touch)
      ensures this.gyroBias == (if gyroBias.Some? then gyroBias.value else NoBias)
      ensures State() == BleV2State(HoldingState([], false, Tap(false, -1, -1)), [])
    {
      touch := new HoldingTouch();
      this.gyroBias := if gyroBias.Some? then gyroBias.value else NoBias;
      allImu := [];
    }

    function State(): BleV2State
      reads this, touch
    {
      BleV2State(touch.State(), allImu)
    }

    /** `notify_callback(sender, data)`. */
    method NotifyCallback(data: seq<Byte>, wallNow: real, perfNow: real) returns (reply: Reply)
      modifies this, touch
      ensures Outcome(State(), reply) == Notify(old(State()), gyroBias, data, wallNow, perfNow)
    {
      if |data| < 3 {
        return Fault;
      }
      if (data[2] == 0x40 || data[2] == 0x61 || data[2] == 0x12) && |data| < 4 {
        return Fault;
      }
      if data[2] == 0x40 && data[3] == 0x06 {
        if |data| > MinImuLength {
          var imu, whole := DecodeRecords(data, gyroBias, perfNow);
          if !whole || |imu| < SmoothedRecords {
            return Fault;
          }
          imu := imu[4 := imu[4].(gyrZ := (imu[3].gyrZ + imu[5].gyrZ) / 2.0)];
          allImu := allImu + imu;
          reply := Emit(ImuEvents(imu));
        } else {
          reply := Emit([]);
        }
      } else if data[2] == 0x61 && data[3] == 0x00 {
        reply := Emit([]);
      } else if data[2] == 0x61 && data[3] == 0x01 {
        if |data| < 7 {
          return Fault;
        }
        var events := touch.Detect(data[6], wallNow);
        reply := Emit(events);
      } else if data[2] == 0x12 && data[3] == 0x00 {
        if |data| < 5 {
          return Fault;
        }
        reply := Emit([]);
      } else {
        reply := Emit([]);
      }
    }

    /** One pass of `tap_func`'s loop. */
    method TapFuncTick() returns (events: seq<Event>)
      modifies touch
      ensures Stepped(touch.State(), events) == HoldingTick(old(touch.State()))
      ensures allImu == old(allImu)
    {
      events := touch.Tick();
    }

    /** `get_imu_data()`. */
    method GetImuData() returns (samples: seq<ImuSample>)
      ensures samples == allImu
    {
      samples := allImu;
    }

    /** `clear_imu_data()`. */
    method ClearImuData()
      modifies this
      ensures allImu == []
    {
      allImu := [];
    }
  }
}

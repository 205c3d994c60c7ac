/** `notify_callback` of `ring/qt/ble_ring_v2.py`: every call first drops a
    stale touch history, then dispatches on bytes 2 and 3 (the opcode):
    a 125-byte IMU batch of ten records, a 5-byte touch status, or a 23-byte
    touch report. Bytes after a complete message are handled by a
    recursive call. */
module QtV2 {
  import opened Bytes
  import opened Events
  import opened Touch
  import opened ImuV2

  /** `package_length`. */
  const PackageLength: nat := 125
  const BatchRecords: nat := 10
  const FirstRecord: nat := 5
  const StatusLength: nat := 5
  const ReportLength: nat := 23

  /** `int(time.time() * 1e3)`: milliseconds, truncated toward zero. */
  function Millis(now: real): int {
    var ms := now * 1000.0;
    if ms >= 0.0 then ms.Floor else -((-ms).Floor)
  }

  /** The ten samples of an IMU batch, all stamped with one reading of the
      wall clock, with the fifth sample's z rate smoothed. */
  function Batch(data: seq<Byte>, now: real): seq<ImuSample>
    requires |data| >= PackageLength
  {
    Smooth(Samples(data[FirstRecord..PackageLength], StandardUnits, NoBias, Fixed(Millis(now) as real)))
  }

  datatype Outcome = Outcome(state: CountingState, reply: Reply)

  /** `events` reported before whatever `o` reports. */
  function After(events: seq<Event>, o: Outcome): Outcome {
    Outcome(o.state, Reply(events + o.reply.events, o.reply.faulted))
  }

  /** `notify_callback(data)` with the wall clock reading `now`. Reading
      byte 2 or 3 of a message too short to hold it raises `IndexError`. */
  function Notify(s: CountingState, data: seq<Byte>, now: real): Outcome
    decreases |data|
  {
    var reset := StaleReset(s, now);
    var t := reset.state;
    After(reset.events,
      if |data| < 3 then Outcome(t, Fault)
      else if (data[2] == 0x40 || data[2] == 0x61) && |data| < 4 then Outcome(t, Fault)
      else if data[2] == 0x40 && data[3] == 0x06 then
        if |data| < PackageLength then Outcome(t, Emit([]))
        else
          var ev := ImuEvents(Batch(data, now));
          if |data| > PackageLength then After(ev, Notify(t, data[PackageLength..], now))
          else Outcome(t, Emit(ev))
      else if data[2] == 0x61 && data[3] == 0x00 then
        if |data| > StatusLength then Notify(t, data[StatusLength..], now) else Outcome(t, Emit([]))
      else if data[2] == 0x61 && data[3] == 0x01 && |data| >= ReportLength then
        var d := CountingDetect(t, data[6], now);
        After(d.events,
          if |data| > ReportLength then Notify(d.state, data[ReportLength..], now)
          else Outcome(d.state, Emit([])))
      else Outcome(t, Emit([])))
  }

  /** An IMU batch holds exactly ten records, at offsets 5, 17, ..., 113,
      the last ending at byte 125; each becomes one sample with the turned
      axes, and only the fifth sample's z rate is replaced, by the mean of
      its neighbours'. */
  lemma BatchLayout(data: seq<Byte>, now: real)
    requires |data| >= PackageLength
    ensures |Batch(data, now)| == BatchRecords
    ensures FirstRecord + RecordLength * (BatchRecords - 1) + RecordLength == PackageLength
    ensures forall k :: 0 <= k < BatchRecords && k != 4 ==>
      Batch(data, now)[k] == Turn(RawAt(data, FirstRecord + RecordLength * k), StandardUnits, NoBias, Millis(now) as real)
    ensures Batch(data, now)[4]
      == Turn(RawAt(data, FirstRecord + RecordLength * 4), StandardUnits, NoBias, Millis(now) as real)
        .(gyrZ := (Batch(data, now)[3].gyrZ + Batch(data, now)[5].gyrZ) / 2.0)
  {
    var stamp := Millis(now) as real;
    var bytes := data[FirstRecord..PackageLength];
    var raw := Samples(bytes, StandardUnits, NoBias, Fixed(stamp));
    SmoothSpec(raw);
    forall k | 0 <= k < BatchRecords
      ensures raw[k] == Turn(RawAt(data, FirstRecord + RecordLength * k), StandardUnits, NoBias, stamp)
    {
      SampleAt(bytes, StandardUnits, NoBias, Fixed(stamp), k);
      RawAtSlice(data, FirstRecord, PackageLength, RecordLength * k);
    }
  }

  /** A message too short to hold its opcode ends in `IndexError`, after
      any release the stale-history check reported. */
  lemma ShortMessageFaults(s: CountingState, data: seq<Byte>, now: real)
    requires |data| < 3 || (|data| == 3 && (data[2] == 0x40 || data[2] == 0x61))
    ensures Notify(s, data, now) == Outcome(StaleReset(s, now).state, Reply(StaleReset(s, now).events, true))
  {
    assert StaleReset(s, now).events + [] == StaleReset(s, now).events;
  }

  /** A complete message: an IMU batch, a touch status or a touch report of
      exactly its own length. */
  predicate Complete(p: seq<Byte>) {
    |p| >= 4 &&
    ((p[2] == 0x40 && p[3] == 0x06 && |p| == PackageLength)
     || (p[2] == 0x61 && p[3] == 0x00 && |p| == StatusLength)
     || (p[2] == 0x61 && p[3] == 0x01 && |p| == ReportLength))
  }

  /** Messages sent back to back are handled one after the other: the
      first is handled as if alone, never faults, and the rest is
      re-dispatched from the state it leaves. */
  lemma BackToBack(s: CountingState, p: seq<Byte>, q: seq<Byte>, now: real)
    requires Complete(p) && |q| > 0
    ensures !Notify(s, p, now).reply.faulted
    ensures Notify(s, p + q, now) == After(Notify(s, p, now).reply.events, Notify(Notify(s, p, now).state, q, now))
  {
    if p[2] == 0x40 {
      BatchThenMore(s, p, q, now);
    } else if p[3] == 0x00 {
      StatusThenMore(s, p, q, now);
    } else {
      ReportThenMore(s, p, q, now);
    }
  }

  lemma BatchThenMore(s: CountingState, p: seq<Byte>, q: seq<Byte>, now: real)
    requires |p| == PackageLength && p[2] == 0x40 && p[3] == 0x06 && |q| > 0
    ensures !Notify(s, p, now).reply.faulted
    ensures Notify(s, p + q, now) == After(Notify(s, p, now).reply.events, Notify(Notify(s, p, now).state, q, now))
  {
    var reset := StaleReset(s, now);
    var pq := p + q;
    assert pq[2] == p[2] && pq[3] == p[3];
    assert pq[PackageLength..] == q && pq[FirstRecord..PackageLength] == p[FirstRecord..PackageLength];
    var ev := ImuEvents(Batch(p, now));
    var rest := Notify(reset.state, q, now);
    assert Notify(s, pq, now) == After(reset.events, After(ev, rest));
    assert reset.events + (ev + rest.reply.events) == (reset.events + ev) + rest.reply.events;
  }

  lemma StatusThenMore(s: CountingState, p: seq<Byte>, q: seq<Byte>, now: real)
    requires |p| == StatusLength && p[2] == 0x61 && p[3] == 0x00 && |q| > 0
    ensures !Notify(s, p, now).reply.faulted
    ensures Notify(s, p + q, now) == After(Notify(s, p, now).reply.events, Notify(Notify(s, p, now).state, q, now))
  {
    var pq := p + q;
    assert pq[2] == p[2] && pq[3] == p[3];
    assert pq[StatusLength..] == q;
    assert StaleReset(s, now).events + [] == StaleReset(s, now).events;
  }

  lemma ReportThenMore(s: CountingState, p: seq<Byte>, q: seq<Byte>, now: real)
    requires |p| == ReportLength && p[2] == 0x61 && p[3] == 0x01 && |q| > 0
    ensures !Notify(s, p, now).reply.faulted
    ensures Notify(s, p + q, now) == After(Notify(s, p, now).reply.events, Notify(Notify(s, p, now).state, q, now))
  {
    var reset := StaleReset(s, now);
    var pq := p + q;
    assert pq[2] == p[2] && pq[3] == p[3];
    assert pq[ReportLength..] == q && pq[6] == p[6];
    var d := CountingDetect(reset.state, p[6], now);
    var rest := Notify(d.state, q, now);
    assert Notify(s, pq, now) == After(reset.events, After(d.events, rest));
    assert reset.events + (d.events + rest.reply.events) == (reset.events + d.events) + rest.reply.events;
    assert d.events + [] == d.events;
  }

  /** The `for i in range(5, package_length - 1, 12)` build loop and the
      in-place patch of `imu_datas[4].gyr_z`. */
  method DecodeBatch(data: seq<Byte>, now: real) returns (samples: seq<ImuSample>)
    requires |data| >= PackageLength
    ensures samples == Batch(data, now)
  {
    samples := DecodeRecords(data, Millis(now) as real);
    samples := samples[4 := samples[4].(gyrZ := (samples[3].gyrZ + samples[5].gyrZ) / 2.0)];
  }

  /** The build loop alone: one sample per record, in order. */
  method DecodeRecords(data: seq<Byte>, stamp: real) returns (samples: seq<ImuSample>)
    requires |data| >= PackageLength
    ensures samples == Samples(data[FirstRecord..PackageLength], StandardUnits, NoBias, Fixed(stamp))
  {
    samples := [];
    var i := FirstRecord;
    while i < PackageLength - 1
      invariant i == FirstRecord + RecordLength * |samples| && |samples| <= BatchRecords
      invariant forall k :: 0 <= k < |samples| ==>
        FirstRecord + RecordLength * k + RecordLength <= PackageLength
        && samples[k] == Turn(RawAt(data, FirstRecord + RecordLength * k), StandardUnits, NoBias, StampAt(Fixed(stamp), k))
      decreases PackageLength - i
    {
      var imu := Turn(RawAt(data, i), StandardUnits, NoBias, stamp);
      samples := samples + [imu];
      i := i + RecordLength;
    }
    SamplesOfSlice(data, FirstRecord, PackageLength, StandardUnits, NoBias, Fixed(stamp), samples);
  }

  /** The driver object of `ring/qt/ble_ring_v2.py`, reduced to the state
      `notify_callback` and `tap_func` share. */
  class QtV2Ring {
    const touch: CountingTouch

    constructor ()
      ensures fresh(touch) && touch.State() == CountingState([], 0, 0.0, Tap(false, -1, -1))
    {
      touch := new CountingTouch();
    }

    /** One pass of `tap_func`'s loop; a lone tap is settled after 50
        ticks without a report. */
    method TapFuncTick() returns (events: seq<Event>)
      modifies touch
      ensures Stepped(touch.State(), events) == CountingTick(old(touch.State()), false)
    {
      events := touch.Tick(false);
    }

    /** `notify_callback(data)`. */
    method NotifyCallback(data: seq<Byte>, now: real) returns (reply: Reply)
      modifies touch
      ensures Outcome(touch.State(), reply) == Notify(old(touch.State()), data, now)
      decreases |data|
    {
      var released := touch.ResetIfStale(now);
      if |data| < 3 || ((data[2] == 0x40 || data[2] == 0x61) && |data| < 4) {
        return Reply(released + [], true);
      }
      if data[2] == 0x40 && data[3] == 0x06 {
        if |data| < PackageLength {
          return Emit(released + []);
        }
        var samples := DecodeBatch(data, now);
        var events := ImuEvents(samples);
        if |data| > PackageLength {
          var rest := NotifyCallback(data[PackageLength..], now);
          reply := Reply(released + (events + rest.events), rest.faulted);
        } else {
          reply := Emit(released + events);
        }
      } else if data[2] == 0x61 && data[3] == 0x00 {
        if |data| > StatusLength {
          var rest := NotifyCallback(data[StatusLength..], now);
          reply := Reply(released + rest.events, rest.faulted);
        } else {
          reply := Emit(released + []);
        }
      } else if data[2] == 0x61 && data[3] == 0x01 && |data| >= ReportLength {
        var touched := touch.Detect(data[6], now);
        if |data| > ReportLength {
          var rest := NotifyCallback(data[ReportLength..], now);
          reply := Reply(released + (touched + rest.events), rest.faulted);
        } else {
          reply := Emit(released + (touched + []));
        }
      } else {
        reply := Emit(released + []);
      }
    }
  }
}

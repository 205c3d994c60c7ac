/** What the ring drivers hand to their callbacks. Every `*_callback` call
    of the drivers becomes an `Event` in the sequence an operation returns,
    in call order. */
module Events {
  import opened Bytes

  /** The value of Python's `math.pi`. */
  const MathPi: real := 3.141592653589793

  /** `IMUData(acc_x, acc_y, acc_z, gyr_x, gyr_y, gyr_z, timestamp)`, in
      exact real arithmetic. */
  datatype ImuSample = ImuSample(
    accX: real, accY: real, accZ: real,
    gyrX: real, gyrY: real, gyrZ: real,
    timestamp: real)

  /** Touch codes passed to `touch_callback`. */
  const TapCode: int := 0
  const DoubleTapCode: int := 1
  const LongTouchCode: int := 2
  const ReleaseCode: int := 5
  const TripleTapCode: int := 6

  datatype Event =
    /** `imu_callback(index, sample)`. */
    | Imu(sample: ImuSample)
    /** `imu_callback` for a legacy 36-byte frame; its six float32 fields
        are passed on as the frame's bytes. */
    | ImuFrame(frame: seq<Byte>, timestamp: real)
    /** `touch_callback(index, code)`. */
    | Touch(code: int)
    /** `battery_callback(level)`. */
    | Battery(level: int)
    /** The relay's connection callback after a "Connected" or
        "Disconnected" text. */
    | ConnectionChanged(connected: bool)

  /** The events one notification produced, and whether it ended in an
      uncaught exception (an `IndexError` or `struct.error` that propagates
      out of the callback); the events before the exception stay emitted. */
  datatype Reply = Reply(events: seq<Event>, faulted: bool)

  function Emit(events: seq<Event>): Reply { Reply(events, false) }

  const Fault: Reply := Reply([], true)

  /** One `imu_callback` per legacy frame, all stamped with `timestamp`:
      event k reports frame k. */
  function FrameEvents(frames: seq<seq<Byte>>, timestamp: real): (ev: seq<Event>)
    ensures |ev| == |frames|
    ensures forall k :: 0 <= k < |frames| ==> ev[k] == ImuFrame(frames[k], timestamp)
    decreases |frames|
  {
    if frames == [] then [] else [ImuFrame(frames[0], timestamp)] + FrameEvents(frames[1..], timestamp)
  }

  lemma FrameEventsFront(frame: seq<Byte>, frames: seq<seq<Byte>>, timestamp: real)
    ensures FrameEvents([frame] + frames, timestamp) == [ImuFrame(frame, timestamp)] + FrameEvents(frames, timestamp)
  {
    assert ([frame] + frames)[1..] == frames;
  }

  /** Events reported batch after batch. */
  lemma AppendAssoc(a: seq<Event>, b: seq<Event>, c: seq<Event>)
    ensures a + (b + c) == (a + b) + c
  {
  }

  /** The events of `r` followed by those of `s`, unless `r` already faulted. */
  function Then(r: Reply, s: Reply): Reply {
    if r.faulted then r else Reply(r.events + s.events, s.faulted)
  }
}

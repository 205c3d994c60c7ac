/** The touch gesture machine of the opcode-V2 drivers
    (`ring/qt/ble_ring_v2_serial.py`, `ring/qt/ble_ring_v2.py`,
    `ring/ble_ring_v2.py`): the electrode pattern of a touch report becomes
    a position code, a history of timed positions is kept until the finger
    lifts, and a 10 ms tick turns taps into double-taps. Two variants of the
    hold logic exist: a counter (`holding_num`, the qt drivers) and a flag
    (`is_holding`, `ring/ble_ring_v2.py`). */
module Touch {
  import opened Bytes
  import opened Events

  /** What one call of a state-changing operation leaves behind. */
  datatype Stepped<S> = Stepped(state: S, events: seq<Event>)

  /** `get_touch_state(x, y, z)`: electrode bits to a position code. */
  function TouchStateOf(x: int, y: int, z: int): int
    requires 0 <= x <= 1 && 0 <= y <= 1 && 0 <= z <= 1
  {
    [0, 1, 3, 2, 5, -1, 4, -2][x * 4 + y * 2 + z]
  }

  /** The electrode bits a position code stands for. */
  datatype Pattern = Pattern(x: int, y: int, z: int)

  /** The inverse of the lookup table, defined on its eight codes. */
  function PatternOf(code: int): Option<Pattern> {
    match code
    case 0 => Some(Pattern(0, 0, 0))
    case 1 => Some(Pattern(0, 0, 1))
    case 3 => Some(Pattern(0, 1, 0))
    case 2 => Some(Pattern(0, 1, 1))
    case 5 => Some(Pattern(1, 0, 0))
    case -1 => Some(Pattern(1, 0, 1))
    case 4 => Some(Pattern(1, 1, 0))
    case -2 => Some(Pattern(1, 1, 1))
    case _ => None
  }

  /** The table is one-to-one: every code gives its pattern back, and only
      the all-clear pattern gives code 0. */
  lemma TouchStateTable(x: int, y: int, z: int)
    requires 0 <= x <= 1 && 0 <= y <= 1 && 0 <= z <= 1
    ensures PatternOf(TouchStateOf(x, y, z)) == Some(Pattern(x, y, z))
    ensures TouchStateOf(x, y, z) == 0 <==> x == 0 && y == 0 && z == 0
  {
  }

  /** `1 if b & mask else 0` for a one-bit `mask`. */
  function Bit(b: Byte, mask: nat): int
    requires mask > 0
  {
    (b / mask) % 2
  }

  /** The position code of touch report byte `b` (bits 0x02, 0x08, 0x20). */
  function Position(b: Byte): int {
    TouchStateOf(Bit(b, 0x02), Bit(b, 0x08), Bit(b, 0x20))
  }

  /** A report reads as "lifted" exactly when none of the three electrode
      bits is set. */
  lemma PositionLifted(b: Byte)
    ensures Position(b) == 0 <==> Bit(b, 0x02) == 0 && Bit(b, 0x08) == 0 && Bit(b, 0x20) == 0
  {
    TouchStateTable(Bit(b, 0x02), Bit(b, 0x08), Bit(b, 0x20));
  }

  /** `[state, time.time()]`, one entry of `touch_history`. */
  datatype Contact = Contact(position: int, time: real)

  /** The `touch_type` chosen when a tap ends: 1 when the next-to-last
      position is above the first, 2 when below, else 0 (both remaining
      branches of the source set 0). */
  function Classify(history: seq<Contact>): int
    requires |history| >= 2
  {
    if history[|history| - 2].position > history[0].position then 1
    else if history[|history| - 2].position < history[0].position then 2
    else 0
  }

  /** The state shared by the notification handler and the tap thread:
      `taped`, the thread's local `counter` and `touch_type`. */
  datatype Tap = Tap(taped: bool, counter: int, touchType: int)

  /** One pass of the `tap_func` loop body. `interval` is the tick count
      after which a lone tap is settled; `emitsTap` says whether the driver
      reports a plain tap then. */
  function TapTick(t: Tap, interval: int, emitsTap: bool): Stepped<Tap> {
    if t.taped then
      if t.counter != -1 then Stepped(Tap(false, -1, t.touchType), [Touch(DoubleTapCode)])
      else Stepped(Tap(false, 0, t.touchType), [])
    else if t.counter >= 0 then
      if t.counter + 1 == interval then
        Stepped(t.(counter := -1), if emitsTap && t.touchType == 0 then [Touch(TapCode)] else [])
      else Stepped(t.(counter := t.counter + 1), [])
    else Stepped(t, [])
  }

  /** The counter is idle (-1) or counting below the interval, and the tick
      keeps it so. A tap while idle starts the count at 0, a tap while
      counting reports a double-tap and idles, and the tap flag is consumed
      either way. */
  lemma TapTickSpec(t: Tap, interval: int, emitsTap: bool)
    requires interval > 0 && -1 <= t.counter < interval
    ensures var r := TapTick(t, interval, emitsTap);
      -1 <= r.state.counter < interval && r.state.touchType == t.touchType
    ensures t.taped ==> !TapTick(t, interval, emitsTap).state.taped
    ensures t.taped && t.counter == -1 ==> TapTick(t, interval, emitsTap) == Stepped(Tap(false, 0, t.touchType), [])
    ensures t.taped && t.counter != -1 ==>
      TapTick(t, interval, emitsTap) == Stepped(Tap(false, -1, t.touchType), [Touch(DoubleTapCode)])
    ensures !t.taped && t.counter == -1 ==> TapTick(t, interval, emitsTap) == Stepped(t, [])
  {
  }

  /** `n` ticks with no new tap. */
  function IdleTicks(t: Tap, interval: int, emitsTap: bool, n: nat): Stepped<Tap>
    decreases n
  {
    if n == 0 then Stepped(t, [])
    else
      var first := TapTick(t, interval, emitsTap);
      var rest := IdleTicks(first.state, interval, emitsTap, n - 1);
      Stepped(rest.state, first.events + rest.events)
  }

  /** A lone tap is settled after exactly `interval` quiet ticks from the
      start of the count: the counter then idles, and the only report is a
      plain tap, when the driver emits one and the tap was classified 0.
      Before that, quiet ticks only advance the counter. */
  lemma {:induction false} QuietTicks(t: Tap, interval: int, emitsTap: bool, n: nat)
    requires !t.taped && 0 <= t.counter < interval && t.counter + n <= interval
    ensures t.counter + n < interval ==> IdleTicks(t, interval, emitsTap, n) == Stepped(t.(counter := t.counter + n), [])
    ensures t.counter + n == interval ==>
      IdleTicks(t, interval, emitsTap, n)
        == Stepped(t.(counter := -1), if emitsTap && t.touchType == 0 then [Touch(TapCode)] else [])
    decreases n
  {
    if n > 0 {
      var first := TapTick(t, interval, emitsTap);
      if t.counter + 1 == interval {
        assert n == 1;
        assert IdleTicks(first.state, interval, emitsTap, 0) == Stepped(first.state, []);
        assert first.events + [] == first.events;
      } else {
        assert first == Stepped(t.(counter := t.counter + 1), []);
        QuietTicks(first.state, interval, emitsTap, n - 1);
        var rest := IdleTicks(first.state, interval, emitsTap, n - 1);
        assert first.events + rest.events == rest.events;
      }
    }
  }

  /** The `holding_num` variant's state (`ring/qt/ble_ring_v2.py`,
      `ring/qt/ble_ring_v2_serial.py`). */
  datatype CountingState = CountingState(history: seq<Contact>, holdingNum: nat, lastHoldTime: real, tap: Tap)

  /** The qt drivers settle a lone tap after 50 ticks. */
  const CountingInterval: int := 50

  /** `_detect_touch_events` with the hold counter, for report byte `bits`
      read at wall-clock time `now`. */
  function CountingDetect(s: CountingState, bits: Byte, now: real): Stepped<CountingState> {
    var h := s.history + [Contact(Position(bits), now)];
    if Position(bits) == 0 then
      if s.holdingNum == 0 && |h| > 1 then
        Stepped(s.(history := [], tap := s.tap.(taped := true, touchType := Classify(h))), [])
      else if s.holdingNum > 0 then Stepped(s.(history := [], holdingNum := 0), [Touch(ReleaseCode)])
      else Stepped(s.(history := []), [])
    else if h[|h| - 1].time - h[0].time > 1.0 then
      Stepped(s.(history := h, holdingNum := s.holdingNum + 1, lastHoldTime := now),
        if s.holdingNum + 1 > 2 then [Touch(LongTouchCode)] else [])
    else Stepped(s.(history := h), [])
  }

  /** A lift always empties the history and the hold count. It marks a tap
      exactly when no hold was counted and an earlier contact is on record,
      and reports a release exactly when a hold was counted. */
  lemma CountingLift(s: CountingState, bits: Byte, now: real)
    requires Position(bits) == 0
    ensures var r := CountingDetect(s, bits, now);
      r.state.history == [] && r.state.holdingNum == 0 && r.state.lastHoldTime == s.lastHoldTime
      && r.state.tap.counter == s.tap.counter
      && (r.events == [Touch(ReleaseCode)] <==> s.holdingNum > 0)
      && (r.events == [] <==> s.holdingNum == 0)
    ensures s.holdingNum == 0 && |s.history| > 0 ==>
      CountingDetect(s, bits, now).state.tap
        == s.tap.(taped := true, touchType := Classify(s.history + [Contact(0, now)]))
    ensures s.holdingNum > 0 || |s.history| == 0 ==> CountingDetect(s, bits, now).state.tap == s.tap
  {
  }

  /** A touch whose history spans more than a second counts one more hold
      step, and every such report once the count passes 2 is a long-touch;
      a shorter history only records the contact. */
  lemma CountingPress(s: CountingState, bits: Byte, now: real)
    requires Position(bits) != 0
    ensures var r := CountingDetect(s, bits, now);
      r.state.history == s.history + [Contact(Position(bits), now)] && r.state.tap == s.tap
    ensures var h := s.history + [Contact(Position(bits), now)];
      var r := CountingDetect(s, bits, now);
      if now - h[0].time > 1.0 then
        r.state.holdingNum == s.holdingNum + 1 && r.state.lastHoldTime == now
        && (r.events == [Touch(LongTouchCode)] <==> s.holdingNum >= 2)
        && (r.events == [] <==> s.holdingNum < 2)
      else r.state.holdingNum == s.holdingNum && r.events == []
  {
  }

  /** The stale-history reset at the top of `ring/qt/ble_ring_v2.py`'s
      `notify_callback`: a history whose last contact is more than half a
      second old is dropped, with a release only for a counted long hold. */
  function StaleReset(s: CountingState, now: real): Stepped<CountingState> {
    if |s.history| > 0 && now - s.history[|s.history| - 1].time > 0.5 then
      Stepped(s.(history := [], holdingNum := 0), if s.holdingNum > 2 then [Touch(ReleaseCode)] else [])
    else Stepped(s, [])
  }

  lemma StaleResetSpec(s: CountingState, now: real)
    ensures var stale := |s.history| > 0 && now - s.history[|s.history| - 1].time > 0.5;
      var r := StaleReset(s, now);
      (stale ==> r.state == s.(history := [], holdingNum := 0))
      && (!stale ==> r.state == s)
      && (r.events == [Touch(ReleaseCode)] <==> stale && s.holdingNum > 2)
      && (r.events == [] <==> !(stale && s.holdingNum > 2))
  {
  }

  function CountingTick(s: CountingState, emitsTap: bool): Stepped<CountingState> {
    var r := TapTick(s.tap, CountingInterval, emitsTap);
    Stepped(s.(tap := r.state), r.events)
  }

  /** The `is_holding` variant's state (`ring/ble_ring_v2.py`). */
  datatype HoldingState = HoldingState(history: seq<Contact>, isHolding: bool, tap: Tap)

  /** `ring/ble_ring_v2.py` settles a lone tap after 100 ticks and reports
      nothing then. */
  const HoldingInterval: int := 100

  /** `_detect_touch_events` with the hold flag. */
  function HoldingDetect(s: HoldingState, bits: Byte, now: real): Stepped<HoldingState> {
    var h := s.history + [Contact(Position(bits), now)];
    if Position(bits) == 0 then
      if !s.isHolding && |h| > 1 then
        Stepped(s.(history := [], tap := s.tap.(taped := true, touchType := Classify(h))), [])
      else if s.isHolding then Stepped(s.(history := [], isHolding := false), [Touch(ReleaseCode)])
      else Stepped(s.(history := []), [])
    else if h[|h| - 1].time - h[0].time > 1.0 && !s.isHolding then
      Stepped(s.(history := h, isHolding := true), [Touch(LongTouchCode)])
    else Stepped(s.(history := h), [])
  }

  /** A lift reports a release exactly when a hold was on, and always ends
      the hold and empties the history; a tap is classified from the
      history by comparing its next-to-last and first positions. */
  lemma HoldingLift(s: HoldingState, bits: Byte, now: real)
    requires Position(bits) == 0
    ensures var r := HoldingDetect(s, bits, now);
      r.state.history == [] && !r.state.isHolding
      && (r.events == [Touch(ReleaseCode)] <==> s.isHolding)
      && (r.events == [] <==> !s.isHolding)
    ensures var h := s.history + [Contact(0, now)];
      var r := HoldingDetect(s, bits, now);
      !s.isHolding && |s.history| > 0 ==> r.state.tap == s.tap.(taped := true, touchType := Classify(h))
    ensures !s.isHolding && |s.history| > 0 ==>
      HoldingDetect(s, bits, now).state.tap.touchType
        == (if s.history[|s.history| - 1].position > s.history[0].position then 1
            else if s.history[|s.history| - 1].position < s.history[0].position then 2
            else 0)
    ensures s.isHolding || |s.history| == 0 ==> HoldingDetect(s, bits, now).state.tap == s.tap
  {
  }

  /** `_detect_touch_events` over consecutive reports. */
  function HoldingRun(s: HoldingState, reports: seq<Byte>, times: seq<real>): Stepped<HoldingState>
    requires |reports| == |times|
    decreases |reports|
  {
    if reports == [] then Stepped(s, [])
    else
      var first := HoldingDetect(s, reports[0], times[0]);
      var rest := HoldingRun(first.state, reports[1..], times[1..]);
      Stepped(rest.state, first.events + rest.events)
  }

  /** Long-touch is reported at most once per hold: while the finger stays
      down, a run of reports yields no event, or a single long-touch when
      the hold was not yet on. */
  lemma {:induction false} LongTouchOncePerHold(s: HoldingState, reports: seq<Byte>, times: seq<real>)
    requires |reports| == |times|
    requires forall k :: 0 <= k < |reports| ==> Position(reports[k]) != 0
    ensures var r := HoldingRun(s, reports, times);
      r.events == [] || (!s.isHolding && r.events == [Touch(LongTouchCode)])
    ensures s.isHolding ==> HoldingRun(s, reports, times).state.isHolding
    decreases |reports|
  {
    if reports != [] {
      var first := HoldingDetect(s, reports[0], times[0]);
      assert Position(reports[0]) != 0;
      LongTouchOncePerHold(first.state, reports[1..], times[1..]);
      var rest := HoldingRun(first.state, reports[1..], times[1..]);
      if first.events != [] {
        assert first.state.isHolding && first.events == [Touch(LongTouchCode)];
        assert rest.events == [];
        assert first.events + rest.events == first.events;
      } else {
        assert first.events + rest.events == rest.events;
      }
    }
  }

  function HoldingTick(s: HoldingState): Stepped<HoldingState> {
    var r := TapTick(s.tap, HoldingInterval, false);
    Stepped(s.(tap := r.state), r.events)
  }

  /** The touch fields of a qt opcode-V2 driver with the hold counter. */
  class CountingTouch {
    /** `touch_history`. */
    var history: seq<Contact>
    /** `holding_num`. */
    var holdingNum: nat
    /** `last_hold_time`. */
    var lastHoldTime: real
    /** `taped`. */
    var taped: bool
    /** The tap thread's `counter`. */
    var counter: int
    /** `touch_type`. */
    var touchType: int

    constructor ()
      ensures State() == CountingState([], 0, 0.0, Tap(false, -1, -1))
    {
      history := [];
      holdingNum := 0;
      lastHoldTime := 0.0;
      taped := false;
      counter := -1;
      touchType := -1;
    }

    function State(): CountingState
      reads this
    {
      CountingState(history, holdingNum, lastHoldTime, Tap(taped, counter, touchType))
    }

    /** `_detect_touch_events(data)`, where `bits` is `data[1]`. */
    method Detect(bits: Byte, now: real) returns (events: seq<Event>)
      modifies this
      ensures Stepped(State(), events) == CountingDetect(old(State()), bits, now)
    {
      var position := Position(bits);
      history := history + [Contact(position, now)];
      events := [];
      if position == 0 {
        if holdingNum == 0 && |history| > 1 {
          taped := true;
          touchType := Classify(history);
        } else if holdingNum > 0 {
          events := [Touch(ReleaseCode)];
        }
        holdingNum := 0;
        history := [];
      } else if history[|history| - 1].time - history[0].time > 1.0 {
        lastHoldTime := now;
        holdingNum := holdingNum + 1;
        if holdingNum > 2 {
          events := [Touch(LongTouchCode)];
        }
      }
    }

    /** The stale-history check that opens `notify_callback`. */
    method ResetIfStale(now: real) returns (events: seq<Event>)
      modifies this
      ensures Stepped(State(), events) == StaleReset(old(State()), now)
    {
      events := [];
      if |history| > 0 && now - history[|history| - 1].time > 0.5 {
        if holdingNum > 2 {
          events := [Touch(ReleaseCode)];
        }
        holdingNum := 0;
        history := [];
      }
    }

    /** One pass of `tap_func`'s loop. */
    method Tick(emitsTap: bool) returns (events: seq<Event>)
      modifies this
      ensures Stepped(State(), events) == CountingTick(old(State()), emitsTap)
    {
      events := [];
      if taped {
        if counter != -1 {
          events := [Touch(DoubleTapCode)];
          counter := -1;
        } else {
          counter := 0;
        }
        taped := false;
      } else if counter >= 0 {
        counter := counter + 1;
        if counter == CountingInterval {
          if emitsTap && touchType == 0 {
            events := [Touch(TapCode)];
          }
          counter := -1;
        }
      }
    }
  }

  /** The touch fields of `ring/ble_ring_v2.py`, with the hold flag. */
  class HoldingTouch {
    /** `touch_history`. */
    var history: seq<Contact>
    /** `is_holding`. */
    var isHolding: bool
    /** `taped`. */
    var taped: bool
    /** The tap thread's `counter`. */
    var counter: int
    /** `touch_type`. */
    var touchType: int

    constructor ()
      ensures State() == HoldingState([], false, Tap(false, -1, -1))
    {
      history := [];
      isHolding := false;
      taped := false;
      counter := -1;
      touchType := -1;
    }

    function State(): HoldingState
      reads this
    {
      HoldingState(history, isHolding, Tap(taped, counter, touchType))
    }

    /** `_detect_touch_events(data)`, where `bits` is `data[1]`. */
    method Detect(bits: Byte, now: real) returns (events: seq<Event>)
      modifies this
      ensures Stepped(State(), events) == HoldingDetect(old(State()), bits, now)
    {
      var position := Position(bits);
      history := history + [Contact(position, now)];
      events := [];
      if position == 0 {
        if !isHolding && |history| > 1 {
          taped := true;
          touchType := Classify(history);
        } else if isHolding {
          events := [Touch(ReleaseCode)];
        }
        isHolding := false;
        history := [];
      } else if history[|history| - 1].time - history[0].time > 1.0 && !isHolding {
        events := [Touch(LongTouchCode)];
        isHolding := true;
      }
    }

    /** One pass of `tap_func`'s loop; at 100 ticks every `touch_type`
        branch is `pass`. */
    method Tick() returns (events: seq<Event>)
      modifies this
      ensures Stepped(State(), events) == HoldingTick(old(State()))
    {
      events := [];
      if taped {
        if counter != -1 {
          events := [Touch(DoubleTapCode)];
          counter := -1;
        } else {
          counter := 0;
        }
        taped := false;
      } else if counter >= 0 {
        counter := counter + 1;
        if counter == HoldingInterval {
          counter := -1;
        }
      }
    }
  }
}

/** The relay rings of `ring/qt/ble_ring_v1.py` and
    `ring/qt/ble_ring_v1_serial.py`. A helper process forwards everything the
    ring sends over one socket; each received chunk is split into packets
    `59 90 <len> <payload>` (SPP stream, IMU frames) and `B1 E0 <len>
    <payload>` (BLE control notifications), and any other chunk is status
    text ("Connected", "Disconnected" or the ring's address). */
module Relay {
  import opened Bytes
  import opened Crc
  import opened Events
  import opened LegacySync
  import opened Text
  import LegacyControl

  /** Where one packet of a chunk goes. */
  datatype Route =
    | SppRoute(payload: seq<Byte>)
    | BleRoute(payload: seq<Byte>)
    | TextRoute(text: seq<Byte>)
    /** A header with no length byte behind it: `data[2]` raises. */
    | LengthFault

  predicate SppHeader(data: seq<Byte>) { |data| >= 2 && data[0] == 0x59 && data[1] == 0x90 }
  predicate BleHeader(data: seq<Byte>) { |data| >= 2 && data[0] == 0xB1 && data[1] == 0xE0 }

  /** `data[3:packet_length + 3]`, cut short when the chunk ends early. */
  function Payload(data: seq<Byte>): (p: seq<Byte>)
    requires |data| >= 3
    ensures |p| <= data[2] as int && 3 + |p| <= |data| && p == data[3..3 + |p|]
    ensures |data| >= 3 + data[2] as int ==> |p| == data[2] as int
  {
    if |data| >= 3 + data[2] as int then data[3..3 + data[2] as int] else data[3..]
  }

  /** The route of the packet at the front of a chunk with a complete
      header. */
  function FrontRoute(data: seq<Byte>): Route
    requires (SppHeader(data) || BleHeader(data)) && |data| >= 3
  {
    if SppHeader(data) then SppRoute(Payload(data)) else BleRoute(Payload(data))
  }

  /** What follows the declared end of the front packet: nothing when the
      chunk ends there or earlier. */
  function Remainder(data: seq<Byte>): (rest: seq<Byte>)
    requires |data| >= 3
    ensures |rest| < |data|
  {
    var n := 3 + data[2] as int;
    if |data| > n then data[n..] else []
  }

  /** The demultiplexing loop of `connect`: a header packet is routed and
      the rest is scanned again; any other chunk is text and ends the
      scan. */
  function Routes(data: seq<Byte>): (rs: seq<Route>)
    ensures rs == [] <==> data == []
    decreases |data|
  {
    if data == [] then []
    else if SppHeader(data) || BleHeader(data) then
      if |data| < 3 then [LengthFault]
      else [FrontRoute(data)] + Routes(Remainder(data))
    else [TextRoute(data)]
  }

  /** Only the last route of a chunk can be a status text or a fault. */
  lemma {:induction false} RoutesShape(data: seq<Byte>)
    ensures forall i :: 0 <= i < |Routes(data)| - 1 ==> Routes(data)[i].SppRoute? || Routes(data)[i].BleRoute?
    decreases |data|
  {
    if data != [] && (SppHeader(data) || BleHeader(data)) && |data| >= 3 {
      var tail := Routes(Remainder(data));
      RoutesShape(Remainder(data));
      var rs := [FrontRoute(data)] + tail;
      assert Routes(data) == rs;
      forall i | 0 <= i < |rs| - 1
        ensures rs[i].SppRoute? || rs[i].BleRoute?
      {
        if i > 0 {
          assert rs[i] == tail[i - 1];
          assert tail[i - 1].SppRoute? || tail[i - 1].BleRoute?;
        }
      }
    }
  }

  /** The sending side of the framing: a packet with its header and
      length byte. */
  function Packet(r: Route): seq<Byte>
    requires r.SppRoute? || r.BleRoute?
    requires |r.payload| < 256
  {
    (if r.SppRoute? then [0x59, 0x90] else [0xB1, 0xE0]) + [|r.payload| as Byte] + r.payload
  }

  predicate Framable(rs: seq<Route>) {
    forall i :: 0 <= i < |rs| ==> (rs[i].SppRoute? || rs[i].BleRoute?) && |rs[i].payload| < 256
  }

  function Packets(rs: seq<Route>): seq<Byte>
    requires Framable(rs)
    decreases |rs|
  {
    if rs == [] then [] else Packet(rs[0]) + Packets(rs[1..])
  }

  /** A framed packet at the front of a chunk is routed first, and the scan
      goes on right behind it. */
  lemma RoutesFront(r: Route, rest: seq<Byte>)
    requires (r.SppRoute? || r.BleRoute?) && |r.payload| < 256
    ensures Routes(Packet(r) + rest) == [r] + Routes(rest)
  {
    var data := Packet(r) + rest;
    var n := 3 + |r.payload|;
    assert data[2] as int == |r.payload|;
    assert data[3..n] == r.payload;
    assert data[n..] == rest;
  }

  /** Packets sent back to back in one chunk are demultiplexed into exactly
      the packets that were sent, in order. */
  lemma {:induction false} RoutesRoundTrip(rs: seq<Route>)
    requires Framable(rs)
    ensures Routes(Packets(rs)) == rs
    decreases |rs|
  {
    if rs != [] {
      assert Framable(rs[1..]);
      RoutesFront(rs[0], Packets(rs[1..]));
      RoutesRoundTrip(rs[1..]);
      assert Routes(Packets(rs)) == [rs[0]] + rs[1..];
    }
  }

  /** The ASCII status texts the helper sends. */
  const DisconnectedText: seq<Byte> := [0x44, 0x69, 0x73, 0x63, 0x6F, 0x6E, 0x6E, 0x65, 0x63, 0x74, 0x65, 0x64]
  const ConnectedText: seq<Byte> := [0x43, 0x6F, 0x6E, 0x6E, 0x65, 0x63, 0x74, 0x65, 0x64]

  datatype RelayState = RelayState(raw: seq<Byte>, connected: bool, address: seq<Byte>)

  datatype Outcome = Outcome(state: RelayState, reply: Reply)

  /** A status text: decoded as UTF-8 (a decoding error is swallowed),
      compared with the two status words, else taken as the address when it
      contains ':'. */
  function TextEffect(s: RelayState, text: seq<Byte>): Outcome {
    if !ValidUtf8(text) then Outcome(s, Emit([]))
    else if text == DisconnectedText then Outcome(s.(connected := false), Emit([ConnectionChanged(false)]))
    else if text == ConnectedText then Outcome(s.(connected := true), Emit([ConnectionChanged(true)]))
    else if 0x3A in text then Outcome(s.(address := text), Emit([]))
    else Outcome(s, Emit([]))
  }

  function ApplyRoute(s: RelayState, r: Route, variant: LegacyControl.Variant, nowMs: int): Outcome {
    match r
    case SppRoute(p) =>
      var res := ResyncDropOne(ChecksumOk, s.raw + p);
      Outcome(s.(raw := res.rest), Emit(FrameEvents(res.frames, nowMs as real)))
    case BleRoute(p) => Outcome(s, LegacyControl.Notify(variant, p))
    case TextRoute(t) => TextEffect(s, t)
    case LengthFault => Outcome(s, Fault)
  }

  /** `o` with `events` emitted before its own events. */
  function After(events: seq<Event>, o: Outcome): Outcome {
    Outcome(o.state, Reply(events + o.reply.events, o.reply.faulted))
  }

  /** The routes applied in order; an exception ends the chunk. */
  function ApplyRoutes(s: RelayState, rs: seq<Route>, variant: LegacyControl.Variant, nowMs: int): Outcome
    decreases |rs|
  {
    if rs == [] then Outcome(s, Emit([]))
    else
      var o := ApplyRoute(s, rs[0], variant, nowMs);
      if o.reply.faulted then o
      else After(o.reply.events, ApplyRoutes(o.state, rs[1..], variant, nowMs))
  }

  /** Packets never touch the connection flag or the address; only status
      text does. */
  lemma {:induction false} PacketsKeepLink(s: RelayState, rs: seq<Route>, variant: LegacyControl.Variant, nowMs: int)
    requires forall i :: 0 <= i < |rs| ==> rs[i].SppRoute? || rs[i].BleRoute?
    ensures ApplyRoutes(s, rs, variant, nowMs).state.connected == s.connected
    ensures ApplyRoutes(s, rs, variant, nowMs).state.address == s.address
    decreases |rs|
  {
    if rs != [] {
      PacketsKeepLink(ApplyRoute(s, rs[0], variant, nowMs).state, rs[1..], variant, nowMs);
    }
  }

  /** A chunk that is not a packet is applied as one status text. */
  lemma TextChunk(s: RelayState, text: seq<Byte>, variant: LegacyControl.Variant, nowMs: int)
    requires text != [] && !SppHeader(text) && !BleHeader(text)
    ensures ApplyRoutes(s, Routes(text), variant, nowMs) == TextEffect(s, text)
  {
    assert Routes(text) == [TextRoute(text)];
    var o := TextEffect(s, text);
    assert ApplyRoutes(s, [TextRoute(text)], variant, nowMs) == After(o.reply.events, Outcome(o.state, Emit([])));
    assert o.reply.events + [] == o.reply.events;
  }

  /** "Connected" sets the connection flag and is reported. */
  lemma ConnectedSetsFlag(s: RelayState, variant: LegacyControl.Variant, nowMs: int)
    ensures ApplyRoutes(s, Routes(ConnectedText), variant, nowMs)
      == Outcome(s.(connected := true), Emit([ConnectionChanged(true)]))
  {
    AsciiIsUtf8(ConnectedText);
    TextChunk(s, ConnectedText, variant, nowMs);
    assert ConnectedText != DisconnectedText by {
      assert |ConnectedText| != |DisconnectedText|;
    }
  }

  /** "Disconnected" clears the connection flag and is reported. */
  lemma DisconnectedClearsFlag(s: RelayState, variant: LegacyControl.Variant, nowMs: int)
    ensures ApplyRoutes(s, Routes(DisconnectedText), variant, nowMs)
      == Outcome(s.(connected := false), Emit([ConnectionChanged(false)]))
  {
    AsciiIsUtf8(DisconnectedText);
    TextChunk(s, DisconnectedText, variant, nowMs);
  }

  /** One packet of a chunk: given what applying its route does, the whole
      chunk is that outcome followed by the routes behind the packet. */
  lemma PacketStep(s: RelayState, data: seq<Byte>, variant: LegacyControl.Variant, nowMs: int, t: RelayState, r: Reply)
    requires (SppHeader(data) || BleHeader(data)) && |data| >= 3
    requires Outcome(t, r) == ApplyRoute(s, FrontRoute(data), variant, nowMs)
    ensures ApplyRoutes(s, Routes(data), variant, nowMs)
      == if r.faulted then Outcome(t, r)
         else After(r.events, ApplyRoutes(t, Routes(Remainder(data)), variant, nowMs))
  {
    ApplyFront(s, FrontRoute(data), Routes(Remainder(data)), variant, nowMs);
  }

  /** Applying routes one at a time. */
  lemma ApplyFront(s: RelayState, r: Route, rest: seq<Route>, variant: LegacyControl.Variant, nowMs: int)
    ensures var o := ApplyRoute(s, r, variant, nowMs);
      ApplyRoutes(s, [r] + rest, variant, nowMs)
        == if o.reply.faulted then o else After(o.reply.events, ApplyRoutes(o.state, rest, variant, nowMs))
  {
    assert ([r] + rest)[0] == r && ([r] + rest)[1..] == rest;
  }

  lemma AfterAfter(a: seq<Event>, b: seq<Event>, o: Outcome)
    ensures After(a, After(b, o)) == After(a + b, o)
  {
    assert a + (b + o.reply.events) == (a + b) + o.reply.events;
  }

  lemma AfterEmpty(a: seq<Event>, b: seq<Event>)
    ensures forall s: RelayState :: After(a, After(b, Outcome(s, Emit([])))) == Outcome(s, Emit(a + b))
  {
    assert a + (b + []) == a + b;
  }

  lemma AfterFault(a: seq<Event>, s: RelayState, variant: LegacyControl.Variant, nowMs: int)
    ensures After(a, ApplyRoutes(s, [LengthFault], variant, nowMs)) == Outcome(s, Reply(a, true))
  {
    assert a + [] == a;
  }

  class RelayRing {
    const variant: LegacyControl.Variant
    /** `raw_imu_data`. */
    var raw: seq<Byte>
    var connected: bool
    var address: seq<Byte>

    constructor (variant: LegacyControl.Variant, address: seq<Byte>)
      ensures this.variant == variant && this.address == address
      ensures raw == [] && !connected
    {
      this.variant := variant;
      this.address := address;
      raw := [];
      connected := false;
    }

    function State(): RelayState
      reads this
    {
      RelayState(raw, connected, address)
    }

    /** One pass of the `while len(raw_imu_data) > 36` loop: search the
        marker, stop when fewer than 36 bytes remain, drop one byte after a
        checksum failure, or emit the frame and consume it. */
    method SyncStep() returns (frame: Option<seq<Byte>>, stop: bool)
      requires |raw| > FrameLength
      modifies this
      ensures connected == old(connected) && address == old(address)
      ensures stop ==> frame.None? && ResyncDropOne(ChecksumOk, old(raw)) == SyncResult([], raw)
      ensures stop ==> |raw| < FrameLength
      ensures !stop && frame.None? ==> ResyncDropOne(ChecksumOk, old(raw)) == ResyncDropOne(ChecksumOk, raw)
      ensures !stop && frame.Some? ==>
        ResyncDropOne(ChecksumOk, old(raw)) == Prepend(frame.value, ResyncDropOne(ChecksumOk, raw))
      ensures |raw| < |old(raw)|
    {
      raw := ScanForMarker(raw);
      if |raw| < FrameLength {
        return None, true;
      }
      var f := raw[..FrameLength];
      var ok := CheckFrame(f);
      if !ok {
        DropOneOnFailure(ChecksumOk, old(raw));
        raw := raw[1..];
        return None, false;
      }
      DropOneOnFrame(ChecksumOk, old(raw));
      raw := raw[FrameLength..];
      return Some(f), false;
    }

    /** `spp_notify_callback`: append the payload, then resynchronise by
        dropping one byte after each checksum failure. */
    method SppNotify(data: seq<Byte>, nowMs: int) returns (events: seq<Event>)
      modifies this
      ensures raw == ResyncDropOne(ChecksumOk, old(raw) + data).rest
      ensures events == FrameEvents(ResyncDropOne(ChecksumOk, old(raw) + data).frames, nowMs as real)
      ensures connected == old(connected) && address == old(address)
    {
      raw := raw + data;
      ghost var whole := ResyncDropOne(ChecksumOk, raw);
      events := [];
      while |raw| > FrameLength
        invariant whole.rest == ResyncDropOne(ChecksumOk, raw).rest
        invariant FrameEvents(whole.frames, nowMs as real) == events + FrameEvents(ResyncDropOne(ChecksumOk, raw).frames, nowMs as real)
        invariant connected == old(connected) && address == old(address)
        decreases |raw|
      {
        var frame, stop := SyncStep();
        if stop {
          assert raw == whole.rest && events == FrameEvents(whole.frames, nowMs as real);
          return;
        }
        if frame.Some? {
          ghost var next := ResyncDropOne(ChecksumOk, raw);
          var ev := ImuFrame(frame.value, nowMs as real);
          FrameEventsFront(frame.value, next.frames, nowMs as real);
          AppendAssoc(events, [ev], FrameEvents(next.frames, nowMs as real));
          events := events + [ev];
          assert whole.rest == next.rest;
        } else {
          assert whole.rest == ResyncDropOne(ChecksumOk, raw).rest;
        }
      }
      ShortBufferWaits(ChecksumOk, raw);
      assert raw == whole.rest && events == FrameEvents(whole.frames, nowMs as real);
    }

    /** One received chunk through the demultiplexing loop of `connect`:
        packets are routed while the chunk lasts; an exception ends it;
        a status text ends it too. */
    method Relay(chunk: seq<Byte>, nowMs: int) returns (reply: Reply)
      modifies this
      ensures Outcome(State(), reply) == ApplyRoutes(old(State()), Routes(chunk), variant, nowMs)
    {
      var data := chunk;
      var events: seq<Event> := [];
      while |data| > 0
        invariant ApplyRoutes(old(State()), Routes(chunk), variant, nowMs)
          == After(events, ApplyRoutes(State(), Routes(data), variant, nowMs))
        decreases |data|
      {
        ghost var s := State();
        var spp := |data| >= 2 && data[0] == 0x59 && data[1] == 0x90;
        var ble := |data| >= 2 && data[0] == 0xB1 && data[1] == 0xE0;
        if !spp && !ble {
          TextChunk(s, data, variant, nowMs);
          var r := ApplyText(data);
          AfterEmpty(events, r.events);
          return Reply(events + r.events, false);
        }
        if |data| < 3 {
          assert Routes(data) == [LengthFault];
          AfterFault(events, s, variant, nowMs);
          return Reply(events, true);
        }
        var r, rest := RelayPacket(data, nowMs);
        if r.faulted {
          return Reply(events + r.events, true);
        }
        AfterAfter(events, r.events, ApplyRoutes(State(), Routes(rest), variant, nowMs));
        events := events + r.events;
        data := rest;
      }
      AfterEmpty(events, []);
      reply := Reply(events, false);
    }

    /** The packet at the front of `data`: `data[3:packet_length + 3]` is
        delivered, and the scan goes on with what follows its declared end
        (nothing when the chunk ends there). */
    method RelayPacket(data: seq<Byte>, nowMs: int) returns (r: Reply, rest: seq<Byte>)
      requires (SppHeader(data) || BleHeader(data)) && |data| >= 3
      modifies this
      ensures rest == Remainder(data)
      ensures ApplyRoutes(old(State()), Routes(data), variant, nowMs)
        == if r.faulted then Outcome(State(), r)
           else After(r.events, ApplyRoutes(State(), Routes(rest), variant, nowMs))
    {
      var spp := data[0] == 0x59 && data[1] == 0x90;
      var packetLength := data[2] as int;
      var payload := if |data| >= packetLength + 3 then data[3..packetLength + 3] else data[3..];
      rest := if |data| > packetLength + 3 then data[packetLength + 3..] else [];
      r := Deliver(spp, payload, nowMs);
      PacketStep(old(State()), data, variant, nowMs, State(), r);
    }

    /** A packet's payload handed to `spp_notify_callback` or to
        `ble_notify_callback`. */
    method Deliver(spp: bool, payload: seq<Byte>, nowMs: int) returns (r: Reply)
      modifies this
      ensures Outcome(State(), r)
        == ApplyRoute(old(State()), if spp then SppRoute(payload) else BleRoute(payload), variant, nowMs)
    {
      if spp {
        var emitted := SppNotify(payload, nowMs);
        r := Emit(emitted);
      } else {
        r := LegacyControl.Notify(variant, payload);
      }
    }

    /** The `try` block of a status text: compare it with the two status
        words, else keep it as the address when it holds ':'. */
    method ApplyText(text: seq<Byte>) returns (r: Reply)
      modifies this
      ensures Outcome(State(), r) == TextEffect(old(State()), text)
    {
      r := Emit([]);
      if ValidUtf8(text) {
        if text == DisconnectedText {
          connected := false;
          r := Emit([ConnectionChanged(false)]);
        } else if text == ConnectedText {
          connected := true;
          r := Emit([ConnectionChanged(true)]);
        } else if 0x3A in text {
          address := text;
        }
      }
    }
  }
}

/** `ble_notify_callback` of the legacy control channel, in its three
    variants: `ring/qt/ble_ring_v1.py` (battery, gsensor and mapped touch
    actions), `ring/qt/ble_ring_v1_serial.py` (mapped touch actions only) and
    `ring/ble_ring_v1.py` (battery, gsensor and raw touch action codes).
    The callback keeps no state, so each variant is a function from the
    notification to its `Reply`. */
module LegacyControl {
  import opened Bytes
  import opened Crc
  import opened Events
  import Commands

  datatype Variant = QtV1 | QtV1Serial | BleV1

  datatype Gate = Pass | Reject | GateFault

  /** The checksum gate: the checksum of `data[3:]` against byte 1, then,
      only if that matched (`or` short-circuits), against byte 2. An index
      past the end raises `IndexError`. */
  function CheckGate(data: seq<Byte>): Gate {
    var crc := Crc16(data, 3);
    if |data| < 2 then GateFault
    else if CrcLow(crc) != data[1] then Reject
    else if |data| < 3 then GateFault
    else if CrcHigh(crc) != data[2] then Reject
    else Pass
  }

  /** The gate passes exactly the notifications that carry their own
      checksum, and raises exactly when the bytes it compares are missing
      (a two-byte notification faults only when byte 1 matches, and the
      checksum of no bytes has low byte 0xFF). */
  lemma CheckGateSpec(data: seq<Byte>)
    ensures CheckGate(data) == Pass <==> |data| >= 3 && Commands.Stamped(data, data[0])
    ensures CheckGate(data) == GateFault <==> |data| < 2 || (|data| == 2 && data[1] == 0xFF)
  {
  }

  /** `data[3] & 0x3` and `(data[3] >> 2) & 0x3` of a touch action. */
  function OpType(b: Byte): int { b % 4 }
  function ReportPath(b: Byte): int { (b / 4) % 4 }

  /** `action_code_to_touch_code` of the relay rings. */
  function TouchCodeOf(action: Byte): Option<int> {
    if action == 11 then Some(TapCode)
    else if action == 12 then Some(DoubleTapCode)
    else if action == 13 then Some(TripleTapCode)
    else if action == 14 then Some(LongTouchCode)
    else if action == 15 then Some(ReleaseCode)
    else None
  }

  /** One `ble_notify_callback(sender, data)`. */
  function Notify(variant: Variant, data: seq<Byte>): Reply {
    match CheckGate(data)
    case GateFault => Fault
    case Reject => Emit([])
    case Pass =>
      var typ := data[0];
      var full := variant != QtV1Serial;
      if full && typ == Commands.EdptQuerySs then
        if |data| < 16 then Fault else Emit([Battery(data[15])])
      else if full && typ == Commands.EdptOpGsensorState then
        if |data| < 7 then Fault else Emit([])
      else if full && typ == Commands.EdptOpGsensorData then
        if |data| < 4 then Fault else Emit([])
      else if typ == Commands.EdptOpTouchAction then
        if |data| < 5 then Fault
        else if OpType(data[3]) != 2 then Emit([])
        else if variant == BleV1 then Emit([Touch(data[4])])
        else match TouchCodeOf(data[4])
          case Some(code) => Emit([Touch(code)])
          case None => Emit([])
      else Emit([])
  }

  /** A notification whose checksum bytes are wrong is dropped: no event
      and no exception. */
  lemma RejectedIsSilent(variant: Variant, data: seq<Byte>)
    requires |data| >= 3
    requires data[1] != CrcLow(Crc16(data, 3)) || data[2] != CrcHigh(Crc16(data, 3))
    ensures Notify(variant, data) == Emit([])
  {
    CheckGateSpec(data);
  }

  /** Whatever the variant, an event is only ever emitted for a notification
      that carries its own checksum. */
  lemma EventsNeedChecksum(variant: Variant, data: seq<Byte>)
    requires Notify(variant, data).events != []
    ensures |data| >= 3 && Commands.Stamped(data, data[0])
  {
    CheckGateSpec(data);
  }

  /** The relay rings translate the device's touch action codes 11..15 into
      tap, double tap, triple tap, long touch and release, and drop every
      other code. */
  lemma TouchActionMap(variant: Variant, data: seq<Byte>)
    requires variant != BleV1
    requires |data| >= 5 && Commands.Stamped(data, Commands.EdptOpTouchAction)
    requires OpType(data[3]) == 2
    ensures data[4] == 11 ==> Notify(variant, data) == Emit([Touch(0)])
    ensures data[4] == 12 ==> Notify(variant, data) == Emit([Touch(1)])
    ensures data[4] == 13 ==> Notify(variant, data) == Emit([Touch(6)])
    ensures data[4] == 14 ==> Notify(variant, data) == Emit([Touch(2)])
    ensures data[4] == 15 ==> Notify(variant, data) == Emit([Touch(5)])
    ensures !(11 <= data[4] <= 15) ==> Notify(variant, data) == Emit([])
  {
  }

  /** Build then decode: a command laid out by `do_op_touch_action` passes
      the gate, its byte 3 gives back `get_or_set & 3` and `path_code & 3`,
      and only a "set" (`get_or_set & 3 == 2`) reaches the touch callback. */
  lemma TouchActionRoundTrip(cmd: seq<Byte>, getOrSet: int, pathCode: int, actionCode: Byte)
    requires |cmd| == 5 && Commands.Stamped(cmd, Commands.EdptOpTouchAction)
    requires cmd[3] == (pathCode % 4) * 4 + getOrSet % 4 && cmd[4] == actionCode
    ensures CheckGate(cmd) == Pass
    ensures OpType(cmd[3]) == getOrSet % 4 && ReportPath(cmd[3]) == pathCode % 4
    ensures Notify(BleV1, cmd) == if getOrSet % 4 == 2 then Emit([Touch(actionCode)]) else Emit([])
  {
    CheckGateSpec(cmd);
    var p := pathCode % 4;
    var g := getOrSet % 4;
    assert cmd[3] as int == 4 * p + g;
    assert (4 * p + g) / 4 == p;
    assert (4 * p + g) % 4 == g;
  }
}

/** Outbound command builders of the legacy (`ring/ble_ring_v1.py`,
    `ring/qt/ble_ring_v1.py`) and ZHW (`ring/ble_ring_zhw.py`) rings: each
    allocates a zeroed buffer, fills payload slots from byte 3 on and lets
    `CheckData` write the type byte and the checksum. */
module Commands {
  import opened Bytes
  import opened Crc

  const EdptQuerySs: Byte := 0
  const EdptOpSysConf: Byte := 3
  const EdptOpActionClass: Byte := 4
  const EdptOpGsensorState: Byte := 10
  const EdptOpHrBoState: Byte := 14
  const EdptOpSysDebugBit: Byte := 0x12
  const EdptOpGsensorData: Byte := 0x21
  const EdptOpTouchAction: Byte := 0x24
  const ElptOpImuCtl: Byte := 0x1B

  /** A command of type `typ` whose bytes 1 and 2 carry the checksum of
      everything from byte 3 on, as the receiving side checks it. */
  predicate Stamped(cmd: seq<Byte>, typ: Byte) {
    && |cmd| >= 3
    && cmd[0] == typ
    && cmd[1] == CrcLow(Crc16(cmd, 3))
    && cmd[2] == CrcHigh(Crc16(cmd, 3))
  }

  /** Changing any one byte of a stamped command, the type byte included,
      leaves a command that no longer carries a valid stamp of that type. */
  lemma StampDetectsByteChange(cmd: seq<Byte>, typ: Byte, i: nat, v: Byte)
    requires Stamped(cmd, typ) && i < |cmd| && v != cmd[i]
    ensures !Stamped(cmd[i := v], typ)
  {
    var g := cmd[i := v];
    if i < 3 {
      CrcIgnoresPrefix(cmd, g, 3);
    } else {
      Crc16DetectsChange(cmd, 3, i, v);
    }
  }

  /** `bytearray(n)`. */
  method Zeroed(n: nat) returns (data: array<Byte>)
    ensures fresh(data) && data.Length == n
    ensures forall i :: 0 <= i < n ==> data[i] == 0
  {
    data := new Byte[n](_ => 0);
  }

  /** `query_system_conf`. */
  method QuerySystemConf() returns (cmd: seq<Byte>)
    ensures |cmd| == 4 && Stamped(cmd, EdptOpSysConf) && cmd[3] == 0
  {
    var data := Zeroed(4);
    CheckData(data, EdptOpSysConf);
    cmd := data[..];
  }

  /** `query_hrbo_state`: byte 9 is 10, the rest of the payload is zero. */
  method QueryHrboState() returns (cmd: seq<Byte>)
    ensures |cmd| == 11 && Stamped(cmd, EdptOpHrBoState)
    ensures forall i :: 3 <= i < 11 ==> cmd[i] == (if i == 9 then 10 else 0)
  {
    var data := Zeroed(11);
    data[9] := 10;
    CheckData(data, EdptOpHrBoState);
    cmd := data[..];
  }

  /** `query_action_by_sel_bit`: bytes 3..5 hold `sel_bit << 1`, low byte
      first, truncated to 24 bits. */
  method QueryActionBySelBit(selBit: int) returns (cmd: seq<Byte>)
    ensures |cmd| == 6 && Stamped(cmd, EdptOpActionClass)
    ensures cmd[3] == ByteOf(2 * selBit, 0) && cmd[4] == ByteOf(2 * selBit, 1) && cmd[5] == ByteOf(2 * selBit, 2)
  {
    var data := Zeroed(6);
    var shifted := selBit * 2;
    data[3] := ByteOf(shifted, 0);
    data[4] := ByteOf(shifted, 1);
    data[5] := ByteOf(shifted, 2);
    CheckData(data, EdptOpActionClass);
    cmd := data[..];
  }

  /** `set_debug_hrbo`: byte 3 is 3 when enabling and 1 otherwise. */
  method SetDebugHrbo(enable: bool) returns (cmd: seq<Byte>)
    ensures |cmd| == 4 && Stamped(cmd, EdptOpSysDebugBit)
    ensures cmd[3] == if enable then 3 else 1
  {
    var data := Zeroed(4);
    data[3] := if enable then 3 else 1;
    CheckData(data, EdptOpSysDebugBit);
    cmd := data[..];
  }

  /** `query_power_sync_ts`, with `int(time.time())` passed in as `nowSec`:
      bytes 17..20 carry its low 32 bits, little-endian. */
  method QueryPowerSyncTs(nowSec: int) returns (cmd: seq<Byte>)
    ensures |cmd| == 21 && Stamped(cmd, EdptQuerySs)
    ensures forall i :: 3 <= i < 17 ==> cmd[i] == 0
    ensures UInt32At(cmd, 17) == nowSec % TwoTo32
  {
    var data := Zeroed(21);
    data[17] := ByteOf(nowSec, 0);
    data[18] := ByteOf(nowSec, 1);
    data[19] := ByteOf(nowSec, 2);
    data[20] := ByteOf(nowSec, 3);
    CheckData(data, EdptQuerySs);
    cmd := data[..];
    LittleEndian32RoundTrip(nowSec);
    assert cmd[17..21] == LittleEndian32(nowSec);
  }

  /** `do_op_touch_action`: byte 3 packs `((path_code & 3) << 2) | (get_or_set & 3)`,
      byte 4 is the action code. Storing an action code outside 0..255 in
      the bytearray raises `ValueError` before anything is sent: `None`. */
  method DoOpTouchAction(getOrSet: int, pathCode: int, actionCode: int) returns (cmd: Option<seq<Byte>>)
    ensures cmd.None? <==> !(0 <= actionCode < 256)
    ensures cmd.Some? ==> |cmd.value| == 5 && Stamped(cmd.value, EdptOpTouchAction)
    ensures cmd.Some? ==> cmd.value[3] == (pathCode % 4) * 4 + getOrSet % 4 && cmd.value[4] == actionCode
  {
    var data := Zeroed(5);
    data[3] := (pathCode % 4) * 4 + getOrSet % 4;
    if !(0 <= actionCode < 256) {
      return None;
    }
    data[4] := actionCode as Byte;
    CheckData(data, EdptOpTouchAction);
    cmd := Some(data[..]);
  }

  /** `open_imu_packet` of the ZHW ring: 8 bytes, type 0x1B, bytes 3 and 4 set
      to 1, the remaining payload zero. */
  method OpenImuPacket() returns (cmd: seq<Byte>)
    ensures |cmd| == 8 && Stamped(cmd, ElptOpImuCtl)
    ensures cmd[3] == 1 && cmd[4] == 1 && cmd[5] == 0 && cmd[6] == 0 && cmd[7] == 0
  {
    var data := Zeroed(8);
    data[3] := 1;
    data[4] := 1;
    CheckData(data, ElptOpImuCtl);
    cmd := data[..];
  }
}

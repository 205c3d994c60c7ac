# Ring protocol engine

A Dafny model of the protocol engine of the ring drivers of `sensor-core`.
The drivers are Python classes that talk to a smart ring over BLE or
through a relay helper. The model covers how they turn notification bytes
into IMU samples, touch gestures and state updates, and how they build
their commands.

- **Checksum and commands** (`crc16.dfy`, `commands.dfy`).
  - `crc16` is the CRC-16/MODBUS parameterisation: reflected polynomial
    0xA001, initial value 0xFFFF, no final xor. It is given as a
    specification on `bv16` and as the nested-loop method that computes it.
  - `check_data` writes the type byte and the two checksum bytes into a
    byte array in place.
  - The command builders allocate zeroed arrays, write their payload
    bytes and seal them with `check_data`.
- **Legacy frame synchroniser** (`legacy_sync.dfy`). The AA55 36-byte IMU
  frames have two resynchronisation policies:
  - the relay rings drop one byte after a checksum failure and search
    again;
  - the BLE ring drops a whole frame and stops.
  Both policies are specification functions over the buffer.
- **Legacy control channel** (`legacy_control.dfy`). `ble_notify_callback`
  has a checksum gate and the touch-action decoding of the three legacy
  drivers.
- **Relay** (`relay.dfy`). This is the demultiplexing loop of `connect` in
  `ring/qt/ble_ring_v1.py` and `ring/qt/ble_ring_v1_serial.py`. `59 90`
  packets go to the IMU path and `B1 E0` packets to the control path;
  other chunks are status texts. `RelayRing` is the driver object, with
  its `raw_imu_data` buffer and its link state.
- **Legacy text mode** (`legacy_text.dfy`, `text.dfy`). This is the SPP
  channel of `ring/ble_ring_v1.py`. Before the ring acknowledges
  `ENDB6AX`, chunks are decoded, stripped and split into `ACK` / `ACC`
  lines. After that, the channel carries 36-byte frames.
- **Command queue** (`action_queue.dfy`). The FIFO `action_queue` and its
  drain loop, with `"disconnect"` as a sentinel.
- **ZHW batch packet** (`zhw.dfy`). A type-0x19 packet with a checksum
  gate carries up to eight 28-byte sub-records of seven 32-bit fields.
- **Opcode-V2 drivers**:
  - `imu_v2.dfy`: the shared 12-byte record decoding, the axis remap, the
    bias and the sample-4 smoothing;
  - `touch.dfy`: the touch gesture machine, in two variants;
  - `qt_v2.dfy`: `ring/qt/ble_ring_v2.py`;
  - `qt_v2_serial.dfy`: `ring/qt/ble_ring_v2_serial.py`;
  - `ble_v2.dfy`: `ring/ble_ring_v2.py`.
  In each V2 driver, `notify_callback` is a specification function over
  the driver state. The driver class implements it and is proved equal to
  it.
- **Window** (`window.dfy`). The bounded FIFO `Window` class of
  `utils/window.py`.
- **Time calibration** (`calib_time.dfy`). The sample selection and
  least-squares fit of `ring/utils/calib_time.py`.

Conventions:
- A Python exception that escapes the callback (`IndexError`,
  `struct.error`, a failing `assert` outside any `try`) is a `Reply` with
  `faulted` set. Each operation's contract says which state changes
  happened before the raise.
- An exception caught by a bare `except` ends the call quietly. In
  `ring/ble_ring_zhw.py` the checksum test sits in such a `try`: a failed
  assertion and the `IndexError` of a packet too short for its checksum
  bytes both give an empty, unfaulted `Reply`.
- Callbacks become the sequence of events a call produces, in order.
- Clock readings (`time.time()`, `time.perf_counter()`) are parameters.
- IMU quantities are exact reals. The raw integers stay recoverable
  (`ImuV2.TurnAxes`).

The joined-batch quirk of `ring/qt/ble_ring_v2_serial.py` is proved as
`QtV2Serial.JoinedBatchesShiftHeader`. When two 133-byte batches arrive
in one notification, the header length is computed from the joined
length. The first batch is then read one byte early, and the timestamp
layout counts 21 packets instead of 10.

## Model

| member | source | states |
|---|---|---|
| Crc.Crc16 | ring/qt/ble_ring_v1.py:159-169 | the checksum is always within 0..0xFFFF |
| Crc.AbsorbByte | ring/qt/ble_ring_v1.py:163-168 | one outer iteration (xor the byte in, eight shift/xor rounds with 0xA001) computes the specified register update |
| Crc.ComputeCrc16 | ring/qt/ble_ring_v1.py:159-169 | the nested loop over `data[offset:]` from 0xFFFF yields exactly the specified checksum, a 16-bit value |
| Crc.Widen | ring/qt/ble_ring_v1.py:163 | `crc ^= data[i]` sees the byte as the 16-bit value with the same number |
| Crc.CrcFromDetectsChange | ring/qt/ble_ring_v1.py:162-168 | changing any one input byte, at any position and to any other value, changes the final register |
| Crc.Crc16DetectsChange | ring/qt/ble_ring_v1.py:159-169 | changing any one byte at or after `offset` changes the low or the high checksum byte |
| Crc.CrcIgnoresPrefix | ring/qt/ble_ring_v1_serial.py:100-110 | two buffers that agree from `offset` on have the same checksum: bytes before `offset` never matter |
| Crc.CheckValue | ring/qt/ble_ring_v1.py:160-161 | the checksum of "123456789" is 0x4B37, the CRC-16/MODBUS check value of this polynomial and initial value |
| Crc.Sealed | ring/qt/ble_ring_v1.py:171-176 | the sealed buffer keeps its length and bytes 3.. unchanged, carries the type in byte 0, and its bytes 1 and 2 are the low and high bytes of the checksum of its own bytes 3.. |
| Crc.SealIdempotent | ring/ble_ring_v1.py:154-159 | sealing an already sealed buffer with the same type changes nothing |
| Crc.CheckData | ring/qt/ble_ring_v1.py:171-176 | writing indices 0..2 of the array in place leaves exactly the sealed buffer |
| Commands.Zeroed | ring/qt/ble_ring_v1.py:179 | `bytearray(n)` is a fresh array of n zero bytes |
| Commands.QuerySystemConf | ring/qt/ble_ring_v1.py:178-180 | a 4-byte command of type 3 with a valid checksum and a zero payload |
| Commands.QueryHrboState | ring/qt/ble_ring_v1.py:182-185 | an 11-byte command of type 14 with a valid checksum, byte 9 equal to 10 and every other payload byte zero |
| Commands.QueryActionBySelBit | ring/qt/ble_ring_v1.py:187-193 | a 6-byte command of type 4 with a valid checksum whose bytes 3..5 are the low three bytes of `sel_bit << 1`, low byte first |
| Commands.SetDebugHrbo | ring/qt/ble_ring_v1.py:195-198 | a 4-byte command of type 0x12 with a valid checksum, byte 3 equal to 3 when enabling and 1 otherwise |
| Commands.QueryPowerSyncTs | ring/qt/ble_ring_v1.py:200-207 | a 21-byte command of type 0 with a valid checksum, bytes 3..16 zero, and bytes 17..20 reading back as the clock value modulo 2^32 |
| Commands.DoOpTouchAction | ring/qt/ble_ring_v1.py:209-217 | no command exactly when the action code lies outside 0..255, where storing it in the bytearray raises `ValueError`; otherwise a 5-byte command of type 0x24 with a valid checksum, byte 3 packing `((path & 3) << 2) \| (get_or_set & 3)` and byte 4 the action code |
| Commands.OpenImuPacket | ring/ble_ring_zhw.py:112-116 | an 8-byte command of type 0x1B with a valid checksum, bytes 3 and 4 equal to 1 and bytes 5..7 zero |
| Commands.StampDetectsByteChange | ring/qt/ble_ring_v1.py:64-70 | changing any one byte of a stamped command, type byte included, leaves a command that no longer carries a valid stamp of that type |
| Bytes.LowByte | ring/qt/ble_ring_v1.py:166-167 | `x & 0xFF` is the residue of x modulo 256, for negative x too |
| Bytes.Int16At | ring/ble_ring_v2.py:148 | `struct.unpack("h")` of two bytes is a value in the signed 16-bit range |
| Bytes.Int32At | ring/qt/ble_ring_v2_serial.py:172-173 | `struct.unpack("i")` of four bytes is a value in the signed 32-bit range |
| Bytes.UInt32At | ring/ble_ring_zhw.py:88 | `struct.unpack("I")` of four bytes is a value in 0..2^32-1 |
| Bytes.Int32RoundTrip | ring/qt/ble_ring_v1.py:203-206 | a signed 32-bit value written low byte first by `(x >> 8k) & 0xFF` reads back as itself |
| Bytes.Int16RoundTrip | ring/qt/ble_ring_v2.py:136 | a signed 16-bit value written low byte first reads back as itself |
| LegacySync.FirstMarker | ring/qt/ble_ring_v1.py:122-125 | the marker search finds the first 0xAA 0x55 at or after the start, or proves there is none |
| LegacySync.TrimToMarker | ring/qt/ble_ring_v1.py:122-125 | trimming keeps a suffix of the buffer |
| LegacySync.TrimToMarkerSpec | ring/qt/ble_ring_v1.py:122-125 | with a marker, the trimmed buffer starts at the first marker; without one, the buffer is unchanged |
| LegacySync.ScanForMarker | ring/qt/ble_ring_v1.py:122-125 | the `for` loop with its `break` computes exactly the trimmed buffer |
| LegacySync.CheckFrame | ring/qt/ble_ring_v1.py:134-137 | a frame passes exactly when its bytes 2 and 3 are the low and high bytes of the checksum of bytes 4.. |
| LegacySync.ChecksumDetectsByteChange | ring/qt/ble_ring_v1.py:134-137 | a frame that passes the checksum test fails it once any one byte from index 2 on is changed, so every single-bit flip there is caught |
| LegacySync.ResyncDropOne | ring/qt/ble_ring_v1.py:119-157 | specification of the relay rings' loop: while more than 36 bytes are buffered, trim to the marker, stop below 36, drop one byte on a failed checksum, otherwise emit the frame and consume 36 bytes |
| LegacySync.DropOneFramesValid | ring/qt/ble_ring_v1_serial.py:72-83 | every frame the drop-one loop emits is 36 bytes long and passes the checksum |
| LegacySync.DropOneKeepsTail | ring/qt/ble_ring_v1_serial.py:60-69 | what stays buffered is a suffix of the input of at most 36 bytes |
| LegacySync.DropOneOnFailure | ring/qt/ble_ring_v1_serial.py:79-83 | after a checksum failure the buffer loses exactly its first byte and the scan continues |
| LegacySync.DropOneOnFrame | ring/qt/ble_ring_v1_serial.py:97-98 | a valid frame is emitted and exactly 36 bytes are consumed |
| LegacySync.ShortBufferWaits | ring/qt/ble_ring_v1.py:119 | a buffer of at most 36 bytes is kept whole and nothing is emitted, under both policies |
| LegacySync.NoMarkerStillChecked | ring/qt/ble_ring_v1.py:122-131 | without a marker the buffer is not trimmed and its first 36 bytes are still checked |
| LegacySync.ReachesFrame | ring/qt/ble_ring_v1.py:119-142 | a buffer made of garbage whose markers all open failing frames, then a valid marked frame, then more bytes: the loop emits that frame first and goes on exactly as it would on the bytes after it |
| LegacySync.ResyncReachesFrame | ring/qt/ble_ring_v1.py:119-142 | from any start before the first valid marked frame, with more than 36 bytes buffered, the loop skips the failing candidates, emits that frame first and goes on after it; the frame may end the buffer |
| LegacySync.OneFrameAfterGarbage | ring/qt/ble_ring_v1.py:119-142 | garbage followed by exactly one valid frame that ends the buffer yields that frame alone and keeps no bytes |
| LegacySync.ResyncBlocks | ring/ble_ring_v1.py:100-121 | specification of the BLE ring's loop after its one marker search: emit and consume valid 36-byte blocks; on a failed checksum consume the block and stop |
| LegacySync.BlocksOnFrame | ring/ble_ring_v1.py:120-121 | a valid block is emitted and exactly 36 bytes are consumed |
| LegacySync.BlocksAligned | ring/ble_ring_v1.py:100-121 | the BLE ring emits consecutive valid 36-byte blocks from the start of the trimmed buffer |
| LegacySync.BlocksStop | ring/ble_ring_v1.py:112-119 | the loop ends with an unexamined tail of at most 36 bytes, or right after discarding the one block that failed the checksum |
| LegacyControl.CheckGate | ring/qt/ble_ring_v1.py:64-70 | specification of the gate: the checksum of bytes 3.. against byte 1, and only then against byte 2, with `IndexError` where a compared byte is missing (properties in `CheckGateSpec`) |
| LegacyControl.CheckGateSpec | ring/qt/ble_ring_v1.py:64-70 | a message passes the gate exactly when bytes 1 and 2 carry its checksum; it raises exactly when byte 1 or 2 is missing where compared |
| LegacyControl.Notify | ring/qt/ble_ring_v1.py:64-115 | specification of one `ble_notify_callback` in each legacy variant: gate, then the `match` on byte 0, with the battery, gsensor and touch-action branches and their `IndexError`s (properties in the lemmas below) |
| LegacyControl.RejectedIsSilent | ring/qt/ble_ring_v1.py:68-70 | a message with wrong checksum bytes produces nothing, in every variant |
| LegacyControl.EventsNeedChecksum | ring/qt/ble_ring_v1_serial.py:113-119 | a message that produces any event carries a valid checksum |
| LegacyControl.TouchActionMap | ring/qt/ble_ring_v1_serial.py:133-144 | with op type 2, codes 11..15 become touch codes 0, 1, 6, 2 and 5; any other code produces nothing |
| LegacyControl.TouchActionRoundTrip | ring/ble_ring_v1.py:76-89 | a touch-action command passes the gate; decoding byte 3 with `& 3` and `(>> 2) & 3` gives back `get_or_set & 3` and `path & 3`; op type 2 forwards the raw action code |
| Relay.Payload | ring/qt/ble_ring_v1.py:259-263 | the routed payload is `data[3:3+len]`, cut short only when the chunk ends early |
| Relay.Remainder | ring/qt/ble_ring_v1.py:264-268 | what is re-scanned after a packet is strictly shorter than the chunk |
| Relay.Routes | ring/qt/ble_ring_v1.py:257-284 | a chunk is routed into no packet exactly when it is empty |
| Relay.ApplyRoutes | ring/qt/ble_ring_v1.py:257-284 | specification of the routes of one chunk handled in order: IMU payloads go to the resync loop, control payloads to `ble_notify_callback`, texts to the link state; the first route that raises ends the chunk and keeps the events before it |
| Relay.RoutesShape | ring/qt/ble_ring_v1_serial.py:236-267 | only the last route of a chunk can be a status text or a fault; every earlier one is an IMU or control packet |
| Relay.RoutesFront | ring/qt/ble_ring_v1.py:258-266 | a framed packet at the front of a chunk is routed first and the rest of the chunk is re-scanned |
| Relay.RoutesRoundTrip | ring/qt/ble_ring_v1.py:257-268 | packets sent back to back in one chunk are demultiplexed into exactly those packets, in order |
| Relay.PacketsKeepLink | ring/qt/ble_ring_v1.py:258-268 | packets never change the connection flag or the address |
| Relay.TextChunk | ring/qt/ble_ring_v1.py:269-284 | a chunk that is not a packet is handled as one status text |
| Relay.ConnectedSetsFlag | ring/qt/ble_ring_v1.py:275-278 | "Connected" sets the connection flag and is reported |
| Relay.DisconnectedClearsFlag | ring/qt/ble_ring_v1.py:271-274 | "Disconnected" clears the connection flag and is reported |
| Relay.RelayRing.constructor | ring/qt/ble_ring_v1.py:41-52 | a new relay ring has an empty buffer and is not connected |
| Relay.RelayRing.SyncStep | ring/qt/ble_ring_v1.py:119-157 | one pass of the resync loop strictly shortens the buffer and either stops, drops a byte, or emits a frame, as the drop-one specification says |
| Relay.RelayRing.SppNotify | ring/qt/ble_ring_v1.py:117-157 | the buffer and the emitted frames are exactly those of the drop-one specification over the old buffer plus the payload |
| Relay.RelayRing.Relay | ring/qt/ble_ring_v1.py:255-284 | one received chunk changes the ring and reports exactly what applying its routes in order does |
| Relay.RelayRing.RelayPacket | ring/qt/ble_ring_v1.py:258-268 | one packet is delivered and the rest of the chunk is returned for re-scanning |
| Relay.RelayRing.Deliver | ring/qt/ble_ring_v1.py:260-263 | a payload goes to the IMU path or to the control path |
| Relay.RelayRing.ApplyText | ring/qt/ble_ring_v1.py:270-283 | a status text updates the link state as the specification says |
| Text.SeqLen | ring/qt/ble_ring_v1.py:271 | the length of a UTF-8 sequence is at most 4, and 1 for an ASCII byte |
| Text.AsciiIsUtf8 | ring/qt/ble_ring_v1.py:271-281 | every ASCII text decodes as UTF-8 |
| Text.StripLeft | ring/ble_ring_v1.py:124 | the result is a suffix of the text, starts with a non-space, and everything removed is whitespace |
| Text.StripRight | ring/ble_ring_v1.py:124 | the result is a prefix of the text, ends with a non-space, and everything removed is whitespace |
| Text.FindFrom | ring/ble_ring_v1.py:124 | the first occurrence of the separator at or after a position, or none |
| Text.Split | ring/ble_ring_v1.py:124 | `split` yields at least one piece |
| Text.SplitJoin | ring/ble_ring_v1.py:124 | joining the pieces with the separator gives the text back, and no piece contains the separator |
| LegacyText.TextNotify | ring/ble_ring_v1.py:122-140 | specification of the text-mode branch: a decoding error raises before anything changes; otherwise the stripped text is split at "\r\n" and its lines applied in order |
| LegacyText.ApplyLines | ring/ble_ring_v1.py:125-140 | the lines are applied in order and the first that raises ends the loop, keeping what earlier lines set |
| LegacyText.AccLine | ring/ble_ring_v1.py:130-137 | specification of the `ACC` branch: `acc_fsr`, `gyro_fsr` and `imu_freq` are assigned one by one, each kept when a later step raises |
| LegacyText.ColonValuesSpec | ring/ble_ring_v1.py:131 | the `map` succeeds exactly when every field has a ':'; the values are then the second pieces, in order |
| LegacyText.NoValueBefore | ring/ble_ring_v1.py:131 | one field without ':' makes the whole `map` raise |
| LegacyText.LineEffect | ring/ble_ring_v1.py:125-140 | a line raises exactly when its `ACC` fields are malformed; IMU mode turns on exactly for `ACK:ENDB6AX`; other lines change nothing |
| LegacyText.AccSetsRanges | ring/ble_ring_v1.py:130-136 | an `ACC` line sets `acc_fsr` and `gyro_fsr` to the values after ':' of its first and second comma fields |
| LegacyText.LinesFault | ring/ble_ring_v1.py:125-140 | a chunk raises exactly when one of its lines does |
| LegacyText.EnableReachedTail | ring/ble_ring_v1.py:125-128 | the enable line is reached in a chunk exactly when it is the first line, or is reached in the rest behind a first line that does not raise |
| LegacyText.LinesEnable | ring/ble_ring_v1.py:125-128 | IMU mode ends on exactly when it was on, or an `ACK:ENDB6AX` line comes before any line that raises |
| LegacyText.BlocksEventsStep | ring/ble_ring_v1.py:120-121 | one valid block moves from the pending frames to the emitted events |
| LegacyText.LegacyBleRing.constructor | ring/ble_ring_v1.py:29-38 | a new ring starts in text mode with an empty buffer and both ranges "0" |
| LegacyText.LegacyBleRing.SppNotify | ring/ble_ring_v1.py:93-140 | in IMU mode the settings are kept and the buffer and events follow the drop-a-block policy after one marker search; in text mode the buffer is kept, nothing is emitted, and the settings follow the text-mode specification |
| LegacyText.LegacyBleRing.ImuNotify | ring/ble_ring_v1.py:94-121 | the IMU branch: settings unchanged, buffer and stamped frames exactly as the block policy gives them |
| LegacyText.LegacyBleRing.ApplyTextLines | ring/ble_ring_v1.py:125-140 | the line loop leaves exactly the settings and the fault the line specification gives |
| LegacyText.LegacyBleRing.HandleLine | ring/ble_ring_v1.py:126-140 | one line updates the settings exactly as specified and does not touch the buffer |
| LegacyText.ColonValuesOf | ring/ble_ring_v1.py:131 | the loop over the comma fields computes exactly the specified values |
| ActionQueue.SendPayload | ring/ble_ring_v1.py:202-203 | the payload is two bytes longer than the command |
| ActionQueue.SendPayloadRoundTrip | ring/ble_ring_v1.py:202-203 | the payload is the command followed by "\r\n" |
| ActionQueue.Dispatch | ring/ble_ring_v1.py:256-260 | one queued command: `"disconnect"` disconnects, anything else is sent |
| ActionQueue.Drained | ring/ble_ring_v1.py:255-260 | specification of the drain loop: one output per queued command, front first |
| ActionQueue.DrainedInOrder | ring/ble_ring_v1.py:255-260 | draining gives one output per queued command, the k-th for the k-th command put |
| ActionQueue.DrainedConcat | ring/ble_ring_zhw.py:212-217 | draining two batches one after the other equals draining them together |
| ActionQueue.DispatchSentinel | ring/ble_ring_zhw.py:214-217 | only "disconnect" disconnects; every other command is written followed by "\r\n" |
| ActionQueue.CommandQueue.constructor | ring/ble_ring_v1.py:44 | a new queue is empty |
| ActionQueue.CommandQueue.Put | ring/ble_ring_v1.py:210-211 | `send_action` appends the command at the back |
| ActionQueue.CommandQueue.Drain | ring/ble_ring_v1.py:255-260 | the drain loop empties the queue and produces exactly the specified outputs, front first |
| Zhw.CountBound | ring/ble_ring_zhw.py:74-78 | slot i is decoded exactly when it is one of the first eight and the packet holds all 28 of its bytes |
| Zhw.OtherTypeIgnored | ring/ble_ring_zhw.py:65 | a packet whose byte 0 is not 0x19 produces nothing |
| Zhw.ZhwNotify | ring/ble_ring_zhw.py:64-91 | specification of `spp_notify_callback`: the type test, the swallowed checksum failure, and the sub-record loop (properties in the lemmas below) |
| Zhw.ZhwFaults | ring/ble_ring_zhw.py:64-72 | the callback raises exactly on an empty packet; a short packet's `IndexError` inside the `try` is swallowed |
| Zhw.CorruptedDropped | ring/ble_ring_zhw.py:66-72 | a sample packet too short for its checksum bytes, or whose checksum bytes are wrong, produces nothing and does not raise |
| Zhw.Words | ring/ble_ring_zhw.py:82-88 | the seven fields take four bytes each |
| Zhw.WordField | ring/ble_ring_zhw.py:82-88 | field k of a record reads back the k-th written value, signed or unsigned |
| Zhw.RecordRoundTrip | ring/ble_ring_zhw.py:81-89 | a sub-record of six signed and one unsigned 32-bit fields decodes to those values |
| Zhw.SppNotify | ring/ble_ring_zhw.py:64-91 | the checksum gate and the sub-record loop report exactly the specified samples |
| Zhw.DecodeRecords | ring/ble_ring_zhw.py:74-91 | the `for i in range(8)` loop with its early `break` reports, in order, the sub-record of every slot below min(8, (len-3)/28) and nothing else |
| Events.FrameEvents | ring/qt/ble_ring_v1.py:156 | one IMU event per frame, in order: event k reports frame k with the call's timestamp |
| ImuV2.RecordRoundTrip | ring/ble_ring_v2.py:148-150 | six signed 16-bit fields laid out low byte first decode back to themselves |
| ImuV2.TurnAxes | ring/ble_ring_v2.py:154-155 | with unit scales the sample is (-ay, az, -ax, -gy, gz, -gx) |
| ImuV2.BiasSubtracted | ring/ble_ring_v2.py:154-155 | the bias is subtracted from the remapped gyroscope axes, and nothing else changes |
| ImuV2.SampleAt | ring/ble_ring_v2.py:147-156 | one sample per whole 12-byte record; sample k is record k, read at byte 12k, turned, scaled, bias-corrected and stamped |
| ImuV2.SmoothSpec | ring/qt/ble_ring_v2.py:156 | sample 4's gz becomes the mean of samples 3 and 5 (so it lies between them); nothing else changes |
| ImuV2.ImuEvents | ring/ble_ring_v2.py:161-163 | one IMU event per sample |
| ImuV2.ImuEventsAt | ring/ble_ring_v2.py:162-163 | event k reports sample k |
| Touch.TouchStateTable | ring/qt/ble_ring_v2.py:78-88 | the table `[0,1,3,2,5,-1,4,-2]` is one-to-one on the eight patterns, and code 0 means no electrode touched |
| Touch.PositionLifted | ring/ble_ring_v2.py:110-117 | a report reads as lifted exactly when bits 0x02, 0x08 and 0x20 are all clear |
| Touch.TapTick | ring/qt/ble_ring_v2.py:56-75 | specification of one pass of the `tap_func` loop: the tap flag, the counter and what it reports (properties in `TapTickSpec` and `QuietTicks`) |
| Touch.TapTickSpec | ring/qt/ble_ring_v2.py:53-76 | a tap while idle starts the count at 0; a tap while counting reports a double-tap and idles; the tap flag is consumed; the counter stays idle or below the interval |
| Touch.QuietTicks | ring/qt/ble_ring_v2.py:63-75 | after exactly the interval of quiet ticks the counter idles, reporting a tap only where the driver reports one for touch type 0; before that, ticks only count |
| Touch.CountingDetect | ring/qt/ble_ring_v2.py:90-123 | specification of the counting `_detect_touch_events`: a lift ends the touch, a press extends the history and counts holds |
| Touch.CountingLift | ring/qt/ble_ring_v2.py:100-114 | a lift empties the history and the hold count, marks a classified tap exactly when no hold was counted and a contact is on record, and reports a release exactly when a hold was counted |
| Touch.CountingPress | ring/qt/ble_ring_v2.py:115-123 | a touch whose history spans more than a second counts one more hold, and every such report once the count passes 2 is a long-touch |
| Touch.StaleReset | ring/qt/ble_ring_v2.py:126-131 | specification of the stale-history reset at the start of `notify_callback` |
| Touch.StaleResetSpec | ring/qt/ble_ring_v2.py:126-131 | a history whose last contact is more than 0.5 s old is cleared with the hold count, reporting a release only when the count exceeded 2 |
| Touch.HoldingDetect | ring/ble_ring_v2.py:109-139 | specification of the hold-flag `_detect_touch_events` |
| Touch.HoldingLift | ring/ble_ring_v2.py:119-134 | a lift reports a release exactly when a hold was on, always ends the hold and clears the history, and classifies a tap by comparing `history[-2]` with `history[0]` |
| Touch.LongTouchOncePerHold | ring/ble_ring_v2.py:136-139 | while the finger stays down, long-touch is reported at most once, and only when the hold was not already on |
| Touch.CountingTouch.constructor | ring/qt/ble_ring_v2.py:41-46 | the touch state starts empty, with no tap and touch type -1 |
| Touch.CountingTouch.Detect | ring/qt/ble_ring_v2.py:90-123 | `_detect_touch_events` updates the fields and reports exactly what the counting specification does |
| Touch.CountingTouch.ResetIfStale | ring/qt/ble_ring_v2.py:126-131 | the stale check updates the fields as the specification says |
| Touch.CountingTouch.Tick | ring/qt/ble_ring_v2.py:56-75 | one tick updates the tap state and reports exactly what the tick specification does |
| Touch.HoldingTouch.constructor | ring/ble_ring_v2.py:52-56 | the touch state starts empty, not holding, with touch type -1 |
| Touch.HoldingTouch.Detect | ring/ble_ring_v2.py:109-139 | `_detect_touch_events` updates the fields and reports exactly what the hold-flag specification does |
| Touch.HoldingTouch.Tick | ring/ble_ring_v2.py:78-92 | one tick with the 100-tick interval, as the tick specification says |
| QtV2.Notify | ring/qt/ble_ring_v2.py:125-181 | specification of `notify_callback` over the touch state: the stale-history reset, then the dispatch on bytes 2 and 3; the IMU batch, status and touch-report branches go on with the bytes past their message |
| QtV2.BatchLayout | ring/qt/ble_ring_v2.py:133-156 | a batch of at least 125 bytes yields exactly ten samples from offsets 5, 17, ..., 113; sample 4's gz is smoothed and the others are the plain records |
| QtV2.ShortMessageFaults | ring/qt/ble_ring_v2.py:126-132 | a message too short for its opcode raises after the stale-history reset, whose effects stay |
| QtV2.BackToBack | ring/qt/ble_ring_v2.py:160-177 | complete messages sent back to back are handled one after the other |
| QtV2.BatchThenMore | ring/qt/ble_ring_v2.py:160-161 | bytes beyond 125 in an IMU batch are handled as a new message |
| QtV2.StatusThenMore | ring/qt/ble_ring_v2.py:168-169 | bytes beyond 5 in a 0x61/0x00 message are handled as a new message |
| QtV2.ReportThenMore | ring/qt/ble_ring_v2.py:176-177 | bytes beyond 23 in a 0x61/0x01 report are handled as a new message |
| QtV2.DecodeBatch | ring/qt/ble_ring_v2.py:134-156 | the build loop and the gz patch compute exactly the specified batch |
| QtV2.DecodeRecords | ring/qt/ble_ring_v2.py:135-155 | the `range(5, 124, 12)` loop decodes the records in order |
| QtV2.QtV2Ring.constructor | ring/qt/ble_ring_v2.py:41-46 | a new driver has a fresh, empty touch state |
| QtV2.QtV2Ring.TapFuncTick | ring/qt/ble_ring_v2.py:56-76 | one pass of `tap_func` with the 50-tick interval; the plain tap stays unreported |
| QtV2.QtV2Ring.NotifyCallback | ring/qt/ble_ring_v2.py:125-181 | `notify_callback` leaves the touch state and reports exactly what the specification does |
| QtV2Serial.Notify | ring/qt/ble_ring_v2_serial.py:140-227 | specification of `notify_callback` over the driver state: the short-message check, the IMU batch with its header and stamps, the gesture, touch and calibration replies |
| QtV2Serial.ExponentsRoundTrip | ring/qt/ble_ring_v2_serial.py:162-163 | the range byte's `(b >> 2) & 3` and `b & 3` recover the acc and gyro exponents |
| QtV2Serial.BatchRecord | ring/qt/ble_ring_v2_serial.py:178-189 | sample k is the record at `head + 12k`, wholly before byte 133, scaled by the exponents of byte 4 and timed by the batch timing |
| QtV2Serial.BatchLayout | ring/qt/ble_ring_v2_serial.py:164-190 | a batch yields exactly ten samples with no smoothing, the header being 4 or 5 bytes |
| QtV2Serial.SpreadReachesEnd | ring/qt/ble_ring_v2_serial.py:186 | the interpolated stamps run from the start stamp to the end stamp |
| QtV2Serial.TimingSpec | ring/qt/ble_ring_v2_serial.py:168-188 | with trailing stamps the packet count is `(len - head - 8) // 12`, otherwise `(len - head) // 12`; stamps are interpolated only when both are nonzero, otherwise the clock reading is used |
| QtV2Serial.DoubleTapSpec | ring/qt/ble_ring_v2_serial.py:131-139 | a double-tap is reported exactly when the previous tap is less than 0.5 s old; the last tap time then resets to 0, otherwise to now |
| QtV2Serial.ThirdTapQuiet | ring/qt/ble_ring_v2_serial.py:137-139 | after a reported double-tap, a third quick tap does not report again |
| QtV2Serial.GestureSpec | ring/qt/ble_ring_v2_serial.py:206-214 | codes 0, 3 and 4 go to double-tap detection, code 1 reports a long-touch, other codes are reported raw |
| QtV2Serial.ShortIgnored | ring/qt/ble_ring_v2_serial.py:141-142 | a message shorter than 4 bytes changes nothing and reports nothing |
| QtV2Serial.CalibrationReply | ring/qt/ble_ring_v2_serial.py:224-227 | a 0x99 reply always records the clock reading; an 8-byte reply also records its ring time divided by 16384, and any other length raises |
| QtV2Serial.GestureThenMore | ring/qt/ble_ring_v2_serial.py:215-216 | bytes beyond 5 in a gesture message are handled as a new message |
| QtV2Serial.JoinedBatchesShiftHeader | ring/qt/ble_ring_v2_serial.py:164-178 | two 133-byte batches joined in one message are read with a 4-byte header and a count of 21 packets, so the first batch is read one byte early |
| QtV2Serial.DecodeRecords | ring/qt/ble_ring_v2_serial.py:178-190 | the loop with its `break` decodes exactly the whole records before byte 133 |
| QtV2Serial.QtV2SerialRing.constructor | ring/qt/ble_ring_v2_serial.py:40-55 | a new driver has an empty touch state, last tap time 0 and empty timestamp lists |
| QtV2Serial.QtV2SerialRing.TapFuncTick | ring/qt/ble_ring_v2_serial.py:58-81 | one pass of `tap_func` with the 50-tick interval, reporting a plain tap for touch type 0; the other fields are kept |
| QtV2Serial.QtV2SerialRing.DetectDoubleTapWithTap | ring/qt/ble_ring_v2_serial.py:131-139 | the last tap time and the report follow the double-tap specification; nothing else changes |
| QtV2Serial.QtV2SerialRing.ImuBatch | ring/qt/ble_ring_v2_serial.py:161-194 | the batch branch reports one event per specified sample |
| QtV2Serial.QtV2SerialRing.NotifyCallback | ring/qt/ble_ring_v2_serial.py:140-227 | `notify_callback` leaves the state and reports exactly what the specification does |
| BleV2.Notify | ring/ble_ring_v2.py:142-173 | specification of `notify_callback` over the driver state: the IMU batch with bias and smoothing, appended to `all_imu_data`, and the touch report |
| BleV2.FaultKeepsState | ring/ble_ring_v2.py:142-173 | a message that raises leaves the state as it was and reports nothing |
| BleV2.StateSeparation | ring/ble_ring_v2.py:142-173 | `all_imu_data` only grows, and only through an IMU message; the touch state changes only through a 0x61/0x01 report |
| BleV2.ImuMessage | ring/ble_ring_v2.py:144-163 | an IMU message over 20 bytes raises exactly on a partial record or fewer than six records; otherwise the smoothed samples are appended to `all_imu_data` and reported one each, in order |
| BleV2.BatchRecord | ring/ble_ring_v2.py:147-155 | sample k is the record at `4 + len % 2 + 12k`, with the bias subtracted |
| BleV2.DecodeRecords | ring/ble_ring_v2.py:147-156 | the build loop finishes exactly when the records are whole, and then yields the specified samples |
| BleV2.BleV2Ring.constructor | ring/ble_ring_v2.py:32-62 | no gyroscope bias means zero bias; a new driver starts with empty touch state and no samples |
| BleV2.BleV2Ring.NotifyCallback | ring/ble_ring_v2.py:142-173 | `notify_callback` leaves the state and reports exactly what the specification does |
| BleV2.BleV2Ring.TapFuncTick | ring/ble_ring_v2.py:75-93 | one pass of `tap_func` with the 100-tick interval; the samples are kept |
| BleV2.BleV2Ring.GetImuData | ring/ble_ring_v2.py:221 | returns the stored samples |
| BleV2.BleV2Ring.ClearImuData | ring/ble_ring_v2.py:223 | empties the stored samples |
| Windows.SliceBound | utils/window.py:31-35 | a Python slice bound lies within the list |
| Windows.PushedSpec | utils/window.py:14-17 | after a push the item is last, the length never passes `window_length`, and the oldest item goes exactly when the window was full |
| Windows.PushedAll | utils/window.py:14-17 | pushing `window_length` items leaves exactly those items |
| Windows.PushedSuffix | utils/window.py:14-17 | pushing items into a full window keeps the newest `window_length`, in order |
| Windows.CountIn | utils/window.py:49-50 | the count is at most the length |
| Windows.CountIsSize | utils/window.py:49-50 | the count is the number of positions whose item satisfies the predicate |
| Windows.SumOfConcat | utils/window.py:46-47 | the sum over two lists is the sum of their sums |
| Windows.FillPast | utils/window.py:85-91 | filling past the end gives the same list |
| Windows.Window.constructor | utils/window.py:10-12 | the window is the list given, or empty when none is given |
| Windows.Window.Push | utils/window.py:14-17 | `push` leaves exactly the pushed list and keeps `window_length` |
| Windows.Window.Clear | utils/window.py:19-20 | `clear` empties the window |
| Windows.Window.First | utils/window.py:22-23 | the first item, or none exactly when the window is empty |
| Windows.Window.Last | utils/window.py:25-26 | the last item, or none exactly when the window is empty |
| Windows.Window.Get | utils/window.py:28-29 | the item at an index, negative indexes counting from the end, or none exactly when the index is out of range |
| Windows.Window.Head | utils/window.py:31-32 | a new window with the same `window_length` holding `window[:length]` |
| Windows.Window.Tail | utils/window.py:34-35 | a new window with the same `window_length` holding `window[-length:]` |
| Windows.HeadTailSpec | utils/window.py:31-35 | `head(n)` keeps the first n items and `tail(n)` the last n; `tail(0)` is the whole window; past the length both are the whole window |
| Windows.Window.Capacity | utils/window.py:37-38 | `capacity` is the current length |
| Windows.Window.Empty | utils/window.py:40-41 | `empty` holds exactly when the length is 0 |
| Windows.Window.Full | utils/window.py:43-44 | `full` holds exactly when the length equals `window_length` |
| Windows.Window.Sum | utils/window.py:46-47 | `sum(map(func, window))` over the current items (properties in `SumOfConcat`) |
| Windows.Window.Count | utils/window.py:49-50 | the count is at most the length |
| Windows.Window.Map | utils/window.py:52-53 | `map` keeps the length and `window_length` and applies the function to every item |
| Windows.Window.SetToLastValue | utils/window.py:85-91 | entries 0..`window_length`-2 become the last item; it raises exactly when the window is too short for the loop |
| Windows.ArgMax | utils/window.py:55-64 | the index and value of the first maximum; none exactly for an empty window |
| CalibTime.Pair | ring/utils/calib_time.py:30-34 | the host time is the midpoint of start and end, the latency is end minus start, and the zip stops at the shorter list |
| CalibTime.InsertSpec | ring/utils/calib_time.py:36 | inserting into a sorted list keeps it sorted and adds exactly the one element |
| CalibTime.SortSpec | ring/utils/calib_time.py:36 | sorting by latency yields an ascending permutation |
| CalibTime.KeepFastSpec | ring/utils/calib_time.py:37 | the filter keeps exactly the samples with latency below 0.010 |
| CalibTime.KeepFastPrefix | ring/utils/calib_time.py:36-37 | on a sorted list the filter keeps a prefix, and every sample after it is too slow |
| CalibTime.SolveSolves | ring/utils/calib_time.py:51-52 | the solution exists exactly when the matrix is invertible, and it solves the normal equations |
| CalibTime.SolveUnique | ring/utils/calib_time.py:51-52 | with an invertible matrix, any solution of the normal equations is the one computed |
| CalibTime.CramerSolves | ring/utils/calib_time.py:52 | Cramer's rule solves a 2x2 system with nonzero determinant |
| CalibTime.Unique | ring/utils/calib_time.py:52 | a 2x2 system with nonzero determinant has only one solution |
| CalibTime.StepOnLine | ring/utils/calib_time.py:51-52 | adding a point on a line keeps that line a solution of the normal equations |
| CalibTime.MomentsOnLine | ring/utils/calib_time.py:51-52 | when all points lie on a line, that line solves the normal equations |
| CalibTime.FitRecoversLine | ring/utils/calib_time.py:51-52 | points exactly on a line, with an invertible matrix, are fitted by that line |
| CalibTime.OneSampleSingular | ring/utils/calib_time.py:51-52 | a single sample gives a singular matrix, so no fit |
| CalibTime.SelectedSpec | ring/utils/calib_time.py:34-37 | the selection is the samples under the latency bound, in ascending latency |
| CalibTime.Calibrate | ring/utils/calib_time.py:30-52 | specification of the selection and the fit, `None` where the script raises (properties in `CalibrateSpec`) |
| CalibTime.CalibrateSpec | ring/utils/calib_time.py:30-52 | the used samples are exactly the fast ones, sorted, with a warning exactly below 20 and a line solving their normal equations; it fails exactly on lists of different lengths, an empty selection or a singular matrix |

## Left out

- The checksum is CRC-16/MODBUS (initial value 0xFFFF), as the drivers compute it, not CRC-16/ARC.
- Sockets, subprocesses, BLE and asyncio: `kill`, `launch`, socket accept and receive, `BleakClient` calls, GATT writes, sleeps, `scan_rings`, `get_battery`. Only the byte handling of `connect` is modelled.
- Threads: `tap_func` is one loop pass per call (`TapFuncTick`). The concurrent interleaving of the tap thread with `notify_callback` is not modelled.
- Floating point: IMU values are exact reals, not IEEE doubles. The legacy frames' `struct.unpack("f")` fields are kept as raw bytes (`Events.ImuFrame`), not decoded as floats.
- The ZHW sub-records keep their raw 32-bit field values; the `/1e3` and `/1e6*16384` scalings are not applied.
- Clock readings: each call takes one wall-clock and one `perf_counter` reading. The source reads the clock again per record (`time.perf_counter()` in the build loop of `ring/ble_ring_v2.py`), twice in `_detect_double_tap_with_tap`, and again for `last_hold_time`. The model uses one value for all of these.
- `float(args[3])` in the `ACC` branch is a parameter (`FloatParse`). Non-ASCII whitespace in `strip` is not modelled.
- The `notify_callback` of `ring/qt/ble_ring_v1_serial.py` reads fields the class never defines, so it cannot run as written. It is not part of this model.
- Print-only branches: version and light-result messages, the gsensor state, the battery level of the V2 drivers and the relay's address printout.
- `ring/utils/calib_time.py`'s device calls (`ring.calib_time()`, `ring.ring_timestamps`), the progress bar and the JSON file write are I/O. The model starts from the three timestamp lists.
- CalibTime.Pair: numpy broadcasting of a length-1 list against a longer one is treated as a failure, like other length mismatches.
- CalibTime.SortSpec: states ascending order and permutation, not the stability of Python's `sorted`.
- `Window.feature`, `to_numpy` and `to_numpy_inside` (numpy statistics) are not modelled, nor the `assigned_by` branch of `set_to_last_value`.
- Windows.Window.Count: `f` returns a bool, so the `== True` comparison of the source is the predicate itself.
- Windows.ArgMax: modelled for windows of reals; the source returns 0, not a pair, for an empty window, which the model reports as `None`.
- `Window.sum` is modelled for real-valued functions only.
- Windows.Window.constructor, Windows.Window.Push, Windows.Window.Clear: the window holds its list as a value. The source keeps the caller's list object (`utils/window.py:12`) and changes it in place with `append`, `pop(0)` and `clear()`, so a caller holding that list sees those changes; this aliasing is not modelled.
- BleV2.BleV2Ring.GetImuData: returns the list by value; the source returns the live list, so later changes through it are not modelled.
- Callbacks are assumed registered. The `is not None` checks that skip a report are not modelled.

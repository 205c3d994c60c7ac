/** Frame synchronisation of the legacy IMU stream: 36-byte frames that start
    with the marker 0xAA 0x55 and carry the checksum of bytes [4:] in bytes 2
    (low) and 3 (high).

    Two resynchronisation policies exist. The relay rings
    (`ring/qt/ble_ring_v1.py`, `ring/qt/ble_ring_v1_serial.py`) search the
    marker before every frame and drop ONE byte after a checksum failure; the
    BLE ring (`ring/ble_ring_v1.py`) searches once per chunk and drops a whole
    frame and stops after a failure. The functions here are the
    specifications; the stateful `spp_notify_callback` methods that implement
    them live with their ring classes.

    Both policies are stated for any frame check `check` and applied to
    `ChecksumOk`, the check the rings perform: what the policies guarantee
    does not depend on how a frame is checked. */
module LegacySync {
  import opened Bytes
  import opened Crc

  const FrameLength: nat := 36

  /** Indices `i`, `i + 1` of `buf` hold 0xAA 0x55. */
  predicate MarkerAt(buf: seq<Byte>, i: int) {
    0 <= i && i + 1 < |buf| && buf[i] == 0xAA && buf[i + 1] == 0x55
  }

  predicate HasMarker(buf: seq<Byte>) {
    exists i :: 0 <= i < |buf| && MarkerAt(buf, i)
  }

  /** The check the rings apply to a candidate frame: its bytes 2 and 3
      equal the low and high byte of `crc16(frame, offset=4)`. */
  predicate ChecksumOk(frame: seq<Byte>) {
    |frame| >= 4 && frame[2] == CrcLow(Crc16(frame, 4)) && frame[3] == CrcHigh(Crc16(frame, 4))
  }

  /** A frame that passes `ChecksumOk` fails it once any one byte from the
      checksum on is changed: in the checksum itself (bytes 2 and 3) or in
      the covered payload (byte 4 on). */
  lemma ChecksumDetectsByteChange(frame: seq<Byte>, i: nat, v: Byte)
    requires ChecksumOk(frame) && 2 <= i < |frame| && v != frame[i]
    ensures !ChecksumOk(frame[i := v])
  {
    var g := frame[i := v];
    if i < 4 {
      CrcIgnoresPrefix(frame, g, 4);
    } else {
      Crc16DetectsChange(frame, 4, i, v);
    }
  }

  type FrameCheck = seq<Byte> -> bool

  /** A frame that passes `check` starts at index `k` of `buf`. */
  predicate FrameOkAt(check: FrameCheck, buf: seq<Byte>, k: int) {
    0 <= k && k + FrameLength <= |buf| && check(buf[k..k + FrameLength])
  }

  /** A frame the synchroniser may emit. */
  predicate ValidFrame(check: FrameCheck, frame: seq<Byte>) {
    |frame| == FrameLength && check(frame)
  }

  /** The first marker at or after `from`: what the scan over
      `range(len(buf) - 1)` stops at. */
  function FirstMarker(buf: seq<Byte>, from: nat): (k: Option<nat>)
    decreases |buf| - from
    ensures k.Some? ==> from <= k.value && MarkerAt(buf, k.value)
    ensures k.Some? ==> forall j :: from <= j < k.value ==> !MarkerAt(buf, j)
    ensures k.None? ==> forall j :: from <= j ==> !MarkerAt(buf, j)
  {
    if from + 1 >= |buf| then None
    else if MarkerAt(buf, from) then Some(from)
    else FirstMarker(buf, from + 1)
  }

  /** The marker search: the buffer from its first marker on, or the whole
      buffer when it holds no marker. */
  function TrimToMarker(buf: seq<Byte>): (t: seq<Byte>)
    ensures |t| <= |buf| && t == buf[|buf| - |t|..]
  {
    match FirstMarker(buf, 0)
    case Some(i) => buf[i..]
    case None => buf
  }

  /** The trimmed buffer starts at the first marker and nothing before it is
      a marker; without a marker nothing is trimmed. */
  lemma TrimToMarkerSpec(buf: seq<Byte>)
    ensures HasMarker(buf) ==> MarkerAt(TrimToMarker(buf), 0)
    ensures HasMarker(buf) ==> forall j :: 0 <= j < |buf| - |TrimToMarker(buf)| ==> !MarkerAt(buf, j)
    ensures !HasMarker(buf) ==> TrimToMarker(buf) == buf
  {
    match FirstMarker(buf, 0)
    case Some(i) =>
      assert buf[i..][0] == buf[i] && buf[i..][1] == buf[i + 1];
    case None =>
  }

  /** The scan stops at the first marker it meets and trims the buffer there. */
  lemma TrimFound(buf: seq<Byte>, i: nat)
    requires MarkerAt(buf, i)
    requires forall j :: 0 <= j < i ==> !MarkerAt(buf, j)
    ensures TrimToMarker(buf) == buf[i..]
  {
  }

  /** A scan that meets no marker leaves the buffer as it is. */
  lemma TrimNotFound(buf: seq<Byte>)
    requires forall j :: 0 <= j < |buf| - 1 ==> !MarkerAt(buf, j)
    ensures TrimToMarker(buf) == buf
  {
  }

  /** The `for i in range(len(buf) - 1)` marker search both legacy loops
      run: the buffer is cut at the first 0xAA 0x55, or kept whole without
      one. */
  method ScanForMarker(buf: seq<Byte>) returns (t: seq<Byte>)
    ensures t == TrimToMarker(buf)
  {
    var i := 0;
    while i < |buf| - 1
      invariant 0 <= i
      invariant forall j :: 0 <= j < i ==> !MarkerAt(buf, j)
    {
      if buf[i] == 0xAA && buf[i + 1] == 0x55 {
        TrimFound(buf, i);
        return buf[i..];
      }
      i := i + 1;
    }
    TrimNotFound(buf);
    t := buf;
  }

  /** The `try: assert ...` checksum test of a 36-byte frame. */
  method CheckFrame(frame: seq<Byte>) returns (ok: bool)
    requires |frame| == FrameLength
    ensures ok == ChecksumOk(frame)
  {
    var crc := ComputeCrc16(frame, 4);
    ok := CrcLow(crc) == frame[2] && CrcHigh(crc) == frame[3];
  }

  datatype SyncResult = SyncResult(frames: seq<seq<Byte>>, rest: seq<Byte>)

  function Prepend(frame: seq<Byte>, r: SyncResult): SyncResult {
    SyncResult([frame] + r.frames, r.rest)
  }

  /** The relay rings' loop: while more than 36 bytes are buffered, trim to
      the marker; stop when fewer than 36 remain; on a checksum failure drop
      one byte, otherwise emit the frame and consume 36 bytes. */
  function ResyncDropOne(check: FrameCheck, buf: seq<Byte>): (r: SyncResult)
    decreases |buf|
  {
    if |buf| <= FrameLength then SyncResult([], buf)
    else
      var t := TrimToMarker(buf);
      if |t| < FrameLength then SyncResult([], t)
      else if !check(t[..FrameLength]) then ResyncDropOne(check, t[1..])
      else Prepend(t[..FrameLength], ResyncDropOne(check, t[FrameLength..]))
  }

  /** The BLE ring's loop after its single marker search: while more than
      36 bytes are buffered, emit and consume a valid frame; on a checksum
      failure consume the 36 bytes and stop. */
  function ResyncBlocks(check: FrameCheck, buf: seq<Byte>): (r: SyncResult)
    decreases |buf|
  {
    if |buf| <= FrameLength then SyncResult([], buf)
    else if !check(buf[..FrameLength]) then SyncResult([], buf[FrameLength..])
    else Prepend(buf[..FrameLength], ResyncBlocks(check, buf[FrameLength..]))
  }

  /** Everything the relay rings emit is a 36-byte frame that passes the
      checksum. */
  lemma {:induction false} DropOneFramesValid(check: FrameCheck, buf: seq<Byte>)
    ensures forall f :: f in ResyncDropOne(check, buf).frames ==> ValidFrame(check, f)
    decreases |buf|
  {
    if |buf| > FrameLength {
      var t := TrimToMarker(buf);
      if |t| < FrameLength {
        assert ResyncDropOne(check, buf).frames == [];
      } else if check(t[..FrameLength]) {
        DropOneOnFrame(check, buf);
        DropOneFramesValid(check, t[FrameLength..]);
        var r := ResyncDropOne(check, t[FrameLength..]);
        assert ResyncDropOne(check, buf).frames == [t[..FrameLength]] + r.frames;
        assert forall f :: f in ResyncDropOne(check, buf).frames ==> ValidFrame(check, f);
      } else {
        DropOneOnFailure(check, buf);
        DropOneFramesValid(check, t[1..]);
        assert forall f :: f in ResyncDropOne(check, buf).frames ==> ValidFrame(check, f);
      }
    }
  }

  /** `rest` is what remains of `buf` once a prefix is consumed. */
  predicate IsTail(rest: seq<Byte>, buf: seq<Byte>) {
    |rest| <= |buf| && rest == buf[|buf| - |rest|..]
  }

  /** What the relay rings keep buffered is a tail of the input of at most
      36 bytes: the loop ends only when no complete frame can be taken. */
  lemma {:induction false} DropOneKeepsTail(check: FrameCheck, buf: seq<Byte>)
    ensures var rest := ResyncDropOne(check, buf).rest;
      |rest| <= FrameLength && |rest| <= |buf| && rest == buf[|buf| - |rest|..]
    decreases |buf|
  {
    if |buf| <= FrameLength {
      ShortBufferWaits(check, buf);
      assert buf[|buf| - |buf|..] == buf;
    } else if |TrimToMarker(buf)| < FrameLength {
      assert ResyncDropOne(check, buf) == SyncResult([], TrimToMarker(buf));
    } else {
      var next := DropOneNext(check, buf);
      DropOneKeepsTail(check, next);
      TailOfTail(ResyncDropOne(check, next).rest, next, buf);
    }
  }

  /** One pass of the relay loop that does not stop leaves a shorter tail
      of the buffer to go on with. */
  lemma DropOneNext(check: FrameCheck, buf: seq<Byte>) returns (next: seq<Byte>)
    requires |buf| > FrameLength && |TrimToMarker(buf)| >= FrameLength
    ensures |next| < |buf| && IsTail(next, buf)
    ensures ResyncDropOne(check, buf).rest == ResyncDropOne(check, next).rest
  {
    var t := TrimToMarker(buf);
    if check(t[..FrameLength]) {
      DropOneOnFrame(check, buf);
      next := t[FrameLength..];
    } else {
      DropOneOnFailure(check, buf);
      next := t[1..];
    }
    TailOfTail(next, t, buf);
  }

  /** A tail of a tail of a buffer is a tail of the buffer. */
  lemma TailOfTail(rest: seq<Byte>, next: seq<Byte>, buf: seq<Byte>)
    requires IsTail(rest, next) && IsTail(next, buf)
    ensures IsTail(rest, buf)
  {
  }

  /** One step of the relay loop after a checksum failure: one byte of the
      trimmed buffer is dropped. */
  lemma DropOneOnFailure(check: FrameCheck, buf: seq<Byte>)
    requires |buf| > FrameLength && |TrimToMarker(buf)| >= FrameLength
    requires !check(TrimToMarker(buf)[..FrameLength])
    ensures ResyncDropOne(check, buf) == ResyncDropOne(check, TrimToMarker(buf)[1..])
  {
  }

  /** One step of the relay loop on a valid frame: it is emitted and 36
      bytes are consumed. */
  lemma DropOneOnFrame(check: FrameCheck, buf: seq<Byte>)
    requires |buf| > FrameLength && |TrimToMarker(buf)| >= FrameLength
    requires check(TrimToMarker(buf)[..FrameLength])
    ensures ResyncDropOne(check, buf)
      == Prepend(TrimToMarker(buf)[..FrameLength], ResyncDropOne(check, TrimToMarker(buf)[FrameLength..]))
  {
  }

  /** A buffer of at most 36 bytes is never examined, even when it is a
      complete valid frame: it waits for more input. */
  lemma ShortBufferWaits(check: FrameCheck, buf: seq<Byte>)
    requires |buf| <= FrameLength
    ensures ResyncDropOne(check, buf) == SyncResult([], buf)
    ensures ResyncBlocks(check, buf) == SyncResult([], buf)
  {
  }

  /** With no marker in the buffer nothing is trimmed and the first 36 bytes
      are still checked: a valid one is emitted first, an invalid one costs
      exactly one byte. */
  lemma NoMarkerStillChecked(check: FrameCheck, buf: seq<Byte>)
    requires |buf| > FrameLength && !HasMarker(buf)
    ensures check(buf[..FrameLength]) ==>
      ResyncDropOne(check, buf).frames != [] && ResyncDropOne(check, buf).frames[0] == buf[..FrameLength]
    ensures !check(buf[..FrameLength]) ==> ResyncDropOne(check, buf) == ResyncDropOne(check, buf[1..])
  {
  }

  /** The marker search on a buffer with a marker at `m` stops at a marker
      `p` no later than `m`. */
  lemma TrimBeforeMarker(s: seq<Byte>, m: nat) returns (p: nat)
    requires MarkerAt(s, m)
    ensures p <= m && MarkerAt(s, p) && TrimToMarker(s) == s[p..]
  {
    assert HasMarker(s);
    TrimToMarkerSpec(s);
    p := |s| - |TrimToMarker(s)|;
  }

  /** Markers of `s` from `d` to `m` that open failing frames, seen from the
      suffix `next` that starts at `d`. */
  lemma ShiftFailingMarkers(check: FrameCheck, s: seq<Byte>, d: nat, m: nat, next: seq<Byte>)
    requires d <= m <= |s| && next == s[d..]
    requires forall k :: d <= k < m && MarkerAt(s, k) ==> !FrameOkAt(check, s, k)
    ensures forall k :: 0 <= k < m - d && MarkerAt(next, k) ==> !FrameOkAt(check, next, k)
  {
    forall k | 0 <= k < m - d && MarkerAt(next, k) ensures !FrameOkAt(check, next, k) {
      assert MarkerAt(s, d + k);
      if d + k + FrameLength <= |s| {
        assert next[k..k + FrameLength] == s[d + k..d + k + FrameLength];
      }
    }
  }

  /** Dropping a prefix of a buffer that is still inside its garbage. */
  lemma DropIntoGarbage(garbage: seq<Byte>, frame: seq<Byte>, after: seq<Byte>, d: nat)
    requires d <= |garbage|
    ensures (garbage + frame + after)[d..] == garbage[d..] + frame + after
  {
  }

  /** The induction behind `ResyncReachesFrame`, on a buffer split into
      `garbage`, a valid marked `frame` and what comes `after` it: the
      marker search skips every false marker in the garbage one byte at a
      time and lands on the frame. */
  lemma {:induction false} ReachesFrame(check: FrameCheck, s: seq<Byte>, garbage: seq<Byte>, frame: seq<Byte>, after: seq<Byte>)
    requires s == garbage + frame + after && FrameLength < |s|
    requires ValidFrame(check, frame) && MarkerAt(frame, 0)
    requires forall k :: 0 <= k < |garbage| && MarkerAt(s, k) ==> !FrameOkAt(check, s, k)
    ensures ResyncDropOne(check, s) == Prepend(frame, ResyncDropOne(check, after))
    decreases |garbage|
  {
    var m := |garbage|;
    assert s[m..m + FrameLength] == frame && s[m + FrameLength..] == after;
    assert MarkerAt(s, m);
    var p := TrimBeforeMarker(s, m);
    var t := TrimToMarker(s);
    assert t[..FrameLength] == s[p..p + FrameLength];
    if p < m {
      DropOneOnFailure(check, s);
      var next := t[1..];
      assert next == s[p + 1..];
      assert p + 1 < m;
      var rest := garbage[p + 1..];
      DropIntoGarbage(garbage, frame, after, p + 1);
      ShiftFailingMarkers(check, s, p + 1, m, next);
      ReachesFrame(check, next, rest, frame, after);
    } else {
      DropOneOnFrame(check, s);
      assert t[FrameLength..] == after;
    }
  }

  /** Resynchronisation never loses a valid frame behind false markers: if a
      valid marked frame starts at `m` and every marker between the current
      start `j` and `m` opens a frame that fails the checksum, then the loop
      on `buf[j..]` emits the frame at `m` first and goes on after it. The
      loop runs at all when more than 36 bytes are buffered, so the frame
      may end the buffer if at least one byte precedes it. A garbage prefix
      without markers is the special case with none. */
  lemma ResyncReachesFrame(check: FrameCheck, buf: seq<Byte>, j: nat, m: nat)
    requires j <= m && MarkerAt(buf, m) && m + FrameLength <= |buf| && FrameLength < |buf| - j
    requires FrameOkAt(check, buf, m)
    requires forall k :: j <= k < m && MarkerAt(buf, k) ==> !FrameOkAt(check, buf, k)
    ensures ResyncDropOne(check, buf[j..])
      == Prepend(buf[m..m + FrameLength], ResyncDropOne(check, buf[m + FrameLength..]))
  {
    var s := buf[j..];
    var frame := buf[m..m + FrameLength];
    var after := buf[m + FrameLength..];
    assert s == buf[j..m] + frame + after;
    assert frame[0] == buf[m] && frame[1] == buf[m + 1];
    ShiftFailingMarkers(check, buf, j, m, s);
    ReachesFrame(check, s, buf[j..m], frame, after);
  }

  /** Garbage followed by exactly one valid frame that ends the buffer: the
      relay loop emits that frame and nothing else, and keeps no bytes. */
  lemma OneFrameAfterGarbage(check: FrameCheck, buf: seq<Byte>, m: nat)
    requires 0 < m && m + FrameLength == |buf| && MarkerAt(buf, m)
    requires FrameOkAt(check, buf, m)
    requires forall k :: 0 <= k < m && MarkerAt(buf, k) ==> !FrameOkAt(check, buf, k)
    ensures ResyncDropOne(check, buf) == SyncResult([buf[m..]], [])
  {
    var frame := buf[m..];
    assert buf == buf[..m] + frame + [];
    assert frame[0] == buf[m] && frame[1] == buf[m + 1];
    assert frame == buf[m..m + FrameLength];
    ShortBufferWaits(check, []);
    ReachesFrame(check, buf, buf[..m], frame, []);
  }

  /** One step of the BLE ring's loop on a valid block: it is emitted and 36
      bytes are consumed. */
  lemma BlocksOnFrame(check: FrameCheck, buf: seq<Byte>)
    requires |buf| > FrameLength && check(buf[..FrameLength])
    ensures ResyncBlocks(check, buf) == Prepend(buf[..FrameLength], ResyncBlocks(check, buf[FrameLength..]))
  {
  }

  /** The BLE ring emits consecutive 36-byte blocks of the trimmed buffer,
      each of them valid. */
  lemma {:induction false} BlocksAligned(check: FrameCheck, buf: seq<Byte>)
    ensures 36 * |ResyncBlocks(check, buf).frames| <= |buf|
    ensures forall i :: 0 <= i < |ResyncBlocks(check, buf).frames| ==>
      && ValidFrame(check, ResyncBlocks(check, buf).frames[i])
      && ResyncBlocks(check, buf).frames[i] == buf[36 * i..36 * i + 36]
    decreases |buf|
  {
    if |buf| > FrameLength && check(buf[..FrameLength]) {
      var tail := buf[FrameLength..];
      BlocksOnFrame(check, buf);
      BlocksAligned(check, tail);
      var fs := ResyncBlocks(check, buf).frames;
      var ft := ResyncBlocks(check, tail).frames;
      assert fs == [buf[..FrameLength]] + ft;
      forall i | 0 <= i < |fs|
        ensures ValidFrame(check, fs[i]) && fs[i] == buf[36 * i..36 * i + 36]
      {
        if i > 0 {
          assert fs[i] == ft[i - 1];
          assert tail[36 * (i - 1)..36 * (i - 1) + 36] == buf[36 * i..36 * i + 36];
        }
      }
      assert 36 * |fs| <= |buf|;
    } else {
      assert ResyncBlocks(check, buf).frames == [];
    }
  }

  /** What the BLE ring keeps after `n` bytes of valid blocks: the
      unexamined tail of at most 36 bytes, or, after the block at `n` failed
      the check, everything behind that discarded block. */
  predicate StopsAfter(check: FrameCheck, buf: seq<Byte>, n: int, rest: seq<Byte>) {
    0 <= n <= |buf| &&
    if |buf| - n > FrameLength then
      && !check(buf[n..n + FrameLength])
      && rest == buf[n + FrameLength..]
    else rest == buf[n..]
  }

  /** Stopping after `n` bytes of `buf[36..]` is stopping after `36 + n`
      bytes of `buf`. */
  lemma StopsAfterShift(check: FrameCheck, buf: seq<Byte>, n: int, rest: seq<Byte>)
    requires |buf| >= FrameLength && StopsAfter(check, buf[FrameLength..], n, rest)
    ensures StopsAfter(check, buf, FrameLength + n, rest)
  {
    var tail := buf[FrameLength..];
    assert buf[FrameLength + n..] == tail[n..];
    if |tail| - n > FrameLength {
      assert buf[FrameLength + n..FrameLength + n + FrameLength] == tail[n..n + FrameLength];
    }
  }

  /** The BLE ring stops right after its valid blocks, as `StopsAfter`
      describes. */
  lemma {:induction false} BlocksStop(check: FrameCheck, buf: seq<Byte>)
    ensures StopsAfter(check, buf, 36 * |ResyncBlocks(check, buf).frames|, ResyncBlocks(check, buf).rest)
    decreases |buf|
  {
    if |buf| > FrameLength && check(buf[..FrameLength]) {
      var tail := buf[FrameLength..];
      BlocksOnFrame(check, buf);
      BlocksStop(check, tail);
      StopsAfterShift(check, buf, 36 * |ResyncBlocks(check, tail).frames|, ResyncBlocks(check, tail).rest);
      assert 36 * |ResyncBlocks(check, buf).frames| == FrameLength + 36 * |ResyncBlocks(check, tail).frames|;
    } else if |buf| > FrameLength {
      assert ResyncBlocks(check, buf) == SyncResult([], buf[FrameLength..]);
      assert StopsAfter(check, buf, 0, buf[FrameLength..]);
    } else {
      assert ResyncBlocks(check, buf) == SyncResult([], buf);
      assert StopsAfter(check, buf, 0, buf);
    }
  }
}

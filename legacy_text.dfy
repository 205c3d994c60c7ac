/** The SPP channel of `ring/ble_ring_v1.py`. Until the ring acknowledges
    the IMU switch it sends text lines (`ACK...` acknowledgements and an
    `ACC...` line with the sensor configuration); after `ACK:ENDB6AX` it
    streams 36-byte IMU frames, which are resynchronised block by block. */
module LegacyText {
  import opened Bytes
  import opened Crc
  import opened Events
  import opened LegacySync
  import opened Text

  /** `float(s)` on a decoded text: its value, or `None` where Python raises
      `ValueError`. Python's float syntax is not part of this model, so the
      parser is a parameter. */
  type FloatParse = seq<Byte> -> Option<real>

  /** The ASCII texts the text mode compares against. */
  const AckPrefix: seq<Byte> := [0x41, 0x43, 0x4B]
  const AccPrefix: seq<Byte> := [0x41, 0x43, 0x43]
  /** "ACK:ENDB6AX". */
  const EnableText: seq<Byte> := [0x41, 0x43, 0x4B, 0x3A, 0x45, 0x4E, 0x44, 0x42, 0x36, 0x41, 0x58]

  /** The keys of `acc_dict` and `gyro_dict`: "0", "1", "2" and "3". */
  predicate FsrCode(s: seq<Byte>) {
    s == [0x30] || s == [0x31] || s == [0x32] || s == [0x33]
  }

  /** The fields the text mode writes. */
  datatype Config = Config(imuMode: bool, accFsr: seq<Byte>, gyroFsr: seq<Byte>, imuFreq: real)

  /** A configuration after some lines, and whether a line raised. */
  datatype Step = Step(config: Config, faulted: bool)

  /** `list(map(lambda x: x.split(':')[1], fields))`: the text after the
      first ':' of every field, or `None` when some field has no ':'
      (`IndexError`). */
  function ColonValues(fields: seq<seq<Byte>>): (args: Option<seq<seq<Byte>>>)
    decreases |fields|
  {
    if fields == [] then Some([])
    else match SecondPiece(fields[0], Colon)
      case None => None
      case Some(v) =>
        match ColonValues(fields[1..])
        case None => None
        case Some(vs) => Some([v] + vs)
  }

  /** The values are exactly the second pieces of the fields, in order, and
      they exist exactly when every field has a ':'. */
  lemma {:induction false} ColonValuesSpec(fields: seq<seq<Byte>>)
    ensures ColonValues(fields).Some? <==> forall i :: 0 <= i < |fields| ==> SecondPiece(fields[i], Colon).Some?
    ensures ColonValues(fields).Some? ==>
      |ColonValues(fields).value| == |fields| &&
      forall i :: 0 <= i < |fields| ==> ColonValues(fields).value[i] == SecondPiece(fields[i], Colon).value
    decreases |fields|
  {
    if fields != [] {
      ColonValuesSpec(fields[1..]);
      if SecondPiece(fields[0], Colon).Some? && ColonValues(fields[1..]).Some? {
        var vs := ColonValues(fields[1..]).value;
        var args := [SecondPiece(fields[0], Colon).value] + vs;
        assert ColonValues(fields) == Some(args);
        forall i | 0 <= i < |fields|
          ensures args[i] == SecondPiece(fields[i], Colon).value
        {
          if i > 0 {
            assert args[i] == vs[i - 1];
            assert fields[i] == fields[1..][i - 1];
          }
        }
      } else if SecondPiece(fields[0], Colon).Some? {
        var k :| 0 <= k < |fields[1..]| && SecondPiece(fields[1..][k], Colon).None?;
        assert SecondPiece(fields[k + 1], Colon).None?;
      } else {
        assert SecondPiece(fields[0], Colon).None?;
      }
    }
  }

  /** The `ACC` branch: the values are computed first; then `acc_fsr`,
      `gyro_fsr` and `imu_freq` are assigned one by one, each assignment
      kept even when a later index, the float conversion or the dictionary
      lookups of the message raise. */
  function AccLine(c: Config, line: seq<Byte>, parse: FloatParse): Step {
    var fields := Split(line, Comma);
    match ColonValues(fields)
    case None => Step(c, true)
    case Some(args) =>
      if args == [] then Step(c, true)
      else
        var c1 := c.(accFsr := args[0]);
        if |args| < 2 then Step(c1, true)
        else
          var c2 := c1.(gyroFsr := args[1]);
          if |args| < 4 then Step(c2, true)
          else match parse(args[3])
            case None => Step(c2, true)
            case Some(freq) =>
              Step(c2.(imuFreq := freq), !(FsrCode(args[0]) && FsrCode(args[1])))
  }

  /** One line of the text mode: an acknowledgement (only `ACK:ENDB6AX`
      switches to IMU mode), the configuration line, or a line that is only
      printed. */
  function ApplyLine(c: Config, line: seq<Byte>, parse: FloatParse): Step {
    if StartsWith(line, AckPrefix) then
      Step(if line == EnableText then c.(imuMode := true) else c, false)
    else if StartsWith(line, AccPrefix) then AccLine(c, line, parse)
    else Step(c, false)
  }

  /** The lines in order; an exception leaves the remaining lines
      unprocessed. */
  function ApplyLines(c: Config, lines: seq<seq<Byte>>, parse: FloatParse): Step
    decreases |lines|
  {
    if lines == [] then Step(c, false)
    else
      var s := ApplyLine(c, lines[0], parse);
      if s.faulted then s else ApplyLines(s.config, lines[1..], parse)
  }

  /** The text-mode branch of `spp_notify_callback`: decode (a decoding
      error raises before anything changes), strip, split at "\r\n". */
  function TextNotify(c: Config, data: seq<Byte>, parse: FloatParse): Step {
    if !ValidUtf8(data) then Step(c, true)
    else ApplyLines(c, Split(Strip(data), CrLf), parse)
  }

  /** Whether a line raises does not depend on the configuration it
      meets. */
  predicate LineFaults(line: seq<Byte>, parse: FloatParse) {
    !StartsWith(line, AckPrefix) && StartsWith(line, AccPrefix) &&
    match ColonValues(Split(line, Comma))
    case None => true
    case Some(args) =>
      |args| < 4 || parse(args[3]).None? || !(FsrCode(args[0]) && FsrCode(args[1]))
  }

  /** One line: it raises exactly as `LineFaults` says; it switches IMU mode
      on exactly when it is `ACK:ENDB6AX` and never switches it off; only an
      `ACC` line touches the sensor configuration. */
  lemma LineEffect(c: Config, line: seq<Byte>, parse: FloatParse)
    ensures ApplyLine(c, line, parse).faulted == LineFaults(line, parse)
    ensures ApplyLine(c, line, parse).config.imuMode == (c.imuMode || line == EnableText)
    ensures !StartsWith(line, AccPrefix) || StartsWith(line, AckPrefix) ==>
      ApplyLine(c, line, parse).config == (if line == EnableText then c.(imuMode := true) else c)
  {
    assert StartsWith(EnableText, AckPrefix);
    if !StartsWith(line, AckPrefix) && StartsWith(line, AccPrefix) {
      assert |Split(line, Comma)| >= 1;
      ColonValuesSpec(Split(line, Comma));
    }
  }

  /** An `ACC` line whose comma fields all carry a ':' sets `acc_fsr` and
      `gyro_fsr` to the texts after the ':' of its first and second
      fields, whatever happens afterwards; IMU mode is left alone. */
  lemma AccSetsRanges(c: Config, line: seq<Byte>, parse: FloatParse)
    requires StartsWith(line, AccPrefix)
    requires forall i :: 0 <= i < |Split(line, Comma)| ==> SecondPiece(Split(line, Comma)[i], Colon).Some?
    requires |Split(line, Comma)| >= 2
    ensures ApplyLine(c, line, parse).config.accFsr == SecondPiece(Split(line, Comma)[0], Colon).value
    ensures ApplyLine(c, line, parse).config.gyroFsr == SecondPiece(Split(line, Comma)[1], Colon).value
    ensures ApplyLine(c, line, parse).config.imuMode == c.imuMode
  {
    assert !StartsWith(line, AckPrefix) by {
      assert line[..3][2] == line[2];
    }
    ColonValuesSpec(Split(line, Comma));
  }

  /** A chunk of lines raises exactly when one of its lines does. */
  lemma {:induction false} LinesFault(c: Config, lines: seq<seq<Byte>>, parse: FloatParse)
    ensures ApplyLines(c, lines, parse).faulted <==> exists j :: 0 <= j < |lines| && LineFaults(lines[j], parse)
    decreases |lines|
  {
    if lines != [] {
      LineEffect(c, lines[0], parse);
      var s := ApplyLine(c, lines[0], parse);
      if !s.faulted {
        LinesFault(s.config, lines[1..], parse);
        if exists j :: 0 <= j < |lines[1..]| && LineFaults(lines[1..][j], parse) {
          var j :| 0 <= j < |lines[1..]| && LineFaults(lines[1..][j], parse);
          assert LineFaults(lines[j + 1], parse);
        }
        if exists j :: 0 <= j < |lines| && LineFaults(lines[j], parse) {
          var j :| 0 <= j < |lines| && LineFaults(lines[j], parse);
          assert j > 0;
          assert lines[1..][j - 1] == lines[j];
        }
      }
    }
  }

  /** No line before index `i` raises. */
  predicate CleanBefore(lines: seq<seq<Byte>>, i: int, parse: FloatParse) {
    forall j :: 0 <= j < i && j < |lines| ==> !LineFaults(lines[j], parse)
  }

  /** An `ACK:ENDB6AX` line is reached before any line that raises. */
  predicate EnableReached(lines: seq<seq<Byte>>, parse: FloatParse) {
    exists i :: 0 <= i < |lines| && lines[i] == EnableText && CleanBefore(lines, i, parse)
  }

  /** Reaching the enable line in `lines[1..]` behind a first line that
      does not raise is reaching it in `lines`. */
  lemma EnableReachedTail(lines: seq<seq<Byte>>, parse: FloatParse)
    requires lines != [] && !LineFaults(lines[0], parse)
    ensures EnableReached(lines, parse) <==> lines[0] == EnableText || EnableReached(lines[1..], parse)
  {
    var tail := lines[1..];
    if EnableReached(tail, parse) {
      var i :| 0 <= i < |tail| && tail[i] == EnableText && CleanBefore(tail, i, parse);
      assert lines[i + 1] == EnableText;
      forall j | 0 <= j < i + 1 && j < |lines| ensures !LineFaults(lines[j], parse) {
        if j > 0 {
          assert lines[j] == tail[j - 1];
        }
      }
      assert CleanBefore(lines, i + 1, parse);
    }
    if lines[0] == EnableText {
      assert CleanBefore(lines, 0, parse);
    }
    if EnableReached(lines, parse) && lines[0] != EnableText {
      var i :| 0 <= i < |lines| && lines[i] == EnableText && CleanBefore(lines, i, parse);
      assert tail[i - 1] == EnableText;
      forall j | 0 <= j < i - 1 && j < |tail| ensures !LineFaults(tail[j], parse) {
        assert tail[j] == lines[j + 1];
      }
      assert CleanBefore(tail, i - 1, parse);
    }
  }

  /** IMU mode ends up on exactly when it was on already or an
      `ACK:ENDB6AX` line is reached before any line that raises. */
  lemma {:induction false} LinesEnable(c: Config, lines: seq<seq<Byte>>, parse: FloatParse)
    ensures ApplyLines(c, lines, parse).config.imuMode <==> c.imuMode || EnableReached(lines, parse)
    decreases |lines|
  {
    if lines != [] {
      LineEffect(c, lines[0], parse);
      var s := ApplyLine(c, lines[0], parse);
      if s.faulted {
        assert lines[0] != EnableText;
        assert !EnableReached(lines, parse) by {
          forall i | 0 <= i < |lines| && lines[i] == EnableText
            ensures !CleanBefore(lines, i, parse)
          {
            assert 0 < i;
          }
        }
      } else {
        LinesEnable(s.config, lines[1..], parse);
        EnableReachedTail(lines, parse);
      }
    }
  }

  /** The IMU-mode branch: one marker search over the buffer and the new
      bytes, then block-by-block frames until one fails its checksum. */
  function ImuResult(raw: seq<Byte>, data: seq<Byte>): SyncResult {
    ResyncBlocks(ChecksumOk, TrimToMarker(raw + data))
  }

  /** One valid block: its frame moves from the pending frames to the
      emitted events. */
  lemma BlocksEventsStep(whole: SyncResult, raw: seq<Byte>, events: seq<Event>, stamp: real)
    requires |raw| > FrameLength && ChecksumOk(raw[..FrameLength])
    requires whole.rest == ResyncBlocks(ChecksumOk, raw).rest
    requires FrameEvents(whole.frames, stamp) == events + FrameEvents(ResyncBlocks(ChecksumOk, raw).frames, stamp)
    ensures whole.rest == ResyncBlocks(ChecksumOk, raw[FrameLength..]).rest
    ensures FrameEvents(whole.frames, stamp)
      == (events + [ImuFrame(raw[..FrameLength], stamp)]) + FrameEvents(ResyncBlocks(ChecksumOk, raw[FrameLength..]).frames, stamp)
  {
    var next := ResyncBlocks(ChecksumOk, raw[FrameLength..]);
    BlocksOnFrame(ChecksumOk, raw);
    FrameEventsFront(raw[..FrameLength], next.frames, stamp);
    AppendAssoc(events, [ImuFrame(raw[..FrameLength], stamp)], FrameEvents(next.frames, stamp));
  }

  /** The `time.time() * 16384` stamp of the frames of one chunk. */
  function FrameStamp(nowSec: real): real { nowSec * 16384.0 }

  /** `BLERing` of `ring/ble_ring_v1.py`, reduced to the SPP state. */
  class LegacyBleRing {
    var imuMode: bool
    /** `raw_imu_data`. */
    var raw: seq<Byte>
    var accFsr: seq<Byte>
    var gyroFsr: seq<Byte>
    var imuFreq: real

    constructor (imuFreq: real)
      ensures !imuMode && raw == [] && this.imuFreq == imuFreq
      ensures accFsr == [0x30] && gyroFsr == [0x30]
    {
      imuMode := false;
      raw := [];
      accFsr := [0x30];
      gyroFsr := [0x30];
      this.imuFreq := imuFreq;
    }

    function Settings(): Config
      reads this
    {
      Config(imuMode, accFsr, gyroFsr, imuFreq)
    }

    /** `spp_notify_callback(sender, data)` at time `nowSec`. In IMU mode
        the frames go to the IMU callback; in text mode nothing is
        emitted and the buffer is untouched. */
    method SppNotify(data: seq<Byte>, nowSec: real, parse: FloatParse) returns (reply: Reply)
      modifies this
      ensures old(imuMode) ==> Settings() == old(Settings())
      ensures old(imuMode) ==> raw == ImuResult(old(raw), data).rest
      ensures old(imuMode) ==> reply == Emit(FrameEvents(ImuResult(old(raw), data).frames, FrameStamp(nowSec)))
      ensures !old(imuMode) ==> raw == old(raw) && reply.events == []
      ensures !old(imuMode) ==> Step(Settings(), reply.faulted) == TextNotify(old(Settings()), data, parse)
    {
      if imuMode {
        var events := ImuNotify(data, FrameStamp(nowSec));
        reply := Emit(events);
      } else {
        if !ValidUtf8(data) {
          return Fault;
        }
        var faulted := ApplyTextLines(Split(Strip(data), CrLf), parse);
        reply := Reply([], faulted);
      }
    }

    /** The IMU-mode branch with the frame stamp `stamp`. */
    method ImuNotify(data: seq<Byte>, stamp: real) returns (events: seq<Event>)
      modifies this
      ensures Settings() == old(Settings())
      ensures raw == ImuResult(old(raw), data).rest
      ensures events == FrameEvents(ImuResult(old(raw), data).frames, stamp)
    {
      raw := ScanForMarker(raw + data);
      ghost var whole := ResyncBlocks(ChecksumOk, raw);
      events := [];
      while |raw| > FrameLength
        invariant Settings() == old(Settings())
        invariant whole.rest == ResyncBlocks(ChecksumOk, raw).rest
        invariant FrameEvents(whole.frames, stamp) == events + FrameEvents(ResyncBlocks(ChecksumOk, raw).frames, stamp)
        decreases |raw|
      {
        var frame := raw[..FrameLength];
        var ok := CheckFrame(frame);
        if !ok {
          assert ResyncBlocks(ChecksumOk, raw) == SyncResult([], raw[FrameLength..]);
          raw := raw[FrameLength..];
          assert events + [] == events;
          return;
        }
        BlocksEventsStep(whole, raw, events, stamp);
        events := events + [ImuFrame(frame, stamp)];
        raw := raw[FrameLength..];
      }
      ShortBufferWaits(ChecksumOk, raw);
      assert events + [] == events;
    }

    /** The text-mode loop over the lines of one decoded chunk; it stops
        at the first line that raises. */
    method ApplyTextLines(lines: seq<seq<Byte>>, parse: FloatParse) returns (faulted: bool)
      modifies this
      ensures raw == old(raw)
      ensures Step(Settings(), faulted) == ApplyLines(old(Settings()), lines, parse)
    {
      var i := 0;
      while i < |lines|
        invariant 0 <= i <= |lines| && raw == old(raw)
        invariant ApplyLines(old(Settings()), lines, parse) == ApplyLines(Settings(), lines[i..], parse)
        decreases |lines| - i
      {
        assert lines[i..][0] == lines[i] && lines[i..][1..] == lines[i + 1..];
        faulted := HandleLine(lines[i], parse);
        if faulted {
          return;
        }
        i := i + 1;
      }
      faulted := false;
    }

    /** One line: the `ACK` and `ACC` branches of the text mode. */
    method HandleLine(line: seq<Byte>, parse: FloatParse) returns (faulted: bool)
      modifies this
      ensures raw == old(raw)
      ensures Step(Settings(), faulted) == ApplyLine(old(Settings()), line, parse)
    {
      faulted := false;
      if StartsWith(line, AckPrefix) {
        if line == EnableText {
          imuMode := true;
        }
      } else if StartsWith(line, AccPrefix) {
        var args := ColonValuesOf(Split(line, Comma));
        if args.None? {
          return true;
        }
        var values := args.value;
        if |values| < 1 {
          return true;
        }
        accFsr := values[0];
        if |values| < 2 {
          return true;
        }
        gyroFsr := values[1];
        if |values| < 4 {
          return true;
        }
        var freq := parse(values[3]);
        if freq.None? {
          return true;
        }
        imuFreq := freq.value;
        faulted := !(FsrCode(values[0]) && FsrCode(values[1]));
      }
    }
  }

  /** The `map` over the comma fields, one field at a time. */
  method ColonValuesOf(fields: seq<seq<Byte>>) returns (args: Option<seq<seq<Byte>>>)
    ensures args == ColonValues(fields)
  {
    var values: seq<seq<Byte>> := [];
    var i := |fields|;
    while i > 0
      invariant 0 <= i <= |fields|
      invariant ColonValues(fields[i..]) == Some(values)
      decreases i
    {
      i := i - 1;
      assert fields[i..][0] == fields[i] && fields[i..][1..] == fields[i + 1..];
      var v := SecondPiece(fields[i], Colon);
      if v.None? {
        NoValueBefore(fields, i);
        return None;
      }
      values := [v.value] + values;
    }
    assert fields[0..] == fields;
    args := Some(values);
  }

  /** A field without ':' makes the whole `map` raise, whatever precedes
      it. */
  lemma {:induction false} NoValueBefore(fields: seq<seq<Byte>>, i: nat)
    requires i < |fields| && SecondPiece(fields[i], Colon).None?
    ensures ColonValues(fields).None?
    decreases i
  {
    if i > 0 {
      NoValueBefore(fields[1..], i - 1);
    }
  }
}

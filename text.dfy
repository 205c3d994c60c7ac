/** Text handling on the wire: Python `str` values that arrive as, or are
    sent as, UTF-8 bytes. Text is kept as its UTF-8 encoding, so comparisons
    with ASCII literals and splitting on ASCII separators are byte operations
    (an ASCII byte never occurs inside the encoding of another character). */
module Text {
  import opened Bytes

  /** A continuation byte 10xxxxxx. */
  predicate Cont(b: Byte) { 0x80 <= b <= 0xBF }

  /** Length of the well-formed UTF-8 sequence at the start of `s`, or 0 when
      `s` does not start with one (The Unicode Standard, section 3.9,
      Table 3-7: no overlong forms, no surrogates, nothing above U+10FFFF). */
  function SeqLen(s: seq<Byte>): (n: nat)
    requires |s| > 0
    ensures n <= 4 && n <= |s|
    ensures n > 0 && s[0] < 0x80 ==> n == 1
  {
    var b := s[0];
    if b < 0x80 then 1
    else if 0xC2 <= b <= 0xDF then
      if |s| >= 2 && Cont(s[1]) then 2 else 0
    else if 0xE0 <= b <= 0xEF then
      var lo: Byte := if b == 0xE0 then 0xA0 else 0x80;
      var hi: Byte := if b == 0xED then 0x9F else 0xBF;
      if |s| >= 3 && lo <= s[1] <= hi && Cont(s[2]) then 3 else 0
    else if 0xF0 <= b <= 0xF4 then
      var lo: Byte := if b == 0xF0 then 0x90 else 0x80;
      var hi: Byte := if b == 0xF4 then 0x8F else 0xBF;
      if |s| >= 4 && lo <= s[1] <= hi && Cont(s[2]) && Cont(s[3]) then 4 else 0
    else 0
  }

  /** `bytes.decode("utf-8")` succeeds. */
  predicate ValidUtf8(s: seq<Byte>)
    decreases |s|
  {
    s == [] || (SeqLen(s) > 0 && ValidUtf8(s[SeqLen(s)..]))
  }

  predicate IsAscii(s: seq<Byte>) {
    forall i :: 0 <= i < |s| ==> s[i] < 0x80
  }

  /** Every ASCII text is valid UTF-8. */
  lemma {:induction false} AsciiIsUtf8(s: seq<Byte>)
    requires IsAscii(s)
    ensures ValidUtf8(s)
    decreases |s|
  {
    if s != [] {
      assert SeqLen(s) == 1;
      AsciiIsUtf8(s[1..]);
    }
  }

  /** The ASCII characters `str.isspace` accepts: tab, line feed, vertical
      tab, form feed, carriage return, the four separators 0x1C..0x1F and
      space. */
  predicate IsSpace(b: Byte) {
    (9 <= b <= 13) || (0x1C <= b <= 0x20)
  }

  function StripLeft(s: seq<Byte>): (r: seq<Byte>)
    ensures |r| <= |s| && r == s[|s| - |r|..]
    ensures r != [] ==> !IsSpace(r[0])
    ensures forall i :: 0 <= i < |s| - |r| ==> IsSpace(s[i])
    decreases |s|
  {
    if s != [] && IsSpace(s[0]) then StripLeft(s[1..]) else s
  }

  function StripRight(s: seq<Byte>): (r: seq<Byte>)
    ensures |r| <= |s| && r == s[..|r|]
    ensures r != [] ==> !IsSpace(r[|r| - 1])
    ensures forall i :: |r| <= i < |s| ==> IsSpace(s[i])
    decreases |s|
  {
    if s != [] && IsSpace(s[|s| - 1]) then StripRight(s[..|s| - 1]) else s
  }

  /** `str.strip()` for the ASCII whitespace above. */
  function Strip(s: seq<Byte>): seq<Byte> {
    StripRight(StripLeft(s))
  }

  /** `s` starts with `p` (`str.startswith`). */
  predicate StartsWith(s: seq<Byte>, p: seq<Byte>) {
    |p| <= |s| && s[..|p|] == p
  }

  /** `sep` occurs in `s` at index `j`. */
  predicate OccursAt(s: seq<Byte>, sep: seq<Byte>, j: int) {
    0 <= j && j + |sep| <= |s| && s[j..j + |sep|] == sep
  }

  /** The first index at or after `from` where `sep` occurs in `s`. */
  function FindFrom(s: seq<Byte>, sep: seq<Byte>, from: nat): (k: Option<nat>)
    requires |sep| > 0
    ensures k.Some? ==> from <= k.value && OccursAt(s, sep, k.value)
    ensures k.Some? ==> forall j :: from <= j < k.value ==> !OccursAt(s, sep, j)
    ensures k.None? ==> forall j :: from <= j ==> !OccursAt(s, sep, j)
    decreases |s| - from
  {
    if from + |sep| > |s| then None
    else if s[from..from + |sep|] == sep then Some(from)
    else FindFrom(s, sep, from + 1)
  }

  /** `str.split(sep)`: the pieces between non-overlapping occurrences of
      `sep`, scanned from the left; an empty text gives one empty piece. */
  function Split(s: seq<Byte>, sep: seq<Byte>): (pieces: seq<seq<Byte>>)
    requires |sep| > 0
    ensures |pieces| >= 1
    decreases |s|
  {
    match FindFrom(s, sep, 0)
    case None => [s]
    case Some(k) => [s[..k]] + Split(s[k + |sep|..], sep)
  }

  /** `sep.join(pieces)`. */
  function Join(pieces: seq<seq<Byte>>, sep: seq<Byte>): seq<Byte>
    decreases |pieces|
  {
    if |pieces| == 0 then []
    else if |pieces| == 1 then pieces[0]
    else pieces[0] + sep + Join(pieces[1..], sep)
  }

  /** Joining the pieces with the separator gives back the text, and no
      piece contains the separator: `split` loses nothing and cuts at every
      occurrence. */
  lemma {:induction false} SplitJoin(s: seq<Byte>, sep: seq<Byte>)
    requires |sep| > 0
    ensures Join(Split(s, sep), sep) == s
    ensures forall i :: 0 <= i < |Split(s, sep)| ==> FindFrom(Split(s, sep)[i], sep, 0).None?
    decreases |s|
  {
    match FindFrom(s, sep, 0)
    case None =>
    case Some(k) =>
      var rest := s[k + |sep|..];
      SplitJoin(rest, sep);
      var tail := Split(rest, sep);
      assert Split(s, sep) == [s[..k]] + tail;
      assert Join(Split(s, sep), sep) == s[..k] + sep + Join(tail, sep);
      assert s == s[..k] + s[k..k + |sep|] + rest;
      var head := s[..k];
      forall j | 0 <= j
        ensures !OccursAt(head, sep, j)
      {
        if OccursAt(head, sep, j) {
          assert head[j..j + |sep|] == s[j..j + |sep|];
          assert OccursAt(s, sep, j);
        }
      }
      assert FindFrom(head, sep, 0).None?;
      forall i | 0 <= i < |Split(s, sep)|
        ensures FindFrom(Split(s, sep)[i], sep, 0).None?
      {
        if i > 0 {
          assert Split(s, sep)[i] == tail[i - 1];
        }
      }
  }

  /** A piece of `s` cut at the first `sep`, or `None` when there is no
      second piece: `s.split(sep)[1]`. */
  function SecondPiece(s: seq<Byte>, sep: seq<Byte>): Option<seq<Byte>>
    requires |sep| > 0
  {
    var p := Split(s, sep);
    if |p| >= 2 then Some(p[1]) else None
  }

  /** The UTF-8 encodings of the ASCII literals the rings compare against. */
  const CrLf: seq<Byte> := [13, 10]
  const Comma: seq<Byte> := [0x2C]
  const Colon: seq<Byte> := [0x3A]
}

/** `utils/window.py`: a bounded first-in-first-out window over a list,
    with Python's list indexing and slicing written out. */
module Windows {
  import opened Bytes

  /** Python's resolution of a slice bound `n` against a list of length
      `len`: a negative bound counts from the end, and either kind is
      clamped into `0..len`. */
  function SliceBound(n: int, len: nat): (b: nat)
    ensures b <= len
  {
    if n < 0 then (if len + n < 0 then 0 else len + n) else if n > len then len else n
  }

  /** `s[index]`, or `None` where Python raises `IndexError`. */
  function ItemAt<T>(s: seq<T>, index: int): Option<T> {
    if 0 <= index < |s| then Some(s[index])
    else if -|s| <= index < 0 then Some(s[|s| + index])
    else None
  }

  /** `window.append(data)` followed by one `pop(0)` when the list has
      grown past `window_length`. */
  function Pushed<T>(s: seq<T>, windowLength: int, x: T): seq<T> {
    var t := s + [x];
    if |t| > windowLength then t[1..] else t
  }

  /** A push keeps the newest `window_length` items: the new item comes
      last, the length never grows past the bound once within it, and
      the window is the old one plus the item, less at most the oldest. */
  lemma PushedSpec<T>(s: seq<T>, windowLength: int, x: T)
    ensures s != [] || windowLength >= 1 ==> ItemAt(Pushed(s, windowLength, x), -1) == Some(x)
    ensures |s| <= windowLength ==> |Pushed(s, windowLength, x)| <= windowLength
    ensures 0 <= |s| < windowLength ==> Pushed(s, windowLength, x) == s + [x]
    ensures s != [] && |s| >= windowLength ==> Pushed(s, windowLength, x) == s[1..] + [x]
    ensures s == [] && windowLength < 1 ==> Pushed(s, windowLength, x) == []
  {
    var t := s + [x];
    if s != [] && |s| >= windowLength {
      assert t[1..] == s[1..] + [x];
    }
  }

  /** Pushing into a window that already holds `window_length` items,
      `window_length` times, leaves exactly the pushed items. */
  lemma {:induction false} PushedAll<T>(s: seq<T>, xs: seq<T>, windowLength: nat)
    requires |s| == windowLength == |xs|
    ensures PushedEach(s, windowLength, xs) == xs
  {
    PushedSuffix(s, windowLength, xs, 0);
  }

  /** The window after pushing each of `xs` in turn. */
  function PushedEach<T>(s: seq<T>, windowLength: int, xs: seq<T>): seq<T>
    decreases |xs|
  {
    if xs == [] then s else PushedEach(Pushed(s, windowLength, xs[0]), windowLength, xs[1..])
  }

  lemma {:induction false} PushedSuffix<T>(s: seq<T>, windowLength: nat, xs: seq<T>, done: nat)
    requires |s| == windowLength && done <= windowLength && |xs| + done == windowLength
    ensures PushedEach(s, windowLength, xs) == s[|xs|..] + xs
    decreases |xs|
  {
    if xs != [] {
      var s' := Pushed(s, windowLength, xs[0]);
      PushedSpec(s, windowLength, xs[0]);
      assert s' == s[1..] + [xs[0]];
      PushedSuffix(s', windowLength, xs[1..], done + 1);
      calc {
        PushedEach(s, windowLength, xs);
        PushedEach(s', windowLength, xs[1..]);
        s'[|xs| - 1..] + xs[1..];
        { assert s'[|xs| - 1..] == s[|xs|..] + [xs[0]]; }
        s[|xs|..] + [xs[0]] + xs[1..];
        { assert [xs[0]] + xs[1..] == xs; }
        s[|xs|..] + xs;
      }
    }
  }

  /** `len(list(filter(lambda x: x == True, map(func, window))))`. */
  function CountIn<T>(s: seq<T>, f: T -> bool): (n: nat)
    ensures n <= |s|
    decreases |s|
  {
    if s == [] then 0 else CountIn(s[..|s| - 1], f) + (if f(s[|s| - 1]) then 1 else 0)
  }

  /** The count is the number of positions whose item satisfies `f`. */
  lemma {:induction false} CountIsSize<T>(s: seq<T>, f: T -> bool)
    ensures CountIn(s, f) == |set i | 0 <= i < |s| && f(s[i])|
    decreases |s|
  {
    if s != [] {
      var init := s[..|s| - 1];
      CountIsSize(init, f);
      var before := set i | 0 <= i < |init| && f(init[i]);
      var all := set i | 0 <= i < |s| && f(s[i]);
      if f(s[|s| - 1]) {
        assert all == before + {|s| - 1};
      } else {
        assert all == before;
      }
    }
  }

  /** `sum(map(func, window))`. */
  function SumOf<T>(s: seq<T>, f: T -> real): real
    decreases |s|
  {
    if s == [] then 0.0 else SumOf(s[..|s| - 1], f) + f(s[|s| - 1])
  }

  /** Sums split over concatenation. */
  lemma {:induction false} SumOfConcat<T>(s: seq<T>, t: seq<T>, f: T -> real)
    ensures SumOf(s + t, f) == SumOf(s, f) + SumOf(t, f)
    decreases |t|
  {
    if t != [] {
      var u := t[..|t| - 1];
      assert (s + t)[..|s + t| - 1] == s + u;
      assert (s + t)[|s + t| - 1] == t[|t| - 1];
      SumOfConcat(s, u, f);
      assert SumOf(t, f) == SumOf(u, f) + f(t[|t| - 1]);
      assert SumOf(s + t, f) == SumOf(s + u, f) + f(t[|t| - 1]);
    } else {
      assert s + t == s;
    }
  }

  /** `window[i] = window[-1]` for every `i` below `upTo`. */
  function LastValueFill<T>(s: seq<T>, upTo: int): seq<T>
    requires s != []
  {
    seq(|s|, k requires 0 <= k < |s| => if k < upTo then s[|s| - 1] else s[k])
  }

  /** Filling up to any two bounds that agree on the positions of `s`
      gives the same window. */
  lemma FillPast<T>(s: seq<T>, a: int, b: int)
    requires s != []
    requires a == b || (a >= |s| && b >= |s|) || (a <= 0 && b <= 0) || (a == |s| && b > |s|)
    ensures LastValueFill(s, a) == LastValueFill(s, b)
  {
  }

  /** The value `argmax` reports: its first index and the value there. */
  datatype Peak = Peak(index: nat, value: real)

  class Window<T> {
    /** `window_length`. */
    var windowLength: int
    /** `window`. */
    var window: seq<T>

    /** `Window(window_length, window)`: no list given means an empty one. */
    constructor (windowLength: int, window: Option<seq<T>>)
      ensures this.windowLength == windowLength
      ensures this.window == (if window.Some? then window.value else [])
    {
      this.windowLength := windowLength;
      this.window := if window.Some? then window.value else [];
    }

    /** `push(data)`. */
    method Push(x: T)
      modifies this
      ensures window == Pushed(old(window), windowLength, x) && windowLength == old(windowLength)
    {
      window := window + [x];
      if |window| > windowLength {
        window := window[1..];
      }
    }

    /** `clear()`. */
    method Clear()
      modifies this
      ensures window == [] && windowLength == old(windowLength)
    {
      window := [];
    }

    /** `first()`. */
    function First(): (r: Option<T>)
      reads this
      ensures r.None? <==> window == []
      ensures r.Some? ==> r.value == window[0]
    {
      ItemAt(window, 0)
    }

    /** `last()`. */
    function Last(): (r: Option<T>)
      reads this
      ensures r.None? <==> window == []
      ensures r.Some? ==> r.value == window[|window| - 1]
    {
      ItemAt(window, -1)
    }

    /** `get(index)`, negative indexes counting from the end. */
    function Get(index: int): (r: Option<T>)
      reads this
      ensures r.Some? <==> -|window| <= index < |window|
      ensures r.Some? ==> r.value == window[if index < 0 then |window| + index else index]
    {
      ItemAt(window, index)
    }

    /** `head(length)`: `window[:length]` in a new window of the same bound. */
    method Head(length: int) returns (w: Window<T>)
      ensures fresh(w) && w.windowLength == windowLength
      ensures w.window == window[..SliceBound(length, |window|)]
    {
      w := new Window(windowLength, Some(window[..SliceBound(length, |window|)]));
    }

    /** `tail(length)`: `window[-length:]` in a new window of the same bound. */
    method Tail(length: int) returns (w: Window<T>)
      ensures fresh(w) && w.windowLength == windowLength
      ensures w.window == window[SliceBound(-length, |window|)..]
    {
      w := new Window(windowLength, Some(window[SliceBound(-length, |window|)..]));
    }

    /** `capacity()`: the number of items held. */
    function Capacity(): (n: nat)
      reads this
      ensures n == |window|
    {
      |window|
    }

    /** `empty()`. */
    function Empty(): (r: bool)
      reads this
      ensures r <==> window == []
    {
      Capacity() == 0
    }

    /** `full()`. */
    function Full(): (r: bool)
      reads this
      ensures r <==> |window| == windowLength
    {
      Capacity() == windowLength
    }

    /** `sum(func)`. */
    function Sum(f: T -> real): real
      reads this
    {
      SumOf(window, f)
    }

    /** `count(func)`. */
    function Count(f: T -> bool): (n: nat)
      reads this
      ensures n <= |window|
    {
      CountIn(window, f)
    }

    /** `map(func)`: a new window of the same bound. */
    method Map<U>(f: T -> U) returns (w: Window<U>)
      ensures fresh(w) && w.windowLength == windowLength
      ensures |w.window| == |window| && forall k :: 0 <= k < |window| ==> w.window[k] == f(window[k])
    {
      var items := window;
      w := new Window(windowLength, Some(seq(|items|, k requires 0 <= k < |items| => f(items[k]))));
    }

    /** `set_to_last_value()` for items without `assigned_by`: positions
        `0 .. window_length - 2` take the last item's value. The loop
        raises `IndexError` (`ok` false) at the first position past the
        end, keeping what it has written. */
    method SetToLastValue() returns (ok: bool)
      modifies this
      ensures windowLength == old(windowLength)
      ensures ok <==> windowLength - 1 <= |old(window)|
      ensures old(window) == [] ==> window == []
      ensures old(window) != [] ==> window == LastValueFill(old(window), windowLength - 1)
    {
      ghost var original := window;
      var i := 0;
      while i < windowLength - 1
        invariant 0 <= i && (windowLength - 1 >= 0 ==> i <= windowLength - 1) && (windowLength - 1 < 0 ==> i == 0)
        invariant i <= |window| && |window| == |original|
        invariant original != [] ==> window == LastValueFill(original, i)
        invariant original == [] ==> window == []
        invariant windowLength == old(windowLength)
      {
        if i >= |window| {
          if original != [] {
            FillPast(original, i, windowLength - 1);
          }
          return false;
        }
        window := window[i := window[|window| - 1]];
        i := i + 1;
      }
      if original != [] {
        FillPast(original, i, windowLength - 1);
      }
      return true;
    }
  }

  /** `argmax()` on a window of numbers: `None` stands for the `0` an
      empty window returns; otherwise the first index holding the
      largest value, since only a strictly larger value replaces the one
      kept. */
  method ArgMax(w: Window<real>) returns (r: Option<Peak>)
    ensures r.None? <==> w.window == []
    ensures r.Some? ==>
      && r.value.index < |w.window|
      && w.window[r.value.index] == r.value.value
      && (forall j :: 0 <= j < |w.window| ==> w.window[j] <= r.value.value)
      && (forall j :: 0 <= j < r.value.index ==> w.window[j] < r.value.value)
  {
    if w.Capacity() == 0 {
      return None;
    }
    var index := 0;
    var value := w.window[0];
    var i := 0;
    while i < |w.window|
      invariant 0 <= i <= |w.window| && index < |w.window| && (index < i || index == 0)
      invariant w.window[index] == value
      invariant forall j :: 0 <= j < i ==> w.window[j] <= value
      invariant forall j :: 0 <= j < index ==> w.window[j] < value
    {
      if w.window[i] > value {
        value := w.window[i];
        index := i;
      }
      i := i + 1;
    }
    return Some(Peak(index, value));
  }

  /** `head(n)` keeps the first `n` items and `tail(n)` the last `n` when
      `n` is within the length; `tail(0)` is the whole window, since
      `-0` is `0`; a longer `n` gives the whole window either way. */
  lemma HeadTailSpec<T>(s: seq<T>, n: int)
    ensures 0 <= n <= |s| ==> |s[..SliceBound(n, |s|)]| == n && s[..SliceBound(n, |s|)] + s[n..] == s
    ensures 0 < n <= |s| ==> |s[SliceBound(-n, |s|)..]| == n && s[..|s| - n] + s[SliceBound(-n, |s|)..] == s
    ensures s[SliceBound(-0, |s|)..] == s
    ensures n >= |s| ==> s[..SliceBound(n, |s|)] == s && s[SliceBound(-n, |s|)..] == s
  {
  }
}

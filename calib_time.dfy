/** The sample selection and line fit of `calib_time` in
    `ring/utils/calib_time.py`: each round trip to the ring gives a host
    time (the midpoint of the request's start and end), the ring's time
    and the round-trip latency; the round trips are sorted by latency,
    the slow ones dropped, and a line from ring time to host time is
    fitted by least squares. */
module CalibTime {
  import opened Bytes

  /** `max_calib_delta`, in seconds. */
  const MaxLatency: real := 0.010
  /** Fewer kept round trips than this draw a warning. */
  const EnoughSamples: nat := 20

  /** One round trip: `(pc_timestamp, ring_timestamp, pc_delta_time)`. */
  datatype RoundTrip = RoundTrip(host: real, ring: real, latency: real)

  /** The element-wise midpoint and difference of the start and end
      lists, zipped with the ring times (the shortest list bounds the
      zip); `None` where numpy cannot add lists of different lengths. */
  function Pair(starts: seq<real>, ends: seq<real>, rings: seq<real>): (r: Option<seq<RoundTrip>>)
    ensures r.Some? <==> |starts| == |ends|
    ensures r.Some? ==>
      && |r.value| == (if |starts| <= |rings| then |starts| else |rings|)
      && forall k :: 0 <= k < |r.value| ==>
        && r.value[k].host + r.value[k].host == starts[k] + ends[k]
        && r.value[k].latency == ends[k] - starts[k]
        && r.value[k].ring == rings[k]
  {
    if |starts| != |ends| then None
    else
      var n := if |starts| <= |rings| then |starts| else |rings|;
      Some(seq(n, k requires 0 <= k < n => RoundTrip((starts[k] + ends[k]) / 2.0, rings[k], ends[k] - starts[k])))
  }

  predicate SortedByLatency(xs: seq<RoundTrip>) {
    forall i, j :: 0 <= i < j < |xs| ==> xs[i].latency <= xs[j].latency
  }

  /** Puts `x` before the first element whose latency is not smaller. */
  function Insert(x: RoundTrip, xs: seq<RoundTrip>): seq<RoundTrip>
    decreases |xs|
  {
    if xs == [] || x.latency <= xs[0].latency then [x] + xs
    else [xs[0]] + Insert(x, xs[1..])
  }

  /** `sorted(timestamps, key=lambda x: x[2])`, as an insertion sort. */
  function SortByLatency(xs: seq<RoundTrip>): seq<RoundTrip>
    decreases |xs|
  {
    if xs == [] then [] else Insert(xs[0], SortByLatency(xs[1..]))
  }

  /** A round trip no slower than the head of a sorted list keeps it
      sorted when put in front. */
  lemma ConsSorted(y: RoundTrip, ys: seq<RoundTrip>)
    requires SortedByLatency(ys) && (ys == [] || y.latency <= ys[0].latency)
    ensures SortedByLatency([y] + ys)
  {
    var zs := [y] + ys;
    forall i, j | 0 <= i < j < |zs|
      ensures zs[i].latency <= zs[j].latency
    {
      if i > 0 {
        assert zs[i] == ys[i - 1] && zs[j] == ys[j - 1];
      } else if j > 1 {
        assert zs[j] == ys[j - 1];
      }
    }
  }

  /** Insertion keeps the elements and puts `x` or the old head first. */
  lemma {:induction false} InsertElements(x: RoundTrip, xs: seq<RoundTrip>)
    ensures multiset(Insert(x, xs)) == multiset([x] + xs)
    ensures Insert(x, xs)[0] == x || Insert(x, xs)[0] == xs[0]
    decreases |xs|
  {
    if xs != [] && x.latency > xs[0].latency {
      InsertElements(x, xs[1..]);
      assert xs == [xs[0]] + xs[1..];
      calc {
        multiset(Insert(x, xs));
        multiset([xs[0]] + Insert(x, xs[1..]));
        multiset([xs[0]]) + multiset([x] + xs[1..]);
        multiset([x]) + multiset([xs[0]] + xs[1..]);
      }
    }
  }

  lemma {:induction false} InsertSorted(x: RoundTrip, xs: seq<RoundTrip>)
    requires SortedByLatency(xs)
    ensures SortedByLatency(Insert(x, xs))
    decreases |xs|
  {
    if xs == [] || x.latency <= xs[0].latency {
      ConsSorted(x, xs);
    } else {
      var rest := Insert(x, xs[1..]);
      InsertSorted(x, xs[1..]);
      InsertElements(x, xs[1..]);
      assert xs[1..] == [] || xs[0].latency <= xs[1].latency;
      ConsSorted(xs[0], rest);
    }
  }

  lemma InsertSpec(x: RoundTrip, xs: seq<RoundTrip>)
    requires SortedByLatency(xs)
    ensures SortedByLatency(Insert(x, xs))
    ensures multiset(Insert(x, xs)) == multiset([x] + xs)
  {
    InsertSorted(x, xs);
    InsertElements(x, xs);
  }

  /** The sort orders by latency and keeps every round trip. */
  lemma {:induction false} SortSpec(xs: seq<RoundTrip>)
    ensures SortedByLatency(SortByLatency(xs))
    ensures multiset(SortByLatency(xs)) == multiset(xs)
    ensures |SortByLatency(xs)| == |xs|
    decreases |xs|
  {
    if xs != [] {
      SortSpec(xs[1..]);
      InsertSpec(xs[0], SortByLatency(xs[1..]));
      assert xs == [xs[0]] + xs[1..];
    }
    assert |multiset(SortByLatency(xs))| == |multiset(xs)|;
  }

  /** `[x for x in timestamps if x[2] < max_calib_delta]`. */
  function KeepFast(xs: seq<RoundTrip>): seq<RoundTrip>
    decreases |xs|
  {
    if xs == [] then []
    else if xs[0].latency < MaxLatency then [xs[0]] + KeepFast(xs[1..])
    else KeepFast(xs[1..])
  }

  /** A round trip is kept exactly when it is fast enough. */
  lemma {:induction false} KeepFastSpec(xs: seq<RoundTrip>)
    ensures forall x :: x in KeepFast(xs) <==> x in xs && x.latency < MaxLatency
    decreases |xs|
  {
    if xs != [] {
      KeepFastSpec(xs[1..]);
      assert xs == [xs[0]] + xs[1..];
    }
  }

  /** A list of slow round trips keeps none. */
  lemma {:induction false} AllSlow(xs: seq<RoundTrip>)
    requires forall k :: 0 <= k < |xs| ==> xs[k].latency >= MaxLatency
    ensures KeepFast(xs) == []
    decreases |xs|
  {
    if xs != [] {
      AllSlow(xs[1..]);
    }
  }

  /** On a list sorted by latency the fast round trips come first, so the
      filter keeps a prefix and everything after it is too slow. */
  lemma {:induction false} KeepFastPrefix(xs: seq<RoundTrip>)
    requires SortedByLatency(xs)
    ensures |KeepFast(xs)| <= |xs| && KeepFast(xs) == xs[..|KeepFast(xs)|]
    ensures forall k :: |KeepFast(xs)| <= k < |xs| ==> xs[k].latency >= MaxLatency
    decreases |xs|
  {
    if xs != [] {
      KeepFastPrefix(xs[1..]);
      if xs[0].latency >= MaxLatency {
        AllSlow(xs[1..]);
      } else {
        assert KeepFast(xs) == [xs[0]] + xs[1..][..|KeepFast(xs[1..])|];
      }
    }
  }

  /** The sums of the normal equations for the design matrix `[1, ring]`:
      the count, the ring times, their squares, the host times and the
      products. */
  datatype Moments = Moments(n: real, ring: real, ringSq: real, host: real, ringHost: real)

  function MomentsOf(xs: seq<RoundTrip>): Moments
    decreases |xs|
  {
    if xs == [] then Moments(0.0, 0.0, 0.0, 0.0, 0.0) else AddPoint(MomentsOf(xs[1..]), xs[0])
  }

  /** The sums with one more round trip. */
  function AddPoint(m: Moments, x: RoundTrip): Moments {
    Moments(m.n + 1.0, m.ring + x.ring, m.ringSq + x.ring * x.ring, m.host + x.host, m.ringHost + x.ring * x.host)
  }

  /** `det(X_b.T @ X_b)`. */
  function Determinant(m: Moments): real {
    m.n * m.ringSq - m.ring * m.ring
  }

  datatype Line = Line(intercept: real, slope: real)

  /** The line on `m`'s normal equations. */
  predicate SolvesNormal(m: Moments, l: Line) {
    && m.n * l.intercept + m.ring * l.slope == m.host
    && m.ring * l.intercept + m.ringSq * l.slope == m.ringHost
  }

  /** `inv(A) @ b` for the normal equations `A = X_b.T @ X_b`,
      `b = X_b.T @ pc_timestamps`, by Cramer's rule; `None` where `A` is
      singular and `inv` raises. */
  function Solve(m: Moments): Option<Line> {
    var det := Determinant(m);
    if det == 0.0 then None
    else Some(Line((m.ringSq * m.host - m.ring * m.ringHost) / det, (m.n * m.ringHost - m.ring * m.host) / det))
  }

  /** The least-squares line through the round trips. */
  function Fit(xs: seq<RoundTrip>): Option<Line> {
    Solve(MomentsOf(xs))
  }

  /** The solved line satisfies the normal equations. */
  lemma SolveSolves(m: Moments)
    ensures Solve(m).Some? <==> Determinant(m) != 0.0
    ensures Solve(m).Some? ==> SolvesNormal(m, Solve(m).value)
  {
    if Determinant(m) != 0.0 {
      var l := Solve(m).value;
      CramerSolves(m.n, m.ring, m.ringSq, m.host, m.ringHost, l.intercept, l.slope);
    }
  }

  /** A non-singular system has no other solution. */
  lemma SolveUnique(m: Moments, l: Line)
    requires Determinant(m) != 0.0 && SolvesNormal(m, l)
    ensures Solve(m) == Some(l)
  {
    SolveSolves(m);
    var s := Solve(m).value;
    Unique(m.n, m.ring, m.ringSq, l.intercept, l.slope, s.intercept, s.slope);
  }

  /** Cramer's rule for `[[n, r], [r, q]] [a, b] = [h, p]`. */
  lemma CramerSolves(n: real, r: real, q: real, h: real, p: real, a: real, b: real)
    requires n * q - r * r != 0.0
    requires a == (q * h - r * p) / (n * q - r * r) && b == (n * p - r * h) / (n * q - r * r)
    ensures n * a + r * b == h && r * a + q * b == p
  {
    var det := n * q - r * r;
    assert a * det == q * h - r * p;
    assert b * det == n * p - r * h;
    assert (n * a + r * b) * det == n * (a * det) + r * (b * det);
    assert (n * a + r * b) * det == h * det;
    assert (r * a + q * b) * det == r * (a * det) + q * (b * det);
    assert (r * a + q * b) * det == p * det;
  }

  /** Two solutions of a non-singular system are equal. */
  lemma Unique(n: real, r: real, q: real, a: real, b: real, a': real, b': real)
    requires n * q - r * r != 0.0
    requires n * a + r * b == n * a' + r * b'
    requires r * a + q * b == r * a' + q * b'
    ensures a == a' && b == b'
  {
    var da := a - a';
    var db := b - b';
    assert n * da + r * db == 0.0;
    assert r * da + q * db == 0.0;
    assert (n * q - r * r) * db == n * (r * da + q * db) - r * (n * da + r * db);
    assert (n * q - r * r) * da == q * (n * da + r * db) - r * (r * da + q * db);
  }

  /** The round trip's host time is the line at its ring time. */
  predicate OnLine(x: RoundTrip, l: Line) {
    x.host == l.intercept + l.slope * x.ring
  }

  /** Adding a point of the line to sums that satisfy its normal
      equations keeps them satisfied. */
  lemma StepOnLine(m: Moments, l: Line, x: RoundTrip)
    requires SolvesNormal(m, l) && OnLine(x, l)
    ensures SolvesNormal(AddPoint(m, x), l)
  {
    var a := l.intercept;
    var b := l.slope;
    assert (m.n + 1.0) * a + (m.ring + x.ring) * b == (m.n * a + m.ring * b) + (a + x.ring * b);
    assert x.ring * x.host == x.ring * a + (x.ring * x.ring) * b;
    assert (m.ring + x.ring) * a + (m.ringSq + x.ring * x.ring) * b == (m.ring * a + m.ringSq * b) + (x.ring * a + (x.ring * x.ring) * b);
  }

  /** Round trips lying exactly on a line give sums that line solves. */
  lemma {:induction false} MomentsOnLine(xs: seq<RoundTrip>, l: Line)
    requires forall k :: 0 <= k < |xs| ==> OnLine(xs[k], l)
    ensures SolvesNormal(MomentsOf(xs), l)
    decreases |xs|
  {
    if xs != [] {
      assert forall k :: 0 <= k < |xs[1..]| ==> xs[1..][k] == xs[k + 1];
      MomentsOnLine(xs[1..], l);
      StepOnLine(MomentsOf(xs[1..]), l, xs[0]);
    }
  }

  /** When the host times are exactly a line of the ring times, and the
      ring times make the matrix invertible, the fit recovers that line. */
  lemma FitRecoversLine(xs: seq<RoundTrip>, l: Line)
    requires forall k :: 0 <= k < |xs| ==> OnLine(xs[k], l)
    requires Determinant(MomentsOf(xs)) != 0.0
    ensures Fit(xs) == Some(l)
  {
    MomentsOnLine(xs, l);
    SolveUnique(MomentsOf(xs), l);
  }

  /** A single round trip cannot be fitted: the matrix is singular. */
  lemma OneSampleSingular(x: RoundTrip)
    ensures Fit([x]) == None
  {
    assert MomentsOf([x][1..]) == Moments(0.0, 0.0, 0.0, 0.0, 0.0);
  }

  /** What the selection produces: the line, the round trips it used and
      whether the "not enough calib data" warning was printed. */
  datatype Calibration = Calibration(line: Line, used: seq<RoundTrip>, warned: bool)

  /** The round trips the fit uses. */
  function Selected(paired: seq<RoundTrip>): seq<RoundTrip> {
    KeepFast(SortByLatency(paired))
  }

  /** The selection and fit; `None` where the script raises: lists of
      different lengths, no round trip left after the filter (`zip(*[])`
      has nothing to unpack), or a singular matrix. */
  function Calibrate(starts: seq<real>, ends: seq<real>, rings: seq<real>): Option<Calibration> {
    var paired := Pair(starts, ends, rings);
    if paired.None? then None
    else
      var kept := Selected(paired.value);
      if kept == [] then None
      else
        var fit := Fit(kept);
        if fit.None? then None else Some(Calibration(fit.value, kept, |kept| < EnoughSamples))
  }

  /** The selection is exactly the round trips under the latency bound,
      fastest first. */
  lemma SelectedSpec(paired: seq<RoundTrip>)
    ensures SortedByLatency(Selected(paired))
    ensures forall x :: x in Selected(paired) <==> x in paired && x.latency < MaxLatency
  {
    var sorted := SortByLatency(paired);
    SortSpec(paired);
    KeepFastSpec(sorted);
    KeepFastPrefix(sorted);
    var kept := KeepFast(sorted);
    forall i, j | 0 <= i < j < |kept|
      ensures kept[i].latency <= kept[j].latency
    {
      assert kept[i] == sorted[i] && kept[j] == sorted[j];
    }
    forall x
      ensures x in sorted <==> x in paired
    {
      assert x in sorted <==> x in multiset(sorted);
      assert x in paired <==> x in multiset(paired);
    }
  }

  /** A calibration uses exactly the round trips under the latency bound,
      fastest first, warns exactly when fewer than twenty are left, and
      its line solves their normal equations; it fails only on lists of
      different lengths, an empty selection or a singular matrix. */
  lemma CalibrateSpec(starts: seq<real>, ends: seq<real>, rings: seq<real>)
    ensures var c := Calibrate(starts, ends, rings);
      c.Some? ==>
        && |starts| == |ends|
        && SortedByLatency(c.value.used)
        && (forall x :: x in c.value.used <==> x in Pair(starts, ends, rings).value && x.latency < MaxLatency)
        && (c.value.warned <==> |c.value.used| < EnoughSamples)
        && SolvesNormal(MomentsOf(c.value.used), c.value.line)
    ensures Calibrate(starts, ends, rings).None? <==>
      || |starts| != |ends|
      || Selected(Pair(starts, ends, rings).value) == []
      || Determinant(MomentsOf(Selected(Pair(starts, ends, rings).value))) == 0.0
  {
    var paired := Pair(starts, ends, rings);
    if paired.Some? {
      SelectedSpec(paired.value);
      SolveSolves(MomentsOf(Selected(paired.value)));
    }
  }
}

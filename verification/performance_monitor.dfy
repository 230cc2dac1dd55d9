/** The frame-rate monitor of src/utils/PerformanceMonitor.js: a window of
    the most recent frame times, the metrics derived from it, and a list
    of event listeners. Callbacks are compared by identity, so the model
    names them by an opaque `Callback` number; time is a parameter. */
module PerformanceMonitor {
  import opened Util

  type Callback = nat

  datatype Listener = Listener(event: string, callback: Callback)

  datatype Monitor = Monitor(sampleSize: int, frames: seq<real>, lastTime: real, listeners: seq<Listener>)

  /** A frame rate: `1000 / delta` is `Infinity` in JavaScript for a zero delta. */
  datatype Rate = Finite(value: real) | Infinity

  datatype Metrics = Metrics(fps: Rate, avgFrameTime: real, minFPS: Rate, maxFPS: Rate)

  /** `new PerformanceMonitor(sampleSize)` at time `now`. */
  function Create(sampleSize: int, now: real): (m: Monitor)
    ensures m.frames == [] && m.listeners == [] && m.sampleSize == sampleSize && m.lastTime == now
  {
    Monitor(sampleSize, [], now, [])
  }

  /** The last `n` elements of `s` (all of them if there are fewer). */
  function Suffix(s: seq<real>, n: nat): (r: seq<real>)
    ensures |r| == MinI(|s|, n)
    ensures r == s[|s| - |r|..]
  {
    s[|s| - MinI(|s|, n)..]
  }

  /** Push a delta, then drop the oldest one if the window overflowed. */
  function Push(frames: seq<real>, delta: real, sampleSize: int): (r: seq<real>)
    ensures r == frames + [delta] || r == (frames + [delta])[1..]
    ensures |frames| <= sampleSize ==> |r| <= sampleSize
  {
    var f := frames + [delta];
    if |f| > sampleSize then f[1..] else f
  }

  /** Pushing into a full-or-less window keeps exactly the most recent
      `sampleSize` deltas. */
  lemma PushKeepsSuffix(frames: seq<real>, delta: real, n: nat)
    requires |frames| <= n
    ensures Push(frames, delta, n) == Suffix(frames + [delta], n)
  {
  }

  /** Many pushes, one per delta in arrival order. */
  function PushAll(frames: seq<real>, deltas: seq<real>, sampleSize: int): seq<real>
    decreases |deltas|
  {
    if deltas == [] then frames else PushAll(Push(frames, deltas[0], sampleSize), deltas[1..], sampleSize)
  }

  /** The window is first-in first-out: after any run of updates it holds
      the most recent `sampleSize` deltas, oldest first. */
  lemma {:induction false} WindowIsRecentSuffix(frames: seq<real>, deltas: seq<real>, n: nat)
    requires |frames| <= n
    ensures PushAll(frames, deltas, n) == Suffix(frames + deltas, n)
    decreases |deltas|
  {
    if deltas != [] {
      var f := Push(frames, deltas[0], n);
      PushKeepsSuffix(frames, deltas[0], n);
      WindowIsRecentSuffix(f, deltas[1..], n);
      var all := frames + deltas;
      assert all == (frames + [deltas[0]]) + deltas[1..];
      SuffixOfSuffix(frames + [deltas[0]], deltas[1..], n);
    }
  }

  /** Appending after cutting to the last `n` and cutting again is the same
      as cutting once. */
  lemma SuffixOfSuffix(a: seq<real>, b: seq<real>, n: nat)
    ensures Suffix(Suffix(a, n) + b, n) == Suffix(a + b, n)
  {
    var sa := Suffix(a, n);
    var lhs := Suffix(sa + b, n);
    var rhs := Suffix(a + b, n);
    assert |lhs| == |rhs|;
    forall i | 0 <= i < |lhs|
      ensures lhs[i] == rhs[i]
    {
      var k := |sa + b| - |lhs| + i;
      var k' := |a + b| - |rhs| + i;
      assert lhs[i] == (sa + b)[k];
      assert rhs[i] == (a + b)[k'];
      if k < |sa| {
        assert (sa + b)[k] == sa[k] == a[|a| - |sa| + k];
      }
    }
  }

  function Sum(s: seq<real>): real
  {
    if s == [] then 0.0 else s[0] + Sum(s[1..])
  }

  function MinOf(s: seq<real>): (r: real)
    requires s != []
    ensures forall i :: 0 <= i < |s| ==> r <= s[i]
    ensures exists i :: 0 <= i < |s| && r == s[i]
  {
    if |s| == 1 then s[0]
    else
      var rest := MinOf(s[1..]);
      assert forall i :: 1 <= i < |s| ==> s[i] == s[1..][i - 1];
      MinR(s[0], rest)
  }

  function MaxOf(s: seq<real>): (r: real)
    requires s != []
    ensures forall i :: 0 <= i < |s| ==> r >= s[i]
    ensures exists i :: 0 <= i < |s| && r == s[i]
  {
    if |s| == 1 then s[0]
    else
      var rest := MaxOf(s[1..]);
      assert forall i :: 1 <= i < |s| ==> s[i] == s[1..][i - 1];
      MaxR(s[0], rest)
  }

  /** A sum lies between `n` times the smallest and `n` times the largest element. */
  lemma {:induction false} SumBetween(s: seq<real>, lo: real, hi: real)
    requires forall i :: 0 <= i < |s| ==> lo <= s[i] <= hi
    ensures |s| as real * lo <= Sum(s) <= |s| as real * hi
  {
    if s != [] {
      assert forall i :: 0 <= i < |s| - 1 ==> s[1..][i] == s[i + 1];
      SumBetween(s[1..], lo, hi);
    }
  }

  /** `1000 / x`, with JavaScript's `Infinity` for 0. */
  function PerSecond(x: real): (r: Rate)
    ensures x != 0.0 ==> r == Finite(1000.0 / x)
  {
    if x == 0.0 then Infinity else Finite(1000.0 / x)
  }

  /** `Math.round(x * k) / k`. */
  function RoundTo(x: real, k: real): real
    requires k > 0.0
  {
    Round(x * k) as real / k
  }

  function RoundRate(r: Rate): Rate
  {
    match r
    case Finite(v) => Finite(RoundTo(v, 10.0))
    case Infinity => Infinity
  }

  /** The metrics before display rounding. */
  function RawMetrics(frames: seq<real>): Metrics
    requires frames != []
  {
    var avg := Sum(frames) / |frames| as real;
    Metrics(PerSecond(avg), avg, PerSecond(MaxOf(frames)), PerSecond(MinOf(frames)))
  }

  /** `getMetrics`: a fixed 60 fps report for an empty window, otherwise
      the average, slowest and fastest rates, rounded to one decimal (the
      frame time to two). */
  function GetMetrics(frames: seq<real>): (r: Metrics)
    ensures frames == [] ==> r == Metrics(Finite(60.0), 16.67, Finite(60.0), Finite(60.0))
    ensures frames != [] ==> (r.fps.Infinity? <==> Sum(frames) == 0.0)
    ensures frames != [] ==> (r.minFPS.Infinity? <==> MaxOf(frames) == 0.0)
    ensures frames != [] ==> (r.maxFPS.Infinity? <==> MinOf(frames) == 0.0)
    ensures frames != [] ==> Near(r.avgFrameTime, Sum(frames) / |frames| as real, 0.005)
    ensures frames != [] && r.fps.Finite? ==> Near(r.fps.value, 1000.0 / (Sum(frames) / |frames| as real), 0.05)
    ensures frames != [] && r.minFPS.Finite? ==> Near(r.minFPS.value, 1000.0 / MaxOf(frames), 0.05)
    ensures frames != [] && r.maxFPS.Finite? ==> Near(r.maxFPS.value, 1000.0 / MinOf(frames), 0.05)
  {
    if frames == [] then Metrics(Finite(60.0), 16.67, Finite(60.0), Finite(60.0))
    else
      var raw := RawMetrics(frames);
      var avg := Sum(frames) / |frames| as real;
      assert avg == 0.0 <==> Sum(frames) == 0.0;
      RoundToNear(avg, 100.0);
      RoundToNear(if avg != 0.0 then 1000.0 / avg else 0.0, 10.0);
      RoundToNear(if MaxOf(frames) != 0.0 then 1000.0 / MaxOf(frames) else 0.0, 10.0);
      RoundToNear(if MinOf(frames) != 0.0 then 1000.0 / MinOf(frames) else 0.0, 10.0);
      Metrics(RoundRate(raw.fps), RoundTo(raw.avgFrameTime, 100.0), RoundRate(raw.minFPS), RoundRate(raw.maxFPS))
  }

  /** `x` rounds to `y` at resolution `eps`: `y` lies in the half-open band
      of width `2 * eps` around `x` that `Math.round` picks from. */
  predicate Near(y: real, x: real, eps: real)
  {
    x - eps < y <= x + eps
  }

  /** Rounding to `1/k` moves a value by at most half a step. */
  lemma RoundToNear(x: real, k: real)
    requires k > 0.0
    ensures Near(RoundTo(x, k), x, 0.5 / k)
  {
    var n := Round(x * k) as real;
    assert x * k - 0.5 < n <= x * k + 0.5;
    assert n / k - x == (n - x * k) / k;
    assert (x * k - 0.5 - x * k) / k == -0.5 / k;
  }

  /** The average of the window lies between its smallest and largest element. */
  lemma AverageBetween(frames: seq<real>, lo: real, hi: real)
    requires frames != [] && forall i :: 0 <= i < |frames| ==> lo <= frames[i] <= hi
    ensures lo <= Sum(frames) / |frames| as real <= hi
  {
    SumBetween(frames, lo, hi);
    DivideBetween(Sum(frames), |frames| as real, lo, hi);
  }

  lemma DivideBetween(s: real, n: real, lo: real, hi: real)
    requires n > 0.0 && n * lo <= s <= n * hi
    ensures lo <= s / n <= hi
  {
    assert s / n - lo == (s - n * lo) / n;
    assert hi - s / n == (n * hi - s) / n;
  }

  /** For positive frame times the average rate lies between the slowest
      and the fastest, both before and after rounding. */
  lemma RatesOrdered(frames: seq<real>)
    requires frames != [] && forall i :: 0 <= i < |frames| ==> frames[i] > 0.0
    ensures var raw := RawMetrics(frames);
            && raw.minFPS.Finite? && raw.fps.Finite? && raw.maxFPS.Finite?
            && raw.minFPS.value <= raw.fps.value <= raw.maxFPS.value
    ensures var r := GetMetrics(frames);
            && r.minFPS.Finite? && r.fps.Finite? && r.maxFPS.Finite?
            && r.minFPS.value <= r.fps.value <= r.maxFPS.value
  {
    var lo, hi := MinOf(frames), MaxOf(frames);
    var avg := Sum(frames) / |frames| as real;
    AverageBetween(frames, lo, hi);
    InverseAntitone(lo, avg);
    InverseAntitone(avg, hi);
    var raw := RawMetrics(frames);
    assert raw.fps == Finite(1000.0 / avg);
    assert raw.minFPS == Finite(1000.0 / hi);
    assert raw.maxFPS == Finite(1000.0 / lo);
    RoundToMonotone(raw.minFPS.value, raw.fps.value, 10.0);
    RoundToMonotone(raw.fps.value, raw.maxFPS.value, 10.0);
  }

  lemma InverseAntitone(a: real, b: real)
    requires 0.0 < a <= b
    ensures 1000.0 / b <= 1000.0 / a
  {
    assert 1000.0 / a - 1000.0 / b == 1000.0 * (b - a) / (a * b);
    assert a * b > 0.0;
  }

  lemma RoundToMonotone(a: real, b: real, k: real)
    requires a <= b && k > 0.0
    ensures RoundTo(a, k) <= RoundTo(b, k)
  {
    assert a * k <= b * k;
    assert Round(a * k) <= Round(b * k);
    var ra, rb := Round(a * k) as real, Round(b * k) as real;
    assert ra / k <= rb / k by {
      assert rb / k - ra / k == (rb - ra) / k;
    }
  }

  /** The elements of `s` that satisfy `keep`, in their original order. */
  function Filter(s: seq<Listener>, keep: Listener -> bool): (r: seq<Listener>)
    ensures |r| <= |s|
    ensures forall x :: x in r <==> x in s && keep(x)
    decreases |s|
  {
    if s == [] then []
    else
      var rest := Filter(s[1..], keep);
      assert forall x :: x in s[1..] ==> x in s;
      assert forall x :: x in s ==> x == s[0] || x in s[1..];
      if keep(s[0]) then [s[0]] + rest else rest
  }

  /** Filtering splits over concatenation, so it keeps the relative order. */
  lemma {:induction false} FilterAppend(a: seq<Listener>, b: seq<Listener>, keep: Listener -> bool)
    ensures Filter(a + b, keep) == Filter(a, keep) + Filter(b, keep)
    decreases |a|
  {
    if a != [] {
      assert (a + b)[1..] == a[1..] + b;
      FilterAppend(a[1..], b, keep);
    } else {
      assert a + b == b;
    }
  }

  /** `on(event, callback)`: registrations pile up in order, duplicates included. */
  function On(m: Monitor, event: string, callback: Callback): (r: Monitor)
    ensures r.listeners == m.listeners + [Listener(event, callback)]
    ensures r == m.(listeners := r.listeners)
  {
    m.(listeners := m.listeners + [Listener(event, callback)])
  }

  /** `off(callback)`: every registration of `callback`, for any event, is
      removed; the others stay in order. */
  function Off(m: Monitor, callback: Callback): (r: Monitor)
    ensures forall l :: l in r.listeners <==> l in m.listeners && l.callback != callback
    ensures r == m.(listeners := r.listeners)
  {
    m.(listeners := Filter(m.listeners, (l: Listener) => l.callback != callback))
  }

  /** Registering and then removing a callback leaves the other
      registrations exactly as they were, in order. */
  lemma OnThenOff(m: Monitor, event: string, callback: Callback)
    requires forall l :: l in m.listeners ==> l.callback != callback
    ensures Off(On(m, event, callback), callback) == m
  {
    var keep := (l: Listener) => l.callback != callback;
    FilterAppend(m.listeners, [Listener(event, callback)], keep);
    FilterKeepsAll(m.listeners, keep);
  }

  lemma {:induction false} FilterKeepsAll(s: seq<Listener>, keep: Listener -> bool)
    requires forall x :: x in s ==> keep(x)
    ensures Filter(s, keep) == s
    decreases |s|
  {
    if s != [] {
      FilterKeepsAll(s[1..], keep);
    }
  }

  /** The callbacks of the listeners registered for `event`. */
  function Callbacks(ls: seq<Listener>): (r: seq<Callback>)
    ensures |r| == |ls|
    ensures forall i :: 0 <= i < |ls| ==> r[i] == ls[i].callback
  {
    seq(|ls|, i requires 0 <= i < |ls| => ls[i].callback)
  }

  /** `notifyListeners(event)`: the callbacks registered for `event`, in
      registration order, once per registration. */
  function Notified(m: Monitor, event: string): (r: seq<Callback>)
    ensures forall c :: c in r <==> Listener(event, c) in m.listeners
  {
    var ls := Filter(m.listeners, (l: Listener) => l.event == event);
    forall c | c in Callbacks(ls)
      ensures Listener(event, c) in ls
    {
      var i :| 0 <= i < |ls| && Callbacks(ls)[i] == c;
      assert ls[i] in ls;
      assert ls[i] == Listener(ls[i].event, c);
    }
    forall c | Listener(event, c) in ls
      ensures c in Callbacks(ls)
    {
      var i :| 0 <= i < |ls| && ls[i] == Listener(event, c);
      assert Callbacks(ls)[i] == c;
    }
    Callbacks(ls)
  }

  /** Notification order is registration order: a new registration for
      `event` is called last, after every earlier one, and a registration
      for another event does not change who is called for `event`. */
  lemma NotifiedInOrder(m: Monitor, event: string, other: string, c: Callback)
    requires other != event
    ensures Notified(On(m, event, c), event) == Notified(m, event) + [c]
    ensures Notified(On(m, other, c), event) == Notified(m, event)
  {
    var keep := (l: Listener) => l.event == event;
    FilterAppend(m.listeners, [Listener(event, c)], keep);
    FilterAppend(m.listeners, [Listener(other, c)], keep);
    assert Filter([Listener(other, c)], keep) == [];
    assert Filter([Listener(event, c)], keep) == [Listener(event, c)];
    var ls := Filter(m.listeners, keep);
    assert Callbacks(ls + [Listener(event, c)]) == Callbacks(ls) + [c];
    assert ls + [] == ls;
  }

  datatype UpdateResult = UpdateResult(monitor: Monitor, metrics: Metrics, notified: seq<Callback>)

  function IsLow(r: Rate): bool
  {
    r.Finite? && r.value < 50.0
  }

  /** `update()` at time `now`: record the frame time since the last call,
      compute the metrics, and notify the `lowFPS` listeners exactly when
      the reported rate is below 50. */
  function Update(m: Monitor, now: real): (r: UpdateResult)
    ensures r.monitor.frames == Push(m.frames, now - m.lastTime, m.sampleSize)
    ensures r.monitor == m.(frames := r.monitor.frames, lastTime := now)
    ensures r.metrics == GetMetrics(r.monitor.frames)
    ensures IsLow(r.metrics.fps) ==> r.notified == Notified(m, "lowFPS")
    ensures !IsLow(r.metrics.fps) ==> r.notified == []
  {
    var frames := Push(m.frames, now - m.lastTime, m.sampleSize);
    var m' := m.(frames := frames, lastTime := now);
    var metrics := GetMetrics(frames);
    UpdateResult(m', metrics, if IsLow(metrics.fps) then Notified(m, "lowFPS") else [])
  }

  /** The window never grows beyond the sample size. */
  lemma UpdateKeepsBound(m: Monitor, now: real)
    requires |m.frames| <= m.sampleSize
    ensures |Update(m, now).monitor.frames| <= m.sampleSize
    ensures |Update(m, now).monitor.frames| >= 1 || m.sampleSize == 0
  {
  }

  /** `reset()`: the window empties and the clock restarts; listeners stay. */
  function Reset(m: Monitor, now: real): (r: Monitor)
    ensures r.frames == [] && r.lastTime == now
    ensures r.sampleSize == m.sampleSize && r.listeners == m.listeners
  {
    m.(frames := [], lastTime := now)
  }

  /** After a reset the report is the fixed 60 fps one. */
  lemma ResetReportsDefault(m: Monitor, now: real)
    ensures GetMetrics(Reset(m, now).frames).fps == Finite(60.0)
  {
  }
}

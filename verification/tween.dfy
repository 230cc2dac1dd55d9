/** The time-based tween shared by both stores: `animateValue` and
    `easeInOutCubic` in stores/bookStore.ts, `P` and `C` in the bundle.
    The scheduler is replaced by the list of frame timestamps at which the
    tween's callback would run. */
module Tween {
  import opened Util

  /** The two easing curves the stores pass to the tween. */
  datatype Easing = Linear | InOutCubic

  function Cube(x: real): real { x * x * x }

  /** `t < 0.5 ? 4t^3 : 1 - (-2t + 2)^3 / 2`. */
  function EaseInOutCubic(t: real): real
  {
    if t < 0.5 then 4.0 * Cube(t) else 1.0 - Cube(-2.0 * t + 2.0) / 2.0
  }

  function Apply(e: Easing, t: real): real
  {
    match e
    case Linear => t
    case InOutCubic => EaseInOutCubic(t)
  }

  /** `Math.min(elapsed / duration, 1)`. */
  function Progress(elapsed: real, duration: real): (p: real)
    requires duration > 0.0
    ensures p <= 1.0
    ensures elapsed >= 0.0 ==> 0.0 <= p
    ensures p == 1.0 <==> elapsed >= duration
  {
    MinR(elapsed / duration, 1.0)
  }

  lemma ProgressMonotone(e1: real, e2: real, duration: real)
    requires duration > 0.0
    requires e1 <= e2
    ensures Progress(e1, duration) <= Progress(e2, duration)
  {
    assert e1 / duration <= e2 / duration by {
      assert e2 / duration - e1 / duration == (e2 - e1) / duration;
    }
  }

  /** The value written by one frame of the tween. */
  function Sample(from: real, to: real, duration: real, e: Easing, elapsed: real): real
    requires duration > 0.0
  {
    from + (to - from) * Apply(e, Progress(elapsed, duration))
  }

  lemma CubeBounds(x: real)
    requires 0.0 <= x <= 1.0
    ensures 0.0 <= Cube(x) <= 1.0
  {
    assert 0.0 <= x * x <= 1.0 by {
      assert x * x <= x * 1.0;
    }
    assert x * x * x <= x * x * 1.0;
  }

  lemma CubeMonotone(a: real, b: real)
    requires 0.0 <= a <= b
    ensures Cube(a) <= Cube(b)
  {
    assert a * a <= b * b by {
      assert a * a <= a * b;
      assert a * b <= b * b;
    }
    assert a * a * a <= b * b * a;
    assert b * b * a <= b * b * b;
  }

  /** The easing curve fixes 0, 1/2 and 1. */
  lemma {:induction false} EaseFixedPoints()
    ensures EaseInOutCubic(0.0) == 0.0
    ensures EaseInOutCubic(0.5) == 0.5
    ensures EaseInOutCubic(1.0) == 1.0
  {
    assert Cube(1.0) == 1.0;
    assert Cube(0.0) == 0.0;
  }

  /** On [0,1] the curve stays in [0,1]. */
  lemma EaseInRange(t: real)
    requires 0.0 <= t <= 1.0
    ensures 0.0 <= EaseInOutCubic(t) <= 1.0
  {
    if t < 0.5 {
      CubeMonotone(t, 0.5);
      CubeBounds(t);
      assert Cube(0.5) == 0.125;
    } else {
      CubeBounds(-2.0 * t + 2.0);
    }
  }

  /** The curve is point-symmetric about (1/2, 1/2): easing in mirrors easing out. */
  lemma EaseSymmetric(t: real)
    requires 0.0 <= t <= 1.0
    ensures EaseInOutCubic(1.0 - t) == 1.0 - EaseInOutCubic(t)
  {
    if t < 0.5 {
      assert -2.0 * (1.0 - t) + 2.0 == 2.0 * t;
      assert Cube(2.0 * t) == 8.0 * Cube(t);
    } else if t > 0.5 {
      assert 1.0 - t < 0.5;
      assert Cube(-2.0 * t + 2.0) == 8.0 * Cube(1.0 - t);
    }
  }

  /** The curve never decreases on [0,1], so a tween with it moves one way. */
  lemma EaseMonotone(a: real, b: real)
    requires 0.0 <= a <= b <= 1.0
    ensures EaseInOutCubic(a) <= EaseInOutCubic(b)
  {
    if b < 0.5 {
      CubeMonotone(a, b);
    } else if a >= 0.5 {
      CubeMonotone(-2.0 * b + 2.0, -2.0 * a + 2.0);
    } else {
      CubeMonotone(a, 0.5);
      assert Cube(0.5) == 0.125;
      CubeBounds(-2.0 * b + 2.0);
    }
  }

  lemma ApplyInRange(e: Easing, t: real)
    requires 0.0 <= t <= 1.0
    ensures 0.0 <= Apply(e, t) <= 1.0
    ensures Apply(e, 1.0) == 1.0
  {
    if e == InOutCubic {
      EaseInRange(t);
      EaseFixedPoints();
    }
  }

  /** The values the tween's setter receives, one per frame timestamp,
      until the first frame whose progress reaches 1 (the callback then
      stops re-scheduling itself). */
  function Emitted(from: real, to: real, duration: real, e: Easing, start: real, frames: seq<real>): (vs: seq<real>)
    requires duration > 0.0
    ensures |vs| <= |frames|
    decreases |frames|
  {
    if frames == [] then []
    else
      var v := Sample(from, to, duration, e, frames[0] - start);
      if Progress(frames[0] - start, duration) < 1.0 then [v] + Emitted(from, to, duration, e, start, frames[1..])
      else [v]
  }

  /** Once a frame arrives at or after `start + duration` the tween has
      stopped, and the last value it wrote is exactly `to`. */
  lemma {:induction false} EmittedEndsAtTarget(from: real, to: real, duration: real, e: Easing, start: real, frames: seq<real>, k: int)
    requires duration > 0.0
    requires 0 <= k < |frames| && frames[k] - start >= duration
    ensures 0 < |Emitted(from, to, duration, e, start, frames)| <= k + 1
    ensures Emitted(from, to, duration, e, start, frames)[|Emitted(from, to, duration, e, start, frames)| - 1] == to
  {
    if Progress(frames[0] - start, duration) < 1.0 {
      assert k > 0;
      EmittedEndsAtTarget(from, to, duration, e, start, frames[1..], k - 1);
    } else {
      ApplyInRange(e, 1.0);
    }
  }

  predicate AllBetween(vs: seq<real>, lo: real, hi: real)
  {
    forall i :: 0 <= i < |vs| ==> lo <= vs[i] <= hi
  }

  /** For frames at or after the start, every value written lies between
      `from` and `to`: the tween never overshoots with either easing. */
  lemma {:induction false} EmittedBetween(from: real, to: real, duration: real, e: Easing, start: real, frames: seq<real>)
    requires duration > 0.0
    requires forall i :: 0 <= i < |frames| ==> frames[i] >= start
    ensures AllBetween(Emitted(from, to, duration, e, start, frames), MinR(from, to), MaxR(from, to))
  {
    if frames != [] {
      var v := Sample(from, to, duration, e, frames[0] - start);
      SampleInRange(from, to, duration, e, frames[0] - start);
      if Progress(frames[0] - start, duration) < 1.0 {
        var rest := Emitted(from, to, duration, e, start, frames[1..]);
        EmittedBetween(from, to, duration, e, start, frames[1..]);
        assert Emitted(from, to, duration, e, start, frames) == [v] + rest;
      }
    }
  }

  /** Scaling a non-negative span by a factor in [0,1] stays inside the span. */
  lemma ScaleWithin(k: real, a: real, p: real)
    requires 0.0 <= k && 0.0 <= a <= 1.0 && p == k * a
    ensures 0.0 <= p && p <= k
  {
    assert k * (1.0 - a) >= 0.0;
    assert k * a + k * (1.0 - a) == k;
  }

  lemma SampleInRange(from: real, to: real, duration: real, e: Easing, elapsed: real)
    requires duration > 0.0 && elapsed >= 0.0
    ensures MinR(from, to) <= Sample(from, to, duration, e, elapsed) <= MaxR(from, to)
  {
    var p := Progress(elapsed, duration);
    ApplyInRange(e, p);
    SampleBetween(from, to, Apply(e, p));
  }

  lemma SampleBetween(from: real, to: real, a: real)
    requires 0.0 <= a <= 1.0
    ensures MinR(from, to) <= from + (to - from) * a <= MaxR(from, to)
  {
    if from <= to {
      ScaleWithin(to - from, a, (to - from) * a);
    } else {
      ScaleWithin(from - to, a, (from - to) * a);
      assert (to - from) * a == -((from - to) * a);
    }
  }
}

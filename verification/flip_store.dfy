/** The flip machinery of the shipped store (`Te` in dist/index.es.js).
    At most one page is meant to be in flight: a flip claims the slot
    (`flippingPageIndex`, `flipProgress`, `flipDirection`), an animation
    callback advances `flipProgress` from 0 to 1 over 500 ms, and the slot
    is released at 1. Unlike stores/bookStore.ts, no flip ever changes
    `currentPage`.

    Scheduling is explicit: a `World` holds the store, the callbacks still
    pending (animation-frame tickers and timers) and the last time seen.
    An event either calls a store action or fires one pending callback. */
module FlipStore {
  import opened Util
  import BookConfig
  import Tween

  datatype Direction = Forward | Backward

  /** One flip takes 500 ms. */
  const FlipDuration: real := 500.0
  /** Pause before a continuous flip re-triggers itself. */
  const ContinueDelay: real := 100.0
  /** Pause between the flips of `flipPages`. */
  const BatchDelay: real := 50.0

  datatype State = State(
    config: BookConfig.Config,
    testPageFlipAngle: real,
    flippingPageIndex: Option<int>,
    flipProgress: real,
    flipDirection: Option<Direction>,
    isFlippingContinuously: bool,
    continuousDirection: Option<Direction>)

  /** The bundle's `se`: the shared initial fields plus an empty flip slot. */
  const Initial: State := State(BookConfig.Initial, 0.0, None, 0.0, None, false, None)

  /** A callback waiting to run. Tickers are the animation-frame callbacks
      of a flip in flight (`start` is the time the flip began); timers are
      `setTimeout` callbacks that may run at `due` or later. `done` counts
      the flips of a `flipPages` batch already completed. */
  datatype Job =
    | FlipTicker(dir: Direction, start: real)
    | BatchTicker(done: nat, count: int, dir: Direction, start: real)
    | ContinueTimer(dir: Direction, due: real)
    | BatchTimer(done: nat, count: int, dir: Direction, due: real)

  predicate IsTicker(j: Job)
  {
    j.FlipTicker? || j.BatchTicker?
  }

  /** The earliest time a callback can run. */
  function Due(j: Job): real
  {
    match j
    case FlipTicker(_, start) => start
    case BatchTicker(_, _, _, start) => start
    case ContinueTimer(_, due) => due
    case BatchTimer(_, _, _, due) => due
  }

  /** What one action or callback does: the new store and the callbacks it schedules. */
  datatype Effect = Effect(state: State, spawned: seq<Job>)

  /** The page a flip in direction `d` would move to, as the store computes
      it before deciding whether there is anywhere to go. */
  function Target(c: BookConfig.Config, d: Direction): int
  {
    match d
    case Forward => MinI(c.currentPage + 1, c.pageCount - 1)
    case Backward => MaxI(c.currentPage - 1, 0)
  }

  /** Claim the flip slot for the current page. */
  function Claim(s: State, d: Option<Direction>): State
  {
    s.(flippingPageIndex := Some(s.config.currentPage), flipProgress := 0.0, flipDirection := d)
  }

  /** Release the flip slot: `(null, 0, null)`. */
  function Release(s: State): State
  {
    s.(flippingPageIndex := None, flipProgress := 0.0, flipDirection := None)
  }

  /** `flipPage(d)`: refused while a flip is in flight or when there is no
      page to go to; otherwise claims the slot for the current page and
      starts a ticker. The page itself never changes. */
  function FlipPage(s: State, d: Direction, now: real): (r: Effect)
    ensures r.state.config == s.config
    ensures s.flippingPageIndex.Some? ==> r == Effect(s, [])
    ensures Target(s.config, d) == s.config.currentPage ==> r == Effect(s, [])
    ensures s.flippingPageIndex.None? && Target(s.config, d) != s.config.currentPage ==>
              && r.state.flippingPageIndex == Some(s.config.currentPage)
              && r.state.flipProgress == 0.0
              && r.state.flipDirection == Some(d)
              && r.spawned == [FlipTicker(d, now)]
  {
    if s.flippingPageIndex.Some? then Effect(s, [])
    else if Target(s.config, d) == s.config.currentPage then Effect(s, [])
    else Effect(Claim(s, Some(d)), [FlipTicker(d, now)])
  }

  /** In a valid book, flipping forward on the last page and backward on the
      first page does nothing; anywhere else, with the slot free, the flip
      is accepted. */
  lemma FlipPageAtEnds(s: State, d: Direction, now: real)
    requires BookConfig.Valid(s.config)
    ensures d == Forward && s.config.currentPage == s.config.pageCount - 1 ==> FlipPage(s, d, now) == Effect(s, [])
    ensures d == Backward && s.config.currentPage == 0 ==> FlipPage(s, d, now) == Effect(s, [])
    ensures s.flippingPageIndex.None? && d == Forward && s.config.currentPage < s.config.pageCount - 1 ==>
              FlipPage(s, d, now).state.flippingPageIndex.Some?
    ensures s.flippingPageIndex.None? && d == Backward && s.config.currentPage > 0 ==>
              FlipPage(s, d, now).state.flippingPageIndex.Some?
  {
  }

  /** One animation frame of a single flip at time `now`: progress is
      `min(elapsed/500, 1)`; below 1 the ticker re-schedules itself; at 1 the
      slot is released and, only if continuous flipping is on in the same
      direction, a follow-up timer is set for 100 ms later. */
  function TickFlip(s: State, d: Direction, start: real, now: real): (r: Effect)
    ensures r.state.config == s.config
    ensures var h := Tween.Progress(now - start, FlipDuration);
            if h < 1.0 then
              && r.state == s.(flipProgress := h)
              && r.spawned == [FlipTicker(d, start)]
            else
              && r.state == Release(s)
              && (r.spawned == [ContinueTimer(d, now + ContinueDelay)] <==>
                    s.isFlippingContinuously && s.continuousDirection == Some(d))
              && (r.spawned == [] <==> !(s.isFlippingContinuously && s.continuousDirection == Some(d)))
  {
    var h := Tween.Progress(now - start, FlipDuration);
    if h < 1.0 then Effect(s.(flipProgress := h), [FlipTicker(d, start)])
    else if s.isFlippingContinuously && s.continuousDirection == Some(d) then
      Effect(Release(s), [ContinueTimer(d, now + ContinueDelay)])
    else Effect(Release(s), [])
  }

  /** The follow-up timer re-checks the continuous-flip flags when it fires. */
  function FireContinue(s: State, d: Direction, now: real): (r: Effect)
    ensures !(s.isFlippingContinuously && s.continuousDirection == Some(d)) ==> r == Effect(s, [])
    ensures s.isFlippingContinuously && s.continuousDirection == Some(d) ==> r == FlipPage(s, d, now)
  {
    if s.isFlippingContinuously && s.continuousDirection == Some(d) then FlipPage(s, d, now)
    else Effect(s, [])
  }

  /** `toggleContinuousFlip(d)`: a second toggle in the same direction stops
      continuous flipping; any other toggle starts it in direction `d` and
      flips once. */
  function ToggleContinuousFlip(s: State, d: Direction, now: real): (r: Effect)
    ensures s.isFlippingContinuously && s.continuousDirection == Some(d) ==>
              r == Effect(s.(isFlippingContinuously := false, continuousDirection := None), [])
    ensures !(s.isFlippingContinuously && s.continuousDirection == Some(d)) ==>
              && r.state.isFlippingContinuously && r.state.continuousDirection == Some(d)
              && r == FlipPage(s.(isFlippingContinuously := true, continuousDirection := Some(d)), d, now)
  {
    if s.isFlippingContinuously && s.continuousDirection == Some(d) then
      Effect(s.(isFlippingContinuously := false, continuousDirection := None), [])
    else
      FlipPage(s.(isFlippingContinuously := true, continuousDirection := Some(d)), d, now)
  }

  /** Toggling twice in the same direction from the idle state leaves the
      flags as they were. */
  lemma ToggleTwiceStops(s: State, d: Direction, now: real, later: real)
    requires !s.isFlippingContinuously && s.continuousDirection.None?
    ensures var once := ToggleContinuousFlip(s, d, now).state;
            var twice := ToggleContinuousFlip(once, d, later).state;
            !twice.isFlippingContinuously && twice.continuousDirection.None?
  {
  }

  /** How the `flipPages` continuation treats a flip already in flight:
      as shipped it does not look, the corrected form gives up. */
  datatype Continuation = AsWritten | Guarded

  /** The `flipPages` continuation `x` after `done` completed flips: stops
      after `count` flips or at the boundary, otherwise claims the slot for
      the current page (without setting `flipDirection`) and starts a ticker.
      As written it does not check whether a flip is already in flight. */
  function BatchStep(s: State, done: nat, count: int, d: Direction, now: real, v: Continuation): (r: Effect)
    ensures r.state.config == s.config
    ensures r.state.flipDirection == s.flipDirection
    ensures done as int >= count || Target(s.config, d) == s.config.currentPage ==> r == Effect(s, [])
    ensures v == Guarded && s.flippingPageIndex.Some? ==> r == Effect(s, [])
    ensures r.spawned == [] || r.spawned == [BatchTicker(done, count, d, now)]
    ensures r.spawned != [] ==> done < count && r.state == s.(flippingPageIndex := Some(s.config.currentPage), flipProgress := 0.0)
  {
    if done as int >= count then Effect(s, [])
    else if v == Guarded && s.flippingPageIndex.Some? then Effect(s, [])
    else if Target(s.config, d) == s.config.currentPage then Effect(s, [])
    else Effect(Claim(s, s.flipDirection), [BatchTicker(done, count, d, now)])
  }

  /** `flipPages(count, d)`: refused while a flip is in flight, otherwise
      runs the continuation at once with no flips done. */
  function FlipPages(s: State, count: int, d: Direction, now: real): (r: Effect)
    ensures r.state.config == s.config
    ensures s.flippingPageIndex.Some? || count <= 0 ==> r == Effect(s, [])
    ensures r.spawned == [] || r.spawned == [BatchTicker(0, count, d, now)]
  {
    if s.flippingPageIndex.Some? then Effect(s, [])
    else BatchStep(s, 0, count, d, now, AsWritten)
  }

  /** One animation frame of a batch flip: like `TickFlip`, but on
      completion it counts the flip and, while fewer than `count` are done,
      sets the 50 ms timer for the next one. */
  function TickBatch(s: State, done: nat, count: int, d: Direction, start: real, now: real): (r: Effect)
    ensures r.state.config == s.config
    ensures var h := Tween.Progress(now - start, FlipDuration);
            if h < 1.0 then
              && r.state == s.(flipProgress := h)
              && r.spawned == [BatchTicker(done, count, d, start)]
            else
              && r.state == Release(s)
              && (done + 1 < count ==> r.spawned == [BatchTimer(done + 1, count, d, now + BatchDelay)])
              && (done + 1 >= count ==> r.spawned == [])
  {
    var h := Tween.Progress(now - start, FlipDuration);
    if h < 1.0 then Effect(s.(flipProgress := h), [BatchTicker(done, count, d, start)])
    else if done + 1 < count then Effect(Release(s), [BatchTimer(done + 1, count, d, now + BatchDelay)])
    else Effect(Release(s), [])
  }

  /** The store actions a caller can invoke. */
  datatype Action =
    | FlipPageCall(d: Direction)
    | ToggleCall(d: Direction)
    | FlipPagesCall(count: int, d: Direction)
    | SetPageCountCall(count: int)
    | SetCurrentPageCall(page: int)
    | SetDimensionsCall(patch: BookConfig.DimensionsPatch)
    | SetTestPageFlipAngleCall(angle: real)
    | ResetCall

  /** A store action at time `now`. Setting the current page needs a
      positive page count (JavaScript would store NaN otherwise). */
  function Call(s: State, a: Action, now: real): (r: Effect)
    requires a.SetCurrentPageCall? ==> s.config.pageCount > 0
    ensures a.FlipPageCall? || a.ToggleCall? || a.FlipPagesCall? || a.SetTestPageFlipAngleCall? ==> r.state.config == s.config
    ensures !a.ResetCall? && s.flippingPageIndex.Some? ==>
              r.state.flippingPageIndex == s.flippingPageIndex && r.state.flipProgress == s.flipProgress && r.spawned == []
    ensures a.ResetCall? ==> r == Effect(Initial, [])
  {
    match a
    case FlipPageCall(d) => FlipPage(s, d, now)
    case ToggleCall(d) => ToggleContinuousFlip(s, d, now)
    case FlipPagesCall(count, d) => FlipPages(s, count, d, now)
    case SetPageCountCall(count) => Effect(s.(config := BookConfig.SetPageCount(s.config, count)), [])
    case SetCurrentPageCall(page) => Effect(s.(config := BookConfig.SetCurrentPage(s.config, page)), [])
    case SetDimensionsCall(patch) => Effect(s.(config := BookConfig.SetDimensions(s.config, patch)), [])
    case SetTestPageFlipAngleCall(angle) => Effect(s.(testPageFlipAngle := angle), [])
    case ResetCall => Effect(Initial, [])
  }

  /** A pending callback runs at time `now`. */
  function Fire(s: State, j: Job, now: real, v: Continuation): (r: Effect)
    ensures r.state.config == s.config
  {
    match j
    case FlipTicker(d, start) => TickFlip(s, d, start, now)
    case BatchTicker(done, count, d, start) => TickBatch(s, done, count, d, start, now)
    case ContinueTimer(d, _) => FireContinue(s, d, now)
    case BatchTimer(done, count, d, _) => BatchStep(s, done, count, d, now, v)
  }

  datatype World = World(store: State, jobs: seq<Job>, clock: real)

  datatype Event = Act(action: Action) | Run(job: nat)

  function Remove(jobs: seq<Job>, i: nat): (r: seq<Job>)
    requires i < |jobs|
    ensures |r| == |jobs| - 1
    ensures forall k :: 0 <= k < |r| ==> r[k] == (if k < i then jobs[k] else jobs[k + 1])
  {
    jobs[..i] + jobs[i + 1..]
  }

  /** Time never runs backwards, a callback runs only if pending and due,
      and setting the current page needs a positive page count. */
  predicate Enabled(w: World, e: Event, now: real)
  {
    && now >= w.clock
    && (e.Run? ==> e.job < |w.jobs| && now >= Due(w.jobs[e.job]))
    && (e.Act? && e.action.SetCurrentPageCall? ==> w.store.config.pageCount > 0)
  }

  function Step(w: World, e: Event, now: real, v: Continuation): (r: World)
    requires Enabled(w, e, now)
    ensures r.clock == now
    ensures e.Run? ==> r.store.config == w.store.config
  {
    match e
    case Act(a) =>
      var eff := Call(w.store, a, now);
      World(eff.state, w.jobs + eff.spawned, now)
    case Run(i) =>
      var eff := Fire(w.store, w.jobs[i], now, v);
      World(eff.state, Remove(w.jobs, i) + eff.spawned, now)
  }

  /** No flip callback ever touches `currentPage` (or any other
      configuration field): only the explicit setters and reset do. */
  lemma FlipsNeverMovePage(w: World, e: Event, now: real, v: Continuation)
    requires Enabled(w, e, now)
    requires e.Run? || e.action.FlipPageCall? || e.action.ToggleCall? || e.action.FlipPagesCall?
    ensures Step(w, e, now, v).store.config == w.store.config
  {
  }

  function TickerCount(jobs: seq<Job>): (n: nat)
    ensures n <= |jobs|
  {
    if jobs == [] then 0 else (if IsTicker(jobs[0]) then 1 else 0) + TickerCount(jobs[1..])
  }

  lemma {:induction false} TickerCountAppend(a: seq<Job>, b: seq<Job>)
    ensures TickerCount(a + b) == TickerCount(a) + TickerCount(b)
  {
    if a != [] {
      assert (a + b)[1..] == a[1..] + b;
      TickerCountAppend(a[1..], b);
    } else {
      assert a + b == b;
    }
  }

  lemma TickerCountRemove(jobs: seq<Job>, i: nat)
    requires i < |jobs|
    ensures TickerCount(jobs) == TickerCount(Remove(jobs, i)) + (if IsTicker(jobs[i]) then 1 else 0)
  {
    var a, b := jobs[..i], jobs[i + 1..];
    var xb := [jobs[i]] + b;
    assert jobs == a + xb;
    assert xb[1..] == b;
    assert TickerCount(xb) == (if IsTicker(jobs[i]) then 1 else 0) + TickerCount(b);
    TickerCountAppend(a, xb);
    TickerCountAppend(a, b);
    assert Remove(jobs, i) == a + b;
  }

  /** No tickers at all exactly when the count is zero. */
  lemma {:induction false} TickerCountZero(jobs: seq<Job>)
    ensures TickerCount(jobs) == 0 <==> forall k :: 0 <= k < |jobs| ==> !IsTicker(jobs[k])
  {
    if jobs != [] {
      TickerCountZero(jobs[1..]);
      assert forall k :: 1 <= k < |jobs| ==> jobs[k] == jobs[1..][k - 1];
    }
  }

  /** A ticker's flip began no later than `clock`, and the stored progress
      is no ahead of what the ticker would write at `clock`. */
  ghost predicate TickerBehind(j: Job, clock: real, progress: real)
    requires IsTicker(j)
  {
    Due(j) <= clock && progress <= Tween.Progress(clock - Due(j), FlipDuration)
  }

  ghost predicate TickersBehind(jobs: seq<Job>, clock: real, progress: real)
  {
    forall k :: 0 <= k < |jobs| && IsTicker(jobs[k]) ==> TickerBehind(jobs[k], clock, progress)
  }

  /** One flip in flight, and the slot says so:
      - the book is valid;
      - at most one ticker is pending, and one is pending exactly when the slot is claimed;
      - a free slot has progress 0 and no direction;
      - progress is in [0, 1) and never ahead of the pending ticker. */
  ghost predicate Inv(w: World)
  {
    && BookConfig.Valid(w.store.config)
    && TickerCount(w.jobs) <= 1
    && (TickerCount(w.jobs) == 1 <==> w.store.flippingPageIndex.Some?)
    && (w.store.flippingPageIndex.None? ==> w.store.flipProgress == 0.0 && w.store.flipDirection.None?)
    && 0.0 <= w.store.flipProgress < 1.0
    && TickersBehind(w.jobs, w.clock, w.store.flipProgress)
  }

  lemma InitialInv(jobs: seq<Job>, clock: real)
    requires forall k :: 0 <= k < |jobs| ==> !IsTicker(jobs[k])
    ensures Inv(World(Initial, jobs, clock))
  {
    TickerCountZero(jobs);
  }

  /** Moving the clock forward keeps every ticker behind. */
  lemma AdvanceKeepsBehind(jobs: seq<Job>, c1: real, c2: real, p: real)
    requires c1 <= c2 && TickersBehind(jobs, c1, p)
    ensures TickersBehind(jobs, c2, p)
  {
    forall k | 0 <= k < |jobs| && IsTicker(jobs[k])
      ensures TickerBehind(jobs[k], c2, p)
    {
      Tween.ProgressMonotone(c1 - Due(jobs[k]), c2 - Due(jobs[k]), FlipDuration);
    }
  }

  /** Jobs without tickers are trivially behind. */
  lemma NoTickersBehind(jobs: seq<Job>, clock: real, p: real)
    requires TickerCount(jobs) == 0
    ensures TickersBehind(jobs, clock, p)
  {
    TickerCountZero(jobs);
  }

  /** A store action keeps the invariant, with one exception: resetting the
      store while a flip is in flight (see `ResetMidFlightOrphansTicker`). */
  lemma ActKeepsInv(w: World, a: Action, now: real, v: Continuation)
    requires Inv(w) && Enabled(w, Act(a), now)
    requires a.ResetCall? ==> w.store.flippingPageIndex.None?
    ensures Inv(Step(w, Act(a), now, v))
  {
    var eff := Call(w.store, a, now);
    var w' := Step(w, Act(a), now, v);
    TickerCountAppend(w.jobs, eff.spawned);
    AdvanceKeepsBehind(w.jobs, w.clock, now, w.store.flipProgress);
    match a
    case SetPageCountCall(_) =>
    case SetCurrentPageCall(_) =>
    case SetDimensionsCall(_) =>
    case SetTestPageFlipAngleCall(_) =>
    case ResetCall =>
      NoTickersBehind(w.jobs, now, 0.0);
    case FlipPageCall(_) =>
      StartShapes(w.store, a, now);
      StartKeepsInv(w, eff, now);
    case ToggleCall(_) =>
      StartShapes(w.store, a, now);
      StartKeepsInv(w, eff, now);
    case FlipPagesCall(_, _) =>
      StartShapes(w.store, a, now);
      StartKeepsInv(w, eff, now);
  }

  /** The common shape of every way a flip starts: either nothing happens,
      or a free slot is claimed and exactly one ticker starting now is added. */
  lemma StartKeepsInv(w: World, eff: Effect, now: real)
    requires Inv(w) && now >= w.clock
    requires eff.state.config == w.store.config
    requires || (eff.state.flippingPageIndex == w.store.flippingPageIndex
                 && eff.state.flipProgress == w.store.flipProgress
                 && eff.state.flipDirection == w.store.flipDirection
                 && eff.spawned == [])
             || (w.store.flippingPageIndex.None? && eff.state.flippingPageIndex.Some?
                 && eff.state.flipProgress == 0.0
                 && |eff.spawned| == 1 && IsTicker(eff.spawned[0]) && Due(eff.spawned[0]) == now)
    ensures Inv(World(eff.state, w.jobs + eff.spawned, now))
  {
    TickerCountAppend(w.jobs, eff.spawned);
    AdvanceKeepsBehind(w.jobs, w.clock, now, w.store.flipProgress);
    if eff.spawned != [] {
      assert TickerCount(eff.spawned) == 1 by {
        assert eff.spawned[1..] == [];
      }
      NoTickersBehind(w.jobs, now, 0.0);
      var js := w.jobs + eff.spawned;
      forall k | 0 <= k < |js| && IsTicker(js[k])
        ensures TickerBehind(js[k], now, 0.0)
      {
        if k < |w.jobs| {
          assert js[k] == w.jobs[k];
        }
      }
    }
  }

  /** Every action that may start a flip has that shape. */
  lemma StartShapes(s: State, a: Action, now: real)
    requires a.FlipPageCall? || a.ToggleCall? || a.FlipPagesCall?
    ensures var eff := Call(s, a, now);
            || (eff.state.flippingPageIndex == s.flippingPageIndex
                && eff.state.flipProgress == s.flipProgress
                && eff.state.flipDirection == s.flipDirection
                && eff.spawned == [])
            || (s.flippingPageIndex.None? && eff.state.flippingPageIndex.Some?
                && eff.state.flipProgress == 0.0
                && |eff.spawned| == 1 && IsTicker(eff.spawned[0]) && Due(eff.spawned[0]) == now)
  {
  }

  /** The timers' shapes: with the guarded continuation, a timer either does
      nothing or starts a flip from a free slot. As written, the batch timer
      can also claim a slot that is already taken. */
  lemma TimerShapes(s: State, j: Job, now: real)
    requires j.ContinueTimer? || j.BatchTimer?
    ensures var eff := Fire(s, j, now, Guarded);
            || (eff.state.flippingPageIndex == s.flippingPageIndex
                && eff.state.flipProgress == s.flipProgress
                && eff.state.flipDirection == s.flipDirection
                && eff.spawned == [])
            || (s.flippingPageIndex.None? && eff.state.flippingPageIndex.Some?
                && eff.state.flipProgress == 0.0
                && |eff.spawned| == 1 && IsTicker(eff.spawned[0]) && Due(eff.spawned[0]) == now)
  {
  }

  /** Taking a timer off the pending list keeps the invariant. */
  lemma RemoveTimerKeepsInv(w: World, i: nat)
    requires Inv(w) && i < |w.jobs| && !IsTicker(w.jobs[i])
    ensures Inv(World(w.store, Remove(w.jobs, i), w.clock))
  {
    TickerCountRemove(w.jobs, i);
  }

  /** A ticker's frame keeps the invariant: it is the only ticker, so the
      rest of the list has none; it either advances the progress to exactly
      what it computes at `now` or releases the slot and leaves at most a
      timer behind. */
  lemma TickKeepsInv(w: World, i: nat, now: real, v: Continuation)
    requires Inv(w) && Enabled(w, Run(i), now) && IsTicker(w.jobs[i])
    ensures Inv(Step(w, Run(i), now, v))
  {
    var j := w.jobs[i];
    var rest := Remove(w.jobs, i);
    TickerCountRemove(w.jobs, i);
    assert TickerCount(rest) == 0;
    TickerCountZero(rest);
    var eff := Fire(w.store, j, now, v);
    var h := Tween.Progress(now - Due(j), FlipDuration);
    TickerCountAppend(rest, eff.spawned);
    assert 0.0 <= h;
    if h < 1.0 {
      assert eff.spawned == [j];
      assert TickerCount(eff.spawned) == 1 by {
        assert eff.spawned[1..] == [];
      }
      var js := rest + eff.spawned;
      forall k | 0 <= k < |js| && IsTicker(js[k])
        ensures TickerBehind(js[k], now, h)
      {
        assert js[k] == j;
      }
    } else {
      assert TickerCount(eff.spawned) == 0 by {
        if eff.spawned != [] {
          assert eff.spawned[1..] == [];
        }
      }
      NoTickersBehind(rest + eff.spawned, now, 0.0);
    }
  }

  /** The corrected store keeps at most one flip in flight: every event
      preserves the invariant, except a reset while a flip is in flight. */
  lemma GuardedKeepsInv(w: World, e: Event, now: real)
    requires Inv(w) && Enabled(w, e, now)
    requires e == Act(ResetCall) ==> w.store.flippingPageIndex.None?
    ensures Inv(Step(w, e, now, Guarded))
  {
    match e
    case Act(a) =>
      ActKeepsInv(w, a, now, Guarded);
    case Run(i) =>
      if IsTicker(w.jobs[i]) {
        TickKeepsInv(w, i, now, Guarded);
      } else {
        var w0 := World(w.store, Remove(w.jobs, i), w.clock);
        RemoveTimerKeepsInv(w, i);
        TimerShapes(w.store, w.jobs[i], now);
        StartKeepsInv(w0, Fire(w.store, w.jobs[i], now, Guarded), now);
      }
  }

  /** While the same flip stays in flight, its progress never goes back. */
  lemma GuardedProgressMonotone(w: World, e: Event, now: real)
    requires Inv(w) && Enabled(w, e, now)
    requires e != Act(ResetCall)
    requires w.store.flippingPageIndex.Some?
    ensures var w' := Step(w, e, now, Guarded);
            w'.store.flippingPageIndex.Some? ==>
              w'.store.flippingPageIndex == w.store.flippingPageIndex && w'.store.flipProgress >= w.store.flipProgress
  {
    if e.Run? && IsTicker(w.jobs[e.job]) {
      var j := w.jobs[e.job];
      assert TickerBehind(j, w.clock, w.store.flipProgress);
      Tween.ProgressMonotone(w.clock - Due(j), now - Due(j), FlipDuration);
    }
  }

  /** As shipped, the `flipPages` continuation breaks the one-flip rule.
      From the initial book: `flipPages(2, forward)` at 0 ms; its first flip
      completes at 500 ms and sets the 50 ms timer; `flipPage(forward)` at
      510 ms finds the slot free and starts; the timer fires at 550 ms and
      claims the slot again without looking, so two tickers run. When the
      single flip completes at 1010 ms it frees the slot, and the batch
      ticker's next frame at 1020 ms writes progress 0.94 into a free slot.
      The corrected continuation drops its flip at 550 ms and keeps the
      invariant. */
  lemma ContinuationRace()
    ensures var w0 := World(Initial, [], 0.0);
            var w1 := Step(w0, Act(FlipPagesCall(2, Forward)), 0.0, AsWritten);
            var w2 := Step(w1, Run(0), 500.0, AsWritten);
            var w3 := Step(w2, Act(FlipPageCall(Forward)), 510.0, AsWritten);
            var w4 := Step(w3, Run(0), 550.0, AsWritten);
            var w5 := Step(w4, Run(0), 1010.0, AsWritten);
            var w6 := Step(w5, Run(0), 1020.0, AsWritten);
            && Inv(w3)
            && TickerCount(w4.jobs) == 2 && !Inv(w4)
            && w6.store.flippingPageIndex.None? && w6.store.flipProgress == 0.94
            && Inv(Step(w3, Run(0), 550.0, Guarded))
  {
    var w3 := RacePrefix();
    RaceTail(w3);
  }

  /** The first three events of the race: the batch's first flip and the
      single flip both start legally, and the guarded continuation at 550 ms
      keeps the invariant. */
  lemma RacePrefix() returns (w3: World)
    ensures w3 == Step(Step(Step(World(Initial, [], 0.0), Act(FlipPagesCall(2, Forward)), 0.0, AsWritten),
                            Run(0), 500.0, AsWritten), Act(FlipPageCall(Forward)), 510.0, AsWritten)
    ensures Inv(w3) && w3.clock == 510.0
    ensures w3.store.config == BookConfig.Initial && !w3.store.isFlippingContinuously
    ensures w3.jobs == [BatchTimer(1, 2, Forward, 550.0), FlipTicker(Forward, 510.0)]
    ensures Inv(Step(w3, Run(0), 550.0, Guarded))
  {
    var w0 := World(Initial, [], 0.0);
    InitialInv([], 0.0);
    GuardedKeepsInv(w0, Act(FlipPagesCall(2, Forward)), 0.0);
    var w1 := Step(w0, Act(FlipPagesCall(2, Forward)), 0.0, AsWritten);
    assert w1.jobs == [BatchTicker(0, 2, Forward, 0.0)];
    assert Step(w0, Act(FlipPagesCall(2, Forward)), 0.0, Guarded) == w1;
    GuardedKeepsInv(w1, Run(0), 500.0);
    var w2 := Step(w1, Run(0), 500.0, AsWritten);
    assert w2.jobs == [BatchTimer(1, 2, Forward, 550.0)];
    assert Step(w1, Run(0), 500.0, Guarded) == w2;
    GuardedKeepsInv(w2, Act(FlipPageCall(Forward)), 510.0);
    w3 := Step(w2, Act(FlipPageCall(Forward)), 510.0, AsWritten);
    assert Step(w2, Act(FlipPageCall(Forward)), 510.0, Guarded) == w3;
    assert w3.jobs == [BatchTimer(1, 2, Forward, 550.0), FlipTicker(Forward, 510.0)];
    GuardedKeepsInv(w3, Run(0), 550.0);
  }

  /** The rest of the race from any valid world with the batch timer due at
      550 ms and the single flip's ticker begun at 510 ms: the unguarded
      continuation starts a second ticker, and the batch ticker later
      writes progress into the slot the single flip freed. */
  lemma RaceTail(w3: World)
    requires Inv(w3) && w3.clock == 510.0
    requires w3.store.config == BookConfig.Initial && !w3.store.isFlippingContinuously
    requires w3.jobs == [BatchTimer(1, 2, Forward, 550.0), FlipTicker(Forward, 510.0)]
    ensures var w4 := Step(w3, Run(0), 550.0, AsWritten);
            var w5 := Step(w4, Run(0), 1010.0, AsWritten);
            var w6 := Step(w5, Run(0), 1020.0, AsWritten);
            && TickerCount(w4.jobs) == 2 && !Inv(w4)
            && w6.store.flippingPageIndex.None? && w6.store.flipProgress == 0.94
  {
    var w4 := Step(w3, Run(0), 550.0, AsWritten);
    assert w4.jobs == [FlipTicker(Forward, 510.0), BatchTicker(1, 2, Forward, 550.0)];
    assert TickerCount(w4.jobs[1..]) == 1 by {
      assert w4.jobs[1..][1..] == [];
    }
    var w5 := Step(w4, Run(0), 1010.0, AsWritten);
    assert w5.jobs == [BatchTicker(1, 2, Forward, 550.0)];
    var w6 := Step(w5, Run(0), 1020.0, AsWritten);
    assert Tween.Progress(1020.0 - 550.0, FlipDuration) == 0.94;
  }

  /** Resetting the store while a flip is in flight frees the slot but
      leaves the flip's ticker running, which then writes progress into the
      free slot: 0.4 at 200 ms for a flip begun at 0 ms and reset at 100 ms. */
  lemma ResetMidFlightOrphansTicker(v: Continuation)
    ensures var w0 := World(Initial, [], 0.0);
            var w1 := Step(w0, Act(FlipPageCall(Forward)), 0.0, v);
            var w2 := Step(w1, Act(ResetCall), 100.0, v);
            var w3 := Step(w2, Run(0), 200.0, v);
            && Inv(w1) && !Inv(w2)
            && w3.store.flippingPageIndex.None? && w3.store.flipProgress == 0.4
  {
    var w0 := World(Initial, [], 0.0);
    InitialInv([], 0.0);
    GuardedKeepsInv(w0, Act(FlipPageCall(Forward)), 0.0);
    var w1 := Step(w0, Act(FlipPageCall(Forward)), 0.0, v);
    assert Step(w0, Act(FlipPageCall(Forward)), 0.0, Guarded) == w1;
    assert w1.jobs == [FlipTicker(Forward, 0.0)];
    var w2 := Step(w1, Act(ResetCall), 100.0, v);
    assert w2.jobs == [FlipTicker(Forward, 0.0)];
    assert TickerCount(w2.jobs) == 1 by {
      assert w2.jobs[1..] == [];
    }
    assert Tween.Progress(200.0 - 0.0, FlipDuration) == 0.4;
  }
}

/** The React-side store of stores/bookStore.ts. In this variant a flip
    changes `currentPage` at once; there is no in-flight animation slot. */
module SourceStore {
  import opened Util
  import BookConfig

  datatype Direction = Forward | Backward

  /** The page a single flip moves to: one step, but never past either end. */
  function Neighbour(c: BookConfig.Config, d: Direction): int
  {
    match d
    case Forward => MinI(c.currentPage + 1, c.pageCount - 1)
    case Backward => MaxI(c.currentPage - 1, 0)
  }

  /** `flipPage`: move one page in direction `d`, stopping at the ends;
      nothing but `currentPage` changes. */
  function FlipPage(c: BookConfig.Config, d: Direction): (r: BookConfig.Config)
    ensures r == c.(currentPage := r.currentPage)
    ensures d == Forward ==> r.currentPage == MinI(c.currentPage + 1, c.pageCount - 1)
    ensures d == Backward ==> r.currentPage == MaxI(c.currentPage - 1, 0)
  {
    c.(currentPage := Neighbour(c, d))
  }

  /** In a valid book a forward flip moves exactly one page unless it is
      already on the last page, where it is a no-op; symmetrically backward. */
  lemma FlipPageSteps(c: BookConfig.Config, d: Direction)
    requires BookConfig.Valid(c)
    ensures BookConfig.Valid(FlipPage(c, d))
    ensures d == Forward && c.currentPage < c.pageCount - 1 ==> FlipPage(c, d).currentPage == c.currentPage + 1
    ensures d == Forward && c.currentPage == c.pageCount - 1 ==> FlipPage(c, d) == c
    ensures d == Backward && c.currentPage > 0 ==> FlipPage(c, d).currentPage == c.currentPage - 1
    ensures d == Backward && c.currentPage == 0 ==> FlipPage(c, d) == c
  {
  }

  /** How far a valid book can still move in direction `d`. */
  function Room(c: BookConfig.Config, d: Direction): int
  {
    match d
    case Forward => c.pageCount - 1 - c.currentPage
    case Backward => c.currentPage
  }

  /** What one `flipNext` callback leaves behind: the store it wrote (or
      left alone), the count of pages flipped so far, and whether it
      scheduled another callback. */
  datatype Tick = Tick(config: BookConfig.Config, flipped: nat, again: bool)

  /** One `flipNext` callback of a `flipPages(count, d)` chain, run against
      whatever store `c` it finds when it fires: once `count` pages are
      flipped it does nothing; otherwise it takes one `flipPage` step, counts
      it only if the page moved, and schedules a successor only if it moved
      and the count is not yet reached. */
  function FlipNext(c: BookConfig.Config, flipped: nat, count: int, d: Direction): (t: Tick)
    ensures flipped >= count ==> t == Tick(c, flipped, false)
    ensures flipped < count ==> t.config == FlipPage(c, d)
    ensures t.flipped == flipped + 1 <==> flipped < count && t.config.currentPage != c.currentPage
    ensures t.flipped != flipped + 1 ==> t.flipped == flipped
    ensures t.again <==> t.flipped == flipped + 1 && t.flipped < count
    ensures BookConfig.Valid(c) ==> BookConfig.Valid(t.config)
  {
    if flipped >= count then Tick(c, flipped, false)
    else
      var next := Neighbour(c, d);
      if next != c.currentPage then
        Tick(c.(currentPage := next), flipped + 1, flipped + 1 < count)
      else
        Tick(c, flipped, false)
  }

  /** `flipPages(count, d)` as the chain of `flipNext` callbacks runs when
      nothing else touches the store in between: each tick takes one step,
      counts it only if the page moved, and the chain ends either after
      `count` moves or at the first tick that could not move. Returns the
      final configuration and the number of pages actually flipped. */
  method FlipPages(c: BookConfig.Config, count: int, d: Direction) returns (r: BookConfig.Config, flipped: nat)
    requires BookConfig.Valid(c)
    ensures BookConfig.Valid(r)
    ensures r == c.(currentPage := r.currentPage)
    ensures flipped == MinI(MaxI(count, 0), Room(c, d))
    ensures d == Forward ==> r.currentPage == c.currentPage + flipped
    ensures d == Backward ==> r.currentPage == c.currentPage - flipped
  {
    var t := FlipNext(c, 0, count, d);
    FlipPageSteps(c, d);
    while t.again
      invariant BookConfig.Valid(t.config)
      invariant t.config == c.(currentPage := t.config.currentPage)
      invariant t.flipped <= MaxI(count, 0)
      invariant t.again ==> t.flipped < count
      invariant !t.again ==> t.flipped == MinI(MaxI(count, 0), Room(c, d))
      invariant d == Forward ==> t.config.currentPage == c.currentPage + t.flipped
      invariant d == Backward ==> t.config.currentPage == c.currentPage - t.flipped
      decreases count - t.flipped, t.again
    {
      FlipPageSteps(t.config, d);
      t := FlipNext(t.config, t.flipped, count, d);
    }
    r, flipped := t.config, t.flipped;
  }

  /** `reset`: every data field goes back to `initialState`, whatever the
      state was, and the result is a valid book. */
  function Reset(c: BookConfig.Config): (r: BookConfig.Config)
    ensures BookConfig.Valid(r)
    ensures r.pageCount == 30 && r.currentPage == 15
    ensures r.dimensions == BookConfig.Dimensions(4.0, 3.0, 0.6)
    ensures r.spineRotation == 0.5 && r.tilt == 0.2 && r.scale == 1.0
    ensures r.frontHinge == 0.0 && r.backHinge == 0.0
    ensures r.pageOpacity == 0.15 && r.pageColor == "#00ffcc" && r.glowIntensity == 0.0
    ensures r.coverColor == "#2b1e16" && r.coverOpacity == 1.0
    ensures r.frontCoverText == "" && r.backCoverText == "" && r.coverTextColor == "#c9a876"
    ensures r.particlesEnabled && r.particleIntensity == 0.5
    ensures r.confidenceScore == 0.0 && !r.debug
  {
    BookConfig.Initial
  }

  /** Reset forgets everything: any two states reset to the same one, and
      resetting twice is resetting once. */
  lemma ResetForgets(a: BookConfig.Config, b: BookConfig.Config)
    ensures Reset(a) == Reset(b)
    ensures Reset(Reset(a)) == Reset(a)
  {
  }
}

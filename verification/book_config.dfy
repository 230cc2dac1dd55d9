/** The book's configuration record and the page-count bookkeeping that the
    source store (stores/bookStore.ts) and the shipped bundle
    (dist/index.es.js) implement identically: clamping the page count,
    re-centring the current page, wrapping a requested page, and deriving
    the page count from a new spine depth. */
module BookConfig {
  import opened Util

  datatype Dimensions = Dimensions(height: real, width: real, depth: real)

  /** `Partial<BookDimensions>`: a missing key is `None`. */
  datatype DimensionsPatch = DimensionsPatch(height: Option<real>, width: Option<real>, depth: Option<real>)

  datatype Config = Config(
    pageCount: int,
    currentPage: int,
    dimensions: Dimensions,
    spineRotation: real,
    tilt: real,
    scale: real,
    frontHinge: real,
    backHinge: real,
    pageOpacity: real,
    pageColor: string,
    glowIntensity: real,
    coverColor: string,
    coverOpacity: real,
    frontCoverText: string,
    backCoverText: string,
    coverTextColor: string,
    particlesEnabled: bool,
    particleIntensity: real,
    confidenceScore: real,
    debug: bool)

  const MinPages: int := 10
  const MaxPages: int := 100
  /** The spine depth is fixed; more pages means denser packing. */
  const SpineDepth: real := 0.6
  /** Depth of one page when a depth is turned back into a page count. */
  const PageThickness: real := 0.002

  /** The shared initial data fields (`initialState` / `se`). */
  const Initial: Config := Config(
    pageCount := 30,
    currentPage := 15,
    dimensions := Dimensions(4.0, 3.0, 0.6),
    spineRotation := 0.5,
    tilt := 0.2,
    scale := 1.0,
    frontHinge := 0.0,
    backHinge := 0.0,
    pageOpacity := 0.15,
    pageColor := "#00ffcc",
    glowIntensity := 0.0,
    coverColor := "#2b1e16",
    coverOpacity := 1.0,
    frontCoverText := "",
    backCoverText := "",
    coverTextColor := "#c9a876",
    particlesEnabled := true,
    particleIntensity := 0.5,
    confidenceScore := 0.0,
    debug := false)

  /** The state every store action keeps: a page count in [10,100] and a
      current page that splits it into a back and a front stack. */
  ghost predicate Valid(c: Config)
  {
    MinPages <= c.pageCount <= MaxPages && 0 <= c.currentPage < c.pageCount
  }

  /** JavaScript's `%` on integers with a positive divisor: truncating
      division, so the remainder takes the sign of the dividend (Dafny's
      `%` is Euclidean and never negative). */
  function JsRem(a: int, n: int): (r: int)
    requires n > 0
    ensures (a - r) % n == 0
    ensures -n < r < n
    ensures r == 0 || (r < 0 <==> a < 0)
  {
    var e := a % n;
    ModMultiple(a / n, n);
    ModMultiple(a / n + 1, n);
    assert a - (e - n) == (a / n + 1) * n;
    if a < 0 && e != 0 then e - n else e
  }

  /** `((page % n) + n) % n`: wraps any page number onto [0, n). */
  function WrapPage(page: int, n: int): (r: int)
    requires n > 0
    ensures 0 <= r < n
    ensures (page - r) % n == 0
  {
    var t := JsRem(page, n) + n;
    var r := JsRem(t, n);
    ShiftCongruent(page, JsRem(page, n), t, r, n);
    r
  }

  lemma ShiftCongruent(page: int, a: int, t: int, r: int, n: int)
    requires n > 0 && t == a + n
    requires (page - a) % n == 0 && (t - r) % n == 0
    ensures (page - r) % n == 0
  {
    ModMultiple(-1, n);
    AddMultiples(page - a, -n, n);
    assert page - t == (page - a) + -n;
    AddMultiples(page - t, t - r, n);
    assert page - r == (page - t) + (t - r);
  }

  lemma MulAtLeast(a: int, n: int)
    requires n > 0 && a > 0
    ensures a * n >= n
  {
    if a > 1 {
      MulAtLeast(a - 1, n);
      assert a * n == (a - 1) * n + n;
    }
  }

  /** Every multiple of `n` leaves remainder 0. */
  lemma ModMultiple(k: int, n: int)
    requires n > 0
    ensures (k * n) % n == 0
  {
    var q := (k * n) / n;
    var r := (k * n) % n;
    var d := k - q;
    assert d * n == k * n - q * n;
    assert d * n == r;
    if d > 0 {
      MulAtLeast(d, n);
    }
  }

  lemma AddMultiples(x: int, y: int, n: int)
    requires n > 0 && x % n == 0 && y % n == 0
    ensures (x + y) % n == 0
  {
    assert x == (x / n) * n;
    assert y == (y / n) * n;
    assert x + y == (x / n + y / n) * n;
    ModMultiple(x / n + y / n, n);
  }

  /** A page already in range is left where it is. */
  lemma WrapPageFixesInRange(page: int, n: int)
    requires 0 <= page < n
    ensures WrapPage(page, n) == page
  {
    var r := WrapPage(page, n);
    ZeroMultiple(page - r, n);
  }

  /** The only multiple of `n` strictly between `-n` and `n` is zero. */
  lemma ZeroMultiple(x: int, n: int)
    requires n > 0 && -n < x < n && x % n == 0
    ensures x == 0
  {
    var q := x / n;
    assert x == q * n;
    if q > 0 {
      MulAtLeast(q, n);
    }
  }

  /** The page count a spine depth stands for: `round(depth / 0.002)` clamped to [10,100]. */
  function DepthToCount(depth: real): (n: int)
    ensures MinPages <= n <= MaxPages
    ensures depth <= 0.019 ==> n == MinPages
    ensures depth >= 0.2 ==> n == MaxPages
    ensures 0.019 <= depth < 0.201 ==> (n as real - 0.5) * PageThickness <= depth < (n as real + 0.5) * PageThickness
  {
    ClampInt(Round(depth / PageThickness), MinPages, MaxPages)
  }

  /** `setPageCount`: clamp, re-centre the current page, and pin the depth to 0.6. */
  function SetPageCount(c: Config, count: int): (r: Config)
    ensures r.pageCount == ClampInt(count, MinPages, MaxPages)
    ensures MinPages <= count <= MaxPages ==> r.pageCount == count
    ensures r.currentPage * 2 <= r.pageCount < r.currentPage * 2 + 2
    ensures r.dimensions == c.dimensions.(depth := SpineDepth)
    ensures r == c.(pageCount := r.pageCount, currentPage := r.currentPage, dimensions := r.dimensions)
  {
    var valid := ClampInt(count, MinPages, MaxPages);
    c.(pageCount := valid, currentPage := valid / 2, dimensions := c.dimensions.(depth := SpineDepth))
  }

  /** `setCurrentPage`: the stored page is in [0, pageCount) and congruent
      to the requested one. A page count of 0 would make JavaScript's
      result NaN, which this integer model does not represent. */
  function SetCurrentPage(c: Config, page: int): (r: Config)
    requires c.pageCount > 0
    ensures 0 <= r.currentPage < r.pageCount
    ensures (page - r.currentPage) % c.pageCount == 0
    ensures r == c.(currentPage := r.currentPage)
  {
    c.(currentPage := WrapPage(page, c.pageCount))
  }

  /** `{ ...current, ...dims }`. */
  function Merge(d: Dimensions, p: DimensionsPatch): (r: Dimensions)
    ensures r.height == (if p.height.Some? then p.height.value else d.height)
    ensures r.width == (if p.width.Some? then p.width.value else d.width)
    ensures r.depth == (if p.depth.Some? then p.depth.value else d.depth)
  {
    Dimensions(
      if p.height.Some? then p.height.value else d.height,
      if p.width.Some? then p.width.value else d.width,
      if p.depth.Some? then p.depth.value else d.depth)
  }

  /** `setDimensions`: merging always happens; only a depth that differs
      from the current one re-derives the page count and re-centres. */
  function SetDimensions(c: Config, patch: DimensionsPatch): (r: Config)
    ensures r.dimensions == Merge(c.dimensions, patch)
    ensures patch.depth.Some? && patch.depth.value != c.dimensions.depth ==>
              && r.pageCount == DepthToCount(patch.depth.value)
              && r.currentPage == r.pageCount / 2
    ensures !(patch.depth.Some? && patch.depth.value != c.dimensions.depth) ==>
              r == c.(dimensions := r.dimensions)
    ensures r == c.(dimensions := r.dimensions, pageCount := r.pageCount, currentPage := r.currentPage)
  {
    var merged := Merge(c.dimensions, patch);
    if patch.depth.Some? && patch.depth.value != c.dimensions.depth then
      var n := DepthToCount(patch.depth.value);
      c.(dimensions := merged, pageCount := n, currentPage := n / 2)
    else
      c.(dimensions := merged)
  }

  /** `setBothHinges`: one angle for both covers. */
  function SetBothHinges(c: Config, hinge: real): (r: Config)
    ensures r.frontHinge == r.backHinge == hinge
    ensures r == c.(frontHinge := hinge, backHinge := hinge)
  {
    c.(frontHinge := hinge, backHinge := hinge)
  }

  /** Every page-count action lands in a valid configuration, and the
      wrap keeps a valid one valid. */
  lemma {:induction false} ActionsKeepValid(c: Config, count: int, page: int, patch: DimensionsPatch, hinge: real)
    ensures Valid(Initial)
    ensures Valid(SetPageCount(c, count))
    ensures Valid(c) ==> Valid(SetCurrentPage(c, page))
    ensures Valid(c) ==> Valid(SetDimensions(c, patch))
    ensures Valid(c) ==> Valid(SetBothHinges(c, hinge))
  {
  }

  /** A depth equal to the current one, or no depth at all, never touches the pages. */
  lemma SameDepthKeepsPages(c: Config, patch: DimensionsPatch)
    requires patch.depth.None? || patch.depth.value == c.dimensions.depth
    ensures SetDimensions(c, patch).pageCount == c.pageCount
    ensures SetDimensions(c, patch).currentPage == c.currentPage
  {
  }

  /** The default 0.6 spine depth stands for 300 pages, which clamps to 100. */
  lemma DefaultDepthIsFullBook()
    ensures DepthToCount(SpineDepth) == MaxPages
  {
  }
}

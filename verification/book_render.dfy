/** What the book draws each frame (components/Book/Book.tsx, the same
    partition in `Oe` of dist/index.es.js, and components/Book/Cover.tsx):
    which page indices go to which stack, which page flies on its own,
    at what angle, and where the covers and stacks are hinged. */
module BookRender {
  import opened Util
  import PageLayout
  import FlipStore
  import Tween

  /** The indices `lo, lo+1, ..., hi-1` in order, leaving out `skip`. */
  function Drawn(lo: int, hi: int, skip: Option<int>): (r: seq<int>)
    ensures forall a, b :: 0 <= a < b < |r| ==> r[a] < r[b]
    ensures forall k :: k in r <==> lo <= k < hi && skip != Some(k)
    ensures forall a :: 0 <= a < |r| ==> lo <= r[a] < hi
    decreases hi - lo
  {
    if lo >= hi then []
    else if skip == Some(lo) then Drawn(lo + 1, hi, skip)
    else [lo] + Drawn(lo + 1, hi, skip)
  }

  /** A page leaves its stack only once its flip has visibly started. */
  function Skipped(flippingPageIndex: Option<int>, flipProgress: real): (r: Option<int>)
    ensures r.Some? <==> flippingPageIndex.Some? && flipProgress > 0.0
    ensures r.Some? ==> r == flippingPageIndex
  {
    if flipProgress > 0.0 then flippingPageIndex else None
  }

  /** The back group: `currentPage` slots, indices [0, currentPage), less
      the page drawn flying. */
  function BackStack(currentPage: int, flipping: Option<int>, progress: real): (r: seq<int>)
    ensures forall k :: k in r <==> 0 <= k < currentPage && !(FlyingDrawn(flipping, progress) && flipping == Some(k))
    ensures forall a, b :: 0 <= a < b < |r| ==> r[a] < r[b]
  {
    Drawn(0, currentPage, Skipped(flipping, progress))
  }

  /** The front group: `pageCount - currentPage` slots, indices
      [currentPage, pageCount), less the page drawn flying. */
  function FrontStack(pageCount: int, currentPage: int, flipping: Option<int>, progress: real): (r: seq<int>)
    ensures forall k :: k in r <==> currentPage <= k < pageCount && !(FlyingDrawn(flipping, progress) && flipping == Some(k))
    ensures forall a, b :: 0 <= a < b < |r| ==> r[a] < r[b]
  {
    Drawn(currentPage, pageCount, Skipped(flipping, progress))
  }

  /** The separate flying page is drawn iff a page is flipping and has started. */
  predicate FlyingDrawn(flipping: Option<int>, progress: real)
  {
    flipping.Some? && progress > 0.0
  }

  /** How many times page `k` appears on screen. */
  function Appearances(k: int, pageCount: int, currentPage: int, flipping: Option<int>, progress: real): nat
  {
    (if k in BackStack(currentPage, flipping, progress) then 1 else 0)
    + (if k in FrontStack(pageCount, currentPage, flipping, progress) then 1 else 0)
    + (if FlyingDrawn(flipping, progress) && flipping == Some(k) then 1 else 0)
  }

  /** The two stacks partition the book at `currentPage`, and a page in
      flight is taken out of its stack exactly while it is drawn flying, so
      every page of the book is on screen exactly once and nothing outside
      the book is in a stack. */
  lemma EveryPageOnce(pageCount: int, currentPage: int, flipping: Option<int>, progress: real)
    requires 0 <= currentPage <= pageCount
    ensures forall k :: 0 <= k < pageCount ==> Appearances(k, pageCount, currentPage, flipping, progress) == 1
    ensures forall k :: k in BackStack(currentPage, flipping, progress) ==> 0 <= k < currentPage
    ensures forall k :: k in FrontStack(pageCount, currentPage, flipping, progress) ==> currentPage <= k < pageCount
  {
  }

  /** Book.tsx: a flip counts as forward iff the page comes from the back stack. */
  predicate IsFlippingForward(flippingPageIndex: int, currentPage: int)
  {
    flippingPageIndex < currentPage
  }

  /** Book.tsx's angle for the page in flight: forward runs from the back
      cover's angle to the front cover's, backward the other way round. */
  function SourceFlightAngle(flippingPageIndex: int, currentPage: int, backHinge: real, frontHinge: real, p: real): (a: real)
    ensures IsFlippingForward(flippingPageIndex, currentPage) && p == 0.0 ==> a == backHinge
    ensures IsFlippingForward(flippingPageIndex, currentPage) && p == 1.0 ==> a == -frontHinge
    ensures !IsFlippingForward(flippingPageIndex, currentPage) && p == 0.0 ==> a == -frontHinge
    ensures !IsFlippingForward(flippingPageIndex, currentPage) && p == 1.0 ==> a == backHinge
  {
    if IsFlippingForward(flippingPageIndex, currentPage) then backHinge + p * (-frontHinge - backHinge)
    else -frontHinge + p * (backHinge - -frontHinge)
  }

  /** The bundle's angle for the page in flight, chosen by the stored
      direction: forward runs from the front cover's angle to the back
      cover's; anything else, including the direction `flipPages` leaves
      unset, runs from the back cover's to the front cover's. */
  function DistFlightAngle(flipDirection: Option<FlipStore.Direction>, backHinge: real, frontHinge: real, p: real): (a: real)
    ensures flipDirection == Some(FlipStore.Forward) && p == 0.0 ==> a == -frontHinge
    ensures flipDirection == Some(FlipStore.Forward) && p == 1.0 ==> a == backHinge
    ensures flipDirection != Some(FlipStore.Forward) && p == 0.0 ==> a == backHinge
    ensures flipDirection != Some(FlipStore.Forward) && p == 1.0 ==> a == -frontHinge
  {
    if flipDirection == Some(FlipStore.Forward) then -frontHinge + p * (backHinge - -frontHinge)
    else backHinge + p * (-frontHinge - backHinge)
  }

  /** Between the cover angles at every moment: the page never swings
      past either cover. */
  lemma FlightBetweenCovers(i: int, cp: int, dir: Option<FlipStore.Direction>, backHinge: real, frontHinge: real, p: real)
    requires 0.0 <= p <= 1.0
    ensures MinR(backHinge, -frontHinge) <= SourceFlightAngle(i, cp, backHinge, frontHinge, p) <= MaxR(backHinge, -frontHinge)
    ensures MinR(backHinge, -frontHinge) <= DistFlightAngle(dir, backHinge, frontHinge, p) <= MaxR(backHinge, -frontHinge)
  {
    Tween.SampleBetween(backHinge, -frontHinge, p);
    Tween.SampleBetween(-frontHinge, backHinge, p);
  }

  /** The two variants animate a forward flip in opposite directions: the
      bundle's forward page at progress `p` is where Book.tsx's forward page
      is at `1 - p`. */
  lemma VariantsRunOpposite(i: int, cp: int, backHinge: real, frontHinge: real, p: real)
    requires IsFlippingForward(i, cp)
    ensures DistFlightAngle(Some(FlipStore.Forward), backHinge, frontHinge, p)
         == SourceFlightAngle(i, cp, backHinge, frontHinge, 1.0 - p)
  {
  }

  /** The debug test page: shown only for a positive angle, placed
      `angle/180` of the way from the back cover (0 degrees) to the front
      cover (180 degrees). */
  function TestPageAngle(testPageFlipAngle: real, backHinge: real, frontHinge: real): (r: Option<real>)
    ensures r.Some? <==> testPageFlipAngle > 0.0
    ensures testPageFlipAngle == 180.0 ==> r == Some(-frontHinge)
  {
    if testPageFlipAngle > 0.0 then
      var p := testPageFlipAngle / 180.0;
      assert testPageFlipAngle == 180.0 ==> p == 1.0;
      Some(backHinge + p * (-frontHinge - backHinge))
    else None
  }

  /** Up to 180 degrees the test page stays between the covers. */
  lemma TestPageBetweenCovers(testPageFlipAngle: real, backHinge: real, frontHinge: real)
    requires 0.0 < testPageFlipAngle <= 180.0
    ensures var r := TestPageAngle(testPageFlipAngle, backHinge, frontHinge);
            r.Some? && MinR(backHinge, -frontHinge) <= r.value <= MaxR(backHinge, -frontHinge)
  {
    var p := testPageFlipAngle / 180.0;
    assert p <= 1.0 by {
      assert p * 180.0 == testPageFlipAngle;
    }
    Tween.SampleBetween(backHinge, -frontHinge, p);
  }

  datatype Side = Front | Back

  /** A hinge: where it sits in the xz-plane and its rotation about y. */
  datatype Hinge = Hinge(x: real, z: real, rotation: real)

  /** Cover.tsx: each cover pivots on the spine's outer edge, at its own
      end of the spine; the front cover turns by `-hinge`, the back by `+hinge`. */
  function CoverHinge(side: Side, hinge: real): (h: Hinge)
    ensures h.x == PageLayout.SpineWidth / 2.0
    ensures side == Front ==> h.z == PageLayout.SpineDepth / 2.0 && h.rotation == -hinge
    ensures side == Back ==> h.z == -PageLayout.SpineDepth / 2.0 && h.rotation == hinge
  {
    var z := if side == Front then PageLayout.SpineDepth / 2.0 else -PageLayout.SpineDepth / 2.0;
    Hinge(PageLayout.SpineWidth / 2.0, z, if side == Front then -hinge else hinge)
  }

  /** Book.tsx: the hinge of each page stack, and the stack's inner shift
      onto the cover's inside face. */
  function StackHinge(side: Side, frontHinge: real, backHinge: real): (h: Hinge)
    ensures h == CoverHinge(side, if side == Front then frontHinge else backHinge)
  {
    match side
    case Back => Hinge(PageLayout.SpineWidth / 2.0, -PageLayout.SpineDepth / 2.0, backHinge)
    case Front => Hinge(PageLayout.SpineWidth / 2.0, PageLayout.SpineDepth / 2.0, -frontHinge)
  }

  /** The shift points from the cover's middle to its inside face, towards
      the middle of the book: up the z-axis for the back stack, down it for
      the front one, by half a cover's thickness. */
  function StackFace(side: Side): (shift: real)
    ensures AbsR(shift) == PageLayout.CoverThickness / 2.0
    ensures shift > 0.0 <==> side == Back
    ensures CoverHinge(side, 0.0).z + shift == (if side == Back then -PageLayout.AvailableDepth else PageLayout.AvailableDepth)
  {
    match side
    case Back => PageLayout.CoverThickness / 2.0
    case Front => -PageLayout.CoverThickness / 2.0
  }

  /** Each page stack turns with its own cover, and every page of a stack
      stays on its cover's half of the spine: in a closed book (hinges 0,
      so the hinge frames are not rotated) the world z of a back page lies
      in [-0.275, 0] and that of a front page in [0, 0.275]. */
  lemma StacksFollowCovers(pageCount: int, currentPage: int, index: int, frontHinge: real, backHinge: real)
    requires 0 <= index < pageCount && 0 <= currentPage
    ensures StackHinge(Back, frontHinge, backHinge) == CoverHinge(Back, backHinge)
    ensures StackHinge(Front, frontHinge, backHinge) == CoverHinge(Front, frontHinge)
    ensures index < currentPage ==>
              var z := StackHinge(Back, frontHinge, backHinge).z + StackFace(Back) + PageLayout.ZOffset(index, pageCount, currentPage);
              -PageLayout.AvailableDepth <= z <= 0.0
    ensures currentPage <= index ==>
              var z := StackHinge(Front, frontHinge, backHinge).z + StackFace(Front) + PageLayout.ZOffset(index, pageCount, currentPage);
              0.0 <= z <= PageLayout.AvailableDepth
  {
    if index < currentPage {
      PageLayout.BackOffsets(index, pageCount, currentPage);
    } else {
      PageLayout.FrontOffsets(index, pageCount, currentPage);
    }
  }

  /** The extent of a mesh along one axis of its group's frame. */
  datatype Span = Span(lo: real, hi: real)

  /** A mesh of size `size` positioned at `centre`: three.js centres box
      and plane geometries on their position. */
  function MeshSpan(centre: real, size: real): (r: Span)
    ensures r.hi - r.lo == size && (r.lo + r.hi) / 2.0 == centre
  {
    Span(centre - size / 2.0, centre + size / 2.0)
  }

  predicate Within(inner: Span, outer: Span)
  {
    outer.lo <= inner.lo && inner.hi <= outer.hi
  }

  /** Cover.tsx: in its hinge's frame, the cover body is a box of the
      cover's width and height placed half a width out along x, so it runs
      from the pivot on the spine's edge to `width`, centred in y. */
  function CoverBody(width: real, height: real): (r: (Span, Span))
    requires width > 0.0 && height > 0.0
    ensures r.0 == Span(0.0, width)
    ensures r.1 == Span(-height / 2.0, height / 2.0)
  {
    (MeshSpan(width / 2.0, width), MeshSpan(0.0, height))
  }

  /** Page.tsx: in the same frame (its stack pivots as the cover does, see
      `StacksFollowCovers`), a page is a plane of the page size placed half
      a page width out along x, centred in y. */
  function PageBody(width: real, height: real): (r: (Span, Span))
    requires width > 0.0 && height > 0.0
    ensures var size := PageLayout.PageSize(width, height);
            r.0 == Span(0.0, size.width) && r.1 == Span(-size.height / 2.0, size.height / 2.0)
  {
    var size := PageLayout.PageSize(width, height);
    (MeshSpan(size.width / 2.0, size.width), MeshSpan(0.0, size.height))
  }

  /** A page lies on its cover: both start at the pivot, and the page stops
      short of the cover's outer edge and of its top and bottom edges. */
  lemma PageWithinCover(width: real, height: real)
    requires width > 0.0 && height > 0.0
    ensures Within(PageBody(width, height).0, CoverBody(width, height).0)
    ensures Within(PageBody(width, height).1, CoverBody(width, height).1)
    ensures PageBody(width, height).0.lo == CoverBody(width, height).0.lo
    ensures PageBody(width, height).0.hi < CoverBody(width, height).0.hi
    ensures CoverBody(width, height).1.lo < PageBody(width, height).1.lo
    ensures PageBody(width, height).1.hi < CoverBody(width, height).1.hi
  {
  }

  /** The cover material is transparent iff it is see-through or carries a text texture. */
  function CoverTransparent(opacity: real, hasTexture: bool): (t: bool)
    ensures opacity >= 1.0 && !hasTexture ==> !t
    ensures hasTexture ==> t
    ensures opacity < 1.0 ==> t
  {
    opacity < 1.0 || hasTexture
  }
}

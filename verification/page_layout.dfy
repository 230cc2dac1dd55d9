/** Where a page sits inside the book (components/Book/Page.tsx, and the
    identical `ae` in dist/index.es.js). Pages before `currentPage` hang
    from the back cover, the rest from the front cover; each stack is
    spread evenly from the cover's inside face towards the middle of the
    spine. */
module PageLayout {

  const SpineWidth: real := 0.1
  const SpineDepth: real := 0.6
  const CoverThickness: real := 0.05
  /** How far a stack may spread from the inside face of its cover: from
      the face at half the spine depth minus half a cover to the middle. */
  const AvailableDepth: real := SpineDepth / 2.0 - CoverThickness / 2.0

  lemma AvailableDepthValue()
    ensures AvailableDepth == 0.275
  {
  }

  /** JavaScript's `x || 1` on an integer: 0 is falsy and becomes 1. */
  function OrOne(x: int): (r: int)
    ensures r != 0
    ensures x != 0 ==> r == x
    ensures x == 0 ==> r == 1
  {
    if x == 0 then 1 else x
  }

  /** A page belongs to the back stack exactly when it comes before the current page. */
  predicate IsAttachedToBack(index: int, currentPage: int)
  {
    index < currentPage
  }

  /** The page's z offset from its cover's inside face: positive (towards
      the middle) for back pages, negative for front pages. */
  function ZOffset(index: int, totalPages: int, currentPage: int): real
  {
    if IsAttachedToBack(index, currentPage) && currentPage > 0 then
      (index as real / OrOne(currentPage - 1) as real) * AvailableDepth
    else
      -(((index - currentPage) as real / OrOne(totalPages - currentPage - 1) as real)) * AvailableDepth
  }

  /** A fraction of the available depth. */
  lemma FractionOfDepth(a: real, b: real)
    requires 0.0 <= a <= b && b > 0.0
    ensures 0.0 <= (a / b) * AvailableDepth <= AvailableDepth
  {
    assert a / b <= 1.0 by {
      assert a / b * b == a;
    }
  }

  lemma FractionMonotone(a1: real, a2: real, b: real)
    requires a1 <= a2 && b > 0.0
    ensures (a1 / b) * AvailableDepth <= (a2 / b) * AvailableDepth
  {
    assert a2 / b - a1 / b == (a2 - a1) / b;
  }

  /** Back pages spread over [0, availableDepth]: the first page lies on
      the cover's inside face and, once there are two back pages, the last
      one reaches the middle of the spine. */
  lemma BackOffsets(index: int, totalPages: int, currentPage: int)
    requires 0 <= index < currentPage
    ensures 0.0 <= ZOffset(index, totalPages, currentPage) <= AvailableDepth
    ensures index == 0 ==> ZOffset(index, totalPages, currentPage) == 0.0
    ensures currentPage >= 2 && index == currentPage - 1 ==> ZOffset(index, totalPages, currentPage) == AvailableDepth
  {
    FractionOfDepth(index as real, OrOne(currentPage - 1) as real);
  }

  /** Front pages spread over [-availableDepth, 0]: the current page lies
      on the front cover's inside face and, once there are two front
      pages, the last page reaches the middle of the spine. */
  lemma FrontOffsets(index: int, totalPages: int, currentPage: int)
    requires 0 <= currentPage <= index < totalPages
    ensures -AvailableDepth <= ZOffset(index, totalPages, currentPage) <= 0.0
    ensures index == currentPage ==> ZOffset(index, totalPages, currentPage) == 0.0
    ensures totalPages - currentPage >= 2 && index == totalPages - 1 ==>
              ZOffset(index, totalPages, currentPage) == -AvailableDepth
  {
    FractionOfDepth((index - currentPage) as real, OrOne(totalPages - currentPage - 1) as real);
  }

  /** Within a stack the pages are ordered: back offsets grow with the
      index, front offsets shrink, so no two pages of a stack cross. */
  lemma OffsetsOrdered(i: int, j: int, totalPages: int, currentPage: int)
    requires 0 <= i <= j < totalPages
    ensures j < currentPage ==> ZOffset(i, totalPages, currentPage) <= ZOffset(j, totalPages, currentPage)
    ensures currentPage <= i ==> ZOffset(i, totalPages, currentPage) >= ZOffset(j, totalPages, currentPage)
  {
    if j < currentPage {
      FractionMonotone(i as real, j as real, OrOne(currentPage - 1) as real);
    } else if currentPage <= i {
      FractionMonotone((i - currentPage) as real, (j - currentPage) as real, OrOne(totalPages - currentPage - 1) as real);
    }
  }

  /** A page is 93% of the cover's width by 95% of its height. */
  datatype Size = Size(width: real, height: real)

  function PageSize(coverWidth: real, coverHeight: real): (s: Size)
    requires coverWidth > 0.0 && coverHeight > 0.0
    ensures 0.0 < s.width < coverWidth && 0.0 < s.height < coverHeight
    ensures s.width / coverWidth == 0.93 && s.height / coverHeight == 0.95
  {
    Size(coverWidth * 0.93, coverHeight * 0.95)
  }
}

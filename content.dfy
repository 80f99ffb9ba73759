/**
 * Content extent (`getContentDimensions`): how far down the page the
 * content reaches. The DOM measurements are inputs.
 */
module Content {
  import opened Wrappers
  import opened Geometry

  /** `getBoundingClientRect()` of `.main-content`: top relative to the viewport, and height. */
  datatype Rect = Rect(top: real, height: real)

  /** Everything the browser reports that the content extent depends on. */
  datatype ContentMeasure = ContentMeasure(
    mainContent: Option<Rect>,
    scrollY: real,
    bodyScrollHeight: nat,
    bodyOffsetHeight: nat,
    rootScrollHeight: nat,
    rootOffsetHeight: nat)

  datatype ContentDimensions = ContentDimensions(height: real, viewportHeight: nat)

  /** `Math.max` of four measured heights, built from the binary maximum. */
  function Max4(a: nat, b: nat, c: nat, d: nat): (r: real)
    ensures r >= a as real && r >= b as real && r >= c as real && r >= d as real
    ensures r == a as real || r == b as real || r == c as real || r == d as real
  {
    Max(Max(a as real, b as real), Max(c as real, d as real))
  }

  /**
   * The bottom edge of `.main-content` in document coordinates when it
   * exists; otherwise the largest of the body and root heights.
   */
  function GetContentDimensions(m: ContentMeasure, innerHeight: nat): (c: ContentDimensions)
    ensures c.viewportHeight == innerHeight
    ensures m.mainContent.Some? ==>
      c.height - m.mainContent.value.height == m.mainContent.value.top + m.scrollY
    ensures m.mainContent.None? ==>
      c.height >= m.bodyScrollHeight as real && c.height >= m.bodyOffsetHeight as real &&
      c.height >= m.rootScrollHeight as real && c.height >= m.rootOffsetHeight as real
    ensures m.mainContent.None? ==>
      c.height in {m.bodyScrollHeight as real, m.bodyOffsetHeight as real,
                   m.rootScrollHeight as real, m.rootOffsetHeight as real}
  {
    match m.mainContent
    case Some(rect) =>
      var contentTop := rect.top + m.scrollY;
      var contentBottom := contentTop + rect.height;
      ContentDimensions(contentBottom, innerHeight)
    case None =>
      var h := Max4(m.bodyScrollHeight, m.bodyOffsetHeight, m.rootScrollHeight, m.rootOffsetHeight);
      ContentDimensions(h, innerHeight)
  }
}

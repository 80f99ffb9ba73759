/**
 * Placement of the primary background image against the viewport
 * (`calculateMainBackgroundDimensions` of the background manager).
 *
 * Browser numbers are IEEE-754 doubles; here they are exact `real`s, so
 * `windowHeight * 0.12` and the aspect-ratio division carry no rounding.
 */
module Geometry {
  import opened Wrappers

  /** Width class of the viewport; it selects the vertical clamp range. */
  datatype ScreenSize = Mobile | Tablet | Desktop

  /** `window.innerWidth` and `window.innerHeight`. */
  datatype Viewport = Viewport(width: nat, height: nat)

  /** Where the primary background is painted, in document pixels. */
  datatype Placement = Placement(width: int, height: real, startY: real, endY: real, screenSize: ScreenSize)

  /** Horizontal margin, 10 px on each side. */
  const MarginWidth: int := 20
  const MobileMaxWidth: int := 768
  const TabletMaxWidth: int := 1024

  function Max(a: real, b: real): (r: real)
    ensures r >= a && r >= b
    ensures r == a || r == b
  {
    if a >= b then a else b
  }

  function Min(a: real, b: real): (r: real)
    ensures r <= a && r <= b
    ensures r == a || r == b
  {
    if a <= b then a else b
  }

  /** `y` is the point of [lo, hi] nearest to `x`. */
  predicate IsClamp(x: real, lo: real, hi: real, y: real)
  {
    (x < lo ==> y == lo) && (hi < x ==> y == hi) && (lo <= x <= hi ==> y == x)
  }

  /** `Math.max(lo, Math.min(x, hi))`. */
  function Clamp(lo: real, x: real, hi: real): (y: real)
    requires lo <= hi
    ensures IsClamp(x, lo, hi, y)
    ensures lo <= y <= hi
  {
    Max(lo, Min(x, hi))
  }

  function ScreenSizeOf(windowWidth: int): (c: ScreenSize)
    ensures c == Mobile <==> windowWidth <= MobileMaxWidth
    ensures c == Tablet <==> MobileMaxWidth < windowWidth <= TabletMaxWidth
    ensures c == Desktop <==> TabletMaxWidth < windowWidth
  {
    if windowWidth <= MobileMaxWidth then Mobile
    else if windowWidth <= TabletMaxWidth then Tablet
    else Desktop
  }

  /**
   * Vertical offset of the primary background: a desktop default that the
   * mobile branch recomputes identically and the tablet branch replaces.
   */
  function BackgroundStartY(windowWidth: int, windowHeight: int): (y: real)
    ensures ScreenSizeOf(windowWidth) == Tablet ==>
      IsClamp(windowHeight as real * 0.1, 90.0, 130.0, y) && 90.0 <= y <= 130.0
    ensures ScreenSizeOf(windowWidth) != Tablet ==>
      IsClamp(windowHeight as real * 0.12, 100.0, 150.0, y) && 100.0 <= y <= 150.0
  {
    var defaultY := Clamp(100.0, windowHeight as real * 0.12, 150.0);
    if windowWidth <= MobileMaxWidth then Clamp(100.0, windowHeight as real * 0.12, 150.0)
    else if windowWidth <= TabletMaxWidth then Clamp(90.0, windowHeight as real * 0.1, 130.0)
    else defaultY
  }

  /** The usable width scaled by the image's natural aspect ratio. */
  function ScaledHeight(imageWidth: nat, imageHeight: nat, usableWidth: int): (h: real)
    requires imageWidth > 0
    ensures h * imageWidth as real == imageHeight as real * usableWidth as real
  {
    (imageHeight as real * usableWidth as real) / imageWidth as real
  }

  /**
   * `calculateMainBackgroundDimensions`: no placement while the image is not
   * loaded; otherwise the image spans the usable width, keeps its aspect
   * ratio, and ends `height` pixels below its start.
   */
  function CalculateMainBackgroundDimensions(isMainBgLoaded: bool, vp: Viewport, imageWidth: nat, imageHeight: nat): (r: Option<Placement>)
    requires isMainBgLoaded ==> imageWidth > 0
    ensures r.None? <==> !isMainBgLoaded
    ensures r.Some? ==> r.value.width == vp.width - MarginWidth
    ensures r.Some? ==> r.value.height * imageWidth as real == imageHeight as real * r.value.width as real
    ensures r.Some? ==> r.value.endY == r.value.startY + r.value.height
    ensures r.Some? ==> r.value.startY == BackgroundStartY(vp.width, vp.height)
    ensures r.Some? ==> r.value.screenSize == ScreenSizeOf(vp.width)
  {
    if !isMainBgLoaded then None
    else
      var usableWidth := vp.width - MarginWidth;
      var scaledHeight := ScaledHeight(imageWidth, imageHeight, usableWidth);
      var startY := BackgroundStartY(vp.width, vp.height);
      Some(Placement(usableWidth, scaledHeight, startY, startY + scaledHeight, ScreenSizeOf(vp.width)))
  }

  /** Size-class boundaries: 768 is mobile, 769 and 1024 tablet, 1025 desktop, with their start ranges. */
  lemma SizeClassBoundaries(windowHeight: nat)
    ensures ScreenSizeOf(768) == Mobile && 100.0 <= BackgroundStartY(768, windowHeight) <= 150.0
    ensures ScreenSizeOf(769) == Tablet && 90.0 <= BackgroundStartY(769, windowHeight) <= 130.0
    ensures ScreenSizeOf(1024) == Tablet
    ensures ScreenSizeOf(1025) == Desktop && 100.0 <= BackgroundStartY(1025, windowHeight) <= 150.0
  {
  }

  /** Viewport 1280x800 with a 1200x800 image: width 1260, height 840, start 100, end 940. */
  lemma PlacementExample()
    ensures CalculateMainBackgroundDimensions(true, Viewport(1280, 800), 1200, 800)
         == Some(Placement(1260, 840.0, 100.0, 940.0, Desktop))
  {
  }
}

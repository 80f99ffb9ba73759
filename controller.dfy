/**
 * The background manager (`ResponsiveBackgroundManager`): its update cycle
 * as a function on an abstract state, the invariants that cycle keeps, and
 * the class whose methods change the state in place as the browser code does.
 */
module Controller {
  import opened Wrappers
  import opened Geometry
  import opened Content
  import opened Dom

  /** The manager's fields together with the parts of the document it writes. */
  datatype ControllerState = ControllerState(
    isMainBgLoaded: bool,
    currentExtensionHeight: real,
    imageWidth: nat,
    imageHeight: nat,
    style: BodyStyle,
    children: seq<Element>)

  /** What `getState()` reports. */
  datatype Snapshot = Snapshot(isExtensionActive: bool, extensionHeight: real, mainBgLoaded: bool)

  /** A loaded image has a width to divide by. */
  predicate ImageReady(s: ControllerState)
  {
    s.isMainBgLoaded ==> s.imageWidth > 0
  }

  /** At most one extension node, and a positive extension height exactly when there is one. */
  predicate Inv(s: ControllerState)
  {
    ImageReady(s) &&
    ExtensionCount(s.children) <= 1 &&
    s.currentExtensionHeight >= 0.0 &&
    (s.currentExtensionHeight > 0.0 <==> ExtensionCount(s.children) == 1)
  }

  /**
   * The node `createExtensionElement(startY, contentHeight)` appends: it
   * starts at `startY` and reaches down to the content's end, or is empty.
   */
  function ExtensionNode(startY: real, contentHeight: real): (e: Element)
    ensures IsExtension(e) && e.top == startY && e.height >= 0.0
    ensures contentHeight > startY ==> e.top + e.height == contentHeight
    ensures contentHeight <= startY ==> e.height == 0.0
  {
    Element(ExtensionId, startY, Max(contentHeight - startY, 0.0))
  }

  /**
   * State after `enableBackgroundExtension`: the primary image at the
   * placement's start, the earlier extension node replaced by a fresh one
   * last among the children, a
   * page at least as tall as the content and the viewport, and the distance
   * from the image's end to the content's end recorded.
   */
  function Enabled(s: ControllerState, vp: Viewport, p: Placement, c: ContentDimensions): (r: ControllerState)
    ensures r.isMainBgLoaded == s.isMainBgLoaded
    ensures r.imageWidth == s.imageWidth && r.imageHeight == s.imageHeight
    ensures |r.children| > 0 && r.children[|r.children| - 1] == ExtensionNode(p.endY, c.height)
    ensures Others(r.children) == Others(s.children)
    ensures r.style.positionY == Some(p.startY)
    ensures r.style.minHeight.Pixels?
    ensures r.style.minHeight.px >= c.height && r.style.minHeight.px >= vp.height as real
    ensures r.style.minHeight.px == c.height || r.style.minHeight.px == vp.height as real
    ensures p.endY + r.currentExtensionHeight == c.height
    ensures ExtensionCount(s.children) <= 1 ==>
      ExtensionCount(r.children) == 1 && GetExtensionElement(r.children) == Some(|r.children| - 1)
  {
    var node := ExtensionNode(p.endY, c.height);
    var rest := RemoveExtension(s.children);
    OthersConcat(rest, [node]);
    CountConcat(rest, [node]);
    Singleton(node);
    CountZero(rest);
    assert (rest + [node])[|rest|] == node;
    assert forall j :: 0 <= j < |rest| ==> (rest + [node])[j] == rest[j];
    s.(style := BodyStyle(Some(p.startY), Pixels(Max(c.height, vp.height as real))),
       children := RemoveExtension(s.children) + [node],
       currentExtensionHeight := c.height - p.endY)
  }

  /**
   * State after `disableBackgroundExtension`: the extension node gone (the
   * only one, when there was at most one), the primary image at the start
   * offset for the viewport, a full-viewport minimum height and no
   * extension height.
   */
  function Disabled(s: ControllerState, vp: Viewport): (r: ControllerState)
    ensures r.isMainBgLoaded == s.isMainBgLoaded
    ensures r.imageWidth == s.imageWidth && r.imageHeight == s.imageHeight
    ensures Others(r.children) == Others(s.children)
    ensures ExtensionCount(s.children) <= 1 ==> GetExtensionElement(r.children) == None
    ensures r.style == BodyStyle(Some(BackgroundStartY(vp.width, vp.height)), FullViewport)
    ensures r.currentExtensionHeight == 0.0
  {
    CountZero(RemoveExtension(s.children));
    s.(style := BodyStyle(Some(BackgroundStartY(vp.width, vp.height)), FullViewport),
       children := RemoveExtension(s.children),
       currentExtensionHeight := 0.0)
  }

  /**
   * One update cycle (`updateBackground`): nothing while the image is not
   * loaded; otherwise extend the background when the content reaches past
   * the primary image, and drop the extension when it does not. The content
   * measurements are an input here, taken as not depending on the style the
   * previous cycle wrote. The manager's
   * own flags, the image size and every child other than the extension node
   * are left alone.
   */
  function Update(s: ControllerState, vp: Viewport, m: ContentMeasure): (r: ControllerState)
    requires ImageReady(s)
    ensures !s.isMainBgLoaded ==> r == s
    ensures r.isMainBgLoaded == s.isMainBgLoaded
    ensures r.imageWidth == s.imageWidth && r.imageHeight == s.imageHeight
    ensures Others(r.children) == Others(s.children)
  {
    if !s.isMainBgLoaded then s
    else
      var p := CalculateMainBackgroundDimensions(true, vp, s.imageWidth, s.imageHeight).value;
      var c := GetContentDimensions(m, vp.height);
      if c.height > p.endY then
        Enabled(s, vp, p, c)
      else
        Disabled(s, vp)
  }

  /** `getState()`: under the invariant, "active" means exactly one extension node is in the document. */
  function SnapshotOf(s: ControllerState): (snap: Snapshot)
    ensures snap.extensionHeight == s.currentExtensionHeight && snap.mainBgLoaded == s.isMainBgLoaded
    ensures Inv(s) ==> (snap.isExtensionActive <==> ExtensionCount(s.children) == 1)
  {
    Snapshot(s.currentExtensionHeight > 0.0, s.currentExtensionHeight, s.isMainBgLoaded)
  }

  /** Every update cycle keeps the invariant. */
  lemma UpdatePreservesInv(s: ControllerState, vp: Viewport, m: ContentMeasure)
    requires Inv(s)
    ensures Inv(Update(s, vp, m))
  {
    if s.isMainBgLoaded {
      var p := CalculateMainBackgroundDimensions(true, vp, s.imageWidth, s.imageHeight).value;
      var c := GetContentDimensions(m, vp.height);
      if c.height > p.endY {
        var node := ExtensionNode(p.endY, c.height);
        CountConcat(RemoveExtension(s.children), [node]);
        Singleton(node);
      }
    }
  }

  /**
   * The outcome of a cycle on a loaded image: past the primary image, exactly
   * one extension node that starts at its end and covers the rest of the
   * content, with the page at least as tall as the content and the viewport;
   * otherwise no extension node, a full-viewport minimum height, and the same
   * start offset the placement uses.
   */
  lemma UpdateCoverage(s: ControllerState, vp: Viewport, m: ContentMeasure)
    requires Inv(s) && s.isMainBgLoaded
    ensures
      var p := CalculateMainBackgroundDimensions(true, vp, s.imageWidth, s.imageHeight).value;
      var c := GetContentDimensions(m, vp.height).height;
      var t := Update(s, vp, m);
      (c > p.endY ==>
        ExtensionCount(t.children) == 1 &&
        GetExtensionElement(t.children) == Some(|t.children| - 1) &&
        t.children[|t.children| - 1] == Element(ExtensionId, p.endY, c - p.endY) &&
        t.style == BodyStyle(Some(p.startY), Pixels(Max(c, vp.height as real))) &&
        t.currentExtensionHeight == c - p.endY > 0.0) &&
      (c <= p.endY ==>
        ExtensionCount(t.children) == 0 &&
        GetExtensionElement(t.children) == None &&
        t.style == BodyStyle(Some(p.startY), FullViewport) &&
        t.currentExtensionHeight == 0.0)
  {
    var p := CalculateMainBackgroundDimensions(true, vp, s.imageWidth, s.imageHeight).value;
    var c := GetContentDimensions(m, vp.height).height;
    var t := Update(s, vp, m);
    var rest := RemoveExtension(s.children);
    CountZero(rest);
    if c > p.endY {
      var node := ExtensionNode(p.endY, c);
      CountConcat(rest, [node]);
      Singleton(node);
      assert t.children == rest + [node];
      assert t.children[|rest|] == node;
      assert forall j :: 0 <= j < |rest| ==> t.children[j] == rest[j];
    } else {
      CountZero(t.children);
    }
  }

  /** Two cycles in a row with the same inputs end in the same state as one. */
  lemma UpdateIdempotent(s: ControllerState, vp: Viewport, m: ContentMeasure)
    requires Inv(s)
    ensures Update(Update(s, vp, m), vp, m) == Update(s, vp, m)
  {
    if s.isMainBgLoaded {
      var p := CalculateMainBackgroundDimensions(true, vp, s.imageWidth, s.imageHeight).value;
      var c := GetContentDimensions(m, vp.height);
      var rest := RemoveExtension(s.children);
      if c.height > p.endY {
        RemoveAppended(rest, ExtensionNode(p.endY, c.height));
      }
    }
  }

  /** `getState().isExtensionActive` reports exactly whether the document holds an extension node. */
  lemma ExtensionActiveIffNode(s: ControllerState)
    requires Inv(s)
    ensures SnapshotOf(s).isExtensionActive <==> GetExtensionElement(s.children).Some?
  {
    CountZero(s.children);
  }

  /**
   * Viewport 1280x800 and a 1200x800 image place the primary background from
   * 100 to 940: content reaching 1500 gets a 560-pixel extension at 940 and a
   * 1500-pixel minimum height; content reaching 900 gets none.
   */
  lemma WorkedExample(children: seq<Element>)
    requires ExtensionCount(children) == 0
    ensures
      var s := ControllerState(true, 0.0, 1200, 800, BodyStyle(None, Unset), children);
      var t := Update(s, Viewport(1280, 800), ContentMeasure(Some(Rect(200.0, 1300.0)), 0.0, 0, 0, 0, 0));
      t.children == children + [Element(ExtensionId, 940.0, 560.0)] &&
      t.style == BodyStyle(Some(100.0), Pixels(1500.0)) &&
      t.currentExtensionHeight == 560.0
    ensures
      var s := ControllerState(true, 0.0, 1200, 800, BodyStyle(None, Unset), children);
      var t := Update(s, Viewport(1280, 800), ContentMeasure(None, 0.0, 900, 850, 900, 800));
      t.children == children &&
      t.style == BodyStyle(Some(100.0), FullViewport) &&
      t.currentExtensionHeight == 0.0
  {
  }

  class ResponsiveBackgroundManager {
    var isMainBgLoaded: bool
    var currentExtensionHeight: real
    /** Natural size of the primary background image (`mainBgImage.width`, `.height`). */
    var imageWidth: nat
    var imageHeight: nat
    /** `document.body`, the one part of the document the manager writes. */
    const body: Body

    function State(): ControllerState
      reads this, body
    {
      ControllerState(isMainBgLoaded, currentExtensionHeight, imageWidth, imageHeight, body.style, body.children)
    }

    ghost predicate Valid()
      reads this, body
    {
      Inv(State())
    }

    /** A manager over a page that has no extension node yet, with the image still loading. */
    constructor (body: Body)
      requires ExtensionCount(body.children) == 0
      ensures this.body == body && Valid()
      ensures State() == ControllerState(false, 0.0, 0, 0, body.style, body.children)
    {
      this.isMainBgLoaded := false;
      this.currentExtensionHeight := 0.0;
      this.imageWidth := 0;
      this.imageHeight := 0;
      this.body := body;
    }

    /** The image's `onload`: record its natural size, mark it loaded and run a cycle. */
    method OnImageLoad(width: nat, height: nat, vp: Viewport, m: ContentMeasure)
      requires Valid() && width > 0
      modifies this, body
      ensures Valid()
      ensures State() == Update(old(State()).(isMainBgLoaded := true, imageWidth := width, imageHeight := height), vp, m)
    {
      imageWidth, imageHeight := width, height;
      isMainBgLoaded := true;
      UpdateBackground(vp, m);
    }

    method UpdateBackground(vp: Viewport, m: ContentMeasure)
      requires Valid()
      modifies this, body
      ensures Valid()
      ensures State() == Update(old(State()), vp, m)
    {
      if !isMainBgLoaded {
        return;
      }
      var mainBgDimensions := CalculateMainBackgroundDimensions(isMainBgLoaded, vp, imageWidth, imageHeight);
      var contentDimensions := GetContentDimensions(m, vp.height);
      var p := mainBgDimensions.value;
      if contentDimensions.height > p.endY {
        EnableBackgroundExtension(vp, p, contentDimensions);
      } else {
        DisableBackgroundExtension(vp);
      }
      UpdatePreservesInv(old(State()), vp, m);
    }

    method EnableBackgroundExtension(vp: Viewport, p: Placement, c: ContentDimensions)
      modifies this, body
      ensures State() == Enabled(old(State()), vp, p, c)
    {
      var extensionStartY := p.endY;
      var mainBgStartY := p.startY;
      body.style := body.style.(positionY := Some(mainBgStartY));
      CreateExtensionElement(extensionStartY, c.height);
      var requiredHeight := Max(c.height, vp.height as real);
      body.style := body.style.(minHeight := Pixels(requiredHeight));
      currentExtensionHeight := c.height - p.endY;
    }

    /** Remove any node carrying the extension id, then append a fresh one. */
    method CreateExtensionElement(startY: real, contentHeight: real)
      modifies body
      ensures body.children == RemoveExtension(old(body.children)) + [ExtensionNode(startY, contentHeight)]
      ensures body.style == old(body.style)
    {
      var existingExtension := GetExtensionElement(body.children);
      if existingExtension.Some? {
        var i := existingExtension.value;
        body.children := body.children[..i] + body.children[i + 1..];
      }
      var extensionElement := Element(ExtensionId, startY, Max(contentHeight - startY, 0.0));
      body.children := body.children + [extensionElement];
    }

    method DisableBackgroundExtension(vp: Viewport)
      modifies this, body
      ensures State() == Disabled(old(State()), vp)
    {
      var existingExtension := GetExtensionElement(body.children);
      if existingExtension.Some? {
        var i := existingExtension.value;
        body.children := body.children[..i] + body.children[i + 1..];
      }
      var backgroundStartY := BackgroundStartY(vp.width, vp.height);
      body.style := BodyStyle(Some(backgroundStartY), FullViewport);
      currentExtensionHeight := 0.0;
    }

    method Refresh(vp: Viewport, m: ContentMeasure)
      requires Valid()
      modifies this, body
      ensures Valid()
      ensures State() == Update(old(State()), vp, m)
    {
      UpdateBackground(vp, m);
    }

    method GetState() returns (snap: Snapshot)
      requires Valid()
      ensures snap.isExtensionActive <==> GetExtensionElement(body.children).Some?
      ensures snap.extensionHeight == currentExtensionHeight && snap.mainBgLoaded == isMainBgLoaded
    {
      snap := Snapshot(currentExtensionHeight > 0.0, currentExtensionHeight, isMainBgLoaded);
      ExtensionActiveIffNode(State());
    }
  }
}

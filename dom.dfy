/**
 * The part of the document the background manager touches: the body's
 * inline style and the body's children, among which the extension node is
 * found by its id.
 */
module Dom {
  import opened Wrappers

  /** A child of the body: its id and its absolute `top` and `height` in pixels. */
  datatype Element = Element(id: string, top: real, height: real)

  /** `body.style.minHeight`: not yet written, `100vh`, or a pixel value. */
  datatype MinHeight = Unset | FullViewport | Pixels(px: real)

  /** The body style fields that carry numbers: background position Y and minimum height. */
  datatype BodyStyle = BodyStyle(positionY: Option<real>, minHeight: MinHeight)

  const ExtensionId: string := "background-extension"

  predicate IsExtension(e: Element)
  {
    e.id == ExtensionId
  }

  /** Number of children carrying the extension id. */
  function ExtensionCount(s: seq<Element>): nat
  {
    if s == [] then 0 else (if IsExtension(s[0]) then 1 else 0) + ExtensionCount(s[1..])
  }

  /** The children that are not extension nodes, in document order. */
  function Others(s: seq<Element>): seq<Element>
  {
    if s == [] then [] else (if IsExtension(s[0]) then [] else [s[0]]) + Others(s[1..])
  }

  /** `document.getElementById('background-extension')`: the first child with that id. */
  function GetExtensionElement(s: seq<Element>): (r: Option<nat>)
    ensures r.Some? ==> r.value < |s| && IsExtension(s[r.value])
    ensures r.Some? ==> forall j :: 0 <= j < r.value ==> !IsExtension(s[j])
    ensures r.None? ==> forall j :: 0 <= j < |s| ==> !IsExtension(s[j])
  {
    if s == [] then None
    else if IsExtension(s[0]) then Some(0)
    else match GetExtensionElement(s[1..])
      case None => None
      case Some(i) => Some(i + 1)
  }

  lemma {:induction false} CountConcat(a: seq<Element>, b: seq<Element>)
    ensures ExtensionCount(a + b) == ExtensionCount(a) + ExtensionCount(b)
  {
    if a == [] {
      assert a + b == b;
    } else {
      assert (a + b)[1..] == a[1..] + b;
      CountConcat(a[1..], b);
    }
  }

  lemma {:induction false} OthersConcat(a: seq<Element>, b: seq<Element>)
    ensures Others(a + b) == Others(a) + Others(b)
  {
    if a == [] {
      assert a + b == b;
    } else {
      assert (a + b)[1..] == a[1..] + b;
      OthersConcat(a[1..], b);
    }
  }

  /** No child carries the extension id exactly when the count is zero. */
  lemma {:induction false} CountZero(s: seq<Element>)
    ensures ExtensionCount(s) == 0 <==> forall j :: 0 <= j < |s| ==> !IsExtension(s[j])
  {
    if s != [] {
      CountZero(s[1..]);
      if ExtensionCount(s) == 0 {
        forall j | 0 <= j < |s| ensures !IsExtension(s[j]) {
          if j > 0 { assert s[j] == s[1..][j - 1]; }
        }
      } else if !IsExtension(s[0]) {
        var k :| 0 <= k < |s[1..]| && IsExtension(s[1..][k]);
        assert s[k + 1] == s[1..][k];
      }
    }
  }

  /**
   * `existingExtension.remove()` after looking it up: the first extension
   * node is taken out; every other child stays, in order.
   */
  function RemoveExtension(s: seq<Element>): (r: seq<Element>)
    ensures ExtensionCount(r) == if ExtensionCount(s) == 0 then 0 else ExtensionCount(s) - 1
    ensures Others(r) == Others(s)
    ensures ExtensionCount(s) == 0 ==> r == s
  {
    match GetExtensionElement(s)
    case None =>
      CountZero(s);
      s
    case Some(i) =>
      RemovalSplit(s, i);
      s[..i] + s[i + 1..]
  }

  lemma Singleton(e: Element)
    requires IsExtension(e)
    ensures ExtensionCount([e]) == 1 && Others([e]) == []
  {
  }

  lemma RemovalSplit(s: seq<Element>, i: nat)
    requires i < |s| && IsExtension(s[i])
    ensures ExtensionCount(s[..i] + s[i + 1..]) == ExtensionCount(s) - 1
    ensures Others(s[..i] + s[i + 1..]) == Others(s)
  {
    var front, back := s[..i], s[i + 1..];
    var mid := front + [s[i]];
    assert s[i..] == [s[i]] + back;
    assert s == front + s[i..];
    assert s == mid + back;
    Singleton(s[i]);
    CountConcat(front, [s[i]]);
    assert ExtensionCount(mid) == ExtensionCount(front) + 1;
    CountConcat(mid, back);
    assert ExtensionCount(s) == ExtensionCount(front) + 1 + ExtensionCount(back);
    CountConcat(front, back);
    OthersConcat(front, [s[i]]);
    assert Others(mid) == Others(front);
    OthersConcat(mid, back);
    OthersConcat(front, back);
  }

  /** Appending a node to a page without one and removing the extension again gives the page back. */
  lemma {:induction false} RemoveAppended(s: seq<Element>, e: Element)
    requires ExtensionCount(s) == 0 && IsExtension(e)
    ensures RemoveExtension(s + [e]) == s
  {
    CountZero(s);
    var t := s + [e];
    assert IsExtension(t[|s|]);
    assert forall j :: 0 <= j < |s| ==> t[j] == s[j];
    assert t[..|s|] + t[|s| + 1..] == s;
  }

  /** The document body: its inline style and its children. */
  class Body {
    var style: BodyStyle
    var children: seq<Element>

    constructor (children: seq<Element>)
      ensures this.style == BodyStyle(None, Unset) && this.children == children
    {
      this.style := BodyStyle(None, Unset);
      this.children := children;
    }
  }
}

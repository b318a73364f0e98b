/** The page's pointer geometry: which shape lies under the pointer, which
    corner handle of a selected shape is grabbed, and how a drag turns two
    points into a normalised bounding box. */
module Geometry {
  import opened Protocol

  datatype Point = Point(x: real, y: real)

  /** A bounding box: origin (x, y) and extents (w, h). */
  datatype Box = Box(x: real, y: real, w: real, h: real)

  function BoxOf(s: Shape): Box {
    Box(s.x, s.y, s.w, s.h)
  }

  /** The shape with its bounding box replaced and every other attribute kept. */
  function WithBox(s: Shape, b: Box): (r: Shape)
    ensures BoxOf(r) == b
    ensures r.id == s.id && r.kind == s.kind && r.points == s.points && r.text == s.text
    ensures r.(x := s.x, y := s.y, w := s.w, h := s.h) == s
  {
    s.(x := b.x, y := b.y, w := b.w, h := b.h)
  }

  function Min(a: real, b: real): real {
    if a <= b then a else b
  }

  function Abs(a: real): real {
    if a < 0.0 then -a else a
  }

  /** The closed box [x, x + w] x [y, y + h] holds the point. */
  predicate Contains(b: Box, px: real, py: real) {
    b.x <= px <= b.x + b.w && b.y <= py <= b.y + b.h
  }

  /** Shape i is hit and no shape painted after it is. */
  predicate TopmostHit(shapes: seq<Shape>, i: int, px: real, py: real)
    requires 0 <= i < |shapes|
  {
    && Contains(BoxOf(shapes[i]), px, py)
    && forall j :: i < j < |shapes| ==> !Contains(BoxOf(shapes[j]), px, py)
  }

  /** hitTest: scan from the last-painted shape down and return the first one
      whose box holds the point. */
  method HitTest(shapes: seq<Shape>, px: real, py: real) returns (hit: Option<Shape>)
    ensures hit.None? <==> forall i :: 0 <= i < |shapes| ==> !Contains(BoxOf(shapes[i]), px, py)
    ensures hit.Some? ==>
      exists i :: 0 <= i < |shapes| && shapes[i] == hit.value && TopmostHit(shapes, i, px, py)
  {
    var i := |shapes|;
    while i > 0
      invariant 0 <= i <= |shapes|
      invariant forall j :: i <= j < |shapes| ==> !Contains(BoxOf(shapes[j]), px, py)
    {
      i := i - 1;
      if Contains(BoxOf(shapes[i]), px, py) {
        assert TopmostHit(shapes, i, px, py);
        return Some(shapes[i]);
      }
    }
    return None;
  }

  /** Side of a corner handle square. */
  const HandleSize: real := 10.0

  /** Corners in the page's order: top-left, top-right, bottom-right, bottom-left. */
  function Corner(b: Box, i: int): Point
    requires 0 <= i < 4
  {
    if i == 0 then Point(b.x, b.y)
    else if i == 1 then Point(b.x + b.w, b.y)
    else if i == 2 then Point(b.x + b.w, b.y + b.h)
    else Point(b.x, b.y + b.h)
  }

  /** The point lies in the closed handle square centred on corner i. */
  predicate OnHandle(b: Box, i: int, px: real, py: real)
    requires 0 <= i < 4
  {
    var c := Corner(b, i);
    && c.x - HandleSize / 2.0 <= px <= c.x + HandleSize / 2.0
    && c.y - HandleSize / 2.0 <= py <= c.y + HandleSize / 2.0
  }

  /** hitHandleIndex: the first corner whose handle holds the point, or -1. */
  method HitHandleIndex(s: Shape, px: real, py: real) returns (r: int)
    ensures -1 <= r < 4
    ensures r == -1 <==> forall i :: 0 <= i < 4 ==> !OnHandle(BoxOf(s), i, px, py)
    ensures r != -1 ==>
      OnHandle(BoxOf(s), r, px, py) && forall i :: 0 <= i < r ==> !OnHandle(BoxOf(s), i, px, py)
  {
    var b := BoxOf(s);
    for i := 0 to 4
      invariant forall k :: 0 <= k < i ==> !OnHandle(b, k, px, py)
    {
      if OnHandle(b, i, px, py) {
        return i;
      }
    }
    return -1;
  }

  /** The box spanned by the drag start and the pointer while a new shape is
      being drawn: the smallest box holding both points. */
  function DragBox(start: Point, px: real, py: real): (b: Box)
    ensures b.w >= 0.0 && b.h >= 0.0
    ensures b.x <= start.x <= b.x + b.w && b.x <= px <= b.x + b.w
    ensures b.y <= start.y <= b.y + b.h && b.y <= py <= b.y + b.h
    ensures (b.x == start.x && b.x + b.w == px) || (b.x == px && b.x + b.w == start.x)
    ensures (b.y == start.y && b.y + b.h == py) || (b.y == py && b.y + b.h == start.y)
  {
    Box(Min(start.x, px), Min(start.y, py), Abs(px - start.x), Abs(py - start.y))
  }

  /** The box after dragging corner handle `corner` of `prev` to the pointer:
      the dragged corner's coordinates follow the pointer, then the box is
      normalised again. */
  function ResizeBox(prev: Box, corner: int, px: real, py: real): (b: Box)
    ensures b.w >= 0.0 && b.h >= 0.0
    ensures 0 <= corner < 4 ==> b == DragBox(Corner(prev, (corner + 2) % 4), px, py)
    ensures !(0 <= corner < 4) && prev.w >= 0.0 && prev.h >= 0.0 ==> b == prev
  {
    var x1 := if corner == 0 || corner == 3 then px else prev.x;
    var y1 := if corner == 0 || corner == 1 then py else prev.y;
    var x2 := if corner == 1 || corner == 2 then px else prev.x + prev.w;
    var y2 := if corner == 2 || corner == 3 then py else prev.y + prev.h;
    Box(Min(x1, x2), Min(y1, y2), Abs(x2 - x1), Abs(y2 - y1))
  }

  /** Below this extent on both axes a freshly drawn shape is discarded. */
  const TinyExtent: real := 4.0

  predicate IsTiny(b: Box) {
    Abs(b.w) < TinyExtent && Abs(b.h) < TinyExtent
  }
}

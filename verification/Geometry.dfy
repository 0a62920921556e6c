/** Points, sizes and rectangles with the conventions of QRect: a rectangle stores the coordinates of
    its first and last pixel, so its width is right - left + 1 and may be zero or negative. */
module Geometry {
  import opened Basics

  datatype Point = Point(x: int, y: int)

  datatype Size = Size(width: int, height: int) {
    predicate IsEmpty() {
      width <= 0 || height <= 0
    }
  }

  datatype Rect = Rect(left: int, top: int, right: int, bottom: int) {

    function Width(): int {
      right - left + 1
    }

    function Height(): int {
      bottom - top + 1
    }

    function Extent(): Size {
      Size(Width(), Height())
    }

    predicate IsNull() {
      Width() == 0 && Height() == 0
    }

    /** Swaps the corners of a rectangle whose width or height is negative. */
    function Normalized(): Rect {
      Rect(
        if Width() < 0 then right else left,
        if Height() < 0 then bottom else top,
        if Width() < 0 then left else right,
        if Height() < 0 then top else bottom)
    }

    /** QRect::united: null rectangles are ignored, the others are normalized first. */
    function United(other: Rect): Rect {
      if IsNull() then other
      else if other.IsNull() then this
      else
        var a, b := Normalized(), other.Normalized();
        Rect(Min(a.left, b.left), Min(a.top, b.top), Max(a.right, b.right), Max(a.bottom, b.bottom))
    }

    /** QRect::intersects, on unbounded coordinates. */
    predicate Intersects(other: Rect) {
      var a, b := Normalized(), other.Normalized();
      && !IsNull() && !other.IsNull()
      && a.left <= b.right && b.left <= a.right
      && a.top <= b.bottom && b.top <= a.bottom
    }

    predicate NonEmpty() {
      left <= right && top <= bottom
    }

    /** The pixel at (x, y) belongs to the rectangle. */
    predicate Contains(x: int, y: int) {
      left <= x <= right && top <= y <= bottom
    }

    /** The grid point (x, y) lies on the rectangle or on its border, seen as a closed region. */
    predicate Touches(x: int, y: int) {
      left <= x <= right + 1 && top <= y <= bottom + 1
    }

    function Translated(dx: int, dy: int): Rect {
      Rect(left + dx, top + dy, right + dx, bottom + dy)
    }
  }

  /** The value of a default-constructed QRect. */
  const NULL_RECT := Rect(0, 0, -1, -1)

  function RectAt(position: Point, size: Size): Rect {
    Rect(position.x, position.y, position.x + size.width - 1, position.y + size.height - 1)
  }

  ghost predicate SharePixel(a: Rect, b: Rect) {
    exists x, y :: a.Contains(x, y) && b.Contains(x, y)
  }

  ghost predicate BordersMeet(a: Rect, b: Rect) {
    exists x, y :: a.Touches(x, y) && b.Touches(x, y)
  }

  /** The adjacency test of DisplayControl.cpp on half-open edges. */
  predicate Adjacent(a: Rect, b: Rect) {
    var aRight, aBottom := a.right + 1, a.bottom + 1;
    var bRight, bBottom := b.right + 1, b.bottom + 1;
    var verticalRangesTouch := Max(a.top, b.top) <= Min(aBottom, bBottom);
    var horizontalRangesTouch := Max(a.left, b.left) <= Min(aRight, bRight);
    || ((aRight == b.left || bRight == a.left) && verticalRangesTouch)
    || ((aBottom == b.top || bBottom == a.top) && horizontalRangesTouch)
  }

  /** For non-empty rectangles the overlap test answers exactly whether a pixel is shared. */
  lemma IntersectsIffSharePixel(a: Rect, b: Rect)
    requires a.NonEmpty() && b.NonEmpty()
    ensures a.Intersects(b) <==> SharePixel(a, b)
  {
    if a.Intersects(b) {
      var x, y := Max(a.left, b.left), Max(a.top, b.top);
      assert a.Contains(x, y) && b.Contains(x, y);
    }
  }

  /** Two monitors are adjacent exactly when they touch, if only at a corner, without overlapping. */
  lemma AdjacentIffTouchWithoutOverlap(a: Rect, b: Rect)
    requires a.NonEmpty() && b.NonEmpty()
    ensures Adjacent(a, b) <==> BordersMeet(a, b) && !SharePixel(a, b)
    ensures Adjacent(a, b) <==> Adjacent(b, a)
  {
    var x, y := Max(a.left, b.left), Max(a.top, b.top);
    if Adjacent(a, b) {
      assert a.Touches(x, y) && b.Touches(x, y);
    }
    if !SharePixel(a, b) && BordersMeet(a, b) {
      assert !(a.Contains(x, y) && b.Contains(x, y));
    }
  }

  /** `box` is the least rectangle around `rects`: everything is inside and every edge is reached. */
  ghost predicate IsBoundingBox(box: Rect, rects: seq<Rect>) {
    && (forall i :: 0 <= i < |rects| ==> Inside(rects[i], box))
    && (exists i :: 0 <= i < |rects| && rects[i].left == box.left)
    && (exists i :: 0 <= i < |rects| && rects[i].top == box.top)
    && (exists i :: 0 <= i < |rects| && rects[i].right == box.right)
    && (exists i :: 0 <= i < |rects| && rects[i].bottom == box.bottom)
  }

  predicate Inside(r: Rect, box: Rect) {
    box.left <= r.left && box.top <= r.top && r.right <= box.right && r.bottom <= box.bottom
  }

  /** The fold of `united` over the first `n` rectangles, starting from a null rectangle. */
  function UnitedFirst(rects: seq<Rect>, n: nat): Rect
    requires n <= |rects|
  {
    if n == 0 then NULL_RECT else UnitedFirst(rects, n - 1).United(rects[n - 1])
  }

  lemma ExtendBoundingBox(front: seq<Rect>, inner: Rect, last: Rect, box: Rect)
    requires inner.NonEmpty() && last.NonEmpty() && box == inner.United(last)
    requires IsBoundingBox(inner, front)
    ensures box.NonEmpty()
    ensures IsBoundingBox(box, front + [last])
  {
    var rects, n := front + [last], |front|;
    assert box == Rect(Min(inner.left, last.left), Min(inner.top, last.top),
                       Max(inner.right, last.right), Max(inner.bottom, last.bottom));
    assert rects[n] == last;
    forall i | 0 <= i < |rects|
      ensures Inside(rects[i], box)
    {
      assert i < n ==> rects[i] == front[i];
    }
    var l :| 0 <= l < n && front[l].left == inner.left;
    var t :| 0 <= t < n && front[t].top == inner.top;
    var r :| 0 <= r < n && front[r].right == inner.right;
    var b :| 0 <= b < n && front[b].bottom == inner.bottom;
    assert rects[l].left == box.left || rects[n].left == box.left;
    assert rects[t].top == box.top || rects[n].top == box.top;
    assert rects[r].right == box.right || rects[n].right == box.right;
    assert rects[b].bottom == box.bottom || rects[n].bottom == box.bottom;
  }

  lemma UnitedWithNothing(rects: seq<Rect>, n: nat)
    requires n == 1 <= |rects|
    ensures UnitedFirst(rects, n) == rects[0]
  {
  }

  lemma FirstBoundingBox(rects: seq<Rect>)
    requires |rects| == 1
    ensures IsBoundingBox(rects[0], rects)
  {
  }

  lemma {:induction false} UnitedFirstIsBoundingBox(rects: seq<Rect>, n: nat)
    requires 0 < n <= |rects|
    requires forall i :: 0 <= i < n ==> rects[i].NonEmpty()
    ensures UnitedFirst(rects, n).NonEmpty()
    ensures IsBoundingBox(UnitedFirst(rects, n), rects[..n])
  {
    if n == 1 {
      UnitedWithNothing(rects, n);
      FirstBoundingBox(rects[..n]);
    } else {
      var inner, last := UnitedFirst(rects, n - 1), rects[n - 1];
      UnitedFirstIsBoundingBox(rects, n - 1);
      ExtendBoundingBox(rects[..n - 1], inner, last, inner.United(last));
      assert rects[..n] == rects[..n - 1] + [last];
    }
  }

  /** A bounding box is determined by its list. */
  lemma BoundingBoxIsUnique(a: Rect, b: Rect, rects: seq<Rect>)
    requires IsBoundingBox(a, rects) && IsBoundingBox(b, rects)
    ensures a == b
  {
  }
}

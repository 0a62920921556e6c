/** Disjoint rectangles inside a box cannot cover more area than the box has. The proof counts pixels. */
module Packing {
  import opened Basics
  import opened Geometry

  ghost function Row(left: int, right: int, y: int): set<Point> {
    set x | left <= x <= right :: Point(x, y)
  }

  ghost function Pixels(r: Rect): set<Point> {
    set x, y | r.left <= x <= r.right && r.top <= y <= r.bottom :: Point(x, y)
  }

  ghost function AllPixels(rects: seq<Rect>): set<Point> {
    if rects == [] then {} else AllPixels(rects[1..]) + Pixels(rects[0])
  }

  ghost function TotalArea(rects: seq<Rect>): int {
    if rects == [] then 0 else TotalArea(rects[1..]) + rects[0].Width() * rects[0].Height()
  }

  lemma {:induction false} RowSize(left: int, right: int, y: int)
    requires left <= right + 1
    ensures |Row(left, right, y)| == right - left + 1
    decreases right - left + 1
  {
    if left <= right {
      RowSize(left, right - 1, y);
      assert Row(left, right, y) == Row(left, right - 1, y) + {Point(right, y)};
    } else {
      assert Row(left, right, y) == {};
    }
  }

  lemma PixelsByRows(r: Rect)
    requires r.top <= r.bottom
    ensures Pixels(r) == Pixels(r.(bottom := r.bottom - 1)) + Row(r.left, r.right, r.bottom)
    ensures Pixels(r.(bottom := r.bottom - 1)) !! Row(r.left, r.right, r.bottom)
  {
  }

  lemma {:induction false} PixelsSize(r: Rect)
    requires r.left <= r.right + 1 && r.top <= r.bottom + 1
    ensures |Pixels(r)| == r.Width() * r.Height()
    decreases r.Height()
  {
    if r.top <= r.bottom {
      PixelsByRows(r);
      PixelsSize(r.(bottom := r.bottom - 1));
      RowSize(r.left, r.right, r.bottom);
      OneMoreRow(r.Width(), r.Height());
    } else {
      assert Pixels(r) == {};
      assert r.Width() * 0 == 0;
    }
  }

  lemma OneMoreRow(w: int, h: int)
    ensures w * h == w * (h - 1) + w
  {
  }

  ghost predicate PairwiseDisjoint(rects: seq<Rect>) {
    forall i, j :: 0 <= i < j < |rects| ==> !SharePixel(rects[i], rects[j])
  }

  lemma {:induction false} AllPixelsSize(rects: seq<Rect>)
    requires forall i :: 0 <= i < |rects| ==> rects[i].NonEmpty()
    requires PairwiseDisjoint(rects)
    ensures |AllPixels(rects)| == TotalArea(rects)
    ensures forall p :: p in AllPixels(rects) ==> exists i :: 0 <= i < |rects| && rects[i].Contains(p.x, p.y)
  {
    if rects != [] {
      var first, rest := rects[0], rects[1..];
      assert PairwiseDisjoint(rest);
      AllPixelsSize(rest);
      PixelsSize(first);
      forall p | p in AllPixels(rest)
        ensures p !in Pixels(first)
        ensures exists i :: 0 <= i < |rects| && rects[i].Contains(p.x, p.y)
      {
        var i :| 0 <= i < |rest| && rest[i].Contains(p.x, p.y);
        assert rects[i + 1].Contains(p.x, p.y);
        assert !SharePixel(rects[0], rects[i + 1]);
      }
      forall p | p in Pixels(first)
        ensures rects[0].Contains(p.x, p.y)
      {
      }
    }
  }

  lemma DisjointRectsFitByArea(rects: seq<Rect>, box: Rect)
    requires box.NonEmpty()
    requires forall i :: 0 <= i < |rects| ==> rects[i].NonEmpty() && Inside(rects[i], box)
    requires PairwiseDisjoint(rects)
    ensures TotalArea(rects) <= box.Width() * box.Height()
  {
    AllPixelsSize(rects);
    PixelsSize(box);
    forall p | p in AllPixels(rects)
      ensures p in Pixels(box)
    {
      var i :| 0 <= i < |rects| && rects[i].Contains(p.x, p.y);
      assert box.Contains(p.x, p.y);
    }
    SmallerSet(AllPixels(rects), Pixels(box));
  }
}

/** How a monitor layout is published to the client: the desktop rectangle, the monitor definitions of
    ResetGraphics, and the surfaces with their places on the output (MS-RDPEGFX, sections 2.2.2.14, 2.2.2.9 and
    2.2.2.15). */
module Topology {
  import opened Geometry
  import opened Packing
  import opened MonitorLayout

  type Layout = seq<DisplayMonitor>

  datatype MonitorDef = MonitorDef(left: int, top: int, right: int, bottom: int, primary: bool)

  /** The arguments of ResetGraphics. */
  datatype Desktop = Desktop(width: int, height: int, monitors: seq<MonitorDef>)

  /** A surface to be created, and the output position it is mapped to. */
  datatype Output = Output(size: Size, origin: Point) {
    function Area(): Rect {
      RectAt(origin, size)
    }
  }

  function AreasOf(layout: Layout): seq<Rect> {
    seq(|layout|, i requires 0 <= i < |layout| => layout[i].Area())
  }

  function DesktopGeometry(layout: Layout): Rect {
    UnitedFirst(AreasOf(layout), |layout|)
  }

  function DefOf(m: DisplayMonitor): MonitorDef {
    MonitorDef(m.position.x, m.position.y, m.position.x + m.size.width - 1, m.position.y + m.size.height - 1, m.primary)
  }

  function DesktopOf(layout: Layout): Desktop {
    var g := DesktopGeometry(layout);
    Desktop(g.Width(), g.Height(), seq(|layout|, i requires 0 <= i < |layout| => DefOf(layout[i])))
  }

  function OutputOf(layout: Layout, perOutput: bool, index: nat): Output
    requires index < |layout|
  {
    var g := DesktopGeometry(layout);
    if perOutput then
      var m := layout[index];
      Output(m.size, Point(m.position.x - g.left, m.position.y - g.top))
    else
      Output(g.Extent(), Point(0, 0))
  }

  function OutputCount(layout: Layout, perOutput: bool): nat {
    if perOutput then |layout| else 1
  }

  function Outputs(layout: Layout, perOutput: bool): seq<Output>
    requires layout != []
  {
    seq(OutputCount(layout, perOutput), i requires 0 <= i < OutputCount(layout, perOutput) =>
      OutputOf(layout, perOutput, i))
  }

  /** The areas the surfaces of a layout cover on the output, one surface per monitor. */
  function MappedAreas(layout: Layout): seq<Rect> {
    seq(|layout|, i requires 0 <= i < |layout| => OutputOf(layout, true, i).Area())
  }

  /** A published desktop determines what its surfaces look like. */
  lemma DesktopDeterminesOutputs(a: Layout, b: Layout, perOutput: bool)
    requires a != [] && b != [] && DesktopOf(a) == DesktopOf(b)
    ensures |a| == |b| && DesktopGeometry(a) == DesktopGeometry(b)
    ensures Outputs(a, perOutput) == Outputs(b, perOutput)
  {
    var defsA, defsB := DesktopOf(a).monitors, DesktopOf(b).monitors;
    assert |defsA| == |a| && |defsB| == |b|;
    forall i | 0 <= i < |a|
      ensures a[i].position == b[i].position && a[i].size == b[i].size
    {
      assert defsA[i] == DefOf(a[i]) && defsB[i] == DefOf(b[i]);
    }
    assert AreasOf(a) == AreasOf(b);
    forall i | 0 <= i < OutputCount(a, perOutput)
      ensures OutputOf(a, perOutput, i) == OutputOf(b, perOutput, i)
    {
    }
  }

  /** The part of validity that the shape of the published desktop rests on. */
  ghost predicate Drawable(ws: seq<WireMonitor>) {
    && ws != []
    && (forall i :: 0 <= i < |ws| ==> ws[i].HasSupportedSize())
    && NoOverlap(ws)
  }

  lemma DecodedGeometry(ws: seq<WireMonitor>)
    requires Drawable(ws)
    ensures DesktopGeometry(DecodedAll(ws)).NonEmpty()
    ensures IsBoundingBox(DesktopGeometry(DecodedAll(ws)), Areas(ws))
  {
    var areas := AreasOf(DecodedAll(ws));
    forall i | 0 <= i < |ws|
      ensures areas[i] == Areas(ws)[i] && areas[i].NonEmpty()
    {
      assert ws[i].HasSupportedSize();
    }
    assert areas == Areas(ws);
    UnitedFirstIsBoundingBox(areas, |areas|);
    assert areas[..|areas|] == areas;
  }

  /** The desktop rectangle is exactly the one spanned by the decoder's accumulators. */
  lemma DesktopIsTheCheckedExtent(ws: seq<WireMonitor>)
    requires Drawable(ws)
    ensures var e := ExtremesOf(ws, |ws|);
            DesktopGeometry(DecodedAll(ws)) == e.Box()
  {
    var e := ExtremesOf(ws, |ws|);
    DecodedGeometry(ws);
    ExtremesBoundTheRecords(ws, |ws|);
    assert Areas(ws)[..|ws|] == Areas(ws);
    BoundingBoxIsUnique(DesktopGeometry(DecodedAll(ws)), e.Box(), Areas(ws));
  }

  /** The desktop size sent to the client is the extent the decoder checked, and obeys its limit. */
  lemma PublishedExtentIsTheCheckedExtent(ws: seq<WireMonitor>)
    requires ValidLayout(ws)
    ensures var e, d := ExtremesOf(ws, |ws|), DesktopOf(DecodedAll(ws));
            && d.width == e.maxX - e.minX && 0 < d.width <= 32766
            && d.height == e.maxY - e.minY && 0 < d.height <= 32766
  {
    DesktopIsTheCheckedExtent(ws);
    ExtremesBoundTheDesktop(ws);
    assert DesktopGeometry(DecodedAll(ws)).NonEmpty() by {
      DecodedGeometry(ws);
    }
  }

  /** The areas covered by the mapped surfaces are the monitors, moved so that the desktop starts at the origin. */
  lemma OutputsAreMovedMonitors(ws: seq<WireMonitor>)
    ensures var g := DesktopGeometry(DecodedAll(ws));
            MovedBy(Areas(ws), -g.left, -g.top, MappedAreas(DecodedAll(ws)))
  {
  }

  lemma MonitorsAreApart(ws: seq<WireMonitor>)
    requires Drawable(ws)
    ensures forall i :: 0 <= i < |Areas(ws)| ==> Areas(ws)[i].NonEmpty()
    ensures PairwiseDisjoint(Areas(ws))
  {
  }

  ghost predicate MovedBy(rects: seq<Rect>, dx: int, dy: int, moved: seq<Rect>) {
    |moved| == |rects| && forall i :: 0 <= i < |rects| ==> moved[i] == rects[i].Translated(dx, dy)
  }

  /** The surfaces of an accepted layout fit within its desktop: none lies outside it, no two overlap, every edge of the
      desktop is reached, and together they cover no more area than it has. */
  lemma PublishedOutputsFitTheDesktop(ws: seq<WireMonitor>)
    requires Drawable(ws)
    ensures |MappedAreas(DecodedAll(ws))| == |ws|
    ensures FitWithin(MappedAreas(DecodedAll(ws)), DesktopOf(DecodedAll(ws)).width, DesktopOf(DecodedAll(ws)).height)
  {
    DecodedGeometry(ws);
    OutputsAreMovedMonitors(ws);
    MonitorsAreApart(ws);
    OutputsFit(DecodedAll(ws), Areas(ws));
  }

  /** The monitors and the areas mapped for them are apart and span the same desktop. */
  ghost predicate Spanned(g: Rect, areas: seq<Rect>, mapped: seq<Rect>) {
    && g.NonEmpty() && IsBoundingBox(g, areas) && MovedBy(areas, -g.left, -g.top, mapped)
    && (forall i :: 0 <= i < |areas| ==> areas[i].NonEmpty())
    && PairwiseDisjoint(areas)
  }

  lemma OutputsFit(layout: Layout, areas: seq<Rect>)
    requires Spanned(DesktopGeometry(layout), areas, MappedAreas(layout))
    ensures FitWithin(MappedAreas(layout), DesktopOf(layout).width, DesktopOf(layout).height)
  {
    MovedRectsFitWithin(areas, DesktopGeometry(layout), MappedAreas(layout));
  }

  ghost predicate FitWithin(rects: seq<Rect>, width: int, height: int) {
    && IsBoundingBox(Rect(0, 0, width - 1, height - 1), rects)
    && PairwiseDisjoint(rects)
    && TotalArea(rects) <= width * height
  }

  lemma MovedRectsFitWithin(rects: seq<Rect>, box: Rect, moved: seq<Rect>)
    requires box.NonEmpty() && IsBoundingBox(box, rects) && MovedBy(rects, -box.left, -box.top, moved)
    requires forall i :: 0 <= i < |rects| ==> rects[i].NonEmpty()
    requires PairwiseDisjoint(rects)
    ensures FitWithin(moved, box.Width(), box.Height())
  {
    assert TotalArea(moved) <= box.Width() * box.Height() by {
      MovedRectsFit(rects, box, moved);
    }
    assert PairwiseDisjoint(moved) by {
      MovedRectsStayDisjoint(rects, -box.left, -box.top, moved);
    }
    TranslationKeepsBoundingBox(rects, box, moved);
  }

  lemma MovedRectsStayDisjoint(rects: seq<Rect>, dx: int, dy: int, moved: seq<Rect>)
    requires MovedBy(rects, dx, dy, moved) && PairwiseDisjoint(rects)
    ensures PairwiseDisjoint(moved)
  {
    forall i, j | 0 <= i < j < |moved|
      ensures !SharePixel(moved[i], moved[j])
    {
      if SharePixel(moved[i], moved[j]) {
        var x, y :| moved[i].Contains(x, y) && moved[j].Contains(x, y);
        assert rects[i].Contains(x - dx, y - dy) && rects[j].Contains(x - dx, y - dy);
        assert SharePixel(rects[i], rects[j]);
      }
    }
  }

  lemma MovedRectsFit(rects: seq<Rect>, box: Rect, moved: seq<Rect>)
    requires box.NonEmpty() && MovedBy(rects, -box.left, -box.top, moved)
    requires forall i :: 0 <= i < |rects| ==> rects[i].NonEmpty() && Inside(rects[i], box)
    requires PairwiseDisjoint(rects)
    ensures TotalArea(moved) <= box.Width() * box.Height()
  {
    var desktop := Rect(0, 0, box.Width() - 1, box.Height() - 1);
    MovedRectsStayDisjoint(rects, -box.left, -box.top, moved);
    forall i | 0 <= i < |moved|
      ensures moved[i].NonEmpty() && Inside(moved[i], desktop)
    {
      assert Inside(rects[i], box) && rects[i].NonEmpty();
    }
    DisjointRectsFitByArea(moved, desktop);
    assert desktop.Width() == box.Width() && desktop.Height() == box.Height();
  }

  lemma TranslationKeepsBoundingBox(rects: seq<Rect>, box: Rect, moved: seq<Rect>)
    requires IsBoundingBox(box, rects) && MovedBy(rects, -box.left, -box.top, moved)
    ensures IsBoundingBox(Rect(0, 0, box.Width() - 1, box.Height() - 1), moved)
  {
  }

  /** Exactly one published monitor is primary, and it is the one at the origin of the client's coordinates. */
  lemma PublishedPrimaryIsUnique(ws: seq<WireMonitor>)
    requires ValidLayout(ws)
    ensures var defs := DesktopOf(DecodedAll(ws)).monitors;
            exists p :: 0 <= p < |defs| && defs[p].primary && defs[p].left == 0 && defs[p].top == 0
              && forall i :: 0 <= i < |defs| && i != p ==> !defs[i].primary
  {
    var defs := DesktopOf(DecodedAll(ws)).monitors;
    var p :| 0 <= p < |ws| && ws[p].IsPrimary() && ws[p].AtOrigin()
      && forall i :: 0 <= i < |ws| && i != p ==> !ws[i].IsPrimary();
    assert defs[p].primary && defs[p].left == 0 && defs[p].top == 0;
    forall i | 0 <= i < |defs| && i != p
      ensures !defs[i].primary
    {
      assert defs[i] == DefOf(Decoded(ws[i]));
    }
  }

  /** Each monitor definition describes, in the client's coordinates, the very rectangle its surface covers on the
      output, and carries the primary flag of its monitor. */
  lemma DefinitionsDescribeTheOutputs(layout: Layout, i: nat)
    requires i < |layout|
    ensures var def, g := DesktopOf(layout).monitors[i], DesktopGeometry(layout);
            && Rect(def.left, def.top, def.right, def.bottom).Translated(-g.left, -g.top) == MappedAreas(layout)[i]
            && Outputs(layout, true)[i].Area() == MappedAreas(layout)[i]
            && def.primary == layout[i].primary
  {
  }
}

/** Validation of client monitor layouts (MS-RDPEDISP, sections 2.2.2.2 and 2.2.2.2.1). */
module MonitorLayout {
  import opened Basics
  import opened Geometry

  const RECORD_SIZE := 40
  const PRIMARY_FLAG := 1
  const MINIMUM_PIXELS := 200
  const MAXIMUM_PIXELS := 8192
  const MINIMUM_MILLIMETRES := 10
  const MAXIMUM_MILLIMETRES := 10000
  const MAXIMUM_MONITOR_COUNT := 16
  const MAXIMUM_DESKTOP_EXTENT := 32766

  /** One monitor record as the client sends it. */
  datatype WireMonitor = WireMonitor(
    flags: uint32, left: int32, top: int32, width: uint32, height: uint32,
    physicalWidth: uint32, physicalHeight: uint32, orientation: uint32,
    desktopScaleFactor: uint32, deviceScaleFactor: uint32)
  {
    function Area(): Rect {
      RectAt(Point(left, top), Size(width, height))
    }

    predicate IsPrimary() {
      flags % 2 == PRIMARY_FLAG
    }

    predicate AtOrigin() {
      left == 0 && top == 0
    }

    predicate HasSupportedSize() {
      && MINIMUM_PIXELS <= width <= MAXIMUM_PIXELS && width % 2 == 0
      && MINIMUM_PIXELS <= height <= MAXIMUM_PIXELS
    }

    /** Every coordinate of the rectangle fits the 32-bit integers of QRect. */
    predicate FitsInt32() {
      Area().right < 0x8000_0000 && Area().bottom < 0x8000_0000
    }
  }

  datatype LayoutPdu = LayoutPdu(recordSize: uint32, count: uint32, monitors: Option<seq<WireMonitor>>)

  datatype DisplayMonitor = DisplayMonitor(
    position: Point, size: Size, physicalSize: Size, orientation: uint32,
    desktopScaleFactor: uint32, deviceScaleFactor: uint32, primary: bool)
  {
    function Area(): Rect {
      RectAt(position, size)
    }
  }

  datatype DecodeError =
    | UnsupportedRecordSize
    | BadMonitorCount
    | UnsupportedSize(index: nat)
    | PrimaryNotAtOrigin(index: nat)
    | Overlap(index: nat)
    | NotExactlyOnePrimary
    | DesktopTooLarge
    | NoNeighbour(index: nat)

  /** The monitor kept for a record: optional attributes out of range fall back to their defaults. */
  function Decoded(w: WireMonitor): DisplayMonitor {
    var validPhysicalSize :=
      && MINIMUM_MILLIMETRES <= w.physicalWidth <= MAXIMUM_MILLIMETRES
      && MINIMUM_MILLIMETRES <= w.physicalHeight <= MAXIMUM_MILLIMETRES;
    var validOrientation := w.orientation in {0, 90, 180, 270};
    var validScale := 100 <= w.desktopScaleFactor <= 500 && w.deviceScaleFactor in {100, 140, 180};
    DisplayMonitor(
      Point(w.left, w.top),
      Size(w.width, w.height),
      if validPhysicalSize then Size(w.physicalWidth, w.physicalHeight) else Size(-1, -1),
      if validOrientation then w.orientation else 0,
      if validScale then w.desktopScaleFactor else 100,
      if validScale then w.deviceScaleFactor else 100,
      w.IsPrimary())
  }

  function DecodedAll(ws: seq<WireMonitor>): seq<DisplayMonitor> {
    seq(|ws|, i requires 0 <= i < |ws| => Decoded(ws[i]))
  }

  /** An optional attribute is kept exactly if it is usable; otherwise it is replaced by its default. */
  lemma AttributesAreKeptIffUsable(w: WireMonitor)
    ensures var m := Decoded(w);
            && m.Area() == w.Area() && m.primary == w.IsPrimary()
            && (m.physicalSize == Size(w.physicalWidth, w.physicalHeight) <==>
                  10 <= w.physicalWidth <= 10000 && 10 <= w.physicalHeight <= 10000)
            && (m.physicalSize != Size(w.physicalWidth, w.physicalHeight) ==> m.physicalSize == Size(-1, -1))
            && (m.orientation == w.orientation <==> w.orientation < 360 && w.orientation % 90 == 0)
            && (m.orientation != w.orientation ==> m.orientation == 0)
            && ((m.desktopScaleFactor, m.deviceScaleFactor) == (w.desktopScaleFactor, w.deviceScaleFactor) <==>
                  100 <= w.desktopScaleFactor <= 500 && w.deviceScaleFactor in {100, 140, 180})
            && ((m.desktopScaleFactor, m.deviceScaleFactor) != (w.desktopScaleFactor, w.deviceScaleFactor) ==>
                  (m.desktopScaleFactor, m.deviceScaleFactor) == (100, 100))
  {
    if w.orientation < 360 && w.orientation % 90 == 0 {
      assert w.orientation == 90 * (w.orientation / 90);
    }
  }

  // What makes a layout acceptable, stated without the order in which it is checked.

  ghost predicate SinglePrimaryAtOrigin(ws: seq<WireMonitor>) {
    exists p :: 0 <= p < |ws| && ws[p].IsPrimary() && ws[p].AtOrigin()
      && forall i :: 0 <= i < |ws| && i != p ==> !ws[i].IsPrimary()
  }

  ghost predicate NoOverlap(ws: seq<WireMonitor>) {
    forall i, j :: 0 <= i < j < |ws| ==> !SharePixel(ws[i].Area(), ws[j].Area())
  }

  ghost predicate SmallEnough(ws: seq<WireMonitor>) {
    forall i, j :: 0 <= i < |ws| && 0 <= j < |ws| ==>
      && ws[i].Area().right + 1 - ws[j].left <= MAXIMUM_DESKTOP_EXTENT
      && ws[i].Area().bottom + 1 - ws[j].top <= MAXIMUM_DESKTOP_EXTENT
  }

  ghost predicate HasNeighbour(ws: seq<WireMonitor>, i: nat)
    requires i < |ws|
  {
    exists j :: 0 <= j < |ws| && j != i
      && BordersMeet(ws[i].Area(), ws[j].Area()) && !SharePixel(ws[i].Area(), ws[j].Area())
  }

  ghost predicate ValidLayout(ws: seq<WireMonitor>) {
    && 1 <= |ws| <= MAXIMUM_MONITOR_COUNT
    && (forall i :: 0 <= i < |ws| ==> ws[i].HasSupportedSize())
    && SinglePrimaryAtOrigin(ws)
    && NoOverlap(ws)
    && SmallEnough(ws)
    && (|ws| > 1 ==> forall i :: 0 <= i < |ws| ==> HasNeighbour(ws, i))
  }

  ghost predicate ValidPdu(pdu: LayoutPdu) {
    pdu.recordSize == RECORD_SIZE && pdu.monitors.Some? && ValidLayout(pdu.monitors.value)
  }

  /** The records overlap, or one of them lies where the 32-bit overlap test is unreliable. */
  ghost predicate MayOverlap(a: WireMonitor, b: WireMonitor) {
    SharePixel(a.Area(), b.Area()) || !a.FitsInt32() || !b.FitsInt32()
  }

  /** What each refusal says about the message it refuses: this is wrong, and nothing that is checked before it. */
  ghost predicate Justified(pdu: LayoutPdu, e: DecodeError) {
    match e
    case UnsupportedRecordSize => pdu.recordSize != 40
    case BadMonitorCount => pdu.recordSize == 40 && (pdu.count == 0 || pdu.count > 16 || pdu.monitors.None?)
    case _ =>
      && pdu.recordSize == 40 && pdu.monitors.Some? && 1 <= |pdu.monitors.value| <= 16
      && Defective(pdu.monitors.value, e) && NothingWrongBefore(pdu.monitors.value, e)
  }

  /** The first `n` records pass the checks of their size, of their place if primary, and of overlap where the 32-bit
      test is reliable. */
  ghost predicate RecordsPass(ws: seq<WireMonitor>, n: nat)
    requires n <= |ws|
  {
    && (forall k :: 0 <= k < n ==> ws[k].HasSupportedSize())
    && (forall k :: 0 <= k < n && ws[k].IsPrimary() ==> ws[k].AtOrigin())
    && (forall i, j :: 0 <= i < j < n && ws[i].FitsInt32() && ws[j].FitsInt32() ==>
          !SharePixel(ws[i].Area(), ws[j].Area()))
  }

  /** The records are checked one by one, each for its size, its place and overlap; then the number of primaries, the
      extent, and the neighbours one by one. */
  ghost predicate NothingWrongBefore(ws: seq<WireMonitor>, e: DecodeError) {
    match e
    case UnsupportedSize(i) => i < |ws| && RecordsPass(ws, i)
    case PrimaryNotAtOrigin(i) => i < |ws| && RecordsPass(ws, i) && ws[i].HasSupportedSize()
    case Overlap(i) =>
      && i < |ws| && RecordsPass(ws, i) && ws[i].HasSupportedSize()
      && (ws[i].IsPrimary() ==> ws[i].AtOrigin())
    case NotExactlyOnePrimary => RecordsPass(ws, |ws|)
    case DesktopTooLarge => RecordsPass(ws, |ws|) && SinglePrimaryAtOrigin(ws)
    case NoNeighbour(i) =>
      && i < |ws| && RecordsPass(ws, |ws|) && SinglePrimaryAtOrigin(ws) && SmallEnough(ws)
      && forall k :: 0 <= k < i ==> HasNeighbour(ws, k)
    case _ => true
  }

  ghost predicate Defective(ws: seq<WireMonitor>, e: DecodeError) {
    match e
    case UnsupportedSize(i) => i < |ws| && !ws[i].HasSupportedSize()
    case PrimaryNotAtOrigin(i) => i < |ws| && ws[i].IsPrimary() && !ws[i].AtOrigin()
    case Overlap(i) => i < |ws| && exists j :: 0 <= j < i && MayOverlap(ws[j], ws[i])
    case NotExactlyOnePrimary => !SinglePrimaryAtOrigin(ws)
    case DesktopTooLarge => !SmallEnough(ws)
    case NoNeighbour(i) => 1 < |ws| && i < |ws| && !HasNeighbour(ws, i)
    case _ => false
  }

  /** The error is the first thing wrong with the records, and so they are no valid layout. */
  ghost predicate Refuted(ws: seq<WireMonitor>, e: DecodeError) {
    Defective(ws, e) && NothingWrongBefore(ws, e) && !ValidLayout(ws)
  }

  /** A valid layout lies around its primary at the origin, so no coordinate comes near 32 bits. */
  lemma ValidLayoutStaysNearOrigin(ws: seq<WireMonitor>, i: nat)
    requires SinglePrimaryAtOrigin(ws) && SmallEnough(ws)
    requires forall k :: 0 <= k < |ws| ==> ws[k].HasSupportedSize()
    requires i < |ws|
    ensures -MAXIMUM_DESKTOP_EXTENT < ws[i].left && ws[i].Area().right < MAXIMUM_DESKTOP_EXTENT
    ensures -MAXIMUM_DESKTOP_EXTENT < ws[i].top && ws[i].Area().bottom < MAXIMUM_DESKTOP_EXTENT
    ensures ws[i].FitsInt32()
  {
  }

  /** Decodes a layout, or refuses it.
      `wrapped(i, j)` is the answer of the 32-bit overlap test for records whose coordinates do not fit 32 bits.
      Nothing promised here depends on it. */
  method DecodeMonitorLayout(pdu: LayoutPdu, wrapped: (nat, nat) -> bool)
    returns (r: Result<seq<DisplayMonitor>, DecodeError>)
    requires pdu.monitors.Some? ==> |pdu.monitors.value| == pdu.count
    ensures r.Success? <==> ValidPdu(pdu)
    ensures r.Success? ==> r.value == DecodedAll(pdu.monitors.value)
    ensures r.Failure? ==> Justified(pdu, r.error)
  {
    if pdu.recordSize != RECORD_SIZE {
      return Failure(UnsupportedRecordSize);
    }
    if pdu.count == 0 || pdu.count > MAXIMUM_MONITOR_COUNT || pdu.monitors.None? {
      return Failure(BadMonitorCount);
    }
    var ws := pdu.monitors.value;
    var error, decoded, primaryCount, e, _, _ := DecodeRecords(ws, wrapped);
    if error.Some? {
      return Failure(error.value);
    }
    ScannedPass(ws, |ws|, decoded);
    if primaryCount != 1 {
      return Failure(NotExactlyOnePrimary);
    }
    ExtremesBoundTheDesktop(ws);
    if e.maxX - e.minX > MAXIMUM_DESKTOP_EXTENT || e.maxY - e.minY > MAXIMUM_DESKTOP_EXTENT {
      return Failure(DesktopTooLarge);
    }
    SoundMeansNoOverlap(ws, decoded);
    if |decoded| > 1 {
      for index := 0 to |decoded|
        invariant forall i :: 0 <= i < index ==> HasNeighbour(ws, i)
      {
        var hasAdjacentMonitor := HasAdjacentMonitor(ws, decoded, index);
        if !hasAdjacentMonitor {
          return Failure(NoNeighbour(index));
        }
      }
    }
    return Success(decoded);
  }

  /** The loop over the records: checks them one by one and accumulates what the later checks need. */
  method DecodeRecords(ws: seq<WireMonitor>, wrapped: (nat, nat) -> bool)
    returns (error: Option<DecodeError>, decoded: seq<DisplayMonitor>, primaryCount: int, extremes: Extremes,
             ghost p: nat, ghost q: nat)
    ensures error.Some? ==> Refuted(ws, error.value)
    ensures error.None? ==> Scanned(ws, |ws|, decoded, primaryCount, p, q, extremes)
  {
    error, decoded, primaryCount, p, q := None, [], 0, 0, 0;
    extremes := Extremes(INT64_MAX, INT64_MAX, INT64_MIN, INT64_MIN);
    ScanBegins(ws, extremes);
    for index := 0 to |ws|
      invariant error.None?
      invariant Scanned(ws, index, decoded, primaryCount, p, q, extremes)
    {
      ScanPasses(ws, index, decoded, primaryCount, p, q, extremes);
      error := CheckRecord(ws, decoded, index, wrapped);
      if error.Some? {
        return;
      }
      ExtendScan(ws, index, decoded, primaryCount, p, q, extremes);
      if ws[index].IsPrimary() {
        p, q := if primaryCount == 0 then index else p, if primaryCount == 1 then index else q;
        primaryCount := primaryCount + 1;
      }
      extremes := extremes.Include(ws[index]);
      decoded := decoded + [Decoded(ws[index])];
    }
  }

  /** The checks made on one record: its size, its place if it is primary, and overlap with those before it. */
  method CheckRecord(ws: seq<WireMonitor>, decoded: seq<DisplayMonitor>, index: nat, wrapped: (nat, nat) -> bool)
    returns (error: Option<DecodeError>)
    requires index < |ws| && Sound(ws, index, decoded) && RecordsPass(ws, index)
    ensures error.Some? ==> Refuted(ws, error.value)
    ensures error.None? ==>
              && ws[index].HasSupportedSize()
              && (ws[index].IsPrimary() ==> ws[index].AtOrigin())
              && forall j :: 0 <= j < index && ws[j].FitsInt32() && ws[index].FitsInt32() ==>
                   !SharePixel(ws[j].Area(), ws[index].Area())
  {
    var w := ws[index];
    if !w.HasSupportedSize() {
      return Some(UnsupportedSize(index));
    }
    if w.IsPrimary() && (w.left != 0 || w.top != 0) {
      PrimaryElsewhereRefutes(ws, index);
      return Some(PrimaryNotAtOrigin(index));
    }
    var overlaps := OverlapsEarlier(ws, decoded, index, wrapped);
    if overlaps {
      OverlapRefutes(ws, index);
      return Some(Overlap(index));
    }
    return None;
  }

  /** The inner loop of the record loop: does record `index` overlap one decoded before it? */
  method OverlapsEarlier(ws: seq<WireMonitor>, decoded: seq<DisplayMonitor>, index: nat, wrapped: (nat, nat) -> bool)
    returns (overlaps: bool)
    requires index < |ws| && Sound(ws, index, decoded) && ws[index].HasSupportedSize()
    ensures overlaps ==> exists j :: 0 <= j < index && MayOverlap(ws[j], ws[index])
    ensures !overlaps ==> forall j :: 0 <= j < index && ws[j].FitsInt32() && ws[index].FitsInt32() ==>
                            !SharePixel(ws[j].Area(), ws[index].Area())
  {
    var geometry := ws[index].Area();
    for other := 0 to index
      invariant forall j :: 0 <= j < other && ws[j].FitsInt32() && ws[index].FitsInt32() ==>
                  !SharePixel(ws[j].Area(), geometry)
    {
      var otherGeometry := decoded[other].Area();
      assert otherGeometry == ws[other].Area();
      var fits := ws[index].FitsInt32() && ws[other].FitsInt32();
      IntersectsIffSharePixel(geometry, otherGeometry);
      if if fits then geometry.Intersects(otherGeometry) else wrapped(index, other) {
        assert SharePixel(geometry, otherGeometry) ==> SharePixel(otherGeometry, geometry);
        assert MayOverlap(ws[other], ws[index]);
        return true;
      }
      assert SharePixel(otherGeometry, geometry) ==> SharePixel(geometry, otherGeometry);
    }
    return false;
  }

  /** The inner loop of the adjacency check. */
  method HasAdjacentMonitor(ws: seq<WireMonitor>, decoded: seq<DisplayMonitor>, index: nat) returns (found: bool)
    requires Sound(ws, |ws|, decoded) && index < |ws|
    ensures found <==> HasNeighbour(ws, index)
  {
    for other := 0 to |decoded|
      invariant forall j :: 0 <= j < other && j != index ==> !Adjacent(ws[index].Area(), ws[j].Area())
    {
      if index != other && Adjacent(decoded[index].Area(), decoded[other].Area()) {
        AdjacentIffTouchWithoutOverlap(ws[index].Area(), ws[other].Area());
        return true;
      }
    }
    forall j | 0 <= j < |ws| && j != index
      ensures !(BordersMeet(ws[index].Area(), ws[j].Area()) && !SharePixel(ws[index].Area(), ws[j].Area()))
    {
      AdjacentIffTouchWithoutOverlap(ws[index].Area(), ws[j].Area());
    }
    return false;
  }

  // Invariants of the record loop.

  /** The first `n` records passed every check made on them one by one or pair by pair. */
  ghost predicate Sound(ws: seq<WireMonitor>, n: nat, decoded: seq<DisplayMonitor>)
    requires n <= |ws|
  {
    && |decoded| == n
    && (forall k :: 0 <= k < n ==> decoded[k] == Decoded(ws[k]))
    && (forall k :: 0 <= k < n ==> ws[k].HasSupportedSize())
    && (forall i, j :: 0 <= i < j < n && ws[i].FitsInt32() && ws[j].FitsInt32() ==>
          !SharePixel(ws[i].Area(), ws[j].Area()))
  }

  /** `count` primary monitors, all at the origin, among the first `n` records; `p` and `q` are the first two. */
  ghost predicate PrimariesCounted(ws: seq<WireMonitor>, n: nat, count: int, p: nat, q: nat)
    requires n <= |ws|
  {
    && 0 <= count
    && (forall k :: 0 <= k < n && ws[k].IsPrimary() ==> ws[k].AtOrigin())
    && (count == 0 ==> forall k :: 0 <= k < n ==> !ws[k].IsPrimary())
    && (count == 1 ==> p < n && ws[p].IsPrimary() && forall k :: 0 <= k < n && k != p ==> !ws[k].IsPrimary())
    && (count > 1 ==> p < q < n && ws[p].IsPrimary() && ws[q].IsPrimary())
  }

  /** The minima and maxima accumulated over the records. */
  datatype Extremes = Extremes(minX: int, minY: int, maxX: int, maxY: int) {
    function Include(w: WireMonitor): Extremes {
      Extremes(Min(minX, w.left), Min(minY, w.top), Max(maxX, w.left + w.width), Max(maxY, w.top + w.height))
    }

    /** The rectangle spanned. */
    function Box(): Rect {
      Rect(minX, minY, maxX - 1, maxY - 1)
    }
  }

  function ExtremesOf(ws: seq<WireMonitor>, n: nat): Extremes
    requires n <= |ws|
  {
    if n == 0 then Extremes(INT64_MAX, INT64_MAX, INT64_MIN, INT64_MIN)
    else ExtremesOf(ws, n - 1).Include(ws[n - 1])
  }

  function Areas(ws: seq<WireMonitor>): seq<Rect> {
    seq(|ws|, i requires 0 <= i < |ws| => ws[i].Area())
  }

  lemma ExtendSound(ws: seq<WireMonitor>, n: nat, decoded: seq<DisplayMonitor>)
    requires n < |ws| && Sound(ws, n, decoded) && ws[n].HasSupportedSize()
    requires forall j :: 0 <= j < n && ws[j].FitsInt32() && ws[n].FitsInt32() ==>
               !SharePixel(ws[j].Area(), ws[n].Area())
    ensures Sound(ws, n + 1, decoded + [Decoded(ws[n])])
  {
  }

  lemma ExtendPrimaries(ws: seq<WireMonitor>, n: nat, count: int, p: nat, q: nat)
    requires n < |ws| && PrimariesCounted(ws, n, count, p, q)
    requires ws[n].IsPrimary() ==> ws[n].AtOrigin()
    ensures if ws[n].IsPrimary()
            then PrimariesCounted(ws, n + 1, count + 1, if count == 0 then n else p, if count == 1 then n else q)
            else PrimariesCounted(ws, n + 1, count, p, q)
  {
  }

  /** What the loop over the records has found after the first `n` of them. */
  ghost predicate Scanned(
    ws: seq<WireMonitor>, n: nat, decoded: seq<DisplayMonitor>, count: int, p: nat, q: nat, e: Extremes)
    requires n <= |ws|
  {
    Sound(ws, n, decoded) && PrimariesCounted(ws, n, count, p, q) && e == ExtremesOf(ws, n)
  }

  lemma ScanPasses(
    ws: seq<WireMonitor>, n: nat, decoded: seq<DisplayMonitor>, count: int, p: nat, q: nat, e: Extremes)
    requires n <= |ws| && Scanned(ws, n, decoded, count, p, q, e)
    ensures Sound(ws, n, decoded) && RecordsPass(ws, n)
  {
  }

  lemma ScanBegins(ws: seq<WireMonitor>, e: Extremes)
    requires e == ExtremesOf(ws, 0)
    ensures Scanned(ws, 0, [], 0, 0, 0, e)
  {
  }

  lemma ExtendScan(
    ws: seq<WireMonitor>, n: nat, decoded: seq<DisplayMonitor>, count: int, p: nat, q: nat, e: Extremes)
    requires n < |ws| && Scanned(ws, n, decoded, count, p, q, e) && ws[n].HasSupportedSize()
    requires ws[n].IsPrimary() ==> ws[n].AtOrigin()
    requires forall j :: 0 <= j < n && ws[j].FitsInt32() && ws[n].FitsInt32() ==>
               !SharePixel(ws[j].Area(), ws[n].Area())
    ensures var primary := ws[n].IsPrimary();
            Scanned(ws, n + 1, decoded + [Decoded(ws[n])], if primary then count + 1 else count,
                    if primary && count == 0 then n else p, if primary && count == 1 then n else q, e.Include(ws[n]))
  {
    ExtendSound(ws, n, decoded);
    ExtendPrimaries(ws, n, count, p, q);
  }

  lemma IncludeExtendsTheBox(e: Extremes, front: seq<Rect>, w: WireMonitor)
    requires w.HasSupportedSize() && e.Box().NonEmpty() && IsBoundingBox(e.Box(), front)
    ensures e.Include(w).Box().NonEmpty() && IsBoundingBox(e.Include(w).Box(), front + [w.Area()])
  {
    ExtendBoundingBox(front, e.Box(), w.Area(), e.Include(w).Box());
  }

  lemma {:induction false} ExtremesBoundTheRecords(ws: seq<WireMonitor>, n: nat)
    requires 0 < n <= |ws|
    requires forall k :: 0 <= k < n ==> ws[k].HasSupportedSize()
    ensures ExtremesOf(ws, n).Box().NonEmpty()
    ensures IsBoundingBox(ExtremesOf(ws, n).Box(), Areas(ws)[..n])
  {
    if n == 1 {
      FirstExtremes(ws);
      FirstBoundingBox(Areas(ws)[..n]);
    } else {
      ExtremesBoundTheRecords(ws, n - 1);
      NextExtremes(ws, n - 1);
    }
  }

  lemma NextExtremes(ws: seq<WireMonitor>, n: nat)
    requires n < |ws| && ws[n].HasSupportedSize()
    requires ExtremesOf(ws, n).Box().NonEmpty() && IsBoundingBox(ExtremesOf(ws, n).Box(), Areas(ws)[..n])
    ensures ExtremesOf(ws, n + 1).Box().NonEmpty()
    ensures IsBoundingBox(ExtremesOf(ws, n + 1).Box(), Areas(ws)[..n + 1])
  {
    IncludeExtendsTheBox(ExtremesOf(ws, n), Areas(ws)[..n], ws[n]);
    OneMoreArea(ws, n);
  }

  lemma OneMoreArea(ws: seq<WireMonitor>, n: nat)
    requires n < |ws|
    ensures Areas(ws)[..n + 1] == Areas(ws)[..n] + [ws[n].Area()]
    ensures ExtremesOf(ws, n + 1) == ExtremesOf(ws, n).Include(ws[n])
  {
  }

  lemma FirstExtremes(ws: seq<WireMonitor>)
    requires |ws| > 0 && ws[0].HasSupportedSize()
    ensures ExtremesOf(ws, 1).Box() == ws[0].Area() && ws[0].Area().NonEmpty()
  {
  }

  lemma BoxBoundsTheDesktop(ws: seq<WireMonitor>, box: Rect)
    requires IsBoundingBox(box, Areas(ws))
    ensures SmallEnough(ws) <==> box.Width() <= MAXIMUM_DESKTOP_EXTENT && box.Height() <= MAXIMUM_DESKTOP_EXTENT
  {
    var areas := Areas(ws);
    if SmallEnough(ws) {
      var l :| 0 <= l < |areas| && areas[l].left == box.left;
      var t :| 0 <= t < |areas| && areas[t].top == box.top;
      var r :| 0 <= r < |areas| && areas[r].right == box.right;
      var b :| 0 <= b < |areas| && areas[b].bottom == box.bottom;
      assert ws[r].Area().right + 1 - ws[l].left <= MAXIMUM_DESKTOP_EXTENT;
      assert ws[b].Area().bottom + 1 - ws[t].top <= MAXIMUM_DESKTOP_EXTENT;
    } else {
      var i, j :| 0 <= i < |ws| && 0 <= j < |ws|
        && !(ws[i].Area().right + 1 - ws[j].left <= MAXIMUM_DESKTOP_EXTENT
             && ws[i].Area().bottom + 1 - ws[j].top <= MAXIMUM_DESKTOP_EXTENT);
      assert Inside(areas[i], box) && Inside(areas[j], box);
    }
  }

  lemma ExtremesBoundTheDesktop(ws: seq<WireMonitor>)
    requires ws != [] && forall k :: 0 <= k < |ws| ==> ws[k].HasSupportedSize()
    ensures var e := ExtremesOf(ws, |ws|);
            SmallEnough(ws) <==> e.maxX - e.minX <= MAXIMUM_DESKTOP_EXTENT && e.maxY - e.minY <= MAXIMUM_DESKTOP_EXTENT
  {
    var e := ExtremesOf(ws, |ws|);
    ExtremesBoundTheRecords(ws, |ws|);
    assert Areas(ws)[..|ws|] == Areas(ws);
    BoxBoundsTheDesktop(ws, e.Box());
  }

  lemma SoundMeansNoOverlap(ws: seq<WireMonitor>, decoded: seq<DisplayMonitor>)
    requires Sound(ws, |ws|, decoded) && SinglePrimaryAtOrigin(ws) && SmallEnough(ws)
    ensures NoOverlap(ws)
    ensures decoded == DecodedAll(ws)
  {
  }

  lemma ScannedPass(ws: seq<WireMonitor>, n: nat, decoded: seq<DisplayMonitor>)
    requires n <= |ws| && Sound(ws, n, decoded)
    requires forall k :: 0 <= k < n && ws[k].IsPrimary() ==> ws[k].AtOrigin()
    ensures RecordsPass(ws, n)
  {
  }

  lemma PrimaryElsewhereRefutes(ws: seq<WireMonitor>, i: nat)
    requires i < |ws| && ws[i].IsPrimary() && !ws[i].AtOrigin()
    ensures !ValidLayout(ws)
  {
  }

  lemma OverlapRefutes(ws: seq<WireMonitor>, i: nat)
    requires i < |ws| && exists j :: 0 <= j < i && MayOverlap(ws[j], ws[i])
    ensures !ValidLayout(ws)
  {
  }

  /** The pixels of a record. */
  predicate Covers(w: WireMonitor, x: int, y: int) {
    w.left <= x < w.left + w.width && w.top <= y < w.top + w.height
  }

  predicate SizesFit(ws: seq<WireMonitor>) {
    forall i :: 0 <= i < |ws| ==>
      200 <= ws[i].width <= 8192 && ws[i].width % 2 == 0 && 200 <= ws[i].height <= 8192
  }

  ghost predicate OnePrimary(ws: seq<WireMonitor>) {
    exists p :: 0 <= p < |ws| && ws[p].flags % 2 == 1 && ws[p].left == 0 && ws[p].top == 0
      && forall i :: 0 <= i < |ws| && i != p ==> ws[i].flags % 2 == 0
  }

  ghost predicate Apart(ws: seq<WireMonitor>) {
    forall i, j, x, y :: 0 <= i < j < |ws| && Covers(ws[i], x, y) ==> !Covers(ws[j], x, y)
  }

  ghost predicate Near(ws: seq<WireMonitor>) {
    forall i, j :: 0 <= i < |ws| && 0 <= j < |ws| ==>
      ws[i].left + ws[i].width - ws[j].left <= 32766 && ws[i].top + ws[i].height - ws[j].top <= 32766
  }

  predicate Touch(a: WireMonitor, b: WireMonitor) {
    && Max(a.left, b.left) <= Min(a.left + a.width, b.left + b.width)
    && Max(a.top, b.top) <= Min(a.top + a.height, b.top + b.height)
  }

  ghost predicate EachTouchesAnother(ws: seq<WireMonitor>) {
    forall i :: 0 <= i < |ws| ==> TouchesAnother(ws, i)
  }

  ghost predicate TouchesAnother(ws: seq<WireMonitor>, i: nat)
    requires i < |ws|
  {
    exists j :: 0 <= j < |ws| && j != i && Touch(ws[i], ws[j])
  }

  /** What the decoder accepts, in plain numbers: records of 40 bytes, 1 to 16 of them; widths that are even and from
      200 to 8192, heights from 200 to 8192; one record with the lowest flag set, at 0,0; no pixel in two of them; no
      two edges more than 32766 apart; and every one of several touches another, if only at a corner. */
  ghost predicate Acceptable(pdu: LayoutPdu) {
    pdu.recordSize == 40 && pdu.monitors.Some? && AcceptableLayout(pdu.monitors.value)
  }

  ghost predicate AcceptableLayout(ws: seq<WireMonitor>) {
    && 1 <= |ws| <= 16 && SizesFit(ws) && OnePrimary(ws) && Apart(ws) && Near(ws)
    && (|ws| > 1 ==> EachTouchesAnother(ws))
  }

  lemma CoversArea(w: WireMonitor)
    ensures forall x, y :: Covers(w, x, y) <==> w.Area().Contains(x, y)
  {
  }

  lemma ApartIff(ws: seq<WireMonitor>)
    ensures Apart(ws) <==> NoOverlap(ws)
  {
    forall i | 0 <= i < |ws|
      ensures forall x, y :: Covers(ws[i], x, y) <==> ws[i].Area().Contains(x, y)
    {
      CoversArea(ws[i]);
    }
    if NoOverlap(ws) {
      forall i, j, x, y | 0 <= i < j < |ws| && Covers(ws[i], x, y)
        ensures !Covers(ws[j], x, y)
      {
        assert !SharePixel(ws[i].Area(), ws[j].Area());
        assert ws[i].Area().Contains(x, y);
      }
    }
    if Apart(ws) {
      forall i, j | 0 <= i < j < |ws|
        ensures !SharePixel(ws[i].Area(), ws[j].Area())
      {
        forall x, y | ws[i].Area().Contains(x, y)
          ensures !ws[j].Area().Contains(x, y)
        {
          assert Covers(ws[i], x, y);
        }
      }
    }
  }

  lemma TouchIff(a: WireMonitor, b: WireMonitor)
    ensures Touch(a, b) <==> BordersMeet(a.Area(), b.Area())
  {
    var x, y := Max(a.left, b.left), Max(a.top, b.top);
    if Touch(a, b) {
      assert a.Area().Touches(x, y) && b.Area().Touches(x, y);
    }
    if BordersMeet(a.Area(), b.Area()) {
      var u, v :| a.Area().Touches(u, v) && b.Area().Touches(u, v);
      assert Max(a.left, b.left) <= u <= Min(a.left + a.width, b.left + b.width);
      assert Max(a.top, b.top) <= v <= Min(a.top + a.height, b.top + b.height);
    }
  }

  lemma TouchingIff(ws: seq<WireMonitor>)
    requires NoOverlap(ws)
    ensures EachTouchesAnother(ws) <==> forall i :: 0 <= i < |ws| ==> HasNeighbour(ws, i)
  {
    forall i | 0 <= i < |ws|
      ensures HasNeighbour(ws, i) <==> TouchesAnother(ws, i)
    {
      NeighbourIff(ws, i);
    }
  }

  lemma NeighbourIff(ws: seq<WireMonitor>, i: nat)
    requires NoOverlap(ws) && i < |ws|
    ensures HasNeighbour(ws, i) <==> TouchesAnother(ws, i)
  {
    forall j | 0 <= j < |ws| && j != i
      ensures Touch(ws[i], ws[j]) <==>
                BordersMeet(ws[i].Area(), ws[j].Area()) && !SharePixel(ws[i].Area(), ws[j].Area())
    {
      TouchIff(ws[i], ws[j]);
      assert !SharePixel(ws[Min(i, j)].Area(), ws[Max(i, j)].Area());
    }
  }

  lemma OnePrimaryIff(ws: seq<WireMonitor>)
    ensures OnePrimary(ws) <==> SinglePrimaryAtOrigin(ws)
  {
    forall i | 0 <= i < |ws|
      ensures ws[i].IsPrimary() <==> ws[i].flags % 2 == 1
    {
    }
  }

  lemma NearIff(ws: seq<WireMonitor>)
    ensures Near(ws) <==> SmallEnough(ws)
  {
  }

  lemma SizesFitIff(ws: seq<WireMonitor>)
    ensures SizesFit(ws) <==> forall i :: 0 <= i < |ws| ==> ws[i].HasSupportedSize()
  {
  }

  lemma ValidIsAcceptable(ws: seq<WireMonitor>)
    requires ValidLayout(ws)
    ensures AcceptableLayout(ws)
  {
    SizesFitIff(ws);
    OnePrimaryIff(ws);
    ApartIff(ws);
    NearIff(ws);
    TouchingIff(ws);
  }

  lemma AcceptableIsValid(ws: seq<WireMonitor>)
    requires AcceptableLayout(ws)
    ensures ValidLayout(ws)
  {
    SizesFitIff(ws);
    OnePrimaryIff(ws);
    ApartIff(ws);
    NearIff(ws);
    TouchingIff(ws);
  }

  /** What decoding accepts is exactly that. */
  lemma AcceptedIffAcceptable(pdu: LayoutPdu)
    ensures ValidPdu(pdu) <==> Acceptable(pdu)
  {
    if ValidPdu(pdu) {
      ValidIsAcceptable(pdu.monitors.value);
    }
    if Acceptable(pdu) {
      AcceptableIsValid(pdu.monitors.value);
    }
  }
}

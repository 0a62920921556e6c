/** What a reset does, in terms of the layout and the frame alone: when it succeeds, and what it sends. */
module ResetEffects {
  import opened Basics
  import opened Geometry
  import opened MonitorLayout
  import opened Topology
  import opened GraphicsChannel
  import opened VideoState
  import opened SurfaceProofs
  import opened LayoutAgreement

  /** The first `n` calls report success. */
  predicate Succeed(status: seq<bool>, n: nat) {
    forall call :: 0 <= call < n && call < |status| ==> status[call]
  }

  /** The box holds all monitors of the layout, and each of its edges is the edge of one of them. */
  ghost predicate Encloses(box: Rect, layout: Layout) {
    && (forall i :: 0 <= i < |layout| ==>
          && box.left <= layout[i].position.x && layout[i].position.x + layout[i].size.width - 1 <= box.right
          && box.top <= layout[i].position.y && layout[i].position.y + layout[i].size.height - 1 <= box.bottom)
    && (exists i :: 0 <= i < |layout| && layout[i].position.x == box.left)
    && (exists i :: 0 <= i < |layout| && layout[i].position.y == box.top)
    && (exists i :: 0 <= i < |layout| && layout[i].position.x + layout[i].size.width - 1 == box.right)
    && (exists i :: 0 <= i < |layout| && layout[i].position.y + layout[i].size.height - 1 == box.bottom)
  }

  predicate HaveArea(layout: Layout) {
    forall i :: 0 <= i < |layout| ==> layout[i].size.width > 0 && layout[i].size.height > 0
  }

  lemma EnclosingIsTheGeometry(box: Rect, layout: Layout)
    requires HaveArea(layout) && Encloses(box, layout)
    ensures DesktopGeometry(layout) == box
  {
    var areas := AreasOf(layout);
    forall i | 0 <= i < |areas|
      ensures areas[i] == Rect(layout[i].position.x, layout[i].position.y,
                               layout[i].position.x + layout[i].size.width - 1,
                               layout[i].position.y + layout[i].size.height - 1)
    {
    }
    EnclosingIsBoundingBox(box, layout, areas);
    UnitedFirstIsBoundingBox(areas, |areas|);
    assert areas[..|areas|] == areas;
    BoundingBoxIsUnique(DesktopGeometry(layout), box, areas);
  }

  lemma EnclosingIsBoundingBox(box: Rect, layout: Layout, areas: seq<Rect>)
    requires Encloses(box, layout) && areas == AreasOf(layout)
    ensures |areas| > 0 && IsBoundingBox(box, areas)
  {
    var l :| 0 <= l < |layout| && layout[l].position.x == box.left;
    var t :| 0 <= t < |layout| && layout[t].position.y == box.top;
    var r :| 0 <= r < |layout| && layout[r].position.x + layout[r].size.width - 1 == box.right;
    var b :| 0 <= b < |layout| && layout[b].position.y + layout[b].size.height - 1 == box.bottom;
    assert areas[l].left == box.left && areas[t].top == box.top;
    assert areas[r].right == box.right && areas[b].bottom == box.bottom;
  }

  lemma AllSucceedIff(status: seq<bool>, outputs: nat)
    ensures AllSucceed(status, outputs) <==> Succeed(status, 2 * outputs + 1)
  {
    if Succeed(status, 2 * outputs + 1) {
      forall call: nat | call <= 2 * outputs
        ensures Ok(status, call)
      {
      }
    }
    if AllSucceed(status, outputs) {
      forall call | 0 <= call < 2 * outputs + 1 && call < |status|
        ensures status[call]
      {
        assert Ok(status, call);
      }
    }
  }

  /** For a frame of one monitor, a reset succeeds exactly if the layout has a monitor of that index and of the frame's
      size, and every call succeeds. */
  lemma ResetForMonitorSucceedsIff(s: State, layout: Layout, frame: VideoFrame, status: seq<bool>)
    requires layout != [] && frame.outputIndex >= 0
    ensures PerformReset(s, layout, frame, status).1 <==>
              && frame.outputIndex < |layout|
              && layout[frame.outputIndex].size.width == frame.size.width
              && layout[frame.outputIndex].size.height == frame.size.height
              && Succeed(status, 2 * |layout| + 1)
  {
    ResetSucceedsIff(s, layout, frame, status);
    AllSucceedIff(status, |layout|);
  }

  /** For a frame of the whole desktop, exactly if the smallest box around the monitors has the frame's size, and the
      three calls succeed. */
  lemma ResetForDesktopSucceedsIff(s: State, layout: Layout, frame: VideoFrame, status: seq<bool>, box: Rect)
    requires frame.outputIndex < 0 && HaveArea(layout) && Encloses(box, layout)
    ensures PerformReset(s, layout, frame, status).1 <==>
              && frame.size.width == box.right - box.left + 1 && frame.size.height == box.bottom - box.top + 1
              && Succeed(status, 3)
  {
    ResetSucceedsIff(s, layout, frame, status);
    AllSucceedIff(status, 1);
    EnclosingIsTheGeometry(box, layout);
  }

  /** While no layout is set, a reset succeeds for the first index or none, whatever the size of the frame, if the three
      calls do. The client then has a desktop of that size with one primary monitor at the origin, and one surface of
      that size, mapped to the origin. */
  lemma ResetWithoutLayout(s: State, frame: VideoFrame, status: seq<bool>)
    requires Coherent(s) && s.capsConfirmed && frame.size.width > 0 && frame.size.height > 0
    ensures var (t, ok) := PerformReset(s, [], frame, status);
            var w, h := frame.size.width, frame.size.height;
            && (ok <==> frame.outputIndex <= 0 && Succeed(status, 3))
            && (ok ==>
                  && t.Peer().desktop == Some(Desktop(w, h, [MonitorDef(0, 0, w - 1, h - 1, true)]))
                  && |t.surfaces| == 1 && t.surfaces[0].size == Size(w, h)
                  && t.surfaces[0].id in t.Peer().mapped && t.Peer().mapped[t.surfaces[0].id] == Point(0, 0))
  {
    var single := EffectiveLayout([], frame);
    SingleMonitor(single, frame);
    ResetSucceedsIff(s, [], frame, status);
    AllSucceedIff(status, 1);
    ResetKeepsClientInStep(s, [], frame, status);
    var (t, ok) := PerformReset(s, [], frame, status);
    if ok {
      OnlySurface(t, single, frame, frame.outputIndex >= 0);
    }
  }

  lemma SingleMonitor(layout: Layout, frame: VideoFrame)
    requires frame.size.width > 0 && frame.size.height > 0
    requires layout == EffectiveLayout([], frame)
    ensures |layout| == 1
    ensures DesktopGeometry(layout) == Rect(0, 0, frame.size.width - 1, frame.size.height - 1)
    ensures DesktopOf(layout) == Desktop(frame.size.width, frame.size.height,
                                         [MonitorDef(0, 0, frame.size.width - 1, frame.size.height - 1, true)])
    ensures layout[0].size == frame.size && layout[0].position == Point(0, 0)
  {
    var box := Rect(0, 0, frame.size.width - 1, frame.size.height - 1);
    assert layout[0].position == Point(0, 0) && layout[0].size == frame.size;
    EnclosingIsTheGeometry(box, layout);
  }

  lemma OnlySurface(s: State, layout: Layout, frame: VideoFrame, perOutput: bool)
    requires |layout| == 1 && layout[0].size == frame.size && layout[0].position == Point(0, 0)
    requires DesktopGeometry(layout) == Rect(0, 0, frame.size.width - 1, frame.size.height - 1)
    requires ShowsAs(s.Peer(), s.surfaces, layout, perOutput)
    ensures |s.surfaces| == 1 && s.surfaces[0].size == frame.size
    ensures s.surfaces[0].id in s.Peer().mapped && s.Peer().mapped[s.surfaces[0].id] == Point(0, 0)
  {
    assert Outputs(layout, perOutput)[0] == Output(frame.size, Point(0, 0));
  }

  // The PDUs of a successful reset.

  /** The outputs from position `from` on were created and mapped in turn, under ids that count up from `id`. */
  ghost predicate CreatedInTurn(before: seq<Pdu>, after: seq<Pdu>, id: uint16, outputs: seq<Output>, from: nat) {
    && from <= |outputs| && |after| == |before| + 2 * (|outputs| - from) && before <= after
    && forall i :: from <= i < |outputs| ==>
         CreatedAt(after, |before| + 2 * (i - from), (id + i - from) % 65536, outputs[i])
  }

  ghost predicate CreatedAt(wire: seq<Pdu>, at: nat, id: nat, output: Output) {
    && at + 1 < |wire|
    && wire[at] == CreateSurface(id, output.size) && wire[at + 1] == MapSurfaceToOutput(id, output.origin)
  }

  lemma {:induction false} CreatesInTurn(s: State, outputs: seq<Output>, from: nat, status: seq<bool>)
    requires from <= |outputs| && CreateOutputs(s, outputs, from, status).1
    ensures CreatedInTurn(s.wire, CreateOutputs(s, outputs, from, status).0.wire, s.nextSurfaceId, outputs, from)
    decreases |outputs| - from
  {
    if from < |outputs| {
      var output := outputs[from];
      var mapped := CreateNext(s, output.size).Send(MapSurfaceToOutput(s.nextSurfaceId, output.origin));
      CreatesInTurn(mapped, outputs, from + 1, status);
      FirstOfTurn(s.wire, mapped.wire, CreateOutputs(s, outputs, from, status).0.wire, s.nextSurfaceId, outputs, from);
    }
  }

  lemma FirstOfTurn(
    before: seq<Pdu>, next: seq<Pdu>, after: seq<Pdu>, id: uint16, outputs: seq<Output>, from: nat)
    requires from < |outputs|
    requires next == before + [CreateSurface(id, outputs[from].size), MapSurfaceToOutput(id, outputs[from].origin)]
    requires CreatedInTurn(next, after, (id + 1) % 65536, outputs, from + 1)
    ensures CreatedInTurn(before, after, id, outputs, from)
  {
    forall i | from <= i < |outputs|
      ensures CreatedAt(after, |before| + 2 * (i - from), (id + i - from) % 65536, outputs[i])
    {
      if i > from {
        assert CreatedAt(after, |next| + 2 * (i - from - 1), ((id + 1) % 65536 + i - from - 1) % 65536, outputs[i]);
      } else {
        assert after[|before|] == next[|before|] && after[|before| + 1] == next[|before| + 1];
      }
    }
  }

  lemma {:induction false} DeletesInTurn(s: State, n: nat)
    requires n <= |s.surfaces|
    ensures DeleteSurfaces(s, n) == s.(wire := s.wire + DeletePdus(s.surfaces[..n]))
  {
    if n > 0 {
      DeletesInTurn(s, n - 1);
      assert DeletePdus(s.surfaces[..n]) == DeletePdus(s.surfaces[..n - 1]) + [DeleteSurface(s.surfaces[n - 1].id)];
    } else {
      assert s.wire + DeletePdus(s.surfaces[..n]) == s.wire;
    }
  }

  function DeletePdus(surfaces: seq<Surface>): seq<Pdu> {
    seq(|surfaces|, i requires 0 <= i < |surfaces| => DeleteSurface(surfaces[i].id))
  }

  /** A successful reset sends exactly this: each old surface is deleted, the desktop is published, and the outputs are
      created and mapped one by one. */
  lemma SuccessfulResetSends(s: State, layout: Layout, frame: VideoFrame, status: seq<bool>)
    requires layout != [] && PerformReset(s, layout, frame, status).1
    ensures CreatedInTurn(s.wire + DeletePdus(s.surfaces) + [ResetGraphics(DesktopOf(layout))],
                          PerformReset(s, layout, frame, status).0.wire, s.nextSurfaceId,
                          Outputs(layout, frame.outputIndex >= 0), 0)
  {
    DeletesInTurn(s, |s.surfaces|);
    assert s.surfaces[..|s.surfaces|] == s.surfaces;
    var cleared := DeleteSurfaces(s, |s.surfaces|).(surfaces := []);
    CreatesInTurn(cleared.Send(ResetGraphics(DesktopOf(layout))), Outputs(layout, frame.outputIndex >= 0), 0, status);
  }

  lemma OneOutputCreated(s: State, outputs: seq<Output>, status: seq<bool>)
    requires |outputs| == 1 && Succeed(status, 3)
    ensures CreateOutputs(s, outputs, 0, status) ==
            (CreateNext(s, outputs[0].size).Send(MapSurfaceToOutput(s.nextSurfaceId, outputs[0].origin)), true)
  {
    assert Ok(status, 1) && Ok(status, 2);
  }

  /** With no surfaces to delete, a reset without a layout sends three PDUs. */
  lemma FirstResetSends(s: State, frame: VideoFrame, status: seq<bool>)
    requires s.surfaces == [] && frame.size.width > 0 && frame.size.height > 0 && frame.outputIndex <= 0
    requires Succeed(status, 3)
    ensures var w, h := frame.size.width, frame.size.height;
            var desktop := Desktop(w, h, [MonitorDef(0, 0, w - 1, h - 1, true)]);
            PerformReset(s, [], frame, status) ==
            (CreateNext(s.Send(ResetGraphics(desktop)), frame.size)
               .Send(MapSurfaceToOutput(s.nextSurfaceId, Point(0, 0))), true)
  {
    var single := EffectiveLayout([], frame);
    SingleMonitor(single, frame);
    DeletesInTurn(s, 0);
    assert s.wire + DeletePdus(s.surfaces[..0]) == s.wire;
    assert Ok(status, 0);
    var outputs := Outputs(single, frame.outputIndex >= 0);
    assert outputs[0] == Output(frame.size, Point(0, 0));
    OneOutputCreated(s.Send(ResetGraphics(DesktopOf(single))), outputs, status);
  }

  /** What a new stream sends for its first frame, after confirming `caps` and with no layout set. */
  lemma FirstFrameSends(s: State, caps: CapSet, frame: VideoFrame, status: seq<bool>)
    requires s == INITIAL.(wire := [CapsConfirm(caps)], capsConfirmed := true)
    requires frame.size.width > 0 && frame.size.height > 0 && frame.outputIndex <= 0 && frame.dataSize > 0
    requires Succeed(status, 3)
    ensures var w, h, t := frame.size.width, frame.size.height, SendFrame(s, frame, status);
            t.wire == [CapsConfirm(caps), ResetGraphics(Desktop(w, h, [MonitorDef(0, 0, w - 1, h - 1, true)])),
                       CreateSurface(1, frame.size), MapSurfaceToOutput(1, Point(0, 0)),
                       StartFrame(0), SurfaceCommand(1, frame.size), EndFrame(0)]
  {
    FirstResetSends(s, frame, status);
  }

  /** With no reset pending, a frame is sent exactly if the capabilities are confirmed, it has data, and the surface of
      its index, or the first if it has none, exists and has its size. */
  lemma SendWithoutReset(s: State, frame: VideoFrame, status: seq<bool>)
    requires !s.pendingReset
    ensures var at := if frame.outputIndex < 0 then 0 else frame.outputIndex;
            SendFrame(s, frame, status).wire == s.wire +
              if s.capsConfirmed && frame.dataSize > 0 && at < |s.surfaces|
                 && s.surfaces[at].size.width == frame.size.width && s.surfaces[at].size.height == frame.size.height
              then [StartFrame(s.frameId), SurfaceCommand(s.surfaces[at].id, frame.size), EndFrame(s.frameId)]
              else []
  {
  }

  /** A reset stays pending until one succeeds, and then no longer. */
  lemma ResetIsPendingUntilItSucceeds(s: State, frame: VideoFrame, status: seq<bool>)
    requires Coherent(s) && s.pendingReset && |s.monitorLayout| <= ID_SPACE
    ensures SendFrame(s, frame, status).pendingReset <==>
              !(s.capsConfirmed && frame.dataSize > 0 && PerformReset(s, s.monitorLayout, frame, status).1)
  {
    if s.capsConfirmed {
      ResetKeepsClientInStep(s, s.monitorLayout, frame, status);
    }
  }
}

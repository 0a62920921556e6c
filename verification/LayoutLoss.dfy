/** How a layout change that overlaps a send is lost, and what that leads to. */
module LayoutLoss {
  import opened Geometry
  import opened MonitorLayout
  import opened Topology
  import opened GraphicsChannel
  import opened VideoState
  import opened SurfaceProofs
  import opened VideoRuns
  import opened LayoutAgreement

  /** The client does not show the layout set, and no reset is due or under way. */
  ghost predicate Lost(y: System) {
    Inv(y) && !Agrees(y) && !y.thread.Published?
  }

  /** The events that bring a reset about: a request for one, or another layout than the one set. */
  predicate Recovers(e: Event, layout: Layout) {
    e.RequestReset? || (e.StoreLayout? && e.layout != layout)
  }

  /** What the client holds and where it shows it. */
  ghost predicate SamePicture(y: System, z: System) {
    && z.stream.surfaces == y.stream.surfaces && z.stream.monitorLayout == y.stream.monitorLayout
    && z.stream.Peer() == y.stream.Peer().(capsConfirmed := z.stream.Peer().capsConfirmed)
  }

  lemma LossOutlivesCaps(y: System, sets: seq<CapSet>)
    requires Lost(y)
    ensures Lost(Step(y, Caps(sets))) && SamePicture(y, Step(y, Caps(sets)))
  {
    StepKeepsInv(y, Caps(sets));
    CapsLeaveThePicture(y, sets);
    HiddenWhateverTheCaps(y.stream.Peer(), y.stream.surfaces, y.stream.monitorLayout);
  }

  lemma CapsLeaveThePicture(y: System, sets: seq<CapSet>)
    requires Coherent(y.stream)
    ensures var z := Step(y, Caps(sets));
            && SamePicture(y, z) && z.stream.pendingReset == y.stream.pendingReset
            && z.changer == y.changer && z.thread == y.thread
  {
    CapsInOrder(y.stream, sets);
  }

  lemma HiddenWhateverTheCaps(c: Client, surfaces: seq<Surface>, layout: Layout)
    requires !Shows(c, surfaces, layout)
    ensures forall confirmed :: !Shows(c.(capsConfirmed := confirmed), surfaces, layout)
  {
    forall confirmed
      ensures !Shows(c.(capsConfirmed := confirmed), surfaces, layout)
    {
      var after := c.(capsConfirmed := confirmed);
      ShowsWhateverTheCaps(after, surfaces, layout);
      assert c == after.(capsConfirmed := c.capsConfirmed);
    }
  }

  lemma LossOutlivesSubmit(y: System)
    requires Lost(y)
    ensures Lost(Step(y, SubmitFrame)) && SamePicture(y, Step(y, SubmitFrame))
  {
    StepKeepsInv(y, SubmitFrame);
    SubmitLeavesThePicture(y);
  }

  lemma SubmitLeavesThePicture(y: System)
    requires GraphicsInv(y)
    ensures var z := Step(y, SubmitFrame);
            && z.stream.Peer() == y.stream.Peer() && z.stream.surfaces == y.stream.surfaces
            && z.stream.monitorLayout == y.stream.monitorLayout && z.stream.pendingReset == y.stream.pendingReset
            && z.changer == y.changer && !(z.thread.Published? && !y.thread.Published?)
  {
    if y.thread.Ready? {
      SubmitInOrder(y.stream, y.thread.frame);
    }
  }

  /** Any other step leaves the graphics state alone: the thread neither publishes nor clears. */
  lemma OtherStepsLeaveThePicture(y: System, e: Event)
    requires Lost(y) && !e.Caps? && !e.SubmitFrame? && !Recovers(e, y.stream.monitorLayout)
    ensures var s, t := y.stream, Step(y, e).stream;
            && t.surfaces == s.surfaces && t.monitorLayout == s.monitorLayout
            && t.wire == s.wire && !t.pendingReset
    ensures Step(y, e).changer.Resting? && !Step(y, e).thread.Published?
  {
  }

  lemma LossOutlivesOthers(y: System, e: Event)
    requires Lost(y) && !e.Caps? && !e.SubmitFrame? && !Recovers(e, y.stream.monitorLayout)
    requires e.StoreLayout? ==> |e.layout| <= ID_SPACE
    ensures Lost(Step(y, e)) && SamePicture(y, Step(y, e))
  {
    StepKeepsInv(y, e);
    OtherStepsLeaveThePicture(y, e);
  }

  /** The loss is over exactly when a reset is requested or a layout other than the one already set is set: setting the
      same layout once more changes nothing. */
  lemma LossEndsIff(y: System, e: Event)
    requires Lost(y) && (e.StoreLayout? ==> |e.layout| <= ID_SPACE)
    ensures Agrees(Step(y, e)) <==> Recovers(e, y.stream.monitorLayout)
    ensures !Recovers(e, y.stream.monitorLayout) ==> Lost(Step(y, e)) && SamePicture(y, Step(y, e))
  {
    if e.Caps? {
      LossOutlivesCaps(y, e.sets);
    } else if e.SubmitFrame? {
      LossOutlivesSubmit(y);
    } else if !Recovers(e, y.stream.monitorLayout) {
      LossOutlivesOthers(y, e);
    }
  }

  /** The frames submitted since were each of the size of the surface they name. */
  ghost predicate FitsOldSurfaces(y: System, z: System) {
    && y.sent <= z.sent && y.queued <= z.queued
    && forall i :: |y.sent| <= i < |z.sent| ==>
         && z.sent[i] < |z.queued|
         && var frame := z.queued[z.sent[i]];
            && SurfaceIndex(frame) < |y.stream.surfaces|
            && frame.size == y.stream.surfaces[SurfaceIndex(frame)].size
  }

  lemma LostStepFits(y: System, z: System, e: Event)
    requires Lost(z) && SamePicture(y, z) && FitsOldSurfaces(y, z)
    ensures FitsOldSurfaces(y, Step(z, e))
  {
    if e.SubmitFrame? && z.thread.Ready? {
      LostSubmitFits(y, z);
    } else {
      PaintsNothing(z, e);
    }
  }

  lemma LostSubmitFits(y: System, z: System)
    requires QueueInv(z) && SamePicture(y, z) && FitsOldSurfaces(y, z) && z.thread.Ready?
    ensures FitsOldSurfaces(y, Step(z, SubmitFrame))
  {
    var t, frame := Step(z, SubmitFrame), z.thread.frame;
    assert t.queued == z.queued && frame == z.queued[z.thread.at];
    if CanSubmit(z.stream, frame) {
      assert t.sent == z.sent + [z.thread.at];
      assert frame.size == y.stream.surfaces[SurfaceIndex(frame)].size;
    } else {
      assert t.sent == z.sent;
    }
  }

  /** A lost layout change stays lost through any events that neither request a reset nor set another layout. The client
      keeps showing what it showed, and a frame that does not have the size of an old surface is never sent. */
  lemma {:induction false} LostChangeStaysLost(y: System, events: seq<Event>)
    requires Lost(y)
    requires forall i :: 0 <= i < |events| ==> !Recovers(events[i], y.stream.monitorLayout)
    ensures var z := Run(y, events);
            Lost(z) && SamePicture(y, z) && FitsOldSurfaces(y, z)
  {
    if |events| > 0 {
      var before, e := events[..|events| - 1], events[|events| - 1];
      LostChangeStaysLost(y, before);
      LossEndsIff(Run(y, before), e);
      LostStepFits(y, Run(y, before), e);
    }
  }

  function OneMonitor(size: Size): Layout {
    [DisplayMonitor(Point(0, 0), size, Size(-1, -1), 0, 100, 100, true)]
  }

  lemma OneMonitorDesktops(a: Size, b: Size)
    requires a.width != b.width
    ensures DesktopOf(OneMonitor(a)) != DesktopOf(OneMonitor(b))
  {
    assert DesktopOf(OneMonitor(a)).monitors[0].right == a.width - 1;
    assert DesktopOf(OneMonitor(b)).monitors[0].right == b.width - 1;
  }

  /** The steps around the overlap: a whole layout change falls between the copy of the old layout and the store. */
  function Overlap(layout: Layout): seq<Event> {
    [LoadReset, CopyLayout, StoreLayout(layout), ClearQueue, StoreReset, Publish([]), ClearReset]
  }

  lemma RunSeven(y: System, e: seq<Event>)
    requires |e| == 7
    ensures Run(y, e) == Step(Step(Step(Step(Step(Step(Step(y, e[0]), e[1]), e[2]), e[3]), e[4]), e[5]), e[6])
  {
    assert Run(y, e[..0]) == y;
    assert e[..1][..0] == e[..0] && e[..2][..1] == e[..1] && e[..3][..2] == e[..2] && e[..4][..3] == e[..3];
    assert e[..5][..4] == e[..4] && e[..6][..5] == e[..5];
    assert Run(y, e[..2]) == Step(Step(y, e[0]), e[1]);
    assert Run(y, e[..4]) == Step(Step(Run(y, e[..2]), e[2]), e[3]);
    assert Run(y, e[..6]) == Step(Step(Run(y, e[..4]), e[4]), e[5]);
  }

  /** The layout changes after the submission thread copied the old one. */
  lemma ChangeAfterCopy(y: System, layout: Layout)
    requires Inv(y) && y.changer.Resting? && y.thread.Copied?
    requires layout != y.stream.monitorLayout && |layout| <= ID_SPACE
    ensures var z := Step(Step(Step(y, StoreLayout(layout)), ClearQueue), StoreReset);
            && Inv(z) && z.changer.Resting? && z.thread == y.thread && z.sent == y.sent
            && z.stream.monitorLayout == layout
  {
  }

  /** Then publishing the old layout succeeds, for the one surface of its one monitor. */
  lemma PublishAfterChange(y: System, size: Size)
    requires Inv(y) && y.changer.Resting? && y.thread.Copied? && y.thread.frame.outputIndex == 0
    requires y.thread.layout == OneMonitor(y.thread.frame.size)
    ensures var z := Step(y, Publish([]));
            && Inv(z) && z == y.(stream := z.stream, thread := z.thread) && z.thread.Published?
            && z.stream.monitorLayout == y.stream.monitorLayout && z.thread.layout == y.thread.layout
            && z.thread.frame == y.thread.frame
            && |z.stream.surfaces| == 1 && z.stream.surfaces[0].size == y.thread.frame.size
  {
    var layout, frame := y.thread.layout, y.thread.frame;
    StepKeepsInv(y, Publish([]));
    PublishKeepsLayout(y, []);
    ResetSucceedsIff(y.stream, layout, frame, []);
    ResetKeepsClientInStep(y.stream, layout, frame, []);
    OneSurface(Step(y, Publish([])).stream, frame.size);
  }

  lemma OneSurface(s: State, size: Size)
    requires ShowsAs(s.Peer(), s.surfaces, OneMonitor(size), true)
    ensures |s.surfaces| == 1 && s.surfaces[0].size == size
  {
    assert Outputs(OneMonitor(size), true)[0].size == size;
  }

  /** And the store ends the wait for the new layout. */
  lemma StoreAfterChange(y: System, size: Size)
    requires Inv(y) && y.changer.Resting? && y.thread.Published?
    requires y.thread.layout == OneMonitor(y.thread.frame.size) && size.width != y.thread.frame.size.width
    requires y.stream.monitorLayout == OneMonitor(size)
    ensures Lost(Step(y, ClearReset))
  {
    OneMonitorDesktops(size, y.thread.frame.size);
    StepKeepsInv(y, ClearReset);
    ClearResetKeepsAgreementIff(y);
  }

  /** What a send can begin with: a frame of the one monitor set, and a reset to be done first. */
  ghost predicate AboutToReset(y: System) {
    && AtRest(y) && y.stream.capsConfirmed && y.stream.pendingReset
    && y.thread.Taken? && y.thread.frame.dataSize > 0 && y.thread.frame.outputIndex == 0
    && y.stream.monitorLayout == OneMonitor(y.thread.frame.size)
  }

  lemma LostAfterCopy(y: System, size: Size)
    requires Inv(y) && y.changer.Resting? && y.thread.Copied? && y.thread.frame.outputIndex == 0
    requires y.thread.layout == y.stream.monitorLayout == OneMonitor(y.thread.frame.size)
    requires size.width != y.thread.frame.size.width
    ensures var changed := Step(Step(Step(y, StoreLayout(OneMonitor(size))), ClearQueue), StoreReset);
            var z := Step(Step(changed, Publish([])), ClearReset);
            && Lost(z) && z.sent == y.sent && z.stream.monitorLayout == OneMonitor(size)
            && |z.stream.surfaces| == 1 && z.stream.surfaces[0].size == y.thread.frame.size
  {
    assert OneMonitor(size)[0].size != y.stream.monitorLayout[0].size;
    ChangeAfterCopy(y, OneMonitor(size));
    LostAfterChange(Step(Step(Step(y, StoreLayout(OneMonitor(size))), ClearQueue), StoreReset), size);
  }

  lemma LostAfterChange(y: System, size: Size)
    requires Inv(y) && y.changer.Resting? && y.thread.Copied? && y.thread.frame.outputIndex == 0
    requires y.thread.layout == OneMonitor(y.thread.frame.size) && y.stream.monitorLayout == OneMonitor(size)
    requires size.width != y.thread.frame.size.width
    ensures var z := Step(Step(y, Publish([])), ClearReset);
            && Lost(z) && z.sent == y.sent && z.stream.monitorLayout == OneMonitor(size)
            && |z.stream.surfaces| == 1 && z.stream.surfaces[0].size == y.thread.frame.size
  {
    var published := Step(y, Publish([]));
    PublishAfterChange(y, size);
    StoreAfterChange(published, size);
    assert Step(published, ClearReset).stream == published.stream.(pendingReset := false);
  }

  /** When they overlap, a layout change can be lost: the client keeps showing the old layout, and no reset is
      pending. */
  lemma OverlapLosesALayoutChange(y: System, size: Size)
    requires AboutToReset(y) && size.width != y.thread.frame.size.width
    ensures var z := Run(y, Overlap(OneMonitor(size)));
            && Lost(z) && z.sent == y.sent && z.stream.monitorLayout == OneMonitor(size)
            && |z.stream.surfaces| == 1 && z.stream.surfaces[0].size == y.thread.frame.size
  {
    CopiesTheLayout(y);
    LoadingStaysCurrent(y);
    LostAfterCopy(y.(thread := Copied(y.thread.at, y.thread.frame, y.stream.monitorLayout)), size);
    RunSeven(y, Overlap(OneMonitor(size)));
  }

  /** From then on, until another layout is set or a reset requested, no frame of the new size is sent: whatever is
      sent has the old one. */
  lemma AfterTheLossOnlyOldFramesAreSent(y: System, size: Size, events: seq<Event>)
    requires AboutToReset(y) && size.width != y.thread.frame.size.width
    requires forall i :: 0 <= i < |events| ==> !Recovers(events[i], OneMonitor(size))
    ensures var z := Run(Run(y, Overlap(OneMonitor(size))), events);
            && !Agrees(z) && |y.sent| <= |z.sent|
            && forall i :: |y.sent| <= i < |z.sent| ==>
                 z.sent[i] < |z.queued| && z.queued[z.sent[i]].size == y.thread.frame.size
  {
    OverlapLosesALayoutChange(y, size);
    LostChangeStaysLost(Run(y, Overlap(OneMonitor(size))), events);
  }

  const PLAIN_CAPS := CapSet(CAPS_107, false, false)

  /** The calls that bring a new stream to where the overlap can happen: one monitor, one frame of its size, taken. */
  function Preparation(frame: VideoFrame): seq<Call> {
    [Handling(SetEnabled(true)), Handling(Caps([PLAIN_CAPS])), Changing(OneMonitor(frame.size)),
     Handling(Queue(frame, true)), Handling(Take)]
  }

  lemma OverlapIsReachable(frame: VideoFrame)
    requires !frame.size.IsEmpty()
    requires frame.dataSize > 0 && frame.outputIndex == 0
    ensures var y := RunCalls(START, Preparation(frame));
            AboutToReset(y) && y.thread.frame == frame
  {
    var calls := Preparation(frame);
    ClientShowsTheLayout(calls);
    RunFiveCalls(START, calls);
    var enabled := INITIAL.(enabled := true);
    var confirmed := ConfirmCaps(enabled, PLAIN_CAPS);
    assert AdvertiseCaps(enabled, [PLAIN_CAPS]) == confirmed by {
      assert [PLAIN_CAPS][0].Usable();
    }
    assert Step(Step(START, SetEnabled(true)), Caps([PLAIN_CAPS])) == START.(stream := confirmed);
    LayoutThenFrame(START.(stream := confirmed), frame);
  }

  lemma LayoutThenFrame(y: System, frame: VideoFrame)
    requires y.thread.Idle? && y.changer.Resting? && y.queued == [] && y.stream.frameQueue == []
    requires y.stream.enabled && y.stream.monitorLayout == [] && !frame.size.IsEmpty()
    ensures var z := Step(Step(CallStep(y, Changing(OneMonitor(frame.size))), Queue(frame, true)), Take);
            && z.thread == Taken(0, frame)
            && z.stream.monitorLayout == OneMonitor(frame.size) && z.stream.pendingReset
            && z.stream.capsConfirmed == y.stream.capsConfirmed
  {
  }

  lemma RunFiveCalls(y: System, c: seq<Call>)
    requires |c| == 5
    ensures RunCalls(y, c) == CallStep(CallStep(CallStep(CallStep(CallStep(y, c[0]), c[1]), c[2]), c[3]), c[4])
  {
    assert RunCalls(y, c[..0]) == y;
    assert c[..1][..0] == c[..0] && c[..2][..1] == c[..1] && c[..3][..2] == c[..2] && c[..4][..3] == c[..3];
    assert RunCalls(y, c[..2]) == CallStep(CallStep(y, c[0]), c[1]);
    assert RunCalls(y, c[..4]) == CallStep(CallStep(RunCalls(y, c[..2]), c[2]), c[3]);
  }
}

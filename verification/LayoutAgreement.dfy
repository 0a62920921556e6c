/** Whether the client shows the layout that was set. */
module LayoutAgreement {
  import opened Topology
  import opened GraphicsChannel
  import opened VideoState
  import opened SurfaceProofs
  import opened VideoRuns

  /** Unless a reset is still to come, the client shows the layout that is set. */
  ghost predicate Agrees(y: System) {
    || !y.changer.Resting?
    || y.stream.pendingReset
    || y.stream.monitorLayout == []
    || Shows(y.stream.Peer(), y.stream.surfaces, y.stream.monitorLayout)
  }

  /** Only one step can lose agreement: the submission thread's store to `pendingReset`. */
  lemma OtherStepsKeepAgreement(y: System, e: Event)
    requires Inv(y) && Agrees(y) && !e.ClearReset?
    ensures Agrees(Step(y, e))
  {
    match e {
      case Caps(sets) =>
        CapsInOrder(y.stream, sets);
        ShowsWhateverTheCaps(y.stream.Peer(), y.stream.surfaces, y.stream.monitorLayout);
      case Publish(status) => ResetOnlyTouchesSurfaces(y, status);
      case SubmitFrame =>
        if y.thread.Ready? {
          SubmitInOrder(y.stream, y.thread.frame);
        }
      case _ =>
    }
  }

  lemma ResetOnlyTouchesSurfaces(y: System, status: seq<bool>)
    requires Inv(y)
    ensures y.thread.Copied? ==> Step(y, Publish(status)).stream.pendingReset
    ensures !y.thread.Copied? ==> Step(y, Publish(status)) == y
  {
    if y.thread.Copied? {
      ResetKeepsClientInStep(y.stream, y.thread.layout, y.thread.frame, status);
    }
  }

  /** That store keeps agreement exactly when a layout change is still under way and will store `true` again, no layout
      is set, or the layout set by now publishes the same desktop as the one copied for the reset. */
  lemma ClearResetKeepsAgreementIff(y: System)
    requires Inv(y) && y.thread.Published?
    ensures Agrees(Step(y, ClearReset)) <==>
              || !y.changer.Resting?
              || y.stream.monitorLayout == []
              || DesktopOf(y.stream.monitorLayout) == DesktopOf(EffectiveLayout(y.thread.layout, y.thread.frame))
  {
    var layout, copied := y.stream.monitorLayout, EffectiveLayout(y.thread.layout, y.thread.frame);
    if layout != [] {
      ShowsIffSameDesktop(y.stream.Peer(), y.stream.surfaces, copied, layout);
    }
    ClearingLeavesThePicture(y);
  }

  lemma ClearingLeavesThePicture(y: System)
    requires y.thread.Published?
    ensures var s, t := y.stream, Step(y, ClearReset).stream;
            && t == s.(pendingReset := false) && t.Peer() == s.Peer() && Step(y, ClearReset).changer == y.changer
  {
  }

  lemma ShowsIffSameDesktop(c: Client, surfaces: seq<Surface>, a: Layout, b: Layout)
    requires Shows(c, surfaces, a) && b != []
    ensures Shows(c, surfaces, b) <==> DesktopOf(a) == DesktopOf(b)
  {
    if DesktopOf(a) == DesktopOf(b) {
      ShowsSameDesktop(c, surfaces, a, b);
    }
  }

  lemma ShowsSameDesktop(c: Client, surfaces: seq<Surface>, a: Layout, b: Layout)
    requires Shows(c, surfaces, a) && b != [] && DesktopOf(a) == DesktopOf(b)
    ensures Shows(c, surfaces, b)
  {
    var perOutput: bool :| ShowsAs(c, surfaces, a, perOutput);
    DesktopDeterminesOutputs(a, b, perOutput);
    assert ShowsAs(c, surfaces, b, perOutput);
  }

  // Layout changes and sends that do not overlap.

  datatype Call = Sending(status: seq<bool>) | Changing(layout: Layout) | Handling(event: Event)

  predicate IsHandler(e: Event) {
    e.SetEnabled? || e.Queue? || e.Caps? || e.Ack? || e.RequestReset? || e.Take?
  }

  predicate IsCall(c: Call) {
    (c.Handling? ==> IsHandler(c.event)) && (c.Changing? ==> |c.layout| <= ID_SPACE)
  }

  function CallStep(y: System, c: Call): System {
    match c
    case Sending(status) =>
      Step(Step(Step(Step(Step(y, LoadReset), CopyLayout), Publish(status)), ClearReset), SubmitFrame)
    case Changing(layout) => Step(Step(Step(y, StoreLayout(layout)), ClearQueue), StoreReset)
    case Handling(e) => Step(y, e)
  }

  function RunCalls(y: System, calls: seq<Call>): System {
    if |calls| == 0 then y else CallStep(RunCalls(y, calls[..|calls| - 1]), calls[|calls| - 1])
  }

  /** Between two calls. */
  ghost predicate AtRest(y: System) {
    Inv(y) && Agrees(y) && y.changer.Resting? && (y.thread.Idle? || y.thread.Taken?)
  }

  /** Without overlap, the steps of a layout change amount to setMonitorLayout. */
  lemma ChangingIsAtomic(y: System, layout: Layout)
    requires y.changer.Resting?
    ensures CallStep(y, Changing(layout)).stream == SetMonitorLayout(y.stream, layout)
  {
  }

  /** Without overlap, the thread's steps amount to sendFrame. */
  lemma SendingIsAtomic(y: System, status: seq<bool>)
    requires y.thread.Taken?
    ensures CallStep(y, Sending(status)).stream == SendFrame(y.stream, y.thread.frame, status)
  {
    if y.stream.capsConfirmed && y.thread.frame.dataSize > 0 && y.stream.pendingReset {
      CopiesTheLayout(y);
    }
  }

  lemma CopiesTheLayout(y: System)
    requires y.thread.Taken? && y.stream.capsConfirmed && y.thread.frame.dataSize > 0 && y.stream.pendingReset
    ensures Step(Step(y, LoadReset), CopyLayout)
         == y.(thread := Copied(y.thread.at, y.thread.frame, y.stream.monitorLayout))
  {
  }

  /** A turn of the submission loop is a take followed by a send. */
  lemma TurnIsTakeAndSend(y: System, status: seq<bool>)
    requires y.thread.Idle?
    ensures CallStep(CallStep(y, Handling(Take)), Sending(status)).stream == SubmissionTurn(y.stream, status)
  {
    var taken := Step(y, Take);
    if taken.thread.Taken? {
      SendingIsAtomic(taken, status);
    } else {
      NothingToSend(taken, status);
    }
  }

  lemma NothingToSend(y: System, status: seq<bool>)
    requires y.thread.Idle?
    ensures CallStep(y, Sending(status)) == y
  {
  }

  lemma StepKeepsInv(y: System, e: Event)
    requires Inv(y) && (e.StoreLayout? ==> |e.layout| <= ID_SPACE)
    ensures Inv(Step(y, e))
  {
    GraphicsStep(y, e);
    QueueStep(y, e);
    FramesStep(y, e);
  }

  /** Midway through a send: the layout copied, if any, is still the one set. */
  ghost predicate Current(y: System) {
    && Inv(y) && Agrees(y) && y.changer.Resting?
    && (y.thread.Copied? || y.thread.Published? ==> y.thread.layout == y.stream.monitorLayout)
  }

  lemma LoadingStaysCurrent(y: System)
    requires AtRest(y)
    ensures var z := Step(Step(y, LoadReset), CopyLayout);
            Current(z) && (z.thread.Idle? || z.thread.Copied? || z.thread.Ready?)
  {
    QuietStepStaysCurrent(y, LoadReset);
    QuietStepStaysCurrent(Step(y, LoadReset), CopyLayout);
    LoadingGoesOn(y);
  }

  lemma LoadingGoesOn(y: System)
    requires y.thread.Idle? || y.thread.Taken?
    ensures var z := Step(Step(y, LoadReset), CopyLayout);
            z.thread.Idle? || z.thread.Copied? || z.thread.Ready?
  {
  }

  lemma QuietStepStaysCurrent(y: System, e: Event)
    requires Current(y) && !y.thread.Copied? && !y.thread.Published? && (e.LoadReset? || e.CopyLayout?)
    ensures Current(Step(y, e))
  {
    StepKeepsInv(y, e);
    OtherStepsKeepAgreement(y, e);
  }

  lemma PublishingStaysCurrent(y: System, status: seq<bool>)
    requires Current(y) && (y.thread.Idle? || y.thread.Copied? || y.thread.Ready?)
    ensures var z := Step(y, Publish(status));
            Current(z) && (z.thread.Idle? || z.thread.Published? || z.thread.Ready?)
  {
    StepKeepsInv(y, Publish(status));
    OtherStepsKeepAgreement(y, Publish(status));
    PublishKeepsLayout(y, status);
  }

  lemma ClearingStaysCurrent(y: System)
    requires Current(y) && (y.thread.Idle? || y.thread.Published? || y.thread.Ready?)
    ensures Current(Step(y, ClearReset)) && (Step(y, ClearReset).thread.Idle? || Step(y, ClearReset).thread.Ready?)
  {
  }

  lemma SendingKeepsAgreement(y: System, status: seq<bool>)
    requires AtRest(y)
    ensures AtRest(CallStep(y, Sending(status)))
  {
    LoadingStaysCurrent(y);
    var copied := Step(Step(y, LoadReset), CopyLayout);
    PublishingStaysCurrent(copied, status);
    var published := Step(copied, Publish(status));
    ClearingStaysCurrent(published);
    SubmittingComesToRest(Step(published, ClearReset));
  }

  lemma SubmittingComesToRest(y: System)
    requires Current(y) && (y.thread.Idle? || y.thread.Ready?)
    ensures AtRest(Step(y, SubmitFrame))
  {
    StepKeepsInv(y, SubmitFrame);
    OtherStepsKeepAgreement(y, SubmitFrame);
  }

  lemma PublishKeepsLayout(y: System, status: seq<bool>)
    requires Inv(y)
    ensures var t := Step(y, Publish(status));
            && t.stream.monitorLayout == y.stream.monitorLayout && t.changer == y.changer
            && (t.thread.Published? && !y.thread.Published? ==>
                  y.thread.Copied? && t.thread.layout == y.thread.layout && t.thread.frame == y.thread.frame)
  {
    if y.thread.Copied? {
      ResetKeepsClientInStep(y.stream, y.thread.layout, y.thread.frame, status);
    }
  }

  lemma ChangingKeepsAgreement(y: System, layout: Layout)
    requires AtRest(y) && |layout| <= ID_SPACE
    ensures AtRest(CallStep(y, Changing(layout)))
  {
    var stored := Step(y, StoreLayout(layout));
    ChangerStepKeepsAgreement(y, StoreLayout(layout));
    ChangerStepKeepsAgreement(stored, ClearQueue);
    ChangerStepKeepsAgreement(Step(stored, ClearQueue), StoreReset);
    ChangerComesToRest(y, layout);
  }

  lemma ChangerStepKeepsAgreement(y: System, e: Event)
    requires Inv(y) && Agrees(y) && (e.StoreLayout? || e.ClearQueue? || e.StoreReset?)
    requires e.StoreLayout? ==> |e.layout| <= ID_SPACE
    ensures Inv(Step(y, e)) && Agrees(Step(y, e)) && Step(y, e).thread == y.thread
  {
    StepKeepsInv(y, e);
    OtherStepsKeepAgreement(y, e);
  }

  lemma ChangerComesToRest(y: System, layout: Layout)
    requires y.changer.Resting?
    ensures CallStep(y, Changing(layout)).changer.Resting?
  {
  }

  lemma HandlingKeepsAgreement(y: System, e: Event)
    requires AtRest(y) && IsHandler(e)
    ensures AtRest(Step(y, e))
  {
    StepKeepsInv(y, e);
    OtherStepsKeepAgreement(y, e);
  }

  lemma CallKeepsAgreement(y: System, c: Call)
    requires AtRest(y) && IsCall(c)
    ensures AtRest(CallStep(y, c))
  {
    match c {
      case Sending(status) => SendingKeepsAgreement(y, status);
      case Changing(layout) => ChangingKeepsAgreement(y, layout);
      case Handling(e) => HandlingKeepsAgreement(y, e);
    }
  }

  lemma SendingKeepsLayout(y: System, status: seq<bool>)
    requires AtRest(y)
    ensures CallStep(y, Sending(status)).stream.monitorLayout == y.stream.monitorLayout
  {
    LoadingStaysCurrent(y);
    var copied := Step(Step(y, LoadReset), CopyLayout);
    PublishKeepsLayout(copied, status);
    var published := Step(copied, Publish(status));
    SubmittingKeepsLayout(published);
  }

  lemma SubmittingKeepsLayout(y: System)
    ensures var z := Step(Step(y, ClearReset), SubmitFrame);
            z.stream.monitorLayout == y.stream.monitorLayout
  {
    StepKeepsLayout(y, ClearReset);
    StepKeepsLayout(Step(y, ClearReset), SubmitFrame);
  }

  lemma StepKeepsLayout(y: System, e: Event)
    requires IsHandler(e) || e.ClearReset? || e.SubmitFrame?
    ensures Step(y, e).stream.monitorLayout == y.stream.monitorLayout
  {
  }

  lemma CallKeepsLayout(y: System, call: Call)
    requires AtRest(y) && IsCall(call) && !call.Changing?
    ensures CallStep(y, call).stream.monitorLayout == y.stream.monitorLayout
  {
    if call.Sending? {
      SendingKeepsLayout(y, call.status);
    } else {
      StepKeepsLayout(y, call.event);
    }
  }

  /** If sends and layout changes never overlap, then after every call, unless a reset is pending, the client shows the
      layout that is set: the desktop last published is its desktop, and the surfaces are its monitors in list order,
      each at its place, or a single surface for the whole desktop. */
  lemma {:induction false} ClientShowsTheLayout(calls: seq<Call>)
    requires forall i :: 0 <= i < |calls| ==> IsCall(calls[i])
    ensures AtRest(RunCalls(START, calls))
  {
    if |calls| == 0 {
      InvAtStart();
    } else {
      var before, c := calls[..|calls| - 1], calls[|calls| - 1];
      ClientShowsTheLayout(before);
      CallKeepsAgreement(RunCalls(START, before), c);
    }
  }

  /** The surface painted for the frame: the monitor it names, or the first surface. */
  ghost predicate PaintsOutput(after: State, frame: VideoFrame, outputs: seq<Output>) {
    var index := if frame.outputIndex >= 0 then frame.outputIndex else 0;
    && index < |outputs| && outputs[index].size == frame.size
    && |after.wire| >= 2
    && var command := after.wire[|after.wire| - 2];
       && command.SurfaceCommand? && command.size == frame.size
       && command.id in after.Peer().mapped && after.Peer().mapped[command.id] == outputs[index].origin
  }

  /** A frame submitted while a layout is set is painted where that layout has the monitor the frame names, or on the
      surface for the whole desktop, and has its size; if a reset was pending, the frame decided which of the two. */
  lemma SubmittedFramePaintsItsMonitor(y: System, status: seq<bool>)
    requires AtRest(y) && y.thread.Taken? && y.stream.monitorLayout != []
    requires CallStep(y, Sending(status)).sent != y.sent
    ensures var layout, frame, after := y.stream.monitorLayout, y.thread.frame, CallStep(y, Sending(status)).stream;
            exists perOutput: bool :: PaintsOutput(after, frame, Outputs(layout, perOutput))
    ensures y.stream.pendingReset ==> Fits(y.stream.monitorLayout, y.thread.frame)
  {
    var s, layout, frame := y.stream, y.stream.monitorLayout, y.thread.frame;
    SendingSubmitsIff(y, status);
    SendingIsAtomic(y, status);
    if s.pendingReset {
      ResetKeepsClientInStep(s, layout, frame, status);
      var t := PerformReset(s, layout, frame, status).0.(pendingReset := false);
      SubmitPaintsItsOutput(t, layout, frame, frame.outputIndex >= 0);
    } else {
      var perOutput: bool :| ShowsAs(s.Peer(), s.surfaces, layout, perOutput);
      SubmitPaintsItsOutput(s, layout, frame, perOutput);
    }
  }

  lemma SubmitPaintsItsOutput(s: State, layout: Layout, frame: VideoFrame, perOutput: bool)
    requires layout != [] && ShowsAs(s.Peer(), s.surfaces, layout, perOutput) && CanSubmit(s, frame)
    ensures PaintsOutput(Submit(s, frame), frame, Outputs(layout, perOutput))
  {
    SubmitSends(s, frame);
    var surface := s.surfaces[SurfaceIndex(frame)];
    assert surface.id in s.Peer().mapped;
    assert s.Peer().mapped[surface.id] == Outputs(layout, perOutput)[SurfaceIndex(frame)].origin;
  }

  lemma SendingSubmitsIff(y: System, status: seq<bool>)
    requires y.thread.Taken?
    ensures var s, frame, z := y.stream, y.thread.frame, CallStep(y, Sending(status));
            && (z.sent == y.sent || z.sent == y.sent + [y.thread.at])
            && (z.sent != y.sent <==>
                  && s.capsConfirmed && frame.dataSize > 0
                  && if s.pendingReset
                     then var (t, ok) := PerformReset(s, s.monitorLayout, frame, status); ok && CanSubmit(t, frame)
                     else CanSubmit(s, frame))
  {
  }

  // Progress.

  /** Every call a reset needs reports success: one ResetGraphics, and a create and a map for each output. */
  predicate AllSucceed(status: seq<bool>, outputs: nat) {
    forall call: nat :: call <= 2 * outputs ==> Ok(status, call)
  }

  lemma {:induction false} CreatesSucceedIff(s: State, outputs: seq<Output>, index: nat, status: seq<bool>)
    requires index <= |outputs|
    ensures CreateOutputs(s, outputs, index, status).1 <==>
              forall call: nat :: 2 * index < call <= 2 * |outputs| ==> Ok(status, call)
    decreases |outputs| - index
  {
    if index < |outputs| && Ok(status, 1 + 2 * index) && Ok(status, 2 + 2 * index) {
      var created := CreateNext(s, outputs[index].size);
      var place := MapSurfaceToOutput(s.nextSurfaceId, outputs[index].origin);
      CreatesSucceedIff(created.Send(place), outputs, index + 1, status);
    }
  }

  lemma ResetSucceedsIff(s: State, layout: Layout, frame: VideoFrame, status: seq<bool>)
    ensures var effective := EffectiveLayout(layout, frame);
            PerformReset(s, layout, frame, status).1 <==>
              Fits(effective, frame) && AllSucceed(status, OutputCount(effective, frame.outputIndex >= 0))
  {
    var effective := EffectiveLayout(layout, frame);
    if Fits(effective, frame) {
      var cleared := DeleteSurfaces(s, |s.surfaces|).(surfaces := []);
      var reset := cleared.Send(ResetGraphics(DesktopOf(effective)));
      CreatesSucceedIff(reset, Outputs(effective, frame.outputIndex >= 0), 0, status);
    }
  }

  /** A frame taken from the queue is submitted exactly if the capabilities are confirmed and it has data, and either
      it fits the layout to be published and every call of the reset succeeds, or no reset is pending and the surface it
      names has its size. So a failed or premature reset is made up for by the next fitting frame. */
  lemma FrameIsSubmittedIff(y: System, status: seq<bool>)
    requires AtRest(y) && y.thread.Taken?
    ensures var s, frame := y.stream, y.thread.frame;
            var effective := EffectiveLayout(s.monitorLayout, frame);
            CallStep(y, Sending(status)).sent != y.sent <==>
              && s.capsConfirmed && frame.dataSize > 0
              && if s.pendingReset
                 then Fits(effective, frame) && AllSucceed(status, OutputCount(effective, frame.outputIndex >= 0))
                 else CanSubmit(s, frame)
  {
    var s, frame := y.stream, y.thread.frame;
    SendingSubmitsIff(y, status);
    ResetSucceedsIff(s, s.monitorLayout, frame, status);
    if s.capsConfirmed && s.pendingReset && PerformReset(s, s.monitorLayout, frame, status).1 {
      ResetKeepsClientInStep(s, s.monitorLayout, frame, status);
      FittingFrameCanBeSubmitted(PerformReset(s, s.monitorLayout, frame, status).0,
                                 EffectiveLayout(s.monitorLayout, frame), frame);
    }
  }

  lemma FittingFrameCanBeSubmitted(s: State, layout: Layout, frame: VideoFrame)
    requires layout != [] && Fits(layout, frame) && ShowsAs(s.Peer(), s.surfaces, layout, frame.outputIndex >= 0)
    ensures CanSubmit(s, frame)
  {
  }
}

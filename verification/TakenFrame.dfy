/** The frame the submission thread had already taken when the layout changed. */
module TakenFrame {
  import opened Topology
  import opened VideoState
  import opened SurfaceProofs
  import opened VideoRuns
  import opened VideoTheorems
  import opened LayoutAgreement

  /** The frame is taken, and a reset is to be done before it is sent. */
  ghost predicate Waiting(y: System, at: nat, frame: VideoFrame) {
    AtRest(y) && y.thread == Taken(at, frame) && y.stream.pendingReset
  }

  /** The thread is past the frame. */
  ghost predicate Past(y: System, at: nat) {
    AtRest(y) && at < Unqueued(y) && (y.thread.Idle? || y.thread.at > at)
  }

  lemma SendingLeavesTheQueue(y: System, status: seq<bool>)
    requires AtRest(y)
    ensures Unqueued(CallStep(y, Sending(status))) == Unqueued(y)
    ensures CallStep(y, Sending(status)).thread.Idle?
  {
    if y.thread.Taken? {
      SendingIsAtomic(y, status);
      SendFrameLeavesTheQueue(y.stream, y.thread.frame, status);
      SendingEndsIdle(y, status);
    } else {
      NothingToSend(y, status);
    }
  }

  lemma SendFrameLeavesTheQueue(s: State, frame: VideoFrame, status: seq<bool>)
    requires Coherent(s) && |s.monitorLayout| <= ID_SPACE
    ensures SendFrame(s, frame, status).frameQueue == s.frameQueue
  {
    if s.capsConfirmed {
      ResetKeepsClientInStep(s, s.monitorLayout, frame, status);
    }
  }

  lemma SendingEndsIdle(y: System, status: seq<bool>)
    requires y.thread.Taken?
    ensures CallStep(y, Sending(status)).thread.Idle? && CallStep(y, Sending(status)).queued == y.queued
  {
  }

  lemma ChangingLeavesTheThread(y: System, layout: Layout)
    requires AtRest(y)
    ensures var z := CallStep(y, Changing(layout));
            && z.thread == y.thread && z.sent == y.sent && Unqueued(z) >= Unqueued(y)
            && (y.stream.pendingReset || layout != y.stream.monitorLayout ==> z.stream.pendingReset)
            && z.stream.monitorLayout == layout
  {
  }

  lemma HandlingLeavesTheFrame(y: System, e: Event, at: nat, frame: VideoFrame)
    requires Waiting(y, at, frame) && IsHandler(e)
    ensures Step(y, e).thread == y.thread && Step(y, e).stream.pendingReset
  {
  }

  /** While it waits, only a send touches the frame, and it is submitted only if it fits the layout set by then. */
  lemma WaitingStep(y: System, c: Call, at: nat, frame: VideoFrame)
    requires Waiting(y, at, frame) && IsCall(c)
    ensures var z := CallStep(y, c);
            if c.Sending? then
              Past(z, at) && (at in z.sent ==> Fits(EffectiveLayout(y.stream.monitorLayout, frame), frame))
            else Waiting(z, at, frame)
  {
    CallKeepsAgreement(y, c);
    match c {
      case Sending(status) =>
        SendingLeavesTheQueue(y, status);
        FrameIsSubmittedIff(y, status);
      case Changing(layout) => ChangingLeavesTheThread(y, layout);
      case Handling(e) => HandlingLeavesTheFrame(y, e, at, frame);
    }
  }

  /** Once past it, the thread never submits it. */
  lemma PastStep(y: System, c: Call, at: nat)
    requires Past(y, at) && IsCall(c)
    ensures Past(CallStep(y, c), at) && (at in CallStep(y, c).sent ==> at in y.sent)
  {
    CallKeepsAgreement(y, c);
    match c {
      case Sending(status) =>
        SendingLeavesTheQueue(y, status);
        if y.thread.Taken? {
          SendingSubmitsIff(y, status);
        } else {
          NothingToSend(y, status);
        }
      case Changing(layout) => ChangingLeavesTheThread(y, layout);
      case Handling(e) => UnqueuedGrows(y, e);
    }
  }

  /** One of the calls is a send, and the layout set at that time is one the frame fits. */
  ghost predicate SentFitting(y: System, calls: seq<Call>, frame: VideoFrame) {
    exists i :: 0 <= i < |calls| && calls[i].Sending?
      && Fits(EffectiveLayout(RunCalls(y, calls[..i]).stream.monitorLayout, frame), frame)
  }

  lemma SentFittingStays(y: System, calls: seq<Call>, frame: VideoFrame)
    requires |calls| > 0 && SentFitting(y, calls[..|calls| - 1], frame)
    ensures SentFitting(y, calls, frame)
  {
    var before := calls[..|calls| - 1];
    var i :| 0 <= i < |before| && before[i].Sending?
      && Fits(EffectiveLayout(RunCalls(y, before[..i]).stream.monitorLayout, frame), frame);
    assert calls[i] == before[i] && calls[..i] == before[..i];
  }

  lemma {:induction false} WaitingRun(y: System, calls: seq<Call>, at: nat, frame: VideoFrame)
    requires Waiting(y, at, frame) && forall i :: 0 <= i < |calls| ==> IsCall(calls[i])
    ensures var z := RunCalls(y, calls);
            Waiting(z, at, frame) || (Past(z, at) && (at in z.sent ==> SentFitting(y, calls, frame)))
  {
    if |calls| > 0 {
      var before, c := calls[..|calls| - 1], calls[|calls| - 1];
      var z := RunCalls(y, before);
      WaitingRun(y, before, at, frame);
      if Waiting(z, at, frame) {
        WaitingStep(z, c, at, frame);
        assert c == calls[|before|] && before == calls[..|before|];
      } else {
        PastStep(z, c, at);
        if at in z.sent {
          SentFittingStays(y, calls, frame);
        }
      }
    }
  }

  /** A frame taken before the layout changed is submitted, however the calls go on, only if at the time of a send it
      fits the layout then set. */
  lemma TakenFrameIsSentOnlyIfItFits(y: System, layout: Layout, calls: seq<Call>)
    requires AtRest(y) && y.thread.Taken? && layout != y.stream.monitorLayout && |layout| <= ID_SPACE
    requires forall i :: 0 <= i < |calls| ==> IsCall(calls[i])
    ensures var changed := CallStep(y, Changing(layout));
            y.thread.at in RunCalls(changed, calls).sent ==> SentFitting(changed, calls, y.thread.frame)
  {
    ChangingLeavesTheThread(y, layout);
    CallKeepsAgreement(y, Changing(layout));
    var changed := CallStep(y, Changing(layout));
    WaitingRun(changed, calls, y.thread.at, y.thread.frame);
    var z := RunCalls(changed, calls);
    if Waiting(z, y.thread.at, y.thread.frame) {
      assert forall i :: 0 <= i < |z.sent| ==> z.sent[i] < z.thread.at;
    }
  }

  lemma {:induction false} LayoutStays(y: System, calls: seq<Call>)
    requires AtRest(y) && forall i :: 0 <= i < |calls| ==> IsCall(calls[i]) && !calls[i].Changing?
    ensures AtRest(RunCalls(y, calls)) && RunCalls(y, calls).stream.monitorLayout == y.stream.monitorLayout
  {
    if |calls| > 0 {
      LayoutStays(y, calls[..|calls| - 1]);
      CallKeepsAgreement(RunCalls(y, calls[..|calls| - 1]), calls[|calls| - 1]);
      CallKeepsLayout(RunCalls(y, calls[..|calls| - 1]), calls[|calls| - 1]);
    }
  }

  /** If the layout does not change again, that is the new layout. */
  lemma TakenFrameMustFitTheNewLayout(y: System, layout: Layout, calls: seq<Call>)
    requires AtRest(y) && y.thread.Taken? && layout != y.stream.monitorLayout && |layout| <= ID_SPACE && layout != []
    requires forall i :: 0 <= i < |calls| ==> IsCall(calls[i]) && !calls[i].Changing?
    ensures y.thread.at in RunCalls(CallStep(y, Changing(layout)), calls).sent ==> Fits(layout, y.thread.frame)
  {
    var changed, frame := CallStep(y, Changing(layout)), y.thread.frame;
    TakenFrameIsSentOnlyIfItFits(y, layout, calls);
    ChangingLeavesTheThread(y, layout);
    CallKeepsAgreement(y, Changing(layout));
    if SentFitting(changed, calls, frame) {
      FitsTheLayout(changed, calls, frame);
    }
  }

  lemma FitsTheLayout(y: System, calls: seq<Call>, frame: VideoFrame)
    requires AtRest(y) && SentFitting(y, calls, frame)
    requires forall i :: 0 <= i < |calls| ==> IsCall(calls[i]) && !calls[i].Changing?
    ensures Fits(EffectiveLayout(y.stream.monitorLayout, frame), frame)
  {
    var i :| 0 <= i < |calls| && calls[i].Sending?
      && Fits(EffectiveLayout(RunCalls(y, calls[..i]).stream.monitorLayout, frame), frame);
    LayoutStays(y, calls[..i]);
  }
}

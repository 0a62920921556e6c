/** What becomes of every frame handed to the stream. */
module FrameQueue {
  import opened Topology
  import opened VideoState
  import opened SurfaceProofs
  import opened VideoRuns
  import opened VideoTheorems
  import opened LayoutAgreement

  /** Whether the stream is enabled after these events: what it was set to last. */
  predicate EnabledAfter(events: seq<Event>) {
    |events| > 0
    && var e := events[|events| - 1];
       if e.SetEnabled? then e.on else EnabledAfter(events[..|events| - 1])
  }

  /** The frames that came while the session was streaming and the stream enabled, in order. */
  function Offered(events: seq<Event>): seq<VideoFrame> {
    if |events| == 0 then []
    else
      var before, e := events[..|events| - 1], events[|events| - 1];
      Offered(before) + if e.Queue? && e.streaming && EnabledAfter(before) then [e.frame] else []
  }

  /** How a frame left the queue. */
  datatype Leaving = TakenOut(frame: VideoFrame) | ClearedOut(frame: VideoFrame)

  function AllCleared(frames: seq<VideoFrame>): seq<Leaving> {
    seq(|frames|, i requires 0 <= i < |frames| => ClearedOut(frames[i]))
  }

  /** What an event takes out of the queue. Only the submission thread's take and the clearing for a layout change do.
      */
  function LeavingBy(y: System, e: Event): seq<Leaving> {
    if e.Take? && y.thread.Idle? && y.stream.frameQueue != [] then [TakenOut(y.stream.frameQueue[0])]
    else if e.ClearQueue? && y.changer.LayoutStored? then AllCleared(y.stream.frameQueue)
    else []
  }

  function Leavings(events: seq<Event>): seq<Leaving> {
    if |events| == 0 then []
    else
      var before, e := events[..|events| - 1], events[|events| - 1];
      Leavings(before) + LeavingBy(Run(START, before), e)
  }

  function FramesOf(leavings: seq<Leaving>): seq<VideoFrame> {
    seq(|leavings|, i requires 0 <= i < |leavings| => leavings[i].frame)
  }

  predicate Accepted(y: System, e: Event) {
    e.Queue? && e.streaming && y.stream.enabled
  }

  /** The queue after an event. */
  ghost predicate QueueFollows(y: System, e: Event) {
    var s, t := y.stream, Step(y, e).stream;
    FramesOf(LeavingBy(y, e)) + t.frameQueue == s.frameQueue + if Accepted(y, e) then [e.frame] else []
  }

  lemma TakeFollows(y: System)
    ensures QueueFollows(y, Take)
  {
    if y.thread.Idle? && y.stream.frameQueue != [] {
      assert FramesOf(LeavingBy(y, Take)) == [y.stream.frameQueue[0]];
      assert Step(y, Take).stream.frameQueue == y.stream.frameQueue[1..];
    }
  }

  lemma ClearFollows(y: System)
    ensures QueueFollows(y, ClearQueue)
  {
    if y.changer.LayoutStored? {
      assert FramesOf(AllCleared(y.stream.frameQueue)) == y.stream.frameQueue;
    }
  }

  lemma OthersFollow(y: System, e: Event)
    requires !e.Take? && !e.ClearQueue? && !e.Publish? && !e.Caps?
    ensures Step(y, e).stream.frameQueue == y.stream.frameQueue + if Accepted(y, e) then [e.frame] else []
    ensures Step(y, e).stream.enabled == if e.SetEnabled? then e.on else y.stream.enabled
  {
  }

  lemma QueuedFollows(y: System, e: Event)
    ensures Step(y, e).queued == y.queued + if Accepted(y, e) then [e.frame] else []
  {
  }

  /** What one event does to the queue, and to whether the stream is enabled. */
  lemma QueueEffect(y: System, e: Event)
    requires GraphicsInv(y)
    ensures QueueFollows(y, e)
    ensures Step(y, e).stream.enabled == if e.SetEnabled? then e.on else y.stream.enabled
  {
    match e {
      case Publish(status) => PublishPaintsNothing(y, status);
      case Caps(sets) =>
      case Take => TakeFollows(y);
      case ClearQueue => ClearFollows(y);
      case _ => OthersFollow(y, e);
    }
  }

  lemma FramesOfBoth(a: seq<Leaving>, b: seq<Leaving>)
    ensures FramesOf(a + b) == FramesOf(a) + FramesOf(b)
  {
  }

  lemma Regroup<T>(offered: seq<T>, more: seq<T>, gone: seq<T>, now: seq<T>, before: seq<T>, after: seq<T>)
    requires offered == gone + before && now + after == before + more
    ensures offered + more == (gone + now) + after
  {
    assert gone + (before + more) == (gone + before) + more;
    assert gone + (now + after) == (gone + now) + after;
  }

  ghost predicate Conserved(events: seq<Event>) {
    && Offered(events) == FramesOf(Leavings(events)) + Run(START, events).stream.frameQueue
    && Offered(events) == Run(START, events).queued
    && EnabledAfter(events) == Run(START, events).stream.enabled
  }

  lemma NextIsConserved(events: seq<Event>)
    requires |events| > 0 && Conserved(events[..|events| - 1]) && GraphicsInv(Run(START, events[..|events| - 1]))
    ensures Conserved(events)
  {
    var before, e := events[..|events| - 1], events[|events| - 1];
    var y := Run(START, before);
    QueueEffect(y, e);
    QueuedFollows(y, e);
    FramesOfBoth(Leavings(before), LeavingBy(y, e));
    Regroup(Offered(before), if Accepted(y, e) then [e.frame] else [], FramesOf(Leavings(before)),
            FramesOf(LeavingBy(y, e)), y.stream.frameQueue, Step(y, e).stream.frameQueue);
  }

  /** Frames are conserved, and stay in order: those offered are the ones taken or cleared, one after the other, and
      then those still waiting. */
  lemma {:induction false} FramesAreConserved(events: seq<Event>)
    requires LayoutsFit(events)
    ensures Conserved(events)
  {
    if |events| == 0 {
      NothingIsConserved(events);
    } else {
      FramesAreConserved(events[..|events| - 1]);
      InvAlways(events[..|events| - 1]);
      NextIsConserved(events);
    }
  }

  lemma NothingIsConserved(events: seq<Event>)
    requires |events| == 0
    ensures Conserved(events)
  {
  }

  /** A frame taken is kept to be sent unless its width or height is not positive. */
  lemma TakenUnlessEmpty(y: System)
    requires QueueInv(y) && y.thread.Idle? && y.stream.frameQueue != []
    ensures var frame := y.stream.frameQueue[0];
            Step(y, Take).thread == if frame.size.width > 0 && frame.size.height > 0
                                    then Taken(|y.queued| - |y.stream.frameQueue|, frame) else Idle
  {
  }

  predicate HasArea(frame: VideoFrame) {
    frame.size.width > 0 && frame.size.height > 0
  }

  ghost predicate OnlyWithArea(y: System) {
    && (!y.thread.Idle? ==> HasArea(y.thread.frame))
    && forall i :: 0 <= i < |y.sent| ==> y.sent[i] < |y.queued| && HasArea(y.queued[y.sent[i]])
  }

  lemma StepKeepsArea(y: System, e: Event)
    requires Inv(y) && OnlyWithArea(y)
    ensures OnlyWithArea(Step(y, e))
  {
    if e.Take? && y.thread.Idle? && y.stream.frameQueue != [] {
      TakenUnlessEmpty(y);
    } else {
      QueuedFollows(y, e);
    }
  }

  /** No frame without area is ever sent. */
  lemma {:induction false} OnlyFramesWithAreaAreSent(events: seq<Event>)
    requires LayoutsFit(events)
    ensures OnlyWithArea(Run(START, events))
  {
    if |events| > 0 {
      InvAlways(events[..|events| - 1]);
      OnlyFramesWithAreaAreSent(events[..|events| - 1]);
      StepKeepsArea(Run(START, events[..|events| - 1]), events[|events| - 1]);
    }
  }

  lemma ChangingEmptiesTheQueue(y: System, layout: Layout)
    requires y.changer.Resting? && layout != y.stream.monitorLayout
    ensures var z := CallStep(y, Changing(layout));
            z.stream.frameQueue == [] && z.queued == y.queued && z.thread == y.thread && z.sent == y.sent
  {
  }

  /** A change of the layout drops all frames that are waiting: of those offered before, only the one already taken can
      still be sent, whatever happens afterwards. */
  lemma LayoutChangeDropsWaitingFrames(y: System, layout: Layout, events: seq<Event>)
    requires Inv(y) && y.changer.Resting? && layout != y.stream.monitorLayout && |layout| <= ID_SPACE
    requires LayoutsFit(events)
    ensures var z := Run(CallStep(y, Changing(layout)), events);
            forall i :: |y.sent| <= i < |z.sent| ==>
              z.sent[i] >= |y.queued| || (!y.thread.Idle? && z.sent[i] == y.thread.at)
  {
    var stored := Step(y, StoreLayout(layout));
    ChangingEmptiesTheQueue(y, layout);
    StepKeepsInv(y, StoreLayout(layout));
    StepKeepsInv(stored, ClearQueue);
    StepKeepsInv(Step(stored, ClearQueue), StoreReset);
    ClearingLeavesOnlyTheTakenFrame(CallStep(y, Changing(layout)), events);
  }
}

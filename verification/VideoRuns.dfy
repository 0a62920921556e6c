/** The stream shared by its threads. The submission thread takes a frame and sends it in steps that each touch one
    thing the other threads touch: the queue, `pendingReset`, the layout. Changing the layout takes three steps of its
    own. Every other handler is one step. A run is any interleaving of these. */
module VideoRuns {
  import opened Basics
  import opened Geometry
  import opened Topology
  import opened GraphicsChannel
  import opened VideoState
  import opened SurfaceProofs

  /** Where the submission thread stands, and the frame it took: the `at`-th ever queued. */
  datatype Thread =
    | Idle
    | Taken(at: nat, frame: VideoFrame)
    | NeedsReset(at: nat, frame: VideoFrame)
    | Copied(at: nat, frame: VideoFrame, layout: Layout)
    | Published(at: nat, frame: VideoFrame, layout: Layout)
    | Ready(at: nat, frame: VideoFrame)

  /** Where a layout change stands. */
  datatype Changer = Resting | LayoutStored | QueueCleared

  datatype System = System(
    stream: State,
    thread: Thread,
    changer: Changer,
    queued: seq<VideoFrame>,  // every frame accepted into the queue
    sent: seq<nat>,           // the positions in `queued` of the frames submitted
    acked: seq<uint32>)       // the acknowledgements accepted

  const START := System(INITIAL, Idle, Resting, [], [], [])

  datatype Event =
    | SetEnabled(on: bool)
    | Queue(frame: VideoFrame, streaming: bool)
    | Caps(sets: seq<CapSet>)
    | Ack(frameId: uint32, totalFramesDecoded: uint32)
    | RequestReset
    | StoreLayout(layout: Layout)
    | ClearQueue
    | StoreReset
    | Take
    | LoadReset
    | CopyLayout
    | Publish(status: seq<bool>)
    | ClearReset
    | SubmitFrame

  function Step(y: System, e: Event): System {
    var s := y.stream;
    match e
    case SetEnabled(on) => y.(stream := s.(enabled := on))
    case Queue(frame, streaming) =>
      y.(stream := QueueFrame(s, frame, streaming),
         queued := if streaming && s.enabled then y.queued + [frame] else y.queued)
    case Caps(sets) => y.(stream := AdvertiseCaps(s, sets))
    case Ack(id, total) =>
      y.(stream := Acknowledge(s, id, total), acked := if id in s.pendingFrames then y.acked + [id] else y.acked)
    case RequestReset => y.(stream := s.(pendingReset := true))
    case StoreLayout(layout) =>
      if !y.changer.Resting? || s.monitorLayout == layout then y
      else y.(stream := s.(monitorLayout := layout), changer := LayoutStored)
    case ClearQueue =>
      if y.changer.LayoutStored? then y.(stream := s.(frameQueue := []), changer := QueueCleared) else y
    case StoreReset =>
      if y.changer.QueueCleared? then y.(stream := s.(pendingReset := true), changer := Resting) else y
    case Take =>
      if !y.thread.Idle? || s.frameQueue == [] then y
      else
        var frame := s.frameQueue[0];
        y.(stream := s.(frameQueue := s.frameQueue[1..]),
           thread := if frame.size.IsEmpty() then Idle else Taken(Unqueued(y), frame))
    case LoadReset =>
      if !y.thread.Taken? then y
      else if !s.capsConfirmed || y.thread.frame.dataSize == 0 then y.(thread := Idle)
      else
        y.(thread := if s.pendingReset then NeedsReset(y.thread.at, y.thread.frame)
                     else Ready(y.thread.at, y.thread.frame))
    case CopyLayout =>
      if y.thread.NeedsReset? then y.(thread := Copied(y.thread.at, y.thread.frame, s.monitorLayout)) else y
    case Publish(status) =>
      if !y.thread.Copied? then y
      else
        var (reset, ok) := PerformReset(s, y.thread.layout, y.thread.frame, status);
        y.(stream := reset, thread := if ok then Published(y.thread.at, y.thread.frame, y.thread.layout) else Idle)
    case ClearReset =>
      if !y.thread.Published? then y
      else y.(stream := s.(pendingReset := false), thread := Ready(y.thread.at, y.thread.frame))
    case SubmitFrame =>
      if !y.thread.Ready? then y
      else y.(stream := Submit(s, y.thread.frame), thread := Idle,
              sent := if CanSubmit(s, y.thread.frame) then y.sent + [y.thread.at] else y.sent)
  }

  /** How many of the frames ever queued are no longer in the queue. */
  function Unqueued(y: System): nat {
    if |y.stream.frameQueue| <= |y.queued| then |y.queued| - |y.stream.frameQueue| else 0
  }

  function Run(y: System, events: seq<Event>): System {
    if |events| == 0 then y else Step(Run(y, events[..|events| - 1]), events[|events| - 1])
  }

  /** No layout has more monitors than there are surface ids. */
  predicate LayoutsFit(events: seq<Event>) {
    forall i :: 0 <= i < |events| && events[i].StoreLayout? ==> |events[i].layout| <= ID_SPACE
  }

  // The invariants of every run.

  ghost predicate GraphicsInv(y: System) {
    && Coherent(y.stream)
    && |y.stream.monitorLayout| <= ID_SPACE
    && (y.thread.Copied? ==> |y.thread.layout| <= ID_SPACE)
    && (y.thread.NeedsReset? || y.thread.Copied? ==> y.stream.pendingReset)
    && (!y.thread.Idle? && !y.thread.Taken? ==> y.stream.capsConfirmed)
    && (!y.stream.pendingReset || y.thread.Published? || y.thread.Ready? ==>
          ShowsSome(y.stream.Peer(), y.stream.surfaces))
    && (y.thread.Published? ==>
          Shows(y.stream.Peer(), y.stream.surfaces, EffectiveLayout(y.thread.layout, y.thread.frame)))
  }

  ghost predicate QueueInv(y: System) {
    && |y.stream.frameQueue| <= |y.queued|
    && y.stream.frameQueue == y.queued[Unqueued(y)..]
    && (!y.thread.Idle? ==> y.thread.at < Unqueued(y) && y.thread.frame == y.queued[y.thread.at])
    && (forall i :: 0 <= i < |y.sent| ==> y.sent[i] < if y.thread.Idle? then Unqueued(y) else y.thread.at)
    && (forall i, j :: 0 <= i < j < |y.sent| ==> y.sent[i] < y.sent[j])
  }

  /** The frames on the wire are the submitted ones, numbered from zero. */
  ghost predicate FramesInv(y: System) {
    && y.stream.frameId == |y.sent| % 0x1_0000_0000
    && y.stream.encodedFrames == ToInt32(|y.sent|)
    && Listed(StartedFrames(y.stream.wire), PaintedSizes(y.stream.wire), y.sent, y.queued)
  }

  ghost predicate Listed(numbers: seq<nat>, sizes: seq<Size>, sent: seq<nat>, queued: seq<VideoFrame>) {
    && |numbers| == |sent| == |sizes|
    && forall i :: 0 <= i < |sent| ==>
         numbers[i] == i % 0x1_0000_0000 && sent[i] < |queued| && sizes[i] == queued[sent[i]].size
  }

  lemma GraphicsPublish(y: System, status: seq<bool>)
    requires GraphicsInv(y)
    ensures GraphicsInv(Step(y, Publish(status)))
  {
    if y.thread.Copied? {
      ResetShows(y.stream, y.thread.layout, y.thread.frame, status);
    }
  }

  lemma ResetShows(s: State, layout: Layout, frame: VideoFrame, status: seq<bool>)
    requires Coherent(s) && s.capsConfirmed && |layout| <= ID_SPACE
    ensures var (t, ok) := PerformReset(s, layout, frame, status);
            && Coherent(t) && OnlySurfacesChanged(s, t)
            && (ok ==> Shows(t.Peer(), t.surfaces, EffectiveLayout(layout, frame)))
  {
    ResetKeepsClientInStep(s, layout, frame, status);
    var (t, ok) := PerformReset(s, layout, frame, status);
    assert ok ==> ShowsAs(t.Peer(), t.surfaces, EffectiveLayout(layout, frame), frame.outputIndex >= 0);
  }

  lemma GraphicsSubmit(y: System)
    requires GraphicsInv(y)
    ensures GraphicsInv(Step(y, SubmitFrame))
  {
    if y.thread.Ready? {
      SubmitInOrder(y.stream, y.thread.frame);
    }
  }

  lemma GraphicsCaps(y: System, sets: seq<CapSet>)
    requires GraphicsInv(y)
    ensures GraphicsInv(Step(y, Caps(sets)))
  {
    CapsInOrder(y.stream, sets);
    ShowsSomeWhateverTheCaps(y.stream.Peer(), y.stream.surfaces);
    if y.thread.Published? {
      ShowsWhateverTheCaps(y.stream.Peer(), y.stream.surfaces, EffectiveLayout(y.thread.layout, y.thread.frame));
    }
  }

  lemma ShowsWhateverTheCaps(c: Client, surfaces: seq<Surface>, layout: Layout)
    ensures forall confirmed :: Shows(c, surfaces, layout) ==> Shows(c.(capsConfirmed := confirmed), surfaces, layout)
  {
    if Shows(c, surfaces, layout) {
      var perOutput: bool :| ShowsAs(c, surfaces, layout, perOutput);
      forall confirmed
        ensures Shows(c.(capsConfirmed := confirmed), surfaces, layout)
      {
        assert ShowsAs(c.(capsConfirmed := confirmed), surfaces, layout, perOutput);
      }
    }
  }

  lemma ShowsSomeWhateverTheCaps(c: Client, surfaces: seq<Surface>)
    ensures forall confirmed :: ShowsSome(c, surfaces) ==> ShowsSome(c.(capsConfirmed := confirmed), surfaces)
  {
    if ShowsSome(c, surfaces) {
      var layout :| Shows(c, surfaces, layout);
      ShowsWhateverTheCaps(c, surfaces, layout);
    }
  }

  lemma GraphicsStep(y: System, e: Event)
    requires GraphicsInv(y) && (e.StoreLayout? ==> |e.layout| <= ID_SPACE)
    ensures GraphicsInv(Step(y, e))
  {
    match e {
      case Caps(sets) => GraphicsCaps(y, sets);
      case Publish(status) => GraphicsPublish(y, status);
      case SubmitFrame => GraphicsSubmit(y);
      case _ =>
        if e.Take? || e.LoadReset? || e.CopyLayout? || e.ClearReset? {
          GraphicsThread(y, e);
        } else {
          GraphicsOthers(y, e);
        }
    }
  }

  /** The steps of the submission thread that send nothing. */
  lemma GraphicsThread(y: System, e: Event)
    requires GraphicsInv(y) && (e.Take? || e.LoadReset? || e.CopyLayout? || e.ClearReset?)
    ensures GraphicsInv(Step(y, e))
  {
  }

  /** The steps of other threads that send nothing. */
  lemma GraphicsOthers(y: System, e: Event)
    requires GraphicsInv(y) && (e.StoreLayout? ==> |e.layout| <= ID_SPACE)
    requires !(e.Take? || e.LoadReset? || e.CopyLayout? || e.ClearReset? || e.SubmitFrame? || e.Publish? || e.Caps?)
    ensures GraphicsInv(Step(y, e))
  {
    var s, t := y.stream, Step(y, e).stream;
    assert Step(y, e).thread == y.thread && t.wire == s.wire && t.surfaces == s.surfaces;
    assert t.capsConfirmed == s.capsConfirmed && (s.pendingReset ==> t.pendingReset);
  }

  lemma CapsInOrder(s: State, sets: seq<CapSet>)
    requires Coherent(s)
    ensures var t := AdvertiseCaps(s, sets);
            && Coherent(t) && t.Peer() == s.Peer().(capsConfirmed := t.capsConfirmed)
            && StartedFrames(t.wire) == StartedFrames(s.wire)
            && PaintedSizes(t.wire) == PaintedSizes(s.wire)
  {
    if AnyUsable(sets) {
      Sent(NEW_CLIENT, s.wire, CapsConfirm(sets[Highest(sets, |sets|)]));
    }
  }

  lemma QueueAppends(y: System, frame: VideoFrame)
    requires QueueInv(y)
    ensures QueueInv(Step(y, Queue(frame, true)))
  {
  }

  lemma QueueTakes(y: System)
    requires QueueInv(y) && y.thread.Idle? && y.stream.frameQueue != []
    ensures QueueInv(Step(y, Take))
  {
  }

  lemma QueueSubmits(y: System)
    requires QueueInv(y)
    ensures QueueInv(Step(y, SubmitFrame))
  {
  }

  lemma QueueStep(y: System, e: Event)
    requires GraphicsInv(y) && QueueInv(y)
    ensures QueueInv(Step(y, e))
  {
    match e {
      case Queue(frame, streaming) =>
        if streaming && y.stream.enabled {
          QueueAppends(y, frame);
        }
      case Take =>
        if y.thread.Idle? && y.stream.frameQueue != [] {
          QueueTakes(y);
        }
      case SubmitFrame =>
        QueueSubmits(y);
      case Publish(status) =>
        ResetKeepsQueue(y, status);
      case ClearQueue =>
        QueueEmpties(y);
      case _ =>
        QueueOthers(y, e);
    }
  }

  lemma QueueEmpties(y: System)
    requires QueueInv(y)
    ensures QueueInv(Step(y, ClearQueue))
  {
  }

  /** The steps that do not touch the queue and take or send nothing. */
  lemma QueueOthers(y: System, e: Event)
    requires QueueInv(y) && !e.Queue? && !e.Take? && !e.SubmitFrame? && !e.Publish? && !e.ClearQueue?
    ensures QueueInv(Step(y, e))
  {
    var t := Step(y, e);
    assert t.stream.frameQueue == y.stream.frameQueue && t.queued == y.queued && t.sent == y.sent;
    assert t.thread.Idle? || (!y.thread.Idle? && t.thread.at == y.thread.at && t.thread.frame == y.thread.frame);
  }

  lemma ResetKeepsQueue(y: System, status: seq<bool>)
    requires GraphicsInv(y) && QueueInv(y)
    ensures QueueInv(Step(y, Publish(status)))
  {
    if y.thread.Copied? {
      ResetKeepsClientInStep(y.stream, y.thread.layout, y.thread.frame, status);
    }
  }

  lemma CountsOneMore(n: nat)
    ensures ToInt32(ToInt32(n) + 1) == ToInt32(n + 1)
    ensures (n % 0x1_0000_0000 + 1) % 0x1_0000_0000 == (n + 1) % 0x1_0000_0000
  {
  }

  lemma FramesSubmitted(y: System)
    requires FramesInv(y) && y.thread.Ready? && y.thread.at < |y.queued| && y.thread.frame == y.queued[y.thread.at]
    ensures FramesInv(Step(y, SubmitFrame))
  {
    if CanSubmit(y.stream, y.thread.frame) {
      SubmitSends(y.stream, y.thread.frame);
    }
    CountsOneMore(|y.sent|);
    ListsOneMore(StartedFrames(y.stream.wire), PaintedSizes(y.stream.wire), y.sent, y.queued, y.thread.at);
  }

  lemma ListsOneMore(numbers: seq<nat>, sizes: seq<Size>, sent: seq<nat>, queued: seq<VideoFrame>, at: nat)
    requires Listed(numbers, sizes, sent, queued) && at < |queued|
    ensures Listed(numbers + [|sent| % 0x1_0000_0000], sizes + [queued[at].size], sent + [at], queued)
  {
  }

  lemma FramesStep(y: System, e: Event)
    requires GraphicsInv(y) && QueueInv(y) && FramesInv(y)
    ensures FramesInv(Step(y, e))
  {
    if e.SubmitFrame? && y.thread.Ready? {
      FramesSubmitted(y);
    } else {
      PaintsNothing(y, e);
    }
  }

  lemma PaintsNothing(y: System, e: Event)
    requires GraphicsInv(y) && !(e.SubmitFrame? && y.thread.Ready?)
    ensures var t := Step(y, e);
            && t.sent == y.sent && y.queued <= t.queued
            && t.stream.frameId == y.stream.frameId
            && t.stream.encodedFrames == y.stream.encodedFrames
            && StartedFrames(t.stream.wire) == StartedFrames(y.stream.wire)
            && PaintedSizes(t.stream.wire) == PaintedSizes(y.stream.wire)
  {
    match e {
      case Caps(sets) => CapsInOrder(y.stream, sets);
      case Publish(status) => PublishPaintsNothing(y, status);
      case _ => OthersSendNothing(y, e);
    }
  }

  lemma OthersSendNothing(y: System, e: Event)
    requires !e.Caps? && !e.Publish? && !(e.SubmitFrame? && y.thread.Ready?)
    ensures var t := Step(y, e);
            && t.sent == y.sent && y.queued <= t.queued && t.stream.wire == y.stream.wire
            && t.stream.frameId == y.stream.frameId && t.stream.encodedFrames == y.stream.encodedFrames
  {
  }

  lemma PublishPaintsNothing(y: System, status: seq<bool>)
    requires GraphicsInv(y)
    ensures var t := Step(y, Publish(status));
            t == y.(stream := t.stream, thread := t.thread) && OnlySurfacesChanged(y.stream, t.stream)
  {
    if y.thread.Copied? {
      ResetKeepsClientInStep(y.stream, y.thread.layout, y.thread.frame, status);
    }
  }

  ghost predicate Inv(y: System) {
    GraphicsInv(y) && QueueInv(y) && FramesInv(y)
  }

  lemma InvAtStart()
    ensures Inv(START)
  {
  }

  lemma {:induction false} InvAlways(events: seq<Event>)
    requires LayoutsFit(events)
    ensures Inv(Run(START, events))
  {
    if |events| == 0 {
      InvAtStart();
    } else {
      var before, e := events[..|events| - 1], events[|events| - 1];
      InvAlways(before);
      GraphicsStep(Run(START, before), e);
      QueueStep(Run(START, before), e);
      FramesStep(Run(START, before), e);
    }
  }
}

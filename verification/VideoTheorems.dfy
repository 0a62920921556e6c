/** What holds of every run of the stream, however its threads interleave and whichever calls fail. */
module VideoTheorems {
  import opened Basics
  import opened Topology
  import opened GraphicsChannel
  import opened VideoState
  import opened SurfaceProofs
  import opened VideoRuns

  /** Every painting happens between the start and the end of one and the same frame, after the capabilities were
      confirmed, on a surface that is live, created and mapped since the last reset, and of exactly the painted size, at
      the place of one of the outputs of the desktop published by that reset. */
  lemma PaintingIsSafe(events: seq<Event>, i: nat) returns (start: nat, end: nat)
    requires LayoutsFit(events)
    requires i < |Run(START, events).stream.wire| && Run(START, events).stream.wire[i].SurfaceCommand?
    ensures var wire := Run(START, events).stream.wire;
            var c := ReceiveAll(NEW_CLIENT, wire[..i]);
            && start < i < end < |wire|
            && wire[start].StartFrame? && wire[end] == EndFrame(wire[start].frameId)
            && (forall k :: start < k < i ==> !wire[k].StartFrame? && !wire[k].EndFrame?)
            && c.capsConfirmed
            && wire[i].id in c.surfaces && c.surfaces[wire[i].id] == wire[i].size && wire[i].id in c.created
            && wire[i].id in c.mapped && OnDesktop(c.desktop, Output(wire[i].size, c.mapped[wire[i].id]))
  {
    InvAlways(events);
    var wire := Run(START, events).stream.wire;
    EachInOrder(NEW_CLIENT, wire, i);
    start := OpenFrameWasStarted(wire, i);
    end := OpenFrameIsEnded(NEW_CLIENT, wire, i);
  }

  /** Whenever no reset is pending, and from the end of a reset to the end of the send it is part of, the client shows
      some layout: its surfaces are the outputs of the desktop published last. */
  lemma ClientShowsSomeLayout(events: seq<Event>)
    requires LayoutsFit(events)
    ensures var y := Run(START, events);
            !y.stream.pendingReset || y.thread.Published? || y.thread.Ready? ==>
              ShowsSome(y.stream.Peer(), y.stream.surfaces)
  {
    InvAlways(events);
  }

  /** The client holds exactly the surfaces the server lists, under pairwise distinct ids: none leaks, not even when
      a reset fails midway and is tried again, and not even after the id counter wraps. */
  lemma NoSurfaceLeaks(events: seq<Event>)
    requires LayoutsFit(events)
    ensures var s := Run(START, events).stream;
            && s.Peer().surfaces.Keys == (set i | 0 <= i < |s.surfaces| :: s.surfaces[i].id as nat)
            && (forall i :: 0 <= i < |s.surfaces| ==> s.Peer().surfaces[s.surfaces[i].id] == s.surfaces[i].size)
            && DistinctIds(s.surfaces)
  {
    InvAlways(events);
    DistinctIffFewEnough(Run(START, events).stream.surfaces);
  }

  /** The submitted frames are queued frames in queue order, each at most once; the n-th carries number n. */
  lemma SubmittedFramesKeepQueueOrder(events: seq<Event>)
    requires LayoutsFit(events)
    ensures var y := Run(START, events);
            var numbers, sizes := StartedFrames(y.stream.wire), PaintedSizes(y.stream.wire);
            && |numbers| == |sizes| == |y.sent|
            && (forall i, j :: 0 <= i < j < |y.sent| ==> y.sent[i] < y.sent[j])
            && (forall i :: 0 <= i < |y.sent| ==>
                  y.sent[i] < |y.queued| && sizes[i] == y.queued[y.sent[i]].size && numbers[i] == i % 0x1_0000_0000)
  {
    InvAlways(events);
  }

  /** Once the queue was cleared, of the frames queued before only the one the submission thread had already taken
      can still be submitted. */
  lemma {:induction false} ClearingLeavesOnlyTheTakenFrame(y: System, events: seq<Event>)
    requires Inv(y) && y.stream.frameQueue == [] && LayoutsFit(events)
    ensures var z := Run(y, events);
            && Inv(z) && y.sent <= z.sent && |y.queued| <= Unqueued(z)
            && (!z.thread.Idle? ==> Recent(y, z.thread.at))
            && forall i :: |y.sent| <= i < |z.sent| ==> Recent(y, z.sent[i])
  {
    if |events| > 0 {
      var before, e := events[..|events| - 1], events[|events| - 1];
      ClearingLeavesOnlyTheTakenFrame(y, before);
      var z := Run(y, before);
      GraphicsStep(z, e);
      QueueStep(z, e);
      FramesStep(z, e);
      UnqueuedGrows(z, e);
    }
  }

  ghost predicate Recent(y: System, at: nat) {
    at >= |y.queued| || (!y.thread.Idle? && at == y.thread.at)
  }

  lemma UnqueuedGrows(z: System, e: Event)
    requires Inv(z)
    ensures var t := Step(z, e);
            && Unqueued(z) <= Unqueued(t)
            && (t.thread.Idle? || (!z.thread.Idle? && t.thread.at == z.thread.at) || t.thread.at == Unqueued(z))
            && (t.sent == z.sent || (!z.thread.Idle? && t.sent == z.sent + [z.thread.at]))
  {
    if e.Publish? {
      PublishPaintsNothing(z, e.status);
      assert Step(z, e).thread.Idle? || Step(z, e).thread.at == z.thread.at;
    } else {
      UnqueuedByOthers(z, e);
    }
  }

  lemma UnqueuedByOthers(z: System, e: Event)
    requires |z.stream.frameQueue| <= |z.queued| && !e.Publish?
    ensures var t := Step(z, e);
            && Unqueued(z) <= Unqueued(t)
            && (t.thread.Idle? || (!z.thread.Idle? && t.thread.at == z.thread.at) || t.thread.at == Unqueued(z))
            && (t.sent == z.sent || (!z.thread.Idle? && t.sent == z.sent + [z.thread.at]))
  {
  }

  // Acknowledgements.

  /** Of the frames numbered below `sent`, each is pending or acknowledged, and not both. */
  ghost predicate Accounted(pending: set<uint32>, acked: seq<uint32>, sent: nat) {
    && (forall id :: id in pending <==> 0 <= id < sent && id !in acked)
    && (forall i :: 0 <= i < |acked| ==> acked[i] < sent)
    && (forall i, j :: 0 <= i < j < |acked| ==> acked[i] != acked[j])
    && |pending| + |acked| == sent
  }

  ghost predicate AcksInv(y: System) {
    Accounted(y.stream.pendingFrames, y.acked, |y.sent|)
  }

  lemma AcksSubmit(y: System)
    requires AcksInv(y) && y.stream.frameId == |y.sent| % 0x1_0000_0000
    requires |Step(y, SubmitFrame).sent| <= 0x1_0000_0000
    ensures AcksInv(Step(y, SubmitFrame))
  {
  }

  lemma AcksAccept(y: System, id: uint32, total: uint32)
    requires AcksInv(y)
    ensures AcksInv(Step(y, Ack(id, total)))
  {
  }

  lemma AcksUntouched(y: System, e: Event)
    requires Inv(y) && !e.SubmitFrame? && !e.Ack?
    ensures var t := Step(y, e);
            t.sent == y.sent && t.acked == y.acked && t.stream.pendingFrames == y.stream.pendingFrames
  {
    if e.Publish? {
      PublishPaintsNothing(y, e.status);
    }
  }

  lemma AcksStep(y: System, e: Event)
    requires Inv(y) && AcksInv(y) && |Step(y, e).sent| <= 0x1_0000_0000
    ensures AcksInv(Step(y, e))
  {
    match e {
      case SubmitFrame => AcksSubmit(y);
      case Ack(id, total) => AcksAccept(y, id, total);
      case _ => AcksUntouched(y, e);
    }
  }

  lemma {:induction false} AcknowledgementsAreConserved(events: seq<Event>)
    requires LayoutsFit(events) && |Run(START, events).sent| <= 0x1_0000_0000
    ensures AcksInv(Run(START, events))
  {
    if |events| > 0 {
      var before, e := events[..|events| - 1], events[|events| - 1];
      InvAlways(before);
      UnqueuedGrows(Run(START, before), e);
      AcknowledgementsAreConserved(before);
      AcksStep(Run(START, before), e);
    }
  }

  /** An acknowledgement of a pending frame moves it to the acknowledged ones, any other changes nothing. Below 2^31
      frames the delay it records is not negative exactly when the client reports no more decoded frames than were
      sent, or so many more that the difference wraps. */
  lemma AcknowledgementEffect(y: System, id: uint32, total: uint32)
    requires Inv(y) && AcksInv(y) && |y.sent| < 0x8000_0000
    ensures var t := Step(y, Ack(id, total));
            if 0 <= id < |y.sent| && id !in y.acked then
              && t.acked == y.acked + [id]
              && t.stream.pendingFrames == y.stream.pendingFrames - {id}
              && (t.stream.frameDelay >= 0 <==> total <= |y.sent| || total > |y.sent| + 0x8000_0000)
              && (total <= |y.sent| ==> t.stream.frameDelay == |y.sent| - total)
            else t == y
  {
    DelayWraps(|y.sent|, total);
  }

  lemma DelayWraps(sent: nat, total: uint32)
    requires sent < 0x8000_0000
    ensures var delay := ToInt32(ToInt32(sent) - total);
            && (delay >= 0 <==> total <= sent || total > sent + 0x8000_0000)
            && (total <= sent ==> delay == sent - total)
  {
  }

  /** Every acknowledgement reports no more decoded frames than had been sent. */
  ghost predicate Honest(events: seq<Event>) {
    forall i :: 0 <= i < |events| && events[i].Ack? ==>
      events[i].totalFramesDecoded <= |Run(START, events[..i]).sent|
  }

  /** Towards an honest client, and below 2^31 frames, the frame delay is never negative. */
  lemma {:induction false} FrameDelayIsNeverNegative(events: seq<Event>)
    requires LayoutsFit(events) && Honest(events) && |Run(START, events).sent| < 0x8000_0000
    ensures Run(START, events).stream.frameDelay >= 0
  {
    if |events| > 0 {
      var before, e := events[..|events| - 1], events[|events| - 1];
      var y := Run(START, before);
      InvAlways(before);
      UnqueuedGrows(y, e);
      assert Honest(before) by {
        forall i | 0 <= i < |before| && before[i].Ack?
          ensures before[i].totalFramesDecoded <= |Run(START, before[..i]).sent|
        {
          assert before[..i] == events[..i] && before[i] == events[i];
        }
      }
      FrameDelayIsNeverNegative(before);
      if e.Ack? {
        AcknowledgementsAreConserved(before);
        AcknowledgementEffect(y, e.frameId, e.totalFramesDecoded);
      } else {
        DelayUntouched(y, e);
      }
    }
  }

  lemma DelayUntouched(y: System, e: Event)
    requires Inv(y) && !e.Ack?
    ensures Step(y, e).stream.frameDelay == y.stream.frameDelay
  {
    if e.Publish? {
      PublishPaintsNothing(y, e.status);
    }
  }
}

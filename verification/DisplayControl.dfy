/** The request a client's monitor layout makes, and its way to the video stream. */
module DisplayControls {
  import opened Basics
  import opened MonitorLayout
  import opened Topology
  import VideoState
  import opened VideoStreams

  /** The layout is one the decoder accepts. */
  ghost predicate Accepted(layout: Layout) {
    exists ws :: ValidLayout(ws) && layout == DecodedAll(ws)
  }

  datatype AcceptError = NothingPending | NotThePendingRequest

  /** The pending request, and the layouts handed on to the video stream so far. */
  datatype Control = Control(requested: Option<Layout>, forwarded: seq<Layout>)

  datatype Event = Receive(pdu: LayoutPdu) | Accept(monitors: Layout) | Reject

  ghost function Step(c: Control, e: Event): Control {
    match e
    case Receive(pdu) => if ValidPdu(pdu) then c.(requested := Some(DecodedAll(pdu.monitors.value))) else c
    case Accept(monitors) =>
      if c.requested == Some(monitors) then Control(None, c.forwarded + [monitors]) else c
    case Reject => c.(requested := None)
  }

  class DisplayControl {
    const stream: VideoStream
    var requested: Option<Layout>
    ghost var forwarded: seq<Layout>

    ghost function Model(): Control
      reads this
    {
      Control(requested, forwarded)
    }

    constructor (stream: VideoStream)
      ensures this.stream == stream && Model() == Control(None, [])
    {
      this.stream, requested, forwarded := stream, None, [];
    }

    /** A monitor layout message: it replaces the pending request if it is valid, and is refused otherwise. */
    method ReceiveMonitorLayout(pdu: LayoutPdu, wrapped: (nat, nat) -> bool) returns (ok: bool)
      requires pdu.monitors.Some? ==> |pdu.monitors.value| == pdu.count
      modifies this
      ensures ok <==> ValidPdu(pdu)
      ensures Model() == Step(old(Model()), Receive(pdu))
    {
      var decoded := DecodeMonitorLayout(pdu, wrapped);
      if decoded.Failure? {
        return false;
      }
      requested := Some(decoded.value);
      return true;
    }

    method AcceptRequestedMonitorLayout(monitors: Layout) returns (error: Option<AcceptError>)
      modifies this, stream
      ensures Model() == Step(old(Model()), Accept(monitors))
      ensures error == (if old(requested).None? then Some(NothingPending)
                        else if old(requested.value) != monitors then Some(NotThePendingRequest) else None)
      ensures stream.Model() == if error.None? then VideoState.SetMonitorLayout(old(stream.Model()), monitors)
                                else old(stream.Model())
    {
      if requested.None? {
        return Some(NothingPending);
      }
      if requested.value != monitors {
        return Some(NotThePendingRequest);
      }
      requested := None;
      forwarded := forwarded + [monitors];
      stream.SetMonitorLayout(monitors);
      return None;
    }

    method RejectRequestedMonitorLayout()
      modifies this
      ensures Model() == Step(old(Model()), Reject)
    {
      requested := None;
    }
  }

  ghost function Run(events: seq<Event>): Control {
    if |events| == 0 then Control(None, []) else Step(Run(events[..|events| - 1]), events[|events| - 1])
  }

  ghost function ValidRequests(events: seq<Event>): nat {
    if |events| == 0 then 0
    else
      var e := events[|events| - 1];
      ValidRequests(events[..|events| - 1]) + if e.Receive? && ValidPdu(e.pdu) then 1 else 0
  }

  /** Only layouts the decoder accepts reach the video stream this way, and each request at most once. */
  lemma {:induction false} OnlyValidRequestsAreForwarded(events: seq<Event>)
    ensures var c := Run(events);
            && (forall i :: 0 <= i < |c.forwarded| ==> Accepted(c.forwarded[i]))
            && (c.requested.Some? ==> Accepted(c.requested.value))
            && |c.forwarded| + (if c.requested.Some? then 1 else 0) <= ValidRequests(events)
  {
    if |events| > 0 {
      OnlyValidRequestsAreForwarded(events[..|events| - 1]);
    }
  }

  /** The event settles this request, or replaces it. */
  ghost predicate Settles(e: Event, layout: Layout) {
    e.Reject? || (e.Accept? && e.monitors == layout) || (e.Receive? && ValidPdu(e.pdu))
  }

  /** The `i`-th event is a valid request for this layout, and nothing has settled or replaced it since. */
  ghost predicate RequestedAt(events: seq<Event>, layout: Layout, i: nat) {
    && i < |events| && events[i].Receive? && ValidPdu(events[i].pdu)
    && layout == DecodedAll(events[i].pdu.monitors.value)
    && forall k :: i < k < |events| ==> !Settles(events[k], layout)
  }

  ghost predicate StillRequested(events: seq<Event>, layout: Layout) {
    exists i :: RequestedAt(events, layout, i)
  }

  lemma StillRequestedNext(before: seq<Event>, e: Event, layout: Layout)
    ensures StillRequested(before + [e], layout) <==>
            if e.Receive? && ValidPdu(e.pdu) then layout == DecodedAll(e.pdu.monitors.value)
            else !Settles(e, layout) && StillRequested(before, layout)
  {
    var events := before + [e];
    assert events[|before|] == e;
    if e.Receive? && ValidPdu(e.pdu) {
      assert layout == DecodedAll(e.pdu.monitors.value) ==> RequestedAt(events, layout, |before|);
    } else {
      forall i: nat
        ensures RequestedAt(events, layout, i) <==> !Settles(e, layout) && RequestedAt(before, layout, i)
      {
        assert forall k :: 0 <= k < |before| ==> events[k] == before[k];
      }
    }
  }

  /** Over every run, a layout is pending exactly if it is that of a valid request which was neither accepted nor
      rejected nor replaced by another valid one. */
  lemma {:induction false} PendingIff(events: seq<Event>, layout: Layout)
    ensures Run(events).requested == Some(layout) <==> StillRequested(events, layout)
  {
    if |events| > 0 {
      var before, e := events[..|events| - 1], events[|events| - 1];
      assert events == before + [e];
      PendingIff(before, layout);
      StillRequestedNext(before, e, layout);
    }
  }

  /** What is forwarded is exactly what is accepted while it is pending. */
  lemma ForwardedIffPending(events: seq<Event>, monitors: Layout)
    ensures var c, d := Run(events), Step(Run(events), Accept(monitors));
            d.forwarded == if StillRequested(events, monitors) then c.forwarded + [monitors] else c.forwarded
  {
    PendingIff(events, monitors);
  }
}

/** From a client's request to the client's screen: layout requests and the video stream together. */
module ClientDesktop {
  import opened Basics
  import opened Geometry
  import opened MonitorLayout
  import opened Topology
  import opened GraphicsChannel
  import opened VideoState
  import opened SurfaceProofs
  import VideoRuns
  import opened LayoutAgreement
  import DisplayControls

  datatype Session = Session(control: DisplayControls.Control, video: VideoRuns.System)

  const START := Session(DisplayControls.Control(None, []), VideoRuns.START)

  datatype Event = Requesting(event: DisplayControls.Event) | Streaming(call: Call)

  /** Layouts are set by accepting requests only, and nothing overlaps. */
  ghost predicate IsEvent(e: Event) {
    e.Streaming? ==> IsCall(e.call) && !e.call.Changing?
  }

  /** An accepted request changes the layout of the stream. */
  ghost function Step(s: Session, e: Event): Session {
    match e
    case Streaming(call) => s.(video := CallStep(s.video, call))
    case Requesting(event) =>
      var accepted := event.Accept? && s.control.requested == Some(event.monitors);
      Session(DisplayControls.Step(s.control, event),
              if accepted then CallStep(s.video, Changing(event.monitors)) else s.video)
  }

  ghost function Run(events: seq<Event>): Session {
    if |events| == 0 then START else Step(Run(events[..|events| - 1]), events[|events| - 1])
  }

  /** The layout of the request accepted last, or none. */
  function LastAccepted(control: DisplayControls.Control): Layout {
    if control.forwarded == [] then [] else control.forwarded[|control.forwarded| - 1]
  }

  ghost predicate Inv(s: Session) {
    && AtRest(s.video)
    && s.video.stream.monitorLayout == LastAccepted(s.control)
    && (s.control.forwarded != [] ==> DisplayControls.Accepted(LastAccepted(s.control)))
    && (s.control.requested.Some? ==> DisplayControls.Accepted(s.control.requested.value))
  }

  lemma RequestKeepsInv(s: Session, event: DisplayControls.Event)
    requires Inv(s)
    ensures Inv(Step(s, Requesting(event)))
  {
    if event.Accept? && s.control.requested == Some(event.monitors) {
      ChangingKeepsAgreement(s.video, event.monitors);
      ChangingIsAtomic(s.video, event.monitors);
    }
  }

  lemma CallKeepsInv(s: Session, call: Call)
    requires Inv(s) && IsCall(call) && !call.Changing?
    ensures Inv(Step(s, Streaming(call)))
  {
    CallKeepsAgreement(s.video, call);
    CallKeepsLayout(s.video, call);
  }

  lemma {:induction false} InvAlways(events: seq<Event>)
    requires forall i :: 0 <= i < |events| ==> IsEvent(events[i])
    ensures Inv(Run(events))
  {
    if |events| == 0 {
      InvAtStart();
    } else {
      InvAlways(events[..|events| - 1]);
      StepKeepsInv(Run(events[..|events| - 1]), events[|events| - 1]);
    }
  }

  lemma InvAtStart()
    ensures Inv(START)
  {
    VideoRuns.InvAtStart();
  }

  lemma StepKeepsInv(s: Session, e: Event)
    requires Inv(s) && IsEvent(e)
    ensures Inv(Step(s, e))
  {
    match e {
      case Requesting(event) => RequestKeepsInv(s, event);
      case Streaming(call) => CallKeepsInv(s, call);
    }
  }

  /** Where the client shows the surfaces. */
  function ShownAreas(c: Client, surfaces: seq<Surface>): seq<Rect>
    requires AllMapped(c, surfaces)
  {
    seq(|surfaces|, i requires 0 <= i < |surfaces| => RectAt(c.mapped[surfaces[i].id], surfaces[i].size))
  }

  /** The client shows exactly these surfaces, and they fit within its desktop, which is within the limit: no overlap,
      nothing outside, every edge reached; there may be gaps. */
  ghost predicate FitsItsDesktop(c: Client, surfaces: seq<Surface>) {
    && c.desktop.Some?
    && 0 < c.desktop.value.width <= 32766 && 0 < c.desktop.value.height <= 32766
    && Mirrors(c, surfaces, 0) && AllMapped(c, surfaces)
    && FitWithin(ShownAreas(c, surfaces), c.desktop.value.width, c.desktop.value.height)
  }

  lemma OneSurfaceFits(width: int, height: int)
    requires width > 0 && height > 0
    ensures FitWithin([RectAt(Point(0, 0), Size(width, height))], width, height)
  {
    var all := [RectAt(Point(0, 0), Size(width, height))];
    assert all[0] == Rect(0, 0, width - 1, height - 1);
    assert all[..0] == [];
  }

  lemma ShownAreasAre(c: Client, surfaces: seq<Surface>, layout: Layout, perOutput: bool)
    requires layout != [] && ShowsAs(c, surfaces, layout, perOutput)
    ensures AllMapped(c, surfaces)
    ensures var d := DesktopOf(layout);
            ShownAreas(c, surfaces) ==
            if perOutput then MappedAreas(layout) else [RectAt(Point(0, 0), Size(d.width, d.height))]
  {
  }

  lemma AcceptedLayoutFits(c: Client, surfaces: seq<Surface>, layout: Layout)
    requires Mirrors(c, surfaces, 0) && Shows(c, surfaces, layout) && DisplayControls.Accepted(layout)
    ensures FitsItsDesktop(c, surfaces)
  {
    var perOutput: bool :| ShowsAs(c, surfaces, layout, perOutput);
    var ws :| ValidLayout(ws) && layout == DecodedAll(ws);
    PublishedExtentIsTheCheckedExtent(ws);
    PublishedOutputsFitTheDesktop(ws);
    ShownAreasAre(c, surfaces, layout, perOutput);
    OneSurfaceFits(DesktopOf(layout).width, DesktopOf(layout).height);
  }

  /** Whatever the client requests and the application accepts or rejects, whatever frames come and whatever calls fail:
      as long as sends and accepted requests do not overlap, after every event either no request was accepted so far, or
      a reset is pending, or the client was given the desktop of the request accepted last, and what it shows fits
      within that desktop, without overlap, and the desktop is within the limit the decoder checked. */
  lemma ClientShowsTheAcceptedRequest(events: seq<Event>)
    requires forall i :: 0 <= i < |events| ==> IsEvent(events[i])
    ensures var s, last := Run(events).video.stream, LastAccepted(Run(events).control);
            || last == []
            || s.pendingReset
            || (s.Peer().desktop == Some(DesktopOf(last)) && FitsItsDesktop(s.Peer(), s.surfaces))
    ensures LastAccepted(Run(events).control) == [] <==> Run(events).control.forwarded == []
  {
    InvAlways(events);
    AtRestFits(Run(events));
  }

  lemma AtRestFits(s: Session)
    requires Inv(s)
    ensures LastAccepted(s.control) == [] <==> s.control.forwarded == []
    ensures var t, last := s.video.stream, LastAccepted(s.control);
            last != [] && !t.pendingReset ==>
              t.Peer().desktop == Some(DesktopOf(last)) && FitsItsDesktop(t.Peer(), t.surfaces)
  {
    var t, last := s.video.stream, LastAccepted(s.control);
    if s.control.forwarded != [] && !t.pendingReset {
      AcceptedLayoutFits(t.Peer(), t.surfaces, last);
    }
  }
}

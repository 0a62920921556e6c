/** The graphics pipeline channel (MS-RDPEGFX) seen from the client: what it holds after the PDUs it received, and
    which PDU it may receive next. */
module GraphicsChannel {
  import opened Basics
  import opened Geometry
  import opened Topology

  // Capabilities (MS-RDPEGFX, section 2.2.3), with the two flags the server reads.

  const CAPS_81 := 0x00080105
  const CAPS_10 := 0x000A0002
  const CAPS_101 := 0x000A0100
  const CAPS_102 := 0x000A0200
  const CAPS_103 := 0x000A0301
  const CAPS_104 := 0x000A0400
  const CAPS_105 := 0x000A0502
  const CAPS_106 := 0x000A0600
  const CAPS_107 := 0x000A0701

  datatype CapSet = CapSet(version: nat, avc420Enabled: bool, avcDisabled: bool) {
    predicate SupportsAvc() {
      if version in {CAPS_10, CAPS_101, CAPS_102, CAPS_103, CAPS_104, CAPS_105, CAPS_106, CAPS_107} then !avcDisabled
      else version == CAPS_81 && avc420Enabled
    }

    predicate SupportsYuv420() {
      version in {CAPS_104, CAPS_105, CAPS_106, CAPS_107} || (version == CAPS_81 && avc420Enabled)
    }

    predicate Usable() {
      SupportsAvc() && SupportsYuv420()
    }
  }

  datatype Pdu =
    | CapsConfirm(confirmed: CapSet)
    | DeleteSurface(id: nat)
    | ResetGraphics(desktop: Desktop)
    | CreateSurface(id: nat, size: Size)
    | MapSurfaceToOutput(id: nat, origin: Point)
    | StartFrame(frameId: nat)
    | SurfaceCommand(id: nat, size: Size)
    | EndFrame(frameId: nat)

  /** `created` and `mapped` are about the time since the last ResetGraphics. */
  datatype Client = Client(
    capsConfirmed: bool,
    surfaces: map<nat, Size>,
    created: set<nat>,
    mapped: map<nat, Point>,
    desktop: Option<Desktop>,
    openFrame: Option<nat>)

  const NEW_CLIENT := Client(false, map[], {}, map[], None, None)

  /** The effect of one PDU. ResetGraphics forgets where the surfaces were mapped, not the surfaces. */
  function Receive(c: Client, p: Pdu): Client {
    match p
    case CapsConfirm(_) => c.(capsConfirmed := true)
    case DeleteSurface(id) => 
      c.(surfaces := c.surfaces - {id}, created := c.created - {id}, mapped := c.mapped - {id})
    case ResetGraphics(desktop) => c.(desktop := Some(desktop), created := {}, mapped := map[])
    case CreateSurface(id, size) => c.(surfaces := c.surfaces[id := size], created := c.created + {id})
    case MapSurfaceToOutput(id, origin) => c.(mapped := c.mapped[id := origin])
    case StartFrame(frameId) => c.(openFrame := Some(frameId))
    case SurfaceCommand(_, _) => c
    case EndFrame(_) => c.(openFrame := None)
  }

  /** One of the surfaces of a layout that publishes this desktop has this size and place. */
  ghost predicate OnDesktop(desktop: Option<Desktop>, place: Output) {
    exists layout, perOutput: bool, i ::
      && layout != [] && desktop == Some(DesktopOf(layout))
      && 0 <= i < OutputCount(layout, perOutput) && Outputs(layout, perOutput)[i] == place
  }

  /** The PDU is in order: nothing precedes the capability confirmation, surfaces are created under unused ids,
      only live surfaces are deleted, mapped or painted, and painting happens inside a frame, on a surface created
      and mapped since the last reset, of the very size painted, which is one of the outputs of the desktop published by
      that reset. */
  ghost predicate InOrder(c: Client, p: Pdu) {
    match p
    case CapsConfirm(_) => true
    case DeleteSurface(id) => c.capsConfirmed && c.openFrame.None? && id in c.surfaces
    case ResetGraphics(_) => c.capsConfirmed && c.openFrame.None?
    case CreateSurface(id, _) => c.capsConfirmed && c.openFrame.None? && c.desktop.Some? && id !in c.surfaces
    case MapSurfaceToOutput(id, _) => c.capsConfirmed && c.openFrame.None? && id in c.surfaces
    case StartFrame(_) => c.capsConfirmed && c.openFrame.None?
    case SurfaceCommand(id, size) =>
      && c.capsConfirmed && c.openFrame.Some?
      && id in c.surfaces && c.surfaces[id] == size && id in c.created
      && id in c.mapped && OnDesktop(c.desktop, Output(size, c.mapped[id]))
    case EndFrame(frameId) => c.openFrame == Some(frameId)
  }

  function ReceiveAll(c: Client, wire: seq<Pdu>): Client {
    if wire == [] then c else Receive(ReceiveAll(c, wire[..|wire| - 1]), wire[|wire| - 1])
  }

  ghost predicate AllInOrder(c: Client, wire: seq<Pdu>) {
    wire == [] ||
    (AllInOrder(c, wire[..|wire| - 1]) && InOrder(ReceiveAll(c, wire[..|wire| - 1]), wire[|wire| - 1]))
  }

  /** The frame numbers announced by StartFrame, in order. */
  function StartedFrames(wire: seq<Pdu>): seq<nat> {
    if wire == [] then []
    else
      var p := wire[|wire| - 1];
      StartedFrames(wire[..|wire| - 1]) + if p.StartFrame? then [p.frameId] else []
  }

  /** The sizes painted by SurfaceCommand, in order. */
  function PaintedSizes(wire: seq<Pdu>): seq<Size> {
    if wire == [] then []
    else
      var p := wire[|wire| - 1];
      PaintedSizes(wire[..|wire| - 1]) + if p.SurfaceCommand? then [p.size] else []
  }

  lemma Sent(c: Client, wire: seq<Pdu>, p: Pdu)
    ensures ReceiveAll(c, wire + [p]) == Receive(ReceiveAll(c, wire), p)
    ensures AllInOrder(c, wire + [p]) <==> AllInOrder(c, wire) && InOrder(ReceiveAll(c, wire), p)
    ensures StartedFrames(wire + [p]) == StartedFrames(wire) + if p.StartFrame? then [p.frameId] else []
    ensures PaintedSizes(wire + [p]) == PaintedSizes(wire) + if p.SurfaceCommand? then [p.size] else []
  {
  }

  lemma SentTwice(c: Client, wire: seq<Pdu>, p: Pdu, q: Pdu)
    ensures var d := ReceiveAll(c, wire);
            && ReceiveAll(c, wire + [p] + [q]) == Receive(Receive(d, p), q)
            && (AllInOrder(c, wire + [p] + [q]) <==> AllInOrder(c, wire) && InOrder(d, p) && InOrder(Receive(d, p), q))
    ensures StartedFrames(wire + [p] + [q]) == StartedFrames(wire)
              + (if p.StartFrame? then [p.frameId] else []) + if q.StartFrame? then [q.frameId] else []
    ensures PaintedSizes(wire + [p] + [q]) == PaintedSizes(wire)
              + (if p.SurfaceCommand? then [p.size] else []) + if q.SurfaceCommand? then [q.size] else []
  {
    Sent(c, wire, p);
    Sent(c, wire + [p], q);
  }

  /** A frame with one painting in it. */
  lemma FrameSent(c: Client, wire: seq<Pdu>, frameId: nat, id: nat, size: Size)
    ensures var after := wire + [StartFrame(frameId)] + [SurfaceCommand(id, size)] + [EndFrame(frameId)];
            var d := ReceiveAll(c, wire);
            && ReceiveAll(c, after) == d.(openFrame := None)
            && (AllInOrder(c, after) <==> AllInOrder(c, wire) && InOrder(d, StartFrame(frameId))
                                          && InOrder(d.(openFrame := Some(frameId)), SurfaceCommand(id, size)))
            && StartedFrames(after) == StartedFrames(wire) + [frameId]
            && PaintedSizes(after) == PaintedSizes(wire) + [size]
  {
    FramePainted(c, wire, frameId, id, size);
    Sent(c, wire + [StartFrame(frameId)] + [SurfaceCommand(id, size)], EndFrame(frameId));
  }

  lemma FramePainted(c: Client, wire: seq<Pdu>, frameId: nat, id: nat, size: Size)
    ensures var after := wire + [StartFrame(frameId)] + [SurfaceCommand(id, size)];
            var d := ReceiveAll(c, wire);
            && ReceiveAll(c, after) == d.(openFrame := Some(frameId))
            && (AllInOrder(c, after) <==> AllInOrder(c, wire) && InOrder(d, StartFrame(frameId))
                                          && InOrder(d.(openFrame := Some(frameId)), SurfaceCommand(id, size)))
            && StartedFrames(after) == StartedFrames(wire) + [frameId]
            && PaintedSizes(after) == PaintedSizes(wire) + [size]
  {
    SentTwice(c, wire, StartFrame(frameId), SurfaceCommand(id, size));
  }

  /** In an orderly exchange every prefix is orderly, so every PDU was in order when it was sent. */
  lemma {:induction false} EachInOrder(c: Client, wire: seq<Pdu>, i: nat)
    requires AllInOrder(c, wire) && i < |wire|
    ensures InOrder(ReceiveAll(c, wire[..i]), wire[i])
  {
    if i < |wire| - 1 {
      EachInOrder(c, wire[..|wire| - 1], i);
      assert wire[..|wire| - 1][..i] == wire[..i];
    }
  }

  lemma ReceivesNext(c: Client, wire: seq<Pdu>, i: nat)
    requires i < |wire|
    ensures ReceiveAll(c, wire[..i + 1]) == Receive(ReceiveAll(c, wire[..i]), wire[i])
  {
    assert wire[..i + 1] == wire[..i] + [wire[i]];
    Sent(c, wire[..i], wire[i]);
  }

  lemma OpenFrameGoesOn(c: Client, p: Pdu)
    requires InOrder(c, p) && c.openFrame.Some?
    ensures if p.EndFrame? then p == EndFrame(c.openFrame.value) else Receive(c, p).openFrame == c.openFrame
  {
  }

  /** A frame that is open and no longer open at the end was ended under its own number. */
  lemma {:induction false} OpenFrameIsEnded(c: Client, wire: seq<Pdu>, i: nat) returns (end: nat)
    requires AllInOrder(c, wire) && i <= |wire|
    requires ReceiveAll(c, wire).openFrame.None? && ReceiveAll(c, wire[..i]).openFrame.Some?
    ensures i <= end < |wire| && wire[end] == EndFrame(ReceiveAll(c, wire[..i]).openFrame.value)
    decreases |wire| - i
  {
    assert wire[..|wire|] == wire;
    EachInOrder(c, wire, i);
    ReceivesNext(c, wire, i);
    OpenFrameGoesOn(ReceiveAll(c, wire[..i]), wire[i]);
    if wire[i].EndFrame? {
      end := i;
    } else {
      end := OpenFrameIsEnded(c, wire, i + 1);
    }
  }

  /** A frame that is open was started under its own number, and nothing started or ended a frame since. */
  lemma {:induction false} OpenFrameWasStarted(wire: seq<Pdu>, i: nat) returns (start: nat)
    requires i <= |wire| && ReceiveAll(NEW_CLIENT, wire[..i]).openFrame.Some?
    ensures start < i && wire[start] == StartFrame(ReceiveAll(NEW_CLIENT, wire[..i]).openFrame.value)
    ensures forall k :: start < k < i ==> !wire[k].StartFrame? && !wire[k].EndFrame?
  {
    if i > 0 {
      assert wire[..i] == wire[..i - 1] + [wire[i - 1]];
      Sent(NEW_CLIENT, wire[..i - 1], wire[i - 1]);
      if wire[i - 1].StartFrame? {
        start := i - 1;
      } else {
        start := OpenFrameWasStarted(wire, i - 1);
      }
    }
  }
}
